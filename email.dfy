/** The e-mail format check of the signup form, the regular expression
    `^[a-zA-Z0-9._-]+@[a-zA-Z0-9.-]+\.[a-zA-Z]{2,6}$`, read structurally as
    `L "@" D "." T`, together with a left-to-right scanner that is proved to
    accept exactly the strings of that shape. */
module EmailFormat {
  import opened Text

  predicate IsAsciiLetter(c: char) {
    'a' <= c <= 'z' || 'A' <= c <= 'Z'
  }

  predicate IsDigit(c: char) {
    '0' <= c <= '9'
  }

  /** The class `[a-zA-Z0-9._-]` of the part before the '@'. */
  predicate IsLocalChar(c: char) {
    IsAsciiLetter(c) || IsDigit(c) || c == '.' || c == '_' || c == '-'
  }

  /** The class `[a-zA-Z0-9.-]` of the part after the '@'. */
  predicate IsDomainChar(c: char) {
    IsAsciiLetter(c) || IsDigit(c) || c == '.' || c == '-'
  }

  predicate AllLocal(s: string) {
    forall k :: 0 <= k < |s| ==> IsLocalChar(s[k])
  }

  predicate AllDomain(s: string) {
    forall k :: 0 <= k < |s| ==> IsDomainChar(s[k])
  }

  predicate AllLetters(s: string) {
    forall k :: 0 <= k < |s| ==> IsAsciiLetter(s[k])
  }

  /** L: `[a-zA-Z0-9._-]+` */
  ghost predicate IsLocalPart(l: string) {
    |l| > 0 && AllLocal(l)
  }

  /** D: `[a-zA-Z0-9.-]+` */
  ghost predicate IsDomainPart(d: string) {
    |d| > 0 && AllDomain(d)
  }

  /** T: `[a-zA-Z]{2,6}` */
  ghost predicate IsTld(t: string) {
    2 <= |t| <= 6 && AllLetters(t)
  }

  /** `w` is `L "@" D "." T` with the '@' at index `a` and the '.' at index `p`. */
  ghost predicate SplitsAt(w: string, a: int, p: int) {
    && 0 <= a < p < |w|
    && w[a] == '@'
    && w[p] == '.'
    && IsLocalPart(w[..a])
    && IsDomainPart(w[a + 1..p])
    && IsTld(w[p + 1..])
  }

  /** The structural reading of the regular expression. */
  ghost predicate IsEmail(w: string) {
    exists a, p :: SplitsAt(w, a, p)
  }

  // ---------------------------------------------------------------------
  // The scanner

  /** What the scanner remembers about the last '.' after the '@': whether a
      domain character precedes it, how many characters follow it and whether
      all of those are letters. */
  datatype DotInfo = NoDot | LastDot(domainBefore: bool, tailLen: nat, tailLetters: bool)

  datatype ScanState =
    | InLocal(localLen: nat)
    | InDomain(domainLen: nat, dot: DotInfo)
    | Rejected

  /** Consume one character. */
  function Step(st: ScanState, c: char): ScanState {
    match st
    case InLocal(n) =>
      if c == '@' then (if n > 0 then InDomain(0, NoDot) else Rejected)
      else if IsLocalChar(c) then InLocal(n + 1)
      else Rejected
    case InDomain(d, dot) =>
      if c == '.' then InDomain(d + 1, LastDot(d > 0, 0, true))
      else if IsDomainChar(c) then
        InDomain(d + 1, match dot
                        case NoDot => NoDot
                        case LastDot(b, t, l) => LastDot(b, t + 1, l && IsAsciiLetter(c)))
      else Rejected
    case Rejected => Rejected
  }

  /** The state after consuming `w` from left to right. */
  function Scan(w: string): ScanState {
    if w == [] then InLocal(0) else Step(Scan(w[..|w| - 1]), w[|w| - 1])
  }

  predicate Accepting(st: ScanState) {
    && st.InDomain?
    && st.dot.LastDot?
    && st.dot.domainBefore
    && 2 <= st.dot.tailLen <= 6
    && st.dot.tailLetters
  }

  /** `emailRegex.test(w)`. */
  predicate MatchesEmailPattern(w: string) {
    Accepting(Scan(w))
  }

  // ---------------------------------------------------------------------
  // Correctness of the scanner

  /** The summary of the last '.' after index `a`, computed from the whole string. */
  ghost function DotAfter(w: string, a: int): DotInfo {
    var p := LastIndexOf(w, '.');
    if p <= a then NoDot else LastDot(p > a + 1, |w| - 1 - p, AllLetters(w[p + 1..]))
  }

  /** The state the scanner should be in after reading `w`, stated directly. */
  ghost function Expected(w: string): ScanState {
    var a := IndexOf(w, '@');
    if a < 0 then
      (if AllLocal(w) then InLocal(|w|) else Rejected)
    else if 0 < a && AllLocal(w[..a]) && AllDomain(w[a + 1..]) then
      InDomain(|w| - a - 1, DotAfter(w, a))
    else
      Rejected
  }

  lemma IndexOfSnoc(u: string, c: char, x: char)
    ensures IndexOf(u + [c], x) == if IndexOf(u, x) >= 0 then IndexOf(u, x) else if c == x then |u| else -1
  {
    var w := u + [c];
    var i, j := IndexOf(w, x), IndexOf(u, x);
    assert forall k :: 0 <= k < |u| ==> w[k] == u[k];
    if j >= 0 {
      assert w[j] == x;
    } else if c == x {
      assert w[|u|] == x;
    }
  }

  lemma ClassesSnoc(u: string, c: char)
    ensures AllLocal(u + [c]) == (AllLocal(u) && IsLocalChar(c))
    ensures AllDomain(u + [c]) == (AllDomain(u) && IsDomainChar(c))
    ensures AllLetters(u + [c]) == (AllLetters(u) && IsAsciiLetter(c))
  {
    var w := u + [c];
    assert forall k :: 0 <= k < |u| ==> w[k] == u[k];
    assert w[|u|] == c;
  }

  /** One step from a state with no '@' read yet. */
  lemma StepNoAt(u: string, c: char)
    requires IndexOf(u, '@') < 0
    ensures Step(Expected(u), c) == Expected(u + [c])
  {
    var w := u + [c];
    IndexOfSnoc(u, c, '@');
    ClassesSnoc(u, c);
    if c == '@' {
      assert w[..|u|] == u;
      assert w[|u| + 1..] == [];
      assert LastIndexOf(w, '.') == LastIndexOf(u, '.');
    }
  }

  /** How one more character changes the summary of the last '.' after `a`. */
  lemma DotAfterSnoc(u: string, c: char, a: int)
    requires 0 <= a < |u|
    ensures DotAfter(u + [c], a) ==
      if c == '.' then LastDot(|u| > a + 1, 0, true)
      else match DotAfter(u, a)
        case NoDot => NoDot
        case LastDot(b, t, l) => LastDot(b, t + 1, l && IsAsciiLetter(c))
  {
    var w := u + [c];
    assert w[..|w| - 1] == u;
    var p := LastIndexOf(u, '.');
    if c == '.' {
      assert LastIndexOf(w, '.') == |u|;
      assert w[|u| + 1..] == [];
    } else {
      assert LastIndexOf(w, '.') == p;
      if p > a {
        assert w[p + 1..] == u[p + 1..] + [c];
        ClassesSnoc(u[p + 1..], c);
      }
    }
  }

  /** One step from a state past a well-formed local part. */
  lemma StepInDomain(u: string, c: char)
    requires Expected(u).InDomain?
    ensures Step(Expected(u), c) == Expected(u + [c])
  {
    var w := u + [c];
    IndexOfSnoc(u, c, '@');
    var a := IndexOf(u, '@');
    assert w[..a] == u[..a];
    assert w[a + 1..] == u[a + 1..] + [c];
    ClassesSnoc(u[a + 1..], c);
    DotAfterSnoc(u, c, a);
  }

  /** Once rejected, every extension is rejected. */
  lemma StepRejected(u: string, c: char)
    requires Expected(u).Rejected?
    ensures Expected(u + [c]).Rejected?
  {
    var w := u + [c];
    IndexOfSnoc(u, c, '@');
    ClassesSnoc(u, c);
    var a := IndexOf(u, '@');
    if a >= 0 {
      assert w[..a] == u[..a];
      assert w[a + 1..] == u[a + 1..] + [c];
      ClassesSnoc(u[a + 1..], c);
    } else if c == '@' {
      assert w[..|u|] == u;
    }
  }

  /** The scanner's state after `w` is the directly stated one. */
  lemma {:induction false} ScanExpected(w: string)
    ensures Scan(w) == Expected(w)
  {
    if w != [] {
      var u, c := w[..|w| - 1], w[|w| - 1];
      assert w == u + [c];
      ScanExpected(u);
      if IndexOf(u, '@') < 0 {
        StepNoAt(u, c);
      } else if Expected(u).InDomain? {
        StepInDomain(u, c);
      } else {
        StepRejected(u, c);
      }
    }
  }

  lemma SliceClasses(s: string, i: int, j: int)
    requires 0 <= i <= j <= |s|
    ensures AllLocal(s) ==> AllLocal(s[i..j])
    ensures AllDomain(s) ==> AllDomain(s[i..j])
    ensures AllLetters(s) ==> AllLetters(s[i..j])
  {
    assert forall k :: 0 <= k < j - i ==> s[i..j][k] == s[i + k];
  }

  /** Every string the scanner accepts has the shape `L "@" D "." T`. */
  lemma ScanSound(w: string)
    requires Accepting(Expected(w))
    ensures SplitsAt(w, IndexOf(w, '@'), LastIndexOf(w, '.'))
  {
    var a, p := IndexOf(w, '@'), LastIndexOf(w, '.');
    assert 0 < a < p;
    SliceClasses(w[a + 1..], 0, p - a - 1);
    assert w[a + 1..][0..p - a - 1] == w[a + 1..p];
  }

  /** In a split string the '@' is the first '@' and the '.' is the last '.'. */
  lemma SplitIndices(w: string, a: int, p: int)
    requires SplitsAt(w, a, p)
    ensures IndexOf(w, '@') == a && LastIndexOf(w, '.') == p
  {
    assert forall k :: 0 <= k < a ==> w[k] == w[..a][k];
    assert forall k :: p < k < |w| ==> w[k] == w[p + 1..][k - p - 1];
  }

  /** The scanner accepts every string of the shape `L "@" D "." T`. */
  lemma ScanComplete(w: string, a: int, p: int)
    requires SplitsAt(w, a, p)
    ensures Accepting(Expected(w))
  {
    SplitIndices(w, a, p);
    var d := w[a + 1..];
    forall k | 0 <= k < |d| ensures IsDomainChar(d[k]) {
      if k < p - a - 1 {
        assert d[k] == w[a + 1..p][k];
      } else if k > p - a - 1 {
        assert d[k] == w[p + 1..][k - (p - a)];
      }
    }
  }

  /** The scanner accepts exactly the strings of the shape `L "@" D "." T`. */
  lemma MatchesEmailPatternIff(w: string)
    ensures MatchesEmailPattern(w) <==> IsEmail(w)
  {
    ScanExpected(w);
    if MatchesEmailPattern(w) {
      ScanSound(w);
    }
    if IsEmail(w) {
      var a, p :| SplitsAt(w, a, p);
      ScanComplete(w, a, p);
    }
  }

  /** The class of each character of a split string, by its position. */
  lemma SplitChar(w: string, a: int, p: int, k: int)
    requires SplitsAt(w, a, p) && 0 <= k < |w|
    ensures k < a ==> IsLocalChar(w[k])
    ensures a < k < p ==> IsDomainChar(w[k])
    ensures p < k ==> IsAsciiLetter(w[k])
  {
    if k < a {
      assert w[k] == w[..a][k];
    } else if a < k < p {
      assert w[k] == w[a + 1..p][k - a - 1];
    } else if p < k {
      assert w[k] == w[p + 1..][k - p - 1];
    }
  }

  /** An accepted address has exactly one '@', and its last '.' is followed
      by two to six ASCII letters that end the string. */
  lemma EmailShape(w: string)
    requires IsEmail(w)
    ensures exists a :: 0 <= a < |w| && w[a] == '@' && forall k :: 0 <= k < |w| && w[k] == '@' ==> k == a
    ensures exists p :: 0 <= p < |w| && w[p] == '.' && 2 <= |w| - 1 - p <= 6 && forall k :: p < k < |w| ==> IsAsciiLetter(w[k])
  {
    var a, p :| SplitsAt(w, a, p);
    forall k | 0 <= k < |w|
      ensures w[k] == '@' ==> k == a
      ensures p < k ==> IsAsciiLetter(w[k])
    {
      SplitChar(w, a, p, k);
    }
  }

  /** Gluing valid parts together gives an accepted address. */
  lemma EmailOfParts(l: string, d: string, t: string)
    requires IsLocalPart(l) && IsDomainPart(d) && IsTld(t)
    ensures MatchesEmailPattern(l + "@" + d + "." + t)
  {
    var w := l + "@" + d + "." + t;
    var a, p := |l|, |l| + 1 + |d|;
    assert w[..a] == l;
    assert w[a + 1..p] == d;
    assert w[p + 1..] == t;
    assert SplitsAt(w, a, p);
    MatchesEmailPatternIff(w);
  }
}
