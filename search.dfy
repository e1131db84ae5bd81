/** The note record and the category search of the notes view. */
module Search {
  import opened Text

  /** A note as the server returns it (`_id` is `id`). */
  datatype Note = Note(id: string, title: string, content: string, category: string)

  /** `note.category.toLowerCase().includes(term)`. */
  predicate CategoryMatches(note: Note, term: string) {
    Contains(Lower(note.category), term)
  }

  /** `notes.filter(note => CategoryMatches(note, term))`. */
  function FilterByCategory(notes: seq<Note>, term: string): (r: seq<Note>)
    ensures |r| <= |notes|
    ensures forall x :: x in r <==> x in notes && CategoryMatches(x, term)
  {
    if notes == [] then []
    else (if CategoryMatches(notes[0], term) then [notes[0]] else []) + FilterByCategory(notes[1..], term)
  }

  /** `idx` lists strictly increasing positions of `s` at which the elements
      of `r` stand, in order. */
  ghost predicate IsIndexing(r: seq<Note>, s: seq<Note>, idx: seq<int>) {
    && |idx| == |r|
    && (forall k :: 0 <= k < |idx| ==> 0 <= idx[k] < |s| && r[k] == s[idx[k]])
    && (forall k, l :: 0 <= k < l < |idx| ==> idx[k] < idx[l])
  }

  /** `r` is `s` with some elements left out and the rest in their order. */
  ghost predicate IsSubsequence(r: seq<Note>, s: seq<Note>) {
    exists idx :: IsIndexing(r, s, idx)
  }

  /** `r` consists of exactly the elements of `s` at the positions whose note
      matches `term`, in their original order. */
  ghost predicate SelectsMatching(r: seq<Note>, s: seq<Note>, term: string) {
    exists idx :: IsIndexing(r, s, idx) && forall j :: 0 <= j < |s| ==> (CategoryMatches(s[j], term) <==> j in idx)
  }

  lemma SubsequenceReflexive(s: seq<Note>)
    ensures IsSubsequence(s, s)
  {
    var idx := seq(|s|, k => k);
    assert IsIndexing(s, s, idx);
  }

  /** Positions in `s[1..]` become positions in `s` one further on. */
  lemma ShiftIndexing(r: seq<Note>, s: seq<Note>, tail: seq<int>) returns (shifted: seq<int>)
    requires s != [] && IsIndexing(r, s[1..], tail)
    ensures IsIndexing(r, s, shifted)
    ensures forall k :: 0 <= k < |shifted| ==> shifted[k] >= 1
    ensures forall j :: 1 <= j < |s| ==> (j in shifted <==> j - 1 in tail)
  {
    shifted := seq(|tail|, k requires 0 <= k < |tail| => tail[k] + 1);
    forall j | 1 <= j < |s| ensures j in shifted <==> j - 1 in tail {
      if j - 1 in tail {
        var k :| 0 <= k < |tail| && tail[k] == j - 1;
        assert shifted[k] == j;
      }
    }
  }

  /** Putting the head of `s` in front keeps an indexing an indexing. */
  lemma ConsIndexing(r: seq<Note>, s: seq<Note>, idx: seq<int>)
    requires s != [] && IsIndexing(r, s, idx)
    requires forall k :: 0 <= k < |idx| ==> idx[k] >= 1
    ensures IsIndexing([s[0]] + r, s, [0] + idx)
  {
  }

  /** The filter keeps exactly the matching notes, in order. */
  lemma {:induction false} FilterSelectsMatching(s: seq<Note>, term: string) returns (idx: seq<int>)
    ensures IsIndexing(FilterByCategory(s, term), s, idx)
    ensures forall j :: 0 <= j < |s| ==> (CategoryMatches(s[j], term) <==> j in idx)
  {
    if s == [] {
      idx := [];
    } else {
      var rest := FilterByCategory(s[1..], term);
      var tail := FilterSelectsMatching(s[1..], term);
      var shifted := ShiftIndexing(rest, s, tail);
      if CategoryMatches(s[0], term) {
        ConsIndexing(rest, s, shifted);
        idx := [0] + shifted;
      } else {
        idx := shifted;
      }
      forall j | 0 <= j < |s| ensures CategoryMatches(s[j], term) <==> j in idx {
        if j >= 1 {
          assert s[j] == s[1..][j - 1];
          assert j in idx <==> j in shifted;
        } else {
          assert 0 !in shifted;
        }
      }
    }
  }

  /** The filtered list is a subsequence of the list it filters. */
  lemma FilterIsSubsequence(s: seq<Note>, term: string)
    ensures IsSubsequence(FilterByCategory(s, term), s)
  {
    var idx := FilterSelectsMatching(s, term);
  }

  /** Every note matches the empty term, so filtering by it changes nothing. */
  lemma {:induction false} FilterByEmptyTerm(s: seq<Note>)
    ensures FilterByCategory(s, "") == s
  {
    if s != [] {
      FilterByEmptyTerm(s[1..]);
      ContainsEmpty(Lower(s[0].category));
    }
  }
}
