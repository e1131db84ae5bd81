/** Shared vocabulary of the three screens: optional values, the outcome of one
    HTTP exchange as the handlers see it, the toast shown to the user and the
    routes the handlers navigate to. */
module Common {

  datatype Option<+T> = None | Some(value: T)

  /** What an awaited axios call hands back to its handler: the response
      payload, or an exception caught by the handler's `catch` block (transport
      error or non-2xx status; the handlers do not tell them apart). */
  datatype Response<+T> = Ok(payload: T) | Failed

  /** A `message.success(...)` or `message.error(...)` toast. */
  datatype Toast = Success(text: string) | Error(text: string)

  /** A path handed to `navigate`. */
  type Route = string

  const RootRoute: Route := "/"
  const NotesRoute: Route := "/notes"
}
