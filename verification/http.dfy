/** What a handler hands back: the store after the request, the HTTP reply, and the image-host
    deletions it asked for, in order. */
module Http {
  import opened Db

  /** A JSON reply: a success status with a body, or an error status with a message. */
  datatype Reply<+T> = Ok(status: int, body: T) | Fail(status: int, message: string)

  /** The outcome of one request. `destroyed` lists the public ids passed to the image host's
      destroy call; the host's own failures are swallowed by every caller. */
  datatype Handled<+T> = Handled(store: Store, reply: Reply<T>, destroyed: seq<string>)

  /** A request that was answered without touching the store or the image host. */
  function Refuse<T>(s: Store, status: int, message: string): (h: Handled<T>)
    ensures h.store == s && h.destroyed == [] && h.reply == Fail(status, message)
  {
    Handled(s, Fail(status, message), [])
  }

  /** The generic 500 reply of a handler whose store call threw. */
  const ServerError := "Server error"
}
