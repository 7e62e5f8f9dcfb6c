/** The shapes that cross the HTTP boundary: request bodies, the outcome of an
    outbound call made by a route handler, the reply a handler sends, and the
    outcome of a panel's `fetch` to one of the routes. */
module Http {
  import opened Wrappers

  /** JavaScript truthiness of a string that may be absent: present and non-empty. */
  predicate Truthy(v: Option<string>) {
    v.Some? && v.value != ""
  }

  /** `await request.json()`: either it throws (a body that is not JSON) or it
      yields the destructured fields. */
  datatype RequestBody<+T> = Unreadable(message: string) | Fields(fields: T)

  /** An outbound call from a route handler to an external service: it throws
      (network failure, unreadable reply), or answers with `response.ok` false
      and a status text, or answers with `response.ok` true and a payload. */
  datatype Upstream<+T> = Threw(message: string) | NotOk(statusText: string) | Answered(payload: T)

  /** What a route handler replies: a 200 JSON body, or `{ error: message }`
      with a non-200 status. */
  datatype Reply<+T> = Ok(body: T) | Error(status: nat, message: string)

  /** A panel's `fetch` to a route: it throws, or the reply is not ok (any non-2xx
      status), or it is ok and `response.json()` yields `data`. */
  datatype Fetch<+T> = FetchThrew(reason: string) | Rejected | Received(data: T)

  /** `error.message || fallback` in a handler's catch block: an empty message
      is replaced by the handler's fallback text. */
  function CatchMessage(message: string, fallback: string): (m: string)
    ensures message != "" ==> m == message
    ensures message == "" ==> m == fallback
  {
    if message == "" then fallback else message
  }
}
