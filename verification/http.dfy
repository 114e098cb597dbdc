/** How the components read the outcome of an axios request. */
module Http {
  import opened JsValues

  /** What an axios call produced: a response carrying its HTTP status and the
      `message` field of its JSON body, or no response at all (a network error). */
  datatype Response = Answered(status: int, message: JsValue) | NoResponse

  /** axios's default `validateStatus`: the promise resolves for a 2xx status
      and rejects (the caller's `catch` runs) for anything else. */
  predicate Rejects(r: Response) {
    r.NoResponse? || !(200 <= r.status < 300)
  }

  /** The body's `message` as `error.response?.data?.message` reads it. */
  function ServerMessage(r: Response): (m: JsValue)
    ensures r.NoResponse? ==> m == Undefined
  {
    match r
    case Answered(_, message) => message
    case NoResponse => Undefined
  }

  /** `serverMessage || fallback`: the server's message when it is truthy,
      otherwise the component's fixed text. */
  function ErrorText(serverMessage: JsValue, fallback: string): (m: JsValue)
    requires fallback != ""
    ensures Truthy(m)
    ensures Truthy(serverMessage) ==> m == serverMessage
    ensures !Truthy(serverMessage) ==> m == Str(fallback)
  {
    if Truthy(serverMessage) then serverMessage else Str(fallback)
  }
}
