/**
 * The outcome of one HTTP request as the script sees it through axios.
 * Every request of the script is a parameter of the model: a value of this
 * type stands for what the awaited `axios.get` produced.
 */
module Http {
  import opened Wrappers

  /** The only status the script accepts as success. */
  const OK: int := 200

  /** "Too many requests": the only status the dependents loop survives. */
  const TOO_MANY_REQUESTS: int := 429

  /**
   * `Received` is a resolved promise: a status and the decoded body.
   * `Rejected` is a thrown error; `errorStatus` is `error.response.status`
   * when the error carries a response, and `None` for a transport failure
   * (or any other exception raised while handling the response).
   */
  datatype Fetch<+T> =
    | Received(status: int, data: T)
    | Rejected(errorStatus: Option<int>)
}
