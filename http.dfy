/**
 * The pieces of the web framework the modelled handlers touch: response
 * statuses, the outcome of a request guard, the handlers' result, and the
 * request's cookie jar.
 */
module Http {
  import opened Wrappers

  datatype Status = OK | Created | BadRequest | Unauthorized | Forbidden | Conflict | InternalServerError

  /** The error a session guard fails with. */
  datatype SessionError = LoggedIn | NotLoggedIn | InvalidSession

  /** A request guard either lets the request through with a value or stops it. */
  datatype Outcome<T> = Pass(value: T) | Fail(status: Status, error: SessionError)

  /**
   * What a route answers: a success with its payload, a failure with its
   * message, or a guard failure, in which case the handler body is never entered.
   */
  datatype ApiResult<P> =
    | Success(status: Status, payload: P)
    | Failure(status: Status, message: string)
    | Rejected(status: Status, error: SessionError)
  {
    function StatusOf(): Status
    {
      match this
      case Success(s, _) => s
      case Failure(s, _) => s
      case Rejected(s, _) => s
    }
  }

  /** A cookie's value and, if it has one, its expiry instant in seconds. */
  datatype Cookie = Cookie(value: string, expires: Option<nat>)

  const SessionCookieName := "session"

  /**
   * The request's cookies together with the changes the handler makes to
   * them. A value is held decrypted: a guard reads the value the handler
   * stored, as a private read (`get_private`) returns it.
   */
  class CookieJar {
    var cookies: map<string, Cookie>

    constructor (cookies: map<string, Cookie>)
      ensures this.cookies == cookies
    {
      this.cookies := cookies;
    }

    /** The value of the session cookie, if the request has one. */
    function SessionCookie(): (r: Option<string>)
      reads this
      ensures r.Some? <==> SessionCookieName in cookies
    {
      if SessionCookieName in cookies then Some(cookies[SessionCookieName].value) else None
    }

    method Add(name: string, cookie: Cookie)
      modifies this
      ensures cookies == old(cookies)[name := cookie]
    {
      cookies := cookies[name := cookie];
    }

    method Remove(name: string)
      modifies this
      ensures cookies == old(cookies) - {name}
    {
      cookies := cookies - {name};
    }
  }
}
