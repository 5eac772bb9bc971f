/**
 * The guards of `crate::session`: the private "account_id" cookie holds the
 * account id itself, and account existence is a stub that knows a single
 * account. The confirmation route is the one route guarded by them; every
 * other route uses the guards of the `Session` module.
 */
module SessionDraft {
  import opened Wrappers
  import opened Http

  /** The private cookie these guards read. */
  const AccountIdCookieName := "account_id"

  /**
   * The value of the "account_id" cookie, held decrypted, as `get_private`
   * returns it; no other cookie is looked at.
   */
  function AccountCookie(cookies: map<string, Cookie>): (r: Option<string>)
    ensures r.Some? <==> AccountIdCookieName in cookies
    ensures r.Some? ==> r.value == cookies[AccountIdCookieName].value
  {
    if AccountIdCookieName in cookies then Some(cookies[AccountIdCookieName].value) else None
  }

  /** The one account the stub knows. */
  const ValidAccountId := "valid_account_id"

  predicate IsValidAccount(account_id: string)
  {
    account_id == ValidAccountId
  }

  datatype Connected = Connected(account_id: string)

  /** Anonymous-only guard: a valid cookie is LoggedIn, an invalid one InvalidSession. */
  function Unconnected(cookie: Option<string>): (o: Outcome<()>)
    ensures o.Pass? <==> cookie.None?
    ensures cookie.Some? && cookie.value == ValidAccountId ==> o == Fail(Forbidden, LoggedIn)
    ensures cookie.Some? && cookie.value != ValidAccountId ==> o == Fail(BadRequest, InvalidSession)
  {
    match cookie
    case None => Pass(())
    case Some(value) =>
      if IsValidAccount(value) then Fail(Forbidden, LoggedIn) else Fail(BadRequest, InvalidSession)
  }

  /** Logged-in guard: the cookie's value is the account id. */
  function Connect(cookie: Option<string>): (o: Outcome<Connected>)
    ensures cookie.None? ==> o == Fail(Unauthorized, NotLoggedIn)
    ensures o.Pass? <==> cookie == Some(ValidAccountId)
    ensures o.Pass? ==> o.value.account_id == cookie.value
    ensures cookie.Some? && cookie.value != ValidAccountId ==> o == Fail(BadRequest, InvalidSession)
  {
    match cookie
    case None => Fail(Unauthorized, NotLoggedIn)
    case Some(value) =>
      if IsValidAccount(value) then Pass(Connected(value)) else Fail(BadRequest, InvalidSession)
  }

  /**
   * These guards split every request three ways: anonymous (only
   * `Unconnected` passes), logged in (only `Connect` passes), or holding an
   * invalid cookie (both fail with InvalidSession).
   */
  lemma GuardsPartition(cookie: Option<string>)
    ensures !(Unconnected(cookie).Pass? && Connect(cookie).Pass?)
    ensures Unconnected(cookie).Fail? && Connect(cookie).Fail? <==>
              Unconnected(cookie) == Fail(BadRequest, InvalidSession) && Connect(cookie) == Fail(BadRequest, InvalidSession)
  {
  }
}
