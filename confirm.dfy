/**
 * POST /confirm: redeems a registration token and creates the account parked
 * under it. The token is popped before the account is written, so it is spent
 * whatever the database answers. The route is guarded by the anonymous-only
 * guard of `crate::session` (module `SessionDraft`), which reads the private
 * "account_id" cookie and never the "session" cookie a login sets.
 */
module Confirm {
  import opened Wrappers
  import opened Uuid
  import opened Http
  import Cache
  import Database
  import SessionDraft
  import Tokens

  type Parked = Cache.Store<Database.NewUser>

  function InvalidToken(token: SerdeUuid): string
  {
    "invalid registration token '" + Format(token.bytes) + "'"
  }

  /** The reply of the account creation on success. */
  function AccountCreated(username: string): string
  {
    "Great success! New user account '" + username + "' has been created!"
  }

  const CreationFailed := "could not create new user account"

  /** The cache key the token is redeemed under. */
  function Name(token: SerdeUuid): string
  {
    Tokens.TokenName(Tokens.Registration, token)
  }

  /** The guard's verdict on the request's cookies. */
  function Guard(cookies: map<string, Cookie>): Outcome<()>
  {
    SessionDraft.Unconnected(SessionDraft.AccountCookie(cookies))
  }

  /** The account creation the request sends to the database: only for a live token, past the guard. */
  function Issued(token: SerdeUuid, cookies: map<string, Cookie>, items: Parked, now: nat): (w: Option<Database.Write>)
    ensures w.Some? <==> SessionDraft.AccountIdCookieName !in cookies && Cache.Live(items, Name(token), now).Some?
    ensures w.Some? ==> w.value == Database.CreateAccount(items[Name(token)].value)
  {
    if Guard(cookies).Fail? then None
    else match Cache.Live(items, Name(token), now)
      case None => None
      case Some(user) => Some(Database.CreateAccount(user))
  }

  /** The reply; `created` is whether the database accepted the account creation. */
  function Reply(token: SerdeUuid, cookies: map<string, Cookie>, items: Parked, now: nat, created: bool)
    : (r: ApiResult<string>)
    ensures SessionDraft.AccountCookie(cookies) == Some(SessionDraft.ValidAccountId) ==> r == Rejected(Forbidden, LoggedIn)
    ensures (SessionDraft.AccountIdCookieName in cookies
             && cookies[SessionDraft.AccountIdCookieName].value != SessionDraft.ValidAccountId)
              ==> r == Rejected(BadRequest, InvalidSession)
    ensures (SessionDraft.AccountIdCookieName !in cookies && Cache.Live(items, Name(token), now).None?)
              ==> r == Failure(BadRequest, InvalidToken(token))
    ensures Issued(token, cookies, items, now).Some? ==>
              r == if created then Success(Created, AccountCreated(Issued(token, cookies, items, now).value.user.username))
                   else Failure(Conflict, CreationFailed)
  {
    match Guard(cookies)
    case Fail(status, error) => Rejected(status, error)
    case Pass(_) =>
      match Cache.Live(items, Name(token), now)
      case None => Failure(BadRequest, InvalidToken(token))
      case Some(user) =>
        if created then Success(Created, AccountCreated(user.username)) else Failure(Conflict, CreationFailed)
  }

  /** The registration cache after the request: the token's entry is gone, unless the guard refused. */
  function Remaining(token: SerdeUuid, cookies: map<string, Cookie>, items: Parked): (r: Parked)
    ensures SessionDraft.AccountIdCookieName !in cookies ==>
              Name(token) !in r && forall k :: k != Name(token) ==> (k in r <==> k in items)
    ensures SessionDraft.AccountIdCookieName in cookies ==> r == items
  {
    if Guard(cookies).Fail? then items else items - {Name(token)}
  }

  /** The route. `created` is the database's verdict on the account creation, if one is sent. */
  method Post(token: SerdeUuid, cookies: map<string, Cookie>, newUsers: Cache.Cache<Database.NewUser>, now: nat,
              created: bool)
    returns (r: ApiResult<string>, write: Option<Database.Write>)
    modifies newUsers
    ensures r == Reply(token, cookies, old(newUsers.items), now, created)
    ensures write == Issued(token, cookies, old(newUsers.items), now)
    ensures newUsers.items == Remaining(token, cookies, old(newUsers.items))
  {
    match SessionDraft.Unconnected(SessionDraft.AccountCookie(cookies)) {
      case Fail(status, error) =>
        return Rejected(status, error), None;
      case Pass(_) =>
    }
    var newUser := newUsers.Del(Name(token), now);
    match newUser {
      case None =>
        return Failure(BadRequest, InvalidToken(token)), None;
      case Some(user) =>
        write := Some(Database.CreateAccount(user));
        if created {
          r := Success(Created, AccountCreated(user.username));
        } else {
          r := Failure(Conflict, CreationFailed);
        }
    }
  }

  // ---------------------------------------------------------------------------
  // Properties across requests

  /** A confirmation within five minutes of a registration creates exactly the registered user. */
  lemma RegisterThenConfirm(items: Parked, token: SerdeUuid, user: Database.NewUser, cookies: map<string, Cookie>,
                            now: nat, later: nat, created: bool)
    requires SessionDraft.AccountIdCookieName !in cookies
    requires now <= later <= now + Tokens.TokenLifetime
    ensures var parked := items[Name(token) := Cache.NewItem(user, now, Tokens.TokenLifetime)];
            && Issued(token, cookies, parked, later) == Some(Database.CreateAccount(user))
            && Reply(token, cookies, parked, later, created)
                 == if created then Success(Created, AccountCreated(user.username)) else Failure(Conflict, CreationFailed)
  {
    Cache.SetThenLive(items, Name(token), user, Tokens.TokenLifetime, now, later);
  }

  /** Once five minutes have passed the registration token is refused. */
  lemma ConfirmTooLate(items: Parked, token: SerdeUuid, user: Database.NewUser, cookies: map<string, Cookie>,
                       now: nat, later: nat, created: bool)
    requires SessionDraft.AccountIdCookieName !in cookies
    requires later > now + Tokens.TokenLifetime
    ensures var parked := items[Name(token) := Cache.NewItem(user, now, Tokens.TokenLifetime)];
            && Issued(token, cookies, parked, later).None?
            && Reply(token, cookies, parked, later, created) == Failure(BadRequest, InvalidToken(token))
  {
    Cache.SetThenExpired(items, Name(token), user, Tokens.TokenLifetime, now, later);
  }

  /**
   * A token redeems at most once: after any confirmation of it, whatever the
   * database answered, a second confirmation is refused and writes nothing.
   */
  lemma ConfirmIsSingleUse(token: SerdeUuid, items: Parked, cookies: map<string, Cookie>, again: map<string, Cookie>,
                           now: nat, later: nat, created: bool)
    requires SessionDraft.AccountIdCookieName !in cookies
    ensures var after := Remaining(token, cookies, items);
            && Issued(token, again, after, later).None?
            && !Reply(token, again, after, later, created).Success?
            && (SessionDraft.AccountIdCookieName !in again ==>
                  Reply(token, again, after, later, created) == Failure(BadRequest, InvalidToken(token)))
  {
  }

  /** Other parked registrations are untouched by a confirmation. */
  lemma ConfirmKeepsOthers(token: SerdeUuid, other: SerdeUuid, cookies: map<string, Cookie>, items: Parked, later: nat)
    requires other != token
    ensures Cache.Live(Remaining(token, cookies, items), Name(other), later) == Cache.Live(items, Name(other), later)
  {
    Tokens.TokenNameInjective(Tokens.Registration, token, Tokens.Registration, other);
  }

  /**
   * The guard never looks at the "session" cookie: a browser holding the
   * session of a login confirms exactly as it would without it.
   */
  lemma SessionCookieIgnored(token: SerdeUuid, cookies: map<string, Cookie>, session: Cookie, items: Parked,
                             now: nat, created: bool)
    ensures var withSession := cookies[SessionCookieName := session];
            && Issued(token, withSession, items, now) == Issued(token, cookies, items, now)
            && Reply(token, withSession, items, now, created) == Reply(token, cookies, items, now, created)
            && Remaining(token, withSession, items) == Remaining(token, cookies, items)
  {
    assert SessionDraft.AccountCookie(cookies[SessionCookieName := session]) == SessionDraft.AccountCookie(cookies);
  }
}
