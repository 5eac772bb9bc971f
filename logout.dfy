/**
 * POST /logout: drops the caller's session when the request is connected and
 * always clears the "session" cookie.
 */
module Logout {
  import opened Wrappers
  import opened Http
  import Cache
  import Database
  import Session

  const LoggedOut := "logged out"

  /**
   * The sessions cache after a logout: the `IsConnected` guard's read, then
   * the removal of the connected account's session.
   */
  function LogoutEffect(cookie: Option<string>, items: Session.Sessions, db: Database.Db, now: nat)
    : Session.Sessions
  {
    var after := Session.GuardEffect(cookie, items, now);
    match Session.IsConnectedOutcome(cookie, items, db, now)
    case Some(session) => after - {Session.Key(session.account_id)}
    case None => after
  }

  /** A connected logout removes exactly that account's session. */
  lemma LogoutRemovesSession(cookie: Option<string>, items: Session.Sessions, db: Database.Db, now: nat)
    requires Session.IsConnectedOutcome(cookie, items, db, now).Some?
    ensures var k := Session.Key(Session.IsConnectedOutcome(cookie, items, db, now).value.account_id);
            var r := LogoutEffect(cookie, items, db, now);
            && k !in r
            && forall other :: other != k ==> (other in r <==> other in items) && (other in r ==> r[other] == items[other])
  {
    var k := Session.Key(Session.IsConnectedOutcome(cookie, items, db, now).value.account_id);
    Session.GuardEffectOfConnected(cookie, items, db, now);
    assert LogoutEffect(cookie, items, db, now) == Cache.Evicted(items, k, now) - {k};
  }

  /** A logout without a valid session changes nothing any read can see. */
  lemma LogoutOtherwiseInvisible(cookie: Option<string>, items: Session.Sessions, db: Database.Db, now: nat,
                                 later: nat, key: string)
    requires Session.IsConnectedOutcome(cookie, items, db, now).None? && now <= later
    ensures Cache.Live(LogoutEffect(cookie, items, db, now), key, later) == Cache.Live(items, key, later)
  {
    Session.GuardEffectInvisible(cookie, items, now, later, key);
  }

  /** The route: never refused; it always succeeds and always clears the cookie. */
  method Post(jar: CookieJar, sessions: Cache.Cache<Session.Connected>, db: Database.Db, now: nat)
    returns (r: ApiResult<string>)
    modifies jar, sessions
    ensures r == Success(OK, LoggedOut)
    ensures jar.cookies == old(jar.cookies) - {SessionCookieName}
    ensures sessions.items == LogoutEffect(old(jar.SessionCookie()), old(sessions.items), db, now)
  {
    var isConnected := Session.IsConnectedGuard(jar.SessionCookie(), sessions, db, now);
    if isConnected.Some? {
      var _ := sessions.Del(Session.Key(isConnected.value.account_id), now);
    }
    jar.Remove(SessionCookieName);
    r := Success(OK, LoggedOut);
  }

  /** After a logout, the same session cookie no longer passes the `Connected` guard. */
  lemma LogoutThenNotConnected(cookie: Option<string>, items: Session.Sessions, db: Database.Db, now: nat, later: nat)
    requires now <= later
    ensures Session.ConnectedOutcome(cookie, LogoutEffect(cookie, items, db, now), db, later).Fail?
  {
    var after := LogoutEffect(cookie, items, db, now);
    match Session.IsConnectedOutcome(cookie, items, db, now) {
      case Some(session) =>
        LogoutRemovesSession(cookie, items, db, now);
        assert Session.FromStr(cookie.value) == Some(session);
        assert !Session.SessionValid(after, session, db, later);
      case None =>
        if cookie.Some? && Session.FromStr(cookie.value).Some? {
          var session := Session.FromStr(cookie.value).value;
          var k := Session.Key(session.account_id);
          LogoutOtherwiseInvisible(cookie, items, db, now, later, k);
          if Cache.Live(items, k, later).Some? {
            // A session live at `later` was live at `now` already, and had the wrong id then.
            if Cache.IsExpired(items[k], now) {
              Cache.ExpiryIsPermanent(items[k], now, later);
            }
          }
        }
    }
  }

  /** A repeated logout with the same cookie at the same instant changes nothing more. */
  lemma LogoutIdempotent(cookie: Option<string>, items: Session.Sessions, db: Database.Db, now: nat)
    ensures LogoutEffect(cookie, LogoutEffect(cookie, items, db, now), db, now)
              == LogoutEffect(cookie, items, db, now)
  {
    var once := LogoutEffect(cookie, items, db, now);
    match Session.IsConnectedOutcome(cookie, items, db, now) {
      case Some(session) =>
        LogoutRemovesSession(cookie, items, db, now);
        assert Session.FromStr(cookie.value) == Some(session);
        Session.NothingStoredNotConnected(cookie, once, db, now, session);
        Session.NothingStoredNoEffect(cookie, once, now, session);
      case None =>
        Session.GuardSeesSameAgain(cookie, items, db, now);
        Session.GuardEffectIdempotent(cookie, items, now);
    }
  }

  /** A later logout with the same cookie changes nothing any read can see. */
  lemma LogoutRepeatInvisible(cookie: Option<string>, items: Session.Sessions, db: Database.Db,
                              now: nat, later: nat, key: string)
    requires now <= later
    ensures Cache.Live(LogoutEffect(cookie, LogoutEffect(cookie, items, db, now), db, later), key, later)
              == Cache.Live(LogoutEffect(cookie, items, db, now), key, later)
  {
    LogoutThenNotConnected(cookie, items, db, now, later);
  }
}
