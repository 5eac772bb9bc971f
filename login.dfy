/**
 * POST /login: checks the credentials against the accounts table, stores a new
 * session in the sessions cache and hands it to the client as the "session"
 * cookie.
 */
module Login {
  import opened Wrappers
  import opened Uuid
  import opened Http
  import Cache
  import Database
  import Session

  /** One day, in seconds: how long both the cached session and its cookie last. */
  const SessionDuration: nat := 86400

  const LoginSuccess := "great authentication success!"
  const InvalidCredentials := "invalid credentials"

  datatype Credentials = Credentials(username: string, password: string)

  /**
   * The account the credentials open: the account holding the username, if
   * the password checks against its stored hash. `verify(password, hash)` is
   * the password hasher's check.
   */
  function Authenticated(credentials: Credentials, db: Database.Db, verify: (string, string) -> bool)
    : (r: Option<Database.Account>)
    ensures r.Some? ==> && r == db.GetUserByUsername(credentials.username)
                        && r.value in db.accounts
                        && r.value.username == credentials.username
                        && verify(credentials.password, r.value.password_hash)
    ensures r.Some? <==> && db.GetUserByUsername(credentials.username).Some?
                         && verify(credentials.password, db.GetUserByUsername(credentials.username).value.password_hash)
  {
    match db.GetUserByUsername(credentials.username)
    case None => None
    case Some(account) => if verify(credentials.password, account.password_hash) then Some(account) else None
  }

  /** The session a login creates: one for the authenticated account, with the freshly drawn `sessionId`. */
  function Created(credentials: Credentials, db: Database.Db, verify: (string, string) -> bool, sessionId: SerdeUuid)
    : (s: Option<Session.Connected>)
    ensures s.Some? <==> Authenticated(credentials, db, verify).Some?
    ensures s.Some? ==> && s.value.session_id == sessionId
                        && FromSerdeToSqlx(s.value.account_id) == Authenticated(credentials, db, verify).value.account_id
                        && db.AccountExists(FromSerdeToSqlx(s.value.account_id))
  {
    match Authenticated(credentials, db, verify)
    case None => None
    case Some(account) => Some(Session.New(FromSqlxToSerde(account.account_id), sessionId))
  }

  /** The sessions cache after a login: the created session, if any, is live for one day; other keys are untouched. */
  function SessionsAfter(items: Session.Sessions, created: Option<Session.Connected>, now: nat)
    : (r: Session.Sessions)
    ensures created.None? ==> r == items
    ensures created.Some? ==>
              && (forall t :: now <= t <= now + SessionDuration ==>
                    Cache.Live(r, Session.Key(created.value.account_id), t) == Some(created.value))
              && (forall k :: k != Session.Key(created.value.account_id) ==> (k in r <==> k in items))
              && (forall k :: k != Session.Key(created.value.account_id) && k in items ==> r[k] == items[k])
  {
    match created
    case None => items
    case Some(s) => items[Session.Key(s.account_id) := Cache.NewItem(s, now, SessionDuration)]
  }

  /** The cookies after a login: the serialized session, expiring with it, under "session"; nothing else changes. */
  function CookiesAfter(cookies: map<string, Cookie>, created: Option<Session.Connected>, now: nat)
    : (r: map<string, Cookie>)
    ensures created.None? ==> r == cookies
    ensures created.Some? ==>
              && SessionCookieName in r
              && r[SessionCookieName].value == Session.Display(created.value)
              && r[SessionCookieName].expires == Some(now + SessionDuration)
              && (forall k :: k != SessionCookieName ==> (k in r <==> k in cookies))
              && (forall k :: k != SessionCookieName && k in cookies ==> r[k] == cookies[k])
  {
    match created
    case None => cookies
    case Some(s) =>
      cookies[SessionCookieName := Cookie(Session.Display(s), Some(now + SessionDuration))]
  }

  /**
   * `login`: on good credentials stores the new session under the account's
   * key and sets the cookie; an unknown username and a wrong password give the
   * same error and change nothing.
   */
  method Login(credentials: Credentials, db: Database.Db, verify: (string, string) -> bool,
               jar: CookieJar, sessions: Cache.Cache<Session.Connected>, sessionId: SerdeUuid, now: nat)
    returns (r: Result<string, string>)
    modifies jar, sessions
    ensures r == if Authenticated(credentials, db, verify).Some? then Ok(LoginSuccess) else Err(InvalidCredentials)
    ensures sessions.items == SessionsAfter(old(sessions.items), Created(credentials, db, verify, sessionId), now)
    ensures jar.cookies == CookiesAfter(old(jar.cookies), Created(credentials, db, verify, sessionId), now)
  {
    var account := db.GetUserByUsername(credentials.username);
    if account.Some? && verify(credentials.password, account.value.password_hash) {
      var session := Session.New(FromSqlxToSerde(account.value.account_id), sessionId);
      var _ := sessions.Set(Session.Key(session.account_id), session, SessionDuration, now);
      jar.Add(SessionCookieName, Cookie(Session.Display(session), Some(now + SessionDuration)));
      return Ok(LoginSuccess);
    }
    return Err(InvalidCredentials);
  }

  /** The route: refused to anyone holding a session cookie; otherwise a login, Ok or BadRequest. */
  method Post(credentials: Credentials, db: Database.Db, verify: (string, string) -> bool,
              jar: CookieJar, sessions: Cache.Cache<Session.Connected>, sessionId: SerdeUuid, now: nat)
    returns (r: ApiResult<string>)
    modifies jar, sessions
    ensures old(jar.SessionCookie()).Some? ==>
              && r == Rejected(Forbidden, LoggedIn)
              && sessions.items == old(sessions.items)
              && jar.cookies == old(jar.cookies)
    ensures old(jar.SessionCookie()).None? ==>
              && r == (if Authenticated(credentials, db, verify).Some? then Success(OK, LoginSuccess)
                       else Failure(BadRequest, InvalidCredentials))
              && sessions.items == SessionsAfter(old(sessions.items), Created(credentials, db, verify, sessionId), now)
              && jar.cookies == CookiesAfter(old(jar.cookies), Created(credentials, db, verify, sessionId), now)
  {
    match Session.Unconnected(jar.SessionCookie()) {
      case Fail(status, error) =>
        r := Rejected(status, error);
      case Pass(_) =>
        var outcome := Login(credentials, db, verify, jar, sessions, sessionId, now);
        match outcome {
          case Ok(response) => r := Success(OK, response);
          case Err(message) => r := Failure(BadRequest, message);
        }
    }
  }

  // ---------------------------------------------------------------------------
  // Properties across requests

  /**
   * The cookie a login sets opens the `Connected` guard, with the created
   * session, at any instant of the session's day while the account exists.
   */
  lemma LoginThenConnected(cookies: map<string, Cookie>, items: Session.Sessions, created: Session.Connected,
                           db: Database.Db, now: nat, later: nat)
    requires db.AccountExists(FromSerdeToSqlx(created.account_id))
    requires now <= later <= now + SessionDuration
    ensures Session.ConnectedOutcome(Some(CookiesAfter(cookies, Some(created), now)[SessionCookieName].value),
                                     SessionsAfter(items, Some(created), now), db, later) == Pass(created)
  {
    var after := SessionsAfter(items, Some(created), now);
    Session.FromStrDisplay(created);
    assert Cache.Live(after, Session.Key(created.account_id), later) == Some(created);
    Session.SessionValidMeaning(after, created, db, later);
  }

  /** The characters of standard base64 text: the form the value of an encrypted private cookie takes. */
  predicate IsBase64Char(c: char)
  {
    ('A' <= c <= 'Z') || ('a' <= c <= 'z') || ('0' <= c <= '9') || c == '+' || c == '/' || c == '='
  }

  /**
   * The cookie as written: login stores it with `add_private`, which encrypts
   * it, while the guards read it with a plain `get`, so the text they see is
   * the base64 output of `seal`. No such text reads back as a session, so the
   * cookie of a login never opens the `Connected` guard, whatever the cache.
   */
  lemma SealedCookieRefused(created: Session.Connected, items: Session.Sessions, db: Database.Db, now: nat,
                            seal: string -> string)
    requires forall plain, i | 0 <= i < |seal(plain)| :: IsBase64Char(seal(plain)[i])
    ensures Session.FromStr(seal(Session.Display(created))).None?
    ensures Session.ConnectedOutcome(Some(seal(Session.Display(created))), items, db, now) == Fail(BadRequest, InvalidSession)
  {
    var text := seal(Session.Display(created));
    if |text| == 105 {
      assert text[..15][0] == text[0] && IsBase64Char(text[0]);
      assert Session.AccountIdOpening[0] == '{';
    }
  }

  /**
   * A second login for the same account supersedes the first: the first
   * session's cookie no longer opens the `Connected` guard, at any instant.
   */
  lemma SecondLoginInvalidatesFirst(items: Session.Sessions, first: Session.Connected, second: Session.Connected,
                                    db: Database.Db, now: nat, later: nat)
    requires first.account_id == second.account_id && first.session_id != second.session_id
    ensures !Session.SessionValid(SessionsAfter(items, Some(second), now), first, db, later)
    ensures Session.ConnectedOutcome(Some(Session.Display(first)), SessionsAfter(items, Some(second), now), db, later)
              == Fail(BadRequest, InvalidSession)
  {
    Session.FromStrDisplay(first);
  }
}
