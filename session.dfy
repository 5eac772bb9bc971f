/**
 * Sessions: the record kept in the sessions cache under the account id and
 * mirrored in the "session" cookie, its validation against the cache and the
 * accounts table, and the three request guards built on it.
 */
module Session {
  import opened Wrappers
  import opened Uuid
  import opened Http
  import Cache
  import Database

  datatype Connected = Connected(account_id: SerdeUuid, session_id: SerdeUuid)

  type Sessions = Cache.Store<Connected>

  /** A new session for `account_id`; `sessionId` is the newly drawn random session id. */
  function New(account_id: SerdeUuid, sessionId: SerdeUuid): (s: Connected)
    ensures s.account_id == account_id && s.session_id == sessionId
  {
    Connected(account_id, sessionId)
  }

  /** The sessions cache key of an account: its id's text form, which always parses back. */
  function Key(account_id: SerdeUuid): (k: string)
    ensures Parse(k) == Some(account_id.bytes)
  {
    ParseFormat(account_id.bytes);
    Format(account_id.bytes)
  }

  /** Distinct accounts have distinct cache keys. */
  lemma KeyInjective(a: SerdeUuid, b: SerdeUuid)
    ensures Key(a) == Key(b) ==> a == b
  {
    FormatInjective(a.bytes, b.bytes);
  }

  // ---------------------------------------------------------------------------
  // Cookie text: the JSON object {"account_id":"<uuid>","session_id":"<uuid>"}

  const AccountIdOpening := "{\"account_id\":\""
  const SessionIdSeparator := "\",\"session_id\":\""
  const Closing := "\"}"

  /** The serialized session, as written into the cookie. */
  function Display(c: Connected): (s: string)
    ensures |s| == 105
  {
    AccountIdOpening + Format(c.account_id.bytes) + SessionIdSeparator + Format(c.session_id.bytes) + Closing
  }

  /**
   * Reads a session back from cookie text: the text must have the serialized
   * shape, with a well-formed id of either letter case in each slot; anything
   * else is None.
   */
  function FromStr(s: string): (r: Option<Connected>)
    ensures r.Some? <==> && |s| == 105
                         && s[..15] == AccountIdOpening && s[51..67] == SessionIdSeparator && s[103..] == Closing
                         && Parse(s[15..51]).Some? && Parse(s[67..103]).Some?
    ensures r.Some? ==> && Parse(s[15..51]) == Some(r.value.account_id.bytes)
                        && Parse(s[67..103]) == Some(r.value.session_id.bytes)
  {
    if |s| != 105 || s[..15] != AccountIdOpening || s[51..67] != SessionIdSeparator || s[103..] != Closing
    then None
    else match (Parse(s[15..51]), Parse(s[67..103]))
      case (Some(a), Some(b)) => Some(Connected(SerdeUuid(a), SerdeUuid(b)))
      case _ => None
  }

  /** The cookie text written for a session reads back as that same session. */
  lemma FromStrDisplay(c: Connected)
    ensures FromStr(Display(c)) == Some(c)
  {
    var s := Display(c);
    assert s[..15] == AccountIdOpening;
    assert s[15..51] == Format(c.account_id.bytes);
    assert s[51..67] == SessionIdSeparator;
    assert s[67..103] == Format(c.session_id.bytes);
    assert s[103..] == Closing;
    ParseFormat(c.account_id.bytes);
    ParseFormat(c.session_id.bytes);
  }

  // ---------------------------------------------------------------------------
  // Validation

  /** The account named by the text exists; text that is not a UUID names no account. */
  function IsValidAccount(account_id: string, db: Database.Db): (r: bool)
    ensures Parse(account_id).None? ==> !r
  {
    match Parse(account_id)
    case None => false
    case Some(bytes) => db.AccountExists(SqlxUuid(bytes))
  }

  /** For a key produced from an account id, the check is plain account existence. */
  lemma IsValidAccountOfKey(a: SerdeUuid, db: Database.Db)
    ensures IsValidAccount(Key(a), db) == db.AccountExists(FromSerdeToSqlx(a))
  {
  }

  /**
   * A cookie's session is valid when a live session is stored under its
   * account, the stored session id equals the cookie's, and the account exists.
   */
  predicate SessionValid(items: Sessions, c: Connected, db: Database.Db, now: nat)
  {
    match Cache.Live(items, Key(c.account_id), now)
    case None => false
    case Some(stored) => stored.session_id == c.session_id && IsValidAccount(Key(c.account_id), db)
  }

  /** SessionValid in terms of the stored item and the account table alone. */
  lemma SessionValidMeaning(items: Sessions, c: Connected, db: Database.Db, now: nat)
    ensures SessionValid(items, c, db, now) <==>
              && Key(c.account_id) in items
              && !Cache.IsExpired(items[Key(c.account_id)], now)
              && items[Key(c.account_id)].value.session_id == c.session_id
              && db.AccountExists(FromSerdeToSqlx(c.account_id))
  {
    IsValidAccountOfKey(c.account_id, db);
  }

  /**
   * `is_valid`: reads the stored session (evicting it if expired) and consults
   * the accounts table only once a live stored session with the same id is found.
   */
  method IsValid(c: Connected, sessions: Cache.Cache<Connected>, db: Database.Db, now: nat)
    returns (valid: bool, consulted: bool)
    modifies sessions
    ensures valid == SessionValid(old(sessions.items), c, db, now)
    ensures consulted <==> match Cache.Live(old(sessions.items), Key(c.account_id), now)
                           case None => false
                           case Some(stored) => stored.session_id == c.session_id
    ensures sessions.items == Cache.Evicted(old(sessions.items), Key(c.account_id), now)
  {
    var accountId := Key(c.account_id);
    var stored := sessions.Get(accountId, now);
    match stored {
      case Some(s) =>
        consulted := s.session_id == c.session_id;
        valid := consulted && IsValidAccount(accountId, db);
      case None =>
        consulted := false;
        valid := false;
    }
  }

  // ---------------------------------------------------------------------------
  // Guards

  /** Guard of anonymous-only routes: any session cookie, valid or not, is refused. */
  function Unconnected(cookie: Option<string>): (o: Outcome<()>)
    ensures o.Pass? <==> cookie.None?
    ensures o.Fail? ==> o == Fail(Forbidden, LoggedIn)
  {
    match cookie
    case None => Pass(())
    case Some(_) => Fail(Forbidden, LoggedIn)
  }

  /** Guard of routes that need a session. */
  function ConnectedOutcome(cookie: Option<string>, items: Sessions, db: Database.Db, now: nat)
    : (o: Outcome<Connected>)
    ensures cookie.None? ==> o == Fail(Unauthorized, NotLoggedIn)
    ensures cookie.Some? && o.Fail? ==> o == Fail(BadRequest, InvalidSession)
    ensures o.Pass? <==> cookie.Some? && FromStr(cookie.value).Some?
                         && SessionValid(items, FromStr(cookie.value).value, db, now)
    ensures o.Pass? ==> FromStr(cookie.value) == Some(o.value)
  {
    match cookie
    case None => Fail(Unauthorized, NotLoggedIn)
    case Some(text) =>
      match FromStr(text)
      case Some(session) =>
        if SessionValid(items, session, db, now) then Pass(session) else Fail(BadRequest, InvalidSession)
      case None => Fail(BadRequest, InvalidSession)
  }

  /** Guard of routes open to everyone: never fails, yields the session exactly when `Connected` would. */
  function IsConnectedOutcome(cookie: Option<string>, items: Sessions, db: Database.Db, now: nat)
    : (r: Option<Connected>)
    ensures r.Some? <==> ConnectedOutcome(cookie, items, db, now).Pass?
    ensures r.Some? ==> r.value == ConnectedOutcome(cookie, items, db, now).value
  {
    match cookie
    case None => None
    case Some(text) =>
      match FromStr(text)
      case Some(session) => if SessionValid(items, session, db, now) then Some(session) else None
      case None => None
  }

  /** What a guard's validation does to the sessions cache: a get of the cookie's account key. */
  function GuardEffect(cookie: Option<string>, items: Sessions, now: nat): (r: Sessions)
    ensures cookie.None? ==> r == items
  {
    match cookie
    case None => items
    case Some(text) =>
      match FromStr(text)
      case Some(session) => Cache.Evicted(items, Key(session.account_id), now)
      case None => items
  }

  /** The `Connected` guard run against the sessions cache. */
  method ConnectedGuard(cookie: Option<string>, sessions: Cache.Cache<Connected>, db: Database.Db, now: nat)
    returns (o: Outcome<Connected>)
    modifies sessions
    ensures o == ConnectedOutcome(cookie, old(sessions.items), db, now)
    ensures sessions.items == GuardEffect(cookie, old(sessions.items), now)
  {
    match cookie {
      case None =>
        o := Fail(Unauthorized, NotLoggedIn);
      case Some(text) =>
        match FromStr(text) {
          case Some(session) =>
            ghost var expected := ConnectedOutcome(cookie, sessions.items, db, now);
            assert expected == if SessionValid(sessions.items, session, db, now) then Pass(session)
                               else Fail(BadRequest, InvalidSession);
            var valid, _ := IsValid(session, sessions, db, now);
            o := if valid then Pass(session) else Fail(BadRequest, InvalidSession);
          case None =>
            o := Fail(BadRequest, InvalidSession);
        }
    }
  }

  /** The `IsConnected` guard run against the sessions cache. */
  method IsConnectedGuard(cookie: Option<string>, sessions: Cache.Cache<Connected>, db: Database.Db, now: nat)
    returns (r: Option<Connected>)
    modifies sessions
    ensures r == IsConnectedOutcome(cookie, old(sessions.items), db, now)
    ensures sessions.items == GuardEffect(cookie, old(sessions.items), now)
  {
    match cookie {
      case None =>
        r := None;
      case Some(text) =>
        match FromStr(text) {
          case Some(session) =>
            ghost var expected := IsConnectedOutcome(cookie, sessions.items, db, now);
            assert expected == if SessionValid(sessions.items, session, db, now) then Some(session) else None;
            var valid, _ := IsValid(session, sessions, db, now);
            r := if valid then Some(session) else None;
          case None =>
            r := None;
        }
    }
  }

  /** For a connected request, the guard's read is a read of that account's key. */
  lemma GuardEffectOfConnected(cookie: Option<string>, items: Sessions, db: Database.Db, now: nat)
    requires IsConnectedOutcome(cookie, items, db, now).Some?
    ensures GuardEffect(cookie, items, now)
              == Cache.Evicted(items, Key(IsConnectedOutcome(cookie, items, db, now).value.account_id), now)
  {
  }

  /** Run again at the same instant, the guard sees the same thing: its own read did not change it. */
  lemma GuardSeesSameAgain(cookie: Option<string>, items: Sessions, db: Database.Db, now: nat)
    ensures IsConnectedOutcome(cookie, GuardEffect(cookie, items, now), db, now) == IsConnectedOutcome(cookie, items, db, now)
  {
    if cookie.Some? && FromStr(cookie.value).Some? {
      var session := FromStr(cookie.value).value;
      var k := Key(session.account_id);
      var after := Cache.Evicted(items, k, now);
      Cache.RemovalsAreInvisible(items, k, now, now);
      assert Cache.Live(after, k, now) == Cache.Live(items, k, now);
      assert SessionValid(after, session, db, now) == SessionValid(items, session, db, now);
    }
  }

  /** A cookie whose account has no stored session is not connected. */
  lemma NothingStoredNotConnected(cookie: Option<string>, items: Sessions, db: Database.Db, now: nat, c: Connected)
    requires cookie.Some? && FromStr(cookie.value) == Some(c) && Key(c.account_id) !in items
    ensures IsConnectedOutcome(cookie, items, db, now).None?
  {
    assert !SessionValid(items, c, db, now);
  }

  /** For such a cookie the guard's read changes nothing. */
  lemma NothingStoredNoEffect(cookie: Option<string>, items: Sessions, now: nat, c: Connected)
    requires cookie.Some? && FromStr(cookie.value) == Some(c) && Key(c.account_id) !in items
    ensures GuardEffect(cookie, items, now) == items
  {
    assert Cache.Evicted(items, Key(c.account_id), now) == items;
  }

  /** A second run of the guard's read at the same instant changes nothing more. */
  lemma GuardEffectIdempotent(cookie: Option<string>, items: Sessions, now: nat)
    ensures GuardEffect(cookie, GuardEffect(cookie, items, now), now) == GuardEffect(cookie, items, now)
  {
  }

  /** The guards' cache access is never observable: what any read sees afterwards is unchanged. */
  lemma GuardEffectInvisible(cookie: Option<string>, items: Sessions, now: nat, later: nat, key: string)
    requires now <= later
    ensures Cache.Live(GuardEffect(cookie, items, now), key, later) == Cache.Live(items, key, later)
  {
    if cookie.Some? && FromStr(cookie.value).Some? {
      Cache.RemovalsAreInvisible(items, Key(FromStr(cookie.value).value.account_id), now, later);
    }
  }
}
