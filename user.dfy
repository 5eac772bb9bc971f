/**
 * PUT /user: a connected user changes some of their account settings. A new
 * e-mail address is not written to the account: it is parked under a fresh
 * e-mail token, which the owner of the address redeems through POST /email.
 */
module User {
  import opened Wrappers
  import opened Uuid
  import opened Http
  import Cache
  import Database
  import Session
  import Validation
  import Tokens
  import EmailConfirm

  /** The requested changes; a field left out is not changed. */
  datatype UserChanges = UserChanges(
    username: Option<string>,
    password: Option<string>,
    email: Option<string>,
    email_notifications: Option<bool>)

  const EmptyPayload := "empty payload"
  const AccountUpdated := "User account successfully updated!"
  const UpdateFailed := "Failed to update user account."

  /**
   * Why the changes are refused, if they are: nothing to change, else the
   * first invalid field in the order username, password, e-mail.
   */
  function Rejection(changes: UserChanges, cls: Validation.CharClasses): (r: Option<string>)
    ensures changes == UserChanges(None, None, None, None) ==> r == Some(EmptyPayload)
    ensures r.None? <==> && changes != UserChanges(None, None, None, None)
                         && (changes.username.Some? ==> Validation.Username(changes.username.value, cls).Ok?)
                         && (changes.password.Some? ==> Validation.PasswordCheck(changes.password.value, cls).Ok?)
                         && (changes.email.Some? ==> Validation.Email(changes.email.value).Ok?)
    ensures (changes != UserChanges(None, None, None, None)
             && changes.username.Some? && Validation.Username(changes.username.value, cls).Err?)
              ==> r == Some(Validation.Username(changes.username.value, cls).error)
    ensures (changes != UserChanges(None, None, None, None)
             && (changes.username.Some? ==> Validation.Username(changes.username.value, cls).Ok?)
             && changes.password.Some? && Validation.PasswordCheck(changes.password.value, cls).Err?)
              ==> r == Some(Validation.PasswordCheck(changes.password.value, cls).error)
    ensures (changes != UserChanges(None, None, None, None)
             && (changes.username.Some? ==> Validation.Username(changes.username.value, cls).Ok?)
             && (changes.password.Some? ==> Validation.PasswordCheck(changes.password.value, cls).Ok?)
             && changes.email.Some? && Validation.Email(changes.email.value).Err?)
              ==> r == Some(Validation.Email(changes.email.value).error)
  {
    if changes == UserChanges(None, None, None, None) then Some(EmptyPayload)
    else if changes.username.Some? && Validation.Username(changes.username.value, cls).Err? then
      Some(Validation.Username(changes.username.value, cls).error)
    else if changes.password.Some? && Validation.PasswordCheck(changes.password.value, cls).Err? then
      Some(Validation.PasswordCheck(changes.password.value, cls).error)
    else if changes.email.Some? && Validation.Email(changes.email.value).Err? then
      Some(Validation.Email(changes.email.value).error)
    else None
  }

  /** The e-mail tokens after the request: a valid new address is parked for five minutes. */
  function Parked(changes: UserChanges, guard: Outcome<Session.Connected>, cls: Validation.CharClasses,
                  items: EmailConfirm.Pending, token: SerdeUuid, now: nat)
    : (r: EmailConfirm.Pending)
    ensures r != items ==> guard.Pass? && Rejection(changes, cls).None? && changes.email.Some?
    ensures guard.Pass? && Rejection(changes, cls).None? && changes.email.Some? ==>
              forall t :: now <= t <= now + Tokens.TokenLifetime ==>
                Cache.Live(r, EmailConfirm.Name(token), t) == Some(Database.Email(changes.email.value))
    ensures forall k :: k != EmailConfirm.Name(token) ==> (k in r <==> k in items)
  {
    if guard.Pass? && Rejection(changes, cls).None? && changes.email.Some? then
      items[EmailConfirm.Name(token) := Cache.NewItem(Database.Email(changes.email.value), now, Tokens.TokenLifetime)]
    else items
  }

  /**
   * The update sent to the database for valid changes: the session's account
   * gets the new username, password and notification setting; its e-mail is
   * never part of it.
   */
  function Issued(changes: UserChanges, guard: Outcome<Session.Connected>, cls: Validation.CharClasses)
    : (w: Option<Database.Write>)
    ensures w.Some? <==> guard.Pass? && Rejection(changes, cls).None?
    ensures w.Some? ==> && w.value.PutUser?
                        && w.value.account_id == FromSerdeToSqlx(guard.value.account_id)
                        && w.value.username == changes.username
                        && w.value.password == changes.password
                        && w.value.email.None?
                        && w.value.email_notifications == changes.email_notifications
  {
    if guard.Pass? && Rejection(changes, cls).None? then
      Some(Database.PutUser(FromSerdeToSqlx(guard.value.account_id), changes.username, changes.password, None,
                            changes.email_notifications))
    else None
  }

  /** The reply; `updated` is whether the database accepted the update. */
  function Reply(changes: UserChanges, guard: Outcome<Session.Connected>, cls: Validation.CharClasses, updated: bool)
    : (r: ApiResult<string>)
    ensures guard.Fail? ==> r == Rejected(guard.status, guard.error)
    ensures guard.Pass? && Rejection(changes, cls).Some? ==> r == Failure(BadRequest, Rejection(changes, cls).value)
    ensures Issued(changes, guard, cls).Some? ==>
              r == if updated then Success(OK, AccountUpdated) else Failure(Conflict, UpdateFailed)
  {
    match guard
    case Fail(status, error) => Rejected(status, error)
    case Pass(_) =>
      match Rejection(changes, cls)
      case Some(message) => Failure(BadRequest, message)
      case None => if updated then Success(OK, AccountUpdated) else Failure(Conflict, UpdateFailed)
  }

  /**
   * The route. `token` is the freshly drawn e-mail token and `updated` the
   * database's verdict on the update, if one is sent. The token is parked
   * before the update is sent, so it stays even when the update fails.
   */
  method Put(changes: UserChanges, cookie: Option<string>, sessions: Cache.Cache<Session.Connected>,
             db: Database.Db, cls: Validation.CharClasses, newEmails: Cache.Cache<Database.Email>,
             token: SerdeUuid, now: nat, updated: bool)
    returns (r: ApiResult<string>, write: Option<Database.Write>)
    modifies sessions, newEmails
    ensures var guard := Session.ConnectedOutcome(cookie, old(sessions.items), db, now);
            && r == Reply(changes, guard, cls, updated)
            && write == Issued(changes, guard, cls)
            && newEmails.items == Parked(changes, guard, cls, old(newEmails.items), token, now)
    ensures sessions.items == Session.GuardEffect(cookie, old(sessions.items), now)
  {
    var guard := Session.ConnectedGuard(cookie, sessions, db, now);
    if guard.Fail? {
      return Rejected(guard.status, guard.error), None;
    }
    if changes == UserChanges(None, None, None, None) {
      return Failure(BadRequest, EmptyPayload), None;
    }
    if changes.username.Some? && Validation.Username(changes.username.value, cls).Err? {
      return Failure(BadRequest, Validation.Username(changes.username.value, cls).error), None;
    }
    if changes.password.Some? {
      var check := Validation.Password(changes.password.value, cls);
      if check.Err? {
        return Failure(BadRequest, check.error), None;
      }
    }
    if changes.email.Some? {
      if Validation.Email(changes.email.value).Err? {
        return Failure(BadRequest, Validation.Email(changes.email.value).error), None;
      }
      var newEmail := Database.Email(changes.email.value);
      var _ := newEmails.Set(EmailConfirm.Name(token), newEmail, Tokens.TokenLifetime, now);
    }
    write := Some(Database.PutUser(FromSerdeToSqlx(guard.value.account_id), changes.username, changes.password, None,
                                   changes.email_notifications));
    r := if updated then Success(OK, AccountUpdated) else Failure(Conflict, UpdateFailed);
  }

  /**
   * The e-mail change completes in two steps: a POST /email with the token,
   * by the same session within five minutes, sets exactly the new address on
   * exactly that account.
   */
  lemma PutThenConfirmEmail(changes: UserChanges, session: Session.Connected, cls: Validation.CharClasses,
                            items: EmailConfirm.Pending, token: SerdeUuid, now: nat, later: nat)
    requires Rejection(changes, cls).None? && changes.email.Some?
    requires now <= later <= now + Tokens.TokenLifetime
    ensures EmailConfirm.Issued(token, Pass(session), Parked(changes, Pass(session), cls, items, token, now), later)
              == Some(Database.PutUser(FromSerdeToSqlx(session.account_id), None, None, Some(changes.email.value), None))
  {
    assert Cache.Live(Parked(changes, Pass(session), cls, items, token, now), EmailConfirm.Name(token), later)
             == Some(Database.Email(changes.email.value));
  }

  /** A valid new address is checked by the validation module's pattern, and one longer than 256 bytes is refused. */
  lemma LongEmailRefused(changes: UserChanges, cls: Validation.CharClasses)
    requires changes.email.Some? && Validation.Utf8Length(changes.email.value) > 256
    ensures Rejection(changes, cls).Some?
  {
  }
}
