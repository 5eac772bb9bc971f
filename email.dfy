/**
 * POST /email: a connected user redeems an e-mail token and the address parked
 * under it becomes the e-mail of the session's account.
 */
module EmailConfirm {
  import opened Wrappers
  import opened Uuid
  import opened Http
  import Cache
  import Database
  import Session
  import Tokens

  type Pending = Cache.Store<Database.Email>

  const EmailUpdated := "Email updated successfully."
  const UpdateFailed := "Failed to update email."

  function InvalidToken(token: SerdeUuid): string
  {
    "invalid email token '" + Format(token.bytes) + "'"
  }

  function Name(token: SerdeUuid): string
  {
    Tokens.TokenName(Tokens.EmailChange, token)
  }

  /**
   * The update sent to the database: the parked address becomes the e-mail of
   * the account of the session the guard let through; nothing else is set.
   */
  function Issued(token: SerdeUuid, guard: Outcome<Session.Connected>, items: Pending, now: nat)
    : (w: Option<Database.Write>)
    ensures w.Some? <==> guard.Pass? && Cache.Live(items, Name(token), now).Some?
    ensures w.Some? ==>
              w.value == Database.PutUser(FromSerdeToSqlx(guard.value.account_id), None, None,
                                          Some(items[Name(token)].value.email), None)
  {
    match guard
    case Fail(_, _) => None
    case Pass(session) =>
      match Cache.Live(items, Name(token), now)
      case None => None
      case Some(pending) => Some(Database.PutUser(FromSerdeToSqlx(session.account_id), None, None, Some(pending.email), None))
  }

  /** The reply; `updated` is whether the database accepted the update. */
  function Reply(token: SerdeUuid, guard: Outcome<Session.Connected>, items: Pending, now: nat, updated: bool)
    : (r: ApiResult<string>)
    ensures guard.Fail? ==> r == Rejected(guard.status, guard.error)
    ensures guard.Pass? && Cache.Live(items, Name(token), now).None? ==> r == Failure(BadRequest, InvalidToken(token))
    ensures Issued(token, guard, items, now).Some? ==>
              r == if updated then Success(OK, EmailUpdated) else Failure(InternalServerError, UpdateFailed)
  {
    match guard
    case Fail(status, error) => Rejected(status, error)
    case Pass(_) =>
      match Cache.Live(items, Name(token), now)
      case None => Failure(BadRequest, InvalidToken(token))
      case Some(_) => if updated then Success(OK, EmailUpdated) else Failure(InternalServerError, UpdateFailed)
  }

  /** The route. `updated` is the database's verdict on the update, if one is sent. */
  method Post(token: SerdeUuid, cookie: Option<string>, sessions: Cache.Cache<Session.Connected>, db: Database.Db,
              newEmails: Cache.Cache<Database.Email>, now: nat, updated: bool)
    returns (r: ApiResult<string>, write: Option<Database.Write>)
    modifies sessions, newEmails
    ensures var guard := Session.ConnectedOutcome(cookie, old(sessions.items), db, now);
            && r == Reply(token, guard, old(newEmails.items), now, updated)
            && write == Issued(token, guard, old(newEmails.items), now)
            && newEmails.items == if guard.Pass? then old(newEmails.items) - {Name(token)} else old(newEmails.items)
    ensures sessions.items == Session.GuardEffect(cookie, old(sessions.items), now)
  {
    var guard := Session.ConnectedGuard(cookie, sessions, db, now);
    match guard {
      case Fail(status, error) =>
        return Rejected(status, error), None;
      case Pass(session) =>
        var pending := newEmails.Del(Name(token), now);
        match pending {
          case None =>
            return Failure(BadRequest, InvalidToken(token)), None;
          case Some(item) =>
            write := Some(Database.PutUser(FromSerdeToSqlx(session.account_id), None, None, Some(item.email), None));
            r := if updated then Success(OK, EmailUpdated) else Failure(InternalServerError, UpdateFailed);
        }
    }
  }

  /** A token redeems at most once, whatever the database answered the first time. */
  lemma EmailTokenIsSingleUse(token: SerdeUuid, again: Outcome<Session.Connected>, items: Pending, later: nat,
                              updated: bool)
    ensures Issued(token, again, items - {Name(token)}, later).None?
    ensures again.Pass? ==> Reply(token, again, items - {Name(token)}, later, updated) == Failure(BadRequest, InvalidToken(token))
  {
  }
}
