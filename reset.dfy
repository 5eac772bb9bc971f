/**
 * Password reset. POST /reset parks a reset request for the account owning an
 * e-mail address under a fresh reset token, and answers the same whether or
 * not such an account exists. PUT /reset redeems the token and sets the new
 * password of the account recorded in the request.
 */
module Reset {
  import opened Wrappers
  import opened Uuid
  import opened Http
  import Cache
  import Database
  import Validation
  import Tokens

  /** What a reset token stands for: the account whose password may be reset. */
  datatype Request = Request(account_id: SerdeUuid)

  type Requests = Cache.Store<Request>

  const Processed := "Your request has been processed. Check your email for further instructions."
  const PasswordReset := "Password successfully reset!"
  const ResetFailed := "Failed to reset password."

  function InvalidToken(token: SerdeUuid): string
  {
    "invalid reset token '" + Format(token.bytes) + "'"
  }

  function Name(token: SerdeUuid): string
  {
    Tokens.TokenName(Tokens.PasswordReset, token)
  }

  // ---------------------------------------------------------------------------
  // POST /reset

  /** The reset requests after a POST: a request for the e-mail's account, if there is one, lives five minutes. */
  function Requested(email: string, db: Database.Db, items: Requests, token: SerdeUuid, now: nat): (r: Requests)
    ensures db.GetUserByEmail(email).None? ==> r == items
    ensures db.GetUserByEmail(email).Some? ==>
              && (forall t :: now <= t <= now + Tokens.TokenLifetime ==>
                    Cache.Live(r, Name(token), t)
                      == Some(Request(FromSqlxToSerde(db.GetUserByEmail(email).value.account_id))))
              && (forall k :: k != Name(token) ==> (k in r <==> k in items))
              && (forall k :: k != Name(token) && k in items ==> r[k] == items[k])
  {
    match db.GetUserByEmail(email)
    case None => items
    case Some(account) =>
      items[Name(token) := Cache.NewItem(Request(FromSqlxToSerde(account.account_id)), now, Tokens.TokenLifetime)]
  }

  /**
   * The POST route: the reply is the same fixed message whatever the
   * address, so it does not reveal which addresses have accounts. The mail
   * carrying the token is not part of this model.
   */
  method Post(email: string, db: Database.Db, resetRequests: Cache.Cache<Request>, token: SerdeUuid, now: nat)
    returns (r: ApiResult<string>)
    modifies resetRequests
    ensures r == Success(OK, Processed)
    ensures resetRequests.items == Requested(email, db, old(resetRequests.items), token, now)
  {
    var account := db.GetUserByEmail(email);
    if account.Some? {
      var request := Request(FromSqlxToSerde(account.value.account_id));
      var _ := resetRequests.Set(Name(token), request, Tokens.TokenLifetime, now);
    }
    r := Success(OK, Processed);
  }

  // ---------------------------------------------------------------------------
  // PUT /reset

  /** The password update the PUT sends: for a valid password and a live token, that account's password only. */
  function Issued(token: SerdeUuid, password: string, cls: Validation.CharClasses, items: Requests, now: nat)
    : (w: Option<Database.Write>)
    ensures w.Some? <==> Validation.PasswordCheck(password, cls).Ok? && Cache.Live(items, Name(token), now).Some?
    ensures w.Some? ==>
              w.value == Database.PutUser(FromSerdeToSqlx(items[Name(token)].value.account_id),
                                          None, Some(password), None, None)
  {
    if Validation.PasswordCheck(password, cls).Err? then None
    else match Cache.Live(items, Name(token), now)
      case None => None
      case Some(request) => Some(Database.PutUser(FromSerdeToSqlx(request.account_id), None, Some(password), None, None))
  }

  /** The PUT's reply; `updated` is whether the database accepted the password update. */
  function Reply(token: SerdeUuid, password: string, cls: Validation.CharClasses, items: Requests, now: nat,
                 updated: bool)
    : (r: ApiResult<string>)
    ensures Validation.PasswordCheck(password, cls).Err? ==>
              r == Failure(BadRequest, Validation.PasswordCheck(password, cls).error)
    ensures Validation.PasswordCheck(password, cls).Ok? && Cache.Live(items, Name(token), now).None? ==>
              r == Failure(BadRequest, InvalidToken(token))
    ensures Issued(token, password, cls, items, now).Some? ==>
              r == if updated then Success(OK, PasswordReset) else Failure(InternalServerError, ResetFailed)
  {
    match Validation.PasswordCheck(password, cls)
    case Err(message) => Failure(BadRequest, message)
    case Ok(_) =>
      match Cache.Live(items, Name(token), now)
      case None => Failure(BadRequest, InvalidToken(token))
      case Some(_) => if updated then Success(OK, PasswordReset) else Failure(InternalServerError, ResetFailed)
  }

  /** The reset requests after a PUT: the token is popped only once the password has passed its checks. */
  function Remaining(token: SerdeUuid, password: string, cls: Validation.CharClasses, items: Requests)
    : (r: Requests)
    ensures Validation.PasswordCheck(password, cls).Err? ==> r == items
    ensures Validation.PasswordCheck(password, cls).Ok? ==>
              Name(token) !in r && forall k :: k != Name(token) ==> (k in r <==> k in items)
  {
    if Validation.PasswordCheck(password, cls).Err? then items else items - {Name(token)}
  }

  /** The PUT route. `updated` is the database's verdict on the password update, if one is sent. */
  method Put(token: SerdeUuid, password: string, cls: Validation.CharClasses, resetRequests: Cache.Cache<Request>,
             now: nat, updated: bool)
    returns (r: ApiResult<string>, write: Option<Database.Write>)
    modifies resetRequests
    ensures r == Reply(token, password, cls, old(resetRequests.items), now, updated)
    ensures write == Issued(token, password, cls, old(resetRequests.items), now)
    ensures resetRequests.items == Remaining(token, password, cls, old(resetRequests.items))
  {
    var check := Validation.Password(password, cls);
    if check.Err? {
      return Failure(BadRequest, check.error), None;
    }
    var request := resetRequests.Del(Name(token), now);
    match request {
      case None =>
        return Failure(BadRequest, InvalidToken(token)), None;
      case Some(req) =>
        write := Some(Database.PutUser(FromSerdeToSqlx(req.account_id), None, Some(password), None, None));
        r := if updated then Success(OK, PasswordReset) else Failure(InternalServerError, ResetFailed);
    }
  }

  // ---------------------------------------------------------------------------
  // Properties across requests

  /**
   * A PUT with a valid password, within five minutes of the POST for an
   * account's address, updates that account's password and nothing else.
   */
  lemma PostThenPut(email: string, db: Database.Db, items: Requests, token: SerdeUuid, now: nat,
                    password: string, cls: Validation.CharClasses, later: nat)
    requires db.GetUserByEmail(email).Some?
    requires Validation.PasswordCheck(password, cls).Ok?
    requires now <= later <= now + Tokens.TokenLifetime
    ensures Issued(token, password, cls, Requested(email, db, items, token, now), later)
              == Some(Database.PutUser(db.GetUserByEmail(email).value.account_id, None, Some(password), None, None))
  {
    var after := Requested(email, db, items, token, now);
    assert Cache.Live(after, Name(token), later).Some?;
    ConversionsRoundTrip(db.GetUserByEmail(email).value.account_id, FromSqlxToSerde(db.GetUserByEmail(email).value.account_id));
  }

  /** A POST for an address no account has leaves nothing to redeem. */
  lemma UnknownEmailIssuesNothing(email: string, db: Database.Db, items: Requests, token: SerdeUuid, now: nat,
                                  password: string, cls: Validation.CharClasses, later: nat)
    requires db.GetUserByEmail(email).None?
    requires Cache.Live(items, Name(token), later).None?
    ensures Issued(token, password, cls, Requested(email, db, items, token, now), later).None?
  {
  }

  /** A refused password does not spend the token: a later PUT with a valid password still redeems it. */
  lemma InvalidPasswordKeepsToken(token: SerdeUuid, bad: string, good: string, cls: Validation.CharClasses,
                                  items: Requests, now: nat)
    requires Validation.PasswordCheck(bad, cls).Err? && Validation.PasswordCheck(good, cls).Ok?
    requires Cache.Live(items, Name(token), now).Some?
    ensures Issued(token, good, cls, Remaining(token, bad, cls, items), now).Some?
  {
  }

  /** Once a valid password has been submitted with it, whatever the database answered, the token is spent. */
  lemma PutIsSingleUse(token: SerdeUuid, password: string, again: string, cls: Validation.CharClasses,
                       items: Requests, later: nat, updated: bool)
    requires Validation.PasswordCheck(password, cls).Ok? && Validation.PasswordCheck(again, cls).Ok?
    ensures Issued(token, again, cls, Remaining(token, password, cls, items), later).None?
    ensures Reply(token, again, cls, Remaining(token, password, cls, items), later, updated)
              == Failure(BadRequest, InvalidToken(token))
  {
  }
}
