/**
 * POST /register: validates the submitted user, checks that the username and
 * the email are free, and parks the user in the registration cache under a
 * fresh registration token.
 */
module Register {
  import opened Wrappers
  import opened Uuid
  import opened Http
  import Cache
  import Database
  import Session
  import Validation
  import Tokens

  function UsernameTaken(username: string): string
  {
    "username '" + username + "' is already taken"
  }

  function EmailTaken(email: string): string
  {
    "email '" + email + "' is already taken"
  }

  /**
   * The registration's own e-mail check: the pattern of the constants copy,
   * whose local-part class differs from the validation module's, and the
   * same 256-byte limit.
   */
  function EmailCheck(email: string): (r: Result<(), string>)
    ensures Validation.Utf8Length(email) > 256 ==> r == Err(Validation.EmailError)
  {
    Validation.EmailWith(email, Validation.IsLocalCharOfCopy)
  }

  /**
   * The failure a registration ends with, if any: the first of the username,
   * password and e-mail checks to fail, then a taken username, then a taken
   * e-mail.
   */
  function Rejection(user: Database.NewUser, db: Database.Db, cls: Validation.CharClasses)
    : (r: Option<(Status, string)>)
    ensures Validation.Username(user.username, cls).Err? ==> r == Some((BadRequest, Validation.UsernameError))
    ensures Validation.Username(user.username, cls).Ok? && Validation.PasswordCheck(user.password, cls).Err? ==>
              r == Some((BadRequest, Validation.PasswordCheck(user.password, cls).error))
    ensures Validation.Username(user.username, cls).Ok? && Validation.PasswordCheck(user.password, cls).Ok? ==>
              && (EmailCheck(user.email).Err? ==> r == Some((BadRequest, Validation.EmailError)))
              && (EmailCheck(user.email).Ok? && db.IsTaken(Database.UsernameField, user.username) ==>
                    r == Some((Conflict, UsernameTaken(user.username))))
              && ((EmailCheck(user.email).Ok? && !db.IsTaken(Database.UsernameField, user.username)
                   && db.IsTaken(Database.EmailField, user.email)) ==> r == Some((Conflict, EmailTaken(user.email))))
    ensures r.None? <==> && Validation.Username(user.username, cls).Ok?
                         && Validation.PasswordCheck(user.password, cls).Ok?
                         && EmailCheck(user.email).Ok?
                         && !db.IsTaken(Database.UsernameField, user.username)
                         && !db.IsTaken(Database.EmailField, user.email)
  {
    if Validation.Username(user.username, cls).Err? then Some((BadRequest, Validation.UsernameError))
    else if Validation.PasswordCheck(user.password, cls).Err? then
      Some((BadRequest, Validation.PasswordCheck(user.password, cls).error))
    else if EmailCheck(user.email).Err? then Some((BadRequest, Validation.EmailError))
    else if db.IsTaken(Database.UsernameField, user.username) then Some((Conflict, UsernameTaken(user.username)))
    else if db.IsTaken(Database.EmailField, user.email) then Some((Conflict, EmailTaken(user.email)))
    else None
  }

  /**
   * The route, for anonymous callers only. `token` is the freshly drawn
   * registration token; the cache is written only once every check passed.
   */
  method Post(user: Database.NewUser, cookie: Option<string>, db: Database.Db, cls: Validation.CharClasses,
              newUsers: Cache.Cache<Database.NewUser>, token: SerdeUuid, now: nat)
    returns (r: ApiResult<SerdeUuid>)
    modifies newUsers
    ensures cookie.Some? ==> r == Rejected(Forbidden, LoggedIn) && newUsers.items == old(newUsers.items)
    ensures cookie.None? && Rejection(user, db, cls).Some? ==>
              && r == Failure(Rejection(user, db, cls).value.0, Rejection(user, db, cls).value.1)
              && newUsers.items == old(newUsers.items)
    ensures cookie.None? && Rejection(user, db, cls).None? ==>
              && r == Success(Created, token)
              && newUsers.items == old(newUsers.items)[Tokens.TokenName(Tokens.Registration, token)
                                                       := Cache.NewItem(user, now, Tokens.TokenLifetime)]
  {
    match Session.Unconnected(cookie) {
      case Fail(status, error) =>
        return Rejected(status, error);
      case Pass(_) =>
    }
    if Validation.Username(user.username, cls).Err? {
      return Failure(BadRequest, Validation.UsernameError);
    }
    var password := Validation.Password(user.password, cls);
    if password.Err? {
      return Failure(BadRequest, password.error);
    }
    if EmailCheck(user.email).Err? {
      return Failure(BadRequest, Validation.EmailError);
    }
    if db.IsTaken(Database.UsernameField, user.username) {
      return Failure(Conflict, UsernameTaken(user.username));
    }
    if db.IsTaken(Database.EmailField, user.email) {
      return Failure(Conflict, EmailTaken(user.email));
    }
    var _ := newUsers.Set(Tokens.TokenName(Tokens.Registration, token), user, Tokens.TokenLifetime, now);
    return Success(Created, token);
  }

  /** A registration never succeeds for a username or an e-mail already in the accounts table. */
  lemma NoDuplicateAccounts(user: Database.NewUser, db: Database.Db, cls: Validation.CharClasses)
    requires exists a :: a in db.accounts && (a.username == user.username || a.email == user.email)
    ensures Rejection(user, db, cls).Some?
  {
    var a :| a in db.accounts && (a.username == user.username || a.email == user.email);
    if a.username == user.username {
      assert db.IsTaken(Database.UsernameField, user.username);
    } else {
      assert db.IsTaken(Database.EmailField, user.email);
    }
  }
}
