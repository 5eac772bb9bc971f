/**
 * The relational store as the core sees it. Its reads are functions of a
 * `Db` snapshot; its writes are described by `Write` values that a handler
 * issues, and whether the database accepts a write is the handler's
 * parameter. The SQL itself is not part of this model.
 */
module Database {
  import opened Wrappers
  import opened Uuid

  datatype Account = Account(
    account_id: SqlxUuid,
    username: string,
    email: string,
    password_hash: string,
    email_notifications: bool)

  /** Registration data, as submitted and as kept until confirmation. */
  datatype NewUser = NewUser(username: string, password: string, email: string)

  /** A new e-mail address waiting for its owner to confirm it. */
  datatype Email = Email(email: string)

  /** The two account columns whose uniqueness registration checks. */
  datatype Field = UsernameField | EmailField

  /** The first account satisfying `p`. */
  function Find(accounts: seq<Account>, p: Account -> bool): (r: Option<Account>)
    ensures r.Some? ==> r.value in accounts && p(r.value)
    ensures r.None? <==> forall a :: a in accounts ==> !p(a)
  {
    if accounts == [] then None
    else if p(accounts[0]) then Some(accounts[0])
    else Find(accounts[1..], p)
  }

  datatype Db = Db(accounts: seq<Account>)
  {
    predicate AccountExists(id: SqlxUuid)
    {
      exists a :: a in accounts && a.account_id == id
    }

    function GetUserByUsername(username: string): Option<Account>
    {
      Find(accounts, (a: Account) => a.username == username)
    }

    function GetUserByEmail(email: string): Option<Account>
    {
      Find(accounts, (a: Account) => a.email == email)
    }

    predicate IsTaken(field: Field, value: string)
    {
      exists a :: a in accounts && (if field == UsernameField then a.username else a.email) == value
    }
  }

  /** A write a handler sends: an account creation, or an update of the fields given as Some. */
  datatype Write =
    | CreateAccount(user: NewUser)
    | PutUser(account_id: SqlxUuid, username: Option<string>, password: Option<string>,
              email: Option<string>, email_notifications: Option<bool>)
}
