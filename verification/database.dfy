/** The relational store the handlers share, as in-memory tables: accounts keyed by
    `account_id`, credentials keyed by `auth_id`. The ORM and the SQL it issues are
    abstracted to reads and writes of these maps. */
module Database {

  /** A row of the account table; its `account_id` is the key it is stored under. */
  datatype Account = Account(name: string, balance: int)

  /** A row of the credential table. `password` holds the bcrypt hash, never the
      password itself. */
  datatype Credential = Credential(authId: int, accountId: int, username: string, password: string)

  type AccountTable = map<int, Account>
  type CredentialTable = map<int, Credential>

  /** Some credential carries `username`. */
  predicate HasUsername(t: CredentialTable, username: string) {
    exists id :: id in t && t[id].username == username
  }

  /** Some credential belongs to `accountId`. */
  predicate HasAccountId(t: CredentialTable, accountId: int) {
    exists id :: id in t && t[id].accountId == accountId
  }

  /** The unique keys of the credential table: no two rows share a username or an
      `account_id`. The `account_id` key is what the ON CONFLICT (account_id) clause
      of the credential upsert relies on. The username key is an assumption of this
      model: the credential table's definition is not part of it, and the handlers
      themselves only look a username up before a sign-up. */
  ghost predicate UniqueKeys(t: CredentialTable) {
    forall i, j :: i in t && j in t && i != j ==>
      t[i].username != t[j].username && t[i].accountId != t[j].accountId
  }

  class Db {
    var accounts: AccountTable
    var auths: CredentialTable
    /** The next value of the credential table's id sequence. */
    var nextAuthId: int

    /** Every credential is stored under its own id, below the sequence's next value,
        and the table's unique keys hold. */
    ghost predicate Valid()
      reads this
    {
      (forall id :: id in auths ==> auths[id].authId == id && id < nextAuthId) &&
      UniqueKeys(auths)
    }

    constructor (accounts: AccountTable)
      ensures Valid()
      ensures this.accounts == accounts && auths == map[] && nextAuthId == 1
    {
      this.accounts := accounts;
      auths := map[];
      nextAuthId := 1;
    }
  }
}
