/** The credential handlers of handlers/auth.handler.go: login, sign-up and the
    credential upsert, with token claims built by createJWT. bcrypt and HS256 signing
    are not modelled; the handler holds them as given functions (`hash`, `matches`,
    `sign`), and the clock is the `now` parameter of login. */
module Auth {
  import opened Outcomes
  import opened Database
  import CharacterCheck

  /** The claims of an issued token. */
  datatype Claims = Claims(authId: int, accountId: int, username: string, exp: int)

  /** How long a token lives: two hours, in seconds. */
  const TokenLifetime: int := 2 * 60 * 60

  /** createJWT's claims for credential `c`, issued at Unix time `now`: the
      credential's ids and username, expiring two hours later. */
  function CreateClaims(c: Credential, now: int): (claims: Claims)
    ensures claims.authId == c.authId && claims.accountId == c.accountId
    ensures claims.username == c.username
    ensures claims.exp - now == 7200
  {
    Claims(c.authId, c.accountId, c.username, now + TokenLifetime)
  }

  /** Some credential other than the one of `accountId` already carries `username`. */
  predicate UsernameTakenByOther(t: CredentialTable, username: string, accountId: int) {
    exists id :: id in t && t[id].username == username && t[id].accountId != accountId
  }

  /** The ON CONFLICT (account_id) DO UPDATE branch: the row of `accountId` takes the
      new username and password hash. */
  function Reassigned(t: CredentialTable, accountId: int, username: string, hashed: string)
    : (u: CredentialTable)
    ensures u.Keys == t.Keys
    ensures forall id :: id in t && t[id].accountId != accountId ==> u[id] == t[id]
    ensures forall id :: id in t && t[id].accountId == accountId ==>
      u[id] == t[id].(username := username, password := hashed)
  {
    map id | id in t ::
      if t[id].accountId == accountId then t[id].(username := username, password := hashed) else t[id]
  }

  /** Insert-or-update keyed by `account_id`: update the account's credential if it has
      one, otherwise insert a new row under the sequence value `newId`. */
  function Upserted(t: CredentialTable, newId: int, accountId: int, username: string, hashed: string)
    : (u: CredentialTable)
    ensures HasAccountId(t, accountId) ==> u.Keys == t.Keys
    ensures !HasAccountId(t, accountId) ==>
      u.Keys == t.Keys + {newId} && u[newId] == Credential(newId, accountId, username, hashed)
    ensures forall id :: id in u && u[id].accountId != accountId ==> id in t && u[id] == t[id]
    ensures forall id :: id in u && u[id].accountId == accountId ==>
      u[id].username == username && u[id].password == hashed
  {
    if HasAccountId(t, accountId) then Reassigned(t, accountId, username, hashed)
    else t[newId := Credential(newId, accountId, username, hashed)]
  }

  /** Every credential is stored under its own id. */
  ghost predicate KeyedById(t: CredentialTable) {
    forall id :: id in t ==> t[id].authId == id
  }

  /** When the new username clashes with no other account's credential, the upsert
      keeps the table's unique keys and leaves exactly one credential for the account,
      holding the new username and hash; every other credential is untouched and
      at most the newId id is added. */
  lemma UpsertedOneCredential(t: CredentialTable, newId: int, accountId: int, username: string, hashed: string)
    requires UniqueKeys(t) && KeyedById(t) && newId !in t
    requires !UsernameTakenByOther(t, username, accountId)
    ensures var u := Upserted(t, newId, accountId, username, hashed);
      UniqueKeys(u) && KeyedById(u) &&
      (exists id :: id in u && u[id] == Credential(id, accountId, username, hashed)) &&
      (forall id :: id in u && u[id].accountId == accountId ==>
        u[id] == Credential(id, accountId, username, hashed)) &&
      (forall id :: id in t && t[id].accountId != accountId ==> id in u && u[id] == t[id]) &&
      u.Keys <= t.Keys + {newId}
  {
    var u := Upserted(t, newId, accountId, username, hashed);
    if HasAccountId(t, accountId) {
      var k :| k in t && t[k].accountId == accountId;
      assert u[k] == Credential(k, accountId, username, hashed);
      forall i, j | i in u && j in u && i != j
        ensures u[i].username != u[j].username && u[i].accountId != u[j].accountId
      {
        assert t[i].username != t[j].username && t[i].accountId != t[j].accountId;
      }
    } else {
      assert u[newId] == Credential(newId, accountId, username, hashed);
    }
  }

  /** The credential handler. */
  class AuthHandler {
    const db: Db
    /** bcrypt.GenerateFromPassword when it succeeds (its random salt is not modelled). */
    const hash: string -> string
    /** bcrypt.CompareHashAndPassword(hashed, password) reporting no error. */
    const matches: (string, string) -> bool
    /** Signing claims with HS256 under the handler's key. */
    const sign: Claims -> string

    constructor (db: Db, hash: string -> string, matches: (string, string) -> bool, sign: Claims -> string)
      ensures this.db == db && this.hash == hash && this.matches == matches && this.sign == sign
    {
      this.db := db;
      this.hash := hash;
      this.matches := matches;
      this.sign := sign;
    }

    /** AuthLogin: look the username up, compare the password with the stored hash, and
        answer with a token signed over the credential's claims. `binding:"required"`
        rejects an empty username or password. Login changes no table. */
    method AuthLogin(username: string, password: string, now: int) returns (r: Result<string>)
      requires db.Valid()
      ensures username == "" || password == "" ==> r == Err(BadRequest)
      ensures !HasUsername(db.auths, username) ==> r == Err(BadRequest)
      ensures forall id :: id in db.auths && db.auths[id].username == username ==>
        r == if username == "" || password == "" then Err(BadRequest)
             else if matches(db.auths[id].password, password) then Ok(sign(CreateClaims(db.auths[id], now)))
             else Err(NotFound)
    {
      if username == "" || password == "" {
        return Err(BadRequest);
      }
      if !HasUsername(db.auths, username) {
        return Err(BadRequest);
      }
      var id :| id in db.auths && db.auths[id].username == username;
      var auth := db.auths[id];
      if !matches(auth.password, password) {
        return Err(NotFound);
      }
      r := Ok(sign(CreateClaims(auth, now)));
    }

    /** AuthSignUp: numeric password policy, then username uniqueness, then insert of
        the hashed password. A binding error and a hashing error each write a 400 reply
        without returning, so the handler goes on; `account_id` is never set and stays
        0, so a second such row breaks the unique `account_id` and the insert fails.
        `insertFails` is any other failure of the insert; every failed insert answers
        400 and adds no row. */
    method AuthSignUp(username: string, password: string, hashFails: bool, insertFails: bool)
      returns (r: Result<()>)
      requires db.Valid()
      modifies db`auths, db`nextAuthId
      ensures db.Valid()
      ensures var bound := username != "" && password != "";
        !CharacterCheck.NumericCheck(password) ==>
          db.auths == old(db.auths) && r == Err(if bound then Unauthorized else BadRequest)
      ensures var bound := username != "" && password != "";
        CharacterCheck.NumericCheck(password) && HasUsername(old(db.auths), username) ==>
          db.auths == old(db.auths) && r == Err(if bound then Conflict else BadRequest)
      ensures (CharacterCheck.NumericCheck(password) && !HasUsername(old(db.auths), username) &&
               (HasAccountId(old(db.auths), 0) || insertFails)) ==>
        db.auths == old(db.auths) && r == Err(BadRequest)
      ensures var bound := username != "" && password != "";
        CharacterCheck.NumericCheck(password) && !HasUsername(old(db.auths), username) &&
        !HasAccountId(old(db.auths), 0) && !insertFails ==>
          db.auths == old(db.auths)[old(db.nextAuthId) :=
            Credential(old(db.nextAuthId), 0, username, if hashFails then "" else hash(password))] &&
          r == (if bound && !hashFails then Ok(()) else Err(BadRequest))
      ensures db.nextAuthId == old(db.nextAuthId) +
        (if CharacterCheck.NumericCheck(password) && !HasUsername(old(db.auths), username) then 1 else 0)
    {
      var pending: Option<Error> := None;
      if username == "" || password == "" {
        pending := Some(BadRequest);
      }
      if !CharacterCheck.NumericCheck(password) {
        return Answer(pending, Err(Unauthorized));
      }
      if HasUsername(db.auths, username) {
        return Answer(pending, Err(Conflict));
      }
      var hashed := "";
      if hashFails {
        pending := if pending.Some? then pending else Some(BadRequest);
      } else {
        hashed := hash(password);
      }
      var newId := db.nextAuthId;
      db.nextAuthId := db.nextAuthId + 1;  // the insert draws an id from the sequence
      if HasAccountId(db.auths, 0) || insertFails {
        return Answer(pending, Err(BadRequest));
      }
      db.auths := db.auths[newId := Credential(newId, 0, username, hashed)];
      r := Answer(pending, Ok(()));
    }

    /** Upsert: hash the password, check the account exists, then insert-or-update the
        credential keyed by `account_id`. A username held by another account's
        credential breaks the unique username and the statement fails; `insertFails`
        is any other failure of the statement. Either answers 400 and writes nothing. */
    method Upsert(accountId: int, username: string, password: string, hashFails: bool, insertFails: bool)
      returns (r: Result<()>)
      requires db.Valid()
      modifies db`auths, db`nextAuthId
      ensures db.Valid()
      ensures r.Err? ==> db.auths == old(db.auths)
      ensures hashFails ==> r == Err(BadRequest)
      ensures !hashFails && accountId !in db.accounts ==> r == Err(NotFound)
      ensures !hashFails && accountId in db.accounts ==>
        (r.Ok? <==> !UsernameTakenByOther(old(db.auths), username, accountId) && !insertFails)
      ensures (!hashFails && accountId in db.accounts &&
               (UsernameTakenByOther(old(db.auths), username, accountId) || insertFails)) ==>
        r == Err(BadRequest)
      ensures r.Ok? ==>
        db.auths == Upserted(old(db.auths), old(db.nextAuthId), accountId, username, hash(password))
      ensures r.Ok? ==>
        exists id :: id in db.auths && db.auths[id] == Credential(id, accountId, username, hash(password))
      ensures r.Ok? ==> forall id :: id in db.auths && db.auths[id].accountId == accountId ==>
        db.auths[id] == Credential(id, accountId, username, hash(password))
      ensures r.Ok? ==> forall id :: id in old(db.auths) && old(db.auths)[id].accountId != accountId ==>
        id in db.auths && db.auths[id] == old(db.auths)[id]
      ensures db.nextAuthId == old(db.nextAuthId) + (if !hashFails && accountId in db.accounts then 1 else 0)
    {
      if hashFails {
        return Err(BadRequest);
      }
      var hashed := hash(password);
      if accountId !in db.accounts {
        return Err(NotFound);
      }
      var newId := db.nextAuthId;
      db.nextAuthId := db.nextAuthId + 1;  // the insert draws an id from the sequence
      if UsernameTakenByOther(db.auths, username, accountId) || insertFails {
        return Err(BadRequest);
      }
      UpsertedOneCredential(db.auths, newId, accountId, username, hashed);
      db.auths := Upserted(db.auths, newId, accountId, username, hashed);
      r := Ok(());
    }
  }
}
