# go-training banking service, modelled in Dafny

This project models the core of a small Go banking service built on gin and gorm.

- **Account handlers** read, rename, delete, top up and transfer between accounts.
- **Credential handlers** cover login, sign-up and the credential upsert, plus the JWT claims that login issues.
- **Validators** are two regular-expression checks: the numeric password check and the e-mail shape check.
- **Arithmetic helpers** come from `utils/magic.go`.

Modules:

- `Outcomes` (outcomes.dfy)
  - `Error` has one constructor per HTTP status a handler writes: 400, 401, 404, 406, 409 and 500.
  - `Result` and `Option`.
  - `Answer`, which captures how gin handles a handler that keeps going after writing an error reply: the first status written is the one the client sees.
- `Database` (database.dfy)
  - The two tables as maps: accounts keyed by `account_id` and credentials keyed by `auth_id`.
  - The credential id sequence.
  - The class `Db` that the handlers share. Its `Valid` predicate holds the unique keys of the credential table: `username` and `account_id`. The `account_id` key is required by the upsert's ON CONFLICT (account_id) clause. The `username` key is assumed, because the credential table's definition is not part of this model.
- `Accounts` (accounts.dfy)
  - The total money in the bank, `Total`, and the table updates `Credited` and `Moved`.
  - The class `AccountHandler`, whose methods change `db.accounts` in place.
  - A transaction is modelled as a snapshot. A failed save or commit restores it, as the rollback does.
  - ORM write failures are boolean inputs, so every branch of each handler is covered. The credential handlers take a failed insert the same way (`insertFails`).
- `Auth` (auth.dfy)
  - Token claims and the upsert on the credential table.
  - The class `AuthHandler`.
  - Three things are functions the handler is built with: bcrypt hashing, bcrypt comparison and HS256 signing. Login takes the clock as its `now` parameter.
- `CharacterCheck` (character_check.dfy): the two validators, as predicates on characters.
- `Magic` (magic.dfy)
  - The arithmetic helpers, on Go's 64-bit `int`. `MagicSum`, `MagicSub`, `MagicPow`, `MagicOdd`, `MagicTria` and `MagicChange` require their operands and results to stay in range. `MagicGrade` and `MagicName` have no such requirement, because they compute no arithmetic result.
  - The two loops become methods with loop invariants.
  - `MagicChange`, which writes through `*int`, becomes a method on a one-field class.

## Where the model follows the code rather than the documented behaviour

- **Transfer.** The code picks the sender and recipient by position from the rows of one `IN` query. The model picks them by id, which is what the handler intends. The position-based pick is modelled separately; see Findings.
  - When the two ids are equal, or either of them has no row, the query returns fewer than two rows. Indexing a missing row then panics (`accounts[0]` when no row came back, `accounts[1]` when one did), and gin's recovery answers 500. The model returns `Internal` in that case.
  - `binding:"required"` on an `int64` rejects only zero. A negative amount therefore passes the balance check and moves money the other way.
- **Delete.** Deleting an id with no row is not an error for gorm, so the handler answers success and leaves the table as it was. It does not answer 404.
- **Login.** An unknown username answers 400 and a wrong password answers 404. There is no 401 on either path.
- **Sign-up.** The handler calls `utils.CharacterCheck`, which neither utils file defines. It is modelled as `NumericCheck`, which matches the reply's "password must be numeric".
  - Sign-up never sets `account_id`, so every signed-up credential has `account_id` 0. Because that column is unique, a second such insert fails with 400.
  - A binding error and a hashing error each write a 400 reply without returning, so the handler carries on. A hashing error stores the empty hash.
- **Update.** The handler ignores the result of `Save`, so a failed save still answers success.
- **TopUp.** A binding error writes 404 and does not return.
- **Credential inserts.** Every insert attempt, including a failed one or an upsert that updates, consumes a value of the credential id sequence, as a PostgreSQL `nextval` default does.
- **Duplicate validators.** `utils/magic.go` repeats both validators of `utils/characterCheck.go` with the same text. Because they are in the same Go package, that would not compile. They are modelled once.

## Model

| member | source | states |
|---|---|---|
| CharacterCheck.NumericCheckAcceptsEmpty | utils/characterCheck.go:9-11 | the numeric pattern uses `*`, so the empty password passes |
| CharacterCheck.AlphanumericCheckSplit | utils/characterCheck.go:5-7 | for every split of a string at an '@', the e-mail pattern accepts it if and only if the left side is a non-empty run without whitespace or '@', and the right side has no whitespace or '@' and has a '.' that is neither its first nor its last character |
| CharacterCheck.NumericCheck | utils/characterCheck.go:9-11 | the starred class matched one character at a time accepts a string if and only if every character is a digit or '_' |
| CharacterCheck.AlphanumericCheck | utils/characterCheck.go:5-7 | an accepted address holds exactly one '@', at least five characters and no whitespace |
| CharacterCheck.SpaceRejected | utils/characterCheck.go:5-11 | a whitespace character anywhere (tab, newline, form feed, carriage return, space) makes both validators reject |
| Magic.MagicSum | utils/magic.go:5-7 | the result is in range, and subtracting either operand gives back the other |
| Magic.MagicSub | utils/magic.go:9-11 | Go's truncating quotient: the remainder is smaller than the divisor in magnitude and is zero or has the sign of the dividend; the result is in range; zero divisor and MinInt / -1 are excluded |
| Magic.Rem | utils/magic.go:17-19 | Go's `%`, the remainder of the truncating quotient, is smaller than the divisor in magnitude |
| Magic.MagicSubOnNaturals | utils/magic.go:9-11 | on a non-negative dividend and positive divisor, Go's quotient equals the Euclidean one |
| Magic.MagicSubTruncates | utils/magic.go:9-11 | -7 / 2 is -3 with remainder -1 in Go, but -4 with remainder 1 under Euclidean division |
| Magic.MagicPow | utils/magic.go:13-15 | the square is in range, never negative, and zero exactly for zero |
| Magic.MagicOdd | utils/magic.go:17-19 | true exactly for the even numbers, negative ones included |
| Magic.MagicGrade | utils/magic.go:21-38 | scores 0 to 5 get their grade, and "Unknown" is answered if and only if the score is outside 0 to 5 |
| Magic.MagicName | utils/magic.go:40-47 | max(n, 0) elements, every one "Bayu" |
| Magic.MagicTria | utils/magic.go:49-56 | the sum 0 + 1 + ... + (n - 1) is n(n - 1)/2 for n >= 0, 0 for n <= 0, and never negative |
| Magic.MagicChange | utils/magic.go:58-60 | the pointed-to integer is doubled |
| Accounts.Credited | handlers/account.handler.go:234 | the same accounts; the credited one keeps its name and its balance changes by exactly the amount; every other account is unchanged |
| Accounts.CreditedTotal | handlers/account.handler.go:234-249 | crediting one account changes the bank's total by exactly the amount |
| Accounts.Moved | handlers/account.handler.go:324-340 | the sender loses and the recipient gains the amount, their sum is unchanged, and every other account is untouched |
| Accounts.MovedConservesTotal | handlers/account.handler.go:317-348 | a transfer leaves the total over all accounts unchanged |
| Accounts.PositiveTransferKeepsNonNegative | handlers/account.handler.go:310-333 | a positive amount that passes the balance check keeps every balance non-negative |
| Accounts.NegativeAmountOverdrawsRecipient | handlers/account.handler.go:33-36 | a negative amount always passes the balance check and can push the recipient below zero while the sender gains |
| Accounts.TransferAsWritten | handlers/account.handler.go:293-315 | the positional pick: when the caller has the lower id it is checked and debited; when it has the higher id, the other account is checked instead, so the caller is credited when the other account covers the amount and refused when it does not, whatever the caller holds |
| Accounts.PositionalPickReversesTransfer | handlers/account.handler.go:307-308 | a caller holding 0 who sends 50 to a lower-numbered account holding 100 ends up receiving 50 from it |
| Accounts.AccountHandler.Read | handlers/account.handler.go:66-91 | the stored account when its id exists, otherwise NotFound |
| Accounts.AccountHandler.Update | handlers/account.handler.go:93-132 | a missing id gives NotFound and no change; otherwise success, with only the name of that account replaced unless the save fails |
| Accounts.AccountHandler.Delete | handlers/account.handler.go:134-160 | a failed delete gives BadRequest and no change; otherwise success, with exactly that id removed (a missing id removes nothing) |
| Accounts.AccountHandler.TopUp | handlers/account.handler.go:206-255 | a binding error or missing id answers NotFound; a failed save or commit rolls back and answers Internal; otherwise the table is the old one with the amount credited, the total grows by the amount, and the new balance is returned |
| Accounts.AccountHandler.Transfer | handlers/account.handler.go:281-356 | BadRequest if and only if the target or amount is zero; Internal when the two rows are not two distinct existing accounts; InsufficientFunds if and only if the sender's balance is below the amount; Internal when a check passes but either save or the commit fails; success if and only if every write succeeds, leaving exactly the moved table and the receipt of both new balances; the sender stays non-negative; any error leaves the table unchanged, and the total is always conserved |
| Auth.CreateClaims | handlers/auth.handler.go:39-54 | the token carries the credential's auth id, account id and username, and expires 7200 seconds after issue |
| Auth.Reassigned | handlers/auth.handler.go:193-197 | on conflict, the row of the account takes the new username and hash; every other row and every key is kept |
| Auth.Upserted | handlers/auth.handler.go:187-197 | insert-or-update keyed by `account_id`: an account that has a credential keeps the same ids, and otherwise exactly the new id is added holding the new credential; every credential of another account is kept as it was, and every credential of this account carries the new username and hash |
| Auth.UpsertedOneCredential | handlers/auth.handler.go:187-203 | without a username clash, the upsert keeps both unique keys and every row stored under its own id, leaves exactly one credential for the account holding the new username and hash, keeps every other account's credential, and adds at most the new id |
| Auth.AuthHandler.AuthLogin | handlers/auth.handler.go:56-96 | an empty field or unknown username answers BadRequest; otherwise the credential with that username decides: a matching password yields the token signed over its claims, and a wrong one answers NotFound |
| Auth.AuthHandler.AuthSignUp | handlers/auth.handler.go:98-145 | a non-numeric password answers Unauthorized and a taken username answers Conflict, each with no change; an existing account-0 credential or any other failed insert answers BadRequest with no change; otherwise exactly one row is added under the next sequence id with account 0 and the hash; the first error reply written wins; the credential table stays valid |
| Auth.AuthHandler.Upsert | handlers/auth.handler.go:153-209 | a hashing error answers BadRequest; a missing account answers NotFound; otherwise success if and only if no other account's credential has the username and the statement does not fail, BadRequest when either happens, and on success the table is the upserted one, holding the account's single credential with the new username and hash and every other account's credential unchanged; errors change nothing; the table stays valid |

## Findings

| source | as written | input that shows it | evidently intended | confidence | as-written member | corrected member |
|---|---|---|---|---|---|---|
| handlers/account.handler.go:293-308 | the rows of `account_id IN (caller, target)` are taken by position: the first is checked and debited and the second credited | accounts 1 (balance 100) and 2 (balance 0); caller 2 sends 50 to account 1, and the rows come back in id order | the caller's own account is checked and debited; here the request is refused for insufficient funds | medium, not executed; assumes the rows come back in ascending `account_id`, which SQL does not promise without ORDER BY | Accounts.TransferAsWritten, Accounts.PositionalPickReversesTransfer | Accounts.AccountHandler.Transfer |

## Left out

- HTTP and JSON are abstracted to handler parameters: routing, path parameters, JSON binding and the reply bodies. A binding error appears only as the empty or zero field that `binding:"required"` rejects, or as a flag (`bindOk`, TopUp).
- Database read errors other than "record not found" are left out. In the code these answer 400, or answer nothing in TopUp and Login.
- Auth.AuthHandler.AuthSignUp: does not model a failed username lookup. In the code such a lookup reports no rows, so the handler goes on to hash and insert as if the username were free.
- The handlers Create, List, My and Balance are not modelled. They perform one ORM call each and state nothing beyond it.
- The auth middleware, the transaction handler, the math-endpoint handler, `index.go`, `hello.go` and `database/connect.go` are outside this model.
- bcrypt's random salt, its cost parameter and its comparison are not modelled. They are the `hash` and `matches` functions the handler is given.
- HS256 signing is the `sign` function. The signing-failure path of login (500) is left out, because `sign` always succeeds.
- Concurrency is left out. Two transfers from one account may both pass the balance check before either commits. Each handler is modelled as one atomic step.
- Accounts.AccountHandler.TopUp: does not model 64-bit wrap-around of the balance, because balances are unbounded integers.
- Accounts.AccountHandler.Transfer: does not model 64-bit wrap-around of the balance, because balances are unbounded integers.
- Magic.MagicName: returns the empty sequence where Go returns a nil slice for n <= 0, because Dafny has no nil slices.
- Magic.MagicSum: requires the sum to stay in range instead of modelling Go's wrap-around.
- Magic.MagicPow: requires the square to stay in range instead of modelling Go's wrap-around.
- Magic.MagicTria: requires the final sum to stay in range instead of modelling Go's wrap-around.
- Magic.MagicChange: requires the doubled value to stay in range instead of modelling Go's wrap-around.
- Magic.MagicSub: excludes a zero divisor, which panics in Go, and MinInt / -1, which wraps in Go.
- Go regular expressions match UTF-8 runes. The model treats a string as a sequence of characters.
