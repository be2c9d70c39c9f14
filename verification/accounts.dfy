/** The account handlers of handlers/account.handler.go that read or change balances
    and names: Read, Update, Delete, TopUp and Transfer. Each handler either leaves
    the account table as it was or commits a new one; write failures of the ORM are
    inputs (`...Fails` flags), so every path through the handler is covered. */
module Accounts {
  import opened Outcomes
  import opened Database

  /** The body of a successful transfer reply. */
  datatype Receipt = Receipt(amount: int, senderBalance: int, recipientBalance: int)

  /** Sum of the balances of the accounts whose ids are in `ids`. */
  ghost function SumOver(t: AccountTable, ids: set<int>): int
    requires ids <= t.Keys
    decreases ids
  {
    if ids == {} then 0
    else
      HasMember(ids);
      var id :| id in ids;
      t[id].balance + SumOver(t, ids - {id})
  }

  /** A non-empty set has an element to pick. */
  lemma HasMember(ids: set<int>)
    requires ids != {}
    ensures exists id :: id in ids
  {
    if forall id :: id !in ids {
      assert false;  // then `ids` would be the empty set
    }
  }

  /** All the money in the bank. */
  ghost function Total(t: AccountTable): int {
    SumOver(t, t.Keys)
  }

  /** Any account, not only the one `SumOver` happens to pick, can be taken out first. */
  lemma {:induction false} SumOverRemove(t: AccountTable, ids: set<int>, id: int)
    requires ids <= t.Keys && id in ids
    ensures SumOver(t, ids) == t[id].balance + SumOver(t, ids - {id})
    decreases ids
  {
    var k :| k in ids && SumOver(t, ids) == t[k].balance + SumOver(t, ids - {k});
    if k != id {
      SumOverRemove(t, ids - {k}, id);
      SumOverRemove(t, ids - {id}, k);
      assert ids - {k} - {id} == ids - {id} - {k};
    }
  }

  /** The sum depends only on the balances of the accounts summed over. */
  lemma {:induction false} SumOverFrame(t: AccountTable, u: AccountTable, ids: set<int>)
    requires ids <= t.Keys && ids <= u.Keys
    requires forall id :: id in ids ==> t[id].balance == u[id].balance
    ensures SumOver(t, ids) == SumOver(u, ids)
    decreases ids
  {
    if ids != {} {
      HasMember(ids);
      var id :| id in ids;
      SumOverRemove(t, ids, id);
      SumOverRemove(u, ids, id);
      SumOverFrame(t, u, ids - {id});
    }
  }

  /** Account `id` with `amount` added to its balance (a negative amount debits). */
  function Credited(t: AccountTable, id: int, amount: int): (u: AccountTable)
    requires id in t
    ensures u.Keys == t.Keys
    ensures u[id].name == t[id].name && u[id].balance - t[id].balance == amount
    ensures forall other :: other in t && other != id ==> u[other] == t[other]
  {
    t[id := t[id].(balance := t[id].balance + amount)]
  }

  /** Crediting one account changes the money in the bank by exactly the amount. */
  lemma CreditedTotal(t: AccountTable, id: int, amount: int)
    requires id in t
    ensures Total(Credited(t, id, amount)) == Total(t) + amount
  {
    var u := Credited(t, id, amount);
    SumOverRemove(t, t.Keys, id);
    SumOverRemove(u, u.Keys, id);
    SumOverFrame(t, u, t.Keys - {id});
  }

  /** `from` and `to` are two different existing accounts. */
  predicate BothPresent(t: AccountTable, from: int, to: int) {
    from in t && to in t && from != to
  }

  /** The table after `amount` has moved from account `from` to account `to`. */
  function Moved(t: AccountTable, from: int, to: int, amount: int): (u: AccountTable)
    requires BothPresent(t, from, to)
    ensures u.Keys == t.Keys
    ensures u[from] == t[from].(balance := t[from].balance - amount)
    ensures u[to] == t[to].(balance := t[to].balance + amount)
    ensures u[from].balance + u[to].balance == t[from].balance + t[to].balance
    ensures forall id :: id in t && id != from && id != to ==> u[id] == t[id]
  {
    Credited(Credited(t, from, -amount), to, amount)
  }

  /** A transfer creates and destroys no money: the total over ALL accounts is the
      same before and after. */
  lemma MovedConservesTotal(t: AccountTable, from: int, to: int, amount: int)
    requires BothPresent(t, from, to)
    ensures Total(Moved(t, from, to, amount)) == Total(t)
  {
    CreditedTotal(t, from, -amount);
    CreditedTotal(Credited(t, from, -amount), to, amount);
  }

  predicate NonNegative(t: AccountTable) {
    forall id :: id in t ==> t[id].balance >= 0
  }

  /** With a positive amount that passes the balance check, a transfer keeps every
      balance non-negative. */
  lemma PositiveTransferKeepsNonNegative(t: AccountTable, from: int, to: int, amount: int)
    requires BothPresent(t, from, to) && NonNegative(t)
    requires 0 < amount && !(t[from].balance < amount)
    ensures NonNegative(Moved(t, from, to, amount))
  {
  }

  /** Nothing rejects a negative amount: it passes the balance check whatever the
      sender holds, and moves money from the recipient to the sender, which can leave
      the recipient below zero. */
  lemma NegativeAmountOverdrawsRecipient(t: AccountTable, from: int, to: int, amount: int)
    requires BothPresent(t, from, to) && amount < 0 && t[from].balance >= 0
    requires t[to].balance < -amount
    ensures !(t[from].balance < amount)
    ensures Moved(t, from, to, amount)[to].balance < 0
    ensures Moved(t, from, to, amount)[from].balance > t[from].balance
  {
  }

  /** Transfer as written: `account_id IN (accountId, targetId)` fills a fresh slice
      with the matching rows, here taken in ascending `account_id` order, and the
      handler checks and debits the FIRST row and credits the second, whichever of
      the two is the caller. A caller with the higher id is credited when the other
      account can cover the amount, and refused when it cannot, whatever the caller
      itself holds. */
  function TransferAsWritten(t: AccountTable, accountId: int, targetId: int, amount: int)
    : (r: Result<AccountTable>)
    requires BothPresent(t, accountId, targetId)
    ensures accountId < targetId ==>
      r == if t[accountId].balance < amount then Err(InsufficientFunds)
           else Ok(Moved(t, accountId, targetId, amount))
    ensures targetId < accountId && t[targetId].balance >= amount ==>
      r == Ok(Moved(t, targetId, accountId, amount))
    ensures targetId < accountId && t[targetId].balance < amount ==> r == Err(InsufficientFunds)
  {
    var first := if accountId < targetId then accountId else targetId;
    var second := if accountId < targetId then targetId else accountId;
    if t[first].balance < amount then Err(InsufficientFunds)
    else Ok(Moved(t, first, second, amount))
  }

  /** The caller 2, holding nothing, asks to send 50 to account 1, which holds 100.
      As written the request succeeds and moves 50 from account 1 to the caller; the
      handler modelled by `AccountHandler.Transfer` refuses it for lack of funds. */
  lemma PositionalPickReversesTransfer()
    ensures var t := map[1 := Account("A", 100), 2 := Account("B", 0)];
      TransferAsWritten(t, 2, 1, 50) == Ok(map[1 := Account("A", 50), 2 := Account("B", 50)])
  {
    var t := map[1 := Account("A", 100), 2 := Account("B", 0)];
    assert Moved(t, 1, 2, 50) == map[1 := Account("A", 50), 2 := Account("B", 50)];
  }

  /** The account handler; `db` is the store it was constructed with. */
  class AccountHandler {
    const db: Db

    constructor (db: Db)
      ensures this.db == db
    {
      this.db := db;
    }

    /** Read: fetch one account by id (handlers/account.handler.go:66-91). */
    method Read(id: int) returns (r: Result<Account>)
      ensures id in db.accounts ==> r == Ok(db.accounts[id])
      ensures id !in db.accounts ==> r == Err(NotFound)
    {
      if id !in db.accounts {
        return Err(NotFound);
      }
      r := Ok(db.accounts[id]);
    }

    /** Update: rename an account. The result of the save is ignored, so a failed
        save still answers success. */
    method Update(id: int, name: string, saveFails: bool) returns (r: Result<()>)
      modifies db`accounts
      ensures id !in old(db.accounts) ==> r == Err(NotFound) && db.accounts == old(db.accounts)
      ensures id in old(db.accounts) ==> r == Ok(())
      ensures id in old(db.accounts) && !saveFails ==>
        db.accounts == old(db.accounts)[id := old(db.accounts)[id].(name := name)]
      ensures saveFails ==> db.accounts == old(db.accounts)
    {
      if id !in db.accounts {
        return Err(NotFound);
      }
      var account := db.accounts[id];
      account := account.(name := name);
      if !saveFails {
        db.accounts := db.accounts[id := account];
      }
      r := Ok(());
    }

    /** Delete: remove the row(s) with this id. Deleting no row is not an error for
        the ORM, so a missing id also answers success. */
    method Delete(id: int, deleteFails: bool) returns (r: Result<()>)
      modifies db`accounts
      ensures deleteFails ==> r == Err(BadRequest) && db.accounts == old(db.accounts)
      ensures !deleteFails ==> r == Ok(()) && db.accounts == old(db.accounts) - {id}
      ensures id !in old(db.accounts) ==> db.accounts == old(db.accounts)
    {
      if deleteFails {
        return Err(BadRequest);
      }
      if id !in db.accounts {
        assert db.accounts - {id} == db.accounts;
      }
      db.accounts := db.accounts - {id};
      r := Ok(());
    }

    /** TopUp: add the payload's amount to one balance inside a transaction. A binding
        error writes a 404 reply but does not return, so the handler carries on with
        whatever amount was bound; `bindOk` says whether binding succeeded. */
    method TopUp(id: int, bindOk: bool, amount: int, saveFails: bool, commitFails: bool)
      returns (r: Result<int>)
      modifies db`accounts
      ensures !bindOk ==> r == Err(NotFound)
      ensures id !in old(db.accounts) ==> r == Err(NotFound)
      ensures id !in old(db.accounts) || saveFails || commitFails ==> db.accounts == old(db.accounts)
      ensures id in old(db.accounts) && !saveFails && !commitFails ==>
        db.accounts == Credited(old(db.accounts), id, amount) &&
        Total(db.accounts) == Total(old(db.accounts)) + amount
      ensures bindOk && id in old(db.accounts) && (saveFails || commitFails) ==> r == Err(Internal)
      ensures bindOk && id in old(db.accounts) && !saveFails && !commitFails ==>
        r == Ok(db.accounts[id].balance)
    {
      var pending: Option<Error> := None;
      if !bindOk {
        pending := Some(NotFound);
      }
      if id !in db.accounts {
        return Answer(pending, Err(NotFound));
      }
      var account := db.accounts[id];
      var snapshot := db.accounts;  // begin
      account := account.(balance := account.balance + amount);
      if saveFails {
        db.accounts := snapshot;  // rollback
        return Answer(pending, Err(Internal));
      }
      db.accounts := db.accounts[id := account];
      if commitFails {
        db.accounts := snapshot;  // rollback
        return Answer(pending, Err(Internal));
      }
      CreditedTotal(snapshot, id, amount);
      r := Answer(pending, Ok(account.balance));
    }

    /** Transfer: move `amount` from the authenticated account `accountId` to
        `targetId`. The balance check comes first; the debit and the credit are two
        saves in one transaction, rolled back if either save or the commit fails. */
    method Transfer(accountId: int, targetId: int, amount: int,
                    senderSaveFails: bool, recipientSaveFails: bool, commitFails: bool)
      returns (r: Result<Receipt>)
      modifies db`accounts
      ensures r.Err? ==> db.accounts == old(db.accounts)
      ensures r == Err(BadRequest) <==> targetId == 0 || amount == 0
      ensures targetId != 0 && amount != 0 && !BothPresent(old(db.accounts), accountId, targetId) ==>
        r == Err(Internal)
      ensures r == Err(InsufficientFunds) <==>
        targetId != 0 && amount != 0 && BothPresent(old(db.accounts), accountId, targetId) &&
        old(db.accounts)[accountId].balance < amount
      ensures r.Ok? <==>
        targetId != 0 && amount != 0 && BothPresent(old(db.accounts), accountId, targetId) &&
        amount <= old(db.accounts)[accountId].balance &&
        !senderSaveFails && !recipientSaveFails && !commitFails
      ensures (targetId != 0 && amount != 0 && BothPresent(old(db.accounts), accountId, targetId) &&
               amount <= old(db.accounts)[accountId].balance &&
               (senderSaveFails || recipientSaveFails || commitFails)) ==>
        r == Err(Internal)
      ensures r.Ok? ==> db.accounts == Moved(old(db.accounts), accountId, targetId, amount)
      ensures r.Ok? ==>
        r.value == Receipt(amount, db.accounts[accountId].balance, db.accounts[targetId].balance)
      ensures r.Ok? ==> db.accounts[accountId].balance >= 0
      ensures Total(db.accounts) == Total(old(db.accounts))
    {
      // binding:"required" rejects a zero target id or amount
      if targetId == 0 || amount == 0 {
        return Err(BadRequest);
      }
      // fewer than two rows found: indexing the second one panics, answered with 500
      if !BothPresent(db.accounts, accountId, targetId) {
        return Err(Internal);
      }
      var sender, recipient := db.accounts[accountId], db.accounts[targetId];
      if sender.balance < amount {
        return Err(InsufficientFunds);
      }
      var snapshot := db.accounts;  // begin
      sender := sender.(balance := sender.balance - amount);
      if senderSaveFails {
        db.accounts := snapshot;  // rollback
        return Err(Internal);
      }
      db.accounts := db.accounts[accountId := sender];
      recipient := recipient.(balance := recipient.balance + amount);
      if recipientSaveFails {
        db.accounts := snapshot;  // rollback
        return Err(Internal);
      }
      db.accounts := db.accounts[targetId := recipient];
      if commitFails {
        db.accounts := snapshot;  // rollback
        return Err(Internal);
      }
      MovedConservesTotal(snapshot, accountId, targetId, amount);
      r := Ok(Receipt(amount, sender.balance, recipient.balance));
    }
  }

  /** Two accounts holding 100 and 50: moving 30 leaves 70 and 80; then asking to move
      1000 is refused and changes nothing. A caller holding nothing cannot pull money
      from a lower-numbered account. */
  method TransferScenario() {
    var db := new Db(map[1 := Account("A", 100), 2 := Account("B", 50)]);
    var handler := new AccountHandler(db);
    var r := handler.Transfer(1, 2, 30, false, false, false);
    assert r == Ok(Receipt(30, 70, 80));
    r := handler.Transfer(1, 2, 1000, false, false, false);
    assert r == Err(InsufficientFunds);
    assert db.accounts[1].balance == 70 && db.accounts[2].balance == 80;

    // the input of PositionalPickReversesTransfer: the caller 2 holds nothing
    var other := new Db(map[1 := Account("A", 100), 2 := Account("B", 0)]);
    handler := new AccountHandler(other);
    r := handler.Transfer(2, 1, 50, false, false, false);
    assert r == Err(InsufficientFunds);
  }
}
