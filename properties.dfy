/** What the engine promises: each operation's effect on the two tables and
    its answer, the ledger invariant every operation keeps, and the audit
    trail's guarantees over any run of operations. */
module TransferProperties {
  import opened Common
  import opened JavaStrings
  import opened AccountModel
  import opened TransferModel
  import opened Store
  import opened TransferEngine

  // ---------------------------------------------------------------------
  // Helpers about the account table

  /** Positions `i` and `j` of the accounts table hold the accounts a request names. */
  ghost predicate Names(l: Ledger, req: TransferRequest, i: nat, j: nat)
  {
    && i < |l.accounts| && j < |l.accounts|
    && l.accounts[i].accountNumber == req.sourceAccountNumber
    && l.accounts[j].accountNumber == req.destinationAccountNumber
  }

  /** No account carries the number. */
  ghost predicate Unknown(l: Ledger, number: string)
  {
    forall a :: a in l.accounts ==> a.accountNumber != number
  }

  /** The position of a row of a table. */
  lemma PositionOf<T>(rows: seq<T>, a: T) returns (i: nat)
    requires a in rows
    ensures i < |rows| && rows[i] == a
  {
    i :| 0 <= i < |rows| && rows[i] == a;
  }

  /** Overwriting one account with a row of the same id and number and a
      non-negative balance keeps the table valid. */
  lemma UpdateKeepsAccountsValid(rows: seq<AccountRow>, i: nat, row: AccountRow)
    requires AccountsValid(rows) && i < |rows|
    requires row.id == rows[i].id && row.accountNumber == rows[i].accountNumber && row.balance >= 0
    ensures AccountsValid(rows[i := row])
  {
    UpdateKeepsUniqueKeys(rows, AccountKey, i, row);
    var r := rows[i := row];
    forall p, q | 0 <= p < q < |r| ensures r[p].accountNumber != r[q].accountNumber {
      assert r[p].accountNumber == rows[p].accountNumber && r[q].accountNumber == rows[q].accountNumber;
    }
    forall a | a in r ensures a.balance >= 0 {
      var k :| 0 <= k < |r| && r[k] == a;
      if k != i { assert rows[k] == a; }
    }
  }

  // ---------------------------------------------------------------------
  // performTransfer

  /** The validation outcome once both accounts are located: the funds check
      comes first, then the check that the accounts differ. */
  lemma CheckTransferAt(l: Ledger, req: TransferRequest, i: nat, j: nat)
    requires Valid(l) && Names(l, req, i, j)
    ensures CheckTransfer(l.accounts, req) ==
            if l.accounts[i].balance < req.amount then Failure(InsufficientFunds(l.accounts[i].balance))
            else if i == j then Failure(SameAccount)
            else Success((l.accounts[i], l.accounts[j]))
  {
    FindByAccountNumberAt(l.accounts, i);
    FindByAccountNumberAt(l.accounts, j);
    assert i != j ==> l.accounts[i].id != l.accounts[j].id;
  }

  /** A covered transfer between two different accounts debits the source by
      the amount, credits the destination by it, leaves every other account
      as it was, appends one COMPLETED record and answers COMPLETED. */
  lemma TransferMovesFunds(l: Ledger, req: TransferRequest, now: Time, i: nat, j: nat)
    requires Valid(l) && Names(l, req, i, j)
    requires l.accounts[i].balance >= req.amount && i != j
    ensures var (l', resp) := PerformTransfer(l, req, now);
            var s, d := l.accounts[i], l.accounts[j];
            && l'.accounts == l.accounts[i := s.Debited(req.amount, now)][j := d.Credited(req.amount, now)]
            && l'.accounts[i].balance == s.balance - req.amount
            && l'.accounts[j].balance == d.balance + req.amount
            && l'.accounts[i].balance + l'.accounts[j].balance == s.balance + d.balance
            && l'.transfers == l.transfers + [TransferRow(l.nextTransferId, Some(s.id), Some(d.id), req.amount,
                                                          req.description, COMPLETED, now)]
            && l'.nextTransferId == l.nextTransferId + 1
            && resp == TransferResponse(l.nextTransferId, req.sourceAccountNumber, req.destinationAccountNumber,
                                        req.amount, req.description, COMPLETED, now, SuccessMessage)
  {
    var s, d := l.accounts[i], l.accounts[j];
    CheckTransferAt(l, req, i, j);
    var debited := l.accounts[i := s.Debited(req.amount, now)];
    ReplaceAt(l.accounts, AccountKey, i, s.Debited(req.amount, now));
    UpdateKeepsUniqueKeys(l.accounts, AccountKey, i, s.Debited(req.amount, now));
    ReplaceAt(debited, AccountKey, j, d.Credited(req.amount, now));
  }

  /** No transfer attempt, successful or not, changes the funds the ledger holds. */
  lemma TransferConservesFunds(l: Ledger, req: TransferRequest, now: Time)
    requires Valid(l)
    ensures TotalBalance(PerformTransfer(l, req, now).0.accounts) == TotalBalance(l.accounts)
  {
    match CheckTransfer(l.accounts, req)
    case Success((s, d)) =>
      var i := PositionOf(l.accounts, s);
      var j := PositionOf(l.accounts, d);
      TransferMovesFunds(l, req, now, i, j);
      var debited := l.accounts[i := s.Debited(req.amount, now)];
      TotalBalanceUpdate(l.accounts, i, s.Debited(req.amount, now));
      TotalBalanceUpdate(debited, j, d.Credited(req.amount, now));
    case Failure(_) =>
  }

  /** A transfer completes exactly when both accounts exist, are different, and
      the source covers the amount. */
  lemma TransferCompletesIff(l: Ledger, req: TransferRequest, now: Time)
    requires Valid(l)
    ensures PerformTransfer(l, req, now).1.status == COMPLETED <==>
            exists i: nat, j: nat :: Names(l, req, i, j) && l.accounts[i].balance >= req.amount && i != j
  {
    match CheckTransfer(l.accounts, req)
    case Success((s, d)) =>
      var i := PositionOf(l.accounts, s);
      var j := PositionOf(l.accounts, d);
      assert Names(l, req, i, j) && i != j;
    case Failure(_) =>
      if i: nat, j: nat :| Names(l, req, i, j) && l.accounts[i].balance >= req.amount && i != j {
        TransferMovesFunds(l, req, now, i, j);
      }
  }

  /** When the source does not cover the amount (whether or not the two
      accounts are the same), no balance changes and one FAILED record
      referencing both accounts is appended. */
  lemma InsufficientFundsRejected(l: Ledger, req: TransferRequest, now: Time, i: nat, j: nat)
    requires Valid(l) && Names(l, req, i, j)
    requires l.accounts[i].balance < req.amount
    ensures var (l', resp) := PerformTransfer(l, req, now);
            var s, d := l.accounts[i], l.accounts[j];
            var f := InsufficientFunds(s.balance);
            && l'.accounts == l.accounts
            && l'.transfers == l.transfers + [TransferRow(l.nextTransferId, Some(s.id), Some(d.id), req.amount,
                                                          Some(JavaString(req.description) + FailedInfix + Message(f)),
                                                          FAILED, now)]
            && l'.nextTransferId == l.nextTransferId + 1
            && resp == TransferResponse(l.nextTransferId, req.sourceAccountNumber, req.destinationAccountNumber,
                                        req.amount, req.description, FAILED, now, "Error: " + Message(f))
  {
    CheckTransferAt(l, req, i, j);
  }

  /** A covered transfer from an account to itself is rejected as such, after
      the funds check, and moves no money; its audit record names the account twice. */
  lemma SameAccountRejected(l: Ledger, req: TransferRequest, now: Time, i: nat)
    requires Valid(l) && Names(l, req, i, i)
    requires l.accounts[i].balance >= req.amount
    ensures var (l', resp) := PerformTransfer(l, req, now);
            var s := l.accounts[i];
            && l'.accounts == l.accounts
            && l'.transfers == l.transfers + [TransferRow(l.nextTransferId, Some(s.id), Some(s.id), req.amount,
                                                          Some(JavaString(req.description) + FailedInfix + Message(SameAccount)),
                                                          FAILED, now)]
            && l'.nextTransferId == l.nextTransferId + 1
            && resp == TransferResponse(l.nextTransferId, req.sourceAccountNumber, req.destinationAccountNumber,
                                        req.amount, req.description, FAILED, now, "Error: " + Message(SameAccount))
  {
    CheckTransferAt(l, req, i, i);
  }

  /** When either account number is unknown, no balance changes and the
      appended FAILED record carries no account reference, even when the other
      side resolves. */
  lemma UnresolvedAccountGivesBareRecord(l: Ledger, req: TransferRequest, now: Time)
    requires Unknown(l, req.sourceAccountNumber) || Unknown(l, req.destinationAccountNumber)
    ensures var (l', resp) := PerformTransfer(l, req, now);
            var f := if Unknown(l, req.sourceAccountNumber) then SourceAccountNotFound(req.sourceAccountNumber)
                     else DestinationAccountNotFound(req.destinationAccountNumber);
            && l'.accounts == l.accounts
            && l'.transfers == l.transfers + [TransferRow(l.nextTransferId, None, None, req.amount,
                                                          Some(FailedPrefix + Message(f)), FAILED, now)]
            && l'.nextTransferId == l.nextTransferId + 1
            && resp == TransferResponse(l.nextTransferId, req.sourceAccountNumber, req.destinationAccountNumber,
                                        req.amount, req.description, FAILED, now, "Error: " + Message(f))
  {
  }

  /** Appending a record with the next id keeps the transfers table valid. */
  lemma AppendKeepsTransfersValid(ts: seq<TransferRow>, next: TransferId, t: TransferRow)
    requires TransfersValid(ts, next) && t.id == next && WellFormedTransfer(t, next + 1)
    ensures TransfersValid(ts + [t], next + 1)
  {
    var r := ts + [t];
    forall p, q | 0 <= p < q < |r| ensures r[p].id < r[q].id {
      assert r[p] == ts[p] && ts[p] in ts;
      if q < |ts| { assert r[q] == ts[q]; }
    }
  }

  /** Given a positive amount, a transfer attempt keeps the ledger invariant. */
  lemma PerformTransferKeepsValid(l: Ledger, req: TransferRequest, now: Time)
    requires Valid(l) && req.amount > 0
    ensures Valid(PerformTransfer(l, req, now).0)
  {
    var (l', resp) := PerformTransfer(l, req, now);
    match CheckTransfer(l.accounts, req)
    case Success((s, d)) =>
      var i := PositionOf(l.accounts, s);
      var j := PositionOf(l.accounts, d);
      TransferMovesFunds(l, req, now, i, j);
      UpdateKeepsAccountsValid(l.accounts, i, s.Debited(req.amount, now));
      UpdateKeepsAccountsValid(l.accounts[i := s.Debited(req.amount, now)], j, d.Credited(req.amount, now));
      AppendKeepsTransfersValid(l.transfers, l.nextTransferId, l'.transfers[|l.transfers|]);
    case Failure(f) =>
      AppendKeepsTransfersValid(l.transfers, l.nextTransferId,
                                FailedTransfer(l.accounts, req, Message(f), l.nextTransferId, now));
  }

  // ---------------------------------------------------------------------
  // Helpers about the transfers table

  /** Ascending ids are unique ids. */
  lemma AscendingIdsAreUnique(ts: seq<TransferRow>)
    requires AscendingIds(ts)
    ensures UniqueKeys(ts, TransferKey)
  {
  }

  /** Cutting one record out keeps the transfers table valid. */
  lemma CutKeepsTransfersValid(ts: seq<TransferRow>, next: TransferId, i: nat)
    requires TransfersValid(ts, next) && i < |ts|
    ensures TransfersValid(Cut(ts, i), next)
  {
    var r := Cut(ts, i);
    forall p, q | 0 <= p < q < |r| ensures r[p].id < r[q].id {
      assert r[p] == ts[if p < i then p else p + 1];
      assert r[q] == ts[if q < i then q else q + 1];
    }
    forall t | t in r ensures WellFormedTransfer(t, next) {
      var k :| 0 <= k < |r| && r[k] == t;
      assert t == ts[if k < i then k else k + 1];
    }
  }

  /** Cutting one account out keeps the accounts table valid. */
  lemma CutKeepsAccountsValid(rows: seq<AccountRow>, i: nat)
    requires AccountsValid(rows) && i < |rows|
    ensures AccountsValid(Cut(rows, i))
  {
    var r := Cut(rows, i);
    forall p, q | 0 <= p < q < |r| ensures r[p].id != r[q].id && r[p].accountNumber != r[q].accountNumber {
      assert r[p] == rows[if p < i then p else p + 1];
      assert r[q] == rows[if q < i then q else q + 1];
    }
    forall a | a in r ensures a.balance >= 0 {
      var k :| 0 <= k < |r| && r[k] == a;
      assert a == rows[if k < i then k else k + 1];
    }
  }

  /** No transfer carries the id. */
  ghost predicate NoTransfer(l: Ledger, id: TransferId)
  {
    forall t :: t in l.transfers ==> t.id != id
  }

  // ---------------------------------------------------------------------
  // cancelTransfer

  /** Cancelling an unknown transfer fails and changes nothing. */
  lemma CancelUnknownTransfer(l: Ledger, id: TransferId)
    requires NoTransfer(l, id)
    ensures CancelTransfer(l, id) == (l, Failure(TransferNotFound(id)))
  {
  }

  /** Only a PENDING transfer can be cancelled: it becomes FAILED with the
      cancellation suffix on its description, and no other record changes.
      Any other status is refused and changes nothing. */
  lemma CancelTransferAt(l: Ledger, i: nat)
    requires Valid(l) && i < |l.transfers|
    ensures var t := l.transfers[i];
            t.status != PENDING ==> CancelTransfer(l, t.id) == (l, Failure(NotPending(t.status)))
    ensures var t := l.transfers[i];
            var c := TransferRow(t.id, t.sourceAccountId, t.destinationAccountId, t.amount,
                                 Some(JavaString(t.description) + CancelSuffix), FAILED, t.createdAt);
            t.status == PENDING ==> CancelTransfer(l, t.id) == (l.(transfers := l.transfers[i := c]), Success(c))
  {
    AscendingIdsAreUnique(l.transfers);
    FindByIdAt(l.transfers, TransferKey, i);
    var t := l.transfers[i];
    ReplaceAt(l.transfers, TransferKey, i, Cancelled(t));
  }

  /** Cancelling keeps the ledger invariant. */
  lemma CancelTransferKeepsValid(l: Ledger, id: TransferId)
    requires Valid(l)
    ensures Valid(CancelTransfer(l, id).0)
  {
    var found := FindById(l.transfers, TransferKey, id);
    if found.Some? && found.value.status == PENDING {
      var i := PositionOf(l.transfers, found.value);
      CancelTransferAt(l, i);
      var ts := l.transfers;
      var r := ts[i := Cancelled(ts[i])];
      forall p, q | 0 <= p < q < |r| ensures r[p].id < r[q].id {
        assert r[p].id == ts[p].id && r[q].id == ts[q].id;
      }
      forall t | t in r ensures WellFormedTransfer(t, l.nextTransferId) {
        var k :| 0 <= k < |r| && r[k] == t;
        assert ts[k] in ts;
      }
    }
  }

  // ---------------------------------------------------------------------
  // deleteTransfer

  /** Deleting an unknown transfer fails and changes nothing. */
  lemma DeleteUnknownTransfer(l: Ledger, id: TransferId)
    requires NoTransfer(l, id)
    ensures DeleteTransfer(l, id) == (l, Failure(TransferNotFound(id)))
  {
  }

  /** Only a FAILED transfer can be deleted, and deleting it removes exactly
      that record; a PENDING or COMPLETED one is refused and nothing changes. */
  lemma DeleteTransferAt(l: Ledger, i: nat)
    requires Valid(l) && i < |l.transfers|
    ensures var t := l.transfers[i];
            t.status != FAILED ==> DeleteTransfer(l, t.id) == (l, Failure(NotFailed(t.status)))
    ensures var t := l.transfers[i];
            t.status == FAILED ==> DeleteTransfer(l, t.id) == (l.(transfers := Cut(l.transfers, i)), Success(()))
  {
    AscendingIdsAreUnique(l.transfers);
    FindByIdAt(l.transfers, TransferKey, i);
    RemoveAt(l.transfers, TransferKey, i);
  }

  /** Deleting a transfer keeps the ledger invariant. */
  lemma DeleteTransferKeepsValid(l: Ledger, id: TransferId)
    requires Valid(l)
    ensures Valid(DeleteTransfer(l, id).0)
  {
    var found := FindById(l.transfers, TransferKey, id);
    if found.Some? {
      var i := PositionOf(l.transfers, found.value);
      DeleteTransferAt(l, i);
      CutKeepsTransfersValid(l.transfers, l.nextTransferId, i);
    }
  }

  // ---------------------------------------------------------------------
  // deleteAccount

  /** Some transfer out of account `id` is PENDING. */
  ghost predicate PendingOutgoing(l: Ledger, id: AccountId)
  {
    exists t :: t in l.transfers && t.sourceAccountId == Some(id) && t.status == PENDING
  }

  /** Deleting an unknown account fails and changes nothing. */
  lemma DeleteUnknownAccount(l: Ledger, number: string)
    requires Unknown(l, number)
    ensures DeleteAccount(l, number) == (l, Failure(AccountNotFound(number)))
  {
  }

  /** An account can be deleted exactly when its balance is zero and no
      transfer out of it is PENDING (transfers into it are not consulted);
      deleting removes exactly that account and no transfer. */
  lemma DeleteAccountAt(l: Ledger, i: nat)
    requires Valid(l) && i < |l.accounts|
    ensures var a := l.accounts[i];
            a.balance != 0 ==> DeleteAccount(l, a.accountNumber) == (l, Failure(NonZeroBalance(a.balance)))
    ensures var a := l.accounts[i];
            a.balance == 0 && PendingOutgoing(l, a.id) ==>
              DeleteAccount(l, a.accountNumber) == (l, Failure(HasPendingTransfers))
    ensures var a := l.accounts[i];
            a.balance == 0 && !PendingOutgoing(l, a.id) ==>
              DeleteAccount(l, a.accountNumber) == (l.(accounts := Cut(l.accounts, i)), Success(()))
  {
    var a := l.accounts[i];
    FindByAccountNumberAt(l.accounts, i);
    assert HasPendingOutgoing(l.transfers, a.id) <==> PendingOutgoing(l, a.id);
    RemoveAt(l.accounts, AccountKey, i);
  }

  /** Deleting an account keeps the ledger invariant. */
  lemma DeleteAccountKeepsValid(l: Ledger, number: string)
    requires Valid(l)
    ensures Valid(DeleteAccount(l, number).0)
  {
    var found := FindByAccountNumber(l.accounts, number);
    if found.Some? {
      var i := PositionOf(l.accounts, found.value);
      DeleteAccountAt(l, i);
      CutKeepsAccountsValid(l.accounts, i);
    }
  }

  // ---------------------------------------------------------------------
  // updateAccount

  /** The patch names a new owner: present and not blank. */
  ghost predicate SuppliesOwnerName(patch: AccountUpdateRequest)
  {
    patch.ownerName.Some? && !IsBlank(patch.ownerName.value)
  }

  /** Updating an unknown account fails and changes nothing. */
  lemma UpdateUnknownAccount(l: Ledger, number: string, patch: AccountUpdateRequest, now: Time)
    requires Unknown(l, number)
    ensures UpdateAccount(l, number, patch, now) == (l, Failure(AccountNotFound(number)))
  {
  }

  /** An update changes only the fields the patch supplies: the owner name
      when a non-blank one is given, the balance when one is given. With
      nothing to change the store is untouched; otherwise only that account's
      row is rewritten, with the new timestamp. */
  lemma UpdateAccountAt(l: Ledger, i: nat, patch: AccountUpdateRequest, now: Time)
    requires Valid(l) && i < |l.accounts|
    ensures var a := l.accounts[i];
            var (l', r) := UpdateAccount(l, a.accountNumber, patch, now);
            && r.Success?
            && r.value.id == a.id && r.value.accountNumber == a.accountNumber && r.value.createdAt == a.createdAt
            && r.value.ownerName == (if SuppliesOwnerName(patch) then patch.ownerName.value else a.ownerName)
            && r.value.balance == (if patch.balance.Some? then patch.balance.value else a.balance)
            && l'.transfers == l.transfers && l'.nextTransferId == l.nextTransferId
            && (SuppliesOwnerName(patch) || patch.balance.Some? ==>
                  r.value.updatedAt == now && l'.accounts == l.accounts[i := r.value])
            && (!SuppliesOwnerName(patch) && patch.balance.None? ==> l' == l && r.value == a)
  {
    var a := l.accounts[i];
    FindByAccountNumberAt(l.accounts, i);
    if patch.ownerName.Some? {
      TrimIsEmptyIffBlank(patch.ownerName.value);
    }
    assert RenamesOwner(patch) <==> SuppliesOwnerName(patch);
    var r := UpdateAccount(l, a.accountNumber, patch, now).1;
    if ChangesAccount(patch) {
      ReplaceAt(l.accounts, AccountKey, i, r.value);
    }
  }

  /** An update whose balance, if any, is non-negative keeps the ledger invariant. */
  lemma UpdateAccountKeepsValid(l: Ledger, number: string, patch: AccountUpdateRequest, now: Time)
    requires Valid(l) && (patch.balance.Some? ==> patch.balance.value >= 0)
    ensures Valid(UpdateAccount(l, number, patch, now).0)
  {
    var found := FindByAccountNumber(l.accounts, number);
    if found.Some? {
      var i := PositionOf(l.accounts, found.value);
      UpdateAccountAt(l, i, patch, now);
      var r := UpdateAccount(l, number, patch, now).1;
      if SuppliesOwnerName(patch) || patch.balance.Some? {
        UpdateKeepsAccountsValid(l.accounts, i, r.value);
      }
    }
  }

  // ---------------------------------------------------------------------
  // getTransferHistory

  /** An unknown account has an empty history. */
  lemma HistoryOfUnknownAccount(l: Ledger, number: string)
    requires Unknown(l, number)
    ensures TransferHistory(l, number) == []
  {
  }

  /** The history of an account lists first exactly the transfers out of it,
      then exactly the transfers into it, each group in table order. */
  lemma HistoryAt(l: Ledger, i: nat)
    requires Valid(l) && i < |l.accounts|
    ensures var a := l.accounts[i];
            var h := TransferHistory(l, a.accountNumber);
            var k := |FindByAccount(l.transfers, Source, a.id)|;
            && k <= |h|
            && (forall t :: t in h[..k] <==> t in l.transfers && t.sourceAccountId == Some(a.id))
            && (forall t :: t in h[k..] <==> t in l.transfers && t.destinationAccountId == Some(a.id))
            && AscendingIds(h[..k]) && AscendingIds(h[k..])
  {
    var a := l.accounts[i];
    FindByAccountNumberAt(l.accounts, i);
    var outgoing := FindByAccount(l.transfers, Source, a.id);
    var incoming := FindByAccount(l.transfers, Destination, a.id);
    var h := outgoing + incoming;
    assert h[..|outgoing|] == outgoing;
    assert h[|outgoing|..] == incoming;
    FindByAccountKeepsOrder(l.transfers, Source, a.id);
    FindByAccountKeepsOrder(l.transfers, Destination, a.id);
  }

  /** A record naming the account on both sides (the audit record of a
      rejected transfer to itself) appears in both groups of its history. */
  lemma SelfReferenceListedTwice(l: Ledger, i: nat, t: TransferRow)
    requires Valid(l) && i < |l.accounts|
    requires t in l.transfers
    requires t.sourceAccountId == Some(l.accounts[i].id) && t.destinationAccountId == Some(l.accounts[i].id)
    ensures var a := l.accounts[i];
            var h := TransferHistory(l, a.accountNumber);
            var k := |FindByAccount(l.transfers, Source, a.id)|;
            k <= |h| && t in h[..k] && t in h[k..]
  {
    HistoryAt(l, i);
  }

  // ---------------------------------------------------------------------
  // Runs of operations

  /** One state-changing call of the service. */
  datatype Operation =
    | Transfer(request: TransferRequest, at: Time)
    | Update(accountNumber: string, patch: AccountUpdateRequest, at: Time)
    | Cancel(transferId: TransferId)
    | RemoveAccount(accountNumber: string)
    | RemoveTransfer(transferId: TransferId)

  /** What request validation guarantees before a call reaches the service:
      a positive amount, a non-negative balance in a patch. */
  ghost predicate Admissible(op: Operation)
  {
    match op
    case Transfer(req, _) => req.amount > 0
    case Update(_, patch, _) => patch.balance.Some? ==> patch.balance.value >= 0
    case _ => true
  }

  function Step(l: Ledger, op: Operation): Ledger
  {
    match op
    case Transfer(req, now) => PerformTransfer(l, req, now).0
    case Update(number, patch, now) => UpdateAccount(l, number, patch, now).0
    case Cancel(id) => CancelTransfer(l, id).0
    case RemoveAccount(number) => DeleteAccount(l, number).0
    case RemoveTransfer(id) => DeleteTransfer(l, id).0
  }

  /** The ledger after the operations, applied in order. */
  function Run(l: Ledger, ops: seq<Operation>): Ledger
    decreases |ops|
  {
    if ops == [] then l else Run(Step(l, ops[0]), ops[1..])
  }

  /** The audit trail only grows where it matters: no COMPLETED record is ever
      changed or removed, and no operation creates a PENDING record. */
  ghost predicate AuditKept(l: Ledger, l': Ledger)
  {
    && (forall t :: t in l.transfers && t.status == COMPLETED ==> t in l'.transfers)
    && (forall t :: t in l'.transfers && t.status == PENDING ==> t in l.transfers)
  }

  /** Every admissible operation keeps the ledger invariant. */
  lemma StepKeepsValid(l: Ledger, op: Operation)
    requires Valid(l) && Admissible(op)
    ensures Valid(Step(l, op))
  {
    match op
    case Transfer(req, now) => PerformTransferKeepsValid(l, req, now);
    case Update(number, patch, now) => UpdateAccountKeepsValid(l, number, patch, now);
    case Cancel(id) => CancelTransferKeepsValid(l, id);
    case RemoveAccount(number) => DeleteAccountKeepsValid(l, number);
    case RemoveTransfer(id) => DeleteTransferKeepsValid(l, id);
  }

  /** Cancelling keeps the audit trail: the one record it rewrites was PENDING. */
  lemma CancelTransferKeepsAudit(l: Ledger, id: TransferId)
    requires Valid(l)
    ensures AuditKept(l, CancelTransfer(l, id).0)
  {
    var found := FindById(l.transfers, TransferKey, id);
    if found.Some? && found.value.status == PENDING {
      var i := PositionOf(l.transfers, found.value);
      CancelTransferAt(l, i);
      var ts := l.transfers;
      var ts' := CancelTransfer(l, id).0.transfers;
      forall t | t in ts && t.status == COMPLETED ensures t in ts' {
        var k := PositionOf(ts, t);
        assert ts'[k] == t;
      }
      forall t | t in ts' && t.status == PENDING ensures t in ts {
        var k := PositionOf(ts', t);
        assert ts[k] == t;
      }
    }
  }

  /** Deleting a transfer keeps the audit trail: the one record it removes was FAILED. */
  lemma DeleteTransferKeepsAudit(l: Ledger, id: TransferId)
    requires Valid(l)
    ensures AuditKept(l, DeleteTransfer(l, id).0)
  {
    var found := FindById(l.transfers, TransferKey, id);
    if found.Some? && found.value.status == FAILED {
      var i := PositionOf(l.transfers, found.value);
      DeleteTransferAt(l, i);
      var ts := l.transfers;
      var ts' := Cut(ts, i);
      forall t | t in ts && t.status == COMPLETED ensures t in ts' {
        var k := PositionOf(ts, t);
        assert k != i;
        assert ts'[if k < i then k else k - 1] == t;
      }
      forall t | t in ts' && t.status == PENDING ensures t in ts {
        var k := PositionOf(ts', t);
        assert ts[if k < i then k else k + 1] == t;
      }
    }
  }

  /** Every operation keeps the audit trail. */
  lemma StepKeepsAudit(l: Ledger, op: Operation)
    requires Valid(l)
    ensures AuditKept(l, Step(l, op))
  {
    match op
    case Cancel(id) => CancelTransferKeepsAudit(l, id);
    case RemoveTransfer(id) => DeleteTransferKeepsAudit(l, id);
    case Transfer(req, now) =>
    case Update(number, patch, now) =>
    case RemoveAccount(number) =>
  }

  /** No transfer is PENDING. */
  ghost predicate NoPending(l: Ledger)
  {
    forall t :: t in l.transfers ==> t.status != PENDING
  }

  /** Any run of admissible operations keeps the invariant. */
  lemma {:induction false} RunKeepsValid(l: Ledger, ops: seq<Operation>)
    requires Valid(l)
    requires forall k :: 0 <= k < |ops| ==> Admissible(ops[k])
    ensures Valid(Run(l, ops))
    decreases |ops|
  {
    if ops != [] {
      StepKeepsValid(l, ops[0]);
      assert forall k :: 0 <= k < |ops[1..]| ==> Admissible(ops[1..][k]) by {
        forall k | 0 <= k < |ops[1..]| ensures Admissible(ops[1..][k]) {
          assert ops[1..][k] == ops[k + 1];
        }
      }
      RunKeepsValid(Step(l, ops[0]), ops[1..]);
    }
  }

  /** Starting from a ledger with no PENDING transfer, a run of admissible
      operations keeps the invariant and never produces a PENDING transfer. */
  lemma {:induction false} RunNeverCreatesPending(l: Ledger, ops: seq<Operation>)
    requires Valid(l) && NoPending(l)
    requires forall k :: 0 <= k < |ops| ==> Admissible(ops[k])
    ensures Valid(Run(l, ops)) && NoPending(Run(l, ops))
    decreases |ops|
  {
    if ops != [] {
      StepKeepsValid(l, ops[0]);
      StepKeepsAudit(l, ops[0]);
      assert forall k :: 0 <= k < |ops[1..]| ==> Admissible(ops[1..][k]) by {
        forall k | 0 <= k < |ops[1..]| ensures Admissible(ops[1..][k]) {
          assert ops[1..][k] == ops[k + 1];
        }
      }
      RunNeverCreatesPending(Step(l, ops[0]), ops[1..]);
    }
  }

  /** So, from such a ledger, cancellation can never succeed: the PENDING
      state is never entered by the service's own operations. */
  lemma CancelAlwaysFailsAfterRun(l: Ledger, ops: seq<Operation>, id: TransferId)
    requires Valid(l) && NoPending(l)
    requires forall k :: 0 <= k < |ops| ==> Admissible(ops[k])
    ensures CancelTransfer(Run(l, ops), id).1.Failure?
    ensures CancelTransfer(Run(l, ops), id).0 == Run(l, ops)
  {
    RunNeverCreatesPending(l, ops);
  }

  /** Over any run, COMPLETED records survive unchanged. */
  lemma {:induction false} RunKeepsCompleted(l: Ledger, ops: seq<Operation>, t: TransferRow)
    requires Valid(l) && t in l.transfers && t.status == COMPLETED
    requires forall k :: 0 <= k < |ops| ==> Admissible(ops[k])
    ensures t in Run(l, ops).transfers
    decreases |ops|
  {
    if ops != [] {
      StepKeepsValid(l, ops[0]);
      StepKeepsAudit(l, ops[0]);
      assert forall k :: 0 <= k < |ops[1..]| ==> Admissible(ops[1..][k]) by {
        forall k | 0 <= k < |ops[1..]| ensures Admissible(ops[1..][k]) {
          assert ops[1..][k] == ops[k + 1];
        }
      }
      RunKeepsCompleted(Step(l, ops[0]), ops[1..], t);
    }
  }
}
