/** `TransferServiceImpl`: the orchestrator, working on the in-memory tables
    that stand for its two repositories. Each operation is proved to have the
    effect its engine function describes. */
module Service {
  import opened Common
  import opened JavaStrings
  import opened AccountModel
  import opened TransferModel
  import opened Store
  import TransferEngine
  import opened TransferProperties

  class TransferService {
    /** The accounts repository's table. */
    var accounts: seq<AccountRow>
    /** The transfers repository's table. */
    var transfers: seq<TransferRow>
    /** The id the transfers table assigns to the next new record. */
    var nextTransferId: TransferId

    /** The two tables as a value. */
    function State(): TransferEngine.Ledger
      reads this
    {
      TransferEngine.Ledger(accounts, transfers, nextTransferId)
    }

    ghost predicate Valid()
      reads this
    {
      TransferEngine.Valid(State())
    }

    /** A service over tables already holding `initial`; accounts are created
        outside the service. */
    constructor (initial: TransferEngine.Ledger)
      requires TransferEngine.Valid(initial)
      ensures State() == initial && Valid()
    {
      accounts := initial.accounts;
      transfers := initial.transfers;
      nextTransferId := initial.nextTransferId;
    }

    /** `save` of a new transfer: the table assigns it the next id. */
    method InsertTransfer(t: TransferRow) returns (saved: TransferRow)
      modifies this
      ensures saved == t.(id := old(nextTransferId))
      ensures transfers == old(transfers) + [saved] && nextTransferId == old(nextTransferId) + 1
      ensures accounts == old(accounts)
    {
      saved := t.(id := nextTransferId);
      transfers := transfers + [saved];
      nextTransferId := nextTransferId + 1;
    }

    /** `performTransfer`. */
    method PerformTransfer(request: TransferEngine.TransferRequest, now: Time) returns (response: TransferEngine.TransferResponse)
      requires Valid() && request.amount > 0
      modifies this
      ensures Valid()
      ensures (State(), response) == TransferEngine.PerformTransfer(old(State()), request, now)
    {
      PerformTransferKeepsValid(State(), request, now);
      var failure: TransferEngine.Failure;
      var sourceRow := FindByAccountNumber(accounts, request.sourceAccountNumber);
      if sourceRow.None? {
        failure := TransferEngine.SourceAccountNotFound(request.sourceAccountNumber);
      } else {
        var destinationRow := FindByAccountNumber(accounts, request.destinationAccountNumber);
        if destinationRow.None? {
          failure := TransferEngine.DestinationAccountNotFound(request.destinationAccountNumber);
        } else {
          var sourceAccount := new Account(sourceRow.value);
          var destinationAccount := new Account(destinationRow.value);
          if sourceAccount.balance < request.amount {
            failure := TransferEngine.InsufficientFunds(sourceAccount.balance);
          } else if sourceAccount.id == destinationAccount.id {
            failure := TransferEngine.SameAccount;
          } else {
            response := CompleteTransfer(request, sourceAccount, destinationAccount, now);
            return;
          }
        }
      }
      assert TransferEngine.CheckTransfer(accounts, request) == Failure(failure);
      var failedTransfer := CreateFailedTransfer(request, TransferEngine.Message(failure), now);
      response := TransferEngine.TransferResponse(
        failedTransfer.id, request.sourceAccountNumber, request.destinationAccountNumber, request.amount,
        request.description, FAILED, failedTransfer.createdAt, "Error: " + TransferEngine.Message(failure));
    }

    /** Debit, credit, save both accounts and store the COMPLETED record. */
    method CompleteTransfer(request: TransferEngine.TransferRequest, sourceAccount: Account,
                            destinationAccount: Account, now: Time)
      returns (response: TransferEngine.TransferResponse)
      requires sourceAccount != destinationAccount
      requires sourceAccount.balance >= request.amount
      modifies this, sourceAccount, destinationAccount
      ensures (State(), response) == TransferEngine.CompletedTransfer(
                old(State()), request, old(sourceAccount.Row()), old(destinationAccount.Row()), now)
    {
      var withdrawn := sourceAccount.Withdraw(request.amount, now);
      assert withdrawn.Withdrawn?;
      destinationAccount.Deposit(request.amount, now);
      accounts := Replace(accounts, AccountKey, sourceAccount.Row());
      accounts := Replace(accounts, AccountKey, destinationAccount.Row());
      var savedTransfer := InsertTransfer(
        TransferRow(0, Some(sourceAccount.id), Some(destinationAccount.id), request.amount,
                    request.description, COMPLETED, now));
      response := TransferEngine.TransferResponse(
        savedTransfer.id, sourceAccount.accountNumber, destinationAccount.accountNumber,
        savedTransfer.amount, savedTransfer.description, savedTransfer.status,
        savedTransfer.createdAt, TransferEngine.SuccessMessage);
    }

    /** `createFailedTransfer`: stores the audit record of a rejected attempt. */
    method CreateFailedTransfer(request: TransferEngine.TransferRequest, errorMessage: string, now: Time)
      returns (failedTransfer: TransferRow)
      modifies this
      ensures failedTransfer == TransferEngine.FailedTransfer(old(accounts), request, errorMessage, old(nextTransferId), now)
      ensures transfers == old(transfers) + [failedTransfer] && nextTransferId == old(nextTransferId) + 1
      ensures accounts == old(accounts)
    {
      var source := FindByAccountNumber(accounts, request.sourceAccountNumber);
      var destination := FindByAccountNumber(accounts, request.destinationAccountNumber);
      var record: TransferRow;
      if source.Some? && destination.Some? {
        record := TransferRow(0, Some(source.value.id), Some(destination.value.id), request.amount,
                              Some(JavaString(request.description) + TransferEngine.FailedInfix + errorMessage),
                              FAILED, now);
      } else {
        record := TransferRow(0, None, None, request.amount, Some(TransferEngine.FailedPrefix + errorMessage), FAILED, now);
      }
      failedTransfer := InsertTransfer(record);
    }

    /** `getAllTransfers`. */
    function GetAllTransfers(): seq<TransferRow>
      reads this
    {
      transfers
    }

    /** `getTransferById`: the stored transfer with that id, or nothing. */
    function GetTransferById(id: TransferId): (r: Option<TransferRow>)
      reads this
      ensures r.Some? ==> r.value in transfers && r.value.id == id
      ensures r.None? <==> forall t :: t in transfers ==> t.id != id
    {
      FindById(transfers, TransferKey, id)
    }

    /** `getTransferHistory`: stored transfers that name the account on
        either side; nothing for an unknown account. */
    function GetTransferHistory(accountNumber: string): (r: seq<TransferRow>)
      reads this
      ensures forall t :: t in r ==>
                (t in transfers &&
                 exists a :: a in accounts && a.accountNumber == accountNumber &&
                   (t.sourceAccountId == Some(a.id) || t.destinationAccountId == Some(a.id)))
      ensures (forall a :: a in accounts ==> a.accountNumber != accountNumber) ==> r == []
    {
      TransferEngine.TransferHistory(State(), accountNumber)
    }

    /** `getAllAccounts`. */
    function GetAllAccounts(): seq<AccountRow>
      reads this
    {
      accounts
    }

    /** `getAccountByNumber`: the stored account with that number, or nothing. */
    function GetAccountByNumber(accountNumber: string): (r: Option<AccountRow>)
      reads this
      ensures r.Some? ==> r.value in accounts && r.value.accountNumber == accountNumber
      ensures r.None? <==> forall a :: a in accounts ==> a.accountNumber != accountNumber
    {
      FindByAccountNumber(accounts, accountNumber)
    }

    /** `updateAccount`. */
    method UpdateAccount(accountNumber: string, request: TransferEngine.AccountUpdateRequest, now: Time)
      returns (result: Result<AccountRow, TransferEngine.Failure>)
      requires Valid() && (request.balance.Some? ==> request.balance.value >= 0)
      modifies this
      ensures Valid()
      ensures (State(), result) == TransferEngine.UpdateAccount(old(State()), accountNumber, request, now)
    {
      UpdateAccountKeepsValid(State(), accountNumber, request, now);
      var found := FindByAccountNumber(accounts, accountNumber);
      if found.None? {
        return Failure(TransferEngine.AccountNotFound(accountNumber));
      }
      var account := new Account(found.value);
      var updated := false;
      if request.ownerName.Some? && Trim(request.ownerName.value) != "" {
        account.ownerName := request.ownerName.value;
        updated := true;
      }
      if request.balance.Some? {
        account.balance := request.balance.value;
        updated := true;
      }
      if updated {
        account.updatedAt := now;
        accounts := Replace(accounts, AccountKey, account.Row());
      }
      result := Success(account.Row());
    }

    /** `cancelTransfer`. */
    method CancelTransfer(transferId: TransferId) returns (result: Result<TransferRow, TransferEngine.Failure>)
      requires Valid()
      modifies this
      ensures Valid()
      ensures (State(), result) == TransferEngine.CancelTransfer(old(State()), transferId)
    {
      CancelTransferKeepsValid(State(), transferId);
      var found := FindById(transfers, TransferKey, transferId);
      if found.None? {
        return Failure(TransferEngine.TransferNotFound(transferId));
      }
      var transfer := found.value;
      if transfer.status != PENDING {
        return Failure(TransferEngine.NotPending(transfer.status));
      }
      transfer := transfer.(status := FAILED);
      transfer := transfer.(description := Some(JavaString(transfer.description) + TransferEngine.CancelSuffix));
      transfers := Replace(transfers, TransferKey, transfer);
      result := Success(transfer);
    }

    /** `deleteAccount`. */
    method DeleteAccount(accountNumber: string) returns (result: Result<(), TransferEngine.Failure>)
      requires Valid()
      modifies this
      ensures Valid()
      ensures (State(), result) == TransferEngine.DeleteAccount(old(State()), accountNumber)
    {
      DeleteAccountKeepsValid(State(), accountNumber);
      var found := FindByAccountNumber(accounts, accountNumber);
      if found.None? {
        return Failure(TransferEngine.AccountNotFound(accountNumber));
      }
      var account := found.value;
      if account.balance != 0 {
        return Failure(TransferEngine.NonZeroBalance(account.balance));
      }
      var hasPending := TransferEngine.HasPendingOutgoing(transfers, account.id);
      if hasPending {
        return Failure(TransferEngine.HasPendingTransfers);
      }
      accounts := Remove(accounts, AccountKey, account.id);
      result := Success(());
    }

    /** `deleteTransfer`. */
    method DeleteTransfer(transferId: TransferId) returns (result: Result<(), TransferEngine.Failure>)
      requires Valid()
      modifies this
      ensures Valid()
      ensures (State(), result) == TransferEngine.DeleteTransfer(old(State()), transferId)
    {
      DeleteTransferKeepsValid(State(), transferId);
      var found := FindById(transfers, TransferKey, transferId);
      if found.None? {
        return Failure(TransferEngine.TransferNotFound(transferId));
      }
      var transfer := found.value;
      if transfer.status != FAILED {
        return Failure(TransferEngine.NotFailed(transfer.status));
      }
      transfers := Remove(transfers, TransferKey, transfer.id);
      result := Success(());
    }
  }
}
