/** The transfer orchestration engine as functions on the state of the two
    tables: every operation maps a ledger to its new ledger and the value the
    caller receives. */
module TransferEngine {
  import opened Common
  import opened JavaStrings
  import opened AccountModel
  import opened TransferModel
  import opened Store

  // ---------------------------------------------------------------------
  // State, requests and responses

  /** The two tables and the id the transfers table hands out next. */
  datatype Ledger = Ledger(accounts: seq<AccountRow>, transfers: seq<TransferRow>, nextTransferId: TransferId)

  /** A transfer order: two account numbers, an amount, an optional description. */
  datatype TransferRequest = TransferRequest(
    sourceAccountNumber: string,
    destinationAccountNumber: string,
    amount: Money,
    description: Option<string>)

  /** The structured answer to a transfer order, on success and on failure alike. */
  datatype TransferResponse = TransferResponse(
    id: TransferId,
    sourceAccountNumber: string,
    destinationAccountNumber: string,
    amount: Money,
    description: Option<string>,
    status: Status,
    createdAt: Time,
    message: string)

  /** A partial patch of an account: absent fields are left alone. */
  datatype AccountUpdateRequest = AccountUpdateRequest(ownerName: Option<string>, balance: Option<Money>)

  /** The errors the engine raises. */
  datatype Failure =
    | SourceAccountNotFound(number: string)
    | DestinationAccountNotFound(number: string)
    | InsufficientFunds(available: Money)
    | SameAccount
    | AccountNotFound(number: string)
    | TransferNotFound(id: TransferId)
    | NotPending(status: Status)
    | NonZeroBalance(balance: Money)
    | HasPendingTransfers
    | NotFailed(status: Status)

  /** The text of an error, as carried into audit descriptions and responses. */
  function Message(f: Failure): string
  {
    match f
    case SourceAccountNotFound(n) => "Cuenta origen no encontrada: " + n
    case DestinationAccountNotFound(n) => "Cuenta destino no encontrada: " + n
    case InsufficientFunds(_) => "Saldo insuficiente"
    case SameAccount => "No se puede transferir a la misma cuenta"
    case AccountNotFound(n) => "Cuenta no encontrada: " + n
    case TransferNotFound(_) => "Transferencia no encontrada"
    case NotPending(_) => "Solo se pueden cancelar transferencias en estado PENDING"
    case NonZeroBalance(_) => "No se puede eliminar una cuenta con saldo"
    case HasPendingTransfers => "No se puede eliminar una cuenta con transferencias pendientes"
    case NotFailed(_) => "Solo se pueden eliminar transferencias fallidas"
  }

  const SuccessMessage := "Transferencia realizada exitosamente"
  const FailedInfix := " - FAILED: "
  const FailedPrefix := "FAILED: "
  const CancelSuffix := " - CANCELADA POR USUARIO"

  // ---------------------------------------------------------------------
  // The ledger invariant

  ghost predicate AccountsValid(rows: seq<AccountRow>)
  {
    && UniqueKeys(rows, AccountKey)
    && UniqueAccountNumbers(rows)
    && forall a :: a in rows ==> a.balance >= 0
  }

  /** A stored transfer: an id already handed out, a positive amount, and, once
      completed, two distinct account references. */
  ghost predicate WellFormedTransfer(t: TransferRow, next: TransferId)
  {
    && t.id < next
    && t.amount > 0
    && (t.status == COMPLETED ==>
          t.sourceAccountId.Some? && t.destinationAccountId.Some? && t.sourceAccountId != t.destinationAccountId)
  }

  ghost predicate TransfersValid(ts: seq<TransferRow>, next: TransferId)
  {
    AscendingIds(ts) && forall t :: t in ts ==> WellFormedTransfer(t, next)
  }

  ghost predicate Valid(l: Ledger)
  {
    AccountsValid(l.accounts) && TransfersValid(l.transfers, l.nextTransferId)
  }

  // ---------------------------------------------------------------------
  // performTransfer

  /** Lookups and validations, in the order the source applies them: source,
      destination, sufficient funds, then distinct accounts. */
  function CheckTransfer(accounts: seq<AccountRow>, req: TransferRequest): Result<(AccountRow, AccountRow), Failure>
  {
    match FindByAccountNumber(accounts, req.sourceAccountNumber)
    case None => Failure(SourceAccountNotFound(req.sourceAccountNumber))
    case Some(s) =>
      match FindByAccountNumber(accounts, req.destinationAccountNumber)
      case None => Failure(DestinationAccountNotFound(req.destinationAccountNumber))
      case Some(d) =>
        if s.balance < req.amount then Failure(InsufficientFunds(s.balance))
        else if s.id == d.id then Failure(SameAccount)
        else Success((s, d))
  }

  /** `createFailedTransfer`: the audit record of a rejected attempt. It looks
      both accounts up again and references them only when both resolve. */
  function FailedTransfer(accounts: seq<AccountRow>, req: TransferRequest, errorMessage: string, id: TransferId, now: Time): TransferRow
  {
    match (FindByAccountNumber(accounts, req.sourceAccountNumber), FindByAccountNumber(accounts, req.destinationAccountNumber))
    case (Some(s), Some(d)) =>
      TransferRow(id, Some(s.id), Some(d.id), req.amount,
                  Some(JavaString(req.description) + FailedInfix + errorMessage), FAILED, now)
    case _ =>
      TransferRow(id, None, None, req.amount, Some(FailedPrefix + errorMessage), FAILED, now)
  }

  /** Steps 4 to 6 once the checks pass: debit, credit, save both accounts,
      store a COMPLETED record and answer with it. */
  function CompletedTransfer(l: Ledger, req: TransferRequest, s: AccountRow, d: AccountRow, now: Time): (Ledger, TransferResponse)
  {
    var accounts := Replace(Replace(l.accounts, AccountKey, s.Debited(req.amount, now)),
                            AccountKey, d.Credited(req.amount, now));
    var saved := TransferRow(l.nextTransferId, Some(s.id), Some(d.id), req.amount, req.description, COMPLETED, now);
    (Ledger(accounts, l.transfers + [saved], l.nextTransferId + 1),
     TransferResponse(saved.id, s.accountNumber, d.accountNumber, saved.amount, saved.description,
                      saved.status, saved.createdAt, SuccessMessage))
  }

  /** The error handler: store the audit record and answer FAILED with the
      error's text instead of propagating the error. */
  function RejectedTransfer(l: Ledger, req: TransferRequest, f: Failure, now: Time): (Ledger, TransferResponse)
  {
    var saved := FailedTransfer(l.accounts, req, Message(f), l.nextTransferId, now);
    (l.(transfers := l.transfers + [saved], nextTransferId := l.nextTransferId + 1),
     TransferResponse(saved.id, req.sourceAccountNumber, req.destinationAccountNumber, req.amount,
                      req.description, FAILED, saved.createdAt, "Error: " + Message(f)))
  }

  /** `performTransfer`: on success both balances move and a COMPLETED record is
      stored; on any failure a FAILED record is stored instead and the failure
      comes back inside the response. */
  function PerformTransfer(l: Ledger, req: TransferRequest, now: Time): (Ledger, TransferResponse)
  {
    match CheckTransfer(l.accounts, req)
    case Success((s, d)) => CompletedTransfer(l, req, s, d, now)
    case Failure(f) => RejectedTransfer(l, req, f, now)
  }

  // ---------------------------------------------------------------------
  // cancelTransfer, deleteTransfer

  /** A pending transfer after cancellation. */
  function Cancelled(t: TransferRow): TransferRow
  {
    t.(status := FAILED, description := Some(JavaString(t.description) + CancelSuffix))
  }

  /** `cancelTransfer`: only a PENDING transfer can be cancelled; it becomes FAILED. */
  function CancelTransfer(l: Ledger, id: TransferId): (Ledger, Result<TransferRow, Failure>)
  {
    match FindById(l.transfers, TransferKey, id)
    case None => (l, Failure(TransferNotFound(id)))
    case Some(t) =>
      if t.status != PENDING then (l, Failure(NotPending(t.status)))
      else (l.(transfers := Replace(l.transfers, TransferKey, Cancelled(t))), Success(Cancelled(t)))
  }

  /** `deleteTransfer`: only a FAILED transfer can be deleted. */
  function DeleteTransfer(l: Ledger, id: TransferId): (Ledger, Result<(), Failure>)
  {
    match FindById(l.transfers, TransferKey, id)
    case None => (l, Failure(TransferNotFound(id)))
    case Some(t) =>
      if t.status != FAILED then (l, Failure(NotFailed(t.status)))
      else (l.(transfers := Remove(l.transfers, TransferKey, t.id)), Success(()))
  }

  // ---------------------------------------------------------------------
  // deleteAccount, updateAccount

  /** Some transfer out of the account is still PENDING. */
  predicate HasPendingOutgoing(ts: seq<TransferRow>, id: AccountId)
  {
    exists t :: t in FindByAccount(ts, Source, id) && t.status == PENDING
  }

  /** `deleteAccount`: only an account with a zero balance and no PENDING
      outgoing transfer can be deleted. */
  function DeleteAccount(l: Ledger, number: string): (Ledger, Result<(), Failure>)
  {
    match FindByAccountNumber(l.accounts, number)
    case None => (l, Failure(AccountNotFound(number)))
    case Some(a) =>
      if a.balance != 0 then (l, Failure(NonZeroBalance(a.balance)))
      else if HasPendingOutgoing(l.transfers, a.id) then (l, Failure(HasPendingTransfers))
      else (l.(accounts := Remove(l.accounts, AccountKey, a.id)), Success(()))
  }

  /** The owner name is replaced only by a non-null name that is not blank once trimmed. */
  predicate RenamesOwner(patch: AccountUpdateRequest)
  {
    patch.ownerName.Some? && Trim(patch.ownerName.value) != ""
  }

  /** The patch changes at least one field. */
  predicate ChangesAccount(patch: AccountUpdateRequest)
  {
    RenamesOwner(patch) || patch.balance.Some?
  }

  /** `updateAccount`: applies the supplied fields; the store is written only
      when something changed. */
  function UpdateAccount(l: Ledger, number: string, patch: AccountUpdateRequest, now: Time): (Ledger, Result<AccountRow, Failure>)
  {
    match FindByAccountNumber(l.accounts, number)
    case None => (l, Failure(AccountNotFound(number)))
    case Some(a) =>
      var named := if RenamesOwner(patch) then a.(ownerName := patch.ownerName.value) else a;
      var patched := if patch.balance.Some? then named.(balance := patch.balance.value) else named;
      if ChangesAccount(patch) then
        var saved := patched.(updatedAt := now);
        (l.(accounts := Replace(l.accounts, AccountKey, saved)), Success(saved))
      else
        (l, Success(a))
  }

  // ---------------------------------------------------------------------
  // getTransferHistory

  /** `getTransferHistory`: the transfers out of the account, then those into it. */
  function TransferHistory(l: Ledger, number: string): seq<TransferRow>
  {
    match FindByAccountNumber(l.accounts, number)
    case None => []
    case Some(a) => FindByAccount(l.transfers, Source, a.id) + FindByAccount(l.transfers, Destination, a.id)
  }
}
