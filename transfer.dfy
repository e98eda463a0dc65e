/** The `Transfer` entity: one row of the transfers table. */
module TransferModel {
  import opened Common
  import opened AccountModel

  /** The identifier the transfers table assigns to a row. */
  type TransferId = nat

  /** The three status values a transfer can carry. */
  datatype Status = PENDING | COMPLETED | FAILED

  /** The persisted state of one transfer. The account references are absent
      on the audit record of an attempt whose accounts could not be resolved;
      the description is absent when the request carried none. */
  datatype TransferRow = TransferRow(
    id: TransferId,
    sourceAccountId: Option<AccountId>,
    destinationAccountId: Option<AccountId>,
    amount: Money,
    description: Option<string>,
    status: Status,
    createdAt: Time)
}
