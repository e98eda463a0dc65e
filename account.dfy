/** The `Account` entity: one row of the accounts table and the mutable object
    that a lookup materialises from it, with the two balance mutators. */
module AccountModel {

  /** An exact decimal amount counted in minor units (cents). */
  type Money = int

  /** A clock reading. The source asks the system clock; here the caller passes it. */
  type Time = nat

  /** The identifier the accounts table assigns to a row. */
  type AccountId = nat

  /** The persisted state of one account. */
  datatype AccountRow = AccountRow(
    id: AccountId,
    accountNumber: string,
    ownerName: string,
    balance: Money,
    createdAt: Time,
    updatedAt: Time)
  {
    /** The row after `amount` has been taken out at time `now`. */
    function Debited(amount: Money, now: Time): AccountRow
    {
      this.(balance := balance - amount, updatedAt := now)
    }

    /** The row after `amount` has been paid in at time `now`. */
    function Credited(amount: Money, now: Time): AccountRow
    {
      this.(balance := balance + amount, updatedAt := now)
    }
  }

  /** What `withdraw` reports: success, or the overdraft it refused. */
  datatype WithdrawOutcome = Withdrawn | InsufficientBalance(available: Money, required: Money)

  /** An account entity. Every repository lookup yields a fresh one, so two
      lookups of the same row give two distinct objects. */
  class Account {
    var id: AccountId
    var accountNumber: string
    var ownerName: string
    var balance: Money
    var createdAt: Time
    var updatedAt: Time

    /** Loads the entity from a stored row. */
    constructor (row: AccountRow)
      ensures Row() == row
    {
      id := row.id;
      accountNumber := row.accountNumber;
      ownerName := row.ownerName;
      balance := row.balance;
      createdAt := row.createdAt;
      updatedAt := row.updatedAt;
    }

    /** The row that saving this entity writes. */
    function Row(): AccountRow
      reads this
    {
      AccountRow(id, accountNumber, ownerName, balance, createdAt, updatedAt)
    }

    /** Takes `amount` out of the balance; refuses, changing nothing, when the
        balance does not cover it. */
    method Withdraw(amount: Money, now: Time) returns (outcome: WithdrawOutcome)
      modifies this
      ensures outcome.Withdrawn? <==> old(balance) >= amount
      ensures outcome.InsufficientBalance? ==> outcome == InsufficientBalance(old(balance), amount)
      ensures outcome.Withdrawn? ==> balance == old(balance) - amount && updatedAt == now
      ensures outcome.InsufficientBalance? ==> balance == old(balance) && updatedAt == old(updatedAt)
      ensures Row() == if outcome.Withdrawn? then old(Row()).Debited(amount, now) else old(Row())
      ensures id == old(id) && accountNumber == old(accountNumber)
      ensures ownerName == old(ownerName) && createdAt == old(createdAt)
    {
      if balance < amount {
        return InsufficientBalance(balance, amount);
      }
      balance := balance - amount;
      updatedAt := now;
      outcome := Withdrawn;
    }

    /** Pays `amount` into the balance. */
    method Deposit(amount: Money, now: Time)
      modifies this
      ensures balance == old(balance) + amount && updatedAt == now
      ensures Row() == old(Row()).Credited(amount, now)
      ensures id == old(id) && accountNumber == old(accountNumber)
      ensures ownerName == old(ownerName) && createdAt == old(createdAt)
    {
      balance := balance + amount;
      updatedAt := now;
    }
  }

  /** A withdrawal the balance covers leaves a non-negative balance non-negative. */
  lemma WithdrawKeepsBalanceNonNegative(row: AccountRow, amount: Money, now: Time)
    requires row.balance >= 0 && row.balance >= amount
    ensures row.Debited(amount, now).balance >= 0
  {
  }

  /** Depositing what was withdrawn restores the balance; only the timestamp differs. */
  lemma WithdrawThenDepositRestoresBalance(row: AccountRow, amount: Money, t1: Time, t2: Time)
    ensures row.Debited(amount, t1).Credited(amount, t2) == row.(updatedAt := t2)
  {
  }
}
