# Transfer engine of a reactive bank-transfer service

This project models the business core of a small banking back end: the
transfer orchestrator `TransferServiceImpl` and the balance mutators of the
`Account` entity. Two tables stand in for the two repositories:

- the accounts, keyed by id, with unique account numbers;
- the transfer records, with ascending ids handed out from a counter.

Each orchestrator operation is written twice:

- as a function on a `Ledger` value (module `TransferEngine`);
- as a method of the class `Service.TransferService`. The method mutates the
  tables and fresh `Account` objects as the Java code does, and it is proved
  to leave exactly the state and to return exactly the result of its engine
  function.

The lemmas in `TransferProperties` then prove what the service promises:

- a completed transfer moves the amount from one account to the other and
  conserves the total balance;
- every rejected transfer leaves the balances alone and appends one FAILED
  audit record of the documented shape;
- the guards checked by `cancelTransfer`, `deleteTransfer`, `deleteAccount`
  and `updateAccount`;
- the shape of the transfer history.

For any sequence of admissible operations (operations whose inputs pass
bean validation) started from a valid ledger, the model also proves:

- the table invariant (`TransferEngine.Valid`) is kept;
- COMPLETED records are never lost;
- if the ledger starts without PENDING records, none ever appears, because
  no operation creates one. As a consequence, `cancelTransfer` can never
  succeed on such a ledger.

Modules:

- `common.dfy`
  - `Common`: `Option` and `Result`.
  - `JavaStrings`: Java's `String.trim` and the `null` rendering of string
    concatenation.
- `account.dfy`: `AccountModel`, the account row and the `Account` class with
  `Withdraw` and `Deposit`.
- `transfer.dfy`: `TransferModel`, the transfer row and its status.
- `store.dfy`: `Store`, the in-memory tables:
  - lookup, replace and remove by id;
  - lookup by account number;
  - the source and destination queries;
  - total balance.
- `engine.dfy`: `TransferEngine`, the operations as functions on a `Ledger`.
- `properties.dfy`: `TransferProperties`, the properties and runs of operations.
- `service.dfy`: `Service`, the stateful service class.

Representation choices:

- Amounts are integers in cents: `BigDecimal` is an exact decimal.
- Timestamps are a `now` parameter supplied by the caller.
- A nullable Java string is an `Option<string>`. `JavaStrings.JavaString`
  renders `None` as `"null"`, which is what Java's `+` gives for a null
  description in `createFailedTransfer` and `cancelTransfer`.
- A failure is a `TransferEngine.Failure` value. `TransferEngine.Message`
  gives its text, so the text flows into descriptions and responses as in
  the code.

In two places the model follows the code where one might expect otherwise:

- One might expect a FAILED audit record to keep the id of whichever account
  did resolve. `createFailedTransfer` joins the two lookups with `zipWith`,
  though: if either lookup is empty, the record has no account ids at all and
  its description is `"FAILED: " + message`
  (`TransferProperties.UnresolvedAccountGivesBareRecord`).
- `performTransfer` does not surface a failed transfer as an error. It
  absorbs the error and returns a normal response with status FAILED and
  message `"Error: " + message`.

## Model

| member | source | states |
|---|---|---|
| AccountModel.Account.Withdraw | src/main/java/com/example/transfers/model/Account.java:53-61 | succeeds exactly when the old balance covers the amount; on success the balance drops by the amount and `updatedAt` becomes now; on refusal nothing changes and the outcome carries available and required amounts; id, number, owner and creation time never change |
| AccountModel.Account.Deposit | src/main/java/com/example/transfers/model/Account.java:68-71 | the balance grows by the amount and `updatedAt` becomes now; id, number, owner and creation time are untouched |
| AccountModel.WithdrawKeepsBalanceNonNegative | src/main/java/com/example/transfers/model/Account.java:54-59 | a withdrawal the guard lets through leaves a non-negative balance |
| AccountModel.WithdrawThenDepositRestoresBalance | src/main/java/com/example/transfers/model/Account.java:53-71 | depositing what was withdrawn gives back the original row except for the timestamp |
| JavaStrings.TrimIsEmptyIffBlank | src/main/java/com/example/transfers/service/impl/TransferServiceImpl.java:235 | `trim()` of a string is empty exactly when every character is at most `' '`, the blank-name test of `updateAccount` |
| Store.FindByAccountNumber | src/main/java/com/example/transfers/repository/AccountRepository.java:24 | returns a stored row with that number, or nothing exactly when no stored row has it |
| Store.FindByAccountNumberAt | src/main/java/com/example/transfers/repository/AccountRepository.java:24 | with unique numbers, looking up the number of row i returns row i |
| Store.FindByAccount | src/main/java/com/example/transfers/repository/TransferRepository.java:23-26 | a record is returned exactly when it is stored and names the account on the queried side |
| Store.FindByAccountKeepsOrder | src/main/java/com/example/transfers/repository/TransferRepository.java:23-26 | the query result keeps the table's ascending id order |
| Store.FindById | src/main/java/com/example/transfers/service/impl/TransferServiceImpl.java:189-191 | returns a stored row with that id, or nothing exactly when no stored row has it |
| Store.FindByIdAt | src/main/java/com/example/transfers/service/impl/TransferServiceImpl.java:263 | with unique ids, looking up the id of row i returns row i |
| Store.ReplaceAt | src/main/java/com/example/transfers/service/impl/TransferServiceImpl.java:96-97 | saving a row whose id is at position i replaces exactly position i |
| Store.RemoveAt | src/main/java/com/example/transfers/service/impl/TransferServiceImpl.java:316 | deleting the id at position i removes exactly that row and keeps the order of the rest |
| Store.RemoveAbsent | src/main/java/com/example/transfers/service/impl/TransferServiceImpl.java:341 | deleting an id that is not stored changes nothing |
| Store.TotalBalanceUpdate | src/main/java/com/example/transfers/service/impl/TransferServiceImpl.java:95-98 | saving one account changes the total balance by exactly that account's difference |
| TransferProperties.CheckTransferAt | src/main/java/com/example/transfers/service/impl/TransferServiceImpl.java:60-89 | with both accounts resolved, the funds check is applied before the same-account check, and the transfer goes ahead only if both pass |
| TransferProperties.TransferMovesFunds | src/main/java/com/example/transfers/service/impl/TransferServiceImpl.java:90-125 | a covered transfer between distinct accounts debits the source, credits the destination and changes no other account; the sum of the two balances is conserved; exactly one COMPLETED record with both ids, the amount, the description and the next id is appended; the response carries it with the success message |
| TransferProperties.TransferConservesFunds | src/main/java/com/example/transfers/service/impl/TransferServiceImpl.java:79-98 | every outcome of `performTransfer` leaves the total of all balances unchanged |
| TransferProperties.TransferCompletesIff | src/main/java/com/example/transfers/service/impl/TransferServiceImpl.java:60-125 | the response is COMPLETED exactly when both numbers resolve to distinct accounts and the source balance covers the amount |
| TransferProperties.InsufficientFundsRejected | src/main/java/com/example/transfers/service/impl/TransferServiceImpl.java:79-83 | a source balance below the amount, including on a same-account request, leaves every balance unchanged; one FAILED record with both ids and description `desc + " - FAILED: " + message` is appended; the response is FAILED and carries the error |
| TransferProperties.SameAccountRejected | src/main/java/com/example/transfers/service/impl/TransferServiceImpl.java:84-89 | a covered same-account request changes no balance and appends one FAILED record naming that account on both sides |
| TransferProperties.UnresolvedAccountGivesBareRecord | src/main/java/com/example/transfers/service/impl/TransferServiceImpl.java:156-180 | if either number is unknown, no balance changes; the appended FAILED record has no account ids and description `"FAILED: " + message`; the error is the first lookup that failed |
| TransferProperties.PerformTransferKeepsValid | src/main/java/com/example/transfers/service/impl/TransferServiceImpl.java:55-150 | `performTransfer` keeps ids and numbers unique, balances non-negative and the transfer ids ascending |
| TransferProperties.CancelUnknownTransfer | src/main/java/com/example/transfers/service/impl/TransferServiceImpl.java:263-266 | a missing id fails with not-found and changes nothing |
| TransferProperties.CancelTransferAt | src/main/java/com/example/transfers/service/impl/TransferServiceImpl.java:267-279 | a non-PENDING transfer fails with its status and changes nothing; a PENDING one becomes FAILED with `" - CANCELADA POR USUARIO"` appended, and no other record changes |
| TransferProperties.CancelTransferKeepsValid | src/main/java/com/example/transfers/service/impl/TransferServiceImpl.java:260-284 | cancelling keeps the table invariant |
| TransferProperties.DeleteUnknownTransfer | src/main/java/com/example/transfers/service/impl/TransferServiceImpl.java:328-331 | a missing id fails with not-found and changes nothing |
| TransferProperties.DeleteTransferAt | src/main/java/com/example/transfers/service/impl/TransferServiceImpl.java:332-341 | a non-FAILED transfer fails with its status and nothing changes; a FAILED one is removed and nothing else changes |
| TransferProperties.DeleteTransferKeepsValid | src/main/java/com/example/transfers/service/impl/TransferServiceImpl.java:325-346 | deleting a transfer keeps the table invariant |
| TransferProperties.DeleteUnknownAccount | src/main/java/com/example/transfers/service/impl/TransferServiceImpl.java:292-295 | an unknown number fails with not-found and changes nothing |
| TransferProperties.DeleteAccountAt | src/main/java/com/example/transfers/service/impl/TransferServiceImpl.java:296-317 | a non-zero balance fails and changes nothing; otherwise a PENDING outgoing transfer fails and changes nothing; otherwise exactly that account is removed |
| TransferProperties.DeleteAccountKeepsValid | src/main/java/com/example/transfers/service/impl/TransferServiceImpl.java:289-322 | deleting an account keeps the table invariant |
| TransferProperties.UpdateUnknownAccount | src/main/java/com/example/transfers/service/impl/TransferServiceImpl.java:225-229 | an unknown number fails with not-found and changes nothing |
| TransferProperties.UpdateAccountAt | src/main/java/com/example/transfers/service/impl/TransferServiceImpl.java:231-252 | the owner name changes only to a supplied non-blank name; the balance changes only when one is supplied; id, number and creation time never change; with any change the row is saved with `updatedAt` now; with none the store and the row are returned untouched |
| TransferProperties.UpdateAccountKeepsValid | src/main/java/com/example/transfers/service/impl/TransferServiceImpl.java:222-257 | an update with a non-negative balance patch keeps the table invariant |
| TransferProperties.HistoryOfUnknownAccount | src/main/java/com/example/transfers/service/impl/TransferServiceImpl.java:199 | an unknown account has an empty history |
| TransferProperties.HistoryAt | src/main/java/com/example/transfers/service/impl/TransferServiceImpl.java:198-206 | the history is the outgoing records followed by the incoming ones; each part holds exactly the stored records on that side, in ascending id order |
| TransferProperties.SelfReferenceListedTwice | src/main/java/com/example/transfers/service/impl/TransferServiceImpl.java:201-204 | a record naming the account on both sides appears in both parts of the history |
| TransferProperties.StepKeepsValid | src/main/java/com/example/transfers/service/impl/TransferServiceImpl.java:55-346 | every operation whose input passes bean validation keeps the table invariant |
| TransferProperties.CancelTransferKeepsAudit | src/main/java/com/example/transfers/service/impl/TransferServiceImpl.java:269-279 | cancelling keeps every COMPLETED record and creates no PENDING one |
| TransferProperties.DeleteTransferKeepsAudit | src/main/java/com/example/transfers/service/impl/TransferServiceImpl.java:334-341 | deleting a transfer keeps every COMPLETED record and creates no PENDING one |
| TransferProperties.StepKeepsAudit | src/main/java/com/example/transfers/service/impl/TransferServiceImpl.java:55-346 | no operation loses a COMPLETED record or creates a PENDING one |
| TransferProperties.RunNeverCreatesPending | src/main/java/com/example/transfers/service/impl/TransferServiceImpl.java:102-180 | starting without PENDING records, any run of operations keeps the invariant and leaves no PENDING record, because transfers are only ever written COMPLETED or FAILED |
| TransferProperties.RunKeepsValid | src/main/java/com/example/transfers/service/impl/TransferServiceImpl.java:55-346 | from a valid ledger, any run of admissible operations keeps ids and numbers unique, balances non-negative and transfer ids ascending |
| TransferProperties.CancelAlwaysFailsAfterRun | src/main/java/com/example/transfers/service/impl/TransferServiceImpl.java:263-273 | after such a run, every cancel fails and changes nothing |
| TransferProperties.RunKeepsCompleted | src/main/java/com/example/transfers/service/impl/TransferServiceImpl.java:325-341 | a COMPLETED record survives every run of operations |
| Service.TransferService.InsertTransfer | src/main/java/com/example/transfers/service/impl/TransferServiceImpl.java:111 | saving a new record appends it with the next id and advances the counter; accounts are untouched |
| Service.TransferService.PerformTransfer | src/main/java/com/example/transfers/service/impl/TransferServiceImpl.java:55-150 | keeps the invariant; new tables and response are those of `TransferEngine.PerformTransfer`, whose properties are the lemmas above |
| Service.TransferService.CompleteTransfer | src/main/java/com/example/transfers/service/impl/TransferServiceImpl.java:90-125 | withdraw, deposit, both saves and the COMPLETED record leave the state of `TransferEngine.CompletedTransfer` |
| Service.TransferService.CreateFailedTransfer | src/main/java/com/example/transfers/service/impl/TransferServiceImpl.java:156-181 | appends the audit record of `TransferEngine.FailedTransfer` with the next id; accounts are untouched |
| Service.TransferService.GetTransferById | src/main/java/com/example/transfers/service/impl/TransferServiceImpl.java:188-191 | returns a stored transfer with that id, or nothing exactly when none is stored |
| Service.TransferService.GetTransferHistory | src/main/java/com/example/transfers/service/impl/TransferServiceImpl.java:197-206 | every listed record is stored and names an account with that number; an unknown number gives an empty history |
| Service.TransferService.GetAccountByNumber | src/main/java/com/example/transfers/service/impl/TransferServiceImpl.java:213-216 | returns a stored account with that number, or nothing exactly when none is stored |
| Service.TransferService.UpdateAccount | src/main/java/com/example/transfers/service/impl/TransferServiceImpl.java:222-257 | mutates the fetched account under the `updated` flag; keeps the invariant and leaves the state and result of `TransferEngine.UpdateAccount` |
| Service.TransferService.CancelTransfer | src/main/java/com/example/transfers/service/impl/TransferServiceImpl.java:260-284 | keeps the invariant and leaves the state and result of `TransferEngine.CancelTransfer` |
| Service.TransferService.DeleteAccount | src/main/java/com/example/transfers/service/impl/TransferServiceImpl.java:289-322 | keeps the invariant and leaves the state and result of `TransferEngine.DeleteAccount` |
| Service.TransferService.DeleteTransfer | src/main/java/com/example/transfers/service/impl/TransferServiceImpl.java:325-346 | keeps the invariant and leaves the state and result of `TransferEngine.DeleteTransfer` |

## Left out

- HTTP controller, Spring bootstrap and database configuration: boundary plumbing, outside the engine.
- Reactor scheduling, the parallel `Mono.when` saves and races between concurrent transfers: every operation is modelled as one sequential step.
- Logging: it has no effect on state.
- `LocalDateTime.now()`: the time is a `now` parameter, so all timestamps written by one operation are equal.
- Storage failures: every save and delete succeeds. In particular, the model does not capture the inconsistent ledger left when only one of the two account saves fails, and it does not capture the audit write being lost.
- Database constraints: the model knows no foreign key and no check constraint. It stores the FAILED record of a same-account request, which names one account on both sides, and it deletes an account even while transfer records still reference it.
- TransferEngine.Message: failure texts are the fixed Spanish phrases. These figures are not rendered into the string:
  - the available balance in the insufficient-funds text;
  - the current balance after "Balance actual:" in the non-zero-balance text;
  - the id after "con ID:" in the transfer-not-found text;
  - the status in the not-pending and not-failed texts.
- Store.FindByAccount: query results come back in table order, which is insertion order here. The derived queries `findBySourceAccountId` and `findByDestinationAccountId` have no ORDER BY, so the ascending-id order that TransferProperties.HistoryAt states within each group of the history is an assumption about the store, not something the program enforces.
- Bean validation: it is stated as preconditions. A transfer amount must be positive, which weakens the exclusive `0.01` bound of `@DecimalMin` to `> 0`. A balance patch must be non-negative. The blank-number checks are not modelled.
- Service.TransferService.GetAllTransfers and Service.TransferService.GetAllAccounts: they return the tables unchanged and carry no contract.
- `existsByAccountNumber` and `findByStatus`: repository queries the core never calls.
- The constructor of `Service.TransferService` starts from an existing valid ledger. Account creation is not among the core's operations.
