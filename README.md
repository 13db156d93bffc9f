# ATM account ledger, modelled in Dafny

This project models the server-side ledger of a small ATM system. The ledger has three parts:

- **Models** (`Models.dfy`): the record shapes.
  - An account is an account number and a balance. The balance must not be negative.
  - A withdraw request and a deposit request each carry an amount. The amount must be strictly positive.
  - A transaction response carries the account number, the resulting balance and a message.
- **Database** (`Database.dfy`): an in-memory store, the `Store` class.
  - Its one field is a `map<string, Account>` from account number to account.
  - It is seeded with account `"12345"` (1000.00) and account `"67890"` (5000.00).
  - It offers a lookup that may find nothing, an insert-or-replace, and a listing of all accounts.
- **AccountService** (`AccountService.dfy`): the business rules on top of the store.
  - A lookup fails with "Account not found" for an unknown account.
  - A withdrawal checks, in this order, that the account exists, that the amount is positive and that the balance covers it. Only then does it lower the balance and write the account back.
  - A deposit checks that the account exists and that the amount is positive. Then it raises the balance and writes the account back.

`LedgerProperties.dfy` runs whole sequences of requests against one store. It proves that the ledger invariant survives every such sequence, and it replays the deposit and withdrawal of the client's demo (`client/demo_client.py:21-35`). A separate member continues that run with a withdrawal the demo does not make, which is refused.

Modelling choices:

- Money is an `int` in minor units (cents), so `1000_00` is 1000.00.
- The service's HTTP exceptions become the `Err` case of a `Result`. Each error kind keeps its status code (404 or 400) and its detail text, as `StatusCode` and `Detail`.
- The success message becomes a tag, `Withdrew(amount)` or `Deposited(amount)`.
- The Python service uses one process-wide store (`server/database.py:48`). Here the service methods take that store as a parameter `db`.
- The store invariant `Store.Valid()` has two parts. Every account is stored under its own account number, and no stored balance is negative. The constructor establishes it, and every service operation keeps it. `UpdateAccount` keeps it when the account written is valid.
- The balance constraint is declared on the account record, but the Python server checks it only when an account is built, not when the balance is later changed. So non-negativity after a withdrawal holds only because of the insufficient-funds guard (`server/services/account_service.py:48`). `AccountService.WithdrawStep` and `LedgerProperties.RunPreservesLedgerInvariant` prove it.
- Withdraw and deposit change the balance of the account object they got from the store. That object is the one the dictionary holds, and they then write it back under the same key. The model instead updates a copy and writes the copy back. `AccountService.WriteBackMatchesInPlaceMutation` proves that this gives the same store as the in-place change, and that the write-back after the in-place change is a no-op.

Account creation: the balance endpoint in `server/routes/accounts.py:10-15` says it creates a missing account and calls `AccountService.create_account`. The service does not define that method. The service itself fails with "Account not found" (`server/services/account_service.py:24-25`) for lookup, withdrawal and deposit alike. So no service operation creates or deletes an account. Only `Store.UpdateAccount` can add one, as `update_account` does ("Update or create", `server/database.py:30`), and no modelled caller passes it a new number.

## Model

| member | source | states |
|---|---|---|
| `Models.NewAccount` | server/models.py:5-8 | Building an account succeeds exactly when the balance is non-negative. The result carries the given number and balance. |
| `Models.NewAccountRoundTrip` | server/models.py:5-8 | Rebuilding an account from its own fields gives it back exactly when it satisfies the balance constraint. |
| `Models.NewWithdrawRequest` | server/models.py:11-13 | A withdraw request is accepted exactly when its amount is strictly positive, and it carries that amount. |
| `Models.NewDepositRequest` | server/models.py:16-18 | A deposit request is accepted exactly when its amount is strictly positive, and it carries that amount. |
| `Database.Put` | server/database.py:28-35 | Insert-or-replace stores the account under its own number and adds no other key. Every other key keeps its account. It keeps accounts keyed by their own numbers, and it keeps balances non-negative when the new account is valid. |
| `Database.PutIdempotent` | server/database.py:35 | Writing the same account twice gives the same store as writing it once. |
| `Database.PutStoredIsIdentity` | server/database.py:35 | Writing back an account that is already stored under its number leaves the store unchanged. |
| `Database.Store.constructor` | server/database.py:8-14 | A new store holds exactly the keys "12345" (balance 1000.00) and "67890" (balance 5000.00), each under its own number, and satisfies the store invariant. |
| `Database.Store.GetAccount` | server/database.py:16-26 | Lookup returns the stored account when the key is present and `None` otherwise, and changes nothing. Under the invariant, the account found carries the requested number and a non-negative balance. |
| `Database.Store.UpdateAccount` | server/database.py:28-35 | The new store is the old one with the account put under its own number. The invariant is kept when the account is valid. |
| `Database.Store.ListAccounts` | server/database.py:37-44 | Returns one entry per stored key, and every entry is a stored account. Every stored account appears, each entry comes from a distinct key, and every key is covered. Under the invariant, each entry's number is its key. |
| `AccountService.StatusCode` | server/services/account_service.py:23-78 | "Account not found" is reported with status 404, and every other failure with 400. |
| `AccountService.DetailIdentifiesError` | server/services/account_service.py:23-78 | The four failures have four distinct detail texts, as given by `AccountService.Detail`: "Account not found" (line 25), "Withdrawal amount must be positive" (line 46), "Insufficient funds" (line 49) and "Deposit amount must be positive" (line 78). |
| `AccountService.WithdrawStep` | server/services/account_service.py:43-58 | Success happens exactly when the account exists and 0 < amount <= balance. An unknown account is reported as not found whatever the amount. A non-positive amount is reported next, then insufficient funds. Every failure leaves the store unchanged. On success the balance becomes old balance minus amount, which is >= 0, and only that account changes. The response carries the account number and the newly stored balance. |
| `AccountService.DepositStep` | server/services/account_service.py:75-87 | Success happens exactly when the account exists and the amount is positive. Failures are not-found first, then a non-positive amount, and leave the store unchanged. On success the balance becomes old balance plus amount and only that account changes. The response carries the account number and the newly stored balance. |
| `AccountService.WriteBackMatchesInPlaceMutation` | server/services/account_service.py:50-52 | Writing back the updated copy equals changing the stored account in place. The write-back after an in-place change leaves the store unchanged. |
| `AccountService.GetAccount` | server/services/account_service.py:23-26 | An unknown account fails with `AccountNotFound`, and a known one returns the stored account. Nothing changes. |
| `AccountService.Withdraw` | server/services/account_service.py:43-58 | Its response and the new store are those of `WithdrawStep` on the old store, and the store invariant is kept. |
| `AccountService.Deposit` | server/services/account_service.py:75-87 | Its response and the new store are those of `DepositStep` on the old store, and the store invariant is kept. |
| `LedgerProperties.Run` | server/services/account_service.py:43-87 | Handling a sequence of requests keeps every account under its own number. |
| `LedgerProperties.RunPreservesLedgerInvariant` | server/services/account_service.py:48-52 | After any sequence of lookups, withdrawals and deposits, no balance is negative and the set of accounts is unchanged. |
| `LedgerProperties.RunLeavesOtherAccounts` | server/database.py:35 | Requests that name other accounts leave an account exactly as it was. |
| `LedgerProperties.RepeatedDepositsAccumulate` | server/services/account_service.py:80-81 | n deposits of the same positive amount into an existing account raise its balance by exactly n times that amount. No deposit is lost. |
| `LedgerProperties.WithdrawWholeBalanceTwice` | server/services/account_service.py:48-51 | Withdrawing a whole positive balance twice in a row works once and leaves 0. The second attempt fails with insufficient funds and the balance stays 0. |
| `LedgerProperties.DemoScenario` | client/demo_client.py:12-35 | On a fresh store, account "12345" goes from 1000.00 to 1500.00 after depositing 500.00, then to 1300.00 after withdrawing 200.00. |
| `LedgerProperties.RefusedOverdraftAfterDemo` | server/services/account_service.py:48-49 | After the demo's deposit and withdrawal, withdrawing 5000.00 from account "12345" fails with insufficient funds, and a lookup still shows 1300.00. The demo itself does not make this withdrawal. |

## Left out

- Floating-point balances and amounts: money is an integer count of cents. Rounding, NaN and infinities are not modelled.
- Message formatting (`${amount:.2f}`): the message is a tag holding the amount.
- Record validation and HTTP exceptions: constructing a record with a bad field is `None`, and an exception is an `Err` value.
- Pydantic's lack of validation on field assignment is not modelled as such: the balance rule is stated as the store invariant.
- `ListAccounts` returns the accounts in no particular order. `server/database.py:44` lists them in insertion order, which a Dafny `map` does not keep.
- `ListAccounts` returns account values. `server/database.py:44` returns the stored objects themselves, so a list taken before a withdrawal or deposit would show the new balance afterwards. No caller in the modelled files keeps a list across calls.
- Concurrency: the route handlers (`server/routes/accounts.py:9`, `22`, `28`) are plain functions that the web framework runs in a thread pool, so requests can run at the same time, and no lock protects the store. Two withdrawals can both pass the funds check (`server/services/account_service.py:48`) before either subtracts (line 51), and two deposits can lose an update (line 80). The model runs requests one at a time, so `LedgerProperties.RunPreservesLedgerInvariant`, `LedgerProperties.RepeatedDepositsAccumulate` and `LedgerProperties.WithdrawWholeBalanceTwice` hold only when requests run one after another.
- The process-wide store instance becomes the `db` parameter of the service methods.
- `AccountService.WithdrawStep`, `AccountService.DepositStep`: they are stated for stores that keep every account under its own number.
- `AccountService.Withdraw`, `AccountService.Deposit`: they require the full store invariant `Store.Valid()`: every account under its own number and no negative balance. The constructor establishes it and every service operation keeps it.
- HTTP routing (`server/routes/accounts.py`), app wiring (`server/main.py`) and all client code are not part of this model. The routes' balance endpoint calls an account-creation service method that the service does not define, so auto-creation is not modelled.
