/**
 * Properties of the ledger over whole sequences of requests, run one after
 * another against one store as the server handles them.
 */
module LedgerProperties {
  import opened Models
  import opened Database
  import S = AccountService

  /** One request to the service. */
  datatype Operation =
    | Inquire(accountNumber: string)
    | Withdraw(accountNumber: string, amount: int)
    | Deposit(accountNumber: string, amount: int)

  /** The store after handling one request; a lookup leaves it as it is. */
  function Apply(m: map<string, Account>, op: Operation): map<string, Account>
    requires WellKeyed(m)
  {
    match op
    case Inquire(_) => m
    case Withdraw(k, amount) => S.WithdrawStep(m, k, amount).accounts
    case Deposit(k, amount) => S.DepositStep(m, k, amount).accounts
  }

  /** The store after handling `ops` in order. */
  function Run(m: map<string, Account>, ops: seq<Operation>): (r: map<string, Account>)
    requires WellKeyed(m)
    ensures WellKeyed(r)
    decreases |ops|
  {
    if ops == [] then m else Run(Apply(m, ops[0]), ops[1..])
  }

  /** `n` copies of the same request. */
  function Repeat(op: Operation, n: nat): (ops: seq<Operation>)
    ensures |ops| == n
    ensures forall i :: 0 <= i < n ==> ops[i] == op
  {
    if n == 0 then [] else [op] + Repeat(op, n - 1)
  }

  /**
   * The ledger invariant holds after every sequence of requests: no balance
   * goes negative, every account stays under its own number, and no account
   * is created or removed.
   */
  lemma {:induction false} RunPreservesLedgerInvariant(m: map<string, Account>, ops: seq<Operation>)
    requires WellKeyed(m) && AllValid(m)
    ensures AllValid(Run(m, ops))
    ensures Run(m, ops).Keys == m.Keys
  {
    if ops != [] {
      var next := Apply(m, ops[0]);
      assert AllValid(next) && next.Keys == m.Keys;
      RunPreservesLedgerInvariant(next, ops[1..]);
    }
  }

  /** Requests against one account leave every other account as it was. */
  lemma {:induction false} RunLeavesOtherAccounts(m: map<string, Account>, ops: seq<Operation>, j: string)
    requires WellKeyed(m) && j in m
    requires forall i :: 0 <= i < |ops| ==> ops[i].accountNumber != j
    ensures j in Run(m, ops) && Run(m, ops)[j] == m[j]
  {
    if ops != [] {
      var next := Apply(m, ops[0]);
      assert j in next && next[j] == m[j];
      RunLeavesOtherAccounts(next, ops[1..], j);
    }
  }

  /** `n` deposits of `amount` into an existing account raise its balance by exactly `n * amount`. */
  lemma {:induction false} RepeatedDepositsAccumulate(m: map<string, Account>, k: string, amount: int, n: nat)
    requires WellKeyed(m) && k in m && amount > 0
    ensures k in Run(m, Repeat(Deposit(k, amount), n))
    ensures Run(m, Repeat(Deposit(k, amount), n))[k].balance == m[k].balance + n * amount
  {
    if n > 0 {
      var ops := Repeat(Deposit(k, amount), n);
      var next := Apply(m, ops[0]);
      assert ops[1..] == Repeat(Deposit(k, amount), n - 1);
      RepeatedDepositsAccumulate(next, k, amount, n - 1);
    }
  }

  /**
   * Two withdrawals of a whole balance, one after the other: the first
   * succeeds and leaves 0, the second fails for insufficient funds and the
   * balance stays 0.
   */
  lemma WithdrawWholeBalanceTwice(m: map<string, Account>, k: string)
    requires WellKeyed(m) && k in m && m[k].balance > 0
    ensures var first := S.WithdrawStep(m, k, m[k].balance);
      && first.response.Ok?
      && first.accounts[k].balance == 0
      && var second := S.WithdrawStep(first.accounts, k, m[k].balance);
      && second.response == S.Err(S.InsufficientFunds)
      && second.accounts[k].balance == 0
  {
  }

  /**
   * The client's demo: account "12345" of a fresh store holds 1000.00;
   * depositing 500.00 gives 1500.00, and withdrawing 200.00 then gives 1300.00.
   */
  method DemoScenario() returns (deposited: S.Result<TransactionResponse>, withdrawn: S.Result<TransactionResponse>)
    ensures deposited == S.Ok(TransactionResponse("12345", 1500_00, Deposited(500_00)))
    ensures withdrawn == S.Ok(TransactionResponse("12345", 1300_00, Withdrew(200_00)))
  {
    var db := new Store();
    deposited := S.Deposit(db, "12345", 500_00);
    withdrawn := S.Withdraw(db, "12345", 200_00);
  }

  /**
   * A withdrawal of 5000.00 made after the demo's deposit and withdrawal is
   * refused for insufficient funds, and account "12345" still holds 1300.00.
   */
  method RefusedOverdraftAfterDemo() returns (refused: S.Result<TransactionResponse>, balance: S.Result<Account>)
    ensures refused == S.Err(S.InsufficientFunds)
    ensures balance == S.Ok(Account("12345", 1300_00))
  {
    var db := new Store();
    var _ := S.Deposit(db, "12345", 500_00);
    var _ := S.Withdraw(db, "12345", 200_00);
    refused := S.Withdraw(db, "12345", 5000_00);
    balance := S.GetAccount(db, "12345");
  }
}
