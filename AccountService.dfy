/**
 * The business rules of the ATM server (server/services/account_service.py):
 * account lookup, withdrawal and deposit on top of the store.
 *
 * The Python service reaches a process-wide store (server/database.py:48); here that store is the
 * parameter `db`. Its HTTP exceptions are the `Err` case of `Result`.
 */
module AccountService {
  import opened Models
  import opened Database

  /** The failures the service reports, in place of its HTTP exceptions. */
  datatype Error =
    | AccountNotFound
    | WithdrawalAmountNotPositive
    | DepositAmountNotPositive
    | InsufficientFunds

  /** The HTTP status code each failure is raised with. */
  function StatusCode(e: Error): (code: int)
    ensures code == 404 <==> e == AccountNotFound
    ensures code == 400 <==> e != AccountNotFound
  {
    if e == AccountNotFound then 404 else 400
  }

  /** The detail text each failure is raised with. */
  function Detail(e: Error): string
  {
    match e
    case AccountNotFound => "Account not found"
    case WithdrawalAmountNotPositive => "Withdrawal amount must be positive"
    case DepositAmountNotPositive => "Deposit amount must be positive"
    case InsufficientFunds => "Insufficient funds"
  }

  /** Distinct failures are reported with distinct detail texts. */
  lemma DetailIdentifiesError(e1: Error, e2: Error)
    ensures Detail(e1) == Detail(e2) <==> e1 == e2
  {
  }

  datatype Result<T> = Ok(value: T) | Err(error: Error)

  /** What one transaction answers and the store it leaves behind. */
  datatype Step = Step(response: Result<TransactionResponse>, accounts: map<string, Account>)

  /**
   * Withdrawal of `amount` from account `k` of the store `m`: the account must
   * exist (checked first, whatever the amount), the amount must be positive,
   * and the balance must cover it; then the lowered balance is written back.
   */
  function WithdrawStep(m: map<string, Account>, k: string, amount: int): (s: Step)
    requires WellKeyed(m)
    ensures s.response.Ok? <==> k in m && 0 < amount <= m[k].balance
    ensures k !in m ==> s.response == Err(AccountNotFound)
    ensures k in m && amount <= 0 ==> s.response == Err(WithdrawalAmountNotPositive)
    ensures k in m && 0 < amount && m[k].balance < amount ==> s.response == Err(InsufficientFunds)
    ensures s.response.Err? ==> s.accounts == m
    ensures s.response.Ok? ==>
      && s.accounts == m[k := Account(k, m[k].balance - amount)]
      && s.accounts[k].balance >= 0
      && s.response.value == TransactionResponse(k, s.accounts[k].balance, Withdrew(amount))
    ensures WellKeyed(s.accounts) && s.accounts.Keys == m.Keys
    ensures AllValid(m) ==> AllValid(s.accounts)
  {
    if k !in m then Step(Err(AccountNotFound), m)
    else if amount <= 0 then Step(Err(WithdrawalAmountNotPositive), m)
    else if m[k].balance < amount then Step(Err(InsufficientFunds), m)
    else
      var account := m[k].(balance := m[k].balance - amount);
      Step(Ok(TransactionResponse(account.accountNumber, account.balance, Withdrew(amount))), Put(m, account))
  }

  /**
   * Deposit of `amount` into account `k` of the store `m`: the account must
   * exist and the amount must be positive; then the raised balance is written back.
   */
  function DepositStep(m: map<string, Account>, k: string, amount: int): (s: Step)
    requires WellKeyed(m)
    ensures s.response.Ok? <==> k in m && 0 < amount
    ensures k !in m ==> s.response == Err(AccountNotFound)
    ensures k in m && amount <= 0 ==> s.response == Err(DepositAmountNotPositive)
    ensures s.response.Err? ==> s.accounts == m
    ensures s.response.Ok? ==>
      && s.accounts == m[k := Account(k, m[k].balance + amount)]
      && s.response.value == TransactionResponse(k, s.accounts[k].balance, Deposited(amount))
    ensures WellKeyed(s.accounts) && s.accounts.Keys == m.Keys
    ensures AllValid(m) ==> AllValid(s.accounts)
  {
    if k !in m then Step(Err(AccountNotFound), m)
    else if amount <= 0 then Step(Err(DepositAmountNotPositive), m)
    else
      var account := m[k].(balance := m[k].balance + amount);
      Step(Ok(TransactionResponse(account.accountNumber, account.balance, Deposited(amount))), Put(m, account))
  }

  /**
   * The store as the Python service leaves it right after it assigns the new balance
   * to the account object it looked up: that object is the one held by the
   * dictionary, so the stored entry already carries the new balance.
   */
  function MutateInPlace(m: map<string, Account>, k: string, balance: int): map<string, Account>
    requires k in m
  {
    m[k := m[k].(balance := balance)]
  }

  /**
   * Writing the mutated copy back is the same as mutating the stored entry in
   * place, and the write-back that follows the in-place mutation changes
   * nothing: the copy-then-write model matches the aliased Python objects.
   */
  lemma WriteBackMatchesInPlaceMutation(m: map<string, Account>, k: string, balance: int)
    requires WellKeyed(m) && k in m
    ensures Put(m, m[k].(balance := balance)) == MutateInPlace(m, k, balance)
    ensures Put(MutateInPlace(m, k, balance), m[k].(balance := balance)) == MutateInPlace(m, k, balance)
  {
  }

  /** The account stored under `accountNumber`, or `AccountNotFound`; nothing changes. */
  method GetAccount(db: Store, accountNumber: string) returns (r: Result<Account>)
    ensures accountNumber !in db.accounts ==> r == Err(AccountNotFound)
    ensures accountNumber in db.accounts ==> r == Ok(db.accounts[accountNumber])
    ensures db.Valid() && r.Ok? ==> r.value.accountNumber == accountNumber && r.value.Valid()
  {
    var account := db.GetAccount(accountNumber);
    if account.None? {
      return Err(AccountNotFound);
    }
    return Ok(account.value);
  }

  /** Withdraws `amount` from account `accountNumber`, keeping every balance non-negative. */
  method Withdraw(db: Store, accountNumber: string, amount: int) returns (r: Result<TransactionResponse>)
    requires db.Valid()
    modifies db
    ensures db.Valid()
    ensures Step(r, db.accounts) == WithdrawStep(old(db.accounts), accountNumber, amount)
  {
    var found := GetAccount(db, accountNumber);
    if found.Err? {
      return Err(found.error);
    }
    var account := found.value;
    if amount <= 0 {
      return Err(WithdrawalAmountNotPositive);
    }
    if account.balance < amount {
      return Err(InsufficientFunds);
    }
    account := account.(balance := account.balance - amount);
    db.UpdateAccount(account);
    r := Ok(TransactionResponse(account.accountNumber, account.balance, Withdrew(amount)));
  }

  /** Deposits `amount` into account `accountNumber`. */
  method Deposit(db: Store, accountNumber: string, amount: int) returns (r: Result<TransactionResponse>)
    requires db.Valid()
    modifies db
    ensures db.Valid()
    ensures Step(r, db.accounts) == DepositStep(old(db.accounts), accountNumber, amount)
  {
    var found := GetAccount(db, accountNumber);
    if found.Err? {
      return Err(found.error);
    }
    var account := found.value;
    if amount <= 0 {
      return Err(DepositAmountNotPositive);
    }
    account := account.(balance := account.balance + amount);
    db.UpdateAccount(account);
    r := Ok(TransactionResponse(account.accountNumber, account.balance, Deposited(amount)));
  }
}
