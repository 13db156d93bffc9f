/**
 * The entity and request shapes of the ATM server (server/models.py).
 *
 * Money is held in integer minor units (cents), so `1000_00` is 1000.00.
 * The field constraints that server/models.py declares on its record types are
 * `Valid()` predicates here, and building a record from raw field values is
 * a function that returns `None` when a constraint fails, as the Python
 * record validation rejects it.
 */
module Models {

  datatype Option<T> = None | Some(value: T)

  /** A bank account: an account number and a balance that is never negative. */
  datatype Account = Account(accountNumber: string, balance: int) {
    predicate Valid() {
      balance >= 0
    }
  }

  /** The body of a withdrawal request: a strictly positive amount. */
  datatype WithdrawRequest = WithdrawRequest(amount: int) {
    predicate Valid() {
      amount > 0
    }
  }

  /** The body of a deposit request: a strictly positive amount. */
  datatype DepositRequest = DepositRequest(amount: int) {
    predicate Valid() {
      amount > 0
    }
  }

  /** The human-readable outcome of a transaction, kept as a tag with the amount. */
  datatype Message = Withdrew(amount: int) | Deposited(amount: int)

  /**
   * The reply to a successful transaction: exactly the account number, the
   * resulting balance and a message. The balance carries no constraint.
   */
  datatype TransactionResponse = TransactionResponse(accountNumber: string, balance: int, message: Message)

  /** Builds an account from its fields; refused when the balance is negative. */
  function NewAccount(accountNumber: string, balance: int): (r: Option<Account>)
    ensures r.Some? <==> balance >= 0
    ensures r.Some? ==> r.value.Valid() && r.value.accountNumber == accountNumber && r.value.balance == balance
  {
    if balance >= 0 then Some(Account(accountNumber, balance)) else None
  }

  /** Builds a withdrawal request; refused unless the amount is strictly positive. */
  function NewWithdrawRequest(amount: int): (r: Option<WithdrawRequest>)
    ensures r.Some? <==> amount > 0
    ensures r.Some? ==> r.value.Valid() && r.value.amount == amount
  {
    if amount > 0 then Some(WithdrawRequest(amount)) else None
  }

  /** Builds a deposit request; refused unless the amount is strictly positive. */
  function NewDepositRequest(amount: int): (r: Option<DepositRequest>)
    ensures r.Some? <==> amount > 0
    ensures r.Some? ==> r.value.Valid() && r.value.amount == amount
  {
    if amount > 0 then Some(DepositRequest(amount)) else None
  }

  /** Rebuilding an account from its own fields gives it back exactly when it is valid. */
  lemma NewAccountRoundTrip(a: Account)
    ensures NewAccount(a.accountNumber, a.balance) == Some(a) <==> a.Valid()
  {
  }
}
