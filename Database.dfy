/**
 * The in-memory account store of the ATM server (server/database.py): a
 * dictionary from account number to account, seeded with two accounts.
 */
module Database {
  import opened Models

  /** Every stored account sits under its own account number. */
  ghost predicate WellKeyed(m: map<string, Account>) {
    forall k :: k in m ==> m[k].accountNumber == k
  }

  /** Every stored account satisfies the account constraint: no negative balance. */
  ghost predicate AllValid(m: map<string, Account>) {
    forall k :: k in m ==> m[k].Valid()
  }

  /** Insert-or-replace of `a` under its own account number. */
  function Put(m: map<string, Account>, a: Account): (r: map<string, Account>)
    ensures a.accountNumber in r && r[a.accountNumber] == a
    ensures r.Keys == m.Keys + {a.accountNumber}
    ensures forall k :: k in m && k != a.accountNumber ==> r[k] == m[k]
    ensures WellKeyed(m) ==> WellKeyed(r)
    ensures AllValid(m) && a.Valid() ==> AllValid(r)
  {
    m[a.accountNumber := a]
  }

  /** Writing the same account twice leaves the store as writing it once. */
  lemma PutIdempotent(m: map<string, Account>, a: Account)
    ensures Put(Put(m, a), a) == Put(m, a)
  {
  }

  /** Writing back an account that is already stored under its number changes nothing. */
  lemma PutStoredIsIdentity(m: map<string, Account>, k: string)
    requires WellKeyed(m) && k in m
    ensures Put(m, m[k]) == m
  {
  }

  class Store {
    var accounts: map<string, Account>

    /** The store invariant: accounts are keyed by their own number and none is overdrawn. */
    ghost predicate Valid()
      reads this
    {
      WellKeyed(accounts) && AllValid(accounts)
    }

    /** A store seeded with account "12345" at 1000.00 and account "67890" at 5000.00. */
    constructor ()
      ensures Valid()
      ensures accounts.Keys == {"12345", "67890"}
      ensures accounts["12345"] == Account("12345", 1000_00)
      ensures accounts["67890"] == Account("67890", 5000_00)
    {
      accounts := map[];
      new;
      accounts := accounts["12345" := Account("12345", 1000_00)];
      accounts := accounts["67890" := Account("67890", 5000_00)];
    }

    /** The account stored under `accountNumber`, or `None`; the store is left as it is. */
    method GetAccount(accountNumber: string) returns (r: Option<Account>)
      ensures r.Some? <==> accountNumber in accounts
      ensures r.Some? ==> r.value == accounts[accountNumber]
      ensures Valid() && r.Some? ==> r.value.accountNumber == accountNumber && r.value.Valid()
    {
      if accountNumber in accounts {
        r := Some(accounts[accountNumber]);
      } else {
        r := None;
      }
    }

    /** Inserts or replaces `account` under its own account number. */
    method UpdateAccount(account: Account)
      modifies this
      ensures accounts == Put(old(accounts), account)
      ensures old(Valid()) && account.Valid() ==> Valid()
    {
      accounts := accounts[account.accountNumber := account];
    }

    /**
     * Every stored account, once each: `keys` (ghost) names the key each
     * entry of `r` was read from. Under the store invariant that key is the
     * entry's own account number.
     */
    method ListAccounts() returns (r: seq<Account>, ghost keys: seq<string>)
      ensures |r| == |keys| == |accounts|
      ensures forall i :: 0 <= i < |r| ==> r[i] in accounts.Values
      ensures forall k :: k in accounts ==> accounts[k] in r
      ensures forall i :: 0 <= i < |keys| ==> keys[i] in accounts && r[i] == accounts[keys[i]]
      ensures forall i, j :: 0 <= i < j < |keys| ==> keys[i] != keys[j]
      ensures forall k :: k in accounts ==> k in keys
      ensures Valid() ==> forall i :: 0 <= i < |r| ==> r[i].accountNumber == keys[i]
    {
      r, keys := [], [];
      var rest := accounts.Keys;
      while rest != {}
        invariant rest <= accounts.Keys
        invariant |r| == |keys| && |keys| + |rest| == |accounts.Keys|
        invariant forall i :: 0 <= i < |keys| ==> keys[i] in accounts && keys[i] !in rest && r[i] == accounts[keys[i]]
        invariant forall i, j :: 0 <= i < j < |keys| ==> keys[i] != keys[j]
        invariant forall k :: k in accounts && k !in rest ==> k in keys && accounts[k] in r
        decreases rest
      {
        var k :| k in rest;
        r, keys := r + [accounts[k]], keys + [k];
        rest := rest - {k};
      }
    }
  }
}
