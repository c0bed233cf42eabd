/**
 The MyBank schema: the rows of the three tables `users`, `accounts` and
 `transactions`, the derived quantities the denormalised columns are meant to
 hold, and what each insert does to those quantities.

 A table is a map from its identity column to the rest of the row. The
 invariants below are stated on table values, so that each stored procedure's
 effect on them is a lemma of its own; the class in module `Procedures` uses
 these lemmas.
 */
module Tables {
  import opened Aggregate

  type Name = string

  /** A row of `users` without its id; `accounts` is the denormalised count of owned accounts. */
  datatype User = User(name: Name, email: string, accounts: int)

  /** A row of `accounts` without its id; `amount` is the balance, `transactions` a denormalised count. */
  datatype Account = Account(name: Name, amount: int, userId: nat, transactions: int)

  /** A row of `transactions` without its id; `kind` is the `type` column (1: in, anything else: out). */
  datatype Transaction = Transaction(name: Name, amount: int, kind: int, accountId: nat)

  /** The effect of a transaction on its account's balance: `+amount` for type 1, `-amount` otherwise. */
  function Effect(kind: int, amount: int): int
  {
    if kind == 1 then amount else -amount
  }

  /** The account row after the `UPDATE` of `insert_transaction`: balance moved by the effect, counter raised. */
  function Apply(a: Account, t: Transaction): Account
  {
    a.(amount := a.amount + Effect(t.kind, t.amount), transactions := a.transactions + 1)
  }

  /** The user row after the `UPDATE` of `insert_account`: one more account. */
  function AddAccount(u: User): User
  {
    u.(accounts := u.accounts + 1)
  }

  function SignedWeight(accountId: nat): Transaction -> int
  {
    (t: Transaction) => if t.accountId == accountId then Effect(t.kind, t.amount) else 0
  }

  function TransactionWeight(accountId: nat): Transaction -> int
  {
    (t: Transaction) => if t.accountId == accountId then 1 else 0
  }

  function AccountWeight(userId: nat): Account -> int
  {
    (a: Account) => if a.userId == userId then 1 else 0
  }

  /** The signed total of the transactions with id below `n` that belong to `accountId`. */
  ghost function Balance(transactions: map<nat, Transaction>, accountId: nat, n: nat): int
  {
    SumBelow(transactions, SignedWeight(accountId), n)
  }

  /** The number of transactions with id below `n` that belong to `accountId`. */
  ghost function TransactionCount(transactions: map<nat, Transaction>, accountId: nat, n: nat): int
  {
    SumBelow(transactions, TransactionWeight(accountId), n)
  }

  /** The number of accounts with id below `n` that `userId` owns. */
  ghost function AccountCount(accounts: map<nat, Account>, userId: nat, n: nat): int
  {
    SumBelow(accounts, AccountWeight(userId), n)
  }

  /** Every id of `m` is below the next identity value `n`. */
  ghost predicate IdsBelow<V>(m: map<nat, V>, n: nat)
  {
    forall i :: i in m ==> i < n
  }

  /** Constraint `fk_user`: every account's owner is a user. */
  ghost predicate OwnersExist(users: map<nat, User>, accounts: map<nat, Account>)
  {
    forall a :: a in accounts ==> accounts[a].userId in users
  }

  /** Constraint `fk_account`: every transaction's account exists. */
  ghost predicate AccountsExist(accounts: map<nat, Account>, transactions: map<nat, Transaction>)
  {
    forall t :: t in transactions ==> transactions[t].accountId in accounts
  }

  /**
   Each account's balance is its opening amount plus the signed sum of its
   transactions, and its `transactions` column counts them.
   */
  ghost predicate BalancesAgree(accounts: map<nat, Account>, transactions: map<nat, Transaction>,
                                opening: map<nat, int>, n: nat)
  {
    forall a :: a in accounts ==>
      && a in opening
      && accounts[a].amount == opening[a] + Balance(transactions, a, n)
      && accounts[a].transactions == TransactionCount(transactions, a, n)
  }

  /** Each user's `accounts` column counts the accounts it owns. */
  ghost predicate OwnersAgree(users: map<nat, User>, accounts: map<nat, Account>, n: nat)
  {
    forall u :: u in users ==> users[u].accounts == AccountCount(accounts, u, n)
  }

  /**
   Inserting a user keeps the account counters right exactly when the new row's
   `accounts` column is 0: no account can reference a user that did not exist.
   */
  lemma UserInsertKeepsOwners(users: map<nat, User>, accounts: map<nat, Account>, n: nat, id: nat, row: User)
    requires OwnersExist(users, accounts) && id !in users
    ensures OwnersAgree(users, accounts, n) ==> (OwnersAgree(users[id := row], accounts, n) <==> row.accounts == 0)
  {
    SumBelowZero(accounts, AccountWeight(id), n);
    assert users[id := row][id] == row;
  }

  /** An account inserted at a fresh id adds one to the number of accounts its owner owns, and none to anyone else's. */
  lemma AccountCountAfterInsert(accounts: map<nat, Account>, id: nat, row: Account, u: nat)
    requires IdsBelow(accounts, id)
    ensures AccountCount(accounts[id := row], u, id + 1) == AccountCount(accounts, u, id) + (if u == row.userId then 1 else 0)
  {
    SumBelowAppend(accounts, AccountWeight(u), id, row);
  }

  /**
   `insert_account` keeps the account counters right because it raises the
   owner's counter by one; an insert that left the counter alone would break them.
   */
  lemma AccountInsertKeepsOwners(users: map<nat, User>, accounts: map<nat, Account>, id: nat, row: Account)
    requires IdsBelow(accounts, id) && row.userId in users
    ensures OwnersAgree(users, accounts, id) ==>
      OwnersAgree(users[row.userId := AddAccount(users[row.userId])], accounts[id := row], id + 1)
    ensures OwnersAgree(users, accounts, id) ==> !OwnersAgree(users, accounts[id := row], id + 1)
  {
    forall u | u in users
      ensures AccountCount(accounts[id := row], u, id + 1) == AccountCount(accounts, u, id) + (if u == row.userId then 1 else 0)
    {
      AccountCountAfterInsert(accounts, id, row, u);
    }
  }

  /** Inserting an account with no transactions keeps balances right: it holds its opening amount. */
  lemma AccountInsertKeepsBalances(accounts: map<nat, Account>, transactions: map<nat, Transaction>,
                                   opening: map<nat, int>, n: nat, id: nat, row: Account)
    requires AccountsExist(accounts, transactions) && id !in accounts && row.transactions == 0
    ensures BalancesAgree(accounts, transactions, opening, n) ==>
      BalancesAgree(accounts[id := row], transactions, opening[id := row.amount], n)
  {
    SumBelowZero(transactions, SignedWeight(id), n);
    SumBelowZero(transactions, TransactionWeight(id), n);
  }

  /** `insert_transaction` keeps balances right: only its account moves, by the transaction's effect, and counts one more. */
  lemma TransactionInsertKeepsBalances(accounts: map<nat, Account>, transactions: map<nat, Transaction>,
                                       opening: map<nat, int>, id: nat, t: Transaction)
    requires IdsBelow(transactions, id) && t.accountId in accounts
    ensures BalancesAgree(accounts, transactions, opening, id) ==>
      BalancesAgree(accounts[t.accountId := Apply(accounts[t.accountId], t)], transactions[id := t], opening, id + 1)
  {
    forall a | a in accounts
      ensures Balance(transactions[id := t], a, id + 1)
        == Balance(transactions, a, id) + (if a == t.accountId then Effect(t.kind, t.amount) else 0)
      ensures TransactionCount(transactions[id := t], a, id + 1)
        == TransactionCount(transactions, a, id) + (if a == t.accountId then 1 else 0)
    {
      SumBelowAppend(transactions, SignedWeight(a), id, t);
      SumBelowAppend(transactions, TransactionWeight(a), id, t);
    }
  }

  /** Rewriting an account row without changing its owner leaves every user's account count as it was. */
  lemma TransactionInsertKeepsOwners(users: map<nat, User>, accounts: map<nat, Account>, n: nat, accountId: nat, row: Account)
    requires accountId in accounts && row.userId == accounts[accountId].userId
    ensures OwnersAgree(users, accounts[accountId := row], n) <==> OwnersAgree(users, accounts, n)
  {
    forall u | u in users
      ensures AccountCount(accounts[accountId := row], u, n) == AccountCount(accounts, u, n)
    {
      SumBelowCongruent(accounts[accountId := row], AccountWeight(u), accounts, AccountWeight(u), n);
    }
  }

  /** Inserting an account at a fresh id for an existing owner keeps ids and foreign keys valid. */
  lemma AccountInsertKeepsKeys(users: map<nat, User>, accounts: map<nat, Account>, transactions: map<nat, Transaction>,
                               id: nat, row: Account)
    requires IdsBelow(accounts, id) && AccountsExist(accounts, transactions) && OwnersExist(users, accounts)
    requires row.userId in users
    ensures IdsBelow(accounts[id := row], id + 1)
    ensures AccountsExist(accounts[id := row], transactions)
    ensures OwnersExist(users, accounts[id := row])
  {
  }

  /** Inserting a transaction at a fresh id and rewriting its account without changing the owner keeps ids and foreign keys valid. */
  lemma TransactionInsertKeepsKeys(users: map<nat, User>, accounts: map<nat, Account>, transactions: map<nat, Transaction>,
                                   id: nat, t: Transaction, row: Account)
    requires IdsBelow(transactions, id) && AccountsExist(accounts, transactions) && OwnersExist(users, accounts)
    requires t.accountId in accounts && row.userId == accounts[t.accountId].userId
    ensures IdsBelow(transactions[id := t], id + 1)
    ensures AccountsExist(accounts[t.accountId := row], transactions[id := t])
    ensures OwnersExist(users, accounts[t.accountId := row])
    ensures accounts[t.accountId := row].Keys == accounts.Keys
  {
  }

  /** An account whose `transactions` counter is 0 still holds exactly its opening amount. */
  lemma UntouchedAccountHoldsOpening(accounts: map<nat, Account>, transactions: map<nat, Transaction>,
                                     opening: map<nat, int>, n: nat, a: nat)
    requires BalancesAgree(accounts, transactions, opening, n)
    requires a in accounts && accounts[a].transactions == 0
    ensures accounts[a].amount == opening[a]
  {
    SumBelowZeroIff(transactions, TransactionWeight(a), n);
    forall i | i in transactions && i < n ensures SignedWeight(a)(transactions[i]) == 0 {
      assert TransactionWeight(a)(transactions[i]) == 0;
    }
    SumBelowZero(transactions, SignedWeight(a), n);
  }
}
