/**
 The three stored procedures of MyBank as methods of one object holding the
 three tables. Each procedure call is one atomic step: either every row it
 touches changes, or, when a foreign key rejects the insert, nothing does.
 The bare user and account `INSERT`s, which the procedures run first and the
 demo rows run alone, are methods of their own; they show which invariant the demo
 rows leave broken.
 */
module Procedures {
  import opened Tables

  /** The foreign-key constraints of the schema. */
  datatype Constraint = FkUser | FkAccount

  /** What an insert guarded by a foreign key returns: the new row's id, or the violated constraint. */
  datatype Outcome = Inserted(id: nat) | Rejected(constraint: Constraint)

  class Bank {
    var users: map<nat, User>
    var accounts: map<nat, Account>
    var transactions: map<nat, Transaction>
    // next value of each table's identity sequence
    var nextUserId: nat
    var nextAccountId: nat
    var nextTransactionId: nat
    // the balance each account was opened with; no column stores it
    ghost var opening: map<nat, int>

    /** Identity columns and foreign keys: ids are positive and below their sequence, references resolve. */
    ghost predicate Valid()
      reads this
    {
      && 1 <= nextUserId && 1 <= nextAccountId && 1 <= nextTransactionId
      && 0 !in users && 0 !in accounts && 0 !in transactions
      && IdsBelow(users, nextUserId) && IdsBelow(accounts, nextAccountId) && IdsBelow(transactions, nextTransactionId)
      && OwnersExist(users, accounts) && AccountsExist(accounts, transactions)
      && opening.Keys == accounts.Keys
    }

    /** Balances and `accounts.transactions` agree with the transaction rows. */
    ghost predicate AccountsAgree()
      reads this
    {
      BalancesAgree(accounts, transactions, opening, nextTransactionId)
    }

    /** `users.accounts` agrees with the account rows. */
    ghost predicate UsersAgree()
      reads this
    {
      OwnersAgree(users, accounts, nextAccountId)
    }

    /** Freshly created tables: empty, every identity sequence at 1. */
    constructor ()
      ensures Valid() && AccountsAgree() && UsersAgree()
      ensures users == map[] && accounts == map[] && transactions == map[]
      ensures nextUserId == 1 && nextAccountId == 1 && nextTransactionId == 1
    {
      users, accounts, transactions := map[], map[], map[];
      nextUserId, nextAccountId, nextTransactionId := 1, 1, 1;
      opening := map[];
    }

    /** `insert_user`: a new user row with a fresh id and an `accounts` counter of 0. */
    method InsertUser(name: Name, email: string) returns (id: nat)
      requires Valid()
      modifies this
      ensures Valid()
      ensures id !in old(users) && id == old(nextUserId) && nextUserId == id + 1
      ensures users == old(users)[id := User(name, email, 0)]
      ensures accounts == old(accounts) && transactions == old(transactions) && opening == old(opening)
      ensures nextAccountId == old(nextAccountId) && nextTransactionId == old(nextTransactionId)
      ensures old(AccountsAgree()) ==> AccountsAgree()
      ensures old(UsersAgree()) ==> UsersAgree()
    {
      id := InsertUserRow(name, email, 0);
    }

    /** `insert_account`: a new account row, and the owner's `accounts` counter raised by one. */
    method InsertAccount(name: Name, amount: int, userId: int) returns (r: Outcome)
      requires Valid()
      modifies this
      ensures Valid()
      ensures userId !in old(users) ==> r == Rejected(FkUser) && unchanged(this)
      ensures userId in old(users) ==>
        && r.Inserted? && r.id !in old(accounts)
        && r.id == old(nextAccountId) && nextAccountId == r.id + 1
        && accounts == old(accounts)[r.id := Account(name, amount, userId, 0)]
        && users == old(users)[userId := old(users)[userId].(accounts := old(users)[userId].accounts + 1)]
        && opening == old(opening)[r.id := amount]
      ensures transactions == old(transactions)
      ensures nextUserId == old(nextUserId) && nextTransactionId == old(nextTransactionId)
      ensures old(AccountsAgree()) ==> AccountsAgree()
      ensures old(UsersAgree()) ==> UsersAgree()
    {
      ghost var accountsBefore := accounts;
      r := InsertAccountRow(name, amount, userId);
      if r.Inserted? {
        var owner := users[userId];
        users := users[userId := AddAccount(owner)];
        AccountInsertKeepsOwners(old(users), accountsBefore, r.id, accounts[r.id]);
      }
    }

    /** `insert_transaction`: a new transaction row, its signed amount applied to its account, whose counter rises by one. */
    method InsertTransaction(name: Name, amount: int, kind: int, accountId: int) returns (r: Outcome)
      requires Valid()
      modifies this
      ensures Valid()
      ensures accountId !in old(accounts) ==> r == Rejected(FkAccount) && unchanged(this)
      ensures accountId in old(accounts) ==>
        && r.Inserted? && r.id !in old(transactions)
        && r.id == old(nextTransactionId) && nextTransactionId == r.id + 1
        && transactions == old(transactions)[r.id := Transaction(name, amount, kind, accountId)]
        && accounts == old(accounts)[accountId := old(accounts)[accountId].(
             amount := old(accounts)[accountId].amount + (if kind == 1 then amount else -amount),
             transactions := old(accounts)[accountId].transactions + 1)]
      ensures users == old(users) && opening == old(opening)
      ensures nextUserId == old(nextUserId) && nextAccountId == old(nextAccountId)
      ensures old(AccountsAgree()) ==> AccountsAgree()
      ensures old(UsersAgree()) ==> UsersAgree()
    {
      if accountId !in accounts {
        return Rejected(FkAccount);
      }
      var id := nextTransactionId;
      var t := Transaction(name, amount, kind, accountId);
      var row := Apply(accounts[accountId], t);
      TransactionInsertKeepsBalances(accounts, transactions, opening, id, t);
      TransactionInsertKeepsOwners(users, accounts, nextAccountId, accountId, row);
      TransactionInsertKeepsKeys(users, accounts, transactions, id, t, row);
      transactions := transactions[id := t];
      nextTransactionId := nextTransactionId + 1;
      accounts := accounts[accountId := row];
      r := Inserted(id);
    }

    /**
     The `INSERT INTO users` statement alone. `insert_user` leaves the `accounts`
     column at its default 0; the demo rows set it explicitly.
     */
    method InsertUserRow(name: Name, email: string, accountsColumn: int) returns (id: nat)
      requires Valid()
      modifies this
      ensures Valid()
      ensures id !in old(users) && id == old(nextUserId) && nextUserId == id + 1
      ensures users == old(users)[id := User(name, email, accountsColumn)]
      ensures accounts == old(accounts) && transactions == old(transactions) && opening == old(opening)
      ensures nextAccountId == old(nextAccountId) && nextTransactionId == old(nextTransactionId)
      ensures old(AccountsAgree()) ==> AccountsAgree()
      ensures old(UsersAgree()) ==> (UsersAgree() <==> accountsColumn == 0)
    {
      id := nextUserId;
      UserInsertKeepsOwners(users, accounts, nextAccountId, id, User(name, email, accountsColumn));
      users := users[id := User(name, email, accountsColumn)];
      nextUserId := nextUserId + 1;
    }

    /**
     The `INSERT INTO accounts` statement alone: `fk_user` applies, but the owner's
     `accounts` counter is not raised. `insert_account` follows it with that
     `UPDATE`; the demo rows do not, and leave the counters wrong.
     */
    method InsertAccountRow(name: Name, amount: int, userId: int) returns (r: Outcome)
      requires Valid()
      modifies this
      ensures Valid()
      ensures userId !in old(users) ==> r == Rejected(FkUser) && unchanged(this)
      ensures userId in old(users) ==>
        && r.Inserted? && r.id !in old(accounts)
        && r.id == old(nextAccountId) && nextAccountId == r.id + 1
        && accounts == old(accounts)[r.id := Account(name, amount, userId, 0)]
        && opening == old(opening)[r.id := amount]
        && (forall u :: AccountCount(accounts, u, nextAccountId)
              == old(AccountCount(accounts, u, nextAccountId)) + (if u == userId then 1 else 0))
      ensures users == old(users) && transactions == old(transactions)
      ensures nextUserId == old(nextUserId) && nextTransactionId == old(nextTransactionId)
      ensures old(AccountsAgree()) ==> AccountsAgree()
      ensures r.Inserted? && old(UsersAgree()) ==> !UsersAgree()
    {
      if userId !in users {
        return Rejected(FkUser);
      }
      var id := nextAccountId;
      var row := Account(name, amount, userId, 0);
      forall u ensures AccountCount(accounts[id := row], u, id + 1) == AccountCount(accounts, u, id) + (if u == userId then 1 else 0) {
        AccountCountAfterInsert(accounts, id, row, u);
      }
      AccountInsertKeepsBalances(accounts, transactions, opening, nextTransactionId, id, row);
      AccountInsertKeepsOwners(users, accounts, id, row);
      AccountInsertKeepsKeys(users, accounts, transactions, id, row);
      accounts := accounts[id := row];
      opening := opening[id := amount];
      nextAccountId := nextAccountId + 1;
      r := Inserted(id);
    }

    /** The demo rows loaded into the freshly created tables: two users left at 0 accounts, three accounts. */
    method Seed()
      requires Valid()
      requires users == map[] && accounts == map[] && transactions == map[]
      requires nextUserId == 1 && nextAccountId == 1 && nextTransactionId == 1
      modifies this
      ensures Valid() && AccountsAgree()
      ensures users == map[1 := User("Valentin Montagne", "contact@vm-it-consulting.com", 0),
                            2 := User("Amélie Dal", "amelie.dal@gmail.com", 0)]
      ensures accounts == map[1 := Account("Compte courant", 2000, 1, 0),
                              2 := Account("Livret A", 13000, 1, 0),
                              3 := Account("Compte courant", 2500, 2, 0)]
      ensures transactions == map[] && opening == map[1 := 2000, 2 := 13000, 3 := 2500]
      ensures nextUserId == 3 && nextAccountId == 4 && nextTransactionId == 1
      ensures !UsersAgree()
    {
      SeedUsers();
      SeedAccounts();
    }

    /** The two demo users, inserted with an explicit `accounts` column of 0. */
    method SeedUsers()
      requires Valid()
      requires users == map[] && accounts == map[] && transactions == map[]
      requires nextUserId == 1
      modifies this
      ensures Valid() && AccountsAgree() && UsersAgree()
      ensures users == map[1 := User("Valentin Montagne", "contact@vm-it-consulting.com", 0),
                            2 := User("Amélie Dal", "amelie.dal@gmail.com", 0)]
      ensures accounts == map[] && transactions == map[] && opening == old(opening)
      ensures nextUserId == 3 && nextAccountId == old(nextAccountId) && nextTransactionId == old(nextTransactionId)
    {
      assert AccountsAgree() && UsersAgree();
      var valentin := InsertUserRow("Valentin Montagne", "contact@vm-it-consulting.com", 0);
      var amelie := InsertUserRow("Amélie Dal", "amelie.dal@gmail.com", 0);
    }

    /** The three demo accounts, inserted without the counter update: user 1 then owns two accounts with a counter of 0. */
    method SeedAccounts()
      requires Valid() && AccountsAgree() && UsersAgree()
      requires 1 in users && 2 in users && users[1].accounts == 0
      requires accounts == map[] && nextAccountId == 1
      modifies this
      ensures Valid() && AccountsAgree()
      ensures accounts == map[1 := Account("Compte courant", 2000, 1, 0),
                              2 := Account("Livret A", 13000, 1, 0),
                              3 := Account("Compte courant", 2500, 2, 0)]
      ensures opening == old(opening)[1 := 2000][2 := 13000][3 := 2500]
      ensures users == old(users) && transactions == old(transactions)
      ensures nextAccountId == 4 && nextUserId == old(nextUserId) && nextTransactionId == old(nextTransactionId)
      ensures !UsersAgree()
    {
      assert AccountCount(accounts, 1, nextAccountId) == 0;
      var first := InsertAccountRow("Compte courant", 2000, 1);
      assert AccountCount(accounts, 1, nextAccountId) == 1;
      var second := InsertAccountRow("Livret A", 13000, 1);
      assert AccountCount(accounts, 1, nextAccountId) == 2;
      var third := InsertAccountRow("Compte courant", 2500, 2);
      assert AccountCount(accounts, 1, nextAccountId) == 2 && users[1].accounts == 0;
    }
  }
}
