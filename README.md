# MyBank ledger model

MyBank is a small banking demo: users own accounts, accounts hold balances, and
transactions move balances. Its only logic beyond web plumbing is the database
schema and three PL/SQL stored procedures in `index.js`. This project models
them in Dafny and proves what each procedure does to the tables.

- **Tables.** `users`, `accounts` and `transactions` each have an identity key
  generated by the database. `accounts.user_id` must name a user (constraint
  `fk_user`). `transactions.account_id` must name an account (constraint
  `fk_account`). Two denormalised counters, `users.accounts` and
  `accounts.transactions`, default to 0.
- **`insert_user`** inserts a user and returns its new id.
- **`insert_account`** inserts an account with an opening balance. It then
  raises the owner's `accounts` counter by one.
- **`insert_transaction`** inserts a transaction. It then adds its amount to the
  account's balance when `type = 1` and subtracts it for any other type. It also
  raises the account's `transactions` counter by one.

Modules:

- `Aggregate` (`aggregate.dfy`): `SumBelow`, a sum of weights over the rows of a
  table whose ids are below a bound. It comes with lemmas for inserting at a
  fresh id, for zero sums and for tables that weigh the same.
- `Tables` (`tables.dfy`): the row datatypes and the signed effect of a
  transaction. Also the derived quantities: an account's signed transaction
  total, its number of transactions, and a user's number of accounts. Also the
  two invariants the counters are meant to keep, with one lemma per insert
  saying how it affects each invariant.
- `Procedures` (`bank.dfy`): class `Bank` holds the three tables as maps keyed
  by id, one identity counter per table, and a ghost map of opening balances
  (no column stores them). Each procedure is a method with `modifies this`
  whose postcondition gives the exact new state. The bare user and account
  `INSERT`s are methods of their own: the procedures run them first, and the
  demo data loader runs them alone. The transactions `INSERT` is done inline in
  `InsertTransaction`.

Invariants:

- `Bank.Valid` holds after every method. It says ids are positive and below
  their identity counter, and both foreign keys hold.
- `AccountsAgree` is kept by every method: each balance equals the opening
  amount plus the signed sum of the account's transactions, and each
  `transactions` counter equals the account's number of transaction rows.
- `UsersAgree` is kept by the three procedures: each user's `accounts` counter
  equals the user's number of account rows. The demo data loader breaks it.
  It inserts three accounts without touching the counters, so both seeded users
  keep a counter of 0. `Bank.Seed` proves that the seeded state violates it.

The schema comment (`index.js:79`, `-- 0: Out, 1: In`) names only types 0 and
1. `insert_transaction` subtracts for every type other than 1 (`index.js:137`),
and `Effect` and `InsertTransaction` do the same.

## Model

| member | source | states |
|---|---|---|
| `Procedures.Bank.constructor` | index.js:49-87 | the freshly created tables are empty, every identity sequence starts at 1, and both invariants hold |
| `Procedures.Bank.InsertUser` | index.js:91-100 | adds exactly one user with the given name and email and an `accounts` counter of 0, under a fresh id that is returned; accounts and transactions are unchanged; both invariants are preserved |
| `Procedures.Bank.InsertAccount` | index.js:105-119 | an owner not in `users` is rejected by `fk_user` and nothing changes; otherwise adds exactly one account (given name, opening amount and owner, 0 transactions, fresh id, returned); the owner's `accounts` counter rises by exactly 1, every other user and all transactions are unchanged; both invariants are preserved |
| `Procedures.Bank.InsertTransaction` | index.js:124-140 | an account not in `accounts` is rejected by `fk_account` and nothing changes; otherwise adds exactly one transaction under a fresh id, which is returned; the account's balance changes by `+amount` when `type = 1` and by `-amount` otherwise; its `transactions` counter rises by exactly 1; other accounts and all users are unchanged; both invariants are preserved |
| `Procedures.Bank.InsertUserRow` | index.js:97-99 | a bare user insert adds one row under a fresh id with the given `accounts` column; when the counters agreed before, they still agree exactly when that column is 0 |
| `Procedures.Bank.InsertAccountRow` | index.js:112-114 | a bare account insert is still checked by `fk_user`; it adds one account, adds one to its owner's number of accounts and leaves every counter alone; when the counters agreed before, they no longer do |
| `Procedures.Bank.Seed` | index.js:143-161 | the demo rows give exactly two users with counter 0 and three accounts (two owned by user 1, one by user 2), with opening balances 2000, 13000 and 2500; loaded into freshly created tables, the next ids are 3, 4 and 1; balances agree, but the user counters do not |
| `Procedures.Bank.SeedUsers` | index.js:144-150 | the two demo users are inserted with ids 1 and 2 and an explicit counter of 0, leaving the next user id at 3 and everything else unchanged; both invariants still hold |
| `Procedures.Bank.SeedAccounts` | index.js:152-159 | the three demo accounts are inserted with ids 1 to 3 and their opening balances, leaving the next account id at 4, without touching any user row; balances agree, but user 1 now owns two accounts with a counter of 0 |
| `Tables.UserInsertKeepsOwners` | index.js:97-99 | a user inserted under an id no account references keeps every user's `accounts` counter right, if and only if its own counter is 0 |
| `Tables.AccountCountAfterInsert` | index.js:112-114 | an account inserted at a fresh id raises its owner's number of accounts by one and leaves everyone else's unchanged |
| `Tables.AccountInsertKeepsOwners` | index.js:112-118 | an account insert followed by the owner's counter update keeps every `accounts` counter right; the insert without the update breaks them |
| `Tables.AccountInsertKeepsBalances` | index.js:112-114 | a new account with 0 transactions, under an id no transaction references, keeps balances and transaction counters right; its balance is its opening amount |
| `Tables.TransactionInsertKeepsBalances` | index.js:132-139 | inserting a transaction at a fresh id and applying its signed amount and counter increment to its account keeps every balance and transaction counter right |
| `Tables.TransactionInsertKeepsOwners` | index.js:136-139 | updating an account's balance and counter without changing its owner leaves every user's number of accounts unchanged, so the user counters agree after the update exactly when they agreed before |
| `Tables.UntouchedAccountHoldsOpening` | index.js:136-139 | when the invariant holds, an account whose `transactions` counter is 0 holds exactly its opening amount |

## Left out

- HTTP routes, EJS rendering, form parsing, redirects and status codes (`index.js:164-318`): request and response plumbing around the procedure calls.
- The database connection, the shared global `connection`, `commit()` and startup sequencing: these are I/O. Each procedure call is modelled as one atomic step.
- `Promise.all` queries over the shared connection: concurrency is not modelled. Calls are sequential.
- Dropping the old tables and the `sqlcode <> -942` handler: setup only. The constructor starts from freshly created, empty tables.
- `creation_ts` timestamps: wall-clock values, omitted from the rows.
- Oracle `NUMBER` semantics: amounts, types and the `user_id`/`account_id` arguments are unbounded integers (a negative one is rejected by its foreign key), and stored ids are non-negative. Conversion of form strings and `NULL` inputs are not modelled. In particular, a `NULL` `user_id` or `account_id` would pass a foreign key in the database.
- `varchar2(256)` and `varchar2(512)` column widths: names and emails are unbounded strings. A value over the limit makes the procedure raise and change nothing, while the model inserts it. The limit counts bytes under Oracle's default `NLS_LENGTH_SEMANTICS`.
- Empty strings: Oracle stores an empty string in a `varchar2` column as `NULL`, so `insert_user`, `insert_account` and `insert_transaction` store a `NULL` name or email where the model keeps `""` (`Procedures.Bank.InsertUser`, `Procedures.Bank.InsertAccount`, `Procedures.Bank.InsertTransaction`).
- Procedures.Bank.InsertAccount: a rejected insert leaves the identity counter unchanged, while the database may already have consumed a sequence value. Only the freshness of ids is relied on.
- Procedures.Bank.InsertTransaction: same as `InsertAccount`: a rejected insert does not advance the identity counter in the model.
- The budget filter, CSV export, balance trigger on update and delete, and transaction-name formatting are not in `index.js`. They are not part of this model.
