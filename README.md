# Banking demo: store, registration, accounts and transactions

A Dafny model of the request handlers of a small Flask banking app
(`app.py`): user registration with its form checks and e-mail pattern,
account creation with generated account numbers, deposits and withdrawals
that update a balance and append a ledger record, the dashboard's total
balance, and the ownership check of the transactions page.

The MySQL database is replaced by a store of three tables held as
sequences: `users`, `accounts` and the ledger (`transactions`). The model
takes a row's auto-increment id to be its 1-based position: the tables start
empty, the app never deletes a row, and the counter is assumed to hand out
ids without gaps (see "Left out"). Amounts and balances are integers (cents).
Whether the database could be reached and answered is a parameter `up` of
every handler; when it is false the handler fails (`StorageError`, or
`Unavailable` for the transactions listing) and nothing is committed.

Files:

- `decimal.dfy` (module `Decimal`): `str(n)` for naturals, its inverse, and
  the account-number format `ACC{10000 + count + 1}`.
- `email.dfy` (module `Email`): the registration e-mail pattern, both as a
  split of the text (`EmailPattern`) and as a decision procedure
  (`IsValidEmail`), proved equal.
- `option.dfy` (module `Options`): the optional value used for absent form
  fields and failed lookups.
- `bank.dfy` (module `Bank`): the store and the handlers as functions; the
  three state-changing handlers map the old store to the new store and the
  reported result, the transactions listing maps a store to what the page
  shows.
- `bank_invariants.dfy` (module `BankInvariants`): the store invariant
  (ids, unique usernames, e-mails and account numbers, every balance equal to
  the signed sum of its account's ledger records), its preservation by every
  handler and by any sequence of requests, the non-negative balance property
  and the dashboard total.
- `bank_db.dfy` (module `BankDb`): class `Database`, the three tables as
  fields that the handler methods update in place, each proved to produce
  exactly the store and result of the matching `Bank` function.

The transaction handler checks funds only when the type is exactly
`withdraw`, but subtracts for every type other than `deposit`. A request
with any other type (say `transfer`) therefore skips the funds check and
still debits the account. The model keeps this behaviour:
`BankInvariants.UnknownKindOverdraws` exhibits a balance of 0 taken to
-500, and `BankInvariants.TransactKeepsNonNegative` proves balances stay
non-negative for the types `deposit` and `withdraw`. Since the handler
accepts any type string, that is as far as the non-negative balance goes.
The ledger invariant holds for every type, because the ledger's sign
rule (`Bank.Signed`) is the handler's own (`deposit` adds, anything else
subtracts).

## Model

| member | source | states |
|---|---|---|
| `Decimal.NatToString` | app.py:238 | `str(n)`: non-empty, all decimal digits, no leading zero |
| `Decimal.ParseNat` | app.py:355-357 | form text names a numeric id exactly when it is a non-empty run of decimal digits |
| `Decimal.ParseNatToString` | app.py:238 | reading back `str(n)` gives `n` |
| `Decimal.NatToStringInjective` | app.py:238 | different numbers print differently |
| `Decimal.AccountNumber` | app.py:234-238 | the number starts with `ACC` and the rest reads back as `10000 + count + 1` and has no leading zero, which fixes the text exactly |
| `Decimal.AccountNumberInjective` | app.py:235-238 | different account counts give different account numbers |
| `Email.IndexOf` | app.py:14 | the first `@` (or the length when there is none), with no `@` before it |
| `Email.LastIndexOf` | app.py:14 | the last `.` (or -1), with no `.` after it |
| `Email.IsValidEmailMatchesPattern` | app.py:13-15 | the decision procedure accepts exactly the texts the pattern `^[a-zA-Z0-9._%+-]+@[a-zA-Z0-9.-]+\.[a-zA-Z]{2,}$` matches |
| `Email.ValidEmailSplits` | app.py:14 | an accepted text splits into local part, `@`, domain, `.`, two or more letters |
| `Email.SplitIsValidEmail` | app.py:14 | every split the pattern allows is accepted |
| `Email.IsValidEmail` | app.py:13-15 | `is_valid_email`; its meaning is stated by `Email.IsValidEmailMatchesPattern` |
| `Bank.RegistrationError` | app.py:31-46 | no error exactly when no field is empty, username has 4+ characters, password 6+, and the e-mail matches the pattern; otherwise the first failing check in the handler's order: empty field, short username, short password, invalid e-mail |
| `Bank.Register` | app.py:24-89 | any failure leaves the store unchanged; a form error is reported as found, before the database is consulted; with the form valid and no database, `StorageError`; success exactly when the form checks pass, the database answers and neither the username nor the e-mail is in use; username clash reported before e-mail clash; success appends exactly one user with the next id |
| `Bank.UsernameInUse` | app.py:59-62 | some user has that username; `Bank.Register` reports `UsernameTaken` exactly when it holds |
| `Bank.EmailInUse` | app.py:65-68 | some user has that e-mail; `Bank.Register` reports `EmailTaken` exactly when it holds and the username is free |
| `Bank.CreateAccount` | app.py:217-257 | fails only without the database, then changes nothing; otherwise appends one account of the session user with balance 0, type defaulting to `Savings`, numbered from the count of all accounts; users and ledger untouched |
| `Bank.AccountKind` | app.py:222 | the form's account type, `Savings` when absent; `Bank.CreateAccount` stores it in the new row |
| `Bank.FindAccount` | app.py:354-359 | the first row with that id and the session user as owner, or none when no row has both |
| `Bank.FindOwned` | app.py:354-363 | a found row has the id the form text reads as and belongs to the session user; none found means the text is not a number or no such owned row exists |
| `Bank.OwnedAccounts` | app.py:156-161 | every account of the user, as many times as the table holds it, and no other account |
| `Bank.TotalBalance` | app.py:163-164 | 0 when the user has no accounts; non-negative when every balance is |
| `Bank.RequestError` | app.py:330-342 | no error exactly when account id, type and amount are present and the amount is a positive number; missing fields are reported first, then an amount that does not parse, then one that is not positive |
| `Bank.Overdraws` | app.py:366 | the funds check fires only for `withdraw` above the balance; `Bank.Transact` reports `InsufficientFunds` exactly when it holds |
| `Bank.NewBalance` | app.py:371 | `deposit` adds, any other type subtracts; `Bank.Transact` stores it as the account's new balance |
| `Bank.Transact` | app.py:320-394 | every failure leaves the store unchanged; form errors come before any lookup; with valid form and no database, `StorageError`; `NotFound` exactly when no account with that id belongs to the user; `InsufficientFunds` exactly for a `withdraw` above the balance; success exactly when the form is valid, the database answers, the account is the user's and the funds check passes; success changes only that account's balance (plus for `deposit`, minus otherwise) and appends exactly one record `(account, type, amount, description)` |
| `Bank.MatchingPositions` | app.py:295-300 | the ledger positions of that account's records, each once, in decreasing order |
| `Bank.History` | app.py:295-300 | the ledger's records of that account, each once, newest (last appended) first, and no other record |
| `Bank.ListTransactions` | app.py:260-316 | without the database, nothing to show; with no account chosen, no selection; records are shown exactly when the account id names an account of the session user, and they are that account's history; a non-owned or unknown id is denied |
| `BankInvariants.SignedSumSnoc` | app.py:378-381 | appending a record moves its account's signed sum by its signed amount and no other account's |
| `BankInvariants.SignedSumConcat` | app.py:378-381 | the signed sum of a ledger is the sum over its parts |
| `BankInvariants.SignedSumUnused` | app.py:241-243 | an account no record names has signed sum 0 |
| `BankInvariants.HistorySumsToSignedSum` | app.py:295-300 | the listed records of an account add up to its signed sum |
| `BankInvariants.AccountNumbersDistinct` | app.py:235-243 | in a valid store no two accounts share a number |
| `BankInvariants.FindOwnedIsRow` | app.py:354-359 | in a valid store the lookup finds row `id - 1` exactly when it belongs to the session user |
| `BankInvariants.ListingMatchesBalance` | app.py:286-300 | for an owned account the listed records add up to the account's balance |
| `BankInvariants.RegisterPreservesValid` | app.py:58-75 | registration keeps ids, unique usernames and unique e-mails |
| `BankInvariants.CreateAccountPreservesValid` | app.py:234-245 | account creation keeps unique numbers and a balance equal to the (empty) signed sum |
| `BankInvariants.TransactPreservesValid` | app.py:370-383 | a transaction keeps every balance equal to its account's signed ledger sum |
| `BankInvariants.TransactKeepsNonNegative` | app.py:365-371 | for the types `deposit` and `withdraw`, non-negative balances stay non-negative |
| `BankInvariants.UnknownKindOverdraws` | app.py:366-371 | a `transfer` of 500 cents from a balance of 0 completes and leaves -500 |
| `BankInvariants.TotalAfterUpdate` | app.py:164 | changing one balance moves its owner's total by the difference and no other user's |
| `BankInvariants.TransactShiftsTotal` | app.py:164 | a completed transaction moves the user's total by the signed amount and leaves every other user's total alone |
| `BankInvariants.TotalAfterAppend` | app.py:164 | a new account adds its balance to its owner's total only |
| `BankInvariants.CreateAccountKeepsTotals` | app.py:164 | creating an account changes no user's total |
| `BankInvariants.HandlePreservesValid` | app.py:24-394 | every handler keeps the store invariant |
| `BankInvariants.RunPreservesValid` | app.py:24-394 | any sequence of requests keeps the store invariant |
| `BankInvariants.FromEmpty` | app.py:24-394 | from empty tables, after any requests, each balance is its signed ledger sum and usernames, e-mails and account numbers are unique |
| `BankInvariants.RunGrows` | app.py:24-394 | requests only add accounts and only append to the ledger |
| `BankInvariants.BalanceDelta` | app.py:370-383 | between two valid stores with a common ledger prefix, each balance moved by the signed sum of the appended records |
| `BankInvariants.RunBalanceDelta` | app.py:370-383 | after any requests, each existing balance minus its earlier value is the signed sum of the records appended for it |
| `BankInvariants.RunKeepsNonNegative` | app.py:365-371 | requests whose transactions are all `deposit` or `withdraw` keep every balance non-negative |
| `BankDb.Database.Register` | app.py:24-89 | the in-place insert leaves the tables and reports the result exactly as `Bank.Register`, and keeps the invariant |
| `BankDb.Database.CreateAccount` | app.py:217-257 | the in-place insert leaves the tables and reports the result exactly as `Bank.CreateAccount`, and keeps the invariant |
| `BankDb.Database.PerformTransaction` | app.py:320-394 | the UPDATE of the balance and the INSERT of the record leave the tables and report the result exactly as `Bank.Transact`, and keep the invariant |

## Left out

- Flask routing, templates, `flash`, `redirect`, the 404/500 handlers, the
  home page and logout: presentation only. Flash messages become `Error`
  values.
- The "please login" redirect of every handler: the session user id is a
  parameter; the model starts from a logged-in user.
- The login handler (`SELECT ... WHERE username AND password`) and the
  accounts page listing: single queries with no logic; `Bank.OwnedAccounts`
  models the accounts query the dashboard and the transactions page share.
- `database.py` and connection handling: a connection failure or a query
  error is the parameter `up`; either way nothing is committed and the
  handler reports `StorageError` (the listing shows `Unavailable`). Where in the handler a query fails is not
  modelled, since the outcome is the same.
- `float(amount)` parsing and floating-point arithmetic: the amount field
  is `Blank`, `Malformed` (the parse raised) or a number of cents, and
  balances are exact integers. Texts such as `nan` or `inf`, which `float`
  accepts, are not modelled.
- The mixing of a `Decimal` balance from the driver with a `float` amount:
  if the balance column is `DECIMAL`, Python raises `TypeError` on their
  sum; the model assumes the arithmetic succeeds.
- The opening balance of a new account comes from the column default; the
  schema is not part of this model, and the model takes 0.
- MySQL's comparison rules: a numeric id compared with text such as `5abc`
  or ` 5`, and case- or trailing-space-insensitive collation in the username
  and e-mail queries. The model compares exact digit strings and exact
  strings.
- Gaps in auto-increment ids: InnoDB consumes an id for an INSERT that is
  later rolled back (the error paths at app.py:80, app.py:249 and
  app.py:386), so real ids can skip values. The model assumes gap-free ids;
  the ids returned by `Bank.Register` and `Bank.CreateAccount`, the
  `id == position + 1` part of `BankInvariants.Valid`, and
  `BankInvariants.FindOwnedIsRow` and `BankInvariants.ListingMatchesBalance`
  rest on that assumption.
- The order of the accounts query: it has no `ORDER BY`, so
  `Bank.OwnedAccounts` promises the rows and their multiplicities, not
  their order.
- The database's own constraints (primary and unique keys) are not part of
  this model; uniqueness is proved from the handlers' checks instead.
- Transaction timestamps and generated transaction ids. The history is
  listed newest first as reverse insertion order; MySQL may order records
  with the same timestamp differently.
- `.strip()` on form fields: inputs are taken as already trimmed (so the
  `$` of the e-mail pattern, which also matches before a final newline,
  needs no special case).
- `secrets.token_hex` key generation, and cleartext password storage
  (kept as is in `User`).
- Concurrency: the handlers run one request at a time; the race between
  the balance read and write under concurrent requests is not modelled.
