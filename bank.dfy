/**
  The banking store and the request handlers of the Flask app, with the
  database replaced by three tables held as sequences. The model takes a
  row's auto-increment id to be its 1-based position: the tables start
  empty, the app never deletes a row, and the counter is assumed to hand out
  ids without gaps.

  Every handler takes `up`, whether the database could be reached and
  answered; when it is false the handler fails (`StorageError`, or
  `Unavailable` for the transactions listing) and the store is left as it
  was (nothing was committed).
 */
module Bank {
  import opened Options
  import opened Decimal
  import Email

  type UserId = nat
  type AccountId = nat

  datatype User = User(id: UserId, username: string, password: string, fullName: string, email: string)

  /** `balance` in cents. */
  datatype Account = Account(id: AccountId, userId: UserId, number: string, kind: string, balance: int)

  /** One row of the `transactions` table; `amount` in cents. */
  datatype Txn = Txn(accountId: AccountId, kind: string, amount: int, description: string)

  datatype Store = Store(users: seq<User>, accounts: seq<Account>, ledger: seq<Txn>)

  const Empty: Store := Store([], [], [])

  /** Why a request was refused; each handler flashes its own message for it. */
  datatype Error =
    | StorageError         // no connection, or a query raised
    // register
    | EmptyField
    | UsernameTooShort
    | PasswordTooShort
    | InvalidEmail
    | UsernameTaken
    | EmailTaken
    // perform_transaction
    | MissingFields
    | InvalidAmount        // `float(amount)` raised
    | NonPositiveAmount
    | NotFound             // no such account, or not the session user's
    | InsufficientFunds

  datatype Result<T> = Ok(value: T) | Err(error: Error)

  /** The new store and what the handler reports. */
  datatype Step<T> = Step(store: Store, result: Result<T>)

  // ---------------------------------------------------------------------
  // Registration

  /** The form checks of `register`, in the order it makes them. */
  function RegistrationError(username: string, password: string, fullName: string, email: string): (r: Option<Error>)
    ensures r == None <==>
      && username != [] && password != [] && fullName != [] && email != []
      && |username| >= 4 && |password| >= 6 && Email.EmailPattern(email)
    ensures (username == [] || password == [] || fullName == [] || email == []) ==> r == Some(EmptyField)
    ensures username != [] && password != [] && fullName != [] && email != [] ==>
      && (|username| < 4 ==> r == Some(UsernameTooShort))
      && (|username| >= 4 && |password| < 6 ==> r == Some(PasswordTooShort))
      && (|username| >= 4 && |password| >= 6 && !Email.EmailPattern(email) ==> r == Some(InvalidEmail))
  {
    Email.IsValidEmailMatchesPattern(email);
    if username == [] || password == [] || fullName == [] || email == [] then Some(EmptyField)
    else if |username| < 4 then Some(UsernameTooShort)
    else if |password| < 6 then Some(PasswordTooShort)
    else if !Email.IsValidEmail(email) then Some(InvalidEmail)
    else None
  }

  predicate UsernameInUse(users: seq<User>, username: string) {
    exists i :: 0 <= i < |users| && users[i].username == username
  }

  predicate EmailInUse(users: seq<User>, email: string) {
    exists i :: 0 <= i < |users| && users[i].email == email
  }

  /** `register`: on success the new user's id. */
  function Register(s: Store, username: string, password: string, fullName: string, email: string, up: bool): (r: Step<UserId>)
    ensures r.result.Err? ==> r.store == s
    ensures RegistrationError(username, password, fullName, email).Some? ==>
      r.result == Err(RegistrationError(username, password, fullName, email).value)
    ensures RegistrationError(username, password, fullName, email) == None && !up ==> r.result == Err(StorageError)
    ensures r.result.Ok? <==>
      && RegistrationError(username, password, fullName, email) == None
      && up && !UsernameInUse(s.users, username) && !EmailInUse(s.users, email)
    ensures r.result == Err(UsernameTaken) <==>
      RegistrationError(username, password, fullName, email) == None && up && UsernameInUse(s.users, username)
    ensures r.result == Err(EmailTaken) <==>
      && RegistrationError(username, password, fullName, email) == None && up
      && !UsernameInUse(s.users, username) && EmailInUse(s.users, email)
    ensures r.result.Ok? ==>
      && r.result.value == |s.users| + 1
      && r.store == s.(users := s.users + [User(|s.users| + 1, username, password, fullName, email)])
  {
    var fieldError := RegistrationError(username, password, fullName, email);
    if fieldError.Some? then Step(s, Err(fieldError.value))
    else if !up then Step(s, Err(StorageError))
    else if UsernameInUse(s.users, username) then Step(s, Err(UsernameTaken))
    else if EmailInUse(s.users, email) then Step(s, Err(EmailTaken))
    else
      var id := |s.users| + 1;
      Step(s.(users := s.users + [User(id, username, password, fullName, email)]), Ok(id))
  }

  // ---------------------------------------------------------------------
  // Accounts

  /** `request.form.get('account_type', 'Savings')`: `None` when the field is absent. */
  function AccountKind(field: Option<string>): string
  {
    match field
    case None => "Savings"
    case Some(k) => k
  }

  /** `create_account` for the session user: on success the new account number. */
  function CreateAccount(s: Store, user: UserId, kindField: Option<string>, up: bool): (r: Step<string>)
    ensures r.result.Err? ==> r.store == s && r.result.error == StorageError
    ensures r.result.Ok? <==> up
    ensures r.result.Ok? ==>
      && r.result.value == AccountNumber(|s.accounts|)
      && r.store.users == s.users && r.store.ledger == s.ledger
      && r.store.accounts == s.accounts + [Account(|s.accounts| + 1, user, r.result.value, AccountKind(kindField), 0)]
  {
    if !up then Step(s, Err(StorageError))
    else
      var number := AccountNumber(|s.accounts|);
      var account := Account(|s.accounts| + 1, user, number, AccountKind(kindField), 0);
      Step(s.(accounts := s.accounts + [account]), Ok(number))
  }

  predicate OwnedBy(a: Account, id: AccountId, user: UserId) {
    a.id == id && a.userId == user
  }

  /** `SELECT * FROM accounts WHERE id = %s AND user_id = %s`: the position of
      the first such row. */
  function FindAccount(accounts: seq<Account>, id: AccountId, user: UserId): (r: Option<nat>)
    ensures r.Some? ==> r.value < |accounts| && OwnedBy(accounts[r.value], id, user)
    ensures r.Some? ==> forall k :: 0 <= k < r.value ==> !OwnedBy(accounts[k], id, user)
    ensures r.None? ==> forall k :: 0 <= k < |accounts| ==> !OwnedBy(accounts[k], id, user)
  {
    if |accounts| == 0 then None
    else if OwnedBy(accounts[0], id, user) then Some(0)
    else match FindAccount(accounts[1..], id, user)
      case None => None
      case Some(j) => Some(j + 1)
  }

  /** The same lookup with the account id as the form sent it: text that is
      not a decimal number matches no row. */
  function FindOwned(accounts: seq<Account>, idText: string, user: UserId): (r: Option<nat>)
    ensures r.Some? ==> r.value < |accounts| && ParseNat(idText) == Some(accounts[r.value].id)
                        && accounts[r.value].userId == user
    ensures r.None? ==> ParseNat(idText).None?
                        || forall k :: 0 <= k < |accounts| ==> !OwnedBy(accounts[k], ParseNat(idText).value, user)
  {
    match ParseNat(idText)
    case None => None
    case Some(id) => FindAccount(accounts, id, user)
  }

  /** `SELECT * FROM accounts WHERE user_id = %s`: the user's rows, each as
      often as the table holds it, and no other row. The query has no
      `ORDER BY`, so the order of the rows is not part of the contract. */
  function OwnedAccounts(accounts: seq<Account>, user: UserId): (r: seq<Account>)
    ensures forall a :: multiset(r)[a] == if a.userId == user then multiset(accounts)[a] else 0
    ensures forall a :: a in r <==> a in accounts && a.userId == user
  {
    if |accounts| == 0 then []
    else
      var rest := OwnedAccounts(accounts[1..], user);
      assert accounts == [accounts[0]] + accounts[1..];
      if accounts[0].userId == user then [accounts[0]] + rest else rest
  }

  function SumBalances(accounts: seq<Account>): int {
    if |accounts| == 0 then 0 else accounts[0].balance + SumBalances(accounts[1..])
  }

  /** The dashboard's `total_balance`: the sum over the user's accounts, 0 when there are none. */
  function TotalBalance(accounts: seq<Account>, user: UserId): (total: int)
    ensures OwnedAccounts(accounts, user) == [] ==> total == 0
    ensures (forall k :: 0 <= k < |accounts| ==> accounts[k].balance >= 0) ==> total >= 0
  {
    NonNegativeSum(OwnedAccounts(accounts, user));
    SumBalances(OwnedAccounts(accounts, user))
  }

  lemma {:induction false} NonNegativeSum(accounts: seq<Account>)
    ensures (forall a :: a in accounts ==> a.balance >= 0) ==> SumBalances(accounts) >= 0
  {
    if |accounts| > 0 {
      NonNegativeSum(accounts[1..]);
      assert forall a :: a in accounts[1..] ==> a in accounts;
    }
  }

  // ---------------------------------------------------------------------
  // Transactions

  /** The `amount` form field: empty, not a number, or a number of cents. */
  datatype AmountField = Blank | Malformed | Cents(value: int)

  datatype TxnRequest = TxnRequest(accountId: string, kind: string, amount: AmountField, description: string)

  /** The checks made on the form before the database is touched. */
  function RequestError(req: TxnRequest): (r: Option<Error>)
    ensures r == None <==> req.accountId != [] && req.kind != [] && req.amount.Cents? && req.amount.value > 0
    ensures r == Some(MissingFields) <==> req.accountId == [] || req.kind == [] || req.amount.Blank?
    ensures req.accountId != [] && req.kind != [] ==>
      && (req.amount.Malformed? ==> r == Some(InvalidAmount))
      && (req.amount.Cents? && req.amount.value <= 0 ==> r == Some(NonPositiveAmount))
  {
    if req.accountId == [] || req.kind == [] || req.amount.Blank? then Some(MissingFields)
    else if req.amount.Malformed? then Some(InvalidAmount)
    else if req.amount.value <= 0 then Some(NonPositiveAmount)
    else None
  }

  /** The funds check fires for the type `withdraw` only. */
  predicate Overdraws(kind: string, balance: int, amount: int) {
    kind == "withdraw" && balance < amount
  }

  /** `deposit` adds; every other type, `withdraw` or not, subtracts. */
  function NewBalance(balance: int, kind: string, amount: int): int
  {
    if kind == "deposit" then balance + amount else balance - amount
  }

  /** `perform_transaction` for the session user: on success the new balance. */
  function Transact(s: Store, user: UserId, req: TxnRequest, up: bool): (r: Step<int>)
    ensures r.result.Err? ==> r.store == s
    ensures RequestError(req).Some? ==> r.result == Err(RequestError(req).value)
    ensures RequestError(req) == None && !up ==> r.result == Err(StorageError)
    ensures r.result == Err(NotFound) <==>
      RequestError(req) == None && up && FindOwned(s.accounts, req.accountId, user).None?
    ensures r.result == Err(InsufficientFunds) <==>
      && RequestError(req) == None && up && FindOwned(s.accounts, req.accountId, user).Some?
      && Overdraws(req.kind, s.accounts[FindOwned(s.accounts, req.accountId, user).value].balance, req.amount.value)
    ensures r.result.Ok? <==>
      && RequestError(req) == None && up && FindOwned(s.accounts, req.accountId, user).Some?
      && !Overdraws(req.kind, s.accounts[FindOwned(s.accounts, req.accountId, user).value].balance, req.amount.value)
    ensures r.result.Ok? ==>
      && RequestError(req) == None && up
      && var i := FindOwned(s.accounts, req.accountId, user).value;
      && var acct := s.accounts[i];
      && !Overdraws(req.kind, acct.balance, req.amount.value)
      && r.result.value == NewBalance(acct.balance, req.kind, req.amount.value)
      && r.store.users == s.users
      && r.store.accounts == s.accounts[i := acct.(balance := r.result.value)]
      && r.store.ledger == s.ledger + [Txn(acct.id, req.kind, req.amount.value, req.description)]
  {
    if RequestError(req).Some? then Step(s, Err(RequestError(req).value))
    else if !up then Step(s, Err(StorageError))
    else match FindOwned(s.accounts, req.accountId, user)
      case None => Step(s, Err(NotFound))
      case Some(i) =>
        var account := s.accounts[i];
        var amount := req.amount.value;
        if Overdraws(req.kind, account.balance, amount) then Step(s, Err(InsufficientFunds))
        else
          var balance := NewBalance(account.balance, req.kind, amount);
          Step(Store(s.users,
                     s.accounts[i := account.(balance := balance)],
                     s.ledger + [Txn(account.id, req.kind, amount, req.description)]),
               Ok(balance))
  }

  // ---------------------------------------------------------------------
  // Transaction history

  /** The signed effect of one record on its account's balance, as computed in
      `perform_transaction`. */
  function Signed(t: Txn): int {
    if t.kind == "deposit" then t.amount else -t.amount
  }

  /** The signed sum of the amounts recorded for account `id`. */
  function SignedSum(ledger: seq<Txn>, id: AccountId): int {
    if |ledger| == 0 then 0
    else SignedSum(ledger[..|ledger| - 1], id) + (if ledger[|ledger| - 1].accountId == id then Signed(ledger[|ledger| - 1]) else 0)
  }

  /** The ledger positions of account `id`'s records, latest first: each
      matching position exactly once, in decreasing order. */
  function MatchingPositions(ledger: seq<Txn>, id: AccountId): (ps: seq<nat>)
    ensures forall k :: 0 <= k < |ps| ==> ps[k] < |ledger| && ledger[ps[k]].accountId == id
    ensures forall k, l :: 0 <= k < l < |ps| ==> ps[k] > ps[l]
    ensures forall p :: 0 <= p < |ledger| && ledger[p].accountId == id ==> p in ps
  {
    if |ledger| == 0 then []
    else
      var n := |ledger| - 1;
      var rest := MatchingPositions(ledger[..n], id);
      if ledger[n].accountId == id then [n] + rest else rest
  }

  /** `SELECT * FROM transactions WHERE account_id = %s ORDER BY transaction_date DESC`:
      the account's records, latest first. Records are appended as they are
      made, so the latest is the one at the highest position. */
  function History(ledger: seq<Txn>, id: AccountId): (r: seq<Txn>)
    ensures |r| == |MatchingPositions(ledger, id)|
    ensures forall k :: 0 <= k < |r| ==> r[k] == ledger[MatchingPositions(ledger, id)[k]]
    ensures forall t :: t in r <==> t in ledger && t.accountId == id
  {
    if |ledger| == 0 then []
    else
      var last := ledger[|ledger| - 1];
      var rest := History(ledger[..|ledger| - 1], id);
      assert forall t :: t in ledger <==> t in ledger[..|ledger| - 1] || t == last by {
        assert ledger == ledger[..|ledger| - 1] + [last];
      }
      if last.accountId == id then [last] + rest else rest
  }

  function ListedTotal(records: seq<Txn>): int {
    if |records| == 0 then 0 else Signed(records[0]) + ListedTotal(records[1..])
  }

  /** What the transactions page shows below the account picker. */
  datatype Listing = NoSelection | Unavailable | Denied | Shown(records: seq<Txn>)

  /** The ownership check of the `transactions` page. */
  function ListTransactions(s: Store, user: UserId, idText: string, up: bool): (r: Listing)
    ensures !up ==> r == Unavailable
    ensures up && idText == [] ==> r == NoSelection
    ensures r.Shown? <==> up && idText != [] && FindOwned(s.accounts, idText, user).Some?
    ensures r == Denied <==> up && idText != [] && FindOwned(s.accounts, idText, user).None?
    ensures r.Shown? ==> r.records == History(s.ledger, ParseNat(idText).value)
  {
    if !up then Unavailable
    else if idText == [] then NoSelection
    else match FindOwned(s.accounts, idText, user)
      case None => Denied
      case Some(i) => Shown(History(s.ledger, s.accounts[i].id))
  }
}
