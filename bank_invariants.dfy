/**
  What the handlers keep true of the store: ids follow row positions,
  usernames and e-mails are unique, account numbers are unique, every ledger
  record names an existing account, and every balance is the signed sum of
  its account's records. Also the non-negative balance guarantee, which holds
  only for the types `deposit` and `withdraw`, and the dashboard total.
 */
module BankInvariants {
  import opened Options
  import opened Decimal
  import opened Bank

  ghost predicate Valid(s: Store) {
    && (forall i :: 0 <= i < |s.users| ==> s.users[i].id == i + 1)
    && (forall i, j :: 0 <= i < j < |s.users| ==>
          s.users[i].username != s.users[j].username && s.users[i].email != s.users[j].email)
    && (forall i :: 0 <= i < |s.accounts| ==>
          s.accounts[i].id == i + 1 && s.accounts[i].number == AccountNumber(i))
    && (forall t :: t in s.ledger ==> 1 <= t.accountId <= |s.accounts|)
    && (forall i :: 0 <= i < |s.accounts| ==> s.accounts[i].balance == SignedSum(s.ledger, i + 1))
  }

  /** No balance is below zero. */
  ghost predicate NonNegative(s: Store) {
    forall i :: 0 <= i < |s.accounts| ==> s.accounts[i].balance >= 0
  }

  // ---------------------------------------------------------------------
  // Signed sums of the ledger

  lemma SignedSumSnoc(ledger: seq<Txn>, t: Txn, id: AccountId)
    ensures SignedSum(ledger + [t], id) == SignedSum(ledger, id) + (if t.accountId == id then Signed(t) else 0)
  {
    assert (ledger + [t])[..|ledger|] == ledger;
  }

  lemma {:induction false} SignedSumConcat(a: seq<Txn>, b: seq<Txn>, id: AccountId)
    ensures SignedSum(a + b, id) == SignedSum(a, id) + SignedSum(b, id)
  {
    if |b| > 0 {
      var b' := b[..|b| - 1];
      SignedSumConcat(a, b', id);
      assert a + b == (a + b') + [b[|b| - 1]];
      assert b == b' + [b[|b| - 1]];
      SignedSumSnoc(a + b', b[|b| - 1], id);
      SignedSumSnoc(b', b[|b| - 1], id);
    } else {
      assert a + b == a;
    }
  }

  /** An account no record names has a signed sum of zero. */
  lemma {:induction false} SignedSumUnused(ledger: seq<Txn>, id: AccountId)
    requires forall t :: t in ledger ==> t.accountId != id
    ensures SignedSum(ledger, id) == 0
  {
    if |ledger| > 0 {
      var prefix := ledger[..|ledger| - 1];
      assert forall t :: t in prefix ==> t in ledger;
      SignedSumUnused(prefix, id);
      assert ledger[|ledger| - 1] in ledger;
    }
  }

  /** The records the transactions page lists for an account add up to the
      signed sum that account's balance is kept equal to. */
  lemma {:induction false} HistorySumsToSignedSum(ledger: seq<Txn>, id: AccountId)
    ensures ListedTotal(History(ledger, id)) == SignedSum(ledger, id)
  {
    if |ledger| > 0 {
      var last := ledger[|ledger| - 1];
      HistorySumsToSignedSum(ledger[..|ledger| - 1], id);
      if last.accountId == id {
        var h := [last] + History(ledger[..|ledger| - 1], id);
        assert h[1..] == History(ledger[..|ledger| - 1], id);
      }
    }
  }

  // ---------------------------------------------------------------------
  // Uniqueness and lookups under the invariant

  /** Account numbers never repeat. */
  lemma AccountNumbersDistinct(s: Store, i: nat, j: nat)
    requires Valid(s)
    requires i < j < |s.accounts|
    ensures s.accounts[i].number != s.accounts[j].number
  {
    AccountNumberInjective(i, j);
  }

  /** With ids following positions, the ownership lookup finds row `id - 1`
      exactly when that row belongs to the session user. */
  lemma FindOwnedIsRow(s: Store, idText: string, user: UserId, i: nat)
    requires Valid(s)
    requires i < |s.accounts|
    ensures FindOwned(s.accounts, idText, user) == Some(i) <==>
            ParseNat(idText) == Some(i + 1) && s.accounts[i].userId == user
  {
    if ParseNat(idText) == Some(i + 1) && s.accounts[i].userId == user {
      var r := FindOwned(s.accounts, idText, user);
      assert OwnedBy(s.accounts[i], i + 1, user);
      assert r.Some?;
      assert s.accounts[r.value].id == i + 1;
    }
  }

  /** For an account of the session user the transactions page lists records
      whose signed sum is the account's balance. */
  lemma ListingMatchesBalance(s: Store, user: UserId, idText: string, i: nat)
    requires Valid(s)
    requires i < |s.accounts| && ParseNat(idText) == Some(i + 1) && s.accounts[i].userId == user
    ensures ListTransactions(s, user, idText, true) == Shown(History(s.ledger, i + 1))
    ensures ListedTotal(ListTransactions(s, user, idText, true).records) == s.accounts[i].balance
  {
    FindOwnedIsRow(s, idText, user, i);
    assert FindOwned(s.accounts, idText, user) == Some(i);
    assert s.accounts[i].id == i + 1;
    HistorySumsToSignedSum(s.ledger, i + 1);
  }

  // ---------------------------------------------------------------------
  // Each handler keeps the invariant

  lemma RegisterPreservesValid(s: Store, username: string, password: string, fullName: string, email: string, up: bool)
    requires Valid(s)
    ensures Valid(Register(s, username, password, fullName, email, up).store)
  {
    var r := Register(s, username, password, fullName, email, up);
    if r.result.Ok? {
      var users := r.store.users;
      forall i, j | 0 <= i < j < |users|
        ensures users[i].username != users[j].username && users[i].email != users[j].email
      {
        if j == |s.users| {
          assert users[i] == s.users[i];
        }
      }
    }
  }

  lemma CreateAccountPreservesValid(s: Store, user: UserId, kindField: Option<string>, up: bool)
    requires Valid(s)
    ensures Valid(CreateAccount(s, user, kindField, up).store)
  {
    var r := CreateAccount(s, user, kindField, up);
    if r.result.Ok? {
      var n := |s.accounts|;
      SignedSumUnused(s.ledger, n + 1);
      assert forall i :: 0 <= i < n ==> r.store.accounts[i] == s.accounts[i];
    }
  }

  lemma TransactPreservesValid(s: Store, user: UserId, req: TxnRequest, up: bool)
    requires Valid(s)
    ensures Valid(Transact(s, user, req, up).store)
  {
    var r := Transact(s, user, req, up);
    if r.result.Ok? {
      var i := FindOwned(s.accounts, req.accountId, user).value;
      var a := s.accounts[i];
      var t := Txn(a.id, req.kind, req.amount.value, req.description);
      var b := r.result.value;
      assert b == a.balance + Signed(t);
      assert a.id == i + 1;
      assert r.store.accounts == s.accounts[i := a.(balance := b)];
      assert r.store.ledger == s.ledger + [t];
      forall j | 0 <= j < |r.store.accounts|
        ensures r.store.accounts[j].balance == SignedSum(r.store.ledger, j + 1)
      {
        SignedSumSnoc(s.ledger, t, j + 1);
        if j != i {
          assert r.store.accounts[j] == s.accounts[j];
        }
      }
      assert forall t' :: t' in r.store.ledger ==> t' in s.ledger || t' == t;
    }
  }

  // ---------------------------------------------------------------------
  // Non-negative balances

  /** Restricted to the types `deposit` and `withdraw`, a transaction never
      takes a balance below zero. */
  lemma TransactKeepsNonNegative(s: Store, user: UserId, req: TxnRequest, up: bool)
    requires NonNegative(s)
    requires req.kind == "deposit" || req.kind == "withdraw"
    ensures NonNegative(Transact(s, user, req, up).store)
  {
  }

  /** Any other type skips the funds check and still debits: with balance 0,
      a `transfer` of 500 cents completes and leaves -500. */
  lemma UnknownKindOverdraws()
    ensures var s := Store([], [Account(1, 7, AccountNumber(0), "Savings", 0)], []);
            var r := Transact(s, 7, TxnRequest("1", "transfer", Cents(500), ""), true);
            NonNegative(s) && r.result == Ok(-500) && !NonNegative(r.store)
  {
    var s := Store([], [Account(1, 7, AccountNumber(0), "Savings", 0)], []);
    assert DigitsValue("1") == 1 by { assert "1"[..0] == []; }
    assert ParseNat("1") == Some(1);
    assert FindOwned(s.accounts, "1", 7) == Some(0);
    var req := TxnRequest("1", "transfer", Cents(500), "");
    assert RequestError(req) == None;
    assert !Overdraws("transfer", 0, 500);
    assert NewBalance(0, "transfer", 500) == -500;
    var r := Transact(s, 7, req, true);
    assert r.result == Ok(-500);
    assert r.store.accounts[0].balance == -500;
  }

  // ---------------------------------------------------------------------
  // Dashboard total

  lemma {:induction false} TotalAfterUpdate(accounts: seq<Account>, i: nat, balance: int, user: UserId)
    requires i < |accounts|
    ensures TotalBalance(accounts[i := accounts[i].(balance := balance)], user)
         == TotalBalance(accounts, user)
            + (if accounts[i].userId == user then balance - accounts[i].balance else 0)
  {
    var updated := accounts[i := accounts[i].(balance := balance)];
    if i > 0 {
      assert updated[1..] == accounts[1..][i - 1 := accounts[i].(balance := balance)];
      TotalAfterUpdate(accounts[1..], i - 1, balance, user);
    } else {
      assert updated[1..] == accounts[1..];
    }
  }

  /** A completed transaction moves the session user's total by the signed
      amount and leaves every other user's total as it was. */
  lemma TransactShiftsTotal(s: Store, user: UserId, req: TxnRequest, up: bool, other: UserId)
    requires Transact(s, user, req, up).result.Ok?
    ensures TotalBalance(Transact(s, user, req, up).store.accounts, user)
         == TotalBalance(s.accounts, user) + (if req.kind == "deposit" then req.amount.value else -req.amount.value)
    ensures other != user ==>
            TotalBalance(Transact(s, user, req, up).store.accounts, other) == TotalBalance(s.accounts, other)
  {
    var i := FindOwned(s.accounts, req.accountId, user).value;
    var b := Transact(s, user, req, up).result.value;
    TotalAfterUpdate(s.accounts, i, b, user);
    TotalAfterUpdate(s.accounts, i, b, other);
  }

  lemma {:induction false} TotalAfterAppend(accounts: seq<Account>, a: Account, user: UserId)
    ensures TotalBalance(accounts + [a], user)
         == TotalBalance(accounts, user) + (if a.userId == user then a.balance else 0)
  {
    if |accounts| > 0 {
      assert (accounts + [a])[1..] == accounts[1..] + [a];
      TotalAfterAppend(accounts[1..], a, user);
    } else {
      assert OwnedAccounts([a], user) == if a.userId == user then [a] + OwnedAccounts([], user) else OwnedAccounts([], user);
    }
  }

  /** A new account opens at zero, so no user's total changes. */
  lemma CreateAccountKeepsTotals(s: Store, user: UserId, kindField: Option<string>, up: bool, anyone: UserId)
    ensures TotalBalance(CreateAccount(s, user, kindField, up).store.accounts, anyone) == TotalBalance(s.accounts, anyone)
  {
    var r := CreateAccount(s, user, kindField, up);
    if r.result.Ok? {
      TotalAfterAppend(s.accounts, r.store.accounts[|s.accounts|], anyone);
      assert r.store.accounts == s.accounts + [r.store.accounts[|s.accounts|]];
    }
  }

  // ---------------------------------------------------------------------
  // Any sequence of requests

  /** One request to the app, with whether the database answered it. */
  datatype Request =
    | RegisterUser(username: string, password: string, fullName: string, email: string, up: bool)
    | OpenAccount(user: UserId, kindField: Option<string>, up: bool)
    | Perform(user: UserId, req: TxnRequest, up: bool)

  function Handle(s: Store, q: Request): Store {
    match q
    case RegisterUser(u, p, f, e, up) => Register(s, u, p, f, e, up).store
    case OpenAccount(user, k, up) => CreateAccount(s, user, k, up).store
    case Perform(user, req, up) => Transact(s, user, req, up).store
  }

  function Run(s: Store, qs: seq<Request>): Store
    decreases |qs|
  {
    if |qs| == 0 then s else Run(Handle(s, qs[0]), qs[1..])
  }

  predicate OnlyDepositsAndWithdrawals(qs: seq<Request>) {
    forall k :: 0 <= k < |qs| && qs[k].Perform? ==> qs[k].req.kind in {"deposit", "withdraw"}
  }

  lemma HandlePreservesValid(s: Store, q: Request)
    requires Valid(s)
    ensures Valid(Handle(s, q))
  {
    match q
    case RegisterUser(u, p, f, e, up) => RegisterPreservesValid(s, u, p, f, e, up);
    case OpenAccount(user, k, up) => CreateAccountPreservesValid(s, user, k, up);
    case Perform(user, req, up) => TransactPreservesValid(s, user, req, up);
  }

  lemma {:induction false} RunPreservesValid(s: Store, qs: seq<Request>)
    requires Valid(s)
    ensures Valid(Run(s, qs))
    decreases |qs|
  {
    if |qs| > 0 {
      HandlePreservesValid(s, qs[0]);
      RunPreservesValid(Handle(s, qs[0]), qs[1..]);
    }
  }

  /** From the empty database, after any requests, every balance is the
      signed sum of its account's records and no username, e-mail or account
      number is used twice. */
  lemma FromEmpty(qs: seq<Request>)
    ensures Valid(Run(Empty, qs))
  {
    RunPreservesValid(Empty, qs);
  }

  /** Requests only append to the ledger and only add accounts; each existing
      balance moves by the signed sum of the records appended for it. */
  lemma {:induction false} RunBalanceDelta(s: Store, qs: seq<Request>)
    requires Valid(s)
    ensures |s.accounts| <= |Run(s, qs).accounts|
    ensures s.ledger <= Run(s, qs).ledger
    ensures forall i :: 0 <= i < |s.accounts| ==>
      Run(s, qs).accounts[i].balance - s.accounts[i].balance
        == SignedSum(Run(s, qs).ledger[|s.ledger|..], i + 1)
  {
    RunGrows(s, qs);
    RunPreservesValid(s, qs);
    BalanceDelta(s, Run(s, qs));
  }

  lemma BalanceDelta(s: Store, s': Store)
    requires Valid(s) && Valid(s')
    requires |s.accounts| <= |s'.accounts| && s.ledger <= s'.ledger
    ensures forall i :: 0 <= i < |s.accounts| ==>
      s'.accounts[i].balance - s.accounts[i].balance == SignedSum(s'.ledger[|s.ledger|..], i + 1)
  {
    var added := s'.ledger[|s.ledger|..];
    assert s'.ledger == s.ledger + added;
    forall i | 0 <= i < |s.accounts|
      ensures s'.accounts[i].balance - s.accounts[i].balance == SignedSum(added, i + 1)
    {
      SignedSumConcat(s.ledger, added, i + 1);
    }
  }

  lemma {:induction false} RunGrows(s: Store, qs: seq<Request>)
    ensures |s.accounts| <= |Run(s, qs).accounts|
    ensures s.ledger <= Run(s, qs).ledger
    decreases |qs|
  {
    if |qs| > 0 {
      RunGrows(Handle(s, qs[0]), qs[1..]);
    }
  }

  lemma {:induction false} RunKeepsNonNegative(s: Store, qs: seq<Request>)
    requires NonNegative(s)
    requires OnlyDepositsAndWithdrawals(qs)
    ensures NonNegative(Run(s, qs))
    decreases |qs|
  {
    if |qs| > 0 {
      var s1 := Handle(s, qs[0]);
      match qs[0] {
        case RegisterUser(u, p, f, e, up) =>
        case OpenAccount(user, k, up) =>
        case Perform(user, req, up) =>
          TransactKeepsNonNegative(s, user, req, up);
      }
      assert OnlyDepositsAndWithdrawals(qs[1..]) by {
        forall k | 0 <= k < |qs[1..]| && qs[1..][k].Perform? ensures qs[1..][k].req.kind in {"deposit", "withdraw"} {
          assert qs[1..][k] == qs[k + 1];
        }
      }
      RunKeepsNonNegative(s1, qs[1..]);
    }
  }
}
