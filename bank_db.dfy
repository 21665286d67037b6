/**
  The handlers as the app runs them: against one database whose three tables
  they update in place, a statement at a time, committing at the end. Each
  method is proved to leave the tables exactly as the matching function of
  module `Bank` says, so every lemma of `BankInvariants` applies to it.
 */
module BankDb {
  import opened Options
  import opened Decimal
  import opened Bank
  import BankInvariants

  /** `Valid()` is the store invariant of `BankInvariants`, offered to
      clients of the class: no method needs it, every method works from any
      state and keeps it when it held before. */
  class Database {
    var users: seq<User>
    var accounts: seq<Account>
    var ledger: seq<Txn>

    function Snapshot(): Store
      reads this
    {
      Store(users, accounts, ledger)
    }

    ghost predicate Valid()
      reads this
    {
      BankInvariants.Valid(Snapshot())
    }

    /** A freshly created schema: all three tables empty. */
    constructor ()
      ensures Snapshot() == Empty && Valid()
    {
      users, accounts, ledger := [], [], [];
    }

    /** `register`: the form checks, the two uniqueness queries, then one INSERT. */
    method Register(username: string, password: string, fullName: string, email: string, up: bool)
      returns (r: Result<UserId>)
      modifies this
      ensures Step(Snapshot(), r) == Bank.Register(old(Snapshot()), username, password, fullName, email, up)
      ensures old(Valid()) ==> Valid()
    {
      ghost var before := Snapshot();
      if BankInvariants.Valid(before) {
        BankInvariants.RegisterPreservesValid(before, username, password, fullName, email, up);
      }
      var fieldError := RegistrationError(username, password, fullName, email);
      if fieldError.Some? {
        return Err(fieldError.value);
      }
      if !up {
        return Err(StorageError);
      }
      if UsernameInUse(users, username) {
        return Err(UsernameTaken);
      }
      if EmailInUse(users, email) {
        return Err(EmailTaken);
      }
      var id := |users| + 1;
      users := users + [User(id, username, password, fullName, email)];
      r := Ok(id);
    }

    /** `create_account`: count every account, number the new one from the
        count, INSERT it with the default opening balance. */
    method CreateAccount(user: UserId, kindField: Option<string>, up: bool) returns (r: Result<string>)
      modifies this
      ensures Step(Snapshot(), r) == Bank.CreateAccount(old(Snapshot()), user, kindField, up)
      ensures old(Valid()) ==> Valid()
    {
      ghost var before := Snapshot();
      if BankInvariants.Valid(before) {
        BankInvariants.CreateAccountPreservesValid(before, user, kindField, up);
      }
      if !up {
        return Err(StorageError);
      }
      var count := |accounts|;
      var number := AccountNumber(count);
      accounts := accounts + [Account(count + 1, user, number, AccountKind(kindField), 0)];
      r := Ok(number);
      assert Snapshot() == Bank.CreateAccount(before, user, kindField, up).store;
    }

    /** `perform_transaction`: the form checks, the ownership SELECT, the funds
        check, then UPDATE of the balance and INSERT of the record, committed
        together. */
    method PerformTransaction(user: UserId, req: TxnRequest, up: bool) returns (r: Result<int>)
      modifies this
      ensures Step(Snapshot(), r) == Transact(old(Snapshot()), user, req, up)
      ensures old(Valid()) ==> Valid()
    {
      ghost var before := Snapshot();
      if BankInvariants.Valid(before) {
        BankInvariants.TransactPreservesValid(before, user, req, up);
      }
      var problem := RequestError(req);
      if problem.Some? {
        return Err(problem.value);
      }
      if !up {
        return Err(StorageError);
      }
      var found := FindOwned(accounts, req.accountId, user);
      if found.None? {
        return Err(NotFound);
      }
      var i := found.value;
      var account := accounts[i];
      var amount := req.amount.value;
      if Overdraws(req.kind, account.balance, amount) {
        return Err(InsufficientFunds);
      }
      var balance := NewBalance(account.balance, req.kind, amount);
      accounts := accounts[i := account.(balance := balance)];
      ledger := ledger + [Txn(account.id, req.kind, amount, req.description)];
      r := Ok(balance);
    }
  }
}
