/**
 * The user aggregate (src/banking/domain/user.py): a non-blank name and
 * e-mail, and an append-only, ordered list of references to bank accounts
 * whose total balance is recomputed from the accounts on every query.
 */
module Users {
  import opened PyBuiltins
  import opened Validation
  import opened Banking

  /** The balances of `accounts`, in list order. */
  function Balances(accounts: seq<BankAccount>): (bs: seq<real>)
    reads accounts
    ensures |bs| == |accounts|
    ensures forall i :: 0 <= i < |accounts| ==> bs[i] == accounts[i].balance
  {
    if accounts == [] then []
    else Balances(accounts[..|accounts| - 1]) + [accounts[|accounts| - 1].balance]
  }

  /** A left fold of `+` from 0 in list order. */
  function Sum(xs: seq<real>): real {
    if xs == [] then 0.0 else Sum(xs[..|xs| - 1]) + xs[|xs| - 1]
  }

  /** A sum of non-negative balances is non-negative. */
  lemma {:induction false} SumNonNegative(xs: seq<real>)
    ensures (forall i :: 0 <= i < |xs| ==> xs[i] >= 0.0) ==> Sum(xs) >= 0.0
  {
    if xs != [] {
      SumNonNegative(xs[..|xs| - 1]);
    }
  }

  /** `sum(account.balance for account in accounts)`: 0 for no accounts, and
      never negative when no balance is. */
  function SumBalances(accounts: seq<BankAccount>): (total: real)
    reads accounts
    ensures accounts == [] ==> total == 0.0
    ensures (forall i :: 0 <= i < |accounts| ==> accounts[i].balance >= 0.0) ==> total >= 0.0
  {
    SumNonNegative(Balances(accounts));
    Sum(Balances(accounts))
  }

  /** How many times `a` occurs in `accounts`. */
  function Occurrences(accounts: seq<BankAccount>, a: BankAccount): nat {
    if accounts == [] then 0
    else Occurrences(accounts[..|accounts| - 1], a) + (if accounts[|accounts| - 1] == a then 1 else 0)
  }

  /** Some character of `s` is not whitespace, which is what `!IsBlank(s)`
      means. */
  ghost predicate Visible(s: string) {
    exists i :: 0 <= i < |s| && !IsSpace(s[i])
  }

  class User {
    var name: string
    var email: string
    var accounts: seq<BankAccount>

    /** Name and e-mail are never blank: each holds a character that is not
        whitespace. */
    ghost predicate Valid()
      reads this`name, this`email
    {
      Visible(name) && Visible(email)
    }

    /** The state `User(name, email)` builds once both setters have passed. */
    constructor (name: string, email: string)
      requires !IsBlank(name) && !IsBlank(email)
      ensures Valid()
      ensures this.name == name && this.email == email && accounts == []
    {
      this.name := name;
      this.email := email;
      accounts := [];
    }

    /** `User(name, email)`: the name setter runs before the e-mail setter, so
        a blank name is reported even when the e-mail is blank too. */
    static method Create(name: string, email: string) returns (r: Result<User, ValidationError>)
      ensures r.Ok? <==> !IsBlank(name) && !IsBlank(email)
      ensures r.Err? ==> r.error == if IsBlank(name) then NameBlank else EmailBlank
      ensures r.Ok? ==> fresh(r.value) && r.value.Valid()
      ensures r.Ok? ==> r.value.name == name && r.value.email == email && r.value.accounts == []
    {
      if IsBlank(name) {
        return Err(NameBlank);
      }
      if IsBlank(email) {
        return Err(EmailBlank);
      }
      var user := new User(name, email);
      return Ok(user);
    }

    /** The `name` setter: the check comes before the assignment, so a blank
        name leaves the old one in place. */
    method SetName(newName: string) returns (r: Outcome<ValidationError>)
      requires Valid()
      modifies this`name
      ensures Valid()
      ensures r.Pass? <==> !IsBlank(newName)
      ensures r.Fail? ==> r.error == NameBlank
      ensures name == if r.Pass? then newName else old(name)
    {
      if IsBlank(newName) {
        return Fail(NameBlank);
      }
      name := newName;
      return Pass;
    }

    /** The `email` setter, with the same rule as the name. */
    method SetEmail(newEmail: string) returns (r: Outcome<ValidationError>)
      requires Valid()
      modifies this`email
      ensures Valid()
      ensures r.Pass? <==> !IsBlank(newEmail)
      ensures r.Fail? ==> r.error == EmailBlank
      ensures email == if r.Pass? then newEmail else old(email)
    {
      if IsBlank(newEmail) {
        return Fail(EmailBlank);
      }
      email := newEmail;
      return Pass;
    }

    /** `add_account(account)`; `null` stands for an argument that is not an
        account. The reference is appended, duplicates included. */
    method AddAccount(account: BankAccount?) returns (r: Outcome<ValidationError>)
      requires Valid()
      modifies this`accounts
      ensures Valid()
      ensures r.Pass? <==> account != null
      ensures r.Fail? ==> r.error == AccountNotBankAccount
      ensures accounts == if r.Pass? then old(accounts) + [account] else old(accounts)
      ensures r.Pass? ==> TotalBalance() == old(TotalBalance()) + account.balance
    {
      if account == null {
        return Fail(AccountNotBankAccount);
      }
      accounts := accounts + [account];
      assert accounts[..|accounts| - 1] == old(accounts);
      assert Balances(accounts)[..|accounts| - 1] == Balances(old(accounts));
      return Pass;
    }

    /** `total_balance()`: read from the tracked accounts on every call. */
    function TotalBalance(): (total: real)
      reads this, accounts
      ensures accounts == [] ==> total == 0.0
      ensures (forall i :: 0 <= i < |accounts| ==> accounts[i].balance >= 0.0) ==> total >= 0.0
    {
      SumBalances(accounts)
    }
  }

  /** The sum reflects later changes to the tracked accounts: when the only
      balance that moved is that of `changed`, by `delta`, the sum moves by
      `delta` once for every time `changed` is tracked. `before` and `after`
      are the balances of `tracked` read at the two moments. */
  lemma {:induction false} SumAfterBalanceChange(tracked: seq<BankAccount>, changed: BankAccount,
                                                 before: seq<real>, after: seq<real>, delta: real)
    requires |before| == |tracked| && |after| == |tracked|
    requires forall i :: 0 <= i < |tracked| ==>
               after[i] == if tracked[i] == changed then before[i] + delta else before[i]
    ensures Sum(after) == Sum(before) + (Occurrences(tracked, changed) as real) * delta
  {
    if tracked != [] {
      var n := |tracked| - 1;
      SumAfterBalanceChange(tracked[..n], changed, before[..n], after[..n], delta);
      assert Sum(after) == Sum(after[..n]) + after[n];
      assert Sum(before) == Sum(before[..n]) + before[n];
      var k := Occurrences(tracked[..n], changed) as real;
      if tracked[n] == changed {
        assert Occurrences(tracked, changed) as real == k + 1.0;
        assert after[n] == before[n] + delta;
        Distribute(k, delta);
      } else {
        assert Occurrences(tracked, changed) as real == k;
        assert after[n] == before[n];
      }
    }
  }

  lemma Distribute(k: real, d: real)
    ensures (k + 1.0) * d == k * d + d
  {
  }

  /** Empty and all-whitespace strings are blank. */
  lemma BlankExamples()
    ensures IsBlank("") && IsBlank("   ") && IsBlank(" \t\n")
  {
    var s, t := "   ", " \t\n";
    assert s[1..] == "  " && s[2..] == " " && s[3..] == "";
    assert t[1..] == "\t\n" && t[2..] == "\n" && t[3..] == "";
  }

  /** A string with a visible character in it is not blank, padding or not. */
  lemma NonBlankExamples()
    ensures !IsBlank("Ann") && !IsBlank("  a@b.c ")
  {
    assert !IsSpace("Ann"[0]) && !IsSpace("  a@b.c "[2]);
  }

  // ---------------------------------------------------------------------------
  // Scenarios from the tests, as clients of the class
  // ---------------------------------------------------------------------------

  /** Adding the same account twice to a user without accounts tracks it
      twice, and the total counts it twice; a deposit made afterwards shows up
      in the total, twice. */
  method DuplicateAccountScenario(u: User, account: BankAccount) returns (count: nat, total: real, after: real)
    requires u.Valid() && u.accounts == [] && account.Valid() && account.active
    modifies u`accounts, account
    ensures count == 2 && total == 2.0 * old(account.balance)
    ensures after == total + 2.0 * 25.0
  {
    var r := u.AddAccount(account);
    r := u.AddAccount(account);
    var tracked := u.accounts;
    assert tracked == [account, account];
    TrackedTwice(account);
    count, total := |tracked|, u.TotalBalance();
    ghost var before := Balances(tracked);
    r := account.Deposit(25.0);
    assert u.accounts == tracked;
    SumAfterBalanceChange(tracked, account, before, Balances(tracked), 25.0);
    after := u.TotalBalance();
  }

  lemma TrackedTwice(account: BankAccount)
    ensures Occurrences([account, account], account) == 2
  {
    var one := [account];
    assert one[..0] == [];
    assert Occurrences(one, account) == 1;
    assert [account, account][..1] == one;
  }

  /** A blank rename is refused and keeps the previous name. */
  method BlankRenameScenario(u: User) returns (r: Outcome<ValidationError>)
    requires u.Valid()
    modifies u`name
    ensures u.Valid()
    ensures r == Fail(NameBlank) && u.name == old(u.name)
  {
    BlankExamples();
    r := u.SetName("   ");
  }
}
