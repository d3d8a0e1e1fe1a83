/**
 * The canonical bank account (src/banking/domain/bank_account.py): a balance
 * that never goes negative and an active flag that only ever goes from true
 * to false. Every operation runs its guards in a fixed order and changes
 * nothing when one of them fails. The wall clock the withdrawal gate reads
 * is passed in as a `Clock`.
 */
module Banking {
  import opened Validation

  /** Day of the week as Python's `weekday()` numbers it: Monday is 0, Sunday 6. */
  type Weekday = d: int | 0 <= d <= 6

  type Hour = h: int | 0 <= h <= 23

  /** The instant the withdrawal gate looks at. */
  datatype Clock = Clock(weekday: Weekday, hour: Hour)

  /** The business window: Monday to Friday, from hour 9 through hour 17
      (so up to 17:59). */
  predicate InBusinessWindow(now: Clock) {
    now.weekday <= 4 && 9 <= now.hour <= 17
  }

  // ---------------------------------------------------------------------------
  // The guard chains, in the order the source runs them
  // ---------------------------------------------------------------------------

  /** `_validate_within_withdrawal_time`: the day is checked before the hour. */
  function TimeChecks(now: Clock): seq<Check<ValidationError>> {
    [Check(now.weekday <= 4, OutsideBusinessDays),
     Check(9 <= now.hour <= 17, OutsideBusinessHours)]
  }

  function DepositChecks(active: bool, amount: real): seq<Check<ValidationError>> {
    [Check(active, AccountDeactivated),
     Check(amount >= 0.0, AmountNegative)]
  }

  function WithdrawChecks(active: bool, balance: real, amount: real, now: Clock): seq<Check<ValidationError>> {
    [Check(active, AccountDeactivated),
     Check(amount >= 0.0, AmountNegative),
     Check(amount <= balance, InsufficientBalance)]
    + TimeChecks(now)
  }

  /** The guards `transfer` runs itself, before it calls `withdraw`. */
  function TransferChecks(active: bool, balance: real, destIsAccount: bool, destIsSelf: bool,
                          destActive: bool, amount: real): seq<Check<ValidationError>> {
    [Check(active, AccountDeactivated),
     Check(destIsAccount, DestinationNotAccount),
     Check(!destIsSelf, SameAccount),
     Check(destActive, DestinationDeactivated),
     Check(amount >= 0.0, AmountNegative),
     Check(amount <= balance, InsufficientBalance)]
  }

  function DeactivateChecks(active: bool, balance: real): seq<Check<ValidationError>> {
    [Check(active, AlreadyDeactivated),
     Check(balance <= 0.0, RemainingBalance)]
  }

  // ---------------------------------------------------------------------------
  // The account
  // ---------------------------------------------------------------------------

  class BankAccount {
    var balance: real
    var active: bool

    /** The invariant every public operation keeps. */
    ghost predicate Valid()
      reads this
    {
      balance >= 0.0
    }

    /** The body of `BankAccount(balance)` once its check has passed. */
    constructor (initial: real)
      requires initial >= 0.0
      ensures Valid()
      ensures balance == initial && active
    {
      balance := initial;
      active := true;
    }

    /** `BankAccount()`: the default opening balance is 0, which passes the
        check. */
    constructor Empty()
      ensures Valid()
      ensures balance == 0.0 && active
    {
      balance := 0.0;
      active := true;
    }

    /** `BankAccount(balance)`: a negative opening balance is refused. */
    static method Open(initial: real) returns (r: Result<BankAccount, ValidationError>)
      ensures r.Ok? <==> initial >= 0.0
      ensures r.Err? ==> r.error == InitialBalanceNegative
      ensures r.Ok? ==> fresh(r.value) && r.value.Valid()
      ensures r.Ok? ==> r.value.balance == initial && r.value.active
    {
      if initial < 0.0 {
        return Err(InitialBalanceNegative);
      }
      var account := new BankAccount(initial);
      return Ok(account);
    }

    method Deposit(amount: real) returns (r: Outcome<ValidationError>)
      requires Valid()
      modifies this
      ensures Valid()
      ensures r == FirstFailure(DepositChecks(old(active), amount))
      ensures r.Pass? <==> old(active) && amount >= 0.0
      ensures active == old(active)
      ensures balance == if r.Pass? then old(balance) + amount else old(balance)
    {
      DepositGuardOrder(active, amount);
      if !active {
        return Fail(AccountDeactivated);
      }
      if amount < 0.0 {
        return Fail(AmountNegative);
      }
      balance := balance + amount;
      return Pass;
    }

    method Withdraw(amount: real, now: Clock) returns (r: Outcome<ValidationError>)
      requires Valid()
      modifies this
      ensures Valid()
      ensures r == FirstFailure(WithdrawChecks(old(active), old(balance), amount, now))
      ensures r.Pass? <==> old(active) && 0.0 <= amount <= old(balance) && InBusinessWindow(now)
      ensures active == old(active)
      ensures balance == if r.Pass? then old(balance) - amount else old(balance)
    {
      WithdrawGuardOrder(active, balance, amount, now);
      if !active {
        return Fail(AccountDeactivated);
      }
      if amount < 0.0 {
        return Fail(AmountNegative);
      }
      if amount > balance {
        return Fail(InsufficientBalance);
      }
      if now.weekday > 4 {
        return Fail(OutsideBusinessDays);
      }
      if now.hour < 9 || now.hour > 17 {
        return Fail(OutsideBusinessHours);
      }
      balance := balance - amount;
      return Pass;
    }

    /** `transfer(amount, other)`; `other == null` stands for a destination
        that is not an account at all (None or any other value). */
    method Transfer(amount: real, other: BankAccount?, now: Clock) returns (r: Outcome<ValidationError>)
      requires Valid() && (other != null ==> other.Valid())
      modifies this, other
      ensures Valid() && (other != null ==> other.Valid())
      ensures r == FirstFailure(
        TransferChecks(old(active), old(balance), other != null, other == this,
                       other != null && old(other.active), amount)
        + WithdrawChecks(old(active), old(balance), amount, now))
      ensures r.Pass? <==>
        old(active) && other != null && other != this && old(other.active)
        && 0.0 <= amount <= old(balance) && InBusinessWindow(now)
      ensures r.Pass? ==>
                other != null
                && balance == old(balance) - amount
                && other.balance == old(other.balance) + amount
      ensures r.Fail? ==>
                balance == old(balance)
                && (other != null ==> other.balance == old(other.balance))
      ensures active == old(active) && (other != null ==> other.active == old(other.active))
    {
      TransferGuardOrder(active, balance, other != null, other == this, other != null && other.active, amount, now);
      if !active {
        return Fail(AccountDeactivated);
      }
      if other == null {
        return Fail(DestinationNotAccount);
      }
      if other == this {
        return Fail(SameAccount);
      }
      if !other.active {
        return Fail(DestinationDeactivated);
      }
      if amount < 0.0 {
        return Fail(AmountNegative);
      }
      if amount > balance {
        return Fail(InsufficientBalance);
      }
      WithdrawGuardOrder(active, balance, amount, now);
      r := Withdraw(amount, now);
      if r.Fail? {
        return;
      }
      r := other.Deposit(amount);
      // The guards above already ruled out both ways the deposit can fail.
      assert r.Pass?;
    }

    method Deactivate() returns (r: Outcome<ValidationError>)
      requires Valid()
      modifies this
      ensures Valid()
      ensures r == FirstFailure(DeactivateChecks(old(active), old(balance)))
      ensures r.Pass? <==> old(active) && old(balance) == 0.0
      ensures balance == old(balance)
      ensures active == if r.Pass? then false else old(active)
    {
      DeactivateGuardOrder(active, balance);
      if !active {
        return Fail(AlreadyDeactivated);
      }
      if balance > 0.0 {
        return Fail(RemainingBalance);
      }
      active := false;
      return Pass;
    }
  }

  // ---------------------------------------------------------------------------
  // Properties of the guard chains
  // ---------------------------------------------------------------------------

  /** `deposit` refuses an inactive account before it looks at the amount. */
  lemma DepositGuardOrder(active: bool, amount: real)
    ensures FirstFailure(DepositChecks(active, amount))
         == if !active then Fail(AccountDeactivated)
            else if amount < 0.0 then Fail(AmountNegative)
            else Pass
  {
    var cs := DepositChecks(active, amount);
    if !active {
      FirstFailureAt(cs, 0);
    } else if amount < 0.0 {
      FirstFailureAt(cs, 1);
    }
  }

  /** `withdraw` checks, in this order: active, the amount's sign, the
      balance, the day, the hour. */
  lemma WithdrawGuardOrder(active: bool, balance: real, amount: real, now: Clock)
    ensures FirstFailure(WithdrawChecks(active, balance, amount, now))
         == if !active then Fail(AccountDeactivated)
            else if amount < 0.0 then Fail(AmountNegative)
            else if amount > balance then Fail(InsufficientBalance)
            else if now.weekday > 4 then Fail(OutsideBusinessDays)
            else if now.hour < 9 || now.hour > 17 then Fail(OutsideBusinessHours)
            else Pass
  {
    var cs := WithdrawChecks(active, balance, amount, now);
    if !active {
      FirstFailureAt(cs, 0);
    } else if amount < 0.0 {
      FirstFailureAt(cs, 1);
    } else if amount > balance {
      FirstFailureAt(cs, 2);
    } else if now.weekday > 4 {
      FirstFailureAt(cs, 3);
    } else if now.hour < 9 || now.hour > 17 {
      FirstFailureAt(cs, 4);
    }
  }

  /** The guards `transfer` runs itself, in this order: source active,
      destination an account, not the source itself, destination active, the
      amount's sign, the source balance. */
  lemma TransferOwnGuardOrder(active: bool, balance: real, destIsAccount: bool, destIsSelf: bool,
                              destActive: bool, amount: real)
    ensures FirstFailure(TransferChecks(active, balance, destIsAccount, destIsSelf, destActive, amount))
         == if !active then Fail(AccountDeactivated)
            else if !destIsAccount then Fail(DestinationNotAccount)
            else if destIsSelf then Fail(SameAccount)
            else if !destActive then Fail(DestinationDeactivated)
            else if amount < 0.0 then Fail(AmountNegative)
            else if amount > balance then Fail(InsufficientBalance)
            else Pass
  {
    var cs := TransferChecks(active, balance, destIsAccount, destIsSelf, destActive, amount);
    if !active {
      FirstFailureAt(cs, 0);
    } else if !destIsAccount {
      FirstFailureAt(cs, 1);
    } else if destIsSelf {
      FirstFailureAt(cs, 2);
    } else if !destActive {
      FirstFailureAt(cs, 3);
    } else if amount < 0.0 {
      FirstFailureAt(cs, 4);
    } else if amount > balance {
      FirstFailureAt(cs, 5);
    }
  }

  /** `transfer` checks, in this order: its own guards and then, through
      `withdraw`, the day and the hour. */
  lemma TransferGuardOrder(active: bool, balance: real, destIsAccount: bool, destIsSelf: bool,
                           destActive: bool, amount: real, now: Clock)
    ensures FirstFailure(TransferChecks(active, balance, destIsAccount, destIsSelf, destActive, amount)
                         + WithdrawChecks(active, balance, amount, now))
         == if !active then Fail(AccountDeactivated)
            else if !destIsAccount then Fail(DestinationNotAccount)
            else if destIsSelf then Fail(SameAccount)
            else if !destActive then Fail(DestinationDeactivated)
            else if amount < 0.0 then Fail(AmountNegative)
            else if amount > balance then Fail(InsufficientBalance)
            else if now.weekday > 4 then Fail(OutsideBusinessDays)
            else if now.hour < 9 || now.hour > 17 then Fail(OutsideBusinessHours)
            else Pass
  {
    TransferAddsOnlyTimeGate(active, balance, destIsAccount, destIsSelf, destActive, amount, now);
    FirstFailureConcat(TransferChecks(active, balance, destIsAccount, destIsSelf, destActive, amount), TimeChecks(now));
    TransferOwnGuardOrder(active, balance, destIsAccount, destIsSelf, destActive, amount);
    TimeGate(now);
  }

  /** `deactivate` refuses an inactive account before it looks at the balance. */
  lemma DeactivateGuardOrder(active: bool, balance: real)
    ensures FirstFailure(DeactivateChecks(active, balance))
         == if !active then Fail(AlreadyDeactivated)
            else if balance > 0.0 then Fail(RemainingBalance)
            else Pass
  {
    var cs := DeactivateChecks(active, balance);
    if !active {
      FirstFailureAt(cs, 0);
    } else if balance > 0.0 {
      FirstFailureAt(cs, 1);
    }
  }

  /** The time gate passes exactly inside the business window, and reports
      the day before the hour. */
  lemma TimeGate(now: Clock)
    ensures FirstFailure(TimeChecks(now)).Pass? <==> InBusinessWindow(now)
    ensures now.weekday > 4 ==> FirstFailure(TimeChecks(now)) == Fail(OutsideBusinessDays)
    ensures now.weekday <= 4 && !(9 <= now.hour <= 17) ==>
      FirstFailure(TimeChecks(now)) == Fail(OutsideBusinessHours)
  {
    var cs := TimeChecks(now);
    if now.weekday > 4 {
      FirstFailureAt(cs, 0);
    } else if !(9 <= now.hour <= 17) {
      FirstFailureAt(cs, 1);
    }
  }

  /** The edges of the window: hour 17 is still inside, hours 8 and 18 are
      not, and Saturday and Sunday are closed even at noon. */
  lemma BusinessWindowEdges()
    ensures InBusinessWindow(Clock(0, 12)) && InBusinessWindow(Clock(4, 17)) && InBusinessWindow(Clock(1, 9))
    ensures !InBusinessWindow(Clock(0, 8)) && !InBusinessWindow(Clock(0, 18)) && !InBusinessWindow(Clock(1, 20))
    ensures !InBusinessWindow(Clock(5, 12)) && !InBusinessWindow(Clock(6, 12))
  {
  }

  /** `withdraw`, called at the end of `transfer`, repeats three guards that
      `transfer` has already passed, so the only new guard it adds is the
      time gate: a transfer is refused outside the business window. */
  lemma {:induction false} TransferAddsOnlyTimeGate(active: bool, balance: real, destIsAccount: bool,
                                                    destIsSelf: bool, destActive: bool, amount: real, now: Clock)
    ensures FirstFailure(TransferChecks(active, balance, destIsAccount, destIsSelf, destActive, amount)
                         + WithdrawChecks(active, balance, amount, now))
         == FirstFailure(TransferChecks(active, balance, destIsAccount, destIsSelf, destActive, amount)
                         + TimeChecks(now))
  {
    var pre := TransferChecks(active, balance, destIsAccount, destIsSelf, destActive, amount);
    var again := [Check(active, AccountDeactivated), Check(amount >= 0.0, AmountNegative),
                  Check(amount <= balance, InsufficientBalance)];
    assert WithdrawChecks(active, balance, amount, now) == again + TimeChecks(now);
    FirstFailureConcat(pre, again + TimeChecks(now));
    FirstFailureConcat(pre, TimeChecks(now));
    if FirstFailure(pre).Pass? {
      assert pre[0].ok && pre[4].ok && pre[5].ok;
      FirstFailureConcat(again, TimeChecks(now));
    }
  }

  /** Once an account is inactive, deposits and withdrawals on it fail, and
      transfers fail whether it is the source or the destination. */
  lemma InactiveRejectsAll(balance: real, amount: real, now: Clock, otherActive: bool, otherBalance: real)
    ensures FirstFailure(DepositChecks(false, amount)) == Fail(AccountDeactivated)
    ensures FirstFailure(WithdrawChecks(false, balance, amount, now)) == Fail(AccountDeactivated)
    ensures FirstFailure(TransferChecks(false, balance, true, false, otherActive, amount)
                         + WithdrawChecks(false, balance, amount, now)) == Fail(AccountDeactivated)
    ensures FirstFailure(TransferChecks(true, otherBalance, true, false, false, amount)
                         + WithdrawChecks(true, otherBalance, amount, now)) == Fail(DestinationDeactivated)
  {
    FirstFailureAt(DepositChecks(false, amount), 0);
    FirstFailureAt(WithdrawChecks(false, balance, amount, now), 0);
    FirstFailureAt(TransferChecks(false, balance, true, false, otherActive, amount)
                   + WithdrawChecks(false, balance, amount, now), 0);
    FirstFailureAt(TransferChecks(true, otherBalance, true, false, false, amount)
                   + WithdrawChecks(true, otherBalance, amount, now), 3);
  }

  // ---------------------------------------------------------------------------
  // Scenarios from the tests, as clients of the class
  // ---------------------------------------------------------------------------

  /** An account funded with 100 transfers 50 to an empty one at noon on a
      Monday: both end with 50. */
  method TransferScenario() returns (source: real, destination: real)
    ensures source == 50.0 && destination == 50.0
  {
    var from := new BankAccount.Empty();
    var r := from.Deposit(100.0);
    var to := new BankAccount.Empty();
    r := from.Transfer(50.0, to, Clock(0, 12));
    source, destination := from.balance, to.balance;
  }

  /** An empty account can be deactivated once; the second call fails and
      the account stays inactive. */
  method DeactivateTwiceScenario() returns (first: Outcome<ValidationError>, second: Outcome<ValidationError>,
                                            active: bool)
    ensures first == Pass && second == Fail(AlreadyDeactivated) && !active
  {
    var account := new BankAccount.Empty();
    first := account.Deactivate();
    second := account.Deactivate();
    active := account.active;
  }

  /** A deposit followed by a withdrawal of the same amount, inside the
      window, puts the balance back where it was. */
  method DepositThenWithdraw(account: BankAccount, x: real, now: Clock)
    returns (deposited: Outcome<ValidationError>, withdrawn: Outcome<ValidationError>)
    requires account.Valid() && account.active && x >= 0.0 && InBusinessWindow(now)
    modifies account
    ensures account.Valid() && account.active
    ensures deposited == Pass && withdrawn == Pass
    ensures account.balance == old(account.balance)
  {
    deposited := account.Deposit(x);
    withdrawn := account.Withdraw(x, now);
  }

  /** With the clock inside the window, moving the amount 0 leaves every
      balance as it was and succeeds. */
  method ZeroAmountScenario(source: BankAccount, destination: BankAccount, now: Clock)
    returns (d: Outcome<ValidationError>, w: Outcome<ValidationError>, t: Outcome<ValidationError>)
    requires source.Valid() && destination.Valid() && source != destination
    requires source.active && destination.active && InBusinessWindow(now)
    modifies source, destination
    ensures d == Pass && w == Pass && t == Pass
    ensures source.balance == old(source.balance) && destination.balance == old(destination.balance)
  {
    d := source.Deposit(0.0);
    w := source.Withdraw(0.0, now);
    t := source.Transfer(0.0, destination, now);
  }
}
