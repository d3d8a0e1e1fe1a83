/**
 * The earlier bank account (src/bank_account.py): any opening balance, no
 * time gate, and an active flag that nothing ever clears. Deposits and
 * withdrawals check the amount's sign, withdrawals and transfers the
 * balance, and a refused operation changes nothing. Its errors are plain
 * `ValueError`s.
 */
module LegacyBanking {
  import opened Validation

  /** The reason carried by a `ValueError` the account raises; `Message`
      gives its text. */
  datatype ValueError =
    | NegativeAmount
    | BalanceTooLow
    | NotAnAccount
    | TransferToSelf
  {
    function Message(): string {
      match this
      case NegativeAmount => "Amount must be positive"
      case BalanceTooLow => "Insufficient balance"
      case NotAnAccount => "Destination must be a BankAccount instance"
      case TransferToSelf => "Cannot transfer to the same account"
    }
  }

  // ---------------------------------------------------------------------------
  // The guard chains, in the order the source runs them
  // ---------------------------------------------------------------------------

  function DepositChecks(amount: real): seq<Check<ValueError>> {
    [Check(amount >= 0.0, NegativeAmount)]
  }

  function WithdrawChecks(balance: real, amount: real): seq<Check<ValueError>> {
    [Check(amount >= 0.0, NegativeAmount),
     Check(amount <= balance, BalanceTooLow)]
  }

  /** The guards `transfer` runs itself, before it calls `withdraw` and
      `deposit`. */
  function TransferChecks(destIsAccount: bool, destIsSelf: bool, balance: real, amount: real): seq<Check<ValueError>> {
    [Check(destIsAccount, NotAnAccount),
     Check(!destIsSelf, TransferToSelf),
     Check(amount >= 0.0, NegativeAmount),
     Check(amount <= balance, BalanceTooLow)]
  }

  /** Everything a transfer checks: its own guards, then `withdraw`'s, then
      `deposit`'s on the destination. */
  function AllTransferChecks(destIsAccount: bool, destIsSelf: bool, balance: real, amount: real): seq<Check<ValueError>> {
    TransferChecks(destIsAccount, destIsSelf, balance, amount)
    + WithdrawChecks(balance, amount)
    + DepositChecks(amount)
  }

  // ---------------------------------------------------------------------------
  // The account
  // ---------------------------------------------------------------------------

  class BankAccount {
    var balance: real
    var active: bool

    /** The only state the flag is ever in. */
    ghost predicate Valid()
      reads this
    {
      active
    }

    /** `BankAccount(balance)`: the balance is stored as given, negative or
        not. */
    constructor (initial: real)
      ensures Valid()
      ensures balance == initial
    {
      balance := initial;
      active := true;
    }

    /** `BankAccount()`: the default opening balance is 0. */
    constructor Empty()
      ensures Valid()
      ensures balance == 0.0
    {
      balance := 0.0;
      active := true;
    }

    method Deposit(amount: real) returns (r: Outcome<ValueError>)
      requires Valid()
      modifies this
      ensures Valid()
      ensures r == FirstFailure(DepositChecks(amount))
      ensures r.Pass? <==> amount >= 0.0
      ensures r.Fail? ==> r.error == NegativeAmount
      ensures balance == if r.Pass? then old(balance) + amount else old(balance)
      ensures old(balance) >= 0.0 ==> balance >= 0.0
    {
      DepositGuardOrder(amount);
      if amount < 0.0 {
        return Fail(NegativeAmount);
      }
      balance := balance + amount;
      return Pass;
    }

    method Withdraw(amount: real) returns (r: Outcome<ValueError>)
      requires Valid()
      modifies this
      ensures Valid()
      ensures r == FirstFailure(WithdrawChecks(old(balance), amount))
      ensures r.Pass? <==> 0.0 <= amount <= old(balance)
      ensures balance == if r.Pass? then old(balance) - amount else old(balance)
      ensures old(balance) >= 0.0 ==> balance >= 0.0
    {
      WithdrawGuardOrder(balance, amount);
      if amount < 0.0 {
        return Fail(NegativeAmount);
      }
      if amount > balance {
        return Fail(BalanceTooLow);
      }
      balance := balance - amount;
      return Pass;
    }

    /** `transfer(amount, other)`; `other == null` stands for a destination
        that is not an account (None, a dict, any other value). */
    method Transfer(amount: real, other: BankAccount?) returns (r: Outcome<ValueError>)
      requires Valid() && (other != null ==> other.Valid())
      modifies this, other
      ensures Valid() && (other != null ==> other.Valid())
      ensures r == FirstFailure(AllTransferChecks(other != null, other == this, old(balance), amount))
      ensures r == FirstFailure(TransferChecks(other != null, other == this, old(balance), amount))
      ensures r.Pass? <==> other != null && other != this && 0.0 <= amount <= old(balance)
      ensures r.Pass? ==>
                other != null
                && balance == old(balance) - amount
                && other.balance == old(other.balance) + amount
                && balance + other.balance == old(balance) + old(other.balance)
      ensures r.Fail? ==>
                balance == old(balance)
                && (other != null ==> other.balance == old(other.balance))
    {
      TransferRechecksNothing(other != null, other == this, balance, amount);
      TransferGuardOrder(other != null, other == this, balance, amount);
      if other == null {
        return Fail(NotAnAccount);
      }
      if other == this {
        return Fail(TransferToSelf);
      }
      if amount < 0.0 {
        return Fail(NegativeAmount);
      }
      if amount > balance {
        return Fail(BalanceTooLow);
      }
      r := Withdraw(amount);
      if r.Fail? {
        return;
      }
      r := other.Deposit(amount);
    }

    /** `deactivate()`: the body is `pass`, so the account stays active and
        keeps its balance. */
    method Deactivate()
      requires Valid()
      ensures Valid()
      ensures active && balance == old(balance)
    {
    }
  }

  // ---------------------------------------------------------------------------
  // Properties of the guard chains
  // ---------------------------------------------------------------------------

  lemma DepositGuardOrder(amount: real)
    ensures FirstFailure(DepositChecks(amount))
         == if amount < 0.0 then Fail(NegativeAmount) else Pass
  {
    if amount < 0.0 {
      FirstFailureAt(DepositChecks(amount), 0);
    }
  }

  /** `withdraw` checks the amount's sign before the balance. */
  lemma WithdrawGuardOrder(balance: real, amount: real)
    ensures FirstFailure(WithdrawChecks(balance, amount))
         == if amount < 0.0 then Fail(NegativeAmount)
            else if amount > balance then Fail(BalanceTooLow)
            else Pass
  {
    var cs := WithdrawChecks(balance, amount);
    if amount < 0.0 {
      FirstFailureAt(cs, 0);
    } else if amount > balance {
      FirstFailureAt(cs, 1);
    }
  }

  /** `transfer` checks, in this order: the destination is an account, it is
      not the source, the amount's sign, the source balance. */
  lemma TransferGuardOrder(destIsAccount: bool, destIsSelf: bool, balance: real, amount: real)
    ensures FirstFailure(TransferChecks(destIsAccount, destIsSelf, balance, amount))
         == if !destIsAccount then Fail(NotAnAccount)
            else if destIsSelf then Fail(TransferToSelf)
            else if amount < 0.0 then Fail(NegativeAmount)
            else if amount > balance then Fail(BalanceTooLow)
            else Pass
  {
    var cs := TransferChecks(destIsAccount, destIsSelf, balance, amount);
    if !destIsAccount {
      FirstFailureAt(cs, 0);
    } else if destIsSelf {
      FirstFailureAt(cs, 1);
    } else if amount < 0.0 {
      FirstFailureAt(cs, 2);
    } else if amount > balance {
      FirstFailureAt(cs, 3);
    }
  }

  /** The `withdraw` and `deposit` calls at the end of `transfer` repeat
      guards it has already passed, so they can never raise there. */
  lemma {:induction false} TransferRechecksNothing(destIsAccount: bool, destIsSelf: bool, balance: real, amount: real)
    ensures FirstFailure(AllTransferChecks(destIsAccount, destIsSelf, balance, amount))
         == FirstFailure(TransferChecks(destIsAccount, destIsSelf, balance, amount))
  {
    var own := TransferChecks(destIsAccount, destIsSelf, balance, amount);
    var later := WithdrawChecks(balance, amount) + DepositChecks(amount);
    assert AllTransferChecks(destIsAccount, destIsSelf, balance, amount) == own + later;
    FirstFailureConcat(own, later);
    if FirstFailure(own).Pass? {
      assert own[2].ok && own[3].ok;
      FirstFailureConcat(WithdrawChecks(balance, amount), DepositChecks(amount));
    }
  }

  /** Unlike the canonical account, a negative balance is possible here, when
      the account was opened with one; from then on no withdrawal passes,
      not even of 0, and a deposit is still accepted. */
  lemma NegativeBalanceBlocksWithdrawals(balance: real, amount: real)
    requires balance < 0.0
    ensures FirstFailure(WithdrawChecks(balance, amount)).Fail?
    ensures amount >= 0.0 ==> FirstFailure(WithdrawChecks(balance, amount)) == Fail(BalanceTooLow)
    ensures amount >= 0.0 ==> FirstFailure(DepositChecks(amount)) == Pass
  {
    WithdrawGuardOrder(balance, amount);
    DepositGuardOrder(amount);
  }

  // ---------------------------------------------------------------------------
  // Scenarios from the tests, as clients of the class
  // ---------------------------------------------------------------------------

  /** An account opened empty and funded with 100 transfers 100 to an empty
      one: the source ends with 0 and the destination with 100. A further
      transfer of 1 is refused for the balance and moves nothing. */
  method TransferAllScenario() returns (source: real, destination: real, again: Outcome<ValueError>)
    ensures source == 0.0 && destination == 100.0
    ensures again == Fail(BalanceTooLow)
  {
    var from := new BankAccount.Empty();
    var funded := from.Deposit(100.0);
    var to := new BankAccount.Empty();
    var r := from.Transfer(100.0, to);
    again := from.Transfer(1.0, to);
    source, destination := from.balance, to.balance;
  }

  /** Transfers to the account itself and to a non-account are refused, in
      that order of precedence over a bad amount. */
  method RefusedTransfersScenario(account: BankAccount, amount: real)
    returns (toSelf: Outcome<ValueError>, toNothing: Outcome<ValueError>)
    requires account.Valid()
    modifies account
    ensures toSelf == Fail(TransferToSelf) && toNothing == Fail(NotAnAccount)
    ensures account.balance == old(account.balance)
  {
    toSelf := account.Transfer(amount, account);
    toNothing := account.Transfer(amount, null);
  }

  /** Deactivating an account leaves it active: the test that expects the
      opposite is skipped in the source. */
  method DeactivateScenario() returns (active: bool, balance: real)
    ensures active && balance == 100.0
  {
    var account := new BankAccount(100.0);
    account.Deactivate();
    active, balance := account.active, account.balance;
  }
}
