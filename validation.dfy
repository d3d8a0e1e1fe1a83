/**
 * The banking and address domain's single error kind, `ValidationError`,
 * with one constructor per message the core raises, and the ordered guard
 * chains the operations run before they change anything.
 */
module Validation {
  import opened PyBuiltins

  /** The reason carried by a `ValidationError`; `Message` gives its text. */
  datatype ValidationError =
    | InitialBalanceNegative
    | AccountDeactivated
    | AmountNegative
    | InsufficientBalance
    | OutsideBusinessDays
    | OutsideBusinessHours
    | DestinationNotAccount
    | SameAccount
    | DestinationDeactivated
    | AlreadyDeactivated
    | RemainingBalance
    | NameBlank
    | EmailBlank
    | AccountNotBankAccount
    | InvalidIpFormat(ipString: string)
    | InvalidIpOctet(octet: int)
  {
    function Message(): string {
      match this
      case InitialBalanceNegative => "Initial balance cannot be negative"
      case AccountDeactivated => "Account is deactivated"
      case AmountNegative => "Amount must be positive"
      case InsufficientBalance => "Insufficient balance"
      case OutsideBusinessDays => "Cannot perform operations outside business days"
      case OutsideBusinessHours => "Cannot perform operations outside business hours"
      case DestinationNotAccount => "Destination must be a BankAccount instance"
      case SameAccount => "Cannot transfer to the same account"
      case DestinationDeactivated => "Cannot transfer to a deactivated account"
      case AlreadyDeactivated => "Account is already deactivated"
      case RemainingBalance => "Cannot deactivate account with remaining balance"
      case NameBlank => "Name cannot be blank"
      case EmailBlank => "Email cannot be blank"
      case AccountNotBankAccount => "Account must be a BankAccount instance"
      case InvalidIpFormat(s) => "Invalid IP address format: " + s
      case InvalidIpOctet(o) => "Invalid IP address octet: " + IntToStr(o)
    }
  }

  /** What an operation that returns None in the source gives back: it either
      passes or raises with a reason. */
  datatype Outcome<+E> = Pass | Fail(error: E)

  /** The outcome of a parser: a value or a reason. */
  datatype Result<+T, +E> = Ok(value: T) | Err(error: E)

  /** One guard: `ok` is whether it passes, `error` what is raised if not. */
  datatype Check<+E> = Check(ok: bool, error: E)

  /** Runs guards in order and stops at the first that does not pass. */
  function FirstFailure<E>(checks: seq<Check<E>>): (r: Outcome<E>)
    ensures r.Pass? <==> forall i :: 0 <= i < |checks| ==> checks[i].ok
    ensures r.Fail? ==> exists i :: 0 <= i < |checks| && !checks[i].ok && r.error == checks[i].error
  {
    if checks == [] then Pass
    else if !checks[0].ok then Fail(checks[0].error)
    else FirstFailure(checks[1..])
  }

  /** The error raised is that of the EARLIEST failing guard: every guard
      before position `k` passes and guard `k` fails. */
  lemma {:induction false} FirstFailureAt<E>(checks: seq<Check<E>>, k: nat)
    requires k < |checks| && !checks[k].ok
    requires forall i :: 0 <= i < k ==> checks[i].ok
    ensures FirstFailure(checks) == Fail(checks[k].error)
  {
    if k > 0 {
      FirstFailureAt(checks[1..], k - 1);
    }
  }

  /** Running two chains one after the other: the second runs only when the
      first passes. */
  lemma {:induction false} FirstFailureConcat<E>(first: seq<Check<E>>, second: seq<Check<E>>)
    ensures FirstFailure(first + second)
         == if FirstFailure(first).Fail? then FirstFailure(first) else FirstFailure(second)
  {
    var all := first + second;
    if first != [] {
      assert all[0] == first[0];
      assert all[1..] == first[1..] + second;
      FirstFailureConcat(first[1..], second);
    } else {
      assert all == second;
    }
  }

  /** The address messages are told apart by their text: the format message
      gives back the rejected string and the octet message the octet. */
  lemma IpMessageInjective(e1: ValidationError, e2: ValidationError)
    requires e1.InvalidIpFormat? || e1.InvalidIpOctet?
    requires e2.InvalidIpFormat? || e2.InvalidIpOctet?
    requires e1.Message() == e2.Message()
    ensures e1 == e2
  {
    if e1.InvalidIpFormat? && e2.InvalidIpFormat? {
      PrefixCancel("Invalid IP address format: ", e1.ipString, e2.ipString);
    } else if e1.InvalidIpOctet? && e2.InvalidIpOctet? {
      PrefixCancel("Invalid IP address octet: ", IntToStr(e1.octet), IntToStr(e2.octet));
      IntToStrInjective(e1.octet, e2.octet);
    } else {
      IpShape(e1);
      IpShape(e2);
    }
  }

  /** The format message has 'f' as its twentieth character, the octet
      message 'o'. */
  lemma IpShape(e: ValidationError)
    requires e.InvalidIpFormat? || e.InvalidIpOctet?
    ensures |e.Message()| >= 20 && e.Message()[19] == if e.InvalidIpFormat? then 'f' else 'o'
  {
    if e.InvalidIpFormat? {
      var p := "Invalid IP address format: ";
      assert (p + e.ipString)[19] == p[19];
    } else {
      var p := "Invalid IP address octet: ";
      assert (p + IntToStr(e.octet))[19] == p[19];
    }
  }

  lemma PrefixCancel(p: string, a: string, b: string)
    requires p + a == p + b
    ensures a == b
  {
    assert a == (p + a)[|p|..];
    assert b == (p + b)[|p|..];
  }
}
