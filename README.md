# A verified model of the banking and IP address core

This project models the domain core of a small Python showcase. The core has
three parts.

- A bank account with an ordered cascade of guard checks.
  Withdrawals are allowed only inside business hours.
- A user who owns a list of account references and a derived total balance.
- An IPv4 value object that is parsed from text and printed back.

Each part comes in the form the source gives it. Two classes are modelled as
they are written:

- `BankAccount` in `src/banking/domain/bank_account.py`, the canonical
  account;
- `User` in `src/banking/domain/user.py`.

Both are Dafny classes with fields, `modifies` frames and a `Valid()`
invariant. Their methods are tied to specification functions.

Two further variants from the same repository are modelled side by side:

- the earlier, unchecked `BankAccount` in `src/bank_account.py`;
- the earlier, regex-filtered `IpAddress` in `src/ip_address_geolocator.py`.

The files are:

- `py_builtins.dfy` (`PyBuiltins`) models the Python built-ins the core relies
  on, over ASCII text: `str.isspace`, `strip`, `split`, `join`, `int()` and
  `str()`. It also holds their algebra: splitting a join, `int(str(n)) == n`,
  and leading zeros and whitespace being accepted. The two built-ins do not
  agree on whitespace. `str.strip()` removes space, `\t\n\v\f\r` and the
  separators `\x1c`..`\x1f`. `int()` skips only space and `\t\n\v\f\r`, so
  "1\x1f" is not a number although its `strip()` is "1". `int()` and
  `str()` also keep CPython's default limit of 4300 decimal digits. `int()` refuses a
  longer run of digits, leading zeros included. `str()` raises ValueError for
  a number with more digits. So `str(ip)` is an `Option`: it is `None` where
  `str()` of some octet raises, and otherwise the joined text `Joined`.
- `validation.dfy` (`Validation`) gives `ValidationError`, one constructor
  per message with the exact texts. It also gives `Result` and `Outcome`, and
  `FirstFailure`, which runs a list of guards in order and reports the first
  one that fails.
- `bank_account.dfy` (`Banking`) models the canonical account. The wall clock
  is a `Clock(weekday, hour)` parameter.
- `user.dfy` (`Users`) models the user aggregate. `total_balance` is a
  function that reads the tracked accounts. Its behaviour when such an
  account changes later, or appears twice in the list, is proved.
- `legacy_bank_account.dfy` (`LegacyBanking`) models the earlier account.
- `ip_address.dfy` (`IpAddressDomain`) models
  `src/geolocation/domain/ip_address.py`.
- `ip_address_geolocator.dfy` (`IpAddressGeolocator`) models the class
  `IpAddress` of the geolocator script. It includes the regular expression
  `^(\d{1,3}\.){3}\d{1,3}$` as a predicate, and proves how it relates to the
  domain variant.

Some modelling choices apply throughout:

- Amounts are `real`.
- An argument that is not a `BankAccount`, whether `None` or any other value,
  is modelled as `null` of type `BankAccount?`.
- A raised exception is an `Outcome.Fail` or a `Result.Err` carrying the
  reason. Every operation that fails changes no state.

## Model

| member | source | states |
|---|---|---|
| Validation.FirstFailure | src/banking/domain/bank_account.py:40-41 | guards in sequence pass exactly when every one passes; a failure carries the error of a guard that failed |
| Validation.FirstFailureAt | src/banking/domain/bank_account.py:55-58 | the error raised is that of the earliest failing guard, since a raise stops the method |
| Validation.FirstFailureConcat | src/banking/domain/bank_account.py:84-88 | running two guard chains one after the other: the second is reached only when the first passes |
| Validation.IpMessageInjective | src/geolocation/domain/ip_address.py:29-38 | the two address messages determine their error: equal texts mean the same kind and the same string or octet |
| Validation.IpShape | src/geolocation/domain/ip_address.py:29-33 | the format and octet messages differ at a fixed position, whatever they report |
| Banking.BankAccount.constructor | src/banking/domain/bank_account.py:17-18 | a new account holds the given non-negative balance and is active |
| Banking.BankAccount.Empty | src/banking/domain/bank_account.py:13-18 | `BankAccount()` with the default balance 0 passes the check and gives an active account holding 0 |
| Banking.BankAccount.Open | src/banking/domain/bank_account.py:13-18 | opening succeeds exactly for a non-negative balance; otherwise the initial-balance error |
| Banking.BankAccount.Deposit | src/banking/domain/bank_account.py:40-42 | the outcome is the first failing of active, then amount sign; it passes iff active and amount >= 0, and only then adds the amount; balance stays non-negative |
| Banking.BankAccount.Withdraw | src/banking/domain/bank_account.py:55-59 | the outcome is the first failing of active, sign, sufficient balance, weekday, hour; it passes iff all hold, and only then subtracts; balance stays non-negative |
| Banking.BankAccount.Transfer | src/banking/domain/bank_account.py:74-88 | the outcome follows the guard order, including the guards withdraw repeats; on success the source loses and the destination gains the amount; on failure neither balance changes; active flags are untouched |
| Banking.BankAccount.Deactivate | src/banking/domain/bank_account.py:97-103 | passes iff active with balance 0 (it is never negative); only then clears the flag; balance unchanged |
| Banking.DepositGuardOrder | src/banking/domain/bank_account.py:40-41 | a deactivated account is reported before a negative amount |
| Banking.WithdrawGuardOrder | src/banking/domain/bank_account.py:55-58 | active, then amount sign, then balance, then business day, then business hour, each reported in that order |
| Banking.TransferOwnGuardOrder | src/banking/domain/bank_account.py:74-85 | source active, destination an account, not the same account, destination active, amount sign, balance, in that order |
| Banking.TransferGuardOrder | src/banking/domain/bank_account.py:74-88 | the whole transfer cascade: its own six guards and then the time gate reached through withdraw |
| Banking.TransferAddsOnlyTimeGate | src/banking/domain/bank_account.py:84-88 | the withdraw call repeats guards the transfer has passed, so it adds only the time gate |
| Banking.DeactivateGuardOrder | src/banking/domain/bank_account.py:97-101 | already-deactivated is reported before a remaining balance |
| Banking.TimeGate | src/banking/domain/bank_account.py:111-118 | the time gate passes exactly in the business window (weekday 0..4, hour 9..17), the day being checked before the hour |
| Banking.BusinessWindowEdges | src/banking/domain/bank_account.py:114-118 | hour 17 is inside the window, hours 8 and 18 and the weekend are not |
| Banking.InactiveRejectsAll | src/banking/domain/bank_account.py:120-127 | an inactive account refuses deposits, withdrawals and transfers from it, and transfers to it |
| Banking.TransferScenario | src/banking/domain/bank_account.py:74-88 | 100 deposited, 50 transferred at a weekday noon: both accounts hold 50 |
| Banking.DeactivateTwiceScenario | src/banking/domain/bank_account.py:97-103 | an empty account deactivates once; the second attempt fails as already deactivated |
| Banking.DepositThenWithdraw | src/banking/domain/bank_account.py:40-59 | inside the window, a deposit followed by a withdrawal of the same amount restores the balance |
| Banking.ZeroAmountScenario | src/banking/domain/bank_account.py:40-88 | a deposit, withdrawal and transfer of 0 inside the window all pass and change no balance |
| Users.Balances | src/banking/domain/user.py:41-42 | the balances of the tracked accounts, one per account, in list order |
| Users.SumBalances | src/banking/domain/user.py:41-42 | the sum over the tracked accounts is 0 for no accounts and non-negative when every balance is |
| Users.SumNonNegative | src/banking/domain/user.py:41-42 | a sum of non-negative balances is non-negative |
| Users.User.constructor | src/banking/domain/user.py:6-9 | with non-blank name and e-mail, the user holds them and no accounts |
| Users.User.Create | src/banking/domain/user.py:6-9 | creation succeeds iff name and e-mail are both non-blank; a blank name is reported first |
| Users.User.SetName | src/banking/domain/user.py:23-27 | a blank name (empty or only whitespace) is refused and keeps the old one; otherwise the name is replaced |
| Users.User.SetEmail | src/banking/domain/user.py:29-33 | the same rule for the e-mail |
| Users.User.AddAccount | src/banking/domain/user.py:35-39 | a non-account is refused and the list is kept; an account is appended, duplicates included, and the total grows by its balance |
| Users.User.TotalBalance | src/banking/domain/user.py:41-42 | 0 for no accounts; non-negative when every tracked balance is |
| Users.SumAfterBalanceChange | src/banking/domain/user.py:41-42 | the total is recomputed on every call: when one tracked account's balance moves by delta, the total moves by delta times the number of times it is tracked |
| Users.BlankExamples | src/banking/domain/user.py:25 | "", spaces and mixed whitespace count as blank |
| Users.NonBlankExamples | src/banking/domain/user.py:25 | a text with a visible character is not blank, even when padded |
| Users.DuplicateAccountScenario | src/banking/domain/user.py:35-42 | the same account added twice is tracked twice and counted twice, also after a later deposit |
| Users.BlankRenameScenario | src/banking/domain/user.py:23-27 | renaming to spaces fails with the name error and keeps the name |
| LegacyBanking.BankAccount.constructor | src/bank_account.py:7-10 | any opening balance, negative included, is stored; the account is active |
| LegacyBanking.BankAccount.Empty | src/bank_account.py:7-10 | the default opening balance is 0 |
| LegacyBanking.BankAccount.Deposit | src/bank_account.py:31-33 | passes iff amount >= 0 and only then adds it; a non-negative balance stays non-negative |
| LegacyBanking.BankAccount.Withdraw | src/bank_account.py:44-48 | the sign is checked before the balance, with no time gate; passes iff 0 <= amount <= balance and only then subtracts; a non-negative balance stays non-negative |
| LegacyBanking.BankAccount.Transfer | src/bank_account.py:63-76 | destination an account, not self, sign, balance, in that order; the nested withdraw and deposit add no failure; success moves the amount and conserves the sum; failure changes nothing |
| LegacyBanking.BankAccount.Deactivate | src/bank_account.py:78-84 | changes nothing: the account stays active with the same balance |
| LegacyBanking.DepositGuardOrder | src/bank_account.py:31-32 | a negative amount is the only refusal |
| LegacyBanking.WithdrawGuardOrder | src/bank_account.py:44-47 | the sign is reported before an insufficient balance |
| LegacyBanking.TransferGuardOrder | src/bank_account.py:63-73 | destination type, self-identity, sign, balance, reported in that order |
| LegacyBanking.TransferRechecksNothing | src/bank_account.py:72-76 | the guards repeated by withdraw and deposit never fail after the transfer's own |
| LegacyBanking.NegativeBalanceBlocksWithdrawals | src/bank_account.py:7-10 | an account opened with a negative balance refuses every withdrawal, even of 0, and still accepts deposits |
| LegacyBanking.TransferAllScenario | src/bank_account.py:63-76 | 100 transferred from a funded account leaves 0 and 100; a further transfer of 1 fails for the balance |
| LegacyBanking.RefusedTransfersScenario | src/bank_account.py:63-67 | transfers to itself and to a non-account fail, whatever the amount, and move nothing |
| LegacyBanking.DeactivateScenario | src/bank_account.py:78-84 | after deactivate the account is still active with its balance |
| PyBuiltins.TrimStart | src/banking/domain/user.py:25 | the result is a suffix of the input that does not start with a character of the chosen whitespace class |
| PyBuiltins.TrimStartDropsBlanks | src/banking/domain/user.py:25 | every character the left trim removes is of the chosen whitespace class |
| PyBuiltins.TrimEnd | src/banking/domain/user.py:25 | the result is a prefix of the input that does not end with a character of the chosen whitespace class |
| PyBuiltins.TrimEndDropsBlanks | src/banking/domain/user.py:25 | every character the right trim removes is of the chosen whitespace class |
| PyBuiltins.Strip | src/banking/domain/user.py:25 | `strip()` is no longer than its input and neither starts nor ends with whitespace (separators `\x1c`..`\x1f` included) |
| PyBuiltins.IsBlank | src/banking/domain/user.py:25 | `not s or s.strip() == ""` holds exactly when every character is whitespace |
| PyBuiltins.Split | src/geolocation/domain/ip_address.py:27 | split gives at least one piece and no piece contains the separator |
| PyBuiltins.JoinSplit | src/geolocation/domain/ip_address.py:27 | joining the pieces of a split gives back the text |
| PyBuiltins.SplitJoin | src/geolocation/domain/ip_address.py:41 | splitting a join of separator-free pieces gives back the pieces |
| PyBuiltins.SplitAppendChar | src/ip_address_geolocator.py:35 | a character that is not the separator, added at the end, joins the last piece |
| PyBuiltins.SplitNoSepIff | src/ip_address_geolocator.py:35 | a split into one piece means the separator does not occur |
| PyBuiltins.JoinAppendPart | src/geolocation/domain/ip_address.py:41 | joining one more part appends the separator and that part |
| PyBuiltins.NatToStr | src/geolocation/domain/ip_address.py:41 | the decimal digits of n are a non-empty run of digits |
| PyBuiltins.NatToStrValue | src/geolocation/domain/ip_address.py:41 | the digits of `str(n)` stand for n |
| PyBuiltins.NatToStrShort | src/ip_address_geolocator.py:30 | numbers below 1000 print as at most three digits |
| PyBuiltins.ShortDigitsValue | src/ip_address_geolocator.py:30 | at most three digits stand for at most 999 |
| PyBuiltins.IntToStr | src/geolocation/domain/ip_address.py:41 | the decimal text of n, which `str(n)` writes when it does not raise, starts with '-' exactly when n is negative, and the rest is a non-empty run of digits |
| PyBuiltins.IntToStrInjective | src/geolocation/domain/ip_address.py:33 | the decimal text determines the integer, so the octet message determines the octet |
| PyBuiltins.ParseSigned | src/geolocation/domain/ip_address.py:27 | a text `int()` reads, once trimmed, ends with a digit, starts with a digit or a sign, is at most one character longer than the 4300-digit limit, and gives a negative value only after '-' |
| PyBuiltins.ParseIntPadded | src/geolocation/domain/ip_address.py:27 | one of space or `\t\n\v\f\r` added at either end does not change what `int()` reads |
| PyBuiltins.ParseIntKeepsSeparator | src/geolocation/domain/ip_address.py:27 | digits followed by a separator `\x1c`..`\x1f` are not a number for `int()`, although `strip()` removes the separator |
| PyBuiltins.ParseIntToStr | src/geolocation/domain/ip_address.py:27 | `int(str(n)) == n` for every n of at most 4300 digits; the decimal text of a longer n is refused by `int()` too |
| PyBuiltins.ParseIntDigits | src/ip_address_geolocator.py:35 | a run of at most 4300 digits reads as its value, also with a final newline; a longer run is refused either way |
| PyBuiltins.ParseIntSigned | src/geolocation/domain/ip_address.py:27 | a run of at most 4300 digits, with or without a leading '-', reads as its signed value; a longer run is refused |
| PyBuiltins.UnpaddedRead | src/geolocation/domain/ip_address.py:27 | a text without whitespace at either end is read by `int()` as it stands, also after a final newline |
| PyBuiltins.ParseIntLeadingZero | src/geolocation/domain/ip_address.py:27 | `int()` accepts a leading zero and drops it while the text stays within 4300 digits; the zero counts toward the limit, so at the limit the text is refused |
| IpAddressDomain.FromString | src/geolocation/domain/ip_address.py:26-38 | a success holds four octets in 0..255; a failure is the format error carrying the text, or the octet error carrying a value outside 0..255 |
| IpAddressDomain.ToString | src/geolocation/domain/ip_address.py:40-41 | `str(ip)` exists iff every octet has at most 4300 digits; then splitting it on '.' gives `str` of each octet, in order; no octets print as the empty text |
| IpAddressDomain.Joined | src/geolocation/domain/ip_address.py:40-41 | the joined text of the octets: splitting it on '.' gives the decimal text of each octet, in order; no octets give the empty text |
| IpAddressDomain.InRangePrintable | src/geolocation/domain/ip_address.py:40-41 | an address of octets in 0..255 always prints, as its joined text |
| IpAddressDomain.ParseParts | src/geolocation/domain/ip_address.py:27 | the tuple exists iff `int()` reads every part, and then holds their values in order |
| IpAddressDomain.ReadEach | src/geolocation/domain/ip_address.py:27 | the tuple of a reader over the parts exists iff every part is read, and then holds their values in order |
| IpAddressDomain.FirstOutOfRange | src/geolocation/domain/ip_address.py:31-33 | none iff every octet is in 0..255; otherwise the earliest octet outside it |
| IpAddressDomain.OctetStrings | src/geolocation/domain/ip_address.py:41 | `str` of each octet, in order |
| IpAddressDomain.FromStringAccepts | src/geolocation/domain/ip_address.py:26-35 | from_string succeeds iff there are four parts, each read by `int()` and in 0..255; the address holds them in order |
| IpAddressDomain.FromStringUnreadablePart | src/geolocation/domain/ip_address.py:27-38 | a part `int()` rejects is a format error whatever the number of parts |
| IpAddressDomain.FromStringWrongCount | src/geolocation/domain/ip_address.py:28-29 | readable parts in a number other than four are a format error |
| IpAddressDomain.FromStringOctetError | src/geolocation/domain/ip_address.py:31-33 | with four readable parts, the first octet out of range, negatives included, is reported by value |
| IpAddressDomain.FirstOutOfRangeAt | src/geolocation/domain/ip_address.py:31-33 | the check loop stops at the first octet out of range |
| IpAddressDomain.OctetStringsNoDot | src/geolocation/domain/ip_address.py:41 | no printed octet contains '.' |
| IpAddressDomain.ParseOctetStrings | src/geolocation/domain/ip_address.py:27-41 | the printed octets are all read back iff every octet has at most 4300 digits, and then each reads back as itself |
| IpAddressDomain.InRangeOctetsRead | src/geolocation/domain/ip_address.py:27-41 | printed octets in 0..255 are read back as themselves |
| IpAddressDomain.PrintThenParse | src/geolocation/domain/ip_address.py:26-41 | parsing any printed address: four octets in range come back, another count is a format error, an octet out of range is reported; the joined text of an address `str()` refuses is a format error |
| IpAddressDomain.PrintedThenParsed | src/geolocation/domain/ip_address.py:26-41 | the printable case: the joined text's parts read back as the octets, so only the count and the range decide |
| IpAddressDomain.RoundTrip | src/geolocation/domain/ip_address.py:26-41 | for four octets in 0..255, `str(ip)` exists and from_string(str(ip)) == ip |
| IpAddressDomain.LeadingZeroNormalised | src/geolocation/domain/ip_address.py:27 | a '0' written before a printed address gives a different text that parses to the same address |
| IpAddressDomain.LeadingSpaceIgnored | src/geolocation/domain/ip_address.py:27 | a space written before a printed address is accepted and dropped |
| IpAddressDomain.PrefixedAddress | src/geolocation/domain/ip_address.py:27 | a character written before a printed address that `int()` reads away in the first part gives the same address |
| IpAddressDomain.SeparatorAfterAddressRejected | src/geolocation/domain/ip_address.py:27-38 | a separator `\x1c`..`\x1f` after a printed address makes the last part unreadable, so the text is a format error |
| IpAddressDomain.OverlongPartRejected | src/geolocation/domain/ip_address.py:27-38 | a last part of more than 4300 digits, leading zeros included, is a format error, not an octet error |
| IpAddressGeolocator.PatternMatches | src/ip_address_geolocator.py:30-31 | a text the pattern matches is 7 to 16 characters long, a final newline included |
| IpAddressGeolocator.GroupsMatchLength | src/ip_address_geolocator.py:30 | a match of `(\d{1,3}\.){n}\d{1,3}` is between 2n+1 and 4n+3 characters long |
| IpAddressGeolocator.FromString | src/ip_address_geolocator.py:30-41 | a success means the pattern matched and gives one octet in 0..255 per part; a failure is the format error carrying the text, or the octet error carrying a value outside 0..255 |
| IpAddressGeolocator.ReadParts | src/ip_address_geolocator.py:34-41 | the try block: a success gives one octet in 0..255 per part; a failure is the format error or an out-of-range octet |
| IpAddressGeolocator.CheckRange | src/ip_address_geolocator.py:36-39 | the range loop passes iff every octet is in 0..255 and then gives the address of those octets; otherwise it reports an octet of the tuple outside 0..255 |
| IpAddressGeolocator.ToString | src/ip_address_geolocator.py:43-44 | `str(ip)` exists iff every octet has at most 4300 digits; then splitting it on '.' gives `str` of each octet, in order |
| IpAddressGeolocator.Joined | src/ip_address_geolocator.py:43-44 | the joined text: splitting it on '.' gives the decimal text of each octet, in order; no octets give the empty text |
| IpAddressGeolocator.PatternIffSplit | src/ip_address_geolocator.py:30-31 | the pattern matches iff the text, or the text without a final newline, splits on '.' into four groups of one to three digits |
| IpAddressGeolocator.GroupsMatchIffSplit | src/ip_address_geolocator.py:30 | `(\d{1,3}\.){n}\d{1,3}` matches iff the text splits into n+1 such groups |
| IpAddressGeolocator.GroupsMatchSplits | src/ip_address_geolocator.py:30 | a match splits into n+1 digit groups |
| IpAddressGeolocator.SplitsMatchGroups | src/ip_address_geolocator.py:30 | n+1 digit groups between dots match |
| IpAddressGeolocator.PatternChars | src/ip_address_geolocator.py:30-32 | a matching text starts with a digit and holds only digits and dots, apart from a final newline |
| IpAddressGeolocator.NoValueErrorAfterPattern | src/ip_address_geolocator.py:34-41 | after the pattern, `int()` reads all four parts as 0..999, so the ValueError branch is unreachable |
| IpAddressGeolocator.NewlineGroupsRead | src/ip_address_geolocator.py:30-35 | the newline `$` lets through stays in the last part, and `int()` drops it |
| IpAddressGeolocator.AfterPatternOnlyHighOctet | src/ip_address_geolocator.py:36-38 | once the pattern matched, the only error left is an octet above 255 |
| IpAddressGeolocator.FromStringAccepts | src/ip_address_geolocator.py:30-39 | from_string succeeds iff the pattern matches and every part reads as at most 255; the address holds them in order |
| IpAddressGeolocator.QuadRangeCheck | src/ip_address_geolocator.py:36-38 | on four parts read as 0..999, the range loop passes iff none is above 255 |
| IpAddressGeolocator.FromStringHighOctet | src/ip_address_geolocator.py:36-38 | the first part above 255 is reported by value |
| IpAddressGeolocator.RoundTrip | src/ip_address_geolocator.py:30-44 | for four octets in 0..255, `str(ip)` exists and from_string(str(ip)) == ip |
| IpAddressGeolocator.AgreesWithDomain | src/ip_address_geolocator.py:30-41 | where the pattern matches, this variant and the domain variant give the same octets or report the same octet |
| IpAddressGeolocator.AcceptsSubsetOfDomain | src/ip_address_geolocator.py:30-39 | every text this variant accepts, the domain variant accepts with the same octets |
| IpAddressGeolocator.PaddedAddressContrast | src/ip_address_geolocator.py:30-32 | a leading space is accepted by the domain variant and refused here, so the inclusion is strict |
| IpAddressGeolocator.NegativeOctetContrast | src/ip_address_geolocator.py:30-32 | a negative first octet is an octet error in the domain variant (where `str(ip)` exists) and a format error here |
| IpAddressGeolocator.SignRefused | src/ip_address_geolocator.py:30-32 | a '-' before the first octet fails the pattern, so it is a format error |

## Left out

Not modelled:

- Geolocation, the HTTP repository, the repository interface, the use case,
  and the rest of `src/ip_address_geolocator.py` (the requests client, JSON
  handling, printing, `main`). All of these are I/O around the core.
- `datetime.now()`. The withdrawal gate is given a `Clock` with the weekday
  and hour that `now()` would return; minutes and seconds play no part in the
  check.
- Floating point. Amounts are exact reals, so float rounding is not modelled,
  and neither is the `int`/`float` mix of `Number`.
- `PyBuiltins.IsSpace`, `PyBuiltins.Strip` and `PyBuiltins.IsBlank` know
  only ASCII whitespace. Python's `str.isspace` also counts characters such as
  "\u00a0", so a name of only such characters is blank in the source and not
  blank in the model.
- The 4300-digit limit is the default. A limit changed with
  `sys.set_int_max_str_digits` or `PYTHONINTMAXSTRDIGITS`, or switched off
  with 0, is not modelled.
- Python's `int()` beyond ASCII. Underscores between digits and non-ASCII
  digits and whitespace are not modelled. The regex `\d` is taken to be an
  ASCII digit, although Python's `\d` also matches other Unicode digits.
- `__repr__`, the `@property` getters (the fields are read directly), the
  frozen dataclass machinery, and `@dataclass` equality of `BankAccount`.
- The `IndexError` in the domain `except` clause. Nothing in the try block
  indexes, so it cannot occur.
- `ValidationError`'s class (`src/shared/exceptions/validation_error.py`) is
  not part of this model. It is taken not to be a subclass of `ValueError`,
  so the octet error raised inside the try block reaches the caller. The
  domain tests expect exactly this for "-1.2.3.4", which is an octet error,
  not a format error.
- Pairwise distinctness of the fixed banking messages is not proved.
  `IpMessageInjective` covers only the two address messages, which carry a
  value.
- The concrete address strings of the tests are not checked one by one.
  They fall under the lemmas that hold for every input: `FromStringAccepts`,
  `FromStringUnreadablePart`, `FromStringWrongCount`, `FromStringOctetError`
  and `RoundTrip`.

Where the code and its documentation or tests disagree, the model follows the
code:

- `int()` accepts surrounding whitespace, a sign and leading zeros. So the
  domain `from_string` accepts " 1.2.3.4" and "01.2.3.4", although its
  docstring promises a format error for an invalid format.
- The legacy `deactivate()` is `pass`. Its skipped test expects the account to
  become inactive.
- Several legacy tests use the shared fixtures, which build canonical
  accounts. The legacy model follows `src/bank_account.py` itself.
- The docstrings name some errors differently from what is raised. For
  example, `withdraw` mentions `WithdrawalOutsideBusinessHoursError`, but the
  code raises `ValidationError`.
