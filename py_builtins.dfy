/**
 * The Python built-ins the core leans on, restricted to ASCII text:
 * `str.isspace`, `str.strip`, `str.split(sep)`, `sep.join(parts)`,
 * `int(text)` and `str(n)` for integers.
 */
module PyBuiltins {

  datatype Option<+T> = None | Some(value: T)

  // ---------------------------------------------------------------------------
  // Whitespace and blank strings
  // ---------------------------------------------------------------------------

  /** ASCII characters for which Python's `str.isspace()` holds:
      space, \t \n \v \f \r (9..13) and the separators \x1c..\x1f (28..31). */
  predicate IsSpace(c: char) {
    c == ' ' || ('\t' <= c <= '\r') || ('\U{1C}' <= c <= '\U{1F}')
  }

  /** The ASCII characters `int()` ignores around a number: space and
      \t \n \v \f \r, but not the separators \x1c..\x1f. */
  predicate IsIntSpace(c: char) {
    c == ' ' || ('\t' <= c <= '\r')
  }

  /** Which whitespace a trim removes: that of `str.strip()` or that of
      `int()`. */
  datatype Blanks = StrBlanks | IntBlanks

  predicate Drops(b: Blanks, c: char) {
    IsIntSpace(c) || (b == StrBlanks && '\U{1C}' <= c <= '\U{1F}')
  }

  /** Every character of `t` is whitespace `b`. */
  predicate AllDrop(b: Blanks, t: string) {
    forall i :: 0 <= i < |t| ==> Drops(b, t[i])
  }

  /** `s.lstrip()` for the whitespace `b`: the longest whitespace prefix is
      removed. */
  function TrimStart(s: string, b: Blanks): (r: string)
    ensures |r| <= |s| && r == s[|s| - |r|..]
    ensures r == [] || !Drops(b, r[0])
  {
    if |s| > 0 && Drops(b, s[0]) then
      var r := TrimStart(s[1..], b);
      r
    else s
  }

  /** `s.rstrip()` for the whitespace `b`: the longest whitespace suffix is
      removed. */
  function TrimEnd(s: string, b: Blanks): (r: string)
    ensures |r| <= |s| && r == s[..|r|]
    ensures r == [] || !Drops(b, r[|r| - 1])
  {
    if |s| > 0 && Drops(b, s[|s| - 1]) then
      var r := TrimEnd(s[..|s| - 1], b);
      r
    else s
  }

  /** `s.strip()`: what is left neither starts nor ends with whitespace. */
  function Strip(s: string): (r: string)
    ensures |r| <= |s|
    ensures r == [] || (!IsSpace(r[0]) && !IsSpace(r[|r| - 1]))
  {
    TrimEnd(TrimStart(s, StrBlanks), StrBlanks)
  }

  /** The trim `int()` applies to its argument. */
  function IntStrip(s: string): string {
    TrimEnd(TrimStart(s, IntBlanks), IntBlanks)
  }

  /** The check `not s or s.strip() == ""` used for names and e-mails: it
      holds exactly when every character is whitespace, so the empty string
      is blank. */
  predicate IsBlank(s: string)
    ensures IsBlank(s) <==> forall i :: 0 <= i < |s| ==> IsSpace(s[i])
  {
    var t := TrimStart(s, StrBlanks);
    TrimStartEmptyIff(s, StrBlanks);
    TrimEndEmptyIff(t, StrBlanks);
    assert t != [] ==> !Drops(StrBlanks, t[0]);
    assert forall i :: 0 <= i < |s| ==> (Drops(StrBlanks, s[i]) <==> IsSpace(s[i]));
    s == "" || Strip(s) == ""
  }

  /** What `lstrip` removes is whitespace `b`, every character of it. */
  lemma {:induction false} TrimStartDropsBlanks(s: string, b: Blanks)
    ensures AllDrop(b, s[..|s| - |TrimStart(s, b)|])
  {
    if |s| > 0 && Drops(b, s[0]) {
      var r := TrimStart(s[1..], b);
      TrimStartDropsBlanks(s[1..], b);
      assert s[..|s| - |r|] == [s[0]] + s[1..][..|s| - 1 - |r|];
    }
  }

  /** What `rstrip` removes is whitespace `b`, every character of it. */
  lemma {:induction false} TrimEndDropsBlanks(s: string, b: Blanks)
    ensures AllDrop(b, s[|TrimEnd(s, b)|..])
  {
    if |s| > 0 && Drops(b, s[|s| - 1]) {
      var r := TrimEnd(s[..|s| - 1], b);
      TrimEndDropsBlanks(s[..|s| - 1], b);
      assert s[|r|..] == s[..|s| - 1][|r|..] + [s[|s| - 1]];
    }
  }

  lemma {:induction false} TrimStartEmptyIff(s: string, b: Blanks)
    ensures TrimStart(s, b) == [] <==> forall i :: 0 <= i < |s| ==> Drops(b, s[i])
  {
    if |s| > 0 && Drops(b, s[0]) {
      TrimStartEmptyIff(s[1..], b);
      assert forall i :: 1 <= i < |s| ==> s[i] == s[1..][i - 1];
    }
  }

  lemma {:induction false} TrimEndEmptyIff(s: string, b: Blanks)
    ensures TrimEnd(s, b) == [] <==> forall i :: 0 <= i < |s| ==> Drops(b, s[i])
  {
    if |s| > 0 && Drops(b, s[|s| - 1]) {
      TrimEndEmptyIff(s[..|s| - 1], b);
      assert forall i :: 0 <= i < |s| - 1 ==> s[i] == s[..|s| - 1][i];
    }
  }

  // ---------------------------------------------------------------------------
  // Splitting and joining on a separator character
  // ---------------------------------------------------------------------------

  /** `s.split(sep)`: the maximal pieces between separators, always at least
      one (the empty string splits into one empty piece). */
  function Split(s: string, sep: char): (parts: seq<string>)
    ensures |parts| >= 1
    ensures forall i :: 0 <= i < |parts| ==> sep !in parts[i]
  {
    if s == [] then [""]
    else if s[0] == sep then [""] + Split(s[1..], sep)
    else
      var rest := Split(s[1..], sep);
      [[s[0]] + rest[0]] + rest[1..]
  }

  /** `sep.join(parts)` */
  function Join(parts: seq<string>, sep: char): string {
    if parts == [] then ""
    else if |parts| == 1 then parts[0]
    else parts[0] + [sep] + Join(parts[1..], sep)
  }

  /** Joining the pieces again gives back the string that was split. */
  lemma {:induction false} JoinSplit(s: string, sep: char)
    ensures Join(Split(s, sep), sep) == s
  {
    if s == [] {
    } else if s[0] == sep {
      JoinSplit(s[1..], sep);
    } else {
      JoinSplit(s[1..], sep);
      var rest := Split(s[1..], sep);
      if |rest| > 1 {
        assert rest == [rest[0]] + rest[1..];
      }
    }
  }

  lemma {:induction false} SplitPrefix(p: string, sep: char, tail: string)
    requires sep !in p
    ensures Split(p + [sep] + tail, sep) == [p] + Split(tail, sep)
  {
    if p == [] {
      assert p + [sep] + tail == [sep] + tail;
      assert ([sep] + tail)[1..] == tail;
    } else {
      assert (p + [sep] + tail)[1..] == p[1..] + [sep] + tail;
      SplitPrefix(p[1..], sep, tail);
      assert [p[0]] + p[1..] == p;
    }
  }

  lemma {:induction false} SplitNoSep(p: string, sep: char)
    requires sep !in p
    ensures Split(p, sep) == [p]
  {
    if p != [] {
      SplitNoSep(p[1..], sep);
      assert [p[0]] + p[1..] == p;
    }
  }

  /** Extending the last piece extends the joined text. */
  lemma {:induction false} JoinAppendChar(parts: seq<string>, c: char, sep: char)
    requires |parts| >= 1
    ensures Join(parts, sep) + [c] == Join(parts[..|parts| - 1] + [parts[|parts| - 1] + [c]], sep)
  {
    var longer := parts[..|parts| - 1] + [parts[|parts| - 1] + [c]];
    if |parts| > 1 {
      JoinAppendChar(parts[1..], c, sep);
      assert longer[0] == parts[0];
      assert longer[1..] == parts[1..][..|parts| - 2] + [parts[|parts| - 1] + [c]];
    }
  }

  /** A further piece, joined at the end, follows a separator. */
  lemma {:induction false} JoinAppendPart(parts: seq<string>, last: string, sep: char)
    requires |parts| >= 1
    ensures Join(parts + [last], sep) == Join(parts, sep) + [sep] + last
  {
    var longer := parts + [last];
    if |parts| > 1 {
      JoinAppendPart(parts[1..], last, sep);
      assert longer[0] == parts[0] && longer[1..] == parts[1..] + [last];
    } else {
      assert longer[0] == parts[0] && longer[1..] == [last];
    }
  }

  /** A character other than the separator, added at the end, joins the last
      piece. */
  lemma SplitAppendChar(t: string, c: char, sep: char)
    requires c != sep
    ensures var p := Split(t, sep);
      Split(t + [c], sep) == p[..|p| - 1] + [p[|p| - 1] + [c]]
  {
    var p := Split(t, sep);
    var longer := p[..|p| - 1] + [p[|p| - 1] + [c]];
    JoinSplit(t, sep);
    JoinAppendChar(p, c, sep);
    assert forall i :: 0 <= i < |longer| - 1 ==> longer[i] == p[i];
    SplitJoin(longer, sep);
  }

  /** A single piece means the separator does not occur at all. */
  lemma {:induction false} SplitNoSepIff(s: string, sep: char)
    requires |Split(s, sep)| == 1
    ensures Split(s, sep) == [s]
  {
    if s != [] {
      if s[0] == sep {
        assert false;
      } else {
        SplitNoSepIff(s[1..], sep);
        assert [s[0]] + s[1..] == s;
      }
    }
  }

  /** Splitting a join of separator-free pieces gives back the pieces. */
  lemma {:induction false} SplitJoin(parts: seq<string>, sep: char)
    requires |parts| >= 1
    requires forall i :: 0 <= i < |parts| ==> sep !in parts[i]
    ensures Split(Join(parts, sep), sep) == parts
  {
    if |parts| == 1 {
      SplitNoSep(parts[0], sep);
    } else {
      SplitJoin(parts[1..], sep);
      SplitPrefix(parts[0], sep, Join(parts[1..], sep));
      assert parts == [parts[0]] + parts[1..];
    }
  }

  // ---------------------------------------------------------------------------
  // Decimal digits, int() and str()
  // ---------------------------------------------------------------------------

  /** An ASCII decimal digit. */
  predicate IsDigit(c: char) {
    '0' <= c <= '9'
  }

  predicate AllDigits(s: string) {
    forall i :: 0 <= i < |s| ==> IsDigit(s[i])
  }

  function DigitValue(c: char): (d: nat)
    requires IsDigit(c)
    ensures d < 10
  {
    c as int - '0' as int
  }

  function DigitChar(d: nat): (c: char)
    requires d < 10
    ensures IsDigit(c) && DigitValue(c) == d
  {
    ('0' as int + d) as char
  }

  /** The value of a run of decimal digits, most significant first; leading
      zeros are allowed, as in Python's `int("007")`. */
  function DigitsValue(s: string): nat
    requires AllDigits(s)
  {
    if s == [] then 0
    else DigitsValue(s[..|s| - 1]) * 10 + DigitValue(s[|s| - 1])
  }

  /** At most three digits stand for a number below 1000. */
  lemma ShortDigitsValue(d: string)
    requires AllDigits(d) && |d| <= 3
    ensures DigitsValue(d) <= 999
  {
    if d != [] {
      var a := d[..|d| - 1];
      if a != [] {
        var b := a[..|a| - 1];
        if b != [] {
          assert b[..|b| - 1] == [];
        }
      }
    }
  }

  /** CPython's default limit on the number of decimal digits that `int()`
      reads and `str()` writes (`sys.int_info.default_max_str_digits`): a
      longer digit run, leading zeros included, makes `int()` raise
      ValueError, and a number with more digits makes `str()` raise it. */
  const MaxStrDigits: nat := 4300

  /** The decimal digits of a natural number: no sign and no leading zeros. */
  function NatToStr(n: nat): (s: string)
    ensures 1 <= |s| && AllDigits(s)
  {
    if n < 10 then [DigitChar(n)] else NatToStr(n / 10) + [DigitChar(n % 10)]
  }

  /** The decimal text of an integer: a '-' exactly for a negative number,
      then its digits. `str(n)` gives this text when `WithinDigitLimit(n)`
      and raises ValueError otherwise. */
  function IntToStr(n: int): (s: string)
    ensures 1 <= |s| && (s[0] == '-' <==> n < 0)
    ensures AllDigits(if n < 0 then s[1..] else s)
  {
    if n < 0 then "-" + NatToStr(-n) else NatToStr(n)
  }

  /** `str(n)` does not raise: n has at most `MaxStrDigits` digits. */
  predicate WithinDigitLimit(n: int) {
    |NatToStr(if n < 0 then -n else n)| <= MaxStrDigits
  }

  /** `int(s)` in base 10, or None where Python raises ValueError: the
      whitespace `int()` ignores may surround an optional '+' or '-' and one
      to `MaxStrDigits` digits. */
  function ParseInt(s: string): Option<int> {
    ParseSigned(IntStrip(s))
  }

  /** An optional sign followed by one to `MaxStrDigits` digits, and nothing
      else: a readable text ends with a digit, is at most one character longer
      than the limit, and only a '-' makes it negative. */
  function ParseSigned(t: string): (r: Option<int>)
    ensures r.Some? ==> t != [] && IsDigit(t[|t| - 1]) && |t| <= MaxStrDigits + 1
    ensures r.Some? ==> (IsDigit(t[0]) || t[0] == '+' || t[0] == '-')
    ensures r.Some? && r.value < 0 ==> t[0] == '-'
  {
    var negative := |t| > 0 && t[0] == '-';
    var digits := if |t| > 0 && (t[0] == '+' || t[0] == '-') then t[1..] else t;
    if digits != [] && AllDigits(digits) && |digits| <= MaxStrDigits then
      var v: int := DigitsValue(digits);
      Some(if negative then -v else v)
    else None
  }

  lemma {:induction false} NatToStrValue(n: nat)
    ensures DigitsValue(NatToStr(n)) == n
  {
    if n >= 10 {
      NatToStrValue(n / 10);
      var s := NatToStr(n / 10) + [DigitChar(n % 10)];
      assert s[..|s| - 1] == NatToStr(n / 10);
    }
  }

  /** Numbers below 1000 print as at most three digits. */
  lemma {:induction false} NatToStrShort(n: nat)
    requires n < 1000
    ensures |NatToStr(n)| <= 3
  {
    if n >= 10 {
      NatToStrShort(n / 10);
      if n < 100 {
        assert n / 10 < 10;
      }
    }
  }

  /** `int()` ignores whitespace added at either end of its argument. */
  lemma ParseIntPadded(s: string, c: char)
    requires IsIntSpace(c)
    ensures ParseInt([c] + s) == ParseInt(s)
    ensures ParseInt(s + [c]) == ParseInt(s)
  {
    IntStripPadded(s, c);
  }

  lemma IntStripPadded(s: string, c: char)
    requires IsIntSpace(c)
    ensures IntStrip([c] + s) == IntStrip(s)
    ensures IntStrip(s + [c]) == IntStrip(s)
  {
    assert ([c] + s)[1..] == s;
    var t := TrimStart(s, IntBlanks);
    TrimStartAppendBlank(s, c, IntBlanks);
    if t != [] {
      assert (t + [c])[..|t|] == t;
    }
  }

  /** Whitespace added at the end survives `lstrip` unless everything before
      it was whitespace too. */
  lemma {:induction false} TrimStartAppendBlank(s: string, c: char, b: Blanks)
    requires Drops(b, c)
    ensures TrimStart(s, b) == [] ==> TrimStart(s + [c], b) == []
    ensures TrimStart(s, b) != [] ==> TrimStart(s + [c], b) == TrimStart(s, b) + [c]
  {
    var sc := s + [c];
    if s == [] {
      assert sc == [c] && sc[1..] == [];
    } else {
      assert sc[0] == s[0] && sc[1..] == s[1..] + [c];
      if Drops(b, s[0]) {
        TrimStartAppendBlank(s[1..], c, b);
      }
    }
  }

  lemma TrimOfUnpadded(s: string)
    requires s != [] && !IsIntSpace(s[0]) && !IsIntSpace(s[|s| - 1])
    ensures IntStrip(s) == s
  {
    assert TrimStart(s, IntBlanks) == s;
  }

  /** `int()` does not treat the separators \x1c..\x1f as whitespace, though
      `str.strip()` does: one written after the digits makes the text
      unreadable, and stripping it first would have removed it. */
  lemma ParseIntKeepsSeparator(d: string, c: char)
    requires d != [] && AllDigits(d) && '\U{1C}' <= c <= '\U{1F}'
    ensures ParseInt(d + [c]) == None
    ensures Strip(d + [c]) == d
  {
    var t := d + [c];
    assert t[0] == d[0] && t[|t| - 1] == c;
    TrailingSeparatorUnreadable(t);
    StripTrailingSeparator(d, c);
  }

  lemma TrailingSeparatorUnreadable(t: string)
    requires t != [] && IsDigit(t[0]) && '\U{1C}' <= t[|t| - 1] <= '\U{1F}'
    ensures ParseInt(t) == None
  {
    assert ParseSigned(t) == None by {
      assert t[0] != '+' && t[0] != '-';
      assert !IsDigit(t[|t| - 1]);
    }
    TrimOfUnpadded(t);
  }

  lemma StripTrailingSeparator(d: string, c: char)
    requires d != [] && IsDigit(d[0]) && IsDigit(d[|d| - 1]) && '\U{1C}' <= c <= '\U{1F}'
    ensures Strip(d + [c]) == d
  {
    var t := d + [c];
    assert t[0] == d[0];
    assert TrimStart(t, StrBlanks) == t;
    assert t[..|t| - 1] == d;
    assert TrimEnd(t, StrBlanks) == TrimEnd(d, StrBlanks) == d;
  }

  lemma ParseSignedDigits(d: string)
    requires d != [] && AllDigits(d)
    ensures |d| <= MaxStrDigits ==> ParseSigned(d) == Some(DigitsValue(d) as int)
    ensures |d| <= MaxStrDigits ==> ParseSigned("-" + d) == Some(-(DigitsValue(d) as int))
    ensures |d| > MaxStrDigits ==> ParseSigned(d) == None && ParseSigned("-" + d) == None
  {
    assert d[0] != '+' && d[0] != '-';
    var t := "-" + d;
    assert t[0] == '-' && t[1..] == d;
  }

  /** A run of digits within the limit, with or without a leading '-', is
      read by `int()` as its signed digit value; a longer one is refused. */
  lemma ParseIntSigned(d: string, negative: bool)
    requires d != [] && AllDigits(d)
    ensures |d| <= MaxStrDigits ==>
              ParseInt(if negative then "-" + d else d)
              == Some(if negative then -(DigitsValue(d) as int) else DigitsValue(d))
    ensures |d| > MaxStrDigits ==> ParseInt(if negative then "-" + d else d) == None
  {
    var s := if negative then "-" + d else d;
    assert s[|s| - 1] == d[|d| - 1];
    TrimOfUnpadded(s);
    ParseSignedDigits(d);
  }

  /** `int(str(n)) == n` for every integer `str()` prints; `int()` refuses
      the decimal text of any other integer, as `str()` does. */
  lemma ParseIntToStr(n: int)
    ensures WithinDigitLimit(n) ==> ParseInt(IntToStr(n)) == Some(n)
    ensures !WithinDigitLimit(n) ==> ParseInt(IntToStr(n)) == None
  {
    var m: nat := if n < 0 then -n else n;
    NatToStrValue(m);
    ParseIntSigned(NatToStr(m), n < 0);
  }

  /** The decimal text determines the integer, within the limit or not. */
  lemma IntToStrInjective(a: int, b: int)
    requires IntToStr(a) == IntToStr(b)
    ensures a == b
  {
    var ma: nat := if a < 0 then -a else a;
    var mb: nat := if b < 0 then -b else b;
    NatToStrValue(ma);
    NatToStrValue(mb);
    if a < 0 {
      assert IntToStr(a)[1..] == NatToStr(ma) && IntToStr(b)[1..] == NatToStr(mb);
    }
  }

  /** A final newline is stripped like any other trailing whitespace. */
  lemma StripNewline(s: string)
    requires s != [] && !IsIntSpace(s[0]) && !IsIntSpace(s[|s| - 1])
    ensures IntStrip(s + "\n") == s
  {
    var t := s + "\n";
    assert t[0] == s[0];
    assert TrimStart(t, IntBlanks) == t;
    assert t[..|t| - 1] == s;
    assert TrimEnd(s, IntBlanks) == s;
  }

  /** A run of digits within the limit, also with a final newline, is read by
      `int()` as its digit value; a longer run is refused either way. */
  lemma ParseIntDigits(s: string)
    requires s != [] && AllDigits(s)
    ensures |s| <= MaxStrDigits ==> ParseInt(s) == Some(DigitsValue(s))
    ensures |s| <= MaxStrDigits ==> ParseInt(s + "\n") == Some(DigitsValue(s))
    ensures |s| > MaxStrDigits ==> ParseInt(s) == None && ParseInt(s + "\n") == None
  {
    UnpaddedRead(s);
    ParseSignedDigits(s);
  }

  /** A text with no whitespace at either end is read by `int()` as it
      stands, also after a final newline. */
  lemma UnpaddedRead(s: string)
    requires s != [] && !IsIntSpace(s[0]) && !IsIntSpace(s[|s| - 1])
    ensures ParseInt(s) == ParseSigned(s) && ParseInt(s + "\n") == ParseSigned(s)
  {
    TrimOfUnpadded(s);
    StripNewline(s);
  }

  /** A leading zero does not change the value of a run of digits. */
  lemma {:induction false} LeadingZeroValue(d: string)
    requires AllDigits(d)
    ensures AllDigits("0" + d) && DigitsValue("0" + d) == DigitsValue(d)
  {
    var z := "0" + d;
    if d == [] {
      assert z[..0] == [];
    } else {
      LeadingZeroValue(d[..|d| - 1]);
      assert z[..|z| - 1] == "0" + d[..|d| - 1];
    }
  }

  /** `int("0" + str(n)) == n`: one leading zero is accepted and dropped,
      but it counts towards the digit limit. */
  lemma ParseIntLeadingZero(n: nat)
    ensures |NatToStr(n)| < MaxStrDigits ==> ParseInt("0" + NatToStr(n)) == Some(n)
    ensures |NatToStr(n)| >= MaxStrDigits ==> ParseInt("0" + NatToStr(n)) == None
  {
    var d := NatToStr(n);
    LeadingZeroValue(d);
    NatToStrValue(n);
    ParseIntDigits("0" + d);
  }
}
