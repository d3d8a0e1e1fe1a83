/**
 * The earlier IPv4 value object of the geolocator script
 * (src/ip_address_geolocator.py, class `IpAddress` only): `from_string`
 * first filters the text with the regular expression
 * `^(\d{1,3}\.){3}\d{1,3}$`, then reads the parts with `int()` and checks
 * each octet's range; `__str__` joins the decimal octets with '.'.
 */
module IpAddressGeolocator {
  import opened PyBuiltins
  import opened Validation
  import IpAddressDomain

  /** The reason carried by a `GeolocationError` raised by `from_string`. */
  datatype GeolocationError = InvalidFormat(ipString: string) | InvalidOctet(octet: int)
  {
    function Message(): string {
      match this
      case InvalidFormat(s) => "Invalid IP address format: " + s
      case InvalidOctet(o) => "Invalid IP address octet: " + IntToStr(o)
    }
  }

  /** This script's own `IpAddress(octets=...)`, which also checks nothing. */
  datatype IpAddress = IpAddress(octets: seq<int>)

  // ---------------------------------------------------------------------------
  // The regular expression
  // ---------------------------------------------------------------------------

  /** `\d{1,3}` over an entire piece (ASCII digits). */
  predicate DigitGroup(g: string) {
    1 <= |g| <= 3 && AllDigits(g)
  }

  /** `(\d{1,3}\.){n}\d{1,3}` matching all of `s`: the text is cut after one,
      two or three characters that form a group and are followed by a '.'. */
  predicate GroupsMatch(s: string, n: nat)
    decreases n, 1
  {
    if n == 0 then DigitGroup(s)
    else GroupThenDot(s, 1, n) || GroupThenDot(s, 2, n) || GroupThenDot(s, 3, n)
  }

  /** `\d{j}\.` at the start of `s`, then `(\d{1,3}\.){n-1}\d{1,3}` for the
      rest. */
  predicate GroupThenDot(s: string, j: nat, n: nat)
    decreases n, 0
  {
    0 < n && j < |s| && DigitGroup(s[..j]) && s[j] == '.' && GroupsMatch(s[j + 1..], n - 1)
  }

  /** `re.match(r'^(\d{1,3}\.){3}\d{1,3}$', s)`: `$` matches at the end of
      the text and also just before a newline that ends it, so a matching
      text is 7 to 15 characters long, 16 with that newline. */
  predicate PatternMatches(s: string)
    ensures PatternMatches(s) ==> 7 <= |s| <= 16
  {
    GroupsMatchLength(s, 3);
    GroupsMatchLength(if |s| > 0 then s[..|s| - 1] else s, 3);
    GroupsMatch(s, 3) || (|s| > 0 && s[|s| - 1] == '\n' && GroupsMatch(s[..|s| - 1], 3))
  }

  /** `n` dotted groups and a last group take two to four characters each,
      the last group one to three. */
  lemma {:induction false} GroupsMatchLength(s: string, n: nat)
    ensures GroupsMatch(s, n) ==> 2 * n + 1 <= |s| <= 4 * n + 3
  {
    if n > 0 && GroupsMatch(s, n) {
      var j := if GroupThenDot(s, 1, n) then 1 else if GroupThenDot(s, 2, n) then 2 else 3;
      assert GroupThenDot(s, j, n);
      GroupsMatchLength(s[j + 1..], n - 1);
    }
  }

  // ---------------------------------------------------------------------------
  // from_string and __str__
  // ---------------------------------------------------------------------------

  /** `IpAddress.from_string(ip_string)`: the pattern comes first, then the
      parts are read and range-checked. An accepted text matches the pattern
      and gives one octet in range per part; a format error carries the text,
      an octet error an octet outside 0..255. */
  function FromString(s: string): (r: Result<IpAddress, GeolocationError>)
    ensures r.Ok? ==> PatternMatches(s) && |r.value.octets| == |Split(s, '.')|
                      && forall i :: 0 <= i < |r.value.octets| ==> IpAddressDomain.InRange(r.value.octets[i])
    ensures r.Err? ==> r.error == InvalidFormat(s) || (r.error.InvalidOctet? && !IpAddressDomain.InRange(r.error.octet))
  {
    if !PatternMatches(s) then Err(InvalidFormat(s)) else ReadParts(s)
  }

  /** What `from_string` does once the pattern has matched: the parts are
      read like the domain variant does, but without a separate count check,
      and then range-checked. A ValueError from `int()` would be reported as
      a format error; `NoValueErrorAfterPattern` shows it cannot happen. */
  function ReadParts(s: string): (r: Result<IpAddress, GeolocationError>)
    ensures r.Ok? ==> |r.value.octets| == |Split(s, '.')|
                      && forall i :: 0 <= i < |r.value.octets| ==> IpAddressDomain.InRange(r.value.octets[i])
    ensures r.Err? ==> r.error == InvalidFormat(s) || (r.error.InvalidOctet? && !IpAddressDomain.InRange(r.error.octet))
  {
    match IpAddressDomain.ParseParts(Split(s, '.'))
    case None => Err(InvalidFormat(s))
    case Some(octets) => CheckRange(octets)
  }

  /** The range check loop of `from_string`: the first octet outside 0..255
      is reported by value, and octets all in range make the address. */
  function CheckRange(octets: seq<int>): (r: Result<IpAddress, GeolocationError>)
    ensures r.Ok? <==> forall i :: 0 <= i < |octets| ==> IpAddressDomain.InRange(octets[i])
    ensures r.Ok? ==> r.value.octets == octets
    ensures r.Err? ==> r.error.InvalidOctet? && !IpAddressDomain.InRange(r.error.octet)
                       && exists k :: 0 <= k < |octets| && octets[k] == r.error.octet
  {
    match IpAddressDomain.FirstOutOfRange(octets)
    case Some(o) => Err(InvalidOctet(o))
    case None => Ok(IpAddress(octets))
  }

  /** The text `'.'.join(str(octet) for octet in self.octets)` builds, as in
      the domain variant: splitting it gives back the printed octets, and no
      octets give the empty text. */
  function Joined(ip: IpAddress): (s: string)
    ensures ip.octets != [] ==> Split(s, '.') == IpAddressDomain.OctetStrings(ip.octets)
    ensures ip.octets == [] ==> s == ""
  {
    IpAddressDomain.Joined(IpAddressDomain.IpAddress(ip.octets))
  }

  /** `str(ip)`: None where `str(octet)` raises ValueError for an octet with
      more than `MaxStrDigits` digits; otherwise a text whose pieces between
      the dots are the printed octets. */
  function ToString(ip: IpAddress): (r: Option<string>)
    ensures r.Some? <==> forall i :: 0 <= i < |ip.octets| ==> WithinDigitLimit(ip.octets[i])
    ensures r.Some? && ip.octets != [] ==> Split(r.value, '.') == IpAddressDomain.OctetStrings(ip.octets)
    ensures ip.octets == [] ==> r == Some("")
  {
    if forall i :: 0 <= i < |ip.octets| ==> WithinDigitLimit(ip.octets[i]) then Some(Joined(ip)) else None
  }

  // ---------------------------------------------------------------------------
  // The pattern in terms of the pieces between the dots
  // ---------------------------------------------------------------------------

  /** `t` splits on '.' into `count` pieces of one to three digits each. */
  ghost predicate SplitsIntoGroups(t: string, count: nat) {
    var parts := Split(t, '.');
    |parts| == count && forall i :: 0 <= i < count ==> DigitGroup(parts[i])
  }

  /** Matching `n` dotted groups and a last group is the same as splitting on
      '.' into `n + 1` pieces that are each one to three digits. */
  lemma GroupsMatchIffSplit(s: string, n: nat)
    ensures GroupsMatch(s, n) <==> SplitsIntoGroups(s, n + 1)
  {
    if GroupsMatch(s, n) {
      GroupsMatchSplits(s, n);
    }
    if SplitsIntoGroups(s, n + 1) {
      SplitsMatchGroups(s, n);
    }
  }

  lemma {:induction false} GroupsMatchSplits(s: string, n: nat)
    requires GroupsMatch(s, n)
    ensures SplitsIntoGroups(s, n + 1)
  {
    if n == 0 {
      assert '.' !in s by {
        assert forall i :: 0 <= i < |s| ==> IsDigit(s[i]);
      }
      SplitNoSep(s, '.');
    } else {
      var j := if GroupThenDot(s, 1, n) then 1 else if GroupThenDot(s, 2, n) then 2 else 3;
      GroupsMatchSplits(s[j + 1..], n - 1);
      GroupThenDotSplits(s, j, n);
    }
  }

  /** A group and a '.' in front of `n + 1` pieces make `n + 2` pieces. */
  lemma GroupThenDotSplits(s: string, j: nat, n: nat)
    requires GroupThenDot(s, j, n) && SplitsIntoGroups(s[j + 1..], n)
    ensures SplitsIntoGroups(s, n + 1)
  {
    assert '.' !in s[..j] by {
      assert forall i :: 0 <= i < j ==> IsDigit(s[..j][i]);
    }
    assert s == s[..j] + ['.'] + s[j + 1..];
    SplitPrefix(s[..j], '.', s[j + 1..]);
    var tail := Split(s[j + 1..], '.');
    assert Split(s, '.') == [s[..j]] + tail;
    assert forall i :: 1 <= i < n + 1 ==> Split(s, '.')[i] == tail[i - 1];
  }

  lemma {:induction false} SplitsMatchGroups(s: string, n: nat)
    requires SplitsIntoGroups(s, n + 1)
    ensures GroupsMatch(s, n)
  {
    if n == 0 {
      SplitNoSepIff(s, '.');
      assert DigitGroup(Split(s, '.')[0]);
    } else {
      var parts := Split(s, '.');
      SplitHead(s, '.');
      var j := |parts[0]|;
      assert Split(s[j + 1..], '.') == parts[1..];
      assert forall i :: 0 <= i < n ==> parts[1..][i] == parts[i + 1];
      SplitsMatchGroups(s[j + 1..], n - 1);
      assert GroupThenDot(s, j, n);
      if j == 1 {
        assert GroupThenDot(s, 1, n);
      } else if j == 2 {
        assert GroupThenDot(s, 2, n);
      } else {
        assert GroupThenDot(s, 3, n);
      }
    }
  }

  /** A text with at least two pieces is its first piece, a '.', and a rest
      that splits into the remaining pieces. */
  lemma SplitHead(s: string, sep: char)
    requires |Split(s, sep)| >= 2
    ensures |Split(s, sep)[0]| < |s| && s[..|Split(s, sep)[0]|] == Split(s, sep)[0]
    ensures s[|Split(s, sep)[0]|] == sep
    ensures Split(s[|Split(s, sep)[0]| + 1..], sep) == Split(s, sep)[1..]
  {
    var parts := Split(s, sep);
    JoinSplit(s, sep);
    assert s == parts[0] + [sep] + Join(parts[1..], sep);
    var j := |parts[0]|;
    assert s[j + 1..] == Join(parts[1..], sep);
    SplitJoin(parts[1..], sep);
  }

  /** The pattern in terms of pieces, with the final newline `$` allows. */
  lemma PatternIffSplit(s: string)
    ensures PatternMatches(s) <==>
      SplitsIntoGroups(s, 4) || (|s| > 0 && s[|s| - 1] == '\n' && SplitsIntoGroups(s[..|s| - 1], 4))
  {
    GroupsMatchIffSplit(s, 3);
    if |s| > 0 {
      GroupsMatchIffSplit(s[..|s| - 1], 3);
    }
  }

  /** What the pattern lets through starts with a digit and holds only digits
      and dots, apart from the final newline `$` allows: signs, spaces and
      other separators are refused before any `int()` call. */
  lemma PatternChars(s: string)
    requires PatternMatches(s)
    ensures |s| > 0 && IsDigit(s[0])
    ensures forall i :: 0 <= i < |s| ==> IsDigit(s[i]) || s[i] == '.' || (i == |s| - 1 && s[i] == '\n')
  {
    if GroupsMatch(s, 3) {
      GroupsMatchChars(s, 3);
    } else {
      var t := s[..|s| - 1];
      GroupsMatchChars(t, 3);
      assert forall i :: 0 <= i < |t| ==> s[i] == t[i];
    }
  }

  lemma {:induction false} GroupsMatchChars(s: string, n: nat)
    requires GroupsMatch(s, n)
    ensures |s| > 0 && IsDigit(s[0])
    ensures forall i :: 0 <= i < |s| ==> IsDigit(s[i]) || s[i] == '.'
  {
    if n > 0 {
      var j := if GroupThenDot(s, 1, n) then 1 else if GroupThenDot(s, 2, n) then 2 else 3;
      var rest := s[j + 1..];
      GroupsMatchChars(rest, n - 1);
      assert forall i :: 0 <= i < j ==> s[i] == s[..j][i];
      assert forall i :: j < i < |s| ==> s[i] == rest[i - j - 1];
    }
  }

  /** After the pattern `int()` cannot fail: there are four parts, each read
      as a number from 0 to 999. */
  lemma NoValueErrorAfterPattern(s: string)
    requires PatternMatches(s)
    ensures var r := IpAddressDomain.ParseParts(Split(s, '.'));
      r.Some? && |r.value| == 4 && forall i :: 0 <= i < 4 ==> 0 <= r.value[i] <= 999
  {
    PatternIffSplit(s);
    if SplitsIntoGroups(s, 4) {
      GroupsRead(Split(s, '.'));
    } else {
      NewlineGroupsRead(s);
    }
    PartsRead(Split(s, '.'));
  }

  /** The newline `$` allows stays in the last part, where `int()` drops it. */
  lemma NewlineGroupsRead(s: string)
    requires |s| > 0 && s[|s| - 1] == '\n' && SplitsIntoGroups(s[..|s| - 1], 4)
    ensures var parts := Split(s, '.');
      |parts| == 4 && forall i :: 0 <= i < 4 ==> ParseInt(parts[i]).Some? && 0 <= ParseInt(parts[i]).value <= 999
  {
    NewlineSplit(s);
    GroupsReadWithNewline(Split(s[..|s| - 1], '.'), Split(s, '.'));
  }

  lemma GroupsReadWithNewline(p: seq<string>, parts: seq<string>)
    requires |p| == 4 && forall i :: 0 <= i < 4 ==> DigitGroup(p[i])
    requires |parts| == 4 && parts[0] == p[0] && parts[1] == p[1] && parts[2] == p[2] && parts[3] == p[3] + "\n"
    ensures forall i :: 0 <= i < 4 ==> ParseInt(parts[i]).Some? && 0 <= ParseInt(parts[i]).value <= 999
  {
    forall i | 0 <= i < 4
      ensures ParseInt(parts[i]).Some? && 0 <= ParseInt(parts[i]).value <= 999
    {
      GroupRead(p[i]);
      assert parts[i] == p[i] || (i == 3 && parts[i] == p[i] + "\n") by {
        if i == 0 {} else if i == 1 {} else if i == 2 {} else {}
      }
    }
  }

  /** Splitting a text that ends in a newline: the pieces of the rest, with
      the newline added to the last. */
  lemma NewlineSplit(s: string)
    requires |s| > 0 && s[|s| - 1] == '\n' && |Split(s[..|s| - 1], '.')| == 4
    ensures var p := Split(s[..|s| - 1], '.');
      var parts := Split(s, '.');
      |parts| == 4 && parts[0] == p[0] && parts[1] == p[1] && parts[2] == p[2] && parts[3] == p[3] + "\n"
  {
    var t := s[..|s| - 1];
    var p := Split(t, '.');
    assert s == t + ['\n'];
    SplitAppendChar(t, '\n', '.');
    assert Split(s, '.') == p[..3] + [p[3] + ['\n']];
  }

  lemma PartsRead(parts: seq<string>)
    requires |parts| == 4
    requires forall i :: 0 <= i < 4 ==> ParseInt(parts[i]).Some? && 0 <= ParseInt(parts[i]).value <= 999
    ensures var r := IpAddressDomain.ParseParts(parts);
      r.Some? && |r.value| == 4 && forall i :: 0 <= i < 4 ==> 0 <= r.value[i] <= 999
  {
  }

  /** Each group, with or without a newline after it, is read by `int()` as
      a number from 0 to 999. */
  lemma GroupsRead(p: seq<string>)
    requires |p| == 4 && forall i :: 0 <= i < 4 ==> DigitGroup(p[i])
    ensures forall i :: 0 <= i < 4 ==> ParseInt(p[i]).Some? && 0 <= ParseInt(p[i]).value <= 999
  {
    forall i | 0 <= i < 4
      ensures ParseInt(p[i]).Some? && 0 <= ParseInt(p[i]).value <= 999
    {
      GroupRead(p[i]);
    }
  }

  /** A group, with or without a newline after it, is read by `int()` as a
      number from 0 to 999. */
  lemma GroupRead(g: string)
    requires DigitGroup(g)
    ensures ParseInt(g).Some? && 0 <= ParseInt(g).value <= 999
    ensures ParseInt(g + "\n") == ParseInt(g)
  {
    ParseIntDigits(g);
    ShortDigitsValue(g);
  }

  lemma AfterPatternOnlyHighOctet(s: string)
    requires PatternMatches(s)
    ensures FromString(s).Err? ==> FromString(s).error.InvalidOctet? && FromString(s).error.octet > 255
  {
    NoValueErrorAfterPattern(s);
    var octets := IpAddressDomain.ParseParts(Split(s, '.')).value;
    var first := IpAddressDomain.FirstOutOfRange(octets);
    if first.Some? {
      var k :| 0 <= k < |octets| && octets[k] == first.value && !IpAddressDomain.InRange(first.value);
      assert octets[k] >= 0;
    }
  }

  /** `from_string` succeeds exactly when the pattern matches and every part
      reads as at most 255; the address holds those values in order. */
  lemma FromStringAccepts(s: string)
    ensures FromString(s).Ok? <==>
      PatternMatches(s)
      && var parts := Split(s, '.');
         |parts| == 4 && forall i :: 0 <= i < 4 ==> ParseInt(parts[i]).Some? && ParseInt(parts[i]).value <= 255
    ensures FromString(s).Ok? ==>
      var parts := Split(s, '.');
      |FromString(s).value.octets| == 4
      && forall i :: 0 <= i < 4 ==> FromString(s).value.octets[i] == ParseInt(parts[i]).value
  {
    if PatternMatches(s) {
      NoValueErrorAfterPattern(s);
      QuadRangeCheck(Split(s, '.'));
    }
  }

  /** On four parts read as 0..999, the range check passes exactly when no
      part is above 255. */
  lemma QuadRangeCheck(parts: seq<string>)
    requires |parts| == 4
    requires forall i :: 0 <= i < 4 ==> ParseInt(parts[i]).Some? && 0 <= ParseInt(parts[i]).value
    ensures IpAddressDomain.ParseParts(parts).Some?
    ensures var octets := IpAddressDomain.ParseParts(parts).value;
      (IpAddressDomain.FirstOutOfRange(octets).None? <==> forall i :: 0 <= i < 4 ==> ParseInt(parts[i]).value <= 255)
      && |octets| == 4 && forall i :: 0 <= i < 4 ==> octets[i] == ParseInt(parts[i]).value
  {
  }

  /** The first part above 255 is reported by value. */
  lemma FromStringHighOctet(s: string, k: nat)
    requires PatternMatches(s)
    requires k < |Split(s, '.')| && ParseInt(Split(s, '.')[k]).Some? && ParseInt(Split(s, '.')[k]).value > 255
    requires forall i :: 0 <= i < k ==> ParseInt(Split(s, '.')[i]).Some? && ParseInt(Split(s, '.')[i]).value <= 255
    ensures FromString(s) == Err(InvalidOctet(ParseInt(Split(s, '.')[k]).value))
  {
    NoValueErrorAfterPattern(s);
    var octets := IpAddressDomain.ParseParts(Split(s, '.')).value;
    IpAddressDomain.FirstOutOfRangeAt(octets, k);
  }

  // ---------------------------------------------------------------------------
  // Printing and parsing again
  // ---------------------------------------------------------------------------

  /** `from_string(str(ip)) == ip` for four octets in 0..255. */
  lemma RoundTrip(ip: IpAddress)
    requires |ip.octets| == 4 && forall i :: 0 <= i < 4 ==> IpAddressDomain.InRange(ip.octets[i])
    ensures ToString(ip).Some? && FromString(ToString(ip).value) == Ok(ip)
  {
    var parts := IpAddressDomain.OctetStrings(ip.octets);
    forall i | 0 <= i < 4
      ensures DigitGroup(parts[i]) && WithinDigitLimit(ip.octets[i])
    {
      NatToStrShort(ip.octets[i]);
    }
    GroupsMatchIffSplit(Joined(ip), 3);
    IpAddressDomain.InRangeOctetsRead(ip.octets);
  }

  // ---------------------------------------------------------------------------
  // Against the domain variant
  // ---------------------------------------------------------------------------

  /** Wherever the pattern matches, the two variants give the same outcome:
      the same octets, or the same octet reported. */
  lemma AgreesWithDomain(s: string)
    requires PatternMatches(s)
    ensures IpAddressDomain.FromString(s)
         == match FromString(s)
            case Ok(ip) => Ok(IpAddressDomain.IpAddress(ip.octets))
            case Err(InvalidOctet(o)) => Err(InvalidIpOctet(o))
            case Err(InvalidFormat(x)) => Err(InvalidIpFormat(x))
  {
    NoValueErrorAfterPattern(s);
  }

  /** Every text this variant accepts, the domain variant accepts with the
      same octets. */
  lemma AcceptsSubsetOfDomain(s: string)
    ensures FromString(s).Ok? ==> IpAddressDomain.FromString(s) == Ok(IpAddressDomain.IpAddress(FromString(s).value.octets))
  {
    if FromString(s).Ok? {
      AgreesWithDomain(s);
    }
  }

  /** The subset is strict: a leading space is ignored by `int()` in the
      domain variant but refused by the pattern here. */
  lemma PaddedAddressContrast(ip: IpAddress)
    requires |ip.octets| == 4 && forall i :: 0 <= i < 4 ==> IpAddressDomain.InRange(ip.octets[i])
    ensures IpAddressDomain.FromString(" " + Joined(ip)) == Ok(IpAddressDomain.IpAddress(ip.octets))
    ensures FromString(" " + Joined(ip)) == Err(InvalidFormat(" " + Joined(ip)))
  {
    var d := IpAddressDomain.IpAddress(ip.octets);
    IpAddressDomain.LeadingSpaceIgnored(d);
    if PatternMatches(" " + Joined(ip)) {
      PatternChars(" " + Joined(ip));
      assert false;
    }
  }

  /** A negative first octet is an octet error in the domain variant, when
      `str()` prints the address, and a format error here, where the '-' fails
      the pattern. */
  lemma NegativeOctetContrast(ip: IpAddress)
    requires |ip.octets| == 4 && ip.octets[0] < 0
    ensures ToString(ip).Some? ==> IpAddressDomain.FromString(Joined(ip)) == Err(InvalidIpOctet(ip.octets[0]))
    ensures FromString(Joined(ip)) == Err(InvalidFormat(Joined(ip)))
  {
    var d := IpAddressDomain.IpAddress(ip.octets);
    if ToString(ip).Some? {
      assert IpAddressDomain.ToString(d) == Some(Joined(ip));
      IpAddressDomain.PrintThenParse(d);
      assert IpAddressDomain.FirstOutOfRange(ip.octets) == Some(ip.octets[0]);
    }
    SignRefused(ip);
  }

  /** A printed negative first octet puts a '-' in front, which the pattern
      refuses. */
  lemma SignRefused(ip: IpAddress)
    requires |ip.octets| == 4 && ip.octets[0] < 0
    ensures FromString(Joined(ip)) == Err(InvalidFormat(Joined(ip)))
  {
    var parts := IpAddressDomain.OctetStrings(ip.octets);
    assert parts[0][0] == '-';
    assert Joined(ip)[0] == '-' by {
      assert Joined(ip) == parts[0] + ['.'] + Join(parts[1..], '.');
    }
    if PatternMatches(Joined(ip)) {
      PatternChars(Joined(ip));
      assert false;
    }
  }
}
