/**
 * The IPv4 value object of the geolocation domain
 * (src/geolocation/domain/ip_address.py): `from_string` splits on '.',
 * reads every part with `int()`, then checks the number of parts and the
 * range of each octet; `__str__` joins the decimal octets with '.'.
 */
module IpAddressDomain {
  import opened PyBuiltins
  import opened Validation

  /** `IpAddress(octets=...)`: the constructor itself checks nothing, so any
      sequence of integers is a value of this type. */
  datatype IpAddress = IpAddress(octets: seq<int>)

  predicate InRange(octet: int) {
    0 <= octet <= 255
  }

  /** `tuple(read(p) for p in parts)` for a reader that fails by raising:
      None as soon as one part cannot be read, otherwise every part's value
      in order. */
  function ReadEach(parts: seq<string>, read: string -> Option<int>): (r: Option<seq<int>>)
    ensures r.Some? <==> forall i :: 0 <= i < |parts| ==> read(parts[i]).Some?
    ensures r.Some? ==> |r.value| == |parts| && forall i :: 0 <= i < |parts| ==> read(parts[i]) == Some(r.value[i])
  {
    if parts == [] then Some([])
    else
      var head := read(parts[0]);
      var rest := ReadEach(parts[1..], read);
      if head.None? || rest.None? then None else Some([head.value] + rest.value)
  }

  /** `tuple(int(octet) for octet in parts)`: None when `int()` rejects any
      part (the ValueError the source catches). */
  function ParseParts(parts: seq<string>): (r: Option<seq<int>>)
    ensures r.Some? <==> forall i :: 0 <= i < |parts| ==> ParseInt(parts[i]).Some?
    ensures r.Some? ==> |r.value| == |parts| && forall i :: 0 <= i < |parts| ==> ParseInt(parts[i]) == Some(r.value[i])
  {
    ReadEach(parts, ParseInt)
  }

  /** The range check loop: the first octet outside 0..255, if any. */
  function FirstOutOfRange(octets: seq<int>): (r: Option<int>)
    ensures r.None? <==> forall i :: 0 <= i < |octets| ==> InRange(octets[i])
    ensures r.Some? ==> exists k :: 0 <= k < |octets| && octets[k] == r.value && !InRange(r.value)
                                  && forall i :: 0 <= i < k ==> InRange(octets[i])
  {
    if octets == [] then None
    else if !InRange(octets[0]) then Some(octets[0])
    else
      var r := FirstOutOfRange(octets[1..]);
      assert forall i :: 1 <= i < |octets| ==> octets[i] == octets[1..][i - 1];
      r
  }

  /** `IpAddress.from_string(ip_string)`. Every part is read before the
      count is looked at, so a part `int()` rejects is a format error whatever
      the count. The octet error is not one of the exceptions the `except`
      clause catches, so it reaches the caller with its own message. An
      accepted address has four octets in range; a format error carries the
      text, an octet error an octet outside 0..255. */
  function FromString(s: string): (r: Result<IpAddress, ValidationError>)
    ensures r.Ok? ==> |r.value.octets| == 4 && forall i :: 0 <= i < 4 ==> InRange(r.value.octets[i])
    ensures r.Err? ==> r.error == InvalidIpFormat(s) || (r.error.InvalidIpOctet? && !InRange(r.error.octet))
  {
    match ParseParts(Split(s, '.'))
    case None => Err(InvalidIpFormat(s))
    case Some(octets) =>
      if |octets| != 4 then Err(InvalidIpFormat(s))
      else match FirstOutOfRange(octets)
        case Some(o) => Err(InvalidIpOctet(o))
        case None => Ok(IpAddress(octets))
  }

  /** `str(octet)` for each octet, in order. */
  function OctetStrings(octets: seq<int>): (parts: seq<string>)
    ensures |parts| == |octets|
    ensures forall i :: 0 <= i < |octets| ==> parts[i] == IntToStr(octets[i])
  {
    if octets == [] then [] else [IntToStr(octets[0])] + OctetStrings(octets[1..])
  }

  /** The text `'.'.join(str(octet) for octet in self.octets)` builds: no
      printed octet holds a '.', so splitting the text gives back the printed
      octets; no octets give the empty text. */
  function Joined(ip: IpAddress): (s: string)
    ensures ip.octets != [] ==> Split(s, '.') == OctetStrings(ip.octets)
    ensures ip.octets == [] ==> s == ""
  {
    var parts := OctetStrings(ip.octets);
    OctetStringsNoDot(ip.octets);
    if parts == [] then Join(parts, '.')
    else SplitJoin(parts, '.'); Join(parts, '.')
  }

  /** `str(ip)`: None where `str(octet)` raises ValueError for an octet with
      more than `MaxStrDigits` digits; otherwise a text whose pieces between
      the dots are the printed octets. */
  function ToString(ip: IpAddress): (r: Option<string>)
    ensures r.Some? <==> forall i :: 0 <= i < |ip.octets| ==> WithinDigitLimit(ip.octets[i])
    ensures r.Some? && ip.octets != [] ==> Split(r.value, '.') == OctetStrings(ip.octets)
    ensures ip.octets == [] ==> r == Some("")
  {
    if forall i :: 0 <= i < |ip.octets| ==> WithinDigitLimit(ip.octets[i]) then Some(Joined(ip)) else None
  }

  /** Octets in 0..255 are far below the digit limit, so `str()` prints them. */
  lemma InRangePrintable(ip: IpAddress)
    requires forall i :: 0 <= i < |ip.octets| ==> InRange(ip.octets[i])
    ensures ToString(ip) == Some(Joined(ip))
  {
    forall i | 0 <= i < |ip.octets|
      ensures WithinDigitLimit(ip.octets[i])
    {
      NatToStrShort(ip.octets[i]);
    }
  }

  /** What "four parts, each read by `int()` and in range" means for a string. */
  ghost predicate IsDottedQuad(s: string) {
    var parts := Split(s, '.');
    |parts| == 4
    && (forall i :: 0 <= i < 4 ==> ParseInt(parts[i]).Some?)
    && (forall i :: 0 <= i < 4 ==> InRange(ParseInt(parts[i]).value))
  }

  // ---------------------------------------------------------------------------
  // What from_string accepts and what it raises
  // ---------------------------------------------------------------------------

  /** `from_string` succeeds exactly on four `int()`-readable parts in range,
      and the address holds those values in order. */
  lemma FromStringAccepts(s: string)
    ensures FromString(s).Ok? <==> IsDottedQuad(s)
    ensures FromString(s).Ok? ==>
      var parts := Split(s, '.');
      |FromString(s).value.octets| == 4
      && forall i :: 0 <= i < 4 ==> FromString(s).value.octets[i] == ParseInt(parts[i]).value
  {
    if IsDottedQuad(s) {
      DottedQuadAccepted(s);
    }
    if FromString(s).Ok? {
      AcceptedDottedQuad(s);
    }
  }

  lemma DottedQuadAccepted(s: string)
    requires IsDottedQuad(s)
    ensures FromString(s).Ok?
  {
    var octets := ParseParts(Split(s, '.')).value;
    assert forall i :: 0 <= i < 4 ==> InRange(octets[i]);
  }

  lemma AcceptedDottedQuad(s: string)
    requires FromString(s).Ok?
    ensures IsDottedQuad(s)
    ensures FromString(s).value.octets == ParseParts(Split(s, '.')).value
  {
  }

  /** A part `int()` rejects (empty, a letter, a wrong separator left inside)
      is a format error whatever the number of parts. */
  lemma FromStringUnreadablePart(s: string, k: nat)
    requires k < |Split(s, '.')| && ParseInt(Split(s, '.')[k]).None?
    ensures FromString(s) == Err(InvalidIpFormat(s))
  {
  }

  /** Readable parts in the wrong number are a format error too. */
  lemma FromStringWrongCount(s: string)
    requires forall i :: 0 <= i < |Split(s, '.')| ==> ParseInt(Split(s, '.')[i]).Some?
    requires |Split(s, '.')| != 4
    ensures FromString(s) == Err(InvalidIpFormat(s))
  {
  }

  /** With four readable parts, the first octet outside 0..255 (negative or
      above 255) is reported by value. */
  lemma FromStringOctetError(s: string, k: nat)
    requires |Split(s, '.')| == 4
    requires forall i :: 0 <= i < 4 ==> ParseInt(Split(s, '.')[i]).Some?
    requires k < 4 && !InRange(ParseInt(Split(s, '.')[k]).value)
    requires forall i :: 0 <= i < k ==> InRange(ParseInt(Split(s, '.')[i]).value)
    ensures FromString(s) == Err(InvalidIpOctet(ParseInt(Split(s, '.')[k]).value))
  {
    var octets := ParseParts(Split(s, '.')).value;
    assert octets[k] == ParseInt(Split(s, '.')[k]).value;
    FirstOutOfRangeAt(octets, k);
    FromStringOfFour(s, octets);
  }

  /** Once four parts are read, only the range check decides. */
  lemma FromStringOfFour(s: string, octets: seq<int>)
    requires ParseParts(Split(s, '.')) == Some(octets) && |octets| == 4
    ensures FromString(s) == match FirstOutOfRange(octets)
                             case Some(o) => Err(InvalidIpOctet(o))
                             case None => Ok(IpAddress(octets))
  {
  }

  lemma {:induction false} FirstOutOfRangeAt(octets: seq<int>, k: nat)
    requires k < |octets| && !InRange(octets[k])
    requires forall i :: 0 <= i < k ==> InRange(octets[i])
    ensures FirstOutOfRange(octets) == Some(octets[k])
  {
    if k > 0 {
      FirstOutOfRangeAt(octets[1..], k - 1);
    }
  }

  // ---------------------------------------------------------------------------
  // Printing and parsing again
  // ---------------------------------------------------------------------------

  /** No printed octet contains the separator. */
  lemma OctetStringsNoDot(octets: seq<int>)
    ensures forall i :: 0 <= i < |octets| ==> '.' !in OctetStrings(octets)[i]
  {
    forall i | 0 <= i < |octets|
      ensures '.' !in OctetStrings(octets)[i]
    {
      var t := NatToStr(if octets[i] < 0 then -octets[i] else octets[i]);
      assert forall j :: 0 <= j < |t| ==> t[j] != '.';
    }
  }

  /** Every printed octet is read back by `int()` as itself, and the decimal
      text of an octet `str()` refuses is refused by `int()` too. */
  lemma ParseOctetStrings(octets: seq<int>)
    ensures ParseParts(OctetStrings(octets)).Some? <==> forall i :: 0 <= i < |octets| ==> WithinDigitLimit(octets[i])
    ensures ParseParts(OctetStrings(octets)).Some? ==> ParseParts(OctetStrings(octets)).value == octets
  {
    forall i | 0 <= i < |octets| {
      ParseIntToStr(octets[i]);
    }
  }

  /** Octets in 0..255, printed, are read back by `int()` as themselves. */
  lemma InRangeOctetsRead(octets: seq<int>)
    requires forall i :: 0 <= i < |octets| ==> InRange(octets[i])
    ensures ParseParts(OctetStrings(octets)) == Some(octets)
  {
    forall i | 0 <= i < |octets|
      ensures WithinDigitLimit(octets[i])
    {
      NatToStrShort(octets[i]);
    }
    ParseOctetStrings(octets);
  }

  /** Printing any address and parsing the text again: four octets in range
      come back unchanged, any other count is a format error, and an octet out
      of range is reported by value. Where `str()` refuses an octet, its
      decimal text is a format error for `from_string`. */
  lemma PrintThenParse(ip: IpAddress)
    ensures ToString(ip).Some? ==>
              FromString(ToString(ip).value)
              == if |ip.octets| != 4 then Err(InvalidIpFormat(ToString(ip).value))
                 else match FirstOutOfRange(ip.octets)
                   case Some(o) => Err(InvalidIpOctet(o))
                   case None => Ok(ip)
    ensures ToString(ip).None? ==> FromString(Joined(ip)) == Err(InvalidIpFormat(Joined(ip)))
  {
    if ip.octets == [] {
      assert Joined(ip) == "";
      assert Split("", '.') == [""];
      assert ParseInt("") == None;
    } else if ToString(ip).Some? {
      PrintedThenParsed(ip);
    } else {
      ParseOctetStrings(ip.octets);
    }
  }

  /** The printable case of `PrintThenParse`: the parts read back as the
      octets, so only the count and the range decide. */
  lemma PrintedThenParsed(ip: IpAddress)
    requires ip.octets != [] && ToString(ip).Some?
    ensures FromString(Joined(ip))
            == if |ip.octets| != 4 then Err(InvalidIpFormat(Joined(ip)))
               else match FirstOutOfRange(ip.octets)
                 case Some(o) => Err(InvalidIpOctet(o))
                 case None => Ok(ip)
  {
    ParseOctetStrings(ip.octets);
    assert ParseParts(Split(Joined(ip), '.')) == Some(ip.octets);
    if |ip.octets| == 4 {
      FromStringOfFour(Joined(ip), ip.octets);
    }
  }

  /** `from_string(str(ip)) == ip` for four octets in 0..255. */
  lemma RoundTrip(ip: IpAddress)
    requires |ip.octets| == 4 && forall i :: 0 <= i < 4 ==> InRange(ip.octets[i])
    ensures ToString(ip).Some? && FromString(ToString(ip).value) == Ok(ip)
  {
    InRangePrintable(ip);
    PrintThenParse(ip);
  }

  /** The other way round does not hold: `int()` accepts a leading zero, so
      a '0' written before a printed address gives a different text that
      parses to the same address. */
  lemma LeadingZeroNormalised(ip: IpAddress)
    requires |ip.octets| == 4 && forall i :: 0 <= i < 4 ==> InRange(ip.octets[i])
    ensures FromString("0" + Joined(ip)) == Ok(ip)
    ensures "0" + Joined(ip) != Joined(ip)
  {
    NatToStrShort(ip.octets[0]);
    ParseIntLeadingZero(ip.octets[0]);
    ParseIntToStr(ip.octets[0]);
    PrefixedAddress(ip, '0');
    assert "0" + Joined(ip) == ['0'] + Joined(ip);
  }

  /** `int()` ignores surrounding whitespace, so a space written before a
      printed address is accepted and dropped as well. */
  lemma LeadingSpaceIgnored(ip: IpAddress)
    requires |ip.octets| == 4 && forall i :: 0 <= i < 4 ==> InRange(ip.octets[i])
    ensures FromString(" " + Joined(ip)) == Ok(ip)
  {
    ParseIntPadded(IntToStr(ip.octets[0]), ' ');
    NatToStrShort(ip.octets[0]);
    ParseIntToStr(ip.octets[0]);
    PrefixedAddress(ip, ' ');
    assert " " + Joined(ip) == [' '] + Joined(ip);
  }

  /** A character before a printed address joins its first part; when
      `int()` still reads that part as the first octet, the address comes
      back unchanged. */
  lemma PrefixedAddress(ip: IpAddress, c: char)
    requires |ip.octets| == 4 && forall i :: 0 <= i < 4 ==> InRange(ip.octets[i])
    requires c != '.' && ParseInt([c] + IntToStr(ip.octets[0])) == Some(ip.octets[0])
    ensures FromString([c] + Joined(ip)) == Ok(ip)
  {
    var parts := OctetStrings(ip.octets);
    SplitAfterChar(c, Joined(ip), '.');
    NatToStrShort(ip.octets[0]);
    ParseIntToStr(ip.octets[0]);
    ParsePartsSameHead([c] + parts[0], parts[0], parts[1..]);
    assert parts == [parts[0]] + parts[1..];
    InRangeOctetsRead(ip.octets);
    FromStringOfFour([c] + Joined(ip), ip.octets);
  }

  /** `int()` keeps the separators \x1c..\x1f, so one written after a
      printed address leaves the last part unreadable: a format error. */
  lemma SeparatorAfterAddressRejected(ip: IpAddress, c: char)
    requires |ip.octets| == 4 && forall i :: 0 <= i < 4 ==> InRange(ip.octets[i])
    requires '\U{1C}' <= c <= '\U{1F}'
    ensures FromString(Joined(ip) + [c]) == Err(InvalidIpFormat(Joined(ip) + [c]))
  {
    var parts := OctetStrings(ip.octets);
    SplitAppendChar(Joined(ip), c, '.');
    assert Split(Joined(ip) + [c], '.')[3] == parts[3] + [c];
    ParseIntKeepsSeparator(parts[3], c);
    FromStringUnreadablePart(Joined(ip) + [c], 3);
  }

  /** A last part of more digits than `int()` reads, leading zeros included,
      is a format error, not an octet error and not an address. */
  lemma OverlongPartRejected(s: string, d: string)
    requires AllDigits(d) && |d| > MaxStrDigits
    ensures FromString(s + "." + d) == Err(InvalidIpFormat(s + "." + d))
  {
    var parts := Split(s, '.');
    var t := s + "." + d;
    JoinSplit(s, '.');
    JoinAppendPart(parts, d, '.');
    assert '.' !in d by {
      assert forall i :: 0 <= i < |d| ==> IsDigit(d[i]);
    }
    assert forall i :: 0 <= i < |parts + [d]| ==> '.' !in (parts + [d])[i];
    SplitJoin(parts + [d], '.');
    assert Split(t, '.')[|parts|] == d;
    ParseIntDigits(d);
    FromStringUnreadablePart(t, |parts|);
  }

  /** A character that is not the separator joins the first piece. */
  lemma SplitAfterChar(c: char, t: string, sep: char)
    requires c != sep
    ensures Split([c] + t, sep) == [[c] + Split(t, sep)[0]] + Split(t, sep)[1..]
  {
    assert ([c] + t)[1..] == t;
  }

  /** Parts that `int()` reads alike give the same octets. */
  lemma ParsePartsSameHead(p: string, q: string, rest: seq<string>)
    requires ParseInt(p) == ParseInt(q)
    ensures ParseParts([p] + rest) == ParseParts([q] + rest)
  {
    assert ([p] + rest)[1..] == rest == ([q] + rest)[1..];
  }
}
