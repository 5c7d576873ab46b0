/** The address and path helpers of UPELIB.cpp: formatting and parsing of
    "a.b.c.d:p" endpoint strings, and the Linux path composition. */
module Addresses {
  import opened Bytes
  import opened Decimal
  import opened Results

  /** The outcome of ParseIPaddress: the boolean result and the values left
      in the two reference parameters. */
  datatype ParseResult = ParseResult(ok: bool, ip: uint32, port: uint16)

  /** Octet `k` of an IPv4 address, counting from the most significant. */
  function Octet(ip: uint32, k: nat): (o: byte)
    requires k < 4
  {
    if k == 0 then ip / 0x100_0000
    else if k == 1 then (ip / 0x1_0000) % 0x100
    else if k == 2 then (ip / 0x100) % 0x100
    else ip % 0x100
  }

  /** An address assembled from four components, each reduced to its low
      eight bits, most significant first (UPELIB.cpp:342-343). */
  function AssembleIP(a: int, b: int, c: int, d: int): (ip: uint32)
    ensures Octet(ip, 0) == LoByte(a) && Octet(ip, 1) == LoByte(b)
    ensures Octet(ip, 2) == LoByte(c) && Octet(ip, 3) == LoByte(d)
  {
    var ip := LoByte(a) * 0x100_0000 + LoByte(b) * 0x1_0000 + LoByte(c) * 0x100 + LoByte(d);
    assert ip / 0x100 == LoByte(a) * 0x1_0000 + LoByte(b) * 0x100 + LoByte(c);
    assert ip / 0x1_0000 == LoByte(a) * 0x100 + LoByte(b);
    ip
  }

  /** Every address is reassembled from its own octets. */
  lemma {:induction false} AssembleOctets(ip: uint32)
    ensures AssembleIP(Octet(ip, 0), Octet(ip, 1), Octet(ip, 2), Octet(ip, 3)) == ip
  {
    var a, b, c, d := Octet(ip, 0), Octet(ip, 1), Octet(ip, 2), Octet(ip, 3);
    OctetsCompose(ip);
    assert LoByte(a) == a && LoByte(b) == b && LoByte(c) == c && LoByte(d) == d;
  }

  /** An address is the weighted sum of its octets. */
  lemma {:induction false} OctetsCompose(ip: uint32)
    ensures ip == Octet(ip, 0) * 0x100_0000 + Octet(ip, 1) * 0x1_0000 + Octet(ip, 2) * 0x100 + Octet(ip, 3)
  {
    var q1 := ip / 0x100;
    var q2 := q1 / 0x100;
    assert ip == q1 * 0x100 + ip % 0x100;
    assert q1 == q2 * 0x100 + q1 % 0x100;
    assert q2 == q2 / 0x100 * 0x100 + q2 % 0x100;
    assert ip / 0x1_0000 == q2;
    assert ip / 0x100_0000 == q2 / 0x100;
  }

  /** FormatIPaddress: four decimal octets, most significant first, joined by
      dots, followed by ":port" only when the port is not zero. */
  function FormatIPaddress(ip: uint32, port: uint16): string
  {
    var dotted := FromNat(Octet(ip, 0)) + "." + FromNat(Octet(ip, 1)) + "." +
                  FromNat(Octet(ip, 2)) + "." + FromNat(Octet(ip, 3));
    if port != 0 then dotted + ":" + FromNat(port) else dotted
  }

  /** The largest unsigned long and the largest long on 64-bit Linux, the
      platform this model follows throughout (as in MakePath). */
  const ULONG_MAX: nat := 0xFFFF_FFFF_FFFF_FFFF
  const LONG_MAX: nat := 0x7FFF_FFFF_FFFF_FFFF

  /** What a 32-bit variable holds after being assigned strtoul's value for
      a numeral: strtoul saturates at ULONG_MAX, and the assignment keeps
      the low 32 bits. */
  function StoredUlong(v: nat): (r: uint32)
    ensures v < 0x1_0000_0000 ==> r == v
    ensures v <= ULONG_MAX ==> r == v % 0x1_0000_0000
    ensures v > ULONG_MAX ==> r == 0xFFFF_FFFF
  {
    if v > ULONG_MAX then 0xFFFF_FFFF else v % 0x1_0000_0000
  }

  /** The value a `%d` conversion of sscanf reads for a numeral: glibc
      converts it as strtol does, saturating at LONG_MAX. Only the low bits
      of it are used, by the `& 0xFF` and LOWORD that follow. */
  function ScanfInt(v: nat): (r: nat)
    ensures r <= LONG_MAX
    ensures v <= LONG_MAX ==> r == v
    ensures v > LONG_MAX ==> r == LONG_MAX
  {
    if v > LONG_MAX then LONG_MAX else v
  }

  /** strtoul with base 10 on a run of digits, stored in the 32-bit
      `uint32_t l`: the value, reduced modulo 2^32 below ULONG_MAX and all
      ones above it. */
  function Strtoul(digits: string): (v: uint32)
    requires AllDigits(digits)
    ensures Value(digits, 10) < 0x1_0000_0000 ==> v == Value(digits, 10)
    ensures Value(digits, 10) <= ULONG_MAX ==> v == Value(digits, 10) % 0x1_0000_0000
    ensures Value(digits, 10) > ULONG_MAX ==> v == 0xFFFF_FFFF
  {
    StoredUlong(Value(digits, 10))
  }

  /** A numeral found in a string: its digits and the index just past it. */
  datatype Number = Number(digits: string, end: nat)

  /** A `%d` conversion at index `i`: the maximal run of digits there, or
      None when there is no digit at `i`. */
  function NumberAt(s: string, i: nat): (r: Option<Number>)
    requires i <= |s|
    ensures r.Some? <==> i < |s| && IsDigit(s[i])
    ensures r.Some? ==> i < r.value.end <= |s| && r.value.digits == s[i..(r.value.end)] &&
                        AllDigits(r.value.digits) &&
                        (r.value.end == |s| || !IsDigit(s[r.value.end]))
  {
    if i < |s| && IsDigit(s[i]) then
      var e := RunEnd(s, i, false);
      RunEndDigits(s, i, false);
      Some(Number(s[i..e], e))
    else None
  }

  /** `count` numerals separated by dots, starting at index `i`: their
      digits and the index just past the last one. */
  function ScanFields(s: string, i: nat, count: nat): (r: Option<(seq<string>, nat)>)
    requires i <= |s| && count > 0
    ensures r.Some? ==> |r.value.0| == count && Numerals(r.value.0) && i < r.value.1 <= |s|
    decreases count
  {
    match NumberAt(s, i)
    case None => None
    case Some(x) =>
      if count == 1 then Some(([x.digits], x.end))
      else if x.end < |s| && s[x.end] == '.' then
        match ScanFields(s, x.end + 1, count - 1)
        case None => None
        case Some(more) => Some(([x.digits] + more.0, more.1))
      else None
  }

  /** The dotted forms of ParseIPaddress: "a.b.c.d" or "a.b.c.d:p", each
      covering the whole string (the sscanf count and `%n` length test). */
  datatype Dotted = Dotted(fields: seq<string>, port: Option<string>)

  function ScanDotted(s: string): (r: Option<Dotted>)
    ensures r.Some? ==> |r.value.fields| == 4 && Numerals(r.value.fields)
    ensures r.Some? && r.value.port.Some? ==> r.value.port.value != [] && AllDigits(r.value.port.value)
  {
    match ScanFields(s, 0, 4)
    case None => None
    case Some(scan) =>
      var e := scan.1;
      if e == |s| then Some(Dotted(scan.0, None))
      else if s[e] == ':' then
        match NumberAt(s, e + 1)
        case Some(p) => if p.end == |s| then Some(Dotted(scan.0, Some(p.digits))) else None
        case None => None
      else None
  }

  /** ParseIPaddress(text, ip, port). Accepted forms:
      ":p" and "p" set only the port (the low 16 bits of the saturated
      value); "a.b.c.d" sets only the address; "a.b.c.d:p" sets both.
      Anything else returns false and leaves both outputs unchanged. */
  function ParseIPaddress(text: string, ip: uint32, port: uint16): (r: ParseResult)
    ensures text == [] ==> !r.ok
    ensures !r.ok ==> r.ip == ip && r.port == port
    ensures r.ok && text[0] == ':' ==> r.ip == ip
    ensures r.ok && AllDigits(text) ==> r.ip == ip && r.port == LoWord(Strtoul(text))
  {
    if text == [] then ParseResult(false, ip, port)
    else if text[0] == ':' then
      if |text| < 2 || !IsDigit(text[1]) then ParseResult(false, ip, port)
      else if RunEnd(text, 1, false) != |text| then ParseResult(false, ip, port)
      else
        RunEndDigits(text, 1, false);
        ParseResult(true, ip, LoWord(Strtoul(text[1..])))
    else if RunEnd(text, 0, false) == |text| then
      RunEndDigits(text, 0, false);
      assert text[0..|text|] == text;
      ParseResult(true, ip, LoWord(Strtoul(text)))
    else
      match ScanDotted(text)
      case None => ParseResult(false, ip, port)
      case Some(d) =>
        var newIP := AssembleIP(ScanfInt(Value(d.fields[0], 10)), ScanfInt(Value(d.fields[1], 10)),
                                ScanfInt(Value(d.fields[2], 10)), ScanfInt(Value(d.fields[3], 10)));
        if d.port.Some? then ParseResult(true, newIP, LoWord(ScanfInt(Value(d.port.value, 10))))
        else ParseResult(true, newIP, port)
  }

  /** A numeral followed by a non-digit (or nothing) is scanned as exactly
      that numeral. */
  lemma {:induction false} NumberAtNumeral(s: string, i: nat, d: string, rest: string)
    requires i <= |s| && s[i..] == d + rest
    requires d != [] && AllDigits(d)
    requires rest == [] || !IsDigit(rest[0])
    ensures NumberAt(s, i) == Some(Number(d, i + |d|))
  {
    assert s[i] == d[0];
    RunEndOfNumeral(s, i, d, rest);
    assert s[i..i + |d|] == d;
  }

  /** Numerals joined by dots. */
  function Joined(ds: seq<string>): string
    requires |ds| > 0
    decreases |ds|
  {
    if |ds| == 1 then ds[0] else ds[0] + "." + Joined(ds[1..])
  }

  /** Non-empty runs of digits. */
  predicate Numerals(ds: seq<string>)
  {
    forall k :: 0 <= k < |ds| ==> ds[k] != [] && AllDigits(ds[k])
  }

  /** Dot-separated numerals followed by a tail that does not start with a
      digit are scanned as exactly those numerals. */
  lemma {:induction false} ScanJoined(s: string, i: nat, ds: seq<string>, tail: string)
    requires |ds| > 0 && Numerals(ds)
    requires i <= |s| && s[i..] == Joined(ds) + tail
    requires tail == [] || !IsDigit(tail[0])
    ensures ScanFields(s, i, |ds|) == Some((ds, |s| - |tail|))
    decreases |ds|
  {
    if |ds| == 1 {
      NumberAtNumeral(s, i, ds[0], tail);
      ScanFieldsOne(s, i, ds);
    } else {
      var next := JoinedSplit(s, i, ds, tail);
      var rest := ds[1..];
      ScanJoined(s, next, rest, tail);
      ScanJoinedStep(s, i, ds, next, |s| - |tail|);
    }
  }

  /** The step of ScanJoined: the first numeral and a dot, then the rest
      scanned as the remaining numerals. */
  lemma {:induction false} ScanJoinedStep(s: string, i: nat, ds: seq<string>, next: nat, end: nat)
    requires |ds| > 1 && i < next <= |s|
    requires NumberAt(s, i) == Some(Number(ds[0], next - 1)) && s[next - 1] == '.'
    requires ScanFields(s, next, |ds| - 1) == Some((ds[1..], end))
    ensures ScanFields(s, i, |ds|) == Some((ds, end))
  {
    ScanFieldsStep(s, i, ds[0], ds[1..], next, end);
    assert [ds[0]] + ds[1..] == ds;
  }

  /** The first numeral of a joined sequence, and the index of the rest. */
  lemma {:induction false} JoinedSplit(s: string, i: nat, ds: seq<string>, tail: string) returns (next: nat)
    requires |ds| > 1 && Numerals(ds)
    requires i <= |s| && s[i..] == Joined(ds) + tail
    ensures next == i + |ds[0]| + 1 <= |s|
    ensures NumberAt(s, i) == Some(Number(ds[0], next - 1))
    ensures s[next - 1] == '.'
    ensures s[next..] == Joined(ds[1..]) + tail
  {
    var d := ds[0];
    var more := Joined(ds[1..]);
    next := i + |d| + 1;
    assert s[i..] == d + ("." + more + tail);
    NumberAtNumeral(s, i, d, "." + more + tail);
    assert s[next - 1] == s[i..][|d|];
    assert s[next..] == s[i..][|d| + 1..];
  }

  /** ScanFields of a single field is the numeral found there. */
  lemma {:induction false} ScanFieldsOne(s: string, i: nat, ds: seq<string>)
    requires i < |s| && |ds| == 1
    requires NumberAt(s, i) == Some(Number(ds[0], i + |ds[0]|))
    ensures ScanFields(s, i, 1) == Some((ds, i + |ds[0]|))
  {
    assert ds == [ds[0]];
  }

  /** One step of ScanFields: a numeral, a dot, and the remaining fields. */
  lemma {:induction false} ScanFieldsStep(s: string, i: nat, d: string, rest: seq<string>, next: nat, end: nat)
    requires i < next <= |s| && |rest| > 0
    requires NumberAt(s, i) == Some(Number(d, next - 1)) && s[next - 1] == '.'
    requires ScanFields(s, next, |rest|) == Some((rest, end))
    ensures ScanFields(s, i, |rest| + 1) == Some(([d] + rest, end))
  {
  }

  /** The decimal numerals of the four octets of an address. */
  function OctetNumerals(ip: uint32): (ds: seq<string>)
    ensures |ds| == 4 && Numerals(ds)
  {
    [FromNat(Octet(ip, 0)), FromNat(Octet(ip, 1)), FromNat(Octet(ip, 2)), FromNat(Octet(ip, 3))]
  }

  /** The text of several dot-separated numerals starts with a digit run
      that does not reach the end of the text. */
  lemma {:induction false} JoinedStart(ds: seq<string>, tail: string)
    requires |ds| > 1 && Numerals(ds)
    ensures var s := Joined(ds) + tail;
            s != [] && IsDigit(s[0]) && RunEnd(s, 0, false) == |ds[0]| < |s|
  {
    var s := Joined(ds) + tail;
    assert ds[0] != [] && AllDigits(ds[0]);
    assert s == ds[0] + ("." + Joined(ds[1..]) + tail);
    RunEndOfNumeral(s, 0, ds[0], "." + Joined(ds[1..]) + tail);
    assert s[0] == ds[0][0];
  }

  /** Four dot-separated numerals, optionally followed by a colon and a
      port numeral, scan as exactly those numerals. */
  lemma {:induction false} JoinedScan(ds: seq<string>, port: Option<string>)
    requires |ds| == 4 && Numerals(ds)
    requires port.Some? ==> port.value != [] && AllDigits(port.value)
    ensures ScanDotted(Joined(ds) + (if port.Some? then ":" + port.value else "")) == Some(Dotted(ds, port))
  {
    var tail := if port.Some? then ":" + port.value else "";
    var s := Joined(ds) + tail;
    ScanJoined(s, 0, ds, tail);
    var e := |s| - |tail|;
    if port.Some? {
      assert s[e..] == tail;
      assert s[e + 1..] == port.value + "";
      NumberAtNumeral(s, e + 1, port.value, "");
    }
  }

  /** The text FormatIPaddress produces is the four octet numerals joined by
      dots, followed by the port numeral when the port is not zero. */
  lemma {:induction false} FormattedIsJoined(ip: uint32, port: uint16)
    ensures FormatIPaddress(ip, port) ==
            Joined(OctetNumerals(ip)) + (if port != 0 then ":" + FromNat(port) else "")
  {
    var ds := OctetNumerals(ip);
    JoinedFour(ds[0], ds[1], ds[2], ds[3]);
    assert ds == [ds[0], ds[1], ds[2], ds[3]];
  }

  lemma {:induction false} JoinedFour(a: string, b: string, c: string, d: string)
    ensures Joined([a, b, c, d]) == a + "." + b + "." + c + "." + d
  {
    var ds := [a, b, c, d];
    assert ds[1..][1..][1..] == [d];
    assert Joined(ds[1..][1..]) == c + "." + d;
    assert Joined(ds[1..]) == b + "." + c + "." + d;
  }

  /** A text that is not a bare numeral and scans as a dotted form is
      parsed by that form. */
  lemma {:induction false} ParseDotted(text: string, ip: uint32, port: uint16, d: Dotted)
    requires text != [] && IsDigit(text[0]) && RunEnd(text, 0, false) != |text|
    requires ScanDotted(text) == Some(d)
    ensures var newIP := AssembleIP(ScanfInt(Value(d.fields[0], 10)), ScanfInt(Value(d.fields[1], 10)),
                                    ScanfInt(Value(d.fields[2], 10)), ScanfInt(Value(d.fields[3], 10)));
            ParseIPaddress(text, ip, port) ==
              ParseResult(true, newIP, if d.port.Some? then LoWord(ScanfInt(Value(d.port.value, 10))) else port)
  {
  }

  /** Parsing the text FormatIPaddress produces gives back its address, and
      its port when that is not zero (a zero port is not printed, so the
      previous port value is kept). */
  lemma {:induction false} ParseFormatted(ip: uint32, port: uint16, oldIP: uint32, oldPort: uint16)
    ensures ParseIPaddress(FormatIPaddress(ip, port), oldIP, oldPort) ==
            ParseResult(true, ip, if port != 0 then port else oldPort)
  {
    var ds := OctetNumerals(ip);
    var portText := if port != 0 then Some(FromNat(port)) else None;
    var s := FormatIPaddress(ip, port);
    FormattedIsJoined(ip, port);
    JoinedStart(ds, if port != 0 then ":" + FromNat(port) else "");
    JoinedScan(ds, portText);
    ParseDotted(s, oldIP, oldPort, Dotted(ds, portText));
    OctetValues(ip);
    if port != 0 {
      PortValue(port);
    }
  }

  /** Reading back the octet numerals reassembles the address. */
  lemma {:induction false} OctetValues(ip: uint32)
    ensures var ds := OctetNumerals(ip);
            AssembleIP(ScanfInt(Value(ds[0], 10)), ScanfInt(Value(ds[1], 10)),
                       ScanfInt(Value(ds[2], 10)), ScanfInt(Value(ds[3], 10))) == ip
  {
    FromNatValue(Octet(ip, 0));
    FromNatValue(Octet(ip, 1));
    FromNatValue(Octet(ip, 2));
    FromNatValue(Octet(ip, 3));
    AssembleOctets(ip);
  }

  /** Reading back a port numeral gives the port. */
  lemma {:induction false} PortValue(port: uint16)
    ensures LoWord(ScanfInt(Value(FromNat(port), 10))) == port
  {
    FromNatValue(port);
  }

  /** A colon followed by a numeral sets only the port, to the low 16 bits
      of strtoul's value. */
  lemma {:induction false} ParsePortOnly(digits: string, ip: uint32, port: uint16)
    requires digits != [] && AllDigits(digits)
    ensures ParseIPaddress(":" + digits, ip, port) == ParseResult(true, ip, LoWord(Strtoul(digits)))
    ensures ParseIPaddress(digits, ip, port) == ParseResult(true, ip, LoWord(Strtoul(digits)))
  {
    var s := ":" + digits;
    assert s[1..] == digits + "";
    RunEndOfNumeral(s, 1, digits, "");
    RunEndOfNumeral(digits, 0, digits, "");
  }

  /** On 64-bit Linux strtoul does not saturate at 2^32 - 1: "4294967296"
      is 2^32, which the 32-bit variable holds as zero, so the bare port
      form sets the port to 0. */
  lemma {:induction false} StrtoulKeepsLowBits(ip: uint32, port: uint16)
    ensures AllDigits("4294967296") && Strtoul("4294967296") == 0
    ensures ParseIPaddress("4294967296", ip, port) == ParseResult(true, ip, 0)
  {
    TwoToThe32();
    ParsePortOnly("4294967296", ip, port);
  }

  /** The numeral of 2^32. */
  lemma {:induction false} TwoToThe32()
    ensures AllDigits("4294967296") && Value("4294967296", 10) == 0x1_0000_0000
  {
    HeadOfTwoToThe32();
    ValueAppend("42949", '6');
    assert "42949" + ['6'] == "429496";
    ValueAppend("429496", '7');
    assert "429496" + ['7'] == "4294967";
    ValueAppend("4294967", '2');
    assert "4294967" + ['2'] == "42949672";
    ValueAppend("42949672", '9');
    assert "42949672" + ['9'] == "429496729";
    ValueAppend("429496729", '6');
    assert "429496729" + ['6'] == "4294967296";
  }

  lemma {:induction false} HeadOfTwoToThe32()
    ensures AllDigits("42949") && Value("42949", 10) == 42949
  {
    assert Value("4", 10) == 4 by { assert "4"[..0] == []; }
    ValueAppend("4", '2');
    assert "4" + ['2'] == "42";
    ValueAppend("42", '9');
    assert "42" + ['9'] == "429";
    ValueAppend("429", '4');
    assert "429" + ['4'] == "4294";
    ValueAppend("4294", '9');
    assert "4294" + ['9'] == "42949";
  }

  /** A digit appended to a numeral multiplies its value by ten and adds
      the digit. */
  lemma {:induction false} ValueAppend(s: string, c: char)
    requires AllDigits(s) && IsDigit(c)
    ensures AllDigits(s + [c]) && Value(s + [c], 10) == Value(s, 10) * 10 + DigitValue(c)
  {
    assert (s + [c])[..|s|] == s;
  }

  /** Linux MakePath: the directory, a slash, the file name and the
      extension, in that order. */
  function MakePath(directory: string, fileName: string, extension: string): (path: string)
    ensures |path| == |directory| + 1 + |fileName| + |extension|
    ensures path[..|directory|] == directory && path[|directory|] == '/'
    ensures path[|directory| + 1..|directory| + 1 + |fileName|] == fileName
    ensures path[|directory| + 1 + |fileName|..] == extension
  {
    directory + "/" + fileName + extension
  }

  /** FullPath: the empty path stays empty; any other path is resolved by
      the file system, whose answer is the parameter `resolved`. */
  function FullPath(relative: string, resolved: string): (path: string)
    ensures relative == [] ==> path == []
    ensures relative != [] ==> path == resolved
  {
    if relative == [] then [] else resolved
  }
}
