/** The address scanners of the command parser: a PCI address in
    "bus:slot[.function]" notation (CCmdArgPCIAddress::ScanBDF), a disk
    address in "(c,h,s)" notation (CCmdArgDiskAddress::ScanCHS), and an
    "a.b.c.d:p" network endpoint (CCmdArgNetworkAddress::Scan).

    Numbers are read with strtoul into 32-bit variables, as on 64-bit
    Linux: the longest run of digits, its value saturating at ULONG_MAX and
    then reduced to its low 32 bits by the assignment; in radix 16
    a "0x" or "0X" prefix is skipped when a hexadecimal digit follows it.
    Each scanner reports how far it got, since the caller keeps the scanned
    text as the argument's value even when the scan fails. */
module AddressScanners {
  import opened Bytes
  import opened Decimal
  import opened Scanners
  import opened Addresses
  import opened Chars

  /** A number converted by strtoul and the position after it. */
  datatype Converted = Converted(value: uint32, end: nat)

  /** strtoul(p, &end, 10) at a decimal digit. */
  function DecimalAt(s: string, k: nat): (r: Converted)
    requires k < |s| && IsDigit(s[k])
    ensures k < r.end <= |s| && (r.end == |s| || !IsDigit(s[r.end]))
  {
    var e := RunEnd(s, k, false);
    Converted(StoredUlong(ValueAt(s, k, e, false)), e)
  }

  /** Where the digits of strtoul(p, &end, 16) start: after a "0x" prefix
      that is followed by a hexadecimal digit, otherwise at `k`. */
  function HexStart(s: string, k: nat): (d: nat)
    requires k < |s|
    ensures d == k || (d == k + 2 && d < |s| && s[k] == '0' && s[k + 1] in "xX" && IsHexDigit(s[d]))
  {
    if s[k] == '0' && k + 2 < |s| && s[k + 1] in "xX" && IsHexDigit(s[k + 2]) then k + 2 else k
  }

  /** strtoul(p, &end, 16) at a hexadecimal digit. */
  function HexAt(s: string, k: nat): (r: Converted)
    requires k < |s| && IsHexDigit(s[k])
    ensures k < r.end <= |s| && (r.end == |s| || !IsHexDigit(s[r.end]))
  {
    var d := HexStart(s, k);
    var e := RunEnd(s, d, true);
    Converted(StoredUlong(ValueAt(s, d, e, true)), e)
  }

  /** The hexadecimal numeral of a 32-bit value, followed by something that
      neither continues it nor turns a leading "0" into a "0x" prefix, is
      read back as that value. */
  lemma {:induction false} HexAtNumeral(s: string, k: nat, n: uint32, rest: string)
    requires k <= |s| && s[k..] == FromNatHex(n) + rest
    requires rest == [] || !(IsHexDigit(rest[0]) || rest[0] in "xX")
    ensures k < |s| && IsHexDigit(s[k])
    ensures HexAt(s, k) == Converted(n, k + |FromNatHex(n)|)
  {
    var w := FromNatHex(n);
    assert s[k] == w[0];
    if |w| > 1 {
      assert s[k + 1] == w[1];
    } else if rest != [] {
      assert s[k + 1] == rest[0];
    }
    assert HexStart(s, k) == k;
    RunEndOfRun(s, k, w, rest, true);
    assert WrittenAt(s, k, w) by {
      forall j | 0 <= j < |w| ensures s[k + j] == w[j] {
        assert s[k..][j] == w[j];
      }
    }
    ValueAtWritten(s, k, w, true);
    FromNatHexValue(n);
  }

  /** The decimal numeral of a 32-bit value, followed by a non-digit or the
      end, is read back as that value. */
  lemma {:induction false} DecimalAtNumeral(s: string, k: nat, n: uint32, rest: string)
    requires k <= |s| && s[k..] == FromNat(n) + rest
    requires rest == [] || !IsDigit(rest[0])
    ensures k < |s| && IsDigit(s[k])
    ensures DecimalAt(s, k) == Converted(n, k + |FromNat(n)|)
  {
    var w := FromNat(n);
    assert s[k] == w[0];
    RunEndOfNumeral(s, k, w, rest);
    assert WrittenAt(s, k, w) by {
      forall j | 0 <= j < |w| ensures s[k + j] == w[j] {
        assert s[k..][j] == w[j];
      }
    }
    ValueAtWritten(s, k, w, false);
    FromNatValue(n);
  }

  predicate IsRadixDigit(c: char, hex: bool)
  {
    if hex then IsHexDigit(c) else IsDigit(c)
  }

  /** A number after a separator, as far as it was scanned. */
  datatype Part = Part(ok: bool, value: uint32, end: nat)

  /** The step the scanners repeat: the character at `k` must be `sep` (or,
      with `anySep`, is not looked at), and a digit of the radix must follow
      it, which strtoul then converts. On failure the value is zero and
      `end` is where the scan stopped: at `k` when the separator is wrong,
      after it when no digit follows. */
  function NumberAfter(s: string, k: nat, sep: char, anySep: bool, hex: bool): (r: Part)
    requires k <= |s|
    ensures k <= r.end <= |s|
    ensures r.ok <==> k + 1 < |s| && (anySep || s[k] == sep) && IsRadixDigit(s[k + 1], hex)
    ensures r.ok ==> k + 1 < r.end && (r.end == |s| || !IsRadixDigit(s[r.end], hex))
    ensures !r.ok ==> r.value == 0 && r.end <= k + 1
  {
    if k == |s| || (!anySep && s[k] != sep) then Part(false, 0, k)
    else if k + 1 == |s| || !IsRadixDigit(s[k + 1], hex) then Part(false, 0, k + 1)
    else
      var n := if hex then HexAt(s, k + 1) else DecimalAt(s, k + 1);
      Part(true, n.value, n.end)
  }

  /** A separator followed by the decimal numeral of `n` is one step. */
  lemma {:induction false} DecimalAfterOf(s: string, k: nat, sep: char, anySep: bool, n: uint32)
    requires k < |s| && (anySep || s[k] == sep) && WrittenAt(s, k + 1, FromNat(n))
    requires var e := k + 1 + |FromNat(n)|; e == |s| || !IsDigit(s[e])
    ensures NumberAfter(s, k, sep, anySep, false) == Part(true, n, k + 1 + |FromNat(n)|)
  {
    var w := FromNat(n);
    WrittenAtSlice(s, k + 1, w);
    DecimalAtNumeral(s, k + 1, n, s[k + 1 + |w|..]);
  }

  /** A separator followed by the hexadecimal numeral of `n` is one step. */
  lemma {:induction false} HexAfterOf(s: string, k: nat, sep: char, n: uint32, e: nat)
    requires k < |s| && s[k] == sep && WrittenAt(s, k + 1, FromNatHex(n)) && e == k + 1 + |FromNatHex(n)|
    requires e == |s| || !(IsHexDigit(s[e]) || s[e] in "xX")
    ensures NumberAfter(s, k, sep, false, true) == Part(true, n, e)
  {
    var w := FromNatHex(n);
    WrittenAtSlice(s, k + 1, w);
    HexAtNumeral(s, k + 1, n, s[k + 1 + |w|..]);
  }

  /** The hexadecimal numeral of `n` written at `k` is read as `n`. */
  lemma {:induction false} HexAtWritten(s: string, k: nat, n: uint32, e: nat)
    requires WrittenAt(s, k, FromNatHex(n)) && e == k + |FromNatHex(n)|
    requires e == |s| || !(IsHexDigit(s[e]) || s[e] in "xX")
    ensures k < |s| && IsHexDigit(s[k]) && !IsSpace(s[k])
    ensures HexAt(s, k) == Converted(n, e)
  {
    var w := FromNatHex(n);
    WrittenAtSlice(s, k, w);
    HexAtNumeral(s, k, n, s[k + |w|..]);
  }

  // ---------------------------------------------------------------- PCI

  /** What ScanBDF returns: its result, the three numbers as far as they
      were scanned (zero otherwise), and where scanning stopped. */
  datatype BDF = BDF(ok: bool, bus: uint32, slot: uint32, func: uint32, next: nat)

  /** ScanBDF: hexadecimal "bus:slot", optionally followed by ".function". */
  function ScanBDF(s: string, i: nat): (r: BDF)
    requires i <= |s|
    ensures i <= r.next <= |s|
    ensures r.ok ==> SkipWhite(s, i) < r.next && IsHexDigit(s[SkipWhite(s, i)])
    ensures r.ok ==> r.next == |s| || !IsHexDigit(s[r.next])
  {
    var j := SkipWhite(s, i);
    if j == |s| || !IsHexDigit(s[j]) then BDF(false, 0, 0, 0, j)
    else
      var bus := HexAt(s, j);
      var slot := NumberAfter(s, bus.end, ':', false, true);
      if !slot.ok then BDF(false, bus.value, 0, 0, slot.end)
      else if slot.end == |s| || s[slot.end] != '.' then BDF(true, bus.value, slot.value, 0, slot.end)
      else
        var func := NumberAfter(s, slot.end, '.', false, true);
        BDF(func.ok, bus.value, slot.value, func.value, func.end)
  }

  /** The text of a PCI address as "%x:%x.%x" would print it. */
  function FormatBDF(bus: uint32, slot: uint32, func: uint32): string
  {
    FromNatHex(bus) + ":" + FromNatHex(slot) + "." + FromNatHex(func)
  }

  /** Round trip: a printed PCI address, followed by white space or the end
      of the line, scans back as the same three numbers. */
  lemma {:induction false} ScanFormattedBDF(bus: uint32, slot: uint32, func: uint32, rest: string)
    requires rest == [] || IsSpace(rest[0])
    ensures var s := FormatBDF(bus, slot, func) + rest;
            ScanBDF(s, 0) == BDF(true, bus, slot, func, |s| - |rest|)
  {
    var b, sl, f := FromNatHex(bus), FromNatHex(slot), FromNatHex(func);
    var s := FormatBDF(bus, slot, func) + rest;
    var k, m := |b|, |b| + 1 + |sl|;
    var e := m + 1 + |f|;
    assert WrittenAt(s, 0, b) && s[k] == ':' && WrittenAt(s, k + 1, sl);
    assert s[m] == '.' && WrittenAt(s, m + 1, f);
    assert |s| == e + |rest| && (rest != [] ==> s[e] == rest[0]);
    ScanBDFAt(s, bus, slot, func, k, m, e);
  }

  /** The round trip on any text holding the three numerals in place. */
  lemma {:induction false} ScanBDFAt(s: string, bus: uint32, slot: uint32, func: uint32, k: nat, m: nat, e: nat)
    requires k == |FromNatHex(bus)| && m == k + 1 + |FromNatHex(slot)| && e == m + 1 + |FromNatHex(func)| && e <= |s|
    requires WrittenAt(s, 0, FromNatHex(bus)) && s[k] == ':' && WrittenAt(s, k + 1, FromNatHex(slot))
    requires s[m] == '.' && WrittenAt(s, m + 1, FromNatHex(func))
    requires e == |s| || IsSpace(s[e])
    ensures ScanBDF(s, 0) == BDF(true, bus, slot, func, e)
  {
    HexAtWritten(s, 0, bus, k);
    HexAfterOf(s, k, ':', slot, m);
    HexAfterOf(s, m, '.', func, e);
  }

  // --------------------------------------------------------------- disk

  /** What ScanCHS returns: its result, the three numbers as far as they
      were scanned (zero otherwise), and where scanning stopped. */
  datatype CHS = CHS(ok: bool, cylinder: uint32, head: uint32, sector: uint32, next: nat)

  /** One number of a disk address and the punctuation after it: white
      space, at least one decimal digit, white space, then `ch`. The value
      is zero when there is no digit; `next` is past `ch`, or where the
      scan stopped. */
  datatype Field = Field(ok: bool, value: uint32, next: nat)

  function FieldThen(s: string, k: nat, ch: char): (r: Field)
    requires k <= |s|
    ensures k <= r.next <= |s|
    ensures r.ok ==> k < r.next && s[r.next - 1] == ch
  {
    var j := SkipWhite(s, k);
    if j == |s| || !IsDigit(s[j]) then Field(false, 0, j)
    else
      var d := DecimalAt(s, j);
      var p := SkipWhite(s, d.end);
      if p == |s| || s[p] != ch then Field(false, d.value, p)
      else Field(true, d.value, p + 1)
  }

  /** ScanCHS: "(c,h,s)" with decimal numbers and white space allowed
      around the numbers and the punctuation. */
  function ScanCHS(s: string, i: nat): (r: CHS)
    requires i <= |s|
    ensures i <= r.next <= |s|
    ensures r.ok ==> r.next > i && s[r.next - 1] == ')'
  {
    var j := SkipWhite(s, i);
    if j == |s| || s[j] != '(' then CHS(false, 0, 0, 0, j)
    else
      var c := FieldThen(s, j + 1, ',');
      if !c.ok then CHS(false, c.value, 0, 0, c.next)
      else
        var h := FieldThen(s, c.next, ',');
        if !h.ok then CHS(false, c.value, h.value, 0, h.next)
        else
          var sc := FieldThen(s, h.next, ')');
          CHS(sc.ok, c.value, h.value, sc.value, sc.next)
  }

  /** The text of a disk address as "(%u,%u,%u)" would print it. */
  function FormatCHS(cylinder: uint32, head: uint32, sector: uint32): string
  {
    "(" + FromNat(cylinder) + "," + FromNat(head) + "," + FromNat(sector) + ")"
  }

  /** The numeral of `n` stands at `k`, and `ch` follows it at `e`. */
  predicate NumeralThen(s: string, k: nat, n: uint32, ch: char, e: nat)
  {
    k <= e < |s| && s[k..e] == FromNat(n) && s[e] == ch
  }

  lemma {:induction false} WrittenThen(s: string, k: nat, n: uint32, ch: char, e: nat)
    requires WrittenAt(s, k, FromNat(n)) && e == k + |FromNat(n)| && e < |s| && s[e] == ch
    ensures NumeralThen(s, k, n, ch, e)
  {
    WrittenAtSlice(s, k, FromNat(n));
    assert s[k..e] == s[k..][..e - k];
  }

  /** A numeral followed directly by `ch`, at `e`, is read as one field. */
  lemma {:induction false} FieldThenOf(s: string, k: nat, n: uint32, ch: char, e: nat)
    requires NumeralThen(s, k, n, ch, e) && !IsDigit(ch) && !IsSpace(ch)
    ensures FieldThen(s, k, ch) == Field(true, n, e + 1)
  {
    var w := FromNat(n);
    assert s[k] == w[0];
    assert !IsSpace(s[k]) && !IsSpace(s[e]);
    assert s[k..] == w + s[e..];
    DecimalAtNumeral(s, k, n, s[e..]);
  }

  /** Round trip: a printed disk address scans back as the same three
      numbers and stops just after the closing parenthesis. */
  lemma {:induction false} ScanFormattedCHS(cylinder: uint32, head: uint32, sector: uint32, rest: string)
    ensures var s := FormatCHS(cylinder, head, sector) + rest;
            ScanCHS(s, 0) == CHS(true, cylinder, head, sector, |s| - |rest|)
  {
    var c, h, sc := FromNat(cylinder), FromNat(head), FromNat(sector);
    var s := FormatCHS(cylinder, head, sector) + rest;
    var e1 := 1 + |c|;
    var e2 := e1 + 1 + |h|;
    var e3 := e2 + 1 + |sc|;
    assert s[0] == '(' && WrittenAt(s, 1, c) && s[e1] == ',';
    assert WrittenAt(s, e1 + 1, h) && s[e2] == ',';
    assert WrittenAt(s, e2 + 1, sc) && s[e3] == ')' && |s| == e3 + 1 + |rest|;
    WrittenThen(s, 1, cylinder, ',', e1);
    WrittenThen(s, e1 + 1, head, ',', e2);
    WrittenThen(s, e2 + 1, sector, ')', e3);
    ScanCHSAt(s, cylinder, head, sector, e1, e2, e3);
  }

  /** The round trip on any text holding the three numerals in place, with
      the punctuation after them at `e1`, `e2` and `e3`. */
  lemma {:induction false} ScanCHSAt(s: string, cylinder: uint32, head: uint32, sector: uint32, e1: nat, e2: nat, e3: nat)
    requires s != [] && s[0] == '('
    requires NumeralThen(s, 1, cylinder, ',', e1) && NumeralThen(s, e1 + 1, head, ',', e2) && NumeralThen(s, e2 + 1, sector, ')', e3)
    ensures ScanCHS(s, 0) == CHS(true, cylinder, head, sector, e3 + 1)
  {
    assert e1 < e2 < e3 < |s|;
    assert FieldThen(s, 1, ',') == Field(true, cylinder, e1 + 1) by {
      FieldThenOf(s, 1, cylinder, ',', e1);
    }
    assert FieldThen(s, e1 + 1, ',') == Field(true, head, e2 + 1) by {
      FieldThenOf(s, e1 + 1, head, ',', e2);
    }
    assert FieldThen(s, e2 + 1, ')') == Field(true, sector, e3 + 1) by {
      FieldThenOf(s, e2 + 1, sector, ')', e3);
    }
    ScanCHSFields(s, cylinder, head, sector, e1, e2, e3);
  }

  /** ScanCHS reads "(" and three fields that each scan successfully. */
  lemma {:induction false} ScanCHSFields(s: string, cylinder: uint32, head: uint32, sector: uint32, e1: nat, e2: nat, e3: nat)
    requires e1 < e2 < e3 < |s| && s[0] == '('
    requires FieldThen(s, 1, ',') == Field(true, cylinder, e1 + 1)
    requires FieldThen(s, e1 + 1, ',') == Field(true, head, e2 + 1)
    requires FieldThen(s, e2 + 1, ')') == Field(true, sector, e3 + 1)
    ensures ScanCHS(s, 0) == CHS(true, cylinder, head, sector, e3 + 1)
  {
    assert SkipWhite(s, 0) == 0;
    var c := FieldThen(s, 1, ',');
    var h := FieldThen(s, c.next, ',');
    var x := FieldThen(s, h.next, ')');
    assert c.ok && h.ok && x.ok;
  }

  // ------------------------------------------------------------ network

  /** What Scan leaves: its result, the port and address reference
      parameters, and where scanning stopped. */
  datatype Endpoint = Endpoint(ok: bool, port: uint16, ip: uint32, next: nat)

  /** ":p": the port alone, `p & 0xFFFF`. */
  function ScanPortOnly(s: string, k: nat, port: uint16, ip: uint32): (r: Endpoint)
    requires k < |s| && s[k] == ':'
    ensures k < r.next <= |s| && r.ip == ip
    ensures !r.ok ==> r.port == port
  {
    if k + 1 == |s| || !IsDigit(s[k + 1]) then Endpoint(false, port, ip, k + 1)
    else
      var p := DecimalAt(s, k + 1);
      Endpoint(true, LoWord(p.value), ip, p.end)
  }

  /** The last three numbers of a dotted address and the address the four
      make, each number reduced to its low eight bits. */
  datatype DottedScan = DottedScan(ok: bool, ip: uint32, end: nat)

  /** The rest of "a.b.c.d" once `a` has been converted and a '.' follows
      it. With `anyThird`, the character between the third and fourth
      numbers is not looked at. */
  function DottedRest(s: string, a: Converted, anyThird: bool): (r: DottedScan)
    requires a.end <= |s|
    ensures a.end <= r.end <= |s|
    ensures r.ok ==> a.end < r.end && (r.end == |s| || !IsDigit(s[r.end]))
  {
    var b := NumberAfter(s, a.end, '.', false, false);
    if !b.ok then DottedScan(false, 0, b.end)
    else
      var c := NumberAfter(s, b.end, '.', false, false);
      if !c.ok then DottedScan(false, 0, c.end)
      else
        var d := NumberAfter(s, c.end, '.', anyThird, false);
        if !d.ok then DottedScan(false, 0, d.end)
        else DottedScan(true, AssembleIP(a.value, b.value, c.value, d.value), d.end)
  }

  /** CCmdArgNetworkAddress::Scan as the code is written. Where a '.' should
      separate the third and fourth numbers the code skips any one character
      without looking at it; when the third number ends the line, that skip
      steps past the terminating NUL, which this model treats as a failed
      scan. A bare number is accepted and sets nothing; a ":" after the
      address that is not followed by a digit fails after the address has
      already been stored. */
  function ScanAsWritten(s: string, i: nat, port: uint16, ip: uint32): (r: Endpoint)
    requires i <= |s|
    ensures i <= r.next <= |s|
    ensures !r.ok ==> r.port == port
    ensures r.ok ==> r.next > SkipWhite(s, i)
  {
    var j := SkipWhite(s, i);
    if j < |s| && s[j] == ':' then ScanPortOnly(s, j, port, ip)
    else if j == |s| || !IsDigit(s[j]) then Endpoint(false, port, ip, j)
    else
      var a := DecimalAt(s, j);
      if a.end == |s| || s[a.end] != '.' then Endpoint(true, port, ip, a.end)
      else
        var q := DottedRest(s, a, true);
        if !q.ok then Endpoint(false, port, ip, q.end)
        else if q.end == |s| || s[q.end] != ':' then Endpoint(true, port, q.ip, q.end)
        else ScanPortOnly(s, q.end, port, q.ip)
  }

  /** The scanner as its own description has it: "a.b.c.d:p" sets both,
      "a.b.c.d" only the address, "p" and ":p" only the port, and anything
      else fails with both outputs unchanged. It differs from the code in
      three places: the third separator must be a '.', a bare number sets
      the port, and a failure after the address leaves the address alone. */
  function Scan(s: string, i: nat, port: uint16, ip: uint32): (r: Endpoint)
    requires i <= |s|
    ensures i <= r.next <= |s|
    ensures !r.ok ==> r.port == port && r.ip == ip
    ensures r.ok ==> r.next > SkipWhite(s, i)
  {
    var j := SkipWhite(s, i);
    if j < |s| && s[j] == ':' then ScanPortOnly(s, j, port, ip)
    else if j == |s| || !IsDigit(s[j]) then Endpoint(false, port, ip, j)
    else
      var a := DecimalAt(s, j);
      if a.end == |s| || s[a.end] != '.' then Endpoint(true, LoWord(a.value), ip, a.end)
      else
        var q := DottedRest(s, a, false);
        if !q.ok then Endpoint(false, port, ip, q.end)
        else if q.end == |s| || s[q.end] != ':' then Endpoint(true, port, q.ip, q.end)
        else
          var p := ScanPortOnly(s, q.end, port, q.ip);
          if p.ok then p else Endpoint(false, port, ip, p.next)
  }

  /** A number that a '.' does not follow: the case where the code and the
      intended scanner part ways on success. */
  predicate BareNumber(s: string, j: nat)
  {
    j < |s| && IsDigit(s[j]) && (DecimalAt(s, j).end == |s| || s[DecimalAt(s, j).end] != '.')
  }

  /** Everything the intended scanner accepts, other than a bare number,
      the code accepts with the same port, address and stopping point; so
      the two differ only on a bare number and on text the intended scanner
      refuses. */
  lemma {:induction false} AsWrittenAgrees(s: string, i: nat, port: uint16, ip: uint32)
    requires i <= |s| && Scan(s, i, port, ip).ok && !BareNumber(s, SkipWhite(s, i))
    ensures ScanAsWritten(s, i, port, ip) == Scan(s, i, port, ip)
  {
    var j := SkipWhite(s, i);
    if j < |s| && s[j] != ':' {
      var a := DecimalAt(s, j);
      DottedAgrees(s, a);
    }
  }

  /** When all three separators are dots, not looking at the third one
      changes nothing. */
  lemma {:induction false} DottedAgrees(s: string, a: Converted)
    requires a.end <= |s| && DottedRest(s, a, false).ok
    ensures DottedRest(s, a, true) == DottedRest(s, a, false)
  {
    var b := NumberAfter(s, a.end, '.', false, false);
    var c := NumberAfter(s, b.end, '.', false, false);
    assert NumberAfter(s, c.end, '.', true, false) == NumberAfter(s, c.end, '.', false, false);
  }

  /** Round trip: the text FormatIPaddress prints, followed by white space
      or the end of the line, scans back as its address, and as its port
      when that is not zero (a zero port is not printed, and the port
      parameter keeps its value). The code as written reads it the same
      way. */
  lemma {:induction false} ScanFormattedEndpoint(ip: uint32, port: uint16, oldPort: uint16, oldIP: uint32, rest: string)
    requires rest == [] || IsSpace(rest[0])
    ensures var s := FormatIPaddress(ip, port) + rest;
            Scan(s, 0, oldPort, oldIP) == Endpoint(true, if port != 0 then port else oldPort, ip, |s| - |rest|)
    ensures var s := FormatIPaddress(ip, port) + rest;
            ScanAsWritten(s, 0, oldPort, oldIP) == Scan(s, 0, oldPort, oldIP)
  {
    if port != 0 {
      ScanFormattedPorted(ip, port, oldPort, oldIP, rest);
    } else {
      ScanFormattedDotted(ip, oldPort, oldIP, rest);
    }
  }

  /** ScanFormattedEndpoint for a non-zero port, written as ":port". */
  lemma {:induction false} ScanFormattedPorted(ip: uint32, port: uint16, oldPort: uint16, oldIP: uint32, rest: string)
    requires port != 0 && (rest == [] || IsSpace(rest[0]))
    ensures var s := FormatIPaddress(ip, port) + rest;
            Scan(s, 0, oldPort, oldIP) == Endpoint(true, port, ip, |s| - |rest|) &&
            ScanAsWritten(s, 0, oldPort, oldIP) == Scan(s, 0, oldPort, oldIP)
  {
    var a, b, c, d := FromNat(Octet(ip, 0)), FromNat(Octet(ip, 1)), FromNat(Octet(ip, 2)), FromNat(Octet(ip, 3));
    var s := FormatIPaddress(ip, port) + rest;
    FormattedText(ip, port, rest);
    var k1, k2, k3, e := PortedLayout(a, b, c, d, FromNat(port), rest, s);
    ScanPortEndpoint(s, ip, k1, k2, k3, e, port, oldPort, oldIP);
  }

  /** ScanFormattedEndpoint for port 0, which is not written. */
  lemma {:induction false} ScanFormattedDotted(ip: uint32, oldPort: uint16, oldIP: uint32, rest: string)
    requires rest == [] || IsSpace(rest[0])
    ensures var s := FormatIPaddress(ip, 0) + rest;
            Scan(s, 0, oldPort, oldIP) == Endpoint(true, oldPort, ip, |s| - |rest|) &&
            ScanAsWritten(s, 0, oldPort, oldIP) == Scan(s, 0, oldPort, oldIP)
  {
    var a, b, c, d := FromNat(Octet(ip, 0)), FromNat(Octet(ip, 1)), FromNat(Octet(ip, 2)), FromNat(Octet(ip, 3));
    var s := FormatIPaddress(ip, 0) + rest;
    FormattedText(ip, 0, rest);
    var k1, k2, k3, e := DottedLayout(a, b, c, d, rest, s);
    assert rest != [] ==> s[e] == s[e..][0];
    ScanDottedEndpoint(s, ip, k1, k2, k3, e, oldPort, oldIP);
  }

  /** Where the numerals of "a.b.c.d:p" followed by anything lie. */
  lemma {:induction false} PortedLayout(a: string, b: string, c: string, d: string, p: string, rest: string, s: string)
    returns (k1: nat, k2: nat, k3: nat, e: nat)
    requires s == a + "." + b + "." + c + "." + d + (":" + p + rest)
    ensures k1 == |a| && k2 == k1 + 1 + |b| && k3 == k2 + 1 + |c| && e == k3 + 1 + |d|
    ensures WrittenAt(s, 0, a) && s[k1] == '.' && WrittenAt(s, k1 + 1, b) && s[k2] == '.'
    ensures WrittenAt(s, k2 + 1, c) && s[k3] == '.' && WrittenAt(s, k3 + 1, d)
    ensures e < |s| && s[e] == ':' && WrittenAt(s, e + 1, p) && |s| == e + 1 + |p| + |rest|
    ensures rest != [] ==> s[e + 1 + |p|] == rest[0]
  {
    k1, k2, k3, e := DottedLayout(a, b, c, d, ":" + p + rest, s);
    PortLayout(s, e, p, rest);
  }

  /** The printed text, split into the dotted address and what follows it. */
  lemma {:induction false} FormattedText(ip: uint32, port: uint16, rest: string)
    ensures var a, b, c, d := FromNat(Octet(ip, 0)), FromNat(Octet(ip, 1)), FromNat(Octet(ip, 2)), FromNat(Octet(ip, 3));
            FormatIPaddress(ip, port) + rest ==
              a + "." + b + "." + c + "." + d + (if port != 0 then ":" + FromNat(port) + rest else rest)
  {
  }

  /** Where the numerals of "a.b.c.d" followed by anything lie. */
  lemma {:induction false} DottedLayout(a: string, b: string, c: string, d: string, tail: string, s: string)
    returns (k1: nat, k2: nat, k3: nat, e: nat)
    requires s == a + "." + b + "." + c + "." + d + tail
    ensures k1 == |a| && k2 == k1 + 1 + |b| && k3 == k2 + 1 + |c| && e == k3 + 1 + |d|
    ensures |s| == e + |tail| && s[e..] == tail
    ensures WrittenAt(s, 0, a) && s[k1] == '.' && WrittenAt(s, k1 + 1, b) && s[k2] == '.'
    ensures WrittenAt(s, k2 + 1, c) && s[k3] == '.' && WrittenAt(s, k3 + 1, d)
  {
    k1, k2, k3, e := |a|, |a| + 1 + |b|, |a| + |b| + |c| + 2, |a| + |b| + |c| + |d| + 3;
  }

  /** Where the port numeral of ":p" followed by anything lies. */
  lemma {:induction false} PortLayout(s: string, e: nat, p: string, rest: string)
    requires e <= |s| && s[e..] == ":" + p + rest
    ensures |s| == e + 1 + |p| + |rest| && s[e] == ':' && WrittenAt(s, e + 1, p)
    ensures rest != [] ==> s[e + 1 + |p|] == rest[0]
  {
    assert forall j | 0 <= j < |s| - e :: s[e + j] == s[e..][j];
  }

  /** The round trip of an address without a port, on any text holding the
      four octet numerals in place. */
  lemma {:induction false} ScanDottedEndpoint(s: string, ip: uint32, k1: nat, k2: nat, k3: nat, e: nat,
                                              oldPort: uint16, oldIP: uint32)
    requires k1 == |FromNat(Octet(ip, 0))| && k2 == k1 + 1 + |FromNat(Octet(ip, 1))|
    requires k3 == k2 + 1 + |FromNat(Octet(ip, 2))| && e == k3 + 1 + |FromNat(Octet(ip, 3))| && e <= |s|
    requires WrittenAt(s, 0, FromNat(Octet(ip, 0))) && s[k1] == '.' && WrittenAt(s, k1 + 1, FromNat(Octet(ip, 1)))
    requires s[k2] == '.' && WrittenAt(s, k2 + 1, FromNat(Octet(ip, 2)))
    requires s[k3] == '.' && WrittenAt(s, k3 + 1, FromNat(Octet(ip, 3)))
    requires e == |s| || IsSpace(s[e])
    ensures Scan(s, 0, oldPort, oldIP) == Endpoint(true, oldPort, ip, e)
    ensures ScanAsWritten(s, 0, oldPort, oldIP) == Scan(s, 0, oldPort, oldIP)
  {
    ScanDottedAt(s, ip, k1, k2, k3, e);
    DottedAgrees(s, DecimalAt(s, 0));
  }

  /** The round trip of an address and a port, on any text holding the
      numerals in place. */
  lemma {:induction false} ScanPortEndpoint(s: string, ip: uint32, k1: nat, k2: nat, k3: nat, e: nat, port: uint16,
                                            oldPort: uint16, oldIP: uint32)
    requires k1 == |FromNat(Octet(ip, 0))| && k2 == k1 + 1 + |FromNat(Octet(ip, 1))|
    requires k3 == k2 + 1 + |FromNat(Octet(ip, 2))| && e == k3 + 1 + |FromNat(Octet(ip, 3))| && e < |s|
    requires WrittenAt(s, 0, FromNat(Octet(ip, 0))) && s[k1] == '.' && WrittenAt(s, k1 + 1, FromNat(Octet(ip, 1)))
    requires s[k2] == '.' && WrittenAt(s, k2 + 1, FromNat(Octet(ip, 2)))
    requires s[k3] == '.' && WrittenAt(s, k3 + 1, FromNat(Octet(ip, 3)))
    requires s[e] == ':' && WrittenAt(s, e + 1, FromNat(port))
    requires var f := e + 1 + |FromNat(port)|; f == |s| || IsSpace(s[f])
    ensures Scan(s, 0, oldPort, oldIP) == Endpoint(true, port, ip, e + 1 + |FromNat(port)|)
    ensures ScanAsWritten(s, 0, oldPort, oldIP) == Scan(s, 0, oldPort, oldIP)
  {
    ScanDottedAt(s, ip, k1, k2, k3, e);
    DottedAgrees(s, DecimalAt(s, 0));
    ScanPortAt(s, e, port, oldPort, ip);
  }

  /** The four octet numerals of `ip`, separated by dots, scan as `ip`. */
  lemma {:induction false} ScanDottedAt(s: string, ip: uint32, k1: nat, k2: nat, k3: nat, e: nat)
    requires k1 == |FromNat(Octet(ip, 0))| && k2 == k1 + 1 + |FromNat(Octet(ip, 1))|
    requires k3 == k2 + 1 + |FromNat(Octet(ip, 2))| && e == k3 + 1 + |FromNat(Octet(ip, 3))| && e <= |s|
    requires WrittenAt(s, 0, FromNat(Octet(ip, 0))) && s[k1] == '.' && WrittenAt(s, k1 + 1, FromNat(Octet(ip, 1)))
    requires s[k2] == '.' && WrittenAt(s, k2 + 1, FromNat(Octet(ip, 2)))
    requires s[k3] == '.' && WrittenAt(s, k3 + 1, FromNat(Octet(ip, 3)))
    requires e == |s| || !IsDigit(s[e])
    ensures 0 < |s| && IsDigit(s[0]) && SkipWhite(s, 0) == 0
    ensures DecimalAt(s, 0) == Converted(Octet(ip, 0), k1)
    ensures DottedRest(s, DecimalAt(s, 0), false) == DottedScan(true, ip, e)
  {
    FirstNumeral(s, Octet(ip, 0), k1);
    var b, c, d := Octet(ip, 1), Octet(ip, 2), Octet(ip, 3);
    DottedNumerals(s, b, c, d, k1, k2, k3, e);
    DottedRestSteps(s, Converted(Octet(ip, 0), k1), b, c, d, k2, k3, e);
    AssembleOctets(ip);
  }

  /** Three dot-separated numerals, each read by one step. */
  lemma {:induction false} DottedNumerals(s: string, b: uint32, c: uint32, d: uint32, k1: nat, k2: nat, k3: nat, e: nat)
    requires k2 == k1 + 1 + |FromNat(b)| && k3 == k2 + 1 + |FromNat(c)| && e == k3 + 1 + |FromNat(d)| && e <= |s|
    requires s[k1] == '.' && WrittenAt(s, k1 + 1, FromNat(b))
    requires s[k2] == '.' && WrittenAt(s, k2 + 1, FromNat(c))
    requires s[k3] == '.' && WrittenAt(s, k3 + 1, FromNat(d))
    requires e == |s| || !IsDigit(s[e])
    ensures NumberAfter(s, k1, '.', false, false) == Part(true, b, k2)
    ensures NumberAfter(s, k2, '.', false, false) == Part(true, c, k3)
    ensures NumberAfter(s, k3, '.', false, false) == Part(true, d, e)
  {
    DecimalAfterOf(s, k1, '.', false, b);
    DecimalAfterOf(s, k2, '.', false, c);
    DecimalAfterOf(s, k3, '.', false, d);
  }

  /** A numeral at the start of the text, followed by a non-digit, is read
      without skipping anything. */
  lemma {:induction false} FirstNumeral(s: string, n: uint32, e: nat)
    requires WrittenAt(s, 0, FromNat(n)) && e == |FromNat(n)| && e < |s| && !IsDigit(s[e])
    ensures 0 < |s| && IsDigit(s[0]) && SkipWhite(s, 0) == 0
    ensures DecimalAt(s, 0) == Converted(n, e)
  {
    var w := FromNat(n);
    WrittenAtSlice(s, 0, w);
    DecimalAtNumeral(s, 0, n, s[e..]);
    assert !IsSpace(s[0]);
  }

  /** DottedRest takes the three steps it is given. */
  lemma {:induction false} DottedRestSteps(s: string, a: Converted, b: uint32, c: uint32, d: uint32, e1: nat, e2: nat, e3: nat)
    requires a.end <= |s|
    requires NumberAfter(s, a.end, '.', false, false) == Part(true, b, e1)
    requires NumberAfter(s, e1, '.', false, false) == Part(true, c, e2)
    requires NumberAfter(s, e2, '.', false, false) == Part(true, d, e3)
    ensures DottedRest(s, a, false) == DottedScan(true, AssembleIP(a.value, b, c, d), e3)
  {
  }

  /** ":" and the numeral of a port at `e`, followed by a non-digit or the
      end, set that port. */
  lemma {:induction false} ScanPortAt(s: string, e: nat, port: uint16, oldPort: uint16, ip: uint32)
    requires e < |s| && s[e] == ':' && WrittenAt(s, e + 1, FromNat(port))
    requires var f := e + 1 + |FromNat(port)|; f == |s| || !IsDigit(s[f])
    ensures ScanPortOnly(s, e, oldPort, ip) == Endpoint(true, port, ip, e + 1 + |FromNat(port)|)
  {
    var w := FromNat(port);
    WrittenAtSlice(s, e + 1, w);
    DecimalAtNumeral(s, e + 1, port, s[e + 1 + |w|..]);
  }

  /** A single decimal digit followed by a non-digit (or the end) converts
      to its own value. */
  lemma {:induction false} DigitAt(s: string, k: nat)
    requires k < |s| && IsDigit(s[k]) && (k + 1 == |s| || !IsDigit(s[k + 1]))
    ensures DecimalAt(s, k) == Converted(DigitValue(s[k]), k + 1)
  {
    assert RunEnd(s, k, false) == RunEnd(s, k + 1, false) == k + 1;
    assert ValueAt(s, k, k + 1, false) == CharValue(s[k]);
  }

  /** A separator and a single decimal digit make one step. */
  lemma {:induction false} DigitAfter(s: string, k: nat, sep: char, anySep: bool)
    requires k + 1 < |s| && (anySep || s[k] == sep) && IsDigit(s[k + 1])
    requires k + 2 == |s| || !IsDigit(s[k + 2])
    ensures NumberAfter(s, k, sep, anySep, false) == Part(true, DigitValue(s[k + 1]), k + 2)
  {
    DigitAt(s, k + 1);
  }

  /** The three steps after the first number of "1.2.3?4". */
  lemma {:induction false} DottedOneTwoThreeFour(s: string, anyThird: bool)
    requires |s| >= 7 && s[..7] == "1.2.3" + [s[5]] + "4" && (|s| == 7 || !IsDigit(s[7]))
    requires !IsDigit(s[5]) && (anyThird || s[5] == '.')
    ensures DottedRest(s, Converted(1, 1), anyThird) == DottedScan(true, AssembleIP(1, 2, 3, 4), 7)
  {
    assert s[1] == '.' && s[2] == '2' && s[3] == '.' && s[4] == '3' && s[6] == '4' by {
      assert s[..7][1] == '.' && s[..7][2] == '2' && s[..7][3] == '.' && s[..7][4] == '3' && s[..7][6] == '4';
    }
    DigitAfter(s, 1, '.', false);
    DigitAfter(s, 3, '.', false);
    DigitAfter(s, 5, '.', anyThird);
  }

  /** The first number of "1.2.3?4". */
  lemma {:induction false} LeadingOne(s: string)
    requires |s| >= 2 && s[0] == '1' && s[1] == '.'
    ensures SkipWhite(s, 0) == 0 && DecimalAt(s, 0) == Converted(1, 1)
  {
    DigitAt(s, 0);
  }

  /** "1.2.3x4": the code accepts any character between the third and
      fourth numbers, where the intended scanner refuses anything but '.'. */
  lemma {:induction false} AsWrittenSkipsThirdSeparator(port: uint16, ip: uint32)
    ensures ScanAsWritten("1.2.3x4", 0, port, ip) == Endpoint(true, port, AssembleIP(1, 2, 3, 4), 7)
    ensures !Scan("1.2.3x4", 0, port, ip).ok
  {
    var s := "1.2.3x4";
    LeadingOne(s);
    DottedOneTwoThreeFour(s, true);
    assert !NumberAfter(s, 5, '.', false, false).ok;
  }

  /** "80": the code returns true without storing the port the bare number
      gives; the intended scanner stores it. */
  lemma {:induction false} AsWrittenIgnoresBarePort(port: uint16, ip: uint32)
    ensures ScanAsWritten("80", 0, port, ip) == Endpoint(true, port, ip, 2)
    ensures Scan("80", 0, port, ip) == Endpoint(true, 80, ip, 2)
  {
    SkipWhiteOf("80", 0, [], "80");
    DecimalAtNumeral("80", 0, 80, "");
  }

  /** "1.2.3.4:x": the code fails but has already replaced the address; the
      intended scanner leaves it unchanged. */
  lemma {:induction false} AsWrittenFailureChangesAddress(port: uint16)
    ensures ScanAsWritten("1.2.3.4:x", 0, port, 0) == Endpoint(false, port, AssembleIP(1, 2, 3, 4), 8)
    ensures Scan("1.2.3.4:x", 0, port, 0) == Endpoint(false, port, 0, 8)
  {
    var s := "1.2.3.4:x";
    LeadingOne(s);
    DottedOneTwoThreeFour(s, true);
    DottedOneTwoThreeFour(s, false);
  }
}
