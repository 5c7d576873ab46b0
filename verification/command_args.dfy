/** The argument classes of the command parser (CommandParser.hpp): the
    generic token, name, number, keyword, string and file name arguments and
    the PCI, disk and network address arguments.

    The source keeps each argument's parse results in the argument object;
    here an argument is its constant description (`Spec`) and the values a
    parse leaves (`State`), and every member function becomes a function of
    the two. */
module CommandArguments {
  import opened Bytes
  import opened Decimal
  import opened Scanners
  import opened Keywords
  import opened AddressScanners
  import opened Chars
  import opened Results
  import opened Addresses

  /** The argument classes and the constants their constructors take. The
      string and file name classes parse alike, so one kind stands for
      both; a number is always decimal. */
  datatype Kind =
    | Token
    | Name
    | Number(min: uint32, max: uint32)
    | Keyword(keys: seq<string>)
    | Text
    | PCI
    | Disk
    | Network(defaultPort: uint16, defaultIP: uint32)

  datatype Spec = Spec(name: string, kind: Kind, optional: bool)

  /** The member data a parse sets: the text of the argument, and the
      fields of whichever class the argument belongs to. */
  datatype State = State(
    value: string,
    index: int,
    valid: bool,
    bus: uint32, slot: uint32, func: uint32,
    useLBN: bool, block: uint32, cylinder: uint32, head: uint32, sector: uint32,
    port: uint16, ip: uint32)

  /** Reset(): no value, no keyword, and the address fields back to zero,
      except a network address, which returns to its constructor's
      defaults. */
  function Reset(spec: Spec): (st: State)
    ensures st.value == [] && st.index == -1 && !st.valid && !st.useLBN
    ensures st.bus == st.slot == st.func == 0
    ensures st.block == st.cylinder == st.head == st.sector == 0
    ensures spec.kind.Network? ==> st.port == spec.kind.defaultPort && st.ip == spec.kind.defaultIP
    ensures !spec.kind.Network? ==> st.port == 0 && st.ip == 0
  {
    var port: uint16 := if spec.kind.Network? then spec.kind.defaultPort else 0;
    var ip: uint32 := if spec.kind.Network? then spec.kind.defaultIP else 0;
    State([], -1, false, 0, 0, 0, false, 0, 0, 0, 0, port, ip)
  }

  /** IsPresent(): the argument has a value. */
  predicate IsPresent(st: State)
  {
    st.value != []
  }

  /** GetNumber(): strtoul of the stored text, which reads its leading
      digits, returned as a uint32_t. */
  function GetNumber(text: string): (n: uint32)
    ensures AllDigits(text) && Value(text, 10) < 0x1_0000_0000 ==> n == Value(text, 10)
    ensures AllDigits(text) && Value(text, 10) <= ULONG_MAX ==> n == Value(text, 10) % 0x1_0000_0000
    ensures AllDigits(text) && Value(text, 10) > ULONG_MAX ==> n == 0xFFFF_FFFF
  {
    var e := RunEnd(text, 0, false);
    if AllDigits(text) then
      DigitsValue(text);
      StoredUlong(ValueAt(text, 0, e, false))
    else
      StoredUlong(ValueAt(text, 0, e, false))
  }

  /** strtoul reads a text of digits to its end, and its value is the
      numeral's. */
  lemma {:induction false} DigitsValue(text: string)
    requires AllDigits(text)
    ensures RunEnd(text, 0, false) == |text|
    ensures ValueAt(text, 0, |text|, false) == Value(text, 10)
  {
    assert text[0..] == text + [];
    RunEndOfNumeral(text, 0, text, []);
    assert WrittenAt(text, 0, text);
    ValueAtWritten(text, 0, text, false);
  }

  /** IsValid() of each class. */
  function IsValid(spec: Spec, st: State): (r: bool)
    ensures spec.kind.Token? || spec.kind.Name? || spec.kind.Text? ==> r
    ensures spec.kind.Number? ==>
              (r <==> (spec.optional && !IsPresent(st)) ||
                      (IsPresent(st) && spec.kind.min <= GetNumber(st.value) <= spec.kind.max))
    ensures spec.kind.Keyword? ==> (r <==> IsPresent(st) && st.index >= 0)
    ensures spec.kind.PCI? || spec.kind.Disk? || spec.kind.Network? ==>
              (r <==> st.valid || (spec.optional && !IsPresent(st)))
  {
    match spec.kind
    case Token => true
    case Name => true
    case Text => true
    case Number(min, max) =>
      (spec.optional && !IsPresent(st)) ||
      (IsPresent(st) && min <= GetNumber(st.value) && GetNumber(st.value) <= max)
    case Keyword(_) => IsPresent(st) && st.index >= 0
    case _ => st.valid || (spec.optional && !IsPresent(st))
  }

  /** GetKeyIndex(): the index of the keyword found, or -1 unless the
      argument is valid. */
  function GetKeyIndex(spec: Spec, st: State): (k: int)
    requires spec.kind.Keyword?
    ensures k == -1 || (IsValid(spec, st) && k == st.index >= 0)
    ensures IsValid(spec, st) ==> k == st.index
  {
    if IsValid(spec, st) then st.index else -1
  }

  /** After Reset() an argument is absent, so it is valid exactly when it
      is optional (a keyword never is), and it has no keyword index. */
  lemma {:induction false} ResetValidity(spec: Spec)
    ensures !IsPresent(Reset(spec))
    ensures spec.kind.Keyword? ==> !IsValid(spec, Reset(spec)) && GetKeyIndex(spec, Reset(spec)) == -1
    ensures spec.kind.Number? || spec.kind.PCI? || spec.kind.Disk? || spec.kind.Network? ==>
              (IsValid(spec, Reset(spec)) <==> spec.optional)
  {
  }

  /** The result of Parse(): its return value, the argument's new state,
      and where the scan left `pcNext`. */
  datatype Parsed = Parsed(ok: bool, st: State, next: nat)

  /** Parse(pc) of each class. */
  function Parse(spec: Spec, st: State, s: string, i: nat): (r: Parsed)
    requires i <= |s|
    ensures i <= r.next <= |s|
    ensures r.ok ==> i < r.next
    ensures !(spec.kind.PCI? || spec.kind.Disk? || spec.kind.Network?) ==> (r.ok <==> IsPresent(r.st))
    ensures spec.kind.PCI? || spec.kind.Disk? || spec.kind.Network? ==> (r.ok <==> r.st.valid)
    ensures r.ok ==> IsPresent(r.st)
  {
    match spec.kind
    case Token => ParseToken(st, s, i)
    case Name => ParseName(st, s, i)
    case Number(_, _) => ParseNumber(st, s, i)
    case Keyword(keys) => ParseKeyword(keys, st, s, i)
    case Text => ParseText(st, s, i)
    case PCI => ParsePCI(st, s, i)
    case Disk => ParseDisk(st, s, i)
    case Network(_, _) => ParseNetwork(st, s, i)
  }

  /** CCmdArgument::Parse: the token is the value, and the parse succeeds
      when it is not empty. */
  function ParseToken(st: State, s: string, i: nat): (r: Parsed)
    requires i <= |s|
    ensures i <= r.next <= |s| && r.st == st.(value := r.st.value)
    ensures |r.st.value| <= r.next - i && r.st.value == s[r.next - |r.st.value|..(r.next)]
    ensures r.ok <==> r.st.value != []
    ensures r.st.value == [] ==> r.next == SkipWhite(s, i)
  {
    var t := ScanToken(s, i);
    Parsed(t.text != [], st.(value := t.text), t.next)
  }

  /** CCmdArgName::Parse: the name, in upper case, is the value. */
  function ParseName(st: State, s: string, i: nat): (r: Parsed)
    requires i <= |s|
    ensures i <= r.next <= |s| && r.st == st.(value := r.st.value)
    ensures |r.st.value| <= r.next - i && r.st.value == UpperCase(s[r.next - |r.st.value|..(r.next)])
    ensures r.ok <==> r.st.value != []
  {
    var t := ScanName(s, i);
    Parsed(t.text != [], st.(value := t.text), t.next)
  }

  /** CCmdArgNumber::Parse: the digits ScanNumber finds are the value. */
  function ParseNumber(st: State, s: string, i: nat): (r: Parsed)
    requires i <= |s|
    ensures i <= r.next <= |s| && r.st == st.(value := r.st.value)
    ensures |r.st.value| <= r.next - i && r.st.value == s[r.next - |r.st.value|..(r.next)] && AllDigits(r.st.value)
    ensures r.ok <==> r.st.value != []
  {
    var t := ScanNumber(s, i);
    Parsed(t.text != [], st.(value := t.text), t.next)
  }

  /** CCmdArgKeyword::Parse: any name is accepted, and the index of the
      keyword it matches (or -1) is recorded; an unknown keyword makes the
      argument invalid, not the parse fail. Without a name the index is
      left as it was. */
  function ParseKeyword(keys: seq<string>, st: State, s: string, i: nat): (r: Parsed)
    requires i <= |s|
    ensures i <= r.next <= |s|
    ensures |r.st.value| <= r.next - i && r.st.value == UpperCase(s[r.next - |r.st.value|..(r.next)])
    ensures r.ok <==> r.st.value != []
    ensures !r.ok ==> r.st == st.(value := [])
    ensures r.ok ==> r.st == st.(value := r.st.value, index := Search(r.st.value, keys))
  {
    var n := ParseName(st, s, i);
    if n.ok then n.(st := n.st.(index := Search(n.st.value, keys))) else n
  }

  /** CCmdArgString::Parse (and CCmdArgFileName's): a token or a quoted
      string. */
  function ParseText(st: State, s: string, i: nat): (r: Parsed)
    requires i <= |s|
    ensures i <= r.next <= |s| && r.st == st.(value := r.st.value)
    ensures r.st.value == ScanQuoted(s, i).text && r.next == ScanQuoted(s, i).next
    ensures r.ok <==> r.st.value != []
    ensures r.ok ==> i < r.next
  {
    var t := ScanQuoted(s, i);
    ScannedQuoted(s, i);
    Parsed(t.text != [], st.(value := t.text), t.next)
  }

  /** CCmdArgPCIAddress::Parse: the value is the text ScanBDF passed over;
      the argument is valid when the scan succeeds and the bus and slot fit
      in a byte. */
  function ParsePCI(st: State, s: string, i: nat): (r: Parsed)
    requires i <= |s|
    ensures i <= r.next <= |s| && r.ok == r.st.valid
    ensures var b := ScanBDF(s, i);
            r.next == b.next && r.st.bus == b.bus && r.st.slot == b.slot && r.st.func == b.func &&
            (r.ok <==> b.ok && b.bus <= 255 && b.slot <= 255)
    ensures r.st.value == s[SkipWhite(s, i)..(r.next)]
    ensures r.ok ==> SkipWhite(s, i) < r.next
  {
    var j := SkipWhite(s, i);
    var b := ScanBDF(s, j);
    SkipWhiteTwice(s, i);
    var valid := b.ok && b.bus <= 255 && b.slot <= 255;
    Parsed(valid, st.(value := s[j..b.next], valid := valid, bus := b.bus, slot := b.slot, func := b.func), b.next)
  }

  /** CCmdArgDiskAddress::Parse: a leading digit makes the argument a
      logical block number, read by strtoul; anything else is scanned as
      "(c,h,s)". The fields of the form not used are zero. */
  function ParseDisk(st: State, s: string, i: nat): (r: Parsed)
    requires i <= |s|
    ensures i <= r.next <= |s| && r.ok == r.st.valid
    ensures var j := SkipWhite(s, i);
            j <= r.next && r.st.value == s[j..(r.next)] &&
            (r.st.useLBN <==> j < |s| && IsDigit(s[j])) &&
            (r.st.useLBN ==> r.ok && r.st.block == DecimalAt(s, j).value && r.next == DecimalAt(s, j).end &&
                             r.st.cylinder == r.st.head == r.st.sector == 0) &&
            (!r.st.useLBN ==> r.st.block == 0 &&
                              var c := ScanCHS(s, j);
                              r.ok == c.ok && r.next == c.next &&
                              r.st.cylinder == c.cylinder && r.st.head == c.head && r.st.sector == c.sector)
    ensures r.ok ==> SkipWhite(s, i) < r.next
  {
    var j := SkipWhite(s, i);
    if j < |s| && IsDigit(s[j]) then
      var d := DecimalAt(s, j);
      Parsed(true, st.(value := s[j..d.end], valid := true, useLBN := true, block := d.value,
                       cylinder := 0, head := 0, sector := 0), d.end)
    else
      var c := ScanCHS(s, j);
      Parsed(c.ok, st.(value := s[j..c.next], valid := c.ok, useLBN := false, block := 0,
                       cylinder := c.cylinder, head := c.head, sector := c.sector), c.next)
  }

  /** CCmdArgNetworkAddress::Parse: Scan, as the code is written, updates
      the port and address the argument holds, which start at the
      constructor's defaults after a Reset(). A failed scan keeps the port
      but may already have replaced the address. */
  function ParseNetwork(st: State, s: string, i: nat): (r: Parsed)
    requires i <= |s|
    ensures i <= r.next <= |s| && r.ok == r.st.valid
    ensures var e := AddressScanners.ScanAsWritten(s, SkipWhite(s, i), st.port, st.ip);
            r.ok == e.ok && r.next == e.next && r.st.port == e.port && r.st.ip == e.ip
    ensures r.st.value == s[SkipWhite(s, i)..(r.next)]
    ensures !r.ok ==> r.st.port == st.port
    ensures r.ok ==> SkipWhite(s, i) < r.next
  {
    var j := SkipWhite(s, i);
    var e := AddressScanners.ScanAsWritten(s, j, st.port, st.ip);
    SkipWhiteTwice(s, i);
    Parsed(e.ok, st.(value := s[j..e.next], valid := e.ok, port := e.port, ip := e.ip), e.next)
  }

  /** The network argument parsed with the scanner as its description has
      it: a failure leaves both the port and the address alone. */
  function ParseNetworkIntended(st: State, s: string, i: nat): (r: Parsed)
    requires i <= |s|
    ensures i <= r.next <= |s| && r.ok == r.st.valid
    ensures var e := AddressScanners.Scan(s, SkipWhite(s, i), st.port, st.ip);
            r.ok == e.ok && r.next == e.next && r.st.port == e.port && r.st.ip == e.ip
    ensures r.st.value == s[SkipWhite(s, i)..(r.next)]
    ensures !r.ok ==> r.st.port == st.port && r.st.ip == st.ip
    ensures r.ok ==> SkipWhite(s, i) < r.next
  {
    var j := SkipWhite(s, i);
    var e := AddressScanners.Scan(s, j, st.port, st.ip);
    SkipWhiteTwice(s, i);
    Parsed(e.ok, st.(value := s[j..e.next], valid := e.ok, port := e.port, ip := e.ip), e.next)
  }

  /** Whatever the intended parse accepts, other than a bare number, the
      code parses in the same way. */
  lemma {:induction false} ParseNetworkAgrees(st: State, s: string, i: nat)
    requires i <= |s| && ParseNetworkIntended(st, s, i).ok && !BareNumber(s, SkipWhite(s, i))
    ensures ParseNetwork(st, s, i) == ParseNetworkIntended(st, s, i)
  {
    var j := SkipWhite(s, i);
    SkipWhiteTwice(s, i);
    AsWrittenAgrees(s, j, st.port, st.ip);
  }

  /** Skipping white space a second time goes nowhere. */
  lemma {:induction false} SkipWhiteTwice(s: string, i: nat)
    requires i <= |s|
    ensures SkipWhite(s, SkipWhite(s, i)) == SkipWhite(s, i)
  {
  }

  /** A quoted string's text, when it is not empty, lies before where the
      scan stopped. */
  lemma {:induction false} ScannedQuoted(s: string, i: nat)
    requires i <= |s|
    ensures var t := ScanQuoted(s, i);
            t.text != [] ==> i < t.next
  {
  }

  // --------------------------------------------------------- round trips

  /** The start of a text is the piece written first. */
  lemma {:induction false} Prefix(f: string, rest: string)
    requires f != []
    ensures var s := f + rest; |s| == |f| + |rest| && s[0] == f[0] && s[0..|f|] == f
  {
  }

  /** A text whose first character is not white space is not skipped. */
  lemma {:induction false} NoWhite(s: string)
    requires s != [] && !IsSpace(s[0])
    ensures SkipWhite(s, 0) == 0
  {
  }

  /** A printed decimal number parses back as its numeral, and GetNumber()
      returns the number; IsValid() then checks it against the range. */
  lemma {:induction false} ParseNumberFormatted(spec: Spec, st: State, n: uint32, rest: string)
    requires spec.kind.Number? && (rest == [] || IsSpace(rest[0]))
    ensures var s := FromNat(n) + rest;
            var r := Parse(spec, st, s, 0);
            r.ok && r.next == |FromNat(n)| && r.st.value == FromNat(n) && GetNumber(r.st.value) == n &&
            (IsValid(spec, r.st) <==> spec.kind.min <= n <= spec.kind.max)
  {
    NumeralParses(spec, st, n, rest);
    NumeralNumber(n);
  }

  /** GetNumber reads a printed number back. */
  lemma {:induction false} NumeralNumber(n: uint32)
    ensures FromNat(n) != [] && GetNumber(FromNat(n)) == n
  {
    FromNatValue(n);
  }

  lemma {:induction false} NumeralParses(spec: Spec, st: State, n: uint32, rest: string)
    requires spec.kind.Number? && (rest == [] || IsSpace(rest[0]))
    ensures Parse(spec, st, FromNat(n) + rest, 0) == Parsed(true, st.(value := FromNat(n)), |FromNat(n)|)
  {
    var w := FromNat(n);
    ScanNumberOf(w + rest, w, rest);
    ParseNumberAt(spec, st, w + rest, w);
  }

  lemma {:induction false} ParseNumberAt(spec: Spec, st: State, s: string, w: string)
    requires spec.kind.Number? && w != [] && ScanNumber(s, 0) == Scan(w, |w|)
    ensures Parse(spec, st, s, 0) == Parsed(true, st.(value := w), |w|)
  {
  }

  /** ScanNumber reads a numeral at the start of the text, up to the white
      space after it. */
  lemma {:induction false} ScanNumberOf(s: string, w: string, rest: string)
    requires s == w + rest && w != [] && AllDigits(w) && (rest == [] || IsSpace(rest[0]))
    ensures ScanNumber(s, 0) == Scan(w, |w|)
  {
    Prefix(w, rest);
    NoWhite(s);
    assert s[0..] == w + rest;
    RunEndOfNumeral(s, 0, w, rest);
  }

  /** A printed PCI address parses back as its three numbers; it is valid
      when the bus and slot fit in a byte. The value kept is the printed
      text. */
  lemma {:induction false} ParsePCIFormatted(spec: Spec, st: State, bus: uint32, slot: uint32, func: uint32, rest: string)
    requires spec.kind.PCI? && (rest == [] || IsSpace(rest[0]))
    ensures var s := FormatBDF(bus, slot, func) + rest;
            var r := Parse(spec, st, s, 0);
            r.next == |FormatBDF(bus, slot, func)| && r.st.value == FormatBDF(bus, slot, func) &&
            r.st.bus == bus && r.st.slot == slot && r.st.func == func &&
            (r.ok <==> bus <= 255 && slot <= 255)
  {
    var f := FormatBDF(bus, slot, func);
    ScanFormattedBDF(bus, slot, func, rest);
    assert f[0] == FromNatHex(bus)[0];
    Prefix(f, rest);
    ParsePCIAt(spec, st, f + rest, bus, slot, func, |f|);
  }

  /** Parse of a PCI address that ScanBDF reads from the start of the text. */
  lemma {:induction false} ParsePCIAt(spec: Spec, st: State, s: string, bus: uint32, slot: uint32, func: uint32, e: nat)
    requires spec.kind.PCI? && s != [] && !IsSpace(s[0]) && ScanBDF(s, 0) == BDF(true, bus, slot, func, e)
    ensures var r := Parse(spec, st, s, 0);
            r.next == e && r.st.value == s[0..e] && r.st.bus == bus && r.st.slot == slot && r.st.func == func &&
            (r.ok <==> bus <= 255 && slot <= 255)
  {
    NoWhite(s);
  }

  /** A printed "(c,h,s)" disk address parses back as its three numbers. */
  lemma {:induction false} ParseDiskFormatted(spec: Spec, st: State, cylinder: uint32, head: uint32, sector: uint32, rest: string)
    requires spec.kind.Disk?
    ensures var s := FormatCHS(cylinder, head, sector) + rest;
            var r := Parse(spec, st, s, 0);
            r.ok && !r.st.useLBN && r.next == |FormatCHS(cylinder, head, sector)| &&
            r.st.value == FormatCHS(cylinder, head, sector) &&
            r.st.cylinder == cylinder && r.st.head == head && r.st.sector == sector && r.st.block == 0
  {
    var f := FormatCHS(cylinder, head, sector);
    ScanFormattedCHS(cylinder, head, sector, rest);
    Prefix(f, rest);
    ParseDiskAt(spec, st, f + rest, cylinder, head, sector, |f|);
  }

  /** Parse of a disk address that ScanCHS reads from the start of the
      text. */
  lemma {:induction false} ParseDiskAt(spec: Spec, st: State, s: string, cylinder: uint32, head: uint32, sector: uint32, e: nat)
    requires spec.kind.Disk? && s != [] && s[0] == '(' && ScanCHS(s, 0) == CHS(true, cylinder, head, sector, e)
    ensures var r := Parse(spec, st, s, 0);
            r.ok && !r.st.useLBN && r.next == e && r.st.value == s[0..e] &&
            r.st.cylinder == cylinder && r.st.head == head && r.st.sector == sector && r.st.block == 0
  {
    NoWhite(s);
  }

  /** A printed block number parses back as a logical block address. */
  lemma {:induction false} ParseBlockFormatted(spec: Spec, st: State, block: uint32, rest: string)
    requires spec.kind.Disk? && (rest == [] || !IsDigit(rest[0]))
    ensures var s := FromNat(block) + rest;
            var r := Parse(spec, st, s, 0);
            r.ok && r.st.useLBN && r.next == |FromNat(block)| && r.st.value == FromNat(block) &&
            r.st.block == block && r.st.cylinder == r.st.head == r.st.sector == 0
  {
    var w := FromNat(block);
    var s := w + rest;
    Prefix(w, rest);
    assert s[0..] == w + rest;
    DecimalAtNumeral(s, 0, block, rest);
    ParseBlockAt(spec, st, s, block, |w|);
  }

  /** Parse of a block number that strtoul reads from the start of the
      text. */
  lemma {:induction false} ParseBlockAt(spec: Spec, st: State, s: string, block: uint32, e: nat)
    requires spec.kind.Disk? && s != [] && IsDigit(s[0]) && DecimalAt(s, 0) == Converted(block, e)
    ensures var r := Parse(spec, st, s, 0);
            r.ok && r.st.useLBN && r.next == e && r.st.value == s[0..e] &&
            r.st.block == block && r.st.cylinder == r.st.head == r.st.sector == 0
  {
    NoWhite(s);
  }

  /** A printed network endpoint parses back as its address, and as its
      port when one was printed; otherwise the port keeps the value it had
      (after Reset(), the default). */
  lemma {:induction false} ParseNetworkFormatted(spec: Spec, st: State, ip: uint32, port: uint16, rest: string)
    requires spec.kind.Network? && (rest == [] || IsSpace(rest[0]))
    ensures var s := FormatIPaddress(ip, port) + rest;
            var r := Parse(spec, st, s, 0);
            r.ok && r.next == |FormatIPaddress(ip, port)| && r.st.value == FormatIPaddress(ip, port) &&
            r.st.ip == ip && r.st.port == (if port != 0 then port else st.port)
  {
    var f := FormatIPaddress(ip, port);
    ScanFormattedEndpoint(ip, port, st.port, st.ip, rest);
    assert f[0] == FromNat(Octet(ip, 0))[0];
    Prefix(f, rest);
    ParseNetworkAt(spec, st, f + rest, ip, if port != 0 then port else st.port, |f|);
  }

  /** Parse of an endpoint that the scanner reads from the start of the
      text. */
  lemma {:induction false} ParseNetworkAt(spec: Spec, st: State, s: string, ip: uint32, port: uint16, e: nat)
    requires spec.kind.Network? && s != [] && !IsSpace(s[0])
    requires AddressScanners.ScanAsWritten(s, 0, st.port, st.ip) == Endpoint(true, port, ip, e)
    ensures var r := Parse(spec, st, s, 0);
            r.ok && r.next == e && r.st.value == s[0..e] && r.st.ip == ip && r.st.port == port
  {
    NoWhite(s);
  }

  /** A keyword argument records the index Search finds for the name
      written, so it is valid exactly when the name abbreviates one of the
      keywords. */
  lemma {:induction false} ParseKeywordValid(spec: Spec, st: State, s: string, i: nat)
    requires spec.kind.Keyword? && i <= |s|
    ensures var r := Parse(spec, st, s, i);
            IsValid(spec, r.st) <==>
              r.ok && exists k | 0 <= k < |spec.kind.keys| :: Match(Some(r.st.value), Some(spec.kind.keys[k]))
  {
  }
}
