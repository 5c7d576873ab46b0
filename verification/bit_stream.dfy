/** Loading a Xilinx .BIT configuration file (CBitStream in BitStream.cpp
    and BitStream.hpp). The file is a fixed nine byte header block, the
    design name, part name, date and time as counted strings behind the
    tokens 'a' to 'd', and the configuration bits behind the token 'e' and
    a 32-bit length. All lengths are big-endian. The file's contents are a
    parameter; None stands for a file that could not be opened. */
module BitStream {
  import opened Bytes
  import opened Results
  import opened SafeStrings
  import opened BitSwap

  /** The nine bytes of the first block, and the field tokens. */
  const MAGIC: seq<byte> := [0x0F, 0xF0, 0x0F, 0xF0, 0x0F, 0xF0, 0x0F, 0xF0, 0x00]
  const TOKEN_A: byte := 0x61
  const TOKEN_B: byte := 0x62
  const TOKEN_C: byte := 0x63
  const TOKEN_D: byte := 0x64
  const TOKEN_E: byte := 0x65

  /** ReadString's buffer holds 512 characters, one kept for the NUL. */
  const MAXSTRING: nat := 511

  /** The header strings. */
  datatype Header = Header(design: string, part: string, date: string, time: string)

  /** The object's state: the file name, the header, the length of the
      configuration bits, the bits, and whether a bit buffer is allocated
      (the pointer IsLoaded tests). */
  datatype Stream = Stream(fileName: string, header: Header, cbBits: nat, bits: seq<byte>, hasBuffer: bool)

  const NO_HEADER: Header := Header([], [], [], [])

  /** IsLoaded(): a bit buffer is allocated. */
  predicate IsLoaded(s: Stream)
  {
    s.hasBuffer
  }

  /** Clear(): the header and the bits are dropped; the file name stays. */
  function Clear(s: Stream): (r: Stream)
    ensures !IsLoaded(r) && r.fileName == s.fileName && r.header == NO_HEADER && r.cbBits == 0 && r.bits == []
  {
    Stream(s.fileName, NO_HEADER, 0, [], false)
  }

  /** Bytes taken from the file, and the position after them. */
  datatype Chunk = Chunk(data: seq<byte>, next: nat)

  /** ReadBytes(pData, cbData): exactly `n` bytes, or failure. */
  function ReadBytes(file: seq<byte>, pos: nat, n: nat): (r: Option<Chunk>)
    ensures r.Some? <==> pos + n <= |file|
    ensures r.Some? ==> r.value.data == file[pos..pos + n] && r.value.next == pos + n
  {
    if pos + n <= |file| then Some(Chunk(file[pos..pos + n], pos + n)) else None
  }

  /** The 16-bit length word at `pos`, big-endian. */
  function LengthWord(file: seq<byte>, pos: nat): (w: uint16)
    requires pos + 2 <= |file|
  {
    file[pos] as int * 0x100 + file[pos + 1] as int
  }

  /** ReadBlock loads the word as the little-endian host stores it and
      then swaps its bytes, which gives the big-endian value. */
  lemma {:induction false} LengthWordSwapped(file: seq<byte>, pos: nat)
    requires pos + 2 <= |file|
    ensures SwapBytes(MkWord(file[pos + 1], file[pos])) == LengthWord(file, pos)
  {
    var w := MkWord(file[pos + 1], file[pos]);
    assert HiByte(w) == file[pos + 1] && LoByte(w) == file[pos];
  }

  /** ReadBlock(pData, cbMaxData): a length word and that many bytes. It
      fails when the length exceeds the limit or the file runs out; the
      C function returns 0 then, which callers cannot tell from an empty
      block. */
  function ReadBlock(file: seq<byte>, pos: nat, max: nat): (r: Option<Chunk>)
    ensures r.Some? <==> pos + 2 <= |file| && LengthWord(file, pos) <= max && pos + 2 + LengthWord(file, pos) <= |file|
    ensures r.Some? ==> r.value.next == pos + 2 + LengthWord(file, pos) && |r.value.data| == LengthWord(file, pos) <= max &&
                        r.value.data == file[pos + 2..(r.value.next)]
  {
    if pos + 2 > |file| then None
    else
      var n := LengthWord(file, pos);
      if n > max then None else ReadBytes(file, pos + 2, n)
  }

  /** The characters a byte string stands for. */
  function Chars(data: seq<byte>): (r: string)
    ensures |r| == |data|
  {
    seq(|data|, k requires 0 <= k < |data| => data[k] as char)
  }

  /** ReadString(str): a counted block of at most 511 bytes, taken as a C
      string (up to its first NUL). An empty block fails. */
  function ReadString(file: seq<byte>, pos: nat): (r: Option<(string, nat)>)
    ensures r.Some? <==> pos + 2 <= |file| && 0 < LengthWord(file, pos) <= MAXSTRING && pos + 2 + LengthWord(file, pos) <= |file|
    ensures r.Some? ==> pos + 2 <= |file| && r.value.1 == pos + 2 + LengthWord(file, pos) <= |file| &&
                        r.value.0 == CString(Chars(file[pos + 2..(r.value.1)]))
  {
    var b := ReadBlock(file, pos, MAXSTRING);
    if b.None? || b.value.data == [] then None
    else Some((CString(Chars(b.value.data)), b.value.next))
  }

  /** One of the fields 'b' to 'd': the token byte, then a string. */
  function ReadField(file: seq<byte>, pos: nat, token: byte): (r: Option<(string, nat)>)
    ensures r.Some? ==> pos < |file| && file[pos] == token && r == ReadString(file, pos + 1)
    ensures pos < |file| && file[pos] == token ==> r == ReadString(file, pos + 1)
  {
    var t := ReadBytes(file, pos, 1);
    if t.None? || t.value.data[0] != token then None
    else ReadString(file, pos + 1)
  }

  /** The header block, the counted token 'a', and the design name. */
  function ReadFirstField(file: seq<byte>): (r: Option<(string, nat)>)
    ensures r.Some? ==> |file| >= 14 && file[..14] == [0, 9] + MAGIC + [0, 1, TOKEN_A] && r == ReadString(file, 14)
  {
    var m := ReadBlock(file, 0, |MAGIC|);
    if m.None? || m.value.data != MAGIC then None
    else
      var t := ReadBlock(file, m.value.next, 1);
      if t.None? || t.value.data != [TOKEN_A] then None
      else
        assert file[..14] == file[..2] + file[2..11] + file[11..13] + file[13..14];
        ReadString(file, t.value.next)
  }

  /** The 32-bit length at `pos`, big-endian. */
  function LengthLong(file: seq<byte>, pos: nat): (n: uint32)
    requires pos + 4 <= |file|
  {
    LengthWord(file, pos) * 0x1_0000 + LengthWord(file, pos + 2)
  }

  /** ReadFile reads the two halves as length words and joins them with
      MKLONG, high half first, which gives the big-endian value. */
  lemma {:induction false} LengthLongJoined(file: seq<byte>, pos: nat)
    requires pos + 4 <= |file|
    ensures MkLong(LengthWord(file, pos), LengthWord(file, pos + 2)) == LengthLong(file, pos)
  {
    var h, l := LengthWord(file, pos), LengthWord(file, pos + 2);
    assert LoWord(h) == h && LoWord(l) == l;
  }

  /** The token 'e' and the 32-bit length of the configuration bits. */
  function ReadBitsLength(file: seq<byte>, pos: nat): (r: Option<(uint32, nat)>)
    ensures r.Some? <==> pos + 5 <= |file| && file[pos] == TOKEN_E
    ensures r.Some? ==> pos + 5 <= |file| && r.value == (LengthLong(file, pos + 1), pos + 5)
  {
    var t := ReadBytes(file, pos, 1);
    if t.None? || t.value.data[0] != TOKEN_E then None
    else if pos + 5 > |file| then None
    else Some((LengthLong(file, pos + 1), pos + 5))
  }

  /** Where the header fields end, or None where one is missing: the
      header as ReadFile reads it, field by field. */
  datatype Fields = Fields(header: Header, next: nat)

  function ReadHeader(file: seq<byte>): (r: Option<Fields>)
  {
    var a := ReadFirstField(file);
    if a.None? then None
    else
      var b := ReadField(file, a.value.1, TOKEN_B);
      if b.None? then None
      else
        var c := ReadField(file, b.value.1, TOKEN_C);
        if c.None? then None
        else
          var d := ReadField(file, c.value.1, TOKEN_D);
          if d.None? then None
          else Some(Fields(Header(a.value.0, b.value.0, c.value.0, d.value.0), d.value.1))
  }

  /** ReadFile() as the source has it: the bit buffer is allocated before
      the bits are read, and a short file leaves it allocated while the
      read fails. The header strings read before a failure are not
      modelled: every caller clears them first and they are not used after
      a failure. */
  function ReadFileAsWritten(s: Stream, file: seq<byte>): (r: (bool, Stream))
    ensures r.0 ==> IsLoaded(r.1)
  {
    var h := ReadHeader(file);
    if h.None? then (false, s)
    else
      var e := ReadBitsLength(file, h.value.next);
      if e.None? then (false, s.(header := h.value.header))
      else
        var n := e.value.0;
        var withBuffer := s.(header := h.value.header, cbBits := n, hasBuffer := true);
        var bits := ReadBytes(file, e.value.1, n);
        if bits.None? then (false, withBuffer)
        else (true, withBuffer.(bits := bits.value.data))
  }

  /** Open(sFileName) as the source has it: clear, take the new name if
      one is given, fail without a name or a file, then read the file. */
  function OpenAsWritten(s: Stream, name: string, file: Option<seq<byte>>): (r: (bool, Stream))
    ensures r.1.fileName == if name != [] then name else s.fileName
  {
    var c := Clear(s);
    var named := if name != [] then c.(fileName := name) else c;
    if named.fileName == [] || file.None? then (false, named)
    else ReadFileAsWritten(named, file.value)
  }

  /** Open(sFileName) as evidently intended: a failed load leaves nothing
      loaded. Success brings a header and exactly the announced number of
      configuration bits. */
  function Open(s: Stream, name: string, file: Option<seq<byte>>): (r: (bool, Stream))
    ensures r.0 <==> IsLoaded(r.1)
    ensures r.1.fileName == if name != [] then name else s.fileName
    ensures r.0 ==> file.Some? && |r.1.bits| == r.1.cbBits && r.1.fileName != []
    ensures !r.0 ==> r.1 == Clear(r.1)
  {
    var o := OpenAsWritten(s, name, file);
    if o.0 then o else (false, Clear(o.1))
  }

  /** A successful Open has read the whole header, and the bits follow
      their length. */
  lemma {:induction false} OpenReadsHeader(s: Stream, name: string, file: seq<byte>)
    requires Open(s, name, Some(file)).0
    ensures var r := Open(s, name, Some(file)).1;
            var h := ReadHeader(file);
            h.Some? && r.header == h.value.header &&
            ReadBitsLength(file, h.value.next) == Some((r.cbBits, h.value.next + 5)) &&
            h.value.next + 5 + r.cbBits <= |file| && r.bits == file[h.value.next + 5..h.value.next + 5 + r.cbBits]
  {
    var c := Clear(s);
    var named := if name != [] then c.(fileName := name) else c;
    assert Open(s, name, Some(file)) == ReadFileAsWritten(named, file);
    ReadFileReadsHeader(named, file);
  }

  lemma {:induction false} ReadFileReadsHeader(s: Stream, file: seq<byte>)
    requires ReadFileAsWritten(s, file).0
    ensures var r := ReadFileAsWritten(s, file).1;
            var h := ReadHeader(file);
            h.Some? && r.header == h.value.header &&
            ReadBitsLength(file, h.value.next) == Some((r.cbBits, h.value.next + 5)) &&
            h.value.next + 5 + r.cbBits <= |file| && r.bits == file[h.value.next + 5..h.value.next + 5 + r.cbBits]
  {
    var h := ReadHeader(file);
    var e := ReadBitsLength(file, h.value.next);
    var bits := ReadBytes(file, e.value.1, e.value.0);
    assert bits.Some?;
  }

  /** The header getters insist that a bit stream is loaded. */
  function GetDesignName(s: Stream): (r: string)
    requires IsLoaded(s)
  {
    s.header.design
  }

  function GetPartName(s: Stream): (r: string)
    requires IsLoaded(s)
  {
    s.header.part
  }

  function GetDesignDate(s: Stream): (r: string)
    requires IsLoaded(s)
  {
    s.header.date
  }

  function GetDesignTime(s: Stream): (r: string)
    requires IsLoaded(s)
  {
    s.header.time
  }

  function GetBitStream(s: Stream): (r: seq<byte>)
    requires IsLoaded(s)
  {
    s.bits
  }

  /** The file a tool writes: the header block, the counted token 'a',
      the four counted strings behind their tokens, then 'e', the length
      and the bits. */
  function Counted(data: seq<byte>): (r: seq<byte>)
    requires |data| < 0x1_0000
    ensures |r| == 2 + |data| && r[2..] == data
  {
    [HiByte(|data|), LoByte(|data|)] + data
  }

  function Long(n: uint32): (r: seq<byte>)
    ensures |r| == 4
  {
    [HiByte(HiWord(n)), LoByte(HiWord(n)), HiByte(LoWord(n)), LoByte(n)]
  }

  /** A header field a tool may write: one to 511 bytes, none of them
      zero. */
  predicate GoodField(data: seq<byte>)
  {
    0 < |data| <= MAXSTRING && forall k | 0 <= k < |data| :: data[k] != 0
  }

  /** The bytes before the token 'e'. */
  function HeaderBytes(design: seq<byte>, part: seq<byte>, date: seq<byte>, time: seq<byte>): (r: seq<byte>)
    requires GoodField(design) && GoodField(part) && GoodField(date) && GoodField(time)
  {
    PREAMBLE + Counted(design) +
    ([TOKEN_B] + Counted(part) + ([TOKEN_C] + Counted(date) + ([TOKEN_D] + Counted(time))))
  }

  function Layout(design: seq<byte>, part: seq<byte>, date: seq<byte>, time: seq<byte>, bits: seq<byte>): (r: seq<byte>)
    requires GoodField(design) && GoodField(part) && GoodField(date) && GoodField(time)
    requires |bits| < 0x1_0000_0000
  {
    HeaderBytes(design, part, date, time) + ([TOKEN_E] + Long(|bits|) + bits)
  }

  /** The bytes before the design name: the header block and the counted
      token 'a'. */
  const PREAMBLE: seq<byte> := [0, 9] + MAGIC + [0, 1, TOKEN_A]

  /** Where the header a tool writes ends. */
  function HeaderEnd(design: seq<byte>, part: seq<byte>, date: seq<byte>, time: seq<byte>): (n: nat)
    ensures n == 25 + |design| + |part| + |date| + |time|
  {
    16 + |design| + 3 + |part| + 3 + |date| + 3 + |time|
  }

  /** The header fields sit in `file` where a tool writes them. */
  predicate HeaderWritten(file: seq<byte>, design: seq<byte>, part: seq<byte>, date: seq<byte>, time: seq<byte>)
  {
    var pb := 16 + |design|;
    var pc := pb + 3 + |part|;
    var pd := pc + 3 + |date|;
    var pe := pd + 3 + |time|;
    GoodField(design) && GoodField(part) && GoodField(date) && GoodField(time) &&
    pe <= |file| && file[..14] == PREAMBLE && file[14..pb] == Counted(design) &&
    file[pb] == TOKEN_B && file[pb + 1..pc] == Counted(part) &&
    file[pc] == TOKEN_C && file[pc + 1..pd] == Counted(date) &&
    file[pd] == TOKEN_D && file[pd + 1..pe] == Counted(time)
  }

  /** The token 'e', the length and the bits sit at `pos`. */
  predicate BitsWritten(file: seq<byte>, pos: nat, bits: seq<byte>)
  {
    |bits| < 0x1_0000_0000 && pos + 5 + |bits| <= |file| &&
    file[pos] == TOKEN_E && file[pos + 1..pos + 5] == Long(|bits|) && file[pos + 5..pos + 5 + |bits|] == bits
  }

  /** A file in which the reader finds the four header fields, then the
      length and the bits, opens with those strings and bits. */
  lemma {:induction false} OpenFields(s: Stream, name: string, file: seq<byte>, header: Header,
                                      pb: nat, pc: nat, pd: nat, pe: nat, bits: seq<byte>)
    requires name != [] && |bits| < 0x1_0000_0000 && FieldsRead(file, header, pb, pc, pd, pe)
    requires ReadBitsLength(file, pe) == Some((|bits|, pe + 5))
    requires ReadBytes(file, pe + 5, |bits|) == Some(Chunk(bits, pe + 5 + |bits|))
    ensures Open(s, name, Some(file)) == (true, Stream(name, header, |bits|, bits, true))
  {
    HeaderFrom(file, header, pb, pc, pd, pe);
    OpenAt(s, name, file, header, pe, bits);
  }

  /** What the reader finds in a well-formed file: the four header fields,
      the length and the bits. */
  lemma {:induction false} LayoutFields(design: seq<byte>, part: seq<byte>, date: seq<byte>, time: seq<byte>,
                                        bits: seq<byte>, tail: seq<byte>)
    requires GoodField(design) && GoodField(part) && GoodField(date) && GoodField(time)
    requires |bits| < 0x1_0000_0000
    ensures var file := Layout(design, part, date, time, bits) + tail;
            var pe := HeaderEnd(design, part, date, time);
            HeaderRead(file, design, part, date, time) &&
            ReadBitsLength(file, pe) == Some((|bits|, pe + 5)) &&
            ReadBytes(file, pe + 5, |bits|) == Some(Chunk(bits, pe + 5 + |bits|))
  {
    var file := Layout(design, part, date, time, bits) + tail;
    LayoutWritten(design, part, date, time, bits, tail);
    HeaderFields(file, design, part, date, time);
    BitsAt(file, HeaderEnd(design, part, date, time), bits);
  }

  /** Where the pieces of a written file sit. */
  lemma {:induction false} LayoutWritten(design: seq<byte>, part: seq<byte>, date: seq<byte>, time: seq<byte>,
                                         bits: seq<byte>, tail: seq<byte>)
    requires GoodField(design) && GoodField(part) && GoodField(date) && GoodField(time)
    requires |bits| < 0x1_0000_0000
    ensures var file := Layout(design, part, date, time, bits) + tail;
            HeaderWritten(file, design, part, date, time) && BitsWritten(file, HeaderEnd(design, part, date, time), bits)
  {
    var head := HeaderBytes(design, part, date, time);
    var restE := [TOKEN_E] + Long(|bits|) + bits + tail;
    var file := Layout(design, part, date, time, bits) + tail;
    assert file == head + restE;
    HeaderBytesWritten(design, part, date, time, restE);
    var pe := |head|;
    assert file[pe..] == restE;
    assert file[pe + 1..pe + 5] == restE[1..5] == Long(|bits|);
    assert file[pe + 5..pe + 5 + |bits|] == restE[5..5 + |bits|] == bits;
  }

  /** The header a tool writes, followed by anything. */
  lemma {:induction false} HeaderBytesWritten(design: seq<byte>, part: seq<byte>, date: seq<byte>, time: seq<byte>,
                                              rest: seq<byte>)
    requires GoodField(design) && GoodField(part) && GoodField(date) && GoodField(time)
    ensures |HeaderBytes(design, part, date, time)| == HeaderEnd(design, part, date, time)
    ensures HeaderWritten(HeaderBytes(design, part, date, time) + rest, design, part, date, time)
  {
    var c1, c2, c3, c4 := Counted(design), Counted(part), Counted(date), Counted(time);
    var rd := [TOKEN_D] + c4 + rest;
    var rc := [TOKEN_C] + c3 + rd;
    var rb := [TOKEN_B] + c2 + rc;
    var file := HeaderBytes(design, part, date, time) + rest;
    assert file == PREAMBLE + c1 + rb;
    var pb := 16 + |design|;
    var pc := pb + 3 + |part|;
    var pd := pc + 3 + |date|;
    assert file[..14] == PREAMBLE && file[14..pb] == c1;
    assert file[pb..] == rb;
    TokenThen(file, pb, TOKEN_B, c2, rc);
    TokenThen(file, pc, TOKEN_C, c3, rd);
    TokenThen(file, pd, TOKEN_D, c4, rest);
  }

  /** A token and a string at `pos`, and what follows them. */
  lemma {:induction false} TokenThen(file: seq<byte>, pos: nat, token: byte, c: seq<byte>, rest: seq<byte>)
    requires pos <= |file| && file[pos..] == [token] + c + rest
    ensures pos + 1 + |c| <= |file| && file[pos] == token && file[pos + 1..pos + 1 + |c|] == c
    ensures file[pos + 1 + |c|..] == rest
  {
    var t := file[pos..];
    assert file[pos] == t[0];
    assert file[pos + 1..pos + 1 + |c|] == t[1..1 + |c|] == c;
    assert file[pos + 1 + |c|..] == t[1 + |c|..] == rest;
  }

  /** Open on a file whose header, length and bits have been read. */
  lemma {:induction false} OpenAt(s: Stream, name: string, file: seq<byte>, header: Header, pos: nat, bits: seq<byte>)
    requires name != [] && |bits| < 0x1_0000_0000
    requires ReadHeader(file) == Some(Fields(header, pos))
    requires ReadBitsLength(file, pos) == Some((|bits|, pos + 5))
    requires ReadBytes(file, pos + 5, |bits|) == Some(Chunk(bits, pos + 5 + |bits|))
    ensures Open(s, name, Some(file)) == (true, Stream(name, header, |bits|, bits, true))
  {
  }

  /** Each header field read in turn: `header` holds the strings, and
      `pb`, `pc`, `pd` and `next` are where the fields after each end. */
  predicate FieldsRead(file: seq<byte>, header: Header, pb: nat, pc: nat, pd: nat, next: nat)
  {
    ReadFirstField(file) == Some((header.design, pb)) &&
    ReadField(file, pb, TOKEN_B) == Some((header.part, pc)) &&
    ReadField(file, pc, TOKEN_C) == Some((header.date, pd)) &&
    ReadField(file, pd, TOKEN_D) == Some((header.time, next))
  }

  /** The header fields a tool writes, as the reader finds them. */
  predicate HeaderRead(file: seq<byte>, design: seq<byte>, part: seq<byte>, date: seq<byte>, time: seq<byte>)
  {
    var pb := 16 + |design|;
    var pc := pb + 3 + |part|;
    var pd := pc + 3 + |date|;
    FieldsRead(file, Header(Chars(design), Chars(part), Chars(date), Chars(time)), pb, pc, pd, pd + 3 + |time|)
  }

  /** The fields of a file that holds them where a tool writes them. */
  lemma {:induction false} HeaderFields(file: seq<byte>, design: seq<byte>, part: seq<byte>, date: seq<byte>,
                                        time: seq<byte>)
    requires HeaderWritten(file, design, part, date, time)
    ensures HeaderRead(file, design, part, date, time)
  {
    FirstFields(file, design, part, date, time);
    LastFields(file, design, part, date, time);
  }

  /** The design and part names where a tool writes them. */
  lemma {:induction false} FirstFields(file: seq<byte>, design: seq<byte>, part: seq<byte>, date: seq<byte>,
                                       time: seq<byte>)
    requires HeaderWritten(file, design, part, date, time)
    ensures var pb := 16 + |design|;
            ReadFirstField(file) == Some((Chars(design), pb)) &&
            ReadField(file, pb, TOKEN_B) == Some((Chars(part), pb + 3 + |part|))
  {
    FirstFieldAt(file, design);
    FieldAt(file, 16 + |design|, TOKEN_B, part);
  }

  /** The date and time where a tool writes them. */
  lemma {:induction false} LastFields(file: seq<byte>, design: seq<byte>, part: seq<byte>, date: seq<byte>,
                                      time: seq<byte>)
    requires HeaderWritten(file, design, part, date, time)
    ensures var pc := 19 + |design| + |part|;
            var pd := pc + 3 + |date|;
            ReadField(file, pc, TOKEN_C) == Some((Chars(date), pd)) &&
            ReadField(file, pd, TOKEN_D) == Some((Chars(time), pd + 3 + |time|))
  {
    var pc := 19 + |design| + |part|;
    FieldAt(file, pc, TOKEN_C, date);
    FieldAt(file, pc + 3 + |date|, TOKEN_D, time);
  }

  /** The header as read field by field. */
  lemma {:induction false} HeaderFrom(file: seq<byte>, header: Header, pb: nat, pc: nat, pd: nat, next: nat)
    requires FieldsRead(file, header, pb, pc, pd, next)
    ensures ReadHeader(file) == Some(Fields(header, next))
  {
  }

  /** The first field of a file that starts as a tool writes it. */
  lemma {:induction false} FirstFieldAt(file: seq<byte>, design: seq<byte>)
    requires GoodField(design) && 16 + |design| <= |file|
    requires file[..14] == PREAMBLE && file[14..16 + |design|] == Counted(design)
    ensures ReadFirstField(file) == Some((Chars(design), 16 + |design|))
  {
    assert file[0] == 0 && file[1] == 9 && file[2..11] == MAGIC by {
      assert file[2..11] == file[..14][2..11];
    }
    assert file[11] == 0 && file[12] == 1 && file[13..14] == [TOKEN_A] by {
      assert file[13..14] == file[..14][13..14];
    }
    StringAt(file, 14, design);
  }

  /** A token and a counted string at `pos`. */
  lemma {:induction false} FieldAt(file: seq<byte>, pos: nat, token: byte, data: seq<byte>)
    requires GoodField(data) && pos + 3 + |data| <= |file|
    requires file[pos] == token && file[pos + 1..pos + 3 + |data|] == Counted(data)
    ensures ReadField(file, pos, token) == Some((Chars(data), pos + 3 + |data|))
  {
    StringAt(file, pos + 1, data);
  }

  /** A counted string at `pos` reads back as the string it holds. */
  lemma {:induction false} StringAt(file: seq<byte>, pos: nat, data: seq<byte>)
    requires GoodField(data) && pos + 2 + |data| <= |file| && file[pos..pos + 2 + |data|] == Counted(data)
    ensures ReadString(file, pos) == Some((Chars(data), pos + 2 + |data|))
  {
    var c := Counted(data);
    assert file[pos] == c[0] && file[pos + 1] == c[1];
    assert LengthWord(file, pos) == |data|;
    assert file[pos + 2..pos + 2 + |data|] == c[2..] == data;
    var chars := Chars(data);
    assert forall k | 0 <= k < |chars| :: chars[k] != NUL;
    StrlenOfString(chars);
    assert CString(chars) == chars;
  }

  /** The token 'e', the length and the bits at `pos`. */
  lemma {:induction false} BitsAt(file: seq<byte>, pos: nat, bits: seq<byte>)
    requires BitsWritten(file, pos, bits)
    ensures ReadBitsLength(file, pos) == Some((|bits|, pos + 5))
    ensures ReadBytes(file, pos + 5, |bits|) == Some(Chunk(bits, pos + 5 + |bits|))
  {
    LengthAt(file, pos, |bits|);
  }

  /** The token 'e' and a length at `pos`. */
  lemma {:induction false} LengthAt(file: seq<byte>, pos: nat, n: uint32)
    requires pos + 5 <= |file| && file[pos] == TOKEN_E && file[pos + 1..pos + 5] == Long(n)
    ensures ReadBitsLength(file, pos) == Some((n, pos + 5))
  {
    var l := Long(n);
    assert file[pos + 1] == l[0] && file[pos + 2] == l[1] && file[pos + 3] == l[2] && file[pos + 4] == l[3];
    LongDigits(n);
  }

  /** The four big-endian bytes of a length give back the length. */
  lemma {:induction false} LongDigits(n: uint32)
    ensures var l := Long(n);
            l[0] as int * 0x100_0000 + l[1] as int * 0x1_0000 + l[2] as int * 0x100 + l[3] as int == n
  {
    var h, w := HiWord(n), LoWord(n);
    assert n == h as int * 0x1_0000 + w as int;
    assert h == HiByte(h) as int * 0x100 + LoByte(h) as int;
    assert w == HiByte(w) as int * 0x100 + LoByte(w) as int;
    assert LoByte(w) == LoByte(n);
  }

  /** A file whose header is whole but whose configuration bits are cut
      short fails to open, yet as written the object reports a bit stream
      loaded. CutFields shows such files exist: any file a tool writes, less
      its last byte. */
  lemma {:induction false} ShortFileStaysLoaded(s: Stream, name: string, file: seq<byte>, header: Header,
                                                pb: nat, pc: nat, pd: nat, pe: nat, n: uint32)
    requires name != [] && FieldsRead(file, header, pb, pc, pd, pe)
    requires ReadBitsLength(file, pe) == Some((n, pe + 5)) && |file| < pe + 5 + n
    ensures var r := OpenAsWritten(s, name, Some(file));
            !r.0 && IsLoaded(r.1) && r.1.cbBits == n
  {
    HeaderFrom(file, header, pb, pc, pd, pe);
    ShortAt(s, name, file, header, pe, n);
  }

  /** What the reader finds in a written file missing its last byte: the
      header fields and the length, but too few bytes for the bits. */
  lemma {:induction false} CutFields(design: seq<byte>, part: seq<byte>, date: seq<byte>, time: seq<byte>,
                                     bits: seq<byte>)
    requires GoodField(design) && GoodField(part) && GoodField(date) && GoodField(time)
    requires 0 < |bits| < 0x1_0000_0000
    ensures var full := Layout(design, part, date, time, bits);
            var cut := full[..|full| - 1];
            var pe := HeaderEnd(design, part, date, time);
            HeaderRead(cut, design, part, date, time) &&
            ReadBitsLength(cut, pe) == Some((|bits|, pe + 5)) && |cut| < pe + 5 + |bits|
  {
    var full := Layout(design, part, date, time, bits);
    var cut := full[..|full| - 1];
    CutWritten(design, part, date, time, bits);
    HeaderFields(cut, design, part, date, time);
    LengthAt(cut, HeaderEnd(design, part, date, time), |bits|);
  }

  /** A written file missing its last byte still holds the header and the
      length, but one byte too few of the bits. */
  lemma {:induction false} CutWritten(design: seq<byte>, part: seq<byte>, date: seq<byte>, time: seq<byte>,
                                      bits: seq<byte>)
    requires GoodField(design) && GoodField(part) && GoodField(date) && GoodField(time)
    requires 0 < |bits| < 0x1_0000_0000
    ensures var full := Layout(design, part, date, time, bits);
            var cut := full[..|full| - 1];
            var pe := HeaderEnd(design, part, date, time);
            HeaderWritten(cut, design, part, date, time) &&
            pe + 5 <= |cut| && cut[pe] == TOKEN_E && cut[pe + 1..pe + 5] == Long(|bits|) &&
            |cut| < pe + 5 + |bits|
  {
    var full := Layout(design, part, date, time, bits);
    var cut := full[..|full| - 1];
    var pe := HeaderEnd(design, part, date, time);
    LayoutWritten(design, part, date, time, bits, []);
    assert full + [] == full;
    HeaderWrittenPrefix(full, |cut|, design, part, date, time);
    assert cut[pe + 1..pe + 5] == full[pe + 1..pe + 5];
  }

  /** The header survives cutting off bytes after it. */
  lemma {:induction false} HeaderWrittenPrefix(file: seq<byte>, n: nat, design: seq<byte>, part: seq<byte>,
                                               date: seq<byte>, time: seq<byte>)
    requires HeaderWritten(file, design, part, date, time)
    requires HeaderEnd(design, part, date, time) <= n <= |file|
    ensures HeaderWritten(file[..n], design, part, date, time)
  {
    var cut := file[..n];
    var pb := 16 + |design|;
    var pc := pb + 3 + |part|;
    var pd := pc + 3 + |date|;
    var pe := pd + 3 + |time|;
    assert cut[..14] == file[..14];
    assert cut[14..pb] == file[14..pb];
    assert cut[pb + 1..pc] == file[pb + 1..pc];
    assert cut[pc + 1..pd] == file[pc + 1..pd];
    assert cut[pd + 1..pe] == file[pd + 1..pe];
  }

  /** Open as written on a file whose header and length have been read
      but whose bits are short. */
  lemma {:induction false} ShortAt(s: Stream, name: string, file: seq<byte>, header: Header, pos: nat, n: uint32)
    requires name != []
    requires ReadHeader(file) == Some(Fields(header, pos))
    requires ReadBitsLength(file, pos) == Some((n, pos + 5))
    requires |file| < pos + 5 + n
    ensures OpenAsWritten(s, name, Some(file)) == (false, Stream(name, header, n, [], true))
  {
  }

  /** A file that does not start with the nine byte header block is not a
      bit stream. */
  lemma {:induction false} BadMagicFails(s: Stream, name: string, file: seq<byte>)
    requires |file| < 11 || file[..11] != [0, 9] + MAGIC
    ensures !Open(s, name, Some(file)).0
  {
    if |file| >= 14 {
      assert file[..11] == file[..14][..11];
      assert ([0, 9] + MAGIC + [0, 1, TOKEN_A])[..11] == [0, 9] + MAGIC;
    }
    assert ReadHeader(file).None?;
  }
}
