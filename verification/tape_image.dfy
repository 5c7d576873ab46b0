/** Tape images in the simh TAP format (CTapeImageFile in ImageFile.cpp).
    A record is a 32-bit little-endian length, the data, and the same
    length again; a tape mark is a single zero length word. The image is
    its bytes, the file position, whether it is read-only, and the count of
    records passed since the load point. */
module TapeImage {
  import opened Bytes

  /** The metadata constants: the longest record, the mask of the length
      field (the bits above it flag tape errors), and the codes the read
      routines return besides a record length. */
  const MAXRECLEN: nat := 60000
  const RECLENMASK: nat := 0x00FF_FFFF
  const TAPEMARK: int := 0
  const EOTBOT: int := -1
  const BADTAPE: int := -2

  /** The size of a metadata word. */
  const META: nat := 4

  /** The codes are apart from every record length. */
  lemma {:induction false} CodesDistinct(n: nat)
    requires 0 < n <= MAXRECLEN
    ensures n != TAPEMARK && n != EOTBOT && n != BADTAPE
    ensures TAPEMARK != EOTBOT && TAPEMARK != BADTAPE && EOTBOT != BADTAPE
    ensures n <= RECLENMASK
  {
  }

  /** A metadata word as the four bytes a little-endian machine stores. */
  function Encode(x: uint32): (r: seq<byte>)
    ensures |r| == META
  {
    var q1 := x / 0x100;
    var q2 := q1 / 0x100;
    [LoByte(x), LoByte(q1), LoByte(q2), LoByte(q2 / 0x100)]
  }

  /** The metadata word stored at `i`. */
  function Meta(image: seq<byte>, i: nat): (x: uint32)
    requires i + META <= |image|
  {
    image[i] as int + 0x100 * image[i + 1] as int + 0x1_0000 * image[i + 2] as int + 0x100_0000 * image[i + 3] as int
  }

  /** The stored word reads back as written. */
  lemma {:induction false} MetaOfEncode(image: seq<byte>, i: nat, x: uint32)
    requires i + META <= |image| && image[i..i + META] == Encode(x)
    ensures Meta(image, i) == x
  {
    var e := Encode(x);
    assert image[i] == e[0] && image[i + 1] == e[1] && image[i + 2] == e[2] && image[i + 3] == e[3];
    var q1 := x / 0x100;
    var q2 := q1 / 0x100;
    var q3 := q2 / 0x100;
    assert x == 0x100 * q1 + e[0];
    assert q1 == 0x100 * q2 + e[1];
    assert q2 == 0x100 * q3 + e[2];
    assert q3 == e[3];
  }

  /** Equal words are stored as equal bytes. */
  lemma {:induction false} MetaDigits(image: seq<byte>, i: nat, j: nat)
    requires i + META <= |image| && j + META <= |image| && Meta(image, i) == Meta(image, j)
    ensures image[i] == image[j] && image[i + 1] == image[j + 1] && image[i + 2] == image[j + 2] && image[i + 3] == image[j + 3]
  {
    var a2 := image[i + 2] as int + 0x100 * image[i + 3] as int;
    var b2 := image[j + 2] as int + 0x100 * image[j + 3] as int;
    var a1 := image[i + 1] as int + 0x100 * a2;
    var b1 := image[j + 1] as int + 0x100 * b2;
    assert Meta(image, i) == image[i] as int + 0x100 * a1;
    assert Meta(image, j) == image[j] as int + 0x100 * b1;
    SameDigit(image[i], a1, image[j], b1);
    SameDigit(image[i + 1], a2, image[j + 1], b2);
    SameDigit(image[i + 2], image[i + 3], image[j + 2], image[j + 3]);
  }

  /** A number has one lowest base-256 digit and one rest. */
  lemma {:induction false} SameDigit(a: byte, r: int, b: byte, s: int)
    requires a + 0x100 * r == b + 0x100 * s
    ensures a == b && r == s
  {
  }

  /** A word stored one byte later than a non-zero length below 2^24 never
      reads as that length: the top byte of the length is zero, so the
      four bytes would all have to be zero. */
  lemma {:induction false} ShiftedMeta(image: seq<byte>, p: nat)
    requires p + META + 1 <= |image|
    requires 0 < Meta(image, p) <= RECLENMASK
    ensures Meta(image, p + 1) != Meta(image, p)
  {
    if Meta(image, p + 1) == Meta(image, p) {
      MetaDigits(image, p, p + 1);
    }
  }

  datatype Tape = Tape(image: seq<byte>, pos: nat, readOnly: bool, records: nat)
  {
    ghost predicate Valid()
    {
      pos <= |image|
    }
  }

  /** IsBOT(): at the load point. IsEOT(): a read-only image read to its
      end; a writable image never is at its end. */
  predicate IsBOT(t: Tape)
  {
    t.pos == 0
  }

  predicate IsEOT(t: Tape)
  {
    t.readOnly && t.pos >= |t.image|
  }

  /** Rewind(): back to the load point, no records passed. */
  function Rewind(t: Tape): (r: Tape)
    ensures IsBOT(r) && r.records == 0 && r.image == t.image && r.readOnly == t.readOnly
  {
    t.(pos := 0, records := 0)
  }

  /** What a read returns: a record length (with the data), TAPEMARK,
      EOTBOT or BADTAPE, and the tape after it. */
  datatype Read = Read(code: int, data: seq<byte>, tape: Tape)

  /** The position after `fseek(f, -back, SEEK_CUR)`: a seek that would
      pass the start of the file fails and leaves the position where it
      was. */
  function SeekBack(pos: nat, back: nat): nat
  {
    if back <= pos then pos - back else pos
  }

  /** The forward read's result after the header `h` at the position has
      been accepted and the record counted: the data, then the trailer
      either right after it or after one pad byte. A read that runs past
      the end of the image leaves the file at its end, as `fread` does,
      and a trailer that matches in neither place leaves the file after
      the second word tried. */
  function ForwardData(t: Tape, h: nat): (r: Read)
    requires t.Valid() && 0 < h && t.pos + META <= |t.image|
    ensures r.tape.Valid() && r.tape.image == t.image && r.tape.readOnly == t.readOnly && r.tape.records == t.records
    ensures r.code == BADTAPE || r.code == h
    ensures r.code == BADTAPE ==>
              r.data == [] && t.pos + META <= r.tape.pos &&
              (r.tape.pos == |t.image| ||
               (r.tape.pos == t.pos + META + h + 1 + META &&
                Meta(t.image, t.pos + META + h) != h && Meta(t.image, t.pos + META + h + 1) != h))
    ensures r.code == h ==>
              t.pos + META + h + META <= |t.image| && r.data == t.image[t.pos + META..t.pos + META + h] &&
              (r.tape.pos == t.pos + META + h + META ||
               (r.tape.pos == t.pos + META + h + 1 + META && Meta(t.image, t.pos + META + h) != h)) &&
              r.tape.pos <= |t.image| && Meta(t.image, r.tape.pos - META) == h
  {
    var p := t.pos;
    var n := |t.image|;
    if p + META + h + META > n then Read(BADTAPE, [], t.(pos := n))
    else if Meta(t.image, p + META + h) == h then
      Read(h, t.image[p + META..p + META + h], t.(pos := p + META + h + META))
    else if p + META + h + 1 + META > n then Read(BADTAPE, [], t.(pos := n))
    else if Meta(t.image, p + META + h + 1) == h then
      Read(h, t.image[p + META..p + META + h], t.(pos := p + META + h + 1 + META))
    else Read(BADTAPE, [], t.(pos := p + META + h + 1 + META))
  }

  /** ReadForwardRecord(abData, cbMaxData): EOTBOT at the end of the
      image; BADTAPE for a short header, an error flag in the header, a
      record longer than the caller's buffer, a short record or trailer,
      or a trailer that matches neither right after the data nor one pad
      byte later; TAPEMARK for a zero header; otherwise the record's
      length and data, with the tape left after the trailer. A bad tape
      leaves the file wherever the failing step did, always past the
      position the read started from. */
  function ReadForward(t: Tape, maxData: nat): (r: Read)
    requires t.Valid() && 0 < maxData <= MAXRECLEN
    ensures r.tape.Valid() && r.tape.image == t.image && r.tape.readOnly == t.readOnly
    ensures t.pos >= |t.image| <==> r.code == EOTBOT
    ensures r.code == EOTBOT ==> r.tape == t
    ensures r.code == BADTAPE ==> t.pos < r.tape.pos
    ensures t.pos + META <= |t.image| && Meta(t.image, t.pos) > maxData ==>
              r.code == BADTAPE && r.tape.pos == t.pos + META
    ensures r.code == TAPEMARK ==>
              t.pos + META <= |t.image| && Meta(t.image, t.pos) == 0 &&
              r.tape.pos == t.pos + META && r.tape.records == t.records + 1
    ensures r.code > 0 ==>
              t.pos + META + r.code + META <= |t.image| && r.code == Meta(t.image, t.pos) <= maxData &&
              |r.data| == r.code && r.data == t.image[t.pos + META..t.pos + META + r.code] &&
              r.tape.records == t.records + 1 &&
              (r.tape.pos == t.pos + META + r.code + META ||
               (r.tape.pos == t.pos + META + r.code + 1 + META && Meta(t.image, t.pos + META + r.code) != r.code)) &&
              Meta(t.image, r.tape.pos - META) == r.code
    ensures r.code <= 0 ==> r.data == []
    ensures r.code >= 0 ==> Meta(t.image, t.pos) <= RECLENMASK
    ensures r.code == BADTAPE || r.code == EOTBOT || r.code == TAPEMARK || 0 < r.code <= maxData
  {
    var p := t.pos;
    var n := |t.image|;
    if p >= n then Read(EOTBOT, [], t)
    else if p + META > n then Read(BADTAPE, [], t.(pos := n))
    else
      var h := Meta(t.image, p);
      if h > RECLENMASK then Read(BADTAPE, [], t.(pos := p + META))
      else
        var counted := t.(records := t.records + 1);
        if h == 0 then Read(TAPEMARK, [], counted.(pos := p + META))
        else if h > maxData then Read(BADTAPE, [], counted.(pos := p + META))
        else ForwardData(counted, h)
  }

  /** The data after a header at `q` that matched the trailer: read
      forwards, with the tape then left before that header; a record
      running past the end of the image leaves the file at its end. */
  function DataAfter(t: Tape, h: nat, q: nat): (r: Read)
    requires t.Valid() && q + META <= |t.image|
    ensures r.tape.Valid() && r.tape.image == t.image && r.tape.readOnly == t.readOnly && r.tape.records == t.records
    ensures r.code == BADTAPE <==> q + META + h > |t.image|
    ensures r.code == BADTAPE ==> r.data == [] && r.tape.pos == |t.image|
    ensures r.code != BADTAPE ==>
              r.code == h && r.tape.pos == q && r.data == t.image[q + META..(q + META + h)]
  {
    if q + META + h > |t.image| then Read(BADTAPE, [], t.(pos := |t.image|))
    else Read(h, t.image[q + META..q + META + h], t.(pos := q))
  }

  /** The reverse read's result once the trailer `h` at the position has
      been accepted and the record uncounted. The file backs up over the
      data and a header; when that seek would pass the start of the file
      it fails, the position stays at the trailer and the trailer is read
      again as the header. A header that does not match is tried one byte
      further back, again staying put when that seek fails. */
  function ReverseData(t: Tape, h: nat): (r: Read)
    requires t.Valid() && 0 < h && t.pos + META <= |t.image| && Meta(t.image, t.pos) == h
    ensures r.tape.Valid() && r.tape.image == t.image && r.tape.readOnly == t.readOnly && r.tape.records == t.records
    ensures r.code == BADTAPE || r.code == h
    ensures r.code == BADTAPE ==> r.data == []
    ensures r.code == h ==> HeaderBefore(t, h, r)
  {
    var hp := SeekBack(t.pos, h + META);
    if Meta(t.image, hp) == h then
      assert hp + META + h == t.pos || (t.pos < META + h && hp == t.pos);
      DataAfter(t, h, hp)
    else PaddedData(t, h, hp)
  }

  /** The second try of ReverseData, when the word at `hp`, `h` plus four
      bytes before the trailer, is not the header: one byte further back,
      or, when `hp` is the start of the file and that seek fails, the word
      after it. */
  function PaddedData(t: Tape, h: nat, hp: nat): (r: Read)
    requires t.Valid() && 0 < h && t.pos + META <= |t.image| && Meta(t.image, t.pos) == h
    requires hp + META + h == t.pos && Meta(t.image, hp) != h
    ensures r.tape.Valid() && r.tape.image == t.image && r.tape.readOnly == t.readOnly && r.tape.records == t.records
    ensures r.code == BADTAPE || r.code == h
    ensures r.code == BADTAPE ==> r.data == []
    ensures r.code == h ==> HeaderBefore(t, h, r)
  {
    var hq := SeekBack(hp + META, META + 1);
    assert (hp == 0 ==> hq == META) && (hp != 0 ==> hq + 1 == hp);
    if Meta(t.image, hq) == h then DataAfter(t, h, hq)
    else Read(BADTAPE, [], t.(pos := hq + META))
  }

  /** Where a record read backwards from the trailer at `t.pos` lies: its
      header `h` at the new position with the data after it, and the
      header either right before the data ending at the trailer, one pad
      byte further back, or (when the file is too short for the seek back)
      the trailer itself or the word after the load point's header. */
  ghost predicate HeaderBefore(t: Tape, h: nat, r: Read)
  {
    0 < h && r.tape.pos + META + h <= |t.image| && Meta(t.image, r.tape.pos) == h &&
    r.data == t.image[r.tape.pos + META..(r.tape.pos + META + h)] &&
    (r.tape.pos + META + h == t.pos ||
     (r.tape.pos + META + h + 1 == t.pos && Meta(t.image, r.tape.pos + 1) != h) ||
     (t.pos < META + h && r.tape.pos == t.pos) ||
     (t.pos == META + h && r.tape.pos == META && Meta(t.image, 0) != h))
  }

  /** ReadReverseRecord(abData, cbMaxData): EOTBOT at the load point;
      otherwise the file backs up over the trailer (fewer than four bytes
      from the start that seek fails and the word at the position is read
      as the trailer), the trailer is checked as the header is in the
      forward read, and a record's data is returned in forward order with
      the tape left before its header. */
  function ReadReverse(t: Tape, maxData: nat): (r: Read)
    requires t.Valid() && 0 < maxData <= MAXRECLEN
    ensures r.tape.Valid() && r.tape.image == t.image && r.tape.readOnly == t.readOnly
    ensures r.code == BADTAPE || r.code == EOTBOT || r.code == TAPEMARK || 0 < r.code <= maxData
    ensures r.code <= 0 ==> r.data == []
    ensures r.code > 0 ==>
              r.tape.pos + META + r.code <= |t.image| && |r.data| == r.code &&
              r.data == t.image[r.tape.pos + META..(r.tape.pos + META + r.code)]
  {
    var p := t.pos;
    var n := |t.image|;
    if p == 0 then Read(EOTBOT, [], t)
    else
      var tp := SeekBack(p, META);
      if tp + META > n then Read(BADTAPE, [], t.(pos := n))
      else
        var h := Meta(t.image, tp);
        if h > RECLENMASK then Read(BADTAPE, [], t.(pos := tp))
        else ReverseRecord(t.(pos := tp, records := if t.records > 0 then t.records - 1 else 0), h, maxData)
  }

  /** What a reverse read finds: EOTBOT exactly at the load point; a tape
      mark exactly when the trailer word is zero, the tape then left at
      that word; a record or tape mark passed is uncounted. */
  lemma {:induction false} ReverseMeaning(t: Tape, maxData: nat)
    requires t.Valid() && 0 < maxData <= MAXRECLEN
    ensures var r := ReadReverse(t, maxData);
            var tp := SeekBack(t.pos, META);
            (IsBOT(t) <==> r.code == EOTBOT) &&
            (r.code == TAPEMARK <==> !IsBOT(t) && tp + META <= |t.image| && Meta(t.image, tp) == 0) &&
            (r.code == TAPEMARK ==> r.tape.pos == tp) &&
            (r.code >= 0 ==> r.tape.records == if t.records > 0 then t.records - 1 else 0)
  {
    var r := ReadReverse(t, maxData);
    var p := t.pos;
    var tp := SeekBack(p, META);
    if p == 0 {
      assert r.code == EOTBOT;
    } else if tp + META > |t.image| {
      assert r.code == BADTAPE;
    } else {
      var h := Meta(t.image, tp);
      if h > RECLENMASK {
        assert r.code == BADTAPE;
      } else {
        var u := t.(pos := tp, records := if t.records > 0 then t.records - 1 else 0);
        var q := ReverseRecord(u, h, maxData);
        ReverseAccepted(t, maxData);
        assert q.code == TAPEMARK <==> h == 0;
        assert q.code == TAPEMARK ==> q.tape.pos == tp;
        assert q.tape.records == u.records;
      }
    }
  }

  /** A trailer that passes the error check hands the read on to
      ReverseRecord at the trailer with the record uncounted. */
  lemma {:induction false} ReverseAccepted(t: Tape, maxData: nat)
    requires t.Valid() && 0 < maxData <= MAXRECLEN && t.pos != 0
    requires SeekBack(t.pos, META) + META <= |t.image| && Meta(t.image, SeekBack(t.pos, META)) <= RECLENMASK
    ensures ReadReverse(t, maxData) ==
            ReverseRecord(t.(pos := SeekBack(t.pos, META), records := if t.records > 0 then t.records - 1 else 0),
                          Meta(t.image, SeekBack(t.pos, META)), maxData)
  {
  }

  /** The reverse read once the trailer `h` at the position has passed
      the error check and the record has been uncounted. */
  function ReverseRecord(t: Tape, h: nat, maxData: nat): (r: Read)
    requires t.Valid() && t.pos + META <= |t.image| && Meta(t.image, t.pos) == h && 0 < maxData
    ensures r.tape.Valid() && r.tape.image == t.image && r.tape.readOnly == t.readOnly && r.tape.records == t.records
    ensures r.code == BADTAPE || r.code == TAPEMARK || (0 < r.code <= maxData && r.code == h)
    ensures r.code == TAPEMARK <==> h == 0
    ensures r.code == TAPEMARK ==> r.tape.pos == t.pos
    ensures r.code <= 0 ==> r.data == []
    ensures h > maxData ==> r.code == BADTAPE && r.tape.pos == t.pos
    ensures r.code > 0 ==> HeaderBefore(t, h, r)
    ensures r.code > 0 ==>
              r.tape.pos + META + r.code <= |t.image| &&
              r.data == t.image[r.tape.pos + META..(r.tape.pos + META + r.code)]
  {
    if h == 0 then Read(TAPEMARK, [], t)
    else if h > maxData then Read(BADTAPE, [], t)
    else ReverseData(t, h)
  }

  /** Within one record's length of the load point the seek back to the
      header fails, so the trailer is read again as the header and the
      bytes after it come back as the record. A forward read that refuses
      a record too long for its buffer has consumed the header, so a
      reverse read with a larger buffer then returns that record's data. */
  lemma {:induction false} ReverseAfterRefusedForward(t: Tape, small: nat, large: nat)
    requires t.Valid() && IsBOT(t) && 0 < small < large <= MAXRECLEN
    requires META <= |t.image| && small < Meta(t.image, 0) <= large
    requires META + Meta(t.image, 0) <= |t.image|
    ensures var f := ReadForward(t, small);
            var b := ReadReverse(f.tape, large);
            f.code == BADTAPE && f.tape.pos == META &&
            b.code == Meta(t.image, 0) && b.data == t.image[META..META + Meta(t.image, 0)] && b.tape.pos == 0
  {
    var f := ReadForward(t, small);
    var h := Meta(t.image, 0);
    assert f.tape.pos == META;
    ReverseAccepted(f.tape, large);
    var u := f.tape.(pos := 0, records := t.records);
    assert ReverseData(u, h) == DataAfter(u, h, 0);
  }

  /** Reading a record backwards right after reading it forwards returns
      the same data and puts the tape back where it was, padded records
      included. */
  lemma {:induction false} ForwardThenReverse(t: Tape, maxData: nat)
    requires t.Valid() && 0 < maxData <= MAXRECLEN
    requires ReadForward(t, maxData).code >= 0
    ensures var f := ReadForward(t, maxData);
            var b := ReadReverse(f.tape, maxData);
            b.code == f.code && b.data == f.data && b.tape.pos == t.pos && b.tape.records == t.records
  {
    var f := ReadForward(t, maxData);
    var p := t.pos;
    if f.code > 0 {
      var h := f.code;
      var u := f.tape;
      if u.pos == p + META + h + 1 + META {
        ShiftedMeta(t.image, p);
        PaddedBack(u, maxData, p, h);
      } else {
        PlainBack(u, maxData, p, h);
      }
    } else {
      MarkBack(f.tape, maxData);
    }
  }

  /** The reverse read of a tape mark. */
  lemma {:induction false} MarkBack(u: Tape, maxData: nat)
    requires u.Valid() && 0 < maxData <= MAXRECLEN && u.records > 0
    requires META <= u.pos && Meta(u.image, u.pos - META) == 0
    ensures var b := ReadReverse(u, maxData);
            b.code == TAPEMARK && b.tape.pos == u.pos - META && b.tape.records == u.records - 1
  {
    ReverseAccepted(u, maxData);
  }

  /** The reverse read of a record whose trailer follows its data. */
  lemma {:induction false} PlainBack(u: Tape, maxData: nat, p: nat, h: nat)
    requires u.Valid() && 0 < maxData <= MAXRECLEN && 0 < h <= maxData && u.records > 0
    requires u.pos == p + META + h + META
    requires Meta(u.image, u.pos - META) == h && Meta(u.image, p) == h
    ensures var b := ReadReverse(u, maxData);
            b.code == h && b.data == u.image[p + META..p + META + h] && b.tape.pos == p &&
            b.tape.records == u.records - 1
  {
    TrailerBack(u, maxData, h);
    DataBack(u.(pos := u.pos - META, records := u.records - 1), h, p);
  }

  /** The reverse read of a record written with a pad byte. */
  lemma {:induction false} PaddedBack(u: Tape, maxData: nat, p: nat, h: nat)
    requires u.Valid() && 0 < maxData <= MAXRECLEN && 0 < h <= maxData && u.records > 0
    requires u.pos == p + META + h + 1 + META
    requires Meta(u.image, u.pos - META) == h && Meta(u.image, p) == h
    requires Meta(u.image, p + 1) != h
    ensures var b := ReadReverse(u, maxData);
            b.code == h && b.data == u.image[p + META..p + META + h] && b.tape.pos == p &&
            b.tape.records == u.records - 1
  {
    TrailerBack(u, maxData, h);
    DataBack(u.(pos := u.pos - META, records := u.records - 1), h, p);
  }

  /** A reverse read at an accepted trailer `h` goes on to the record's
      data. */
  lemma {:induction false} TrailerBack(u: Tape, maxData: nat, h: nat)
    requires u.Valid() && 0 < maxData <= MAXRECLEN && 0 < h <= maxData && u.records > 0
    requires META <= u.pos && Meta(u.image, u.pos - META) == h
    ensures ReadReverse(u, maxData) == ReverseData(u.(pos := u.pos - META, records := u.records - 1), h)
  {
    ReverseAccepted(u, maxData);
  }

  /** The data of a record whose header is at `p`, its trailer (at the
      position) right after the data or one pad byte later. */
  lemma {:induction false} DataBack(t: Tape, h: nat, p: nat)
    requires t.Valid() && 0 < h && t.pos + META <= |t.image| && Meta(t.image, t.pos) == h
    requires t.pos == p + META + h || t.pos == p + META + h + 1
    requires Meta(t.image, p) == h && (t.pos == p + META + h + 1 ==> Meta(t.image, p + 1) != h)
    ensures ReverseData(t, h) == Read(h, t.image[p + META..p + META + h], t.(pos := p))
  {
  }

  /** WriteRecord(abData, cbData): refused on a read-only image;
      otherwise the length, the data and the length again are written at
      the position, the image ends after them, and the record is
      counted. */
  function WriteRecord(t: Tape, data: seq<byte>): (r: (bool, Tape))
    requires t.Valid() && 0 < |data| <= MAXRECLEN
    ensures r.1.Valid()
    ensures !r.0 <==> t.readOnly
    ensures !r.0 ==> r.1 == t
    ensures r.0 ==> r.1.image == t.image[..t.pos] + Encode(|data|) + data + Encode(|data|) &&
                    r.1.pos == |r.1.image| && r.1.records == t.records + 1 && !r.1.readOnly
  {
    if t.readOnly then (false, t)
    else
      var image := t.image[..t.pos] + Encode(|data|) + data + Encode(|data|);
      (true, t.(image := image, pos := |image|, records := t.records + 1))
  }

  /** WriteMark(): refused on a read-only image; otherwise one zero word
      is written, the image ends after it, and the mark is counted. */
  function WriteMark(t: Tape): (r: (bool, Tape))
    requires t.Valid()
    ensures r.1.Valid()
    ensures !r.0 <==> t.readOnly
    ensures !r.0 ==> r.1 == t
    ensures r.0 ==> r.1.image == t.image[..t.pos] + Encode(TAPEMARK) &&
                    r.1.pos == t.pos + META && r.1.records == t.records + 1 && !r.1.readOnly
  {
    if t.readOnly then (false, t)
    else
      var image := t.image[..t.pos] + Encode(TAPEMARK);
      (true, t.(image := image, pos := |image|, records := t.records + 1))
  }

  /** A record written at the position is read back forwards from there,
      and the tape ends up where the write left it. */
  lemma {:induction false} WriteThenReadForward(t: Tape, data: seq<byte>, maxData: nat)
    requires t.Valid() && !t.readOnly && 0 < |data| <= maxData <= MAXRECLEN
    ensures var w := WriteRecord(t, data).1;
            var f := ReadForward(w.(pos := t.pos), maxData);
            f.code == |data| && f.data == data && f.tape.pos == w.pos
  {
    var w := WriteRecord(t, data).1;
    var p := t.pos;
    var n := |data|;
    WrittenLayout(t.image[..p], data, []);
    assert w.image == t.image[..p] + Encode(n) + data + Encode(n) + [];
    ForwardWritten(w.(pos := p), data, maxData);
  }

  /** Where the parts of a record written after `before` lie. */
  lemma {:induction false} WrittenLayout(before: seq<byte>, data: seq<byte>, after: seq<byte>)
    requires 0 < |data| <= MAXRECLEN
    ensures var image := before + Encode(|data|) + data + Encode(|data|) + after;
            var p := |before|;
            var n := |data|;
            |image| == p + META + n + META + |after| &&
            Meta(image, p) == n && Meta(image, p + META + n) == n &&
            image[p + META..p + META + n] == data
  {
    var image := before + Encode(|data|) + data + Encode(|data|) + after;
    var p := |before|;
    var n := |data|;
    assert image[p..p + META] == Encode(n);
    MetaOfEncode(image, p, n);
    assert image[p + META + n..p + META + n + META] == Encode(n);
    MetaOfEncode(image, p + META + n, n);
    assert image[p + META..p + META + n] == data;
  }

  /** The forward read at a written record. */
  lemma {:induction false} ForwardWritten(t: Tape, data: seq<byte>, maxData: nat)
    requires t.Valid() && 0 < |data| <= maxData <= MAXRECLEN
    requires t.pos + META + |data| + META <= |t.image|
    requires Meta(t.image, t.pos) == |data| && Meta(t.image, t.pos + META + |data|) == |data|
    requires t.image[t.pos + META..t.pos + META + |data|] == data
    ensures var f := ReadForward(t, maxData);
            f.code == |data| && f.data == data && f.tape.pos == t.pos + META + |data| + META
  {
  }

  /** A record just written is read back by a reverse read, which leaves
      the tape where the write started. */
  lemma {:induction false} WriteThenReadReverse(t: Tape, data: seq<byte>, maxData: nat)
    requires t.Valid() && !t.readOnly && 0 < |data| <= maxData <= MAXRECLEN
    ensures var w := WriteRecord(t, data).1;
            var b := ReadReverse(w, maxData);
            b.code == |data| && b.data == data && b.tape.pos == t.pos && b.tape.records == t.records
  {
    var w := WriteRecord(t, data).1;
    WrittenLayout(t.image[..t.pos], data, []);
    assert w.image == t.image[..t.pos] + Encode(|data|) + data + Encode(|data|) + [];
    ReverseWritten(w, t.pos, data, maxData);
  }

  lemma {:induction false} ReverseWritten(w: Tape, p: nat, data: seq<byte>, maxData: nat)
    requires w.Valid() && 0 < |data| <= maxData <= MAXRECLEN && w.records > 0
    requires w.pos == p + META + |data| + META
    requires Meta(w.image, p) == |data| && Meta(w.image, p + META + |data|) == |data|
    requires w.image[p + META..p + META + |data|] == data
    ensures var b := ReadReverse(w, maxData);
            b.code == |data| && b.data == data && b.tape.pos == p && b.tape.records == w.records - 1
  {
    PlainBack(w, maxData, p, |data|);
  }

  /** A tape mark just written reads back as a tape mark both ways. */
  lemma {:induction false} MarkReadsBack(t: Tape, maxData: nat)
    requires t.Valid() && !t.readOnly && 0 < maxData <= MAXRECLEN
    ensures var w := WriteMark(t).1;
            ReadForward(w.(pos := t.pos), maxData).code == TAPEMARK &&
            ReadReverse(w, maxData).code == TAPEMARK && ReadReverse(w, maxData).tape.pos == t.pos
  {
    var w := WriteMark(t).1;
    assert w.image[t.pos..t.pos + META] == Encode(0);
    MetaOfEncode(w.image, t.pos, 0);
  }
}
