/** Disk images (CDiskImageFile in ImageFile.cpp): a file of fixed-size
    sectors addressed by logical block number. Image files are not
    preallocated, so a sector may lie past the end of the file; writing one
    there lengthens the file and the bytes skipped over read as zeros. */
module DiskImage {
  import opened Bytes
  import opened Results

  /** Offsets are computed in 32-bit unsigned arithmetic. */
  const OFFSET_MODULUS: nat := 0x1_0000_0000

  /** The file's bytes, the sector size given to the constructor, and
      whether the image was opened read-only. */
  datatype Disk = Disk(image: seq<byte>, sectorSize: nat, readOnly: bool)
  {
    /** The constructor insists on a non-zero 32-bit sector size. */
    ghost predicate Valid()
    {
      0 < sectorSize < OFFSET_MODULUS
    }
  }

  /** A run of zero bytes. */
  function Zeros(n: nat): (r: seq<byte>)
    ensures |r| == n && forall k | 0 <= k < n :: r[k] == 0
  {
    seq(n, k => 0)
  }

  /** SeekSector(lLBA): the byte offset of a sector, the product of the
      block number and the sector size taken modulo 2^32 as the 32-bit
      unsigned multiplication does. On 64-bit Linux, the platform this model
      follows, `fseek`'s `long` offset holds every such product, so the
      offset is never negative. */
  function SeekSector(d: Disk, lba: uint32): (off: nat)
    requires d.Valid()
    ensures off < OFFSET_MODULUS
    ensures (lba * d.sectorSize - off) % OFFSET_MODULUS == 0
    ensures lba * d.sectorSize < OFFSET_MODULUS ==> off == lba * d.sectorSize
  {
    (lba * d.sectorSize) % OFFSET_MODULUS
  }

  /** ReadSector(lLBA, pData): a sector wholly past the end of the file
      reads as zeros; a sector the end of the file cuts short is a read
      error; otherwise the sector's bytes. */
  function ReadSector(d: Disk, lba: uint32): (r: Option<seq<byte>>)
    requires d.Valid()
    ensures r.Some? ==> |r.value| == d.sectorSize
    ensures var off := SeekSector(d, lba);
            (off >= |d.image| ==> r == Some(Zeros(d.sectorSize))) &&
            (off + d.sectorSize <= |d.image| ==> r == Some(d.image[off..off + d.sectorSize])) &&
            (off < |d.image| < off + d.sectorSize <==> r.None?)
  {
    var off := SeekSector(d, lba);
    if off >= |d.image| then Some(Zeros(d.sectorSize))
    else if off + d.sectorSize > |d.image| then None
    else Some(d.image[off..off + d.sectorSize])
  }

  /** The file after `data` is written at `off`: a gap between the old end
      and `off` is filled with zeros, and the file grows when the data
      reaches past its end. */
  function Overwrite(image: seq<byte>, off: nat, data: seq<byte>): (r: seq<byte>)
    ensures |r| == Max(|image|, off + |data|)
    ensures forall k | 0 <= k < |r| ::
              r[k] == if off <= k < off + |data| then data[k - off] else if k < |image| then image[k] else 0
  {
    var base := if off > |image| then image + Zeros(off - |image|) else image;
    var rest := if off + |data| < |base| then base[off + |data|..] else [];
    base[..off] + data + rest
  }

  /** WriteSector(lLBA, pData): refused on a read-only image; otherwise
      the sector's bytes are stored at its offset. */
  function WriteSector(d: Disk, lba: uint32, data: seq<byte>): (r: (bool, Disk))
    requires d.Valid() && |data| == d.sectorSize
    ensures !r.0 <==> d.readOnly
    ensures !r.0 ==> r.1 == d
    ensures r.1.Valid() && r.1.sectorSize == d.sectorSize && r.1.readOnly == d.readOnly
    ensures r.0 ==> r.1.image == Overwrite(d.image, SeekSector(d, lba), data)
  {
    if d.readOnly then (false, d)
    else (true, d.(image := Overwrite(d.image, SeekSector(d, lba), data)))
  }

  /** A sector reads back as it was written. */
  lemma {:induction false} WriteThenRead(d: Disk, lba: uint32, data: seq<byte>)
    requires d.Valid() && !d.readOnly && |data| == d.sectorSize
    ensures ReadSector(WriteSector(d, lba, data).1, lba) == Some(data)
  {
    var e := WriteSector(d, lba, data).1;
    var off := SeekSector(d, lba);
    assert SeekSector(e, lba) == off;
    assert e.image[off..off + |data|] == data;
  }

  /** Two sectors whose byte ranges do not overlap. */
  predicate Apart(d: Disk, a: uint32, b: uint32)
    requires d.Valid()
  {
    SeekSector(d, a) + d.sectorSize <= SeekSector(d, b) || SeekSector(d, b) + d.sectorSize <= SeekSector(d, a)
  }

  /** Writing one sector leaves every readable sector apart from it
      reading as before, zeros past the old end of the file included. */
  lemma {:induction false} WriteKeepsOthers(d: Disk, a: uint32, b: uint32, data: seq<byte>)
    requires d.Valid() && !d.readOnly && |data| == d.sectorSize
    requires Apart(d, a, b) && ReadSector(d, b).Some?
    ensures ReadSector(WriteSector(d, a, data).1, b) == ReadSector(d, b)
  {
    var e := WriteSector(d, a, data).1;
    var oa, ob, n := SeekSector(d, a), SeekSector(d, b), d.sectorSize;
    assert SeekSector(e, b) == ob;
    if ob < |e.image| {
      OverwriteKeeps(d.image, oa, data, ob, n);
    }
  }

  /** Overwriting leaves a range apart from the written one as it was,
      zeros past the old end included, when that range was either wholly
      inside or wholly past the old end. */
  lemma {:induction false} OverwriteKeeps(image: seq<byte>, off: nat, data: seq<byte>, p: nat, n: nat)
    requires off + |data| <= p || p + n <= off
    requires p >= |image| || p + n <= |image|
    requires p < |Overwrite(image, off, data)|
    ensures var r := Overwrite(image, off, data);
            p + n <= |r| &&
            (p >= |image| ==> r[p..p + n] == Zeros(n)) &&
            (p < |image| ==> r[p..p + n] == image[p..p + n])
  {
    var r := Overwrite(image, off, data);
    assert p + n <= |r|;
    var w := r[p..p + n];
    if p >= |image| {
      forall k | 0 <= k < n ensures w[k] == 0 {
        assert w[k] == r[p + k];
      }
    } else {
      forall k | 0 <= k < n ensures w[k] == image[p..p + n][k] {
        assert w[k] == r[p + k];
      }
    }
  }

  /** A sector never written, past the end of the file, reads as zeros. */
  lemma {:induction false} ReadPastEnd(d: Disk, lba: uint32)
    requires d.Valid() && SeekSector(d, lba) >= |d.image|
    ensures ReadSector(d, lba) == Some(Zeros(d.sectorSize))
  {
  }
}

/** Text output files (CTextOutputFile in ImageFile.cpp and
    ImageFile.hpp). The file is the text written to it so far; failed
    writes to the host file are not modelled. */
module TextOutput {
  /** Write(ch, cb): `cb` copies of one character. */
  function Repeat(ch: char, cb: nat): (r: string)
    ensures |r| == cb && forall k | 0 <= k < cb :: r[k] == ch
  {
    seq(cb, k => ch)
  }

  /** WriteFixed(pszLine, cbLine): exactly `cbLine` characters, the line
      padded with spaces when shorter and cut off when longer. */
  function WriteFixed(out: string, line: string, cbLine: nat): (r: string)
    ensures |r| == |out| + cbLine && r[..|out|] == out
    ensures forall k | 0 <= k < cbLine :: r[|out| + k] == if k < |line| then line[k] else ' '
  {
    if |line| <= cbLine then out + line + Repeat(' ', cbLine - |line|)
    else out + line[..cbLine]
  }

  /** WriteLine(psz): the string and a newline. */
  function WriteLine(out: string, s: string): (r: string)
    ensures |r| == |out| + |s| + 1 && r[..|out|] == out && r[|out|..|out| + |s|] == s && r[|r| - 1] == '\n'
  {
    out + s + "\n"
  }

  /** WriteRecord(psz, cb): a fixed-length line ended by a newline. */
  function WriteRecord(out: string, line: string, cb: nat): (r: string)
    ensures |r| == |out| + cb + 1 && r[..|out|] == out && r[|r| - 1] == '\n'
    ensures forall k | 0 <= k < cb :: r[|out| + k] == if k < |line| then line[k] else ' '
  {
    WriteFixed(out, line, cb) + "\n"
  }

  /** A line already of the record length is written unchanged, and
      writing a fixed line of what a fixed line wrote changes nothing. */
  lemma {:induction false} FixedExact(line: string)
    ensures WriteFixed([], line, |line|) == line
  {
    var r := WriteFixed([], line, |line|);
    assert forall k | 0 <= k < |line| :: r[k] == line[k];
  }

  lemma {:induction false} FixedIdempotent(line: string, cbLine: nat)
    ensures var once := WriteFixed([], line, cbLine);
            WriteFixed([], once, cbLine) == once
  {
    var once := WriteFixed([], line, cbLine);
    FixedExact(once);
  }
}
