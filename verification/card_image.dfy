/** Card images in Doug Jones' format (CCardInputImageFile and
    CCardOutputImageFile in ImageFile.cpp): a three-byte file header "H80",
    then one record per card of three header bytes and 80 twelve-bit
    columns packed "3 for 2", big endian, into 120 bytes. */
module CardImage {
  import opened Results

  /** The constants of the card classes. */
  const COLUMNS: nat := 80
  const CARDBYTES: nat := COLUMNS * 3 / 2
  const CARD_HEADER_LEN: nat := 3
  const FILE_HEADER_LEN: nat := 3

  /** The file header. */
  const FILE_HEADER: seq<bv8> := ['H' as bv8, '8' as bv8, '0' as bv8]

  /** A column image fits in twelve bits. */
  predicate IsColumn(w: bv16)
  {
    w < 0x1000
  }

  /** The two columns packed from one group of three bytes. */
  function PackGroup(b0: bv8, b1: bv8, b2: bv8): (r: (bv16, bv16))
    ensures IsColumn(r.0) && IsColumn(r.1)
  {
    ((b0 as bv16 << 4) | (b1 as bv16 >> 4), ((b1 & 0xF) as bv16 << 8) | b2 as bv16)
  }

  /** The three bytes unpacked from two columns; the bytes are the low
      eight bits of the C expressions. */
  function UnpackGroup(w0: bv16, w1: bv16): (r: (bv8, bv8, bv8))
  {
    (((w0 >> 4) & 0xFF) as bv8,
     ((((w0 & 0xF) << 4) | ((w1 >> 8) & 0xFF)) & 0xFF) as bv8,
     (w1 & 0xFF) as bv8)
  }

  /** Unpacking a packed group gives the bytes back. */
  lemma {:induction false} GroupRoundTrip(b0: bv8, b1: bv8, b2: bv8)
    ensures var w := PackGroup(b0, b1, b2);
            UnpackGroup(w.0, w.1) == (b0, b1, b2)
  {
  }

  /** Packing an unpacked pair of twelve-bit columns gives them back. */
  lemma {:induction false} ColumnsRoundTrip(w0: bv16, w1: bv16)
    requires IsColumn(w0) && IsColumn(w1)
    ensures var b := UnpackGroup(w0, w1);
            PackGroup(b.0, b.1, b.2) == (w0, w1)
  {
  }

  /** Group `g` of a sequence cut into groups of three lies inside it. */
  lemma {:induction false} TripleInside(g: nat, n: nat)
    requires n % 3 == 0 && g < n / 3
    ensures 3 * g + 3 <= n
  {
  }

  /** Group `g` of a sequence cut into pairs lies inside it. */
  lemma {:induction false} PairInside(g: nat, n: nat)
    requires n % 2 == 0 && g < n / 2
    ensures 2 * g + 2 <= n
  {
  }

  /** The column at index `k` of the packed form. */
  function PackedColumn(bytes: seq<bv8>, k: nat): bv16
    requires |bytes| % 3 == 0 && k < |bytes| / 3 * 2
  {
    var g := k / 2;
    TripleInside(g, |bytes|);
    var w := PackGroup(bytes[3 * g], bytes[3 * g + 1], bytes[3 * g + 2]);
    if k % 2 == 0 then w.0 else w.1
  }

  /** CCardInputImageFile::Pack: every three bytes become two columns. */
  function Pack(bytes: seq<bv8>): (words: seq<bv16>)
    requires |bytes| % 3 == 0
    ensures |words| == |bytes| / 3 * 2
    ensures forall k | 0 <= k < |words| :: IsColumn(words[k])
  {
    seq(|bytes| / 3 * 2, k requires 0 <= k < |bytes| / 3 * 2 => PackedColumn(bytes, k))
  }

  /** The byte at index `k` of the unpacked form. */
  function UnpackedByte(words: seq<bv16>, k: nat): bv8
    requires |words| % 2 == 0 && k < |words| / 2 * 3
  {
    var g := k / 3;
    PairInside(g, |words|);
    var b := UnpackGroup(words[2 * g], words[2 * g + 1]);
    if k % 3 == 0 then b.0 else if k % 3 == 1 then b.1 else b.2
  }

  /** CCardOutputImageFile::Unpack: every two columns become three bytes. */
  function Unpack(words: seq<bv16>): (bytes: seq<bv8>)
    requires |words| % 2 == 0
    ensures |bytes| == |words| / 2 * 3
  {
    seq(|words| / 2 * 3, k requires 0 <= k < |words| / 2 * 3 => UnpackedByte(words, k))
  }

  /** The columns of group `g`, and the column at index `k`, of Pack. */
  lemma {:induction false} PackedGroup(bytes: seq<bv8>, g: nat)
    requires |bytes| % 3 == 0 && 3 * g + 3 <= |bytes|
    ensures 2 * g + 1 < |Pack(bytes)|
    ensures var w := PackGroup(bytes[3 * g], bytes[3 * g + 1], bytes[3 * g + 2]);
            Pack(bytes)[2 * g] == w.0 && Pack(bytes)[2 * g + 1] == w.1
  {
    assert (2 * g) / 2 == g && (2 * g) % 2 == 0;
    assert (2 * g + 1) / 2 == g && (2 * g + 1) % 2 == 1;
  }

  lemma {:induction false} PackedIndex(bytes: seq<bv8>, k: nat)
    requires |bytes| % 3 == 0 && k < |bytes| / 3 * 2
    ensures var g := k / 2;
            3 * g + 3 <= |bytes| &&
            var w := PackGroup(bytes[3 * g], bytes[3 * g + 1], bytes[3 * g + 2]);
            Pack(bytes)[k] == if k % 2 == 0 then w.0 else w.1
  {
    TripleInside(k / 2, |bytes|);
  }

  /** The bytes of group `g`, and the byte at index `k`, of Unpack. */
  lemma {:induction false} UnpackedGroup(words: seq<bv16>, g: nat)
    requires |words| % 2 == 0 && 2 * g + 2 <= |words|
    ensures 3 * g + 2 < |Unpack(words)|
    ensures var b := UnpackGroup(words[2 * g], words[2 * g + 1]);
            Unpack(words)[3 * g] == b.0 && Unpack(words)[3 * g + 1] == b.1 && Unpack(words)[3 * g + 2] == b.2
  {
    assert (3 * g) / 3 == g && (3 * g) % 3 == 0;
    assert (3 * g + 1) / 3 == g && (3 * g + 1) % 3 == 1;
    assert (3 * g + 2) / 3 == g && (3 * g + 2) % 3 == 2;
  }

  lemma {:induction false} UnpackedIndex(words: seq<bv16>, k: nat)
    requires |words| % 2 == 0 && k < |words| / 2 * 3
    ensures var g := k / 3;
            2 * g + 2 <= |words| &&
            var b := UnpackGroup(words[2 * g], words[2 * g + 1]);
            Unpack(words)[k] == if k % 3 == 0 then b.0 else if k % 3 == 1 then b.1 else b.2
  {
    PairInside(k / 3, |words|);
  }

  /** Unpack(Pack(bytes)) == bytes for whole groups of three bytes. */
  lemma {:induction false} UnpackPack(bytes: seq<bv8>)
    requires |bytes| % 3 == 0
    ensures Unpack(Pack(bytes)) == bytes
  {
    var words := Pack(bytes);
    var back := Unpack(words);
    forall k | 0 <= k < |bytes| ensures back[k] == bytes[k] {
      var g := k / 3;
      TripleInside(g, |bytes|);
      PackedGroup(bytes, g);
      UnpackedIndex(words, k);
      GroupRoundTrip(bytes[3 * g], bytes[3 * g + 1], bytes[3 * g + 2]);
      var u := UnpackGroup(words[2 * g], words[2 * g + 1]);
      assert u == (bytes[3 * g], bytes[3 * g + 1], bytes[3 * g + 2]);
      var r := k % 3;
      assert k == 3 * g + r;
      if r == 0 {
        assert back[k] == u.0;
      } else if r == 1 {
        assert back[k] == u.1;
      } else {
        assert back[k] == u.2;
      }
    }
  }

  /** Pack(Unpack(words)) == words for pairs of twelve-bit columns. */
  lemma {:induction false} PackUnpack(words: seq<bv16>)
    requires |words| % 2 == 0 && forall k | 0 <= k < |words| :: IsColumn(words[k])
    ensures Pack(Unpack(words)) == words
  {
    var back := Pack(Unpack(words));
    forall k | 0 <= k < |words| ensures back[k] == words[k] {
      PackUnpackAt(words, k);
    }
  }

  /** One column of Pack(Unpack(words)): its group of three bytes holds
      exactly the pair of columns it came from. */
  lemma {:induction false} PackUnpackAt(words: seq<bv16>, k: nat)
    requires |words| % 2 == 0 && k < |words|
    requires IsColumn(words[k / 2 * 2]) && IsColumn(words[k / 2 * 2 + 1])
    ensures |Unpack(words)| % 3 == 0 && k < |Pack(Unpack(words))| && Pack(Unpack(words))[k] == words[k]
  {
    var g := k / 2;
    PackOfUnpack(words, k);
    ColumnsRoundTrip(words[2 * g], words[2 * g + 1]);
  }

  /** Where column `k` of Pack(Unpack(words)) comes from: the columns
      packed from the bytes its pair of columns unpacked to. */
  lemma {:induction false} PackOfUnpack(words: seq<bv16>, k: nat)
    requires |words| % 2 == 0 && k < |words|
    ensures var g := k / 2;
            2 * g + 2 <= |words| && |Unpack(words)| % 3 == 0 && k < |Pack(Unpack(words))| &&
            var b := UnpackGroup(words[2 * g], words[2 * g + 1]);
            var w := PackGroup(b.0, b.1, b.2);
            Pack(Unpack(words))[k] == if k % 2 == 0 then w.0 else w.1
  {
    var bytes := Unpack(words);
    var n := |words| / 2;
    assert |words| == 2 * n && |bytes| == 3 * n;
    assert |bytes| % 3 == 0 && |bytes| / 3 * 2 == |words|;
    var g := k / 2;
    assert 2 * g + 2 <= |words|;
    UnpackedGroup(words, g);
    PackedIndex(bytes, k);
  }

  /** A column with bits above the twelfth does not survive the trip: its
      high bits run into the neighbouring byte. */
  lemma {:induction false} WideColumnLost()
    ensures Pack(Unpack([0, 0x1000])) != [0, 0x1000]
  {
    var words: seq<bv16> := [0, 0x1000];
    var bytes := Unpack(words);
    UnpackedGroup(words, 0);
    PackedGroup(bytes, 0);
    assert bytes[1] == 0x10 && bytes[2] == 0;
    assert Pack(bytes)[1] == 0;
  }

  /** The asserts guarding Unpack: an even number of columns, and an
      output buffer of at least cwCard*3/2 bytes. */
  predicate UnpackAllowed(cbCard: nat, cwCard: nat)
  {
    cwCard % 2 == 0 && cbCard >= cwCard * 3 / 2
  }

  /** The card record written by CCardOutputImageFile::Write, as the
      source states it: Unpack is handed COLUMNS as the size of the byte
      buffer, so its own assert fails for every card of 80 columns and the
      write stops there. None stands for that failed assert. */
  function WriteCardAsWritten(card: seq<bv16>): (r: Option<seq<bv8>>)
    requires |card| == COLUMNS
    ensures r.None?
  {
    match UnpackChecked(COLUMNS, card)
    case None => None
    case Some(bytes) => Some([0x80, 0x80, 0x80] + bytes)
  }

  /** Unpack behind its asserts: None when they fail. */
  function UnpackChecked(cbCard: nat, words: seq<bv16>): (r: Option<seq<bv8>>)
    ensures r.Some? <==> UnpackAllowed(cbCard, |words|)
    ensures r.Some? ==> UnpackAllowed(cbCard, |words|) && r.value == Unpack(words)
  {
    if UnpackAllowed(cbCard, |words|) then Some(Unpack(words)) else None
  }

  /** The guard refuses the buffer size the write passes, and accepts the
      size of the buffer it actually has. */
  lemma {:induction false} WriteCardGuard()
    ensures !UnpackAllowed(COLUMNS, COLUMNS) && UnpackAllowed(CARDBYTES, COLUMNS)
  {
  }

  /** The card record as evidently intended (Unpack told CARDBYTES): the
      three header bytes with their high bit set, then the 120 bytes of the
      columns. */
  function WriteCard(card: seq<bv16>): (r: seq<bv8>)
    requires |card| == COLUMNS
    ensures UnpackAllowed(CARDBYTES, |card|)
    ensures |r| == CARD_HEADER_LEN + CARDBYTES
    ensures r[..CARD_HEADER_LEN] == [0x80, 0x80, 0x80] && r[CARD_HEADER_LEN..] == Unpack(card)
  {
    [0x80, 0x80, 0x80] + Unpack(card)
  }

  /** What CCardInputImageFile::Read makes of the bytes at `pos`: nothing
      (0 columns) when a whole record is not there or a header byte lacks
      its high bit; otherwise the 80 columns and the position after the
      record. A failed read still moves the file position in the code (to
      the end of the file when the record is cut short, past the record
      when a header byte is bad); NoCard does not carry that position. */
  datatype CardRead = NoCard | Card(columns: seq<bv16>, next: nat)

  function ReadCard(image: seq<bv8>, pos: nat): (r: CardRead)
    ensures r.Card? <==> pos + CARD_HEADER_LEN + CARDBYTES <= |image| &&
                         image[pos] & 0x80 != 0 && image[pos + 1] & 0x80 != 0 && image[pos + 2] & 0x80 != 0
    ensures r.Card? ==> |r.columns| == COLUMNS && r.next == pos + CARD_HEADER_LEN + CARDBYTES &&
                        r.columns == Pack(image[pos + CARD_HEADER_LEN..(r.next)])
  {
    var end := pos + CARD_HEADER_LEN + CARDBYTES;
    if end > |image| then NoCard
    else if image[pos] & 0x80 == 0 || image[pos + 1] & 0x80 == 0 || image[pos + 2] & 0x80 == 0 then NoCard
    else Card(Pack(image[pos + CARD_HEADER_LEN..end]), end)
  }

  /** CCardInputImageFile::Open checks the file header. */
  predicate HeaderValid(image: seq<bv8>)
  {
    |image| >= FILE_HEADER_LEN && image[..FILE_HEADER_LEN] == FILE_HEADER
  }

  /** A card written to a deck is read back, column for column, wherever
      it sits in the file. */
  lemma {:induction false} CardRoundTrip(before: seq<bv8>, card: seq<bv16>, after: seq<bv8>)
    requires |card| == COLUMNS && forall k | 0 <= k < |card| :: IsColumn(card[k])
    ensures ReadCard(before + WriteCard(card) + after, |before|) == Card(card, |before| + CARD_HEADER_LEN + CARDBYTES)
  {
    var rec := WriteCard(card);
    var image := before + rec + after;
    var pos := |before|;
    assert image[pos..pos + CARD_HEADER_LEN + CARDBYTES] == rec;
    assert image[pos] == 0x80 && image[pos + 1] == 0x80 && image[pos + 2] == 0x80;
    assert image[pos + CARD_HEADER_LEN..pos + CARD_HEADER_LEN + CARDBYTES] == Unpack(card);
    PackUnpack(card);
  }

  /** A card deck of twelve-bit, 80-column cards. */
  predicate IsDeck(cards: seq<seq<bv16>>)
  {
    forall i | 0 <= i < |cards| :: |cards[i]| == COLUMNS && forall k | 0 <= k < COLUMNS :: IsColumn(cards[i][k])
  }

  /** The records of a deck, one after another. */
  function Records(cards: seq<seq<bv16>>): (r: seq<bv8>)
    requires IsDeck(cards)
    ensures |r| == |cards| * (CARD_HEADER_LEN + CARDBYTES)
  {
    if cards == [] then [] else WriteCard(cards[0]) + Records(cards[1..])
  }

  /** The file CCardOutputImageFile makes of a deck: Open writes the
      header, then each Write appends a record. */
  function WriteDeck(cards: seq<seq<bv16>>): (r: seq<bv8>)
    requires IsDeck(cards)
    ensures HeaderValid(r)
  {
    FILE_HEADER + Records(cards)
  }

  /** The records before card `i`, card `i`'s, and those after it. */
  lemma {:induction false} RecordsSplit(cards: seq<seq<bv16>>, i: nat)
    requires IsDeck(cards) && i < |cards|
    ensures Records(cards) == Records(cards[..i]) + WriteCard(cards[i]) + Records(cards[i + 1..])
  {
    if i == 0 {
      assert cards[1..] == cards[i + 1..];
      assert Records(cards[..0]) == [];
    } else {
      var rest := cards[1..];
      RecordsSplit(rest, i - 1);
      assert rest[..i - 1] == cards[1..i] && rest[i - 1] == cards[i] && rest[i..] == cards[i + 1..];
      assert cards[..i][0] == cards[0] && cards[..i][1..] == cards[1..i];
      var w0, a, w, b := WriteCard(cards[0]), Records(cards[1..i]), WriteCard(cards[i]), Records(cards[i + 1..]);
      assert Records(cards) == w0 + (a + w + b);
      assert Records(cards[..i]) == w0 + a;
      Regroup(w0, a, w, b);
    }
  }

  lemma {:induction false} Regroup(w0: seq<bv8>, a: seq<bv8>, w: seq<bv8>, b: seq<bv8>)
    ensures w0 + (a + w + b) == w0 + a + w + b
  {
    assert |w0 + (a + w + b)| == |w0 + a + w + b|;
  }

  /** Every card of a written deck is read back from its place in the
      file. */
  lemma {:induction false} DeckRoundTrip(cards: seq<seq<bv16>>, i: nat)
    requires IsDeck(cards) && i < |cards|
    ensures var pos := FILE_HEADER_LEN + i * (CARD_HEADER_LEN + CARDBYTES);
            ReadCard(WriteDeck(cards), pos) == Card(cards[i], pos + CARD_HEADER_LEN + CARDBYTES)
  {
    var before, after := DeckLayout(cards, i);
    CardRoundTrip(before, cards[i], after);
  }

  /** A written deck is the records before card `i`, card `i`'s record,
      and the records after it. */
  lemma {:induction false} DeckLayout(cards: seq<seq<bv16>>, i: nat) returns (before: seq<bv8>, after: seq<bv8>)
    requires IsDeck(cards) && i < |cards|
    ensures |before| == FILE_HEADER_LEN + i * (CARD_HEADER_LEN + CARDBYTES)
    ensures WriteDeck(cards) == before + WriteCard(cards[i]) + after
  {
    RecordsSplit(cards, i);
    var a, w := Records(cards[..i]), WriteCard(cards[i]);
    after := Records(cards[i + 1..]);
    assert |a| == i * (CARD_HEADER_LEN + CARDBYTES);
    Regroup(FILE_HEADER, a, w, after);
    before := FILE_HEADER + a;
  }
}
