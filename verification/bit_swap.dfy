/** The bit reversal table of CBitStream (BitStream.cpp and BitStream.hpp).
    The MESA board loads its FPGA serially with the bits of each byte in
    the opposite order, so the library keeps a table of every byte with its
    bits reversed. */
module BitSwap {
  import opened Bytes

  /** m_abSwapBits, as sixteen rows of sixteen entries. */
  const SWAP_ROWS: seq<seq<bv8>> := [
    [0x00, 0x80, 0x40, 0xC0, 0x20, 0xA0, 0x60, 0xE0, 0x10, 0x90, 0x50, 0xD0, 0x30, 0xB0, 0x70, 0xF0],
    [0x08, 0x88, 0x48, 0xC8, 0x28, 0xA8, 0x68, 0xE8, 0x18, 0x98, 0x58, 0xD8, 0x38, 0xB8, 0x78, 0xF8],
    [0x04, 0x84, 0x44, 0xC4, 0x24, 0xA4, 0x64, 0xE4, 0x14, 0x94, 0x54, 0xD4, 0x34, 0xB4, 0x74, 0xF4],
    [0x0C, 0x8C, 0x4C, 0xCC, 0x2C, 0xAC, 0x6C, 0xEC, 0x1C, 0x9C, 0x5C, 0xDC, 0x3C, 0xBC, 0x7C, 0xFC],
    [0x02, 0x82, 0x42, 0xC2, 0x22, 0xA2, 0x62, 0xE2, 0x12, 0x92, 0x52, 0xD2, 0x32, 0xB2, 0x72, 0xF2],
    [0x0A, 0x8A, 0x4A, 0xCA, 0x2A, 0xAA, 0x6A, 0xEA, 0x1A, 0x9A, 0x5A, 0xDA, 0x3A, 0xBA, 0x7A, 0xFA],
    [0x06, 0x86, 0x46, 0xC6, 0x26, 0xA6, 0x66, 0xE6, 0x16, 0x96, 0x56, 0xD6, 0x36, 0xB6, 0x76, 0xF6],
    [0x0E, 0x8E, 0x4E, 0xCE, 0x2E, 0xAE, 0x6E, 0xEE, 0x1E, 0x9E, 0x5E, 0xDE, 0x3E, 0xBE, 0x7E, 0xFE],
    [0x01, 0x81, 0x41, 0xC1, 0x21, 0xA1, 0x61, 0xE1, 0x11, 0x91, 0x51, 0xD1, 0x31, 0xB1, 0x71, 0xF1],
    [0x09, 0x89, 0x49, 0xC9, 0x29, 0xA9, 0x69, 0xE9, 0x19, 0x99, 0x59, 0xD9, 0x39, 0xB9, 0x79, 0xF9],
    [0x05, 0x85, 0x45, 0xC5, 0x25, 0xA5, 0x65, 0xE5, 0x15, 0x95, 0x55, 0xD5, 0x35, 0xB5, 0x75, 0xF5],
    [0x0D, 0x8D, 0x4D, 0xCD, 0x2D, 0xAD, 0x6D, 0xED, 0x1D, 0x9D, 0x5D, 0xDD, 0x3D, 0xBD, 0x7D, 0xFD],
    [0x03, 0x83, 0x43, 0xC3, 0x23, 0xA3, 0x63, 0xE3, 0x13, 0x93, 0x53, 0xD3, 0x33, 0xB3, 0x73, 0xF3],
    [0x0B, 0x8B, 0x4B, 0xCB, 0x2B, 0xAB, 0x6B, 0xEB, 0x1B, 0x9B, 0x5B, 0xDB, 0x3B, 0xBB, 0x7B, 0xFB],
    [0x07, 0x87, 0x47, 0xC7, 0x27, 0xA7, 0x67, 0xE7, 0x17, 0x97, 0x57, 0xD7, 0x37, 0xB7, 0x77, 0xF7],
    [0x0F, 0x8F, 0x4F, 0xCF, 0x2F, 0xAF, 0x6F, 0xEF, 0x1F, 0x9F, 0x5F, 0xDF, 0x3F, 0xBF, 0x7F, 0xFF]
  ]

  /** A byte with its eight bits in the opposite order. */
  function Reverse(b: bv8): (r: bv8)
  {
    ((b & 0x01) << 7) | ((b & 0x02) << 5) | ((b & 0x04) << 3) | ((b & 0x08) << 1) |
    ((b & 0x10) >> 1) | ((b & 0x20) >> 3) | ((b & 0x40) >> 5) | ((b & 0x80) >> 7)
  }

  /** Reversing twice gives back the byte. */
  lemma {:induction false} ReverseTwice(b: bv8)
    ensures Reverse(Reverse(b)) == b
  {
  }

  /** SwapBits(b): the table entry of `b`. */
  function SwapBits(b: bv8): (r: bv8)
  {
    SWAP_ROWS[(b >> 4) as int][(b & 0x0F) as int]
  }

  /** Every entry of the table is its index with the bits reversed. */
  lemma {:induction false} TableReverses(b: bv8)
    ensures SwapBits(b) == Reverse(b)
  {
    if b >> 4 == 0 { Row0(b); }
    else if b >> 4 == 1 { Row1(b); }
    else if b >> 4 == 2 { Row2(b); }
    else if b >> 4 == 3 { Row3(b); }
    else if b >> 4 == 4 { Row4(b); }
    else if b >> 4 == 5 { Row5(b); }
    else if b >> 4 == 6 { Row6(b); }
    else if b >> 4 == 7 { Row7(b); }
    else if b >> 4 == 8 { Row8(b); }
    else if b >> 4 == 9 { Row9(b); }
    else if b >> 4 == 10 { RowA(b); }
    else if b >> 4 == 11 { RowB(b); }
    else if b >> 4 == 12 { RowC(b); }
    else if b >> 4 == 13 { RowD(b); }
    else if b >> 4 == 14 { RowE(b); }
    else { RowF(b); }
  }

  /** Swapping the bits of a byte twice gives back the byte. */
  lemma {:induction false} SwapBitsTwice(b: bv8)
    ensures SwapBits(SwapBits(b)) == b
  {
    TableReverses(b);
    TableReverses(SwapBits(b));
    ReverseTwice(b);
  }

  /** Row k of the table: its entries are the reversals of 16k .. 16k+15,
      compared at the column `b` selects. */
  lemma {:induction false} Row0(b: bv8)
    requires b >> 4 == 0
    ensures SwapBits(b) == Reverse(b)
  {
    var lo := b & 0x0F;
    assert SWAP_ROWS[0][lo as int] == [Reverse(0), Reverse(1), Reverse(2), Reverse(3), Reverse(4), Reverse(5), Reverse(6), Reverse(7), Reverse(8), Reverse(9), Reverse(10), Reverse(11), Reverse(12), Reverse(13), Reverse(14), Reverse(15)][lo as int];
  }

  lemma {:induction false} Row1(b: bv8)
    requires b >> 4 == 1
    ensures SwapBits(b) == Reverse(b)
  {
    var lo := b & 0x0F;
    assert SWAP_ROWS[1][lo as int] == [Reverse(16), Reverse(17), Reverse(18), Reverse(19), Reverse(20), Reverse(21), Reverse(22), Reverse(23), Reverse(24), Reverse(25), Reverse(26), Reverse(27), Reverse(28), Reverse(29), Reverse(30), Reverse(31)][lo as int];
  }

  lemma {:induction false} Row2(b: bv8)
    requires b >> 4 == 2
    ensures SwapBits(b) == Reverse(b)
  {
    var lo := b & 0x0F;
    assert SWAP_ROWS[2][lo as int] == [Reverse(32), Reverse(33), Reverse(34), Reverse(35), Reverse(36), Reverse(37), Reverse(38), Reverse(39), Reverse(40), Reverse(41), Reverse(42), Reverse(43), Reverse(44), Reverse(45), Reverse(46), Reverse(47)][lo as int];
  }

  lemma {:induction false} Row3(b: bv8)
    requires b >> 4 == 3
    ensures SwapBits(b) == Reverse(b)
  {
    var lo := b & 0x0F;
    assert SWAP_ROWS[3][lo as int] == [Reverse(48), Reverse(49), Reverse(50), Reverse(51), Reverse(52), Reverse(53), Reverse(54), Reverse(55), Reverse(56), Reverse(57), Reverse(58), Reverse(59), Reverse(60), Reverse(61), Reverse(62), Reverse(63)][lo as int];
  }

  lemma {:induction false} Row4(b: bv8)
    requires b >> 4 == 4
    ensures SwapBits(b) == Reverse(b)
  {
    var lo := b & 0x0F;
    assert SWAP_ROWS[4][lo as int] == [Reverse(64), Reverse(65), Reverse(66), Reverse(67), Reverse(68), Reverse(69), Reverse(70), Reverse(71), Reverse(72), Reverse(73), Reverse(74), Reverse(75), Reverse(76), Reverse(77), Reverse(78), Reverse(79)][lo as int];
  }

  lemma {:induction false} Row5(b: bv8)
    requires b >> 4 == 5
    ensures SwapBits(b) == Reverse(b)
  {
    var lo := b & 0x0F;
    assert SWAP_ROWS[5][lo as int] == [Reverse(80), Reverse(81), Reverse(82), Reverse(83), Reverse(84), Reverse(85), Reverse(86), Reverse(87), Reverse(88), Reverse(89), Reverse(90), Reverse(91), Reverse(92), Reverse(93), Reverse(94), Reverse(95)][lo as int];
  }

  lemma {:induction false} Row6(b: bv8)
    requires b >> 4 == 6
    ensures SwapBits(b) == Reverse(b)
  {
    var lo := b & 0x0F;
    assert SWAP_ROWS[6][lo as int] == [Reverse(96), Reverse(97), Reverse(98), Reverse(99), Reverse(100), Reverse(101), Reverse(102), Reverse(103), Reverse(104), Reverse(105), Reverse(106), Reverse(107), Reverse(108), Reverse(109), Reverse(110), Reverse(111)][lo as int];
  }

  lemma {:induction false} Row7(b: bv8)
    requires b >> 4 == 7
    ensures SwapBits(b) == Reverse(b)
  {
    var lo := b & 0x0F;
    assert SWAP_ROWS[7][lo as int] == [Reverse(112), Reverse(113), Reverse(114), Reverse(115), Reverse(116), Reverse(117), Reverse(118), Reverse(119), Reverse(120), Reverse(121), Reverse(122), Reverse(123), Reverse(124), Reverse(125), Reverse(126), Reverse(127)][lo as int];
  }

  lemma {:induction false} Row8(b: bv8)
    requires b >> 4 == 8
    ensures SwapBits(b) == Reverse(b)
  {
    var lo := b & 0x0F;
    assert SWAP_ROWS[8][lo as int] == [Reverse(128), Reverse(129), Reverse(130), Reverse(131), Reverse(132), Reverse(133), Reverse(134), Reverse(135), Reverse(136), Reverse(137), Reverse(138), Reverse(139), Reverse(140), Reverse(141), Reverse(142), Reverse(143)][lo as int];
  }

  lemma {:induction false} Row9(b: bv8)
    requires b >> 4 == 9
    ensures SwapBits(b) == Reverse(b)
  {
    var lo := b & 0x0F;
    assert SWAP_ROWS[9][lo as int] == [Reverse(144), Reverse(145), Reverse(146), Reverse(147), Reverse(148), Reverse(149), Reverse(150), Reverse(151), Reverse(152), Reverse(153), Reverse(154), Reverse(155), Reverse(156), Reverse(157), Reverse(158), Reverse(159)][lo as int];
  }

  lemma {:induction false} RowA(b: bv8)
    requires b >> 4 == 10
    ensures SwapBits(b) == Reverse(b)
  {
    var lo := b & 0x0F;
    assert SWAP_ROWS[10][lo as int] == [Reverse(160), Reverse(161), Reverse(162), Reverse(163), Reverse(164), Reverse(165), Reverse(166), Reverse(167), Reverse(168), Reverse(169), Reverse(170), Reverse(171), Reverse(172), Reverse(173), Reverse(174), Reverse(175)][lo as int];
  }

  lemma {:induction false} RowB(b: bv8)
    requires b >> 4 == 11
    ensures SwapBits(b) == Reverse(b)
  {
    var lo := b & 0x0F;
    assert SWAP_ROWS[11][lo as int] == [Reverse(176), Reverse(177), Reverse(178), Reverse(179), Reverse(180), Reverse(181), Reverse(182), Reverse(183), Reverse(184), Reverse(185), Reverse(186), Reverse(187), Reverse(188), Reverse(189), Reverse(190), Reverse(191)][lo as int];
  }

  lemma {:induction false} RowC(b: bv8)
    requires b >> 4 == 12
    ensures SwapBits(b) == Reverse(b)
  {
    var lo := b & 0x0F;
    assert SWAP_ROWS[12][lo as int] == [Reverse(192), Reverse(193), Reverse(194), Reverse(195), Reverse(196), Reverse(197), Reverse(198), Reverse(199), Reverse(200), Reverse(201), Reverse(202), Reverse(203), Reverse(204), Reverse(205), Reverse(206), Reverse(207)][lo as int];
  }

  lemma {:induction false} RowD(b: bv8)
    requires b >> 4 == 13
    ensures SwapBits(b) == Reverse(b)
  {
    var lo := b & 0x0F;
    assert SWAP_ROWS[13][lo as int] == [Reverse(208), Reverse(209), Reverse(210), Reverse(211), Reverse(212), Reverse(213), Reverse(214), Reverse(215), Reverse(216), Reverse(217), Reverse(218), Reverse(219), Reverse(220), Reverse(221), Reverse(222), Reverse(223)][lo as int];
  }

  lemma {:induction false} RowE(b: bv8)
    requires b >> 4 == 14
    ensures SwapBits(b) == Reverse(b)
  {
    var lo := b & 0x0F;
    assert SWAP_ROWS[14][lo as int] == [Reverse(224), Reverse(225), Reverse(226), Reverse(227), Reverse(228), Reverse(229), Reverse(230), Reverse(231), Reverse(232), Reverse(233), Reverse(234), Reverse(235), Reverse(236), Reverse(237), Reverse(238), Reverse(239)][lo as int];
  }

  lemma {:induction false} RowF(b: bv8)
    requires b >> 4 == 15
    ensures SwapBits(b) == Reverse(b)
  {
    var lo := b & 0x0F;
    assert SWAP_ROWS[15][lo as int] == [Reverse(240), Reverse(241), Reverse(242), Reverse(243), Reverse(244), Reverse(245), Reverse(246), Reverse(247), Reverse(248), Reverse(249), Reverse(250), Reverse(251), Reverse(252), Reverse(253), Reverse(254), Reverse(255)][lo as int];
  }

  /** SwapBytes(w): the high and low bytes exchanged. */
  function SwapBytes(w: uint16): (r: uint16)
    ensures HiByte(r) == LoByte(w) && LoByte(r) == HiByte(w)
  {
    MkWord(LoByte(w), HiByte(w))
  }

  /** Exchanging the bytes twice gives back the word. */
  lemma {:induction false} SwapBytesTwice(w: uint16)
    ensures SwapBytes(SwapBytes(w)) == w
  {
    var r := SwapBytes(w);
    WordRoundTrip(w);
    assert SwapBytes(r) == MkWord(HiByte(w), LoByte(w));
  }
}
