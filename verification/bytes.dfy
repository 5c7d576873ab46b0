/** The byte, word and bit helpers of UPELIB.hpp. Integers in the model are
    unbounded, so every C cast to `uint8_t`, `uint16_t` or `uint32_t` is
    written as an explicit reduction. */
module Bytes {

  type byte = x: int | 0 <= x < 0x100
  type uint16 = x: int | 0 <= x < 0x1_0000
  type uint32 = x: int | 0 <= x < 0x1_0000_0000

  const CHNUL: byte := 0x00
  const CHLFD: byte := 0x0A
  const CHCRT: byte := 0x0D

  /** LOBYTE: the low eight bits. Dafny's `%` is Euclidean, which agrees with
      the two's complement `& 0xFF` of the C macro for negative operands too. */
  function LoByte(x: int): (b: byte)
    ensures (x - b) % 0x100 == 0
  {
    x % 0x100
  }

  /** HIBYTE: bits 8..15 (an arithmetic shift right by 8, then a mask). */
  function HiByte(x: int): (b: byte)
  {
    (x / 0x100) % 0x100
  }

  /** LOWORD: the low sixteen bits. */
  function LoWord(x: int): (w: uint16)
    ensures (x - w) % 0x1_0000 == 0
  {
    x % 0x1_0000
  }

  /** HIWORD: bits 16..31 of a 32-bit quantity. */
  function HiWord(x: int): (w: uint16)
  {
    (x % 0x1_0000_0000) / 0x1_0000
  }

  /** MKWORD(h, l): a 16-bit word whose high byte is LOBYTE(h) and whose low
      byte is LOBYTE(l). */
  function MkWord(h: int, l: int): (w: uint16)
    ensures HiByte(w) == LoByte(h) && LoByte(w) == LoByte(l)
  {
    LoByte(h) * 0x100 + LoByte(l)
  }

  /** MKLONG(h, l): a 32-bit word whose high half is LOWORD(h) and whose low
      half is LOWORD(l). */
  function MkLong(h: int, l: int): (x: uint32)
    ensures HiWord(x) == LoWord(h) && LoWord(x) == LoWord(l)
  {
    LoWord(h) * 0x1_0000 + LoWord(l)
  }

  /** Splitting a 16-bit word into its bytes and joining them again gives
      back the word. */
  lemma {:induction false} WordRoundTrip(w: uint16)
    ensures MkWord(HiByte(w), LoByte(w)) == w
  {
    var h, l := w / 0x100, w % 0x100;
    assert w == h * 0x100 + l;
    assert HiByte(w) == h && LoByte(w) == l;
    assert LoByte(h) == h && LoByte(l) == l;
  }

  /** Splitting a 32-bit word into its halves and joining them again gives
      back the word. */
  lemma {:induction false} LongRoundTrip(x: uint32)
    ensures MkLong(HiWord(x), LoWord(x)) == x
  {
    var h, l := x / 0x1_0000, x % 0x1_0000;
    assert x == h * 0x1_0000 + l;
    assert HiWord(x) == h && LoWord(x) == l;
    assert LoWord(h) == h && LoWord(l) == l;
  }

  /** ISSET(x, b): some bit of the mask `b` is set in `x`. */
  predicate IsSet(x: bv32, b: bv32)
  {
    x & b != 0
  }

  /** The empty mask is never set. */
  lemma {:induction false} IsSetEmpty(x: bv32)
    ensures !IsSet(x, 0)
  {
  }

  /** Testing against a union of masks is the disjunction of the tests. */
  lemma {:induction false} IsSetUnion(x: bv32, b: bv32, c: bv32)
    ensures IsSet(x, b | c) <==> IsSet(x, b) || IsSet(x, c)
  {
    assert x & (b | c) == (x & b) | (x & c);
  }

  /** MAX(a, b). */
  function Max(a: int, b: int): (r: int)
    ensures r >= a && r >= b
    ensures r == a || r == b
  {
    if a > b then a else b
  }

  /** MIN(a, b). */
  function Min(a: int, b: int): (r: int)
    ensures r <= a && r <= b
    ensures r == a || r == b
  {
    if a < b then a else b
  }
}
