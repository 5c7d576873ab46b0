/** Digit classes and numeral values, standing in for the C library's
    `isdigit`, `isxdigit`, `strtoul` and `%d` conversions. Leading white
    space and signs, which those library routines also accept, are not
    modelled: a numeral here is a plain run of digits. */
module Decimal {

  predicate IsDigit(c: char)
  {
    '0' <= c <= '9'
  }

  predicate IsHexDigit(c: char)
  {
    IsDigit(c) || 'a' <= c <= 'f' || 'A' <= c <= 'F'
  }

  predicate AllDigits(s: string)
  {
    forall i :: 0 <= i < |s| ==> IsDigit(s[i])
  }

  predicate AllHexDigits(s: string)
  {
    forall i :: 0 <= i < |s| ==> IsHexDigit(s[i])
  }

  function DigitValue(c: char): (v: nat)
    requires IsHexDigit(c)
    ensures v < 16
    ensures IsDigit(c) <==> v < 10
  {
    if IsDigit(c) then c as int - '0' as int
    else if 'a' <= c <= 'f' then c as int - 'a' as int + 10
    else c as int - 'A' as int + 10
  }

  /** The value of a numeral in the given base, most significant digit first. */
  function Value(s: string, base: nat): (v: nat)
    requires base == 10 || base == 16
    requires AllHexDigits(s)
    requires base == 10 ==> AllDigits(s)
    decreases |s|
  {
    if s == [] then 0
    else Value(s[..|s| - 1], base) * base + DigitValue(s[|s| - 1])
  }

  /** The end of the run of characters satisfying `IsDigit` (or `IsHexDigit`
      when `hex`) that starts at index `i`. */
  function RunEnd(s: string, i: nat, hex: bool): (j: nat)
    requires i <= |s|
    ensures i <= j <= |s|
    ensures j == |s| || !(if hex then IsHexDigit(s[j]) else IsDigit(s[j]))
    decreases |s| - i
  {
    if i == |s| || !(if hex then IsHexDigit(s[i]) else IsDigit(s[i])) then i
    else RunEnd(s, i + 1, hex)
  }

  /** Everything `RunEnd` passes over is in the class: the run is a numeral. */
  lemma {:induction false} RunEndDigits(s: string, i: nat, hex: bool)
    requires i <= |s|
    ensures hex ==> AllHexDigits(s[i..RunEnd(s, i, hex)])
    ensures !hex ==> AllDigits(s[i..RunEnd(s, i, hex)])
    decreases |s| - i
  {
    if i < |s| && (if hex then IsHexDigit(s[i]) else IsDigit(s[i])) {
      RunEndDigits(s, i + 1, hex);
      var e := RunEnd(s, i, hex);
      assert s[i..e] == [s[i]] + s[i + 1..e];
    }
  }

  /** The decimal digit for a value below ten. */
  function Digit(d: nat): (c: char)
    requires d < 10
    ensures IsDigit(c) && DigitValue(c) == d
  {
    ('0' as int + d) as char
  }

  /** The decimal numeral of `n`, without leading zeros (printf's `%d`/`%u`
      of a non-negative value). */
  function FromNat(n: nat): (s: string)
    ensures |s| > 0 && AllDigits(s)
    decreases n
  {
    if n < 10 then [Digit(n)] else FromNat(n / 10) + [Digit(n % 10)]
  }

  /** Reading back the numeral of `n` gives `n`. */
  lemma {:induction false} FromNatValue(n: nat)
    ensures Value(FromNat(n), 10) == n
    decreases n
  {
    if n >= 10 {
      var prefix := FromNat(n / 10);
      var s := FromNat(n);
      assert s[..|s| - 1] == prefix;
      FromNatValue(n / 10);
    }
  }

  /** The lower-case hexadecimal digit for a value below sixteen. */
  function HexDigit(d: nat): (c: char)
    requires d < 16
    ensures IsHexDigit(c) && DigitValue(c) == d
  {
    if d < 10 then Digit(d) else ('a' as int + d - 10) as char
  }

  /** The hexadecimal numeral of `n`, without leading zeros (printf's `%x`). */
  function FromNatHex(n: nat): (s: string)
    ensures |s| > 0 && AllHexDigits(s)
    ensures n > 0 ==> s[0] != '0'
    decreases n
  {
    if n < 16 then [HexDigit(n)] else FromNatHex(n / 16) + [HexDigit(n % 16)]
  }

  /** Reading back the hexadecimal numeral of `n` gives `n`. */
  lemma {:induction false} FromNatHexValue(n: nat)
    ensures Value(FromNatHex(n), 16) == n
    decreases n
  {
    if n >= 16 {
      var s := FromNatHex(n);
      assert s[..|s| - 1] == FromNatHex(n / 16);
      FromNatHexValue(n / 16);
    }
  }

  /** `w` is written in `s` at position `k`. */
  predicate WrittenAt(s: string, k: nat, w: string)
  {
    k + |w| <= |s| && forall j {:trigger w[j]} | 0 <= j < |w| :: s[k + j] == w[j]
  }

  lemma {:induction false} WrittenAtSlice(s: string, k: nat, w: string)
    requires WrittenAt(s, k, w)
    ensures s[k..] == w + s[k + |w|..]
  {
    assert forall j | 0 <= j < |s| - k :: s[k..][j] == (w + s[k + |w|..])[j];
  }

  /** The digit value of a character, zero for one that is not a digit. */
  function CharValue(c: char): (v: nat)
    ensures IsHexDigit(c) ==> v == DigitValue(c)
  {
    if IsHexDigit(c) then DigitValue(c) else 0
  }

  /** The value of the numeral `s[k..e]` read where it stands, most
      significant digit first, in radix 16 when `hex` and 10 otherwise. */
  function ValueAt(s: string, k: nat, e: nat, hex: bool): nat
    requires k <= e <= |s|
    decreases e - k
  {
    if e == k then 0
    else if hex then ValueAt(s, k, e - 1, hex) * 16 + CharValue(s[e - 1])
    else ValueAt(s, k, e - 1, hex) * 10 + CharValue(s[e - 1])
  }

  /** A numeral written in a string has the same value there. */
  lemma {:induction false} ValueAtWritten(s: string, k: nat, w: string, hex: bool)
    requires WrittenAt(s, k, w)
    requires if hex then AllHexDigits(w) else AllDigits(w)
    ensures ValueAt(s, k, k + |w|, hex) == Value(w, if hex then 16 else 10)
    decreases |w|
  {
    if w != [] {
      var u := w[..|w| - 1];
      assert WrittenAt(s, k, u) by {
        forall j | 0 <= j < |u| ensures s[k + j] == u[j] {
          assert u[j] == w[j];
        }
      }
      ValueAtWritten(s, k, u, hex);
      assert s[k + |w| - 1] == w[|w| - 1];
    }
  }

  /** `RunEnd` stops exactly at the end of a run that is followed by a
      character outside the class or by the end of the string. */
  lemma {:induction false} RunEndOfRun(s: string, i: nat, d: string, rest: string, hex: bool)
    requires i <= |s| && s[i..] == d + rest
    requires if hex then AllHexDigits(d) else AllDigits(d)
    requires rest == [] || !(if hex then IsHexDigit(rest[0]) else IsDigit(rest[0]))
    ensures RunEnd(s, i, hex) == i + |d|
    decreases |d|
  {
    if d != [] {
      assert s[i] == d[0];
      assert s[i + 1..] == d[1..] + rest;
      RunEndOfRun(s, i + 1, d[1..], rest, hex);
    } else {
      assert rest == [] ==> i == |s|;
      assert rest != [] ==> s[i] == rest[0];
    }
  }

  /** `RunEnd` stops exactly at the end of a digit run that is followed by a
      non-digit or by the end of the string. */
  lemma {:induction false} RunEndOfNumeral(s: string, i: nat, d: string, rest: string)
    requires i <= |s| && s[i..] == d + rest
    requires AllDigits(d)
    requires rest == [] || !IsDigit(rest[0])
    ensures RunEnd(s, i, false) == i + |d|
  {
    RunEndOfRun(s, i, d, rest, false);
  }
}
