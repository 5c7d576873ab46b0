/** The lexical scanners of the command parser (CCmdArgument::ScanToken,
    ScanQuoted, CCmdArgName::ScanName and CCmdArgNumber::ScanNumber).

    A command line is the text before its terminating NUL, and a scan
    position is an index into it; the end of the text is the NUL. Each
    scanner returns the text it recognised and the position after it, which
    is where the caller's `pcNext` is left. */
module Scanners {
  import opened Chars
  import opened Decimal

  datatype Scan = Scan(text: string, next: nat)

  /** The end of the run of characters satisfying `p` that starts at `i`. */
  function Span(s: string, i: nat, p: char -> bool): (j: nat)
    requires i <= |s|
    ensures i <= j <= |s|
    ensures j == |s| || !p(s[j])
    decreases |s| - i
  {
    if i == |s| || !p(s[i]) then i else Span(s, i + 1, p)
  }

  /** Every character of the run satisfies `p`. */
  lemma {:induction false} SpanAll(s: string, i: nat, p: char -> bool)
    requires i <= |s|
    ensures forall k | i <= k < Span(s, i, p) :: p(s[k])
    decreases |s| - i
  {
    if i < |s| && p(s[i]) {
      SpanAll(s, i + 1, p);
    }
  }

  /** The run is determined by its contents: a run of `p` characters
      followed by a non-`p` character (or the end) is exactly what Span
      finds. */
  lemma {:induction false} SpanOf(s: string, i: nat, p: char -> bool, w: string, rest: string)
    requires i <= |s| && s[i..] == w + rest
    requires forall k | 0 <= k < |w| :: p(w[k])
    requires rest == [] || !p(rest[0])
    ensures Span(s, i, p) == i + |w|
    decreases |w|
  {
    if w == [] {
      assert rest != [] ==> s[i] == rest[0];
    } else {
      assert s[i] == w[0];
      assert s[i + 1..] == w[1..] + rest;
      SpanOf(s, i + 1, p, w[1..], rest);
    }
  }

  /** SpanWhite: the first non-white position at or after `i`. */
  function SkipWhite(s: string, i: nat): (j: nat)
    requires i <= |s|
    ensures i <= j <= |s|
    ensures j == |s| || !IsSpace(s[j])
    decreases |s| - i
  {
    if i == |s| || !IsSpace(s[i]) then i else SkipWhite(s, i + 1)
  }

  /** What SkipWhite skips is white space. */
  lemma {:induction false} SkipWhiteAll(s: string, i: nat)
    requires i <= |s|
    ensures forall k | i <= k < SkipWhite(s, i) :: IsSpace(s[k])
    decreases |s| - i
  {
    if i < |s| && IsSpace(s[i]) {
      SkipWhiteAll(s, i + 1);
    }
  }

  predicate AllSpace(s: string)
  {
    forall k | 0 <= k < |s| :: IsSpace(s[k])
  }

  /** White space followed by a non-white character (or the end) is skipped
      exactly. */
  lemma {:induction false} SkipWhiteOf(s: string, i: nat, blanks: string, rest: string)
    requires i <= |s| && s[i..] == blanks + rest && AllSpace(blanks)
    requires rest == [] || !IsSpace(rest[0])
    ensures SkipWhite(s, i) == i + |blanks|
    decreases |blanks|
  {
    if blanks == [] {
      assert rest != [] ==> s[i] == rest[0];
    } else {
      assert s[i] == blanks[0];
      assert s[i + 1..] == blanks[1..] + rest;
      SkipWhiteOf(s, i + 1, blanks[1..], rest);
    }
  }

  /** The characters that end a generic token: white space and the
      modifier character '/' (and the end of the line). */
  predicate IsDelimiter(c: char)
  {
    IsSpace(c) || c == '/'
  }

  predicate InToken(c: char)
  {
    !IsDelimiter(c)
  }

  /** ScanToken: skip white space, then take everything up to the next
      white space, '/' or the end. The token is empty when the first
      non-white character is '/' or there is none. */
  function ScanToken(s: string, i: nat): (r: Scan)
    requires i <= |s|
    ensures i <= r.next <= |s| && |r.text| <= r.next - i
    ensures r.text == s[r.next - |r.text|..(r.next)]
    ensures forall k | i <= k < r.next - |r.text| :: IsSpace(s[k])
    ensures forall k | 0 <= k < |r.text| :: !IsDelimiter(r.text[k])
    ensures r.next == |s| || IsDelimiter(s[r.next])
    ensures r.text == [] ==> r.next == SkipWhite(s, i)
  {
    var j := SkipWhite(s, i);
    var e := Span(s, j, InToken);
    SkipWhiteAll(s, i);
    SpanAll(s, j, InToken);
    Scan(s[j..e], e)
  }

  /** A token written after white space, and ended by a delimiter or the end
      of the line, is scanned back exactly. */
  lemma {:induction false} ScanTokenOf(s: string, i: nat, blanks: string, w: string, rest: string)
    requires i <= |s| && s[i..] == blanks + w + rest && AllSpace(blanks)
    requires w != [] && forall k | 0 <= k < |w| :: !IsDelimiter(w[k])
    requires rest == [] || IsDelimiter(rest[0])
    ensures ScanToken(s, i) == Scan(w, i + |blanks| + |w|)
  {
    SplitThree(s, i, blanks, w, rest);
    SkipWhiteOf(s, i, blanks, w + rest);
    SpanOf(s, i + |blanks|, InToken, w, rest);
    ScanTokenAt(s, i, i + |blanks|, w);
  }

  lemma {:induction false} ScanTokenAt(s: string, i: nat, j: nat, w: string)
    requires i <= j && j + |w| <= |s| && SkipWhite(s, i) == j
    requires Span(s, j, InToken) == j + |w| && s[j..j + |w|] == w
    ensures ScanToken(s, i) == Scan(w, j + |w|)
  {
  }

  /** Text laid out as three parts from `i`: the last two start after the
      first, and the middle one stands in its place. */
  lemma {:induction false} SplitThree(s: string, i: nat, a: string, b: string, c: string)
    requires i <= |s| && s[i..] == a + b + c
    ensures s[i..] == a + (b + c) && s[i + |a|..] == b + c && s[i + |a|..i + |a| + |b|] == b
  {
    assert a + b + c == a + (b + c);
    assert s[i + |a|..] == s[i..][|a|..];
    assert s[i + |a|..i + |a| + |b|] == s[i + |a|..][..|b|];
  }

  /** The characters of a quoted string: anything but the closing quote. */
  predicate NotQuote(c: char)
  {
    c != '"'
  }

  /** ScanQuoted: like ScanToken, except that a leading '"' starts a string
      that runs to the next '"' (which is consumed) or to the end of the
      line, white space and '/' included. */
  function ScanQuoted(s: string, i: nat): (r: Scan)
    requires i <= |s|
    ensures i <= r.next <= |s|
    ensures var j := SkipWhite(s, i);
            j == |s| || s[j] != '"' ==> r == ScanToken(s, i)
    ensures var j := SkipWhite(s, i);
            j < |s| && s[j] == '"' ==>
              j + 1 + |r.text| <= |s| && r.text == s[j + 1..j + 1 + |r.text|] && '"' !in r.text &&
              (j + 1 + |r.text| == |s| ==> r.next == |s|) &&
              (j + 1 + |r.text| < |s| ==> s[j + 1 + |r.text|] == '"' && r.next == j + 2 + |r.text|)
  {
    var j := SkipWhite(s, i);
    if j == |s| || s[j] != '"' then
      ScanToken(s, j)
    else
      var e := Span(s, j + 1, NotQuote);
      var text := s[j + 1..e];
      SpanAll(s, j + 1, NotQuote);
      assert forall k | 0 <= k < |text| :: text[k] == s[j + 1 + k];
      Scan(text, if e < |s| then e + 1 else e)
  }

  /** A quoted string after white space is scanned back as its contents,
      and the position is left after the closing quote. */
  lemma {:induction false} ScanQuotedOf(s: string, i: nat, blanks: string, w: string, rest: string)
    requires i <= |s| && s[i..] == blanks + ['"'] + w + ['"'] + rest && AllSpace(blanks)
    requires '"' !in w
    ensures ScanQuoted(s, i) == Scan(w, i + |blanks| + |w| + 2)
  {
    var j := i + |blanks|;
    QuotedLayout(s, i, blanks, w, rest);
    SkipWhiteOf(s, i, blanks, ['"'] + w + ['"'] + rest);
    SpanOf(s, j + 1, NotQuote, w, ['"'] + rest);
    ScanQuotedAt(s, i, j, w);
  }

  lemma {:induction false} QuotedLayout(s: string, i: nat, blanks: string, w: string, rest: string)
    requires i <= |s| && s[i..] == blanks + ['"'] + w + ['"'] + rest
    ensures var j := i + |blanks|;
            s[i..] == blanks + (['"'] + w + ['"'] + rest) && j + 1 + |w| < |s| && s[j] == '"' &&
            s[j + 1..] == w + (['"'] + rest) && s[j + 1..j + 1 + |w|] == w && s[j + 1 + |w|] == '"'
  {
    var j := i + |blanks|;
    assert blanks + ['"'] + w + ['"'] + rest == blanks + (['"'] + w + ['"'] + rest);
    assert s[j] == s[i..][|blanks|];
    assert s[j + 1..] == s[i..][|blanks| + 1..];
    assert s[j + 1..j + 1 + |w|] == s[j + 1..][..|w|];
    assert s[j + 1 + |w|] == s[j + 1..][|w|];
  }

  lemma {:induction false} ScanQuotedAt(s: string, i: nat, j: nat, w: string)
    requires i <= j && j + 1 + |w| < |s| && SkipWhite(s, i) == j && s[j] == '"'
    requires Span(s, j + 1, NotQuote) == j + 1 + |w| && s[j + 1..j + 1 + |w|] == w
    ensures ScanQuoted(s, i) == Scan(w, j + 2 + |w|)
  {
  }

  /** The characters of a name: letters, digits, '$' and '_'. */
  predicate IsNameChar(c: char)
  {
    IsAlnum(c) || c == '$' || c == '_'
  }

  /** ScanName: skip white space, then take the longest run of name
      characters, folded to upper case. */
  function ScanName(s: string, i: nat): (r: Scan)
    requires i <= |s|
    ensures i <= r.next <= |s| && |r.text| <= r.next - i
    ensures r.text == UpperCase(s[r.next - |r.text|..(r.next)])
    ensures forall k | i <= k < r.next - |r.text| :: IsSpace(s[k])
    ensures forall k | r.next - |r.text| <= k < r.next :: IsNameChar(s[k])
    ensures r.next == |s| || !IsNameChar(s[r.next])
    ensures r.text == [] ==> r.next == SkipWhite(s, i)
  {
    var j := SkipWhite(s, i);
    var e := Span(s, j, IsNameChar);
    SkipWhiteAll(s, i);
    SpanAll(s, j, IsNameChar);
    Scan(UpperCase(s[j..e]), e)
  }

  /** A name after white space, followed by something that is not a name
      character, is scanned back in upper case. */
  lemma {:induction false} ScanNameOf(s: string, i: nat, blanks: string, w: string, rest: string)
    requires i <= |s| && s[i..] == blanks + w + rest && AllSpace(blanks)
    requires w != [] && forall k | 0 <= k < |w| :: IsNameChar(w[k])
    requires rest == [] || !IsNameChar(rest[0])
    ensures ScanName(s, i) == Scan(UpperCase(w), i + |blanks| + |w|)
  {
    SplitThree(s, i, blanks, w, rest);
    SkipWhiteOf(s, i, blanks, w + rest);
    SpanOf(s, i + |blanks|, IsNameChar, w, rest);
    ScanNameAt(s, i, i + |blanks|, w);
  }

  lemma {:induction false} ScanNameAt(s: string, i: nat, j: nat, w: string)
    requires i <= j && j + |w| <= |s| && SkipWhite(s, i) == j
    requires Span(s, j, IsNameChar) == j + |w| && s[j..j + |w|] == w
    ensures ScanName(s, i) == Scan(UpperCase(w), j + |w|)
  {
  }

  /** ScanNumber in radix 10: skip white space, then take the longest run of
      digits; when there is none the result is empty and the position is
      left after the white space. */
  function ScanNumber(s: string, i: nat): (r: Scan)
    requires i <= |s|
    ensures i <= r.next <= |s| && |r.text| <= r.next - i
    ensures r.text == s[r.next - |r.text|..(r.next)] && AllDigits(r.text)
    ensures forall k | i <= k < r.next - |r.text| :: IsSpace(s[k])
    ensures r.next == |s| || !IsDigit(s[r.next])
  {
    var j := SkipWhite(s, i);
    var e := RunEnd(s, j, false);
    var text := s[j..e];
    SkipWhiteAll(s, i);
    RunEndDigits(s, j, false);
    Scan(text, e)
  }
}
