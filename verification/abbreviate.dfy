/** CStandardUI::Abbreviate: shorten a string to at most `nMax` characters
    by replacing its middle with "...". */
module StandardUI {

  const ELLIPSIS: string := "..."

  /** The number of leading characters an abbreviation keeps. */
  function KeptHead(nMax: nat): nat
    requires nMax > 4
  {
    nMax / 2 - 2
  }

  /** Abbreviate(str, nMax): a string of at most `nMax` characters is
      returned as it is; a longer one becomes exactly `nMax` characters, its
      first nMax/2-2 characters, "...", and as many of its last characters
      as fill the rest. */
  function Abbreviate(str: string, nMax: nat): (r: string)
    requires nMax > 4
    ensures |str| <= nMax ==> r == str
    ensures |str| > nMax ==>
              var k := KeptHead(nMax);
              |r| == nMax &&
              r[..k] == str[..k] &&
              r[k..k + 3] == ELLIPSIS &&
              r[k + 3..] == str[|str| - (nMax - k - 3)..]
  {
    if |str| <= nMax then str
    else
      var chop := |str| - nMax + 3;
      var k := KeptHead(nMax);
      str[..k] + ELLIPSIS + str[k + chop..]
  }

  /** An abbreviation is never longer than the limit, and abbreviating it
      again changes nothing. */
  lemma {:induction false} AbbreviateIdempotent(str: string, nMax: nat)
    requires nMax > 4
    ensures |Abbreviate(str, nMax)| <= nMax
    ensures Abbreviate(Abbreviate(str, nMax), nMax) == Abbreviate(str, nMax)
  {
  }

  /** A shortened string is made of a prefix and a suffix of the original
      around the ellipsis, together three characters short of the limit,
      with the suffix at least as long as the prefix. */
  lemma {:induction false} AbbreviateKeepsEnds(str: string, nMax: nat)
    requires nMax > 4 && |str| > nMax
    ensures exists head, tail ::
              Abbreviate(str, nMax) == head + ELLIPSIS + tail &&
              |head| + |tail| + 3 == nMax && |head| <= |tail| &&
              str[..|head|] == head && str[|str| - |tail|..] == tail
  {
    var r := Abbreviate(str, nMax);
    var k := KeptHead(nMax);
    var head := str[..k];
    var tail := str[|str| - (nMax - k - 3)..];
    assert r[..k] == head && r[k..k + 3] == ELLIPSIS && r[k + 3..] == tail;
    assert r == r[..k] + r[k..k + 3] + r[k + 3..];
    assert r == head + ELLIPSIS + tail;
    assert |head| + |tail| + 3 == nMax && |head| <= |tail|;
    assert str[..|head|] == head && str[|str| - |tail|..] == tail;
  }

  /** With the smallest limit, five, no leading character survives: the
      result is the ellipsis and the last two characters. */
  lemma {:induction false} AbbreviateFive(str: string)
    requires |str| > 5
    ensures Abbreviate(str, 5) == ELLIPSIS + str[|str| - 2..]
  {
    var r := Abbreviate(str, 5);
    assert r == r[..0] + r[0..3] + r[3..];
  }
}
