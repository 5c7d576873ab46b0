/** The bounded string copy and concatenation of SafeCRT.c (strcpy_s and
    strcat_s as the library supplies them where the C runtime lacks them).

    A destination is its whole buffer, `cbDst` characters long; a C string
    is the buffer's contents up to the first NUL (or the whole buffer when
    there is none). */
module SafeStrings {

  const NUL: char := '\0'

  /** The two results the routines return: 0, or STRUNCATE (ERANGE) when
      characters had to be dropped. */
  datatype Status = Ok | Truncated

  /** strlen, stopping at the end of the buffer when it holds no NUL. */
  function Strlen(s: seq<char>): (n: nat)
    ensures n <= |s|
    ensures forall i | 0 <= i < n :: s[i] != NUL
    ensures n < |s| ==> s[n] == NUL
  {
    NulFrom(s, 0)
  }

  /** The index of the first NUL at or after `i`, or |s|. */
  function NulFrom(s: seq<char>, i: nat): (n: nat)
    requires i <= |s|
    ensures i <= n <= |s|
    ensures forall k | i <= k < n :: s[k] != NUL
    ensures n < |s| ==> s[n] == NUL
    decreases |s| - i
  {
    if i == |s| || s[i] == NUL then i else NulFrom(s, i + 1)
  }

  /** The C string a buffer holds. */
  function CString(s: seq<char>): (t: string)
    ensures NUL !in t
  {
    s[..Strlen(s)]
  }

  /** strlen is the index of the first NUL. */
  lemma {:induction false} StrlenIs(s: seq<char>, k: nat)
    requires k < |s| && s[k] == NUL
    requires forall i | 0 <= i < k :: s[i] != NUL
    ensures Strlen(s) == k
  {
  }

  /** A string without NUL, followed by a NUL, reads back as itself. */
  lemma {:induction false} CStringOfTerminated(t: string, rest: seq<char>)
    requires NUL !in t
    ensures CString(t + [NUL] + rest) == t
  {
    var s := t + [NUL] + rest;
    StrlenIs(s, |t|);
    assert s[..|t|] == t;
  }

  /** strcpy_s(pszDst, cbDst, pszSrc): copy as much of the source string as
      fits in front of a terminating NUL, leave the rest of the buffer
      alone, and report whether anything was dropped. */
  function Strcpy(dst: seq<char>, src: seq<char>): (r: (seq<char>, Status))
    requires |dst| > 0
    ensures var n := Strlen(src);
            var copied := if n < |dst| then n else |dst| - 1;
            |r.0| == |dst| &&
            r.0[..copied] == src[..copied] && r.0[copied] == NUL &&
            CString(r.0) == CString(src)[..copied] &&
            r.0[copied + 1..] == dst[copied + 1..] &&
            (r.1 == Truncated <==> copied < n)
  {
    var n := Strlen(src);
    var copied := if n < |dst| then n else |dst| - 1;
    var buf := src[..copied] + [NUL] + dst[copied + 1..];
    CStringOfTerminated(src[..copied], dst[copied + 1..]);
    (buf, if copied < n then Truncated else Ok)
  }

  /** A source that fits is copied whole. */
  lemma {:induction false} StrcpyFits(dst: seq<char>, src: seq<char>)
    requires |dst| > 0 && Strlen(src) < |dst|
    ensures Strcpy(dst, src).1 == Ok && CString(Strcpy(dst, src).0) == CString(src)
  {
  }

  /** strcat_s(pszDst, cbDst, pszSrc): when the destination string already
      fills the buffer nothing changes and STRUNCATE is returned; otherwise
      strcpy_s into the free space after the destination string. */
  function Strcat(dst: seq<char>, src: seq<char>): (r: (seq<char>, Status))
    requires |dst| > 0
    ensures Strlen(dst) + 1 >= |dst| ==> r == (dst, Truncated)
    ensures |r.0| == |dst|
    ensures Strlen(dst) + 1 < |dst| ==>
              var room := |dst| - Strlen(dst) - 1;
              var added := if Strlen(src) <= room then Strlen(src) else room;
              CString(r.0) == CString(dst) + CString(src)[..added] &&
              (r.1 == Truncated <==> added < Strlen(src))
  {
    var len := Strlen(dst);
    if len + 1 >= |dst| then (dst, Truncated)
    else
      var tail := Strcpy(dst[len..], src);
      var room := |dst| - len - 1;
      var added := if Strlen(src) <= room then Strlen(src) else room;
      assert CString(src)[..added] == src[..added];
      StrcatString(dst, len, src[..added], tail.0);
      (dst[..len] + tail.0, tail.1)
  }

  /** The destination string, then a NUL-free copy closed by a NUL, reads
      back as the two joined. */
  lemma {:induction false} StrcatString(dst: seq<char>, len: nat, copied: string, tail: seq<char>)
    requires len == Strlen(dst) && len < |dst|
    requires NUL !in copied
    requires |copied| < |tail| && tail[..|copied|] == copied && tail[|copied|] == NUL
    ensures CString(dst[..len] + tail) == CString(dst) + copied
  {
    var buf := dst[..len] + tail;
    var k := |copied|;
    forall i | 0 <= i < len + k ensures buf[i] != NUL {
      if i >= len {
        assert buf[i] == tail[i - len] == copied[i - len];
      }
    }
    StrlenIs(buf, len + k);
    assert buf[..len + k] == dst[..len] + copied;
  }

  /** Concatenating is copying the joined strings: strcat_s leaves the same
      string, with the same status, as strcpy_s of the destination string
      followed by the source string. */
  lemma {:induction false} StrcatIsCopyOfJoin(dst: seq<char>, src: seq<char>)
    requires |dst| > 0 && Strlen(dst) + 1 < |dst|
    ensures var joined := CString(dst) + CString(src);
            CString(Strcat(dst, src).0) == CString(Strcpy(dst, joined).0) &&
            Strcat(dst, src).1 == Strcpy(dst, joined).1
  {
    var len := Strlen(dst);
    var added := if Strlen(src) <= |dst| - len - 1 then Strlen(src) else |dst| - len - 1;
    CopyOfJoin(dst, src, len, added);
    StrcatOf(dst, src, len, added);
    PrefixOfJoin(CString(dst), CString(src), added);
  }

  lemma {:induction false} StrcatOf(dst: seq<char>, src: seq<char>, len: nat, added: nat)
    requires |dst| > 0 && len == Strlen(dst) && len + 1 < |dst|
    requires added == if Strlen(src) <= |dst| - len - 1 then Strlen(src) else |dst| - len - 1
    ensures var t := Strcat(dst, src);
            CString(t.0) == CString(dst) + CString(src)[..added] &&
            (t.1 == Truncated <==> added < Strlen(src))
  {
  }

  /** What strcpy_s leaves when given the joined strings. */
  lemma {:induction false} CopyOfJoin(dst: seq<char>, src: seq<char>, len: nat, added: nat)
    requires |dst| > 0 && len == Strlen(dst) && len + 1 < |dst|
    requires added == if Strlen(src) <= |dst| - len - 1 then Strlen(src) else |dst| - len - 1
    ensures var c := Strcpy(dst, CString(dst) + CString(src));
            CString(c.0) == (CString(dst) + CString(src))[..len + added] &&
            (c.1 == Truncated <==> added < Strlen(src))
  {
    JoinedLength(dst, src);
  }

  lemma {:induction false} JoinedLength(dst: seq<char>, src: seq<char>)
    ensures Strlen(CString(dst) + CString(src)) == Strlen(dst) + Strlen(src)
    ensures CString(CString(dst) + CString(src)) == CString(dst) + CString(src)
  {
    var joined := CString(dst) + CString(src);
    assert NUL !in joined;
    StrlenOfString(joined);
  }

  lemma {:induction false} PrefixOfJoin(a: string, b: string, k: nat)
    requires k <= |b|
    ensures (a + b)[..|a| + k] == a + b[..k]
  {
  }

  /** A string without NUL has its own length as strlen. */
  lemma {:induction false} StrlenOfString(t: string)
    requires NUL !in t
    ensures Strlen(t) == |t|
  {
  }
}
