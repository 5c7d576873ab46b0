/** CCmdArgKeyword::Match and Search: case-insensitive keyword matching
    with abbreviations. A '*' in a keyword marks where the optional part
    begins: "ex*amine" accepts EX, EXA, ..., EXAMINE. */
module Keywords {
  import opened Results
  import opened Chars

  predicate SameLetter(a: char, b: char)
  {
    ToLower(a) == ToLower(b)
  }

  /** The walk of Match over what is left of the token and of the keyword;
      `star` records that a '*' has been passed, so that running out of
      token from then on is a match. */
  function MatchRest(token: string, key: string, star: bool): bool
    decreases |key|
  {
    if key == [] then token == []
    else if key[0] == '*' then MatchRest(token, key[1..], true)
    else if token != [] && SameLetter(token[0], key[0]) then MatchRest(token[1..], key[1..], star)
    else star && token == []
  }

  /** The keyword with its '*' marks removed: the longest spelling. */
  function Unstarred(key: string): (r: string)
    ensures '*' !in r && |r| <= |key|
    ensures '*' !in key ==> r == key
    decreases |key|
  {
    if key == [] then []
    else if key[0] == '*' then Unstarred(key[1..])
    else [key[0]] + Unstarred(key[1..])
  }

  /** The number of characters before the first '*' (all of them when there
      is none): the shortest abbreviation allowed. */
  function Required(key: string): (n: nat)
    ensures n <= |key|
    ensures '*' in key ==> n < |key| && key[n] == '*' && '*' !in key[..(n)]
    ensures '*' !in key ==> n == |key|
    decreases |key|
  {
    if key == [] then 0
    else if key[0] == '*' then 0
    else
      var n := Required(key[1..]);
      assert key[..n + 1] == [key[0]] + key[1..][..n];
      1 + n
  }

  /** `token` spells the start of `full`, ignoring case. */
  predicate PrefixIgnoringCase(token: string, full: string)
  {
    |token| <= |full| && forall k | 0 <= k < |token| :: SameLetter(token[k], full[k])
  }

  /** What Match accepts: a case-insensitive prefix of the keyword's longest
      spelling, at least as long as the part before the '*'; without a '*',
      the keyword itself. */
  predicate Abbreviates(token: string, key: string)
  {
    PrefixIgnoringCase(token, Unstarred(key)) &&
    if '*' in key then |token| >= Required(key) else |token| == |key|
  }

  /** Match(pszToken, pszKey): false when either is null. */
  function Match(token: Option<string>, key: Option<string>): (r: bool)
    ensures r ==> token.Some? && key.Some?
    ensures token.Some? && key.Some? ==> (r <==> Abbreviates(token.value, key.value))
  {
    if token.None? || key.None? then false
    else
      MatchRestMeaning(token.value, key.value, false);
      MatchRest(token.value, key.value, false)
  }

  /** The walk from any point: the rest of the token must spell the start of
      the rest of the keyword, and be long enough unless a '*' was passed. */
  lemma {:induction false} MatchRestMeaning(token: string, key: string, star: bool)
    ensures MatchRest(token, key, star) <==>
              PrefixIgnoringCase(token, Unstarred(key)) &&
              (star || if '*' in key then |token| >= Required(key) else |token| == |key|)
    decreases |key|
  {
    if key == [] {
    } else if key[0] == '*' {
      MatchRestMeaning(token, key[1..], true);
    } else {
      var u := Unstarred(key);
      assert u == [key[0]] + Unstarred(key[1..]);
      assert '*' in key <==> '*' in key[1..];
      if token != [] && SameLetter(token[0], key[0]) {
        MatchRestMeaning(token[1..], key[1..], star);
        PrefixStep(token, u);
      } else if token != [] {
        assert !PrefixIgnoringCase(token, u);
      }
    }
  }

  lemma {:induction false} PrefixStep(token: string, full: string)
    requires token != [] && full != [] && SameLetter(token[0], full[0])
    ensures PrefixIgnoringCase(token, full) <==> PrefixIgnoringCase(token[1..], full[1..])
  {
    if PrefixIgnoringCase(token[1..], full[1..]) {
      forall k | 0 <= k < |token| ensures SameLetter(token[k], full[k]) {
        if k > 0 {
          assert token[k] == token[1..][k - 1] && full[k] == full[1..][k - 1];
        }
      }
    }
  }

  /** The examples given with Match, against "ex*amine": E is too short. */
  lemma {:induction false} MatchTooShort()
    ensures !Match(Some("E"), Some("ex*amine"))
  {
    assert MatchRest("E", "ex*amine", false) == MatchRest("", "x*amine", false);
  }

  /** EX, the part before the '*', is enough. */
  lemma {:induction false} MatchShortest()
    ensures Match(Some("EX"), Some("ex*amine"))
  {
    assert MatchRest("EX", "ex*amine", false) == MatchRest("X", "x*amine", false);
    assert MatchRest("X", "x*amine", false) == MatchRest("", "*amine", false);
    assert MatchRest("", "*amine", false) == MatchRest("", "amine", true);
  }

  /** EXAM abbreviates the rest. */
  lemma {:induction false} MatchAbbreviation()
    ensures Match(Some("EXAM"), Some("ex*amine"))
  {
    assert MatchRest("EXAM", "ex*amine", false) == MatchRest("XAM", "x*amine", false);
    assert MatchRest("XAM", "x*amine", false) == MatchRest("AM", "*amine", false);
    assert MatchRest("AM", "*amine", false) == MatchRest("AM", "amine", true);
    assert MatchRest("AM", "amine", true) == MatchRest("M", "mine", true);
    assert MatchRest("M", "mine", true) == MatchRest("", "ine", true);
  }

  /** EXIT does not spell the rest. */
  lemma {:induction false} MatchMisspelt()
    ensures !Match(Some("EXIT"), Some("ex*amine"))
  {
    assert MatchRest("EXIT", "ex*amine", false) == MatchRest("XIT", "x*amine", false);
    assert MatchRest("XIT", "x*amine", false) == MatchRest("IT", "*amine", false);
    assert MatchRest("IT", "*amine", false) == MatchRest("IT", "amine", true);
    assert !SameLetter('I', 'a');
  }

  /** A keyword without '*' is matched only by itself, ignoring case. */
  lemma {:induction false} ExactKeyword(token: string, key: string)
    requires '*' !in key
    ensures Match(Some(token), Some(key)) <==>
              |token| == |key| && forall k | 0 <= k < |key| :: SameLetter(token[k], key[k])
  {
  }

  /** Search(pszToken, paKeys): the index of the first keyword the token
      matches, or -1 when it matches none. */
  function Search(token: string, keys: seq<string>): (r: int)
    ensures -1 <= r < |keys|
    ensures r >= 0 ==> Match(Some(token), Some(keys[r])) &&
                       forall j | 0 <= j < r :: !Match(Some(token), Some(keys[j]))
    ensures r == -1 <==> forall j | 0 <= j < |keys| :: !Match(Some(token), Some(keys[j]))
  {
    SearchFrom(token, keys, 0)
  }

  function SearchFrom(token: string, keys: seq<string>, i: nat): (r: int)
    requires i <= |keys|
    ensures r == -1 || i <= r < |keys|
    ensures r >= 0 ==> Match(Some(token), Some(keys[r])) &&
                       forall j | i <= j < r :: !Match(Some(token), Some(keys[j]))
    ensures r == -1 <==> forall j | i <= j < |keys| :: !Match(Some(token), Some(keys[j]))
    decreases |keys| - i
  {
    if i == |keys| then -1
    else if Match(Some(token), Some(keys[i])) then i
    else SearchFrom(token, keys, i + 1)
  }
}
