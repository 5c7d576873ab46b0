/** The command aliases of CCmdAliases (CommandParser.cpp): a table from
    alias names, always kept in upper case, to the command lines they stand
    for. An alias is expanded only when its name is the whole command. */
module Aliases {
  import opened Chars
  import opened Scanners
  import opened SafeStrings

  type Table = map<string, string>

  /** Every name in the table is stored folded to upper case. */
  predicate Folded(t: Table)
  {
    forall name | name in t :: UpperCase(name) == name
  }

  /** IsDefined: the upper-cased name is in the table. */
  predicate IsDefined(t: Table, name: string)
  {
    UpperCase(name) in t
  }

  /** GetDefinition: the substitution, or the empty string for a name that
      is not an alias. */
  function GetDefinition(t: Table, name: string): (r: string)
    ensures IsDefined(t, name) ==> r == t[UpperCase(name)]
    ensures !IsDefined(t, name) ==> r == []
  {
    if UpperCase(name) in t then t[UpperCase(name)] else []
  }

  /** Names are told apart only up to case. */
  lemma {:induction false} CaseInsensitive(t: Table, name: string)
    ensures IsDefined(t, name) <==> IsDefined(t, UpperCase(name))
    ensures GetDefinition(t, name) == GetDefinition(t, UpperCase(name))
  {
    UpperCaseIdempotent(name);
  }

  /** Define(sAlias, sSubstitution, fRedefine): an existing alias is kept
      and false returned unless redefinition is allowed; otherwise the
      alias is (re)defined and true returned. */
  function Define(t: Table, name: string, subst: string, redefine: bool): (r: (bool, Table))
    ensures r.0 <==> redefine || !IsDefined(t, name)
    ensures !r.0 ==> r.1 == t
    ensures r.0 ==> UpperCase(name) in r.1 && r.1[UpperCase(name)] == subst
    ensures r.0 ==> forall other | other in t && other != UpperCase(name) :: other in r.1 && r.1[other] == t[other]
    ensures r.0 ==> r.1.Keys == t.Keys + {UpperCase(name)}
    ensures Folded(t) ==> Folded(r.1)
  {
    var key := UpperCase(name);
    if key in t && !redefine then (false, t)
    else
      UpperCaseIdempotent(name);
      (true, t[key := subst])
  }

  /** Undefine(sAlias): false when the name is not an alias; otherwise the
      alias is removed and true returned. */
  function Undefine(t: Table, name: string): (r: (bool, Table))
    ensures r.0 <==> IsDefined(t, name)
    ensures r.1 == t - {UpperCase(name)}
    ensures Folded(t) ==> Folded(r.1)
    ensures !IsDefined(r.1, name)
  {
    var key := UpperCase(name);
    if key !in t then (false, t) else (true, t - {key})
  }

  /** Once defined, a name's definition is what was given, whatever case
      it is later looked up in. */
  lemma {:induction false} DefineThenGet(t: Table, name: string, lookup: string, subst: string, redefine: bool)
    requires Define(t, name, subst, redefine).0 && UpperCase(lookup) == UpperCase(name)
    ensures GetDefinition(Define(t, name, subst, redefine).1, lookup) == subst
  {
  }

  /** Defining a new alias and then undefining it leaves the table as it
      was. */
  lemma {:induction false} DefineUndefine(t: Table, name: string, subst: string, redefine: bool)
    requires !IsDefined(t, name)
    ensures var d := Define(t, name, subst, redefine);
            d.0 && Undefine(d.1, name) == (true, t)
  {
    var d := Define(t, name, subst, redefine);
    assert d.1 - {UpperCase(name)} == t;
  }

  /** Expand(pszCommand, cbCommand) on the whole buffer: when the first
      name on the line is not an alias nothing happens and false is
      returned. When more follows the alias, the buffer is cleared to
      make a null command; otherwise the definition is copied over the
      buffer with strcpy_s. Both return true. */
  function Expand(t: Table, buffer: seq<char>): (r: (bool, seq<char>))
    requires |buffer| > 0
    ensures |r.1| == |buffer|
    ensures var line := CString(buffer);
            var name := ScanName(line, 0).text;
            r.0 <==> name != [] && IsDefined(t, name)
    ensures !r.0 ==> r.1 == buffer
    ensures var line := CString(buffer);
            var name := ScanName(line, 0);
            r.0 && SkipWhite(line, name.next) < |line| ==> forall k | 0 <= k < |r.1| :: r.1[k] == NUL
    ensures var line := CString(buffer);
            var name := ScanName(line, 0);
            r.0 && SkipWhite(line, name.next) == |line| ==> r.1 == Strcpy(buffer, GetDefinition(t, name.text)).0
  {
    var line := CString(buffer);
    var name := ScanName(line, 0);
    if name.text == [] || !IsDefined(t, name.text) then (false, buffer)
    else if SkipWhite(line, name.next) < |line| then (true, seq(|buffer|, k => NUL))
    else (true, Strcpy(buffer, GetDefinition(t, name.text)).0)
  }

  /** A line holding only an alias (in any case, between blanks) becomes
      the alias's definition, when the definition fits the buffer. */
  lemma {:induction false} ExpandAlias(t: Table, lead: string, name: string, trail: string, tail: seq<char>, buffer: seq<char>)
    requires AllSpace(lead) && AllSpace(trail) && NUL !in lead + name + trail
    requires name != [] && (forall k | 0 <= k < |name| :: IsNameChar(name[k])) && IsDefined(t, name)
    requires buffer == lead + name + trail + [NUL] + tail
    requires NUL !in t[UpperCase(name)] && |t[UpperCase(name)]| < |buffer|
    ensures Expand(t, buffer).0 && CString(Expand(t, buffer).1) == t[UpperCase(name)]
  {
    CStringOfTerminated(lead + name + trail, tail);
    AliasLine(lead, name, trail);
    UpperCaseIdempotent(name);
    ExpandFits(t, buffer, UpperCase(name));
  }

  /** Where the scans stop on a line holding one name between blanks. */
  lemma {:induction false} AliasLine(lead: string, name: string, trail: string)
    requires AllSpace(lead) && AllSpace(trail)
    requires name != [] && forall k | 0 <= k < |name| :: IsNameChar(name[k])
    ensures var line := lead + name + trail;
            ScanName(line, 0) == Scan(UpperCase(name), |lead| + |name|) &&
            SkipWhite(line, |lead| + |name|) == |line|
  {
    var line := lead + name + trail;
    assert line[0..] == lead + name + trail;
    if trail != [] {
      assert IsSpace(trail[0]);
    }
    ScanNameOf(line, 0, lead, name, trail);
    var next := |lead| + |name|;
    assert line[next..] == trail + [];
    SkipWhiteOf(line, next, trail, []);
  }

  lemma {:induction false} ExpandFits(t: Table, buffer: seq<char>, key: string)
    requires |buffer| > 0 && key != [] && key in t && UpperCase(key) == key
    requires ScanName(CString(buffer), 0).text == key
    requires SkipWhite(CString(buffer), ScanName(CString(buffer), 0).next) == |CString(buffer)|
    requires NUL !in t[key] && |t[key]| < |buffer|
    ensures Expand(t, buffer).0 && CString(Expand(t, buffer).1) == t[key]
  {
    var def := t[key];
    assert GetDefinition(t, key) == def;
    StrlenOfString(def);
    StrcpyFits(buffer, def);
    assert CString(def) == def[..|def|] == def;
  }

  /** An alias followed by anything else clears the line: the command
      becomes empty. */
  lemma {:induction false} ExpandWithArguments(t: Table, name: string, more: string, tail: seq<char>, buffer: seq<char>)
    requires name != [] && (forall k | 0 <= k < |name| :: IsNameChar(name[k])) && IsDefined(t, name)
    requires more != [] && !IsNameChar(more[0]) && !IsSpace(more[0]) && NUL !in name + more
    requires buffer == name + more + [NUL] + tail
    ensures Expand(t, buffer).0 && CString(Expand(t, buffer).1) == []
  {
    CStringOfTerminated(name + more, tail);
    ArgumentLine(name, more);
    UpperCaseIdempotent(name);
    ExpandCleared(t, buffer);
  }

  /** Where the scans stop on a line holding a name and more. */
  lemma {:induction false} ArgumentLine(name: string, more: string)
    requires name != [] && (forall k | 0 <= k < |name| :: IsNameChar(name[k]))
    requires more != [] && !IsNameChar(more[0]) && !IsSpace(more[0])
    ensures var line := name + more;
            ScanName(line, 0) == Scan(UpperCase(name), |name|) && SkipWhite(line, |name|) < |line|
  {
    var line := name + more;
    assert line[0..] == [] + name + more;
    ScanNameOf(line, 0, [], name, more);
    assert line[|name|..] == [] + more;
    SkipWhiteOf(line, |name|, [], more);
  }

  lemma {:induction false} ExpandCleared(t: Table, buffer: seq<char>)
    requires |buffer| > 0
    requires var name := ScanName(CString(buffer), 0);
             name.text != [] && IsDefined(t, name.text) && SkipWhite(CString(buffer), name.next) < |CString(buffer)|
    ensures Expand(t, buffer).0 && CString(Expand(t, buffer).1) == []
  {
    var r := Expand(t, buffer).1;
    assert r[0] == NUL;
    StrlenIs(r, 0);
  }
}
