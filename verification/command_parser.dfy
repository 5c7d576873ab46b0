/** CCmdParser (CommandParser.cpp and CommandParser.hpp): the verb table,
    the alias table and the script nesting of one command interpreter, and
    the members that work on them without reading the console or a file. */
module CommandParser {
  import opened Results
  import opened Chars
  import opened Keywords
  import opened Scanners
  import opened SafeStrings
  import opened CommandVerbs
  import Aliases

  /** The longest command line, and the deepest script nesting. */
  const MAXCMD: nat := 256
  const MAXDEPTH: nat := 10

  /** An open script: its name and the number of the line last read. */
  datatype Script = Script(name: string, line: nat)

  /** The parser's state: its prompt, its verbs, its aliases (kept in upper
      case), and the scripts open, innermost last. */
  datatype Parser = Parser(prompt: string, verbs: Table, aliases: Aliases.Table, scripts: seq<Script>)
  {
    /** The nesting never goes deeper than MAXDEPTH. */
    ghost predicate Valid()
    {
      |scripts| <= MAXDEPTH && Aliases.Folded(aliases)
    }
  }

  /** GetPrompt(): the prompt with '>' after it. */
  function GetPrompt(p: Parser): (r: string)
    ensures |r| == |p.prompt| + 1 && r[..|p.prompt|] == p.prompt && r[|p.prompt|] == '>'
  {
    p.prompt + ">"
  }

  /** InScript(): commands come from a script when at least one is open. */
  predicate InScript(p: Parser)
  {
    |p.scripts| > 0
  }

  /** GetScriptName() and GetScriptLine(): those of the innermost script,
      or the empty name and line 0 at the console. */
  function GetScriptName(p: Parser): (r: string)
    ensures InScript(p) ==> r == p.scripts[|p.scripts| - 1].name
    ensures !InScript(p) ==> r == []
  {
    if InScript(p) then p.scripts[|p.scripts| - 1].name else []
  }

  function GetScriptLine(p: Parser): (r: nat)
    ensures InScript(p) ==> r == p.scripts[|p.scripts| - 1].line
    ensures !InScript(p) ==> r == 0
  {
    if InScript(p) then p.scripts[|p.scripts| - 1].line else 0
  }

  /** DefineAlias(sAlias, sSubstitution): a name that any verb would
      accept (the verb's name or an abbreviation of it) cannot become an
      alias; any other name is defined, replacing an earlier alias of the
      same name. */
  function DefineAlias(p: Parser, name: string, subst: string): (r: (bool, Parser))
    ensures r.0 <==> forall k | 0 <= k < |p.verbs.verbs| :: !Match(Some(name), Some(p.verbs.verbs[k].name))
    ensures !r.0 ==> r.1 == p
    ensures r.0 ==> r.1 == p.(aliases := r.1.aliases) && Aliases.GetDefinition(r.1.aliases, name) == subst
    ensures r.0 ==> forall other | other in p.aliases && other != UpperCase(name) ::
                      other in r.1.aliases && r.1.aliases[other] == p.aliases[other]
    ensures p.Valid() ==> r.1.Valid()
  {
    if SearchVerb(name, p.verbs).Some? then (false, p)
    else
      var d := Aliases.Define(p.aliases, name, subst, true);
      (d.0, p.(aliases := d.1))
  }

  /** UndefineAlias(sAlias): false for a name that is not an alias. */
  function UndefineAlias(p: Parser, name: string): (r: (bool, Parser))
    ensures r.0 <==> Aliases.IsDefined(p.aliases, name)
    ensures r.1 == p.(aliases := p.aliases - {UpperCase(name)})
    ensures p.Valid() ==> r.1.Valid()
  {
    var u := Aliases.Undefine(p.aliases, name);
    (u.0, p.(aliases := u.1))
  }

  /** An alias defined through the parser expands, on a line holding just
      its name, to its definition. */
  lemma {:induction false} DefinedAliasExpands(p: Parser, name: string, subst: string, tail: seq<char>, buffer: seq<char>)
    requires DefineAlias(p, name, subst).0
    requires name != [] && (forall k | 0 <= k < |name| :: IsNameChar(name[k])) && NUL !in name
    requires buffer == name + [NUL] + tail
    requires NUL !in subst && |subst| < |buffer|
    ensures var q := DefineAlias(p, name, subst).1;
            Aliases.Expand(q.aliases, buffer).0 && CString(Aliases.Expand(q.aliases, buffer).1) == subst
  {
    var q := DefineAlias(p, name, subst).1;
    assert Aliases.IsDefined(q.aliases, name) && q.aliases[UpperCase(name)] == subst;
    assert buffer == [] + name + [] + [NUL] + tail;
    Aliases.ExpandAlias(q.aliases, [], name, [], tail, buffer);
  }
}
