/** CCommandLine: a getopt()-style parser for a program's argv.

    Options are single characters after a prefix character ('-' or '/' by
    default). In the list of valid options a character followed by ':'
    needs a value and one followed by '+' may take one. Everything else on
    the command line is an argument.

    The class declaration (CommandLine.hpp) is not part of this model; its
    inline helpers are modelled as their use implies: FixCase lowers an
    option character unless matching is case sensitive, AddOption stores a
    value under the option (a later occurrence replacing an earlier one),
    IsOptionPrefix tests membership in the prefix list, and IsOptionPresent
    looks the case-fixed character up among the options. */
module CommandLine {
  import opened Results
  import opened Chars

  datatype OptionType = Illegal | NoValue | ValueRequired | ValueOptional

  /** The constructor's parameters. */
  datatype Config = Config(validOptions: string, minArgs: nat, maxArgs: nat, caseSensitive: bool, prefixes: string)

  /** The parsed command line: option values and the arguments in order. */
  datatype CommandLine = CommandLine(options: map<char, string>, arguments: seq<string>)

  /** The outcome of Parse: its result and what the object then holds. */
  datatype Parsed = Parsed(ok: bool, line: CommandLine)

  const EMPTY: CommandLine := CommandLine(map[], [])

  function FixCase(cfg: Config, ch: char): char
  {
    if cfg.caseSensitive then ch else ToLower(ch)
  }

  /** The index of the first occurrence of `ch` in `s`, if any. */
  function Find(s: string, ch: char): (r: Option<nat>)
    ensures r.None? <==> ch !in s
    ensures r.Some? ==> r.value < |s| && s[r.value] == ch && ch !in s[..(r.value)]
  {
    if s == [] then None
    else if s[0] == ch then Some(0)
    else
      match Find(s[1..], ch)
      case None => None
      case Some(i) =>
        assert s[..i + 1] == [s[0]] + s[1..][..i];
        Some(i + 1)
  }

  /** GetOptionType(ch): where the case-fixed character first occurs in the
      valid list, and what follows it there. */
  function GetOptionType(cfg: Config, ch: char): (t: OptionType)
    ensures t == Illegal <==> FixCase(cfg, ch) !in cfg.validOptions
  {
    var vo := cfg.validOptions;
    if |vo| == 0 then Illegal
    else
      match Find(vo, FixCase(cfg, ch))
      case None => Illegal
      case Some(p) =>
        if p >= |vo| - 1 then NoValue
        else if vo[p + 1] == ':' then ValueRequired
        else if vo[p + 1] == '+' then ValueOptional
        else NoValue
  }

  /** The option characters declared by a valid-option list that is a
      sequence of distinct characters, each optionally followed by ':' or
      '+', get the type their suffix declares. */
  lemma {:induction false} DeclaredTypes(cfg: Config, before: string, op: char, suffix: string, after: string)
    requires cfg.validOptions == before + [op] + suffix + after
    requires op !in before && suffix in {"", ":", "+"}
    requires suffix == "" ==> after == [] || after[0] !in {':', '+'}
    requires FixCase(cfg, op) == op
    ensures suffix == ":" ==> GetOptionType(cfg, op) == ValueRequired
    ensures suffix == "+" ==> GetOptionType(cfg, op) == ValueOptional
    ensures suffix == "" ==> GetOptionType(cfg, op) == NoValue
  {
    var vo := cfg.validOptions;
    var p := |before|;
    assert vo[p] == op && vo[..p] == before;
    assert Find(vo, op) == Some(p);
    if suffix != "" {
      assert vo[p + 1] == suffix[0];
    } else if after != [] {
      assert vo[p + 1] == after[0];
    }
  }

  /** ParseValue: the value written in the same element as the option
      ("-ofoo", "-o=foo" or "-o:foo"); none when the element is just the
      prefix and the option character. */
  function ParseValue(arg: string): (r: Option<string>)
    ensures r.None? <==> |arg| <= 2
    ensures r.Some? ==> arg[2] in {':', '='} ==> r.value == arg[3..]
    ensures r.Some? ==> arg[2] !in {':', '='} ==> r.value == arg[2..]
  {
    if |arg| <= 2 then None
    else if arg[2] == ':' || arg[2] == '=' then Some(arg[3..])
    else Some(arg[2..])
  }

  function AddOption(cl: CommandLine, op: char, value: string): (r: CommandLine)
    ensures r.options == cl.options[op := value] && r.arguments == cl.arguments
  {
    cl.(options := cl.options[op := value])
  }

  /** ParseOption(narg): the element at `n` is an option. Returns the new
      contents and the index of the next element to look at (one further
      when the value was taken from the next element), or None on a syntax
      error. */
  function ParseOption(cfg: Config, argv: seq<string>, n: nat, cl: CommandLine): (r: Option<(CommandLine, nat)>)
    requires n < |argv| && |argv[n]| > 1
    ensures r.Some? ==> r.value.0.arguments == cl.arguments && n < r.value.1 <= |argv|
    ensures r.Some? ==> var op := FixCase(cfg, argv[n][1]);
                        op in r.value.0.options && r.value.0.options == cl.options[op := r.value.0.options[op]]
    ensures GetOptionType(cfg, argv[n][1]) == Illegal ==> r.None?
    ensures GetOptionType(cfg, argv[n][1]) == NoValue ==> (r.Some? <==> |argv[n]| == 2)
    ensures GetOptionType(cfg, argv[n][1]) == ValueOptional ==> r.Some? && r.value.1 == n + 1
    ensures GetOptionType(cfg, argv[n][1]) == ValueRequired ==>
              (r.None? <==> |argv[n]| == 2 && n + 1 == |argv|) &&
              (r.Some? && |argv[n]| == 2 ==> r.value == (AddOption(cl, FixCase(cfg, argv[n][1]), argv[n + 1]), n + 2))
  {
    var op := FixCase(cfg, argv[n][1]);
    assert FixCase(cfg, op) == op;
    match GetOptionType(cfg, op)
    case ValueOptional => Some((AddOption(cl, op, ParseValue(argv[n]).GetOr("")), n + 1))
    case ValueRequired =>
      (match ParseValue(argv[n])
       case Some(v) => Some((AddOption(cl, op, v), n + 1))
       case None =>
         if n + 1 >= |argv| then None else Some((AddOption(cl, op, argv[n + 1]), n + 2)))
    case NoValue => if |argv[n]| == 2 then Some((AddOption(cl, op, ""), n + 1)) else None
    case Illegal => None
  }

  /** An element is an option when it starts with a prefix character and
      is longer than that one character; a lone "-" is an argument. */
  predicate IsOption(cfg: Config, arg: string)
  {
    |arg| > 1 && arg[0] in cfg.prefixes
  }

  /** The loop of Parse from element `n` on. */
  function ParseFrom(cfg: Config, argv: seq<string>, n: nat, cl: CommandLine): (r: Parsed)
    ensures |cl.arguments| <= |r.line.arguments|
    decreases |argv| - n
  {
    if n >= |argv| then Parsed(true, cl)
    else if IsOption(cfg, argv[n]) then
      match ParseOption(cfg, argv, n, cl)
      case None => Parsed(false, cl)
      case Some(next) => ParseFrom(cfg, argv, next.1, next.0)
    else ParseFrom(cfg, argv, n + 1, cl.(arguments := cl.arguments + [argv[n]]))
  }

  /** Parse(argc, argv): start afresh, skip the program name, read every
      element, then check the argument count. */
  function Parse(cfg: Config, argv: seq<string>): (r: Parsed)
    ensures var loop := ParseFrom(cfg, argv, 1, EMPTY);
            r.line == loop.line &&
            (r.ok <==> loop.ok && cfg.minArgs <= |loop.line.arguments| <= cfg.maxArgs)
  {
    var loop := ParseFrom(cfg, argv, 1, EMPTY);
    if !loop.ok then loop
    else if |loop.line.arguments| < cfg.minArgs then Parsed(false, loop.line)
    else if |loop.line.arguments| > cfg.maxArgs then Parsed(false, loop.line)
    else loop
  }

  predicate IsOptionPresent(cfg: Config, cl: CommandLine, ch: char)
  {
    FixCase(cfg, ch) in cl.options
  }

  /** GetOptionValue: the option's value, or "" when it is absent. */
  function GetOptionValue(cfg: Config, cl: CommandLine, ch: char): (v: string)
    ensures !IsOptionPresent(cfg, cl, ch) ==> v == ""
    ensures IsOptionPresent(cfg, cl, ch) ==> v == cl.options[FixCase(cfg, ch)]
  {
    if FixCase(cfg, ch) in cl.options then cl.options[FixCase(cfg, ch)] else ""
  }

  /** GetArgument: the n'th argument, or "" past the end. */
  function GetArgument(cl: CommandLine, n: nat): (a: string)
    ensures n >= |cl.arguments| ==> a == ""
    ensures n < |cl.arguments| ==> a == cl.arguments[n]
  {
    if n < |cl.arguments| then cl.arguments[n] else ""
  }

  /** The word BuildCommand writes for one present option. */
  function OptionWord(cfg: Config, cl: CommandLine, op: char): string
    requires |cfg.prefixes| > 0
  {
    var value := GetOptionValue(cfg, cl, op);
    [cfg.prefixes[0], op] + (if value != [] then "=" + value else "")
  }

  /** The options BuildCommand writes, in valid-list order, from position
      `i` of the valid list on. */
  function OptionWords(cfg: Config, cl: CommandLine, i: nat): (ws: seq<string>)
    requires |cfg.prefixes| > 0 && i <= |cfg.validOptions|
    decreases |cfg.validOptions| - i
  {
    if i == |cfg.validOptions| then []
    else
      var op := cfg.validOptions[i];
      (if IsOptionPresent(cfg, cl, op) then [OptionWord(cfg, cl, op)] else []) + OptionWords(cfg, cl, i + 1)
  }

  /** The words of the canonical command line: the options, then the
      arguments. */
  function BuildWords(cfg: Config, cl: CommandLine): seq<string>
    requires |cfg.prefixes| > 0
  {
    OptionWords(cfg, cl, 0) + cl.arguments
  }

  /** Append a word, with a separating space unless the text so far is
      empty. */
  function AppendWord(text: string, word: string): string
  {
    if text == [] then word else text + " " + word
  }

  function AppendAll(text: string, words: seq<string>): string
    decreases |words|
  {
    if words == [] then text else AppendAll(AppendWord(text, words[0]), words[1..])
  }

  /** BuildCommand: the canonical command line. */
  function BuildCommand(cfg: Config, cl: CommandLine): string
    requires |cfg.prefixes| > 0
  {
    AppendAll("", BuildWords(cfg, cl))
  }

  /** Words joined by single spaces. */
  function Join(words: seq<string>): string
  {
    if words == [] then "" else if |words| == 1 then words[0] else words[0] + " " + Join(words[1..])
  }

  /** When no word is empty, BuildCommand is the words joined by single
      spaces. */
  lemma {:induction false} BuildCommandJoins(cfg: Config, cl: CommandLine)
    requires |cfg.prefixes| > 0
    requires forall k | 0 <= k < |cl.arguments| :: cl.arguments[k] != []
    ensures BuildCommand(cfg, cl) == Join(BuildWords(cfg, cl))
  {
    var ws := BuildWords(cfg, cl);
    OptionWordsNonEmpty(cfg, cl, 0);
    forall k | 0 <= k < |ws| ensures ws[k] != [] {
      if k >= |OptionWords(cfg, cl, 0)| {
        assert ws[k] == cl.arguments[k - |OptionWords(cfg, cl, 0)|];
      }
    }
    AppendAllJoins(ws);
  }

  lemma {:induction false} OptionWordsNonEmpty(cfg: Config, cl: CommandLine, i: nat)
    requires |cfg.prefixes| > 0 && i <= |cfg.validOptions|
    ensures forall k | 0 <= k < |OptionWords(cfg, cl, i)| :: |OptionWords(cfg, cl, i)[k]| >= 2
    decreases |cfg.validOptions| - i
  {
    if i < |cfg.validOptions| {
      OptionWordsNonEmpty(cfg, cl, i + 1);
    }
  }

  lemma {:induction false} AppendAllJoins(ws: seq<string>)
    requires forall k | 0 <= k < |ws| :: ws[k] != []
    ensures AppendAll("", ws) == Join(ws)
  {
    if ws != [] {
      AppendAllFrom(ws[0], ws[1..]);
    }
  }

  lemma {:induction false} AppendAllFrom(text: string, ws: seq<string>)
    requires text != []
    ensures AppendAll(text, ws) == if ws == [] then text else text + " " + Join(ws)
    decreases |ws|
  {
    if ws != [] {
      AppendAllFrom(text + " " + ws[0], ws[1..]);
      if |ws| > 1 {
        assert text + " " + ws[0] + " " + Join(ws[1..]) == text + " " + (ws[0] + " " + Join(ws[1..]));
      }
    }
  }

  /** A command line BuildCommand can print faithfully: its options are
      case-fixed characters of the valid list whose values fit their types
      (none for NO_VALUE, a non-empty one for VALUE_REQUIRED, since an empty
      one would be written as a bare option that takes the next word), and
      none of its arguments looks like an option. */
  predicate Printable(cfg: Config, cl: CommandLine)
  {
    OptionsPrintable(cfg, cl) &&
    (forall k | 0 <= k < |cl.arguments| :: !IsOption(cfg, cl.arguments[k])) &&
    cfg.minArgs <= |cl.arguments| <= cfg.maxArgs
  }

  /** There is a prefix to write options with, the valid list is
      case-fixed, and every option can be printed. */
  predicate OptionsPrintable(cfg: Config, cl: CommandLine)
  {
    |cfg.prefixes| > 0 &&
    (forall k | 0 <= k < |cfg.validOptions| :: FixCase(cfg, cfg.validOptions[k]) == cfg.validOptions[k]) &&
    forall op: char :: OptionPrintable(cfg, cl, op)
  }

  /** A present option is a case-fixed character of the valid list whose
      value fits its type. */
  predicate OptionPrintable(cfg: Config, cl: CommandLine, op: char)
  {
    op in cl.options ==>
      op in cfg.validOptions && FixCase(cfg, op) == op &&
      (GetOptionType(cfg, op) == NoValue ==> cl.options[op] == []) &&
      (GetOptionType(cfg, op) == ValueRequired ==> cl.options[op] != [])
  }

  /** The options of `cl` whose characters occur in `chars`. */
  function Restrict(options: map<char, string>, chars: string): map<char, string>
  {
    map op | op in options && op in chars :: options[op]
  }

  /** The words `ws` stand in `argv` from element `n` on. */
  predicate WordsAt(argv: seq<string>, n: nat, ws: seq<string>)
  {
    n + |ws| <= |argv| && forall k | 0 <= k < |ws| :: argv[n + k] == ws[k]
  }

  /** Round trip: parsing the canonical words of a printable command line
      (after any program name) gives back exactly that command line. */
  lemma {:induction false} ParseBuildWords(cfg: Config, cl: CommandLine, program: string)
    requires Printable(cfg, cl)
    ensures Parse(cfg, [program] + BuildWords(cfg, cl)) == Parsed(true, cl)
  {
    var ows := OptionWords(cfg, cl, 0);
    var argv := [program] + BuildWords(cfg, cl);
    assert WordsAt(argv, 1, ows);
    assert argv[1 + |ows|..] == cl.arguments;
    ParseWords(cfg, cl, argv);
  }

  /** Parsing any words laid out as the option words and then the
      arguments gives back the command line. */
  lemma {:induction false} ParseWords(cfg: Config, cl: CommandLine, argv: seq<string>)
    requires Printable(cfg, cl)
    requires WordsAt(argv, 1, OptionWords(cfg, cl, 0))
    requires argv[1 + |OptionWords(cfg, cl, 0)|..] == cl.arguments
    ensures Parse(cfg, argv) == Parsed(true, cl)
  {
    var m := 1 + |OptionWords(cfg, cl, 0)|;
    var acc := AddFrom(cfg, cl, 0, EMPTY);
    ParseOptionWords(cfg, cl, argv, 1, 0, EMPTY);
    assert ParseFrom(cfg, argv, 1, EMPTY) == ParseFrom(cfg, argv, m, acc);
    AddAllOptions(cfg, cl);
    ArgumentWords(cfg, argv, m, cl.arguments);
    ParseArguments(cfg, argv, m, acc);
    assert acc.arguments + argv[m..] == cl.arguments;
    assert ParseFrom(cfg, argv, 1, EMPTY) == Parsed(true, cl);
  }

  /** The words from `m` on are the arguments, none of which looks like an
      option. */
  lemma {:induction false} ArgumentWords(cfg: Config, argv: seq<string>, m: nat, args: seq<string>)
    requires m <= |argv| && argv[m..] == args
    requires forall k | 0 <= k < |args| :: !IsOption(cfg, args[k])
    ensures forall k | m <= k < |argv| :: !IsOption(cfg, argv[k])
  {
    forall k | m <= k < |argv| ensures !IsOption(cfg, argv[k]) {
      assert argv[k] == args[k - m];
    }
  }

  /** What the loop holds after reading the option words of valid-list
      positions `i` on, starting from `acc`: the options of those positions
      added in list order. */
  function AddFrom(cfg: Config, cl: CommandLine, i: nat, acc: CommandLine): CommandLine
    requires i <= |cfg.validOptions|
    decreases |cfg.validOptions| - i
  {
    if i == |cfg.validOptions| then acc
    else
      var op := cfg.validOptions[i];
      AddFrom(cfg, cl, i + 1, if op in cl.options then AddOption(acc, op, cl.options[op]) else acc)
  }

  /** Adding the options of every position of the valid list to an empty
      command line gives back the options of a printable command line. */
  lemma {:induction false} AddAllOptions(cfg: Config, cl: CommandLine)
    requires Printable(cfg, cl)
    ensures AddFrom(cfg, cl, 0, EMPTY) == CommandLine(cl.options, [])
  {
    assert cfg.validOptions[..0] == [];
    assert Restrict(cl.options, cfg.validOptions[..0]) == map[];
    AddFromRestrict(cfg, cl, 0);
    forall op | op in cl.options ensures op in cfg.validOptions {
      assert OptionPrintable(cfg, cl, op);
    }
    assert Restrict(cl.options, cfg.validOptions) == cl.options;
  }

  lemma {:induction false} AddFromRestrict(cfg: Config, cl: CommandLine, i: nat)
    requires i <= |cfg.validOptions|
    ensures AddFrom(cfg, cl, i, CommandLine(Restrict(cl.options, cfg.validOptions[..i]), [])) ==
            CommandLine(Restrict(cl.options, cfg.validOptions), [])
    decreases |cfg.validOptions| - i
  {
    var vo := cfg.validOptions;
    if i == |vo| {
      assert vo[..i] == vo;
    } else {
      RestrictStep(cl.options, vo, i);
      AddFromRestrict(cfg, cl, i + 1);
    }
  }

  /** Reading the option words of valid-list positions `i` on, starting at
      element `n`, adds the options of those positions. */
  lemma {:induction false} ParseOptionWords(cfg: Config, cl: CommandLine, argv: seq<string>, n: nat, i: nat, acc: CommandLine)
    requires OptionsPrintable(cfg, cl) && i <= |cfg.validOptions|
    requires WordsAt(argv, n, OptionWords(cfg, cl, i))
    ensures ParseFrom(cfg, argv, n, acc) == ParseFrom(cfg, argv, n + |OptionWords(cfg, cl, i)|, AddFrom(cfg, cl, i, acc))
    decreases |cfg.validOptions| - i
  {
    if i < |cfg.validOptions| {
      var op := cfg.validOptions[i];
      OptionWordsStep(cfg, cl, argv, n, i, acc);
      if op in cl.options {
        ParseOptionWords(cfg, cl, argv, n + 1, i + 1, AddOption(acc, op, cl.options[op]));
      } else {
        ParseOptionWords(cfg, cl, argv, n, i + 1, acc);
      }
    }
  }

  /** One step of ParseOptionWords: the valid-list character at `i` either
      has its word at `n`, which the loop reads as that option, or is absent
      and has none. */
  lemma {:induction false} OptionWordsStep(cfg: Config, cl: CommandLine, argv: seq<string>, n: nat, i: nat, acc: CommandLine)
    requires OptionsPrintable(cfg, cl) && i < |cfg.validOptions|
    requires WordsAt(argv, n, OptionWords(cfg, cl, i))
    ensures var op := cfg.validOptions[i];
            var rest := OptionWords(cfg, cl, i + 1);
            op in cl.options ==>
              |OptionWords(cfg, cl, i)| == |rest| + 1 &&
              WordsAt(argv, n + 1, rest) &&
              ParseFrom(cfg, argv, n, acc) == ParseFrom(cfg, argv, n + 1, AddOption(acc, op, cl.options[op]))
    ensures var op := cfg.validOptions[i];
            op !in cl.options ==> OptionWords(cfg, cl, i) == OptionWords(cfg, cl, i + 1)
  {
    var vo := cfg.validOptions;
    var op := vo[i];
    var ws := OptionWords(cfg, cl, i);
    var rest := OptionWords(cfg, cl, i + 1);
    if op in cl.options {
      var w := OptionWord(cfg, cl, op);
      assert OptionPrintable(cfg, cl, op);
      assert ws == [w] + rest;
      assert argv[n + 0] == ws[0] == w;
      forall k | 0 <= k < |rest| ensures argv[n + 1 + k] == rest[k] {
        assert argv[n + (k + 1)] == ws[k + 1];
      }
      OptionWordParses(cfg, cl, argv, n, op, acc);
    }
  }

  /** Taking one more character of the list adds its option, if any. */
  lemma {:induction false} RestrictStep(options: map<char, string>, chars: string, i: nat)
    requires i < |chars|
    ensures chars[i] in options ==> Restrict(options, chars[..i + 1]) == Restrict(options, chars[..i])[chars[i] := options[chars[i]]]
    ensures chars[i] !in options ==> Restrict(options, chars[..i + 1]) == Restrict(options, chars[..i])
  {
    assert chars[..i + 1] == chars[..i] + [chars[i]];
  }

  /** One option word reads back as its option and value. */
  lemma {:induction false} OptionWordParses(cfg: Config, cl: CommandLine, argv: seq<string>, n: nat, op: char, acc: CommandLine)
    requires |cfg.prefixes| > 0 && op in cl.options && OptionPrintable(cfg, cl, op)
    requires n < |argv| && argv[n] == OptionWord(cfg, cl, op)
    ensures IsOption(cfg, argv[n])
    ensures ParseOption(cfg, argv, n, acc) == Some((AddOption(acc, op, cl.options[op]), n + 1))
  {
    var w := argv[n];
    var v := cl.options[op];
    assert w[0] == cfg.prefixes[0] && w[1] == op;
    assert GetOptionValue(cfg, cl, op) == v;
    if v != [] {
      assert w[2] == '=';
      assert w[3..] == v;
    }
  }

  /** Reading words that are all arguments appends them in order. */
  lemma {:induction false} ParseArguments(cfg: Config, argv: seq<string>, n: nat, acc: CommandLine)
    requires n <= |argv|
    requires forall k | n <= k < |argv| :: !IsOption(cfg, argv[k])
    ensures ParseFrom(cfg, argv, n, acc) == Parsed(true, acc.(arguments := acc.arguments + argv[n..]))
    decreases |argv| - n
  {
    if n < |argv| {
      ParseArguments(cfg, argv, n + 1, acc.(arguments := acc.arguments + [argv[n]]));
      assert acc.arguments + [argv[n]] + argv[n + 1..] == acc.arguments + argv[n..];
    }
  }
}
