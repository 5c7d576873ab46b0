/** The modifiers and verbs of the command parser (CCmdModifier and
    CCmdVerb in CommandParser.cpp) and CCmdParser::ParseCommand.

    A command is a verb, then positional arguments and "/NAME[=value]"
    modifiers in any order. The verb's argument and modifier tables are
    constant; the values a parse leaves in the argument and modifier objects
    are returned here as sequences parallel to the tables. The verb's action
    routine is not part of the model: a successful parse returns the verb
    and the values its action would read. */
module CommandVerbs {
  import opened Results
  import opened Chars
  import opened Scanners
  import opened Keywords
  import opened CommandArguments

  /** The character that introduces a modifier, and the one before its
      value. */
  const MODIFIER: char := '/'
  const VALUE: char := '='

  // ----------------------------------------------------------- modifiers

  /** A modifier: its name, the name of its negated sense if it has one,
      the argument it takes if any, and whether it may be left out. */
  datatype Modifier = Modifier(name: string, noName: Option<string>, arg: Option<Spec>, optional: bool)

  /** What a parse leaves in a modifier: whether it was given, whether by
      its negated name, and its argument's state. */
  datatype ModState = ModState(present: bool, negated: bool, arg: State)

  /** The argument state a modifier without an argument carries along. */
  function NoArgument(): State
  {
    Reset(Spec([], Token, true))
  }

  /** Every argument of a table reset. */
  function ResetArguments(args: seq<Spec>): (r: seq<State>)
    ensures |r| == |args| && forall k | 0 <= k < |args| :: r[k] == Reset(args[k])
  {
    seq(|args|, k requires 0 <= k < |args| => Reset(args[k]))
  }

  /** CCmdModifier::Reset(): not given, not negated, argument reset. */
  function ResetModifier(m: Modifier): (ms: ModState)
    ensures !ms.present && !ms.negated && !IsPresent(ms.arg)
  {
    ModState(false, false, if m.arg.Some? then Reset(m.arg.value) else NoArgument())
  }

  function ResetModifiers(mods: seq<Modifier>): (r: seq<ModState>)
    ensures |r| == |mods| && forall k | 0 <= k < |mods| :: r[k] == ResetModifier(mods[k])
  {
    seq(|mods|, k requires 0 <= k < |mods| => ResetModifier(mods[k]))
  }

  /** The token names the modifier, in either sense (a missing negated
      name matches nothing). */
  predicate Names(token: string, m: Modifier)
  {
    Match(Some(token), Some(m.name)) || Match(Some(token), m.noName)
  }

  /** The modifier CCmdModifier::Search settles on, and the states after it
      has been marked present. */
  datatype Found = Found(index: nat, states: seq<ModState>)

  /** CCmdModifier::Search: the first modifier the token names is marked
      present, and negated when the token does not match its positive name.
      There is no match when no modifier is named, or when the first one
      named was already given. */
  function SearchModifier(token: string, mods: seq<Modifier>, states: seq<ModState>): (r: Option<Found>)
    requires |states| == |mods|
    ensures r.Some? ==>
              var k := r.value.index;
              k < |mods| && Names(token, mods[k]) && (forall j | 0 <= j < k :: !Names(token, mods[j])) &&
              !states[k].present &&
              r.value.states == states[k := ModState(true, !Match(Some(token), Some(mods[k].name)), states[k].arg)]
    ensures r.None? <==>
              (forall j | 0 <= j < |mods| :: !Names(token, mods[j])) ||
              (exists k | 0 <= k < |mods| :: Names(token, mods[k]) && states[k].present &&
                                               forall j | 0 <= j < k :: !Names(token, mods[j]))
  {
    SearchModifierNone(token, mods, states, 0);
    SearchModifierFrom(token, mods, states, 0)
  }

  function SearchModifierFrom(token: string, mods: seq<Modifier>, states: seq<ModState>, i: nat): (r: Option<Found>)
    requires |states| == |mods| && i <= |mods|
    ensures r.Some? ==>
              var k := r.value.index;
              i <= k < |mods| && Names(token, mods[k]) && (forall j | i <= j < k :: !Names(token, mods[j])) &&
              !states[k].present &&
              r.value.states == states[k := ModState(true, !Match(Some(token), Some(mods[k].name)), states[k].arg)]
    decreases |mods| - i
  {
    if i == |mods| then None
    else if Match(Some(token), Some(mods[i].name)) then
      if states[i].present then None else Some(Found(i, states[i := ModState(true, false, states[i].arg)]))
    else if Match(Some(token), mods[i].noName) then
      if states[i].present then None else Some(Found(i, states[i := ModState(true, true, states[i].arg)]))
    else
      SearchModifierFrom(token, mods, states, i + 1)
  }

  /** The search from `i` finds nothing exactly when no modifier from `i`
      on is named, or the first one named was already given. */
  lemma {:induction false} SearchModifierNone(token: string, mods: seq<Modifier>, states: seq<ModState>, i: nat)
    requires |states| == |mods| && i <= |mods|
    ensures SearchModifierFrom(token, mods, states, i).None? <==>
              (forall j | i <= j < |mods| :: !Names(token, mods[j])) ||
              (exists k | i <= k < |mods| :: Names(token, mods[k]) && states[k].present &&
                                               forall j | i <= j < k :: !Names(token, mods[j]))
    decreases |mods| - i
  {
    if i < |mods| && !Names(token, mods[i]) {
      SearchModifierNone(token, mods, states, i + 1);
      if exists k | i + 1 <= k < |mods| :: Names(token, mods[k]) && states[k].present &&
                                           forall j | i + 1 <= j < k :: !Names(token, mods[j]) {
        var k :| i + 1 <= k < |mods| && Names(token, mods[k]) && states[k].present &&
                 forall j | i + 1 <= j < k :: !Names(token, mods[j]);
        assert forall j | i <= j < k :: !Names(token, mods[j]);
      }
    }
  }

  /** A modifier given twice is refused the second time. */
  lemma {:induction false} SearchModifierTwice(token: string, mods: seq<Modifier>, states: seq<ModState>)
    requires |states| == |mods| && SearchModifier(token, mods, states).Some?
    ensures SearchModifier(token, mods, SearchModifier(token, mods, states).value.states).None?
  {
    var f := SearchModifier(token, mods, states).value;
    var k := f.index;
    assert Names(token, mods[k]) && f.states[k].present;
    assert forall j | 0 <= j < k :: !Names(token, mods[j]);
  }

  /** What parsing a modifier (or an argument) of a verb leaves: whether it
      succeeded, the new states, and where the scan stopped. */
  datatype ModParsed = ModParsed(ok: bool, state: ModState, next: nat)

  /** CCmdModifier::ParseArgument, once the name has been scanned: a
      modifier without an argument is done; otherwise an '=' must follow
      directly, unless the argument is optional, and then the argument is
      parsed. */
  function ParseModifierArgument(m: Modifier, ms: ModState, s: string, i: nat): (r: ModParsed)
    requires i <= |s|
    ensures i <= r.next <= |s| && r.state.present == ms.present && r.state.negated == ms.negated
    ensures m.arg.None? ==> r.ok && r.state == ms && r.next == i
    ensures m.arg.Some? && (i == |s| || s[i] != VALUE) ==> r.ok == m.arg.value.optional && r.state == ms
    ensures r.ok && m.arg.Some? && i < |s| && s[i] == VALUE ==> IsPresent(r.state.arg) && i + 1 < r.next
  {
    if m.arg.None? then ModParsed(true, ms, i)
    else if i == |s| || s[i] != VALUE then ModParsed(m.arg.value.optional, ms, i)
    else
      var p := Parse(m.arg.value, ms.arg, s, i + 1);
      ModParsed(p.ok, ms.(arg := p.st), p.next)
  }

  /** The modifiers' states after one modifier has been parsed. */
  datatype ModsParsed = ModsParsed(ok: bool, states: seq<ModState>, next: nat)

  /** CCmdVerb::ParseModifier at a '/': a letter or digit must follow, and
      the name there must find a modifier, whose argument is then parsed. */
  function ParseModifier(mods: seq<Modifier>, states: seq<ModState>, s: string, i: nat): (r: ModsParsed)
    requires |states| == |mods| && i < |s| && s[i] == MODIFIER
    ensures i < r.next <= |s| && |r.states| == |mods|
    ensures r.ok ==> i + 1 < |s| && IsAlnum(s[i + 1])
    ensures r.ok ==> exists k | 0 <= k < |mods| :: !states[k].present && r.states[k].present
  {
    if i + 1 == |s| || !IsAlnum(s[i + 1]) then ModsParsed(false, states, i + 1)
    else
      var name := ScanName(s, i + 1);
      match SearchModifier(name.text, mods, states)
      case None => ModsParsed(false, states, name.next)
      case Some(f) =>
        var a := ParseModifierArgument(mods[f.index], f.states[f.index], s, name.next);
        ModsParsed(a.ok, f.states[f.index := a.state], a.next)
  }

  // ----------------------------------------------------------------- verbs

  /** The arguments' states and how many have been parsed. */
  datatype ArgsParsed = ArgsParsed(ok: bool, states: seq<State>, count: nat, next: nat)

  /** CCmdVerb::ParseArgument: the next argument of the table parses the
      text; there being no argument left is "too many arguments". */
  function ParseArgument(args: seq<Spec>, states: seq<State>, count: nat, s: string, i: nat): (r: ArgsParsed)
    requires |states| == |args| && count <= |args| && i <= |s|
    ensures i <= r.next <= |s| && |r.states| == |args|
    ensures r.ok <==> count < |args| && Parse(args[count], states[count], s, i).ok
    ensures r.ok ==> i < r.next && r.count == count + 1 && IsPresent(r.states[count]) &&
                     r.states == states[count := r.states[count]]
  {
    if count == |args| then ArgsParsed(false, states, count, i)
    else
      var p := Parse(args[count], states[count], s, i);
      if !p.ok then ArgsParsed(false, states, count, p.next)
      else ArgsParsed(true, states[count := p.st], count + 1, p.next)
  }

  /** What CCmdVerb::ParseTail leaves when it succeeds: the arguments' and
      modifiers' states, and how many arguments were given. */
  datatype Tail = Tail(args: seq<State>, mods: seq<ModState>, count: nat)

  /** CCmdVerb::ParseTail: every argument and modifier is reset, then the
      rest of the line is read item by item, a '/' starting a modifier and
      anything else being the next argument, until only white space is
      left. Any item that does not parse fails the whole tail. */
  function ParseTail(args: seq<Spec>, mods: seq<Modifier>, s: string, i: nat): (r: Option<Tail>)
    requires i <= |s|
    ensures r.Some? ==> TailShape(args, mods, r.value)
    ensures r.Some? ==> forall k | r.value.count <= k < |args| :: r.value.args[k] == Reset(args[k])
    ensures r.Some? ==> forall k | 0 <= k < |mods| :: !r.value.mods[k].present ==> r.value.mods[k] == ResetModifier(mods[k])
  {
    var reset := ResetArguments(args);
    TailFrom(args, mods, reset, ResetModifiers(mods), 0, s, i)
  }

  /** The states of a parsed tail fit the verb's tables, and exactly the
      first `count` arguments are present. */
  predicate TailShape(args: seq<Spec>, mods: seq<Modifier>, t: Tail)
  {
    |t.args| == |args| && |t.mods| == |mods| && t.count <= |args| &&
    (forall k | 0 <= k < t.count :: IsPresent(t.args[k])) &&
    (forall k | t.count <= k < |args| :: !IsPresent(t.args[k]))
  }

  /** The loop of ParseTail from position `i`, with `count` arguments
      parsed so far. */
  function TailFrom(args: seq<Spec>, mods: seq<Modifier>, argStates: seq<State>, modStates: seq<ModState>,
                    count: nat, s: string, i: nat): (r: Option<Tail>)
    requires |argStates| == |args| && |modStates| == |mods| && count <= |args| && i <= |s|
    requires forall k | 0 <= k < count :: IsPresent(argStates[k])
    requires forall k | count <= k < |args| :: argStates[k] == Reset(args[k])
    requires forall k | 0 <= k < |mods| :: !modStates[k].present ==> modStates[k] == ResetModifier(mods[k])
    ensures r.Some? ==> TailShape(args, mods, r.value) && count <= r.value.count
    ensures r.Some? ==> forall k | r.value.count <= k < |args| :: r.value.args[k] == Reset(args[k])
    ensures r.Some? ==> forall k | 0 <= k < |mods| :: !r.value.mods[k].present ==> r.value.mods[k] == ResetModifier(mods[k])
    decreases |s| - i
  {
    var j := SkipWhite(s, i);
    if j == |s| then
      assert forall k | count <= k < |args| :: !IsPresent(argStates[k]) by {
        forall k | count <= k < |args| ensures !IsPresent(argStates[k]) {
          assert argStates[k] == Reset(args[k]);
        }
      }
      Some(Tail(argStates, modStates, count))
    else if s[j] == MODIFIER then
      var p := ParseModifier(mods, modStates, s, j);
      if !p.ok then None
      else
        ModifierKeepsReset(mods, modStates, s, j);
        TailFrom(args, mods, argStates, p.states, count, s, p.next)
    else
      var p := ParseArgument(args, argStates, count, s, j);
      if !p.ok then None
      else TailFrom(args, mods, p.states, modStates, p.count, s, p.next)
  }

  /** A modifier that ParseModifier leaves absent is left as it was. */
  lemma {:induction false} ModifierKeepsReset(mods: seq<Modifier>, states: seq<ModState>, s: string, i: nat)
    requires |states| == |mods| && i < |s| && s[i] == MODIFIER
    ensures var p := ParseModifier(mods, states, s, i);
            forall k | 0 <= k < |mods| :: !p.states[k].present ==> p.states[k] == states[k]
  {
  }

  /** ValidateArguments accepts an argument when it is given or optional,
      and valid when given. */
  predicate ArgumentAccepted(spec: Spec, st: State)
  {
    (IsPresent(st) || spec.optional) && (IsPresent(st) ==> IsValid(spec, st))
  }

  /** CCmdVerb::ValidateArguments: every required argument is present and
      every present argument is valid. */
  function ValidateArguments(args: seq<Spec>, states: seq<State>): (r: bool)
    requires |states| == |args|
    ensures r <==> forall k | 0 <= k < |args| :: ArgumentAccepted(args[k], states[k])
  {
    ArgumentsFrom(args, states, 0)
  }

  function ArgumentsFrom(args: seq<Spec>, states: seq<State>, i: nat): (r: bool)
    requires |states| == |args| && i <= |args|
    ensures r <==> forall k | i <= k < |args| :: ArgumentAccepted(args[k], states[k])
    decreases |args| - i
  {
    if i == |args| then true
    else if !IsPresent(states[i]) && !args[i].optional then false
    else if IsPresent(states[i]) && !IsValid(args[i], states[i]) then false
    else ArgumentsFrom(args, states, i + 1)
  }

  /** ValidateModifiers accepts a modifier when it is given or optional,
      and its argument valid when it is given and takes one. */
  predicate ModifierAccepted(m: Modifier, ms: ModState)
  {
    (ms.present || m.optional) && (ms.present && m.arg.Some? ==> IsValid(m.arg.value, ms.arg))
  }

  /** CCmdVerb::ValidateModifiers: every required modifier is present, and
      every present modifier's argument is valid. */
  function ValidateModifiers(mods: seq<Modifier>, states: seq<ModState>): (r: bool)
    requires |states| == |mods|
    ensures r <==> forall k | 0 <= k < |mods| :: ModifierAccepted(mods[k], states[k])
  {
    ModifiersFrom(mods, states, 0)
  }

  function ModifiersFrom(mods: seq<Modifier>, states: seq<ModState>, i: nat): (r: bool)
    requires |states| == |mods| && i <= |mods|
    ensures r <==> forall k | i <= k < |mods| :: ModifierAccepted(mods[k], states[k])
    decreases |mods| - i
  {
    if i == |mods| then true
    else if !states[i].present && !mods[i].optional then false
    else if !states[i].present || mods[i].arg.None? then ModifiersFrom(mods, states, i + 1)
    else if !IsValid(mods[i].arg.value, states[i].arg) then false
    else ModifiersFrom(mods, states, i + 1)
  }

  /** Right after the reset, the arguments are acceptable exactly when
      every one of them is optional. */
  lemma {:induction false} ResetArgumentsAccepted(args: seq<Spec>)
    ensures var reset := ResetArguments(args);
            ValidateArguments(args, reset) <==> forall k | 0 <= k < |args| :: args[k].optional
  {
    var reset := ResetArguments(args);
    forall k | 0 <= k < |args| ensures ArgumentAccepted(args[k], reset[k]) <==> args[k].optional {
      assert !IsPresent(reset[k]);
    }
  }

  /** Likewise, the reset modifiers are acceptable exactly when every one
      of them is optional. */
  lemma {:induction false} ResetModifiersAccepted(mods: seq<Modifier>)
    ensures ValidateModifiers(mods, ResetModifiers(mods)) <==> forall k | 0 <= k < |mods| :: mods[k].optional
  {
    var reset := ResetModifiers(mods);
    forall k | 0 <= k < |mods| ensures ModifierAccepted(mods[k], reset[k]) <==> mods[k].optional {
      assert !reset[k].present;
    }
  }

  /** A tail of nothing but white space gives no argument and no modifier:
      everything is left as the reset made it. */
  lemma {:induction false} BlankTail(args: seq<Spec>, mods: seq<Modifier>, s: string, i: nat)
    requires i <= |s| && AllSpace(s[i..])
    ensures var reset := ResetArguments(args);
            ParseTail(args, mods, s, i) == Some(Tail(reset, ResetModifiers(mods), 0))
  {
    SkipWhiteOf(s, i, s[i..], []);
  }

  /** A verb: its name (with a '*' where abbreviations may stop), its
      argument and modifier tables, and its table of subverbs, if any. */
  datatype Verb = Verb(name: string, args: seq<Spec>, mods: seq<Modifier>, subverbs: Option<Table>)
  datatype Table = Table(verbs: seq<Verb>)

  function VerbNames(t: Table): (names: seq<string>)
    ensures |names| == |t.verbs| && forall k | 0 <= k < |t.verbs| :: names[k] == t.verbs[k].name
  {
    seq(|t.verbs|, k requires 0 <= k < |t.verbs| => t.verbs[k].name)
  }

  /** CCmdVerb::Search: the first verb whose name the token abbreviates. */
  function SearchVerb(token: string, t: Table): (r: Option<nat>)
    ensures r.Some? ==> r.value < |t.verbs| && Match(Some(token), Some(t.verbs[r.value].name)) &&
                        forall j | 0 <= j < r.value :: !Match(Some(token), Some(t.verbs[j].name))
    ensures r.None? <==> forall j | 0 <= j < |t.verbs| :: !Match(Some(token), Some(t.verbs[j].name))
  {
    var k := Search(token, VerbNames(t));
    if k < 0 then None else Some(k)
  }

  /** What ParseCommand comes to: a line with nothing to do (blank or a
      comment), a line that failed to parse, or a verb whose action is to
      run with the argument and modifier values given. */
  datatype Outcome = Ignored | Failed | Run(verb: Verb, args: seq<State>, mods: seq<ModState>)

  /** A verb ready to run: a simple verb (no subverbs) whose values fit its
      tables and pass both validations. */
  predicate Runnable(v: Verb, args: seq<State>, mods: seq<ModState>)
  {
    |args| == |v.args| && |mods| == |v.mods| &&
    ValidateArguments(v.args, args) && ValidateModifiers(v.mods, mods)
  }

  /** The end of ParseVerb and ParseIndirect: parse the tail of the line
      for the verb, validate it, and run the verb. */
  function RunVerb(v: Verb, s: string, i: nat): (r: Outcome)
    requires i <= |s|
    ensures r.Run? || r.Failed?
    ensures r.Run? ==> r.verb == v && Runnable(v, r.args, r.mods)
  {
    match ParseTail(v.args, v.mods, s, i)
    case None => Failed
    case Some(tail) =>
      if !ValidateArguments(v.args, tail.args) || !ValidateModifiers(v.mods, tail.mods) then Failed
      else Run(v, tail.args, tail.mods)
  }

  /** CCmdVerb::ParseVerb: scan a name, find the verb, and either go on in
      its subverb table or parse and run it. */
  function ParseVerb(t: Table, s: string, i: nat): (r: Outcome)
    requires i <= |s|
    ensures r.Run? || r.Failed?
    ensures r.Run? ==> r.verb.subverbs.None? && Runnable(r.verb, r.args, r.mods)
    ensures ScanName(s, i).text == [] ==> r.Failed?
    decreases t
  {
    var name := ScanName(s, i);
    if name.text == [] then Failed
    else match SearchVerb(name.text, t)
      case None => Failed
      case Some(k) =>
        var v := t.verbs[k];
        if v.subverbs.Some? then ParseVerb(v.subverbs.value, s, name.next)
        else RunVerb(v, s, name.next)
  }

  /** CCmdVerb::ParseIndirect, after the '@': the rest of the line is the
      tail of the DO verb, when the table has one. */
  function ParseIndirect(t: Table, s: string, i: nat): (r: Outcome)
    requires i <= |s|
    ensures r.Run? || r.Failed?
    ensures r.Run? ==> Runnable(r.verb, r.args, r.mods) && r.verb in t.verbs && Match(Some("DO"), Some(r.verb.name))
    ensures SearchVerb("DO", t).None? ==> r.Failed?
  {
    match SearchVerb("DO", t)
    case None => Failed
    case Some(k) => RunVerb(t.verbs[k], s, i)
  }

  /** Comment lines start with ';', '!' or '#'. */
  predicate IsComment(c: char)
  {
    c == ';' || c == '!' || c == '#'
  }

  const INDIRECT: char := '@'

  /** CCmdParser::ParseCommand: blank and comment lines are ignored; a line
      starting with '@' runs a script through the DO verb; anything else is
      a verb. */
  function ParseCommand(t: Table, s: string): (r: Outcome)
    ensures var j := SkipWhite(s, 0);
            r.Ignored? <==> j == |s| || IsComment(s[j])
    ensures var j := SkipWhite(s, 0);
            j < |s| && s[j] == INDIRECT && r.Run? ==> Match(Some("DO"), Some(r.verb.name))
    ensures r.Run? ==> Runnable(r.verb, r.args, r.mods)
  {
    var j := SkipWhite(s, 0);
    if j == |s| || IsComment(s[j]) then Ignored
    else if s[j] == INDIRECT then ParseIndirect(t, s, j + 1)
    else ParseVerb(t, s, j)
  }

  /** ParseCommand's return value: true for a line with nothing to do,
      false for one that failed, and otherwise what the verb's action
      returns. */
  function Succeeded(r: Outcome, actionResult: bool): bool
  {
    match r
    case Ignored => true
    case Failed => false
    case Run(_, _, _) => actionResult
  }

  /** Every argument and every modifier of the verb may be left out. */
  predicate AllOptional(v: Verb)
  {
    (forall j | 0 <= j < |v.args| :: v.args[j].optional) && (forall j | 0 <= j < |v.mods| :: v.mods[j].optional)
  }

  /** A line holding only a verb's name runs that verb with every argument
      and modifier reset, provided all of them may be left out; otherwise
      validation refuses it. */
  lemma {:induction false} BareVerb(t: Table, w: string, blanks: string, k: nat)
    requires w != [] && (forall c | 0 <= c < |w| :: IsNameChar(w[c])) && AllSpace(blanks)
    requires SearchVerb(UpperCase(w), t) == Some(k) && t.verbs[k].subverbs.None?
    ensures var v := t.verbs[k];
            var reset := ResetArguments(v.args);
            ParseCommand(t, w + blanks) ==
              if AllOptional(v)
              then Run(v, reset, ResetModifiers(v.mods)) else Failed
  {
    VerbLine(t, w, blanks, k);
    Suffix(w, blanks);
    BareRun(t.verbs[k], w + blanks, |w|);
  }

  lemma {:induction false} Suffix(w: string, rest: string)
    ensures (w + rest)[|w|..] == rest
  {
  }

  /** A line starting with a verb's name goes to that verb, with the rest
      of the line as its tail. */
  lemma {:induction false} VerbLine(t: Table, w: string, rest: string, k: nat)
    requires w != [] && (forall c | 0 <= c < |w| :: IsNameChar(w[c]))
    requires rest == [] || !IsNameChar(rest[0])
    requires SearchVerb(UpperCase(w), t) == Some(k) && t.verbs[k].subverbs.None?
    ensures ParseCommand(t, w + rest) == RunVerb(t.verbs[k], w + rest, |w|)
  {
    NameFirst(w, rest);
    VerbLineAt(t, w + rest, k);
  }

  /** A line starting with a name scans that name, upper-cased, first. */
  lemma {:induction false} NameFirst(w: string, rest: string)
    requires w != [] && (forall c | 0 <= c < |w| :: IsNameChar(w[c]))
    requires rest == [] || !IsNameChar(rest[0])
    ensures var s := w + rest;
            s != [] && IsNameChar(s[0]) && ScanName(s, 0) == Scan(UpperCase(w), |w|)
  {
    var s := w + rest;
    assert s[0] == w[0];
    assert s[0..] == [] + w + rest;
    ScanNameOf(s, 0, [], w, rest);
  }

  lemma {:induction false} VerbLineAt(t: Table, s: string, k: nat)
    requires s != [] && IsNameChar(s[0])
    requires SearchVerb(ScanName(s, 0).text, t) == Some(k) && t.verbs[k].subverbs.None?
    ensures ParseCommand(t, s) == RunVerb(t.verbs[k], s, ScanName(s, 0).next)
  {
    CommandIsVerb(t, s);
    VerbFound(t, s, 0, k);
  }

  /** A line starting with a name character is a verb line. */
  lemma {:induction false} CommandIsVerb(t: Table, s: string)
    requires s != [] && IsNameChar(s[0])
    ensures ParseCommand(t, s) == ParseVerb(t, s, 0)
  {
    assert SkipWhite(s, 0) == 0;
    assert !IsComment(s[0]) && s[0] != INDIRECT;
  }

  lemma {:induction false} VerbFound(t: Table, s: string, i: nat, k: nat)
    requires i <= |s| && ScanName(s, i).text != []
    requires SearchVerb(ScanName(s, i).text, t) == Some(k) && t.verbs[k].subverbs.None?
    ensures ParseVerb(t, s, i) == RunVerb(t.verbs[k], s, ScanName(s, i).next)
  {
  }

  /** The verb with a blank tail: it runs with everything reset exactly
      when everything is optional. */
  lemma {:induction false} BareRun(v: Verb, s: string, i: nat)
    requires i <= |s| && AllSpace(s[i..])
    ensures var reset := ResetArguments(v.args);
            RunVerb(v, s, i) ==
              if AllOptional(v)
              then Run(v, reset, ResetModifiers(v.mods)) else Failed
  {
    BlankTail(v.args, v.mods, s, i);
    ResetArgumentsAccepted(v.args);
    ResetModifiersAccepted(v.mods);
  }
}
