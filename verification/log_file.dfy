/** The logging core of CLog (LogFile.cpp): message severities and their
    names, the per-thread level overrides, the set of threads whose
    messages go through the queue, splitting a message into log lines, and
    closing the log file. LogFile.hpp is not part of this model, so the
    numeric values of the severities are unknown: every value that is not
    one of the named ones is carried by `Other`. The identifier of the
    calling thread and the time stamp are parameters. */
module LogFile {
  /** CLog::SEVERITY: the named message levels, NOLOG, and any other value. */
  datatype Severity = CmdOut | CmdErr | Trace | Debug | Warning | Error | Abort | NoLog | Other(code: int)

  /** LevelToString(nLevel): the name written into the log file. */
  function LevelToString(level: Severity): (r: string)
    ensures r == "UNKNOWN" <==> level.NoLog? || level.Other?
    ensures 0 < |r| <= 7
  {
    match level
    case CmdOut => "CMDOUT"
    case CmdErr => "CMDERR"
    case Trace => "TRACE"
    case Debug => "DEBUG"
    case Warning => "WARN"
    case Error => "ERROR"
    case Abort => "ABORT"
    case _ => "UNKNOWN"
  }

  /** Every named severity has a name of its own. */
  lemma {:induction false} LevelNamesDistinct(a: Severity, b: Severity)
    requires LevelToString(a) == LevelToString(b) != "UNKNOWN"
    ensures a == b
  {
    var s := LevelToString(a);
    assert s[0] == LevelToString(b)[0];
    if |s| == 6 {
      assert s[3] == LevelToString(b)[3];
    }
  }

  /** A thread identifier; zero stands for the calling thread. */
  type ThreadId = nat

  /** The thread a call is about: `id`, or the caller when `id` is zero. */
  function Resolve(id: ThreadId, current: ThreadId): (t: ThreadId)
    ensures id != 0 ==> t == id
    ensures id == 0 ==> t == current
  {
    if id == 0 then current else id
  }

  /** The logger's state: the console and file level overrides by thread,
      the queued threads, the default levels, the log file's name, whether
      it is open, and the lines written to it. */
  datatype Log = Log(consoleLevels: map<ThreadId, Severity>, fileLevels: map<ThreadId, Severity>,
                     queued: set<ThreadId>, defaultConsole: Severity, defaultFile: Severity,
                     logName: string, fileOpen: bool, lines: seq<LogLine>)

  /** One line of the log file: the time stamp, the severity's name and
      the text. */
  datatype LogLine = LogLine(stamp: nat, prefix: string, text: string)

  /** The level a thread has in one override map, NOLOG without one. */
  function LevelIn(levels: map<ThreadId, Severity>, t: ThreadId): (r: Severity)
    ensures t !in levels ==> r == NoLog
    ensures t in levels ==> r == levels[t]
  {
    if t in levels then levels[t] else NoLog
  }

  /** SetThreadConsoleLevel(nLevel, idThread) and SetThreadFileLevel:
      add or change the thread's override. */
  function SetThreadConsoleLevel(log: Log, level: Severity, id: ThreadId, current: ThreadId): (r: Log)
    ensures r == log.(consoleLevels := r.consoleLevels)
    ensures r.consoleLevels.Keys == log.consoleLevels.Keys + {Resolve(id, current)}
  {
    log.(consoleLevels := log.consoleLevels[Resolve(id, current) := level])
  }

  function SetThreadFileLevel(log: Log, level: Severity, id: ThreadId, current: ThreadId): (r: Log)
    ensures r == log.(fileLevels := r.fileLevels)
    ensures r.fileLevels.Keys == log.fileLevels.Keys + {Resolve(id, current)}
  {
    log.(fileLevels := log.fileLevels[Resolve(id, current) := level])
  }

  /** GetThreadConsoleLevel(idThread) and GetThreadFileLevel: the
      thread's override, or NOLOG when it has none. */
  function GetThreadConsoleLevel(log: Log, id: ThreadId, current: ThreadId): (r: Severity)
    ensures Resolve(id, current) !in log.consoleLevels ==> r == NoLog
  {
    LevelIn(log.consoleLevels, Resolve(id, current))
  }

  function GetThreadFileLevel(log: Log, id: ThreadId, current: ThreadId): (r: Severity)
    ensures Resolve(id, current) !in log.fileLevels ==> r == NoLog
  {
    LevelIn(log.fileLevels, Resolve(id, current))
  }

  /** A level that is set is the level got back, for that thread only. */
  lemma {:induction false} SetThenGetConsole(log: Log, level: Severity, id: ThreadId, other: ThreadId, current: ThreadId)
    ensures GetThreadConsoleLevel(SetThreadConsoleLevel(log, level, id, current), id, current) == level
    ensures Resolve(other, current) != Resolve(id, current) ==>
              GetThreadConsoleLevel(SetThreadConsoleLevel(log, level, id, current), other, current) ==
              GetThreadConsoleLevel(log, other, current)
  {
    var t := Resolve(id, current);
    assert SetThreadConsoleLevel(log, level, id, current).consoleLevels[t] == level;
  }

  lemma {:induction false} SetThenGetFile(log: Log, level: Severity, id: ThreadId, other: ThreadId, current: ThreadId)
    ensures GetThreadFileLevel(SetThreadFileLevel(log, level, id, current), id, current) == level
    ensures Resolve(other, current) != Resolve(id, current) ==>
              GetThreadFileLevel(SetThreadFileLevel(log, level, id, current), other, current) ==
              GetThreadFileLevel(log, other, current)
  {
    var t := Resolve(id, current);
    assert SetThreadFileLevel(log, level, id, current).fileLevels[t] == level;
  }

  /** RemoveThreadLevels(idThread): both overrides of the thread go. */
  function RemoveThreadLevels(log: Log, id: ThreadId, current: ThreadId): (r: Log)
    ensures r == log.(consoleLevels := r.consoleLevels, fileLevels := r.fileLevels)
    ensures r.consoleLevels.Keys == log.consoleLevels.Keys - {Resolve(id, current)}
    ensures r.fileLevels.Keys == log.fileLevels.Keys - {Resolve(id, current)}
  {
    var t := Resolve(id, current);
    log.(consoleLevels := log.consoleLevels - {t}, fileLevels := log.fileLevels - {t})
  }

  /** After RemoveThreadLevels the thread has no override, and every other
      thread keeps its own. */
  lemma {:induction false} RemoveThenGet(log: Log, id: ThreadId, other: ThreadId, current: ThreadId)
    ensures var r := RemoveThreadLevels(log, id, current);
            GetThreadConsoleLevel(r, id, current) == NoLog && GetThreadFileLevel(r, id, current) == NoLog
    ensures var r := RemoveThreadLevels(log, id, current);
            Resolve(other, current) != Resolve(id, current) ==>
              GetThreadConsoleLevel(r, other, current) == GetThreadConsoleLevel(log, other, current) &&
              GetThreadFileLevel(r, other, current) == GetThreadFileLevel(log, other, current)
  {
    var r := RemoveThreadLevels(log, id, current);
    var t, u := Resolve(id, current), Resolve(other, current);
    if u != t && u in log.consoleLevels {
      assert r.consoleLevels[u] == log.consoleLevels[u];
    }
    if u != t && u in log.fileLevels {
      assert r.fileLevels[u] == log.fileLevels[u];
    }
  }

  /** GetConsoleLevel() and GetFileLevel(): the calling thread's override,
      or the default when the override is missing or NOLOG. */
  function GetConsoleLevel(log: Log, current: ThreadId): (r: Severity)
    ensures r == NoLog ==> log.defaultConsole == NoLog
    ensures GetThreadConsoleLevel(log, 0, current) == NoLog ==> r == log.defaultConsole
  {
    var level := GetThreadConsoleLevel(log, 0, current);
    if level != NoLog then level else log.defaultConsole
  }

  function GetFileLevel(log: Log, current: ThreadId): (r: Severity)
    ensures r == NoLog ==> log.defaultFile == NoLog
    ensures GetThreadFileLevel(log, 0, current) == NoLog ==> r == log.defaultFile
  {
    var level := GetThreadFileLevel(log, 0, current);
    if level != NoLog then level else log.defaultFile
  }

  /** An override other than NOLOG wins over the default; removing the
      overrides brings the default back. */
  lemma {:induction false} OverrideWins(log: Log, level: Severity, current: ThreadId)
    requires level != NoLog
    ensures GetConsoleLevel(SetThreadConsoleLevel(log, level, 0, current), current) == level
    ensures GetFileLevel(SetThreadFileLevel(log, level, 0, current), current) == level
    ensures GetConsoleLevel(RemoveThreadLevels(log, 0, current), current) == log.defaultConsole
    ensures GetFileLevel(RemoveThreadLevels(log, 0, current), current) == log.defaultFile
  {
    SetThenGetConsole(log, level, 0, 0, current);
    SetThenGetFile(log, level, 0, 0, current);
    RemoveThenGet(log, 0, 0, current);
  }

  /** SetThreadQueued(fQueued, idThread): add the thread to the queued
      set, or take it out (never an error). */
  function SetThreadQueued(log: Log, queued: bool, id: ThreadId, current: ThreadId): (r: Log)
    ensures r == log.(queued := r.queued)
    ensures queued ==> r.queued == log.queued + {Resolve(id, current)}
    ensures !queued ==> r.queued == log.queued - {Resolve(id, current)}
  {
    var t := Resolve(id, current);
    if queued then log.(queued := log.queued + {t}) else log.(queued := log.queued - {t})
  }

  /** IsThreadQueued(idThread). */
  predicate IsThreadQueued(log: Log, id: ThreadId, current: ThreadId)
  {
    Resolve(id, current) in log.queued
  }

  /** Whether a thread is queued is what was last set for it; other
      threads are not affected. */
  lemma {:induction false} SetThenIsQueued(log: Log, queued: bool, id: ThreadId, other: ThreadId, current: ThreadId)
    ensures IsThreadQueued(SetThreadQueued(log, queued, id, current), id, current) == queued
    ensures Resolve(other, current) != Resolve(id, current) ==>
              IsThreadQueued(SetThreadQueued(log, queued, id, current), other, current) == IsThreadQueued(log, other, current)
  {
  }

  /** strchr(psz, '\n'): the position of the first newline, or the
      length of the string when there is none. */
  function Newline(s: string): (i: nat)
    ensures i <= |s| && (i < |s| ==> s[i] == '\n')
  {
    if s == [] || s[0] == '\n' then 0 else Newline(s[1..]) + 1
  }

  /** No newline comes before the one found, so none is found exactly
      when the string has none. */
  lemma {:induction false} NewlineFirst(s: string)
    ensures '\n' !in s[..Newline(s)]
    ensures Newline(s) == |s| <==> '\n' !in s
  {
    if s != [] && s[0] != '\n' {
      NewlineFirst(s[1..]);
      assert s[..Newline(s)] == [s[0]] + s[1..][..Newline(s[1..])];
    }
  }

  /** The segments of a message between its newlines: one more than there
      are newlines, the last one possibly empty. */
  function Lines(s: string): (r: seq<string>)
    ensures |r| > 0
    decreases |s|
  {
    var i := Newline(s);
    if i == |s| then [s] else [s[..i]] + Lines(s[i + 1..])
  }

  /** The segments joined back with newlines. */
  function Join(lines: seq<string>): (r: string)
    requires |lines| > 0
  {
    if |lines| == 1 then lines[0] else lines[0] + "\n" + Join(lines[1..])
  }

  /** Splitting and joining are inverse: the segments make up the
      message, none holds a newline, and segments without newlines are
      what splitting their join gives. */
  lemma {:induction false} JoinLines(s: string)
    ensures Join(Lines(s)) == s
    ensures forall k | 0 <= k < |Lines(s)| :: '\n' !in Lines(s)[k]
    decreases |s|
  {
    var i := Newline(s);
    NewlineFirst(s);
    if i < |s| {
      JoinLines(s[i + 1..]);
      assert Lines(s) == [s[..i]] + Lines(s[i + 1..]);
      assert s == s[..i] + "\n" + s[i + 1..];
    }
  }

  lemma {:induction false} LinesJoin(lines: seq<string>)
    requires |lines| > 0 && forall k | 0 <= k < |lines| :: '\n' !in lines[k]
    ensures Lines(Join(lines)) == lines
  {
    if |lines| == 1 {
      NewlineFirst(lines[0]);
    } else {
      var s := Join(lines);
      var head := lines[0];
      assert '\n' !in head;
      assert s == head + "\n" + Join(lines[1..]);
      assert s[|head|] == '\n' && s[..|head|] == head;
      var i := Newline(s);
      NewlineFirst(s);
      assert i == |head|;
      assert s[i + 1..] == Join(lines[1..]);
      LinesJoin(lines[1..]);
      assert lines == [head] + lines[1..];
    }
  }

  /** LogSingleLine(ptb, sPrefix, pszText): one line, when a log file is
      open. */
  function LogSingleLine(log: Log, stamp: nat, prefix: string, text: string): (r: Log)
    ensures !log.fileOpen ==> r == log
    ensures log.fileOpen ==> r == log.(lines := log.lines + [LogLine(stamp, prefix, text)])
  {
    if !log.fileOpen then log else log.(lines := log.lines + [LogLine(stamp, prefix, text)])
  }

  /** The lines a message makes, all with the same stamp and prefix. */
  function Stamped(stamp: nat, prefix: string, segments: seq<string>): (r: seq<LogLine>)
    ensures |r| == |segments|
  {
    if segments == [] then []
    else [LogLine(stamp, prefix, segments[0])] + Stamped(stamp, prefix, segments[1..])
  }

  /** Splitting a message at its first newline: the text before it,
      then the segments of the rest. */
  lemma {:induction false} LinesFirst(s: string)
    requires Newline(s) < |s|
    ensures var i := Newline(s);
            Lines(s) == [s[..i]] + Lines(s[i + 1..])
  {
  }

  lemma {:induction false} AppendOne(done: seq<string>, x: string, more: seq<string>)
    ensures done + ([x] + more) == (done + [x]) + more
  {
    assert |done + ([x] + more)| == |(done + [x]) + more|;
  }

  /** One more segment is one more line at the end. */
  lemma {:induction false} StampedAppend(stamp: nat, prefix: string, segments: seq<string>, last: string)
    ensures Stamped(stamp, prefix, segments + [last]) == Stamped(stamp, prefix, segments) + [LogLine(stamp, prefix, last)]
    decreases |segments|
  {
    if segments != [] {
      assert (segments + [last])[1..] == segments[1..] + [last];
      StampedAppend(stamp, prefix, segments[1..], last);
    }
  }

  /** The log after the given segments were each written as a line: with
      the file open they follow what it held, otherwise nothing changes. */
  function Written(log: Log, stamp: nat, prefix: string, segments: seq<string>): (r: Log)
  {
    if log.fileOpen then log.(lines := log.lines + Stamped(stamp, prefix, segments)) else log
  }

  lemma {:induction false} WrittenStep(log: Log, stamp: nat, prefix: string, segments: seq<string>, text: string)
    ensures LogSingleLine(Written(log, stamp, prefix, segments), stamp, prefix, text) ==
            Written(log, stamp, prefix, segments + [text])
  {
    StampedAppend(stamp, prefix, segments, text);
  }

  /** SendLog(nLevel, pszText, ptb): each newline ends a line of its own,
      and what follows the last newline is written as the final line even
      when it is empty. Every line carries the severity's name and the
      same stamp, the one given or the current time. */
  method SendLog(log: Log, level: Severity, text: string, stamp: nat) returns (r: Log)
    ensures r == Written(log, stamp, LevelToString(level), Lines(text))
  {
    var prefix := LevelToString(level);
    r := log;
    var rest := text;
    ghost var done: seq<string> := [];
    var i := Newline(rest);
    while i < |rest|
      invariant i == Newline(rest)
      invariant done + Lines(rest) == Lines(text)
      invariant r == Written(log, stamp, prefix, done)
      decreases |rest|
    {
      LinesFirst(rest);
      WrittenStep(log, stamp, prefix, done, rest[..i]);
      r := LogSingleLine(r, stamp, prefix, rest[..i]);
      AppendOne(done, rest[..i], Lines(rest[i + 1..]));
      done := done + [rest[..i]];
      rest := rest[i + 1..];
      i := Newline(rest);
    }
    assert Lines(rest) == [rest];
    WrittenStep(log, stamp, prefix, done, rest);
    r := LogSingleLine(r, stamp, prefix, rest);
  }

  /** The DEBUG message CloseLog logs while the file is still open. */
  function ClosedMessage(name: string): string
  {
    "log " + name + " closed"
  }

  /** CloseLog(): with a log file open, the DEBUG message "log <name>
      closed" is logged first, while the file is still open, and then the
      file is closed, its name forgotten and the default file level set to
      NOLOG; without an open file nothing happens. `direct` says whether
      that message is written to the file there and then: the file level
      admits DEBUG (IsLoggedToFile, declared in LogFile.hpp, which is not
      part of this model) and the message is not handed to the logging
      thread's queue, which would only reach the file after it is closed.
      The message is written as SendLog writes it, so a name without a
      newline adds exactly one line. */
  function CloseLog(log: Log, direct: bool, stamp: nat): (r: Log)
    ensures !r.fileOpen
    ensures log.fileOpen && direct ==>
              r.lines == log.lines + Stamped(stamp, LevelToString(Debug), Lines(ClosedMessage(log.logName)))
    ensures log.fileOpen && direct && '\n' !in log.logName ==>
              r.lines == log.lines + [LogLine(stamp, "DEBUG", "log " + log.logName + " closed")]
    ensures !(log.fileOpen && direct) ==> r.lines == log.lines
    ensures log.fileOpen ==> r.logName == [] && r.defaultFile == NoLog
    ensures !log.fileOpen ==> r == log
    ensures r.consoleLevels == log.consoleLevels && r.fileLevels == log.fileLevels && r.queued == log.queued
    ensures r.defaultConsole == log.defaultConsole
  {
    if !log.fileOpen then log
    else
      var message := ClosedMessage(log.logName);
      NewlineFirst(message);
      assert '\n' !in log.logName ==> '\n' !in message;
      var w := if direct then Written(log, stamp, LevelToString(Debug), Lines(message)) else log;
      w.(fileOpen := false, logName := [], defaultFile := NoLog)
  }

  /** After CloseLog nothing reaches the file, a thread without a file
      override logs nothing to a file, and closing again changes nothing. */
  lemma {:induction false} ClosedLogsNothing(log: Log, direct: bool, again: bool, stamp: nat, later: nat,
                                             prefix: string, text: string, current: ThreadId)
    requires log.fileOpen
    ensures LogSingleLine(CloseLog(log, direct, stamp), later, prefix, text) == CloseLog(log, direct, stamp)
    ensures GetThreadFileLevel(log, 0, current) == NoLog ==> GetFileLevel(CloseLog(log, direct, stamp), current) == NoLog
    ensures CloseLog(CloseLog(log, direct, stamp), again, later) == CloseLog(log, direct, stamp)
  {
    var c := CloseLog(log, direct, stamp);
    assert GetThreadFileLevel(c, 0, current) == GetThreadFileLevel(log, 0, current);
  }
}
