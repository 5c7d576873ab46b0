/** One Telnet line of the terminal server (CTerminalLine): the byte-at-a-time
    receive state machine that strips the IAC escapes of RFC 854 and the
    option negotiation (RFC 855) for ECHO (RFC 857) and SUPPRESS-GO-AHEAD
    (RFC 858).

    A line is the record of its receive state and its three option states.
    Every operation is a pure function that returns the new record together
    with the bytes handed to the receive callback (`delivered`) and the bytes
    written to the socket (`sent`). */
module TelnetLine {
  import opened Bytes

  // Telnet command codes.
  const IAC_EOF: byte := 236
  const IAC_SE: byte := 240
  const IAC_NOP: byte := 241
  const IAC_GA: byte := 249
  const IAC_SB: byte := 250
  const IAC_WILL: byte := 251
  const IAC_WONT: byte := 252
  const IAC_DO: byte := 253
  const IAC_DONT: byte := 254
  const IAC: byte := 255

  // The two options this engine implements.
  const OPT_ECHO: byte := 1
  const OPT_SGA: byte := 3

  /** The seven receive states (TELNET_STATE). */
  datatype RecvState = Normal | IacSeen | WillSeen | WontSeen | DoSeen | DontSeen | CrSeen

  /** The three option states (OPTION_STATE); `Waiting` means a request was
      sent and the reply has not yet arrived. */
  datatype OptionState = Disabled | Enabled | Waiting

  datatype Line = Line(state: RecvState, localEcho: OptionState, localSGA: OptionState, remoteSGA: OptionState)

  /** The result of one operation: the new line, the bytes passed to the
      receive callback and the bytes written to the socket. */
  datatype Step = Step(line: Line, delivered: seq<byte>, sent: seq<byte>)

  /** The state of a freshly connected line. */
  function NewLine(): (l: Line)
    ensures l.state == Normal
    ensures l.localEcho == Enabled && l.localSGA == Disabled && l.remoteSGA == Disabled
  {
    Line(Normal, Enabled, Disabled, Disabled)
  }

  /** The same line with every option state unchanged. */
  predicate SameOptions(a: Line, b: Line)
  {
    a.localEcho == b.localEcho && a.localSGA == b.localSGA && a.remoteSGA == b.remoteSGA
  }

  /** SendCommand: the three bytes IAC, command, option. */
  function SendCommand(command: byte, option: byte): (w: seq<byte>)
    ensures |w| == 3 && w[0] == IAC && w[1] == command && w[2] == option
  {
    [IAC, command, option]
  }

  function SendWill(option: byte): (w: seq<byte>)
    ensures w == SendCommand(IAC_WILL, option)
  {
    SendCommand(IAC_WILL, option)
  }

  function SendWont(option: byte): (w: seq<byte>)
    ensures w == SendCommand(IAC_WONT, option)
  {
    SendCommand(IAC_WONT, option)
  }

  function SendDo(option: byte): (w: seq<byte>)
    ensures w == SendCommand(IAC_DO, option)
  {
    SendCommand(IAC_DO, option)
  }

  function SendDont(option: byte): (w: seq<byte>)
    ensures w == SendCommand(IAC_DONT, option)
  {
    SendCommand(IAC_DONT, option)
  }

  /** Send of a buffer: the bytes go to the socket exactly as given. In
      particular an IAC (255) in outbound data is NOT doubled. */
  function Send(data: seq<byte>): (w: seq<byte>)
    ensures |w| == |data|
    ensures forall i :: 0 <= i < |data| ==> w[i] == data[i]
  {
    data
  }

  /** Send(const char *): the bytes of a C string up to, not including, its
      terminating NUL (the strlen of the buffer). */
  function SendCString(buffer: seq<byte>): (w: seq<byte>)
    ensures w <= buffer
    ensures CHNUL !in w
    ensures w == buffer || buffer[|w|] == CHNUL
  {
    if buffer == [] || buffer[0] == CHNUL then []
    else [buffer[0]] + SendCString(buffer[1..])
  }

  /** Send(char): exactly one byte. */
  function SendChar(ch: byte): (w: seq<byte>)
    ensures |w| == 1 && w[0] == ch
  {
    Send([ch])
  }

  /** Send(string): the string's characters up to its first NUL, since the
      string is passed on through c_str(). */
  function SendString(s: seq<byte>): (w: seq<byte>)
    ensures CHNUL !in s ==> w == s
  {
    SendCString(s)
  }

  /** HandleWill: the client offers to enable an option on its side. Only
      SUPPRESS-GO-AHEAD is accepted; a DO is sent back unless it answers our
      own earlier DO. Every other option is refused with DONT. */
  function HandleWill(l: Line, option: byte): (r: Step)
    ensures r.delivered == [] && r.line.state == l.state
    ensures option == OPT_SGA ==>
      r.line == l.(remoteSGA := Enabled) &&
      r.sent == (if l.remoteSGA == Waiting then [] else SendDo(OPT_SGA))
    ensures option != OPT_SGA ==> r.line == l && r.sent == SendDont(option)
  {
    if option == OPT_SGA then
      Step(l.(remoteSGA := Enabled), [], if l.remoteSGA != Waiting then SendDo(OPT_SGA) else [])
    else
      Step(l, [], SendDont(option))
  }

  /** HandleWont: a refusal is only logged. */
  function HandleWont(l: Line, option: byte): (r: Step)
    ensures r.line == l && r.delivered == [] && r.sent == []
  {
    Step(l, [], [])
  }

  /** HandleDo: the client asks us to enable an option. SUPPRESS-GO-AHEAD is
      agreed to; ECHO completes a pending request or re-announces the current
      echo state; every other option is refused with WONT. */
  function HandleDo(l: Line, option: byte): (r: Step)
    ensures r.delivered == [] && r.line.state == l.state
    ensures option == OPT_SGA ==>
      r.line == l.(localSGA := Enabled) &&
      r.sent == (if l.localSGA == Waiting then [] else SendWill(OPT_SGA))
    ensures option == OPT_ECHO && l.localEcho == Waiting ==> r.line == l.(localEcho := Disabled) && r.sent == []
    ensures option == OPT_ECHO && l.localEcho == Enabled ==> r.line == l && r.sent == SendWont(OPT_ECHO)
    ensures option == OPT_ECHO && l.localEcho == Disabled ==> r.line == l && r.sent == SendWill(OPT_ECHO)
    ensures option != OPT_SGA && option != OPT_ECHO ==> r.line == l && r.sent == SendWont(option)
  {
    if option == OPT_SGA then
      Step(l.(localSGA := Enabled), [], if l.localSGA != Waiting then SendWill(OPT_SGA) else [])
    else if option == OPT_ECHO then
      match l.localEcho
      case Waiting => Step(l.(localEcho := Disabled), [], [])
      case Enabled => Step(l, [], SendWont(OPT_ECHO))
      case Disabled => Step(l, [], SendWill(OPT_ECHO))
    else
      Step(l, [], SendWont(option))
  }

  /** HandleDont: the client demands that we stop. Only ECHO changes state
      (the client echoes locally again); nothing is ever sent. */
  function HandleDont(l: Line, option: byte): (r: Step)
    ensures r.delivered == [] && r.sent == []
    ensures option == OPT_ECHO ==> r.line == l.(localEcho := Enabled)
    ensures option != OPT_ECHO ==> r.line == l
  {
    if option == OPT_ECHO then Step(l.(localEcho := Enabled), [], []) else Step(l, [], [])
  }

  /** The result of a handler, with the receive state returned to Normal. */
  function BackToNormal(r: Step): Step
  {
    r.(line := r.line.(state := Normal))
  }

  /** NextState: the general transition, used for every byte except a
      non-IAC byte in the Normal state. */
  function NextState(l: Line, ch: byte): (r: Step)
  {
    match l.state
    case Normal => Step(l.(state := if ch == IAC then IacSeen else Normal), [], [])
    case CrSeen =>
      Step(l.(state := Normal), if ch != CHNUL && ch != CHLFD then [ch] else [], [])
    case IacSeen =>
      if ch == IAC_WILL then Step(l.(state := WillSeen), [], [])
      else if ch == IAC_WONT then Step(l.(state := WontSeen), [], [])
      else if ch == IAC_DO then Step(l.(state := DoSeen), [], [])
      else if ch == IAC_DONT then Step(l.(state := DontSeen), [], [])
      else if ch == IAC then Step(l.(state := Normal), [ch], [])
      else Step(l.(state := Normal), [], [])
    case WillSeen => BackToNormal(HandleWill(l, ch))
    case WontSeen => BackToNormal(HandleWont(l, ch))
    case DoSeen => BackToNormal(HandleDo(l, ch))
    case DontSeen => BackToNormal(HandleDont(l, ch))
  }

  /** Receive: process one byte arriving from the client. */
  function Receive(l: Line, ch: byte): (r: Step)
    // Data in the Normal state: passed on unchanged, NUL swallowed, CR remembered.
    ensures l.state == Normal && ch != IAC ==>
      r.line == l.(state := if ch == CHCRT then CrSeen else Normal) &&
      r.delivered == (if ch == CHNUL then [] else [ch]) && r.sent == []
    ensures l.state == Normal && ch == IAC ==>
      r.line == l.(state := IacSeen) && r.delivered == [] && r.sent == []
    // After a CR, LF and NUL are swallowed; anything else, even IAC or CR, is data.
    ensures l.state == CrSeen ==>
      r.line == l.(state := Normal) && r.sent == [] &&
      r.delivered == (if ch == CHNUL || ch == CHLFD then [] else [ch])
    // After an IAC: the four negotiation verbs select their state, IAC IAC
    // is a literal 255, and every other command is ignored.
    ensures l.state == IacSeen ==> SameOptions(r.line, l) && r.sent == []
    ensures l.state == IacSeen && ch == IAC ==> r.line.state == Normal && r.delivered == [IAC]
    ensures l.state == IacSeen && ch != IAC ==> r.delivered == []
    ensures l.state == IacSeen ==>
      r.line.state == (if ch == IAC_WILL then WillSeen
                       else if ch == IAC_WONT then WontSeen
                       else if ch == IAC_DO then DoSeen
                       else if ch == IAC_DONT then DontSeen
                       else Normal)
    // Each option state consumes exactly one byte, runs its handler and returns to Normal.
    ensures l.state in {WillSeen, WontSeen, DoSeen, DontSeen} ==> r.line.state == Normal && r.delivered == []
    ensures l.state == WillSeen ==> r == BackToNormal(HandleWill(l, ch))
    ensures l.state == WontSeen ==> r == BackToNormal(HandleWont(l, ch))
    ensures l.state == DoSeen ==> r == BackToNormal(HandleDo(l, ch))
    ensures l.state == DontSeen ==> r == BackToNormal(HandleDont(l, ch))
  {
    if l.state == Normal && ch != IAC then
      Step(l.(state := if ch == CHCRT then CrSeen else Normal), if ch != CHNUL then [ch] else [], [])
    else
      NextState(l, ch)
  }

  /** A step function applied to every byte of a buffer in order,
      concatenating what each byte delivers and sends. */
  function Run(step: (Line, byte) -> Step, l: Line, data: seq<byte>): (r: Step)
    decreases |data|
  {
    if data == [] then Step(l, [], [])
    else
      var first := step(l, data[0]);
      var rest := Run(step, first.line, data[1..]);
      Step(rest.line, first.delivered + rest.delivered, first.sent + rest.sent)
  }

  /** Receive applied to every byte of a buffer in order (SocketRead hands
      each received byte to Receive). */
  function ReceiveAll(l: Line, data: seq<byte>): Step
  {
    Run(Receive, l, data)
  }

  /** SetLocalEcho: ask the client to echo (fEcho, by WONT ECHO) or to stop
      echoing (by WILL ECHO). Nothing happens while a request is pending or
      when the client is already in the requested state. */
  function SetLocalEcho(l: Line, fEcho: bool): (r: Step)
    ensures r.delivered == [] && r.line.state == l.state
    ensures r.line.localSGA == l.localSGA && r.line.remoteSGA == l.remoteSGA
    ensures l.localEcho == Waiting || (fEcho && l.localEcho == Enabled) || (!fEcho && l.localEcho == Disabled)
            <==> r.line == l && r.sent == []
    ensures r.line != l ==> r.line.localEcho == Waiting &&
                            r.sent == (if fEcho then SendWont(OPT_ECHO) else SendWill(OPT_ECHO))
  {
    if l.localEcho == Waiting then Step(l, [], [])
    else if fEcho then
      if l.localEcho == Enabled then Step(l, [], [])
      else Step(l.(localEcho := Waiting), [], SendWont(OPT_ECHO))
    else
      if l.localEcho == Disabled then Step(l, [], [])
      else Step(l.(localEcho := Waiting), [], SendWill(OPT_ECHO))
  }

  /** SuppressGoAhead: offer WILL SGA and request DO SGA, each only for the
      side on which the option is not already enabled. */
  function SuppressGoAhead(l: Line): (r: Step)
    ensures r.delivered == [] && r.line.state == l.state && r.line.localEcho == l.localEcho
    ensures r.line.localSGA == (if l.localSGA == Enabled then Enabled else Waiting)
    ensures r.line.remoteSGA == (if l.remoteSGA == Enabled then Enabled else Waiting)
    ensures r.sent == (if l.localSGA == Enabled then [] else SendWill(OPT_SGA)) +
                      (if l.remoteSGA == Enabled then [] else SendDo(OPT_SGA))
  {
    var local := if l.localSGA != Enabled then Step(l.(localSGA := Waiting), [], SendWill(OPT_SGA)) else Step(l, [], []);
    var l1 := local.line;
    if l1.remoteSGA != Enabled then Step(l1.(remoteSGA := Waiting), [], local.sent + SendDo(OPT_SGA))
    else local
  }

  // ---------------------------------------------------------------------
  // Properties relating several steps.

  /** Any complete negotiation triple IAC, verb, option received in the
      Normal state leaves the line in the Normal state and delivers nothing. */
  lemma {:induction false} CommandTripleReturnsToNormal(l: Line, verb: byte, option: byte)
    requires l.state == Normal
    requires verb == IAC_WILL || verb == IAC_WONT || verb == IAC_DO || verb == IAC_DONT
    ensures ReceiveAll(l, [IAC, verb, option]).line.state == Normal
    ensures ReceiveAll(l, [IAC, verb, option]).delivered == []
  {
    ReceiveThree(l, IAC, verb, option);
  }

  /** An unsupported option is refused and no option state changes: WILL for
      anything but SGA is answered exactly by DONT, DO for anything but ECHO
      or SGA exactly by WONT. */
  lemma {:induction false} UnsupportedOptionsRefused(l: Line, option: byte)
    requires l.state == Normal
    requires option != OPT_SGA && option != OPT_ECHO
    ensures ReceiveAll(l, [IAC, IAC_WILL, option]) == Step(l, [], [IAC, IAC_DONT, option])
    ensures ReceiveAll(l, [IAC, IAC_DO, option]) == Step(l, [], [IAC, IAC_WONT, option])
  {
    ReceiveThree(l, IAC, IAC_WILL, option);
    ReceiveThree(l, IAC, IAC_DO, option);
  }

  /** Run over three bytes, written out step by step. */
  lemma {:induction false} RunThree(step: (Line, byte) -> Step, l: Line, a: byte, b: byte, c: byte)
    ensures var s1 := step(l, a);
            var s2 := step(s1.line, b);
            var s3 := step(s2.line, c);
            Run(step, l, [a, b, c]) ==
              Step(s3.line, s1.delivered + s2.delivered + s3.delivered, s1.sent + s2.sent + s3.sent)
  {
    var s1 := step(l, a);
    var s2 := step(s1.line, b);
    RunSingle(step, s2.line, c);
    assert [b, c] == [b] + [c];
    RunCons(step, s1.line, b, [c]);
    assert [a, b, c] == [a] + [b, c];
    RunCons(step, l, a, [b, c]);
  }

  /** ReceiveAll over three bytes, written out step by step. */
  lemma {:induction false} ReceiveThree(l: Line, a: byte, b: byte, c: byte)
    ensures var s1 := Receive(l, a);
            var s2 := Receive(s1.line, b);
            var s3 := Receive(s2.line, c);
            ReceiveAll(l, [a, b, c]) ==
              Step(s3.line, s1.delivered + s2.delivered + s3.delivered, s1.sent + s2.sent + s3.sent)
  {
    RunThree(Receive, l, a, b, c);
  }

  /** Run over a single byte is that byte's step. */
  lemma {:induction false} RunSingle(step: (Line, byte) -> Step, l: Line, ch: byte)
    ensures Run(step, l, [ch]) == step(l, ch)
  {
    var first := step(l, ch);
    assert [ch][1..] == [];
    assert first.delivered + [] == first.delivered;
    assert first.sent + [] == first.sent;
  }

  /** Run over a byte followed by more bytes. */
  lemma {:induction false} RunCons(step: (Line, byte) -> Step, l: Line, ch: byte, rest: seq<byte>)
    ensures var first := step(l, ch);
            var more := Run(step, first.line, rest);
            Run(step, l, [ch] + rest) == Step(more.line, first.delivered + more.delivered, first.sent + more.sent)
  {
    assert ([ch] + rest)[0] == ch;
    assert ([ch] + rest)[1..] == rest;
  }

  lemma {:induction false} ReceiveAllSingle(l: Line, ch: byte)
    ensures ReceiveAll(l, [ch]) == Receive(l, ch)
  {
    RunSingle(Receive, l, ch);
  }

  lemma {:induction false} ReceiveAllCons(l: Line, ch: byte, rest: seq<byte>)
    ensures var first := Receive(l, ch);
            var more := ReceiveAll(first.line, rest);
            ReceiveAll(l, [ch] + rest) == Step(more.line, first.delivered + more.delivered, first.sent + more.sent)
  {
    RunCons(Receive, l, ch, rest);
  }

  /** A new line that turns client echo off sends exactly IAC WILL ECHO. */
  lemma {:induction false} DisableEchoOnNewLine()
    ensures SetLocalEcho(NewLine(), false).sent == [255, 251, 1]
    ensures SetLocalEcho(NewLine(), false).line.localEcho == Waiting
  {
  }

  /** Echo negotiation terminates: after SetLocalEcho(false) on an echoing
      client, the client's DO ECHO reply completes the change without any
      further output, so no acknowledgement loop arises (RFC 855). */
  lemma {:induction false} EchoOffHandshake(l: Line)
    requires l.state == Normal && l.localEcho == Enabled
    ensures var s := SetLocalEcho(l, false);
            var reply := ReceiveAll(s.line, [IAC, IAC_DO, OPT_ECHO]);
            s.sent == [IAC, IAC_WILL, OPT_ECHO] &&
            reply.line == l.(localEcho := Disabled) && reply.sent == [] && reply.delivered == []
  {
    var s := SetLocalEcho(l, false);
    ReceiveThree(s.line, IAC, IAC_DO, OPT_ECHO);
  }

  /** The reverse negotiation: after SetLocalEcho(true) on a client that does
      not echo, the client's DONT ECHO reply restores local echo silently. */
  lemma {:induction false} EchoOnHandshake(l: Line)
    requires l.state == Normal && l.localEcho == Disabled
    ensures var s := SetLocalEcho(l, true);
            var reply := ReceiveAll(s.line, [IAC, IAC_DONT, OPT_ECHO]);
            s.sent == [IAC, IAC_WONT, OPT_ECHO] &&
            reply.line == l.(localEcho := Enabled) && reply.sent == [] && reply.delivered == []
  {
    var s := SetLocalEcho(l, true);
    ReceiveThree(s.line, IAC, IAC_DONT, OPT_ECHO);
  }

  /** SUPPRESS-GO-AHEAD negotiation terminates: once we have sent both
      requests, the client's agreeing WILL SGA and DO SGA enable both sides
      without provoking any further output. */
  lemma {:induction false} SuppressGoAheadHandshake(l: Line)
    requires l.state == Normal && l.localSGA == Disabled && l.remoteSGA == Disabled
    ensures var s := SuppressGoAhead(l);
            var r1 := ReceiveAll(s.line, [IAC, IAC_WILL, OPT_SGA]);
            var r2 := ReceiveAll(r1.line, [IAC, IAC_DO, OPT_SGA]);
            s.sent == [IAC, IAC_WILL, OPT_SGA, IAC, IAC_DO, OPT_SGA] &&
            r1.sent == [] && r2.sent == [] &&
            r2.line == l.(localSGA := Enabled, remoteSGA := Enabled)
  {
    var s := SuppressGoAhead(l);
    ReceiveThree(s.line, IAC, IAC_WILL, OPT_SGA);
    var r1 := ReceiveAll(s.line, [IAC, IAC_WILL, OPT_SGA]);
    ReceiveThree(r1.line, IAC, IAC_DO, OPT_SGA);
  }

  /** The sending side of the NVT convention of RFC 854: a literal 255 is
      doubled and a bare CR is followed by NUL. */
  function NvtEncode(data: seq<byte>): (w: seq<byte>)
    ensures |w| >= |data|
  {
    if data == [] then [] else NvtByte(data[0]) + NvtEncode(data[1..])
  }

  /** One byte as it goes on the wire: IAC doubled, CR followed by NUL. */
  function NvtByte(b: byte): (w: seq<byte>)
    ensures 1 <= |w| <= 2 && w[0] == b
  {
    if b == IAC then [IAC, IAC]
    else if b == CHCRT then [CHCRT, CHNUL]
    else [b]
  }

  /** Running over a concatenation is running over the two parts in turn. */
  lemma {:induction false} RunAppend(step: (Line, byte) -> Step, l: Line, a: seq<byte>, b: seq<byte>)
    ensures var ra := Run(step, l, a);
            var rb := Run(step, ra.line, b);
            Run(step, l, a + b) == Step(rb.line, ra.delivered + rb.delivered, ra.sent + rb.sent)
    decreases |a|
  {
    if a == [] {
      assert a + b == b;
    } else {
      var first := step(l, a[0]);
      RunAppend(step, first.line, a[1..], b);
      assert a == [a[0]] + a[1..];
      RunCons(step, l, a[0], a[1..]);
      assert a + b == [a[0]] + (a[1..] + b);
      RunCons(step, l, a[0], a[1..] + b);
    }
  }

  /** Decoding inverts the NVT encoding: any data free of NUL (which the
      receiver always discards), NVT-encoded and received in the Normal
      state, is delivered exactly, nothing is sent, and the line ends in the
      Normal state with its options untouched. */
  lemma {:induction false} ReceiveNvtEncode(l: Line, data: seq<byte>)
    requires l.state == Normal
    requires CHNUL !in data
    ensures ReceiveAll(l, NvtEncode(data)) == Step(l, data, [])
    decreases |data|
  {
    if data != [] {
      RunAppend(Receive, l, NvtByte(data[0]), NvtEncode(data[1..]));
      assert data[0] in data;
      ReceiveNvtByte(l, data[0]);
      assert forall x :: x in data[1..] ==> x in data;
      ReceiveNvtEncode(l, data[1..]);
      assert [data[0]] + data[1..] == data;
    }
  }

  /** One encoded byte other than NUL is received as itself, and the line
      is back in the Normal state with its options untouched. */
  lemma {:induction false} ReceiveNvtByte(l: Line, b: byte)
    requires l.state == Normal && b != CHNUL
    ensures ReceiveAll(l, NvtByte(b)) == Step(l, [b], [])
  {
    var head := NvtByte(b);
    if b == IAC || b == CHCRT {
      var mid := Receive(l, head[0]);
      assert mid.line.state != Normal && SameOptions(mid.line, l) && mid.delivered == (if b == IAC then [] else [CHCRT]) && mid.sent == [];
      var last := Receive(mid.line, head[1]);
      assert last.line == l && last.delivered == (if b == IAC then [IAC] else []) && last.sent == [];
      assert mid.delivered + last.delivered == [b];
      assert head == [head[0]] + [head[1]];
      ReceiveAllSingle(mid.line, head[1]);
      ReceiveAllCons(l, head[0], [head[1]]);
    } else {
      ReceiveAllSingle(l, head[0]);
    }
  }

  /** The NVT end-of-line CR LF delivers just the CR: the LF is swallowed. */
  lemma {:induction false} CrLfDeliversCr(l: Line)
    requires l.state == Normal
    ensures ReceiveAll(l, [CHCRT, CHLFD]) == Step(l, [CHCRT], [])
  {
    ReceiveAllSingle(Receive(l, CHCRT).line, CHLFD);
    assert [CHCRT, CHLFD] == [CHCRT] + [CHLFD];
    ReceiveAllCons(l, CHCRT, [CHLFD]);
  }
}
