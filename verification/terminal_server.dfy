/** The connection table of the Telnet terminal server (CTerminalServer).

    The server pairs a fixed array of line slots with a map from client
    socket to line number. Sockets are opaque integers; the socket library
    calls and the application callbacks become parameters (the result of
    accept(), of WSAAsyncSelect(), of the connect callback, of recv()) and
    entries in an event log (callbacks invoked, data handed over, sockets
    closed). */
module TerminalServer {
  import opened Bytes
  import opened Results
  import TelnetLine
  import Addresses

  const DEFAULT_PORT: uint16 := 23
  const DEFAULT_LINES: nat := 64
  /** The most bytes one recv() call reads. */
  const MAXRECV: nat := 1024

  type Socket = int

  /** An open connection: the client socket and its Telnet line. */
  datatype Connection = Connection(socket: Socket, line: TelnetLine.Line)

  /** `hasConnect` and `hasDisconnect` say whether the optional connect and
      disconnect callbacks were supplied; `running` stands for a non-zero
      server thread id. */
  datatype Server = Server(
    slots: seq<Option<Connection>>,
    sockets: map<Socket, nat>,
    port: uint16,
    ip: uint32,
    running: bool,
    hasConnect: bool,
    hasDisconnect: bool)

  /** What the server does outside its own tables. */
  datatype Event =
    | ConnectCallback(line: nat)
    | DisconnectCallback(line: nat)
    | ReceiveCallback(line: nat, data: seq<byte>)
    | Transmit(socket: Socket, data: seq<byte>)
    | CloseSocket(socket: Socket)

  /** A new server state and the events, in order, that produced it. */
  datatype Effect = Effect(server: Server, events: seq<Event>)

  /** The representation invariant: every mapped socket names an occupied
      slot that holds that socket, and every occupied slot's socket maps
      back to it. */
  predicate Valid(srv: Server)
  {
    (forall s | s in srv.sockets ::
       srv.sockets[s] < |srv.slots| && srv.slots[srv.sockets[s]].Some? &&
       srv.slots[srv.sockets[s]].value.socket == s) &&
    (forall n | 0 <= n < |srv.slots| && srv.slots[n].Some? ::
       srv.slots[n].value.socket in srv.sockets && srv.sockets[srv.slots[n].value.socket] == n)
  }

  /** The constructor: `maxLines` empty slots, an empty socket map, the
      default port on every interface, not running. */
  function NewServer(maxLines: nat, hasConnect: bool, hasDisconnect: bool): (srv: Server)
    requires 0 < maxLines <= DEFAULT_LINES
    ensures Valid(srv) && !srv.running
    ensures |srv.slots| == maxLines && forall n | 0 <= n < maxLines :: srv.slots[n].None?
    ensures srv.sockets == map[]
    ensures srv.port == DEFAULT_PORT && srv.ip == 0
  {
    Server(seq(maxLines, _ => None), map[], DEFAULT_PORT, 0, false, hasConnect, hasDisconnect)
  }

  predicate IsLineConnected(srv: Server, n: nat)
    requires n < |srv.slots|
  {
    srv.slots[n].Some?
  }

  predicate IsSocketConnected(srv: Server, skt: Socket)
  {
    skt in srv.sockets
  }

  function MaximumLines(srv: Server): nat
  {
    |srv.slots|
  }

  function ActiveLines(srv: Server): nat
  {
    |srv.sockets|
  }

  /** In a valid server a line is connected exactly when one socket, and
      only one, maps to it. */
  lemma {:induction false} ConnectedIffMapped(srv: Server, n: nat)
    requires Valid(srv) && n < |srv.slots|
    ensures IsLineConnected(srv, n) <==> exists s :: s in srv.sockets && srv.sockets[s] == n
    ensures forall s1, s2 | s1 in srv.sockets && s2 in srv.sockets && srv.sockets[s1] == n && srv.sockets[s2] == n ::
              s1 == s2
  {
    if IsLineConnected(srv, n) {
      var s := srv.slots[n].value.socket;
      assert s in srv.sockets && srv.sockets[s] == n;
    }
  }

  /** The line a socket maps to, with the map's operator[] semantics: an
      unknown socket yields line 0. */
  function LineOf(srv: Server, skt: Socket): nat
  {
    if skt in srv.sockets then srv.sockets[skt] else 0
  }

  /** SocketToLine uses the map's operator[], which inserts a mapping to
      line 0 for a socket that is not there yet. */
  function SocketToLine(srv: Server, skt: Socket): (r: (Server, nat))
    ensures skt in srv.sockets ==> r == (srv, srv.sockets[skt])
    ensures skt !in srv.sockets ==> r.1 == 0 && r.0 == srv.(sockets := srv.sockets[skt := 0])
  {
    if skt in srv.sockets then (srv, srv.sockets[skt])
    else (srv.(sockets := srv.sockets[skt := 0]), 0)
  }

  /** The lowest-numbered free slot at or after `from`, or |slots| when
      every one of them is occupied. */
  function FirstFree(slots: seq<Option<Connection>>, from: nat): (n: nat)
    requires from <= |slots|
    ensures from <= n <= |slots|
    ensures forall k | from <= k < n :: slots[k].Some?
    ensures n < |slots| ==> slots[n].None?
    decreases |slots| - from
  {
    if from == |slots| || slots[from].None? then from else FirstFree(slots, from + 1)
  }

  datatype AcceptOutcome =
    | AcceptFailed
    | SelectFailed
    | NoFreeLine
    | Refused(line: nat)
    | Connected(line: nat)

  datatype Accepted = Accepted(server: Server, outcome: AcceptOutcome, events: seq<Event>)

  /** SocketAccept. `client` is what accept() returned (None for
      INVALID_SOCKET), `selectOk` whether WSAAsyncSelect succeeded on it and
      `answer` what the connect callback returns, when there is one. The new
      connection takes the lowest free line; on any failure after accept()
      the socket is closed and the tables are left as they were. */
  function Accept(srv: Server, client: Option<Socket>, selectOk: bool, answer: bool): (r: Accepted)
    ensures client.None? ==> r == Accepted(srv, AcceptFailed, [])
    ensures r.outcome.Connected? ==>
              var n := r.outcome.line;
              client.Some? && n < |srv.slots| && srv.slots[n].None? &&
              (forall k | 0 <= k < n :: srv.slots[k].Some?) &&
              r.server == srv.(slots := srv.slots[n := Some(Connection(client.value, TelnetLine.NewLine()))],
                               sockets := srv.sockets[client.value := n])
    ensures !r.outcome.Connected? ==> r.server == srv
    ensures r.outcome.NoFreeLine? <==> client.Some? && selectOk && forall k | 0 <= k < |srv.slots| :: srv.slots[k].Some?
    ensures r.outcome.Refused? <==> client.Some? && selectOk && FirstFree(srv.slots, 0) < |srv.slots| &&
                                    srv.hasConnect && !answer
    ensures client.Some? && !r.outcome.Connected? ==> |r.events| > 0 && r.events[|r.events| - 1] == CloseSocket(client.value)
  {
    match client
    case None => Accepted(srv, AcceptFailed, [])
    case Some(skt) =>
      if !selectOk then Accepted(srv, SelectFailed, [CloseSocket(skt)])
      else
        var n := FirstFree(srv.slots, 0);
        if n >= |srv.slots| then Accepted(srv, NoFreeLine, [CloseSocket(skt)])
        else
          var asked := if srv.hasConnect then [ConnectCallback(n)] else [];
          if srv.hasConnect && !answer then Accepted(srv, Refused(n), asked + [CloseSocket(skt)])
          else
            var conn := Connection(skt, TelnetLine.NewLine());
            Accepted(srv.(slots := srv.slots[n := Some(conn)], sockets := srv.sockets[skt := n]),
                     Connected(n), asked)
  }

  /** Accepting keeps the invariant, given that accept() never hands out a
      socket that is still open. */
  lemma {:induction false} AcceptValid(srv: Server, client: Option<Socket>, selectOk: bool, answer: bool)
    requires Valid(srv)
    requires client.Some? ==> client.value !in srv.sockets
    ensures Valid(Accept(srv, client, selectOk, answer).server)
  {
    var r := Accept(srv, client, selectOk, answer);
    if r.outcome.Connected? {
      var n := r.outcome.line;
      var c := client.value;
      var srv' := r.server;
      forall s | s in srv'.sockets
        ensures srv'.sockets[s] < |srv'.slots| && srv'.slots[srv'.sockets[s]].Some? &&
                srv'.slots[srv'.sockets[s]].value.socket == s
      {
        if s != c {
          assert srv.sockets[s] != n;
        }
      }
      forall k | 0 <= k < |srv'.slots| && srv'.slots[k].Some?
        ensures srv'.slots[k].value.socket in srv'.sockets && srv'.sockets[srv'.slots[k].value.socket] == k
      {
        if k != n {
          assert srv.slots[k].value.socket != c;
        }
      }
    }
  }

  /** Disconnect(nLine): the disconnect callback runs first, then the
      client socket is closed and the line leaves both tables. The line
      must be connected (the source asserts it). */
  function Disconnect(srv: Server, n: nat): (r: Effect)
    requires n < |srv.slots| && srv.slots[n].Some?
    ensures var skt := srv.slots[n].value.socket;
            r.server == srv.(slots := srv.slots[n := None], sockets := srv.sockets - {skt}) &&
            |r.events| > 0 && r.events[|r.events| - 1] == CloseSocket(skt) &&
            (srv.hasDisconnect <==> r.events[0] == DisconnectCallback(n))
  {
    var skt := srv.slots[n].value.socket;
    var notify := if srv.hasDisconnect then [DisconnectCallback(n)] else [];
    Effect(srv.(slots := srv.slots[n := None], sockets := srv.sockets - {skt}), notify + [CloseSocket(skt)])
  }

  /** Disconnecting keeps the invariant and frees exactly that line. */
  lemma {:induction false} DisconnectValid(srv: Server, n: nat)
    requires Valid(srv) && n < |srv.slots| && srv.slots[n].Some?
    ensures var srv' := Disconnect(srv, n).server;
            Valid(srv') && !IsLineConnected(srv', n) &&
            ActiveLines(srv') == ActiveLines(srv) - 1 &&
            forall k | 0 <= k < |srv.slots| && k != n :: srv'.slots[k] == srv.slots[k]
  {
    var skt := srv.slots[n].value.socket;
    var srv' := Disconnect(srv, n).server;
    forall k | 0 <= k < |srv'.slots| && srv'.slots[k].Some?
      ensures srv'.slots[k].value.socket in srv'.sockets && srv'.sockets[srv'.slots[k].value.socket] == k
    {
      assert srv.slots[k].value.socket != skt;
    }
  }

  /** The result of one recv() call: an error, or the bytes read (none when
      the peer has closed the connection). */
  datatype Recv = RecvError | RecvData(bytes: seq<byte>)

  /** The bytes handed to the receive callbacks among `events`, in order. */
  function Callbacks(events: seq<Event>): seq<byte>
  {
    if events == [] then []
    else (if events[0].ReceiveCallback? then events[0].data else []) + Callbacks(events[1..])
  }

  /** The bytes sent on sockets among `events`, in order. */
  function Transmitted(events: seq<Event>): seq<byte>
  {
    if events == [] then []
    else (if events[0].Transmit? then events[0].data else []) + Transmitted(events[1..])
  }

  lemma {:induction false} CallbacksAppend(a: seq<Event>, b: seq<Event>)
    ensures Callbacks(a + b) == Callbacks(a) + Callbacks(b)
    decreases |a|
  {
    if a == [] {
      assert a + b == b;
    } else {
      var ab := a + b;
      assert ab[0] == a[0] && ab[1..] == a[1..] + b;
      CallbacksAppend(a[1..], b);
    }
  }

  lemma {:induction false} TransmittedAppend(a: seq<Event>, b: seq<Event>)
    ensures Transmitted(a + b) == Transmitted(a) + Transmitted(b)
    decreases |a|
  {
    if a == [] {
      assert a + b == b;
    } else {
      var ab := a + b;
      assert ab[0] == a[0] && ab[1..] == a[1..] + b;
      TransmittedAppend(a[1..], b);
    }
  }

  /** Both streams of a concatenation are the concatenated streams. */
  lemma StreamsAppend(a: seq<Event>, b: seq<Event>)
    ensures Callbacks(a + b) == Callbacks(a) + Callbacks(b)
    ensures Transmitted(a + b) == Transmitted(a) + Transmitted(b)
  {
    CallbacksAppend(a, b);
    TransmittedAppend(a, b);
  }

  /** How a read reaches the outside, one received byte at a time: each
      delivered byte is one receive callback for line `n`, and each reply
      is one non-empty send() on the line's socket `skt`. */
  predicate PerByte(n: nat, skt: Socket, events: seq<Event>)
  {
    forall k | 0 <= k < |events| ::
      (events[k].ReceiveCallback? && events[k].line == n && |events[k].data| == 1) ||
      (events[k].Transmit? && events[k].socket == skt && events[k].data != [])
  }

  lemma {:induction false} PerByteAppend(n: nat, skt: Socket, a: seq<Event>, b: seq<Event>)
    requires PerByte(n, skt, a) && PerByte(n, skt, b)
    ensures PerByte(n, skt, a + b)
  {
    forall k | 0 <= k < |a + b|
      ensures ((a + b)[k].ReceiveCallback? && (a + b)[k].line == n && |(a + b)[k].data| == 1) ||
              ((a + b)[k].Transmit? && (a + b)[k].socket == skt && (a + b)[k].data != [])
    {
      if k < |a| { assert (a + b)[k] == a[k]; } else { assert (a + b)[k] == b[k - |a|]; }
    }
  }

  /** Events of that form with no byte in either stream are no events. */
  lemma {:induction false} SilentIsEmpty(n: nat, skt: Socket, events: seq<Event>)
    ensures PerByte(n, skt, events) && Callbacks(events) == [] && Transmitted(events) == [] ==> events == []
  {
    if events != [] && PerByte(n, skt, events) {
      assert events[0].ReceiveCallback? || events[0].Transmit?;
      assert events == [events[0]] + events[1..];
      StreamsAppend([events[0]], events[1..]);
    }
  }

  /** CTerminalLine::Receive(ch) seen from outside: a delivered byte is
      passed to the receive callback there and then, and a reply is sent at
      once by its own send(); a byte that does neither causes nothing. */
  function ByteEvents(n: nat, skt: Socket, s: TelnetLine.Step): seq<Event>
  {
    (if s.delivered == [] then [] else [ReceiveCallback(n, s.delivered)]) +
    (if s.sent == [] then [] else [Transmit(skt, s.sent)])
  }

  /** The events of one step carry what it delivers and what it sends,
      at most one event of each. */
  lemma {:induction false} ByteEventsStreams(n: nat, skt: Socket, s: TelnetLine.Step)
    ensures var e := ByteEvents(n, skt, s);
            |e| <= 2 && Callbacks(e) == s.delivered && Transmitted(e) == s.sent
  {
    var callback: seq<Event> := if s.delivered == [] then [] else [ReceiveCallback(n, s.delivered)];
    var reply: seq<Event> := if s.sent == [] then [] else [Transmit(skt, s.sent)];
    assert ByteEvents(n, skt, s) == callback + reply;
    StreamsAppend(callback, reply);
  }

  /** Receive delivers at most one byte, so its events are per byte. */
  lemma {:induction false} ByteEventsOf(n: nat, skt: Socket, l: TelnetLine.Line, ch: byte)
    ensures PerByte(n, skt, ByteEvents(n, skt, TelnetLine.Receive(l, ch)))
  {
    var s := TelnetLine.Receive(l, ch);
    assert |s.delivered| <= 1;
  }

  /** The loop of SocketRead: `step` (CTerminalLine::Receive) on each byte
      in turn, for line `n` whose socket is `skt`, giving the line it
      leaves and the events in the order they happen. */
  function FeedBytes(step: (TelnetLine.Line, byte) -> TelnetLine.Step, n: nat, skt: Socket,
                     l: TelnetLine.Line, data: seq<byte>): (r: (TelnetLine.Line, seq<Event>))
    ensures |r.1| <= 2 * |data|
    decreases |data|
  {
    if data == [] then (l, [])
    else
      var s := step(l, data[0]);
      var rest := FeedBytes(step, n, skt, s.line, data[1..]);
      ByteEventsStreams(n, skt, s);
      (rest.0, ByteEvents(n, skt, s) + rest.1)
  }

  /** Fed through Receive, every event of a read is one delivered byte or
      one non-empty reply. */
  lemma {:induction false} FeedPerByte(n: nat, skt: Socket, l: TelnetLine.Line, data: seq<byte>)
    ensures PerByte(n, skt, FeedBytes(TelnetLine.Receive, n, skt, l, data).1)
    decreases |data|
  {
    if data != [] {
      var s := TelnetLine.Receive(l, data[0]);
      FeedPerByte(n, skt, s.line, data[1..]);
      ByteEventsOf(n, skt, l, data[0]);
      PerByteAppend(n, skt, ByteEvents(n, skt, s), FeedBytes(TelnetLine.Receive, n, skt, s.line, data[1..]).1);
    }
  }

  /** Split per byte, the read does what Run computes over the whole
      buffer: the same final line, the delivered bytes as the callbacks'
      stream and the replies as the socket's stream. */
  lemma {:induction false} FeedMatchesRun(step: (TelnetLine.Line, byte) -> TelnetLine.Step, n: nat, skt: Socket,
                                          l: TelnetLine.Line, data: seq<byte>)
    ensures var r := FeedBytes(step, n, skt, l, data);
            var all := TelnetLine.Run(step, l, data);
            r.0 == all.line && Callbacks(r.1) == all.delivered && Transmitted(r.1) == all.sent
    decreases |data|
  {
    if data != [] {
      var s := step(l, data[0]);
      FeedMatchesRun(step, n, skt, s.line, data[1..]);
      ByteEventsStreams(n, skt, s);
      StreamsAppend(ByteEvents(n, skt, s), FeedBytes(step, n, skt, s.line, data[1..]).1);
      assert data == [data[0]] + data[1..];
      TelnetLine.RunCons(step, l, data[0], data[1..]);
    }
  }

  /** One byte, then the rest. */
  lemma FeedCons(step: (TelnetLine.Line, byte) -> TelnetLine.Step, n: nat, skt: Socket,
                 l: TelnetLine.Line, ch: byte, rest: seq<byte>)
    ensures var s := step(l, ch);
            var tail := FeedBytes(step, n, skt, s.line, rest);
            FeedBytes(step, n, skt, l, [ch] + rest) == (tail.0, ByteEvents(n, skt, s) + tail.1)
  {
    assert ([ch] + rest)[0] == ch && ([ch] + rest)[1..] == rest;
  }

  /** Feeding two pieces one after the other is feeding them joined. */
  lemma {:induction false} FeedAppend(step: (TelnetLine.Line, byte) -> TelnetLine.Step, n: nat, skt: Socket,
                                      l: TelnetLine.Line, a: seq<byte>, b: seq<byte>)
    ensures var ra := FeedBytes(step, n, skt, l, a);
            var rb := FeedBytes(step, n, skt, ra.0, b);
            FeedBytes(step, n, skt, l, a + b) == (rb.0, ra.1 + rb.1)
    decreases |a|, 1
  {
    if a == [] {
      assert a + b == b;
      var ra := FeedBytes(step, n, skt, l, a);
      assert ra == (l, []);
      var rb := FeedBytes(step, n, skt, l, b);
      assert ra.1 + rb.1 == rb.1;
    } else {
      FeedAppendCons(step, n, skt, l, a, b);
    }
  }

  /** The inductive step of FeedAppend: the first byte's events come
      first either way. */
  lemma {:induction false} FeedAppendCons(step: (TelnetLine.Line, byte) -> TelnetLine.Step, n: nat, skt: Socket,
                                          l: TelnetLine.Line, a: seq<byte>, b: seq<byte>)
    requires a != []
    ensures var ra := FeedBytes(step, n, skt, l, a);
            var rb := FeedBytes(step, n, skt, ra.0, b);
            FeedBytes(step, n, skt, l, a + b) == (rb.0, ra.1 + rb.1)
    decreases |a|, 0
  {
    var s := step(l, a[0]);
    var here := ByteEvents(n, skt, s);
    var tail := FeedBytes(step, n, skt, s.line, a[1..]);
    var rb := FeedBytes(step, n, skt, tail.0, b);
    var joined := FeedBytes(step, n, skt, s.line, a[1..] + b);
    assert joined == (rb.0, tail.1 + rb.1) by {
      FeedAppend(step, n, skt, s.line, a[1..], b);
    }
    assert FeedBytes(step, n, skt, l, a) == (tail.0, here + tail.1) by {
      assert a == [a[0]] + a[1..];
      FeedCons(step, n, skt, l, a[0], a[1..]);
    }
    assert FeedBytes(step, n, skt, l, a + b) == (joined.0, here + joined.1) by {
      assert a + b == [a[0]] + (a[1..] + b);
      FeedCons(step, n, skt, l, a[0], a[1..] + b);
    }
    assert here + (tail.1 + rb.1) == (here + tail.1) + rb.1;
  }

  /** SocketRead(skt): look the socket up, then on a read error do
      nothing, on an empty read disconnect the line, and otherwise feed
      every byte through the line's Telnet engine. Each byte it delivers is
      one receive callback and each reply one send on the line's socket, in
      the order the bytes cause them; a read that delivers and answers
      nothing (a lone WONT, say) causes no event at all. The line found must
      be connected (the source asserts it). */
  function SocketRead(srv: Server, skt: Socket, recv: Recv): (r: Effect)
    requires LineOf(srv, skt) < |srv.slots| && srv.slots[LineOf(srv, skt)].Some?
    ensures skt in srv.sockets && recv.RecvError? ==> r == Effect(srv, [])
    ensures skt in srv.sockets && recv == RecvData([]) ==> r == Disconnect(srv, srv.sockets[skt])
    ensures recv.RecvData? && recv.bytes != [] ==>
              var n := LineOf(srv, skt);
              var conn := srv.slots[n].value;
              var step := TelnetLine.ReceiveAll(conn.line, recv.bytes);
              r.server.slots == srv.slots[n := Some(conn.(line := step.line))] &&
              PerByte(n, conn.socket, r.events) &&
              Callbacks(r.events) == step.delivered && Transmitted(r.events) == step.sent &&
              (step.delivered == [] && step.sent == [] ==> r.events == [])
  {
    var (srv1, n) := SocketToLine(srv, skt);
    var conn := srv1.slots[n].value;
    match recv
    case RecvError => Effect(srv1, [])
    case RecvData(bytes) =>
      if bytes == [] then Disconnect(srv1, n)
      else
        var fed := FeedBytes(TelnetLine.Receive, n, conn.socket, conn.line, bytes);
        FeedMatchesRun(TelnetLine.Receive, n, conn.socket, conn.line, bytes);
        FeedPerByte(n, conn.socket, conn.line, bytes);
        SilentIsEmpty(n, conn.socket, fed.1);
        Effect(srv1.(slots := srv1.slots[n := Some(conn.(line := fed.0))]), fed.1)
  }

  /** Reading from a connected socket keeps the invariant. */
  lemma {:induction false} SocketReadValid(srv: Server, skt: Socket, recv: Recv)
    requires Valid(srv) && skt in srv.sockets
    ensures Valid(SocketRead(srv, skt, recv).server)
  {
    if recv == RecvData([]) {
      DisconnectValid(srv, srv.sockets[skt]);
    }
  }

  /** Data that arrives in two reads is handled as if it had arrived in
      one: the line ends in the same state, and the same callbacks and
      sends happen in the same order. */
  lemma {:induction false} SocketReadSplit(srv: Server, skt: Socket, a: seq<byte>, b: seq<byte>)
    requires Valid(srv) && skt in srv.sockets
    requires a != [] && b != []
    ensures var r1 := SocketRead(srv, skt, RecvData(a));
            var r2 := SocketRead(r1.server, skt, RecvData(b));
            var r := SocketRead(srv, skt, RecvData(a + b));
            r2.server == r.server && r1.events + r2.events == r.events
  {
    var n := srv.sockets[skt];
    var conn := srv.slots[n].value;
    var fa := FeedBytes(TelnetLine.Receive, n, conn.socket, conn.line, a);
    var fb := FeedBytes(TelnetLine.Receive, n, conn.socket, fa.0, b);
    ReadData(srv, skt, a);
    var srv1 := srv.(slots := srv.slots[n := Some(conn.(line := fa.0))]);
    assert srv1.sockets[skt] == n && srv1.slots[n].value == conn.(line := fa.0);
    ReadData(srv1, skt, b);
    ReadData(srv, skt, a + b);
    FeedAppend(TelnetLine.Receive, n, conn.socket, conn.line, a, b);
    assert srv1.slots[n := Some(conn.(line := fb.0))] == srv.slots[n := Some(conn.(line := fb.0))];
  }

  /** A data read from a connected socket, written out. */
  lemma {:induction false} ReadData(srv: Server, skt: Socket, bytes: seq<byte>)
    requires skt in srv.sockets && srv.sockets[skt] < |srv.slots| && srv.slots[srv.sockets[skt]].Some?
    requires bytes != []
    ensures var n := srv.sockets[skt];
            var conn := srv.slots[n].value;
            var fed := FeedBytes(TelnetLine.Receive, n, conn.socket, conn.line, bytes);
            SocketRead(srv, skt, RecvData(bytes)) ==
              Effect(srv.(slots := srv.slots[n := Some(conn.(line := fed.0))]), fed.1)
  {
  }

  /** Disconnect every connected line from `from` on, in line order. */
  function DisconnectFrom(srv: Server, from: nat): (r: Effect)
    requires from <= |srv.slots|
    ensures |r.server.slots| == |srv.slots|
    ensures forall k | 0 <= k < from :: r.server.slots[k] == srv.slots[k]
    ensures forall k | from <= k < |srv.slots| :: r.server.slots[k].None?
    ensures r.server.port == srv.port && r.server.ip == srv.ip && r.server.running == srv.running
    decreases |srv.slots| - from
  {
    if from == |srv.slots| then Effect(srv, [])
    else if srv.slots[from].None? then DisconnectFrom(srv, from + 1)
    else
      var first := Disconnect(srv, from);
      var rest := DisconnectFrom(first.server, from + 1);
      Effect(rest.server, first.events + rest.events)
  }

  lemma {:induction false} DisconnectFromValid(srv: Server, from: nat)
    requires Valid(srv) && from <= |srv.slots|
    ensures Valid(DisconnectFrom(srv, from).server)
    decreases |srv.slots| - from
  {
    if from < |srv.slots| {
      if srv.slots[from].None? {
        DisconnectFromValid(srv, from + 1);
      } else {
        DisconnectValid(srv, from);
        DisconnectFromValid(Disconnect(srv, from).server, from + 1);
      }
    }
  }

  /** The sockets held by occupied slots. */
  function OccupiedSockets(srv: Server): set<Socket>
  {
    set k | 0 <= k < |srv.slots| && srv.slots[k].Some? :: srv.slots[k].value.socket
  }

  /** In a valid server the mapped sockets are exactly the sockets of the
      occupied slots, so ActiveLines counts the connected lines. */
  lemma {:induction false} MappedSocketsOccupied(srv: Server)
    requires Valid(srv)
    ensures srv.sockets.Keys == OccupiedSockets(srv)
    ensures ActiveLines(srv) == |OccupiedSockets(srv)|
  {
    forall s | s in srv.sockets ensures s in OccupiedSockets(srv) {
      var k := srv.sockets[s];
      assert srv.slots[k].value.socket == s;
    }
  }

  /** StopServer: if running, disconnect every connected line and stop the
      server thread; otherwise do nothing. */
  function StopServer(srv: Server): (r: Effect)
    ensures !srv.running ==> r == Effect(srv, [])
    ensures srv.running ==> !r.server.running && |r.server.slots| == |srv.slots| &&
                            forall k | 0 <= k < |srv.slots| :: r.server.slots[k].None?
  {
    if !srv.running then Effect(srv, [])
    else
      var e := DisconnectFrom(srv, 0);
      Effect(e.server.(running := false), e.events)
  }

  /** Stopping a valid running server leaves no connection behind in either
      table. */
  lemma {:induction false} StopServerEmpties(srv: Server)
    requires Valid(srv) && srv.running
    ensures var srv' := StopServer(srv).server;
            Valid(srv') && srv'.sockets == map[] && ActiveLines(srv') == 0
  {
    DisconnectFromValid(srv, 0);
    var srv' := StopServer(srv).server;
    MappedSocketsOccupied(srv');
    assert OccupiedSockets(srv') == {};
  }

  /** StartServer(nPort, lIP): a running server reports success unchanged,
      whatever the port, because that test comes before the assertion that
      the port is positive; otherwise the address is recorded and the
      server runs when its thread could be created (`threadOk`). */
  function StartServer(srv: Server, port: uint16, ip: uint32, threadOk: bool): (r: (Server, bool))
    requires !srv.running ==> port > 0
    ensures srv.running ==> r == (srv, true)
    ensures !srv.running ==> r.0 == srv.(port := port, ip := ip, running := threadOk) && r.1 == threadOk
  {
    if srv.running then (srv, true)
    else (srv.(port := port, ip := ip, running := threadOk), threadOk)
  }

  /** SetServerPort: refused while the server runs. */
  function SetServerPort(srv: Server, port: uint16): (r: (Server, bool))
    ensures r.1 <==> !srv.running
    ensures r.1 ==> r.0 == srv.(port := port)
    ensures !r.1 ==> r.0 == srv
  {
    if srv.running then (srv, false) else (srv.(port := port), true)
  }

  /** SetServerIP: refused while the server runs. */
  function SetServerIP(srv: Server, ip: uint32): (r: (Server, bool))
    ensures r.1 <==> !srv.running
    ensures r.1 ==> r.0 == srv.(ip := ip)
    ensures !r.1 ==> r.0 == srv
  {
    if srv.running then (srv, false) else (srv.(ip := ip), true)
  }

  /** SetServerAddress: refused while the server runs, otherwise whatever
      ParseIPaddress makes of the text. */
  function SetServerAddress(srv: Server, text: string): (r: (Server, bool))
    ensures srv.running ==> r == (srv, false)
    ensures !r.1 ==> r.0 == srv
    ensures !srv.running ==>
              var p := Addresses.ParseIPaddress(text, srv.ip, srv.port);
              r == (srv.(ip := p.ip, port := p.port), p.ok)
  {
    if srv.running then (srv, false)
    else
      var p := Addresses.ParseIPaddress(text, srv.ip, srv.port);
      (srv.(ip := p.ip, port := p.port), p.ok)
  }

  /** GetServerAddress: the listening address as FormatIPaddress prints
      it. Setting it back from that text restores the port and address,
      except that a zero port is not printed and so is not restored. */
  function GetServerAddress(srv: Server): string
  {
    Addresses.FormatIPaddress(srv.ip, srv.port)
  }

  lemma {:induction false} ServerAddressRoundTrip(srv: Server, other: Server)
    requires !other.running
    ensures var r := SetServerAddress(other, GetServerAddress(srv));
            r.1 && r.0.ip == srv.ip && r.0.port == (if srv.port != 0 then srv.port else other.port)
  {
    Addresses.ParseFormatted(srv.ip, srv.port, other.ip, other.port);
  }
}
