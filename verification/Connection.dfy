/**
  The connection as its callbacks change it, on the loop thread: pure functions of
  the state and of what libuv, OpenSSL and the application's handlers do. Results
  of foreign calls are inputs; a handler is the list of things it does to the
  connection.
 */
module Connection {
  import opened Wire

  datatype Phase =
    | Invalid
    | PreConnect
    | Starved
    | Established
    | DisconnectedError
    | DisconnectedRemote
    | DisconnectedLocal

  predicate Over(p: Phase) {
    p.DisconnectedError? || p.DisconnectedRemote? || p.DisconnectedLocal?
  }

  /** Calls of the application's handlers. */
  datatype Call =
    | EstablishedCall
    | ReadCall(data: Bytes)
    | DisconnectCall(local: bool)
    | ErrorCall(err: int)

  /** Which handlers have been set. */
  datatype Handlers = Handlers(verify: bool, established: bool, read: bool, error: bool, disconnect: bool)

  /**
    shutdowns: how often Shutdown has closed the handles. entered and log
    record the phases assigned and the handlers called, in order; sslWrites the
    buffers Write has passed to SSL_write on the loop thread; received the buffers
    put into the BIO.
   */
  datatype Conn = Conn(
    handlers: Handlers, phase: Phase, err: int, shutdowns: nat,
    entered: seq<Phase>, log: seq<Call>, sslWrites: seq<Bytes>, received: seq<Bytes>)
  {
    /** The socket and both async handles have been closed. */
    const closed: bool := shutdowns > 0
  }

  function NewConn(h: Handlers): Conn {
    Conn(h, PreConnect, 0, 0, [PreConnect], [], [], [])
  }

  datatype WriteResult = Written | WriteClosed | WriteFailed(err: int)

  /** What a handler may do to the connection it is called from. */
  datatype Act = Writes(buf: Bytes, result: WriteResult) | Disconnects

  datatype ConnectResult = Connected | ConnectWants | ConnectClosed | ConnectFailed(err: int)

  /** A certificate of the peer's chain, as i2d_X509 encodes it or fails to. */
  datatype Encoding = Der(der: Bytes) | NotEncoded(err: int)

  /**
    One SSL_connect: the chain that the verify callback inside it is given, what a
    verify handler does and what it or the system verifier answers; what
    SSL_connect returns; and what the established handler does.
   */
  datatype Handshake = Handshake(
    certs: seq<Encoding>, verifyActs: seq<Act>, verdict: bool, result: ConnectResult, acts: seq<Act>)

  /** The error of the first certificate that cannot be encoded. */
  function Fault(certs: seq<Encoding>): Option<int> {
    if certs == [] then None
    else match certs[0]
      case NotEncoded(e) => Some(e)
      case Der(_) => Fault(certs[1..])
  }

  datatype ConnectEvent = ConnectError(err: int) | ReadStartError(err: int) | TcpConnected(hs: Handshake)

  datatype SslRead = ReadWants | ReadClosed | ReadFailed(err: int) | ReadGot(data: Bytes, acts: seq<Act>)

  datatype ReadEvent =
    | Eof
    | SocketError(err: int)
    | Nothing
    | Incoming(data: Bytes, hs: Handshake, sslReads: seq<SslRead>)

  // ---------------------------------------------------------------- pieces

  function Enter(c: Conn, p: Phase): Conn {
    c.(phase := p, entered := c.entered + [p])
  }

  function Shutdown(c: Conn, p: Phase): Conn {
    Enter(c, p).(shutdowns := c.shutdowns + 1)
  }

  function ShutdownError(c: Conn, e: int): Conn {
    Shutdown(c.(err := e), DisconnectedError)
  }

  function ShutdownRemote(c: Conn): Conn {
    Shutdown(c, DisconnectedRemote)
  }

  /** What Write does with the result of SSL_write. */
  function AfterWrite(c: Conn, r: WriteResult): Conn {
    match r
    case Written => c
    case WriteClosed => ShutdownRemote(c)
    case WriteFailed(e) => ShutdownError(c, e)
  }

  function DoAct(c: Conn, a: Act): Conn {
    match a
    case Writes(b, r) => AfterWrite(c.(sslWrites := c.sslWrites + [b]), r)
    case Disconnects => Shutdown(c, DisconnectedLocal)
  }

  function DoActs(c: Conn, acts: seq<Act>): Conn
    decreases |acts|
  {
    if acts == [] then c else DoActs(DoAct(c, acts[0]), acts[1..])
  }

  /** The writes the drain makes for the buffers of a queue. */
  function WritesOf(q: seq<Bytes>, rs: seq<WriteResult>): seq<Act>
    requires |q| == |rs|
    decreases |q|
  {
    if q == [] then [] else [Writes(q[0], rs[0])] + WritesOf(q[1..], rs[1..])
  }

  function Invoke(c: Conn, isSet: bool, call: Call, acts: seq<Act>): Conn {
    if isSet then DoActs(c.(log := c.log + [call]), acts) else c
  }

  /** The verify callback: a certificate it cannot encode is an error, otherwise the handler runs. */
  function Verify(c: Conn, hs: Handshake): Conn {
    match Fault(hs.certs)
    case Some(e) => ShutdownError(c, e)
    case None => if c.handlers.verify then DoActs(c, hs.verifyActs) else c
  }

  /** TransitionToConnectionEstablishedState: does not look at the phase it overwrites. */
  function Establish(c: Conn, acts: seq<Act>): Conn {
    Invoke(Enter(c, Established), c.handlers.established, EstablishedCall, acts)
  }

  /** HandleStarvedConnectState; it answers true only for a completed handshake. */
  function HandleStarved(c: Conn, hs: Handshake): Conn {
    var v := Verify(c, hs);
    match hs.result
    case ConnectWants => v
    case ConnectFailed(e) => ShutdownError(v, e)
    case ConnectClosed => ShutdownRemote(v)
    case Connected => Establish(v, hs.acts)
  }

  function OnConnect(c: Conn, ev: ConnectEvent): Conn {
    match ev
    case ConnectError(e) => ShutdownError(c, e)
    case ReadStartError(e) => ShutdownError(c, e)
    case TcpConnected(hs) => HandleStarved(Enter(c, Starved), hs)
  }

  /** The SSL_read loop. A handler that shuts the connection down does not stop it. */
  function ReadLoop(c: Conn, sslReads: seq<SslRead>): Conn
    decreases |sslReads|
  {
    if sslReads == [] then c
    else match sslReads[0]
      case ReadWants => c
      case ReadClosed => ShutdownRemote(c)
      case ReadFailed(e) => ShutdownError(c, e)
      case ReadGot(data, acts) => ReadLoop(Invoke(c, c.handlers.read, ReadCall(data), acts), sslReads[1..])
  }

  function OnRead(c: Conn, ev: ReadEvent): Conn {
    if !c.phase.Starved? && !c.phase.Established? then c
    else match ev
      case Eof => ShutdownRemote(c)
      case SocketError(e) => ShutdownError(c, e)
      case Nothing => ShutdownRemote(c)
      case Incoming(data, hs, sslReads) =>
        var b := c.(received := c.received + [data]);
        var d := if c.phase.Starved? then HandleStarved(b, hs) else b;
        if c.phase.Starved? && !hs.result.Connected? then d
        else if d.phase.Established? then ReadLoop(d, sslReads)
        else d
  }

  /** The end of TLSConnectionThread: one end handler, or NotReached. */
  function EndCalls(c: Conn): Option<Conn> {
    match c.phase
    case DisconnectedLocal => Some(Invoke(c, c.handlers.disconnect, DisconnectCall(true), []))
    case DisconnectedRemote => Some(Invoke(c, c.handlers.disconnect, DisconnectCall(false), []))
    case DisconnectedError => Some(Invoke(c, c.handlers.error, ErrorCall(c.err), []))
    case _ => None
  }

  // ---------------------------------------------------------------- what every callback keeps

  /** How often a phase has been entered. */
  function Times(ps: seq<Phase>, p: Phase): nat {
    multiset(ps)[p]
  }

  predicate IsEnd(call: Call) {
    call.DisconnectCall? || call.ErrorCall?
  }

  /** The established handler is called before any other handler, and once; nothing follows an end handler. */
  ghost predicate LogInOrder(log: seq<Call>) {
    && (forall j :: 1 <= j < |log| ==> !log[j].EstablishedCall?)
    && (forall i :: 0 <= i < |log| - 1 ==> !IsEnd(log[i]))
  }

  /**
    The connection's history makes sense: the last phase entered is the phase;
    Starved and Established are entered at most once; the calls are in order.
   */
  ghost predicate Ordered(c: Conn) {
    && c.entered != [] && c.entered[|c.entered| - 1] == c.phase
    && Times(c.entered, Starved) <= 1 && Times(c.entered, Established) <= 1
    && (c.phase.PreConnect? ==> Times(c.entered, Starved) == 0 && Times(c.entered, Established) == 0)
    && (c.phase.Starved? ==> Times(c.entered, Established) == 0)
    && LogInOrder(c.log)
  }

  /** No end handler has been called yet, and no handler at all before Established. */
  ghost predicate Running(c: Conn) {
    && (forall i :: 0 <= i < |c.log| ==> !IsEnd(c.log[i]))
    && (Times(c.entered, Established) == 0 ==> c.log == [])
  }

  lemma EnterTimes(c: Conn, p: Phase, q: Phase)
    ensures Times(Enter(c, p).entered, q) == Times(c.entered, q) + if p == q then 1 else 0
  {
  }

  /** The history makes sense and the thread has not called an end handler. */
  ghost predicate Live(c: Conn) {
    Ordered(c) && Running(c)
  }

  lemma ShutdownKeepsLive(c: Conn, p: Phase, e: int)
    requires Live(c) && Over(p)
    ensures Live(Shutdown(c, p)) && Live(Shutdown(c.(err := e), p))
    ensures Times(Shutdown(c, p).entered, Established) == Times(c.entered, Established)
  {
    EnterTimes(c, p, Starved);
    EnterTimes(c, p, Established);
  }

  /** What handlers do cannot enter Starved or Established, nor call handlers. */
  ghost predicate OnlyShuts(c: Conn, d: Conn) {
    && Times(d.entered, Starved) == Times(c.entered, Starved)
    && Times(d.entered, Established) == Times(c.entered, Established)
    && d.log == c.log && d.handlers == c.handlers && d.received == c.received
    && (c.closed ==> d.closed)
    && (d.phase == c.phase || (Over(d.phase) && d.closed))
    && (Over(c.phase) ==> Over(d.phase))
    && c.entered <= d.entered && d.entered != [] && d.entered[|d.entered| - 1] == d.phase
  }

  lemma ShutdownOnlyShuts(c: Conn, p: Phase, e: int)
    requires Over(p) && c.entered != [] && c.entered[|c.entered| - 1] == c.phase
    ensures OnlyShuts(c, Shutdown(c.(err := e), p)) && OnlyShuts(c, Shutdown(c, p))
  {
    EnterTimes(c, p, Starved);
    EnterTimes(c, p, Established);
  }

  lemma ActOnlyShuts(c: Conn, a: Act)
    requires c.entered != [] && c.entered[|c.entered| - 1] == c.phase
    ensures OnlyShuts(c, DoAct(c, a))
  {
    match a
    case Writes(b, r) =>
      var d := c.(sslWrites := c.sslWrites + [b]);
      match r {
        case Written =>
        case WriteClosed => ShutdownOnlyShuts(d, DisconnectedRemote, 0);
        case WriteFailed(e) => ShutdownOnlyShuts(d, DisconnectedError, e);
      }
    case Disconnects => ShutdownOnlyShuts(c, DisconnectedLocal, 0);
  }

  lemma {:induction false} ActsOnlyShut(c: Conn, acts: seq<Act>)
    requires c.entered != [] && c.entered[|c.entered| - 1] == c.phase
    ensures OnlyShuts(c, DoActs(c, acts))
    decreases |acts|
  {
    if acts != [] {
      ActOnlyShuts(c, acts[0]);
      ActsOnlyShut(DoAct(c, acts[0]), acts[1..]);
    }
  }

  lemma OnlyShutsKeepsLive(c: Conn, d: Conn)
    requires Live(c) && OnlyShuts(c, d)
    ensures Live(d)
  {
  }

  lemma VerifyOnlyShuts(c: Conn, hs: Handshake)
    requires c.entered != [] && c.entered[|c.entered| - 1] == c.phase
    ensures OnlyShuts(c, Verify(c, hs))
  {
    match Fault(hs.certs)
    case Some(e) => ShutdownOnlyShuts(c, DisconnectedError, e);
    case None => ActsOnlyShut(c, hs.verifyActs);
  }

  /** Calling a handler: the call is logged, and then the handler can only shut the connection down. */
  lemma InvokeKeepsLive(c: Conn, isSet: bool, call: Call, acts: seq<Act>)
    requires Live(c) && !IsEnd(call) && Times(c.entered, Established) == 1
    requires call.EstablishedCall? ==> c.log == []
    ensures var d := Invoke(c, isSet, call, acts);
            && Live(d) && Times(d.entered, Established) == 1
            && Times(d.entered, Starved) == Times(c.entered, Starved)
            && (d.phase == c.phase || Over(d.phase))
  {
    if isSet {
      var f := c.(log := c.log + [call]);
      assert Live(f);
      ActsOnlyShut(f, acts);
      OnlyShutsKeepsLive(f, DoActs(f, acts));
    }
  }

  lemma EstablishKeepsLive(c: Conn, acts: seq<Act>)
    requires Live(c) && Times(c.entered, Established) == 0
    ensures var d := Establish(c, acts); Live(d) && Times(d.entered, Established) == 1
    ensures Establish(c, acts).phase.Established? || Over(Establish(c, acts).phase)
  {
    var e := Enter(c, Established);
    EnterTimes(c, Established, Starved);
    EnterTimes(c, Established, Established);
    assert Live(e);
    InvokeKeepsLive(e, c.handlers.established, EstablishedCall, acts);
  }

  lemma HandleStarvedKeepsLive(c: Conn, hs: Handshake)
    requires Live(c) && c.phase.Starved?
    ensures var d := HandleStarved(c, hs);
            && Live(d) && (d.phase.Starved? || d.phase.Established? || Over(d.phase))
            && (hs.result.Connected? ==> Times(d.entered, Established) == 1)
            && (!hs.result.Connected? ==> !d.phase.Established?)
  {
    var v := Verify(c, hs);
    VerifyOnlyShuts(c, hs);
    OnlyShutsKeepsLive(c, v);
    match hs.result
    case ConnectWants =>
    case ConnectFailed(e) => ShutdownKeepsLive(v, DisconnectedError, e);
    case ConnectClosed => ShutdownKeepsLive(v, DisconnectedRemote, 0);
    case Connected => EstablishKeepsLive(v, hs.acts);
  }

  lemma OnConnectKeepsLive(c: Conn, ev: ConnectEvent)
    requires Live(c) && Times(c.entered, Starved) == 0 && Times(c.entered, Established) == 0
    ensures var p := OnConnect(c, ev).phase; Live(OnConnect(c, ev)) && (p.Starved? || p.Established? || Over(p))
  {
    match ev
    case ConnectError(e) => ShutdownKeepsLive(c, DisconnectedError, e);
    case ReadStartError(e) => ShutdownKeepsLive(c, DisconnectedError, e);
    case TcpConnected(hs) =>
      EnterTimes(c, Starved, Starved);
      EnterTimes(c, Starved, Established);
      assert Live(Enter(c, Starved));
      HandleStarvedKeepsLive(Enter(c, Starved), hs);
  }

  lemma {:induction false} ReadLoopKeepsLive(c: Conn, sslReads: seq<SslRead>)
    requires Live(c) && Times(c.entered, Established) == 1 && (c.phase.Established? || Over(c.phase))
    ensures var d := ReadLoop(c, sslReads);
            Live(d) && Times(d.entered, Established) == 1 && (d.phase.Established? || Over(d.phase))
    decreases |sslReads|
  {
    if sslReads != [] {
      if sslReads[0].ReadGot? {
        var data, acts := sslReads[0].data, sslReads[0].acts;
        InvokeKeepsLive(c, c.handlers.read, ReadCall(data), acts);
        ReadLoopKeepsLive(Invoke(c, c.handlers.read, ReadCall(data), acts), sslReads[1..]);
      } else {
        ReadEndKeepsLive(c, sslReads);
      }
    }
  }

  lemma ReadEndKeepsLive(c: Conn, sslReads: seq<SslRead>)
    requires Live(c) && (c.phase.Established? || Over(c.phase)) && sslReads != [] && !sslReads[0].ReadGot?
    ensures var d := ReadLoop(c, sslReads);
            && Live(d) && Times(d.entered, Established) == Times(c.entered, Established)
            && (d.phase.Established? || Over(d.phase))
  {
    match sslReads[0]
    case ReadWants =>
    case ReadClosed => ShutdownKeepsLive(c, DisconnectedRemote, 0);
    case ReadFailed(e) => ShutdownKeepsLive(c.(err := e), DisconnectedError, e);
  }

  lemma LastEntered(c: Conn)
    requires Ordered(c)
    ensures Times(c.entered, c.phase) >= 1
  {
    assert c.entered[|c.entered| - 1] in c.entered;
  }

  lemma IncomingKeepsLive(c: Conn, data: Bytes, hs: Handshake, sslReads: seq<SslRead>)
    requires Live(c) && (c.phase.Starved? || c.phase.Established?)
    ensures var d := OnRead(c, Incoming(data, hs, sslReads));
            Live(d) && (d.phase.Starved? || d.phase.Established? || Over(d.phase))
  {
    var b := c.(received := c.received + [data]);
    assert Live(b);
    if c.phase.Starved? {
      var d := HandleStarved(b, hs);
      HandleStarvedKeepsLive(b, hs);
      if hs.result.Connected? && d.phase.Established? {
        ReadLoopKeepsLive(d, sslReads);
      }
    } else {
      LastEntered(b);
      ReadLoopKeepsLive(b, sslReads);
    }
  }

  lemma OnReadKeepsLive(c: Conn, ev: ReadEvent)
    requires Live(c)
    ensures Live(OnRead(c, ev))
    ensures c.phase.Starved? || c.phase.Established? ==>
              var p := OnRead(c, ev).phase; p.Starved? || p.Established? || Over(p)
  {
    if c.phase.Starved? || c.phase.Established? {
      match ev
      case Eof => ShutdownKeepsLive(c, DisconnectedRemote, 0);
      case SocketError(e) => ShutdownKeepsLive(c, DisconnectedError, e);
      case Nothing => ShutdownKeepsLive(c, DisconnectedRemote, 0);
      case Incoming(data, hs, sslReads) => IncomingKeepsLive(c, data, hs, sslReads);
    }
  }
}
