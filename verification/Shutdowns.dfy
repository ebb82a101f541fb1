/**
  What a callback never takes back, and exactly when one leaves the connection
  closed in a phase that is not a disconnected one.
 */
module Shutdowns {
  import opened Wire
  import opened Connection

  predicate Tidy(c: Conn) {
    c.entered != [] && c.entered[|c.entered| - 1] == c.phase
  }

  /** Histories only grow, closed handles stay closed, and a disconnected phase means closed handles. */
  ghost predicate MovesOn(c: Conn, d: Conn) {
    && Tidy(d) && c.entered <= d.entered && c.log <= d.log && c.handlers == d.handlers
    && (c.closed ==> d.closed)
    && ((Over(c.phase) ==> c.closed) ==> Over(d.phase) ==> d.closed)
  }

  // ---------------------------------------------------------------- which inputs shut a connection down

  predicate Shuts(a: Act) {
    a.Disconnects? || !a.result.Written?
  }

  predicate ActsShut(acts: seq<Act>) {
    acts != [] && (Shuts(acts[0]) || ActsShut(acts[1..]))
  }

  predicate VerifyShuts(h: Handlers, hs: Handshake) {
    Fault(hs.certs).Some? || (h.verify && ActsShut(hs.verifyActs))
  }

  predicate ReadsShut(h: Handlers, sslReads: seq<SslRead>) {
    sslReads != [] &&
    match sslReads[0]
    case ReadWants => false
    case ReadClosed => true
    case ReadFailed(_) => true
    case ReadGot(_, acts) => (h.read && ActsShut(acts)) || ReadsShut(h, sslReads[1..])
  }

  /**
    The handshake completed although its verify callback had shut the connection
    down, and the established handler did not do so again.
   */
  predicate Overtaken(h: Handlers, hs: Handshake) {
    hs.result.Connected? && VerifyShuts(h, hs) && !(h.established && ActsShut(hs.acts))
  }

  // ---------------------------------------------------------------- callback by callback

  lemma {:induction false} ActsExactly(c: Conn, acts: seq<Act>)
    requires Tidy(c)
    ensures var d := DoActs(c, acts);
            && MovesOn(c, d)
            && d.closed == (c.closed || ActsShut(acts))
            && (if ActsShut(acts) then Over(d.phase) else d.phase == c.phase)
    decreases |acts|
  {
    if acts != [] {
      ActsExactly(DoAct(c, acts[0]), acts[1..]);
    }
  }

  lemma InvokeExactly(c: Conn, isSet: bool, call: Call, acts: seq<Act>)
    requires Tidy(c)
    ensures var d := Invoke(c, isSet, call, acts);
            && MovesOn(c, d)
            && d.closed == (c.closed || (isSet && ActsShut(acts)))
            && (if isSet && ActsShut(acts) then Over(d.phase) else d.phase == c.phase)
            && (isSet ==> c.log + [call] <= d.log)
  {
    if isSet {
      ActsExactly(c.(log := c.log + [call]), acts);
    }
  }

  lemma VerifyExactly(c: Conn, hs: Handshake)
    requires Tidy(c)
    ensures var v := Verify(c, hs);
            && MovesOn(c, v)
            && v.closed == (c.closed || VerifyShuts(c.handlers, hs))
            && (if VerifyShuts(c.handlers, hs) then Over(v.phase) else v.phase == c.phase)
  {
    if Fault(hs.certs).None? {
      ActsExactly(c, hs.verifyActs);
    }
  }

  /**
    A handshake attempted on an open connection leaves it closed but not in a
    disconnected phase exactly when it completes after its verify callback shut the
    connection down and the established handler does not shut it down again.
   */
  lemma HandleStarvedExactly(c: Conn, hs: Handshake)
    requires Tidy(c) && c.phase.Starved? && !c.closed
    ensures var d := HandleStarved(c, hs);
            && MovesOn(c, d)
            && (d.closed && !Over(d.phase) <==> Overtaken(c.handlers, hs))
            && (d.phase.Established? <==> hs.result.Connected? && !(c.handlers.established && ActsShut(hs.acts)))
            && (hs.result.Connected? && c.handlers.established ==> c.log + [EstablishedCall] <= d.log)
            && (hs.result.ConnectWants? && !VerifyShuts(c.handlers, hs) ==> d.phase.Starved? && !d.closed)
  {
    var v := Verify(c, hs);
    VerifyExactly(c, hs);
    VerifyOnlyShuts(c, hs);
    if hs.result.Connected? {
      InvokeExactly(Enter(v, Established), c.handlers.established, EstablishedCall, hs.acts);
    }
  }

  lemma {:induction false} ReadLoopExactly(c: Conn, sslReads: seq<SslRead>)
    requires Tidy(c)
    ensures var d := ReadLoop(c, sslReads);
            && MovesOn(c, d)
            && d.closed == (c.closed || ReadsShut(c.handlers, sslReads))
            && (if ReadsShut(c.handlers, sslReads) then Over(d.phase) else d.phase == c.phase)
    decreases |sslReads|
  {
    if sslReads != [] && sslReads[0].ReadGot? {
      var r := sslReads[0];
      InvokeExactly(c, c.handlers.read, ReadCall(r.data), r.acts);
      ReadLoopExactly(Invoke(c, c.handlers.read, ReadCall(r.data), r.acts), sslReads[1..]);
    }
  }

  /** The handshake a read makes goes wrong in that way, and the reads after it do not put it right. */
  predicate ReadOvertaken(c: Conn, ev: ReadEvent) {
    && c.phase.Starved? && ev.Incoming?
    && Overtaken(c.handlers, ev.hs) && !ReadsShut(c.handlers, ev.sslReads)
  }

  lemma OnReadExactly(c: Conn, ev: ReadEvent)
    requires Tidy(c) && !c.closed
    ensures var d := OnRead(c, ev);
            && MovesOn(c, d)
            && (!Over(c.phase) ==> (d.closed && !Over(d.phase) <==> ReadOvertaken(c, ev)))
  {
    if (c.phase.Starved? || c.phase.Established?) && ev.Incoming? {
      var b := c.(received := c.received + [ev.data]);
      if c.phase.Starved? {
        var d := HandleStarved(b, ev.hs);
        HandleStarvedExactly(b, ev.hs);
        if ev.hs.result.Connected? && d.phase.Established? {
          ReadLoopExactly(d, ev.sslReads);
        }
      } else {
        ReadLoopExactly(b, ev.sslReads);
      }
    }
  }

  predicate ConnectOvertaken(c: Conn, ev: ConnectEvent) {
    ev.TcpConnected? && Overtaken(c.handlers, ev.hs)
  }

  lemma OnConnectExactly(c: Conn, ev: ConnectEvent)
    requires Tidy(c) && (c.closed ==> ev.ConnectError?)
    ensures var d := OnConnect(c, ev);
            && MovesOn(c, d) && (d.closed && !Over(d.phase) <==> ConnectOvertaken(c, ev))
  {
    if ev.TcpConnected? {
      HandleStarvedExactly(Enter(c, Starved), ev.hs);
    }
  }

  // ---------------------------------------------------------------- the established handler comes first

  /** If the established handler is set, the first call after entering Established was to it. */
  ghost predicate EstablishedFirst(c: Conn) {
    c.handlers.established && Times(c.entered, Established) == 1 ==> c.log != [] && c.log[0].EstablishedCall?
  }

  lemma HandleStarvedEstablishedFirst(c: Conn, hs: Handshake)
    requires Live(c) && c.phase.Starved? && !c.closed
    ensures var d := HandleStarved(c, hs);
            EstablishedFirst(d) && (!hs.result.Connected? ==> Times(d.entered, Established) == 0)
  {
    HandleStarvedExactly(c, hs);
    if !hs.result.Connected? {
      VerifyOnlyShuts(c, hs);
      var v := Verify(c, hs);
      match hs.result
      case ConnectFailed(e) => ShutdownOnlyShuts(v, DisconnectedError, e);
      case ConnectClosed => ShutdownOnlyShuts(v, DisconnectedRemote, 0);
      case _ =>
    }
  }

  lemma OnConnectEstablishedFirst(c: Conn, ev: ConnectEvent)
    requires Live(c) && Times(c.entered, Starved) == 0 && Times(c.entered, Established) == 0
    requires c.closed ==> ev.ConnectError?
    ensures EstablishedFirst(OnConnect(c, ev))
  {
    match ev
    case ConnectError(e) => EnterTimes(c, DisconnectedError, Established);
    case ReadStartError(e) => EnterTimes(c, DisconnectedError, Established);
    case TcpConnected(hs) =>
      EnterTimes(c, Starved, Starved);
      EnterTimes(c, Starved, Established);
      HandleStarvedEstablishedFirst(Enter(c, Starved), hs);
  }

  lemma IncomingEstablishedFirst(c: Conn, data: Bytes, hs: Handshake, sslReads: seq<SslRead>)
    requires Live(c) && c.phase.Starved? && !c.closed
    ensures EstablishedFirst(OnRead(c, Incoming(data, hs, sslReads)))
  {
    var b := c.(received := c.received + [data]);
    var d := HandleStarved(b, hs);
    HandleStarvedEstablishedFirst(b, hs);
    HandleStarvedExactly(b, hs);
    if hs.result.Connected? && d.phase.Established? {
      ReadLoopExactly(d, sslReads);
    }
  }

  lemma OnReadEstablishedFirst(c: Conn, ev: ReadEvent)
    requires Live(c) && EstablishedFirst(c) && !c.closed
    ensures EstablishedFirst(OnRead(c, ev))
  {
    OnReadExactly(c, ev);
    OnReadKeepsLive(c, ev);
    if c.phase.Starved? {
      match ev
      case Eof => EnterTimes(c, DisconnectedRemote, Established);
      case SocketError(e) => EnterTimes(c, DisconnectedError, Established);
      case Nothing => EnterTimes(c, DisconnectedRemote, Established);
      case Incoming(data, hs, sslReads) => IncomingEstablishedFirst(c, data, hs, sslReads);
    } else if c.phase.Established? {
      LastEntered(c);
    }
  }
}
