/**
  What goes out of the connection, read off the inputs alone: the buffers passed to
  SSL_write and the handlers called, callback by callback and in order.
 */
module Effects {
  import opened Wire
  import opened Connection
  import opened Shutdowns

  datatype Effect = Effect(writes: seq<Bytes>, calls: seq<Call>)

  const NONE := Effect([], [])

  function Then(a: Effect, b: Effect): Effect {
    Effect(a.writes + b.writes, a.calls + b.calls)
  }

  /** A handler's writes, whatever becomes of them. */
  function ActsWrites(acts: seq<Act>): seq<Bytes> {
    if acts == [] then []
    else (match acts[0] { case Writes(b, _) => [b] case Disconnects => [] }) + ActsWrites(acts[1..])
  }

  /** The verify handler runs if it is set and the whole chain could be encoded. */
  function VerifyEffect(h: Handlers, hs: Handshake): Effect {
    var encoded := forall k :: 0 <= k < |hs.certs| ==> hs.certs[k].Der?;
    Effect(if h.verify && encoded then ActsWrites(hs.verifyActs) else [], [])
  }

  /** The established handler runs if it is set and the handshake completes. */
  function HandshakeEffect(h: Handlers, hs: Handshake): Effect {
    Then(VerifyEffect(h, hs),
         if hs.result.Connected? && h.established then Effect(ActsWrites(hs.acts), [EstablishedCall]) else NONE)
  }

  function ConnectEffect(h: Handlers, ev: ConnectEvent): Effect {
    if ev.TcpConnected? then HandshakeEffect(h, ev.hs) else NONE
  }

  /** The read handler is called with each piece of data up to the first result that is none. */
  function ReadsEffect(h: Handlers, sslReads: seq<SslRead>): Effect {
    if sslReads == [] || !sslReads[0].ReadGot? || !h.read then NONE
    else Then(Effect(ActsWrites(sslReads[0].acts), [ReadCall(sslReads[0].data)]), ReadsEffect(h, sslReads[1..]))
  }

  /** A handler that leaves the connection open: it does not disconnect, and its writes succeed. */
  predicate LeavesOpen(acts: seq<Act>) {
    forall k :: 0 <= k < |acts| ==> acts[k].Writes? && acts[k].result.Written?
  }

  function ReadEffect(h: Handlers, phase: Phase, ev: ReadEvent): Effect {
    if !ev.Incoming? then NONE
    else if phase.Established? then ReadsEffect(h, ev.sslReads)
    else if !phase.Starved? then NONE
    else Then(HandshakeEffect(h, ev.hs),
              if ev.hs.result.Connected? && (h.established ==> LeavesOpen(ev.hs.acts)) then ReadsEffect(h, ev.sslReads)
              else NONE)
  }

  // ---------------------------------------------------------------- callback by callback

  ghost predicate Did(c: Conn, d: Conn, e: Effect) {
    d.sslWrites == c.sslWrites + e.writes && d.log == c.log + e.calls && d.handlers == c.handlers
  }

  lemma DidThen(c: Conn, d: Conn, e: Conn, a: Effect, b: Effect)
    requires Did(c, d, a) && Did(d, e, b)
    ensures Did(c, e, Then(a, b))
  {
  }

  lemma DidNothing(c: Conn, d: Conn)
    requires d.sslWrites == c.sslWrites && d.log == c.log && d.handlers == c.handlers
    ensures Did(c, d, NONE)
  {
  }

  lemma {:induction false} ActsDid(c: Conn, acts: seq<Act>)
    ensures Did(c, DoActs(c, acts), Effect(ActsWrites(acts), []))
    decreases |acts|
  {
    if acts != [] {
      var d := DoAct(c, acts[0]);
      ActsDid(d, acts[1..]);
      var first := Effect(match acts[0] { case Writes(b, _) => [b] case Disconnects => [] }, []);
      assert Did(c, d, first);
      DidThen(c, d, DoActs(c, acts), first, Effect(ActsWrites(acts[1..]), []));
    }
  }

  lemma InvokeDid(c: Conn, isSet: bool, call: Call, acts: seq<Act>)
    ensures Did(c, Invoke(c, isSet, call, acts), if isSet then Effect(ActsWrites(acts), [call]) else NONE)
  {
    if isSet {
      ActsDid(c.(log := c.log + [call]), acts);
    }
  }

  lemma {:induction false} FaultFree(certs: seq<Encoding>)
    ensures Fault(certs).None? <==> forall k :: 0 <= k < |certs| ==> certs[k].Der?
  {
    if certs != [] {
      FaultFree(certs[1..]);
      assert forall k :: 1 <= k < |certs| ==> certs[k] == certs[1..][k - 1];
    }
  }

  lemma VerifyDid(c: Conn, hs: Handshake)
    ensures Did(c, Verify(c, hs), VerifyEffect(c.handlers, hs))
  {
    FaultFree(hs.certs);
    ActsDid(c, hs.verifyActs);
  }

  lemma HandleStarvedDid(c: Conn, hs: Handshake)
    ensures Did(c, HandleStarved(c, hs), HandshakeEffect(c.handlers, hs))
  {
    var v := Verify(c, hs);
    VerifyDid(c, hs);
    if hs.result.Connected? {
      InvokeDid(Enter(v, Established), v.handlers.established, EstablishedCall, hs.acts);
    }
  }

  lemma OnConnectDid(c: Conn, ev: ConnectEvent)
    ensures Did(c, OnConnect(c, ev), ConnectEffect(c.handlers, ev))
  {
    if ev.TcpConnected? { HandleStarvedDid(Enter(c, Starved), ev.hs); }
  }

  lemma {:induction false} ReadLoopDid(c: Conn, sslReads: seq<SslRead>)
    ensures Did(c, ReadLoop(c, sslReads), ReadsEffect(c.handlers, sslReads))
    decreases |sslReads|
  {
    if sslReads != [] && sslReads[0].ReadGot? {
      var r := sslReads[0];
      var d := Invoke(c, c.handlers.read, ReadCall(r.data), r.acts);
      InvokeDid(c, c.handlers.read, ReadCall(r.data), r.acts);
      ReadLoopDid(d, sslReads[1..]);
      if c.handlers.read {
        DidThen(c, d, ReadLoop(d, sslReads[1..]),
                Effect(ActsWrites(r.acts), [ReadCall(r.data)]), ReadsEffect(c.handlers, sslReads[1..]));
      } else {
        NoReadHandler(c.handlers, sslReads[1..]);
      }
    }
  }

  lemma NoReadHandler(h: Handlers, sslReads: seq<SslRead>)
    requires !h.read
    ensures ReadsEffect(h, sslReads) == NONE
  {
  }

  lemma {:induction false} OpenIsNotShut(acts: seq<Act>)
    ensures LeavesOpen(acts) <==> !ActsShut(acts)
  {
    if acts != [] {
      OpenIsNotShut(acts[1..]);
      assert forall k :: 1 <= k < |acts| ==> acts[k] == acts[1..][k - 1];
    }
  }

  /** The calls and writes of a read, the data of each read handler call included. */
  lemma OnReadDid(c: Conn, ev: ReadEvent)
    requires Tidy(c) && !c.closed
    ensures Did(c, OnRead(c, ev), ReadEffect(c.handlers, c.phase, ev))
  {
    if ev.Incoming? {
      var b := c.(received := c.received + [ev.data]);
      if c.phase.Established? {
        ReadLoopDid(b, ev.sslReads);
      } else if c.phase.Starved? {
        StarvedReadDid(b, ev.hs, ev.sslReads);
      }
    }
  }

  lemma StarvedReadDid(c: Conn, hs: Handshake, sslReads: seq<SslRead>)
    requires Tidy(c) && !c.closed && c.phase.Starved?
    ensures var d := HandleStarved(c, hs);
            var goesOn := hs.result.Connected? && (c.handlers.established ==> LeavesOpen(hs.acts));
            && (goesOn <==> d.phase.Established?)
            && Did(c, if goesOn then ReadLoop(d, sslReads) else d,
                   Then(HandshakeEffect(c.handlers, hs), if goesOn then ReadsEffect(c.handlers, sslReads) else NONE))
  {
    var d := HandleStarved(c, hs);
    HandleStarvedDid(c, hs);
    HandleStarvedExactly(c, hs);
    OpenIsNotShut(hs.acts);
    if d.phase.Established? {
      ReadLoopDid(d, sslReads);
      DidThen(c, d, ReadLoop(d, sslReads), HandshakeEffect(c.handlers, hs), ReadsEffect(c.handlers, sslReads));
    } else {
      DidNothing(d, d);
      DidThen(c, d, d, HandshakeEffect(c.handlers, hs), NONE);
    }
  }

  /** The writes the drain makes are the buffers of the queue. */
  lemma {:induction false} DrainWrites(q: seq<Bytes>, rs: seq<WriteResult>)
    requires |q| == |rs|
    ensures ActsWrites(WritesOf(q, rs)) == q
    decreases |q|
  {
    if q != [] {
      DrainWrites(q[1..], rs[1..]);
      assert WritesOf(q, rs)[1..] == WritesOf(q[1..], rs[1..]);
    }
  }
}
