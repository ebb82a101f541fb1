/**
  Why a connection ends, read off the inputs alone: the causes a callback brings, in
  order. The phase and error of a disconnected connection are those of the last cause.
 */
module Causes {
  import opened Wire
  import opened Connection
  import opened Shutdowns

  datatype Cause = ByLocal | ByRemote | ByError(err: int)

  function ActCauses(a: Act): seq<Cause> {
    match a
    case Disconnects => [ByLocal]
    case Writes(_, r) => WriteCauses(r)
  }

  function WriteCauses(r: WriteResult): seq<Cause> {
    match r
    case Written => []
    case WriteClosed => [ByRemote]
    case WriteFailed(e) => [ByError(e)]
  }

  function ActsCauses(acts: seq<Act>): seq<Cause> {
    if acts == [] then [] else ActCauses(acts[0]) + ActsCauses(acts[1..])
  }

  function VerifyCauses(h: Handlers, hs: Handshake): seq<Cause> {
    match Fault(hs.certs)
    case Some(e) => [ByError(e)]
    case None => if h.verify then ActsCauses(hs.verifyActs) else []
  }

  function ResultCauses(h: Handlers, hs: Handshake): seq<Cause> {
    match hs.result
    case ConnectWants => []
    case ConnectFailed(e) => [ByError(e)]
    case ConnectClosed => [ByRemote]
    case Connected => if h.established then ActsCauses(hs.acts) else []
  }

  function ConnectCauses(h: Handlers, ev: ConnectEvent): seq<Cause> {
    match ev
    case ConnectError(e) => [ByError(e)]
    case ReadStartError(e) => [ByError(e)]
    case TcpConnected(hs) => VerifyCauses(h, hs) + ResultCauses(h, hs)
  }

  function ReadsCauses(h: Handlers, sslReads: seq<SslRead>): seq<Cause> {
    if sslReads == [] then []
    else match sslReads[0]
      case ReadWants => []
      case ReadClosed => [ByRemote]
      case ReadFailed(e) => [ByError(e)]
      case ReadGot(_, acts) => (if h.read then ActsCauses(acts) else []) + ReadsCauses(h, sslReads[1..])
  }

  /** The reads after a handshake count only if it left the connection established. */
  function ReadCauses(h: Handlers, starved: bool, ev: ReadEvent): seq<Cause> {
    match ev
    case Eof => [ByRemote]
    case SocketError(e) => [ByError(e)]
    case Nothing => [ByRemote]
    case Incoming(_, hs, sslReads) =>
      if !starved then ReadsCauses(h, sslReads)
      else
        VerifyCauses(h, hs) + ResultCauses(h, hs)
        + if hs.result.Connected? && ResultCauses(h, hs) == [] then ReadsCauses(h, sslReads) else []
  }

  // ---------------------------------------------------------------- the last cause decides

  function PhaseFor(x: Cause): Phase {
    match x
    case ByLocal => DisconnectedLocal
    case ByRemote => DisconnectedRemote
    case ByError(_) => DisconnectedError
  }

  /** A connection that is disconnected is so because of the last of these causes. */
  ghost predicate Tells(c: Conn, cs: seq<Cause>) {
    Over(c.phase) ==>
      && cs != [] && c.phase == PhaseFor(cs[|cs| - 1])
      && (cs[|cs| - 1].ByError? ==> c.err == cs[|cs| - 1].err)
  }

  lemma TwoParts(c: Conn, cs: seq<Cause>, a: seq<Cause>, b: seq<Cause>)
    ensures Tells(c, cs + (a + b)) <==> Tells(c, cs + a + b)
  {
    assert cs + (a + b) == cs + a + b;
  }

  lemma {:induction false} ActsTell(c: Conn, acts: seq<Act>, cs: seq<Cause>)
    requires Tells(c, cs)
    ensures Tells(DoActs(c, acts), cs + ActsCauses(acts))
    ensures DoActs(c, acts).shutdowns == c.shutdowns + |ActsCauses(acts)|
    decreases |acts|
  {
    if acts == [] {
      assert cs + [] == cs;
    } else {
      ActTells(c, acts[0], cs);
      ActsTell(DoAct(c, acts[0]), acts[1..], cs + ActCauses(acts[0]));
      TwoParts(DoActs(c, acts), cs, ActCauses(acts[0]), ActsCauses(acts[1..]));
    }
  }

  lemma ActTells(c: Conn, a: Act, cs: seq<Cause>)
    requires Tells(c, cs)
    ensures Tells(DoAct(c, a), cs + ActCauses(a))
    ensures DoAct(c, a).shutdowns == c.shutdowns + |ActCauses(a)|
  {
    assert cs + [] == cs;
  }

  lemma InvokeTells(c: Conn, isSet: bool, call: Call, acts: seq<Act>, cs: seq<Cause>)
    requires Tells(c, cs)
    ensures Tells(Invoke(c, isSet, call, acts), cs + if isSet then ActsCauses(acts) else [])
    ensures Invoke(c, isSet, call, acts).shutdowns == c.shutdowns + if isSet then |ActsCauses(acts)| else 0
  {
    if isSet {
      ActsTell(c.(log := c.log + [call]), acts, cs);
    } else {
      assert cs + [] == cs;
    }
  }

  lemma VerifyTells(c: Conn, hs: Handshake, cs: seq<Cause>)
    requires Tells(c, cs)
    ensures Tells(Verify(c, hs), cs + VerifyCauses(c.handlers, hs))
    ensures Verify(c, hs).shutdowns == c.shutdowns + |VerifyCauses(c.handlers, hs)|
  {
    assert cs + [] == cs;
    if Fault(hs.certs).None? { ActsTell(c, hs.verifyActs, cs); }
  }

  lemma HandleStarvedTells(c: Conn, hs: Handshake, cs: seq<Cause>)
    requires Tells(c, cs)
    ensures Tells(HandleStarved(c, hs), cs + VerifyCauses(c.handlers, hs) + ResultCauses(c.handlers, hs))
    ensures HandleStarved(c, hs).shutdowns
         == c.shutdowns + |VerifyCauses(c.handlers, hs)| + |ResultCauses(c.handlers, hs)|
  {
    var v, vs := Verify(c, hs), cs + VerifyCauses(c.handlers, hs);
    VerifyTells(c, hs, cs);
    VerifyKeepsHandlers(c, hs);
    match hs.result
    case ConnectWants => assert vs + [] == vs;
    case ConnectFailed(e) =>
    case ConnectClosed =>
    case Connected => InvokeTells(Enter(v, Established), v.handlers.established, EstablishedCall, hs.acts, vs);
  }

  lemma {:induction false} ActsKeepHandlers(c: Conn, acts: seq<Act>)
    ensures DoActs(c, acts).handlers == c.handlers
    decreases |acts|
  {
    if acts != [] { ActsKeepHandlers(DoAct(c, acts[0]), acts[1..]); }
  }

  lemma VerifyKeepsHandlers(c: Conn, hs: Handshake)
    ensures Verify(c, hs).handlers == c.handlers
  {
    ActsKeepHandlers(c, hs.verifyActs);
  }

  lemma {:induction false} ReadLoopTells(c: Conn, sslReads: seq<SslRead>, cs: seq<Cause>)
    requires Tells(c, cs)
    ensures Tells(ReadLoop(c, sslReads), cs + ReadsCauses(c.handlers, sslReads))
    ensures ReadLoop(c, sslReads).shutdowns == c.shutdowns + |ReadsCauses(c.handlers, sslReads)|
    decreases |sslReads|
  {
    if sslReads == [] || sslReads[0].ReadWants? {
      assert cs + [] == cs;
    } else if sslReads[0].ReadGot? {
      var r := sslReads[0];
      var d := Invoke(c, c.handlers.read, ReadCall(r.data), r.acts);
      var ds := if c.handlers.read then ActsCauses(r.acts) else [];
      ReadCallTells(c, r.data, r.acts, cs);
      ReadLoopTells(d, sslReads[1..], cs + ds);
      TwoParts(ReadLoop(d, sslReads[1..]), cs, ds, ReadsCauses(c.handlers, sslReads[1..]));
    }
  }

  lemma ReadCallTells(c: Conn, data: Bytes, acts: seq<Act>, cs: seq<Cause>)
    requires Tells(c, cs)
    ensures var d := Invoke(c, c.handlers.read, ReadCall(data), acts);
            var ds := if c.handlers.read then ActsCauses(acts) else [];
            Tells(d, cs + ds) && d.shutdowns == c.shutdowns + |ds| && d.handlers == c.handlers
  {
    InvokeTells(c, c.handlers.read, ReadCall(data), acts, cs);
    ActsKeepHandlers(c.(log := c.log + [ReadCall(data)]), acts);
  }

  lemma {:induction false} NoCauseNoShutdown(acts: seq<Act>)
    ensures ActsCauses(acts) == [] <==> !ActsShut(acts)
  {
    if acts != [] { NoCauseNoShutdown(acts[1..]); }
  }

  lemma OnConnectTells(c: Conn, ev: ConnectEvent, cs: seq<Cause>)
    requires Tells(c, cs)
    ensures Tells(OnConnect(c, ev), cs + ConnectCauses(c.handlers, ev))
    ensures OnConnect(c, ev).shutdowns == c.shutdowns + |ConnectCauses(c.handlers, ev)|
  {
    if ev.TcpConnected? {
      HandleStarvedTells(Enter(c, Starved), ev.hs, cs);
      TwoParts(OnConnect(c, ev), cs, VerifyCauses(c.handlers, ev.hs), ResultCauses(c.handlers, ev.hs));
    }
  }

  lemma IncomingTells(c: Conn, data: Bytes, hs: Handshake, sslReads: seq<SslRead>, cs: seq<Cause>)
    requires Tidy(c) && Tells(c, cs) && c.phase.Starved? && !c.closed
    ensures Tells(OnRead(c, Incoming(data, hs, sslReads)),
                  cs + ReadCauses(c.handlers, true, Incoming(data, hs, sslReads)))
    ensures OnRead(c, Incoming(data, hs, sslReads)).shutdowns
         == c.shutdowns + |ReadCauses(c.handlers, true, Incoming(data, hs, sslReads))|
  {
    var b := c.(received := c.received + [data]);
    var d := HandleStarved(b, hs);
    var ds := VerifyCauses(c.handlers, hs) + ResultCauses(c.handlers, hs);
    HandleStarvedTells(b, hs, cs);
    HandleStarvedExactly(b, hs);
    NoCauseNoShutdown(hs.acts);
    TwoParts(d, cs, VerifyCauses(c.handlers, hs), ResultCauses(c.handlers, hs));
    if hs.result.Connected? && d.phase.Established? {
      ReadLoopTells(d, sslReads, cs + ds);
      TwoParts(ReadLoop(d, sslReads), cs, ds, ReadsCauses(c.handlers, sslReads));
    } else {
      assert ds + [] == ds;
    }
  }

  /** The causes of a read, none if it comes in a phase in which reads are ignored. */
  function CausesOfRead(c: Conn, ev: ReadEvent): seq<Cause> {
    if c.phase.Starved? || c.phase.Established? then ReadCauses(c.handlers, c.phase.Starved?, ev) else []
  }

  lemma OnReadTells(c: Conn, ev: ReadEvent, cs: seq<Cause>)
    requires Tidy(c) && Tells(c, cs) && !c.closed
    ensures Tells(OnRead(c, ev), cs + CausesOfRead(c, ev))
    ensures OnRead(c, ev).shutdowns == c.shutdowns + |CausesOfRead(c, ev)|
  {
    if c.phase.Starved? || c.phase.Established? {
      if ev.Incoming? {
        if c.phase.Starved? {
          IncomingTells(c, ev.data, ev.hs, ev.sslReads, cs);
        } else {
          ReadLoopTells(c.(received := c.received + [ev.data]), ev.sslReads, cs);
        }
      }
    } else {
      assert cs + [] == cs;
    }
  }
}
