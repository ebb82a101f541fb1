/** What goes out of the connection on every run. */
module TLSEffects {
  import opened Wire
  import opened Connection
  import opened Shutdowns
  import opened Effects
  import opened TLSSystem

  /** The end handler's call, as the switch at the end of the thread makes it. */
  function EndEffect(c: Conn): Effect {
    match c.phase
    case DisconnectedLocal => Effect([], if c.handlers.disconnect then [DisconnectCall(true)] else [])
    case DisconnectedRemote => Effect([], if c.handlers.disconnect then [DisconnectCall(false)] else [])
    case DisconnectedError => Effect([], if c.handlers.error then [ErrorCall(c.err)] else [])
    case _ => NONE
  }

  function MoveEffect(s: Sys, m: Move): Effect {
    match m
    case Connects(ev) => ConnectEffect(s.conn.handlers, ev)
    case Reads(ev) => ReadEffect(s.conn.handlers, s.conn.phase, ev)
    case DrainHands(_) => Effect(if s.wq == [] then [] else [s.wq[0].buf], [])
    case Ends => EndEffect(s.conn)
    case _ => NONE
  }

  function RunEffect(s: Sys, moves: seq<Move>): Effect
    requires CanRun(s, moves)
    decreases |moves|
  {
    if moves == [] then NONE else Then(MoveEffect(s, moves[0]), RunEffect(Moved(s, moves[0]), moves[1..]))
  }

  lemma EndDid(s: Sys)
    requires Enabled(s, Ends)
    ensures Did(s.conn, Moved(s, Ends).conn, EndEffect(s.conn))
  {
  }

  lemma MoveDid(s: Sys, m: Move)
    requires Enabled(s, m) && Sound(s)
    ensures Did(s.conn, Moved(s, m).conn, MoveEffect(s, m))
  {
    if !Callback(m) {
      OtherMoves(s, m);
      DidNothing(s.conn, Moved(s, m).conn);
    } else {
      match m
      case Connects(ev) => OnConnectDid(s.conn, ev);
      case Reads(ev) => OnReadDid(s.conn, ev);
      case DisconnectRequested => DidNothing(s.conn, Moved(s, m).conn);
      case DrainHands(_) =>
      case RunReturns(_) => DidNothing(s.conn, Moved(s, m).conn);
      case Ends => EndDid(s);
    }
  }

  lemma {:induction false} RunDid(s: Sys, moves: seq<Move>)
    requires CanRun(s, moves) && Sound(s)
    ensures Did(s.conn, Run(s, moves).conn, RunEffect(s, moves))
    decreases |moves|
  {
    if moves != [] {
      var t := Moved(s, moves[0]);
      MoveDid(s, moves[0]);
      NextSound(s, moves[0]);
      RunDid(t, moves[1..]);
      DidThen(s.conn, t.conn, Run(t, moves[1..]).conn, MoveEffect(s, moves[0]), RunEffect(t, moves[1..]));
    }
  }

  /**
    On every run, what has been passed to SSL_write is, in order, each buffer the
    drain took from the queue and each buffer written by a handler that was set and
    called; and the handlers called are those the inputs ask for, with their data.
   */
  lemma EffectsOfRun(h: Handlers, moves: seq<Move>)
    requires CanRun(Start(h), moves)
    ensures Run(Start(h), moves).conn.sslWrites == RunEffect(Start(h), moves).writes
    ensures Run(Start(h), moves).conn.log == RunEffect(Start(h), moves).calls
  {
    StartSound(h);
    RunDid(Start(h), moves);
  }

  // ---------------------------------------------------------------- without writing handlers

  predicate Silent(acts: seq<Act>) {
    forall k :: 0 <= k < |acts| ==> acts[k].Disconnects?
  }

  /** No handler writes in this move. */
  predicate SilentMove(m: Move) {
    match m
    case Connects(TcpConnected(hs)) => Silent(hs.verifyActs) && Silent(hs.acts)
    case Reads(Incoming(_, hs, sslReads)) =>
      && Silent(hs.verifyActs) && Silent(hs.acts)
      && forall k :: 0 <= k < |sslReads| && sslReads[k].ReadGot? ==> Silent(sslReads[k].acts)
    case _ => true
  }

  lemma {:induction false} SilentWrites(acts: seq<Act>)
    requires Silent(acts)
    ensures ActsWrites(acts) == []
  {
    if acts != [] { SilentWrites(acts[1..]); }
  }

  lemma {:induction false} SilentReads(h: Handlers, sslReads: seq<SslRead>)
    requires forall k :: 0 <= k < |sslReads| && sslReads[k].ReadGot? ==> Silent(sslReads[k].acts)
    ensures ReadsEffect(h, sslReads).writes == []
  {
    if sslReads != [] && sslReads[0].ReadGot? {
      SilentWrites(sslReads[0].acts);
      SilentReads(h, sslReads[1..]);
    }
  }

  lemma SilentEffect(s: Sys, m: Move)
    requires SilentMove(m) && !m.DrainHands?
    ensures MoveEffect(s, m).writes == []
  {
    match m
    case Connects(TcpConnected(hs)) =>
      SilentWrites(hs.verifyActs);
      SilentWrites(hs.acts);
    case Reads(Incoming(_, hs, sslReads)) =>
      SilentWrites(hs.verifyActs);
      SilentWrites(hs.acts);
      SilentReads(s.conn.handlers, sslReads);
    case _ =>
  }

  lemma {:induction false} BuffersPush(q: seq<Queued>, item: Queued)
    ensures Buffers(q + [item]) == Buffers(q) + [item.buf]
  {
    if q == [] {
      assert q + [item] == [item];
    } else {
      assert (q + [item])[1..] == q[1..] + [item];
      BuffersPush(q[1..], item);
    }
  }

  lemma {:induction false} HandedIsWritten(s: Sys, moves: seq<Move>)
    requires CanRun(s, moves) && forall k :: 0 <= k < |moves| ==> SilentMove(moves[k])
    ensures Buffers(Run(s, moves).handed) == Buffers(s.handed) + RunEffect(s, moves).writes
    decreases |moves|
  {
    if moves != [] {
      var m := moves[0];
      HandedNext(s, m);
      HandedIsWritten(Moved(s, m), moves[1..]);
      Regroup(Buffers(s.handed), MoveEffect(s, m).writes, RunEffect(Moved(s, m), moves[1..]).writes);
    }
  }

  lemma Regroup<T>(a: seq<T>, b: seq<T>, c: seq<T>)
    ensures a + (b + c) == a + b + c
  {
  }

  lemma HandedNext(s: Sys, m: Move)
    requires Enabled(s, m) && SilentMove(m)
    ensures Buffers(Moved(s, m).handed) == Buffers(s.handed) + MoveEffect(s, m).writes
  {
    if m.DrainHands? {
      BuffersPush(s.handed, s.wq[0]);
    } else {
      SilentEffect(s, m);
      OnlyDrainsHand(s, m);
    }
  }

  lemma OnlyDrainsHand(s: Sys, m: Move)
    requires Enabled(s, m) && !m.DrainHands?
    ensures Moved(s, m).handed == s.handed
  {
  }

  /** If no handler writes, exactly what the drain has taken from the queue has been passed to SSL_write. */
  lemma HandedReachesSSL(h: Handlers, moves: seq<Move>)
    requires CanRun(Start(h), moves) && forall k :: 0 <= k < |moves| ==> SilentMove(moves[k])
    ensures Run(Start(h), moves).conn.sslWrites == Buffers(Run(Start(h), moves).handed)
  {
    EffectsOfRun(h, moves);
    HandedIsWritten(Start(h), moves);
  }
}
