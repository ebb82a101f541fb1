/**
  The whole connection as a system of threads: any number of writer threads, the
  loop thread, the lock and the queue between them. A run is a sequence of moves;
  what libuv and OpenSSL do is chosen by the moves. Callbacks that touch neither
  the queue nor the lock are one move each; Write on another thread, the drain
  and the clearing of the queue are taken apart at the lock.
 */
module TLSSystem {
  import opened Wire
  import opened Connection
  import opened Shutdowns

  datatype Lock = Free | HeldBy(w: nat) | HeldByLoop

  /** Where another thread is inside Write. */
  datatype Writer = Outside | Wants(buf: Bytes) | Holds(buf: Bytes) | HasPushed | MustWake

  /** Where the loop thread is. Its id can be seen by others from Polling up to Returned. */
  datatype LoopPc = NotStarted | Polling | Draining | Returned | Leaving | Clearing | Cleared | Done

  /** A buffer in the queue, with the thread that wrote it. */
  datatype Queued = Queued(w: nat, buf: Bytes)

  /**
    wq is the queue; woken: a call of uv_async_send has not been followed by its
    callback yet, however many calls there were; pushed, handed and dropped record
    what has ever been pushed, what the drain has passed to SSL_write and what the
    clearing threw away.
   */
  datatype Queue = Queue(
    lock: Lock, wq: seq<Queued>, woken: bool, writers: map<nat, Writer>,
    pushed: seq<Queued>, handed: seq<Queued>, dropped: seq<Queued>)

  /**
    connected: OnConnect has run. assertHeld: its assertion held. notReached: the
    thread ran into NotReached.
   */
  datatype Sys = Sys(conn: Conn, pc: LoopPc, q: Queue, connected: bool, assertHeld: bool, notReached: bool)
  {
    const lock := q.lock
    const wq := q.wq
    const woken := q.woken
    const writers := q.writers
    const pushed := q.pushed
    const handed := q.handed
    const dropped := q.dropped
  }

  datatype Move =
    | ThreadStarts
    | Loads(w: nat, buf: Bytes)
    | Locks(w: nat)
    | Pushes(w: nat)
    | Unlocks(w: nat)
    | Wakes(w: nat)
    | Connects(ev: ConnectEvent)
    | Reads(rev: ReadEvent)
    | DisconnectRequested
    | DrainStarts
    | DrainHands(result: WriteResult)
    | DrainEnds
    | RunReturns(fault: Option<int>)
    | Leaves
    | LocksToClear
    | Clears
    | Ends

  function Start(h: Handlers): Sys {
    Sys(NewConn(h), NotStarted, Queue(Free, [], false, map[], [], [], []), false, true, false)
  }

  function WriterAt(s: Sys, w: nat): Writer {
    if w in s.writers then s.writers[w] else Outside
  }

  /** thread_id_ is not zero. */
  predicate IdKnown(s: Sys) {
    s.pc.Polling? || s.pc.Draining? || s.pc.Returned?
  }

  /**
    Which moves can happen. A closed handle delivers no callback; the drain is
    called back only after a wake-up, once for all wake-ups so far; a connection
    attempt that is cancelled by closing the socket is reported as failed; uv_run
    returns without an error only when every handle is closed.
   */
  predicate Enabled(s: Sys, m: Move) {
    match m
    case ThreadStarts => s.pc.NotStarted?
    case Loads(w, _) => WriterAt(s, w).Outside?
    case Locks(w) => WriterAt(s, w).Wants? && s.lock.Free?
    case Pushes(w) => WriterAt(s, w).Holds?
    case Unlocks(w) => WriterAt(s, w).HasPushed?
    case Wakes(w) => WriterAt(s, w).MustWake?
    case Connects(ev) => s.pc.Polling? && !s.connected && (s.conn.closed ==> ev.ConnectError?)
    case Reads(_) => s.pc.Polling? && s.connected && !s.conn.closed
    case DisconnectRequested => s.pc.Polling? && !s.conn.closed
    case DrainStarts => s.pc.Polling? && s.woken && !s.conn.closed && (s.conn.phase.Established? ==> s.lock.Free?)
    case DrainHands(_) => s.pc.Draining? && s.wq != []
    case DrainEnds => s.pc.Draining? && s.wq == []
    case RunReturns(fault) => s.pc.Polling? && (fault.None? ==> s.conn.closed)
    case Leaves => s.pc.Returned?
    case LocksToClear => s.pc.Leaving? && s.lock.Free?
    case Clears => s.pc.Clearing?
    case Ends => s.pc.Cleared?
  }

  function Moved(s: Sys, m: Move): Sys
    requires Enabled(s, m)
  {
    match m
    case ThreadStarts => s.(pc := Polling)
    case Loads(w, buf) => if IdKnown(s) then s.(q := s.q.(writers := s.writers[w := Wants(buf)])) else s
    case Locks(w) => s.(q := s.q.(lock := HeldBy(w), writers := s.writers[w := Holds(s.writers[w].buf)]))
    case Pushes(w) =>
      var item := Queued(w, s.writers[w].buf);
      s.(q := s.q.(wq := s.wq + [item], pushed := s.pushed + [item], writers := s.writers[w := HasPushed]))
    case Unlocks(w) => s.(q := s.q.(lock := Free, writers := s.writers[w := MustWake]))
    case Wakes(w) => s.(q := s.q.(woken := true, writers := s.writers[w := Outside]))
    case Connects(ev) =>
      s.(conn := OnConnect(s.conn, ev), connected := true, assertHeld := s.conn.phase.PreConnect?)
    case Reads(ev) => s.(conn := OnRead(s.conn, ev))
    case DisconnectRequested => s.(conn := Shutdown(s.conn, DisconnectedLocal))
    case DrainStarts =>
      if s.conn.phase.Established? then s.(pc := Draining, q := s.q.(woken := false, lock := HeldByLoop))
      else s.(q := s.q.(woken := false))
    case DrainHands(r) =>
      s.(conn := DoAct(s.conn, Writes(s.wq[0].buf, r)),
         q := s.q.(wq := s.wq[1..], handed := s.handed + [s.wq[0]]))
    case DrainEnds => s.(pc := Polling, q := s.q.(lock := Free))
    case RunReturns(fault) =>
      s.(pc := Returned,
         conn := match fault { case Some(e) => Enter(s.conn.(err := e), DisconnectedError) case None => s.conn })
    case Leaves => s.(pc := Leaving)
    case LocksToClear => s.(pc := Clearing, q := s.q.(lock := HeldByLoop))
    case Clears => s.(pc := Cleared, q := s.q.(lock := Free, wq := [], dropped := s.wq))
    case Ends =>
      match EndCalls(s.conn) {
        case Some(c) => s.(pc := Done, conn := c)
        case None => s.(pc := Done, notReached := true)
      }
  }

  predicate CanRun(s: Sys, moves: seq<Move>)
    decreases |moves|
  {
    moves == [] || (Enabled(s, moves[0]) && CanRun(Moved(s, moves[0]), moves[1..]))
  }

  function Run(s: Sys, moves: seq<Move>): Sys
    requires CanRun(s, moves)
    decreases |moves|
  {
    if moves == [] then s else Run(Moved(s, moves[0]), moves[1..])
  }

  // ---------------------------------------------------------------- the lock and the queue

  predicate InLock(w: Writer) {
    w.Holds? || w.HasPushed?
  }

  /** Mutual exclusion: whoever is inside the critical section is the one the lock says holds it. */
  ghost predicate LockRight(s: Sys) {
    && (forall w: nat :: InLock(WriterAt(s, w)) <==> s.lock == HeldBy(w))
    && (s.lock.HeldByLoop? <==> s.pc.Draining? || s.pc.Clearing?)
  }

  predicate HasCleared(s: Sys) {
    s.pc.Cleared? || s.pc.Done?
  }

  /** What was pushed is what was handed over, what was thrown away, and what is queued, in that order. */
  ghost predicate Conserved(s: Sys) {
    && s.pushed == s.handed + s.dropped + s.wq
    && (!HasCleared(s) ==> s.dropped == [])
    && (s.handed != [] || s.pc.Draining? ==> Times(s.conn.entered, Established) >= 1)
  }

  /** The history of the connection makes sense, with the loop thread where it is. */
  ghost predicate Sound(s: Sys) {
    && Ordered(s.conn) && EstablishedFirst(s.conn) && (!s.pc.Done? ==> Running(s.conn))
    && (!s.connected ==> Times(s.conn.entered, Starved) == 0 && Times(s.conn.entered, Established) == 0)
    && (s.pc.NotStarted? ==> s.conn.phase.PreConnect? && !s.conn.closed && !s.connected)
  }

  lemma NextKeepsLock(s: Sys, m: Move)
    requires Enabled(s, m) && LockRight(s)
    ensures LockRight(Moved(s, m))
  {
    var t := Moved(s, m);
    forall w: nat
      ensures InLock(WriterAt(t, w)) <==> t.lock == HeldBy(w)
    {
      assert InLock(WriterAt(s, w)) <==> s.lock == HeldBy(w);
      if m.Pushes? || m.Unlocks? {
        assert InLock(WriterAt(s, m.w));
      }
    }
  }

  lemma QueueRegroups(a: seq<Queued>, q: seq<Queued>)
    requires q != []
    ensures a + q == a + [q[0]] + q[1..]
  {
  }

  lemma HandConserves(handed: seq<Queued>, q: seq<Queued>)
    requires q != []
    ensures handed + [] + q == handed + [q[0]] + [] + q[1..]
  {
    QueueRegroups(handed, q);
    assert handed + [] == handed && handed + [q[0]] + [] == handed + [q[0]];
  }

  lemma NextConserves(s: Sys, m: Move)
    requires Enabled(s, m) && Conserved(s) && Sound(s)
    ensures Conserved(Moved(s, m))
  {
    EntersOnly(s, m);
    if m.Pushes? {
      var item := Queued(m.w, s.writers[m.w].buf);
      assert s.handed + s.dropped + s.wq + [item] == s.handed + s.dropped + (s.wq + [item]);
    } else if m.DrainHands? {
      HandConserves(s.handed, s.wq);
    } else if m.Clears? {
      assert s.handed + [] + s.wq == s.handed + s.wq + [];
    } else if m.DrainStarts? {
      LastEntered(s.conn);
    }
  }

  /** Phases are only ever added to the history. */
  lemma EntersOnly(s: Sys, m: Move)
    requires Enabled(s, m) && Sound(s)
    ensures Times(Moved(s, m).conn.entered, Established) >= Times(s.conn.entered, Established)
  {
    NextMovesOn(s, m);
    Grows(s.conn.entered, Moved(s, m).conn.entered, Established);
  }

  lemma Grows(a: seq<Phase>, b: seq<Phase>, p: Phase)
    requires a <= b
    ensures Times(a, p) <= Times(b, p)
  {
    assert b == a + b[|a|..];
  }

  lemma NextMovesOn(s: Sys, m: Move)
    requires Enabled(s, m) && Sound(s)
    ensures s.conn.entered <= Moved(s, m).conn.entered && Moved(s, m).conn.handlers == s.conn.handlers
  {
    match m
    case Connects(ev) => OnConnectExactly(s.conn, ev);
    case Reads(ev) => OnReadExactly(s.conn, ev);
    case DrainHands(r) => ActOnlyShuts(s.conn, Writes(s.wq[0].buf, r));
    case _ =>
  }

  lemma ReturnKeepsLive(c: Conn, e: int)
    requires Live(c)
    ensures Live(Enter(c.(err := e), DisconnectedError))
    ensures Times(Enter(c, DisconnectedError).entered, Established) == Times(c.entered, Established)
    ensures Times(Enter(c, DisconnectedError).entered, Starved) == Times(c.entered, Starved)
  {
    EnterTimes(c, DisconnectedError, Starved);
    EnterTimes(c, DisconnectedError, Established);
  }

  /** The moves that change the connection itself. */
  predicate Callback(m: Move) {
    m.Connects? || m.Reads? || m.DisconnectRequested? || m.DrainHands? || m.RunReturns? || m.Ends?
  }

  lemma OtherMoves(s: Sys, m: Move)
    requires Enabled(s, m) && !Callback(m)
    ensures var t := Moved(s, m);
            && t.conn == s.conn && t.connected == s.connected && t.notReached == s.notReached
            && (t.pc == s.pc || (!t.pc.NotStarted? && !t.pc.Done? && !s.pc.Done?))
  {
  }

  lemma ConnectSound(s: Sys, ev: ConnectEvent)
    requires Enabled(s, Connects(ev)) && Sound(s)
    ensures Sound(Moved(s, Connects(ev)))
  {
    OnConnectKeepsLive(s.conn, ev);
    OnConnectEstablishedFirst(s.conn, ev);
  }

  lemma ReadSound(s: Sys, ev: ReadEvent)
    requires Enabled(s, Reads(ev)) && Sound(s)
    ensures Sound(Moved(s, Reads(ev)))
  {
    OnReadKeepsLive(s.conn, ev);
    OnReadEstablishedFirst(s.conn, ev);
  }

  /** A step that can only shut the connection down, on the loop thread. */
  lemma OnlyShutsSound(s: Sys, t: Sys)
    requires Sound(s) && OnlyShuts(s.conn, t.conn) && (s.pc.Polling? || s.pc.Draining?)
    requires t.pc == s.pc && t.connected == s.connected
    ensures Sound(t)
  {
    OnlyShutsKeepsLive(s.conn, t.conn);
  }

  lemma ReturnSound(s: Sys, fault: Option<int>)
    requires Enabled(s, RunReturns(fault)) && Sound(s)
    ensures Sound(Moved(s, RunReturns(fault)))
  {
    if fault.Some? { ReturnKeepsLive(s.conn, fault.value); }
  }

  lemma EndSound(s: Sys)
    requires Enabled(s, Ends) && Sound(s)
    ensures Sound(Moved(s, Ends))
  {
  }

  lemma NextSound(s: Sys, m: Move)
    requires Enabled(s, m) && Sound(s)
    ensures Sound(Moved(s, m))
  {
    if !Callback(m) {
      OtherMoves(s, m);
    } else {
      match m
      case Connects(ev) => ConnectSound(s, ev);
      case Reads(ev) => ReadSound(s, ev);
      case DisconnectRequested =>
        ShutdownOnlyShuts(s.conn, DisconnectedLocal, 0);
        OnlyShutsSound(s, Moved(s, m));
      case DrainHands(r) =>
        ActOnlyShuts(s.conn, Writes(s.wq[0].buf, r));
        OnlyShutsSound(s, Moved(s, m));
      case RunReturns(fault) => ReturnSound(s, fault);
      case Ends => EndSound(s);
    }
  }

  ghost predicate Inv(s: Sys) {
    LockRight(s) && Conserved(s) && Sound(s)
  }

  lemma {:induction false} RunKeeps(s: Sys, moves: seq<Move>)
    requires CanRun(s, moves) && Inv(s)
    ensures Inv(Run(s, moves))
    decreases |moves|
  {
    if moves != [] {
      NextKeepsLock(s, moves[0]);
      NextConserves(s, moves[0]);
      NextSound(s, moves[0]);
      RunKeeps(Moved(s, moves[0]), moves[1..]);
    }
  }

  lemma StartSound(h: Handlers)
    ensures Inv(Start(h))
  {
  }

  /**
    Queue conservation, for every interleaving: what was ever pushed is what the
    drain has passed to SSL_write followed by what the clearing threw away and
    what is queued; nothing is thrown away before the clearing, and nothing
    from the queue is passed on before Established. No two threads are inside the lock.
   */
  lemma QueueConserved(h: Handlers, moves: seq<Move>)
    requires CanRun(Start(h), moves)
    ensures var s := Run(Start(h), moves);
            && s.pushed == s.handed + s.dropped + s.wq
            && (!HasCleared(s) ==> s.dropped == [])
            && (s.handed != [] ==> Established in s.conn.entered)
    ensures var s := Run(Start(h), moves);
            forall w: nat, v: nat :: InLock(WriterAt(s, w)) && InLock(WriterAt(s, v)) ==>
              w == v && !s.pc.Draining? && !s.pc.Clearing?
  {
    StartSound(h);
    RunKeeps(Start(h), moves);
  }

  /**
    Lifecycle, for every interleaving: Starved and Established are entered at most
    once; the established handler is called at most once and, if it is set, before
    any other handler; nothing is called after an end handler.
   */
  lemma Lifecycle(h: Handlers, moves: seq<Move>)
    requires CanRun(Start(h), moves)
    ensures var c := Run(Start(h), moves).conn;
            && Times(c.entered, Starved) <= 1 && Times(c.entered, Established) <= 1
            && c.entered != [] && c.entered[|c.entered| - 1] == c.phase
            && (forall j :: 1 <= j < |c.log| ==> !c.log[j].EstablishedCall?)
            && (forall i :: 0 <= i < |c.log| - 1 ==> !IsEnd(c.log[i]))
            && EstablishedFirst(c)
  {
    StartSound(h);
    RunKeeps(Start(h), moves);
  }

  // ---------------------------------------------------------------- each writer's order

  function Of(items: seq<Queued>, w: nat): seq<Bytes> {
    if items == [] then []
    else
      var n := |items| - 1;
      Of(items[..n], w) + if items[n].w == w then [items[n].buf] else []
  }

  /** What a thread has asked for and not yet pushed. */
  function InFlight(s: Sys, w: nat): seq<Bytes> {
    match WriterAt(s, w)
    case Wants(buf) => [buf]
    case Holds(buf) => [buf]
    case _ => []
  }

  /** What a thread asked to have written while the loop thread's id was known. */
  function Requested(s: Sys, moves: seq<Move>, w: nat): seq<Bytes>
    requires CanRun(s, moves)
    decreases |moves|
  {
    if moves == [] then []
    else
      (if moves[0].Loads? && moves[0].w == w && IdKnown(s) then [moves[0].buf] else [])
      + Requested(Moved(s, moves[0]), moves[1..], w)
  }

  lemma OfPush(items: seq<Queued>, item: Queued, w: nat)
    ensures Of(items + [item], w) == Of(items, w) + if item.w == w then [item.buf] else []
  {
    assert (items + [item])[..|items|] == items;
  }

  lemma {:induction false} OfPrefix(a: seq<Queued>, b: seq<Queued>, w: nat)
    requires a <= b
    ensures Of(a, w) <= Of(b, w)
    decreases |b|
  {
    if a == b {
    } else {
      var n := |b| - 1;
      assert a <= b[..n];
      OfPrefix(a, b[..n], w);
    }
  }

  lemma NextWrites(s: Sys, m: Move, w: nat)
    requires Enabled(s, m)
    ensures var t := Moved(s, m);
            Of(t.pushed, w) + InFlight(t, w)
              == Of(s.pushed, w) + InFlight(s, w)
               + if m.Loads? && m.w == w && IdKnown(s) then [m.buf] else []
  {
    if m.Pushes? {
      OfPush(s.pushed, Queued(m.w, s.writers[m.w].buf), w);
      PushFlies(s, m, w);
    } else if WriterMove(m) {
      OnlyFlies(s, m, w);
    } else {
      WritersStay(s, m);
    }
  }

  /** Pushing takes a buffer out of flight; no other writer's are touched. */
  lemma PushFlies(s: Sys, m: Move, w: nat)
    requires Enabled(s, m) && m.Pushes?
    ensures Moved(s, m).pushed == s.pushed + [Queued(m.w, s.writers[m.w].buf)]
    ensures InFlight(s, w) == (if m.w == w then [s.writers[m.w].buf] else []) + InFlight(Moved(s, m), w)
  {
  }

  /** The other moves of the writers push nothing. */
  lemma OnlyFlies(s: Sys, m: Move, w: nat)
    requires Enabled(s, m) && WriterMove(m) && !m.Pushes?
    ensures Moved(s, m).pushed == s.pushed
    ensures InFlight(Moved(s, m), w)
         == InFlight(s, w) + if m.Loads? && m.w == w && IdKnown(s) then [m.buf] else []
  {
  }

  /** The moves of the other threads. */
  predicate WriterMove(m: Move) {
    m.Loads? || m.Locks? || m.Pushes? || m.Unlocks? || m.Wakes?
  }

  lemma WritersStay(s: Sys, m: Move)
    requires Enabled(s, m) && !WriterMove(m)
    ensures Moved(s, m).pushed == s.pushed && Moved(s, m).writers == s.writers
  {
  }

  lemma {:induction false} RunWrites(s: Sys, moves: seq<Move>, w: nat)
    requires CanRun(s, moves)
    ensures var f := Run(s, moves);
            Of(f.pushed, w) + InFlight(f, w) == Of(s.pushed, w) + InFlight(s, w) + Requested(s, moves, w)
    decreases |moves|
  {
    if moves != [] {
      NextWrites(s, moves[0], w);
      RunWrites(Moved(s, moves[0]), moves[1..], w);
    }
  }

  /**
    Every buffer a thread asks to have written while the loop thread runs is queued
    exactly once and in the order it asked; what reaches SSL_write from it is a
    prefix of what it asked for.
   */
  lemma WritersKeepOrder(h: Handlers, moves: seq<Move>, w: nat)
    requires CanRun(Start(h), moves)
    ensures var f := Run(Start(h), moves);
            && Of(f.pushed, w) + InFlight(f, w) == Requested(Start(h), moves, w)
            && Of(f.handed, w) <= Requested(Start(h), moves, w)
  {
    var f := Run(Start(h), moves);
    RunWrites(Start(h), moves, w);
    QueueConserved(h, moves);
    OfPrefix(f.handed, f.pushed, w);
  }

  // ---------------------------------------------------------------- the drain as one step

  function Results(rs: seq<WriteResult>): seq<Move> {
    if rs == [] then [] else [DrainHands(rs[0])] + Results(rs[1..])
  }

  function Buffers(q: seq<Queued>): (b: seq<Bytes>)
    ensures |b| == |q|
  {
    if q == [] then [] else [q[0].buf] + Buffers(q[1..])
  }

  /** The drain loop: every queued buffer is written, whatever happened to those before it. */
  function Drained(c: Conn, q: seq<Queued>, rs: seq<WriteResult>): Conn
    requires |q| == |rs|
  {
    DoActs(c, WritesOf(Buffers(q), rs))
  }

  lemma {:induction false} HandsAll(s: Sys, rs: seq<WriteResult>)
    requires s.pc.Draining? && |rs| == |s.wq|
    ensures CanRun(s, Results(rs) + [DrainEnds])
    ensures Run(s, Results(rs) + [DrainEnds])
         == s.(pc := Polling, conn := Drained(s.conn, s.wq, rs),
               q := s.q.(lock := Free, wq := [], handed := s.handed + s.wq))
    decreases |rs|
  {
    var moves := Results(rs) + [DrainEnds];
    if rs == [] {
      assert moves == [DrainEnds] && moves[1..] == [];
      assert s.handed + s.wq == s.handed;
    } else {
      assert moves[1..] == Results(rs[1..]) + [DrainEnds];
      HandsAll(Moved(s, moves[0]), rs[1..]);
      QueueRegroups(s.handed, s.wq);
    }
  }

  /** An undisturbed drain of an established connection empties the queue into SSL_write, in order. */
  lemma DrainIsItsSteps(s: Sys, rs: seq<WriteResult>)
    requires Enabled(s, DrainStarts) && s.conn.phase.Established? && |rs| == |s.wq|
    ensures CanRun(s, [DrainStarts] + Results(rs) + [DrainEnds])
    ensures Run(s, [DrainStarts] + Results(rs) + [DrainEnds])
         == s.(conn := Drained(s.conn, s.wq, rs),
               q := s.q.(lock := Free, woken := false, wq := [], handed := s.handed + s.wq))
  {
    var moves := [DrainStarts] + Results(rs) + [DrainEnds];
    assert moves[0] == DrainStarts && moves[1..] == Results(rs) + [DrainEnds];
    HandsAll(Moved(s, DrainStarts), rs);
  }

  /** While the drain runs, no other thread can get at the queue. */
  lemma DrainIsAlone(s: Sys, m: Move)
    requires Enabled(s, m) && Inv(s) && s.pc.Draining?
    ensures m.Loads? || m.Wakes? || m.DrainHands? || m.DrainEnds?
    ensures Moved(s, m).pushed == s.pushed
    ensures m.DrainEnds? ==> Moved(s, m).handed == s.pushed
  {
  }
}
