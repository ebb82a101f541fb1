/** How a run ends: in which phase, with which handler called, and with which assertions broken. */
module TLSEndings {
  import opened Wire
  import opened Connection
  import opened Shutdowns
  import opened Causes
  import opened TLSSystem

  // ---------------------------------------------------------------- how the thread ends

  /** The handles are closed and yet the phase is not a disconnected one. */
  predicate Stuck(c: Conn) {
    c.closed && !Over(c.phase)
  }

  /** This callback makes a handshake that completes after its own verify callback shut the connection down. */
  predicate Overtakes(s: Sys, m: Move) {
    match m
    case Connects(ev) => ConnectOvertaken(s.conn, ev)
    case Reads(ev) => ReadOvertaken(s.conn, ev)
    case _ => false
  }

  predicate OvertakenIn(s: Sys, moves: seq<Move>)
    requires CanRun(s, moves)
    decreases |moves|
  {
    moves != [] && (Overtakes(s, moves[0]) || OvertakenIn(Moved(s, moves[0]), moves[1..]))
  }

  predicate RunFails(moves: seq<Move>) {
    exists i :: 0 <= i < |moves| && moves[i].RunReturns? && moves[i].fault.Some?
  }

  predicate HasReturned(s: Sys) {
    s.pc.Returned? || s.pc.Leaving? || s.pc.Clearing? || s.pc.Cleared? || s.pc.Done?
  }

  /**
    While the loop runs a disconnected phase means closed handles; it has returned
    only with closed handles or an error.
   */
  ghost predicate Guarded(s: Sys) {
    && (s.pc.Polling? || s.pc.Draining? ==> Over(s.conn.phase) ==> s.conn.closed)
    && (Stuck(s.conn) ==> s.connected && !s.pc.Draining?)
    && (HasReturned(s) ==> s.conn.closed || Over(s.conn.phase))
    && (if s.pc.Done? then s.notReached == Stuck(s.conn) else !s.notReached)
  }

  ghost predicate Watched(s: Sys) {
    Sound(s) && Guarded(s)
  }

  /** What a move does to being stuck. */
  ghost predicate StuckExactly(s: Sys, m: Move)
    requires Enabled(s, m)
  {
    Stuck(Moved(s, m).conn) <==> !(m.RunReturns? && m.fault.Some?) && (Stuck(s.conn) || Overtakes(s, m))
  }

  lemma ConnectGuarded(s: Sys, ev: ConnectEvent)
    requires Enabled(s, Connects(ev)) && Watched(s)
    ensures Guarded(Moved(s, Connects(ev))) && StuckExactly(s, Connects(ev))
  {
    OnConnectExactly(s.conn, ev);
  }

  lemma ReadGuarded(s: Sys, ev: ReadEvent)
    requires Enabled(s, Reads(ev)) && Watched(s)
    ensures Guarded(Moved(s, Reads(ev))) && StuckExactly(s, Reads(ev))
  {
    OnReadExactly(s.conn, ev);
  }

  lemma DrainGuarded(s: Sys, r: WriteResult)
    requires Enabled(s, DrainHands(r)) && Watched(s)
    ensures Guarded(Moved(s, DrainHands(r))) && StuckExactly(s, DrainHands(r))
  {
  }

  lemma EndGuarded(s: Sys)
    requires Enabled(s, Ends) && Watched(s)
    ensures Guarded(Moved(s, Ends)) && StuckExactly(s, Ends)
  {
  }

  lemma DisconnectGuarded(s: Sys)
    requires Enabled(s, DisconnectRequested) && Watched(s)
    ensures Guarded(Moved(s, DisconnectRequested)) && StuckExactly(s, DisconnectRequested)
  {
  }

  lemma ReturnGuarded(s: Sys, fault: Option<int>)
    requires Enabled(s, RunReturns(fault)) && Watched(s)
    ensures Guarded(Moved(s, RunReturns(fault))) && StuckExactly(s, RunReturns(fault))
  {
  }

  lemma OtherGuarded(s: Sys, m: Move)
    requires Enabled(s, m) && !Callback(m) && Watched(s)
    ensures Guarded(Moved(s, m)) && StuckExactly(s, m)
  {
    OtherMoves(s, m);
  }

  lemma NextGuarded(s: Sys, m: Move)
    requires Enabled(s, m) && Watched(s)
    ensures Guarded(Moved(s, m)) && StuckExactly(s, m)
  {
    if !Callback(m) {
      OtherGuarded(s, m);
    } else if m.Connects? {
      ConnectGuarded(s, m.ev);
    } else if m.Reads? {
      ReadGuarded(s, m.rev);
    } else if m.DisconnectRequested? {
      DisconnectGuarded(s);
    } else if m.DrainHands? {
      DrainGuarded(s, m.result);
    } else if m.RunReturns? {
      ReturnGuarded(s, m.fault);
    } else {
      EndGuarded(s);
    }
  }

  lemma NextWatched(s: Sys, m: Move)
    requires Enabled(s, m) && Watched(s)
    ensures Watched(Moved(s, m)) && StuckExactly(s, m)
  {
    NextSound(s, m);
    NextGuarded(s, m);
  }

  /** Once uv_run has returned, the phase is what it is. */
  lemma {:induction false} AfterReturn(s: Sys, moves: seq<Move>)
    requires CanRun(s, moves) && Watched(s) && HasReturned(s)
    ensures Watched(Run(s, moves)) && !OvertakenIn(s, moves) && !RunFails(moves)
    ensures Stuck(Run(s, moves).conn) == Stuck(s.conn)
    decreases |moves|
  {
    if moves != [] {
      NextWatched(s, moves[0]);
      AfterReturn(Moved(s, moves[0]), moves[1..]);
      assert forall i :: 1 <= i < |moves| ==> moves[i] == moves[1..][i - 1];
    }
  }

  lemma {:induction false} RunWatched(s: Sys, moves: seq<Move>)
    requires CanRun(s, moves) && Watched(s) && !HasReturned(s)
    ensures Watched(Run(s, moves))
    ensures Stuck(Run(s, moves).conn) <==> !RunFails(moves) && (Stuck(s.conn) || OvertakenIn(s, moves))
    decreases |moves|
  {
    if moves != [] {
      var t := Moved(s, moves[0]);
      NextWatched(s, moves[0]);
      if HasReturned(t) { AfterReturn(t, moves[1..]); } else { RunWatched(t, moves[1..]); }
      FailsFirst(moves);
    }
  }

  lemma FailsFirst(moves: seq<Move>)
    requires moves != []
    ensures RunFails(moves) <==> (moves[0].RunReturns? && moves[0].fault.Some?) || RunFails(moves[1..])
  {
    assert forall i :: 1 <= i < |moves| ==> moves[i] == moves[1..][i - 1];
    assert forall i :: 0 <= i < |moves| - 1 ==> moves[1..][i] == moves[i + 1];
  }

  /**
    The thread runs into NotReached exactly when uv_run returned without an error
    after a handshake that completed although its verify callback had shut the
    connection down, with nothing in that callback shutting it down again.
   */
  lemma EndsInNotReachedExactly(h: Handlers, moves: seq<Move>)
    requires CanRun(Start(h), moves) && Run(Start(h), moves).pc.Done?
    ensures Run(Start(h), moves).notReached <==> !RunFails(moves) && OvertakenIn(Start(h), moves)
  {
    RunWatched(Start(h), moves);
  }

  /** The verify callbacks of completed handshakes leave the connection alone. */
  ghost predicate VerifyBehaves(h: Handlers, moves: seq<Move>) {
    && (forall i :: 0 <= i < |moves| && moves[i].Connects? && moves[i].ev.TcpConnected? ==>
          moves[i].ev.hs.result.Connected? ==> !VerifyShuts(h, moves[i].ev.hs))
    && (forall i :: 0 <= i < |moves| && moves[i].Reads? && moves[i].rev.Incoming? ==>
          moves[i].rev.hs.result.Connected? ==> !VerifyShuts(h, moves[i].rev.hs))
  }

  lemma {:induction false} BehavedIsNotOvertaken(s: Sys, moves: seq<Move>)
    requires CanRun(s, moves) && Sound(s) && VerifyBehaves(s.conn.handlers, moves)
    ensures !OvertakenIn(s, moves)
    decreases |moves|
  {
    if moves != [] {
      assert forall i :: 0 <= i < |moves| - 1 ==> moves[1..][i] == moves[i + 1];
      NextSound(s, moves[0]);
      NextMovesOn(s, moves[0]);
      BehavedIsNotOvertaken(Moved(s, moves[0]), moves[1..]);
    }
  }

  /** The causes for which a move shuts the connection down, read off its inputs. */
  function MoveShutdowns(s: Sys, m: Move): seq<Cause> {
    match m
    case Connects(ev) => ConnectCauses(s.conn.handlers, ev)
    case Reads(ev) => CausesOfRead(s.conn, ev)
    case DisconnectRequested => [ByLocal]
    case DrainHands(r) => WriteCauses(r)
    case _ => []
  }

  /** All the causes it brings: a failed uv_run is one for which nothing is shut down any more. */
  function MoveCauses(s: Sys, m: Move): seq<Cause> {
    if m.RunReturns? && m.fault.Some? then [ByError(m.fault.value)] else MoveShutdowns(s, m)
  }

  function RunCauses(s: Sys, moves: seq<Move>): seq<Cause>
    requires CanRun(s, moves)
    decreases |moves|
  {
    if moves == [] then [] else MoveCauses(s, moves[0]) + RunCauses(Moved(s, moves[0]), moves[1..])
  }

  function RunShutdowns(s: Sys, moves: seq<Move>): seq<Cause>
    requires CanRun(s, moves)
    decreases |moves|
  {
    if moves == [] then [] else MoveShutdowns(s, moves[0]) + RunShutdowns(Moved(s, moves[0]), moves[1..])
  }

  lemma NextTells(s: Sys, m: Move, cs: seq<Cause>)
    requires Enabled(s, m) && Sound(s) && Tells(s.conn, cs) && !m.Ends?
    ensures Tells(Moved(s, m).conn, cs + MoveCauses(s, m))
    ensures Moved(s, m).conn.shutdowns == s.conn.shutdowns + |MoveShutdowns(s, m)|
  {
    if !Callback(m) {
      OtherMoves(s, m);
      assert cs + [] == cs;
    } else {
      match m
      case Connects(ev) => OnConnectTells(s.conn, ev, cs);
      case Reads(ev) => OnReadTells(s.conn, ev, cs);
      case DisconnectRequested =>
      case DrainHands(r) => DrainTells(s, r, cs);
      case RunReturns(fault) => ReturnTells(s, fault, cs);
    }
  }

  lemma DrainTells(s: Sys, r: WriteResult, cs: seq<Cause>)
    requires Enabled(s, DrainHands(r)) && Tells(s.conn, cs)
    ensures Tells(Moved(s, DrainHands(r)).conn, cs + WriteCauses(r))
    ensures Moved(s, DrainHands(r)).conn.shutdowns == s.conn.shutdowns + |WriteCauses(r)|
  {
    ActTells(s.conn, Writes(s.wq[0].buf, r), cs);
  }

  lemma ReturnTells(s: Sys, fault: Option<int>, cs: seq<Cause>)
    requires Enabled(s, RunReturns(fault)) && Tells(s.conn, cs)
    ensures Tells(Moved(s, RunReturns(fault)).conn, cs + MoveCauses(s, RunReturns(fault)))
    ensures Moved(s, RunReturns(fault)).conn.shutdowns == s.conn.shutdowns
  {
    assert cs + [] == cs;
  }

  /** The end handler that a cause asks for, and whether it is set. */
  function EndCall(x: Cause): Call {
    match x
    case ByLocal => DisconnectCall(true)
    case ByRemote => DisconnectCall(false)
    case ByError(e) => ErrorCall(e)
  }

  predicate EndIsSet(h: Handlers, x: Cause) {
    if x.ByError? then h.error else h.disconnect
  }

  predicate EndsWith(c: Conn, x: Cause) {
    if EndIsSet(c.handlers, x) then c.log != [] && c.log[|c.log| - 1] == EndCall(x)
    else forall i :: 0 <= i < |c.log| ==> !IsEnd(c.log[i])
  }

  /** Before the end the last cause decides the phase; after it, the handler called. */
  ghost predicate Accounted(s: Sys, cs: seq<Cause>) {
    if !s.pc.Done? then Tells(s.conn, cs)
    else !s.notReached ==> Over(s.conn.phase) && cs != [] && EndsWith(s.conn, cs[|cs| - 1])
  }

  lemma EndAccounted(s: Sys, cs: seq<Cause>)
    requires Enabled(s, Ends) && Watched(s) && Accounted(s, cs)
    ensures Accounted(Moved(s, Ends), cs) && Moved(s, Ends).conn.shutdowns == s.conn.shutdowns
  {
  }

  lemma NextAccounted(s: Sys, m: Move, cs: seq<Cause>)
    requires Enabled(s, m) && Watched(s) && Accounted(s, cs)
    ensures Accounted(Moved(s, m), cs + MoveCauses(s, m))
    ensures Moved(s, m).conn.shutdowns == s.conn.shutdowns + |MoveShutdowns(s, m)|
  {
    assert cs + [] == cs;
    if m.Ends? {
      EndAccounted(s, cs);
    } else {
      NotDone(s, m);
      if !s.pc.Done? { NextTells(s, m, cs); }
    }
  }

  lemma Regroup<T>(a: seq<T>, b: seq<T>, c: seq<T>)
    ensures a + (b + c) == a + b + c
  {
  }

  lemma {:induction false} RunAccounted(s: Sys, moves: seq<Move>, cs: seq<Cause>)
    requires CanRun(s, moves) && Watched(s) && Accounted(s, cs)
    ensures Accounted(Run(s, moves), cs + RunCauses(s, moves))
    ensures Run(s, moves).conn.shutdowns == s.conn.shutdowns + |RunShutdowns(s, moves)|
    decreases |moves|
  {
    if moves == [] {
      assert cs + [] == cs;
    } else {
      var here, more := MoveCauses(s, moves[0]), RunCauses(Moved(s, moves[0]), moves[1..]);
      NextWatched(s, moves[0]);
      NextAccounted(s, moves[0], cs);
      RunAccounted(Moved(s, moves[0]), moves[1..], cs + here);
      Regroup(cs, here, more);
    }
  }

  lemma NotDone(s: Sys, m: Move)
    requires Enabled(s, m) && !m.Ends?
    ensures Moved(s, m).pc.Done? <==> s.pc.Done?
    ensures s.pc.Done? ==>
              MoveCauses(s, m) == [] && Moved(s, m).conn == s.conn && Moved(s, m).notReached == s.notReached
  {
  }

  /**
    If the verify callback leaves the connection alone, a thread that ends does so
    in a disconnected phase, never in NotReached, having called at most one end
    handler: the one for the last cause among everything that happened in the run.
   */
  lemma EndHandlerMatches(h: Handlers, moves: seq<Move>)
    requires CanRun(Start(h), moves) && Run(Start(h), moves).pc.Done? && VerifyBehaves(h, moves)
    ensures var s, cs := Run(Start(h), moves), RunCauses(Start(h), moves);
            && !s.notReached && Over(s.conn.phase)
            && (forall i :: 0 <= i < |s.conn.log| - 1 ==> !IsEnd(s.conn.log[i]))
            && cs != [] && EndsWith(s.conn, cs[|cs| - 1])
  {
    Lifecycle(h, moves);
    EndsInNotReachedExactly(h, moves);
    BehavedIsNotOvertaken(Start(h), moves);
    RunAccounted(Start(h), moves, []);
    assert [] + RunCauses(Start(h), moves) == RunCauses(Start(h), moves);
  }

  /**
    Shutdown, which closes the three handles, runs once for each cause other than a
    failed uv_run; so a handle is closed again exactly when there are two such causes.
   */
  lemma ShutdownsCounted(h: Handlers, moves: seq<Move>)
    requires CanRun(Start(h), moves)
    ensures var n := Run(Start(h), moves).conn.shutdowns;
            && n == |RunShutdowns(Start(h), moves)|
            && (Run(Start(h), moves).conn.closed <==> RunShutdowns(Start(h), moves) != [])
  {
    RunAccounted(Start(h), moves, []);
  }

  // ---------------------------------------------------------------- the assertion in OnConnect

  predicate ConnectsIn(moves: seq<Move>) {
    exists i :: 0 <= i < |moves| && moves[i].Connects?
  }

  /** A request to disconnect is delivered, and then OnConnect. */
  predicate DisconnectsFirst(moves: seq<Move>) {
    exists i, j :: 0 <= i < j < |moves| && moves[i].DisconnectRequested? && moves[j].Connects?
  }

  /** Before OnConnect the phase tells whether a request to disconnect has been delivered. */
  predicate Fresh(s: Sys) {
    !s.connected && !s.pc.Draining? && (!HasReturned(s) ==> (s.conn.phase.PreConnect? <==> !s.conn.closed))
      && (s.conn.phase.PreConnect? || Over(s.conn.phase))
  }

  lemma {:induction false} AssertionAfter(s: Sys, moves: seq<Move>)
    requires CanRun(s, moves) && (s.connected || HasReturned(s))
    ensures Run(s, moves).assertHeld == s.assertHeld && !ConnectsIn(moves)
    decreases |moves|
  {
    if moves != [] {
      AssertionAfter(Moved(s, moves[0]), moves[1..]);
      assert forall i :: 1 <= i < |moves| ==> moves[i] == moves[1..][i - 1];
    }
  }

  lemma FirstMove(moves: seq<Move>)
    requires moves != []
    ensures ConnectsIn(moves) <==> moves[0].Connects? || ConnectsIn(moves[1..])
    ensures DisconnectsFirst(moves) <==>
              (moves[0].DisconnectRequested? && ConnectsIn(moves[1..])) || DisconnectsFirst(moves[1..])
  {
    var rest := moves[1..];
    assert forall i :: 1 <= i < |moves| ==> moves[i] == rest[i - 1];
    assert forall i :: 0 <= i < |rest| ==> rest[i] == moves[i + 1];
    if DisconnectsFirst(rest) {
      var i, j :| 0 <= i < j < |rest| && rest[i].DisconnectRequested? && rest[j].Connects?;
      assert moves[i + 1].DisconnectRequested? && moves[j + 1].Connects?;
    }
    if moves[0].DisconnectRequested? && ConnectsIn(rest) {
      var j :| 0 <= j < |rest| && rest[j].Connects?;
      assert moves[j + 1].Connects?;
    }
  }

  lemma {:induction false} AssertionUpTo(s: Sys, moves: seq<Move>)
    requires CanRun(s, moves) && Fresh(s) && !HasReturned(s) && s.assertHeld
    ensures Run(s, moves).assertHeld <==> !(s.conn.closed && ConnectsIn(moves)) && !DisconnectsFirst(moves)
    decreases |moves|
  {
    if moves != [] {
      var t := Moved(s, moves[0]);
      FirstMove(moves);
      if t.connected || HasReturned(t) {
        AssertionAfter(t, moves[1..]);
        NoDisconnect(moves[1..]);
      } else {
        AssertionUpTo(t, moves[1..]);
      }
    }
  }

  lemma NoDisconnect(moves: seq<Move>)
    requires !ConnectsIn(moves)
    ensures !DisconnectsFirst(moves)
  {
  }

  /** The assertion at the top of OnConnect holds exactly when no request to disconnect was delivered before it. */
  lemma AssertionHoldsExactly(h: Handlers, moves: seq<Move>)
    requires CanRun(Start(h), moves)
    ensures Run(Start(h), moves).assertHeld <==> !DisconnectsFirst(moves)
  {
    AssertionUpTo(Start(h), moves);
  }
}
