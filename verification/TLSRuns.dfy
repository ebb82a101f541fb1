/** Concrete runs: one for each promise that the transport does not keep. */
module TLSRuns {
  import opened Wire
  import opened Connection
  import opened TLSSystem
  import opened TLSWakeups

  const ENDING := [RunReturns(None), Leaves, LocksToClear, Clears, Ends]

  lemma RunFirst(s: Sys, m: Move, rest: seq<Move>)
    requires Enabled(s, m) && CanRun(Moved(s, m), rest)
    ensures CanRun(s, [m] + rest) && Run(s, [m] + rest) == Run(Moved(s, m), rest)
  {
    assert ([m] + rest)[1..] == rest;
  }

  lemma Ending(s: Sys)
    requires s.pc.Polling? && s.conn.closed && s.lock.Free?
    ensures CanRun(s, ENDING)
    ensures var f := Run(s, ENDING);
            f.pc.Done? && f.assertHeld == s.assertHeld &&
            match EndCalls(s.conn)
            case Some(c) => f.conn == c && f.notReached == s.notReached
            case None => f.conn == s.conn && f.notReached
  {
    var s1 := Moved(s, RunReturns(None));
    var s2 := Moved(s1, Leaves);
    Clearing(s2);
    RunFirst(s1, Leaves, [LocksToClear, Clears, Ends]);
    assert [Leaves] + [LocksToClear, Clears, Ends] == ENDING[1..];
    RunFirst(s, RunReturns(None), ENDING[1..]);
    assert [RunReturns(None)] + ENDING[1..] == ENDING;
  }

  lemma Clearing(s: Sys)
    requires s.pc.Leaving? && s.lock.Free?
    ensures CanRun(s, [LocksToClear, Clears, Ends])
    ensures var t := s.(pc := Cleared, q := s.q.(wq := [], dropped := s.wq));
            Run(s, [LocksToClear, Clears, Ends]) == Moved(t, Ends)
  {
    var s1 := Moved(s, LocksToClear);
    var s2 := Moved(s1, Clears);
    RunFirst(s2, Ends, []);
    RunFirst(s1, Clears, [Ends]);
    assert [Clears] + [Ends] == [Clears, Ends];
    RunFirst(s, LocksToClear, [Clears, Ends]);
    assert [LocksToClear] + [Clears, Ends] == [LocksToClear, Clears, Ends];
  }

  /**
    A Disconnect of the application's own that arrives while the connection is being
    made: the assertion in OnConnect fails, and without it the application is told of
    an error, not of its disconnect.
   */
  lemma EarlyDisconnectIsReportedAsError(e: int)
    ensures var moves := [ThreadStarts, DisconnectRequested, Connects(ConnectError(e))] + ENDING;
            var h := Handlers(true, true, true, true, true);
            && CanRun(Start(h), moves) && !Run(Start(h), moves).assertHeld
            && Run(Start(h), moves).conn.log == [ErrorCall(e)]
  {
    var h := Handlers(true, true, true, true, true);
    var s1 := Moved(Start(h), ThreadStarts);
    var s2 := Moved(s1, DisconnectRequested);
    var s3 := Moved(s2, Connects(ConnectError(e)));
    Ending(s3);
    RunFirst(s2, Connects(ConnectError(e)), ENDING);
    RunFirst(s1, DisconnectRequested, [Connects(ConnectError(e))] + ENDING);
    RunFirst(Start(h), ThreadStarts, [DisconnectRequested] + ([Connects(ConnectError(e))] + ENDING));
    assert [ThreadStarts, DisconnectRequested, Connects(ConnectError(e))] + ENDING
        == [ThreadStarts] + ([DisconnectRequested] + ([Connects(ConnectError(e))] + ENDING));
  }

  /**
    A verify handler that disconnects and accepts: the connection is announced as
    established, and the thread ends in NotReached.
   */
  lemma DisconnectInVerifyIsNotReached()
    ensures var hs := Handshake([], [Disconnects], true, Connected, []);
            var moves := [ThreadStarts, Connects(TcpConnected(hs))] + ENDING;
            var h := Handlers(true, true, true, true, true);
            && CanRun(Start(h), moves) && Run(Start(h), moves).notReached
            && Run(Start(h), moves).conn.log == [EstablishedCall]
  {
    var hs := Handshake([], [Disconnects], true, Connected, []);
    var h := Handlers(true, true, true, true, true);
    var s1 := Moved(Start(h), ThreadStarts);
    var s2 := Moved(s1, Connects(TcpConnected(hs)));
    assert [Disconnects][1..] == [];
    assert s2.conn.closed && s2.conn.phase.Established? && s2.conn.log == [EstablishedCall];
    Ending(s2);
    RunFirst(s1, Connects(TcpConnected(hs)), ENDING);
    RunFirst(Start(h), ThreadStarts, [Connects(TcpConnected(hs))] + ENDING);
    assert [ThreadStarts, Connects(TcpConnected(hs))] + ENDING
        == [ThreadStarts] + ([Connects(TcpConnected(hs))] + ENDING);
  }

  /** An established handler that disconnects twice has the handles closed twice. */
  lemma HandlesClosedTwice(h: Handlers)
    requires h.established
    ensures var hs := Handshake([], [], true, Connected, [Disconnects, Disconnects]);
            var moves := [ThreadStarts, Connects(TcpConnected(hs))];
            CanRun(Start(h), moves) && Run(Start(h), moves).conn.shutdowns == 2
  {
    var acts := [Disconnects, Disconnects];
    var connect := Connects(TcpConnected(Handshake([], [], true, Connected, acts)));
    var s := Moved(Start(h), ThreadStarts);
    TwoDisconnects(Enter(Enter(s.conn, Starved), Established).(log := [EstablishedCall]));
    RunFirst(s, connect, []);
    RunFirst(Start(h), ThreadStarts, [connect]);
    assert [ThreadStarts, connect] == [ThreadStarts] + [connect];
  }

  lemma TwoDisconnects(c: Conn)
    ensures DoActs(c, [Disconnects, Disconnects]).shutdowns == c.shutdowns + 2
  {
    var acts := [Disconnects, Disconnects];
    assert acts[1..] == [Disconnects] && acts[1..][1..] == [];
  }

  lemma RunConcat(s: Sys, a: seq<Move>, b: seq<Move>)
    requires CanRun(s, a) && CanRun(Run(s, a), b)
    ensures CanRun(s, a + b) && Run(s, a + b) == Run(Run(s, a), b)
    decreases |a|
  {
    if a == [] {
      assert a + b == b;
    } else {
      assert (a + b)[1..] == a[1..] + b;
      RunConcat(Moved(s, a[0]), a[1..], b);
    }
  }

  /** Taking the lock and pushing. */
  lemma PushSteps(s: Sys, w: nat, b: Bytes)
    requires IdKnown(s) && s.lock.Free? && WriterAt(s, w).Outside?
    ensures CanRun(s, [Loads(w, b), Locks(w), Pushes(w)])
    ensures Run(s, [Loads(w, b), Locks(w), Pushes(w)])
         == s.(q := s.q.(lock := HeldBy(w), writers := s.writers[w := HasPushed],
                         wq := s.wq + [Queued(w, b)], pushed := s.pushed + [Queued(w, b)]))
  {
    var s1 := Moved(s, Loads(w, b));
    var s2 := Moved(s1, Locks(w));
    RunFirst(s2, Pushes(w), []);
    RunFirst(s1, Locks(w), [Pushes(w)]);
    assert [Locks(w)] + [Pushes(w)] == [Locks(w), Pushes(w)];
    RunFirst(s, Loads(w, b), [Locks(w), Pushes(w)]);
    assert [Loads(w, b)] + [Locks(w), Pushes(w)] == [Loads(w, b), Locks(w), Pushes(w)];
  }

  /** Giving the lock back and waking the loop. */
  lemma WakeSteps(s: Sys, w: nat)
    requires WriterAt(s, w).HasPushed?
    ensures CanRun(s, [Unlocks(w), Wakes(w)])
    ensures Run(s, [Unlocks(w), Wakes(w)])
         == s.(q := s.q.(lock := Free, woken := true, writers := s.writers[w := Outside]))
  {
    var s1 := Moved(s, Unlocks(w));
    RunFirst(s1, Wakes(w), []);
    RunFirst(s, Unlocks(w), [Wakes(w)]);
    assert [Unlocks(w)] + [Wakes(w)] == [Unlocks(w), Wakes(w)];
  }

  /** The steps of one Write from thread w. */
  function WriteSteps(w: nat, b: Bytes): seq<Move> {
    [Loads(w, b), Locks(w), Pushes(w)] + [Unlocks(w), Wakes(w)]
  }

  /** An undisturbed Write while the loop runs queues the buffer and wakes the loop. */
  lemma WriteIsItsSteps(s: Sys, w: nat, b: Bytes)
    requires IdKnown(s) && s.lock.Free? && WriterAt(s, w).Outside?
    ensures CanRun(s, WriteSteps(w, b))
    ensures Run(s, WriteSteps(w, b))
         == s.(q := s.q.(wq := s.wq + [Queued(w, b)], pushed := s.pushed + [Queued(w, b)],
                         woken := true, writers := s.writers[w := Outside]))
  {
    PushSteps(s, w, b);
    WakeSteps(Run(s, [Loads(w, b), Locks(w), Pushes(w)]), w);
    RunConcat(s, [Loads(w, b), Locks(w), Pushes(w)], [Unlocks(w), Wakes(w)]);
    assert s.writers[w := HasPushed][w := Outside] == s.writers[w := Outside];
  }

  const STARVES := Connects(TcpConnected(Handshake([], [], true, ConnectWants, [])))

  const ESTABLISHES := Reads(Incoming([0], Handshake([], [], true, Connected, []), []))

  lemma StarvedFirst(h: Handlers)
    ensures CanRun(Start(h), [ThreadStarts, STARVES])
    ensures Run(Start(h), [ThreadStarts, STARVES])
         == Start(h).(pc := Polling, connected := true, conn := Enter(NewConn(h), Starved))
  {
    var s1 := Moved(Start(h), ThreadStarts);
    RunFirst(s1, STARVES, []);
    RunFirst(Start(h), ThreadStarts, [STARVES]);
    assert [ThreadStarts] + [STARVES] == [ThreadStarts, STARVES];
  }

  /** The wake-up is dropped, and the handshake completes without another. */
  lemma WakeIsDropped(s: Sys)
    requires s.pc.Polling? && s.woken && s.connected && !s.conn.closed && s.conn.phase.Starved?
    ensures var moves := [DrainStarts, ESTABLISHES];
            && CanRun(s, moves)
            && Run(s, moves) == s.(q := s.q.(woken := false), conn := Run(s, moves).conn)
            && Run(s, moves).conn.phase.Established? && !Run(s, moves).conn.closed
  {
    var s1 := Moved(s, DrainStarts);
    RunFirst(s1, ESTABLISHES, []);
    RunFirst(s, DrainStarts, [ESTABLISHES]);
    assert [DrainStarts] + [ESTABLISHES] == [DrainStarts, ESTABLISHES];
  }

  /**
    A buffer written during the handshake: its wake-up is dropped, and establishing
    the connection does not send it.
   */
  lemma WriteDuringHandshakeIsStranded(h: Handlers, b: Bytes)
    ensures var moves := [ThreadStarts, STARVES] + WriteSteps(1, b) + [DrainStarts, ESTABLISHES];
            && CanRun(Start(h), moves)
            && Run(Start(h), moves).conn.phase.Established? && !Run(Start(h), moves).conn.closed
            && Run(Start(h), moves).wq == [Queued(1, b)] && Stranded(Run(Start(h), moves))
  {
    var first := [ThreadStarts, STARVES];
    StarvedFirst(h);
    WriteIsItsSteps(Run(Start(h), first), 1, b);
    RunConcat(Start(h), first, WriteSteps(1, b));
    var s := Run(Start(h), first + WriteSteps(1, b));
    WakeIsDropped(s);
    RunConcat(Start(h), first + WriteSteps(1, b), [DrainStarts, ESTABLISHES]);
    assert forall w: nat :: WriterAt(s, w).Outside?;
  }
}
