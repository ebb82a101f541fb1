/** Wake-ups of the drain: exactly when a buffer is left in the queue with nobody coming for it. */
module TLSWakeups {
  import opened Connection
  import opened TLSSystem

  /** A writer has pushed and not sent its wake-up yet. */
  ghost predicate Owed(s: Sys) {
    exists w: nat :: WriterAt(s, w).HasPushed? || WriterAt(s, w).MustWake?
  }

  /** The queue holds something and no wake-up is pending or on its way: it waits for the next Write. */
  ghost predicate Stranded(s: Sys) {
    s.wq != [] && !s.woken && !Owed(s)
  }

  /**
    Of the wake-ups sent and taken in a run, the last is one taken outside
    Established, where OnDrainWriteQueue drops it; early: so it was before the run.
   */
  predicate TakenEarly(s: Sys, moves: seq<Move>, early: bool)
    requires CanRun(s, moves)
    decreases |moves|
  {
    if moves == [] then early else TakenEarly(Moved(s, moves[0]), moves[1..], EarlyAfter(s, moves[0], early))
  }

  predicate EarlyAfter(s: Sys, m: Move, early: bool) {
    match m
    case Wakes(_) => false
    case DrainStarts => !s.conn.phase.Established?
    case _ => early
  }

  /** Wake-ups account for the queue: unless the last was taken early, one is pending or owed. */
  ghost predicate Signalled(s: Sys, early: bool) {
    && (early ==> !s.woken)
    && (s.pc.NotStarted? ==> s.wq == [] && s.writers == map[])
    && (s.pc.Polling? && Stranded(s) ==> early)
  }

  lemma NextOwed(s: Sys, m: Move)
    requires Enabled(s, m)
    ensures m.Pushes? || m.Unlocks? ==> Owed(Moved(s, m))
    ensures Owed(s) && !m.Wakes? ==> Owed(Moved(s, m))
  {
    var t := Moved(s, m);
    if m.Pushes? || m.Unlocks? {
      assert WriterAt(t, m.w).HasPushed? || WriterAt(t, m.w).MustWake?;
    } else if Owed(s) && !m.Wakes? {
      var w: nat :| WriterAt(s, w).HasPushed? || WriterAt(s, w).MustWake?;
      assert WriterAt(t, w) == WriterAt(s, w);
    }
  }

  lemma NextSignalled(s: Sys, m: Move, early: bool)
    requires Enabled(s, m) && Signalled(s, early)
    ensures Signalled(Moved(s, m), EarlyAfter(s, m, early))
  {
    NextOwed(s, m);
  }

  lemma {:induction false} RunSignalled(s: Sys, moves: seq<Move>, early: bool)
    requires CanRun(s, moves) && Signalled(s, early)
    ensures Signalled(Run(s, moves), TakenEarly(s, moves, early))
    decreases |moves|
  {
    if moves != [] {
      NextSignalled(s, moves[0], early);
      RunSignalled(Moved(s, moves[0]), moves[1..], EarlyAfter(s, moves[0], early));
    }
  }

  /**
    When the loop is idle, buffers are stranded in the queue exactly if no writer is
    about to send a wake-up and the last wake-up was taken outside Established.
    TransitionToConnectionEstablishedState does not drain, so they stay there in an
    established connection until the next Write.
   */
  lemma StrandedExactly(h: Handlers, moves: seq<Move>)
    requires CanRun(Start(h), moves) && Run(Start(h), moves).pc.Polling?
    ensures var s := Run(Start(h), moves);
            Stranded(s) <==> s.wq != [] && !Owed(s) && TakenEarly(Start(h), moves, false)
  {
    RunSignalled(Start(h), moves, false);
  }
}
