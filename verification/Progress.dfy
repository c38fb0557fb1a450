/** No wakeup is lost, no run gets stuck, and every run ends. */
module Progress {
  import opened Protocol
  import opened Invariant

  // ----- The in-flight counter -----

  /** In every run the counter is exactly the number of admitted calls that have not finished, so the clamp is idle. */
  lemma InFlightIsExact(setup: Setup, s: State, moves: seq<Move>)
    requires setup.conn.Some? && Init(setup, s) && IsRun(s, moves)
    ensures var t := Run(s, moves);
            && t.w.inFlight == Total(t.calls, InFlight) >= 0
            && forall i | 0 <= i < |t.calls| && t.calls[i].pc.IoCounted? :: t.w.inFlight - 1 >= 0
  {
    InitHasInv(setup, s);
    RunKeepsInv(s, moves);
    var t := Run(s, moves);
    InFlightMeansFlying(t.w, t.calls);
    forall i | 0 <= i < |t.calls| && t.calls[i].pc.IoCounted? ensures t.w.inFlight - 1 >= 0 {
      assert Flying(t.calls[i].pc);
    }
  }

  /** Once a close has started, no step raises the counter and no step undoes the start. */
  lemma InFlightNeverRisesAfterClose(s: State, i: nat, env: Env)
    requires Inv(s) && Enabled(s, i) && s.w.closeStarted
    ensures var t := Step(s, i, env); t.w.closeStarted && t.w.inFlight <= s.w.inFlight
  {
    InFlightMeansFlying(s.w, s.calls);
    if s.calls[i].pc.IoCounted? { assert Flying(s.calls[i].pc); }
  }

  // ----- No deadlock -----

  predicate Begun(pc: Pc) {
    pc != Start && !Returned(pc)
  }

  /** A closer waits only while something is in flight, and is signalled as soon as nothing is. */
  lemma NoLostWakeup(setup: Setup, s: State, moves: seq<Move>, i: nat)
    requires setup.conn.Some? && Init(setup, s) && IsRun(s, moves)
    requires i < |Run(s, moves).calls| && Run(s, moves).calls[i].pc.Parked?
    ensures var t := Run(s, moves);
            t.calls[i].pc.signalled <==> !exists j :: 0 <= j < |t.calls| && Flying(t.calls[j].pc)
  {
    InitHasInv(setup, s);
    RunKeepsInv(s, moves);
    var t := Run(s, moves);
    assert Local(t.w, t.calls[i].pc);
    InFlightMeansFlying(t.w, t.calls);
  }

  /** A parked closer can move, or a call in flight can. */
  lemma ParkedIsNotStuck(s: State, i: nat) returns (j: nat)
    requires Inv(s) && i < |s.calls| && Owning(s.calls[i].pc)
    ensures j < |s.calls| && Begun(s.calls[j].pc) && Enabled(s, j)
  {
    j := i;
    assert Local(s.w, s.calls[i].pc);
    if s.calls[i].pc.Parked? && !s.calls[i].pc.signalled {
      InFlightMeansFlying(s.w, s.calls);
      j :| 0 <= j < |s.calls| && Flying(s.calls[j].pc);
    }
  }

  /** If some call has begun and not returned, some such call can move: calls that have not begun are not needed. */
  lemma NotStuck(s: State, i: nat) returns (j: nat)
    requires Inv(s) && i < |s.calls| && Begun(s.calls[i].pc)
    ensures j < |s.calls| && Begun(s.calls[j].pc) && Enabled(s, j)
  {
    j := i;
    if Owning(s.calls[i].pc) {
      j := ParkedIsNotStuck(s, i);
    } else if !Enabled(s, i) {
      assert Local(s.w, s.calls[i].pc);
      var owner :| 0 <= owner < |s.calls| && Owning(s.calls[owner].pc);
      j := ParkedIsNotStuck(s, owner);
    }
  }

  /** A state reached by a run in which nothing can move is one in which every call has returned. */
  lemma StuckMeansReturned(setup: Setup, s: State, moves: seq<Move>)
    requires setup.conn.Some? && Init(setup, s) && IsRun(s, moves)
    requires forall i: nat :: !Enabled(Run(s, moves), i)
    ensures var t := Run(s, moves); forall i | 0 <= i < |t.calls| :: Returned(t.calls[i].pc)
  {
    InitHasInv(setup, s);
    RunKeepsInv(s, moves);
    var t := Run(s, moves);
    forall i | 0 <= i < |t.calls| ensures Returned(t.calls[i].pc) {
      assert !Enabled(t, i);
      if Begun(t.calls[i].pc) {
        var j := NotStuck(t, i);
      }
    }
  }

  // ----- Termination -----

  /** An upper bound on the steps a call has left. */
  function Remaining(c: Call): int {
    match c.pc
    case Start => 8
    case Claimed => 7
    case InfoTaken(_) => 6
    case ConnClosed(_, _) => 5
    case Parked(_, _, _) => 4
    case Settled(_, _) => 3
    case InCallback(_) => 2
    case CallbackOver(_) => 1
    case InIo => 3
    case IoResult(_, _) => 2
    case IoCounted(_, _) => 1
    case AwaitingDone => 2
    case SawDone => 1
    case DeadlineLive => 1
    case _ => 0
  }

  /** A step brings its own call nearer to its end: in particular a closer that was woken does not wait again. */
  lemma StepAdvancesItsCall(s: State, i: nat, env: Env)
    requires Inv(s) && Enabled(s, i)
    ensures |Step(s, i, env).calls| == |s.calls|
    ensures Remaining(Step(s, i, env).calls[i]) < Remaining(s.calls[i])
  {
    assert Local(s.w, s.calls[i].pc);
  }

  /** The measure falls at every step. */
  lemma StepLowersMeasure(s: State, i: nat, env: Env)
    requires Inv(s) && Enabled(s, i)
    ensures Total(Step(s, i, env).calls, Remaining) < Total(s.calls, Remaining)
  {
    StepAdvancesItsCall(s, i, env);
    StepMovesOneCall(s, i, env);
    var pc := Step(s, i, env).calls[i].pc;
    var calls := At(s.calls, i, pc);
    TotalOfUpdate(s.calls, i, calls[i], Remaining);
    TotalOfEqual(calls, Wake(calls), Remaining);
  }

  lemma {:induction false} RunSpendsMeasure(s: State, moves: seq<Move>)
    requires Inv(s) && IsRun(s, moves)
    ensures |moves| + Total(Run(s, moves).calls, Remaining) <= Total(s.calls, Remaining)
    decreases |moves|
  {
    if moves != [] {
      var t := Step(s, moves[0].call, moves[0].env);
      StepKeepsInv(s, moves[0].call, moves[0].env);
      StepLowersMeasure(s, moves[0].call, moves[0].env);
      RunSpendsMeasure(t, moves[1..]);
    }
  }

  /** No run of `n` calls has more than `8 * n` steps. */
  lemma RunsAreBounded(setup: Setup, s: State, moves: seq<Move>)
    requires setup.conn.Some? && Init(setup, s) && IsRun(s, moves)
    ensures |moves| <= 8 * |s.calls|
  {
    InitHasInv(setup, s);
    RunSpendsMeasure(s, moves);
    TotalIsBounded(s.calls, Remaining, 8);
    TotalIsPositive(Run(s, moves).calls, Remaining);
  }
}
