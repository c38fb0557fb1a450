/**
 The deadline calls in every run (wrap.go). They look at the wrapper under the mutex and act after releasing it, and
 nobody waits for them, so what they do depends on when they looked.
 */
module Deadlines {
  import opened Wrappers
  import opened Lifecycle
  import opened Protocol
  import opened Invariant
  import opened Ordering

  /** The call looked: it found the connection live, or was refused. */
  predicate IsLook(e: Event, i: nat) {
    (e.DeadlineAdmitted? && e.call == i) || (e.DeadlineRefused? && e.call == i)
  }

  predicate IsDeadlineEvent(e: Event) {
    e.DeadlineAdmitted? || e.DeadlineRefused? || e.DeadlineSet?
  }

  predicate HasLooked(trace: seq<Event>, i: nat) {
    exists e | e in trace :: IsLook(e, i)
  }

  predicate HasActed(trace: seq<Event>, i: nat) {
    exists e | e in trace :: e.DeadlineSet? && e.call == i
  }

  predicate WasRefused(trace: seq<Event>, i: nat) {
    exists e | e in trace :: e.DeadlineRefused? && e.call == i
  }

  /** The error of a refusal: the error of the close once one is published, and until then that it is closed. */
  ghost predicate RefusalIn(past: seq<Event>, refusal: Error) {
    if exists v :: ClosePublished(Some(v)) in past then ClosePublished(Some(refusal)) in past
    else refusal == ERR_CLOSED
  }

  /** Each call looks once, and is refused with the right error. */
  ghost predicate LooksAreRight(trace: seq<Event>) {
    forall k | 0 <= k < |trace| :: LookIsRight(trace[..k], trace[k])
  }

  ghost predicate LookIsRight(past: seq<Event>, e: Event) {
    && (e.DeadlineAdmitted? ==> !HasLooked(past, e.call))
    && (e.DeadlineRefused? ==> !HasLooked(past, e.call) && RefusalIn(past, e.refusal))
  }

  // ----- What the events say about the wrapper and the calls -----

  /** The close is published exactly when the connection is gone, with the error the wrapper holds. */
  predicate PublishMarks(trace: seq<Event>, w: Wrapper) {
    && (forall e | e in trace && e.ClosePublished? :: w.conn == None && e.err == w.closeErr)
    && (w.conn == None ==> ClosePublished(w.closeErr) in trace)
  }

  predicate DeadlineMarks(trace: seq<Event>, i: nat, pc: Pc) {
    match pc
    case DeadlineLive => DeadlineAdmitted(i) in trace && !WasRefused(trace, i) && !HasActed(trace, i)
    case DeadlineReturned(err) =>
      || (DeadlineAdmitted(i) in trace && DeadlineSet(i, err) in trace && !WasRefused(trace, i))
      || (err.Some? && DeadlineRefused(i, err.value) in trace && DeadlineAdmitted(i) !in trace && !HasActed(trace, i))
    case _ => !HasLooked(trace, i) && !HasActed(trace, i)
  }

  ghost predicate DeadlineInv(s: State) {
    && PublishMarks(s.trace, s.w)
    && LooksAreRight(s.trace)
    && forall i | 0 <= i < |s.calls| :: DeadlineMarks(s.trace, i, s.calls[i].pc)
  }

  lemma RefusalIsRight(trace: seq<Event>, w: Wrapper)
    requires PublishMarks(trace, w) && (w.conn.Some? ==> w.closeErr == None)
    ensures RefusalIn(trace, RefusalOf(w))
  {
    if exists v :: ClosePublished(Some(v)) in trace {
      var v :| ClosePublished(Some(v)) in trace;
      assert w.closeErr == Some(v);
    }
  }

  // ----- Steps -----

  lemma LooksAreRightAfter(trace: seq<Event>, e: Event)
    requires LooksAreRight(trace) && LookIsRight(trace, e)
    ensures LooksAreRight(trace + [e])
  {
    var t := trace + [e];
    forall k | 0 <= k < |t| ensures LookIsRight(t[..k], t[k]) {
      assert t[..k] == if k < |trace| then trace[..k] else trace;
    }
  }

  /** Deadline events come alone, from a deadline call that looks or acts, and name it. */
  lemma DeadlineEventsOf(s: State, i: nat, env: Env)
    requires Enabled(s, i)
    ensures |EventsOf(s, i, env)| <= 2
    ensures forall e | e in EventsOf(s, i, env) && IsDeadlineEvent(e) :: e.call == i && EventsOf(s, i, env) == [e]
    ensures forall e | e in EventsOf(s, i, env) && e.ClosePublished? ::
              s.calls[i].pc.ConnClosed? && e.err == s.calls[i].pc.closeErr
  {
  }

  lemma PublishMarksFollowStep(s: State, i: nat, env: Env)
    requires Inv(s) && Enabled(s, i) && PublishMarks(s.trace, s.w)
    ensures PublishMarks(s.trace + EventsOf(s, i, env), Step(s, i, env).w)
  {
    assert Local(s.w, s.calls[i].pc);
    if !s.calls[i].pc.ConnClosed? {
      DeadlineEventsOf(s, i, env);
      StepKeepsConn(s, i, env);
    }
  }

  lemma LooksFollowStep(s: State, i: nat, env: Env)
    requires Inv(s) && Enabled(s, i) && DeadlineInv(s)
    ensures LooksAreRight(s.trace + EventsOf(s, i, env))
  {
    var events := EventsOf(s, i, env);
    DeadlineEventsOf(s, i, env);
    RefusalIsRight(s.trace, s.w);
    assert DeadlineMarks(s.trace, i, s.calls[i].pc);
    if events == [] {
      assert s.trace + events == s.trace;
    } else {
      LooksAreRightAfter(s.trace, events[0]);
      if |events| == 1 {
        assert events == [events[0]];
      } else {
        LooksAreRightAfter(s.trace + [events[0]], events[1]);
        assert s.trace + events == s.trace + [events[0]] + [events[1]];
      }
    }
  }

  predicate IsDeadlineStep(c: Call) {
    c.pc.DeadlineLive? || (c.pc == Start && c.kind == Deadline)
  }

  lemma OtherStepsAreNoDeadlines(s: State, i: nat, env: Env)
    requires Enabled(s, i) && !IsDeadlineStep(s.calls[i])
    ensures var t := Step(s, i, env);
            |t.calls| == |s.calls| && !t.calls[i].pc.DeadlineLive? && !t.calls[i].pc.DeadlineReturned?
    ensures forall e | e in EventsOf(s, i, env) :: !IsDeadlineEvent(e)
  {
  }

  lemma OwnDeadlineMarksFollowStep(s: State, i: nat, env: Env)
    requires Enabled(s, i) && DeadlineMarks(s.trace, i, s.calls[i].pc)
    ensures var t := Step(s, i, env);
            |t.calls| == |s.calls| && DeadlineMarks(s.trace + EventsOf(s, i, env), i, t.calls[i].pc)
  {
    if !IsDeadlineStep(s.calls[i]) {
      OtherStepsAreNoDeadlines(s, i, env);
    }
  }

  lemma DeadlineMarksOfOthers(trace: seq<Event>, events: seq<Event>, i: nat, j: nat, c: Call)
    requires DeadlineMarks(trace, j, c.pc) && i != j
    requires forall e | e in events && IsDeadlineEvent(e) :: e.call == i
    ensures DeadlineMarks(trace + events, j, c.pc) && DeadlineMarks(trace + events, j, Woken(c).pc)
  {
  }

  lemma StepKeepsDeadlineInv(s: State, i: nat, env: Env)
    requires Inv(s) && DeadlineInv(s) && Enabled(s, i)
    ensures DeadlineInv(Step(s, i, env))
  {
    var t := Step(s, i, env);
    StepAddsEvents(s, i, env);
    StepMovesOneCall(s, i, env);
    DeadlineEventsOf(s, i, env);
    PublishMarksFollowStep(s, i, env);
    LooksFollowStep(s, i, env);
    OwnDeadlineMarksFollowStep(s, i, env);
    forall j | 0 <= j < |s.calls| && j != i ensures DeadlineMarks(t.trace, j, t.calls[j].pc) {
      DeadlineMarksOfOthers(s.trace, EventsOf(s, i, env), i, j, s.calls[j]);
    }
  }

  lemma {:induction false} RunKeepsDeadlineInv(s: State, moves: seq<Move>)
    requires Inv(s) && DeadlineInv(s) && IsRun(s, moves)
    ensures DeadlineInv(Run(s, moves))
    decreases |moves|
  {
    if moves != [] {
      StepKeepsInv(s, moves[0].call, moves[0].env);
      StepKeepsDeadlineInv(s, moves[0].call, moves[0].env);
      RunKeepsDeadlineInv(Step(s, moves[0].call, moves[0].env), moves[1..]);
    }
  }

  // ----- What a deadline call does and returns -----

  /** What came of call `i`, which looked at position `k` and returned `err`. */
  ghost predicate Outcome(trace: seq<Event>, i: nat, k: nat, err: Option<Error>) {
    && k < |trace| && IsLook(trace[k], i)
    && (HasActed(trace, i) <==> CloseClaimed !in trace[..k])
    && if CloseClaimed !in trace[..k] then DeadlineSet(i, err) in trace
       else err.Some? && RefusalIn(trace[..k], err.value)
  }

  /**
   In every run a deadline call that has returned looked exactly once. It acted on the connection if and only if it
   looked before the close was claimed, and then returned what the connection gave it; otherwise it returned the error
   of the close if one was published when it looked, and that the connection is closed if not.
   */
  lemma ActsIffItLookedInTime(setup: Setup, s: State, moves: seq<Move>, i: nat) returns (k: nat)
    requires setup.conn.Some? && Init(setup, s) && IsRun(s, moves)
    requires i < |Run(s, moves).calls| && Run(s, moves).calls[i].pc.DeadlineReturned?
    ensures var t := Run(s, moves);
            && Outcome(t.trace, i, k, t.calls[i].pc.err)
            && forall j | 0 <= j < |t.trace| && IsLook(t.trace[j], i) :: j == k
  {
    InitHasInv(setup, s);
    RunKeepsDeadlineInv(s, moves);
    EventsAreOrdered(setup, s, moves);
    var t := Run(s, moves);
    assert DeadlineMarks(t.trace, i, t.calls[i].pc);
    k := LookOf(setup, t.trace, i, t.calls[i].pc.err);
    forall j | 0 <= j < |t.trace| && IsLook(t.trace[j], i) ensures j == k {
      LooksOnce(t.trace, i, j, k);
    }
  }

  lemma LookOf(setup: Setup, trace: seq<Event>, i: nat, err: Option<Error>) returns (k: nat)
    requires DeadlineMarks(trace, i, DeadlineReturned(err)) && LooksAreRight(trace) && Ordered(setup, trace)
    ensures Outcome(trace, i, k, err)
  {
    if DeadlineAdmitted(i) in trace {
      k :| 0 <= k < |trace| && trace[k] == DeadlineAdmitted(i);
    } else {
      k :| 0 <= k < |trace| && trace[k] == DeadlineRefused(i, err.value);
    }
    assert Allowed(setup, trace[..k], trace[k]) && LookIsRight(trace[..k], trace[k]);
  }

  lemma LooksOnce(trace: seq<Event>, i: nat, j: nat, k: nat)
    requires LooksAreRight(trace) && j < |trace| && k < |trace| && IsLook(trace[j], i) && IsLook(trace[k], i)
    ensures j == k
  {
    assert LookIsRight(trace[..j], trace[j]) && LookIsRight(trace[..k], trace[k]);
  }

  /** A deadline call acts on the connection only if it looked before the close was claimed. */
  lemma DeadlinesLookBeforeClaim(setup: Setup, s: State, moves: seq<Move>, k: nat)
    requires setup.conn.Some? && Init(setup, s) && IsRun(s, moves)
    requires k < |Run(s, moves).trace| && Run(s, moves).trace[k].DeadlineSet?
    ensures var trace := Run(s, moves).trace;
            exists a :: 0 <= a < k && trace[a] == DeadlineAdmitted(trace[k].call) && CloseClaimed !in trace[..a]
  {
    EventsAreOrdered(setup, s, moves);
    var trace := Run(s, moves).trace;
    assert Allowed(setup, trace[..k], trace[k]);
    var a :| 0 <= a < k && trace[a] == DeadlineAdmitted(trace[k].call);
    assert Allowed(setup, trace[..a], trace[a]);
  }

  lemma {:induction false} RunOfAppend(s: State, moves: seq<Move>, m: Move)
    requires IsRun(s, moves) && Enabled(Run(s, moves), m.call)
    ensures IsRun(s, moves + [m]) && Run(s, moves + [m]) == Step(Run(s, moves), m.call, m.env)
    decreases |moves|
  {
    var longer := moves + [m];
    if moves == [] {
      assert longer[1..] == [];
    } else {
      RunOfAppend(Step(s, moves[0].call, moves[0].env), moves[1..], m);
      assert longer[1..] == moves[1..] + [m];
    }
  }

  /** One more move, from a state that a run reaches to the next. */
  lemma Extend(s: State, moves: seq<Move>, i: nat, env: Env) returns (longer: seq<Move>)
    requires IsRun(s, moves) && Enabled(Run(s, moves), i)
    ensures IsRun(s, longer) && Run(s, longer) == Step(Run(s, moves), i, env)
  {
    longer := moves + [Move(i, env)];
    RunOfAppend(s, moves, Move(i, env));
  }

  lemma DeadlineThenClaim(setup: Setup, env: Env) returns (s: State, moves: seq<Move>)
    requires setup.conn.Some?
    ensures Init(setup, s) && IsRun(s, moves)
    ensures Run(s, moves).calls == [Call(Deadline, DeadlineLive), Call(Close, Claimed)]
  {
    s := State(Wrapped(setup), [Call(Deadline, Start), Call(Close, Start)], [], [], [], OpeningTrace(setup));
    moves := Extend(s, [], 0, env);
    moves := Extend(s, moves, 1, env);
  }

  lemma DeadlineThenCollection(setup: Setup, env: Env) returns (s: State, moves: seq<Move>)
    requires setup.conn.Some?
    ensures Init(setup, s) && IsRun(s, moves)
    ensures var calls := Run(s, moves).calls;
            |calls| == 2 && calls[0].pc == DeadlineLive && calls[1].pc.InfoTaken?
  {
    s, moves := DeadlineThenClaim(setup, env);
    moves := Extend(s, moves, 1, env);
  }

  /** It may still act after the underlying Close has run, whatever is wrapped: deadline calls are not drained. */
  lemma DeadlineMayComeLate(setup: Setup, env: Env) returns (s: State, moves: seq<Move>)
    requires setup.conn.Some?
    ensures Init(setup, s) && IsRun(s, moves)
    ensures var trace := Run(s, moves).trace;
            |trace| >= 2 && trace[|trace| - 2..] == [UnderlyingClosed, DeadlineSet(0, env.err)]
  {
    s, moves := DeadlineThenCollection(setup, env);
    moves := Extend(s, moves, 1, env);
    moves := Extend(s, moves, 0, env);
  }
}
