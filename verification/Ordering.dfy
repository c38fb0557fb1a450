/** In what order things happen, in every run: a monitor over the events, and what it means. */
module Ordering {
  import opened Wrappers
  import opened Lifecycle
  import opened Protocol
  import opened Invariant
  import opened Reports

  predicate AllFinished(past: seq<Event>) {
    forall e | e in past && e.Admitted? :: Finished(e.call) in past
  }

  /** What must, and must not, have happened before an event. */
  predicate Allowed(setup: Setup, past: seq<Event>, e: Event) {
    match e
    case OpenReported => past == [] && setup.emitOpen && setup.hasCallback
    case Admitted(i) => CloseClaimed !in past && Admitted(i) !in past
    case Finished(i) => Admitted(i) in past && Finished(i) !in past
    case Refused(i) => CloseClaimed in past && Admitted(i) !in past
    case CloseClaimed => CloseClaimed !in past
    case InfoCollected(_) =>
      CloseClaimed in past && UnderlyingClosed !in past && forall x | x in past :: !x.InfoCollected?
    case UnderlyingClosed => CloseClaimed in past && UnderlyingClosed !in past
    case Waited => UnderlyingClosed in past && Waited !in past && !AllFinished(past)
    case Broadcast => CloseClaimed in past && Broadcast !in past && AllFinished(past)
    case ClosePublished(_) => UnderlyingClosed in past && Waited !in past
    case CallbackEntered =>
      setup.hasCallback && UnderlyingClosed in past && CallbackEntered !in past && AllFinished(past)
    case CallbackLeft => CallbackEntered in past && CallbackLeft !in past
    case CloseReturns(i) =>
      && UnderlyingClosed in past && AllFinished(past) && (setup.hasCallback ==> CallbackLeft in past)
      && CloseReturns(i) !in past
    case DeadlineAdmitted(_) => CloseClaimed !in past
    case DeadlineRefused(_, _) => CloseClaimed in past
    case DeadlineSet(i, _) => DeadlineAdmitted(i) in past
    case Panicked => false
  }

  ghost predicate Ordered(setup: Setup, trace: seq<Event>) {
    forall k | 0 <= k < |trace| :: Allowed(setup, trace[..k], trace[k])
  }

  lemma OrderedAfter(setup: Setup, trace: seq<Event>, e: Event)
    requires Ordered(setup, trace) && Allowed(setup, trace, e)
    ensures Ordered(setup, trace + [e])
  {
    var t := trace + [e];
    forall k | 0 <= k < |t| ensures Allowed(setup, t[..k], t[k]) {
      if k < |trace| {
        assert t[..k] == trace[..k];
      } else {
        assert t[..k] == trace;
      }
    }
  }

  lemma OrderedAfterAtMostOne(setup: Setup, trace: seq<Event>, events: seq<Event>)
    requires Ordered(setup, trace) && (events == [] || (|events| == 1 && Allowed(setup, trace, events[0])))
    ensures Ordered(setup, trace + events)
  {
    if events == [] {
      assert trace + events == trace;
    } else {
      assert events == [events[0]];
      OrderedAfter(setup, trace, events[0]);
    }
  }

  // ----- What the events say about where the calls stand -----

  /** Of one call: admitted while in flight or once finished, finished once returned. */
  predicate CallMarks(trace: seq<Event>, i: nat, pc: Pc) {
    && (Admitted(i) in trace <==> Flying(pc) || pc.IoReturned?)
    && (Finished(i) in trace <==> pc.IoReturned?)
    && (CloseReturns(i) in trace <==> pc.CloseReturned?)
    && (pc.DeadlineLive? ==> DeadlineAdmitted(i) in trace)
  }

  /** Of the owner of the close: what it has already done. */
  predicate OwnerMarks(hasCallback: bool, trace: seq<Event>, pc: Pc) {
    && (pc.Claimed? ==> forall x | x in trace :: !x.InfoCollected?)
    && (pc.Claimed? || pc.InfoTaken? ==> UnderlyingClosed !in trace)
    && (pc.Claimed? || pc.InfoTaken? || pc.ConnClosed? ==> Waited !in trace)
    && (pc.ConnClosed? || pc.Parked? || AfterSnapshot(pc) ==> UnderlyingClosed in trace)
    && (Owning(pc) && !pc.InCallback? && !pc.CallbackOver? ==> CallbackEntered !in trace)
    && (Owning(pc) && !pc.CallbackOver? ==> CallbackLeft !in trace)
    && (pc.InCallback? ==> CallbackEntered in trace)
    && (pc.CallbackOver? && hasCallback ==> CallbackLeft in trace)
  }

  /** Of the wrapper: a close was claimed, drained, released. */
  predicate WrapperMarks(trace: seq<Event>, w: Wrapper) {
    && (CloseClaimed in trace <==> w.closeDone != NilChannel)
    && (Broadcast in trace ==> w.closeStarted && w.inFlight == 0)
    && (w.closeDone == NilChannel ==>
          UnderlyingClosed !in trace && Waited !in trace && CallbackEntered !in trace && CallbackLeft !in trace
          && forall x | x in trace :: !x.InfoCollected?)
    && (w.closeDone == ClosedChannel ==> UnderlyingClosed in trace && (w.hasCallback ==> CallbackLeft in trace))
  }

  ghost predicate Marks(s: State) {
    && WrapperMarks(s.trace, s.w)
    && (forall i | 0 <= i < |s.calls| :: CallMarks(s.trace, i, s.calls[i].pc))
    && (forall i | 0 <= i < |s.calls| :: OwnerMarks(s.w.hasCallback, s.trace, s.calls[i].pc))
    && (forall e | e in s.trace && e.Admitted? :: e.call < |s.calls|)
  }

  /** Every admitted call has finished exactly when nothing is in flight. */
  lemma FinishedMeansDrained(s: State)
    requires Inv(s) && Marks(s)
    ensures AllFinished(s.trace) <==> s.w.inFlight == 0
  {
    InFlightMeansFlying(s.w, s.calls);
    if s.w.inFlight > 0 {
      var i :| 0 <= i < |s.calls| && Flying(s.calls[i].pc);
      assert CallMarks(s.trace, i, s.calls[i].pc);
      assert Admitted(i) in s.trace && Finished(i) !in s.trace;
    } else {
      forall e | e in s.trace && e.Admitted? ensures Finished(e.call) in s.trace {
        assert CallMarks(s.trace, e.call, s.calls[e.call].pc);
      }
    }
  }

  // ----- Steps -----

  /** The events of a step. */
  function EventsOf(s: State, i: nat, env: Env): seq<Event>
    requires Enabled(s, i)
  {
    match s.calls[i].pc
    case Start =>
      (match s.calls[i].kind
       case Read => if Refuses(s.w) then [Refused(i)] else [Admitted(i)]
       case Write => if Refuses(s.w) then [Refused(i)] else [Admitted(i)]
       case Close =>
         if s.w.closeDone != NilChannel then [] else if s.w.conn == None then [CloseReturns(i)] else [CloseClaimed]
       case Deadline => if Refuses(s.w) then [DeadlineRefused(i, RefusalOf(s.w))] else [DeadlineAdmitted(i)])
    case IoCounted(_, _) =>
      [Finished(i)] + (if Broadcasts(s.w) then [if s.w.hasCond then Broadcast else Panicked] else [])
    case Claimed => [InfoCollected(Collected(s.w, env.answer))]
    case InfoTaken(_) => [UnderlyingClosed]
    case ConnClosed(_, err) =>
      [ClosePublished(err)] + (if s.w.inFlight > 0 then [if s.w.hasCond then Waited else Panicked] else [])
    case Parked(_, _, _) => if s.w.inFlight > 0 then [if s.w.hasCond then Waited else Panicked] else []
    case Settled(_, _) => if s.w.hasCallback then [CallbackEntered] else []
    case InCallback(_) => [CallbackLeft]
    case CallbackOver(_) => if s.w.closeDone == OpenChannel then [CloseReturns(i)] else [Panicked, CloseReturns(i)]
    case SawDone => [CloseReturns(i)]
    case DeadlineLive => [DeadlineSet(i, env.err)]
    case _ => []
  }

  lemma StepAddsEvents(s: State, i: nat, env: Env)
    requires Enabled(s, i)
    ensures Step(s, i, env).trace == s.trace + EventsOf(s, i, env)
  {
  }

  /** The events that only the owner of the close produces after claiming it. */
  predicate IsOwners(e: Event) {
    e.InfoCollected? || e.UnderlyingClosed? || e.Waited? || e.CallbackEntered? || e.CallbackLeft?
  }

  /** Events name the call that moves, and the owner's events are the owner's. */
  lemma EventsNameTheirCall(s: State, i: nat, env: Env)
    requires Enabled(s, i)
    ensures forall e | e in EventsOf(s, i, env) ::
              && (e.Admitted? || e.Finished? || e.CloseReturns? ==> e.call == i)
              && (IsOwners(e) ==> Owning(s.calls[i].pc))
  {
  }

  lemma OwnCallMarksFollowStep(s: State, i: nat, env: Env)
    requires Inv(s) && Enabled(s, i) && CallMarks(s.trace, i, s.calls[i].pc)
    ensures var t := Step(s, i, env);
            |t.calls| == |s.calls| && CallMarks(s.trace + EventsOf(s, i, env), i, t.calls[i].pc)
  {
    assert Local(s.w, s.calls[i].pc);
  }

  lemma OwnersMarksFollowStep(s: State, i: nat, env: Env)
    requires Inv(s) && Marks(s) && Enabled(s, i) && Owning(s.calls[i].pc)
    ensures var t := Step(s, i, env);
            |t.calls| == |s.calls| && OwnerMarks(s.w.hasCallback, s.trace + EventsOf(s, i, env), t.calls[i].pc)
  {
    assert Local(s.w, s.calls[i].pc) && OwnerMarks(s.w.hasCallback, s.trace, s.calls[i].pc);
  }

  lemma OwnOwnerMarksFollowStep(s: State, i: nat, env: Env)
    requires Inv(s) && Marks(s) && Enabled(s, i)
    ensures var t := Step(s, i, env);
            |t.calls| == |s.calls| && OwnerMarks(s.w.hasCallback, s.trace + EventsOf(s, i, env), t.calls[i].pc)
  {
    if Owning(s.calls[i].pc) {
      OwnersMarksFollowStep(s, i, env);
    } else {
      OwnersHaveClaimed(s, i, env);
      EventsNameTheirCall(s, i, env);
      FreshOwnerMarks(s, EventsOf(s, i, env), Step(s, i, env).calls[i].pc);
    }
  }

  /** A call that claims the close finds it untouched. */
  lemma FreshOwnerMarks(s: State, events: seq<Event>, pc: Pc)
    requires Marks(s) && (forall e | e in events :: !IsOwners(e))
    requires !Owning(pc) || (pc == Claimed && s.w.closeDone == NilChannel)
    ensures OwnerMarks(s.w.hasCallback, s.trace + events, pc)
  {
  }

  lemma OwnersWrapperMarksFollowStep(s: State, i: nat, env: Env)
    requires Inv(s) && Marks(s) && Enabled(s, i) && Owning(s.calls[i].pc)
    ensures WrapperMarks(s.trace + EventsOf(s, i, env), Step(s, i, env).w)
  {
    assert Local(s.w, s.calls[i].pc) && OwnerMarks(s.w.hasCallback, s.trace, s.calls[i].pc);
  }

  lemma StartsWrapperMarksFollowStep(s: State, i: nat, env: Env)
    requires Inv(s) && Marks(s) && Enabled(s, i) && s.calls[i].pc == Start
    ensures WrapperMarks(s.trace + EventsOf(s, i, env), Step(s, i, env).w)
  {
  }

  lemma OthersWrapperMarksFollowStep(s: State, i: nat, env: Env)
    requires Inv(s) && Marks(s) && Enabled(s, i) && !Owning(s.calls[i].pc) && s.calls[i].pc != Start
    ensures WrapperMarks(s.trace + EventsOf(s, i, env), Step(s, i, env).w)
  {
    InFlightMeansFlying(s.w, s.calls);
    if Flying(s.calls[i].pc) { assert s.w.inFlight > 0; }
  }

  lemma StepKeepsMarks(s: State, i: nat, env: Env)
    requires Inv(s) && Marks(s) && Enabled(s, i)
    ensures Marks(Step(s, i, env))
  {
    var t, events := Step(s, i, env), EventsOf(s, i, env);
    StepAddsEvents(s, i, env);
    StepMovesOneCall(s, i, env);
    StepKeepsConstants(s, i, env);
    EventsNameTheirCall(s, i, env);
    OwnCallMarksFollowStep(s, i, env);
    OwnOwnerMarksFollowStep(s, i, env);
    if Owning(s.calls[i].pc) {
      OwnersWrapperMarksFollowStep(s, i, env);
    } else if s.calls[i].pc == Start {
      StartsWrapperMarksFollowStep(s, i, env);
    } else {
      OthersWrapperMarksFollowStep(s, i, env);
    }
    forall j | 0 <= j < |s.calls| && j != i
      ensures CallMarks(t.trace, j, t.calls[j].pc) && OwnerMarks(t.w.hasCallback, t.trace, t.calls[j].pc)
    {
      MarksOfOthers(s, i, events, j);
    }
  }

  /** The other calls are where their marks say, whatever this call's events are. */
  lemma MarksOfOthers(s: State, i: nat, events: seq<Event>, j: nat)
    requires Inv(s) && Marks(s) && i < |s.calls| && j < |s.calls| && i != j
    requires forall e | e in events ::
               && (e.Admitted? || e.Finished? || e.CloseReturns? ==> e.call == i)
               && (IsOwners(e) ==> Owning(s.calls[i].pc))
    ensures CallMarks(s.trace + events, j, Woken(s.calls[j]).pc) && CallMarks(s.trace + events, j, s.calls[j].pc)
    ensures OwnerMarks(s.w.hasCallback, s.trace + events, s.calls[j].pc)
    ensures OwnerMarks(s.w.hasCallback, s.trace + events, Woken(s.calls[j]).pc)
  {
    assert CallMarks(s.trace, j, s.calls[j].pc) && OwnerMarks(s.w.hasCallback, s.trace, s.calls[j].pc);
  }

  // ----- The order of the events -----

  lemma StepKeepsOrder(setup: Setup, s: State, i: nat, env: Env)
    requires Inv(s) && Marks(s) && Ordered(setup, s.trace) && Enabled(s, i) && setup.hasCallback == s.w.hasCallback
    ensures Ordered(setup, Step(s, i, env).trace)
  {
    StepAddsEvents(s, i, env);
    var events := EventsOf(s, i, env);
    if s.calls[i].pc.IoCounted? {
      FinishKeepsOrder(setup, s, i, env);
    } else if s.calls[i].pc.ConnClosed? {
      PublishKeepsOrder(setup, s, i, env);
    } else {
      if events != [] { SingleEventIsAllowed(setup, s, i, env); }
      OrderedAfterAtMostOne(setup, s.trace, events);
    }
  }

  /** Every step but the last of an I/O call and the publication of a close makes at most one event, which is due. */
  lemma SingleEventIsAllowed(setup: Setup, s: State, i: nat, env: Env)
    requires Inv(s) && Marks(s) && Enabled(s, i) && setup.hasCallback == s.w.hasCallback
    requires !s.calls[i].pc.IoCounted? && !s.calls[i].pc.ConnClosed? && EventsOf(s, i, env) != []
    ensures |EventsOf(s, i, env)| == 1 && Allowed(setup, s.trace, EventsOf(s, i, env)[0])
  {
    FinishedMeansDrained(s);
    assert Local(s.w, s.calls[i].pc) && CallMarks(s.trace, i, s.calls[i].pc);
    assert OwnerMarks(s.w.hasCallback, s.trace, s.calls[i].pc);
  }

  /** The close is published, and the closer waits if something is in flight. */
  lemma PublishKeepsOrder(setup: Setup, s: State, i: nat, env: Env)
    requires Inv(s) && Marks(s) && Ordered(setup, s.trace) && Enabled(s, i) && s.calls[i].pc.ConnClosed?
    ensures Ordered(setup, Step(s, i, env).trace)
  {
    var published := ClosePublished(s.calls[i].pc.closeErr);
    StepAddsEvents(s, i, env);
    FinishedMeansDrained(s);
    assert OwnerMarks(s.w.hasCallback, s.trace, s.calls[i].pc);
    OrderedAfter(setup, s.trace, published);
    if s.w.inFlight > 0 {
      UnfinishedStays(s.trace, published);
      OrderedAfter(setup, s.trace + [published], Waited);
    }
  }

  lemma UnfinishedStays(past: seq<Event>, e: Event)
    requires !AllFinished(past) && !e.Finished?
    ensures !AllFinished(past + [e])
  {
    var x :| x in past && x.Admitted? && Finished(x.call) !in past;
    assert x in past + [e];
  }

  /** The end of an I/O call: it was admitted and had not finished; the last one broadcasts, once. */
  lemma FinishKeepsOrder(setup: Setup, s: State, i: nat, env: Env)
    requires Inv(s) && Marks(s) && Ordered(setup, s.trace) && Enabled(s, i) && s.calls[i].pc.IoCounted?
    ensures Ordered(setup, Step(s, i, env).trace)
  {
    assert CallMarks(s.trace, i, s.calls[i].pc) && Flying(s.calls[i].pc);
    InFlightMeansFlying(s.w, s.calls);
    StepAddsEvents(s, i, env);
    OrderedAfter(setup, s.trace, Finished(i));
    if Broadcasts(s.w) {
      StepKeepsInv(s, i, env);
      StepKeepsMarks(s, i, env);
      BroadcastKeepsOrder(setup, s.trace + [Finished(i)], Step(s, i, env));
    }
  }

  lemma BroadcastKeepsOrder(setup: Setup, past: seq<Event>, t: State)
    requires Inv(t) && Marks(t) && t.w.inFlight == 0 && t.trace == past + [Broadcast]
    requires Ordered(setup, past) && CloseClaimed in past && Broadcast !in past
    ensures Ordered(setup, t.trace)
  {
    FinishedMeansDrained(t);
    assert AllFinished(past) by {
      forall e | e in past && e.Admitted? ensures Finished(e.call) in past {
        assert e in t.trace;
      }
    }
    OrderedAfter(setup, past, Broadcast);
  }

  lemma InitHasMarks(setup: Setup, s: State)
    requires Init(setup, s) && setup.conn.Some?
    ensures Marks(s) && Ordered(setup, s.trace)
  {
  }

  lemma {:induction false} RunKeepsOrder(setup: Setup, s: State, moves: seq<Move>)
    requires Good(Wrapped(setup), s) && Marks(s) && Ordered(setup, s.trace) && IsRun(s, moves)
    ensures Marks(Run(s, moves)) && Ordered(setup, Run(s, moves).trace)
    decreases |moves|
  {
    if moves != [] {
      var i, env := moves[0].call, moves[0].env;
      StepKeepsInv(s, i, env);
      StepKeepsHistory(Wrapped(setup), s, i, env);
      StepKeepsStages(s, i, env);
      StepKeepsMarks(s, i, env);
      StepKeepsOrder(setup, s, i, env);
      RunKeepsOrder(setup, Step(s, i, env), moves[1..]);
    }
  }

  /** In every run of a wrapped connection every event comes when it may. */
  lemma EventsAreOrdered(setup: Setup, s: State, moves: seq<Move>)
    requires setup.conn.Some? && Init(setup, s) && IsRun(s, moves)
    ensures Ordered(setup, Run(s, moves).trace)
  {
    InitIsGood(setup, s);
    InitHasMarks(setup, s);
    RunKeepsOrder(setup, s, moves);
  }

  // ----- What the order means -----

  predicate AtMostOnce(trace: seq<Event>, e: Event) {
    forall j, k | 0 <= j < k < |trace| :: !(trace[j] == e && trace[k] == e)
  }

  lemma OnceIsEnough(setup: Setup, trace: seq<Event>, e: Event)
    requires Ordered(setup, trace)
    requires e in {CloseClaimed, UnderlyingClosed, Waited, Broadcast, CallbackEntered, CallbackLeft}
    ensures AtMostOnce(trace, e)
  {
    forall j, k | 0 <= j < k < |trace| ensures !(trace[j] == e && trace[k] == e) {
      assert trace[..k][j] == trace[j] && Allowed(setup, trace[..k], trace[k]);
    }
  }

  /** Nothing is admitted once the close is claimed, and so none when the underlying Close or the callback runs. */
  lemma NothingAdmittedAfterClaim(setup: Setup, trace: seq<Event>, k: nat, a: nat)
    requires Ordered(setup, trace) && k < |trace| && a < |trace| && trace[a].Admitted?
    requires trace[k].CallbackEntered? || trace[k].UnderlyingClosed? || trace[k].CloseClaimed?
    ensures a < k
  {
    assert Allowed(setup, trace[..k], trace[k]) && Allowed(setup, trace[..a], trace[a]);
    if trace[k].CallbackEntered? {
      var u :| 0 <= u < k && trace[u] == UnderlyingClosed;
      NothingAdmittedAfterClaim(setup, trace, u, a);
    } else if trace[k].UnderlyingClosed? {
      var c :| 0 <= c < k && trace[c] == CloseClaimed;
      NothingAdmittedAfterClaim(setup, trace, c, a);
    } else {
      assert forall x | 0 <= x < a :: trace[..a][x] == trace[x] != CloseClaimed;
    }
  }

  /**
   The callback at close is entered after the underlying Close has returned and after every call that is admitted at
   any time in the run has finished.
   */
  lemma CallbackComesLast(setup: Setup, s: State, moves: seq<Move>, k: nat)
    requires setup.conn.Some? && Init(setup, s) && IsRun(s, moves)
    requires k < |Run(s, moves).trace| && Run(s, moves).trace[k] == CallbackEntered
    ensures var trace := Run(s, moves).trace;
            && UnderlyingClosed in trace[..k]
            && forall a | 0 <= a < |trace| && trace[a].Admitted? :: a < k && Finished(trace[a].call) in trace[..k]
  {
    EventsAreOrdered(setup, s, moves);
    var trace := Run(s, moves).trace;
    assert Allowed(setup, trace[..k], trace[k]);
    forall a | 0 <= a < |trace| && trace[a].Admitted? ensures a < k && Finished(trace[a].call) in trace[..k] {
      NothingAdmittedAfterClaim(setup, trace, k, a);
      assert trace[a] in trace[..k];
    }
  }

  /** No Close returns before the underlying Close, all admitted I/O and, when there is one, the callback are over. */
  lemma CloseReturnsLast(setup: Setup, s: State, moves: seq<Move>, k: nat)
    requires setup.conn.Some? && Init(setup, s) && IsRun(s, moves)
    requires k < |Run(s, moves).trace| && Run(s, moves).trace[k].CloseReturns?
    ensures var past := Run(s, moves).trace[..k];
            UnderlyingClosed in past && AllFinished(past) && (setup.hasCallback ==> CallbackLeft in past)
  {
    EventsAreOrdered(setup, s, moves);
    assert Allowed(setup, Run(s, moves).trace[..k], Run(s, moves).trace[k]);
  }

  /** The close is claimed, performed, waited for, signalled and reported at most once each, and nothing panics. */
  lemma EachAtMostOnce(setup: Setup, s: State, moves: seq<Move>)
    requires setup.conn.Some? && Init(setup, s) && IsRun(s, moves)
    ensures var trace := Run(s, moves).trace;
            && (forall e | e in {CloseClaimed, UnderlyingClosed, Waited, Broadcast, CallbackEntered, CallbackLeft} ::
                  AtMostOnce(trace, e))
            && Panicked !in trace
  {
    EventsAreOrdered(setup, s, moves);
    var trace := Run(s, moves).trace;
    forall e | e in {CloseClaimed, UnderlyingClosed, Waited, Broadcast, CallbackEntered, CallbackLeft}
      ensures AtMostOnce(trace, e)
    {
      OnceIsEnough(setup, trace, e);
    }
    forall k | 0 <= k < |trace| ensures trace[k] != Panicked {
      assert Allowed(setup, trace[..k], trace[k]);
    }
  }

  // ----- What the callback sees -----

  /** The states the callback is called with, in order. */
  function Callbacks(trace: seq<Event>): seq<Lifecycle.Stage> {
    if trace == [] then []
    else Callbacks(trace[..|trace| - 1]) + Reported(trace[|trace| - 1])
  }

  function Reported(e: Event): seq<Lifecycle.Stage> {
    if e == OpenReported then [Opened] else if e == CallbackEntered then [Closed] else []
  }

  /** What an ordered trace shows the callback: open if it starts with it, close if it holds it. */
  function Shown(trace: seq<Event>): seq<Lifecycle.Stage> {
    (if trace != [] && trace[0] == OpenReported then [Opened] else [])
    + (if CallbackEntered in trace then [Closed] else [])
  }

  lemma ShownAfter(setup: Setup, before: seq<Event>, e: Event)
    requires Allowed(setup, before, e)
    ensures Shown(before + [e]) == Shown(before) + Reported(e)
  {
    assert CallbackEntered in before + [e] <==> CallbackEntered in before || e == CallbackEntered;
    if before == [] { assert CallbackEntered !in before; }
  }

  lemma CallbacksAfter(setup: Setup, before: seq<Event>, e: Event)
    requires Allowed(setup, before, e) && Callbacks(before) == Shown(before)
    ensures Callbacks(before + [e]) == Shown(before + [e])
  {
    ShownAfter(setup, before, e);
    assert (before + [e])[..|before|] == before;
  }

  lemma {:induction false} CallbacksOfOrdered(setup: Setup, trace: seq<Event>, n: nat)
    requires Ordered(setup, trace) && n <= |trace|
    ensures Callbacks(trace[..n]) == Shown(trace[..n])
  {
    if n > 0 {
      CallbacksOfOrdered(setup, trace, n - 1);
      CallbacksAfter(setup, trace[..n - 1], trace[n - 1]);
      assert trace[..n] == trace[..n - 1] + [trace[n - 1]];
    }
  }

  /** The callback sees a prefix of open-then-close when the open report was asked for, and of close alone otherwise. */
  lemma CallbackTrace(setup: Setup, s: State, moves: seq<Move>)
    requires setup.conn.Some? && Init(setup, s) && IsRun(s, moves)
    ensures var seen := Callbacks(Run(s, moves).trace);
            if !setup.hasCallback then seen == []
            else if setup.emitOpen then seen == [Opened] || seen == [Opened, Closed]
            else seen == [] || seen == [Closed]
  {
    var trace := Run(s, moves).trace;
    EventsAreOrdered(setup, s, moves);
    CallbacksOfOrdered(setup, trace, |trace|);
    assert trace[..|trace|] == trace;
    RunExtendsTrace(s, moves);
    if trace != [] { assert Allowed(setup, trace[..0], trace[0]); }
    if CallbackEntered in trace {
      var k :| 0 <= k < |trace| && trace[k] == CallbackEntered;
      assert Allowed(setup, trace[..k], trace[k]);
    }
  }

  lemma {:induction false} RunExtendsTrace(s: State, moves: seq<Move>)
    requires IsRun(s, moves)
    ensures s.trace <= Run(s, moves).trace
    decreases |moves|
  {
    if moves != [] {
      StepKeepsConstants(s, moves[0].call, moves[0].env);
      RunExtendsTrace(Step(s, moves[0].call, moves[0].env), moves[1..]);
    }
  }
}
