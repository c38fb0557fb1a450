/**
 What every interleaving keeps: which call owns the close, what the wrapper looks like at each stage of it, and that
 the in-flight counter counts the admitted calls that have not finished.
 */
module Invariant {
  import opened Wrappers
  import opened Lifecycle
  import opened Protocol

  /** Between a successful `beginIO` and the matching `finishIO`. */
  predicate Flying(pc: Pc) {
    pc.InIo? || pc.IoResult? || pc.IoCounted?
  }

  function InFlight(c: Call): int {
    if Flying(c.pc) then 1 else 0
  }

  /** Between the claim of the close and the release of those who wait for it. */
  predicate Owning(pc: Pc) {
    pc.Claimed? || pc.InfoTaken? || pc.ConnClosed? || pc.Parked? || pc.Settled? || pc.InCallback? || pc.CallbackOver?
  }

  /** The close is published: the connection is gone and its error is known. */
  predicate Published(w: Wrapper, err: Option<Error>) {
    w.closeDone == OpenChannel && w.conn == None && w.closeErr == err
  }

  /** What a call may rely on. */
  predicate Local(w: Wrapper, pc: Pc) {
    match pc
    case Claimed => w.closeDone == OpenChannel && w.conn.Some?
    case InfoTaken(_) => w.closeDone == OpenChannel && w.conn.Some?
    case ConnClosed(_, _) => w.closeDone == OpenChannel && w.conn.Some?
    case Parked(_, err, signalled) => Published(w, err) && (signalled <==> w.inFlight == 0)
    case Settled(report, err) => Published(w, err) && w.inFlight == 0 && report == Snapshot(w)
    case InCallback(err) => Published(w, err) && w.inFlight == 0
    case CallbackOver(err) => Published(w, err) && w.inFlight == 0
    case AwaitingDone => w.closeDone != NilChannel
    case SawDone => w.closeDone == ClosedChannel
    case CloseReturned(err) => w.closeDone == ClosedChannel && err == w.closeErr
    case _ => true
  }

  predicate Global(w: Wrapper) {
    && w.hasCond
    && (w.closeStarted <==> w.closeDone != NilChannel)
    && (w.closeDone == NilChannel ==> w.conn.Some?)
    && (w.conn.Some? ==> w.closeErr == None)
    && (w.closeDone == ClosedChannel ==> w.conn == None && w.inFlight == 0)
  }

  ghost predicate Structure(w: Wrapper, calls: seq<Call>) {
    && Global(w)
    && w.inFlight == Total(calls, InFlight)
    && (forall i | 0 <= i < |calls| :: Local(w, calls[i].pc))
    && (forall i, j | 0 <= i < |calls| && 0 <= j < |calls| :: Owning(calls[i].pc) && Owning(calls[j].pc) ==> i == j)
    && (w.closeDone == OpenChannel ==> exists i :: 0 <= i < |calls| && Owning(calls[i].pc))
  }

  ghost predicate Inv(s: State) {
    Structure(s.w, s.calls)
  }

  /** The counter is positive exactly while some call is in flight. */
  lemma InFlightMeansFlying(w: Wrapper, calls: seq<Call>)
    requires Structure(w, calls)
    ensures w.inFlight >= 0
    ensures w.inFlight > 0 <==> exists i :: 0 <= i < |calls| && Flying(calls[i].pc)
  {
    TotalIsPositive(calls, InFlight);
    if exists i :: 0 <= i < |calls| && Flying(calls[i].pc) {
      var i :| 0 <= i < |calls| && Flying(calls[i].pc);
      assert InFlight(calls[i]) > 0;
    }
    if w.inFlight > 0 {
      var i :| 0 <= i < |calls| && InFlight(calls[i]) > 0;
      assert Flying(calls[i].pc);
    }
  }

  /** What has to be shown of a step that moves one call. */
  lemma StructureAfter(w: Wrapper, calls: seq<Call>, i: nat, w': Wrapper, pc: Pc)
    requires Structure(w, calls) && i < |calls|
    requires Global(w') && Local(w', pc)
    requires w'.inFlight - w.inFlight == InFlight(calls[i].(pc := pc)) - InFlight(calls[i])
    requires forall j | 0 <= j < |calls| && j != i :: Local(w', calls[j].pc)
    requires Owning(pc) ==> Owning(calls[i].pc) || w.closeDone != OpenChannel
    requires w'.closeDone == OpenChannel ==> Owning(pc) || (w.closeDone == OpenChannel && !Owning(calls[i].pc))
    ensures Structure(w', At(calls, i, pc))
  {
    var calls' := At(calls, i, pc);
    TotalOfUpdate(calls, i, calls[i].(pc := pc), InFlight);
    forall k, j | 0 <= k < |calls'| && 0 <= j < |calls'| && Owning(calls'[k].pc) && Owning(calls'[j].pc)
      ensures k == j
    {
      assert k != i ==> Local(w, calls[k].pc);
      assert j != i ==> Local(w, calls[j].pc);
    }
    if w'.closeDone == OpenChannel {
      if Owning(pc) {
        assert Owning(calls'[i].pc);
      } else {
        var k :| 0 <= k < |calls| && Owning(calls[k].pc);
        assert Owning(calls'[k].pc);
      }
    }
  }

  /** A step that changes no shared field. */
  lemma StructureAfterLocalMove(w: Wrapper, calls: seq<Call>, i: nat, pc: Pc)
    requires Structure(w, calls) && i < |calls| && Local(w, pc)
    requires Flying(pc) == Flying(calls[i].pc) && Owning(pc) == Owning(calls[i].pc)
    ensures Structure(w, At(calls, i, pc))
  {
    StructureAfter(w, calls, i, w, pc);
  }

  lemma BeginKeepsInv(s: State, i: nat)
    requires Inv(s) && i < |s.calls| && s.calls[i].pc == Start
    ensures Inv(StepBegin(s, i))
  {
    InFlightMeansFlying(s.w, s.calls);
    if Refuses(s.w) {
      StructureAfterLocalMove(s.w, s.calls, i, IoRefused);
    } else {
      StructureAfter(s.w, s.calls, i, BeginIo(s.w), InIo);
    }
  }

  lemma CountKeepsInv(s: State, i: nat, env: Env)
    requires Inv(s) && i < |s.calls| && s.calls[i].pc.IoResult?
    ensures Inv(StepCount(s, i, env))
  {
    InFlightMeansFlying(s.w, s.calls);
    assert Flying(s.calls[i].pc);
    var t := StepCount(s, i, env);
    StructureAfter(s.w, s.calls, i, t.w, t.calls[i].pc);
  }

  /** Waking the closer when nothing is in flight any more. */
  lemma WakeKeepsStructure(w: Wrapper, calls: seq<Call>)
    requires w.inFlight == 0 && Global(w) && w.inFlight == Total(calls, InFlight)
    requires forall i | 0 <= i < |calls| :: Local(w, Woken(calls[i]).pc)
    requires forall i, j | 0 <= i < |calls| && 0 <= j < |calls| :: Owning(calls[i].pc) && Owning(calls[j].pc) ==> i == j
    requires w.closeDone == OpenChannel ==> exists i :: 0 <= i < |calls| && Owning(calls[i].pc)
    ensures Structure(w, Wake(calls))
  {
    var calls' := Wake(calls);
    TotalOfEqual(calls, calls', InFlight);
    if w.closeDone == OpenChannel {
      var i :| 0 <= i < |calls| && Owning(calls[i].pc);
      assert Owning(calls'[i].pc);
    }
  }

  /** The last call in flight finishes and wakes whoever is parked. */
  lemma LastFinishKeepsStructure(w: Wrapper, calls: seq<Call>, i: nat, pc: Pc)
    requires Structure(w, calls) && i < |calls| && calls[i].pc.IoCounted? && pc.IoReturned? && Broadcasts(w)
    ensures Structure(FinishIo(w), Wake(At(calls, i, pc)))
  {
    var w', calls' := FinishIo(w), At(calls, i, pc);
    TotalOfUpdate(calls, i, calls'[i], InFlight);
    forall j | 0 <= j < |calls'| ensures Local(w', Woken(calls'[j]).pc) {
      assert j != i ==> Local(w, calls[j].pc);
    }
    if w.closeDone == OpenChannel {
      var k :| 0 <= k < |calls| && Owning(calls[k].pc);
      assert Owning(calls'[k].pc);
    }
    WakeKeepsStructure(w', calls');
  }

  lemma FinishKeepsInv(s: State, i: nat)
    requires Inv(s) && i < |s.calls| && s.calls[i].pc.IoCounted?
    ensures Inv(StepFinish(s, i))
  {
    var pc := IoReturned(s.calls[i].pc.n, s.calls[i].pc.err);
    InFlightMeansFlying(s.w, s.calls);
    assert Flying(s.calls[i].pc);
    if Broadcasts(s.w) {
      LastFinishKeepsStructure(s.w, s.calls, i, pc);
    } else {
      StructureAfter(s.w, s.calls, i, FinishIo(s.w), pc);
    }
  }

  lemma CloseKeepsInv(s: State, i: nat, env: Env)
    requires Inv(s) && i < |s.calls| && s.calls[i].pc == Start
    ensures Inv(StepClose(s, i, env))
  {
    InFlightMeansFlying(s.w, s.calls);
    if s.w.closeDone != NilChannel {
      StructureAfterLocalMove(s.w, s.calls, i, AwaitingDone);
    } else {
      StructureAfter(s.w, s.calls, i, ClaimClose(s.w, env.now), Claimed);
    }
  }

  /** The owner of the close may rewrite the wrapper, as long as it stays in charge and the counter stays put. */
  lemma OwnerMoveKeepsStructure(w: Wrapper, calls: seq<Call>, i: nat, w': Wrapper, pc: Pc)
    requires Structure(w, calls) && i < |calls| && Owning(calls[i].pc) && Owning(pc)
    requires Global(w') && Local(w', pc) && w'.inFlight == w.inFlight
    ensures Structure(w', At(calls, i, pc))
  {
    assert Local(w, calls[i].pc);
    forall j | 0 <= j < |calls| && j != i ensures Local(w', calls[j].pc) {
      assert Local(w, calls[j].pc) && !Owning(calls[j].pc);
    }
    StructureAfter(w, calls, i, w', pc);
  }

  /** The draining section, entered with the close published and the closer the only owner. */
  lemma DrainKeepsInv(before: Wrapper, s: State, i: nat, outcome: Outcome, err: Option<Error>)
    requires i < |s.calls| && Owning(s.calls[i].pc) && Published(s.w, err) && Global(s.w)
    requires Structure(before, s.calls) && before.inFlight == s.w.inFlight
    ensures Inv(StepDrain(s, i, outcome, err))
  {
    InFlightMeansFlying(before, s.calls);
    var t := StepDrain(s, i, outcome, err);
    OwnerMoveKeepsStructure(before, s.calls, i, t.w, t.calls[i].pc);
  }

  lemma ReleaseKeepsInv(s: State, i: nat)
    requires Inv(s) && i < |s.calls| && s.calls[i].pc.CallbackOver?
    ensures Inv(StepRelease(s, i))
  {
    var t := StepRelease(s, i);
    forall j | 0 <= j < |s.calls| && j != i ensures Local(t.w, s.calls[j].pc) {
      assert Local(s.w, s.calls[j].pc) && !Owning(s.calls[j].pc);
    }
    StructureAfter(s.w, s.calls, i, t.w, t.calls[i].pc);
  }

  lemma StepKeepsInv(s: State, i: nat, env: Env)
    requires Inv(s) && Enabled(s, i)
    ensures Inv(Step(s, i, env))
  {
    var pc := s.calls[i].pc;
    assert Local(s.w, pc);
    match pc
    case Start =>
      match s.calls[i].kind {
        case Read => BeginKeepsInv(s, i);
        case Write => BeginKeepsInv(s, i);
        case Close => CloseKeepsInv(s, i, env);
        case Deadline => StructureAfterLocalMove(s.w, s.calls, i, StepDeadline(s, i).calls[i].pc);
      }
    case InIo => StructureAfterLocalMove(s.w, s.calls, i, IoResult(env.n, env.err));
    case IoResult(_, _) => CountKeepsInv(s, i, env);
    case IoCounted(_, _) => FinishKeepsInv(s, i);
    case Claimed => StructureAfterLocalMove(s.w, s.calls, i, InfoTaken(Collected(s.w, env.answer)));
    case InfoTaken(outcome) => StructureAfterLocalMove(s.w, s.calls, i, ConnClosed(outcome, env.err));
    case ConnClosed(outcome, err) =>
      DrainKeepsInv(s.w, s.(w := PublishClose(s.w, err), trace := s.trace + [ClosePublished(err)]), i, outcome, err);
    case Parked(outcome, err, _) => DrainKeepsInv(s.w, s, i, outcome, err);
    case Settled(_, err) =>
      StructureAfterLocalMove(s.w, s.calls, i, if s.w.hasCallback then InCallback(err) else CallbackOver(err));
    case InCallback(err) => StructureAfterLocalMove(s.w, s.calls, i, CallbackOver(err));
    case CallbackOver(_) => ReleaseKeepsInv(s, i);
    case AwaitingDone => StructureAfterLocalMove(s.w, s.calls, i, SawDone);
    case SawDone => StructureAfterLocalMove(s.w, s.calls, i, CloseReturned(s.w.closeErr));
    case DeadlineLive => StructureAfterLocalMove(s.w, s.calls, i, DeadlineReturned(env.err));
  }

  lemma InitHasInv(setup: Setup, s: State)
    requires Init(setup, s) && setup.conn.Some?
    ensures Inv(s)
  {
    TotalIsPositive(s.calls, InFlight);
  }

  /** Every state of every run of a wrapped connection satisfies the invariant. */
  lemma {:induction false} RunKeepsInv(s: State, moves: seq<Move>)
    requires Inv(s) && IsRun(s, moves)
    ensures Inv(Run(s, moves))
    decreases |moves|
  {
    if moves != [] {
      StepKeepsInv(s, moves[0].call, moves[0].env);
      RunKeepsInv(Step(s, moves[0].call, moves[0].env), moves[1..]);
    }
  }
}
