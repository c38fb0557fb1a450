/** The final report is complete, and nothing it says changes afterwards. */
module Reports {
  import opened Wrappers
  import opened Lifecycle
  import opened Protocol
  import opened Invariant
  import opened Progress

  // ----- The copy is taken once and the wrapper does not change after it -----

  predicate AfterSnapshot(pc: Pc) {
    pc.Settled? || pc.InCallback? || pc.CallbackOver?
  }

  /** The copy has been taken. */
  ghost predicate Sealed(s: State) {
    s.w.closeDone == ClosedChannel || exists i :: 0 <= i < |s.calls| && AfterSnapshot(s.calls[i].pc)
  }

  lemma SealedMeansDrained(s: State)
    requires Inv(s) && Sealed(s)
    ensures s.w.closeStarted && s.w.conn == None && s.w.inFlight == 0
    ensures forall i | 0 <= i < |s.calls| :: !Flying(s.calls[i].pc)
    ensures forall i | 0 <= i < |s.calls| && Owning(s.calls[i].pc) :: AfterSnapshot(s.calls[i].pc)
  {
    if s.w.closeDone != ClosedChannel {
      var k :| 0 <= k < |s.calls| && AfterSnapshot(s.calls[k].pc);
      assert Local(s.w, s.calls[k].pc) && Owning(s.calls[k].pc);
    }
    InFlightMeansFlying(s.w, s.calls);
    forall i | 0 <= i < |s.calls| && Owning(s.calls[i].pc) ensures AfterSnapshot(s.calls[i].pc) {
      assert Local(s.w, s.calls[i].pc);
    }
  }

  /** After the copy, no step changes a field that the copy holds or counts a result. */
  lemma SealedStaysSealed(s: State, i: nat, env: Env)
    requires Inv(s) && Sealed(s) && Enabled(s, i)
    ensures var t := Step(s, i, env);
            Sealed(t) && Snapshot(t.w) == Snapshot(s.w) && t.log == s.log
  {
    SealedMeansDrained(s);
    var t := Step(s, i, env);
    StepMovesOneCall(s, i, env);
    assert Local(s.w, s.calls[i].pc);
    if t.w.closeDone != ClosedChannel {
      var k :| 0 <= k < |s.calls| && AfterSnapshot(s.calls[k].pc);
      assert AfterSnapshot(t.calls[k].pc);
    }
  }

  // ----- What the histories say -----

  /** What a call of this kind returns, or will return, from its counting section on. */
  function CountedAs(c: Call, kind: Kind): int {
    if c.kind == kind && (c.pc.IoCounted? || c.pc.IoReturned?) then c.pc.n else 0
  }

  function BytesRead(c: Call): int { CountedAs(c, Read) }

  function BytesWritten(c: Call): int { CountedAs(c, Write) }

  /** The outcome of the info collection at close, applied over the one at open. */
  predicate InfoApplied(base: Wrapper, w: Wrapper, o: Outcome) {
    && w.closedInfo == o.info
    && w.infoErr == if o.info.Some? || o.err.Some? then o.err else base.infoErr
  }

  /** What an owner carries: the outcome it collected. */
  predicate Carries(pc: Pc, trace: seq<Event>) {
    (pc.InfoTaken? || pc.ConnClosed? || pc.Parked?) ==> InfoCollected(pc.outcome) in trace
  }

  /** How far the owner of the close has come: the underlying Close ran, the report was handed over. */
  predicate AtStage(s: State, pc: Pc) {
    match pc
    case Claimed => s.closes == [] && s.reports == []
    case InfoTaken(_) => s.closes == [] && s.reports == []
    case ConnClosed(_, err) => s.closes == [err] && s.reports == []
    case Parked(_, err, _) => s.closes == [err] && s.reports == []
    case Settled(_, err) => s.closes == [err] && s.reports == []
    case InCallback(err) => s.closes == [err] && |s.reports| == 1 && s.w.hasCallback
    case CallbackOver(err) => s.closes == [err] && |s.reports| == if s.w.hasCallback then 1 else 0
    case _ => true
  }

  /** A call only ever does what its kind says. */
  predicate OfItsKind(c: Call) {
    && (Flying(c.pc) || c.pc.IoReturned? || c.pc.IoRefused? ==> c.kind == Read || c.kind == Write)
    && (Owning(c.pc) || c.pc.AwaitingDone? || c.pc.SawDone? || c.pc.CloseReturned? ==> c.kind == Close)
    && (c.pc.DeadlineLive? || c.pc.DeadlineReturned? ==> c.kind == Deadline)
  }

  /** What the channel says of the histories of the close. */
  ghost predicate ChannelStage(s: State) {
    && (s.w.closeDone == ClosedChannel ==> exists i :: 0 <= i < |s.calls| && s.calls[i].pc.CloseReturned?)
    && (s.w.closeDone == NilChannel ==> s.closes == [] && s.reports == [])
    && (s.w.closeDone == ClosedChannel ==>
          s.closes == [s.w.closeErr] && |s.reports| == if s.w.hasCallback then 1 else 0)
  }

  ghost predicate Stages(s: State) {
    && (forall i | 0 <= i < |s.calls| :: OfItsKind(s.calls[i]) && AtStage(s, s.calls[i].pc))
    && ChannelStage(s)
    && (forall r | r in s.reports :: Sealed(s) && r == Snapshot(s.w))
  }

  ghost predicate History(base: Wrapper, s: State) {
    && s.w.rx == Summary(s.log, Rx) && s.w.tx == Summary(s.log, Tx)
    && TotalBytes(s.log, Rx) == Total(s.calls, BytesRead) && TotalBytes(s.log, Tx) == Total(s.calls, BytesWritten)
    && s.w.openedAt == base.openedAt && s.w.hasCallback == base.hasCallback && s.w.openedInfo == base.openedInfo
    && (forall i | 0 <= i < |s.calls| :: Carries(s.calls[i].pc, s.trace))
    && (if Sealed(s) then exists o :: InfoCollected(o) in s.trace && InfoApplied(base, s.w, o)
        else s.w.closedInfo == None && s.w.infoErr == base.infoErr)
  }

  lemma InitHasHistory(setup: Setup, s: State)
    requires Init(setup, s) && setup.conn.Some?
    ensures History(Wrapped(setup), s)
  {
    TotalIsZero(s.calls, BytesRead);
    TotalIsZero(s.calls, BytesWritten);
  }

  lemma {:induction false} TotalIsZero(calls: seq<Call>, f: Call -> int)
    requires forall i | 0 <= i < |calls| :: f(calls[i]) == 0
    ensures Total(calls, f) == 0
  {
    if calls != [] { TotalIsZero(calls[..|calls| - 1], f); }
  }

  lemma WakingCountsNothing(c: Call, kind: Kind)
    ensures CountedAs(Woken(c), kind) == CountedAs(c, kind)
  {
  }

  /** Replacing one call, and waking the parked, changes a sum of counted bytes by that call alone. */
  lemma CountedAfterMove(calls: seq<Call>, i: nat, pc: Pc, f: Call -> int, kind: Kind)
    requires i < |calls| && forall c :: f(c) == CountedAs(c, kind)
    ensures var calls' := At(calls, i, pc);
            Total(Wake(calls'), f) == Total(calls', f) == Total(calls, f) - f(calls[i]) + f(calls'[i])
  {
    var calls' := At(calls, i, pc);
    var woken := Wake(calls');
    TotalOfUpdate(calls, i, calls'[i], f);
    forall j | 0 <= j < |calls'| ensures f(calls'[j]) == f(woken[j]) {
      WakingCountsNothing(calls'[j], kind);
    }
    TotalOfEqual(calls', woken, f);
  }

  /** The log and the sum of the counted bytes move together. */
  lemma SumsFollowStep(s: State, i: nat, env: Env, f: Call -> int, kind: Kind, dir: Direction)
    requires Enabled(s, i) && OfItsKind(s.calls[i]) && (forall c :: f(c) == CountedAs(c, kind))
    requires (kind == Read && dir == Rx) || (kind == Write && dir == Tx)
    requires TotalBytes(s.log, dir) == Total(s.calls, f)
    ensures var t := Step(s, i, env); TotalBytes(t.log, dir) == Total(t.calls, f)
  {
    StepMovesOneCall(s, i, env);
    StepCounts(s, i, env);
    CountedAfterMove(s.calls, i, Step(s, i, env).calls[i].pc, f, kind);
    if s.calls[i].pc.IoResult? { TotalBytesOfAppend(s.log, RecordOf(s, i, env), dir); }
  }

  lemma SummariesFollowStep(s: State, i: nat, env: Env)
    requires Enabled(s, i) && s.w.rx == Summary(s.log, Rx) && s.w.tx == Summary(s.log, Tx)
    ensures var t := Step(s, i, env); t.w.rx == Summary(t.log, Rx) && t.w.tx == Summary(t.log, Tx)
  {
    StepCounts(s, i, env);
    if s.calls[i].pc.IoResult? { SummariesOfCount(s.w, s.log, RecordOf(s, i, env)); }
  }

  lemma CarryingFollowsStep(s: State, i: nat, env: Env)
    requires Enabled(s, i) && forall j | 0 <= j < |s.calls| :: Carries(s.calls[j].pc, s.trace)
    ensures var t := Step(s, i, env); forall j | 0 <= j < |t.calls| :: Carries(t.calls[j].pc, t.trace)
  {
    var t := Step(s, i, env);
    StepMovesOneCall(s, i, env);
    StepKeepsConstants(s, i, env);
    forall j | 0 <= j < |t.calls| ensures Carries(t.calls[j].pc, t.trace) {
      assert Carries(s.calls[j].pc, s.trace);
    }
  }

  predicate Draining(pc: Pc) {
    pc.ConnClosed? || pc.Parked?
  }

  /** The closer's last section takes the copy, with the close-time info applied, or waits. */
  lemma DrainOutcome(base: Wrapper, s: State, i: nat, outcome: Outcome, err: Option<Error>)
    requires i < |s.calls| && s.w.closedInfo == None && s.w.infoErr == base.infoErr
    ensures var t := StepDrain(s, i, outcome, err);
            && |t.calls| == |s.calls|
            && if AfterSnapshot(t.calls[i].pc) then InfoApplied(base, t.w, outcome)
               else t.w.closedInfo == None && t.w.infoErr == base.infoErr
  {
  }

  lemma DrainAppliesInfo(base: Wrapper, s: State, i: nat, env: Env)
    requires Enabled(s, i) && Draining(s.calls[i].pc)
    requires s.w.closedInfo == None && s.w.infoErr == base.infoErr
    ensures var t := Step(s, i, env);
            && |t.calls| == |s.calls|
            && if AfterSnapshot(t.calls[i].pc) then InfoApplied(base, t.w, s.calls[i].pc.outcome)
               else t.w.closedInfo == None && t.w.infoErr == base.infoErr
  {
    match s.calls[i].pc
    case ConnClosed(outcome, err) =>
      DrainOutcome(base, s.(w := PublishClose(s.w, err), trace := s.trace + [ClosePublished(err)]), i, outcome, err);
    case Parked(outcome, err, _) => DrainOutcome(base, s, i, outcome, err);
  }

  /** No other step touches the close-time info. */
  lemma OthersLeaveInfo(s: State, i: nat, env: Env)
    requires Enabled(s, i) && !Draining(s.calls[i].pc)
    ensures var t := Step(s, i, env);
            && |t.calls| == |s.calls|
            && t.w.closedInfo == s.w.closedInfo && t.w.infoErr == s.w.infoErr
            && (AfterSnapshot(t.calls[i].pc) ==> AfterSnapshot(s.calls[i].pc))
  {
  }

  /** A step seals the wrapper exactly when it is the closer's and takes the copy. */
  lemma SealingFollowsStep(base: Wrapper, s: State, i: nat, env: Env)
    requires Inv(s) && Enabled(s, i) && !Sealed(s) && s.w.closedInfo == None && s.w.infoErr == base.infoErr
    ensures var t := Step(s, i, env);
            if Sealed(t) then
              Draining(s.calls[i].pc) && InfoApplied(base, t.w, s.calls[i].pc.outcome)
            else t.w.closedInfo == None && t.w.infoErr == base.infoErr
  {
    if Draining(s.calls[i].pc) {
      DrainAppliesInfo(base, s, i, env);
    } else {
      OthersLeaveInfo(s, i, env);
    }
    StepMovesChannel(s, i, env);
    StepMovesOneCall(s, i, env);
    SealedByItsCall(s, i, Step(s, i, env));
  }

  lemma SealedByItsCall(s: State, i: nat, t: State)
    requires !Sealed(s) && t.w.closeDone != ClosedChannel && i < |s.calls| == |t.calls|
    requires t.calls == At(s.calls, i, t.calls[i].pc) || t.calls == Wake(At(s.calls, i, t.calls[i].pc))
    ensures Sealed(t) <==> AfterSnapshot(t.calls[i].pc)
  {
    if Sealed(t) {
      var k :| 0 <= k < |t.calls| && AfterSnapshot(t.calls[k].pc);
      assert k != i ==> !AfterSnapshot(s.calls[k].pc);
    }
  }

  /** What a step does to the histories of the close. */
  lemma StepRecordsClose(s: State, i: nat, env: Env)
    requires Enabled(s, i)
    ensures var t, pc := Step(s, i, env), s.calls[i].pc;
            && t.closes == (if pc.InfoTaken? then s.closes + [env.err] else s.closes)
            && t.reports == (if pc.Settled? && s.w.hasCallback then s.reports + [pc.report] else s.reports)
  {
  }

  predicate Claims(s: State, i: nat, t: State)
    requires i < |s.calls| == |t.calls|
  {
    && s.calls[i].pc == Start && t.calls[i].pc == Claimed
    && s.w.closeDone == NilChannel && t.w.closeDone == OpenChannel
  }

  /** The channel is made by the claim of the close and closed by its owner's last step. */
  lemma StepMovesChannel(s: State, i: nat, env: Env)
    requires Enabled(s, i)
    ensures var t, pc := Step(s, i, env), s.calls[i].pc;
            && |t.calls| == |s.calls|
            && (|| t.w.closeDone == s.w.closeDone || Claims(s, i, t)
                || (pc.CallbackOver? && t.w.closeDone == ClosedChannel))
            && (pc.CallbackOver? ==> t.calls[i].pc.CloseReturned?)
  {
  }

  /** A call comes to own the close by claiming it only. */
  lemma OwnersHaveClaimed(s: State, i: nat, env: Env)
    requires Enabled(s, i) && !Owning(s.calls[i].pc)
    ensures var t := Step(s, i, env);
            && |t.calls| == |s.calls|
            && (Owning(t.calls[i].pc) ==> t.calls[i].pc == Claimed && s.w.closeDone == NilChannel)
  {
  }

  /** The owner's own stage after its step, up to the copy. */
  lemma EarlyStageFollowsStep(s: State, i: nat, env: Env)
    requires Enabled(s, i) && AtStage(s, s.calls[i].pc) && Owning(s.calls[i].pc) && !AfterSnapshot(s.calls[i].pc)
    ensures |Step(s, i, env).calls| == |s.calls| && AtStage(Step(s, i, env), Step(s, i, env).calls[i].pc)
  {
  }

  /** The same from the copy on. */
  lemma LateStageFollowsStep(s: State, i: nat, env: Env)
    requires Enabled(s, i) && AtStage(s, s.calls[i].pc) && AfterSnapshot(s.calls[i].pc)
    ensures |Step(s, i, env).calls| == |s.calls| && AtStage(Step(s, i, env), Step(s, i, env).calls[i].pc)
  {
  }

  /** A call that claims the close finds it untouched. */
  lemma OwnStageFollowsStep(s: State, i: nat, env: Env)
    requires Stages(s) && Enabled(s, i)
    ensures |Step(s, i, env).calls| == |s.calls| && AtStage(Step(s, i, env), Step(s, i, env).calls[i].pc)
  {
    assert AtStage(s, s.calls[i].pc);
    if !Owning(s.calls[i].pc) {
      OwnersHaveClaimed(s, i, env);
      StepRecordsClose(s, i, env);
    } else if AfterSnapshot(s.calls[i].pc) {
      LateStageFollowsStep(s, i, env);
    } else {
      EarlyStageFollowsStep(s, i, env);
    }
  }

  lemma KindFollowsStep(s: State, i: nat, env: Env)
    requires Enabled(s, i) && OfItsKind(s.calls[i])
    ensures |Step(s, i, env).calls| == |s.calls| && OfItsKind(Step(s, i, env).calls[i])
  {
  }

  lemma CallStagesFollowStep(s: State, i: nat, env: Env)
    requires Inv(s) && Stages(s) && Enabled(s, i)
    ensures var t := Step(s, i, env);
            forall j | 0 <= j < |t.calls| :: AtStage(t, t.calls[j].pc) && OfItsKind(t.calls[j])
  {
    var t := Step(s, i, env);
    StepMovesOneCall(s, i, env);
    StepRecordsClose(s, i, env);
    StepKeepsConstants(s, i, env);
    OwnStageFollowsStep(s, i, env);
    KindFollowsStep(s, i, env);
    forall j | 0 <= j < |t.calls| ensures AtStage(t, t.calls[j].pc) && OfItsKind(t.calls[j]) {
      assert AtStage(s, s.calls[j].pc) && OfItsKind(s.calls[j]);
    }
  }

  lemma ChannelStageFollowsStep(s: State, i: nat, env: Env)
    requires Inv(s) && Stages(s) && Enabled(s, i)
    ensures ChannelStage(Step(s, i, env))
  {
    var t := Step(s, i, env);
    StepMovesOneCall(s, i, env);
    StepMovesChannel(s, i, env);
    StepRecordsClose(s, i, env);
    StepKeepsConstants(s, i, env);
    assert Local(s.w, s.calls[i].pc) && AtStage(s, s.calls[i].pc);
    if !s.calls[i].pc.ConnClosed? { StepKeepsConn(s, i, env); }
    if s.w.closeDone == ClosedChannel {
      var k :| 0 <= k < |s.calls| && s.calls[k].pc.CloseReturned?;
      assert t.calls[k].pc.CloseReturned?;
    }
  }

  /** Every report handed over is the copy of the wrapper as it still is. */
  lemma ReportsFollowStep(s: State, i: nat, env: Env)
    requires Inv(s) && Stages(s) && Enabled(s, i)
    ensures var t := Step(s, i, env); forall r | r in t.reports :: Sealed(t) && r == Snapshot(t.w)
  {
    StepRecordsClose(s, i, env);
    assert Local(s.w, s.calls[i].pc);
    if s.calls[i].pc.Settled? { assert AfterSnapshot(s.calls[i].pc) && Sealed(s); }
    if Sealed(s) { SealedStaysSealed(s, i, env); }
  }

  lemma StepKeepsStages(s: State, i: nat, env: Env)
    requires Inv(s) && Stages(s) && Enabled(s, i)
    ensures Stages(Step(s, i, env))
  {
    CallStagesFollowStep(s, i, env);
    ChannelStageFollowsStep(s, i, env);
    ReportsFollowStep(s, i, env);
  }

  lemma StepKeepsHistory(base: Wrapper, s: State, i: nat, env: Env)
    requires Inv(s) && Stages(s) && History(base, s) && Enabled(s, i)
    ensures History(base, Step(s, i, env))
  {
    var t := Step(s, i, env);
    SummariesFollowStep(s, i, env);
    SumsFollowStep(s, i, env, BytesRead, Read, Rx);
    SumsFollowStep(s, i, env, BytesWritten, Write, Tx);
    CarryingFollowsStep(s, i, env);
    StepKeepsConstants(s, i, env);
    assert Local(s.w, s.calls[i].pc);
    if Sealed(s) {
      SealedStaysSealed(s, i, env);
      var o :| InfoCollected(o) in s.trace && InfoApplied(base, s.w, o);
      assert InfoCollected(o) in t.trace && InfoApplied(base, t.w, o);
    } else {
      SealingFollowsStep(base, s, i, env);
      if Sealed(t) { assert Carries(s.calls[i].pc, s.trace); }
    }
  }

  // ----- Runs -----

  /** Everything that holds of a wrapped connection in every state of every run. */
  ghost predicate Good(base: Wrapper, s: State) {
    Inv(s) && History(base, s) && Stages(s)
  }

  lemma InitIsGood(setup: Setup, s: State)
    requires Init(setup, s) && setup.conn.Some?
    ensures Good(Wrapped(setup), s)
  {
    InitHasInv(setup, s);
    InitHasHistory(setup, s);
  }

  lemma {:induction false} RunKeepsGood(base: Wrapper, s: State, moves: seq<Move>)
    requires Good(base, s) && IsRun(s, moves)
    ensures Good(base, Run(s, moves))
    decreases |moves|
  {
    if moves != [] {
      StepKeepsInv(s, moves[0].call, moves[0].env);
      StepKeepsHistory(base, s, moves[0].call, moves[0].env);
      StepKeepsStages(s, moves[0].call, moves[0].env);
      RunKeepsGood(base, Step(s, moves[0].call, moves[0].env), moves[1..]);
    }
  }

  lemma ReachedIsGood(setup: Setup, s: State, moves: seq<Move>)
    requires setup.conn.Some? && Init(setup, s) && IsRun(s, moves)
    ensures Good(Wrapped(setup), Run(s, moves))
  {
    InitIsGood(setup, s);
    RunKeepsGood(Wrapped(setup), s, moves);
  }

  /** The counters of a direction are the summary of a log whose bytes are those the calls returned. */
  ghost predicate Accounts(t: Traffic, log: seq<IoRecord>, dir: Direction, returned: int) {
    && t == Summary(log, dir)
    && t.bytes == Wrap64(returned)
    && (-0x8000_0000_0000_0000 <= returned < 0x8000_0000_0000_0000 ==> t.bytes == returned)
  }

  /**
   The report handed over at close is complete: every call that was ever admitted has been counted and has returned,
   the byte totals are the sums of what all the Read and Write calls returned, the counters summarise the log, the
   close error is the one the underlying Close returned, and the info fields are those collected at open and at close.
   */
  lemma FinalReportIsComplete(setup: Setup, s: State, moves: seq<Move>, r: Wrapper)
    requires setup.conn.Some? && Init(setup, s) && IsRun(s, moves) && r in Run(s, moves).reports
    ensures var t := Run(s, moves);
            && t.reports == [r] && r == Snapshot(t.w)
            && Accounts(r.rx, t.log, Rx, Total(t.calls, BytesRead))
            && Accounts(r.tx, t.log, Tx, Total(t.calls, BytesWritten))
            && t.closes == [r.closeErr] && r.openedAt == setup.now && r.openedInfo == Wrapped(setup).openedInfo
            && (exists o :: InfoCollected(o) in t.trace && InfoApplied(Wrapped(setup), r, o))
            && forall i | 0 <= i < |t.calls| :: !Flying(t.calls[i].pc)
  {
    ReachedIsGood(setup, s, moves);
    var t := Run(s, moves);
    SealedMeansDrained(t);
    BytesAreTheSum(t.log, Rx);
    BytesAreTheSum(t.log, Tx);
    ReportsAreOne(t);
    CloseErrIsKnown(t);
    var o :| InfoCollected(o) in t.trace && InfoApplied(Wrapped(setup), t.w, o);
    assert InfoApplied(Wrapped(setup), r, o);
  }

  lemma CloseErrIsKnown(s: State)
    requires Inv(s) && Stages(s) && Sealed(s)
    ensures s.closes == [s.w.closeErr]
  {
    if s.w.closeDone != ClosedChannel {
      var i :| 0 <= i < |s.calls| && AfterSnapshot(s.calls[i].pc);
      assert Local(s.w, s.calls[i].pc) && AtStage(s, s.calls[i].pc);
    }
  }

  lemma ReportsAreOne(s: State)
    requires Inv(s) && Stages(s)
    ensures |s.closes| <= 1 && |s.reports| <= 1
    ensures s.reports != [] ==> s.w.hasCallback && |s.closes| == 1
  {
    if s.w.closeDone == OpenChannel {
      var i :| 0 <= i < |s.calls| && Owning(s.calls[i].pc);
      assert AtStage(s, s.calls[i].pc);
    }
  }

  /** Once the report is handed over, no continuation changes it, counts another result or alters what it describes. */
  lemma {:induction false} NothingChangesAfterReport(base: Wrapper, s: State, more: seq<Move>)
    requires Good(base, s) && s.reports != [] && IsRun(s, more)
    ensures var t := Run(s, more);
            && t.reports == s.reports && t.log == s.log && Snapshot(t.w) == Snapshot(s.w)
            && Total(t.calls, BytesRead) == Total(s.calls, BytesRead)
            && Total(t.calls, BytesWritten) == Total(s.calls, BytesWritten)
    decreases |more|
  {
    if more != [] {
      var t := Step(s, more[0].call, more[0].env);
      assert s.reports[0] in s.reports && AtStage(s, s.calls[more[0].call].pc);
      SealedStaysSealed(s, more[0].call, more[0].env);
      StepRecordsClose(s, more[0].call, more[0].env);
      StepKeepsInv(s, more[0].call, more[0].env);
      StepKeepsHistory(base, s, more[0].call, more[0].env);
      StepKeepsStages(s, more[0].call, more[0].env);
      NothingChangesAfterReport(base, t, more[1..]);
    }
  }

  /**
   Once every call has returned: if one of them was a Close, the underlying connection was closed exactly once and the
   callback, when there is one, received exactly one report at close; otherwise neither happened.
   */
  lemma ClosedAndReportedExactlyOnce(setup: Setup, s: State, moves: seq<Move>)
    requires setup.conn.Some? && Init(setup, s) && IsRun(s, moves)
    requires forall i | 0 <= i < |Run(s, moves).calls| :: Returned(Run(s, moves).calls[i].pc)
    ensures var t := Run(s, moves);
            var closed := exists i :: 0 <= i < |t.calls| && t.calls[i].kind == Close;
            && |t.closes| == (if closed then 1 else 0)
            && |t.reports| == (if closed && setup.hasCallback then 1 else 0)
  {
    ReachedIsGood(setup, s, moves);
    ReturnedMeansReported(Run(s, moves));
  }

  lemma ReturnedMeansReported(s: State)
    requires Inv(s) && Stages(s) && forall i | 0 <= i < |s.calls| :: Returned(s.calls[i].pc)
    ensures var closed := exists i :: 0 <= i < |s.calls| && s.calls[i].kind == Close;
            |s.closes| == (if closed then 1 else 0) && |s.reports| == if closed && s.w.hasCallback then 1 else 0
  {
    if i :| 0 <= i < |s.calls| && s.calls[i].kind == Close {
      assert Returned(s.calls[i].pc) && OfItsKind(s.calls[i]) && Local(s.w, s.calls[i].pc);
    }
  }

  /** All Close calls, whichever claimed the close and whenever they came, return what the underlying Close returned. */
  lemma CloseCallsAgree(setup: Setup, s: State, moves: seq<Move>, i: nat)
    requires setup.conn.Some? && Init(setup, s) && IsRun(s, moves)
    requires i < |Run(s, moves).calls| && Run(s, moves).calls[i].pc.CloseReturned?
    ensures var t := Run(s, moves); t.closes == [t.calls[i].pc.closeErr]
  {
    ReachedIsGood(setup, s, moves);
    var t := Run(s, moves);
    assert Local(t.w, t.calls[i].pc);
  }

  /**
   The info fields over a whole run: the open-time info never changes; the close-time info and the error are the
   open-time ones until the copy is taken, and from then on those of the collection made at close, whose error
   replaces the open-time error if it produced info or an error.
   */
  lemma InfoFieldsOverRun(setup: Setup, s: State, moves: seq<Move>)
    requires setup.conn.Some? && Init(setup, s) && IsRun(s, moves)
    ensures var base, t := Wrapped(setup), Run(s, moves);
            && t.w.openedInfo == base.openedInfo
            && if Sealed(t) then exists o :: InfoCollected(o) in t.trace && InfoApplied(base, t.w, o)
               else t.w.closedInfo == None && t.w.infoErr == base.infoErr
  {
    ReachedIsGood(setup, s, moves);
  }

  /** One of the moves claims the close, and reads `now` off the clock. */
  ghost predicate ClaimsAt(s: State, moves: seq<Move>, now: int)
    requires IsRun(s, moves)
    decreases |moves|
  {
    && moves != []
    && var t := Step(s, moves[0].call, moves[0].env);
    && ((t.trace == s.trace + [CloseClaimed] && moves[0].env.now == now) || ClaimsAt(t, moves[1..], now))
  }

  /** Only the claiming step sets the start flag and the close time. */
  lemma ClosedAtFollowsStep(s: State, i: nat, env: Env)
    requires Global(s.w) && Enabled(s, i)
    ensures var t := Step(s, i, env);
            if t.w.closeStarted == s.w.closeStarted then t.w.closedAt == s.w.closedAt
            else t.w.closeStarted && t.w.closedAt == env.now && t.trace == s.trace + [CloseClaimed]
  {
    if s.calls[i].pc != Start { assert Step(s, i, env).w.closeStarted == s.w.closeStarted; }
  }

  /** ClosedAt is the clock at the claim of the close, and does not move after it. */
  lemma {:induction false} ClosedAtIsTheClaim(s: State, moves: seq<Move>)
    requires Inv(s) && IsRun(s, moves)
    ensures var t := Run(s, moves);
            if s.w.closeStarted then t.w.closeStarted && t.w.closedAt == s.w.closedAt
            else if t.w.closeStarted then ClaimsAt(s, moves, t.w.closedAt)
            else t.w.closedAt == s.w.closedAt
    decreases |moves|
  {
    if moves != [] {
      var t := Step(s, moves[0].call, moves[0].env);
      ClosedAtFollowsStep(s, moves[0].call, moves[0].env);
      StepKeepsInv(s, moves[0].call, moves[0].env);
      ClosedAtIsTheClaim(t, moves[1..]);
    }
  }

  /** The report is detached: it has no connection, callback, condition variable, channel or call in flight. */
  lemma ReportIsDetached(setup: Setup, s: State, moves: seq<Move>, r: Wrapper)
    requires setup.conn.Some? && Init(setup, s) && IsRun(s, moves) && r in Run(s, moves).reports
    ensures r.conn == None && !r.hasCallback && !r.hasCond && r.closeDone == NilChannel && r.inFlight == 0
    ensures r.closeStarted
  {
    ReachedIsGood(setup, s, moves);
    SealedMeansDrained(Run(s, moves));
  }

  /** The report shows the clock at the claim of the close. */
  lemma ReportShowsTheClaim(setup: Setup, s: State, moves: seq<Move>, r: Wrapper)
    requires setup.conn.Some? && Init(setup, s) && IsRun(s, moves) && r in Run(s, moves).reports
    ensures ClaimsAt(s, moves, r.closedAt)
  {
    ReachedIsGood(setup, s, moves);
    SealedMeansDrained(Run(s, moves));
    InitHasInv(setup, s);
    ClosedAtIsTheClaim(s, moves);
  }

  /**
   Every run that cannot go on and holds a Close: all calls have returned, the callback received one report whose byte
   totals are the sums of what all the Read and Write calls returned, and every Close returned the error it names.
   */
  lemma FinishedRunsAreReported(setup: Setup, s: State, moves: seq<Move>, k: nat)
    requires setup.conn.Some? && setup.hasCallback && Init(setup, s) && IsRun(s, moves)
    requires forall i: nat :: !Enabled(Run(s, moves), i)
    requires k < |Run(s, moves).calls| && Run(s, moves).calls[k].kind == Close
    ensures var t := Run(s, moves);
            && (forall i | 0 <= i < |t.calls| :: Returned(t.calls[i].pc))
            && |t.reports| == 1
            && Accounts(t.reports[0].rx, t.log, Rx, Total(t.calls, BytesRead))
            && Accounts(t.reports[0].tx, t.log, Tx, Total(t.calls, BytesWritten))
            && forall i | 0 <= i < |t.calls| && t.calls[i].kind == Close ::
                 t.calls[i].pc == CloseReturned(t.reports[0].closeErr)
  {
    StuckMeansReturned(setup, s, moves);
    ClosedAndReportedExactlyOnce(setup, s, moves);
    var t := Run(s, moves);
    FinalReportIsComplete(setup, s, moves, t.reports[0]);
    ReachedIsGood(setup, s, moves);
    ReturnedClosesAgree(t);
  }

  lemma ReturnedClosesAgree(s: State)
    requires Inv(s) && Stages(s) && forall i | 0 <= i < |s.calls| :: Returned(s.calls[i].pc)
    ensures forall i | 0 <= i < |s.calls| && s.calls[i].kind == Close :: s.calls[i].pc == CloseReturned(s.w.closeErr)
  {
    forall i | 0 <= i < |s.calls| && s.calls[i].kind == Close ensures s.calls[i].pc == CloseReturned(s.w.closeErr) {
      assert Returned(s.calls[i].pc) && OfItsKind(s.calls[i]) && Local(s.w, s.calls[i].pc);
    }
  }
}
