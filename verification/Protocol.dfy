/**
 The protocol of wrap.go as a transition system: any number of Read, Write, Close and deadline calls against one
 wrapper. A step is one section that holds the mutex, or one interaction outside it: an underlying call that returns,
 the callback entered or left, the close of the `done` channel. `Wait` parks the closer and frees the mutex; the
 closer runs again only after a broadcast.
 */
module Protocol {
  import opened Wrappers
  import opened Lifecycle

  datatype Kind = Read | Write | Close | Deadline

  /** Where a call stands, with the locals it still needs. */
  datatype Pc =
    | Start
    // Read and Write
    | InIo
    | IoResult(n: int, err: Option<Error>)
    | IoCounted(n: int, err: Option<Error>)
    | IoReturned(n: int, err: Option<Error>)
    | IoRefused
    // Close, by the call that claimed it
    | Claimed
    | InfoTaken(outcome: Outcome)
    | ConnClosed(outcome: Outcome, closeErr: Option<Error>)
    | Parked(outcome: Outcome, closeErr: Option<Error>, signalled: bool)
    | Settled(report: Wrapper, closeErr: Option<Error>)
    | InCallback(closeErr: Option<Error>)
    | CallbackOver(closeErr: Option<Error>)
    // Close, by any other call
    | AwaitingDone
    | SawDone
    | CloseReturned(closeErr: Option<Error>)
    // SetDeadline, SetReadDeadline, SetWriteDeadline
    | DeadlineLive
    | DeadlineReturned(err: Option<Error>)

  datatype Call = Call(kind: Kind, pc: Pc)

  /** What the protocol does that an observer could order. */
  datatype Event =
    | OpenReported
    | Admitted(call: nat)
    | Finished(call: nat)
    | Refused(call: nat)
    | CloseClaimed
    | InfoCollected(outcome: Outcome)
    | Waited
    | Broadcast
    | UnderlyingClosed
    | ClosePublished(err: Option<Error>)
    | CallbackEntered
    | CallbackLeft
    | CloseReturns(call: nat)
    | DeadlineAdmitted(call: nat)
    | DeadlineRefused(call: nat, refusal: Error)
    | DeadlineSet(call: nat, err: Option<Error>)
    | Panicked

  /**
   The shared wrapper and the calls, with four histories: the results counted so far in the order of their sections,
   what the underlying Close returned each time it ran, the reports handed to the callback at close, and the events.
   */
  datatype State = State(
    w: Wrapper, calls: seq<Call>,
    log: seq<IoRecord>, closes: seq<Option<Error>>, reports: seq<Wrapper>, trace: seq<Event>)

  /** What the surroundings supply to a step: the clock, the result of an underlying call, what a collection gives. */
  datatype Env = Env(now: int, n: int, err: Option<Error>, answer: Outcome)

  // ----- Initial states -----

  /** What to wrap and how. */
  datatype Setup = Setup(
    conn: Option<ConnId>, hasCallback: bool, emitOpen: bool, supported: bool, now: int, answer: Outcome)

  function Wrapped(setup: Setup): Wrapper {
    Wrap(setup.conn, setup.hasCallback, setup.supported, setup.now, setup.answer)
  }

  function OpeningTrace(setup: Setup): seq<Event> {
    if setup.emitOpen && setup.hasCallback then [OpenReported] else []
  }

  predicate NoneBegun(calls: seq<Call>) {
    forall i | 0 <= i < |calls| :: calls[i].pc == Start
  }

  /**
   A wrapper just made, and the calls that will ever be made on it. A call that has not begun has no effect, so runs
   in which calls arrive over time are included.
   */
  ghost predicate Init(setup: Setup, s: State) {
    && s.w == Wrapped(setup) && NoneBegun(s.calls)
    && s.log == [] && s.closes == [] && s.reports == [] && s.trace == OpeningTrace(setup)
  }

  // ----- Steps -----

  predicate Returned(pc: Pc) {
    pc.IoReturned? || pc.IoRefused? || pc.CloseReturned? || pc.DeadlineReturned?
  }

  predicate Enabled(s: State, i: nat) {
    && i < |s.calls|
    && var pc := s.calls[i].pc;
    && !Returned(pc)
    && (pc.Parked? ==> pc.signalled)
    && (pc.AwaitingDone? ==> s.w.closeDone == ClosedChannel)
  }

  function At(calls: seq<Call>, i: nat, pc: Pc): seq<Call>
    requires i < |calls|
  {
    calls[i := calls[i].(pc := pc)]
  }

  function Woken(c: Call): Call {
    if c.pc.Parked? then c.(pc := c.pc.(signalled := true)) else c
  }

  function Wake(calls: seq<Call>): (r: seq<Call>)
    ensures |r| == |calls| && forall i | 0 <= i < |calls| :: r[i] == Woken(calls[i])
  {
    seq(|calls|, i requires 0 <= i < |calls| => Woken(calls[i]))
  }

  function DirectionOf(kind: Kind): Direction {
    if kind == Write then Tx else Rx
  }

  /** `beginIO`. */
  function StepBegin(s: State, i: nat): State
    requires i < |s.calls|
  {
    if Refuses(s.w) then s.(calls := At(s.calls, i, IoRefused), trace := s.trace + [Refused(i)])
    else s.(w := BeginIo(s.w), calls := At(s.calls, i, InIo), trace := s.trace + [Admitted(i)])
  }

  function RecordOf(s: State, i: nat, env: Env): IoRecord
    requires i < |s.calls| && s.calls[i].pc.IoResult?
  {
    IoRecord(DirectionOf(s.calls[i].kind), s.calls[i].pc.n, s.calls[i].pc.err, env.now)
  }

  /** The section of `Read` or `Write` that updates the counters. */
  function StepCount(s: State, i: nat, env: Env): State
    requires i < |s.calls| && s.calls[i].pc.IoResult?
  {
    var r := RecordOf(s, i, env);
    s.(w := CountRecord(s.w, r), calls := At(s.calls, i, IoCounted(r.n, r.err)), log := s.log + [r])
  }

  /** `finishIO`; a broadcast on a missing condition variable panics. */
  function StepFinish(s: State, i: nat): State
    requires i < |s.calls| && s.calls[i].pc.IoCounted?
  {
    var calls := At(s.calls, i, IoReturned(s.calls[i].pc.n, s.calls[i].pc.err));
    var t := s.(w := FinishIo(s.w), calls := calls, trace := s.trace + [Finished(i)]);
    if !Broadcasts(s.w) then t
    else t.(calls := Wake(calls), trace := t.trace + [if s.w.hasCond then Broadcast else Panicked])
  }

  /** The first section of `Close`. */
  function StepClose(s: State, i: nat, env: Env): State
    requires i < |s.calls|
  {
    if s.w.closeDone != NilChannel then s.(calls := At(s.calls, i, AwaitingDone))
    else if s.w.conn == None then
      s.(calls := At(s.calls, i, CloseReturned(Some(RefusalOf(s.w)))), trace := s.trace + [CloseReturns(i)])
    else s.(w := ClaimClose(s.w, env.now), calls := At(s.calls, i, Claimed), trace := s.trace + [CloseClaimed])
  }

  /** The end of the last section of `Close`, reached with the mutex held: wait, or apply the report and copy. */
  function StepDrain(s: State, i: nat, outcome: Outcome, err: Option<Error>): State
    requires i < |s.calls|
  {
    if s.w.inFlight > 0 then
      s.(calls := At(s.calls, i, Parked(outcome, err, false)),
         trace := s.trace + [if s.w.hasCond then Waited else Panicked])
    else
      var w := ApplyInfo(s.w, Closed, outcome);
      s.(w := w, calls := At(s.calls, i, Settled(Snapshot(w), err)))
  }

  function StepReport(s: State, i: nat): State
    requires i < |s.calls| && s.calls[i].pc.Settled?
  {
    var pc := s.calls[i].pc;
    if s.w.hasCallback then
      s.(calls := At(s.calls, i, InCallback(pc.closeErr)), reports := s.reports + [pc.report],
         trace := s.trace + [CallbackEntered])
    else s.(calls := At(s.calls, i, CallbackOver(pc.closeErr)))
  }

  /** The deferred close of the channel, then the return; closing a channel twice, or nil, panics. */
  function StepRelease(s: State, i: nat): State
    requires i < |s.calls| && s.calls[i].pc.CallbackOver?
  {
    var events := if s.w.closeDone == OpenChannel then [CloseReturns(i)] else [Panicked, CloseReturns(i)];
    s.(w := s.w.(closeDone := ClosedChannel), calls := At(s.calls, i, CloseReturned(s.calls[i].pc.closeErr)),
       trace := s.trace + events)
  }

  /** `withLiveConn` up to the point where the mutex is released. */
  function StepDeadline(s: State, i: nat): State
    requires i < |s.calls|
  {
    if Refuses(s.w) then
      s.(calls := At(s.calls, i, DeadlineReturned(Some(RefusalOf(s.w)))),
         trace := s.trace + [DeadlineRefused(i, RefusalOf(s.w))])
    else s.(calls := At(s.calls, i, DeadlineLive), trace := s.trace + [DeadlineAdmitted(i)])
  }

  function Step(s: State, i: nat, env: Env): State
    requires Enabled(s, i)
  {
    match s.calls[i].pc
    case Start =>
      (match s.calls[i].kind
       case Read => StepBegin(s, i)
       case Write => StepBegin(s, i)
       case Close => StepClose(s, i, env)
       case Deadline => StepDeadline(s, i))
    case InIo => s.(calls := At(s.calls, i, IoResult(env.n, env.err)))
    case IoResult(_, _) => StepCount(s, i, env)
    case IoCounted(_, _) => StepFinish(s, i)
    case Claimed =>
      var outcome := Collected(s.w, env.answer);
      s.(calls := At(s.calls, i, InfoTaken(outcome)), trace := s.trace + [InfoCollected(outcome)])
    case InfoTaken(outcome) =>
      s.(calls := At(s.calls, i, ConnClosed(outcome, env.err)), closes := s.closes + [env.err],
         trace := s.trace + [UnderlyingClosed])
    case ConnClosed(outcome, err) =>
      StepDrain(s.(w := PublishClose(s.w, err), trace := s.trace + [ClosePublished(err)]), i, outcome, err)
    case Parked(outcome, err, _) => StepDrain(s, i, outcome, err)
    case Settled(_, _) => StepReport(s, i)
    case InCallback(err) => s.(calls := At(s.calls, i, CallbackOver(err)), trace := s.trace + [CallbackLeft])
    case CallbackOver(_) => StepRelease(s, i)
    case AwaitingDone => s.(calls := At(s.calls, i, SawDone))
    case SawDone => s.(calls := At(s.calls, i, CloseReturned(s.w.closeErr)), trace := s.trace + [CloseReturns(i)])
    case DeadlineLive =>
      s.(calls := At(s.calls, i, DeadlineReturned(env.err)), trace := s.trace + [DeadlineSet(i, env.err)])
  }

  /** The steps that wake the parked. */
  predicate Waking(s: State, i: nat)
    requires i < |s.calls|
  {
    s.calls[i].pc.IoCounted? && Broadcasts(s.w)
  }

  /** A step moves one call; a waking step also signals the parked ones. */
  lemma StepMovesOneCall(s: State, i: nat, env: Env)
    requires Enabled(s, i)
    ensures var t := Step(s, i, env);
            && |t.calls| == |s.calls|
            && t.calls[i].kind == s.calls[i].kind
            && var calls := At(s.calls, i, t.calls[i].pc);
            && t.calls == if Waking(s, i) then Wake(calls) else calls
  {
  }

  /** Results are counted by one kind of step only, and the log follows. */
  lemma StepCounts(s: State, i: nat, env: Env)
    requires Enabled(s, i)
    ensures var t := Step(s, i, env);
            && |t.calls| == |s.calls|
            && if s.calls[i].pc.IoResult? then
                 var r := RecordOf(s, i, env);
                 t.log == s.log + [r] && t.w == CountRecord(s.w, r) && t.calls[i].pc == IoCounted(r.n, r.err)
               else t.log == s.log && t.w.rx == s.w.rx && t.w.tx == s.w.tx
                    && (t.calls[i].pc.IoCounted? || t.calls[i].pc.IoReturned? <==> s.calls[i].pc.IoCounted?)
                    && (s.calls[i].pc.IoCounted? ==> t.calls[i].pc == IoReturned(s.calls[i].pc.n, s.calls[i].pc.err))
  {
    if !s.calls[i].pc.IoResult? && !s.calls[i].pc.IoCounted? { OthersCountNothing(s, i, env); }
  }

  lemma OthersCountNothing(s: State, i: nat, env: Env)
    requires Enabled(s, i) && !s.calls[i].pc.IoResult? && !s.calls[i].pc.IoCounted?
    ensures var t := Step(s, i, env);
            && |t.calls| == |s.calls| && t.log == s.log && t.w.rx == s.w.rx && t.w.tx == s.w.tx
            && !t.calls[i].pc.IoCounted? && !t.calls[i].pc.IoReturned?
  {
  }

  /** What wrapping fixed stays fixed, and events are only added. */
  lemma StepKeepsConstants(s: State, i: nat, env: Env)
    requires Enabled(s, i)
    ensures var t := Step(s, i, env);
            && t.w.openedAt == s.w.openedAt && t.w.hasCallback == s.w.hasCallback && t.w.openedInfo == s.w.openedInfo
            && t.w.supportsTcpInfo == s.w.supportsTcpInfo
            && s.trace <= t.trace
  {
    StepKeepsFields(s, i, env);
    StepExtendsTrace(s, i, env);
  }

  lemma StepKeepsFields(s: State, i: nat, env: Env)
    requires Enabled(s, i)
    ensures var t := Step(s, i, env);
            && t.w.openedAt == s.w.openedAt && t.w.hasCallback == s.w.hasCallback && t.w.openedInfo == s.w.openedInfo
            && t.w.supportsTcpInfo == s.w.supportsTcpInfo
  {
    match s.calls[i].pc
    case ConnClosed(outcome, err) =>
      DrainKeepsFields(s.(w := PublishClose(s.w, err), trace := s.trace + [ClosePublished(err)]), i, outcome, err);
    case Parked(outcome, err, _) => DrainKeepsFields(s, i, outcome, err);
    case _ => OthersKeepFields(s, i, env);
  }

  lemma DrainKeepsFields(s: State, i: nat, outcome: Outcome, err: Option<Error>)
    requires i < |s.calls|
    ensures var t := StepDrain(s, i, outcome, err);
            && t.w.openedAt == s.w.openedAt && t.w.hasCallback == s.w.hasCallback && t.w.openedInfo == s.w.openedInfo
            && t.w.supportsTcpInfo == s.w.supportsTcpInfo
  {
  }

  lemma OthersKeepFields(s: State, i: nat, env: Env)
    requires Enabled(s, i) && !s.calls[i].pc.ConnClosed? && !s.calls[i].pc.Parked?
    ensures var t := Step(s, i, env);
            && t.w.openedAt == s.w.openedAt && t.w.hasCallback == s.w.hasCallback && t.w.openedInfo == s.w.openedInfo
            && t.w.supportsTcpInfo == s.w.supportsTcpInfo
  {
  }

  lemma StepExtendsTrace(s: State, i: nat, env: Env)
    requires Enabled(s, i)
    ensures s.trace <= Step(s, i, env).trace
  {
    // One case for each kind of step.
    match s.calls[i].pc
    case Start => match s.calls[i].kind { case Read => case Write => case Close => case Deadline => }
    case InIo =>
    case IoResult(_, _) =>
    case IoCounted(_, _) =>
    case Claimed =>
    case InfoTaken(_) =>
    case ConnClosed(_, _) =>
    case Parked(_, _, _) =>
    case Settled(_, _) =>
    case InCallback(_) =>
    case CallbackOver(_) =>
    case AwaitingDone =>
    case SawDone =>
    case DeadlineLive =>
  }

  /** Only the publication of a close drops the connection and sets the close error. */
  lemma StepKeepsConn(s: State, i: nat, env: Env)
    requires Enabled(s, i) && !s.calls[i].pc.ConnClosed?
    ensures var t := Step(s, i, env); t.w.conn == s.w.conn && t.w.closeErr == s.w.closeErr
  {
    // One case for each kind of step.
    match s.calls[i].pc
    case Start => match s.calls[i].kind { case Read => case Write => case Close => case Deadline => }
    case InIo =>
    case IoResult(_, _) =>
    case IoCounted(_, _) =>
    case Claimed =>
    case InfoTaken(_) =>
    case Parked(_, _, _) =>
    case Settled(_, _) =>
    case InCallback(_) =>
    case CallbackOver(_) =>
    case AwaitingDone =>
    case SawDone =>
    case DeadlineLive =>
  }

  // ----- Runs -----

  /** Which call moves, and what the surroundings supply. */
  datatype Move = Move(call: nat, env: Env)

  /** A schedule that only ever moves a call that can move. */
  ghost predicate IsRun(s: State, moves: seq<Move>)
    decreases |moves|
  {
    moves == [] || (Enabled(s, moves[0].call) && IsRun(Step(s, moves[0].call, moves[0].env), moves[1..]))
  }

  ghost function Run(s: State, moves: seq<Move>): State
    requires IsRun(s, moves)
    decreases |moves|
  {
    if moves == [] then s else Run(Step(s, moves[0].call, moves[0].env), moves[1..])
  }

  // ----- Sums over the calls -----

  function Total(calls: seq<Call>, f: Call -> int): int {
    if calls == [] then 0 else Total(calls[..|calls| - 1], f) + f(calls[|calls| - 1])
  }

  lemma {:induction false} TotalOfUpdate(calls: seq<Call>, i: nat, c: Call, f: Call -> int)
    requires i < |calls|
    ensures Total(calls[i := c], f) == Total(calls, f) - f(calls[i]) + f(c)
  {
    var last := |calls| - 1;
    if i == last {
      assert calls[i := c][..last] == calls[..last];
    } else {
      TotalOfUpdate(calls[..last], i, c, f);
      assert calls[i := c][..last] == calls[..last][i := c];
    }
  }

  lemma {:induction false} TotalOfEqual(a: seq<Call>, b: seq<Call>, f: Call -> int)
    requires |a| == |b| && forall i | 0 <= i < |a| :: f(a[i]) == f(b[i])
    ensures Total(a, f) == Total(b, f)
  {
    if a != [] { TotalOfEqual(a[..|a| - 1], b[..|a| - 1], f); }
  }

  /** A sum of non-negative terms is positive exactly when one of them is. */
  lemma {:induction false} TotalIsPositive(calls: seq<Call>, f: Call -> int)
    requires forall i | 0 <= i < |calls| :: f(calls[i]) >= 0
    ensures Total(calls, f) >= 0
    ensures Total(calls, f) > 0 <==> exists i :: 0 <= i < |calls| && f(calls[i]) > 0
  {
    if calls != [] {
      var init := calls[..|calls| - 1];
      TotalIsPositive(init, f);
      if exists i :: 0 <= i < |calls| && f(calls[i]) > 0 {
        var i :| 0 <= i < |calls| && f(calls[i]) > 0;
        assert i < |init| ==> f(init[i]) > 0;
      }
      if Total(init, f) > 0 {
        var i :| 0 <= i < |init| && f(init[i]) > 0;
        assert f(calls[i]) > 0;
      }
    }
  }

  lemma {:induction false} TotalIsBounded(calls: seq<Call>, f: Call -> int, bound: int)
    requires forall i | 0 <= i < |calls| :: f(calls[i]) <= bound
    ensures Total(calls, f) <= bound * |calls|
  {
    if calls != [] { TotalIsBounded(calls[..|calls| - 1], f, bound); }
  }
}
