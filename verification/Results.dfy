/**
 What the surroundings gave in a run, and where it went: the results of the underlying calls are returned and logged as
 they are, and the answers to the collections of socket data end up in the info fields.
 */
module Results {
  import opened Wrappers
  import opened Lifecycle
  import opened Protocol
  import opened Invariant
  import opened Reports
  import opened Ordering

  // ----- Read and Write -----

  /** What the underlying calls made for call `j` returned. */
  ghost function Given(s: State, moves: seq<Move>, j: nat): seq<(int, Option<Error>)>
    requires IsRun(s, moves)
    decreases |moves|
  {
    if moves == [] then []
    else
      var i, env := moves[0].call, moves[0].env;
      (if i == j && s.calls[i].pc == InIo then [(env.n, env.err)] else []) + Given(Step(s, i, env), moves[1..], j)
  }

  /** The result that a call has from its underlying call. */
  function Held(pc: Pc): seq<(int, Option<Error>)> {
    if pc.IoResult? || pc.IoCounted? || pc.IoReturned? then [(pc.n, pc.err)] else []
  }

  lemma HeldAfterStep(s: State, i: nat, env: Env)
    requires Enabled(s, i)
    ensures var t := Step(s, i, env);
            && |t.calls| == |s.calls|
            && Held(t.calls[i].pc) == if s.calls[i].pc == InIo then [(env.n, env.err)] else Held(s.calls[i].pc)
  {
  }

  lemma {:induction false} ResultsAreKept(s: State, moves: seq<Move>, j: nat)
    requires IsRun(s, moves) && j < |s.calls|
    ensures var t := Run(s, moves);
            |t.calls| == |s.calls| && Held(t.calls[j].pc) == Held(s.calls[j].pc) + Given(s, moves, j)
    decreases |moves|
  {
    if moves != [] {
      var i, env := moves[0].call, moves[0].env;
      HeldAfterStep(s, i, env);
      StepMovesOneCall(s, i, env);
      ResultsAreKept(Step(s, i, env), moves[1..], j);
    }
  }

  /** Each Read or Write makes one underlying call at most, and returns exactly what that returned. */
  lemma CallsReturnWhatTheyWereGiven(setup: Setup, s: State, moves: seq<Move>, j: nat)
    requires Init(setup, s) && IsRun(s, moves) && j < |s.calls|
    ensures var t := Run(s, moves);
            && |t.calls| == |s.calls|
            && Given(s, moves, j) == Held(t.calls[j].pc)
            && (t.calls[j].pc.IoReturned? ==> Given(s, moves, j) == [(t.calls[j].pc.n, t.calls[j].pc.err)])
            && (t.calls[j].pc.IoRefused? ==> Given(s, moves, j) == [])
  {
    ResultsAreKept(s, moves, j);
  }

  // ----- The log -----

  function Occurrences(log: seq<IoRecord>, dir: Direction, n: int, err: Option<Error>): nat {
    if log == [] then 0
    else
      var r := log[|log| - 1];
      Occurrences(log[..|log| - 1], dir, n, err) + if r.dir == dir && r.n == n && r.err == err then 1 else 0
  }

  function Tally(c: Call, kind: Kind, n: int, err: Option<Error>): int {
    if c.kind == kind && (c.pc.IoCounted? || c.pc.IoReturned?) && c.pc.n == n && c.pc.err == err then 1 else 0
  }

  lemma TallyAfterMove(calls: seq<Call>, i: nat, pc: Pc, kind: Kind, n: int, err: Option<Error>)
    requires i < |calls|
    ensures var calls', f := At(calls, i, pc), (c: Call) => Tally(c, kind, n, err);
            Total(Wake(calls'), f) == Total(calls', f) == Total(calls, f) - f(calls[i]) + f(calls'[i])
  {
    var calls', f := At(calls, i, pc), (c: Call) => Tally(c, kind, n, err);
    var woken := Wake(calls');
    TotalOfUpdate(calls, i, calls'[i], f);
    forall k | 0 <= k < |calls'| ensures f(calls'[k]) == f(woken[k]) {
      assert woken[k] == Woken(calls'[k]);
    }
    TotalOfEqual(calls', woken, f);
  }

  lemma OccurrencesOfAppend(log: seq<IoRecord>, r: IoRecord, dir: Direction, n: int, err: Option<Error>)
    ensures Occurrences(log + [r], dir, n, err) ==
            Occurrences(log, dir, n, err) + if r.dir == dir && r.n == n && r.err == err then 1 else 0
  {
    assert (log + [r])[..|log|] == log;
  }

  /** As often as a result is in the log, some call of that kind has it. */
  ghost predicate Agrees(s: State, kind: Kind, dir: Direction, n: int, err: Option<Error>) {
    Occurrences(s.log, dir, n, err) == Total(s.calls, (c: Call) => Tally(c, kind, n, err))
  }

  /** The log and the call that moves change alike. */
  lemma LogFollowsItsCall(s: State, i: nat, env: Env, kind: Kind, dir: Direction, n: int, err: Option<Error>)
    requires Enabled(s, i) && OfItsKind(s.calls[i])
    requires (kind == Read && dir == Rx) || (kind == Write && dir == Tx)
    ensures var t := Step(s, i, env);
            && |t.calls| == |s.calls| && t.calls[i].kind == s.calls[i].kind
            && Occurrences(t.log, dir, n, err) - Occurrences(s.log, dir, n, err) ==
               Tally(t.calls[i], kind, n, err) - Tally(s.calls[i], kind, n, err)
  {
    StepMovesOneCall(s, i, env);
    StepCounts(s, i, env);
    if s.calls[i].pc.IoResult? { OccurrencesOfAppend(s.log, RecordOf(s, i, env), dir, n, err); }
  }

  lemma AgreementAfter(s: State, i: nat, t: State, kind: Kind, dir: Direction, n: int, err: Option<Error>)
    requires i < |s.calls| == |t.calls| && Agrees(s, kind, dir, n, err)
    requires t.calls[i].kind == s.calls[i].kind
    requires t.calls == At(s.calls, i, t.calls[i].pc) || t.calls == Wake(At(s.calls, i, t.calls[i].pc))
    requires Occurrences(t.log, dir, n, err) - Occurrences(s.log, dir, n, err) ==
             Tally(t.calls[i], kind, n, err) - Tally(s.calls[i], kind, n, err)
    ensures Agrees(t, kind, dir, n, err)
  {
    TallyAfterMove(s.calls, i, t.calls[i].pc, kind, n, err);
  }

  lemma StepKeepsAgreement(s: State, i: nat, env: Env, kind: Kind, dir: Direction, n: int, err: Option<Error>)
    requires Enabled(s, i) && OfItsKind(s.calls[i]) && Agrees(s, kind, dir, n, err)
    requires (kind == Read && dir == Rx) || (kind == Write && dir == Tx)
    ensures Agrees(Step(s, i, env), kind, dir, n, err)
  {
    StepMovesOneCall(s, i, env);
    LogFollowsItsCall(s, i, env, kind, dir, n, err);
    AgreementAfter(s, i, Step(s, i, env), kind, dir, n, err);
  }

  lemma {:induction false} RunKeepsAgreement(
      base: Wrapper, s: State, moves: seq<Move>, kind: Kind, dir: Direction, n: int, err: Option<Error>)
    requires Good(base, s) && IsRun(s, moves) && Agrees(s, kind, dir, n, err)
    requires (kind == Read && dir == Rx) || (kind == Write && dir == Tx)
    ensures Agrees(Run(s, moves), kind, dir, n, err)
    decreases |moves|
  {
    if moves != [] {
      var i, env := moves[0].call, moves[0].env;
      StepKeepsAgreement(s, i, env, kind, dir, n, err);
      StepKeepsInv(s, i, env);
      StepKeepsHistory(base, s, i, env);
      StepKeepsStages(s, i, env);
      RunKeepsAgreement(base, Step(s, i, env), moves[1..], kind, dir, n, err);
    }
  }

  /** The log is the results of the counted calls: those of Read as received, those of Write as sent, each as often. */
  lemma LogHoldsTheResults(setup: Setup, s: State, moves: seq<Move>, n: int, err: Option<Error>)
    requires setup.conn.Some? && Init(setup, s) && IsRun(s, moves)
    ensures Agrees(Run(s, moves), Read, Rx, n, err) && Agrees(Run(s, moves), Write, Tx, n, err)
  {
    InitIsGood(setup, s);
    TotalIsZero(s.calls, (c: Call) => Tally(c, Read, n, err));
    TotalIsZero(s.calls, (c: Call) => Tally(c, Write, n, err));
    RunKeepsAgreement(Wrapped(setup), s, moves, Read, Rx, n, err);
    RunKeepsAgreement(Wrapped(setup), s, moves, Write, Tx, n, err);
  }

  // ----- The underlying Close and the deadlines -----

  ghost function GivenToClose(s: State, moves: seq<Move>): seq<Option<Error>>
    requires IsRun(s, moves)
    decreases |moves|
  {
    if moves == [] then []
    else
      var i, env := moves[0].call, moves[0].env;
      (if s.calls[i].pc.InfoTaken? then [env.err] else []) + GivenToClose(Step(s, i, env), moves[1..])
  }

  lemma {:induction false} ClosesAreWhatWasGiven(s: State, moves: seq<Move>)
    requires IsRun(s, moves)
    ensures Run(s, moves).closes == s.closes + GivenToClose(s, moves)
    decreases |moves|
  {
    if moves != [] {
      StepRecordsClose(s, moves[0].call, moves[0].env);
      ClosesAreWhatWasGiven(Step(s, moves[0].call, moves[0].env), moves[1..]);
    }
  }

  ghost function GivenToDeadline(s: State, moves: seq<Move>, j: nat): seq<Option<Error>>
    requires IsRun(s, moves)
    decreases |moves|
  {
    if moves == [] then []
    else
      var i, env := moves[0].call, moves[0].env;
      (if i == j && s.calls[i].pc.DeadlineLive? then [env.err] else [])
      + GivenToDeadline(Step(s, i, env), moves[1..], j)
  }

  lemma DeadlineEventOfStep(s: State, i: nat, env: Env, j: nat, err: Option<Error>)
    requires Enabled(s, i)
    ensures DeadlineSet(j, err) in EventsOf(s, i, env) <==> i == j && s.calls[i].pc.DeadlineLive? && err == env.err
  {
  }

  /** A deadline call acts as often as the connection answers it, and with that answer. */
  lemma {:induction false} DeadlinesReturnWhatWasGiven(s: State, moves: seq<Move>, j: nat, err: Option<Error>)
    requires IsRun(s, moves)
    ensures DeadlineSet(j, err) in Run(s, moves).trace <==>
            DeadlineSet(j, err) in s.trace || err in GivenToDeadline(s, moves, j)
    decreases |moves|
  {
    if moves != [] {
      var i, env := moves[0].call, moves[0].env;
      StepAddsEvents(s, i, env);
      DeadlineEventOfStep(s, i, env, j, err);
      DeadlinesReturnWhatWasGiven(Step(s, i, env), moves[1..], j, err);
    }
  }

  // ----- The answers to the collections at close -----

  /** What the sockets answered to the collections made by the owner of the close. */
  ghost function Answered(s: State, moves: seq<Move>): seq<Outcome>
    requires IsRun(s, moves)
    decreases |moves|
  {
    if moves == [] then []
    else
      var i, env := moves[0].call, moves[0].env;
      (if s.calls[i].pc == Claimed then [env.answer] else []) + Answered(Step(s, i, env), moves[1..])
  }

  predicate HasCollected(trace: seq<Event>) {
    exists e | e in trace :: e.InfoCollected?
  }

  /** What counts of an answer: nothing, if the report is not supported. */
  function Gated(supported: bool, answer: Outcome): Outcome {
    if supported then answer else SysInfo.Outcome(None, None)
  }

  lemma CollectionOfStep(s: State, i: nat, env: Env)
    requires Inv(s) && Marks(s) && Enabled(s, i)
    ensures forall e | e in EventsOf(s, i, env) && e.InfoCollected? ::
              s.calls[i].pc == Claimed && e.outcome == Gated(s.w.supportsTcpInfo, env.answer)
    ensures s.calls[i].pc == Claimed ==>
              !HasCollected(s.trace) && InfoCollected(Gated(s.w.supportsTcpInfo, env.answer)) in EventsOf(s, i, env)
  {
    assert OwnerMarks(s.w.hasCallback, s.trace, s.calls[i].pc);
  }

  /** There is one answer at most, and what was collected is that answer. */
  lemma {:induction false} CollectsOnce(s: State, moves: seq<Move>)
    requires Inv(s) && Marks(s) && IsRun(s, moves)
    ensures |Answered(s, moves)| <= 1
    ensures HasCollected(s.trace) ==> Answered(s, moves) == []
    ensures forall o | InfoCollected(o) in Run(s, moves).trace && !HasCollected(s.trace) ::
              |Answered(s, moves)| == 1 && o == Gated(s.w.supportsTcpInfo, Answered(s, moves)[0])
    decreases |moves|
  {
    if moves != [] {
      var i, env := moves[0].call, moves[0].env;
      var t := Step(s, i, env);
      StepKeepsInv(s, i, env);
      StepKeepsMarks(s, i, env);
      StepKeepsConstants(s, i, env);
      StepAddsEvents(s, i, env);
      CollectionOfStep(s, i, env);
      CollectsOnce(t, moves[1..]);
      if s.calls[i].pc == Claimed {
        OneCollection(t, moves[1..], Gated(s.w.supportsTcpInfo, env.answer));
      }
    }
  }

  /** Once something is collected, nothing else is. */
  lemma {:induction false} OneCollection(s: State, moves: seq<Move>, o: Outcome)
    requires Inv(s) && Marks(s) && IsRun(s, moves) && InfoCollected(o) in s.trace
    requires forall e | e in s.trace && e.InfoCollected? :: e == InfoCollected(o)
    ensures forall e | e in Run(s, moves).trace && e.InfoCollected? :: e == InfoCollected(o)
    decreases |moves|
  {
    if moves != [] {
      var i, env := moves[0].call, moves[0].env;
      StepKeepsInv(s, i, env);
      StepKeepsMarks(s, i, env);
      StepAddsEvents(s, i, env);
      CollectionOfStep(s, i, env);
      OneCollection(Step(s, i, env), moves[1..], o);
    }
  }

  /**
   The info fields are what the sockets answered: at open from the start, and at close once the copy is taken. On a
   wrapper that does not support the report they stay empty.
   */
  lemma InfoIsWhatWasAnswered(setup: Setup, s: State, moves: seq<Move>)
    requires setup.conn.Some? && Init(setup, s) && IsRun(s, moves)
    ensures var t, atOpen := Run(s, moves), Gated(setup.supported, setup.answer);
            && t.w.openedInfo == atOpen.info
            && if Sealed(t) then
                 && |Answered(s, moves)| == 1
                 && var atClose := Gated(setup.supported, Answered(s, moves)[0]);
                 && t.w.closedInfo == atClose.info
                 && t.w.infoErr == if atClose.info.Some? || atClose.err.Some? then atClose.err else atOpen.err
               else t.w.closedInfo == None && t.w.infoErr == atOpen.err
  {
    InfoFieldsOverRun(setup, s, moves);
    InitHasInv(setup, s);
    InitHasMarks(setup, s);
    CollectsOnce(s, moves);
  }
}
