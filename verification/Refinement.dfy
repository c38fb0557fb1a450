/**
 Every interleaving looks, step by step, like a run of a machine without locks, counters of calls in flight, condition
 variable or channel: it is open, closing or closed, admits I/O calls while it is open, logs the result of each admitted
 call, closes when all of them are logged, and then delivers one report made from the log and answers every Close alike.
 */
module Refinement {
  import opened Wrappers
  import opened Lifecycle
  import opened Protocol
  import opened Invariant
  import opened Reports

  // ----- The atomic machine -----

  datatype Phase = IsOpen | IsClosing | IsClosed

  datatype Totals = Totals(rx: Traffic, tx: Traffic, err: Option<Error>)

  /** How far a call has come: not begun, admitted, or told an answer. */
  datatype Answer =
    | NoAnswer
    | Pending
    | RefusedIo
    | IoAnswer(dir: Direction, n: int, ioErr: Option<Error>)
    | CloseAnswer(err: Option<Error>)

  datatype Spec = Spec(
    phase: Phase, log: seq<IoRecord>, err: Option<Error>, delivered: seq<Totals>, answers: seq<Answer>)

  /** What does not change: whether there is a callback, and what each call is. */
  datatype Config = Config(hasCallback: bool, kinds: seq<Kind>)

  function SpecInit(cfg: Config): Spec {
    Spec(IsOpen, [], None, [], seq(|cfg.kinds|, _ => NoAnswer))
  }

  function TotalsOf(a: Spec): Totals {
    Totals(Summary(a.log, Rx), Summary(a.log, Tx), a.err)
  }

  predicate IsIo(kind: Kind) {
    kind == Read || kind == Write
  }

  /** What is read is received, what is written is sent. */
  predicate Flows(kind: Kind, dir: Direction) {
    (kind == Read && dir == Rx) || (kind == Write && dir == Tx)
  }

  predicate Stands(cfg: Config, a: Spec, i: nat, x: Answer) {
    i < |cfg.kinds| == |a.answers| && a.answers[i] == x
  }

  predicate Admits(cfg: Config, a: Spec, b: Spec, i: nat) {
    && Stands(cfg, a, i, NoAnswer) && IsIo(cfg.kinds[i]) && a.phase == IsOpen
    && b == a.(answers := a.answers[i := Pending])
  }

  /** An admitted call takes effect: its result is logged and becomes its answer. */
  predicate Logs(cfg: Config, a: Spec, b: Spec, i: nat, r: IoRecord) {
    && Stands(cfg, a, i, Pending) && Flows(cfg.kinds[i], r.dir) && a.phase != IsClosed
    && b == a.(log := a.log + [r], answers := a.answers[i := IoAnswer(r.dir, r.n, r.err)])
  }

  predicate StartsClosing(a: Spec, b: Spec) {
    a.phase == IsOpen && b == a.(phase := IsClosing)
  }

  /** The close is complete when every admitted call has taken effect. */
  predicate Seals(a: Spec, b: Spec) {
    a.phase == IsClosing && Pending !in a.answers && b == a.(phase := IsClosed, err := b.err)
  }

  predicate Delivers(cfg: Config, a: Spec, b: Spec) {
    cfg.hasCallback && a.phase == IsClosed && a.delivered == [] && b == a.(delivered := [TotalsOf(a)])
  }

  predicate TurnsAway(cfg: Config, a: Spec, b: Spec, i: nat) {
    && Stands(cfg, a, i, NoAnswer) && IsIo(cfg.kinds[i]) && a.phase != IsOpen
    && b == a.(answers := a.answers[i := RefusedIo])
  }

  predicate AnswersClose(cfg: Config, a: Spec, b: Spec, i: nat) {
    && Stands(cfg, a, i, NoAnswer) && cfg.kinds[i] == Close
    && a.phase == IsClosed && (cfg.hasCallback ==> a.delivered != [])
    && b == a.(answers := a.answers[i := CloseAnswer(a.err)])
  }

  ghost predicate SpecNext(cfg: Config, a: Spec, b: Spec) {
    || (exists i: nat, r :: Logs(cfg, a, b, i, r))
    || StartsClosing(a, b) || Seals(a, b) || Delivers(cfg, a, b)
    || (exists i: nat :: Admits(cfg, a, b, i) || TurnsAway(cfg, a, b, i) || AnswersClose(cfg, a, b, i))
  }

  ghost predicate SpecPath(cfg: Config, path: seq<Spec>) {
    forall k | 0 <= k < |path| - 1 :: path[k] == path[k + 1] || SpecNext(cfg, path[k], path[k + 1])
  }

  // ----- What a state of the protocol looks like from outside -----

  /** A call has its answer from the section that decides it, even if it returns later. */
  function AnswerOf(c: Call): Answer {
    match c.pc
    case InIo => Pending
    case IoResult(_, _) => Pending
    case IoRefused => RefusedIo
    case IoCounted(n, err) => IoAnswer(DirectionOf(c.kind), n, err)
    case IoReturned(n, err) => IoAnswer(DirectionOf(c.kind), n, err)
    case CloseReturned(err) => CloseAnswer(err)
    case _ => NoAnswer
  }

  function AnswersOf(calls: seq<Call>): (r: seq<Answer>)
    ensures |r| == |calls| && forall i | 0 <= i < |calls| :: r[i] == AnswerOf(calls[i])
  {
    seq(|calls|, i requires 0 <= i < |calls| => AnswerOf(calls[i]))
  }

  function KindsOf(calls: seq<Call>): (r: seq<Kind>)
    ensures |r| == |calls| && forall i | 0 <= i < |calls| :: r[i] == calls[i].kind
  {
    seq(|calls|, i requires 0 <= i < |calls| => calls[i].kind)
  }

  function ConfigOf(s: State): Config {
    Config(s.w.hasCallback, KindsOf(s.calls))
  }

  ghost function PhaseOf(s: State): Phase {
    if Sealed(s) then IsClosed else if s.w.closeDone != NilChannel then IsClosing else IsOpen
  }

  function ShownBy(r: Wrapper): Totals {
    Totals(r.rx, r.tx, r.closeErr)
  }

  function DeliveredOf(reports: seq<Wrapper>): (r: seq<Totals>)
    ensures |r| == |reports| && forall i | 0 <= i < |reports| :: r[i] == ShownBy(reports[i])
  {
    seq(|reports|, i requires 0 <= i < |reports| => ShownBy(reports[i]))
  }

  ghost function Abs(s: State): Spec {
    Spec(PhaseOf(s), s.log, if Sealed(s) then s.w.closeErr else None, DeliveredOf(s.reports), AnswersOf(s.calls))
  }

  // ----- The correspondence of one step -----

  lemma AnswersAfter(calls: seq<Call>, i: nat, pc: Pc)
    requires i < |calls|
    ensures AnswersOf(At(calls, i, pc)) == AnswersOf(calls)[i := AnswerOf(calls[i].(pc := pc))]
    ensures AnswersOf(Wake(At(calls, i, pc))) == AnswersOf(calls)[i := AnswerOf(calls[i].(pc := pc))]
    ensures KindsOf(At(calls, i, pc)) == KindsOf(calls) == KindsOf(Wake(At(calls, i, pc)))
  {
  }

  lemma StepKeepsConfig(s: State, i: nat, env: Env)
    requires Enabled(s, i)
    ensures ConfigOf(Step(s, i, env)) == ConfigOf(s)
    ensures var t := Step(s, i, env);
            |t.calls| == |s.calls| && AnswersOf(t.calls) == AnswersOf(s.calls)[i := AnswerOf(t.calls[i])]
  {
    StepMovesOneCall(s, i, env);
    StepKeepsConstants(s, i, env);
    AnswersAfter(s.calls, i, Step(s, i, env).calls[i].pc);
  }

  /** How the answer `x` of a call may change to `y` in a step. */
  predicate AnswerMoves(s: State, c: Call, x: Answer, y: Answer) {
    match y
    case NoAnswer => x == NoAnswer
    case Pending => x == Pending || (x == NoAnswer && c.pc == Start && IsIo(c.kind) && !Refuses(s.w))
    case RefusedIo => x == NoAnswer && c.pc == Start && IsIo(c.kind) && Refuses(s.w)
    case IoAnswer(_, _, _) => y == x || (x == Pending && c.pc.IoResult?)
    case CloseAnswer(err) =>
      && x == NoAnswer
      && (|| (c.pc.CallbackOver? && err == c.pc.closeErr) || (c.pc.SawDone? && err == s.w.closeErr)
          || (c.pc == Start && s.w.closeDone == NilChannel && s.w.conn == None))
  }

  lemma StepAnswers(s: State, i: nat, env: Env)
    requires Enabled(s, i)
    ensures var t := Step(s, i, env);
            |t.calls| == |s.calls| && AnswerMoves(s, s.calls[i], AnswerOf(s.calls[i]), AnswerOf(t.calls[i]))
  {
  }

  lemma DeliveredAfter(reports: seq<Wrapper>, r: Wrapper)
    ensures DeliveredOf(reports + [r]) == DeliveredOf(reports) + [ShownBy(r)]
  {
  }

  /** After the copy: the report is delivered, calls are answered, or nothing visible happens. */
  lemma SealedStepRefines(base: Wrapper, s: State, i: nat, env: Env)
    requires Good(base, s) && Sealed(s) && Enabled(s, i)
    ensures var a, b := Abs(s), Abs(Step(s, i, env)); a == b || SpecNext(ConfigOf(s), a, b)
  {
    SealedStaysSealed(s, i, env);
    SealedMeansDrained(s);
    StepKeepsConfig(s, i, env);
    StepAnswers(s, i, env);
    StepRecordsClose(s, i, env);
    KindFollowsStep(s, i, env);
    assert Local(s.w, s.calls[i].pc) && AtStage(s, s.calls[i].pc);
    SealedVisible(s, i, Step(s, i, env));
  }

  lemma SealedVisible(s: State, i: nat, t: State)
    requires Sealed(s) && Sealed(t) && Inv(s) && Stages(s) && Refuses(s.w) && i < |s.calls| == |t.calls|
    requires s.w.rx == Summary(s.log, Rx) && s.w.tx == Summary(s.log, Tx)
    requires t.log == s.log && t.w.closeErr == s.w.closeErr && ConfigOf(t) == ConfigOf(s)
    requires AnswersOf(t.calls) == AnswersOf(s.calls)[i := AnswerOf(t.calls[i])]
    requires !Flying(s.calls[i].pc) && OfItsKind(t.calls[i])
    requires AnswerMoves(s, s.calls[i], AnswerOf(s.calls[i]), AnswerOf(t.calls[i]))
    requires if s.calls[i].pc.Settled? && s.w.hasCallback then t.reports == s.reports + [s.calls[i].pc.report]
             else t.reports == s.reports
    ensures var a, b := Abs(s), Abs(t); a == b || SpecNext(ConfigOf(s), a, b)
  {
    var a, b := Abs(s), Abs(t);
    var pc := s.calls[i].pc;
    assert Local(s.w, pc) && AtStage(s, pc) && t.calls[i].kind == KindsOf(t.calls)[i] == KindsOf(s.calls)[i];
    if pc.Settled? && s.w.hasCallback {
      DeliveredAfter([], pc.report);
      assert AnswersOf(t.calls) == AnswersOf(s.calls);
      assert Delivers(ConfigOf(s), a, b);
    } else if AnswerOf(t.calls[i]) == AnswerOf(s.calls[i]) {
      assert AnswersOf(t.calls) == AnswersOf(s.calls);
    } else if AnswerOf(t.calls[i]) == RefusedIo {
      assert TurnsAway(ConfigOf(s), a, b, i);
    } else {
      assert AnswersClose(ConfigOf(s), a, b, i);
    }
  }

  /** Before the copy: calls are admitted, logged or refused, the close starts or seals, or nothing visible happens. */
  lemma UnsealedStepRefines(base: Wrapper, s: State, i: nat, env: Env)
    requires Good(base, s) && !Sealed(s) && Enabled(s, i)
    ensures var a, b := Abs(s), Abs(Step(s, i, env)); a == b || SpecNext(ConfigOf(s), a, b)
  {
    var t := Step(s, i, env);
    StepKeepsConfig(s, i, env);
    StepAnswers(s, i, env);
    StepRecordsClose(s, i, env);
    StepMovesChannel(s, i, env);
    StepCounts(s, i, env);
    StepMovesOneCall(s, i, env);
    assert Local(s.w, s.calls[i].pc) && AtStage(s, s.calls[i].pc);
    assert !AfterSnapshot(s.calls[i].pc);
    SealedByItsCall(s, i, t);
    SealingStep(s, i, env);
    assert OfItsKind(s.calls[i]);
    if s.calls[i].pc.IoResult? { assert Appends(s, i, t, RecordOf(s, i, env)); }
    UnsealedVisible(s, i, t);
  }

  /** The copy is taken by the closer, when nothing is in flight. */
  lemma SealingStep(s: State, i: nat, env: Env)
    requires Enabled(s, i) && !AfterSnapshot(s.calls[i].pc)
    ensures var t := Step(s, i, env);
            && |t.calls| == |s.calls|
            && (AfterSnapshot(t.calls[i].pc) ==> Draining(s.calls[i].pc) && s.w.inFlight <= 0)
  {
    if !Draining(s.calls[i].pc) { OthersLeaveInfo(s, i, env); }
  }

  lemma DrainedMeansLogged(s: State)
    requires Inv(s) && s.w.inFlight <= 0
    ensures Pending !in AnswersOf(s.calls)
  {
    InFlightMeansFlying(s.w, s.calls);
  }

  predicate Appends(s: State, i: nat, t: State, r: IoRecord)
    requires i < |s.calls| == |t.calls|
  {
    && t.log == s.log + [r] && Flows(s.calls[i].kind, r.dir)
    && AnswerOf(t.calls[i]) == IoAnswer(r.dir, r.n, r.err)
  }

  lemma UnsealedVisible(s: State, i: nat, t: State)
    requires !Sealed(s) && Inv(s) && i < |s.calls| == |t.calls| && t.reports == s.reports && ConfigOf(t) == ConfigOf(s)
    requires AnswersOf(t.calls) == AnswersOf(s.calls)[i := AnswerOf(t.calls[i])]
    requires AnswerMoves(s, s.calls[i], AnswerOf(s.calls[i]), AnswerOf(t.calls[i]))
    requires Sealed(t) <==> AfterSnapshot(t.calls[i].pc)
    requires AfterSnapshot(t.calls[i].pc) ==> Draining(s.calls[i].pc) && s.w.inFlight <= 0
    requires t.w.closeDone == s.w.closeDone || Claims(s, i, t)
    requires if s.calls[i].pc.IoResult? then exists r :: Appends(s, i, t, r) else t.log == s.log
    ensures var a, b := Abs(s), Abs(t); a == b || SpecNext(ConfigOf(s), a, b)
  {
    var a, b, cfg := Abs(s), Abs(t), ConfigOf(s);
    assert Local(s.w, s.calls[i].pc);
    if s.calls[i].pc.IoResult? {
      var r :| Appends(s, i, t, r);
      assert Logs(cfg, a, b, i, r);
    } else if AnswerOf(t.calls[i]) != AnswerOf(s.calls[i]) {
      assert Admits(cfg, a, b, i) || TurnsAway(cfg, a, b, i);
    } else {
      assert AnswersOf(t.calls) == AnswersOf(s.calls);
      if Sealed(t) {
        DrainedMeansLogged(s);
        assert Seals(a, b);
      } else if t.w.closeDone != s.w.closeDone {
        assert StartsClosing(a, b);
      }
    }
  }

  /** Every step of the protocol is a step of the atomic machine, or invisible. */
  lemma StepRefines(base: Wrapper, s: State, i: nat, env: Env)
    requires Good(base, s) && Enabled(s, i)
    ensures var a, b := Abs(s), Abs(Step(s, i, env)); a == b || SpecNext(ConfigOf(s), a, b)
  {
    if Sealed(s) { SealedStepRefines(base, s, i, env); } else { UnsealedStepRefines(base, s, i, env); }
  }

  // ----- Runs -----

  /** The states of a run as seen from outside. */
  ghost function PathOf(s: State, moves: seq<Move>): seq<Spec>
    requires IsRun(s, moves)
    decreases |moves|
  {
    if moves == [] then [Abs(s)] else [Abs(s)] + PathOf(Step(s, moves[0].call, moves[0].env), moves[1..])
  }

  lemma {:induction false} PathRefines(base: Wrapper, s: State, moves: seq<Move>)
    requires Good(base, s) && IsRun(s, moves)
    ensures var path := PathOf(s, moves);
            && |path| == |moves| + 1 && path[0] == Abs(s) && path[|moves|] == Abs(Run(s, moves))
            && SpecPath(ConfigOf(s), path)
    decreases |moves|
  {
    if moves != [] {
      var i, env := moves[0].call, moves[0].env;
      var t := Step(s, i, env);
      StepRefines(base, s, i, env);
      StepKeepsConfig(s, i, env);
      StepKeepsInv(s, i, env);
      StepKeepsHistory(base, s, i, env);
      StepKeepsStages(s, i, env);
      PathRefines(base, t, moves[1..]);
      PathExtends(ConfigOf(s), Abs(s), PathOf(t, moves[1..]));
    }
  }

  lemma PathExtends(cfg: Config, a: Spec, path: seq<Spec>)
    requires SpecPath(cfg, path) && path != [] && (a == path[0] || SpecNext(cfg, a, path[0]))
    ensures SpecPath(cfg, [a] + path)
  {
    var longer := [a] + path;
    forall k | 0 <= k < |longer| - 1
      ensures longer[k] == longer[k + 1] || SpecNext(cfg, longer[k], longer[k + 1])
    {
      if k > 0 { assert longer[k] == path[k - 1] && longer[k + 1] == path[k]; }
    }
  }

  /** Every run of every set of calls on a wrapped connection is, seen from outside, a run of the atomic machine. */
  lemma EveryRunRefines(setup: Setup, s: State, moves: seq<Move>)
    requires setup.conn.Some? && Init(setup, s) && IsRun(s, moves)
    ensures var path := PathOf(s, moves);
            path != [] && path[0] == SpecInit(ConfigOf(s)) && SpecPath(ConfigOf(s), path)
  {
    InitIsGood(setup, s);
    PathRefines(Wrapped(setup), s, moves);
    assert AnswersOf(s.calls) == SpecInit(ConfigOf(s)).answers;
    assert !Sealed(s);
  }

  // ----- What the atomic machine guarantees -----

  function AnsweredBytes(answers: seq<Answer>, dir: Direction): int {
    if answers == [] then 0
    else
      var last := answers[|answers| - 1];
      AnsweredBytes(answers[..|answers| - 1], dir) + if last.IoAnswer? && last.dir == dir then last.n else 0
  }

  lemma {:induction false} AnsweredBytesOfUpdate(answers: seq<Answer>, i: nat, x: Answer, dir: Direction)
    requires i < |answers| && !answers[i].IoAnswer?
    ensures AnsweredBytes(answers[i := x], dir) ==
            AnsweredBytes(answers, dir) + if x.IoAnswer? && x.dir == dir then x.n else 0
  {
    var last := |answers| - 1;
    if i == last {
      assert answers[i := x][..last] == answers[..last];
    } else {
      AnsweredBytesOfUpdate(answers[..last], i, x, dir);
      assert answers[i := x][..last] == answers[..last][i := x];
    }
  }

  lemma {:induction false} NothingAnswered(answers: seq<Answer>, dir: Direction)
    requires forall i | 0 <= i < |answers| :: answers[i] == NoAnswer
    ensures AnsweredBytes(answers, dir) == 0
  {
    if answers != [] { NothingAnswered(answers[..|answers| - 1], dir); }
  }

  /** The bytes logged are those the calls were told of. */
  predicate Conserves(a: Spec, dir: Direction) {
    TotalBytes(a.log, dir) == AnsweredBytes(a.answers, dir)
  }

  lemma NextConserves(cfg: Config, a: Spec, b: Spec, dir: Direction)
    requires SpecNext(cfg, a, b) && Conserves(a, dir)
    ensures Conserves(b, dir)
  {
    if i: nat, r :| Logs(cfg, a, b, i, r) {
      AnsweredBytesOfUpdate(a.answers, i, IoAnswer(r.dir, r.n, r.err), dir);
      TotalBytesOfAppend(a.log, r, dir);
    } else if i: nat :| Admits(cfg, a, b, i) || TurnsAway(cfg, a, b, i) || AnswersClose(cfg, a, b, i) {
      AnsweredBytesOfUpdate(a.answers, i, b.answers[i], dir);
    }
  }

  /**
   One report, made from the whole log when every admitted call is in it; one answer for every Close; and every call
   is answered as its kind is.
   */
  predicate SpecOk(cfg: Config, a: Spec) {
    && |a.answers| == |cfg.kinds|
    && (a.phase == IsClosed ==> Pending !in a.answers)
    && (a.delivered != [] ==> a.phase == IsClosed && cfg.hasCallback && a.delivered == [TotalsOf(a)])
    && forall i | 0 <= i < |a.answers| :: AnswerOk(cfg.kinds[i], a, a.answers[i])
  }

  predicate AnswerOk(kind: Kind, a: Spec, x: Answer) {
    match x
    case NoAnswer => true
    case Pending => IsIo(kind)
    case RefusedIo => IsIo(kind) && a.phase != IsOpen
    case IoAnswer(dir, _, _) => (kind == Read && dir == Rx) || (kind == Write && dir == Tx)
    case CloseAnswer(err) => kind == Close && a.phase == IsClosed && err == a.err
  }

  lemma NextIsOk(cfg: Config, a: Spec, b: Spec)
    requires SpecNext(cfg, a, b) && SpecOk(cfg, a)
    ensures SpecOk(cfg, b)
  {
  }

  /** The machine keeps these promises on every path, and loses or makes up no byte. */
  lemma {:induction false} SpecPathIsOk(cfg: Config, path: seq<Spec>, k: nat)
    requires k < |path| && path[0] == SpecInit(cfg) && SpecPath(cfg, path)
    ensures SpecOk(cfg, path[k]) && Conserves(path[k], Rx) && Conserves(path[k], Tx)
  {
    if k == 0 {
      NothingAnswered(path[0].answers, Rx);
      NothingAnswered(path[0].answers, Tx);
    } else {
      SpecPathIsOk(cfg, path, k - 1);
      assert path[k - 1] == path[k - 1 + 1] || SpecNext(cfg, path[k - 1], path[k]);
      if path[k] != path[k - 1] {
        NextIsOk(cfg, path[k - 1], path[k]);
        NextConserves(cfg, path[k - 1], path[k], Rx);
        NextConserves(cfg, path[k - 1], path[k], Tx);
      }
    }
  }

  /** The machine is not open, and call `i` was not admitted while it was. */
  predicate TooLate(a: Spec, i: nat) {
    a.phase != IsOpen && i < |a.answers| && a.answers[i] != Pending && !a.answers[i].IoAnswer?
  }

  lemma NextKeepsTooLate(cfg: Config, a: Spec, b: Spec, i: nat)
    requires SpecNext(cfg, a, b) && TooLate(a, i)
    ensures TooLate(b, i)
  {
  }

  /** A call that is not admitted while the machine is open is never logged. */
  lemma {:induction false} LateCallsAreNotLogged(cfg: Config, path: seq<Spec>, j: nat, k: nat, i: nat)
    requires j <= k < |path| && SpecPath(cfg, path) && TooLate(path[j], i)
    ensures TooLate(path[k], i)
  {
    if j < k {
      LateCallsAreNotLogged(cfg, path, j, k - 1, i);
      assert path[k - 1] == path[k - 1 + 1] || SpecNext(cfg, path[k - 1], path[k]);
      if path[k] != path[k - 1] { NextKeepsTooLate(cfg, path[k - 1], path[k], i); }
    }
  }
}
