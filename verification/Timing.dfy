/** The timestamps of a wrapper and of its report, in every run under a clock that does not go back. */
module Timing {
  import opened Lifecycle
  import opened Protocol
  import opened Invariant
  import opened Reports

  /** The clock readings of the moves start no earlier than `low` and never go back. */
  ghost predicate ClocksAdvance(moves: seq<Move>, low: int) {
    && (forall k | 0 <= k < |moves| :: low <= moves[k].env.now)
    && (forall j, k | 0 <= j < k < |moves| :: moves[j].env.now <= moves[k].env.now)
  }

  lemma ClockAdvancesAfter(log: seq<IoRecord>, r: IoRecord, openedAt: int)
    requires ClockAdvances(log, openedAt) && openedAt <= r.now && forall i | 0 <= i < |log| :: log[i].now <= r.now
    ensures ClockAdvances(log + [r], openedAt)
  {
  }

  /** The records of a run are in the order of the clock. */
  lemma {:induction false} LogFollowsClock(s: State, moves: seq<Move>, openedAt: int, low: int)
    requires IsRun(s, moves) && ClocksAdvance(moves, low) && openedAt <= low
    requires ClockAdvances(s.log, openedAt) && forall i | 0 <= i < |s.log| :: s.log[i].now <= low
    ensures ClockAdvances(Run(s, moves).log, openedAt)
    decreases |moves|
  {
    if moves != [] {
      var i, env := moves[0].call, moves[0].env;
      StepCounts(s, i, env);
      if s.calls[i].pc.IoResult? { ClockAdvancesAfter(s.log, RecordOf(s, i, env), openedAt); }
      LogFollowsClock(Step(s, i, env), moves[1..], openedAt, env.now);
    }
  }

  lemma {:induction false} ClaimIsNoEarlier(s: State, moves: seq<Move>, now: int, low: int)
    requires IsRun(s, moves) && ClaimsAt(s, moves, now) && forall k | 0 <= k < |moves| :: low <= moves[k].env.now
    ensures low <= now
    decreases |moves|
  {
    var t := Step(s, moves[0].call, moves[0].env);
    if !(t.trace == s.trace + [CloseClaimed] && moves[0].env.now == now) {
      ClaimIsNoEarlier(t, moves[1..], now, low);
    }
  }

  /** In every state of every run OpenedAt, FirstRxAt and LastRxAt are in order, and so are their Tx counterparts. */
  lemma TimesAreOrdered(setup: Setup, s: State, moves: seq<Move>)
    requires setup.conn.Some? && Init(setup, s) && IsRun(s, moves)
    requires 0 < setup.now && ClocksAdvance(moves, setup.now)
    ensures var t := Run(s, moves);
            && TimesInOrder(t.w.rx, t.log, Rx, t.w.openedAt) && TimesInOrder(t.w.tx, t.log, Tx, t.w.openedAt)
            && (if t.w.closeStarted then t.w.openedAt <= t.w.closedAt else t.w.closedAt == 0)
  {
    ReachedIsGood(setup, s, moves);
    LogFollowsClock(s, moves, setup.now, setup.now);
    TimestampsAreOrdered(Run(s, moves).log, Rx, setup.now);
    TimestampsAreOrdered(Run(s, moves).log, Tx, setup.now);
    InitHasInv(setup, s);
    ClosedAtIsTheClaim(s, moves);
    if Run(s, moves).w.closeStarted { ClaimIsNoEarlier(s, moves, Run(s, moves).w.closedAt, setup.now); }
  }

  /** So are those of the report handed over at close. */
  lemma ReportTimesAreOrdered(setup: Setup, s: State, moves: seq<Move>, r: Wrapper)
    requires setup.conn.Some? && Init(setup, s) && IsRun(s, moves) && r in Run(s, moves).reports
    requires 0 < setup.now && ClocksAdvance(moves, setup.now)
    ensures var log := Run(s, moves).log;
            && r.openedAt == setup.now <= r.closedAt
            && TimesInOrder(r.rx, log, Rx, setup.now) && TimesInOrder(r.tx, log, Tx, setup.now)
  {
    FinalReportIsComplete(setup, s, moves, r);
    ReachedIsGood(setup, s, moves);
    SealedMeansDrained(Run(s, moves));
    TimesAreOrdered(setup, s, moves);
  }
}
