/**
 A wrapper without a connection on which no close was ever claimed: one built on nil, or the copy handed to the
 callback at close. Nothing that is called on it, in any interleaving, has an effect.
 */
module Inert {
  import opened Wrappers
  import opened Lifecycle
  import opened Protocol

  predicate Lifeless(w: Wrapper) {
    w.conn == None && w.closeDone == NilChannel
  }

  /** The only places where a call on such a wrapper can stand. */
  predicate TurnedAway(w: Wrapper, pc: Pc) {
    || pc == Start || pc == IoRefused
    || pc == CloseReturned(Some(RefusalOf(w))) || pc == DeadlineReturned(Some(RefusalOf(w)))
  }

  predicate IsRefusal(e: Event) {
    e.Refused? || e.CloseReturns? || e.DeadlineRefused?
  }

  /** Nothing but refusals happened after `opening`. */
  predicate OnlyRefusals(opening: seq<Event>, trace: seq<Event>) {
    opening <= trace && forall k | |opening| <= k < |trace| :: IsRefusal(trace[k])
  }

  ghost predicate Untouched(w: Wrapper, opening: seq<Event>, s: State) {
    && s.w == w && s.log == [] && s.closes == [] && s.reports == [] && OnlyRefusals(opening, s.trace)
    && forall i | 0 <= i < |s.calls| :: TurnedAway(w, s.calls[i].pc)
  }

  lemma StepKeepsUntouched(w: Wrapper, opening: seq<Event>, s: State, i: nat, env: Env)
    requires Lifeless(w) && Untouched(w, opening, s) && Enabled(s, i)
    ensures Untouched(w, opening, Step(s, i, env))
  {
    assert TurnedAway(w, s.calls[i].pc);
  }

  /**
   Whatever is called on a lifeless wrapper, in whatever order: its fields stay as they are, no connection is used or
   closed, no callback runs, the missing condition variable and channel are not used, I/O is refused, and Close and
   the deadline calls return its close error, or that the connection is closed.
   */
  lemma {:induction false} LifelessIsInert(w: Wrapper, opening: seq<Event>, s: State, moves: seq<Move>)
    requires Lifeless(w) && Untouched(w, opening, s) && IsRun(s, moves)
    ensures Untouched(w, opening, Run(s, moves))
    decreases |moves|
  {
    if moves != [] {
      StepKeepsUntouched(w, opening, s, moves[0].call, moves[0].env);
      LifelessIsInert(w, opening, Step(s, moves[0].call, moves[0].env), moves[1..]);
    }
  }

  /** The copy handed to the callback at close is inert. */
  lemma SnapshotIsInert(w: Wrapper, calls: seq<Call>, moves: seq<Move>)
    requires var s := State(Snapshot(w), calls, [], [], [], []); NoneBegun(calls) && IsRun(s, moves)
    ensures var s := State(Snapshot(w), calls, [], [], [], []); Untouched(Snapshot(w), [], Run(s, moves))
  {
    LifelessIsInert(Snapshot(w), [], State(Snapshot(w), calls, [], [], [], []), moves);
  }

  /** So is a wrapper built on nil: all its Close calls return that the connection is closed. */
  lemma WrapperOfNilIsInert(setup: Setup, s: State, moves: seq<Move>, i: nat)
    requires setup.conn == None && Init(setup, s) && IsRun(s, moves) && i < |Run(s, moves).calls|
    ensures var t := Run(s, moves);
            && t.w == s.w && t.closes == [] && t.reports == []
            && (t.calls[i].pc.CloseReturned? ==> t.calls[i].pc.closeErr == Some(ERR_CLOSED))
  {
    LifelessIsInert(s.w, s.trace, s, moves);
    assert TurnedAway(s.w, Run(s, moves).calls[i].pc);
  }
}
