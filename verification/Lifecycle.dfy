/**
 The connection wrapper as a value (wrap.go): its fields, and what each section that holds the mutex does to them.
 The class `Conn` performs these sections in place; the protocol interleaves them.
 */
module Lifecycle {
  import opened Wrappers
  import SysInfo

  type InfoValue = SysInfo.InfoValue
  type Outcome = SysInfo.Outcome<InfoValue>

  /** An underlying connection. */
  type ConnId = nat

  /** `net.ErrClosed`, itself a `net.Error` that is no timeout. */
  const ERR_CLOSED := Error(0, true, false)

  /** The counters of one direction: FirstRxAt, LastRxAt, RxBytes and RxErr, or their Tx counterparts. */
  datatype Traffic = Traffic(firstAt: int, lastAt: int, bytes: int, err: Option<Error>)

  const NO_TRAFFIC := Traffic(0, 0, 0, None)

  datatype Channel = NilChannel | OpenChannel | ClosedChannel

  datatype Wrapper = Wrapper(
    conn: Option<ConnId>, hasCallback: bool, supportsTcpInfo: bool, hasCond: bool,
    openedAt: int, closedAt: int, rx: Traffic, tx: Traffic,
    infoErr: Option<Error>, openedInfo: Option<InfoValue>, closedInfo: Option<InfoValue>,
    closeStarted: bool, closeDone: Channel, closeErr: Option<Error>, inFlight: int)

  // ----- Counting one read or write -----

  /** int64 arithmetic wraps around. */
  function Wrap64(n: int): int {
    (n + 0x8000_0000_0000_0000) % 0x1_0000_0000_0000_0000 - 0x8000_0000_0000_0000
  }

  /** The section after the underlying call returned `n` and `err`; `now` is the clock. */
  function Recorded(t: Traffic, n: int, err: Option<Error>, now: int): Traffic {
    var timed :=
      if err == None && n > 0 then
        if t.firstAt == 0 then t.(firstAt := now, lastAt := now) else t.(lastAt := now)
      else t;
    var counted := timed.(bytes := Wrap64(timed.bytes + n));
    if err.Some? && err.value.isNetError && !err.value.isTimeout then counted.(err := err) else counted
  }

  // ----- The sections -----

  predicate Refuses(w: Wrapper) {
    w.closeStarted || w.conn == None
  }

  function BeginIo(w: Wrapper): Wrapper {
    if Refuses(w) then w else w.(inFlight := w.inFlight + 1)
  }

  /** Whether the last in-flight call wakes the closer. */
  predicate Broadcasts(w: Wrapper) {
    w.closeStarted && w.inFlight - 1 == 0
  }

  function FinishIo(w: Wrapper): Wrapper {
    w.(inFlight := if w.inFlight - 1 < 0 then 0 else w.inFlight - 1)
  }

  /** The error of a deadline call that finds the wrapper closed. */
  function RefusalOf(w: Wrapper): Error {
    if w.closeErr.Some? then w.closeErr.value else ERR_CLOSED
  }

  function ClaimClose(w: Wrapper, now: int): Wrapper {
    w.(closeStarted := true, closedAt := now, closeDone := OpenChannel)
  }

  function PublishClose(w: Wrapper, err: Option<Error>): Wrapper {
    w.(closeErr := err, conn := None)
  }

  datatype Stage = Opened | Closed

  function ApplyInfo(w: Wrapper, stage: Stage, outcome: Outcome): Wrapper {
    var stored :=
      if outcome.info == None then w
      else if stage == Opened then w.(openedInfo := outcome.info)
      else w.(closedInfo := outcome.info);
    if outcome.info.Some? || outcome.err.Some? then stored.(infoErr := outcome.err) else stored
  }

  /** The detached copy: no connection, no callback, no condition variable, no channel, nothing in flight. */
  function Snapshot(w: Wrapper): Wrapper {
    w.(conn := None, hasCallback := false, hasCond := false, closeDone := NilChannel, inFlight := 0)
  }

  /** A new wrapper, before the open-time report is applied. */
  function Fresh(conn: Option<ConnId>, hasCallback: bool, supported: bool, now: int): Wrapper {
    Wrapper(conn, hasCallback, supported, true, now, 0, NO_TRAFFIC, NO_TRAFFIC, None, None, None,
            false, NilChannel, None, 0)
  }

  /** A collection attempt on a wrapper that does not support it yields nothing. */
  function Collected(w: Wrapper, answer: Outcome): Outcome {
    if w.supportsTcpInfo then answer else SysInfo.Outcome(None, None)
  }

  function Wrap(conn: Option<ConnId>, hasCallback: bool, supported: bool, now: int, answer: Outcome): Wrapper {
    var w := Fresh(conn, hasCallback, supported, now);
    ApplyInfo(w, Opened, Collected(w, answer))
  }

  // ----- Counters as a summary of the results, in the order of the sections -----

  datatype Direction = Rx | Tx

  /** What one call contributed: the result of the underlying call and the clock of its section. */
  datatype IoRecord = IoRecord(dir: Direction, n: int, err: Option<Error>, now: int)

  function CountRecord(w: Wrapper, r: IoRecord): Wrapper {
    if r.dir == Rx then w.(rx := Recorded(w.rx, r.n, r.err, r.now)) else w.(tx := Recorded(w.tx, r.n, r.err, r.now))
  }

  /** The counters of a direction after a history of records. */
  function Summary(log: seq<IoRecord>, dir: Direction): Traffic {
    if log == [] then NO_TRAFFIC
    else
      var r := log[|log| - 1];
      var before := Summary(log[..|log| - 1], dir);
      if r.dir == dir then Recorded(before, r.n, r.err, r.now) else before
  }

  lemma SummaryOfAppend(log: seq<IoRecord>, r: IoRecord, dir: Direction)
    ensures Summary(log + [r], dir) ==
            if r.dir == dir then Recorded(Summary(log, dir), r.n, r.err, r.now) else Summary(log, dir)
  {
    assert (log + [r])[..|log|] == log;
  }

  lemma SummariesOfCount(w: Wrapper, log: seq<IoRecord>, r: IoRecord)
    requires w.rx == Summary(log, Rx) && w.tx == Summary(log, Tx)
    ensures var w' := CountRecord(w, r); w'.rx == Summary(log + [r], Rx) && w'.tx == Summary(log + [r], Tx)
  {
    SummaryOfAppend(log, r, Rx);
    SummaryOfAppend(log, r, Tx);
  }

  function BytesOf(r: IoRecord, dir: Direction): int {
    if r.dir == dir then r.n else 0
  }

  function TotalBytes(log: seq<IoRecord>, dir: Direction): int {
    if log == [] then 0 else TotalBytes(log[..|log| - 1], dir) + BytesOf(log[|log| - 1], dir)
  }

  lemma TotalBytesOfAppend(log: seq<IoRecord>, r: IoRecord, dir: Direction)
    ensures TotalBytes(log + [r], dir) == TotalBytes(log, dir) + BytesOf(r, dir)
  {
    assert (log + [r])[..|log|] == log;
  }

  /** An error-free, non-empty transfer: the only kind that sets a timestamp. */
  predicate Succeeds(r: IoRecord, dir: Direction) {
    r.dir == dir && r.err == None && r.n > 0
  }

  predicate Fails(r: IoRecord, dir: Direction) {
    r.dir == dir && r.err.Some? && r.err.value.isNetError && !r.err.value.isTimeout
  }

  /** Wrapping may be postponed to the end of a sum. */
  lemma WrapLater(a: int, n: int)
    ensures Wrap64(Wrap64(a) + n) == Wrap64(a + n)
  {
  }

  lemma WrapInRange(n: int)
    ensures -0x8000_0000_0000_0000 <= n < 0x8000_0000_0000_0000 ==> Wrap64(n) == n
  {
  }

  /** The byte counter is the sum of every record, failing ones included, modulo 64 bits. */
  lemma {:induction false} BytesAreTheSum(log: seq<IoRecord>, dir: Direction)
    ensures Summary(log, dir).bytes == Wrap64(TotalBytes(log, dir))
    ensures -0x8000_0000_0000_0000 <= TotalBytes(log, dir) < 0x8000_0000_0000_0000 ==>
              Summary(log, dir).bytes == TotalBytes(log, dir)
  {
    if log != [] {
      BytesAreTheSum(log[..|log| - 1], dir);
      WrapLater(TotalBytes(log[..|log| - 1], dir), log[|log| - 1].n);
      if log[|log| - 1].dir != dir { WrapInRange(Summary(log, dir).bytes); }
    }
    WrapInRange(TotalBytes(log, dir));
  }

  predicate IsLastSuccess(log: seq<IoRecord>, dir: Direction, i: int) {
    0 <= i < |log| && Succeeds(log[i], dir) && forall j | i < j < |log| :: !Succeeds(log[j], dir)
  }

  /** The first success whose clock does not read zero, which the code takes for no timestamp. */
  predicate IsFirstSuccess(log: seq<IoRecord>, dir: Direction, i: int) {
    && 0 <= i < |log| && Succeeds(log[i], dir) && log[i].now != 0
    && forall j | 0 <= j < i :: Succeeds(log[j], dir) ==> log[j].now == 0
  }

  predicate IsLastFailure(log: seq<IoRecord>, dir: Direction, i: int) {
    0 <= i < |log| && Fails(log[i], dir) && forall j | i < j < |log| :: !Fails(log[j], dir)
  }

  /** LastRxAt is the clock of the last successful record, zero when there was none. */
  lemma {:induction false} LastAtIsTheLastSuccess(log: seq<IoRecord>, dir: Direction)
    ensures var t := Summary(log, dir);
            || (t.lastAt == 0 && forall i | 0 <= i < |log| :: !Succeeds(log[i], dir))
            || exists i :: IsLastSuccess(log, dir, i) && t.lastAt == log[i].now
  {
    if log != [] {
      var before, last := log[..|log| - 1], |log| - 1;
      LastAtIsTheLastSuccess(before, dir);
      if Succeeds(log[last], dir) {
        assert IsLastSuccess(log, dir, last);
      } else if i :| IsLastSuccess(before, dir, i) && Summary(before, dir).lastAt == before[i].now {
        assert IsLastSuccess(log, dir, i);
      }
    }
  }

  /** FirstRxAt is the clock of the first successful record that read a non-zero clock, zero when there was none. */
  lemma {:induction false} FirstAtIsTheFirstSuccess(log: seq<IoRecord>, dir: Direction)
    ensures var t := Summary(log, dir);
            || (t.firstAt == 0 && forall i | 0 <= i < |log| :: Succeeds(log[i], dir) ==> log[i].now == 0)
            || exists i :: IsFirstSuccess(log, dir, i) && t.firstAt == log[i].now
  {
    if log != [] {
      var before, last := log[..|log| - 1], |log| - 1;
      FirstAtIsTheFirstSuccess(before, dir);
      if i :| IsFirstSuccess(before, dir, i) && Summary(before, dir).firstAt == before[i].now {
        assert IsFirstSuccess(log, dir, i);
      } else if Succeeds(log[last], dir) && log[last].now != 0 {
        assert IsFirstSuccess(log, dir, last);
      }
    }
  }

  /** RxErr is the error of the last record that failed with a `net.Error` other than a timeout. */
  lemma {:induction false} ErrIsTheLastFailure(log: seq<IoRecord>, dir: Direction)
    ensures var t := Summary(log, dir);
            || (t.err == None && forall i | 0 <= i < |log| :: !Fails(log[i], dir))
            || exists i :: IsLastFailure(log, dir, i) && t.err == log[i].err
  {
    if log != [] {
      var before, last := log[..|log| - 1], |log| - 1;
      ErrIsTheLastFailure(before, dir);
      if Fails(log[last], dir) {
        assert IsLastFailure(log, dir, last);
      } else if i :| IsLastFailure(before, dir, i) && Summary(before, dir).err == before[i].err {
        assert IsLastFailure(log, dir, i);
      }
    }
  }

  /** The sections that read the clock: those of a successful transfer, in either direction. */
  predicate Timed(r: IoRecord) {
    Succeeds(r, r.dir)
  }

  /** The clock readings are positive, start no earlier than `openedAt` and never go back. */
  predicate ClockAdvances(log: seq<IoRecord>, openedAt: int) {
    && 0 < openedAt
    && (forall i | 0 <= i < |log| && Timed(log[i]) :: openedAt <= log[i].now)
    && (forall i, j | 0 <= i < j < |log| && Timed(log[i]) && Timed(log[j]) :: log[i].now <= log[j].now)
  }

  /** First and last are in order when something was transferred, and both zero otherwise. */
  predicate TimesInOrder(t: Traffic, log: seq<IoRecord>, dir: Direction, openedAt: int) {
    if exists i :: 0 <= i < |log| && Succeeds(log[i], dir) then openedAt <= t.firstAt <= t.lastAt
    else t.firstAt == 0 == t.lastAt
  }

  lemma TimestampsAreOrdered(log: seq<IoRecord>, dir: Direction, openedAt: int)
    requires ClockAdvances(log, openedAt)
    ensures TimesInOrder(Summary(log, dir), log, dir, openedAt)
  {
    LastAtIsTheLastSuccess(log, dir);
    FirstAtIsTheFirstSuccess(log, dir);
  }
}
