/**
 The wrapper as an object (wrap.go). Its methods are the sections that hold the mutex; each does to the fields what
 the corresponding function of `Lifecycle` does to the value, so the protocol's theorems are about these methods.
 */
module Connection {
  import opened Wrappers
  import L = Lifecycle
  import opened SysInfo
  import opened InfoHeap

  ghost function InfoCells(i: Info?): set<object>
    reads i, if i == null then {} else {i.sys}
  {
    if i == null then {} else i.Footprint()
  }

  /** The content of a report; nil and empty option slices count as the same. */
  ghost function InfoContent(i: Info?): Option<InfoValue>
    reads i, if i == null then {} else {i.sys}, InfoCells(i)
  {
    if i == null then None else Some(TrimmedInfo(i.Value()))
  }

  lemma TrimmingTwice(v: InfoValue)
    ensures TrimmedInfo(TrimmedInfo(v)) == TrimmedInfo(v)
  {
  }

  twostate lemma ContentStays(i: Info?)
    requires unchanged(old(InfoCells(i)))
    ensures InfoContent(i) == old(InfoContent(i)) && InfoCells(i) == old(InfoCells(i))
  {
    if i != null {
      assert i in old(InfoCells(i));
      assert i.Value() == old(i.Value());
    }
  }

  /** `Info.Clone`, which a nil pointer survives. */
  method CloneInfo(i: Info?) returns (c: Info?)
    ensures fresh(InfoCells(c)) && InfoContent(c) == old(InfoContent(i))
  {
    c := null;
    if i != null {
      c := i.Clone();
      TrimmingTwice(old(i.Value()));
    }
  }

  /** Every other report stays as it is. */
  method CloneInfoBeside(i: Info?, ghost other: Info?) returns (c: Info?)
    ensures fresh(InfoCells(c)) && InfoContent(c) == old(InfoContent(i))
    ensures InfoContent(other) == old(InfoContent(other)) && InfoCells(other) == old(InfoCells(other))
  {
    c := CloneInfo(i);
    ContentStays(other);
  }

  /** The updates that `Read` and `Write` make, each to the counters of its direction. */
  method Count(before: L.Traffic, n: int, err: Option<Error>, now: int) returns (t: L.Traffic)
    ensures t == L.Recorded(before, n, err, now)
  {
    t := before;
    if err == None && n > 0 {
      if t.firstAt == 0 {
        t := t.(firstAt := now);
        t := t.(lastAt := now);
      } else {
        t := t.(lastAt := now);
      }
    }
    t := t.(bytes := L.Wrap64(t.bytes + n));
    if err.Some? && err.value.isNetError && !err.value.isTimeout {
      t := t.(err := err);
    }
  }

  /** How `Close` goes on after its first section. */
  datatype Claim = WaitForDone | NothingToClose(err: Error) | Owner(conn: L.ConnId)

  class Conn {
    var conn: Option<L.ConnId>
    var hasCallback: bool
    var supportsTcpInfo: bool
    var hasCond: bool
    var openedAt: int
    var closedAt: int
    var rx: L.Traffic
    var tx: L.Traffic
    var infoErr: Option<Error>
    var openedInfo: Info?
    var closedInfo: Info?
    var closeStarted: bool
    var closeDone: L.Channel
    var closeErr: Option<Error>
    var inFlight: int

    ghost function Cells(): set<object>
      reads this, openedInfo, closedInfo,
            if openedInfo == null then {} else {openedInfo.sys}, if closedInfo == null then {} else {closedInfo.sys}
    {
      InfoCells(openedInfo) + InfoCells(closedInfo)
    }

    /** The fields that are no pointers to reports. */
    ghost function Scalars(): L.Wrapper
      reads this
    {
      L.Wrapper(conn, hasCallback, supportsTcpInfo, hasCond, openedAt, closedAt, rx, tx, infoErr, None, None,
                closeStarted, closeDone, closeErr, inFlight)
    }

    /** The fields as a value. */
    ghost function View(): L.Wrapper
      reads this, openedInfo, closedInfo,
            if openedInfo == null then {} else {openedInfo.sys}, if closedInfo == null then {} else {closedInfo.sys},
            Cells()
    {
      Scalars().(openedInfo := InfoContent(openedInfo), closedInfo := InfoContent(closedInfo))
    }

    /** A new wrapper, before the open-time report is applied. */
    constructor (conn: Option<L.ConnId>, hasCallback: bool, supported: bool, now: int)
      ensures View() == L.Fresh(conn, hasCallback, supported, now) && Cells() == {}
    {
      this.conn, this.hasCallback, supportsTcpInfo, hasCond, openedAt := conn, hasCallback, supported, true, now;
      closedAt, rx, tx, inFlight := 0, L.NO_TRAFFIC, L.NO_TRAFFIC, 0;
      infoErr, openedInfo, closedInfo := None, null, null;
      closeStarted, closeDone, closeErr := false, L.NilChannel, None;
    }

    method BeginIo() returns (r: Result<L.ConnId, Error>)
      modifies this`inFlight
      ensures View() == L.BeginIo(old(View()))
      ensures r == if L.Refuses(old(View())) then Failure(L.ERR_CLOSED) else Success(old(conn).value)
    {
      if closeStarted || conn == None {
        return Failure(L.ERR_CLOSED);
      }
      inFlight := inFlight + 1;
      return Success(conn.value);
    }

    /** `broadcast` tells whether the parked are woken. */
    method FinishIo() returns (broadcast: bool)
      modifies this`inFlight
      ensures View() == L.FinishIo(old(View()))
      ensures broadcast == L.Broadcasts(old(View()))
    {
      inFlight := inFlight - 1;
      broadcast := closeStarted && inFlight == 0;
      if inFlight < 0 {
        inFlight := 0;
      }
    }

    /** The section of `Read` after the underlying call returned. */
    method CountRead(n: int, err: Option<Error>, now: int)
      modifies this`rx
      ensures View() == L.CountRecord(old(View()), L.IoRecord(L.Rx, n, err, now))
    {
      rx := Count(rx, n, err, now);
    }

    /** The section of `Write` after the underlying call returned. */
    method CountWrite(n: int, err: Option<Error>, now: int)
      modifies this`tx
      ensures View() == L.CountRecord(old(View()), L.IoRecord(L.Tx, n, err, now))
    {
      tx := Count(tx, n, err, now);
    }

    /** `withLiveConn` up to the release of the mutex: the connection to act on, or the error to return. */
    method LiveConn() returns (r: Result<L.ConnId, Error>)
      ensures r == if L.Refuses(View()) then Failure(L.RefusalOf(View())) else Success(conn.value)
    {
      if closeStarted || conn == None {
        if closeErr.Some? {
          return Failure(closeErr.value);
        }
        return Failure(L.ERR_CLOSED);
      }
      return Success(conn.value);
    }

    /** The first section of `Close`. */
    method ClaimClose(now: int) returns (claim: Claim)
      modifies this`closeStarted, this`closedAt, this`closeDone
      ensures old(closeDone) != L.NilChannel ==> claim == WaitForDone
      ensures old(closeDone) == L.NilChannel && old(conn) == None ==>
                claim == NothingToClose(L.RefusalOf(old(View())))
      ensures old(closeDone) == L.NilChannel && old(conn).Some? ==> claim == Owner(old(conn).value)
      ensures View() == if claim.Owner? then L.ClaimClose(old(View()), now) else old(View())
    {
      if closeDone != L.NilChannel {
        return WaitForDone;
      }
      if conn == None {
        return NothingToClose(if closeErr.Some? then closeErr.value else L.ERR_CLOSED);
      }
      StartClose(now);
      return Owner(conn.value);
    }

    method StartClose(now: int)
      modifies this`closeStarted, this`closedAt, this`closeDone
      ensures View() == L.ClaimClose(old(View()), now)
    {
      closeStarted := true;
      closedAt := now;
      closeDone := L.OpenChannel;
    }

    /** The start of the last section of `Close`; `mustWait` is the test of its loop. */
    method PublishClose(err: Option<Error>) returns (mustWait: bool)
      modifies this`closeErr, this`conn
      ensures View() == L.PublishClose(old(View()), err)
      ensures mustWait <==> inFlight > 0
    {
      closeErr := err;
      conn := None;
      mustWait := inFlight > 0;
    }

    method StoreInfo(stage: L.Stage, info: Info)
      modifies this`openedInfo, this`closedInfo
      ensures View() == if stage == L.Opened then old(View()).(openedInfo := old(InfoContent(info)))
                        else old(View()).(closedInfo := old(InfoContent(info)))
      ensures if stage == L.Opened then openedInfo == info && closedInfo == old(closedInfo)
              else openedInfo == old(openedInfo) && closedInfo == info
    {
      if stage == L.Opened {
        openedInfo := info;
      } else {
        closedInfo := info;
      }
    }

    method StoreInfoErr(err: Option<Error>)
      modifies this`infoErr
      ensures View() == old(View()).(infoErr := err)
    {
      infoErr := err;
    }

    /** `applyTCPInfoLocked`. */
    method ApplyInfo(stage: L.Stage, info: Info?, err: Option<Error>)
      modifies this`openedInfo, this`closedInfo, this`infoErr
      ensures openedInfo == (if stage == L.Opened && info != null then info else old(openedInfo))
      ensures closedInfo == (if stage == L.Closed && info != null then info else old(closedInfo))
      ensures View() == L.ApplyInfo(old(View()), stage, Outcome(old(InfoContent(info)), err))
    {
      if info != null {
        StoreInfo(stage, info);
      }
      if info != null || err.Some? {
        StoreInfoErr(err);
      }
    }

    /** The struct that `snapshotLocked` builds: these fields of a wrapper and no others. */
    constructor Detached(w: Conn, atOpen: Info?, atClose: Info?)
      ensures openedInfo == atOpen && closedInfo == atClose
      ensures View() == w.Scalars().(
                conn := None, hasCallback := false, hasCond := false, closeDone := L.NilChannel, inFlight := 0,
                openedInfo := old(InfoContent(atOpen)), closedInfo := old(InfoContent(atClose)))
    {
      conn, hasCallback, hasCond, closeDone, inFlight := None, false, false, L.NilChannel, 0;
      supportsTcpInfo, openedAt, closedAt, rx, tx := w.supportsTcpInfo, w.openedAt, w.closedAt, w.rx, w.tx;
      infoErr, openedInfo, closedInfo := w.infoErr, atOpen, atClose;
      closeStarted, closeErr := w.closeStarted, w.closeErr;
    }

    method CloneInfos() returns (o: Info?, c: Info?)
      ensures fresh(InfoCells(o) + InfoCells(c))
      ensures InfoContent(o) == old(InfoContent(openedInfo)) && InfoContent(c) == old(InfoContent(closedInfo))
    {
      o := CloneInfoBeside(openedInfo, closedInfo);
      c := CloneInfoBeside(closedInfo, o);
    }

    /** `snapshotLocked`: a new object with new reports, none of whose storage existed before. */
    method Snapshot() returns (c: Conn)
      ensures fresh(c) && fresh(c.Cells())
      ensures c.View() == L.Snapshot(old(View()))
    {
      var atOpen, atClose := CloneInfos();
      c := new Conn.Detached(this, atOpen, atClose);
    }

    /** The deferred close of the channel. */
    method ReleaseWaiters()
      modifies this`closeDone
      ensures View() == old(View()).(closeDone := L.ClosedChannel)
    {
      closeDone := L.ClosedChannel;
    }
  }

  /** `WrapConnWithContext`, without the callback: `info` and `err` are what the collection at open gave. */
  method WrapConn(conn: Option<L.ConnId>, hasCallback: bool, supported: bool, now: int, info: Info?, err: Option<Error>)
    returns (w: Conn)
    ensures fresh(w)
    ensures w.View() == L.Wrap(conn, hasCallback, supported, now, Outcome(old(InfoContent(info)), err))
  {
    w := new Conn(conn, hasCallback, supported, now);
    if supported {
      w.ApplyInfo(L.Opened, info, err);
    }
  }

  // ----- A wrapper and its copy -----

  /** A write through a report assigns to no field of another report, nor of a system report it does not point to. */
  method ApplyToOne(i: Info, write: Write, ghost other: Info?)
    modifies i.Footprint()
    ensures fresh(i.Footprint() - old(i.Footprint())) && fresh(SysCells(old(i.sys)) - old(SysCells(i.sys)))
    ensures other != null && other != i ==>
              unchanged(other) && (other.sys != null && other.sys != old(i.sys) ==> unchanged(other.sys))
  {
    Apply(i, write);
  }

  /**
   One write through a report, where another report may share storage with it: what either can reach afterwards was
   in `region` before, or is new.
   */
  method ApplyWithin(i: Info, write: Write, ghost other: Info?, ghost region: set<object>)
    returns (ghost wider: set<object>)
    requires i.Footprint() <= region && InfoCells(other) <= region
    modifies i.Footprint()
    ensures region <= wider && fresh(wider - region)
    ensures i.Footprint() <= wider && InfoCells(other) <= wider
  {
    ghost var had := i.sys;
    ApplyToOne(i, write, other);
    wider := region + i.Footprint() + SysCells(had);
  }

  /** Any series of writes through two reports, in any order, stays in their storage and in new storage. */
  method WriteReports(atOpen: Info?, atClose: Info?, writes: seq<(L.Stage, Write)>, ghost region: set<object>)
    requires InfoCells(atOpen) <= region && InfoCells(atClose) <= region
    modifies region
  {
    ghost var reach := region;
    for k := 0 to |writes|
      invariant region <= reach && fresh(reach - region)
      invariant InfoCells(atOpen) <= reach && InfoCells(atClose) <= reach
    {
      if writes[k].0 == L.Opened && atOpen != null {
        reach := ApplyWithin(atOpen, writes[k].1, atClose, reach);
      } else if writes[k].0 == L.Closed && atClose != null {
        reach := ApplyWithin(atClose, writes[k].1, atOpen, reach);
      }
    }
  }

  /** What the wrapper holds depends on its own fields and on the storage of its reports only. */
  twostate lemma ViewStays(w: Conn)
    requires unchanged(w) && unchanged(old(w.Cells()))
    ensures w.View() == old(w.View()) && w.Cells() == old(w.Cells())
  {
    ContentStays(w.openedInfo);
    ContentStays(w.closedInfo);
  }

  /** Writes through the reports of one wrapper leave another as it is that shares no storage with it. */
  method WriteReportsOf(target: Conn, writes: seq<(L.Stage, Write)>, ghost other: Conn, ghost elsewhere: set<object>)
    requires target.Cells() !! elsewhere && other in elsewhere && other.Cells() <= elsewhere
    modifies target.Cells()
    ensures unchanged(other) && unchanged(old(other.Cells()))
  {
    WriteReports(target.openedInfo, target.closedInfo, writes, target.Cells());
  }

  /** The copy is made apart from storage that exists, and leaves it as it is. */
  method CopyApart(w: Conn, ghost existing: set<object>) returns (c: Conn)
    ensures fresh(c) && fresh(c.Cells()) && existing !! {c} + c.Cells() && unchanged(existing)
    ensures c.View() == L.Snapshot(old(w.View()))
  {
    c := w.Snapshot();
    FreshIsElsewhere(existing, {c} + c.Cells());
  }

  /** The copy keeps what the wrapper held, whatever is written through the wrapper's reports afterwards. */
  method SnapshotThenWriteWrapper(w: Conn, writes: seq<(L.Stage, Write)>) returns (c: Conn)
    modifies w.Cells()
    ensures c.View() == L.Snapshot(old(w.View()))
  {
    c := CopyApart(w, w.Cells());
    label Copied:
    WriteReportsOf(w, writes, c, {c} + c.Cells());
    ViewStays@Copied(c);
  }

  /** The wrapper does not see what is written through the reports of its copy. */
  method SnapshotThenWriteCopy(w: Conn, writes: seq<(L.Stage, Write)>) returns (c: Conn)
    ensures w.View() == old(w.View())
  {
    ghost var mine := {w} + w.Cells();
    c := CopyApart(w, mine);
    WriteReportsOf(c, writes, w, mine);
    ViewStays(w);
  }
}
