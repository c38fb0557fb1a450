/**
 The reports as objects (pkg/tcpinfo/tcpinfo.go and pkg/tcpinfo/tcpinfo_linux.go): option slices are storage that
 `ToInfo` makes two structs share and that `Clone` copies.
 */
module InfoHeap {
  import opened Wrappers
  import opened SysInfo

  /** The storage of a slice of options. */
  ghost function Cells(a: array?<TcpOption>): set<object> {
    if a == null then {} else {a}
  }

  ghost function Slice(a: array?<TcpOption>): Options
    reads a
  {
    if a == null then None else Some(a[..])
  }

  /** `cloneOptions`: new storage with the same options; an empty slice becomes nil. */
  method CloneOptions(a: array?<TcpOption>) returns (c: array?<TcpOption>)
    ensures Slice(c) == Trimmed(old(Slice(a)))
    ensures c != null ==> fresh(c)
  {
    if a == null || a.Length == 0 {
      assert a != null ==> a[..] == [];
      return null;
    }
    c := new TcpOption[a.Length](i requires 0 <= i < a.Length reads a => a[i]);
    assert c[..] == a[..];
  }

  class Sys {
    var plain: SysValue          // every field held by value
    var txOptions: array?<TcpOption>
    var rxOptions: array?<TcpOption>

    constructor (plain: SysValue, tx: array?<TcpOption>, rx: array?<TcpOption>)
      ensures this.plain == plain && txOptions == tx && rxOptions == rx
    {
      this.plain, txOptions, rxOptions := plain, tx, rx;
    }

    ghost function Footprint(): set<object>
      reads this
    {
      {this} + Cells(txOptions) + Cells(rxOptions)
    }

    ghost function Value(): SysValue
      reads Footprint()
    {
      plain.(txOptions := Slice(txOptions), rxOptions := Slice(rxOptions))
    }

    /** `SysInfo.Clone` of a non-nil pointer. */
    method Clone() returns (c: Sys)
      ensures fresh(c.Footprint()) && c.Value() == TrimmedSys(old(Value()))
      ensures c.txOptions != null ==> c.txOptions != c.rxOptions
    {
      var tx := CloneOptions(txOptions);
      var rx := CloneOptions(rxOptions);
      c := new Sys(plain, tx, rx);
    }
  }

  class Info {
    var state: StateName
    var counters: Counters
    var txOptions: array?<TcpOption>
    var rxOptions: array?<TcpOption>
    var sys: Sys?

    constructor (state: StateName, counters: Counters, tx: array?<TcpOption>, rx: array?<TcpOption>, sys: Sys?)
      ensures this.state == state && this.counters == counters && txOptions == tx && rxOptions == rx && this.sys == sys
    {
      this.state, this.counters, txOptions, rxOptions, this.sys := state, counters, tx, rx, sys;
    }

    ghost function Footprint(): set<object>
      reads this, sys
    {
      {this} + Cells(txOptions) + Cells(rxOptions) + SysCells(sys)
    }

    ghost function Value(): InfoValue
      reads Footprint()
    {
      InfoValue(state, Slice(txOptions), Slice(rxOptions), counters, SysOption(sys))
    }

    /** `Info.Clone` of a non-nil pointer. */
    method Clone() returns (c: Info)
      ensures fresh(c.Footprint()) && Footprint() == old(Footprint())
      ensures Value() == old(Value()) && c.Value() == TrimmedInfo(old(Value()))
    {
      var tx, rx, s := CloneParts(this);
      c := Assemble(state, counters, tx, rx, s);
      assert Footprint() == old(Footprint());
    }
  }

  ghost function SysCells(s: Sys?): set<object>
    reads s
  {
    if s == null then {} else s.Footprint()
  }

  ghost function SysOption(s: Sys?): Option<SysValue>
    reads s, SysCells(s)
  {
    if s == null then None else Some(s.Value())
  }

  /** `SysInfo.Clone`, which a nil pointer survives. */
  method CloneSys(s: Sys?) returns (c: Sys?)
    ensures fresh(SysCells(c))
    ensures SysOption(c) == if s == null then None else Some(TrimmedSys(old(s.Value())))
  {
    c := null;
    if s != null {
      c := s.Clone();
    }
  }

  method CloneParts(i: Info) returns (tx: array?<TcpOption>, rx: array?<TcpOption>, s: Sys?)
    ensures fresh(Cells(tx) + Cells(rx) + SysCells(s))
    ensures Slice(tx) == Trimmed(old(Slice(i.txOptions))) && Slice(rx) == Trimmed(old(Slice(i.rxOptions)))
    ensures SysOption(s) == if i.sys == null then None else Some(TrimmedSys(old(i.sys.Value())))
  {
    tx := CloneOptions(i.txOptions);
    rx := CloneOptions(i.rxOptions);
    s := CloneSys(i.sys);
  }

  method Assemble(state: StateName, counters: Counters, tx: array?<TcpOption>, rx: array?<TcpOption>, s: Sys?)
    returns (c: Info)
    ensures fresh(c) && c.Footprint() == {c} + Cells(tx) + Cells(rx) + old(SysCells(s))
    ensures c.Value() == InfoValue(state, old(Slice(tx)), old(Slice(rx)), counters, old(SysOption(s)))
  {
    c := new Info(state, counters, tx, rx, s);
  }

  /** `ToInfo`: the portable view points to the report it was made from and shares its option storage. */
  method ToInfoObject(s: Sys) returns (i: Info)
    ensures fresh(i) && i.sys == s && i.txOptions == s.txOptions && i.rxOptions == s.rxOptions
    ensures i.Value() == ToInfo(s.Value())
  {
    var p := s.plain;
    i := new Info(p.stateName, CountersOf(p), s.txOptions, s.rxOptions, s);
  }

  // ----- Detachment -----

  /** An assignment through the system report: to its fields, to an option, or of a new slice. */
  datatype SysWrite =
    | SetSysFields(plain: SysValue)
    | SetSysTxOption(k: nat, option: TcpOption)
    | SetSysRxOption(k: nat, option: TcpOption)
    | BindSysTxOptions(slice: Options)
    | BindSysRxOptions(slice: Options)

  /** An assignment to a field of a report; slices and system reports are new ones. */
  datatype FieldWrite =
    | SetState(state: StateName)
    | SetCounters(counters: Counters)
    | BindTxOptions(slice: Options)
    | BindRxOptions(slice: Options)
    | BindSys(value: Option<SysValue>)

  /** An assignment through a report: to any of its fields, to an option, or through its system report. */
  datatype Write =
    | SetField(field: FieldWrite)
    | SetTxOption(k: nat, option: TcpOption)
    | SetRxOption(k: nat, option: TcpOption)
    | ThroughSys(write: SysWrite)

  ghost predicate Holds(a: array?<TcpOption>, k: nat, option: TcpOption)
    reads a
  {
    a != null && k < a.Length ==> a[k] == option
  }

  method SetAt(a: array?<TcpOption>, k: nat, option: TcpOption)
    modifies Cells(a)
    ensures a != null && k < a.Length ==> a[..] == old(a[..])[k := option]
  {
    if a != null && k < a.Length {
      a[k] := option;
    }
  }

  method NewSlice(options: Options) returns (a: array?<TcpOption>)
    ensures Slice(a) == options && fresh(Cells(a))
  {
    a := null;
    if options.Some? {
      var s := options.value;
      a := new TcpOption[|s|](i requires 0 <= i < |s| => s[i]);
      assert a[..] == s;
    }
  }

  method NewSys(value: Option<SysValue>) returns (s: Sys?)
    ensures SysOption(s) == value && fresh(SysCells(s))
  {
    s := null;
    if value.Some? {
      var tx := NewSlice(value.value.txOptions);
      var rx := NewSlice(value.value.rxOptions);
      s := new Sys(value.value, tx, rx);
    }
  }

  /** Performs one assignment, if it is possible; storage that comes into reach is new. */
  method ApplyToSys(s: Sys, write: SysWrite)
    modifies s.Footprint()
    ensures fresh(s.Footprint() - old(s.Footprint()))
    ensures match write
            case SetSysFields(p) => s.plain == p
            case SetSysTxOption(k, o) => s.txOptions == old(s.txOptions) && Holds(s.txOptions, k, o)
            case SetSysRxOption(k, o) => s.rxOptions == old(s.rxOptions) && Holds(s.rxOptions, k, o)
            case BindSysTxOptions(slice) => Slice(s.txOptions) == slice
            case BindSysRxOptions(slice) => Slice(s.rxOptions) == slice
  {
    match write
    case SetSysFields(p) => s.plain := p;
    case SetSysTxOption(k, o) => SetAt(s.txOptions, k, o);
    case SetSysRxOption(k, o) => SetAt(s.rxOptions, k, o);
    case BindSysTxOptions(slice) => s.txOptions := NewSlice(slice);
    case BindSysRxOptions(slice) => s.rxOptions := NewSlice(slice);
  }

  method ApplyToField(i: Info, write: FieldWrite)
    modifies i
    ensures fresh(i.Footprint() - old(i.Footprint()))
    ensures match write
            case SetState(state) => i.Value() == old(i.Value()).(state := state)
            case SetCounters(c) => i.Value() == old(i.Value()).(counters := c)
            case BindTxOptions(slice) => i.Value() == old(i.Value()).(txOptions := slice)
            case BindRxOptions(slice) => i.Value() == old(i.Value()).(rxOptions := slice)
            case BindSys(value) => i.Value() == old(i.Value()).(sys := value)
  {
    match write
    case SetState(state) => i.state := state;
    case SetCounters(c) => i.counters := c;
    case BindTxOptions(slice) => i.txOptions := NewSlice(slice);
    case BindRxOptions(slice) => i.rxOptions := NewSlice(slice);
    case BindSys(value) => i.sys := NewSys(value);
  }

  /** Nothing that existed comes into reach, of the report or of the system report it had. */
  method Apply(i: Info, write: Write)
    modifies i.Footprint()
    ensures fresh(i.Footprint() - old(i.Footprint()))
    ensures fresh(SysCells(old(i.sys)) - old(SysCells(i.sys)))
    ensures match write
            case SetField(_) => true
            case SetTxOption(k, o) => i.txOptions == old(i.txOptions) && Holds(i.txOptions, k, o)
            case SetRxOption(k, o) => i.rxOptions == old(i.rxOptions) && Holds(i.rxOptions, k, o)
            case ThroughSys(_) => i.sys == old(i.sys)
  {
    match write
    case SetField(w) => ApplyToField(i, w);
    case SetTxOption(k, o) => SetAt(i.txOptions, k, o);
    case SetRxOption(k, o) => SetAt(i.rxOptions, k, o);
    case ThroughSys(w) => if i.sys != null { ApplyToSys(i.sys, w); }
  }

  method ApplyAll(i: Info, writes: seq<Write>)
    modifies i.Footprint()
    ensures fresh(i.Footprint() - old(i.Footprint()))
  {
    for k := 0 to |writes|
      invariant fresh(i.Footprint() - old(i.Footprint()))
    {
      Apply(i, writes[k]);
    }
  }

  /** No series of writes through one report is seen through another that shares no storage with it. */
  method WriteElsewhere(target: Info, other: Info, writes: seq<Write>)
    requires target.Footprint() !! other.Footprint()
    modifies target.Footprint()
    ensures other.Footprint() == old(other.Footprint()) && other.Value() == old(other.Value())
    ensures target.Footprint() !! other.Footprint()
  {
    ApplyAll(target, writes);
  }

  twostate lemma FreshIsElsewhere(before: set<object>, new after: set<object>)
    requires fresh(after)
    ensures before !! after
  {
  }

  /** A copy keeps what the original held, whatever is written through the original afterwards. */
  method CopyThenWriteOriginal(live: Info, writes: seq<Write>) returns (copy: Info)
    modifies live.Footprint()
    ensures copy.Value() == TrimmedInfo(old(live.Value()))
  {
    copy := live.Clone();
    FreshIsElsewhere(old(live.Footprint()), copy.Footprint());
    WriteElsewhere(live, copy, writes);
  }

  /** The original does not see what is written through a copy. */
  method CopyThenWriteCopy(live: Info, writes: seq<Write>) returns (copy: Info)
    ensures live.Value() == old(live.Value())
  {
    copy := live.Clone();
    FreshIsElsewhere(old(live.Footprint()), copy.Footprint());
    WriteElsewhere(copy, live, writes);
  }

  /** Without the copy they are not detached: a write through the portable view shows in the report it was made from. */
  method SharedWriteIsSeen(s: Sys, k: nat, option: TcpOption) returns (i: Info)
    requires s.txOptions != null && k < s.txOptions.Length
    modifies s.txOptions
    ensures s.txOptions == old(s.txOptions)
    ensures Slice(s.txOptions) == Some(old(s.txOptions[..])[k := option])
    ensures i.sys == s && i.Value().txOptions == i.Value().sys.value.txOptions
  {
    i := ToInfoObject(s);
    SetAt(i.txOptions, k, option);
  }
}
