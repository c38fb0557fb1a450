/**
 The Linux socket report (pkg/tcpinfo/tcpinfo_linux.go): unpacking the raw struct under the version flags,
 adding the congestion-control data, and flattening the result into the portable `Info`.
 */
module SysInfo {
  import opened Wrappers
  import opened Kernel
  import opened Adaptation
  import opened RawLayout

  /** The settings of the version flags, one for each row of the table. */
  type Flags = s: seq<bool> | |s| == 13 witness seq(13, _ => false)

  /** The names of `tcpOptionsMap`. */
  datatype OptionKind = Timestamps | Sack | WindowScale | Ecn | EcnSeen | SynData | UsecTs | TfoChild

  datatype TcpOption = TcpOption(kind: OptionKind, value: nat)

  /** The names of `tcpStateMap`, and the empty one for a state it lacks. */
  datatype StateName =
    | NoName | Established | SynSent | SynRecv | FinWait1 | FinWait2 | TimeWait | CloseState | CloseWait
    | LastAck | Listen | Closing

  /** The congestion-control algorithm as named by the kernel; `Unnamed` is the empty string. */
  datatype Algorithm = Unnamed | Vegas | Bbr | Dctcp | OtherAlgorithm(name: string)

  /** A slice of options, `None` when nil. */
  type Options = Option<seq<TcpOption>>

  /** The congestion-control fields; all of them are nullable. */
  datatype CcField =
    | VegasEnabled | VegasRttCnt | VegasRttMin | VegasRtt
    | BbrBwHi | BbrBwLo | BbrMinRtt | BbrPacingGain | BbrCwndGain
    | DctcpEnabled | DctcpCeState | DctcpAlpha | DctcpAbEcn | DctcpAbTot

  /** A `SysInfo`: a nullable field is a key of its map exactly when it is Valid. */
  datatype SysValue = SysValue(
    fields: map<Field, int>, stateName: StateName, txScale: nat, rxScale: nat,
    appLimited: Option<bool>, fastOpenFail: Option<nat>, txOptions: Options, rxOptions: Options,
    ccAlgorithm: Algorithm, cc: map<CcField, int>)

  // ----- Unpacking the raw struct -----

  const TIME_FIELDS: set<Field> := {
    RTO, ATO, LAST_DATA_SENT, LAST_ACK_SENT, LAST_DATA_RECV, LAST_ACK_RECV, RTT, RTTVAR, RCV_RTT, MIN_RTT
  }

  /** Times arrive in microseconds and are kept in nanoseconds. */
  function Scaled(raw: Raw, f: Field): int {
    if f in TIME_FIELDS then raw(f) * 1000 else raw(f)
  }

  /** The fields copied as they are; the others are taken apart bit by bit. */
  predicate Copied(f: Field) {
    f != OPTIONS && f != BITFIELD0 && f != BITFIELD1
  }

  predicate Shown(f: Field, flags: Flags)
  {
    Copied(f) && (Gate(f) == None || flags[Gate(f).value])
  }

  function NameOfState(state: nat): StateName {
    match state
    case 1 => Established
    case 2 => SynSent
    case 3 => SynRecv
    case 4 => FinWait1
    case 5 => FinWait2
    case 6 => TimeWait
    case 7 => CloseState
    case 8 => CloseWait
    case 9 => LastAck
    case 10 => Listen
    case 11 => Closing
    case _ => NoName
  }

  /** The options in flag order: flag `k` is the bit of weight 2 to the `k`. */
  const OPTION_KINDS: seq<OptionKind> := [Timestamps, Sack, WindowScale, Ecn, EcnSeen, SynData, UsecTs, TfoChild]

  predicate HasFlag(bits: nat, k: nat) {
    if k == 0 then bits % 2 == 1 else HasFlag(bits / 2, k - 1)
  }

  function Append(options: Options, o: TcpOption): Options {
    match options
    case None => Some([o])
    case Some(s) => Some(s + [o])
  }

  function Announced(kind: OptionKind, scale: nat): TcpOption {
    TcpOption(kind, if kind == WindowScale then scale else 0)
  }

  /** The options announced by the first `k` flags, in flag order. */
  function OptionList(bits: nat, scale: nat, k: nat): Options
    requires k <= 8
  {
    if k == 0 then None
    else
      var before := OptionList(bits, scale, k - 1);
      if !HasFlag(bits, k - 1) then before
      else Append(before, Announced(OPTION_KINDS[k - 1], scale))
  }

  function AllOptions(bits: nat, scale: nat): Options {
    OptionList(bits, scale, |OPTION_KINDS|)
  }

  function UnpackedFields(raw: Raw, flags: Flags): map<Field, int> {
    map f: Field | 0 <= f < 59 && Shown(f, flags) :: Scaled(raw, f)
  }

  /** What `Unpack` returns, as a value. */
  function Unpacked(raw: Raw, flags: Flags): SysValue
  {
    var txScale, rxScale := raw(BITFIELD0) % 16, raw(BITFIELD0) / 16;
    SysValue(
      UnpackedFields(raw, flags),
      NameOfState(raw(STATE)), txScale, rxScale,
      if flags[5] then Some(raw(BITFIELD1) % 2 == 1) else None,
      if flags[10] then Some(raw(BITFIELD1) / 2 % 4) else None,
      AllOptions(raw(OPTIONS), txScale), AllOptions(raw(OPTIONS), rxScale),
      Unnamed, map[])
  }

  /** `fields` holds what has to be reported of the fields up to `last`. */
  ghost predicate CopiedThrough(fields: map<Field, int>, raw: Raw, flags: Flags, last: Field) {
    && (forall f: Field :: f in fields <==> f <= last && Shown(f, flags))
    && (forall f: Field | f in fields :: fields[f] == Scaled(raw, f))
  }

  /** One gated block of assignments: the fields it copies are neighbours in the declaration. */
  method CopyBlock(fields: map<Field, int>, raw: Raw, flags: Flags, row: nat, first: Field, last: Field)
    returns (r: map<Field, int>)
    requires 1 <= row <= 12 && 0 < first && CopiedThrough(fields, raw, flags, first - 1)
    requires forall f: Field | first <= f <= last :: Gate(f) == Some(row) && Copied(f)
    requires first <= last
    ensures CopiedThrough(r, raw, flags, last)
  {
    r := fields;
    if flags[row] {
      r := r + map f: Field | first <= f <= last :: Scaled(raw, f);
    }
  }

  /** The field-by-field assignments, one gated block after another. */
  method UnpackFields(raw: Raw, flags: Flags) returns (fields: map<Field, int>)
    ensures fields == UnpackedFields(raw, flags)
  {
    fields := map f: Field | 0 <= f <= TOTAL_RETRANS && Copied(f) :: Scaled(raw, f);
    fields := CopyBlock(fields, raw, flags, 1, PACING_RATE, MAX_PACING_RATE);
    fields := CopyBlock(fields, raw, flags, 2, BYTES_ACKED, BYTES_RECEIVED);
    fields := CopyBlock(fields, raw, flags, 3, SEGS_OUT, SEGS_IN);
    fields := CopyBlock(fields, raw, flags, 4, NOTSENT_BYTES, DATA_SEGS_OUT);
    fields := CopyBlock(fields, raw, flags, 5, DELIVERY_RATE, DELIVERY_RATE);
    fields := CopyBlock(fields, raw, flags, 6, BUSY_TIME, SNDBUF_LIMITED);
    fields := CopyBlock(fields, raw, flags, 7, DELIVERED, DELIVERED_CE);
    fields := CopyBlock(fields, raw, flags, 8, BYTES_SENT, REORD_SEEN);
    fields := CopyBlock(fields, raw, flags, 9, RCV_OOOPACK, SND_WND);
    fields := CopyBlock(fields, raw, flags, 11, RCV_WND, TOTAL_RTO_TIME);
  }

  method Unpack(raw: Raw, flags: Flags) returns (u: SysValue)
    ensures u == Unpacked(raw, flags)
  {
    var fields := UnpackFields(raw, flags);
    var txScale, rxScale := raw(BITFIELD0) % 16, raw(BITFIELD0) / 16;
    var tx, rx: Options := None, None;
    for k := 0 to 8
      invariant tx == OptionList(raw(OPTIONS), txScale, k) && rx == OptionList(raw(OPTIONS), rxScale, k)
    {
      if HasFlag(raw(OPTIONS), k) {
        if OPTION_KINDS[k] == WindowScale {
          tx := Append(tx, TcpOption(OPTION_KINDS[k], txScale));
          rx := Append(rx, TcpOption(OPTION_KINDS[k], rxScale));
        } else {
          tx := Append(tx, TcpOption(OPTION_KINDS[k], 0));
          rx := Append(rx, TcpOption(OPTION_KINDS[k], 0));
        }
      }
    }
    u := SysValue(
      fields, NameOfState(raw(STATE)), txScale, rxScale,
      if flags[5] then Some(raw(BITFIELD1) % 2 == 1) else None,
      if flags[10] then Some(raw(BITFIELD1) / 2 % 4) else None,
      tx, rx, Unnamed, map[]);
  }

  /**
   End to end on any supported kernel: the fields reported are those its version admits, and each carries the
   kernel's own number, except that in the two version windows the fields past the requested length are zero.
   */
  lemma UnpackedAgainstKernel(kernel: Raw, v: VersionInfo, flags: Flags, f: Field, align64: nat)
    requires align64 == 4 || align64 == 8
    requires FlagsMatch(flags, v) && AtLeast(v, TABLE[0].version)
    ensures var u := Unpacked(Fetched(kernel, SizeFor(v), align64), flags);
            && (f in u.fields <==> Copied(f) && MarkedValid(f, v))
            && (f in u.fields ==> u.fields[f] == if f in BeyondLength(v) then 0 else Scaled(kernel, f))
  {
    if MarkedValid(f, v) { FetchedValueOfValidField(kernel, f, v, align64); }
  }

  /** A report has the fields that the kernel has, and the three totals from 6.2 up to 6.7, which it has not. */
  lemma FieldsAreThoseOfTheKernel(raw: Raw, v: VersionInfo, flags: Flags, f: Field)
    requires FlagsMatch(flags, v)
    ensures f in Unpacked(raw, flags).fields <==>
            && f != OPTIONS && f != BITFIELD0 && f != BITFIELD1
            && (|| Introduced(f, v)
                || (Between(v, V(6, 2, 0), V(6, 7, 0)) && f in {TOTAL_RTO, TOTAL_RTO_RECOVERIES, TOTAL_RTO_TIME}))
  {
    ReportedOnlyWhereIntroduced(f, v);
  }

  /** Ten fields are times, in nanoseconds; the others are the numbers of the raw struct. */
  lemma TimesAreInNanoseconds(raw: Raw, flags: Flags)
    ensures var u := Unpacked(raw, flags).fields;
            && {RTO, ATO, LAST_DATA_SENT, LAST_ACK_SENT, LAST_DATA_RECV, LAST_ACK_RECV, RTT, RTTVAR, RCV_RTT} <= u.Keys
            && (forall f | f in u ::
                  u[f] == if f in {RTO, ATO, LAST_DATA_SENT, LAST_ACK_SENT, LAST_DATA_RECV, LAST_ACK_RECV, RTT, RTTVAR,
                                   RCV_RTT, MIN_RTT} then raw(f) * 1000 else raw(f))
  {
  }

  /** The states in the order of their numbers, from 1 on. */
  const STATE_NAMES: seq<StateName> := [
    NoName, Established, SynSent, SynRecv, FinWait1, FinWait2, TimeWait, CloseState, CloseWait, LastAck, Listen, Closing
  ]

  /** State 12, a new connection half received, and all numbers beyond have no name. */
  lemma StatesAreNamed(raw: Raw, flags: Flags)
    ensures Unpacked(raw, flags).stateName ==
            if raw(STATE) < |STATE_NAMES| then STATE_NAMES[raw(STATE)] else NoName
  {
  }

  // ----- The option list says exactly what the flags say -----

  /** The flags that a list of options stands for. */
  function FlagSum(options: seq<TcpOption>): nat {
    if options == [] then 0 else FlagSum(options[..|options| - 1]) + FlagOf(options[|options| - 1].kind)
  }

  function FlagOf(kind: OptionKind): nat {
    match kind
    case Timestamps => 1
    case Sack => 2
    case WindowScale => 4
    case Ecn => 8
    case EcnSeen => 16
    case SynData => 32
    case UsecTs => 64
    case TfoChild => 128
  }

  function Listed(options: Options): seq<TcpOption> {
    if options == None then [] else options.value
  }

  lemma FlagSumOfAppend(options: Options, o: TcpOption)
    ensures FlagSum(Listed(Append(options, o))) == FlagSum(Listed(options)) + FlagOf(o.kind)
  {
    assert Listed(Append(options, o)) == Listed(options) + [o];
    assert (Listed(options) + [o])[..|Listed(options)|] == Listed(options);
  }

  function Pow2(k: nat): nat {
    if k == 0 then 1 else 2 * Pow2(k - 1)
  }

  /** The number made of the lowest `k` bits. */
  function LowBits(bits: nat, k: nat): nat {
    if k == 0 then 0 else bits % 2 + 2 * LowBits(bits / 2, k - 1)
  }

  lemma {:induction false} LowBitsStep(bits: nat, k: nat)
    ensures LowBits(bits, k + 1) == LowBits(bits, k) + if HasFlag(bits, k) then Pow2(k) else 0
  {
    if k > 0 { LowBitsStep(bits / 2, k - 1); }
  }

  lemma {:induction false} LowBitsAreAll(bits: nat, k: nat)
    requires bits < Pow2(k)
    ensures LowBits(bits, k) == bits
  {
    if k > 0 { LowBitsAreAll(bits / 2, k - 1); }
  }

  lemma FlagWeights(k: nat)
    requires k < 8
    ensures FlagOf(OPTION_KINDS[k]) == Pow2(k)
  {
    assert Pow2(2) == 4;
    assert Pow2(4) == 16;
    assert Pow2(6) == 64;
  }

  lemma {:induction false} FlagSumOfOptions(bits: nat, scale: nat, k: nat)
    requires k <= 8
    ensures FlagSum(Listed(OptionList(bits, scale, k))) == LowBits(bits, k)
  {
    if k > 0 {
      FlagSumOfOptions(bits, scale, k - 1);
      LowBitsStep(bits, k - 1);
      FlagWeights(k - 1);
      FlagSumOfAppend(OptionList(bits, scale, k - 1), Announced(OPTION_KINDS[k - 1], scale));
    }
  }

  /** Options in flag order, hence no two alike; only the window scale carries a value. */
  predicate WellListed(options: seq<TcpOption>, scale: nat) {
    && (forall i, j | 0 <= i < j < |options| :: FlagOf(options[i].kind) < FlagOf(options[j].kind))
    && (forall i | 0 <= i < |options| :: options[i].value == if options[i].kind == WindowScale then scale else 0)
  }

  lemma {:induction false} OptionsAreWellListed(bits: nat, scale: nat, k: nat)
    requires k <= 8
    ensures var options := Listed(OptionList(bits, scale, k));
            WellListed(options, scale) && forall i | 0 <= i < |options| :: FlagOf(options[i].kind) < Pow2(k)
  {
    if k > 0 {
      OptionsAreWellListed(bits, scale, k - 1);
      FlagWeights(k - 1);
    }
  }

  /**
   Both option lists of any report stand for exactly the flag byte the kernel sent, in flag order and none repeated,
   and each names the window scale of its own direction.
   */
  lemma OptionsStandForFlags(raw: Raw, flags: Flags)
    requires raw(OPTIONS) < 256
    ensures var u := Unpacked(raw, flags);
            && FlagSum(Listed(u.txOptions)) == raw(OPTIONS) == FlagSum(Listed(u.rxOptions))
            && WellListed(Listed(u.txOptions), u.txScale) && WellListed(Listed(u.rxOptions), u.rxScale)
  {
    FlagWeights(7);
    LowBitsAreAll(raw(OPTIONS), 8);
    FlagSumOfOptions(raw(OPTIONS), raw(BITFIELD0) % 16, 8);
    FlagSumOfOptions(raw(OPTIONS), raw(BITFIELD0) / 16, 8);
    OptionsAreWellListed(raw(OPTIONS), raw(BITFIELD0) % 16, 8);
    OptionsAreWellListed(raw(OPTIONS), raw(BITFIELD0) / 16, 8);
  }

  /** The kernel packs the two scales into one byte and the two fast-path indicators into three bits of another. */
  lemma BitfieldsRecombine(raw: Raw, v: VersionInfo, flags: Flags)
    requires raw(BITFIELD0) < 256 && FlagsMatch(flags, v)
    ensures var u := Unpacked(raw, flags);
            && u.txScale < 16 && u.rxScale < 16 && u.txScale + 16 * u.rxScale == raw(BITFIELD0)
            && (u.appLimited.Some? <==> AtLeast(v, V(4, 9, 0)))
            && (u.fastOpenFail.Some? <==> AtLeast(v, V(5, 5, 0)))
            && (u.fastOpenFail.Some? ==>
                  u.appLimited.Some?
                  && (if u.appLimited.value then 1 else 0) + 2 * u.fastOpenFail.value == raw(BITFIELD1) % 8)
  {
    if flags[10] { EarlierRowsToo(v, 10); }
  }

  // ----- Congestion control -----

  datatype VegasInfo = VegasInfo(enabled: nat, rttCnt: nat, rtt: nat, minRtt: nat)
  datatype BbrInfo = BbrInfo(bwLo: nat, bwHi: nat, minRtt: nat, pacingGain: nat, cwndGain: nat)
  datatype DctcpInfo = DctcpInfo(enabled: nat, ceState: nat, alpha: nat, abEcn: nat, abTot: nat)

  datatype TcpInfoPlusCc = TcpInfoPlusCc(
    raw: Raw, alg: Algorithm, vegas: Option<VegasInfo>, bbr: Option<BbrInfo>, dctcp: Option<DctcpInfo>)

  function CcData(t: TcpInfoPlusCc): map<CcField, int> {
    if t.alg == Vegas && t.vegas.Some? then
      var i := t.vegas.value;
      map[VegasEnabled := i.enabled, VegasRttCnt := i.rttCnt, VegasRttMin := i.minRtt * 1000, VegasRtt := i.rtt * 1000]
    else if t.alg == Bbr && t.bbr.Some? then
      var i := t.bbr.value;
      map[BbrBwHi := i.bwHi, BbrBwLo := i.bwLo, BbrMinRtt := i.minRtt * 1000, BbrPacingGain := i.pacingGain,
          BbrCwndGain := i.cwndGain]
    else if t.alg == Dctcp && t.dctcp.Some? then
      var i := t.dctcp.value;
      map[DctcpEnabled := if i.enabled != 0 then 1 else 0, DctcpCeState := i.ceState, DctcpAlpha := i.alpha,
          DctcpAbEcn := i.abEcn, DctcpAbTot := i.abTot]
    else map[]
  }

  lemma CcDataKeys(t: TcpInfoPlusCc)
    ensures CcData(t).Keys == if (t.alg == Vegas && t.vegas == None) || (t.alg == Bbr && t.bbr == None)
                                 || (t.alg == Dctcp && t.dctcp == None) then {} else CcFieldsOf(t.alg)
  {
  }

  function UnpackWithCc(t: TcpInfoPlusCc, flags: Flags): SysValue {
    Unpacked(t.raw, flags).(ccAlgorithm := t.alg, cc := CcData(t))
  }

  const ERR_KERNEL_TOO_OLD := Error(1, false, false)

  /** What each system call would answer for one socket; the calls that are not made do not matter. */
  datatype Syscalls = Syscalls(
    raw: Result<Raw, Error>, alg: Result<Algorithm, Error>,
    vegas: Result<VegasInfo, Error>, bbr: Result<BbrInfo, Error>, dctcp: Result<DctcpInfo, Error>)

  /** The report and the error; either may be absent. */
  datatype Outcome<+T> = Outcome(info: Option<T>, err: Option<Error>)

  /** What the calls for the congestion control add to the raw struct, and the error that cut them short. */
  function ResolveCc(raw: Raw, sys: Syscalls): (TcpInfoPlusCc, Option<Error>) {
    var plain := TcpInfoPlusCc(raw, Unnamed, None, None, None);
    if sys.alg.Failure? then (plain, Some(sys.alg.error))
    else
      var named := plain.(alg := sys.alg.value);
      match sys.alg.value
      case Vegas =>
        if sys.vegas.Failure? then (named, Some(sys.vegas.error))
        else (named.(vegas := Some(sys.vegas.value)), None)
      case Bbr =>
        if sys.bbr.Failure? then (named, Some(sys.bbr.error))
        else (named.(bbr := Some(sys.bbr.value)), None)
      case Dctcp =>
        if sys.dctcp.Failure? then (named, Some(sys.dctcp.error))
        else (named.(dctcp := Some(sys.dctcp.value)), None)
      case _ => (named, None)
  }

  function GetTcpInfo(flags: Flags, sys: Syscalls): Outcome<SysValue> {
    if !flags[0] then Outcome(None, Some(ERR_KERNEL_TOO_OLD))
    else if sys.raw.Failure? then Outcome(None, Some(sys.raw.error))
    else
      var (res, err) := ResolveCc(sys.raw.value, sys);
      Outcome(Some(UnpackWithCc(res, flags)), err)
  }

  function CcFieldsOf(alg: Algorithm): set<CcField> {
    match alg
    case Vegas => {VegasEnabled, VegasRttCnt, VegasRttMin, VegasRtt}
    case Bbr => {BbrBwHi, BbrBwLo, BbrMinRtt, BbrPacingGain, BbrCwndGain}
    case Dctcp => {DctcpEnabled, DctcpCeState, DctcpAlpha, DctcpAbEcn, DctcpAbTot}
    case _ => {}
  }

  /** The errors of what is done in turn: the check of the version, then up to three calls. */
  function ErrorsInOrder(flags: Flags, sys: Syscalls): seq<Option<Error>> {
    [if flags[0] then None else Some(ERR_KERNEL_TOO_OLD), ErrorOf(sys.raw), ErrorOf(sys.alg),
     if sys.alg == Success(Vegas) then ErrorOf(sys.vegas)
     else if sys.alg == Success(Bbr) then ErrorOf(sys.bbr)
     else if sys.alg == Success(Dctcp) then ErrorOf(sys.dctcp)
     else None]
  }

  function ErrorOf<T>(r: Result<T, Error>): Option<Error> {
    match r
    case Success(_) => None
    case Failure(e) => Some(e)
  }

  function FirstError(errors: seq<Option<Error>>): Option<Error> {
    if errors == [] then None else if errors[0].Some? then errors[0] else FirstError(errors[1..])
  }

  lemma FirstErrorOfCons(e: Option<Error>, rest: seq<Option<Error>>)
    ensures FirstError([e] + rest) == if e.Some? then e else FirstError(rest)
  {
    assert ([e] + rest)[1..] == rest;
  }

  lemma FirstErrorOfFour(a: Option<Error>, b: Option<Error>, c: Option<Error>, d: Option<Error>)
    ensures FirstError([a, b, c, d]) == if a.Some? then a else if b.Some? then b else if c.Some? then c else d
  {
    assert [a, b, c, d] == [a] + [b, c, d] && [b, c, d] == [b] + [c, d] && [c, d] == [c] + [d] && [d] == [d] + [];
    FirstErrorOfCons(a, [b, c, d]);
    FirstErrorOfCons(b, [c, d]);
    FirstErrorOfCons(c, [d]);
    FirstErrorOfCons(d, []);
  }

  lemma ResolveCcOutcome(raw: Raw, sys: Syscalls)
    ensures var (res, err) := ResolveCc(raw, sys);
            && res.raw == raw && res.alg == (if sys.alg.Success? then sys.alg.value else Unnamed)
            && CcData(res).Keys == if err.Some? then {} else CcFieldsOf(res.alg)
  {
    CcDataKeys(ResolveCc(raw, sys).0);
  }

  /** For every combination of answers: which report and error come back, and whose congestion fields are valid. */
  lemma GetTcpInfoOutcome(flags: Flags, sys: Syscalls)
    ensures var r := GetTcpInfo(flags, sys);
            && (r.info.Some? <==> flags[0] && sys.raw.Success?)
            && (r.info == None ==> r.err.Some?)
            && (r.info.Some? ==>
                  && r.info.value == Unpacked(sys.raw.value, flags).(
                                       ccAlgorithm := r.info.value.ccAlgorithm, cc := r.info.value.cc)
                  && r.info.value.ccAlgorithm == (if sys.alg.Success? then sys.alg.value else Unnamed)
                  && r.info.value.cc.Keys == if r.err.Some? then {} else CcFieldsOf(r.info.value.ccAlgorithm))
            && r.err == FirstError(ErrorsInOrder(flags, sys))
  {
    var errors := ErrorsInOrder(flags, sys);
    FirstErrorOfFour(errors[0], errors[1], errors[2], errors[3]);
    assert errors == [errors[0], errors[1], errors[2], errors[3]];
    if flags[0] && sys.raw.Success? { ResolveCcOutcome(sys.raw.value, sys); }
  }

  /** Each number that an algorithm's own call gave is reported under its name, times in nanoseconds. */
  lemma CongestionNumbers(flags: Flags, sys: Syscalls)
    requires flags[0] && sys.raw.Success?
    ensures var cc := GetTcpInfo(flags, sys).info.value.cc;
            && (sys.alg == Success(Vegas) && sys.vegas.Success? ==>
                  var i := sys.vegas.value;
                  && cc[VegasEnabled] == i.enabled && cc[VegasRttCnt] == i.rttCnt
                  && cc[VegasRttMin] == i.minRtt * 1000 && cc[VegasRtt] == i.rtt * 1000)
            && (sys.alg == Success(Bbr) && sys.bbr.Success? ==>
                  var i := sys.bbr.value;
                  && cc[BbrBwHi] == i.bwHi && cc[BbrBwLo] == i.bwLo && cc[BbrMinRtt] == i.minRtt * 1000
                  && cc[BbrPacingGain] == i.pacingGain && cc[BbrCwndGain] == i.cwndGain)
            && (sys.alg == Success(Dctcp) && sys.dctcp.Success? ==>
                  var i := sys.dctcp.value;
                  && (cc[DctcpEnabled] == 1 <==> i.enabled != 0) && (cc[DctcpEnabled] == 0 <==> i.enabled == 0)
                  && cc[DctcpCeState] == i.ceState && cc[DctcpAlpha] == i.alpha
                  && cc[DctcpAbEcn] == i.abEcn && cc[DctcpAbTot] == i.abTot)
  {
    GetTcpInfoOutcome(flags, sys);
  }

  // ----- The portable view -----

  datatype Counters = Counters(
    txMss: int, rxMss: int, rtt: int, rttVar: int, rto: int, ato: int,
    lastTxAt: int, lastRxAt: int, lastTxAckAt: int, lastRxAckAt: int,
    rxWindow: int, txSsThreshold: int, rxSsThreshold: int, txWindowSegs: int, retransmits: int)

  datatype InfoValue = InfoValue(
    state: StateName, txOptions: Options, rxOptions: Options, counters: Counters, sys: Option<SysValue>)

  function FieldOrZero(s: SysValue, f: Field): int {
    if f in s.fields then s.fields[f] else 0
  }

  function CountersOf(s: SysValue): Counters {
    Counters(
      FieldOrZero(s, SND_MSS), FieldOrZero(s, RCV_MSS), FieldOrZero(s, RTT), FieldOrZero(s, RTTVAR),
      FieldOrZero(s, RTO), FieldOrZero(s, ATO), FieldOrZero(s, LAST_DATA_SENT), FieldOrZero(s, LAST_DATA_RECV),
      FieldOrZero(s, LAST_ACK_SENT), FieldOrZero(s, LAST_ACK_RECV), FieldOrZero(s, RCV_SPACE),
      FieldOrZero(s, SND_SSTHRESH), FieldOrZero(s, RCV_SSTHRESH), FieldOrZero(s, SND_CWND),
      FieldOrZero(s, TOTAL_RETRANS))
  }

  function ToInfo(s: SysValue): InfoValue {
    InfoValue(s.stateName, s.txOptions, s.rxOptions, CountersOf(s), Some(s))
  }

  /** The fields every kernel has, from the retransmission timeout on, carry the numbers of `raw`. */
  ghost predicate CommonFieldsOf(u: SysValue, raw: Raw) {
    forall f: Field | RTO <= f <= TOTAL_RETRANS :: FieldOrZero(u, f) == Scaled(raw, f)
  }

  lemma CommonFieldsAreShown(raw: Raw, flags: Flags)
    ensures CommonFieldsOf(Unpacked(raw, flags), raw)
  {
    forall f: Field | RTO <= f <= TOTAL_RETRANS ensures FieldOrZero(Unpacked(raw, flags), f) == Scaled(raw, f) {
      assert Shown(f, flags);
    }
  }

  /** Whatever the kernel's version, the portable numbers are those of the raw struct, times in nanoseconds. */
  lemma PortableNumbers(raw: Raw, flags: Flags)
    ensures var u := Unpacked(raw, flags);
            var i := ToInfo(u);
            i.state == u.stateName && i.txOptions == u.txOptions && i.rxOptions == u.rxOptions && i.sys == Some(u)
    ensures var c := ToInfo(Unpacked(raw, flags)).counters;
            && c.txMss == raw(SND_MSS) && c.rxMss == raw(RCV_MSS)
            && c.rtt == raw(RTT) * 1000 && c.rttVar == raw(RTTVAR) * 1000
            && c.rto == raw(RTO) * 1000 && c.ato == raw(ATO) * 1000
            && c.lastTxAt == raw(LAST_DATA_SENT) * 1000 && c.lastRxAt == raw(LAST_DATA_RECV) * 1000
            && c.lastTxAckAt == raw(LAST_ACK_SENT) * 1000 && c.lastRxAckAt == raw(LAST_ACK_RECV) * 1000
            && c.rxWindow == raw(RCV_SPACE) && c.txSsThreshold == raw(SND_SSTHRESH)
            && c.rxSsThreshold == raw(RCV_SSTHRESH) && c.txWindowSegs == raw(SND_CWND)
            && c.retransmits == raw(TOTAL_RETRANS)
  {
    CommonFieldsAreShown(raw, flags);
  }

  /** What a copy keeps of an option slice: an empty one becomes nil. */
  function Trimmed(options: Options): Options {
    if options == Some([]) then None else options
  }

  function TrimmedSys(s: SysValue): SysValue {
    s.(txOptions := Trimmed(s.txOptions), rxOptions := Trimmed(s.rxOptions))
  }

  /** The value of a deep copy. */
  function TrimmedInfo(i: InfoValue): InfoValue {
    i.(txOptions := Trimmed(i.txOptions), rxOptions := Trimmed(i.rxOptions),
       sys := if i.sys.Some? then Some(TrimmedSys(i.sys.value)) else None)
  }

  lemma {:induction false} OptionListIsTrimmed(bits: nat, scale: nat, k: nat)
    requires k <= 8
    ensures Trimmed(OptionList(bits, scale, k)) == OptionList(bits, scale, k)
  {
    if k > 0 { OptionListIsTrimmed(bits, scale, k - 1); }
  }

  lemma UnpackedIsTrimmed(raw: Raw, flags: Flags)
    ensures var u := Unpacked(raw, flags); TrimmedSys(u) == u
  {
    OptionListIsTrimmed(raw(OPTIONS), raw(BITFIELD0) % 16, 8);
    OptionListIsTrimmed(raw(OPTIONS), raw(BITFIELD0) / 16, 8);
  }

  lemma TrimmedSysMakesTrimmedInfo(s: SysValue)
    requires TrimmedSys(s) == s
    ensures TrimmedInfo(ToInfo(s)) == ToInfo(s)
  {
  }

  /** Copying a report that came from the kernel loses nothing. */
  lemma KernelReportsAreTrimmed(flags: Flags, sys: Syscalls)
    ensures var r := GetTcpInfo(flags, sys);
            r.info.Some? ==> TrimmedInfo(ToInfo(r.info.value)) == ToInfo(r.info.value)
  {
    var r := GetTcpInfo(flags, sys);
    if r.info.Some? {
      var u := Unpacked(sys.raw.value, flags);
      UnpackedIsTrimmed(sys.raw.value, flags);
      assert r.info.value.txOptions == u.txOptions && r.info.value.rxOptions == u.rxOptions;
      TrimmedSysMakesTrimmedInfo(r.info.value);
    }
  }
}
