/**
 The layout of the kernel's `tcp_info` and the fields `Unpack` marks as valid
 (pkg/tcpinfo/tcpinfo_linux.go against the version table of pkg/tcpinfo/init_linux.go).
 */
module RawLayout {
  import opened Wrappers
  import opened Kernel
  import opened Adaptation

  /** A field of `RawTCPInfo`, as its position in the declaration. */
  type Field = i: nat | i < 59 witness 0

  const STATE: Field := 0
  const CA_STATE: Field := 1
  const RETRANSMITS: Field := 2
  const PROBES: Field := 3
  const BACKOFF: Field := 4
  const OPTIONS: Field := 5
  const BITFIELD0: Field := 6
  const BITFIELD1: Field := 7
  const RTO: Field := 8
  const ATO: Field := 9
  const SND_MSS: Field := 10
  const RCV_MSS: Field := 11
  const UNACKED: Field := 12
  const SACKED: Field := 13
  const LOST: Field := 14
  const RETRANS: Field := 15
  const FACKETS: Field := 16
  const LAST_DATA_SENT: Field := 17
  const LAST_ACK_SENT: Field := 18
  const LAST_DATA_RECV: Field := 19
  const LAST_ACK_RECV: Field := 20
  const PMTU: Field := 21
  const RCV_SSTHRESH: Field := 22
  const RTT: Field := 23
  const RTTVAR: Field := 24
  const SND_SSTHRESH: Field := 25
  const SND_CWND: Field := 26
  const ADVMSS: Field := 27
  const REORDERING: Field := 28
  const RCV_RTT: Field := 29
  const RCV_SPACE: Field := 30
  const TOTAL_RETRANS: Field := 31
  const PACING_RATE: Field := 32
  const MAX_PACING_RATE: Field := 33
  const BYTES_ACKED: Field := 34
  const BYTES_RECEIVED: Field := 35
  const SEGS_OUT: Field := 36
  const SEGS_IN: Field := 37
  const NOTSENT_BYTES: Field := 38
  const MIN_RTT: Field := 39
  const DATA_SEGS_IN: Field := 40
  const DATA_SEGS_OUT: Field := 41
  const DELIVERY_RATE: Field := 42
  const BUSY_TIME: Field := 43
  const RWND_LIMITED: Field := 44
  const SNDBUF_LIMITED: Field := 45
  const DELIVERED: Field := 46
  const DELIVERED_CE: Field := 47
  const BYTES_SENT: Field := 48
  const BYTES_RETRANS: Field := 49
  const DSACK_DUPS: Field := 50
  const REORD_SEEN: Field := 51
  const RCV_OOOPACK: Field := 52
  const SND_WND: Field := 53
  const RCV_WND: Field := 54
  const REHASH: Field := 55
  const TOTAL_RTO: Field := 56
  const TOTAL_RTO_RECOVERIES: Field := 57
  const TOTAL_RTO_TIME: Field := 58

  /** Bytes: uint8, uint16, uint32 or uint64; the declaration is ten runs of equal width. */
  function Width(f: Field): nat {
    if f <= BITFIELD1 then 1
    else if f <= TOTAL_RETRANS then 4
    else if f <= BYTES_RECEIVED then 8
    else if f <= DATA_SEGS_OUT then 4
    else if f <= SNDBUF_LIMITED then 8
    else if f <= DELIVERED_CE then 4
    else if f <= BYTES_RETRANS then 8
    else if f <= REHASH then 4
    else if f <= TOTAL_RTO_RECOVERIES then 2
    else 4
  }

  /** The offset just past each field, as the comments of the declaration count it. */
  function DocumentedEnd(f: Field): nat {
    if f <= BITFIELD1 then f + 1
    else if f <= TOTAL_RETRANS then 8 + 4 * (f - BITFIELD1)
    else if f <= BYTES_RECEIVED then 104 + 8 * (f - TOTAL_RETRANS)
    else if f <= DATA_SEGS_OUT then 136 + 4 * (f - BYTES_RECEIVED)
    else if f <= SNDBUF_LIMITED then 160 + 8 * (f - DATA_SEGS_OUT)
    else if f <= DELIVERED_CE then 192 + 4 * (f - SNDBUF_LIMITED)
    else if f <= BYTES_RETRANS then 200 + 8 * (f - DELIVERED_CE)
    else if f <= REHASH then 216 + 4 * (f - BYTES_RETRANS)
    else if f <= TOTAL_RTO_RECOVERIES then 240 + 2 * (f - REHASH)
    else 248
  }

  // ----- Offsets from widths and alignment -----

  /** A field is aligned to its width; a uint64 to `align64`, which is 8, or 4 on 32-bit x86. */
  function Alignment(f: Field, align64: nat): nat {
    if Width(f) == 8 then align64 else Width(f)
  }

  function RoundUp(n: nat, align: nat): nat
    requires align > 0
  {
    if align == 1 || n % align == 0 then n else n + align - n % align
  }

  function Offset(f: Field, align64: nat): nat
    requires align64 > 0
  {
    if f == STATE then 0 else RoundUp(Offset(f - 1, align64) + Width(f - 1), Alignment(f, align64))
  }

  function End(f: Field, align64: nat): nat
    requires align64 > 0
  {
    Offset(f, align64) + Width(f)
  }

  lemma DocumentedStep(f: Field, align64: nat)
    requires f > 0 && (align64 == 4 || align64 == 8)
    ensures RoundUp(DocumentedEnd(f - 1), Alignment(f, align64)) == DocumentedEnd(f - 1)
    ensures DocumentedEnd(f) == DocumentedEnd(f - 1) + Width(f)
  {
    var align, end := Alignment(f, align64), DocumentedEnd(f - 1);
    if align == 8 { assert end % 8 == 0; } else if align == 4 { assert end % 4 == 0; }
  }

  /** Both alignments of uint64 give the documented offsets. */
  lemma {:induction false} LayoutIsAsDocumented(f: Field, align64: nat)
    requires align64 == 4 || align64 == 8
    ensures End(f, align64) == DocumentedEnd(f)
  {
    if f > 0 {
      LayoutIsAsDocumented(f - 1, align64);
      DocumentedStep(f, align64);
      calc {
        Offset(f, align64);
        RoundUp(End(f - 1, align64), Alignment(f, align64));
        DocumentedEnd(f - 1);
      }
    }
  }

  // ----- What Unpack reports -----

  /** The row of the version table whose flag admits the field; `None` for a field every kernel has. */
  function Gate(f: Field): (gate: Option<nat>)
    ensures gate.Some? ==> 1 <= gate.value <= 11
  {
    if f <= TOTAL_RETRANS then None
    else if f <= MAX_PACING_RATE then Some(1)
    else if f <= BYTES_RECEIVED then Some(2)
    else if f <= SEGS_IN then Some(3)
    else if f <= DATA_SEGS_OUT then Some(4)
    else if f <= DELIVERY_RATE then Some(5)
    else if f <= SNDBUF_LIMITED then Some(6)
    else if f <= DELIVERED_CE then Some(7)
    else if f <= REORD_SEEN then Some(8)
    else if f <= SND_WND then Some(9)
    else Some(11)
  }

  /** `Unpack` marks the field as valid on a kernel of version `v`. */
  predicate MarkedValid(f: Field, v: VersionInfo) {
    match Gate(f)
    case None => true
    case Some(row) => AtLeast(v, TABLE[row].version)
  }

  /** The release that introduced the field, as the comments of the declaration say; `None` for the original ones. */
  function IntroducedIn(f: Field): Option<VersionInfo> {
    if f == PACING_RATE || f == MAX_PACING_RATE then Some(V(3, 15, 0))
    else if f == BYTES_ACKED || f == BYTES_RECEIVED then Some(V(4, 1, 0))
    else if f == SEGS_OUT || f == SEGS_IN then Some(V(4, 2, 0))
    else if f == NOTSENT_BYTES || f == MIN_RTT || f == DATA_SEGS_IN || f == DATA_SEGS_OUT then Some(V(4, 6, 0))
    else if f == DELIVERY_RATE then Some(V(4, 9, 0))
    else if f == BUSY_TIME || f == RWND_LIMITED || f == SNDBUF_LIMITED then Some(V(4, 10, 0))
    else if f == DELIVERED || f == DELIVERED_CE then Some(V(4, 18, 0))
    else if f == BYTES_SENT || f == BYTES_RETRANS || f == DSACK_DUPS || f == REORD_SEEN then Some(V(4, 19, 0))
    else if f == RCV_OOOPACK || f == SND_WND then Some(V(5, 4, 0))
    else if f == RCV_WND || f == REHASH then Some(V(6, 2, 0))
    else if f == TOTAL_RTO || f == TOTAL_RTO_RECOVERIES || f == TOTAL_RTO_TIME then Some(V(6, 7, 0))
    else None
  }

  /** A kernel of version `v` has the field. */
  predicate Introduced(f: Field, v: VersionInfo) {
    IntroducedIn(f) == None || AtLeast(v, IntroducedIn(f).value)
  }

  predicate Between(v: VersionInfo, low: VersionInfo, high: VersionInfo) {
    AtLeast(v, low) && !AtLeast(v, high)
  }

  /** The fields reported although the requested length stops short of them. */
  function BeyondLength(v: VersionInfo): set<Field> {
    if Between(v, V(4, 9, 0), V(4, 10, 0)) then {MIN_RTT, DATA_SEGS_IN, DATA_SEGS_OUT, DELIVERY_RATE}
    else if Between(v, V(6, 2, 0), V(6, 7, 0)) then {TOTAL_RTO, TOTAL_RTO_RECOVERIES, TOTAL_RTO_TIME}
    else {}
  }

  /** On a kernel whose latest row is `i`, a field is valid when its gate is no later. */
  predicate GateOpen(f: Field, i: int) {
    Gate(f) == None || Gate(f).value <= i
  }

  lemma RowReached(v: VersionInfo, i: int, row: int)
    requires LatestRow(v, i) && 0 <= row < |TABLE|
    ensures AtLeast(v, TABLE[row].version) <==> row <= i
  {
    EarlierRowsToo(v, i);
  }

  /** A kernel whose latest row is `i` is at least of the versions up to that row. */
  lemma VersionsOnRow(v: VersionInfo, i: int)
    requires LatestRow(v, i)
    ensures AtLeast(v, V(3, 15, 0)) <==> i >= 1
    ensures AtLeast(v, V(4, 1, 0)) <==> i >= 2
    ensures AtLeast(v, V(4, 2, 0)) <==> i >= 3
    ensures AtLeast(v, V(4, 6, 0)) <==> i >= 4
    ensures AtLeast(v, V(4, 9, 0)) <==> i >= 5
    ensures AtLeast(v, V(4, 10, 0)) <==> i >= 6
    ensures AtLeast(v, V(4, 18, 0)) <==> i >= 7
    ensures AtLeast(v, V(4, 19, 0)) <==> i >= 8
    ensures AtLeast(v, V(5, 4, 0)) <==> i >= 9
    ensures AtLeast(v, V(6, 2, 0)) <==> i >= 11
    ensures AtLeast(v, V(6, 7, 0)) <==> i >= 12
  {
    RowReached(v, i, 1);
    RowReached(v, i, 2);
    RowReached(v, i, 3);
    RowReached(v, i, 4);
    RowReached(v, i, 5);
    RowReached(v, i, 6);
    RowReached(v, i, 7);
    RowReached(v, i, 8);
    RowReached(v, i, 9);
    RowReached(v, i, 11);
    RowReached(v, i, 12);
  }

  lemma GateOnRow(f: Field, v: VersionInfo, i: int)
    requires LatestRow(v, i)
    ensures MarkedValid(f, v) <==> GateOpen(f, i)
    ensures Between(v, V(4, 9, 0), V(4, 10, 0)) <==> i == 5
    ensures Between(v, V(6, 2, 0), V(6, 7, 0)) <==> i == 11
  {
    if Gate(f).Some? { RowReached(v, i, Gate(f).value); }
    VersionsOnRow(v, i);
  }

  lemma EndAgainstRow(f: Field, i: int)
    requires 0 <= i < |TABLE| && GateOpen(f, i)
    ensures DocumentedEnd(f) <= TABLE[i].size <==> !((i == 5 && f >= MIN_RTT) || (i == 11 && f >= TOTAL_RTO))
    ensures DocumentedEnd(f) <= TABLE[i].size || DocumentedEnd(f) - Width(f) >= TABLE[i].size
  {
  }

  /**
   On every supported kernel, a field reported as valid lies within the requested length except, exactly,
   the four fields of the 4.9 window and the three of the 6.2 window, which lie wholly past it.
   */
  lemma ValidityAgainstLayout(f: Field, v: VersionInfo, align64: nat)
    requires align64 == 4 || align64 == 8
    requires AtLeast(v, TABLE[0].version) && MarkedValid(f, v)
    ensures End(f, align64) <= SizeFor(v) <==> f !in BeyondLength(v)
    ensures f in BeyondLength(v) ==> Offset(f, align64) >= SizeFor(v)
  {
    LayoutIsAsDocumented(f, align64);
    SupportedMeansRow(v);
    var i :| LatestRow(v, i);
    GateOnRow(f, v, i);
    EndAgainstRow(f, i);
  }

  /** Every exceptional field is reported: the two windows are real. */
  lemma BeyondLengthIsReported(f: Field, v: VersionInfo)
    requires f in BeyondLength(v)
    ensures AtLeast(v, TABLE[0].version) && MarkedValid(f, v)
  {
    EarlierRowsToo(v, if Between(v, V(4, 9, 0), V(4, 10, 0)) then 5 else 11);
  }

  /** A field is reported exactly on the kernels that have it, except the RTO totals between 6.2 and 6.7. */
  lemma ReportedOnlyWhereIntroduced(f: Field, v: VersionInfo)
    ensures MarkedValid(f, v) <==>
            || Introduced(f, v)
            || (Between(v, V(6, 2, 0), V(6, 7, 0)) && f in {TOTAL_RTO, TOTAL_RTO_RECOVERIES, TOTAL_RTO_TIME})
  {
    if AtLeast(v, TABLE[12].version) { EarlierRowsToo(v, 12); }
  }

  /** The last field that a kernel of each row has. */
  const LAST_FIELD: seq<Field> := [
    TOTAL_RETRANS, MAX_PACING_RATE, BYTES_RECEIVED, SEGS_IN, DATA_SEGS_OUT, DELIVERY_RATE, SNDBUF_LIMITED,
    DELIVERED_CE, REORD_SEEN, SND_WND, SND_WND, REHASH, TOTAL_RTO_TIME
  ]

  lemma IntroducedOnRow(f: Field, v: VersionInfo, i: int)
    requires LatestRow(v, i)
    ensures Introduced(f, v) <==> f <= LAST_FIELD[i]
  {
    VersionsOnRow(v, i);
  }

  lemma DocumentedEndsGrow(f: Field, g: Field)
    requires f <= g
    ensures DocumentedEnd(f) <= DocumentedEnd(g)
  {
  }

  /** The requested length ends with field `f`, the last one the kernel has. */
  ghost predicate EndsWith(v: VersionInfo, f: Field, align64: nat)
    requires align64 > 0 && AtLeast(v, TABLE[0].version)
  {
    && Introduced(f, v) && End(f, align64) == SizeFor(v)
    && forall g: Field | Introduced(g, v) :: End(g, align64) <= SizeFor(v)
  }

  /**
   On every supported kernel the length asked for is exactly that of the struct the kernel has, except from 4.9 up to
   4.10, where it is 148.
   */
  lemma LengthIsThatOfTheKernel(v: VersionInfo, align64: nat)
    requires (align64 == 4 || align64 == 8) && AtLeast(v, TABLE[0].version)
    ensures (exists f: Field :: EndsWith(v, f, align64)) <==> !Between(v, V(4, 9, 0), V(4, 10, 0))
    ensures Between(v, V(4, 9, 0), V(4, 10, 0)) ==> SizeFor(v) == 148
  {
    SupportedMeansRow(v);
    var i :| LatestRow(v, i);
    assert SizeFor(v) == TABLE[i].size;
    GateOnRow(STATE, v, i);
    if i == 5 {
      LayoutIsAsDocumented(DELIVERY_RATE, align64);
      IntroducedOnRow(DELIVERY_RATE, v, i);
    } else {
      LengthOnRow(v, i, align64);
    }
  }

  lemma SizeOfRow(i: int)
    requires 0 <= i < |TABLE| && i != 5
    ensures DocumentedEnd(LAST_FIELD[i]) == TABLE[i].size
  {
  }

  lemma FieldFitsRow(f: Field, v: VersionInfo, i: int, align64: nat)
    requires (align64 == 4 || align64 == 8) && LatestRow(v, i) && i != 5 && Introduced(f, v)
    ensures End(f, align64) <= TABLE[i].size
    ensures f == LAST_FIELD[i] ==> End(f, align64) == TABLE[i].size
  {
    IntroducedOnRow(f, v, i);
    LayoutIsAsDocumented(f, align64);
    DocumentedEndsGrow(f, LAST_FIELD[i]);
    SizeOfRow(i);
  }

  lemma LengthOnRow(v: VersionInfo, i: int, align64: nat)
    requires (align64 == 4 || align64 == 8) && LatestRow(v, i) && i != 5
    requires AtLeast(v, TABLE[0].version) && SizeFor(v) == TABLE[i].size
    ensures EndsWith(v, LAST_FIELD[i], align64)
  {
    forall g: Field | Introduced(g, v) ensures End(g, align64) <= SizeFor(v) {
      FieldFitsRow(g, v, i, align64);
    }
    IntroducedOnRow(LAST_FIELD[i], v, i);
    FieldFitsRow(LAST_FIELD[i], v, i, align64);
  }

  // ----- What the system call leaves in the buffer -----

  /** One value for each field. */
  type Raw = Field -> nat

  function Power256(k: nat): (p: nat)
    ensures p > 0
  {
    if k == 0 then 1 else 256 * Power256(k - 1)
  }

  /** The zeroed struct after the kernel wrote the first `length` bytes of its own, little-endian. */
  function Fetched(kernel: Raw, length: int, align64: nat): Raw
    requires align64 > 0
  {
    (f: Field) =>
      if End(f, align64) <= length then kernel(f)
      else if Offset(f, align64) < length then kernel(f) % Power256(length - Offset(f, align64))
      else 0
  }

  /** A valid field carries the kernel's own number, except in the two windows, where it is always zero. */
  lemma FetchedValueOfValidField(kernel: Raw, f: Field, v: VersionInfo, align64: nat)
    requires align64 == 4 || align64 == 8
    requires AtLeast(v, TABLE[0].version) && MarkedValid(f, v)
    ensures Fetched(kernel, SizeFor(v), align64)(f) == if f in BeyondLength(v) then 0 else kernel(f)
  {
    ValidityAgainstLayout(f, v, align64);
  }
}
