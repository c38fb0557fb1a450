/**
 Adapting to the running kernel (pkg/tcpinfo/init_linux.go): a table of kernel versions selects how many
 bytes of `tcp_info` are asked for and which feature flags are raised.
 */
module Adaptation {
  import opened Wrappers
  import opened Kernel

  datatype Row = Row(version: VersionInfo, size: int)

  function V(kernel: int, major: int, minor: int): VersionInfo {
    VersionInfo(kernel, major, minor, "")
  }

  const TABLE: seq<Row> := [
    Row(V(2, 6, 2), 104), Row(V(3, 15, 0), 120), Row(V(4, 1, 0), 136), Row(V(4, 2, 0), 144), Row(V(4, 6, 0), 160),
    Row(V(4, 9, 0), 148), Row(V(4, 10, 0), 192), Row(V(4, 18, 0), 200), Row(V(4, 19, 0), 224), Row(V(5, 4, 0), 232),
    Row(V(5, 5, 0), 232), Row(V(6, 2, 0), 240), Row(V(6, 7, 0), 248)
  ]

  /** The version assumed when the kernel's own cannot be read. */
  const FALLBACK := V(2, 6, 2)

  /** What the flags mean: flag `i` says that the kernel is at least as new as row `i`. */
  predicate FlagsMatch(flags: seq<bool>, v: VersionInfo) {
    |flags| == |TABLE| && forall i | 0 <= i < |TABLE| :: flags[i] == AtLeast(v, TABLE[i].version)
  }

  /** Row `i` is the latest one that is not above `v`. */
  predicate LatestRow(v: VersionInfo, i: int) {
    && 0 <= i < |TABLE|
    && AtLeast(v, TABLE[i].version)
    && forall j | i < j < |TABLE| :: !AtLeast(v, TABLE[j].version)
  }

  lemma TableIsSorted(i: int, j: int)
    requires 0 <= i <= j < |TABLE|
    ensures AtLeast(TABLE[j].version, TABLE[i].version)
    decreases j - i
  {
    if i < j {
      assert AtLeast(TABLE[i + 1].version, TABLE[i].version);
      TableIsSorted(i + 1, j);
      CompareIsTotalPreorder(TABLE[j].version, TABLE[i + 1].version, TABLE[i].version);
    }
  }

  /** Because the table is sorted, a version at least as new as one row is at least as new as all earlier rows. */
  lemma EarlierRowsToo(v: VersionInfo, i: int)
    requires 0 <= i < |TABLE| && AtLeast(v, TABLE[i].version)
    ensures forall j | 0 <= j <= i :: AtLeast(v, TABLE[j].version)
  {
    forall j | 0 <= j <= i ensures AtLeast(v, TABLE[j].version) {
      TableIsSorted(j, i);
      CompareIsTotalPreorder(v, TABLE[i].version, TABLE[j].version);
    }
  }

  /** The package's globals: the remembered version, the flags the table points to, the size to ask for. */
  class Adapter {
    var version: Option<VersionInfo>
    var flags: array<bool>
    var size: int

    ghost predicate Valid()
      reads this
    {
      flags.Length == |TABLE|
    }

    constructor ()
      ensures Valid() && version == None && size == 0 && fresh(flags)
      ensures forall i | 0 <= i < flags.Length :: !flags[i]
    {
      version, size := None, 0;
      flags := new bool[|TABLE|](_ => false);
    }

    predicate Supported()
      requires Valid()
      reads this, flags
    {
      flags[0]
    }

    /** `detected` is what reading the kernel's version gave, `None` for an error; it matters on the first call only. */
    method Adapt(detected: Option<VersionInfo>)
      requires Valid()
      modifies this`version, this`size, flags
      ensures Valid() && flags == old(flags)
      ensures version == Some(match old(version)
                              case Some(v) => v
                              case None => if detected.Some? then detected.value else FALLBACK)
      ensures FlagsMatch(flags[..], version.value)
      ensures if Supported() then exists i :: LatestRow(version.value, i) && size == TABLE[i].size
              else size == old(size)
    {
      if version == None {
        version := if detected.Some? then detected else Some(FALLBACK);
      }
      var v := version.value;
      var i := |TABLE| - 1;
      while i >= 0
        invariant -1 <= i < |TABLE| && version == Some(v) && size == old(size)
        invariant forall k | i < k < |TABLE| :: !flags[k] && !AtLeast(v, TABLE[k].version)
      {
        if Compare(v, TABLE[i].version) >= 0 {
          size := TABLE[i].size;
          var j := i;
          while j >= 0
            invariant -1 <= j <= i && version == Some(v) && size == TABLE[i].size
            invariant forall k | j < k <= i :: flags[k]
            invariant forall k | i < k < |TABLE| :: !flags[k]
          {
            flags[j] := true;
            j := j - 1;
          }
          EarlierRowsToo(v, i);
          assert LatestRow(v, i);
          return;
        } else {
          flags[i] := false;
        }
        i := i - 1;
      }
    }

    /** Overrides the version, as the package's tests do between adaptations. */
    method Override(v: VersionInfo)
      modifies this`version
      ensures version == Some(v)
    {
      version := Some(v);
    }

    /** Any number of overrides, each followed by an adaptation: only the last version counts for the flags. */
    method Readapt(versions: seq<VersionInfo>)
      requires Valid()
      modifies this`version, this`size, flags
      ensures Valid() && flags == old(flags)
      ensures size == SizeAfter(old(size), versions)
      ensures versions != [] ==>
                version == Some(versions[|versions| - 1]) && FlagsMatch(flags[..], versions[|versions| - 1])
      ensures versions == [] ==> flags[..] == old(flags[..])
    {
      for k := 0 to |versions|
        invariant size == SizeAfter(old(size), versions[..k])
        invariant k > 0 ==> version == Some(versions[k - 1]) && FlagsMatch(flags[..], versions[k - 1])
        invariant k == 0 ==> flags[..] == old(flags[..])
      {
        Override(versions[k]);
        Adapt(None);
        SupportedMeansRow(versions[k]);
        if Supported() {
          var i :| LatestRow(versions[k], i) && size == TABLE[i].size;
          LatestRowIsUnique(versions[k], i);
        }
        assert versions[..k + 1][..k] == versions[..k];
      }
      assert versions[..|versions|] == versions;
    }
  }

  lemma LatestRowIsUnique(v: VersionInfo, i: int)
    requires LatestRow(v, i)
    ensures forall j :: LatestRow(v, j) ==> j == i
  {
  }

  /** A version is supported exactly when it has a row. */
  lemma SupportedMeansRow(v: VersionInfo)
    ensures AtLeast(v, TABLE[0].version) <==> exists i :: LatestRow(v, i)
  {
    if AtLeast(v, TABLE[0].version) {
      var i := |TABLE| - 1;
      while !AtLeast(v, TABLE[i].version)
        invariant 0 <= i < |TABLE|
        invariant forall j | i < j < |TABLE| :: !AtLeast(v, TABLE[j].version)
        decreases i
      {
        i := i - 1;
      }
      assert LatestRow(v, i);
    }
    forall i | LatestRow(v, i) ensures AtLeast(v, TABLE[0].version) {
      EarlierRowsToo(v, i);
    }
  }

  /** The size of the latest row not above a version that has one. */
  ghost function SizeFor(v: VersionInfo): (size: int)
    requires AtLeast(v, TABLE[0].version)
    ensures 104 <= size <= 248
    ensures forall i :: LatestRow(v, i) ==> size == TABLE[i].size
  {
    SupportedMeansRow(v);
    var i :| LatestRow(v, i);
    LatestRowIsUnique(v, i);
    TABLE[i].size
  }

  /** The size after a series of adaptations: a stale one survives unsupported versions only. */
  ghost function SizeAfter(initial: int, versions: seq<VersionInfo>): int {
    if versions == [] then initial
    else
      var v := versions[|versions| - 1];
      if AtLeast(v, TABLE[0].version) then SizeFor(v) else SizeAfter(initial, versions[..|versions| - 1])
  }

  /** After any series of adaptations, a supported kernel has the size of its own row, never a stale one. */
  lemma SizeIsCurrentWhenSupported(initial: int, versions: seq<VersionInfo>, v: VersionInfo)
    ensures AtLeast(v, TABLE[0].version) ==>
              exists i :: LatestRow(v, i) && SizeAfter(initial, versions + [v]) == TABLE[i].size <= 248
    ensures !AtLeast(v, TABLE[0].version) ==> SizeAfter(initial, versions + [v]) == SizeAfter(initial, versions)
  {
    assert (versions + [v])[..|versions|] == versions;
    SupportedMeansRow(v);
    if AtLeast(v, TABLE[0].version) {
      var i :| LatestRow(v, i);
      assert SizeFor(v) == TABLE[i].size;
    }
  }

  /** The fallback is 2.6.2, the oldest version of the table: the least kernel that is supported, with 104 bytes. */
  lemma FallbackIsTheOldest(v: VersionInfo)
    ensures (FALLBACK.kernel, FALLBACK.major, FALLBACK.minor) == (2, 6, 2)
    ensures AtLeast(v, TABLE[0].version) <==> AtLeast(v, FALLBACK)
    ensures forall i | 0 <= i < |TABLE| :: AtLeast(TABLE[i].version, FALLBACK)
    ensures LatestRow(FALLBACK, 0) && SizeFor(FALLBACK) == 104
  {
    forall i | 0 <= i < |TABLE| ensures AtLeast(TABLE[i].version, FALLBACK) {
      TableIsSorted(0, i);
    }
    assert LatestRow(FALLBACK, 0);
  }
}
