/**
 The order in which httpstat prints response headers (cmd/httpstat/main.go): `Server` first, then
 the end-to-end headers, then the hop-by-hop headers of section 13.5.1 of RFC 2616.
 The names printed are the keys of a map, so they are distinct.
 */
module Headers {

  /** Go compares strings byte by byte, which on UTF-8 is rune by rune. */
  predicate Before(a: string, b: string) {
    if b == "" then false
    else if a == "" then true
    else if a[0] != b[0] then a[0] < b[0]
    else Before(a[1..], b[1..])
  }

  /** The strings agree up to position `k`, where the first one ends or has the smaller rune. */
  predicate DiffersAt(a: string, b: string, k: nat) {
    && k <= |a| && k < |b| && a[..k] == b[..k]
    && (k == |a| || a[k] < b[k])
  }

  ghost predicate InDictionaryOrder(a: string, b: string) {
    exists k: nat :: DiffersAt(a, b, k)
  }

  const HOP_BY_HOP: set<string> := {
    "Connection", "Keep-Alive", "Proxy-Authenticate", "Proxy-Authorization",
    "TE", "Trailers", "Transfer-Encoding", "Upgrade"
  }

  /** The list of section 13.5.1 of RFC 2616. */
  predicate IsHopByHop(name: string) {
    || name == "Connection" || name == "Keep-Alive" || name == "Proxy-Authenticate" || name == "Proxy-Authorization"
    || name == "TE" || name == "Trailers" || name == "Transfer-Encoding" || name == "Upgrade"
  }

  predicate EndToEnd(name: string) {
    name !in HOP_BY_HOP
  }

  predicate Less(a: string, b: string) {
    if a == "Server" then true
    else if b == "Server" then false
    else if EndToEnd(a) == EndToEnd(b) then Before(a, b)
    else EndToEnd(a)
  }

  // ----- A strict total order on distinct names -----

  lemma {:induction false} BeforeIsTrichotomous(a: string, b: string)
    ensures a == b ==> !Before(a, b)
    ensures a != b ==> Before(a, b) == !Before(b, a)
  {
    if a != "" && b != "" && a[0] == b[0] {
      BeforeIsTrichotomous(a[1..], b[1..]);
      assert a == [a[0]] + a[1..] && b == [b[0]] + b[1..];
    }
  }

  lemma AgreeAtStart(a: string, b: string, k: nat)
    requires DiffersAt(a, b, k)
    ensures k > 0 ==> a != "" && b != "" && a[0] == b[0]
  {
    if k > 0 { assert a[..k][0] == b[..k][0]; }
  }

  /** The order is that of the first difference, a proper prefix coming first. */
  lemma {:induction false} BeforeIsDictionaryOrder(a: string, b: string)
    ensures Before(a, b) <==> InDictionaryOrder(a, b)
  {
    if a == "" || b == "" || a[0] != b[0] {
      if Before(a, b) { assert DiffersAt(a, b, 0); }
      forall k: nat | DiffersAt(a, b, k) ensures Before(a, b) {
        AgreeAtStart(a, b, k);
      }
    } else {
      BeforeIsDictionaryOrder(a[1..], b[1..]);
      forall k: nat | DiffersAt(a[1..], b[1..], k) ensures DiffersAt(a, b, k + 1) {
        assert a[..k + 1] == [a[0]] + a[1..][..k] && b[..k + 1] == [b[0]] + b[1..][..k];
      }
      forall k: nat | DiffersAt(a, b, k) ensures k > 0 && DiffersAt(a[1..], b[1..], k - 1) {
        assert a[1..][..k - 1] == a[..k][1..] && b[1..][..k - 1] == b[..k][1..];
      }
    }
  }

  lemma {:induction false} BeforeIsTransitive(a: string, b: string, c: string)
    requires Before(a, b) && Before(b, c)
    ensures Before(a, c)
  {
    if a != "" && a[0] == b[0] == c[0] { BeforeIsTransitive(a[1..], b[1..], c[1..]); }
  }

  /** Two different names are ordered one way and not the other. */
  lemma LessIsTrichotomous(a: string, b: string)
    requires a != b
    ensures Less(a, b) == !Less(b, a)
  {
    BeforeIsTrichotomous(a, b);
  }

  /** A name precedes itself in one case only, which is why distinctness matters. */
  lemma LessIsIrreflexiveButForServer(a: string)
    ensures Less(a, a) <==> a == "Server"
  {
    BeforeIsTrichotomous(a, a);
  }

  lemma LessIsTransitive(a: string, b: string, c: string)
    requires a != b && b != c && Less(a, b) && Less(b, c)
    ensures Less(a, c)
  {
    if a != "Server" && EndToEnd(a) == EndToEnd(b) == EndToEnd(c) { BeforeIsTransitive(a, b, c); }
  }

  // ----- Sorted lists of names -----

  ghost predicate Distinct(names: seq<string>) {
    forall i, j | 0 <= i < j < |names| :: names[i] != names[j]
  }

  /** What `sort.Sort` leaves behind: no name is preceded by one that should follow it. */
  ghost predicate Sorted(names: seq<string>) {
    forall i, j | 0 <= i < j < |names| :: !Less(names[j], names[i])
  }

  ghost function Names(names: seq<string>): set<string> {
    set n | n in names
  }

  /** Of a non-empty set of names, the one that precedes all the others. */
  lemma {:induction false} LeastExists(s: set<string>) returns (least: string)
    requires s != {}
    ensures least in s && forall n | n in s && n != least :: Less(least, n)
    decreases |s|
  {
    var x :| x in s;
    if s == {x} {
      least := x;
    } else {
      var rest := s - {x};
      assert rest != {};
      var y := LeastExists(rest);
      LessIsTrichotomous(x, y);
      least := if Less(x, y) then x else y;
      forall n | n in s && n != least ensures Less(least, n) {
        if n in rest && n != y && least == x { LessIsTransitive(x, y, n); }
      }
    }
  }

  /** Every set of names has a sorted listing. */
  lemma {:induction false} SortedListingExists(s: set<string>) returns (names: seq<string>)
    ensures Names(names) == s && Distinct(names) && Sorted(names)
    decreases |s|
  {
    if s == {} {
      names := [];
    } else {
      var least := LeastExists(s);
      var tail := SortedListingExists(s - {least});
      names := [least] + tail;
      assert forall n :: n in names <==> n == least || n in tail;
      assert forall n :: n in tail <==> n in Names(tail);
      forall i, j | 0 <= i < j < |names| ensures names[i] != names[j] && !Less(names[j], names[i]) {
        if i == 0 {
          assert names[j] in Names(tail);
          LessIsTrichotomous(least, names[j]);
        }
      }
    }
  }

  lemma SortedHeadIsLeast(names: seq<string>)
    requires names != [] && Distinct(names) && Sorted(names)
    ensures forall n | n in names && n != names[0] :: Less(names[0], n)
  {
    forall n | n in names && n != names[0] ensures Less(names[0], n) {
      LessIsTrichotomous(names[0], n);
    }
  }

  /** Distinct names have exactly one sorted listing: any two that hold the same names are equal. */
  lemma {:induction false} SortedListingIsUnique(a: seq<string>, b: seq<string>)
    requires Distinct(a) && Sorted(a) && Distinct(b) && Sorted(b)
    requires Names(a) == Names(b)
    ensures a == b
  {
    NoNames(a);
    NoNames(b);
    if a != [] {
      SortedHeadIsLeast(a);
      SortedHeadIsLeast(b);
      assert a[0] in Names(a) && b[0] in Names(b);
      if a[0] != b[0] { LessIsTrichotomous(a[0], b[0]); }
      NamesOfTail(a);
      NamesOfTail(b);
      SortedListingIsUnique(a[1..], b[1..]);
    }
  }

  lemma NoNames(names: seq<string>)
    ensures Names(names) == {} <==> names == []
  {
    if names != [] { assert names[0] in Names(names); }
  }

  lemma NamesOfTail(names: seq<string>)
    requires names != [] && Distinct(names)
    ensures Names(names[1..]) == Names(names) - {names[0]}
    ensures Sorted(names) ==> Sorted(names[1..])
  {
    var tail := names[1..];
    assert forall n | n in tail :: n in names;
    forall n | n in Names(names) - {names[0]} ensures n in Names(tail) {
      var i :| 0 <= i < |names| && names[i] == n;
      assert tail[i - 1] == n;
    }
  }

  // ----- The shape of the sorted list -----

  ghost predicate InStringOrder(names: seq<string>, lo: nat, hi: nat)
    requires hi <= |names|
  {
    forall i, j | lo <= i < j < hi :: InDictionaryOrder(names[i], names[j])
  }

  /** The layout the program promises its reader: `Server`, end-to-end names up to `m`, then hop-by-hop names. */
  ghost predicate Layout(names: seq<string>, k: nat, m: nat) {
    && k <= m <= |names|
    && (forall i | 0 <= i < |names| :: i < k <==> names[i] == "Server")
    && (forall i | 0 <= i < |names| :: i < m <==> !IsHopByHop(names[i]))
    && InStringOrder(names, k, m) && InStringOrder(names, m, |names|)
  }

  function Class(name: string): nat {
    if name == "Server" then 0 else if EndToEnd(name) then 1 else 2
  }

  /** `Less` compares the classes first and the strings within a class. */
  lemma LessFollowsClass(a: string, b: string)
    requires a != b
    ensures Class(a) < Class(b) ==> Less(a, b)
    ensures Class(a) == Class(b) ==> Class(a) != 0 && Less(a, b) == Before(a, b)
  {
  }

  /**
   A list of distinct names is sorted if and only if it is the server, then the end-to-end names, then
   the hop-by-hop names, each class in string order.
   */
  lemma SortedMeansLayout(names: seq<string>)
    requires Distinct(names)
    ensures Sorted(names) <==> exists k: nat, m: nat :: Layout(names, k, m)
  {
    if Sorted(names) {
      var k := ClassBoundary(names, 1);
      var m := ClassBoundary(names, 2);
      if k > 0 { assert Class(names[k - 1]) < 2; }
      forall i | 0 <= i < |names| ensures IsHopByHop(names[i]) <==> Class(names[i]) == 2 {
        HopByHopIsTheList(names[i]);
      }
      ClassInStringOrder(names, k, m, 1);
      ClassInStringOrder(names, m, |names|, 2);
      assert Layout(names, k, m);
    }
    forall k: nat, m: nat | Layout(names, k, m) ensures Sorted(names) {
      LayoutIsSorted(names, k, m);
    }
  }

  lemma HopByHopIsTheList(name: string)
    ensures IsHopByHop(name) <==> !EndToEnd(name)
    ensures IsHopByHop(name) <==> Class(name) == 2
  {
  }

  lemma LayoutIsSorted(names: seq<string>, k: nat, m: nat)
    requires Distinct(names) && Layout(names, k, m)
    ensures Sorted(names)
  {
    forall i, j | 0 <= i < j < |names| ensures !Less(names[j], names[i]) {
      LessIsTrichotomous(names[i], names[j]);
      LessFollowsClass(names[i], names[j]);
      BeforeIsDictionaryOrder(names[i], names[j]);
      HopByHopIsTheList(names[i]);
      HopByHopIsTheList(names[j]);
    }
  }

  /** The first position whose name is of class `c` or later. */
  lemma ClassBoundary(names: seq<string>, c: nat) returns (k: nat)
    requires Distinct(names) && Sorted(names)
    ensures k <= |names|
    ensures forall i | 0 <= i < |names| :: i < k <==> Class(names[i]) < c
  {
    k := 0;
    while k < |names| && Class(names[k]) < c
      invariant k <= |names|
      invariant forall i | 0 <= i < k :: Class(names[i]) < c
    {
      k := k + 1;
    }
    forall i | k <= i < |names| ensures Class(names[i]) >= c {
      if k < i {
        LessIsTrichotomous(names[k], names[i]);
        LessFollowsClass(names[i], names[k]);
      }
    }
  }

  lemma ClassInStringOrder(names: seq<string>, lo: nat, hi: nat, c: nat)
    requires Distinct(names) && Sorted(names) && lo <= hi <= |names|
    requires forall i | lo <= i < hi :: Class(names[i]) == c
    ensures InStringOrder(names, lo, hi)
  {
    forall i, j | lo <= i < j < hi ensures InDictionaryOrder(names[i], names[j]) {
      LessIsTrichotomous(names[i], names[j]);
      LessFollowsClass(names[i], names[j]);
      BeforeIsDictionaryOrder(names[i], names[j]);
    }
  }
}
