/**
 The kernel release string: parsing, printing and comparing (pkg/kernel/kernel.go).
 A release is scanned by two formats of Go's `fmt.Sscanf`, so the verbs they use are defined first:
 `%d` skips blanks, takes an optional sign and every decimal digit that follows, and refuses a value
 outside 64 bits; `%s` skips blanks and takes every rune up to the next blank, at least one.
 */
module Kernel {
  import opened Wrappers

  datatype VersionInfo = VersionInfo(kernel: int, major: int, minor: int, flavor: string)

  const INT_MIN: int := -0x8000_0000_0000_0000
  const INT_MAX: int := 0x7FFF_FFFF_FFFF_FFFF

  predicate InRange(n: int) {
    INT_MIN <= n <= INT_MAX
  }

  // ----- Comparing -----

  function Compare(a: VersionInfo, b: VersionInfo): int {
    if a.kernel < b.kernel then -1
    else if a.kernel > b.kernel then 1
    else if a.major < b.major then -1
    else if a.major > b.major then 1
    else if a.minor < b.minor then -1
    else if a.minor > b.minor then 1
    else 0
  }

  predicate AtLeast(a: VersionInfo, b: VersionInfo) {
    Compare(a, b) >= 0
  }

  /** The comparison is a total preorder whose ties are exactly the equal number triples. */
  lemma CompareIsTotalPreorder(a: VersionInfo, b: VersionInfo, c: VersionInfo)
    ensures Compare(a, b) == -Compare(b, a)
    ensures AtLeast(a, b) || AtLeast(b, a)
    ensures AtLeast(a, b) && AtLeast(b, c) ==> AtLeast(a, c)
    ensures Compare(a, b) == 0 <==> (a.kernel, a.major, a.minor) == (b.kernel, b.major, b.minor)
  {
  }

  /** It is the lexicographic order of the three numbers, kernel first and minor last, as -1, 0 or 1. */
  lemma CompareIsLexicographic(a: VersionInfo, b: VersionInfo)
    ensures Compare(a, b) == -1 || Compare(a, b) == 0 || Compare(a, b) == 1
    ensures Compare(a, b) < 0 <==>
            || a.kernel < b.kernel
            || (a.kernel == b.kernel && (a.major < b.major || (a.major == b.major && a.minor < b.minor)))
  {
  }

  // ----- Scanning -----

  /** The runes Go's scanner treats as blank, newline included. */
  predicate IsSpace(c: char) {
    var u := c as int;
    0x09 <= u <= 0x0D || u == 0x20 || u == 0x85 || u == 0xA0 || u == 0x1680 || 0x2000 <= u <= 0x200A
    || u == 0x2028 || u == 0x2029 || u == 0x202F || u == 0x205F || u == 0x3000
  }

  predicate IsDigit(c: char) {
    '0' <= c <= '9'
  }

  predicate SpaceFree(s: string) {
    forall i | 0 <= i < |s| :: !IsSpace(s[i])
  }

  predicate AllDigits(s: string) {
    forall i | 0 <= i < |s| :: IsDigit(s[i])
  }

  predicate StartsWithDigit(s: string) {
    s != "" && IsDigit(s[0])
  }

  /** Skips blanks; a newline in the gap is an error. */
  function SkipSpace(s: string): (r: Option<string>)
    ensures r.Some? && r.value != "" ==> !IsSpace(r.value[0])
    ensures s == "" || !IsSpace(s[0]) ==> r == Some(s)
  {
    if s == "" then Some(s)
    else if s[0] == '\n' then None
    else if IsSpace(s[0]) then SkipSpace(s[1..])
    else Some(s)
  }

  /** How many leading runes are digits. */
  function DigitRun(s: string): (k: nat)
    ensures k <= |s| && AllDigits(s[..k])
    ensures k < |s| ==> !IsDigit(s[k])
  {
    if StartsWithDigit(s) then 1 + DigitRun(s[1..]) else 0
  }

  /** How many leading runes are not blank. */
  function WordRun(s: string): (k: nat)
    ensures k <= |s| && SpaceFree(s[..k])
    ensures k < |s| ==> IsSpace(s[k])
  {
    if s != "" && !IsSpace(s[0]) then 1 + WordRun(s[1..]) else 0
  }

  /** The number a string of digits denotes. */
  function Value(digits: string): nat
    requires AllDigits(digits)
  {
    if digits == "" then 0
    else 10 * Value(digits[..|digits| - 1]) + (digits[|digits| - 1] - '0') as int
  }

  /** The digits of `%d`, after the sign. */
  function ScanDigits(negative: bool, s: string): (r: Option<(int, string)>)
    ensures r.Some? ==> InRange(r.value.0) && r.value.1 == s[DigitRun(s)..]
  {
    var k := DigitRun(s);
    var m: int := Value(s[..k]);
    var n := if negative then -m else m;
    if k == 0 || !InRange(n) then None else Some((n, s[k..]))
  }

  /** `%d`: the number and the input left over. */
  function ScanInt(s: string): (r: Option<(int, string)>)
    ensures r.Some? ==> InRange(r.value.0) && !StartsWithDigit(r.value.1)
  {
    match SkipSpace(s)
    case None => None
    case Some(t) =>
      if t != "" && (t[0] == '+' || t[0] == '-') then ScanDigits(t[0] == '-', t[1..]) else ScanDigits(false, t)
  }

  /** `%s`: the token. */
  function ScanWord(s: string): (r: Option<string>)
    ensures r.Some? ==> r.value != "" && SpaceFree(r.value)
  {
    match SkipSpace(s)
    case None => None
    case Some(t) => if t == "" then None else Some(t[..WordRun(t)])
  }

  /** A literal dot in a format. */
  function ScanDot(s: string): Option<string> {
    if s != "" && s[0] == '.' then Some(s[1..]) else None
  }

  /** `%d.%d`, the part of the first format that must succeed. */
  function ScanHead(s: string): (r: Option<(int, int, string)>)
    ensures r.Some? ==> InRange(r.value.0) && InRange(r.value.1) && !StartsWithDigit(r.value.2)
  {
    match ScanInt(s)
    case None => None
    case Some((kernel, s1)) =>
      match ScanDot(s1)
      case None => None
      case Some(s2) =>
        match ScanInt(s2)
        case None => None
        case Some((major, rest)) => Some((kernel, major, rest))
  }

  /** `.%d`, the part of the second format that must succeed. */
  function ScanMinor(s: string): (r: Option<(int, string)>)
    ensures r.Some? ==> InRange(r.value.0) && !StartsWithDigit(r.value.1)
  {
    match ScanDot(s)
    case None => None
    case Some(s1) => ScanInt(s1)
  }

  function WordOrEmpty(s: string): string {
    match ScanWord(s)
    case None => ""
    case Some(word) => word
  }

  /** The second format, run on the token that followed the major number. */
  function FinishParse(kernel: int, major: int, partial: string): VersionInfo {
    match ScanMinor(partial)
    case None => VersionInfo(kernel, major, 0, partial)
    case Some((minor, tail)) => VersionInfo(kernel, major, minor, WordOrEmpty(tail))
  }

  function ParseRelease(release: string): Result<VersionInfo, string> {
    match ScanHead(release)
    case None => Failure("Can't parse kernel version " + release)
    case Some((kernel, major, rest)) => Success(FinishParse(kernel, major, WordOrEmpty(rest)))
  }

  /** The two scans one after the other, each filling the variables it can before it gives up. */
  method ParseInStages(release: string) returns (r: Result<VersionInfo, string>)
    ensures r == ParseRelease(release)
  {
    var minor, flavor, partial := 0, "", "";
    var head := ScanHead(release);
    if head == None {
      return Failure("Can't parse kernel version " + release);
    }
    var (kernel, major, rest) := head.value;
    var word := ScanWord(rest);
    if word.Some? {
      partial := word.value;
    }
    var second := ScanMinor(partial);
    if second == None {
      flavor := partial;
    } else {
      minor := second.value.0;
      word := ScanWord(second.value.1);
      if word.Some? {
        flavor := word.value;
      }
    }
    return Success(VersionInfo(kernel, major, minor, flavor));
  }

  // ----- Printing -----

  function PrintNat(n: nat): (s: string)
    ensures s != "" && AllDigits(s)
  {
    if n < 10 then ['0' + n as char] else PrintNat(n / 10) + ['0' + (n % 10) as char]
  }

  function PrintInt(n: int): string {
    if n < 0 then "-" + PrintNat(-n) else PrintNat(n)
  }

  /** What the first format leaves to `%s`. */
  function PrintTail(v: VersionInfo): string {
    "." + (PrintInt(v.minor) + v.flavor)
  }

  function Print(v: VersionInfo): string {
    PrintInt(v.kernel) + ("." + (PrintInt(v.major) + PrintTail(v)))
  }

  // ----- Printing undone by scanning -----

  lemma {:induction false} ValueOfPrinted(n: nat)
    ensures Value(PrintNat(n)) == n
  {
    if n >= 10 {
      ValueOfPrinted(n / 10);
      assert PrintNat(n)[..|PrintNat(n)| - 1] == PrintNat(n / 10);
    } else {
      assert PrintNat(n)[..0] == "";
    }
  }

  lemma {:induction false} DigitRunOfConcat(a: string, b: string)
    requires AllDigits(a)
    ensures DigitRun(a + b) == |a| + DigitRun(b)
  {
    if a == "" {
      assert a + b == b;
    } else {
      DigitRunOfConcat(a[1..], b);
      assert (a + b)[1..] == a[1..] + b;
    }
  }

  lemma {:induction false} WordRunOfSpaceFree(s: string)
    requires SpaceFree(s)
    ensures WordRun(s) == |s|
  {
    if s != "" { WordRunOfSpaceFree(s[1..]); }
  }

  lemma WordOfSpaceFree(s: string)
    requires SpaceFree(s)
    ensures WordOrEmpty(s) == s
  {
    WordRunOfSpaceFree(s);
  }

  function Magnitude(n: int): nat {
    if n < 0 then -n else n
  }

  lemma ScanIntOfPrinted(n: int, rest: string)
    ensures ScanInt(PrintInt(n) + rest) == ScanDigits(n < 0, PrintNat(Magnitude(n)) + rest)
  {
    var s := PrintInt(n) + rest;
    var digits := PrintNat(Magnitude(n));
    assert IsDigit(digits[0]);
    if n < 0 {
      assert s[0] == '-' && s[1..] == digits + rest;
    } else {
      assert s[0] == digits[0];
    }
  }

  /** What `%d` makes of a printed number followed by something else. */
  lemma ScanPrinted(n: int, rest: string)
    requires !StartsWithDigit(rest)
    ensures ScanInt(PrintInt(n) + rest) == if InRange(n) then Some((n, rest)) else None
  {
    var digits := PrintNat(Magnitude(n));
    ScanIntOfPrinted(n, rest);
    DigitRunOfConcat(digits, rest);
    assert (digits + rest)[..|digits|] == digits && (digits + rest)[|digits|..] == rest;
    ValueOfPrinted(Magnitude(n));
  }

  /** The numbers that are scanned are those of a signed word of 64 bits. */
  lemma ScansSixtyFourBits(n: int)
    ensures ScanInt(PrintInt(n)).Some? <==> -0x8000_0000_0000_0000 <= n < 0x8000_0000_0000_0000
  {
    ScanPrinted(n, "");
    assert PrintInt(n) + "" == PrintInt(n);
  }

  /** A plus sign is accepted and changes nothing. */
  lemma ScanSigned(n: nat, rest: string)
    requires !StartsWithDigit(rest)
    ensures ScanInt("+" + (PrintNat(n) + rest)) == ScanInt(PrintNat(n) + rest)
  {
    var s := "+" + (PrintNat(n) + rest);
    assert s[0] == '+' && s[1..] == PrintNat(n) + rest;
    ScanIntOfPrinted(n, rest);
  }

  /** Blanks in front are skipped if no newline is among them, and are an error otherwise. */
  lemma {:induction false} ScanAfterGap(gap: string, s: string)
    requires (forall i | 0 <= i < |gap| :: IsSpace(gap[i])) && (s == "" || !IsSpace(s[0]))
    ensures ScanInt(gap + s) == if '\n' in gap then None else ScanInt(s)
    ensures ScanWord(gap + s) == if '\n' in gap then None else ScanWord(s)
  {
    SkipGap(gap, s);
  }

  lemma {:induction false} SkipGap(gap: string, s: string)
    requires (forall i | 0 <= i < |gap| :: IsSpace(gap[i])) && (s == "" || !IsSpace(s[0]))
    ensures SkipSpace(gap + s) == if '\n' in gap then None else Some(s)
  {
    if gap == "" {
      assert gap + s == s;
    } else {
      SkipGap(gap[1..], s);
      assert (gap + s)[1..] == gap[1..] + s;
      assert gap == [gap[0]] + gap[1..];
    }
  }

  /** The printed head is scanned back, whatever the flavor. */
  lemma ScanPrintedHead(v: VersionInfo)
    ensures ScanHead(Print(v)) ==
            if InRange(v.kernel) && InRange(v.major) then Some((v.kernel, v.major, PrintTail(v))) else None
  {
    var afterKernel := "." + (PrintInt(v.major) + PrintTail(v));
    ScanPrinted(v.kernel, afterKernel);
    ScanPrinted(v.major, PrintTail(v));
    assert ScanInt(Print(v)) == if InRange(v.kernel) then Some((v.kernel, afterKernel)) else None;
    assert ScanDot(afterKernel) == Some(PrintInt(v.major) + PrintTail(v));
  }

  lemma PrintedTailIsSpaceFree(v: VersionInfo)
    requires SpaceFree(v.flavor)
    ensures SpaceFree(PrintTail(v))
  {
    var digits := PrintNat(Magnitude(v.minor));
    assert forall i | 0 <= i < |digits| :: IsDigit(digits[i]);
    assert SpaceFree(digits);
  }

  /** Whatever the input, a parse yields 64-bit numbers and a flavor without blanks. */
  lemma ParsedIsWellFormed(release: string, v: VersionInfo)
    requires ParseRelease(release) == Success(v)
    ensures InRange(v.kernel) && InRange(v.major) && InRange(v.minor) && SpaceFree(v.flavor)
  {
  }

  /** Parsing a printed release comes down to what `%d` makes of the minor number and the flavor. */
  lemma ParseOfPrinted(v: VersionInfo)
    requires InRange(v.kernel) && InRange(v.major) && SpaceFree(v.flavor)
    ensures ParseRelease(Print(v)) == Success(FinishParse(v.kernel, v.major, PrintTail(v)))
  {
    ScanPrintedHead(v);
    PrintedTailIsSpaceFree(v);
    WordOfSpaceFree(PrintTail(v));
  }

  /** A digit that follows a printed number is taken as part of it. */
  lemma ScanSwallowsDigit(n: int, rest: string)
    requires StartsWithDigit(rest) && SpaceFree(rest)
    ensures var r := ScanInt(PrintInt(n) + rest);
            r.Some? ==> |r.value.1| < |rest| && SpaceFree(r.value.1)
  {
    var digits := PrintNat(Magnitude(n));
    ScanIntOfPrinted(n, rest);
    DigitRunOfConcat(digits, rest);
    assert (digits + rest)[DigitRun(digits + rest)..] == rest[DigitRun(rest)..];
  }

  /** A flavor that starts with a digit is never recovered: the digit joins the minor number. */
  lemma LeadingDigitIsLost(v: VersionInfo)
    requires InRange(v.kernel) && InRange(v.major) && SpaceFree(v.flavor) && StartsWithDigit(v.flavor)
    ensures ParseRelease(Print(v)) != Success(v)
  {
    ParseOfPrinted(v);
    ScanMinorOfTail(v);
    ScanSwallowsDigit(v.minor, v.flavor);
    match ScanMinor(PrintTail(v))
    case None =>
    case Some((_, tail)) => WordOfSpaceFree(tail);
  }

  lemma ScanMinorOfTail(v: VersionInfo)
    ensures ScanMinor(PrintTail(v)) == ScanInt(PrintInt(v.minor) + v.flavor)
    ensures |PrintTail(v)| > |v.flavor|
  {
    assert PrintTail(v)[1..] == PrintInt(v.minor) + v.flavor;
  }

  lemma WellFormedIsRecovered(v: VersionInfo)
    requires InRange(v.kernel) && InRange(v.major) && InRange(v.minor)
    requires SpaceFree(v.flavor) && !StartsWithDigit(v.flavor)
    ensures ParseRelease(Print(v)) == Success(v)
  {
    ParseOfPrinted(v);
    ScanMinorOfTail(v);
    ScanPrinted(v.minor, v.flavor);
    WordOfSpaceFree(v.flavor);
  }

  /** Parsing undoes printing exactly for 64-bit numbers and a flavor that is blank-free and starts with no digit. */
  lemma ReleaseRoundTrip(v: VersionInfo)
    ensures ParseRelease(Print(v)) == Success(v) <==>
            && InRange(v.kernel) && InRange(v.major) && InRange(v.minor)
            && SpaceFree(v.flavor) && !StartsWithDigit(v.flavor)
  {
    if ParseRelease(Print(v)) == Success(v) {
      ParsedIsWellFormed(Print(v), v);
      if StartsWithDigit(v.flavor) { LeadingDigitIsLost(v); }
    } else if InRange(v.kernel) && InRange(v.major) && InRange(v.minor) && SpaceFree(v.flavor) {
      if !StartsWithDigit(v.flavor) { WellFormedIsRecovered(v); }
    }
  }

  /** What follows the two leading numbers is a flavor if it starts neither with a digit nor with a dot. */
  lemma ShortReleaseIsParsed(kernel: int, major: int, rest: string)
    requires InRange(kernel) && InRange(major) && SpaceFree(rest) && !StartsWithDigit(rest)
    requires rest == "" || rest[0] != '.'
    ensures ParseRelease(PrintInt(kernel) + ("." + (PrintInt(major) + rest))) ==
            Success(VersionInfo(kernel, major, 0, rest))
  {
    var afterKernel := "." + (PrintInt(major) + rest);
    ScanPrinted(kernel, afterKernel);
    ScanPrinted(major, rest);
    assert ScanDot(afterKernel) == Some(PrintInt(major) + rest);
    WordOfSpaceFree(rest);
  }

  /** After the major number comes a gap of blanks and then a digit, as in "3.8 5". */
  predicate GapThenDigit(release: string) {
    var head := ScanHead(release);
    && head.Some?
    && var rest := head.value.2;
    && rest != "" && IsSpace(rest[0])
    && var next := SkipSpace(rest);
    && next.Some? && StartsWithDigit(next.value)
  }

  /** Parse, print, parse again: the second parse agrees with the first unless a digit follows a gap. */
  lemma ReleaseNormalises(release: string, v: VersionInfo)
    requires ParseRelease(release) == Success(v)
    ensures ParseRelease(Print(v)) == Success(v) <==> !GapThenDigit(release)
  {
    ParsedIsWellFormed(release, v);
    ReleaseRoundTrip(v);
    var rest := ScanHead(release).value.2;
    var partial := WordOrEmpty(rest);
    if ScanMinor(partial).Some? {
      var tail := ScanMinor(partial).value.1;
      TailOfSpaceFreeMinor(partial);
      WordOfSpaceFree(tail);
    }
  }

  /** What `.%d` leaves of a blank-free word is blank-free. */
  lemma TailOfSpaceFreeMinor(partial: string)
    requires SpaceFree(partial) && ScanMinor(partial).Some?
    ensures SpaceFree(ScanMinor(partial).value.1)
  {
    var s := partial[1..];
    assert SpaceFree(s);
    assert SkipSpace(s) == Some(s);
  }

  /** A release without blanks always normalises, short forms such as "3.12-1-amd64" included. */
  lemma SpaceFreeReleaseNormalises(release: string, v: VersionInfo)
    requires SpaceFree(release) && ParseRelease(release) == Success(v)
    ensures ParseRelease(Print(v)) == Success(v)
  {
    ReleaseNormalises(release, v);
    ScanOfSpaceFree(release);
    var s1 := ScanInt(release).value.1;
    assert SpaceFree(s1[1..]);
    ScanOfSpaceFree(s1[1..]);
  }

  lemma ScanOfSpaceFree(s: string)
    requires SpaceFree(s) && ScanInt(s).Some?
    ensures SpaceFree(ScanInt(s).value.1)
  {
    assert SkipSpace(s) == Some(s);
  }

  /** The gap is a real failure: "3.8 5" parses to minor 0 with flavor "5", and prints as 3.8.05. */
  lemma GapCounterexample()
    ensures ParseRelease("3.8 5") == Success(VersionInfo(3, 8, 0, "5"))
    ensures ParseRelease(Print(VersionInfo(3, 8, 0, "5"))) != Success(VersionInfo(3, 8, 0, "5"))
  {
    ScanGapHead();
    assert SkipSpace(" 5") == Some("5") by {
      assert " 5"[1..] == "5";
    }
    WordOfSpaceFree("5");
    ReleaseRoundTrip(VersionInfo(3, 8, 0, "5"));
  }

  lemma ScanGapHead()
    ensures ScanHead("3.8 5") == Some((3, 8, " 5"))
  {
    assert PrintInt(3) == "3" && PrintInt(8) == "8";
    ScanPrinted(3, ".8 5");
    ScanPrinted(8, " 5");
    assert "3.8 5" == PrintInt(3) + ".8 5" && ".8 5"[1..] == PrintInt(8) + " 5";
  }
}
