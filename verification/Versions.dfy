/**
 Versions of the control plane: their text form, their order, and the strings
 functions (Split, Itoa, Atoi) that the conversions go through.
 */
module Versions {
  import opened Wrappers

  datatype Version = Version(major: int, minor: int, patch: int, beta: int)

  const MAX_INT: int := 0x7FFF_FFFF_FFFF_FFFF

  const ZERO := Version(0, 0, 0, 0)

  predicate IsInt64(n: int) {
    -MAX_INT - 1 <= n <= MAX_INT
  }

  /** Every component is a 64-bit integer, as the type of the source has it. */
  predicate Fits(v: Version) {
    IsInt64(v.major) && IsInt64(v.minor) && IsInt64(v.patch) && IsInt64(v.beta)
  }

  // ---- Numbers ----

  function Digit(d: nat): char
    requires d < 10
  {
    ('0' as int + d) as char
  }

  predicate IsDigit(c: char) {
    '0' <= c <= '9'
  }

  predicate AllDigits(s: string) {
    forall i :: 0 <= i < |s| ==> IsDigit(s[i])
  }

  function NatToString(n: nat): (s: string)
    ensures s != "" && AllDigits(s)
  {
    if n < 10 then [Digit(n)] else NatToString(n / 10) + [Digit(n % 10)]
  }

  function Itoa(n: int): string {
    if n < 0 then "-" + NatToString(-n) else NatToString(n)
  }

  function DigitsValue(s: string): nat
    requires AllDigits(s)
  {
    if s == "" then 0
    else 10 * DigitsValue(s[..|s| - 1]) + (s[|s| - 1] as int - '0' as int)
  }

  /** strconv.Atoi: an optional sign, at least one digit, and a value that fits. */
  function Atoi(s: string): Option<int> {
    var signed := s != "" && (s[0] == '+' || s[0] == '-');
    var digits := if signed then s[1..] else s;
    if digits == "" || !AllDigits(digits) then None
    else
      var value: int := if signed && s[0] == '-' then 0 - DigitsValue(digits) else DigitsValue(digits);
      if IsInt64(value) then Some(value) else None
  }

  lemma {:induction false} NatRoundTrip(n: nat)
    ensures DigitsValue(NatToString(n)) == n
  {
    if n >= 10 {
      NatRoundTrip(n / 10);
      var s := NatToString(n);
      assert s[..|s| - 1] == NatToString(n / 10);
    } else {
      assert NatToString(n)[..0] == "";
    }
  }

  lemma AtoiOfDigits(s: string)
    requires s != "" && AllDigits(s)
    ensures Atoi(s) == if IsInt64(DigitsValue(s)) then Some(DigitsValue(s)) else None
    ensures Atoi("-" + s) == if IsInt64(0 - DigitsValue(s)) then Some(0 - DigitsValue(s)) else None
  {
    assert IsDigit(s[0]);
    assert ("-" + s)[1..] == s;
  }

  lemma AtoiUndoesItoa(n: int)
    requires IsInt64(n)
    ensures Atoi(Itoa(n)) == Some(n)
  {
    var size: nat := if n < 0 then -n else n;
    NatRoundTrip(size);
    AtoiOfDigits(NatToString(size));
  }

  /** The text of a number: no dot and no letter in it. */
  predicate Numeral(s: string) {
    forall i :: 0 <= i < |s| ==> IsDigit(s[i]) || s[i] == '-'
  }

  lemma ItoaIsNumeral(n: int)
    ensures Numeral(Itoa(n))
  {
    var digits := NatToString(if n < 0 then -n else n);
    assert AllDigits(digits);
  }

  // ---- Splitting ----

  /** strings.Split for a non-empty separator. */
  function Split(s: string, sep: string): (parts: seq<string>)
    requires sep != ""
    ensures parts != []
    decreases |s|
  {
    if |s| < |sep| then [s]
    else if s[..|sep|] == sep then [""] + Split(s[|sep|..], sep)
    else
      var rest := Split(s[1..], sep);
      [[s[0]] + rest[0]] + rest[1..]
  }

  lemma {:induction false} SplitNone(a: string, sep: string)
    requires sep != "" && exists c :: c in sep && c !in a
    ensures Split(a, sep) == [a]
  {
    if |a| >= |sep| {
      var c :| c in sep && c !in a;
      assert a[..|sep|] != sep;
      SplitNone(a[1..], sep);
      assert [a[0]] + a[1..] == a;
    }
  }

  /** The separator starts nowhere inside a, not even across its end. */
  predicate Separates(a: string, sep: string) {
    forall i :: 0 <= i < |a| ==> !(sep <= (a + sep)[i..])
  }

  lemma {:induction false} SplitFirst(a: string, sep: string, b: string)
    requires sep != "" && Separates(a, sep)
    ensures Split(a + sep + b, sep) == [a] + Split(b, sep)
  {
    var s := a + sep + b;
    if a == "" {
      assert s[..|sep|] == sep && s[|sep|..] == b;
    } else {
      assert !(sep <= (a + sep)[0..]);
      assert s[..|sep|] == (a + sep)[0..][..|sep|];
      assert s[1..] == a[1..] + sep + b;
      forall i | 0 <= i < |a[1..]| ensures !(sep <= (a[1..] + sep)[i..]) {
        assert (a[1..] + sep)[i..] == (a + sep)[i + 1..];
      }
      SplitFirst(a[1..], sep, b);
      assert [a[0]] + a[1..] == a;
    }
  }

  // ---- Parse and print ----

  const BETA := "-beta"

  /** None is the run-time panic on a missing minor component, as for "3". */
  function ParseVersion(version: string): (r: Option<Version>)
    ensures r.Some? ==> Fits(r.value)
  {
    var parts := Split(version, BETA);
    var mainParts := Split(parts[0], ".");
    var major := Atoi(mainParts[0]);
    if major.None? then Some(ZERO)
    else if |mainParts| < 2 then None
    else
      var minor := Atoi(mainParts[1]);
      if minor.None? then Some(ZERO)
      else
        var patch := if |mainParts| > 2 && Atoi(mainParts[2]).Some? then Atoi(mainParts[2]).value else 0;
        if |parts| > 1 then
          var beta := Atoi(parts[1]);
          if beta.None? then Some(ZERO) else Some(Version(major.value, minor.value, patch, beta.value))
        else Some(Version(major.value, minor.value, patch, 0))
  }

  function MainText(v: Version): string {
    Itoa(v.major) + "." + Itoa(v.minor) + "." + Itoa(v.patch)
  }

  /** Version.getVersion */
  function GetVersion(v: Version): string {
    if v.beta != 0 then MainText(v) + BETA + Itoa(v.beta) else MainText(v)
  }

  function Row(v: Version): seq<int> {
    [v.major, v.minor, v.patch, v.beta]
  }

  function ArrayToVersion(row: seq<int>): string
    requires |row| == 4
  {
    if row[3] == 0 then Itoa(row[0]) + "." + Itoa(row[1]) + "." + Itoa(row[2])
    else Itoa(row[0]) + "." + Itoa(row[1]) + "." + Itoa(row[2]) + BETA + Itoa(row[3])
  }

  lemma DotSeparates(a: string)
    requires Numeral(a)
    ensures Separates(a, ".")
  {
    forall i | 0 <= i < |a| ensures !("." <= (a + ".")[i..]) {
      assert (a + ".")[i..][0] == a[i];
    }
  }

  lemma SplitThree(a: string, b: string, c: string)
    requires Numeral(a) && Numeral(b) && Numeral(c)
    ensures Split(a + "." + b + "." + c, ".") == [a, b, c]
  {
    assert a + "." + b + "." + c == a + "." + (b + "." + c);
    DotSeparates(a);
    DotSeparates(b);
    SplitFirst(a, ".", b + "." + c);
    SplitFirst(b, ".", c);
    assert '.' in "." && '.' !in c;
    SplitNone(c, ".");
  }

  lemma BetaSeparates(a: string)
    requires 'b' !in a
    ensures Separates(a, BETA)
  {
    forall i | 0 <= i < |a| ensures !(BETA <= (a + BETA)[i..]) {
      assert (a + BETA)[i..][1] == (a + BETA)[i + 1];
      assert BETA[1] == 'b' && BETA[0] == '-';
    }
  }

  lemma MainHasNoLetter(v: Version)
    ensures 'b' !in MainText(v) && 'b' !in Itoa(v.beta)
  {
    ItoaIsNumeral(v.major);
    ItoaIsNumeral(v.minor);
    ItoaIsNumeral(v.patch);
    ItoaIsNumeral(v.beta);
  }

  lemma SplitBeta(v: Version)
    ensures Split(GetVersion(v), BETA) == [MainText(v)] + if v.beta != 0 then [Itoa(v.beta)] else []
  {
    MainHasNoLetter(v);
    assert BETA[1] == 'b';
    if v.beta != 0 {
      BetaSeparates(MainText(v));
      SplitFirst(MainText(v), BETA, Itoa(v.beta));
      SplitNone(Itoa(v.beta), BETA);
    } else {
      SplitNone(MainText(v), BETA);
    }
  }

  /** Printing a version and parsing it back yields the version, for both printers and negative components too. */
  lemma ParseUndoesPrint(v: Version)
    requires Fits(v)
    ensures ParseVersion(GetVersion(v)) == Some(v)
    ensures ArrayToVersion(Row(v)) == GetVersion(v)
  {
    SplitBeta(v);
    ItoaIsNumeral(v.major);
    ItoaIsNumeral(v.minor);
    ItoaIsNumeral(v.patch);
    SplitThree(Itoa(v.major), Itoa(v.minor), Itoa(v.patch));
    AtoiUndoesItoa(v.major);
    AtoiUndoesItoa(v.minor);
    AtoiUndoesItoa(v.patch);
    AtoiUndoesItoa(v.beta);
  }

  // ---- Texts that are not versions ----

  /** A component: no dot, and nothing that could start the beta suffix. */
  predicate Component(s: string) {
    '.' !in s && 'b' !in s
  }

  lemma DotSeparatesAny(a: string)
    requires '.' !in a
    ensures Separates(a, ".")
  {
    forall i | 0 <= i < |a| ensures !("." <= (a + ".")[i..]) {
      assert (a + ".")[i..][0] == a[i];
    }
  }

  lemma SplitOne(a: string)
    requires Component(a)
    ensures Split(a, ".") == [a] && Split(a, BETA) == [a]
  {
    assert '.' in ".";
    assert BETA[1] == 'b';
    SplitNone(a, ".");
    SplitNone(a, BETA);
  }

  lemma SplitTwo(a: string, b: string)
    requires Component(a) && Component(b)
    ensures Split(a + "." + b, ".") == [a, b]
  {
    DotSeparatesAny(a);
    SplitFirst(a, ".", b);
    SplitOne(b);
  }

  /** Without a minor component: ParseVersion panics if the text is a number, and gives 0.0.0 otherwise. */
  lemma ParseOneComponent(a: string)
    requires Component(a)
    ensures ParseVersion(a) == if Atoi(a).None? then Some(Version(0, 0, 0, 0)) else None
  {
    SplitOne(a);
  }

  /** What two or more components parse as: a bad major or minor voids the version, a bad patch counts as 0. */
  function Main(major: Option<int>, minor: Option<int>, patch: Option<int>, beta: int): Version {
    if major.None? || minor.None? then Version(0, 0, 0, 0)
    else Version(major.value, minor.value, if patch.Some? then patch.value else 0, beta)
  }

  lemma ParseTwoComponents(a: string, b: string)
    requires Component(a) && Component(b)
    ensures ParseVersion(a + "." + b) == Some(Main(Atoi(a), Atoi(b), None, 0))
  {
    SplitTwo(a, b);
    assert BETA[1] == 'b' && 'b' !in a + "." + b;
    SplitNone(a + "." + b, BETA);
  }

  lemma SplitComponents(a: string, b: string, c: string)
    requires Component(a) && Component(b) && Component(c)
    ensures Split(a + "." + b + "." + c, ".") == [a, b, c]
  {
    assert a + "." + b + "." + c == a + "." + (b + "." + c);
    DotSeparatesAny(a);
    SplitFirst(a, ".", b + "." + c);
    SplitTwo(b, c);
  }

  lemma ParseThreeComponents(a: string, b: string, c: string)
    requires Component(a) && Component(b) && Component(c)
    ensures ParseVersion(a + "." + b + "." + c) == Some(Main(Atoi(a), Atoi(b), Atoi(c), 0))
  {
    SplitComponents(a, b, c);
    assert BETA[1] == 'b' && 'b' !in a + "." + b + "." + c;
    SplitNone(a + "." + b + "." + c, BETA);
  }

  /** A beta suffix that is no number voids the version. */
  lemma ParseWithBeta(a: string, b: string, c: string, d: string)
    requires Component(a) && Component(b) && Component(c) && 'b' !in d
    ensures ParseVersion(a + "." + b + "." + c + BETA + d)
         == Some(if Atoi(d).None? then Version(0, 0, 0, 0) else Main(Atoi(a), Atoi(b), Atoi(c), Atoi(d).value))
  {
    var main := a + "." + b + "." + c;
    SplitComponents(a, b, c);
    assert BETA[1] == 'b' && 'b' !in main;
    BetaSeparates(main);
    SplitFirst(main, BETA, d);
    SplitNone(d, BETA);
  }

  lemma PrintInjective(v: Version, w: Version)
    requires Fits(v) && Fits(w) && GetVersion(v) == GetVersion(w)
    ensures v == w
  {
    ParseUndoesPrint(v);
    ParseUndoesPrint(w);
  }

  // ---- The order of the sort ----

  /** The comparison that sort.Slice is given, on rows of any length. */
  predicate RowLess(a: seq<int>, b: seq<int>) {
    if a == [] || b == [] then |a| < |b|
    else if a[0] != b[0] then a[0] < b[0]
    else RowLess(a[1..], b[1..])
  }

  /** The (major, minor, patch, beta) tuple order. */
  predicate Less(v: Version, w: Version) {
    || v.major < w.major
    || (v.major == w.major && v.minor < w.minor)
    || (v.major == w.major && v.minor == w.minor && v.patch < w.patch)
    || (v.major == w.major && v.minor == w.minor && v.patch == w.patch && v.beta < w.beta)
  }

  /** The first k components agree, and the next one decides. */
  predicate LessAt(v: Version, w: Version, k: int) {
    0 <= k < 4 && (forall i :: 0 <= i < k ==> Row(v)[i] == Row(w)[i]) && Row(v)[k] < Row(w)[k]
  }

  /** Lower means lower in the first component that differs, read from major to beta. */
  lemma LessIsLexicographic(v: Version, w: Version)
    ensures Less(v, w) <==> exists k :: LessAt(v, w, k)
  {
    var a, b := Row(v), Row(w);
    if k :| LessAt(v, w, k) {
      assert k > 0 ==> a[0] == b[0];
      assert k > 1 ==> a[1] == b[1];
      assert k > 2 ==> a[2] == b[2];
    }
    if Less(v, w) {
      var k := if v.major != w.major then 0 else if v.minor != w.minor then 1 else if v.patch != w.patch then 2 else 3;
      assert LessAt(v, w, k);
    }
  }

  predicate AtMost(v: Version, w: Version) {
    v == w || Less(v, w)
  }

  /** The comparison loop over the two rows. */
  method CompareRows(a: seq<int>, b: seq<int>) returns (less: bool)
    ensures less == RowLess(a, b)
  {
    var k := 0;
    while k < |a| && k < |b|
      invariant k <= |a| && k <= |b|
      invariant RowLess(a, b) == RowLess(a[k..], b[k..])
    {
      if a[k] != b[k] {
        return a[k] < b[k];
      }
      assert a[k..][1..] == a[k + 1..] && b[k..][1..] == b[k + 1..];
      k := k + 1;
    }
    less := |a| < |b|;
  }

  lemma RowLessIsLess(v: Version, w: Version)
    ensures RowLess(Row(v), Row(w)) <==> Less(v, w)
  {
    var a, b := Row(v), Row(w);
    assert a[1..][1..] == a[2..] && b[1..][1..] == b[2..];
    assert a[2..][1..] == a[3..] && b[2..][1..] == b[3..];
    assert a[3..][1..] == [] && b[3..][1..] == [];
    assert RowLess(a[3..], b[3..]) <==> v.beta < w.beta;
    assert RowLess(a[2..], b[2..]) <==> v.patch < w.patch || (v.patch == w.patch && v.beta < w.beta);
    assert RowLess(a[1..], b[1..]) <==> v.minor < w.minor || (v.minor == w.minor && RowLess(a[2..], b[2..]));
  }
}
