/**
 The upgrade path: which versions, in which order, lie between the stored version
 of the control plane and its target.
 */
module UpgradePath {
  import opened Wrappers
  import opened Versions

  datatype UpgradeExecutor = UpgradeExecutor(nextVersion: string, hasManager: bool)

  type VersionMap = map<string, UpgradeExecutor>

  function Parsed(s: string): (v: Version)
    ensures Fits(v)
  {
    if ParseVersion(s).Some? then ParseVersion(s).value else ZERO
  }

  /** The text is what printing its version gives. */
  predicate Canonical(s: string) {
    ParseVersion(s).Some? && GetVersion(Parsed(s)) == s
  }

  predicate CanonicalKeys(m: VersionMap) {
    forall k :: k in m ==> Canonical(k)
  }

  function Known(m: VersionMap): set<Version> {
    set k | k in m :: Parsed(k)
  }

  /** The versions to go through: known or the target, above previous, up to target. */
  function Upgrades(known: set<Version>, previous: Version, target: Version): set<Version> {
    set v | v in known + {target} && Less(previous, v) && AtMost(v, target)
  }

  // ---- The ascending list of a set of versions ----

  predicate Sorted(vs: seq<Version>) {
    forall i, j :: 0 <= i < j < |vs| ==> AtMost(vs[i], vs[j])
  }

  predicate StrictlyAscending(vs: seq<Version>) {
    forall i, j :: 0 <= i < j < |vs| ==> Less(vs[i], vs[j])
  }

  function Elements(vs: seq<Version>): set<Version> {
    set v | v in vs
  }

  predicate IsLeast(v: Version, s: set<Version>) {
    v in s && forall w :: w in s ==> AtMost(v, w)
  }

  lemma {:induction false} LeastExists(s: set<Version>)
    requires s != {}
    ensures exists v :: IsLeast(v, s)
    decreases |s|
  {
    var x :| x in s;
    if s == {x} {
      assert IsLeast(x, s);
    } else {
      var rest := s - {x};
      assert rest + {x} == s && rest != {};
      LeastExists(rest);
      var y :| IsLeast(y, rest);
      assert IsLeast(if Less(x, y) then x else y, s);
    }
  }

  ghost function Least(s: set<Version>): (v: Version)
    requires s != {}
    ensures IsLeast(v, s)
  {
    LeastExists(s);
    var v :| IsLeast(v, s);
    v
  }

  ghost function Ascending(s: set<Version>): (vs: seq<Version>)
    ensures Elements(vs) == s && StrictlyAscending(vs)
    decreases |s|
  {
    if s == {} then []
    else
      var v := Least(s);
      var rest := Ascending(s - {v});
      Prepend(v, rest, s);
      [v] + rest
  }

  lemma Prepend(v: Version, rest: seq<Version>, s: set<Version>)
    requires IsLeast(v, s) && Elements(rest) == s - {v} && StrictlyAscending(rest)
    ensures Elements([v] + rest) == s && StrictlyAscending([v] + rest)
  {
    forall i | 0 <= i < |rest| ensures Less(v, rest[i]) {
      assert rest[i] in Elements(rest);
    }
    forall w ensures w in Elements([v] + rest) <==> w in s {
      assert w in Elements(rest) <==> w in rest;
    }
  }

  /** A strictly ascending list is determined by its elements. */
  lemma {:induction false} AscendingUnique(vs: seq<Version>, ws: seq<Version>)
    requires StrictlyAscending(vs) && StrictlyAscending(ws) && Elements(vs) == Elements(ws)
    ensures vs == ws
  {
    assert vs != [] ==> vs[0] in Elements(vs);
    assert ws != [] ==> ws[0] in Elements(ws);
    if vs != [] {
      assert vs[0] in ws && ws[0] in vs;
      DropFirst(vs);
      DropFirst(ws);
      AscendingUnique(vs[1..], ws[1..]);
      assert vs == [vs[0]] + vs[1..] && ws == [ws[0]] + ws[1..];
    }
  }

  lemma DropFirst(vs: seq<Version>)
    requires vs != [] && StrictlyAscending(vs)
    ensures StrictlyAscending(vs[1..]) && Elements(vs[1..]) == Elements(vs) - {vs[0]}
  {
    assert vs == [vs[0]] + vs[1..];
    forall v ensures v in Elements(vs[1..]) <==> v in Elements(vs) - {vs[0]} {
      assert v in vs <==> v == vs[0] || v in vs[1..];
    }
  }

  /** A stretch of the list is the ascending list of the versions between its ends. */
  lemma Stretch(vs: seq<Version>, i: int, j: int)
    requires StrictlyAscending(vs) && 0 <= i <= j < |vs|
    ensures StrictlyAscending(vs[i + 1..j + 1])
    ensures Elements(vs[i + 1..j + 1]) == set v | v in Elements(vs) && Less(vs[i], v) && AtMost(v, vs[j])
  {
    var part := vs[i + 1..j + 1];
    forall v ensures v in Elements(part) <==> v in Elements(vs) && Less(vs[i], v) && AtMost(v, vs[j]) {
      if v in Elements(part) {
        var k :| 0 <= k < |part| && part[k] == v;
        assert vs[i + 1 + k] == v && v in vs;
      }
      if v in Elements(vs) && Less(vs[i], v) && AtMost(v, vs[j]) {
        var k :| 0 <= k < |vs| && vs[k] == v;
        assert i < k <= j;
        assert part[k - i - 1] == v;
      }
    }
  }

  // ---- Sorting ----

  function Insert(v: Version, vs: seq<Version>): seq<Version> {
    if vs == [] || AtMost(v, vs[0]) then [v] + vs else [vs[0]] + Insert(v, vs[1..])
  }

  /**
   Stands for sort.Slice with the tuple comparison. SortUnique shows that any
   sorting algorithm gives this list.
   */
  function Sort(vs: seq<Version>): seq<Version> {
    if vs == [] then [] else Insert(vs[0], Sort(vs[1..]))
  }

  lemma {:induction false} InsertContents(v: Version, vs: seq<Version>)
    ensures multiset(Insert(v, vs)) == multiset(vs) + multiset{v}
  {
    if vs != [] && !AtMost(v, vs[0]) {
      InsertContents(v, vs[1..]);
      assert vs == [vs[0]] + vs[1..];
    }
  }

  lemma {:induction false} InsertSorts(v: Version, vs: seq<Version>)
    requires Sorted(vs)
    ensures Sorted(Insert(v, vs))
  {
    if vs != [] && !AtMost(v, vs[0]) {
      InsertSorts(v, vs[1..]);
      InsertContents(v, vs[1..]);
      var rest := Insert(v, vs[1..]);
      forall i | 0 <= i < |rest| ensures AtMost(vs[0], rest[i]) {
        assert rest[i] in multiset(rest);
      }
    }
  }

  /** Sorting gives an ascending permutation. */
  lemma {:induction false} SortSorts(vs: seq<Version>)
    ensures Sorted(Sort(vs)) && multiset(Sort(vs)) == multiset(vs)
  {
    if vs != [] {
      SortSorts(vs[1..]);
      InsertSorts(vs[0], Sort(vs[1..]));
      InsertContents(vs[0], Sort(vs[1..]));
      assert vs == [vs[0]] + vs[1..];
    }
  }

  lemma FirstIsLeast(vs: seq<Version>, v: Version)
    requires Sorted(vs) && v in multiset(vs)
    ensures AtMost(vs[0], v)
  {
    var i :| 0 <= i < |vs| && vs[i] == v;
  }

  lemma RestOf(vs: seq<Version>)
    requires vs != []
    ensures multiset(vs[1..]) == multiset(vs) - multiset{vs[0]}
  {
    assert vs == [vs[0]] + vs[1..];
  }

  lemma SameFirst(vs: seq<Version>, ws: seq<Version>)
    requires vs != [] && ws != [] && Sorted(vs) && Sorted(ws) && multiset(vs) == multiset(ws)
    ensures vs[0] == ws[0]
  {
    assert vs[0] in multiset(vs) && ws[0] in multiset(ws);
    FirstIsLeast(vs, ws[0]);
    FirstIsLeast(ws, vs[0]);
  }

  /** There is only one ascending permutation, because the order is total. */
  lemma {:induction false} SortUnique(vs: seq<Version>, ws: seq<Version>)
    requires Sorted(vs) && Sorted(ws) && multiset(vs) == multiset(ws)
    ensures vs == ws
  {
    assert |vs| == |multiset(vs)| && |ws| == |multiset(ws)|;
    if vs != [] {
      SameFirst(vs, ws);
      RestOf(vs);
      RestOf(ws);
      SortUnique(vs[1..], ws[1..]);
      assert vs == [vs[0]] + vs[1..] && ws == [ws[0]] + ws[1..];
    }
  }

  lemma {:induction false} CountTwice(vs: seq<Version>, i: int, j: int)
    requires 0 <= i < j < |vs| && vs[i] == vs[j]
    ensures multiset(vs)[vs[i]] >= 2
  {
    assert vs == vs[..j] + [vs[j]] + vs[j + 1..];
    assert vs[..j][i] == vs[i];
    assert vs[i] in multiset(vs[..j]);
  }

  // ---- Text lists ----

  function Texts(vs: seq<Version>): seq<string> {
    seq(|vs|, i requires 0 <= i < |vs| => GetVersion(vs[i]))
  }

  function ParsedAll(ss: seq<string>): seq<Version> {
    seq(|ss|, i requires 0 <= i < |ss| => Parsed(ss[i]))
  }

  predicate Parses(ss: seq<string>) {
    forall i :: 0 <= i < |ss| ==> ParseVersion(ss[i]).Some?
  }

  /** Both printers agree on every version, so a sorted row prints as its version. */
  lemma PrintersAgree(v: Version)
    ensures ArrayToVersion(Row(v)) == GetVersion(v)
  {
  }

  /** The first loop of sortVersionArray; None is the panic on a text that does not parse. */
  method ParseAll(versionArray: seq<string>) returns (versions: Option<seq<Version>>)
    ensures versions == if Parses(versionArray) then Some(ParsedAll(versionArray)) else None
  {
    var parsed: seq<Version> := [];
    for i := 0 to |versionArray|
      invariant |parsed| == i
      invariant forall k :: 0 <= k < i ==> ParseVersion(versionArray[k]) == Some(parsed[k])
    {
      var version := ParseVersion(versionArray[i]);
      if version.None? {
        assert !Parses(versionArray);
        return None;
      }
      parsed := parsed + [version.value];
    }
    assert forall k :: 0 <= k < |parsed| ==> parsed[k] == Parsed(versionArray[k]);
    assert parsed == ParsedAll(versionArray);
    versions := Some(parsed);
  }

  /** The last loop of sortVersionArray. */
  method PrintAll(versions: seq<Version>) returns (texts: seq<string>)
    ensures texts == Texts(versions)
  {
    texts := [];
    for i := 0 to |versions|
      invariant |texts| == i && forall k :: 0 <= k < i ==> texts[k] == GetVersion(versions[k])
    {
      var text := ArrayToVersion(Row(versions[i]));
      PrintersAgree(versions[i]);
      texts := texts + [text];
    }
  }

  /** The result lists the canonical forms of the input in ascending order. */
  method SortVersionArray(versionArray: seq<string>) returns (sorted: Option<seq<string>>)
    ensures sorted == if Parses(versionArray) then Some(Texts(Sort(ParsedAll(versionArray)))) else None
  {
    var versions := ParseAll(versionArray);
    if versions.None? {
      return None;
    }
    var texts := PrintAll(Sort(versions.value));
    sorted := Some(texts);
  }

  // ---- Which versions are listed, and how often ----

  function KeysOf(m: VersionMap, v: Version): set<string> {
    set k | k in m && Parsed(k) == v
  }

  /** How often a version is listed: once per key that means it, and once per end that is no key. */
  function Listings(m: VersionMap, previous: string, target: string, v: Version): nat {
    |KeysOf(m, v)| + (if previous !in m && Parsed(previous) == v then 1 else 0) + (if target !in m && Parsed(target) == v then 1 else 0)
  }

  ghost predicate SortedListing(m: VersionMap, previous: string, target: string, vs: seq<Version>) {
    Sorted(vs) && forall v :: multiset(vs)[v] == Listings(m, previous, target, v)
  }

  predicate KeysParse(m: VersionMap) {
    forall k :: k in m ==> ParseVersion(k).Some?
  }

  predicate AllParse(m: VersionMap, previous: string, target: string) {
    KeysParse(m) && ParseVersion(previous).Some? && ParseVersion(target).Some?
  }

  predicate Distinct(ss: seq<string>) {
    forall i, j :: 0 <= i < j < |ss| ==> ss[i] != ss[j]
  }

  function Preimage(ss: seq<string>, f: string -> Version, v: Version): set<string> {
    set s | s in ss && f(s) == v
  }

  lemma PreimageLast(ss: seq<string>, f: string -> Version, v: Version)
    requires ss != []
    ensures var n := |ss| - 1;
      Preimage(ss, f, v) == Preimage(ss[..n], f, v) + if f(ss[n]) == v then {ss[n]} else {}
    ensures Distinct(ss) ==> ss[|ss| - 1] !in Preimage(ss[..|ss| - 1], f, v)
  {
    var n := |ss| - 1;
    assert ss == ss[..n] + [ss[n]];
  }

  lemma CountLast(vs: seq<Version>, v: Version)
    requires vs != []
    ensures var n := |vs| - 1; multiset(vs)[v] == multiset(vs[..n])[v] + if vs[n] == v then 1 else 0
  {
    assert vs == vs[..|vs| - 1] + [vs[|vs| - 1]];
  }

  /** A version occurs in the image of a list without repeats once per text that means it. */
  lemma {:induction false} ImageCounts(ss: seq<string>, f: string -> Version, vs: seq<Version>, v: Version)
    requires Distinct(ss) && |vs| == |ss| && forall i :: 0 <= i < |ss| ==> vs[i] == f(ss[i])
    ensures multiset(vs)[v] == |Preimage(ss, f, v)|
  {
    if ss != [] {
      var n := |ss| - 1;
      ImageCounts(ss[..n], f, vs[..n], v);
      PreimageLast(ss, f, v);
      CountLast(vs, v);
    }
  }

  function Ends(m: VersionMap, previous: string, target: string): seq<string> {
    (if previous !in m then [previous] else []) + (if target !in m then [target] else [])
  }

  /** The keys in any order, then the ends that are no keys. */
  ghost predicate IsListing(m: VersionMap, previous: string, target: string, ss: seq<string>) {
    && |m.Keys| <= |ss|
    && Distinct(ss[..|m.Keys|]) && (forall s :: s in ss[..|m.Keys|] <==> s in m)
    && ss[|m.Keys|..] == Ends(m, previous, target)
  }

  /** The listing of parseVersionMap. */
  method ListVersions(m: VersionMap, previous: string, target: string) returns (versions: seq<string>)
    ensures IsListing(m, previous, target, versions)
  {
    versions := [];
    var remaining := m.Keys;
    while remaining != {}
      invariant remaining <= m.Keys && |versions| + |remaining| == |m.Keys|
      invariant forall s :: s in versions <==> s in m && s !in remaining
      invariant Distinct(versions)
      decreases |remaining|
    {
      var version :| version in remaining;
      remaining := remaining - {version};
      versions := versions + [version];
    }
    ghost var keys := versions;
    if previous !in m {
      versions := versions + [previous];
    }
    if target !in m {
      versions := versions + [target];
    }
    assert versions == keys + Ends(m, previous, target);
    assert versions[..|m.Keys|] == keys && versions[|m.Keys|..] == Ends(m, previous, target);
  }

  lemma EndCounts(m: VersionMap, previous: string, target: string, v: Version)
    ensures multiset(ParsedAll(Ends(m, previous, target)))[v]
         == (if previous !in m && Parsed(previous) == v then 1 else 0) + (if target !in m && Parsed(target) == v then 1 else 0)
  {
    var p, t := Parsed(previous), Parsed(target);
    var vs := (if previous !in m then [p] else []) + (if target !in m then [t] else []);
    assert ParsedAll(Ends(m, previous, target)) == vs;
  }

  lemma ParsedConcat(a: seq<string>, b: seq<string>)
    ensures ParsedAll(a + b) == ParsedAll(a) + ParsedAll(b)
  {
  }

  lemma KeyCounts(m: VersionMap, keys: seq<string>, v: Version)
    requires Distinct(keys) && forall s :: s in keys <==> s in m
    ensures multiset(ParsedAll(keys))[v] == |KeysOf(m, v)|
  {
    ImageCounts(keys, Parsed, ParsedAll(keys), v);
    assert Preimage(keys, Parsed, v) == KeysOf(m, v);
  }

  lemma ListingCounts(m: VersionMap, previous: string, target: string, keys: seq<string>, v: Version)
    requires Distinct(keys) && forall s :: s in keys <==> s in m
    ensures multiset(ParsedAll(keys + Ends(m, previous, target)))[v] == Listings(m, previous, target, v)
  {
    ParsedConcat(keys, Ends(m, previous, target));
    KeyCounts(m, keys, v);
    EndCounts(m, previous, target, v);
  }

  lemma ListingSorts(m: VersionMap, previous: string, target: string, keys: seq<string>)
    requires Distinct(keys) && forall s :: s in keys <==> s in m
    ensures SortedListing(m, previous, target, Sort(ParsedAll(keys + Ends(m, previous, target))))
  {
    SortSorts(ParsedAll(keys + Ends(m, previous, target)));
    forall v ensures multiset(ParsedAll(keys + Ends(m, previous, target)))[v] == Listings(m, previous, target, v) {
      ListingCounts(m, previous, target, keys, v);
    }
  }

  lemma ListingParses(m: VersionMap, previous: string, target: string, keys: seq<string>)
    requires forall s :: s in keys <==> s in m
    ensures Parses(keys + Ends(m, previous, target)) <==> AllParse(m, previous, target)
  {
    var ss := keys + Ends(m, previous, target);
    forall s ensures s in ss <==> s in m || s == previous || s == target {
      assert s in ss <==> s in keys || s in Ends(m, previous, target);
    }
    assert Parses(ss) <==> forall s :: s in ss ==> ParseVersion(s).Some?;
  }

  /** Texts that print an ascending list with every version as often as it is listed. */
  ghost predicate PrintsListing(m: VersionMap, previous: string, target: string, texts: seq<string>) {
    exists vs :: SortedListing(m, previous, target, vs) && texts == Texts(vs)
  }

  /** None iff some text does not parse; otherwise the one ascending list of all that is listed. */
  method ParseVersionMap(m: VersionMap, previous: string, target: string) returns (sorted: Option<seq<string>>)
    ensures sorted.Some? <==> AllParse(m, previous, target)
    ensures sorted.Some? ==> PrintsListing(m, previous, target, sorted.value)
  {
    var versions := ListVersions(m, previous, target);
    ghost var keys := versions[..|m.Keys|];
    assert versions == keys + Ends(m, previous, target);
    ListingSorts(m, previous, target, keys);
    ListingParses(m, previous, target, keys);
    sorted := SortVersionArray(versions);
  }

  // ---- The path ----

  /** Exactly the upgrades between the two versions, in ascending order. */
  ghost function Path(known: set<Version>, previous: Version, target: Version): seq<Version> {
    Ascending(Upgrades(known, previous, target))
  }

  method LinearSearchArray(version: string, texts: seq<string>) returns (index: int)
    ensures IsFirstIndex(index, version, texts)
  {
    for i := 0 to |texts|
      invariant version !in texts[..i]
    {
      if texts[i] == version {
        return i;
      }
    }
    index := -1;
  }

  /** What linearSearchArray returns. */
  predicate IsFirstIndex(index: int, version: string, texts: seq<string>) {
    if version in texts then 0 <= index < |texts| && texts[index] == version && version !in texts[..index]
    else index == -1
  }

  predicate FirstAt(i: int, v: Version, vs: seq<Version>) {
    0 <= i < |vs| && vs[i] == v && v !in vs[..i]
  }

  /** The first position of a text is the first position of its version. */
  lemma FirstOfTexts(vs: seq<Version>, v: Version, index: int)
    requires Fits(v) && v in vs && (forall w :: w in vs ==> Fits(w)) && IsFirstIndex(index, GetVersion(v), Texts(vs))
    ensures FirstAt(index, v, vs)
  {
    var i :| 0 <= i < |vs| && vs[i] == v;
    assert Texts(vs)[i] == GetVersion(v) && GetVersion(v) in Texts(vs);
    PrintInjective(vs[index], v);
    forall k | 0 <= k < index ensures vs[k] != v {
      assert Texts(vs)[..index][k] == GetVersion(vs[k]);
    }
  }

  lemma ListedFits(m: VersionMap, previous: string, target: string, vs: seq<Version>, v: Version)
    requires SortedListing(m, previous, target, vs) && v in vs
    ensures Fits(v)
  {
    assert v in multiset(vs) && Listings(m, previous, target, v) > 0;
    if KeysOf(m, v) != {} {
      var k :| k in KeysOf(m, v);
      assert Fits(Parsed(k));
    }
  }

  lemma EndIsListed(m: VersionMap, previous: string, target: string, vs: seq<Version>)
    requires SortedListing(m, previous, target, vs)
    ensures Parsed(previous) in vs && Parsed(target) in vs
  {
    var p, t := Parsed(previous), Parsed(target);
    assert previous in m ==> previous in KeysOf(m, p);
    assert target in m ==> target in KeysOf(m, t);
    assert multiset(vs)[p] == Listings(m, previous, target, p) > 0;
    assert multiset(vs)[t] == Listings(m, previous, target, t) > 0;
  }

  // ---- The slice between two first positions ----

  /** How often a version is on the path, given how often it is listed. */
  function OnPathCount(listed: int, previous: Version, target: Version, v: Version): int {
    if previous == target then 0
    else if v == previous then listed - 1
    else if v == target then 1
    else if Less(previous, v) && Less(v, target) then listed
    else 0
  }

  lemma FirstsInOrder(vs: seq<Version>, previous: Version, target: Version, i: int, j: int)
    requires Sorted(vs) && FirstAt(i, previous, vs) && FirstAt(j, target, vs)
    ensures i <= j <==> !Less(target, previous)
    ensures i == j <==> previous == target
  {
    if i < j {
      assert AtMost(vs[i], vs[j]) && vs[i] in vs[..j];
    } else if j < i {
      assert AtMost(vs[j], vs[i]) && vs[j] in vs[..i];
    }
  }

  lemma Cut(vs: seq<Version>, i: int, j: int, v: Version)
    requires 0 <= i < j < |vs|
    ensures multiset(vs)[v] == multiset(vs[..i])[v] + (if vs[i] == v then 1 else 0) + multiset(vs[i + 1..j])[v]
                               + (if vs[j] == v then 1 else 0) + multiset(vs[j + 1..])[v]
    ensures multiset(vs[i + 1..j + 1])[v] == multiset(vs[i + 1..j])[v] + if vs[j] == v then 1 else 0
  {
    assert vs == vs[..i] + [vs[i]] + vs[i + 1..j] + [vs[j]] + vs[j + 1..];
    assert vs[i + 1..j + 1] == vs[i + 1..j] + [vs[j]];
  }

  lemma NoneIn(vs: seq<Version>, v: Version)
    requires v !in vs
    ensures multiset(vs)[v] == 0
  {
    assert v !in multiset(vs);
  }

  /** What lies before, between and behind the first positions of two versions. */
  lemma Regions(vs: seq<Version>, previous: Version, target: Version, i: int, j: int, v: Version)
    requires Sorted(vs) && FirstAt(i, previous, vs) && FirstAt(j, target, vs) && i < j && previous != target
    ensures v in vs[..i] ==> Less(v, previous)
    ensures v in vs[i + 1..j] ==> v == previous || (Less(previous, v) && Less(v, target))
    ensures v in vs[j + 1..] ==> AtMost(target, v)
  {
    if v in vs[i + 1..j] {
      var k :| 0 <= k < |vs[i + 1..j]| && vs[i + 1..j][k] == v;
      assert vs[i + 1 + k] == v && v in vs[..j];
      assert AtMost(vs[i], v) && AtMost(v, vs[j]);
    }
    if v in vs[j + 1..] {
      var k :| 0 <= k < |vs[j + 1..]| && vs[j + 1..][k] == v;
      assert vs[j + 1 + k] == v;
    }
  }

  lemma SliceCounts(vs: seq<Version>, previous: Version, target: Version, i: int, j: int, v: Version)
    requires Sorted(vs) && FirstAt(i, previous, vs) && FirstAt(j, target, vs) && i < j && previous != target && Less(previous, target)
    ensures multiset(vs[i + 1..j + 1])[v] == OnPathCount(multiset(vs)[v], previous, target, v)
  {
    Cut(vs, i, j, v);
    Regions(vs, previous, target, i, j, v);
    if v !in vs[..i] {
      NoneIn(vs[..i], v);
    }
    if v !in vs[i + 1..j] {
      NoneIn(vs[i + 1..j], v);
    }
    if v !in vs[j + 1..] {
      NoneIn(vs[j + 1..], v);
    }
  }

  /** The ascending list in which every version occurs as often as the slice takes it. */
  ghost predicate IsPath(m: VersionMap, previous: Version, target: Version, vs: seq<Version>) {
    Sorted(vs) &&
    forall v :: multiset(vs)[v] == OnPathCount(Listings(m, GetVersion(previous), GetVersion(target), v), previous, target, v)
  }

  ghost predicate PrintsPath(m: VersionMap, previous: Version, target: Version, texts: seq<string>) {
    exists vs :: IsPath(m, previous, target, vs) && texts == Texts(vs)
  }

  lemma TextsSlice(vs: seq<Version>, i: int, j: int)
    requires 0 <= i <= j <= |vs|
    ensures Texts(vs)[i..j] == Texts(vs[i..j])
  {
  }

  lemma SliceIsPath(m: VersionMap, previous: Version, target: Version, vs: seq<Version>, i: int, j: int)
    requires SortedListing(m, GetVersion(previous), GetVersion(target), vs)
    requires FirstAt(i, previous, vs) && FirstAt(j, target, vs) && !Less(target, previous) && i <= j
    ensures IsPath(m, previous, target, vs[i + 1..j + 1])
  {
    var part := vs[i + 1..j + 1];
    FirstsInOrder(vs, previous, target, i, j);
    forall v ensures multiset(part)[v] == OnPathCount(multiset(vs)[v], previous, target, v) {
      if i < j {
        SliceCounts(vs, previous, target, i, j, v);
      } else {
        assert part == [];
      }
    }
    forall a, b | 0 <= a < b < |part| ensures AtMost(part[a], part[b]) {
      assert part[a] == vs[i + 1 + a] && part[b] == vs[i + 1 + b];
    }
  }

  // ---- With canonical keys the path is the set of upgrades, each once ----

  lemma CanonicalKeysOf(m: VersionMap, v: Version)
    requires CanonicalKeys(m) && Fits(v)
    ensures KeysOf(m, v) == if GetVersion(v) in m then {GetVersion(v)} else {}
    ensures v in Known(m) <==> GetVersion(v) in m
  {
    PrintedIsCanonical(v);
    forall k | k in m && Parsed(k) == v ensures k == GetVersion(v) {
      CanonicalDistinct(k, GetVersion(v));
    }
  }

  lemma CanonicalDistinct(s: string, t: string)
    requires Canonical(s) && Canonical(t) && Parsed(s) == Parsed(t)
    ensures s == t
  {
  }

  lemma PrintedIsCanonical(v: Version)
    requires Fits(v)
    ensures Canonical(GetVersion(v)) && Parsed(GetVersion(v)) == v
  {
    ParseUndoesPrint(v);
  }

  lemma ListedKnown(m: VersionMap, v: Version)
    requires v in Known(m)
    ensures Fits(v)
  {
    var k :| k in m && Parsed(k) == v;
    assert Fits(Parsed(k));
  }

  lemma UnknownHasNoKeys(m: VersionMap, v: Version)
    ensures v !in Known(m) ==> KeysOf(m, v) == {}
  {
  }

  lemma CanonicalCount(m: VersionMap, previous: Version, target: Version, v: Version)
    requires CanonicalKeys(m) && Fits(previous) && Fits(target) && !Less(target, previous)
    ensures OnPathCount(Listings(m, GetVersion(previous), GetVersion(target), v), previous, target, v)
         == if v in Upgrades(Known(m), previous, target) then 1 else 0
  {
    CanonicalListings(m, previous, target, v);
  }

  /** Canonical keys list every known version once, and the ends once. */
  lemma CanonicalListings(m: VersionMap, previous: Version, target: Version, v: Version)
    requires CanonicalKeys(m) && Fits(previous) && Fits(target)
    ensures previous != target ==>
      Listings(m, GetVersion(previous), GetVersion(target), v) == if v in Known(m) + {previous, target} then 1 else 0
  {
    PrintedIsCanonical(previous);
    PrintedIsCanonical(target);
    CanonicalKeysOf(m, previous);
    CanonicalKeysOf(m, target);
    UnknownHasNoKeys(m, v);
    if v in Known(m) {
      ListedKnown(m, v);
      CanonicalKeysOf(m, v);
    }
  }

  lemma CanonicalPath(m: VersionMap, previous: Version, target: Version, vs: seq<Version>)
    requires CanonicalKeys(m) && Fits(previous) && Fits(target) && !Less(target, previous) && IsPath(m, previous, target, vs)
    ensures vs == Path(Known(m), previous, target)
  {
    var upgrades := Upgrades(Known(m), previous, target);
    forall v ensures multiset(vs)[v] == if v in upgrades then 1 else 0 {
      CanonicalCount(m, previous, target, v);
    }
    OncePerElement(vs, upgrades);
  }

  /** A sorted list in which each element of a set occurs once is the ascending list of the set. */
  lemma OncePerElement(vs: seq<Version>, s: set<Version>)
    requires Sorted(vs) && forall v :: multiset(vs)[v] == if v in s then 1 else 0
    ensures vs == Ascending(s)
  {
    forall i, j | 0 <= i < j < |vs| ensures Less(vs[i], vs[j]) {
      if vs[i] == vs[j] {
        CountTwice(vs, i, j);
      }
    }
    forall v ensures v in Elements(vs) <==> v in s {
      assert v in vs <==> v in multiset(vs);
    }
    AscendingUnique(vs, Ascending(s));
  }

  /**
   None is a panic: a key that does not parse, or the out-of-range slice, which
   happens exactly when the target is below the previous version. Otherwise the
   result is ascending and holds, of what is listed, everything strictly between
   the ends, the repeats of previous, and target once. With canonical keys this is
   exactly the versions in the map, or equal to the target, above previous and up
   to target, each once.
   */
  method TraceUpgradePath(previous: Version, target: Version, m: VersionMap) returns (path: Option<seq<string>>)
    requires Fits(previous) && Fits(target)
    ensures path.None? <==> Less(target, previous) || !KeysParse(m)
    ensures path.Some? ==> PrintsPath(m, previous, target, path.value)
    ensures path.Some? && CanonicalKeys(m) ==> path.value == Texts(Path(Known(m), previous, target))
  {
    var p, t := GetVersion(previous), GetVersion(target);
    EndsParse(m, previous, target);
    var texts := ParseVersionMap(m, p, t);
    if texts.None? {
      return None;
    }
    var start := LinearSearchArray(p, texts.value);
    var end := LinearSearchArray(t, texts.value);
    SearchedSlice(m, previous, target, texts.value, start, end);
    if start > end {
      return None;
    }
    path := Some(texts.value[start + 1..end + 1]);
  }

  lemma EndsParse(m: VersionMap, previous: Version, target: Version)
    requires Fits(previous) && Fits(target)
    ensures AllParse(m, GetVersion(previous), GetVersion(target)) <==> KeysParse(m)
  {
    PrintedIsCanonical(previous);
    PrintedIsCanonical(target);
  }

  lemma SearchedSlice(m: VersionMap, previous: Version, target: Version, texts: seq<string>, start: int, end: int)
    requires Fits(previous) && Fits(target) && PrintsListing(m, GetVersion(previous), GetVersion(target), texts)
    requires IsFirstIndex(start, GetVersion(previous), texts) && IsFirstIndex(end, GetVersion(target), texts)
    ensures start <= end <==> !Less(target, previous)
    ensures start <= end ==>
      && 0 <= start + 1 <= end + 1 <= |texts|
      && PrintsPath(m, previous, target, texts[start + 1..end + 1])
      && (CanonicalKeys(m) ==> texts[start + 1..end + 1] == Texts(Path(Known(m), previous, target)))
  {
    var vs :| SortedListing(m, GetVersion(previous), GetVersion(target), vs) && texts == Texts(vs);
    FirstEnds(m, previous, target, vs, start, end);
    if start <= end {
      ListedSlice(m, previous, target, vs, start, end);
    }
  }

  lemma ListedSlice(m: VersionMap, previous: Version, target: Version, vs: seq<Version>, i: int, j: int)
    requires Fits(previous) && Fits(target) && SortedListing(m, GetVersion(previous), GetVersion(target), vs)
    requires FirstAt(i, previous, vs) && FirstAt(j, target, vs) && !Less(target, previous) && i <= j
    ensures PrintsPath(m, previous, target, Texts(vs)[i + 1..j + 1])
    ensures CanonicalKeys(m) ==> Texts(vs)[i + 1..j + 1] == Texts(Path(Known(m), previous, target))
  {
    var part := vs[i + 1..j + 1];
    SliceIsPath(m, previous, target, vs, i, j);
    TextsSlice(vs, i + 1, j + 1);
    if CanonicalKeys(m) {
      CanonicalPath(m, previous, target, part);
    }
  }

  lemma FirstEnds(m: VersionMap, previous: Version, target: Version, vs: seq<Version>, start: int, end: int)
    requires Fits(previous) && Fits(target) && SortedListing(m, GetVersion(previous), GetVersion(target), vs)
    requires IsFirstIndex(start, GetVersion(previous), Texts(vs)) && IsFirstIndex(end, GetVersion(target), Texts(vs))
    ensures FirstAt(start, previous, vs) && FirstAt(end, target, vs)
    ensures start <= end <==> !Less(target, previous)
  {
    var p, t := GetVersion(previous), GetVersion(target);
    PrintedIsCanonical(previous);
    PrintedIsCanonical(target);
    EndIsListed(m, p, t, vs);
    forall w | w in vs ensures Fits(w) {
      ListedFits(m, p, t, vs, w);
    }
    FirstOfTexts(vs, previous, start);
    FirstOfTexts(vs, target, end);
    FirstsInOrder(vs, previous, target, start, end);
  }

  /** An upgrade has a non-empty path, and it ends in the target. */
  lemma PathEndsInTarget(known: set<Version>, previous: Version, target: Version)
    requires Less(previous, target)
    ensures var path := Path(known, previous, target); path != [] && path[|path| - 1] == target
  {
    var path := Path(known, previous, target);
    assert target in Elements(path);
    var i :| 0 <= i < |path| && path[i] == target;
    assert path[|path| - 1] in Elements(path);
  }

  lemma OnPath(known: set<Version>, previous: Version, target: Version, i: nat)
    requires i < |Path(known, previous, target)|
    ensures var v := Path(known, previous, target)[i];
      v in known + {target} && Less(previous, v) && AtMost(v, target) && Less(previous, target)
  {
    assert Path(known, previous, target)[i] in Elements(Path(known, previous, target));
  }

  lemma UpgradesAbove(known: set<Version>, previous: Version, target: Version, v: Version)
    requires Less(previous, v)
    ensures Upgrades(known, v, target) == set w | w in Upgrades(known, previous, target) && Less(v, w) && AtMost(w, target)
  {
  }

  /** Restarting from a version on the path leaves exactly the rest of the path. */
  lemma PathSuffix(known: set<Version>, previous: Version, target: Version, i: nat)
    requires i < |Path(known, previous, target)|
    ensures Path(known, Path(known, previous, target)[i], target) == Path(known, previous, target)[i + 1..]
  {
    var path := Path(known, previous, target);
    OnPath(known, previous, target, i);
    PathEndsInTarget(known, previous, target);
    Stretch(path, i, |path| - 1);
    assert path[i + 1..|path|] == path[i + 1..];
    UpgradesAbove(known, previous, target, path[i]);
    AscendingUnique(path[i + 1..], Path(known, path[i], target));
  }
}
