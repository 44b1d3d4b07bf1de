/**
 Running an upgrade: the version managers along the path, the stored version
 after each, a stop at the first failing manager, and restarts that resume from
 whatever version is stored.
 */
module UpgradeRun {
  import opened Wrappers
  import opened Versions
  import opened UpgradePath

  /** The stored version, and the version managers that have run to success so far. */
  datatype Db<T> = Db(version: T, applied: seq<T>)

  datatype Outcome = Upgraded | Failed | Panicked | UpToDate | Misconfigured

  /** The versions the agent knows, and those of them that come with a manager. */
  datatype Plan = Plan(known: set<Version>, managed: set<Version>)

  /** The versions of the path that come with a manager. Versions may be given as texts. */
  function Managers<T(==)>(managed: set<T>, path: seq<T>): seq<T> {
    if path == [] then []
    else
      var n := |path| - 1;
      Managers(managed, path[..n]) + if path[n] in managed then [path[n]] else []
  }

  predicate Fails<T(==)>(managed: set<T>, v: T, failing: set<T>) {
    v in managed && v in failing
  }

  /** The position of the first manager that fails, or the end of the path. */
  function StopAt<T(==)>(managed: set<T>, path: seq<T>, failing: set<T>): (k: nat)
    ensures k <= |path|
    ensures forall i :: 0 <= i < k ==> !Fails(managed, path[i], failing)
    ensures k < |path| ==> Fails(managed, path[k], failing)
  {
    if path == [] || Fails(managed, path[0], failing) then 0 else 1 + StopAt(managed, path[1..], failing)
  }

  function LastOr<T>(vs: seq<T>, v: T): T {
    if vs == [] then v else vs[|vs| - 1]
  }

  /** Managers before the stop have run; the stored version is the last of them, or the path's end. */
  function AfterRun<T(==)>(managed: set<T>, path: seq<T>, failing: set<T>, d: Db<T>): (Db<T>, Outcome)
    requires path != []
  {
    var k := StopAt(managed, path, failing);
    var done := Managers(managed, path[..k]);
    if k == |path| then (Db(path[k - 1], d.applied + done), Upgraded)
    else (Db(LastOr(done, d.version), d.applied + done), Failed)
  }

  /** One start of the upgrade agent. Without a path, taking its last element panics. */
  ghost function AfterBoot(plan: Plan, target: Version, failing: set<Version>, d: Db<Version>): (Db<Version>, Outcome) {
    if d.version == target then (d, UpToDate)
    else
      var path := Path(plan.known, d.version, target);
      if path == [] then (d, Panicked) else AfterRun(plan.managed, path, failing, d)
  }

  ghost function AfterBoots(plan: Plan, target: Version, boots: seq<set<Version>>, d: Db<Version>): Db<Version> {
    if boots == [] then d
    else AfterBoot(plan, target, boots[|boots| - 1], AfterBoots(plan, target, boots[..|boots| - 1], d)).0
  }

  // ---- Filtering the path ----

  lemma {:induction false} ManagersConcat(managed: set<Version>, a: seq<Version>, b: seq<Version>)
    ensures Managers(managed, a + b) == Managers(managed, a) + Managers(managed, b)
  {
    if b == [] {
      assert a + b == a;
    } else {
      var n := |b| - 1;
      assert (a + b)[..|a + b| - 1] == a + b[..n];
      ManagersConcat(managed, a, b[..n]);
    }
  }

  lemma OneManager(managed: set<Version>, v: Version)
    ensures Managers(managed, [v]) == if v in managed then [v] else []
  {
    assert [v][..0] == [];
  }

  /** The last manager of a path stands at some position with no manager after it. */
  lemma {:induction false} LastManager(managed: set<Version>, path: seq<Version>) returns (j: nat)
    requires Managers(managed, path) != []
    ensures j < |path| && Managers(managed, path)[|Managers(managed, path)| - 1] == path[j]
    ensures Managers(managed, path[j + 1..]) == []
  {
    var n := |path| - 1;
    if path[n] in managed {
      j := n;
      assert path[n + 1..] == [];
    } else {
      assert Managers(managed, path) == Managers(managed, path[..n]);
      j := LastManager(managed, path[..n]);
      assert path[j + 1..] == path[..n][j + 1..] + [path[n]];
      ManagersConcat(managed, path[..n][j + 1..], [path[n]]);
      OneManager(managed, path[n]);
    }
  }

  lemma Rejoin(path: seq<Version>, i: int, k: int)
    requires 0 <= i <= k <= |path|
    ensures path[i..] == path[..k][i..] + path[k..]
  {
  }

  /** From the last manager before k on, the managers are those from k on. */
  lemma LastSplit(managed: set<Version>, path: seq<Version>, k: nat) returns (j: nat)
    requires k <= |path| && Managers(managed, path[..k]) != []
    ensures j < k && path[j] == LastOr(Managers(managed, path[..k]), ZERO)
    ensures Managers(managed, path[j + 1..]) == Managers(managed, path[k..])
  {
    j := LastManager(managed, path[..k]);
    Rejoin(path, j + 1, k);
    ManagersConcat(managed, path[..k][j + 1..], path[k..]);
  }

  lemma SplitManagers(managed: set<Version>, path: seq<Version>, k: nat, applied: seq<Version>)
    requires k <= |path|
    ensures (applied + Managers(managed, path[..k])) + Managers(managed, path[k..]) == applied + Managers(managed, path)
  {
    assert path[..k] + path[k..] == path;
    ManagersConcat(managed, path[..k], path[k..]);
  }

  /**
   Wherever a run stops, the stored version is the start or a version of the path,
   and what was applied plus the managers behind that version is what was ahead.
   */
  lemma RunLeaves(managed: set<Version>, path: seq<Version>, failing: set<Version>, d: Db<Version>) returns (j: int)
    requires path != []
    ensures -1 <= j < |path|
    ensures var d' := AfterRun(managed, path, failing, d).0;
      && d'.version == (if j == -1 then d.version else path[j])
      && d'.applied + Managers(managed, path[j + 1..]) == d.applied + Managers(managed, path)
  {
    var k := StopAt(managed, path, failing);
    var done, ahead := Managers(managed, path[..k]), Managers(managed, path[k..]);
    SplitManagers(managed, path, k, d.applied);
    if k == |path| {
      j := k - 1;
      assert path[j + 1..] == path[k..];
    } else if done == [] {
      j := -1;
      assert path[j + 1..] == path && d.applied + done == d.applied;
    } else {
      j := LastSplit(managed, path, k);
      assert Managers(managed, path[j + 1..]) == ahead;
    }
  }

  // ---- Conservation: done plus remaining never changes ----

  /** The managers still ahead of version v. */
  ghost function Remaining(plan: Plan, v: Version, target: Version): seq<Version> {
    Managers(plan.managed, Path(plan.known, v, target))
  }

  /** All managers between origin and target are either applied or still ahead, in order. */
  ghost predicate OnTrack(plan: Plan, origin: Version, target: Version, d: Db<Version>) {
    AtMost(d.version, target) && d.applied + Remaining(plan, d.version, target) == Remaining(plan, origin, target)
  }

  lemma NothingRemains(plan: Plan, target: Version)
    ensures Remaining(plan, target, target) == []
  {
    assert Upgrades(plan.known, target, target) == {};
  }

  lemma BootKeepsTrack(plan: Plan, origin: Version, target: Version, failing: set<Version>, d: Db<Version>)
    requires OnTrack(plan, origin, target, d)
    ensures OnTrack(plan, origin, target, AfterBoot(plan, target, failing, d).0)
  {
    if d.version != target {
      PathEndsInTarget(plan.known, d.version, target);
      var j := RunLeaves(plan.managed, Path(plan.known, d.version, target), failing, d);
      if j >= 0 {
        OnPath(plan.known, d.version, target, j);
        PathSuffix(plan.known, d.version, target, j);
      }
    }
  }

  /**
   Over any sequence of starts, whatever fails in each: the managers applied so
   far, followed by those still ahead of the stored version, are exactly the
   managers of one uninterrupted run.
   */
  lemma {:induction false} ResumeConserves(plan: Plan, origin: Version, target: Version, boots: seq<set<Version>>)
    requires Less(origin, target)
    ensures OnTrack(plan, origin, target, AfterBoots(plan, target, boots, Db(origin, [])))
  {
    if boots == [] {
      assert [] + Remaining(plan, origin, target) == Remaining(plan, origin, target);
    } else {
      var n := |boots| - 1;
      ResumeConserves(plan, origin, target, boots[..n]);
      BootKeepsTrack(plan, origin, target, boots[n], AfterBoots(plan, target, boots[..n], Db(origin, [])));
    }
  }

  /** A start that meets no failing manager ends at the target. */
  lemma CalmBoot(plan: Plan, target: Version, failing: set<Version>, d: Db<Version>)
    requires AtMost(d.version, target) && failing !! plan.managed
    ensures AfterBoot(plan, target, failing, d).0.version == target
  {
    if d.version != target {
      PathEndsInTarget(plan.known, d.version, target);
    }
  }

  lemma OneMoreStays(plan: Plan, target: Version, boots: seq<set<Version>>, d: Db<Version>)
    requires boots != [] && AfterBoots(plan, target, boots[..|boots| - 1], d).version == target
    ensures AfterBoots(plan, target, boots, d).version == target
  {
  }

  lemma PrefixOfPrefix<T>(s: seq<T>, i: nat, n: nat)
    requires i <= n <= |s|
    ensures s[..n][..i] == s[..i]
  {
  }

  /** A start finds the target reached and leaves it so. */
  lemma {:induction false} StaysReached(plan: Plan, target: Version, boots: seq<set<Version>>, d: Db<Version>, i: nat)
    requires i <= |boots| && AfterBoots(plan, target, boots[..i], d).version == target
    ensures AfterBoots(plan, target, boots, d).version == target
    decreases |boots|
  {
    if i == |boots| {
      assert boots[..i] == boots;
    } else {
      PrefixOfPrefix(boots, i, |boots| - 1);
      StaysReached(plan, target, boots[..|boots| - 1], d, i);
      OneMoreStays(plan, target, boots, d);
    }
  }

  lemma ResumeFinishes(plan: Plan, origin: Version, target: Version, boots: seq<set<Version>>, i: nat)
    requires Less(origin, target) && i < |boots| && boots[i] !! plan.managed
    ensures AfterBoots(plan, target, boots, Db(origin, [])) == Db(target, Remaining(plan, origin, target))
  {
    ResumeConserves(plan, origin, target, boots[..i]);
    CalmBoot(plan, target, boots[i], AfterBoots(plan, target, boots[..i], Db(origin, [])));
    assert boots[..i + 1][..i] == boots[..i];
    StaysReached(plan, target, boots, Db(origin, []), i + 1);
    ResumeConserves(plan, origin, target, boots);
    NothingRemains(plan, target);
  }

  /** The managers of an ascending path, each once and in ascending order. */
  lemma {:induction false} ManagersAscend(managed: set<Version>, path: seq<Version>)
    requires StrictlyAscending(path)
    ensures StrictlyAscending(Managers(managed, path))
    ensures forall v :: v in Managers(managed, path) <==> v in path && v in managed
  {
    if path != [] {
      var n := |path| - 1;
      ManagersAscend(managed, path[..n]);
      assert path == path[..n] + [path[n]];
      var before := Managers(managed, path[..n]);
      forall i | 0 <= i < |before| ensures Less(before[i], path[n]) {
        assert before[i] in before;
        var k :| 0 <= k < n && path[k] == before[i];
      }
    }
  }

  /**
   Resuming equals one uninterrupted run: as soon as any start met no failing
   manager, the stored version is the target and the managers that succeeded, over
   all starts together, are exactly the managed versions of the path, each once
   and ascending.
   */
  lemma ResumeEqualsOneRun(plan: Plan, origin: Version, target: Version, boots: seq<set<Version>>, i: nat)
    requires Less(origin, target) && i < |boots| && boots[i] !! plan.managed
    ensures var d := AfterBoots(plan, target, boots, Db(origin, []));
      && d == AfterBoot(plan, target, {}, Db(origin, [])).0
      && d.version == target
      && StrictlyAscending(d.applied)
      && forall v :: v in d.applied <==> v in plan.managed && v in Upgrades(plan.known, origin, target)
  {
    ResumeFinishes(plan, origin, target, boots, i);
    var calm: seq<set<Version>> := [{}];
    ResumeFinishes(plan, origin, target, calm, 0);
    assert calm[..0] == [];
    assert AfterBoots(plan, target, calm[..0], Db(origin, [])) == Db(origin, []);
    var path := Path(plan.known, origin, target);
    ManagersAscend(plan.managed, path);
    assert forall v :: v in path <==> v in Elements(path);
  }

  // ---- The code, on version texts ----

  function ManagedKeys(m: VersionMap): set<string> {
    set k | k in m && m[k].hasManager
  }

  function PlanOf(m: VersionMap): Plan {
    Plan(Known(m), set k | k in ManagedKeys(m) :: Parsed(k))
  }

  /** The managed versions whose manager fails. */
  function FailingOf(m: VersionMap, failing: set<string>): set<Version> {
    set k | k in ManagedKeys(m) && k in failing :: Parsed(k)
  }

  /**
   One start of the agent on texts: an empty text is a configuration error, equal
   texts need no upgrade, and a text without a minor component panics when parsed.
   */
  ghost function BootOnTexts(m: VersionMap, target: string, failing: set<string>, d: Db<string>): (Db<string>, Outcome) {
    if target == "" || d.version == "" then (d, Misconfigured)
    else if d.version == target then (d, UpToDate)
    else if ParseVersion(d.version).None? || ParseVersion(target).None? then (d, Panicked)
    else
      var path := Path(Known(m), Parsed(d.version), Parsed(target));
      if path == [] then (d, Panicked) else AfterRun(ManagedKeys(m), Texts(path), failing, d)
  }

  ghost function BootsOnTexts(m: VersionMap, target: string, boots: seq<set<string>>, d: Db<string>): Db<string> {
    if boots == [] then d
    else BootOnTexts(m, target, boots[|boots| - 1], BootsOnTexts(m, target, boots[..|boots| - 1], d)).0
  }

  class ControlPlane {
    var version: string
    var applied: seq<string>

    function State(): Db<string>
      reads this
    {
      Db(version, applied)
    }

    constructor (stored: string)
      ensures State() == Db(stored, [])
    {
      version, applied := stored, [];
    }

    /** The run loop. failing names the managers whose Run returns an error this time. */
    method RunPath(m: VersionMap, path: seq<string>, failing: set<string>) returns (outcome: Outcome)
      requires path != []
      modifies this
      ensures (State(), outcome) == AfterRun(ManagedKeys(m), path, failing, old(State()))
    {
      ghost var managed := ManagedKeys(m);
      ghost var k := StopAt(managed, path, failing);
      var i := 0;
      while i < |path|
        invariant 0 <= i <= k
        invariant applied == old(applied) + Managers(managed, path[..i])
        invariant version == LastOr(Managers(managed, path[..i]), old(version))
      {
        assert path[..i + 1][..i] == path[..i];
        var v := path[i];
        if v in m && m[v].hasManager {
          if v in failing {
            return Failed;
          }
          applied := applied + [v];
          version := v;
        }
        i := i + 1;
      }
      version := path[|path| - 1];
      outcome := Upgraded;
    }

    /** NewUpgradeManager and Run, for whatever texts are stored and asked for. */
    method Boot(m: VersionMap, target: string, failing: set<string>) returns (outcome: Outcome)
      requires CanonicalKeys(m)
      modifies this
      ensures (State(), outcome) == BootOnTexts(m, target, failing, old(State()))
    {
      if target == "" || version == "" {
        return Misconfigured;
      }
      if version == target {
        return UpToDate;
      }
      var previous, goal := ParseVersion(version), ParseVersion(target);
      if previous.None? || goal.None? {
        return Panicked;
      }
      var path := TraceUpgradePath(previous.value, goal.value, m);
      NoPathBackwards(m, previous.value, goal.value);
      if path.None? || path.value == [] {
        return Panicked;
      }
      outcome := RunPath(m, path.value, failing);
    }
  }

  lemma NoPathBackwards(m: VersionMap, previous: Version, target: Version)
    ensures Less(target, previous) ==> Path(Known(m), previous, target) == []
  {
    if Less(target, previous) {
      assert Upgrades(Known(m), previous, target) == {};
    }
  }

  /** The keys and the versions they print agree on which managers there are and which fail. */
  lemma Lookup(m: VersionMap, failing: set<string>, v: Version)
    requires CanonicalKeys(m) && Fits(v)
    ensures v in PlanOf(m).managed <==> GetVersion(v) in ManagedKeys(m)
    ensures Fails(PlanOf(m).managed, v, FailingOf(m, failing)) <==> Fails(ManagedKeys(m), GetVersion(v), failing)
  {
    PrintedIsCanonical(v);
    forall k | k in m && Parsed(k) == v ensures k == GetVersion(v) {
      CanonicalDistinct(k, GetVersion(v));
    }
  }

  // Runs over two lists that correspond element by element.

  function Mapped<T, U>(f: T -> U, xs: seq<T>): seq<U> {
    seq(|xs|, i requires 0 <= i < |xs| => f(xs[i]))
  }

  predicate Agree<T(==), U(==)>(f: T -> U, xs: seq<T>, managed: set<T>, failing: set<T>, managed': set<U>, failing': set<U>) {
    forall i :: 0 <= i < |xs| ==>
      && (xs[i] in managed <==> f(xs[i]) in managed')
      && (Fails(managed, xs[i], failing) <==> Fails(managed', f(xs[i]), failing'))
  }

  lemma {:induction false} StopMapped<T, U>(f: T -> U, xs: seq<T>, managed: set<T>, failing: set<T>, managed': set<U>, failing': set<U>)
    requires Agree(f, xs, managed, failing, managed', failing')
    ensures StopAt(managed', Mapped(f, xs), failing') == StopAt(managed, xs, failing)
  {
    if xs != [] {
      assert Mapped(f, xs)[1..] == Mapped(f, xs[1..]) && Mapped(f, xs)[0] == f(xs[0]);
      StopMapped(f, xs[1..], managed, failing, managed', failing');
    }
  }

  lemma {:induction false} ManagersMapped<T, U>(f: T -> U, xs: seq<T>, managed: set<T>, failing: set<T>, managed': set<U>, failing': set<U>)
    requires Agree(f, xs, managed, failing, managed', failing')
    ensures Managers(managed', Mapped(f, xs)) == Mapped(f, Managers(managed, xs))
  {
    if xs != [] {
      var n := |xs| - 1;
      assert Mapped(f, xs)[..n] == Mapped(f, xs[..n]) && Mapped(f, xs)[n] == f(xs[n]);
      ManagersMapped(f, xs[..n], managed, failing, managed', failing');
    }
  }

  lemma RunMapped<T, U>(f: T -> U, xs: seq<T>, managed: set<T>, failing: set<T>, managed': set<U>, failing': set<U>, v: T, d: Db<U>)
    requires xs != [] && Agree(f, xs, managed, failing, managed', failing') && d.version == f(v)
    ensures var (d', o) := AfterRun(managed, xs, failing, Db(v, []));
      AfterRun(managed', Mapped(f, xs), failing', d) == (Db(f(d'.version), d.applied + Mapped(f, d'.applied)), o)
  {
    var k := StopAt(managed, xs, failing);
    var done := Managers(managed, xs[..k]);
    StopMapped(f, xs, managed, failing, managed', failing');
    DoneMapped(f, xs, managed, failing, managed', failing', k);
    LastMapped(f, done, v);
    assert [] + done == done;
  }

  lemma DoneMapped<T, U>(f: T -> U, xs: seq<T>, managed: set<T>, failing: set<T>, managed': set<U>, failing': set<U>, k: nat)
    requires k <= |xs| && Agree(f, xs, managed, failing, managed', failing')
    ensures Managers(managed', Mapped(f, xs)[..k]) == Mapped(f, Managers(managed, xs[..k]))
  {
    ManagersMapped(f, xs[..k], managed, failing, managed', failing');
    assert Mapped(f, xs)[..k] == Mapped(f, xs[..k]);
  }

  lemma LastMapped<T, U>(f: T -> U, xs: seq<T>, v: T)
    ensures LastOr(Mapped(f, xs), f(v)) == f(LastOr(xs, v))
  {
    if xs != [] {
      assert Mapped(f, xs)[|xs| - 1] == f(xs[|xs| - 1]);
    }
  }

  lemma PathFits(m: VersionMap, previous: Version, target: Version)
    requires Fits(target)
    ensures forall i :: 0 <= i < |Path(Known(m), previous, target)| ==> Fits(Path(Known(m), previous, target)[i])
  {
    forall i | 0 <= i < |Path(Known(m), previous, target)| ensures Fits(Path(Known(m), previous, target)[i]) {
      OnPath(Known(m), previous, target, i);
    }
  }

  /** A run over the texts of a path prints what the run over its versions computes. */
  lemma RunTexts(m: VersionMap, previous: Version, target: Version, failing: set<string>, d: Db<string>)
    requires CanonicalKeys(m) && Fits(target) && d.version == GetVersion(previous)
    requires Path(Known(m), previous, target) != []
    ensures var vs := Path(Known(m), previous, target);
      var (d', o) := AfterRun(PlanOf(m).managed, vs, FailingOf(m, failing), Db(previous, []));
      AfterRun(ManagedKeys(m), Texts(vs), failing, d) == (Db(GetVersion(d'.version), d.applied + Texts(d'.applied)), o)
  {
    var vs := Path(Known(m), previous, target);
    var managed, failed := PlanOf(m).managed, FailingOf(m, failing);
    PathFits(m, previous, target);
    forall i | 0 <= i < |vs|
      ensures vs[i] in managed <==> GetVersion(vs[i]) in ManagedKeys(m)
      ensures Fails(managed, vs[i], failed) <==> Fails(ManagedKeys(m), GetVersion(vs[i]), failing)
    {
      Lookup(m, failing, vs[i]);
    }
    RunMapped(GetVersion, vs, managed, failed, ManagedKeys(m), failing, previous, d);
    TextsMapped(vs);
    TextsMapped(AfterRun(managed, vs, failed, Db(previous, [])).0.applied);
  }

  lemma TextsMapped(vs: seq<Version>)
    ensures Mapped(GetVersion, vs) == Texts(vs)
  {
  }

  // ---- The same theorem for the stored texts ----

  function Printed(d: Db<Version>): Db<string> {
    Db(GetVersion(d.version), Texts(d.applied))
  }

  lemma TextsConcat(a: seq<Version>, b: seq<Version>)
    ensures Texts(a + b) == Texts(a) + Texts(b)
  {
  }

  lemma RunAppends<T>(managed: set<T>, path: seq<T>, failing: set<T>, d: Db<T>)
    requires path != []
    ensures var d0 := AfterRun(managed, path, failing, Db(d.version, []));
      AfterRun(managed, path, failing, d) == (Db(d0.0.version, d.applied + d0.0.applied), d0.1)
  {
    var done := Managers(managed, path[..StopAt(managed, path, failing)]);
    assert [] + done == done;
  }

  lemma PrintedText(v: Version)
    ensures GetVersion(v) != ""
  {
    assert '.' in MainText(v);
  }

  lemma RunPrints(m: VersionMap, target: Version, failing: set<string>, d: Db<Version>)
    requires CanonicalKeys(m) && Fits(target) && Fits(d.version) && Path(Known(m), d.version, target) != []
    ensures var path := Path(Known(m), d.version, target);
      var (d', o) := AfterRun(PlanOf(m).managed, path, FailingOf(m, failing), d);
      AfterRun(ManagedKeys(m), Texts(path), failing, Printed(d)) == (Printed(d'), o) && Fits(d'.version)
  {
    var path := Path(Known(m), d.version, target);
    var managed, failed := PlanOf(m).managed, FailingOf(m, failing);
    RunTexts(m, d.version, target, failing, Printed(d));
    RunAppends(managed, path, failed, d);
    TextsConcat(d.applied, AfterRun(managed, path, failed, Db(d.version, [])).0.applied);
    PathFits(m, d.version, target);
    var j := RunLeaves(managed, path, failed, d);
  }

  lemma DistinctTexts(v: Version, w: Version)
    requires Fits(v) && Fits(w)
    ensures GetVersion(v) == GetVersion(w) <==> v == w
    ensures GetVersion(v) != "" && ParseVersion(GetVersion(v)) == Some(v) && Parsed(GetVersion(v)) == v
  {
    PrintedText(v);
    PrintedIsCanonical(v);
    PrintedIsCanonical(w);
  }

  /** A start on texts prints what a start on versions computes. */
  lemma BootPrints(m: VersionMap, target: Version, failing: set<string>, d: Db<Version>)
    requires CanonicalKeys(m) && Fits(target) && Fits(d.version)
    ensures var (d', o) := AfterBoot(PlanOf(m), target, FailingOf(m, failing), d);
      BootOnTexts(m, GetVersion(target), failing, Printed(d)) == (Printed(d'), o) && Fits(d'.version)
  {
    DistinctTexts(target, d.version);
    DistinctTexts(d.version, target);
    if Path(Known(m), d.version, target) != [] {
      RunPrints(m, target, failing, d);
    }
  }

  function FailingAll(m: VersionMap, boots: seq<set<string>>): seq<set<Version>> {
    seq(|boots|, i requires 0 <= i < |boots| => FailingOf(m, boots[i]))
  }

  lemma OneMoreBoot(m: VersionMap, target: Version, boots: seq<set<string>>, d: Db<Version>)
    requires boots != []
    ensures var n := |boots| - 1;
      AfterBoots(PlanOf(m), target, FailingAll(m, boots), d)
      == AfterBoot(PlanOf(m), target, FailingOf(m, boots[n]), AfterBoots(PlanOf(m), target, FailingAll(m, boots[..n]), d)).0
  {
    assert FailingAll(m, boots)[..|boots| - 1] == FailingAll(m, boots[..|boots| - 1]);
  }

  lemma {:induction false} BootsPrint(m: VersionMap, target: Version, boots: seq<set<string>>, d: Db<Version>)
    requires CanonicalKeys(m) && Fits(target) && Fits(d.version)
    ensures BootsOnTexts(m, GetVersion(target), boots, Printed(d))
         == Printed(AfterBoots(PlanOf(m), target, FailingAll(m, boots), d))
    ensures Fits(AfterBoots(PlanOf(m), target, FailingAll(m, boots), d).version)
  {
    if boots != [] {
      var n := |boots| - 1;
      BootsPrint(m, target, boots[..n], d);
      OneMoreBoot(m, target, boots, d);
      BootPrints(m, target, boots[n], AfterBoots(PlanOf(m), target, FailingAll(m, boots[..n]), d));
    }
  }

  /**
   The agent as it is coded: over any sequence of starts of which one met no
   failing manager, the stored text is the target's and the managers that
   succeeded are those of one start in which nothing failed.
   */
  lemma TextsResume(m: VersionMap, origin: Version, target: Version, boots: seq<set<string>>, i: nat)
    requires CanonicalKeys(m) && Fits(origin) && Fits(target) && Less(origin, target)
    requires i < |boots| && boots[i] !! ManagedKeys(m)
    ensures var start := Db(GetVersion(origin), []);
      var d := BootsOnTexts(m, GetVersion(target), boots, start);
      d == BootOnTexts(m, GetVersion(target), {}, start).0 && d.version == GetVersion(target)
    ensures var applied := BootsOnTexts(m, GetVersion(target), boots, Db(GetVersion(origin), [])).applied;
      && (forall i, j :: 0 <= i < j < |applied| ==> Less(Parsed(applied[i]), Parsed(applied[j])))
      && forall s :: s in applied <==> s in m && m[s].hasManager && Less(origin, Parsed(s)) && AtMost(Parsed(s), target)
  {
    var d := Db(origin, []);
    assert Printed(d) == Db(GetVersion(origin), []);
    BootsPrint(m, target, boots, d);
    BootPrints(m, target, {}, d);
    assert FailingOf(m, {}) == {};
    assert FailingAll(m, boots)[i] == {};
    ResumeEqualsOneRun(PlanOf(m), origin, target, FailingAll(m, boots), i);
    AppliedTexts(m, origin, target, AfterBoots(PlanOf(m), target, FailingAll(m, boots), d).applied);
  }

  /** The texts of the managers that ran are the keys with a manager that lie on the way. */
  lemma AppliedTexts(m: VersionMap, origin: Version, target: Version, applied: seq<Version>)
    requires CanonicalKeys(m) && StrictlyAscending(applied)
    requires forall v :: v in applied <==> v in PlanOf(m).managed && v in Upgrades(Known(m), origin, target)
    ensures forall i, j :: 0 <= i < j < |applied| ==> Less(Parsed(Texts(applied)[i]), Parsed(Texts(applied)[j]))
    ensures forall s :: s in Texts(applied) <==> s in m && m[s].hasManager && Less(origin, Parsed(s)) && AtMost(Parsed(s), target)
  {
    forall i | 0 <= i < |applied| ensures Parsed(Texts(applied)[i]) == applied[i] {
      AppliedText(m, origin, target, applied, i);
    }
    forall s | s in Texts(applied) ensures ManagedKey(m, s) && Less(origin, Parsed(s)) && AtMost(Parsed(s), target) {
      var i :| 0 <= i < |applied| && Texts(applied)[i] == s;
      AppliedText(m, origin, target, applied, i);
    }
    forall s | ManagedKey(m, s) && Less(origin, Parsed(s)) && AtMost(Parsed(s), target) ensures s in Texts(applied) {
      KeyIsApplied(m, origin, target, applied, s);
    }
  }

  lemma AppliedText(m: VersionMap, origin: Version, target: Version, applied: seq<Version>, i: nat)
    requires CanonicalKeys(m) && i < |applied|
    requires forall v :: v in applied <==> v in PlanOf(m).managed && v in Upgrades(Known(m), origin, target)
    ensures var s := Texts(applied)[i];
      ManagedKey(m, s) && Parsed(s) == applied[i] && Less(origin, Parsed(s)) && AtMost(Parsed(s), target)
  {
    assert applied[i] in applied;
    ManagedText(m, applied[i]);
  }

  lemma KeyIsApplied(m: VersionMap, origin: Version, target: Version, applied: seq<Version>, s: string)
    requires CanonicalKeys(m) && ManagedKey(m, s) && Less(origin, Parsed(s)) && AtMost(Parsed(s), target)
    requires forall v :: v in applied <==> v in PlanOf(m).managed && v in Upgrades(Known(m), origin, target)
    ensures s in Texts(applied)
  {
    assert s in ManagedKeys(m) && Parsed(s) in PlanOf(m).managed && Parsed(s) in Known(m);
    var i :| 0 <= i < |applied| && applied[i] == Parsed(s);
    assert Canonical(s) && Texts(applied)[i] == s;
  }

  predicate ManagedKey(m: VersionMap, s: string) {
    s in m && m[s].hasManager
  }

  lemma ManagedText(m: VersionMap, v: Version)
    requires CanonicalKeys(m) && v in PlanOf(m).managed
    ensures ManagedKey(m, GetVersion(v)) && Parsed(GetVersion(v)) == v
  {
    var k :| k in ManagedKeys(m) && Parsed(k) == v;
    assert Canonical(k);
  }

  // ---- What a start reports ----

  /** Some manager on the way from the stored text to the target fails. */
  ghost predicate MeetsFailure(m: VersionMap, target: string, failing: set<string>, stored: string) {
    exists v :: v in Upgrades(Known(m), Parsed(stored), Parsed(target)) && ManagedKey(m, GetVersion(v)) && GetVersion(v) in failing
  }

  /**
   The outcome of a start, for any texts: misconfigured iff one is missing, up to date
   iff they are the same, panicked iff one does not parse or the target is not above,
   failed iff a manager on the way fails, and otherwise upgraded to the target. Only a
   start that is upgraded or failed changes anything.
   */
  lemma StartOutcome(m: VersionMap, target: string, failing: set<string>, d: Db<string>)
    ensures var (d', o) := BootOnTexts(m, target, failing, d);
      if target == "" || d.version == "" then o == Misconfigured && d' == d
      else if d.version == target then o == UpToDate && d' == d
      else if ParseVersion(d.version).None? || ParseVersion(target).None? || !Less(Parsed(d.version), Parsed(target)) then o == Panicked && d' == d
      else if MeetsFailure(m, target, failing, d.version) then o == Failed
      else o == Upgraded && d'.version == GetVersion(Parsed(target))
  {
    var known, p, t := Known(m), Parsed(d.version), Parsed(target);
    if Less(p, t) {
      PathEndsInTarget(known, p, t);
      RunOutcome(m, Path(known, p, t), failing, d);
      assert forall v :: v in Path(known, p, t) <==> v in Elements(Path(known, p, t));
    } else {
      assert Upgrades(known, p, t) == {};
    }
  }

  lemma RunOutcome(m: VersionMap, path: seq<Version>, failing: set<string>, d: Db<string>)
    requires path != []
    ensures var (d', o) := AfterRun(ManagedKeys(m), Texts(path), failing, d);
      if exists v :: v in path && ManagedKey(m, GetVersion(v)) && GetVersion(v) in failing then o == Failed
      else o == Upgraded && d'.version == GetVersion(path[|path| - 1])
  {
    var texts := Texts(path);
    var k := StopAt(ManagedKeys(m), texts, failing);
    if k < |path| {
      assert path[k] in path && ManagedKey(m, GetVersion(path[k])) && GetVersion(path[k]) in failing;
    } else {
      forall v | v in path ensures !(ManagedKey(m, GetVersion(v)) && GetVersion(v) in failing) {
        var i :| 0 <= i < |path| && path[i] == v;
        assert !Fails(ManagedKeys(m), texts[i], failing);
      }
    }
  }
}
