/**
 The registry of infrastructure connections: registration that replaces a stale
 entry, teardown that must not remove a newer one, and the is_active flag that is
 written to the database outside the lock.
 */
module Connections {
  import opened Wrappers

  /** A connection is named by the position of its InfraConnect call. */
  type Registry = map<string, nat>

  datatype Write = Write(infra: string, active: bool)

  datatype State = State(
    connected: Registry,
    conns: seq<string>,  // the infra of every registered connection
    closed: set<nat>,  // connections whose context is done and handled
    writes: seq<Write>,  // database writes issued and not yet applied
    active: set<string>)  // infras whose is_active is true in the database

  datatype Action =
    | Connect(infra: string, verified: bool)
    | Teardown(conn: nat)
    | Apply(index: nat)

  // ---- The locked sections ----

  /** Teardown returns early exactly when another connection is registered. */
  predicate Replaced(connected: Registry, infra: string, conn: nat) {
    infra in connected && connected[infra] != conn
  }

  function Registered(connected: Registry, infra: string, conn: nat): Registry {
    connected[infra := conn]
  }

  function Released(connected: Registry, infra: string, conn: nat): Registry {
    if Replaced(connected, infra, conn) then connected else connected - {infra}
  }

  // ---- Runs ----

  predicate Enabled(s: State, a: Action) {
    match a
    case Connect(_, _) => true
    case Teardown(c) => c < |s.conns| && c !in s.closed
    case Apply(k) => k < |s.writes|
  }

  function Next(s: State, a: Action): State
    requires Enabled(s, a)
  {
    match a
    case Connect(infra, verified) =>
      if !verified then s
      else s.(connected := Registered(s.connected, infra, |s.conns|),
              conns := s.conns + [infra],
              writes := s.writes + [Write(infra, true)])
    case Teardown(c) =>
      var infra := s.conns[c];
      if Replaced(s.connected, infra, c) then s.(closed := s.closed + {c})
      else s.(connected := Released(s.connected, infra, c),
              closed := s.closed + {c},
              writes := s.writes + [Write(infra, false)])
    case Apply(k) =>
      var w := s.writes[k];
      s.(writes := s.writes[..k] + s.writes[k + 1..],
         active := if w.active then s.active + {w.infra} else s.active - {w.infra})
  }

  const INITIAL := State(map[], [], {}, [], {})

  datatype Run = Start | Then(prev: Run, a: Action)

  predicate Valid(r: Run)
    decreases r, 0
  {
    r.Then? ==> Valid(r.prev) && Enabled(Final(r.prev), r.a)
  }

  function Final(r: Run): State
    requires Valid(r)
    decreases r, 1
  {
    match r
    case Start => INITIAL
    case Then(prev, a) => Next(Final(prev), a)
  }

  /** The connection registered last for the infra. */
  function Latest(r: Run, infra: string): Option<nat>
    requires Valid(r)
  {
    match r
    case Start => None
    case Then(prev, a) =>
      if a.Connect? && a.verified && a.infra == infra then Some(|Final(prev).conns|) else Latest(prev, infra)
  }

  predicate TornDown(r: Run, c: nat) {
    r.Then? && (r.a == Teardown(c) || TornDown(r.prev, c))
  }

  lemma {:induction false} Bookkeeping(r: Run, infra: string)
    requires Valid(r)
    ensures var s := Final(r);
      && (forall c :: TornDown(r, c) <==> c in s.closed)
      && (forall c :: c in s.closed ==> c < |s.conns|)
      && (Latest(r, infra).Some? ==> Latest(r, infra).value < |s.conns| && s.conns[Latest(r, infra).value] == infra)
  {
    if r.Then? {
      Bookkeeping(r.prev, infra);
    }
  }

  /**
   In every interleaving the registry holds for each infra exactly the connection
   registered last, if it has not been torn down, and nothing otherwise.
   */
  lemma {:induction false} RegistryIsLatest(r: Run, infra: string)
    requires Valid(r)
    ensures infra in Final(r).connected <==> Latest(r, infra).Some? && !TornDown(r, Latest(r, infra).value)
    ensures infra in Final(r).connected ==> Latest(r, infra) == Some(Final(r).connected[infra])
  {
    if r.Then? {
      RegistryIsLatest(r.prev, infra);
      Bookkeeping(r.prev, infra);
    }
  }

  /** Tearing down a replaced connection while a newer one stands changes nothing else. */
  lemma StaleTeardownIsHarmless(r: Run, c: nat)
    requires Valid(r) && Enabled(Final(r), Teardown(c))
    requires var latest := Latest(r, Final(r).conns[c]); latest.Some? && latest.value != c && !TornDown(r, latest.value)
    ensures Next(Final(r), Teardown(c)) == Final(r).(closed := Final(r).closed + {c})
  {
    RegistryIsLatest(r, Final(r).conns[c]);
  }

  /** The map holds exactly the latest connections that are not torn down. */
  ghost predicate HoldsLatest(connected: Registry, r: Run)
    requires Valid(r)
  {
    forall infra ::
      && (infra in connected <==> Latest(r, infra).Some? && !TornDown(r, Latest(r, infra).value))
      && (infra in connected ==> Latest(r, infra) == Some(connected[infra]))
  }

  lemma RegistryHoldsLatest(r: Run)
    requires Valid(r)
    ensures HoldsLatest(Final(r).connected, r)
  {
    forall infra
      ensures infra in Final(r).connected <==> Latest(r, infra).Some? && !TornDown(r, Latest(r, infra).value)
      ensures infra in Final(r).connected ==> Latest(r, infra) == Some(Final(r).connected[infra])
    {
      RegistryIsLatest(r, infra);
    }
  }

  /** A newer connection of the same infra is registered and not torn down. */
  predicate Superseded(r: Run, infra: string, conn: nat)
    requires Valid(r)
  {
    Latest(r, infra).Some? && Latest(r, infra).value != conn && !TornDown(r, Latest(r, infra).value)
  }

  class Store {
    ghost var history: Run
    var connectedInfra: Registry

    /** The map is what the locked sections so far made of it. */
    ghost predicate Consistent()
      reads this
    {
      Valid(history) && connectedInfra == Final(history).connected
    }

    constructor ()
      ensures Consistent() && history == Start && connectedInfra == map[]
    {
      history, connectedInfra := Start, map[];
    }

    /** conn is the channel of this call, so no earlier call has it. */
    method Register(infra: string, conn: nat) returns (stale: bool)
      requires Consistent() && conn == |Final(history).conns|
      modifies this
      ensures Consistent() && history == Then(old(history), Connect(infra, true))
      ensures HoldsLatest(connectedInfra, history) && infra in connectedInfra && connectedInfra[infra] == conn
      ensures stale <==> Latest(old(history), infra).Some? && !TornDown(old(history), Latest(old(history), infra).value)
    {
      RegistryIsLatest(history, infra);
      stale := infra in connectedInfra;
      connectedInfra := connectedInfra[infra := conn];
      history := Then(history, Connect(infra, true));
      RegistryHoldsLatest(history);
    }

    /** offline tells whether the teardown goes on to announce and store the disconnection. */
    method Disconnect(infra: string, conn: nat) returns (offline: bool)
      requires Consistent() && Enabled(Final(history), Teardown(conn)) && Final(history).conns[conn] == infra
      modifies this
      ensures Consistent() && history == Then(old(history), Teardown(conn))
      ensures HoldsLatest(connectedInfra, history)
      ensures offline <==> !Superseded(old(history), infra, conn)
      ensures if offline then infra !in connectedInfra else connectedInfra == old(connectedInfra)
    {
      RegistryIsLatest(history, infra);
      if infra in connectedInfra && connectedInfra[infra] != conn {
        offline := false;
      } else {
        connectedInfra := connectedInfra - {infra};
        offline := true;
      }
      history := Then(history, Teardown(conn));
      RegistryHoldsLatest(history);
    }
  }

  // ---- is_active ----

  /** The write that an action issues for the infra, if any. */
  function Issues(s: State, a: Action, infra: string): Option<bool>
    requires Enabled(s, a)
  {
    if a.Connect? && a.verified && a.infra == infra then Some(true)
    else if a.Teardown? && s.conns[a.conn] == infra && !Replaced(s.connected, infra, a.conn) then Some(false)
    else None
  }

  /** The write that an action applies for the infra, if any. */
  function Applies(s: State, a: Action, infra: string): Option<bool>
    requires Enabled(s, a)
  {
    if a.Apply? && s.writes[a.index].infra == infra then Some(s.writes[a.index].active) else None
  }

  function Else(x: Option<bool>, y: Option<bool>): Option<bool> {
    if x.Some? then x else y
  }

  /** The infra's write that was issued last. */
  function Issued(r: Run, infra: string): Option<bool>
    requires Valid(r)
  {
    if r.Start? then None else Else(Issues(Final(r.prev), r.a, infra), Issued(r.prev, infra))
  }

  /** The infra's write that was applied last. */
  function Applied(r: Run, infra: string): Option<bool>
    requires Valid(r)
  {
    if r.Start? then None else Else(Applies(Final(r.prev), r.a, infra), Applied(r.prev, infra))
  }

  predicate NonePending(s: State, infra: string) {
    forall i :: 0 <= i < |s.writes| ==> s.writes[i].infra != infra
  }

  lemma {:induction false} RegistryIsIssued(r: Run, infra: string)
    requires Valid(r)
    ensures infra in Final(r).connected <==> Issued(r, infra) == Some(true)
  {
    if r.Then? {
      RegistryIsIssued(r.prev, infra);
    }
  }

  lemma {:induction false} ActiveIsApplied(r: Run, infra: string)
    requires Valid(r)
    ensures infra in Final(r).active <==> Applied(r, infra) == Some(true)
  {
    if r.Then? {
      ActiveIsApplied(r.prev, infra);
    }
  }

  /** The write a locked section adds to the outstanding ones, if it adds any. */
  lemma SectionWrites(s: State, a: Action, infra: string)
    requires Enabled(s, a) && !a.Apply?
    ensures s.writes <= Next(s, a).writes
    ensures if Issues(s, a, infra).Some? then Next(s, a).writes == s.writes + [Write(infra, Issues(s, a, infra).value)]
            else forall i :: |s.writes| <= i < |Next(s, a).writes| ==> Next(s, a).writes[i].infra != infra
  {
  }

  lemma PendingAfterSection(s: State, a: Action, infra: string)
    requires Enabled(s, a) && !a.Apply?
    ensures NonePending(Next(s, a), infra) <==> NonePending(s, infra) && Issues(s, a, infra).None?
  {
    var ws, ws' := s.writes, Next(s, a).writes;
    SectionWrites(s, a, infra);
    assert forall i :: 0 <= i < |ws| ==> ws'[i] == ws[i];
    if Issues(s, a, infra).Some? {
      assert ws'[|ws|].infra == infra;
    }
  }

  lemma PendingAfterApply(s: State, k: nat, infra: string)
    requires k < |s.writes|
    ensures NonePending(s, infra) <==> NonePending(Next(s, Apply(k)), infra) && Applies(s, Apply(k), infra).None?
  {
    var ws, ws' := s.writes, Next(s, Apply(k)).writes;
    assert forall i :: 0 <= i < k ==> ws'[i] == ws[i];
    assert forall i :: k <= i < |ws'| ==> ws'[i] == ws[i + 1];
    assert forall i :: k < i < |ws| ==> ws[i] == ws'[i - 1];
  }

  /** A write that has been issued is outstanding until one has been applied, and none is applied unissued. */
  lemma {:induction false} IssuedFirst(r: Run, infra: string)
    requires Valid(r)
    ensures (Applied(r, infra).Some? || !NonePending(Final(r), infra)) <==> Issued(r, infra).Some?
  {
    if r.Then? {
      IssuedFirst(r.prev, infra);
      if r.a.Apply? {
        PendingAfterApply(Final(r.prev), r.a.index, infra);
      } else {
        PendingAfterSection(Final(r.prev), r.a, infra);
      }
    }
  }

  lemma SameValue(x: Option<bool>, y: Option<bool>)
    requires x.Some? <==> y.Some?
    ensures x == y <==> (x == Some(true) <==> y == Some(true))
  {
    if x.Some? && x.value == y.value {
      assert x == y;
    }
  }

  /**
   In every run, once no write of the infra is outstanding: is_active agrees with
   the registry exactly when the write applied last has the value of the write
   issued last, that is, when no opposite write was applied after it.
   */
  lemma ActiveAgreesIff(r: Run, infra: string)
    requires Valid(r) && NonePending(Final(r), infra)
    ensures (infra in Final(r).active <==> infra in Final(r).connected) <==> Applied(r, infra) == Issued(r, infra)
  {
    RegistryIsIssued(r, infra);
    ActiveIsApplied(r, infra);
    IssuedFirst(r, infra);
    SameValue(Applied(r, infra), Issued(r, infra));
  }

  // ---- Agreement and disagreement last until the infra's next locked section ----

  /** Run q goes on from run p without issuing a write for the infra. */
  predicate Quiet(p: Run, q: Run, infra: string)
    requires Valid(q)
  {
    p == q || (q.Then? && Quiet(p, q.prev, infra) && Issues(Final(q.prev), q.a, infra).None?)
  }

  lemma KeepsUnlessWritten(s: State, a: Action, infra: string)
    requires Enabled(s, a)
    ensures Issues(s, a, infra).None? ==> (infra in Next(s, a).connected <==> infra in s.connected)
    ensures Applies(s, a, infra).None? ==> (infra in Next(s, a).active <==> infra in s.active)
  {
  }

  /** Without writes of the infra neither its is_active nor its entry changes, whatever others do. */
  lemma {:induction false} QuietKeeps(p: Run, q: Run, infra: string)
    requires Valid(q) && Valid(p) && Quiet(p, q, infra) && NonePending(Final(p), infra)
    ensures NonePending(Final(q), infra)
    ensures infra in Final(q).active <==> infra in Final(p).active
    ensures infra in Final(q).connected <==> infra in Final(p).connected
  {
    if p != q {
      var s := Final(q.prev);
      QuietKeeps(p, q.prev, infra);
      if q.a.Apply? {
        PendingAfterApply(s, q.a.index, infra);
      } else {
        PendingAfterSection(s, q.a, infra);
      }
      KeepsUnlessWritten(s, q.a, infra);
    }
  }

  // ---- In-order writes agree ----

  /** No write overtakes an earlier one of the same infra. */
  predicate InOrder(r: Run)
    requires Valid(r)
  {
    r.Then? ==>
      && InOrder(r.prev)
      && (r.a.Apply? ==>
            var writes := Final(r.prev).writes;
            forall i :: 0 <= i < r.a.index ==> writes[i].infra != writes[r.a.index].infra)
  }

  /** Every locked section is followed at once by its write: section and write are one step. */
  predicate OneStep(r: Run)
    requires Valid(r)
  {
    r.Then? ==> OneStep(r.prev) && (!r.a.Apply? ==> Final(r.prev).writes == [])
  }

  /** The value of the last outstanding write of the infra. */
  function LastValue(writes: seq<Write>, infra: string): Option<bool> {
    if writes == [] then None
    else
      var n := |writes| - 1;
      if writes[n].infra == infra then Some(writes[n].active) else LastValue(writes[..n], infra)
  }

  lemma {:induction false} NoValue(writes: seq<Write>, infra: string)
    requires forall i :: 0 <= i < |writes| ==> writes[i].infra != infra
    ensures LastValue(writes, infra) == None
  {
    if writes != [] {
      NoValue(writes[..|writes| - 1], infra);
    }
  }

  lemma {:induction false} LaterValueWins(xs: seq<Write>, ys: seq<Write>, infra: string)
    ensures LastValue(xs + ys, infra) == Else(LastValue(ys, infra), LastValue(xs, infra))
  {
    if ys == [] {
      assert xs + ys == xs;
    } else {
      var n := |ys| - 1;
      assert (xs + ys)[..|xs + ys| - 1] == xs + ys[..n];
      LaterValueWins(xs, ys[..n], infra);
    }
  }

  lemma OneValue(w: Write, infra: string)
    ensures LastValue([w], infra) == if w.infra == infra then Some(w.active) else None
  {
    assert [w][..0] == [];
  }

  /** Applying the earliest write of its infra leaves what the writes come to. */
  lemma ApplyKeepsOutcome(s: State, k: nat, infra: string, applied: Option<bool>)
    requires k < |s.writes| && forall i :: 0 <= i < k ==> s.writes[i].infra != s.writes[k].infra
    ensures Else(LastValue(Next(s, Apply(k)).writes, infra), Else(Applies(s, Apply(k), infra), applied))
         == Else(LastValue(s.writes, infra), applied)
  {
    var w, xs, ys := s.writes[k], s.writes[..k], s.writes[k + 1..];
    assert s.writes == xs + [w] + ys;
    LaterValueWins(xs + [w], ys, infra);
    LaterValueWins(xs, [w], infra);
    LaterValueWins(xs, ys, infra);
    OneValue(w, infra);
    NoValue(xs, w.infra);
  }

  lemma SectionIssues(s: State, a: Action, infra: string)
    requires Enabled(s, a) && !a.Apply?
    ensures LastValue(Next(s, a).writes, infra) == Else(Issues(s, a, infra), LastValue(s.writes, infra))
  {
    SectionWrites(s, a, infra);
    var added := Next(s, a).writes[|s.writes|..];
    assert Next(s, a).writes == s.writes + added;
    LaterValueWins(s.writes, added, infra);
    if Issues(s, a, infra).Some? {
      OneValue(Write(infra, Issues(s, a, infra).value), infra);
    } else {
      NoValue(added, infra);
    }
  }

  /** As long as writes are applied in order, they come to the write issued last. */
  lemma {:induction false} WritesFollowIssue(r: Run, infra: string)
    requires Valid(r) && InOrder(r)
    ensures Else(LastValue(Final(r).writes, infra), Applied(r, infra)) == Issued(r, infra)
  {
    if r.Then? {
      WritesFollowIssue(r.prev, infra);
      if r.a.Apply? {
        ApplyKeepsOutcome(Final(r.prev), r.a.index, infra, Applied(r.prev, infra));
      } else {
        SectionIssues(Final(r.prev), r.a, infra);
      }
    }
  }

  /** With in-order writes, is_active agrees with the registry whenever none is outstanding. */
  lemma ActiveAgrees(r: Run, infra: string)
    requires Valid(r) && InOrder(r) && NonePending(Final(r), infra)
    ensures infra in Final(r).active <==> infra in Final(r).connected
  {
    WritesFollowIssue(r, infra);
    NoValue(Final(r).writes, infra);
    ActiveAgreesIff(r, infra);
  }

  lemma {:induction false} OneStepIsInOrder(r: Run)
    requires Valid(r) && OneStep(r)
    ensures InOrder(r) && |Final(r).writes| <= 1
  {
    if r.Then? {
      OneStepIsInOrder(r.prev);
    }
  }

  /** In particular when each locked section and its write are one step. */
  lemma ActiveAgreesOneStep(r: Run, infra: string)
    requires Valid(r) && OneStep(r) && Final(r).writes == []
    ensures infra in Final(r).active <==> infra in Final(r).connected
  {
    OneStepIsInOrder(r);
    ActiveAgrees(r, infra);
  }

  lemma Advance(r: Run, s: State, a: Action, s': State)
    requires Valid(r) && Final(r) == s && Enabled(s, a) && Next(s, a) == s'
    ensures Valid(Then(r, a)) && Final(Then(r, a)) == s'
  {
  }

  /** Connected, torn down and connected again, the last two writes still outstanding. */
  lemma ReconnectedRun(infra: string) returns (r: Run)
    ensures Valid(r)
    ensures Final(r) == State(map[infra := 1], [infra, infra], {0}, [Write(infra, false), Write(infra, true)], {infra})
  {
    var on, off := Write(infra, true), Write(infra, false);
    var s1 := State(map[infra := 0], [infra], {}, [on], {});
    Advance(Start, INITIAL, Connect(infra, true), s1);
    r := Then(Start, Connect(infra, true));
    var s2 := s1.(writes := [], active := {infra});
    Advance(r, s1, Apply(0), s2);
    r := Then(r, Apply(0));
    var s3 := State(map[], [infra], {0}, [off], {infra});
    assert map[infra := 0] - {infra} == map[];
    Advance(r, s2, Teardown(0), s3);
    r := Then(r, Teardown(0));
    var s4 := State(map[infra := 1], [infra, infra], {0}, [off, on], {infra});
    Advance(r, s3, Connect(infra, true), s4);
    r := Then(r, Connect(infra, true));
  }

  /**
   Outside the lock the order is not guaranteed: when the old connection's write is
   applied after the new connection's, a connected infra is inactive, and stays so
   however the run goes on until the infra's next locked section.
   */
  lemma OvertakenWriteDisagrees(infra: string) returns (r: Run)
    ensures Valid(r) && NonePending(Final(r), infra)
    ensures forall q :: Valid(q) && Quiet(r, q, infra) ==> infra in Final(q).connected && infra !in Final(q).active
  {
    var on, off := Write(infra, true), Write(infra, false);
    r := ReconnectedRun(infra);
    var s := Final(r);
    assert [off, on][..1] + [off, on][2..] == [off];
    Advance(r, s, Apply(1), s.(writes := [off]));
    r := Then(r, Apply(1));
    Advance(r, s.(writes := [off]), Apply(0), s.(writes := [], active := {}));
    r := Then(r, Apply(0));
    forall q | Valid(q) && Quiet(r, q, infra) ensures infra in Final(q).connected && infra !in Final(q).active {
      QuietKeeps(r, q, infra);
    }
  }
}
