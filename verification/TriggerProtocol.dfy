/**
 The optimistic-concurrency protocol that reconcile loops and auditors run
 against one EventTrackerPolicy object of the API server.

 Every Get, Update and SendRequest is its own step, any number of loops and
 auditors interleave, a loop's Get may return any earlier state of the object, an
 Update may be lost before or after the server applied it, any loop may crash
 between two steps, and the policy may be deleted.
 */
module TriggerProtocol {
  import opened Wrappers
  import opened Triggers

  /** The stored object: its resource version and its statuses. */
  datatype Stored = Stored(version: nat, statuses: seq<Status>)

  /** One call of Reconcile. left counts the attempts RetryOnConflict still has. */
  datatype Loop =
    | Claiming(left: nat)
    | ClaimReady(version: nat, statuses: seq<Status>, claimed: seq<Id>, left: nat)
    | Dispatching(queue: seq<Id>, failed: seq<Id>)
    | Reverting(failed: seq<Id>, left: nat)
    | RevertReady(version: nat, statuses: seq<Status>, failed: seq<Id>, left: nat)
    | Ended
    | Abandoned(queue: seq<Id>)  // gone with claims that were committed and never sent

  /** One policy's turn in one call of PolicyAuditor. */
  datatype Auditor =
    | Auditing(entry: Status)
    | AuditReady(version: nat, statuses: seq<Status>)
    | Audited

  datatype State = State(store: Option<Stored>, loops: seq<Loop>, auditors: seq<Auditor>, budget: nat)

  /** Whether an Update reaches the server and its answer reaches the client. */
  datatype Delivery = Answered | NeverArrived | AnswerLost

  datatype Reply = Ok | Conflict | Error

  /** The controller reads through a cache: seen is what it gives back, which may be out of date. */
  datatype LoopStep =
    | Get(seen: Option<Stored>)
    | GetFails
    | Put(delivery: Delivery)
    | Send(outcome: Outcome)
    | Crash

  datatype AuditStep =
    | Read(matched: bool)  // Get, then the policy's conditions are evaluated
    | Append(delivery: Delivery)
    | Fail

  datatype Action =
    | StartLoop
    | LoopDoes(loop: nat, step: LoopStep)
    | StartAuditor(timeStamp: string, resource: string, resourceName: string, experimentID: Id)
    | AuditorDoes(auditor: nat, auditStep: AuditStep)
    | DeletePolicy

  /** The server's side of Update: compare the version, then swap. */
  function CompareAndSwap(store: Option<Stored>, version: nat, statuses: seq<Status>): (Option<Stored>, Reply) {
    match store
    case None => (None, Error)
    case Some(stored) =>
      if stored.version == version then (Some(Stored(version + 1, statuses)), Ok) else (store, Conflict)
  }

  function Update(store: Option<Stored>, version: nat, statuses: seq<Status>, d: Delivery): (Option<Stored>, Reply) {
    match d
    case Answered => CompareAndSwap(store, version, statuses)
    case NeverArrived => (store, Error)
    case AnswerLost => (CompareAndSwap(store, version, statuses).0, Error)
  }

  function Settle(queue: seq<Id>, failed: seq<Id>, budget: nat): Loop {
    if queue != [] then Dispatching(queue, failed)
    else if failed != [] then Reverting(failed, budget)
    else Ended
  }

  function AfterGet(l: Loop, seen: Option<Stored>): Loop
    requires l.Claiming? || l.Reverting?
  {
    match seen
    case None => Ended
    case Some(stored) =>
      if l.Claiming? then
        var claimed := ClaimedIds(stored.statuses);
        if claimed == [] then Ended else ClaimReady(stored.version, ClaimAll(stored.statuses), claimed, l.left)
      else
        var released := ReleaseAll(stored.statuses, l.failed);
        if released == stored.statuses then Ended
        else RevertReady(stored.version, released, l.failed, l.left)
  }

  /** committed says whether the server applied the update, whatever the loop was told. */
  function AfterUpdate(l: Loop, reply: Reply, committed: bool): Loop
    requires l.ClaimReady? || l.RevertReady?
  {
    match reply
    case Ok => if l.ClaimReady? then Dispatching(l.claimed, []) else Ended
    case Conflict =>
      if l.left <= 1 then Ended
      else if l.ClaimReady? then Claiming(l.left - 1)
      else Reverting(l.failed, l.left - 1)
    case Error => if l.ClaimReady? && committed then Abandoned(l.claimed) else Ended
  }

  predicate LoopCan(l: Loop, step: LoopStep) {
    match step
    case Put(_) => l.ClaimReady? || l.RevertReady?
    case Send(_) => l.Dispatching? && l.queue != []
    case Crash => !l.Ended? && !l.Abandoned?
    case _ => l.Claiming? || l.Reverting?
  }

  /** One step of one loop: what becomes of the loop and of the stored object. */
  function LoopNext(l: Loop, store: Option<Stored>, step: LoopStep, budget: nat): (Loop, Option<Stored>)
    requires LoopCan(l, step)
  {
    match step
    case Get(seen) => (AfterGet(l, seen), store)
    case GetFails => (Ended, store)
    case Put(d) =>
      var (store', reply) := Update(store, l.version, l.statuses, d);
      (AfterUpdate(l, reply, store' != store), store')
    case Send(outcome) =>
      var failed := if outcome.Success? then l.failed else l.failed + [l.queue[0]];
      (Settle(l.queue[1..], failed, budget), store)
    case Crash => (if l.Dispatching? then Abandoned(l.queue) else Ended, store)
  }

  predicate AuditorCan(u: Auditor, step: AuditStep) {
    match step
    case Read(_) => u.Auditing?
    case Append(_) => u.AuditReady?
    case Fail => !u.Audited?
  }

  function AuditorNext(u: Auditor, store: Option<Stored>, step: AuditStep): (Auditor, Option<Stored>)
    requires AuditorCan(u, step)
  {
    match step
    case Read(matched) =>
      (if store.Some? && matched then AuditReady(store.value.version, store.value.statuses + [u.entry]) else Audited, store)
    case Append(d) => (Audited, Update(store, u.version, u.statuses, d).0)
    case Fail => (Audited, store)
  }

  predicate Enabled(s: State, a: Action) {
    match a
    case LoopDoes(l, step) => l < |s.loops| && LoopCan(s.loops[l], step)
    case AuditorDoes(i, step) => i < |s.auditors| && AuditorCan(s.auditors[i], step)
    case _ => true
  }

  function Next(s: State, a: Action): State
    requires Enabled(s, a)
  {
    match a
    case StartLoop => s.(loops := s.loops + [Claiming(s.budget)])
    case LoopDoes(l, step) =>
      var (loop, store) := LoopNext(s.loops[l], s.store, step, s.budget);
      s.(loops := s.loops[l := loop], store := store)
    case StartAuditor(time, resource, name, id) =>
      s.(auditors := s.auditors + [Auditing(Status(time, resource, name, CONDITION_PASSED, id, "false"))])
    case AuditorDoes(i, step) =>
      var (auditor, store) := AuditorNext(s.auditors[i], s.store, step);
      s.(auditors := s.auditors[i := auditor], store := store)
    case DeletePolicy => s.(store := None)
  }

  predicate Initial(s: State) {
    s.loops == [] && s.auditors == [] && s.budget >= 1
  }

  // ---- Runs and what is observed along them ----

  datatype Run = Start(s: State) | Then(prev: Run, a: Action)

  predicate Valid(r: Run)
    decreases r, 0
  {
    match r
    case Start(s) => Initial(s)
    case Then(prev, a) => Valid(prev) && Enabled(Final(prev), a) && (ReadOf(a).Some? ==> WasStored(prev, ReadOf(a).value))
  }

  /** The object a cached read gives back, if the action is one. */
  function ReadOf(a: Action): Option<Stored> {
    if a.LoopDoes? && a.step.Get? then a.step.seen else None
  }

  /** A cached read gives back the stored object of this or an earlier point of the run. */
  predicate WasStored(r: Run, seen: Stored)
    requires Valid(r)
    decreases r, 2
  {
    Final(r).store == Some(seen) || (r.Then? && WasStored(r.prev, seen))
  }

  function Final(r: Run): State
    requires Valid(r)
    decreases r, 1
  {
    match r
    case Start(s) => s
    case Then(prev, a) => Next(Final(prev), a)
  }

  predicate IsPrefix(p: Run, r: Run) {
    p == r || (r.Then? && IsPrefix(p, r.prev))
  }

  function Listed(store: Option<Stored>): seq<Status> {
    if store.Some? then store.value.statuses else []
  }

  function StatusesOf(r: Run): seq<Status>
    requires Valid(r)
  {
    Listed(Final(r).store)
  }

  /** Pending-to-triggered changes of the stored list for id x, over the whole run. */
  function Flips(r: Run, x: Id): nat
    requires Valid(r)
  {
    match r
    case Start(_) => 0
    case Then(prev, a) => Flips(prev, x) + FlipCount(StatusesOf(prev), StatusesOf(r), x)
  }

  /** The step is loop l's send of id x. */
  predicate Sends(l: Loop, step: LoopStep, x: Id) {
    LoopCan(l, step) && step.Send? && l.queue[0] == x
  }

  predicate SendStep(s: State, a: Action, x: Id)
    requires Enabled(s, a)
  {
    a.LoopDoes? && Sends(s.loops[a.loop], a.step, x)
  }

  /** Requests sent for id x. */
  function Sent(r: Run, x: Id): nat
    requires Valid(r)
  {
    match r
    case Start(_) => 0
    case Then(prev, a) => Sent(prev, x) + if SendStep(Final(prev), a, x) then 1 else 0
  }

  /** Requests sent for id x that the server accepted. */
  function Successes(r: Run, x: Id): nat
    requires Valid(r)
  {
    match r
    case Start(_) => 0
    case Then(prev, a) =>
      Successes(prev, x) + if SendStep(Final(prev), a, x) && a.step.outcome.Success? then 1 else 0
  }

  /** Loop l itself committed a claim for x. */
  predicate ClaimedBy(r: Run, l: nat, x: Id)
    requires Valid(r)
  {
    r.Then? &&
    (ClaimedBy(r.prev, l, x) ||
     (r.a.LoopDoes? && r.a.loop == l && FlipCount(StatusesOf(r.prev), StatusesOf(r), x) > 0))
  }

  /** Loop l committed a claim for x and later saw a dispatch of x fail or be disabled. */
  predicate SawFailure(r: Run, l: nat, x: Id)
    requires Valid(r)
  {
    r.Then? &&
    (SawFailure(r.prev, l, x) ||
     (ClaimedBy(r.prev, l, x) && SendStep(Final(r.prev), r.a, x) && r.a.loop == l && !r.a.step.outcome.Success?))
  }

  /** In every state of the run at most m open or settled statuses carry id x. */
  predicate Steady(r: Run, x: Id, m: nat)
    requires Valid(r)
  {
    Tally(StatusesOf(r), x, Either) <= m && (r.Then? ==> Steady(r.prev, x, m))
  }

  function Origin(r: Run): State {
    if r.Then? then Origin(r.prev) else r.s
  }

  // ---- Sums over the loops ----

  /** The dispatches a loop has seen fail and still means to release. */
  function Failed(l: Loop): seq<Id> {
    if l.Dispatching? || l.Reverting? || l.RevertReady? then l.failed else []
  }

  datatype Part = Queue | InHand

  /** The claims a loop still has to send, or all it has neither delivered nor released. */
  function Claims(l: Loop, part: Part): seq<Id> {
    var queue := if l.Dispatching? || l.Abandoned? then l.queue else [];
    if part.Queue? then queue else queue + Failed(l)
  }

  function Weight(l: Loop, part: Part, x: Id): nat {
    multiset(Claims(l, part))[x]
  }

  function Sum(ws: seq<nat>): nat {
    if ws == [] then 0 else Sum(ws[..|ws| - 1]) + ws[|ws| - 1]
  }

  lemma {:induction false} SumReplace(ws: seq<nat>, i: nat, w: nat)
    requires i < |ws|
    ensures Sum(ws[i := w]) + ws[i] == Sum(ws) + w
  {
    var n := |ws| - 1;
    if i == n {
      assert ws[i := w][..n] == ws[..n];
    } else {
      assert ws[i := w][..n] == ws[..n][i := w];
      SumReplace(ws[..n], i, w);
    }
  }

  function Weights(loops: seq<Loop>, part: Part, x: Id): seq<nat> {
    seq(|loops|, i requires 0 <= i < |loops| => Weight(loops[i], part, x))
  }

  function Total(loops: seq<Loop>, part: Part, x: Id): nat {
    Sum(Weights(loops, part, x))
  }

  lemma TotalReplace(loops: seq<Loop>, i: nat, l: Loop, part: Part, x: Id)
    requires i < |loops|
    ensures Total(loops[i := l], part, x) + Weight(loops[i], part, x) == Total(loops, part, x) + Weight(l, part, x)
  {
    assert Weights(loops[i := l], part, x) == Weights(loops, part, x)[i := Weight(l, part, x)];
    SumReplace(Weights(loops, part, x), i, Weight(l, part, x));
  }

  lemma TotalStart(loops: seq<Loop>, budget: nat, part: Part, x: Id)
    ensures Total(loops + [Claiming(budget)], part, x) == Total(loops, part, x)
  {
    var ws := Weights(loops + [Claiming(budget)], part, x);
    assert ws[..|loops|] == Weights(loops, part, x);
    assert Claims(Claiming(budget), part) == [];
  }

  // ---- A snapshot with the current version is the current list ----

  predicate FreshLoop(l: Loop, store: Option<Stored>) {
    (l.ClaimReady? || l.RevertReady?) && store.Some? ==>
      && l.version <= store.value.version
      && (l.version == store.value.version ==>
            if l.ClaimReady? then
              l.statuses == ClaimAll(store.value.statuses) && l.claimed == ClaimedIds(store.value.statuses)
            else
              l.statuses == ReleaseAll(store.value.statuses, l.failed))
  }

  /** after is before with one pending entry appended. */
  predicate Appended(before: seq<Status>, after: seq<Status>) {
    |after| == |before| + 1 && after[..|before|] == before && Pending(after[|before|])
  }

  predicate FreshAuditor(u: Auditor, store: Option<Stored>) {
    && (u.Auditing? ==> Pending(u.entry))
    && (u.AuditReady? && store.Some? ==>
          && u.version <= store.value.version
          && (u.version == store.value.version ==> Appended(store.value.statuses, u.statuses)))
  }

  predicate Fresh(s: State) {
    && (forall i :: 0 <= i < |s.loops| ==> FreshLoop(s.loops[i], s.store))
    && (forall i :: 0 <= i < |s.auditors| ==> FreshAuditor(s.auditors[i], s.store))
  }

  /** A store is replaced only by one with a higher version, or by nothing. */
  predicate Newer(store: Option<Stored>, store': Option<Stored>) {
    store' == store || store'.None? || (store.Some? && store'.value.version > store.value.version)
  }

  lemma StaleStaysFresh(s: State, store: Option<Stored>)
    requires Fresh(s) && Newer(s.store, store)
    ensures Fresh(s.(store := store))
  {
    forall i | 0 <= i < |s.loops| ensures FreshLoop(s.loops[i], store) {
      assert FreshLoop(s.loops[i], s.store);
    }
    forall i | 0 <= i < |s.auditors| ensures FreshAuditor(s.auditors[i], store) {
      assert FreshAuditor(s.auditors[i], s.store);
    }
  }

  /** Every step, whatever was read before it, replaces the store only by a newer one. */
  lemma StepNewer(s: State, a: Action)
    requires Enabled(s, a)
    ensures Newer(s.store, Next(s, a).store)
  {
  }

  /** What was stored at any point has a lower version than the stored object, or is it. */
  lemma {:induction false} StaleIsOlder(r: Run, seen: Stored)
    requires Valid(r) && WasStored(r, seen) && Final(r).store.Some?
    ensures seen == Final(r).store.value || seen.version < Final(r).store.value.version
  {
    if r.Then? {
      StepNewer(Final(r.prev), r.a);
      if WasStored(r.prev, seen) {
        StaleIsOlder(r.prev, seen);
      }
    }
  }

  /** What a loop made of an old object is no threat: it is bound to the old version. */
  lemma FreshGet(r: Run, l: Loop, seen: Option<Stored>)
    requires Valid(r) && (l.Claiming? || l.Reverting?) && (seen.Some? ==> WasStored(r, seen.value))
    ensures FreshLoop(AfterGet(l, seen), Final(r).store)
  {
    if seen.Some? && Final(r).store.Some? {
      StaleIsOlder(r, seen.value);
    }
  }

  lemma {:induction false} FreshRun(r: Run)
    requires Valid(r)
    ensures Fresh(Final(r))
  {
    if r.Then? {
      var s, a, s' := Final(r.prev), r.a, Final(r);
      FreshRun(r.prev);
      StepNewer(s, a);
      StaleStaysFresh(s, s'.store);
      if a.StartAuditor? {
        assert ToLower("false") == "false";
      } else if a.LoopDoes? && a.step.Get? {
        FreshGet(r.prev, s.loops[a.loop], a.step.seen);
      }
    }
  }

  // ---- What one step can do to the stored list ----

  datatype Change = Same | Claimed | Released | Grown | Removed

  function ChangeOf(s: State, a: Action): Change
    requires Enabled(s, a)
  {
    if Next(s, a).store == s.store then Same
    else if a.LoopDoes? then (if s.loops[a.loop].ClaimReady? then Claimed else Released)
    else if a.AuditorDoes? then Grown
    else Removed
  }

  /** A loop changes the store only by a claim of, or a release on, the current list. */
  lemma LoopChange(l: Loop, store: Option<Stored>, step: LoopStep, budget: nat)
    requires LoopCan(l, step) && FreshLoop(l, store)
    ensures var store' := LoopNext(l, store, step, budget).1;
      store' != store ==>
        && step.Put? && step.delivery != NeverArrived && store.Some? && store'.Some?
        && (if l.ClaimReady? then Listed(store') == ClaimAll(Listed(store)) && l.claimed == ClaimedIds(Listed(store))
            else l.RevertReady? && Listed(store') == ReleaseAll(Listed(store), l.failed))
  {
  }

  lemma StepChange(s: State, a: Action)
    requires Fresh(s) && Enabled(s, a)
    ensures var before, after := Listed(s.store), Listed(Next(s, a).store);
      match ChangeOf(s, a)
      case Same => after == before
      case Claimed => s.loops[a.loop].ClaimReady? && after == ClaimAll(before) && s.loops[a.loop].claimed == ClaimedIds(before)
      case Released => s.loops[a.loop].RevertReady? && after == ReleaseAll(before, s.loops[a.loop].failed)
      case Grown => Appended(before, after)
      case Removed => after == []
    ensures Next(s, a).store.None? <==> s.store.None? || ChangeOf(s, a).Removed?
  {
    if a.LoopDoes? {
      assert FreshLoop(s.loops[a.loop], s.store);
      LoopChange(s.loops[a.loop], s.store, a.step, s.budget);
    } else if a.AuditorDoes? {
      assert FreshAuditor(s.auditors[a.auditor], s.store);
    }
  }

  // ---- No update is lost ----

  lemma StepExtends(s: State, a: Action)
    requires Fresh(s) && Enabled(s, a) && Next(s, a).store.Some?
    ensures Extends(Listed(s.store), Listed(Next(s, a).store))
  {
    StepChange(s, a);
    var before, after := Listed(s.store), Listed(Next(s, a).store);
    if ChangeOf(s, a).Grown? {
      forall i | 0 <= i < |before| ensures after[i] == before[i] {
        assert after[..|before|][i] == before[i];
      }
    }
  }

  /**
   Between any two points of any run at which the policy exists, the list has
   only grown: old entries keep their position and every field but isTriggered.
   */
  lemma {:induction false} NoUpdateLost(p: Run, r: Run)
    requires Valid(r) && IsPrefix(p, r)
    ensures Valid(p)
    ensures Final(r).store.Some? ==> Final(p).store.Some? && Extends(StatusesOf(p), StatusesOf(r))
  {
    if p != r {
      NoUpdateLost(p, r.prev);
      FreshRun(r.prev);
      StepChange(Final(r.prev), r.a);
      if Final(r).store.Some? {
        StepExtends(Final(r.prev), r.a);
      }
    }
  }

  // ---- Claim accounting ----

  lemma StepFlips(s: State, a: Action, x: Id)
    requires Fresh(s) && Enabled(s, a)
    ensures FlipCount(Listed(s.store), Listed(Next(s, a).store), x)
         == if ChangeOf(s, a).Claimed? then multiset(ClaimedIds(Listed(s.store)))[x] else 0
  {
    StepChange(s, a);
    var before, after := Listed(s.store), Listed(Next(s, a).store);
    if ChangeOf(s, a).Claimed? {
      ClaimFlipsWhatItReports(before, after, x);
    } else {
      forall i | 0 <= i < |before| && i < |after| ensures !(Pending(before[i]) && Triggered(after[i])) {
        Exclusive(before[i]);
        if ChangeOf(s, a).Grown? {
          assert after[..|before|][i] == after[i];
        } else if ChangeOf(s, a).Released? {
          Exclusive(after[i]);
        }
      }
      NoFlips(before, after, x);
    }
  }

  lemma SendTransfers(l: Loop, step: LoopStep, budget: nat, x: Id)
    requires LoopCan(l, step) && step.Send?
    ensures var l' := LoopNext(l, None, step, budget).0;
      && Weight(l', Queue, x) + (if Sends(l, step, x) then 1 else 0) == Weight(l, Queue, x)
      && Weight(l', InHand, x) + (if Sends(l, step, x) && step.outcome.Success? then 1 else 0) == Weight(l, InHand, x)
  {
    assert l.queue == [l.queue[0]] + l.queue[1..];
    assert Claims(l, Queue) == l.queue && Claims(l, InHand) == l.queue + l.failed;
    var l' := LoopNext(l, None, step, budget).0;
    assert Claims(l', Queue) == l.queue[1..];
    assert Claims(l', InHand) == l.queue[1..] + if step.outcome.Success? then l.failed else l.failed + [l.queue[0]];
  }

  lemma ClaimPutTransfers(l: Loop, store: Option<Stored>, step: LoopStep, budget: nat, x: Id)
    requires step.Put? && l.ClaimReady? && FreshLoop(l, store)
    ensures var (l', store') := LoopNext(l, store, step, budget);
      var claimed := if store' != store then multiset(ClaimedIds(Listed(store)))[x] else 0;
      && Weight(l, Queue, x) == Weight(l, InHand, x) == 0
      && Weight(l', Queue, x) == Weight(l', InHand, x) == claimed
  {
    LoopChange(l, store, step, budget);
    var (l', store') := LoopNext(l, store, step, budget);
    assert Claims(l, InHand) == [];
    assert Claims(l', Queue) == Claims(l', InHand) == if store' != store then l.claimed else [];
  }

  lemma RevertPutTransfers(l: Loop, store: Option<Stored>, step: LoopStep, budget: nat, x: Id)
    requires step.Put? && l.RevertReady?
    ensures var (l', store') := LoopNext(l, store, step, budget);
      && Weight(l, Queue, x) == Weight(l', Queue, x) == 0
      && Weight(l, InHand, x) == multiset(l.failed)[x]
      && Weight(l', InHand, x) <= if store' != store then 0 else multiset(l.failed)[x]
  {
    var (l', store') := LoopNext(l, store, step, budget);
    assert Claims(l, InHand) == l.failed;
    assert Claims(l', InHand) == [] || (store' == store && Claims(l', InHand) == l.failed);
  }

  lemma QuietTransfers(l: Loop, store: Option<Stored>, step: LoopStep, budget: nat, x: Id)
    requires LoopCan(l, step) && !step.Put? && !step.Send?
    ensures var l' := LoopNext(l, store, step, budget).0;
      Weight(l', Queue, x) == Weight(l, Queue, x) && Weight(l', InHand, x) <= Weight(l, InHand, x)
  {
    var l' := LoopNext(l, store, step, budget).0;
    assert Claims(l', Queue) == Claims(l, Queue);
    assert Failed(l') == Failed(l) || Failed(l') == [];
  }

  /** How many claims of x the loop's change from store to store' takes on, and how many it gives back. */
  function TakenOn(l: Loop, store: Option<Stored>, store': Option<Stored>, x: Id): nat {
    if store' != store && l.ClaimReady? then multiset(ClaimedIds(Listed(store)))[x] else 0
  }

  function GivenBack(l: Loop, store: Option<Stored>, store': Option<Stored>, x: Id): nat {
    if store' != store && !l.ClaimReady? then multiset(Failed(l))[x] else 0
  }

  lemma LoopTransfers(l: Loop, store: Option<Stored>, step: LoopStep, budget: nat, x: Id)
    requires LoopCan(l, step) && FreshLoop(l, store)
    ensures var (l', store') := LoopNext(l, store, step, budget);
      && Weight(l', Queue, x) + (if Sends(l, step, x) then 1 else 0) == Weight(l, Queue, x) + TakenOn(l, store, store', x)
      && Weight(l', InHand, x) + (if Sends(l, step, x) && step.outcome.Success? then 1 else 0)
           <= Weight(l, InHand, x) + TakenOn(l, store, store', x) - GivenBack(l, store, store', x)
  {
    var (l', store') := LoopNext(l, store, step, budget);
    if step.Send? {
      SendTransfers(l, step, budget, x);
      assert store' == store && l' == LoopNext(l, None, step, budget).0;
    } else if step.Put? && l.ClaimReady? {
      ClaimPutTransfers(l, store, step, budget, x);
    } else if step.Put? {
      RevertPutTransfers(l, store, step, budget, x);
      assert Failed(l) == l.failed;
    } else {
      QuietTransfers(l, store, step, budget, x);
      assert store' == store;
    }
  }

  /** The same for a step of the system: only loops take on or give back claims. */
  function Taken(s: State, a: Action, x: Id): nat
    requires Enabled(s, a)
  {
    if a.LoopDoes? then TakenOn(s.loops[a.loop], s.store, Next(s, a).store, x) else 0
  }

  function Given(s: State, a: Action, x: Id): nat
    requires Enabled(s, a)
  {
    if a.LoopDoes? then GivenBack(s.loops[a.loop], s.store, Next(s, a).store, x) else 0
  }

  lemma StepTransfers(s: State, a: Action, x: Id)
    requires Fresh(s) && Enabled(s, a)
    ensures Total(Next(s, a).loops, Queue, x) + (if SendStep(s, a, x) then 1 else 0)
         == Total(s.loops, Queue, x) + Taken(s, a, x)
    ensures Total(Next(s, a).loops, InHand, x) + (if SendStep(s, a, x) && a.step.outcome.Success? then 1 else 0)
         <= Total(s.loops, InHand, x) + Taken(s, a, x) - Given(s, a, x)
  {
    if a.LoopDoes? {
      var l := s.loops[a.loop];
      assert FreshLoop(l, s.store);
      LoopTransfers(l, s.store, a.step, s.budget, x);
      var l' := LoopNext(l, s.store, a.step, s.budget).0;
      TotalReplace(s.loops, a.loop, l', Queue, x);
      TotalReplace(s.loops, a.loop, l', InHand, x);
    } else if a.StartLoop? {
      TotalStart(s.loops, s.budget, Queue, x);
      TotalStart(s.loops, s.budget, InHand, x);
    }
  }

  /**
   Claim accounting, for every run and every id, duplicates included: the flips
   observed on the stored list equal the requests sent plus the claims that are
   still queued in a running, crashed or cut-off loop. So a loop that loses the
   compare-and-swap never causes a send.
   */
  lemma {:induction false} ClaimAccounting(r: Run, x: Id)
    requires Valid(r)
    ensures Flips(r, x) == Sent(r, x) + Total(Final(r).loops, Queue, x)
  {
    if r.Then? {
      ClaimAccounting(r.prev, x);
      FreshRun(r.prev);
      StepFlips(Final(r.prev), r.a, x);
      StepTransfers(Final(r.prev), r.a, x);
    }
  }

  // ---- Only a loop's own failed dispatch reopens a status ----

  /** Everything a running loop holds, the run shows it claimed; what it failed, it saw fail. */
  predicate Explained(r: Run)
    requires Valid(r)
  {
    var loops := Final(r).loops;
    && (forall l: nat, x :: l < |loops| && loops[l].Dispatching? && x in loops[l].queue ==> ClaimedBy(r, l, x))
    && (forall l: nat, x :: l < |loops| && x in Failed(loops[l]) ==> SawFailure(r, l, x))
  }

  lemma QueueExplained(r: Run, l: nat, x: Id)
    requires Valid(r) && r.Then? && Explained(r.prev) && l < |Final(r).loops|
    requires Final(r).loops[l].Dispatching? && x in Final(r).loops[l].queue
    ensures ClaimedBy(r, l, x)
  {
    var s, a := Final(r.prev), r.a;
    if a.LoopDoes? && a.loop == l && a.step.Put? {
      FreshRun(r.prev);
      StepChange(s, a);
      StepFlips(s, a, x);
      assert x in multiset(ClaimedIds(Listed(s.store)));
    } else {
      assert l < |s.loops| && x in s.loops[l].queue;
    }
  }

  lemma FailureExplained(r: Run, l: nat, x: Id)
    requires Valid(r) && r.Then? && Explained(r.prev) && l < |Final(r).loops|
    requires x in Failed(Final(r).loops[l])
    ensures SawFailure(r, l, x)
  {
    var s, a := Final(r.prev), r.a;
    if a.LoopDoes? && a.loop == l && a.step.Send? && x !in Failed(s.loops[l]) {
      assert x == s.loops[l].queue[0] && x in s.loops[l].queue;
    } else {
      assert l < |s.loops| && x in Failed(s.loops[l]);
    }
  }

  lemma {:induction false} RunExplained(r: Run)
    requires Valid(r)
    ensures Explained(r)
  {
    if r.Then? {
      RunExplained(r.prev);
      var loops := Final(r).loops;
      forall l: nat, x | l < |loops| && loops[l].Dispatching? && x in loops[l].queue ensures ClaimedBy(r, l, x) {
        QueueExplained(r, l, x);
      }
      forall l: nat, x | l < |loops| && x in Failed(loops[l]) ensures SawFailure(r, l, x) {
        FailureExplained(r, l, x);
      }
    }
  }

  /**
   If a step takes a stored status from triggered back to pending, it is the
   step of a loop that committed a claim for that id earlier in the run and then
   saw a dispatch of that id fail or be disabled.
   */
  lemma ReopenedOnlyByOwnFailure(r: Run, i: nat)
    requires Valid(r) && r.Then?
    requires i < |StatusesOf(r.prev)| && i < |StatusesOf(r)|
    requires Triggered(StatusesOf(r.prev)[i]) && Pending(StatusesOf(r)[i])
    ensures r.a.LoopDoes? && SawFailure(r.prev, r.a.loop, StatusesOf(r.prev)[i].experimentID)
  {
    var s := Final(r.prev);
    var before, after := StatusesOf(r.prev), StatusesOf(r);
    FreshRun(r.prev);
    RunExplained(r.prev);
    StepChange(s, r.a);
    Exclusive(before[i]);
    assert before[i] != after[i];
    assert after[..|before|] != before;
    Exclusive(after[i]);
  }

  // ---- Each status is dispatched successfully at most once ----

  lemma GrownTally(before: seq<Status>, after: seq<Status>, x: Id)
    requires Appended(before, after)
    ensures Tally(after, x, Either) >= Tally(before, x, Either) && Tally(after, x, Settled) >= Tally(before, x, Settled)
    ensures Tally(after, x, Either) == Tally(before, x, Either) ==> Tally(after, x, Open) == Tally(before, x, Open)
  {
  }

  lemma ReleasedTally(before: seq<Status>, failed: seq<Id>, x: Id)
    requires multiset(failed)[x] == 0
    ensures var after := ReleaseAll(before, failed);
      && Tally(after, x, Either) == Tally(before, x, Either)
      && Tally(after, x, Open) == Tally(before, x, Open)
      && Tally(after, x, Settled) == Tally(before, x, Settled)
  {
    assert x in failed ==> x in multiset(failed);
    ReleaseTally(before, failed, x);
  }

  /** What a step does to the statuses of x, if it does not give x back. */
  lemma StepTally(s: State, a: Action, x: Id)
    requires Fresh(s) && Enabled(s, a) && Next(s, a).store.Some? && Given(s, a, x) == 0
    ensures var before, after := Listed(s.store), Listed(Next(s, a).store);
      && Tally(after, x, Either) >= Tally(before, x, Either)
      && (if ChangeOf(s, a).Claimed? then Tally(after, x, Settled) == Tally(before, x, Either)
          else Tally(after, x, Settled) >= Tally(before, x, Settled))
      && (Tally(after, x, Either) == Tally(before, x, Either) ==> Tally(after, x, Open) <= Tally(before, x, Open))
  {
    var before, after := Listed(s.store), Listed(Next(s, a).store);
    StepChange(s, a);
    if ChangeOf(s, a).Claimed? {
      ClaimTally(before, x);
    } else if ChangeOf(s, a).Released? {
      ReleasedTally(before, Failed(s.loops[a.loop]), x);
    } else if ChangeOf(s, a).Grown? {
      GrownTally(before, after, x);
    }
  }

  lemma StepTaken(s: State, a: Action, x: Id)
    requires Fresh(s) && Enabled(s, a)
    ensures Taken(s, a, x) == if ChangeOf(s, a).Claimed? then Tally(Listed(s.store), x, Open) else 0
    ensures Next(s, a).store.Some? ==> s.store.Some?
  {
    StepChange(s, a);
    ReportedIsOpen(Listed(s.store), x);
  }

  /** Claims of x that are in hand or were delivered. */
  function Owned(r: Run, x: Id): nat
    requires Valid(r)
  {
    Total(Final(r).loops, InHand, x) + Successes(r, x)
  }

  /** While x is owned, its one status is settled. */
  lemma {:induction false} OwnedOnce(r: Run, x: Id)
    requires Valid(r) && Steady(r, x, 1)
    ensures Owned(r, x) <= 1
    ensures Final(r).store.Some? && Owned(r, x) == 1 ==> Tally(StatusesOf(r), x, Settled) == 1
  {
    if r.Then? {
      var s, a := Final(r.prev), r.a;
      OwnedOnce(r.prev, x);
      FreshRun(r.prev);
      StepTransfers(s, a, x);
      StepTaken(s, a, x);
      ReportedIsOpen(Listed(s.store), x);
      ReportedIsOpen(StatusesOf(r), x);
      if Final(r).store.Some? && Given(s, a, x) == 0 {
        StepTally(s, a, x);
      }
    } else {
      assert Total([], InHand, x) == 0;
    }
  }

  /**
   In every interleaving, an id that at most one passed status carries at any
   time is dispatched successfully at most once over the whole run.
   */
  lemma DispatchedAtMostOnce(r: Run, x: Id)
    requires Valid(r) && Steady(r, x, 1)
    ensures Successes(r, x) <= 1
  {
    OwnedOnce(r, x);
  }

  /** An id that is not open to begin with, and gets no new status, is never dispatched. */
  lemma {:induction false} NeverOpened(r: Run, x: Id)
    requires Valid(r) && Steady(r, x, Tally(Listed(Origin(r).store), x, Either))
    requires Tally(Listed(Origin(r).store), x, Open) == 0
    ensures Owned(r, x) == 0
    ensures Final(r).store.Some? ==>
      Tally(StatusesOf(r), x, Either) == Tally(Listed(Origin(r).store), x, Either) && Tally(StatusesOf(r), x, Open) == 0
  {
    if r.Then? {
      var s, a := Final(r.prev), r.a;
      NeverOpened(r.prev, x);
      FreshRun(r.prev);
      StepTransfers(s, a, x);
      StepTaken(s, a, x);
      if Final(r).store.Some? {
        StepTally(s, a, x);
      }
    } else {
      assert Total([], InHand, x) == 0;
    }
  }

  // ---- The dispatch loop as a sequence of steps ----

  /** The loop that claimed ids, after one Send step per outcome. */
  function AfterSends(ids: seq<Id>, outcomes: seq<Outcome>, budget: nat): Loop {
    if outcomes == [] then Settle(ids, [], budget)
    else
      var n := |outcomes| - 1;
      var l := AfterSends(ids, outcomes[..n], budget);
      if LoopCan(l, Send(outcomes[n])) then LoopNext(l, None, Send(outcomes[n]), budget).0 else l
  }

  /** Sending step by step collects exactly what the dispatch loop of Triggers.Dispatch returns. */
  lemma {:induction false} SendsAreDispatch(ids: seq<Id>, outcomes: seq<Outcome>, budget: nat)
    requires |outcomes| <= |ids|
    ensures AfterSends(ids, outcomes, budget)
         == Settle(ids[|outcomes|..], Undelivered(ids[..|outcomes|], outcomes), budget)
  {
    if outcomes != [] {
      var n := |outcomes| - 1;
      SendsAreDispatch(ids, outcomes[..n], budget);
      assert ids[..|outcomes|][..n] == ids[..n];
      assert ids[n..][1..] == ids[|outcomes|..];
    }
  }

  // ---- Exactly which policies can be dispatched too often ----

  /** Successful sends of x among these dispatches. */
  function Delivered(ids: seq<Id>, outcomes: seq<Outcome>, x: Id): nat
    requires |ids| == |outcomes|
  {
    if ids == [] then 0
    else
      var n := |ids| - 1;
      Delivered(ids[..n], outcomes[..n], x) + if ids[n] == x && outcomes[n].Success? then 1 else 0
  }

  /** Only the dispatch at position i goes through; none does if i is past the end. */
  function OnlyAt(n: nat, i: nat): seq<Outcome> {
    seq(n, j => if j == i then Success else Failure)
  }

  lemma {:induction false} DeliveredOnlyAt(ids: seq<Id>, i: nat, x: Id)
    ensures Delivered(ids, OnlyAt(|ids|, i), x) == if i < |ids| && ids[i] == x then 1 else 0
  {
    if ids != [] {
      var n := |ids| - 1;
      DeliveredOnlyAt(ids[..n], i, x);
      assert OnlyAt(|ids|, i)[..n] == OnlyAt(n, i);
    }
  }

  lemma {:induction false} FailureIsUndelivered(ids: seq<Id>, outcomes: seq<Outcome>, j: nat)
    requires |ids| == |outcomes| && j < |ids| && !outcomes[j].Success?
    ensures ids[j] in Undelivered(ids, outcomes)
  {
    var n := |ids| - 1;
    if j < n {
      FailureIsUndelivered(ids[..n], outcomes[..n], j);
    }
  }

  lemma {:induction false} PlaceOf(ids: seq<Id>, x: Id) returns (i: nat)
    requires multiset(ids)[x] >= 1
    ensures i < |ids| && ids[i] == x && multiset(ids[..i])[x] == multiset(ids)[x] - 1
  {
    var n := |ids| - 1;
    assert ids == ids[..n] + [ids[n]];
    if ids[n] == x {
      i := n;
    } else {
      i := PlaceOf(ids[..n], x);
      assert ids[..n][..i] == ids[..i];
    }
  }

  /** From s0, with never more than m statuses of x in play, run r reaches s after n deliveries of x. */
  predicate Reaches(r: Run, s0: State, x: Id, m: nat, s: State, n: nat) {
    Valid(r) && Origin(r) == s0 && Steady(r, x, m) && Final(r) == s && Successes(r, x) == n
  }

  lemma Advance(r: Run, s0: State, x: Id, m: nat, s: State, n: nat, a: Action, s': State) returns (r': Run)
    requires Reaches(r, s0, x, m, s, n) && Enabled(s, a) && Next(s, a) == s' && Tally(Listed(s'.store), x, Either) <= m
    requires a.LoopDoes? && a.step.Get? ==> a.step.seen == s.store
    ensures Reaches(r', s0, x, m, s', n + if SendStep(s, a, x) && a.step.outcome.Success? then 1 else 0)
  {
    r' := Then(r, a);
  }

  /** The stored policy at version v, and one loop behind others that no longer matter. */
  function Stage(v: nat, ss: seq<Status>, past: seq<Loop>, l: Loop, budget: nat): State {
    State(Some(Stored(v, ss)), past + [l], [], budget)
  }

  lemma Replace(past: seq<Loop>, l: Loop, l': Loop)
    ensures (past + [l])[|past|] == l && (past + [l])[|past| := l'] == past + [l']
  {
  }

  /** One step of the last loop. */
  lemma LoopAdvance(r: Run, s0: State, x: Id, m: nat, v: nat, ss: seq<Status>, past: seq<Loop>, l: Loop, budget: nat, n: nat,
                    step: LoopStep, l': Loop, v': nat, ss': seq<Status>) returns (r': Run)
    requires Reaches(r, s0, x, m, Stage(v, ss, past, l, budget), n) && LoopCan(l, step)
    requires LoopNext(l, Some(Stored(v, ss)), step, budget) == (l', Some(Stored(v', ss'))) && Tally(ss', x, Either) <= m
    requires step.Get? ==> step.seen == Some(Stored(v, ss))
    ensures Reaches(r', s0, x, m, Stage(v', ss', past, l', budget), n + if Sends(l, step, x) && step.outcome.Success? then 1 else 0)
  {
    Replace(past, l, l');
    r' := Advance(r, s0, x, m, Stage(v, ss, past, l, budget), n, LoopDoes(|past|, step), Stage(v', ss', past, l', budget));
  }

  /** A new loop reads the policy and commits its claim. */
  lemma ClaimPhase(r: Run, s0: State, x: Id, m: nat, v: nat, ss: seq<Status>, past: seq<Loop>, budget: nat, n: nat) returns (r': Run)
    requires Reaches(r, s0, x, m, State(Some(Stored(v, ss)), past, [], budget), n)
    requires ClaimedIds(ss) != [] && Tally(ss, x, Either) <= m
    ensures Reaches(r', s0, x, m, Stage(v + 1, ClaimAll(ss), past, Dispatching(ClaimedIds(ss), []), budget), n)
  {
    ClaimTally(ss, x);
    var ready := ClaimReady(v, ClaimAll(ss), ClaimedIds(ss), budget);
    r' := Advance(r, s0, x, m, State(Some(Stored(v, ss)), past, [], budget), n, StartLoop, Stage(v, ss, past, Claiming(budget), budget));
    r' := LoopAdvance(r', s0, x, m, v, ss, past, Claiming(budget), budget, n, Get(Some(Stored(v, ss))), ready, v, ss);
    r' := LoopAdvance(r', s0, x, m, v, ss, past, ready, budget, n, Put(Answered), Dispatching(ClaimedIds(ss), []), v + 1, ClaimAll(ss));
  }

  lemma {:induction false} SendPhase(r: Run, s0: State, x: Id, m: nat, v: nat, ss: seq<Status>, past: seq<Loop>, budget: nat, n: nat,
                    ids: seq<Id>, outcomes: seq<Outcome>) returns (r': Run)
    requires Reaches(r, s0, x, m, Stage(v, ss, past, Dispatching(ids, []), budget), n)
    requires ids != [] && |outcomes| <= |ids| && Tally(ss, x, Either) <= m
    ensures Reaches(r', s0, x, m, Stage(v, ss, past, AfterSends(ids, outcomes, budget), budget),
                    n + Delivered(ids[..|outcomes|], outcomes, x))
    decreases |outcomes|
  {
    if outcomes == [] {
      r' := r;
    } else {
      var k := |outcomes| - 1;
      r' := SendPhase(r, s0, x, m, v, ss, past, budget, n, ids, outcomes[..k]);
      SendsAreDispatch(ids, outcomes[..k], budget);
      var l := AfterSends(ids, outcomes[..k], budget);
      assert l.queue[0] == ids[k];
      assert ids[..|outcomes|][..k] == ids[..k];
      r' := LoopAdvance(r', s0, x, m, v, ss, past, l, budget, n + Delivered(ids[..k], outcomes[..k], x),
                        Send(outcomes[k]), AfterSends(ids, outcomes, budget), v, ss);
    }
  }

  /** The loop reads the policy again and commits its release. */
  lemma RevertPhase(r: Run, s0: State, x: Id, m: nat, v: nat, ss: seq<Status>, past: seq<Loop>, budget: nat, n: nat, failed: seq<Id>)
    returns (r': Run)
    requires Reaches(r, s0, x, m, Stage(v, ss, past, Reverting(failed, budget), budget), n)
    requires x in failed && 1 <= Tally(ss, x, Settled) && Tally(ss, x, Either) <= m
    ensures Reaches(r', s0, x, m, Stage(v + 1, ReleaseAll(ss, failed), past, Ended, budget), n)
  {
    ReleaseTally(ss, failed, x);
    var released := ReleaseAll(ss, failed);
    assert released != ss;
    var ready := RevertReady(v, released, failed, budget);
    r' := LoopAdvance(r, s0, x, m, v, ss, past, Reverting(failed, budget), budget, n, Get(Some(Stored(v, ss))), ready, v, ss);
    r' := LoopAdvance(r', s0, x, m, v, ss, past, ready, budget, n, Put(Answered), Ended, v + 1, released);
  }

  /**
   One Reconcile call that claims x, delivers at most the dispatch at position i,
   sees a dispatch of x fail, and so leaves every status of x open again.
   */
  lemma Round(r: Run, s0: State, x: Id, m: nat, v: nat, ss: seq<Status>, past: seq<Loop>, budget: nat, n: nat, i: nat, j: nat)
    returns (r': Run, ss': seq<Status>)
    requires Reaches(r, s0, x, m, State(Some(Stored(v, ss)), past, [], budget), n) && Tally(ss, x, Either) == m
    requires j < |ClaimedIds(ss)| && ClaimedIds(ss)[j] == x && i != j
    ensures Reaches(r', s0, x, m, State(Some(Stored(v + 2, ss')), past + [Ended], [], budget),
                    n + if i < |ClaimedIds(ss)| && ClaimedIds(ss)[i] == x then 1 else 0)
    ensures Tally(ss', x, Either) == Tally(ss', x, Open) == m
  {
    var ids, outcomes := ClaimedIds(ss), OnlyAt(|ClaimedIds(ss)|, i);
    var failed := Undelivered(ids, outcomes);
    var claimed := ClaimAll(ss);
    r' := ClaimPhase(r, s0, x, m, v, ss, past, budget, n);
    ClaimTally(ss, x);
    r' := SendPhase(r', s0, x, m, v + 1, claimed, past, budget, n, ids, outcomes);
    SendsAreDispatch(ids, outcomes, budget);
    assert ids[..|ids|] == ids && ids[|ids|..] == [];
    FailureIsUndelivered(ids, outcomes, j);
    DeliveredOnlyAt(ids, i, x);
    assert x in multiset(ids);
    ReportedIsOpen(ss, x);
    var sent := n + Delivered(ids, outcomes, x);
    r' := RevertPhase(r', s0, x, m, v + 1, claimed, past, budget, sent, failed);
    ss' := ReleaseAll(claimed, failed);
    ReleaseTally(claimed, failed, x);
  }

  /** With two statuses of x open, x can be delivered any number of times. */
  lemma {:induction false} Rounds(r: Run, s0: State, x: Id, m: nat, v: nat, ss: seq<Status>, past: seq<Loop>, budget: nat, n: nat, k: nat)
    returns (r': Run)
    requires Reaches(r, s0, x, m, State(Some(Stored(v, ss)), past, [], budget), n)
    requires Tally(ss, x, Either) == Tally(ss, x, Open) == m >= 2
    ensures Valid(r') && Origin(r') == s0 && Steady(r', x, m) && Successes(r', x) == n + k
    decreases k
  {
    if k == 0 {
      r' := r;
    } else {
      ReportedIsOpen(ss, x);
      var i := PlaceOf(ClaimedIds(ss), x);
      var j := PlaceOf(ClaimedIds(ss)[..i], x);
      var ss';
      r', ss' := Round(r, s0, x, m, v, ss, past, budget, n, i, j);
      r' := Rounds(r', s0, x, m, v + 2, ss', past + [Ended], budget, n + 1, k - 1);
    }
  }

  /** One status of x is open, and another passed one carries x too. */
  predicate Repeatable(ss: seq<Status>, x: Id) {
    Tally(ss, x, Open) >= 1 && Tally(ss, x, Either) >= 2
  }

  lemma StartReaches(s: State, x: Id)
    requires Initial(s) && s.store.Some?
    ensures Reaches(Start(s), s, x, Tally(Listed(s.store), x, Either),
                    State(Some(Stored(s.store.value.version, Listed(s.store))), [], [], s.budget), 0)
  {
  }

  /** A first call whose dispatches all fail leaves every status of x open. */
  lemma FirstRound(s: State, x: Id) returns (r: Run, ss: seq<Status>)
    requires Initial(s) && s.store.Some? && Repeatable(Listed(s.store), x)
    ensures var m := Tally(Listed(s.store), x, Either);
      && Reaches(r, s, x, m, State(Some(Stored(s.store.value.version + 2, ss)), [Ended], [], s.budget), 0)
      && Tally(ss, x, Either) == Tally(ss, x, Open) == m
  {
    var claimed := ClaimedIds(Listed(s.store));
    ReportedIsOpen(Listed(s.store), x);
    var j := PlaceOf(claimed, x);
    StartReaches(s, x);
    r, ss := Round(Start(s), s, x, Tally(Listed(s.store), x, Either), s.store.value.version, Listed(s.store), [], s.budget, 0, |claimed|, j);
    assert [] + [Ended] == [Ended];
  }

  /** Releases go by experiment id, so one failed dispatch reopens the twin that succeeded, again and again. */
  lemma ResentForever(s: State, x: Id, k: nat) returns (r: Run)
    requires Initial(s) && s.store.Some? && Repeatable(Listed(s.store), x)
    ensures Valid(r) && Origin(r) == s && Steady(r, x, Tally(Listed(s.store), x, Either)) && Successes(r, x) == k
  {
    var ss;
    r, ss := FirstRound(s, x);
    r := Rounds(r, s, x, Tally(Listed(s.store), x, Either), s.store.value.version + 2, ss, [Ended], s.budget, 0, k);
  }

  /** Every run from s without new statuses for x delivers x at most once per status of x. */
  ghost predicate SuccessIsFinal(s: State, x: Id) {
    var m := Tally(Listed(s.store), x, Either);
    forall r :: Valid(r) && Origin(r) == s && Steady(r, x, m) ==> Successes(r, x) <= m
  }

  /** Success is final for an id exactly when the stored policy is not Repeatable in it. */
  lemma SuccessIsFinalIff(s: State, x: Id)
    requires Initial(s) && s.store.Some?
    ensures SuccessIsFinal(s, x) <==> !Repeatable(Listed(s.store), x)
  {
    var ss, m := Listed(s.store), Tally(Listed(s.store), x, Either);
    if Repeatable(ss, x) {
      var r := ResentForever(s, x, m + 1);
    } else {
      ReportedIsOpen(ss, x);
      forall r | Valid(r) && Origin(r) == s && Steady(r, x, m) ensures Successes(r, x) <= m {
        if Tally(ss, x, Open) == 0 {
          NeverOpened(r, x);
        } else {
          DispatchedAtMostOnce(r, x);
        }
      }
    }
  }
}
