/**
 What a Reconcile call achieves when nothing goes wrong around it: what was open is
 claimed, and what failed is released, as long as its conflicts stay below the budget.
 */
module TriggerProgress {
  import opened Wrappers
  import opened Triggers
  import opened TriggerProtocol

  // ---- Read off the actions of a run ----

  /** The step is undisturbed: its read is current and finds the policy, its update is answered. */
  predicate Undisturbed(s: State, step: LoopStep) {
    match step
    case Get(seen) => seen.Some? && seen == s.store
    case Put(d) => d.Answered? && s.store.Some?
    case Send(_) => true
    case _ => false
  }

  /** Every step of loop l so far was undisturbed. */
  predicate Smooth(r: Run, l: nat)
    requires Valid(r)
  {
    r.Then? ==> Smooth(r.prev, l) && (r.a.LoopDoes? && r.a.loop == l ==> Undisturbed(Final(r.prev), r.a.step))
  }

  predicate IsPutOf(a: Action, l: nat) {
    a.LoopDoes? && a.loop == l && a.step.Put?
  }

  /** How often loop l lost the compare-and-swap, in its claim phase or in its revert phase. */
  function Conflicts(r: Run, l: nat, reverting: bool): nat
    requires Valid(r)
  {
    if r.Start? then 0
    else
      Conflicts(r.prev, l, reverting) +
      if IsPutOf(r.a, l) && Final(r).store == Final(r.prev).store && Final(r.prev).loops[l].RevertReady? == reverting then 1 else 0
  }

  // ---- Attempts left plus conflicts is the budget ----

  predicate Counted(r: Run, l: nat)
    requires Valid(r) && l < |Final(r).loops|
  {
    var loop, b := Final(r).loops[l], Final(r).budget;
    match loop
    case Claiming(left) => left + Conflicts(r, l, false) == b && Conflicts(r, l, true) == 0
    case ClaimReady(_, _, _, left) => left + Conflicts(r, l, false) == b && Conflicts(r, l, true) == 0
    case Dispatching(_, _) => Conflicts(r, l, true) == 0
    case Reverting(_, left) => left + Conflicts(r, l, true) == b
    case RevertReady(_, _, _, left) => left + Conflicts(r, l, true) == b
    case _ => true
  }

  lemma {:induction false} NotStarted(r: Run, l: nat, reverting: bool)
    requires Valid(r) && l >= |Final(r).loops|
    ensures Conflicts(r, l, reverting) == 0
  {
    if r.Then? {
      NotStarted(r.prev, l, reverting);
    }
  }

  /** An answered update of an existing policy either is applied or conflicts. */
  lemma AnsweredPut(l: Loop, store: Option<Stored>, budget: nat)
    requires (l.ClaimReady? || l.RevertReady?) && store.Some?
    ensures var (l', store') := LoopNext(l, store, Put(Answered), budget);
      if store' == store then
        l' == (if l.left <= 1 then Ended else if l.ClaimReady? then Claiming(l.left - 1) else Reverting(l.failed, l.left - 1))
      else l' == (if l.ClaimReady? then Dispatching(l.claimed, []) else Ended)
  {
  }

  lemma CountedStep(r: Run, l: nat)
    requires Valid(r) && r.Then? && l < |Final(r.prev).loops| && Counted(r.prev, l)
    requires r.a.LoopDoes? && r.a.loop == l && Undisturbed(Final(r.prev), r.a.step)
    ensures Counted(r, l)
  {
    var s := Final(r.prev);
    if r.a.step.Put? {
      AnsweredPut(s.loops[l], s.store, s.budget);
    }
  }

  lemma {:induction false} AttemptsCounted(r: Run, l: nat)
    requires Valid(r) && Smooth(r, l) && l < |Final(r).loops|
    ensures Counted(r, l)
  {
    if l < |Final(r.prev).loops| {
      AttemptsCounted(r.prev, l);
      if r.a.LoopDoes? && r.a.loop == l {
        CountedStep(r, l);
      }
    } else {
      NotStarted(r.prev, l, false);
      NotStarted(r.prev, l, true);
    }
  }

  // ---- A loop forgets no failure ----

  /** While the loop goes on it still holds every failure it saw, and a loop that has seen one does not just end. */
  lemma {:induction false} FailuresHeld(r: Run, l: nat, x: Id)
    requires Valid(r) && SawFailure(r, l, x)
    ensures l < |Final(r).loops|
    ensures !Final(r).loops[l].Claiming? && !Final(r).loops[l].ClaimReady?
    ensures var loop := Final(r).loops[l];
      loop.Dispatching? || loop.Reverting? || loop.RevertReady? ==> x in Failed(loop)
  {
    if SawFailure(r.prev, l, x) {
      FailuresHeld(r.prev, l, x);
    }
  }

  // ---- What the end of a loop means ----

  predicate NoneTriggered(ss: seq<Status>, x: Id) {
    forall i :: 0 <= i < |ss| && ss[i].experimentID == x ==> !Triggered(ss[i])
  }

  lemma ReleasedNone(ss: seq<Status>, ids: seq<Id>, x: Id)
    requires x in ids
    ensures NoneTriggered(ReleaseAll(ss, ids), x)
  {
    forall i | 0 <= i < |ss| && ReleaseAll(ss, ids)[i].experimentID == x ensures !Triggered(ReleaseAll(ss, ids)[i]) {
      Exclusive(ss[i]);
      Exclusive(Release(ss[i], ids));
    }
  }

  /**
   The step that ends an undisturbed loop, in a run in which its revert phase had
   fewer conflicts than the budget: no status of an id whose dispatch the loop saw
   fail or be disabled is left triggered.
   */
  lemma FailedAreReleased(r: Run, l: nat, x: Id)
    requires Valid(r) && Smooth(r, l) && r.Then? && r.a.LoopDoes? && r.a.loop == l && Final(r).loops[l].Ended?
    requires SawFailure(r, l, x) && Conflicts(r, l, true) < Final(r).budget
    ensures Final(r).store.Some? && NoneTriggered(StatusesOf(r), x)
  {
    var s := Final(r.prev);
    var loop := s.loops[l];
    AttemptsCounted(r.prev, l);
    FreshRun(r.prev);
    SeenBefore(r, l, x);
    FailuresHeld(r.prev, l, x);
    ReleasedNone(Listed(s.store), loop.failed, x);
    if r.a.step.Put? {
      AnsweredPut(loop, s.store, s.budget);
      assert FreshLoop(loop, s.store);
    }
  }

  lemma SeenBefore(r: Run, l: nat, x: Id)
    requires Valid(r) && r.Then? && r.a.LoopDoes? && r.a.loop == l && Final(r).loops[l].Ended? && SawFailure(r, l, x)
    ensures SawFailure(r.prev, l, x)
  {
  }

  /**
   An undisturbed loop with fewer conflicts than the budget leaves its claim phase
   only by claiming everything that is open, or when nothing is.
   */
  lemma OpenAreClaimed(r: Run, l: nat)
    requires Valid(r) && Smooth(r, l) && r.Then? && r.a.LoopDoes? && r.a.loop == l
    requires Final(r.prev).loops[l].Claiming? || Final(r.prev).loops[l].ClaimReady?
    requires !(Final(r).loops[l].Claiming? || Final(r).loops[l].ClaimReady?) && Conflicts(r, l, false) < Final(r).budget
    ensures ClaimedIds(StatusesOf(r)) == []
    ensures var open := ClaimedIds(StatusesOf(r.prev));
      Final(r).loops[l] == Dispatching(open, []) || (Final(r).loops[l] == Ended && open == [])
  {
    var s := Final(r.prev);
    AttemptsCounted(r.prev, l);
    FreshRun(r.prev);
    if r.a.step.Put? {
      AnsweredPut(s.loops[l], s.store, s.budget);
      assert FreshLoop(s.loops[l], s.store);
      NothingLeft(StatusesOf(r.prev));
    }
  }

  lemma {:induction false} NothingLeft(ss: seq<Status>)
    ensures ClaimedIds(ClaimAll(ss)) == []
  {
    if ss != [] {
      var n := |ss| - 1;
      NothingLeft(ss[..n]);
      assert ClaimAll(ss)[..n] == ClaimAll(ss[..n]);
      Exclusive(ss[n]);
      Exclusive(Claim(ss[n]));
    }
  }

  /** Below the budget a conflict never ends a loop: it reads again. */
  lemma ConflictRetries(r: Run, l: nat)
    requires Valid(r) && Smooth(r, l) && r.Then? && IsPutOf(r.a, l) && Final(r).store == Final(r.prev).store
    requires Conflicts(r, l, Final(r.prev).loops[l].RevertReady?) < Final(r).budget
    ensures if Final(r.prev).loops[l].RevertReady? then Final(r).loops[l].Reverting? && Failed(Final(r).loops[l]) == Failed(Final(r.prev).loops[l])
            else Final(r).loops[l].Claiming?
  {
    AttemptsCounted(r.prev, l);
    AnsweredPut(Final(r.prev).loops[l], Final(r.prev).store, Final(r.prev).budget);
  }

  // ---- A loop that is told of an error stops ----

  predicate Disturbed(step: LoopStep) {
    match step
    case Get(seen) => seen.None?
    case GetFails => true
    case Put(d) => !d.Answered?
    case Send(_) => false
    case Crash => true
  }

  predicate Gone(l: Loop) {
    l.Ended? || l.Abandoned?
  }

  /** After a failed read, a missing policy, an update without an answer or a crash, the loop does nothing any more. */
  lemma {:induction false} DisturbedStops(p: Run, q: Run, l: nat)
    requires Valid(p) && Valid(q) && IsPrefix(p, q) && p.Then? && p.a.LoopDoes? && p.a.loop == l && Disturbed(p.a.step)
    ensures l < |Final(q).loops| && Gone(Final(q).loops[l])
    ensures p != q ==> !(q.a.LoopDoes? && q.a.loop == l)
  {
    if p != q {
      DisturbedStops(p, q.prev, l);
    }
  }

  /** No loop sends anything before its own claim was answered: the ids it sends were claimed by it. */
  lemma SendsOwnClaims(r: Run, x: Id)
    requires Valid(r) && r.Then? && SendStep(Final(r.prev), r.a, x)
    ensures ClaimedBy(r.prev, r.a.loop, x)
  {
    RunExplained(r.prev);
    assert x in Final(r.prev).loops[r.a.loop].queue;
  }
}
