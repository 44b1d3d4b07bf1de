/**
 Where the stored statuses come from: exactly the auditors whose conditions matched
 and whose append the server applied, in the order in which it applied them.
 */
module TriggerAudits {
  import opened Wrappers
  import opened Triggers
  import opened TriggerProtocol

  // ---- Read off the actions of a run ----

  /** The status that the i-th auditor to start is to append. */
  function StartedEntry(r: Run, i: nat): Option<Status>
    requires Valid(r)
  {
    if r.Start? then None
    else if r.a.StartAuditor? && |Final(r.prev).auditors| == i then
      Some(Status(r.a.timeStamp, r.a.resource, r.a.resourceName, "ConditionPassed", r.a.experimentID, "false"))
    else StartedEntry(r.prev, i)
  }

  /** Auditor i has read the policy and found its conditions met. */
  predicate Matched(r: Run, i: nat) {
    r.Then? && (r.a == AuditorDoes(i, Read(true)) || Matched(r.prev, i))
  }

  /** The auditors whose append changed the stored object, in order. */
  function Commits(r: Run): seq<nat>
    requires Valid(r)
  {
    if r.Start? then []
    else Commits(r.prev) + if r.a.AuditorDoes? && Final(r).store != Final(r.prev).store then [r.a.auditor] else []
  }

  // ---- What the auditors hold ----

  predicate AuditorTrue(r: Run, i: nat)
    requires Valid(r) && i < |Final(r).auditors|
  {
    match Final(r).auditors[i]
    case Auditing(entry) => StartedEntry(r, i) == Some(entry) && i !in Commits(r)
    case AuditReady(_, statuses) =>
      && Matched(r, i) && i !in Commits(r)
      && statuses != [] && StartedEntry(r, i) == Some(statuses[|statuses| - 1])
    case Audited => true
  }

  predicate CommitTrue(r: Run, i: nat)
    requires Valid(r)
  {
    i < |Final(r).auditors| && Final(r).auditors[i].Audited? && Matched(r, i) && StartedEntry(r, i).Some?
  }

  /** An entry that was started stays what it is. */
  lemma StartedStays(r: Run, i: nat)
    requires Valid(r) && r.Then? && i < |Final(r.prev).auditors|
    ensures StartedEntry(r, i) == StartedEntry(r.prev, i)
  {
  }

  lemma AuditorStep(r: Run, i: nat)
    requires Valid(r) && r.Then? && i < |Final(r).auditors|
    requires i < |Final(r.prev).auditors| ==> AuditorTrue(r.prev, i)
    requires i >= |Final(r.prev).auditors| ==> i !in Commits(r.prev)
    ensures AuditorTrue(r, i)
  {
    if i < |Final(r.prev).auditors| {
      StartedStays(r, i);
    }
  }

  lemma CommitStep(r: Run, i: nat)
    requires Valid(r) && r.Then? && i in Commits(r)
    requires i in Commits(r.prev) ==> CommitTrue(r.prev, i)
    requires i < |Final(r.prev).auditors| ==> AuditorTrue(r.prev, i)
    ensures CommitTrue(r, i)
  {
    if i < |Final(r.prev).auditors| {
      StartedStays(r, i);
    }
  }

  lemma {:induction false} AuditorsTrue(r: Run)
    requires Valid(r)
    ensures forall i: nat :: i < |Final(r).auditors| ==> AuditorTrue(r, i)
    ensures forall i :: i in Commits(r) ==> CommitTrue(r, i)
  {
    if r.Then? {
      AuditorsTrue(r.prev);
      forall i: nat | i < |Final(r).auditors| ensures AuditorTrue(r, i) {
        AuditorStep(r, i);
      }
      forall i | i in Commits(r) ensures CommitTrue(r, i) {
        CommitStep(r, i);
      }
    }
  }

  predicate Distinct(ids: seq<nat>) {
    forall i, j :: 0 <= i < j < |ids| ==> ids[i] != ids[j]
  }

  /** Position k behind the initial list holds what the k-th committed auditor was started with. */
  predicate EntryAt(r: Run, k: nat)
    requires Valid(r) && k < |Commits(r)|
  {
    var at := |Listed(Origin(r).store)| + k;
    at < |StatusesOf(r)| && StartedEntry(r, Commits(r)[k]) == Some(StatusesOf(r)[at].(isTriggered := "false"))
  }

  lemma CommitKept(r: Run, k: nat)
    requires Valid(r) && r.Then? && k < |Commits(r.prev)|
    ensures k < |Commits(r)| && Commits(r)[k] == Commits(r.prev)[k]
    ensures StartedEntry(r, Commits(r)[k]) == StartedEntry(r.prev, Commits(r.prev)[k])
  {
    var i := Commits(r.prev)[k];
    AuditorsTrue(r.prev);
    assert i in Commits(r.prev) && CommitTrue(r.prev, i);
    StartedStays(r, i);
  }

  lemma SameEntry(before: seq<Status>, after: seq<Status>, i: nat)
    requires Extends(before, after) && i < |before|
    ensures after[i].(isTriggered := "false") == before[i].(isTriggered := "false")
  {
    assert after[i].(isTriggered := before[i].isTriggered) == before[i];
  }

  lemma KeptEntry(r: Run, k: nat)
    requires Valid(r) && r.Then? && Final(r).store.Some? && k < |Commits(r.prev)| && EntryAt(r.prev, k)
    ensures k < |Commits(r)| && EntryAt(r, k)
  {
    FreshRun(r.prev);
    StepExtends(Final(r.prev), r.a);
    CommitKept(r, k);
    SameEntry(StatusesOf(r.prev), StatusesOf(r), |Listed(Origin(r).store)| + k);
  }

  lemma {:induction false} StartedIsPending(r: Run, i: nat)
    requires Valid(r) && StartedEntry(r, i).Some?
    ensures StartedEntry(r, i).value.isTriggered == "false" && StartedEntry(r, i).value.result == "ConditionPassed"
  {
    if !(r.a.StartAuditor? && |Final(r.prev).auditors| == i) {
      StartedIsPending(r.prev, i);
    }
  }

  /** An auditor changes the store only by storing what it holds. */
  lemma CommitStores(s: State, a: Action)
    requires Enabled(s, a) && a.AuditorDoes? && Next(s, a).store != s.store
    ensures s.auditors[a.auditor].AuditReady? && Listed(Next(s, a).store) == s.auditors[a.auditor].statuses
  {
  }

  lemma NewEntry(r: Run)
    requires Valid(r) && r.Then? && Final(r).store.Some? && |Commits(r)| == |Commits(r.prev)| + 1
    requires |StatusesOf(r.prev)| == |Listed(Origin(r).store)| + |Commits(r.prev)|
    ensures EntryAt(r, |Commits(r.prev)|) && |StatusesOf(r)| == |StatusesOf(r.prev)| + 1
  {
    FreshRun(r.prev);
    StepChange(Final(r.prev), r.a);
    LastIsStarted(r);
  }

  lemma LastIsStarted(r: Run)
    requires Valid(r) && r.Then? && Final(r).store.Some? && |Commits(r)| == |Commits(r.prev)| + 1
    ensures var ss := StatusesOf(r);
      ss != [] && StartedEntry(r, Commits(r)[|Commits(r.prev)|]) == Some(ss[|ss| - 1]) && ss[|ss| - 1].isTriggered == "false"
  {
    var i := r.a.auditor;
    AuditorsTrue(r.prev);
    assert AuditorTrue(r.prev, i);
    CommitStores(Final(r.prev), r.a);
    StartedStays(r, i);
    StartedIsPending(r, i);
    assert Commits(r)[|Commits(r.prev)|] == i;
  }

  lemma LengthKept(r: Run)
    requires Valid(r) && r.Then? && Final(r).store.Some? && Commits(r) == Commits(r.prev)
    ensures |StatusesOf(r)| == |StatusesOf(r.prev)|
  {
    FreshRun(r.prev);
    StepChange(Final(r.prev), r.a);
  }

  lemma CommitOnce(r: Run)
    requires Valid(r) && r.Then? && Distinct(Commits(r.prev))
    ensures Distinct(Commits(r))
  {
    AuditorsTrue(r.prev);
    if Commits(r) != Commits(r.prev) {
      assert AuditorTrue(r.prev, r.a.auditor);
    }
  }

  /**
   In every run, while the policy exists: its statuses are the initial ones and then
   one for each committed auditor, in commit order, each with the five fields its
   auditor was started with; and every one of these auditors found the conditions met.
   */
  lemma {:induction false} StoredEntriesMatched(r: Run)
    requires Valid(r)
    ensures Distinct(Commits(r)) && forall i :: i in Commits(r) ==> Matched(r, i)
    ensures Final(r).store.Some? ==>
      && |StatusesOf(r)| == |Listed(Origin(r).store)| + |Commits(r)|
      && forall k: nat :: k < |Commits(r)| ==> EntryAt(r, k)
  {
    AuditorsTrue(r);
    if r.Then? {
      StoredEntriesMatched(r.prev);
      CommitOnce(r);
      FreshRun(r.prev);
      StepChange(Final(r.prev), r.a);
      if Final(r).store.Some? {
        if Commits(r) == Commits(r.prev) {
          LengthKept(r);
        } else {
          NewEntry(r);
        }
        forall k: nat | k < |Commits(r)| ensures EntryAt(r, k) {
          if k < |Commits(r.prev)| {
            KeptEntry(r, k);
          }
        }
      }
    }
  }

  // ---- The converse: a match that is not overtaken is stored ----

  /** Run q goes on from run p without a step of auditor i. */
  predicate Idle(p: Run, q: Run, i: nat) {
    p == q || (q.Then? && Idle(p, q.prev, i) && !(q.a.AuditorDoes? && q.a.auditor == i))
  }

  lemma {:induction false} IdleKeeps(p: Run, q: Run, i: nat, seen: Stored)
    requires Valid(q) && Idle(p, q, i) && Valid(p) && i < |Final(p).auditors| && WasStored(p, seen)
    ensures i < |Final(q).auditors| && Final(q).auditors[i] == Final(p).auditors[i] && WasStored(q, seen)
  {
    if p != q {
      IdleKeeps(p, q.prev, i, seen);
    }
  }

  /** A status that an auditor appends is open for claiming. */
  lemma StartedIsClaimable(r: Run, i: nat)
    requires Valid(r) && StartedEntry(r, i).Some?
    ensures Claimable(StartedEntry(r, i).value)
  {
    StartedIsPending(r, i);
    assert ToLower("false") == "false";
  }

  /**
   An auditor that reads the policy ss at version v and finds its conditions met, and
   whose append arrives while the policy still has version v, whatever ran in between,
   stores exactly ss and its own entry, which is open for claiming.
   */
  lemma MatchIsStored(p: Run, i: nat, v: nat, ss: seq<Status>, q: Run, d: Delivery)
    requires Valid(p) && i < |Final(p).auditors| && Final(p).auditors[i].Auditing? && Final(p).store == Some(Stored(v, ss))
    requires Valid(q) && Idle(Then(p, AuditorDoes(i, Read(true))), q, i)
    requires Final(q).store.Some? && Final(q).store.value.version == v && d != NeverArrived
    ensures var r := Then(q, AuditorDoes(i, Append(d)));
      && Valid(r) && StartedEntry(p, i).Some? && Claimable(StartedEntry(p, i).value)
      && Final(r).store == Some(Stored(v + 1, ss + [StartedEntry(p, i).value]))
  {
    var read := Then(p, AuditorDoes(i, Read(true)));
    AuditorsTrue(p);
    assert AuditorTrue(p, i);
    assert WasStored(read, Stored(v, ss));
    IdleKeeps(read, q, i, Stored(v, ss));
    StaleIsOlder(q, Stored(v, ss));
    StartedIsClaimable(p, i);
  }

  /** An auditor whose conditions are not met is done, and stores nothing however the run goes on. */
  lemma NoMatchNoEntry(p: Run, i: nat, q: Run)
    requires Valid(p) && i < |Final(p).auditors| && Final(p).auditors[i].Auditing?
    requires Valid(q) && IsPrefix(Then(p, AuditorDoes(i, Read(false))), q)
    ensures i !in Commits(q)
  {
    var read := Then(p, AuditorDoes(i, Read(false)));
    AuditorsTrue(p);
    assert AuditorTrue(p, i);
    DoneStaysDone(read, q, i);
  }

  lemma {:induction false} DoneStaysDone(p: Run, q: Run, i: nat)
    requires Valid(p) && Valid(q) && IsPrefix(p, q) && i < |Final(p).auditors| && Final(p).auditors[i].Audited?
    ensures i < |Final(q).auditors| && Final(q).auditors[i].Audited?
    ensures i in Commits(q) <==> i in Commits(p)
  {
    if p != q {
      DoneStaysDone(p, q.prev, i);
    }
  }
}
