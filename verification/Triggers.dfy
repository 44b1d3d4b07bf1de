/**
 The statuses of an EventTrackerPolicy and the three in-memory passes that
 Reconcile makes over them: claim the pending ones, dispatch the claims, release
 the claims whose dispatch did not go through.
 */
module Triggers {
  type Id = string

  datatype Status = Status(
    timeStamp: string,
    resource: string,
    resourceName: string,
    result: string,
    experimentID: Id,
    isTriggered: string)

  /** What became of one SendRequest: accepted, refused because GitOps is off, or an error. */
  datatype Outcome = Success | Disabled | Failure

  const CONDITION_PASSED := "ConditionPassed"

  function LowerChar(c: char): char {
    if 'A' <= c <= 'Z' then (c as int + 32) as char else c
  }

  /**
   Lower-casing of the ASCII letters. No other letter lower-cases to one of the
   letters of "true" or "false", so this decides the two comparisons below.
   */
  function ToLower(s: string): string {
    seq(|s|, i requires 0 <= i < |s| => LowerChar(s[i]))
  }

  predicate Pending(s: Status) {
    ToLower(s.isTriggered) == "false"
  }

  predicate Triggered(s: Status) {
    ToLower(s.isTriggered) == "true"
  }

  predicate Claimable(s: Status) {
    s.result == CONDITION_PASSED && Pending(s)
  }

  function Claim(s: Status): Status {
    if Claimable(s) then s.(isTriggered := "true") else s
  }

  function Release(s: Status, ids: seq<Id>): Status {
    if s.experimentID in ids && Triggered(s) then s.(isTriggered := "false") else s
  }

  function ClaimAll(ss: seq<Status>): seq<Status> {
    seq(|ss|, i requires 0 <= i < |ss| => Claim(ss[i]))
  }

  function ReleaseAll(ss: seq<Status>, ids: seq<Id>): seq<Status> {
    seq(|ss|, i requires 0 <= i < |ss| => Release(ss[i], ids))
  }

  /** The experiment ids of the claimable statuses, one per status, in list order. */
  function ClaimedIds(ss: seq<Status>): seq<Id> {
    if ss == [] then []
    else
      var last := ss[|ss| - 1];
      ClaimedIds(ss[..|ss| - 1]) + if Claimable(last) then [last.experimentID] else []
  }

  /** The ids whose dispatch did not succeed, in dispatch order. */
  function Undelivered(ids: seq<Id>, outcomes: seq<Outcome>): seq<Id>
    requires |ids| == |outcomes|
  {
    if ids == [] then []
    else
      var n := |ids| - 1;
      Undelivered(ids[..n], outcomes[..n]) + if outcomes[n].Success? then [] else [ids[n]]
  }

  /**
   How many positions carry id x, are pending before and triggered after. This
   looks only at two versions of the stored list, not at who changed it.
   */
  function FlipCount(before: seq<Status>, after: seq<Status>, x: Id): nat {
    if before == [] then 0
    else
      var n := |before| - 1;
      FlipCount(before[..n], after, x) +
      if n < |after| && before[n].experimentID == x && Pending(before[n]) && Triggered(after[n]) then 1 else 0
  }

  /** Every old entry keeps its position and every field but isTriggered. */
  predicate Extends(before: seq<Status>, after: seq<Status>) {
    && |before| <= |after|
    && forall i :: 0 <= i < |before| ==> after[i].(isTriggered := before[i].isTriggered) == before[i]
  }

  /** A status whose condition passed is open for claiming, or settled by a claim. */
  datatype Kind = Open | Settled | Either

  predicate Is(s: Status, kind: Kind) {
    s.result == CONDITION_PASSED &&
    match kind
    case Open => Pending(s)
    case Settled => Triggered(s)
    case Either => Pending(s) || Triggered(s)
  }

  /** How many statuses of this kind carry id x. */
  function Tally(ss: seq<Status>, x: Id, kind: Kind): nat {
    if ss == [] then 0
    else
      var n := |ss| - 1;
      Tally(ss[..n], x, kind) + if ss[n].experimentID == x && Is(ss[n], kind) then 1 else 0
  }

  lemma Exclusive(s: Status)
    ensures !(Pending(s) && Triggered(s))
    ensures Claimable(s) ==> Triggered(Claim(s))
    ensures Pending(s.(isTriggered := "false")) && Triggered(s.(isTriggered := "true"))
  {
    assert ToLower("true") == "true";
    assert ToLower("false") == "false";
    assert |"true"| != |"false"|;
  }

  predicate EitherCase(c: char, lower: char, upper: char) {
    c == lower || c == upper
  }

  /** The flag is compared without regard to case. */
  lemma FlagInAnyCase(s: Status)
    ensures Pending(s) <==>
      var f := s.isTriggered;
      && |f| == 5 && EitherCase(f[0], 'f', 'F') && EitherCase(f[1], 'a', 'A') && EitherCase(f[2], 'l', 'L')
      && EitherCase(f[3], 's', 'S') && EitherCase(f[4], 'e', 'E')
    ensures Triggered(s) <==>
      var f := s.isTriggered;
      && |f| == 4 && EitherCase(f[0], 't', 'T') && EitherCase(f[1], 'r', 'R') && EitherCase(f[2], 'u', 'U') && EitherCase(f[3], 'e', 'E')
  {
    var f := ToLower(s.isTriggered);
    assert f == "false" <==> |f| == 5 && f[0] == 'f' && f[1] == 'a' && f[2] == 'l' && f[3] == 's' && f[4] == 'e';
    assert f == "true" <==> |f| == 4 && f[0] == 't' && f[1] == 'r' && f[2] == 'u' && f[3] == 'e';
  }

  /** A claim pass flips exactly the statuses whose ids it reports, with multiplicity. */
  lemma {:induction false} ClaimFlipsWhatItReports(ss: seq<Status>, after: seq<Status>, x: Id)
    requires |ss| <= |after| && forall i :: 0 <= i < |ss| ==> after[i] == Claim(ss[i])
    ensures FlipCount(ss, after, x) == multiset(ClaimedIds(ss))[x]
  {
    if ss != [] {
      var n := |ss| - 1;
      Exclusive(ss[n]);
      ClaimFlipsWhatItReports(ss[..n], after, x);
    }
  }

  lemma {:induction false} NoFlips(before: seq<Status>, after: seq<Status>, x: Id)
    requires forall i :: 0 <= i < |before| && i < |after| ==> !(Pending(before[i]) && Triggered(after[i]))
    ensures FlipCount(before, after, x) == 0
  {
    if before != [] {
      NoFlips(before[..|before| - 1], after, x);
    }
  }

  /** An id is reported once for every open status that carries it. */
  lemma {:induction false} ReportedIsOpen(ss: seq<Status>, x: Id)
    ensures multiset(ClaimedIds(ss))[x] == Tally(ss, x, Open)
    ensures Tally(ss, x, Either) == Tally(ss, x, Open) + Tally(ss, x, Settled)
  {
    if ss != [] {
      var n := |ss| - 1;
      ReportedIsOpen(ss[..n], x);
      Exclusive(ss[n]);
    }
  }

  /** A claim pass settles everything that was open. */
  lemma {:induction false} ClaimTally(ss: seq<Status>, x: Id)
    ensures Tally(ClaimAll(ss), x, Open) == 0
    ensures Tally(ClaimAll(ss), x, Settled) == Tally(ClaimAll(ss), x, Either) == Tally(ss, x, Either)
  {
    if ss != [] {
      var n := |ss| - 1;
      ClaimTally(ss[..n], x);
      assert ClaimAll(ss)[..n] == ClaimAll(ss[..n]);
      Exclusive(ss[n]);
      Exclusive(Claim(ss[n]));
    }
  }

  /** A release pass opens every status of the released ids again, and no other. */
  lemma {:induction false} ReleaseTally(ss: seq<Status>, ids: seq<Id>, x: Id)
    ensures var after := ReleaseAll(ss, ids);
      && Tally(after, x, Either) == Tally(ss, x, Either)
      && Tally(after, x, Open) == (if x in ids then Tally(ss, x, Either) else Tally(ss, x, Open))
      && Tally(after, x, Settled) == (if x in ids then 0 else Tally(ss, x, Settled))
  {
    if ss != [] {
      var n := |ss| - 1;
      ReleaseTally(ss[..n], ids, x);
      assert ReleaseAll(ss, ids)[..n] == ReleaseAll(ss[..n], ids);
      Exclusive(ss[n]);
      Exclusive(Release(ss[n], ids));
    }
  }

  /** The claim loop of Reconcile, working in place on the fetched policy's statuses. */
  method ClaimPending(etp: array<Status>) returns (claimed: seq<Id>)
    modifies etp
    ensures etp[..] == ClaimAll(old(etp[..]))
    ensures claimed == ClaimedIds(old(etp[..]))
  {
    claimed := [];
    ghost var was := etp[..];
    for i := 0 to etp.Length
      invariant |was| == etp.Length && was == old(etp[..])
      invariant forall k :: 0 <= k < i ==> etp[k] == Claim(was[k])
      invariant forall k :: i <= k < etp.Length ==> etp[k] == was[k]
      invariant claimed == ClaimedIds(was[..i])
    {
      var s := etp[i];
      assert was[..i + 1][..i] == was[..i];
      if s.result == CONDITION_PASSED && ToLower(s.isTriggered) == "false" {
        etp[i] := s.(isTriggered := "true");
        claimed := claimed + [s.experimentID];
      }
    }
    assert was[..etp.Length] == was;
  }

  /** The dispatch loop of Reconcile: one send per claim, collecting what has to be released. */
  method Dispatch(claimed: seq<Id>, outcomes: seq<Outcome>) returns (toRevert: seq<Id>)
    requires |claimed| == |outcomes|
    ensures toRevert == Undelivered(claimed, outcomes)
  {
    toRevert := [];
    for i := 0 to |claimed|
      invariant toRevert == Undelivered(claimed[..i], outcomes[..i])
    {
      assert claimed[..i + 1][..i] == claimed[..i] && outcomes[..i + 1][..i] == outcomes[..i];
      if outcomes[i] != Success {
        toRevert := toRevert + [claimed[i]];
      }
    }
    assert claimed[..|claimed|] == claimed && outcomes[..|claimed|] == outcomes;
  }

  /** The release loop of Reconcile; an unchanged list is reported so that no update is made. */
  method ReleaseClaims(etp: array<Status>, toRevert: seq<Id>) returns (changed: bool)
    modifies etp
    ensures etp[..] == ReleaseAll(old(etp[..]), toRevert)
    ensures changed <==> etp[..] != old(etp[..])
  {
    var revertSet: set<Id> := {};
    for i := 0 to |toRevert|
      invariant revertSet == set k | 0 <= k < i :: toRevert[k]
    {
      revertSet := revertSet + {toRevert[i]};
    }
    changed := false;
    ghost var was := etp[..];
    for i := 0 to etp.Length
      invariant |was| == etp.Length && was == old(etp[..])
      invariant forall k :: 0 <= k < i ==> etp[k] == Release(was[k], toRevert)
      invariant forall k :: i <= k < etp.Length ==> etp[k] == was[k]
      invariant changed <==> exists k :: 0 <= k < i && etp[k] != was[k]
    {
      var s := etp[i];
      if s.experimentID in revertSet && ToLower(s.isTriggered) == "true" {
        Exclusive(s);
        Exclusive(s.(isTriggered := "false"));
        etp[i] := s.(isTriggered := "false");
        assert etp[i] != was[i];
        changed := true;
      }
    }
    if changed {
      ghost var k :| 0 <= k < etp.Length && etp[k] != was[k];
      assert etp[..][k] != was[k];
    } else {
      assert etp[..] == was;
    }
  }
}
