/** The member list of a project and the updates the repository makes to it. */
module Members {
  import opened Wrappers

  datatype MemberRole = Owner | Editor | Executor | Viewer | OtherRole(text: string)

  datatype Invitation = Pending | Accepted | Declined | Exited

  datatype Member = Member(
    userID: string,
    role: MemberRole,
    invitation: Invitation,
    joinedAt: int,
    deactivatedAt: Option<int>)

  const ANY_ROLE: set<MemberRole> := {Owner, Editor, Executor, Viewer}

  /** The entry getInvitation finds: the first one of the user. */
  function MemberOf(ms: seq<Member>, u: string): Option<Member> {
    if ms == [] then None
    else if ms[0].userID == u then Some(ms[0])
    else MemberOf(ms[1..], u)
  }

  function InvitationIn(ms: seq<Member>, u: string): Option<Invitation> {
    var m := MemberOf(ms, u);
    if m.Some? then Some(m.value.invitation) else None
  }

  predicate IsAcceptedOwner(m: Member) {
    m.role == Owner && m.invitation == Accepted
  }

  predicate HasOwner(ms: seq<Member>) {
    exists i :: 0 <= i < |ms| && IsAcceptedOwner(ms[i])
  }

  predicate Unique(ms: seq<Member>) {
    forall i, j :: 0 <= i < j < |ms| ==> ms[i].userID != ms[j].userID
  }

  /** GetProjectOwners */
  function Owners(ms: seq<Member>): seq<Member> {
    if ms == [] then []
    else
      var n := |ms| - 1;
      Owners(ms[..n]) + if IsAcceptedOwner(ms[n]) then [ms[n]] else []
  }

  /** An update of every entry of user u, as an array filter makes it. */
  function UpdateUser(ms: seq<Member>, u: string, f: Member -> Member): seq<Member> {
    seq(|ms|, i requires 0 <= i < |ms| => if ms[i].userID == u then f(ms[i]) else ms[i])
  }

  /** The fields UpdateInvite sets: a new invitation carries its role, an acceptance its time. */
  function SetInvite(m: Member, invitation: Invitation, role: MemberRole, now: int): Member {
    match invitation
    case Pending => m.(invitation := Pending, role := role)
    case Accepted => m.(invitation := Accepted, joinedAt := now)
    case _ => m.(invitation := invitation)
  }

  function UpdateInvite(ms: seq<Member>, u: string, invitation: Invitation, role: MemberRole, now: int): seq<Member> {
    UpdateUser(ms, u, (m: Member) => SetInvite(m, invitation, role, now))
  }

  function UpdateRole(ms: seq<Member>, u: string, role: MemberRole): seq<Member> {
    UpdateUser(ms, u, (m: Member) => m.(role := role))
  }

  function UpdateDeactivation(ms: seq<Member>, u: string, time: int): seq<Member> {
    UpdateUser(ms, u, (m: Member) => m.(deactivatedAt := Some(time)))
  }

  /** Pulling every entry of user u out of the list. */
  function RemoveUser(ms: seq<Member>, u: string): seq<Member> {
    if ms == [] then []
    else
      var n := |ms| - 1;
      RemoveUser(ms[..n], u) + if ms[n].userID == u then [] else [ms[n]]
  }

  // ---- Searching ----

  lemma {:induction false} MemberAt(ms: seq<Member>, i: nat)
    requires Unique(ms) && i < |ms|
    ensures MemberOf(ms, ms[i].userID) == Some(ms[i])
  {
    if i > 0 {
      assert ms[1..][i - 1] == ms[i];
      MemberAt(ms[1..], i - 1);
    }
  }

  lemma {:induction false} MemberPosition(ms: seq<Member>, u: string)
    ensures MemberOf(ms, u).None? ==> forall i :: 0 <= i < |ms| ==> ms[i].userID != u
    ensures MemberOf(ms, u).Some? ==> exists i :: 0 <= i < |ms| && ms[i].userID == u && MemberOf(ms, u) == Some(ms[i])
  {
    if ms != [] && ms[0].userID != u {
      MemberPosition(ms[1..], u);
      if MemberOf(ms[1..], u).Some? {
        var i :| 0 <= i < |ms[1..]| && ms[1..][i].userID == u && MemberOf(ms[1..], u) == Some(ms[1..][i]);
        assert ms[i + 1] == ms[1..][i];
      } else {
        forall i | 0 <= i < |ms| ensures ms[i].userID != u {
          assert i > 0 ==> ms[i] == ms[1..][i - 1];
        }
      }
    }
  }

  // ---- What each update does to a user's entry ----

  lemma {:induction false} UpdateUserAt(ms: seq<Member>, u: string, f: Member -> Member, v: string)
    requires forall m :: f(m).userID == m.userID
    ensures MemberOf(UpdateUser(ms, u, f), v)
         == if u == v && MemberOf(ms, v).Some? then Some(f(MemberOf(ms, v).value)) else MemberOf(ms, v)
  {
    if ms != [] {
      assert UpdateUser(ms, u, f)[1..] == UpdateUser(ms[1..], u, f);
      UpdateUserAt(ms[1..], u, f, v);
      if ms[0].userID == v {
        assert UpdateUser(ms, u, f)[0].userID == v;
      }
    }
  }

  lemma UpdateUserUnique(ms: seq<Member>, u: string, f: Member -> Member)
    requires Unique(ms) && forall m :: f(m).userID == m.userID
    ensures Unique(UpdateUser(ms, u, f))
  {
  }

  lemma {:induction false} AppendAt(ms: seq<Member>, m: Member, v: string)
    ensures MemberOf(ms + [m], v)
         == if MemberOf(ms, v).None? && m.userID == v then Some(m) else MemberOf(ms, v)
  {
    if ms == [] {
      assert ms + [m] == [m];
    } else {
      assert (ms + [m])[1..] == ms[1..] + [m];
      AppendAt(ms[1..], m, v);
    }
  }

  lemma {:induction false} RemoveUserAt(ms: seq<Member>, u: string, v: string)
    ensures MemberOf(RemoveUser(ms, u), v) == if u == v then None else MemberOf(ms, v)
  {
    if ms != [] {
      var n := |ms| - 1;
      RemoveUserAt(ms[..n], u, v);
      assert ms == ms[..n] + [ms[n]];
      AppendAt(ms[..n], ms[n], v);
      if ms[n].userID != u {
        AppendAt(RemoveUser(ms[..n], u), ms[n], v);
      } else {
        assert RemoveUser(ms, u) == RemoveUser(ms[..n], u);
      }
    }
  }

  lemma {:induction false} RemoveUserUnique(ms: seq<Member>, u: string)
    requires Unique(ms)
    ensures Unique(RemoveUser(ms, u))
    ensures forall m :: m in RemoveUser(ms, u) <==> m in ms && m.userID != u
  {
    if ms != [] {
      var n := |ms| - 1;
      RemoveUserUnique(ms[..n], u);
      assert ms == ms[..n] + [ms[n]];
      forall m | m in ms[..n] ensures m.userID != ms[n].userID {
        var i :| 0 <= i < n && ms[i] == m;
      }
    }
  }

  // ---- Owners ----

  lemma {:induction false} OwnerListed(ms: seq<Member>, m: Member)
    ensures m in Owners(ms) <==> m in ms && IsAcceptedOwner(m)
  {
    if ms != [] {
      var n := |ms| - 1;
      OwnerListed(ms[..n], m);
      assert ms == ms[..n] + [ms[n]];
    }
  }

  lemma OwnersAre(ms: seq<Member>)
    ensures forall m :: m in Owners(ms) <==> m in ms && IsAcceptedOwner(m)
    ensures |Owners(ms)| == 0 <==> !HasOwner(ms)
  {
    forall m ensures m in Owners(ms) <==> m in ms && IsAcceptedOwner(m) {
      OwnerListed(ms, m);
    }
    assert Owners(ms) != [] ==> Owners(ms)[0] in Owners(ms);
    if HasOwner(ms) {
      var i :| 0 <= i < |ms| && IsAcceptedOwner(ms[i]);
      assert ms[i] in Owners(ms);
    }
  }

  lemma {:induction false} OwnersOnce(ms: seq<Member>)
    requires Unique(ms)
    ensures Unique(Owners(ms))
  {
    if ms != [] {
      var n := |ms| - 1;
      OwnersOnce(ms[..n]);
      OwnersAre(ms[..n]);
      forall m | m in Owners(ms[..n]) ensures m.userID != ms[n].userID {
        var i :| 0 <= i < n && ms[..n][i] == m;
      }
    }
  }

  /** An owner other than u exists exactly when the owners are not just u. */
  lemma OtherOwner(ms: seq<Member>, u: string)
    requires Unique(ms) && HasOwner(ms)
    ensures (exists i :: 0 <= i < |ms| && IsAcceptedOwner(ms[i]) && ms[i].userID != u)
       <==> !(|Owners(ms)| == 1 && Owners(ms)[0].userID == u)
  {
    OwnersAre(ms);
    OwnersOnce(ms);
    var owners := Owners(ms);
    assert owners[0] in owners;
    if i :| 0 <= i < |ms| && IsAcceptedOwner(ms[i]) && ms[i].userID != u {
      assert ms[i] in owners;
    }
    if |owners| > 1 || owners[0].userID != u {
      var o := if owners[0].userID != u then owners[0] else owners[1];
      assert o in owners && o.userID != u;
      var i :| 0 <= i < |ms| && ms[i] == o;
    }
  }

  // ---- The two loops over a member list ----

  method GetInvitation(ms: seq<Member>, u: string) returns (invitation: Option<Invitation>)
    ensures invitation == InvitationIn(ms, u)
  {
    for i := 0 to |ms|
      invariant MemberOf(ms, u) == MemberOf(ms[i..], u)
    {
      if ms[i].userID == u {
        return Some(ms[i].invitation);
      }
      assert ms[i..][1..] == ms[i + 1..];
    }
    invitation := None;
  }

  method GetProjectOwners(ms: seq<Member>) returns (owners: seq<Member>)
    ensures owners == Owners(ms)
  {
    owners := [];
    for i := 0 to |ms|
      invariant owners == Owners(ms[..i])
    {
      assert ms[..i + 1][..i] == ms[..i];
      if ms[i].role == Owner && ms[i].invitation == Accepted {
        owners := owners + [ms[i]];
      }
    }
    assert ms[..|ms|] == ms;
  }
}
