/**
 What the member entries and projects hold, field by field, told from the granted
 requests of a run: roles, join times, deactivation marks, removal flags and names.
 */
module MembershipRecords {
  import opened Wrappers
  import opened Members
  import opened Membership

  function EntryIn(db: Db, p: string, u: string): Option<Member> {
    MemberOf(MembersOf(db, p), u)
  }

  /** The user a state change names. */
  predicate Names(db: Db, a: Action, u: string) {
    a.UpdateUserState? && u in db.users && db.users[u].username == a.username
  }

  function MarkTime(a: Action): int
    requires a.UpdateUserState?
  {
    if a.isDeactivate then a.now else 0
  }

  // ---- One granted request ----

  /** What a granted request makes of user u's entry in project p. */
  function EntryAfter(db: Db, a: Action, p: string, u: string): Option<Member> {
    var e := EntryIn(db, p, u);
    match a
    case CreateProject(caller, pid, _, now) =>
      if pid != p then e else if caller == u then Some(Member(u, Owner, Accepted, now, None)) else None
    case SendInvitation(_, pid, uid, role, now) =>
      if pid != p || uid != u || role.None? then e
      else if e.Some? then Some(e.value.(invitation := Pending, role := role.value))
      else Some(Member(u, role.value, Pending, now, None))
    case AcceptInvitation(caller, pid, now) =>
      if pid != p || caller != u || e.None? then e else Some(e.value.(invitation := Accepted, joinedAt := now))
    case DeclineInvitation(caller, pid) =>
      if pid != p || caller != u || e.None? then e else Some(e.value.(invitation := Declined))
    case LeaveProject(caller, pid, _) =>
      if pid != p || caller != u || e.None? then e else Some(e.value.(invitation := Exited))
    case RemoveInvitation(_, pid, uid) => if pid == p && uid == u then None else e
    case UpdateMemberRole(_, pid, uid, role) =>
      if pid != p || uid != u || e.None? || role.None? then e else Some(e.value.(role := role.value))
    case DeleteProject(_, pid) => if pid == p then None else e
    case UpdateUserState(_, _, _, _) =>
      if Names(db, a, u) && e.Some? then Some(e.value.(deactivatedAt := Some(MarkTime(a)))) else e
  }

  lemma CreateEntry(db: Db, a: Action, p: string, u: string)
    requires a.CreateProject? && Handle(db, a).1 == Ok
    ensures EntryIn(Handle(db, a).0, p, u) == EntryAfter(db, a, p, u)
  {
    var founder := Member(a.caller, Owner, Accepted, a.now, None);
    AppendAt([], founder, u);
    assert [] + [founder] == Handle(db, a).0.projects[a.projectID].members;
  }

  lemma InviteEntry(db: Db, a: Action, p: string, u: string)
    requires a.SendInvitation? && Handle(db, a).1 == Ok
    ensures EntryIn(Handle(db, a).0, p, u) == EntryAfter(db, a, p, u)
  {
    var ms := db.projects[a.projectID].members;
    var added := Member(a.userID, a.role.value, Pending, a.now, None);
    UpdateUserAt(ms, a.userID, (m: Member) => SetInvite(m, Pending, a.role.value, a.now), u);
    AppendAt(ms, added, u);
  }

  lemma AnswerEntry(db: Db, caller: string, pid: string, answer: Invitation, now: int, p: string, u: string)
    requires Answering(db, caller, pid, answer, now).1 == Ok && (answer.Accepted? || answer.Declined?)
    ensures var e := EntryIn(db, p, u);
      EntryIn(Answering(db, caller, pid, answer, now).0, p, u)
        == if pid != p || caller != u || e.None? then e
           else Some(if answer.Accepted? then e.value.(invitation := Accepted, joinedAt := now) else e.value.(invitation := Declined))
  {
    UpdateUserAt(db.projects[pid].members, caller, (m: Member) => SetInvite(m, answer, Owner, now), u);
  }

  lemma LeaveEntry(db: Db, a: Action, p: string, u: string)
    requires a.LeaveProject? && Handle(db, a).1 == Ok
    ensures EntryIn(Handle(db, a).0, p, u) == EntryAfter(db, a, p, u)
  {
    UpdateUserAt(db.projects[a.projectID].members, a.caller, (m: Member) => SetInvite(m, Exited, Owner, 0), u);
  }

  lemma ManageEntry(db: Db, a: Action, p: string, u: string)
    requires (a.RemoveInvitation? || a.UpdateMemberRole?) && Handle(db, a).1 == Ok
    ensures EntryIn(Handle(db, a).0, p, u) == EntryAfter(db, a, p, u)
  {
    var ms := db.projects[a.projectID].members;
    if a.RemoveInvitation? {
      RemoveUserAt(ms, a.userID, u);
    } else {
      UpdateUserAt(ms, a.userID, (m: Member) => m.(role := a.role.value), u);
    }
  }

  /** The user whose state a granted change sets is the only one of that name. */
  lemma NamedIsFound(db: Db, a: Action, u: string)
    requires UniqueUsernames(db.users) && a.UpdateUserState? && Handle(db, a).1 == Ok
    ensures FindUser(db, a.username).Some?
    ensures Names(db, a, u) <==> u == FindUser(db, a.username).value
  {
    if u in db.users {
      FoundIsNamed(db, a.username, u);
    }
  }

  lemma MarkEntry(db: Db, a: Action, p: string, u: string)
    requires UniqueUsernames(db.users) && a.UpdateUserState? && Handle(db, a).1 == Ok
    ensures EntryIn(Handle(db, a).0, p, u) == EntryAfter(db, a, p, u)
  {
    NamedIsFound(db, a, u);
    var uid, time := FindUser(db, a.username).value, MarkTime(a);
    if p in db.projects {
      UpdateUserAt(db.projects[p].members, uid, (m: Member) => m.(deactivatedAt := Some(time)), u);
    }
  }

  /** A granted request changes exactly the fields it is about, of exactly the entries it is about. */
  lemma StepEntry(db: Db, a: Action, p: string, u: string)
    requires UniqueUsernames(db.users) && Handle(db, a).1 == Ok
    ensures EntryIn(Handle(db, a).0, p, u) == EntryAfter(db, a, p, u)
  {
    match a {
      case CreateProject(_, _, _, _) => CreateEntry(db, a, p, u);
      case SendInvitation(_, _, _, _, _) => InviteEntry(db, a, p, u);
      case AcceptInvitation(caller, pid, now) => AnswerEntry(db, caller, pid, Accepted, now, p, u);
      case DeclineInvitation(caller, pid) => AnswerEntry(db, caller, pid, Declined, 0, p, u);
      case LeaveProject(_, _, _) => LeaveEntry(db, a, p, u);
      case RemoveInvitation(_, _, _) => ManageEntry(db, a, p, u);
      case UpdateMemberRole(_, _, _, _) => ManageEntry(db, a, p, u);
      case DeleteProject(_, _) =>
      case UpdateUserState(_, _, _, _) => MarkEntry(db, a, p, u);
    }
  }

  // ---- Told from the granted requests of a run ----

  /** The role named by the last granted request that sets one; None for a user who is not listed. */
  ghost function RoleGiven(r: Run, p: string, u: string): Option<MemberRole> {
    if r.Start? then None
    else
      var before := RoleGiven(r.prev, p, u);
      if !Succeeded(r) then before
      else match r.a
        case CreateProject(caller, pid, _, _) => if pid != p then before else if caller == u then Some(Owner) else None
        case SendInvitation(_, pid, uid, role, _) => if pid == p && uid == u then role else before
        case UpdateMemberRole(_, pid, uid, role) => if pid == p && uid == u && before.Some? then role else before
        case RemoveInvitation(_, pid, uid) => if pid == p && uid == u then None else before
        case DeleteProject(_, pid) => if pid == p then None else before
        case _ => before
  }

  /** When the user founded, was first invited to, or last accepted. */
  ghost function JoinedGiven(r: Run, p: string, u: string): Option<int> {
    if r.Start? then None
    else
      var before := JoinedGiven(r.prev, p, u);
      if !Succeeded(r) then before
      else match r.a
        case CreateProject(caller, pid, _, now) => if pid != p then before else if caller == u then Some(now) else None
        case SendInvitation(_, pid, uid, _, now) => if pid == p && uid == u && before.None? then Some(now) else before
        case AcceptInvitation(caller, pid, now) => if pid == p && caller == u then Some(now) else before
        case RemoveInvitation(_, pid, uid) => if pid == p && uid == u then None else before
        case DeleteProject(_, pid) => if pid == p then None else before
        case _ => before
  }

  /** The mark of the last granted state change of the user since the user is listed; a reactivation marks 0. */
  ghost function MarkGiven(r: Run, p: string, u: string): Option<int> {
    if r.Start? then None
    else
      var before := MarkGiven(r.prev, p, u);
      if !Succeeded(r) then before
      else match r.a
        case UpdateUserState(_, isDeactivate, now, _) =>
          if Names(Final(r.prev), r.a, u) && RoleGiven(r.prev, p, u).Some? then Some(if isDeactivate then now else 0) else before
        case CreateProject(_, pid, _, _) => if pid == p then None else before
        case RemoveInvitation(_, pid, uid) => if pid == p && uid == u then None else before
        case DeleteProject(_, pid) => if pid == p then None else before
        case _ => before
  }

  ghost predicate EntryGiven(r: Run, p: string, u: string) {
    var e := EntryIn(Final(r), p, u);
    && (e.Some? <==> RoleGiven(r, p, u).Some?)
    && (e.Some? ==>
          && e.value.userID == u
          && RoleGiven(r, p, u) == Some(e.value.role)
          && JoinedGiven(r, p, u) == Some(e.value.joinedAt)
          && MarkGiven(r, p, u) == e.value.deactivatedAt)
    && (e.None? ==> JoinedGiven(r, p, u) == None && MarkGiven(r, p, u) == None)
  }

  /** Who answers an invitation or leaves is listed. */
  lemma ActorIsListed(db: Db, a: Action)
    requires UniqueMembers(db) && Handle(db, a).1 == Ok && (a.AcceptInvitation? || a.DeclineInvitation? || a.LeaveProject?)
    ensures EntryIn(db, a.projectID, a.caller).Some?
  {
    GrantedFrom(db, a);
  }

  lemma MarkGivenStep(r: Run, p: string, u: string)
    requires Valid(r) && r.Then? && EntryGiven(r.prev, p, u) && Succeeded(r) && r.a.UpdateUserState?
    ensures EntryGiven(r, p, u)
  {
    UsersStay(r.prev);
    StepEntry(Final(r.prev), r.a, p, u);
  }

  lemma AnswerGivenStep(r: Run, p: string, u: string)
    requires Valid(r) && r.Then? && EntryGiven(r.prev, p, u) && Succeeded(r)
    requires r.a.AcceptInvitation? || r.a.DeclineInvitation? || r.a.LeaveProject?
    ensures EntryGiven(r, p, u)
  {
    UsersStay(r.prev);
    MembersUnique(r.prev);
    StepEntry(Final(r.prev), r.a, p, u);
    ActorIsListed(Final(r.prev), r.a);
  }

  lemma EntryGivenStep(r: Run, p: string, u: string)
    requires Valid(r) && r.Then? && EntryGiven(r.prev, p, u) && Succeeded(r)
    ensures EntryGiven(r, p, u)
  {
    if r.a.UpdateUserState? {
      MarkGivenStep(r, p, u);
    } else if r.a.AcceptInvitation? || r.a.DeclineInvitation? || r.a.LeaveProject? {
      AnswerGivenStep(r, p, u);
    } else {
      UsersStay(r.prev);
      StepEntry(Final(r.prev), r.a, p, u);
    }
  }

  /**
   In every run the entry of a listed user holds the role, the join time and the mark
   that the granted requests gave; answering, leaving and state changes keep the role.
   */
  lemma {:induction false} EntryIsGiven(r: Run, p: string, u: string)
    requires Valid(r)
    ensures EntryGiven(r, p, u)
  {
    if r.Then? {
      EntryIsGiven(r.prev, p, u);
      if Succeeded(r) {
        EntryGivenStep(r, p, u);
      } else {
        RejectedChangesNothing(Final(r.prev), r.a);
      }
    }
  }

  // ---- Who is an owner ----

  predicate SetsRole(a: Action, p: string, u: string) {
    match a
    case CreateProject(_, pid, _, _) => pid == p
    case SendInvitation(_, pid, uid, _, _) => pid == p && uid == u
    case UpdateMemberRole(_, pid, uid, _) => pid == p && uid == u
    case RemoveInvitation(_, pid, uid) => pid == p && uid == u
    case DeleteProject(_, pid) => pid == p
    case _ => false
  }

  /** The last granted request that set u's role in p was u's founding of p, or made u Owner at an accepted owner's hand. */
  ghost predicate MadeOwner(r: Run, p: string, u: string) {
    r.Then? &&
    if Succeeded(r) && SetsRole(r.a, p, u) then
      || (r.a.CreateProject? && r.a.caller == u)
      || ((r.a.SendInvitation? || r.a.UpdateMemberRole?) && r.a.role == Some(Owner) && OwnerOf(Final(r.prev), p, r.a.caller))
    else MadeOwner(r.prev, p, u)
  }

  lemma {:induction false} MadeOwnerIff(r: Run, p: string, u: string)
    requires Valid(r) && RoleGiven(r, p, u).Some?
    ensures RoleGiven(r, p, u) == Some(Owner) <==> MadeOwner(r, p, u)
  {
    if Succeeded(r) && SetsRole(r.a, p, u) {
      MembersUnique(r.prev);
      GrantedFrom(Final(r.prev), r.a);
    } else {
      MadeOwnerIff(r.prev, p, u);
    }
  }

  /** An accepted owner is the founder or a joined member, and was made Owner as the founder or by an accepted owner. */
  lemma OwnerHasAReason(r: Run, p: string, u: string)
    requires Valid(r)
    ensures OwnerOf(Final(r), p, u) <==> MadeOwner(r, p, u) && (Founded(r, p, u) || Joined(r, p, u))
  {
    EntryIsGiven(r, p, u);
    MembershipHasAReason(r, p, u);
    if RoleGiven(r, p, u).Some? {
      MadeOwnerIff(r, p, u);
    }
  }

  /** Only the four roles are ever stored. */
  lemma {:induction false} RolesAreValid(r: Run, p: string, u: string)
    requires Valid(r) && RoleGiven(r, p, u).Some?
    ensures RoleGiven(r, p, u).value in {Owner, Editor, Executor, Viewer}
  {
    if RoleGiven(r.prev, p, u).Some? {
      RolesAreValid(r.prev, p, u);
    }
  }

  // ---- Projects ----

  /** Some entry of u in the project has role Owner. */
  predicate OwnsEntry(q: Project, u: string) {
    exists i :: 0 <= i < |q.members| && q.members[i].userID == u && q.members[i].role == Owner
  }

  /** The project after a state change of u: u's entries marked, the flag set iff u owns, all else as it was. */
  predicate Marked(before: Project, after: Project, u: string, time: int, isDeactivate: bool) {
    && after.name == before.name && after.createdBy == before.createdBy
    && |after.members| == |before.members|
    && (forall i :: 0 <= i < |before.members| ==>
          after.members[i] == if before.members[i].userID == u then before.members[i].(deactivatedAt := Some(time)) else before.members[i])
    && after.isRemoved == if OwnsEntry(before, u) then isDeactivate else before.isRemoved
  }

  /** The user after a state change: the time is set or cleared, and the flag with it. */
  predicate Switched(before: User, after: User, time: int, isDeactivate: bool) {
    after == before.(deactivatedAt := if isDeactivate then Some(time) else None, isRemoved := isDeactivate)
  }

  /** A granted state change, on both collections. */
  lemma StateChangeMarks(db: Db, a: Action) returns (u: string)
    requires UniqueUsernames(db.users) && a.UpdateUserState? && Handle(db, a).1 == Ok
    ensures Names(db, a, u)
    ensures var db' := Handle(db, a).0;
      && db'.users.Keys == db.users.Keys && db'.projects.Keys == db.projects.Keys
      && Switched(db.users[u], db'.users[u], a.now, a.isDeactivate)
      && (forall w :: w in db.users && w != u ==> db'.users[w] == db.users[w])
      && (forall p :: p in db.projects ==> Marked(db.projects[p], db'.projects[p], u, MarkTime(a), a.isDeactivate))
  {
    u := FindUser(db, a.username).value;
  }

  /** A request other than a creation, a deletion or a state change keeps the projects' own fields. */
  lemma ProjectKept(db: Db, a: Action, p: string)
    requires Handle(db, a).1 == Ok && !a.UpdateUserState? && p in db.projects && p in Handle(db, a).0.projects
    ensures a.CreateProject? ==> a.projectID != p
    ensures var q, q' := db.projects[p], Handle(db, a).0.projects[p];
      q'.name == q.name && q'.createdBy == q.createdBy && q'.isRemoved == q.isRemoved
  {
  }

  /** Set by the last granted state change of a user who was listed as Owner then; false from the creation on. */
  ghost function FlagGiven(r: Run, p: string): bool {
    if r.Start? then false
    else if !Succeeded(r) then FlagGiven(r.prev, p)
    else if r.a.CreateProject? && r.a.projectID == p then false
    else if r.a.UpdateUserState? && exists u :: Names(Final(r.prev), r.a, u) && RoleGiven(r.prev, p, u) == Some(Owner) then r.a.isDeactivate
    else FlagGiven(r.prev, p)
  }

  /** The name and the creator of the project, from the request that created it. */
  ghost function CreationOf(r: Run, p: string): Option<(string, string)> {
    if r.Start? then None
    else if Succeeded(r) && r.a.CreateProject? && r.a.projectID == p then Some((r.a.name, r.a.caller))
    else if Succeeded(r) && r.a.DeleteProject? && r.a.projectID == p then None
    else CreationOf(r.prev, p)
  }

  lemma OwnsIffOwner(r: Run, p: string, u: string)
    requires Valid(r) && p in Final(r).projects
    ensures OwnsEntry(Final(r).projects[p], u) <==> RoleGiven(r, p, u) == Some(Owner)
  {
    var ms := Final(r).projects[p].members;
    MembersUnique(r);
    EntryIsGiven(r, p, u);
    MemberPosition(ms, u);
    if i :| 0 <= i < |ms| && ms[i].userID == u && ms[i].role == Owner {
      MemberAt(ms, i);
    }
  }

  lemma FlagStep(r: Run, p: string)
    requires Valid(r) && r.Then? && Succeeded(r) && r.a.UpdateUserState?
    requires p in Final(r.prev).projects && Final(r.prev).projects[p].isRemoved == FlagGiven(r.prev, p)
    ensures p in Final(r).projects && Final(r).projects[p].isRemoved == FlagGiven(r, p)
    ensures Final(r).projects[p].name == Final(r.prev).projects[p].name
    ensures Final(r).projects[p].createdBy == Final(r.prev).projects[p].createdBy
  {
    var db := Final(r.prev);
    UsersStay(r.prev);
    var u := StateChangeMarks(db, r.a);
    OwnsIffOwner(r.prev, p, u);
    assert forall w :: Names(db, r.a, w) ==> w == u;
    assert Marked(db.projects[p], Final(r).projects[p], u, MarkTime(r.a), r.a.isDeactivate);
  }

  ghost predicate ProjectGiven(r: Run, p: string) {
    if p in Final(r).projects then
      var q := Final(r).projects[p];
      q.isRemoved == FlagGiven(r, p) && CreationOf(r, p) == Some((q.name, q.createdBy))
    else CreationOf(r, p) == None
  }

  lemma ProjectStep(r: Run, p: string)
    requires Valid(r) && r.Then? && Succeeded(r) && !r.a.UpdateUserState? && ProjectGiven(r.prev, p)
    ensures ProjectGiven(r, p)
  {
    if p in Final(r.prev).projects && p in Final(r).projects {
      ProjectKept(Final(r.prev), r.a, p);
    }
  }

  /** In every run a project is flagged, named and attributed as the granted requests say, and exists iff created and not deleted. */
  lemma {:induction false} ProjectIsGiven(r: Run, p: string)
    requires Valid(r)
    ensures ProjectGiven(r, p)
  {
    if r.Then? {
      ProjectIsGiven(r.prev, p);
      if !Succeeded(r) {
        RejectedChangesNothing(Final(r.prev), r.a);
      } else if !r.a.UpdateUserState? {
        ProjectStep(r, p);
      } else if p in Final(r.prev).projects {
        FlagStep(r, p);
      }
    }
  }

  // ---- Exactly which requests are granted ----

  predicate Active(db: Db, u: string) {
    u in db.users && db.users[u].deactivatedAt == None
  }

  predicate PasswordChanged(db: Db, u: string) {
    u in db.users && !db.users[u].isInitialLogin
  }

  predicate KnownRole(role: Option<MemberRole>) {
    role == Some(Owner) || role == Some(Editor) || role == Some(Executor) || role == Some(Viewer)
  }

  /** The project has exactly one accepted owner. */
  ghost predicate SoleOwner(db: Db, p: string) {
    exists u :: OwnerOf(db, p, u) && forall w :: OwnerOf(db, p, w) ==> w == u
  }

  ghost predicate MayGrant(db: Db, a: Action) {
    match a
    case CreateProject(caller, pid, name, _) =>
      PasswordChanged(db, caller) && name != "" && pid !in db.projects && forall p :: p in db.projects ==> db.projects[p].name != name
    case SendInvitation(caller, pid, uid, role, _) =>
      && Active(db, caller) && PasswordChanged(db, caller) && OwnerOf(db, pid, caller)
      && KnownRole(role) && uid in db.users && Standing(db, pid, uid) != Some(Accepted)
    case AcceptInvitation(caller, pid, _) => Active(db, caller) && PasswordChanged(db, caller) && Standing(db, pid, caller) == Some(Pending)
    case DeclineInvitation(caller, pid) => Active(db, caller) && PasswordChanged(db, caller) && Standing(db, pid, caller) == Some(Pending)
    case LeaveProject(caller, pid, role) =>
      && Active(db, caller) && PasswordChanged(db, caller) && Standing(db, pid, caller) == Some(Accepted)
      && !(role == Some(Owner) && SoleOwner(db, pid))
    case RemoveInvitation(caller, pid, uid) =>
      && Active(db, caller) && PasswordChanged(db, caller) && OwnerOf(db, pid, caller) && uid != "" && uid != caller
      && Standing(db, pid, uid) != Some(Declined) && Standing(db, pid, uid) != Some(Exited)
    case UpdateMemberRole(caller, pid, uid, role) => Active(db, caller) && OwnerOf(db, pid, caller) && KnownRole(role) && uid != caller
    case DeleteProject(caller, pid) => Active(db, caller) && OwnerOf(db, pid, caller)
    case UpdateUserState(_, isDeactivate, _, fault) =>
      fault == NoFault && exists u :: Names(db, a, u) && !db.users[u].isAdmin && !(isDeactivate && db.users[u].deactivatedAt.Some?)
  }

  lemma OneIsSole(db: Db, p: string)
    requires UniqueMembers(db) && |Owners(MembersOf(db, p))| == 1
    ensures SoleOwner(db, p)
  {
    var u := Owners(MembersOf(db, p))[0].userID;
    OwnerIsListed(db, p, u);
    forall w | OwnerOf(db, p, w) ensures w == u {
      OwnerIsListed(db, p, w);
    }
  }

  lemma TwoAreNotSole(db: Db, p: string)
    requires UniqueMembers(db) && |Owners(MembersOf(db, p))| >= 2
    ensures !SoleOwner(db, p)
  {
    var owners := Owners(MembersOf(db, p));
    OwnersOnce(MembersOf(db, p));
    OwnerIsListed(db, p, owners[0].userID);
    OwnerIsListed(db, p, owners[1].userID);
  }

  lemma SoleOwnerIff(db: Db, p: string)
    requires UniqueMembers(db)
    ensures SoleOwner(db, p) <==> |Owners(MembersOf(db, p))| == 1
  {
    var n := |Owners(MembersOf(db, p))|;
    if n == 1 {
      OneIsSole(db, p);
    } else if n >= 2 {
      TwoAreNotSole(db, p);
    } else {
      forall u ensures !OwnerOf(db, p, u) {
        OwnerIsListed(db, p, u);
      }
    }
  }

  lemma OwnerIsListed(db: Db, p: string, u: string)
    requires UniqueMembers(db)
    ensures var owners := Owners(MembersOf(db, p));
      OwnerOf(db, p, u) <==> exists i :: 0 <= i < |owners| && owners[i].userID == u
  {
    var ms := MembersOf(db, p);
    var owners := Owners(ms);
    OwnersAre(ms);
    MemberPosition(ms, u);
    if OwnerOf(db, p, u) {
      assert MemberOf(ms, u).value in owners;
    }
    if i :| 0 <= i < |owners| && owners[i].userID == u {
      assert owners[i] in owners;
      var k :| 0 <= k < |ms| && ms[k] == owners[i];
      MemberAt(ms, k);
    }
  }

  lemma AllowedAsOwner(db: Db, u: string, p: string)
    requires UniqueMembers(db)
    ensures Allowed(db, u, p, {Owner}, Accepted) <==> Active(db, u) && OwnerOf(db, p, u)
  {
    AllowedIffEntry(db, u, p, {Owner}, Accepted);
  }

  lemma AllowedAsAny(r: Run, u: string, p: string, invitation: Invitation)
    requires Valid(r)
    ensures Allowed(Final(r), u, p, ANY_ROLE, invitation) <==> Active(Final(r), u) && Standing(Final(r), p, u) == Some(invitation)
  {
    MembersUnique(r);
    AllowedIffEntry(Final(r), u, p, ANY_ROLE, invitation);
    EntryIsGiven(r, p, u);
    if RoleGiven(r, p, u).Some? {
      RolesAreValid(r, p, u);
    }
  }

  lemma StateGrantedIff(db: Db, a: Action)
    requires a.UpdateUserState? && UniqueUsernames(db.users)
    ensures Handle(db, a).1 == Ok <==> MayGrant(db, a)
  {
    var found := FindUser(db, a.username);
    if found.Some? {
      forall u | Names(db, a, u) ensures u == found.value {
        FoundIsNamed(db, a.username, u);
      }
      assert Names(db, a, found.value);
    }
  }

  lemma OwnerGrantedIff(r: Run)
    requires Valid(r) && r.Then?
    requires r.a.SendInvitation? || r.a.RemoveInvitation? || r.a.UpdateMemberRole? || r.a.DeleteProject?
    ensures Succeeded(r) <==> MayGrant(Final(r.prev), r.a)
  {
    MembersUnique(r.prev);
    AllowedAsOwner(Final(r.prev), r.a.caller, r.a.projectID);
  }

  lemma MemberGrantedIff(r: Run)
    requires Valid(r) && r.Then? && (r.a.AcceptInvitation? || r.a.DeclineInvitation? || r.a.LeaveProject?)
    ensures Succeeded(r) <==> MayGrant(Final(r.prev), r.a)
  {
    var db := Final(r.prev);
    MembersUnique(r.prev);
    AllowedAsAny(r.prev, r.a.caller, r.a.projectID, if r.a.LeaveProject? then Accepted else Pending);
    SoleOwnerIff(db, r.a.projectID);
    if r.a.LeaveProject? && r.a.projectID !in db.projects {
      assert Standing(db, r.a.projectID, r.a.caller) == None;
    }
  }

  /** In every run a request is granted exactly when its condition on users, entries and owners holds. */
  lemma GrantedIff(r: Run)
    requires Valid(r) && r.Then?
    ensures Succeeded(r) <==> MayGrant(Final(r.prev), r.a)
  {
    match r.a {
      case CreateProject(_, _, _, _) =>
      case AcceptInvitation(_, _, _) => MemberGrantedIff(r);
      case DeclineInvitation(_, _) => MemberGrantedIff(r);
      case LeaveProject(_, _, _) => MemberGrantedIff(r);
      case UpdateUserState(_, _, _, _) =>
        UsersStay(r.prev);
        StateGrantedIff(Final(r.prev), r.a);
      case _ => OwnerGrantedIff(r);
    }
  }

  /** What a rejection tells the caller. */
  ghost predicate Because(db: Db, a: Action, reply: Reply) {
    match reply
    case Ok => true
    case Unauthorized => !a.CreateProject? && !a.UpdateUserState? && !(Active(db, a.caller) && EntryIn(db, a.projectID, a.caller).Some? &&
        (if a.AcceptInvitation? || a.DeclineInvitation? then Standing(db, a.projectID, a.caller) == Some(Pending)
         else if a.LeaveProject? then Standing(db, a.projectID, a.caller) == Some(Accepted)
         else OwnerOf(db, a.projectID, a.caller)))
    case InvalidRole => (a.SendInvitation? || a.UpdateMemberRole?) && !KnownRole(a.role)
    case PasswordNotUpdated => !a.UpdateUserState? && a.caller in db.users && db.users[a.caller].isInitialLogin
    case EmptyProjectName => a.CreateProject? && a.name == ""
    case ProjectExists => a.CreateProject? && exists p :: p in db.projects && db.projects[p].name == a.name
    case UserNotFound => if a.SendInvitation? then a.userID !in db.users else a.UpdateUserState? && forall u :: !Names(db, a, u)
    case UpdatingAdmin => exists u :: Names(db, a, u) && db.users[u].isAdmin
    case AlreadyDeactivated => exists u :: Names(db, a, u) && a.isDeactivate && db.users[u].deactivatedAt.Some?
    case InvalidRequest =>
      || (a.SendInvitation? && Standing(db, a.projectID, a.userID) == Some(Accepted))
      || (a.LeaveProject? && a.role == Some(Owner) && SoleOwner(db, a.projectID))
      || (a.RemoveInvitation? && (a.userID == "" || a.userID == a.caller || Standing(db, a.projectID, a.userID) in {Some(Declined), Some(Exited)}))
      || (a.UpdateMemberRole? && a.userID == a.caller)
    case ServerError => if a.UpdateUserState? then a.fault != NoFault
      else a.caller !in db.users || (a.CreateProject? && a.projectID in db.projects) || (a.LeaveProject? && a.projectID !in db.projects)
    case ProjectNotFound => false
  }

  lemma OwnerBecause(db: Db, a: Action)
    requires UniqueMembers(db) && (a.SendInvitation? || a.RemoveInvitation? || a.UpdateMemberRole? || a.DeleteProject?)
    ensures Because(db, a, Handle(db, a).1)
  {
    AllowedAsOwner(db, a.caller, a.projectID);
  }

  lemma AnswerBecause(r: Run)
    requires Valid(r) && r.Then? && (r.a.AcceptInvitation? || r.a.DeclineInvitation?)
    ensures Because(Final(r.prev), r.a, Handle(Final(r.prev), r.a).1)
  {
    AllowedAsAny(r.prev, r.a.caller, r.a.projectID, Pending);
  }

  lemma LeaveBecause(r: Run)
    requires Valid(r) && r.Then? && r.a.LeaveProject?
    ensures Because(Final(r.prev), r.a, Handle(Final(r.prev), r.a).1)
  {
    MembersUnique(r.prev);
    AllowedAsAny(r.prev, r.a.caller, r.a.projectID, Accepted);
    SoleOwnerIff(Final(r.prev), r.a.projectID);
  }

  lemma CreateBecause(db: Db, a: Action)
    requires a.CreateProject?
    ensures Because(db, a, Handle(db, a).1)
  {
  }

  /** Every reply states a reason that holds. */
  lemma RepliedBecause(r: Run)
    requires Valid(r) && r.Then?
    ensures Because(Final(r.prev), r.a, Handle(Final(r.prev), r.a).1)
  {
    match r.a {
      case CreateProject(_, _, _, _) => CreateBecause(Final(r.prev), r.a);
      case UpdateUserState(_, _, _, _) => StateBecause(Final(r.prev), r.a);
      case AcceptInvitation(_, _, _) => AnswerBecause(r);
      case DeclineInvitation(_, _) => AnswerBecause(r);
      case LeaveProject(_, _, _) => LeaveBecause(r);
      case _ =>
        MembersUnique(r.prev);
        OwnerBecause(Final(r.prev), r.a);
    }
  }

  lemma StateBecause(db: Db, a: Action)
    requires a.UpdateUserState?
    ensures Because(db, a, Handle(db, a).1)
  {
    var found := FindUser(db, a.username);
    if found.Some? {
      assert Names(db, a, found.value);
    }
  }
}
