/**
 Project membership and user activation: the request handlers of the
 authentication server, each taken as one step on the two collections.
 */
module Membership {
  import opened Wrappers
  import opened Members

  datatype User = User(
    username: string,
    isAdmin: bool,
    deactivatedAt: Option<int>,
    isRemoved: bool,
    isInitialLogin: bool)

  datatype Project = Project(name: string, members: seq<Member>, isRemoved: bool, createdBy: string)

  datatype Db = Db(users: map<string, User>, projects: map<string, Project>)

  /** Where a state-change transaction may be cut off by the database. */
  datatype Fault = NoFault | UserUpdateFails | ProjectUpdateFails | CommitFails

  datatype Action =
    | CreateProject(caller: string, projectID: string, name: string, now: int)
    | SendInvitation(caller: string, projectID: string, userID: string, role: Option<MemberRole>, now: int)
    | AcceptInvitation(caller: string, projectID: string, now: int)
    | DeclineInvitation(caller: string, projectID: string)
    | LeaveProject(caller: string, projectID: string, role: Option<MemberRole>)
    | RemoveInvitation(caller: string, projectID: string, userID: string)
    | UpdateMemberRole(caller: string, projectID: string, userID: string, role: Option<MemberRole>)
    | DeleteProject(caller: string, projectID: string)
    | UpdateUserState(username: string, isDeactivate: bool, now: int, fault: Fault)

  datatype Reply =
    | Ok
    | Unauthorized
    | InvalidRequest
    | InvalidRole
    | EmptyProjectName
    | ProjectExists
    | UserNotFound
    | ProjectNotFound
    | PasswordNotUpdated
    | UpdatingAdmin
    | AlreadyDeactivated
    | ServerError

  // ---- Checks ----

  /** RbacValidator: an active user with a matching entry in the project. */
  predicate Allowed(db: Db, uid: string, pid: string, roles: set<MemberRole>, invitation: Invitation) {
    && uid in db.users && db.users[uid].deactivatedAt.None?
    && pid in db.projects
    && exists i :: 0 <= i < |db.projects[pid].members| &&
         var m := db.projects[pid].members[i];
         m.userID == uid && m.role in roles && m.invitation == invitation
  }

  /** CheckInitialLogin, as the reply it leads to. */
  function LoginProblem(db: Db, uid: string): Reply {
    if uid !in db.users then ServerError
    else if db.users[uid].isInitialLogin then PasswordNotUpdated
    else Ok
  }

  predicate ValidRole(role: Option<MemberRole>) {
    role.Some? && role.value in ANY_ROLE
  }

  function WithMembers(db: Db, pid: string, ms: seq<Member>): Db
    requires pid in db.projects
  {
    db.(projects := db.projects[pid := db.projects[pid].(members := ms)])
  }

  // ---- Handlers ----

  function Creating(db: Db, caller: string, pid: string, name: string, now: int): (Db, Reply) {
    if LoginProblem(db, caller) != Ok then (db, LoginProblem(db, caller))
    else if name == "" then (db, EmptyProjectName)
    else if exists p :: p in db.projects && db.projects[p].name == name then (db, ProjectExists)
    else if pid in db.projects then (db, ServerError)
    else
      var founder := Member(caller, Owner, Accepted, now, None);
      (db.(projects := db.projects[pid := Project(name, [founder], false, caller)]), Ok)
  }

  function Inviting(db: Db, caller: string, pid: string, uid: string, role: Option<MemberRole>, now: int): (Db, Reply) {
    if !Allowed(db, caller, pid, {Owner}, Accepted) then (db, Unauthorized)
    else if LoginProblem(db, caller) != Ok then (db, LoginProblem(db, caller))
    else if !ValidRole(role) then (db, InvalidRole)
    else if uid !in db.users then (db, UserNotFound)
    else
      var ms := db.projects[pid].members;
      match InvitationIn(ms, uid)
      case Some(Accepted) => (db, InvalidRequest)
      case Some(_) => (WithMembers(db, pid, UpdateInvite(ms, uid, Pending, role.value, now)), Ok)
      case None => (WithMembers(db, pid, ms + [Member(uid, role.value, Pending, now, None)]), Ok)
  }

  /** Accepting and declining differ only in the invitation they store. */
  function Answering(db: Db, caller: string, pid: string, answer: Invitation, now: int): (Db, Reply) {
    if LoginProblem(db, caller) != Ok then (db, LoginProblem(db, caller))
    else if !Allowed(db, caller, pid, ANY_ROLE, Pending) then (db, Unauthorized)
    else (WithMembers(db, pid, UpdateInvite(db.projects[pid].members, caller, answer, Owner, now)), Ok)
  }

  /** The last-owner check looks at the role the request names, not at the stored one. */
  function Leaving(db: Db, caller: string, pid: string, role: Option<MemberRole>): (Db, Reply) {
    if role == Some(Owner) && pid !in db.projects then (db, ServerError)
    else if role == Some(Owner) && |Owners(db.projects[pid].members)| == 1 then (db, InvalidRequest)
    else if LoginProblem(db, caller) != Ok then (db, LoginProblem(db, caller))
    else if !Allowed(db, caller, pid, ANY_ROLE, Accepted) then (db, Unauthorized)
    else (WithMembers(db, pid, UpdateInvite(db.projects[pid].members, caller, Exited, Owner, 0)), Ok)
  }

  function Removing(db: Db, caller: string, pid: string, uid: string): (Db, Reply) {
    if uid == "" then (db, InvalidRequest)
    else if LoginProblem(db, caller) != Ok then (db, LoginProblem(db, caller))
    else if !Allowed(db, caller, pid, {Owner}, Accepted) then (db, Unauthorized)
    else if caller == uid then (db, InvalidRequest)
    else
      var ms := db.projects[pid].members;
      match InvitationIn(ms, uid)
      case None => (db, Ok)
      case Some(Declined) => (db, InvalidRequest)
      case Some(Exited) => (db, InvalidRequest)
      case Some(_) => (WithMembers(db, pid, RemoveUser(ms, uid)), Ok)
  }

  function ChangingRole(db: Db, caller: string, pid: string, uid: string, role: Option<MemberRole>): (Db, Reply) {
    if !ValidRole(role) then (db, InvalidRole)
    else if !Allowed(db, caller, pid, {Owner}, Accepted) then (db, Unauthorized)
    else if caller == uid then (db, InvalidRequest)
    else (WithMembers(db, pid, UpdateRole(db.projects[pid].members, uid, role.value)), Ok)
  }

  function Deleting(db: Db, caller: string, pid: string): (Db, Reply) {
    if !Allowed(db, caller, pid, {Owner}, Accepted) then (db, Unauthorized)
    else (db.(projects := db.projects - {pid}), Ok)
  }

  predicate OwnsByRole(p: Project, uid: string) {
    exists i :: 0 <= i < |p.members| && p.members[i].userID == uid && p.members[i].role == Owner
  }

  /** UpdateProjectState: mark the user's entries everywhere, and the projects the user owns. */
  function MarkProject(p: Project, uid: string, time: int, isDeactivate: bool): Project {
    p.(members := UpdateDeactivation(p.members, uid, time),
       isRemoved := if OwnsByRole(p, uid) then isDeactivate else p.isRemoved)
  }

  function MarkUser(u: User, time: int, isDeactivate: bool): User {
    u.(deactivatedAt := if isDeactivate then Some(time) else None, isRemoved := isDeactivate)
  }

  ghost function FindUser(db: Db, username: string): Option<string> {
    if uid :| uid in db.users && db.users[uid].username == username then Some(uid) else None
  }

  /** UpdateStateTransaction: reactivation marks the entries with time 0, as the source does. */
  ghost function ChangingState(db: Db, username: string, isDeactivate: bool, now: int, fault: Fault): (Db, Reply) {
    var found := FindUser(db, username);
    if found.None? then (db, UserNotFound)
    else if db.users[found.value].isAdmin then (db, UpdatingAdmin)
    else if isDeactivate && db.users[found.value].deactivatedAt.Some? then (db, AlreadyDeactivated)
    else if fault != NoFault then (db, ServerError)
    else
      var uid, time := found.value, if isDeactivate then now else 0;
      (Db(db.users[uid := MarkUser(db.users[uid], time, isDeactivate)],
          map p | p in db.projects :: MarkProject(db.projects[p], uid, time, isDeactivate)), Ok)
  }

  ghost function Handle(db: Db, a: Action): (Db, Reply) {
    match a
    case CreateProject(caller, pid, name, now) => Creating(db, caller, pid, name, now)
    case SendInvitation(caller, pid, uid, role, now) => Inviting(db, caller, pid, uid, role, now)
    case AcceptInvitation(caller, pid, now) => Answering(db, caller, pid, Accepted, now)
    case DeclineInvitation(caller, pid) => Answering(db, caller, pid, Declined, 0)
    case LeaveProject(caller, pid, role) => Leaving(db, caller, pid, role)
    case RemoveInvitation(caller, pid, uid) => Removing(db, caller, pid, uid)
    case UpdateMemberRole(caller, pid, uid, role) => ChangingRole(db, caller, pid, uid, role)
    case DeleteProject(caller, pid) => Deleting(db, caller, pid)
    case UpdateUserState(username, isDeactivate, now, fault) => ChangingState(db, username, isDeactivate, now, fault)
  }

  predicate UniqueUsernames(users: map<string, User>) {
    forall u, v :: u in users && v in users && users[u].username == users[v].username ==> u == v
  }

  // ---- Runs ----

  datatype Run = Start(db: Db) | Then(prev: Run, a: Action)

  /** Users exist from the start, under distinct names; projects are made by the handlers. */
  predicate Valid(r: Run) {
    match r
    case Start(db) => db.projects == map[] && UniqueUsernames(db.users)
    case Then(prev, _) => Valid(prev)
  }

  ghost function Final(r: Run): Db {
    match r
    case Start(db) => db
    case Then(prev, a) => Handle(Final(prev), a).0
  }

  ghost predicate Succeeded(r: Run)
    requires r.Then?
  {
    Handle(Final(r.prev), r.a).1 == Ok
  }

  function MembersOf(db: Db, pid: string): seq<Member> {
    if pid in db.projects then db.projects[pid].members else []
  }

  /** The stored invitation of a user in a project, if there is an entry. */
  function Standing(db: Db, pid: string, uid: string): Option<Invitation> {
    InvitationIn(MembersOf(db, pid), uid)
  }

  predicate OwnerOf(db: Db, pid: string, uid: string) {
    MemberOf(MembersOf(db, pid), uid).Some? && IsAcceptedOwner(MemberOf(MembersOf(db, pid), uid).value)
  }

  predicate UniqueMembers(db: Db) {
    forall p :: p in db.projects ==> Unique(db.projects[p].members)
  }

  predicate AllOwned(db: Db) {
    forall p :: p in db.projects ==> HasOwner(db.projects[p].members)
  }

  /** A rejected request, whatever the reason, changes no user and no project. */
  lemma RejectedChangesNothing(db: Db, a: Action)
    requires Handle(db, a).1 != Ok
    ensures Handle(db, a).0 == db
  {
  }

  // ---- No user has two entries in one project ----

  lemma OneListUnique(db: Db, pid: string, ms: seq<Member>)
    requires UniqueMembers(db) && pid in db.projects && Unique(ms)
    ensures UniqueMembers(WithMembers(db, pid, ms))
  {
  }

  lemma InvitingUnique(db: Db, a: Action)
    requires UniqueMembers(db) && a.SendInvitation? && Handle(db, a).1 == Ok
    ensures UniqueMembers(Handle(db, a).0)
  {
    var ms := db.projects[a.projectID].members;
    MemberPosition(ms, a.userID);
    UpdateUserUnique(ms, a.userID, (m: Member) => SetInvite(m, Pending, a.role.value, a.now));
    if MemberOf(ms, a.userID).Some? {
      OneListUnique(db, a.projectID, UpdateInvite(ms, a.userID, Pending, a.role.value, a.now));
    } else {
      OneListUnique(db, a.projectID, ms + [Member(a.userID, a.role.value, Pending, a.now, None)]);
    }
  }

  lemma AnsweringUnique(db: Db, caller: string, pid: string, answer: Invitation, now: int)
    requires UniqueMembers(db) && Answering(db, caller, pid, answer, now).1 == Ok
    ensures UniqueMembers(Answering(db, caller, pid, answer, now).0)
  {
    OneListUnique(db, pid, UpdateInvite(db.projects[pid].members, caller, answer, Owner, now));
  }

  lemma ManagingUnique(db: Db, a: Action)
    requires UniqueMembers(db) && Handle(db, a).1 == Ok && (a.RemoveInvitation? || a.UpdateMemberRole? || a.LeaveProject?)
    ensures UniqueMembers(Handle(db, a).0)
  {
    var ms := db.projects[a.projectID].members;
    match a {
      case RemoveInvitation(_, pid, uid) =>
        RemoveUserUnique(ms, uid);
        OneListUnique(db, pid, RemoveUser(ms, uid));
      case UpdateMemberRole(_, pid, uid, role) => OneListUnique(db, pid, UpdateRole(ms, uid, role.value));
      case LeaveProject(caller, pid, _) => OneListUnique(db, pid, UpdateInvite(ms, caller, Exited, Owner, 0));
    }
  }

  lemma StepUnique(db: Db, a: Action)
    requires UniqueMembers(db)
    ensures UniqueMembers(Handle(db, a).0)
  {
    if Handle(db, a).1 != Ok {
      RejectedChangesNothing(db, a);
    } else {
      match a {
        case SendInvitation(_, _, _, _, _) => InvitingUnique(db, a);
        case AcceptInvitation(caller, pid, now) => AnsweringUnique(db, caller, pid, Accepted, now);
        case DeclineInvitation(caller, pid) => AnsweringUnique(db, caller, pid, Declined, 0);
        case LeaveProject(_, _, _) => ManagingUnique(db, a);
        case RemoveInvitation(_, _, _) => ManagingUnique(db, a);
        case UpdateMemberRole(_, _, _, _) => ManagingUnique(db, a);
        case _ =>
      }
    }
  }

  /** In every run, no project ever has two entries for one user. */
  lemma {:induction false} MembersUnique(r: Run)
    requires Valid(r)
    ensures UniqueMembers(Final(r))
  {
    if r.Then? {
      MembersUnique(r.prev);
      StepUnique(Final(r.prev), r.a);
    }
  }

  // ---- How an invitation may change ----

  lemma AllowedMember(db: Db, uid: string, pid: string, roles: set<MemberRole>, invitation: Invitation)
    requires UniqueMembers(db) && Allowed(db, uid, pid, roles, invitation)
    ensures var m := MemberOf(MembersOf(db, pid), uid);
      m.Some? && m.value.role in roles && m.value.invitation == invitation
  {
    var ms := db.projects[pid].members;
    var i :| 0 <= i < |ms| && ms[i].userID == uid && ms[i].role in roles && ms[i].invitation == invitation;
    MemberAt(ms, i);
  }

  /** With one entry per user, the check looks at that entry. */
  lemma AllowedIffEntry(db: Db, uid: string, pid: string, roles: set<MemberRole>, invitation: Invitation)
    requires UniqueMembers(db)
    ensures Allowed(db, uid, pid, roles, invitation) <==>
      && uid in db.users && db.users[uid].deactivatedAt.None?
      && MemberOf(MembersOf(db, pid), uid).Some?
      && MemberOf(MembersOf(db, pid), uid).value.role in roles
      && MemberOf(MembersOf(db, pid), uid).value.invitation == invitation
  {
    MemberPosition(MembersOf(db, pid), uid);
    if Allowed(db, uid, pid, roles, invitation) {
      AllowedMember(db, uid, pid, roles, invitation);
    }
  }

  /** Requests that can touch the standing of user u in project p. */
  predicate Concerns(a: Action, p: string, u: string) {
    match a
    case CreateProject(_, pid, _, _) => pid == p
    case SendInvitation(_, pid, uid, _, _) => pid == p && uid == u
    case AcceptInvitation(caller, pid, _) => pid == p && caller == u
    case DeclineInvitation(caller, pid) => pid == p && caller == u
    case LeaveProject(caller, pid, _) => pid == p && caller == u
    case RemoveInvitation(_, pid, uid) => pid == p && uid == u
    case DeleteProject(_, pid) => pid == p
    case _ => false
  }

  /** What a granted request that concerns u leaves u with. */
  function Granted(a: Action, u: string): Option<Invitation> {
    match a
    case CreateProject(caller, _, _, _) => if caller == u then Some(Accepted) else None
    case SendInvitation(_, _, _, _, _) => Some(Pending)
    case AcceptInvitation(_, _, _) => Some(Accepted)
    case DeclineInvitation(_, _) => Some(Declined)
    case LeaveProject(_, _, _) => Some(Exited)
    case _ => None
  }

  lemma InviteUpdate(ms: seq<Member>, w: string, invitation: Invitation, role: MemberRole, now: int, u: string)
    ensures InvitationIn(UpdateInvite(ms, w, invitation, role, now), u)
         == if w == u && MemberOf(ms, u).Some? then Some(invitation) else InvitationIn(ms, u)
  {
    UpdateUserAt(ms, w, (m: Member) => SetInvite(m, invitation, role, now), u);
  }

  /** Replacing one project's member list by one of a known standing. */
  lemma OneProject(db: Db, pid: string, ms: seq<Member>, p: string, u: string)
    requires pid in db.projects
    ensures Standing(WithMembers(db, pid, ms), p, u) == if p == pid then InvitationIn(ms, u) else Standing(db, p, u)
  {
  }

  lemma InvitingStep(db: Db, a: Action, p: string, u: string)
    requires a.SendInvitation? && Handle(db, a).1 == Ok
    ensures Standing(Handle(db, a).0, p, u) == if Concerns(a, p, u) then Granted(a, u) else Standing(db, p, u)
  {
    var ms := db.projects[a.projectID].members;
    var updated := UpdateInvite(ms, a.userID, Pending, a.role.value, a.now);
    var added := Member(a.userID, a.role.value, Pending, a.now, None);
    InviteUpdate(ms, a.userID, Pending, a.role.value, a.now, u);
    AppendAt(ms, added, u);
    OneProject(db, a.projectID, if MemberOf(ms, a.userID).Some? then updated else ms + [added], p, u);
  }

  lemma AnsweringStep(db: Db, caller: string, pid: string, answer: Invitation, now: int, p: string, u: string)
    requires UniqueMembers(db) && Answering(db, caller, pid, answer, now).1 == Ok
    ensures Standing(Answering(db, caller, pid, answer, now).0, p, u)
         == if p == pid && u == caller then Some(answer) else Standing(db, p, u)
  {
    AllowedMember(db, caller, pid, ANY_ROLE, Pending);
    InviteUpdate(db.projects[pid].members, caller, answer, Owner, now, u);
  }

  lemma LeavingStep(db: Db, caller: string, pid: string, role: Option<MemberRole>, p: string, u: string)
    requires UniqueMembers(db) && Leaving(db, caller, pid, role).1 == Ok
    ensures Standing(Leaving(db, caller, pid, role).0, p, u)
         == if p == pid && u == caller then Some(Exited) else Standing(db, p, u)
  {
    AllowedMember(db, caller, pid, ANY_ROLE, Accepted);
    InviteUpdate(db.projects[pid].members, caller, Exited, Owner, 0, u);
  }

  lemma ManagingStep(db: Db, a: Action, p: string, u: string)
    requires (a.RemoveInvitation? || a.UpdateMemberRole?) && Handle(db, a).1 == Ok
    ensures Standing(Handle(db, a).0, p, u) == if Concerns(a, p, u) then Granted(a, u) else Standing(db, p, u)
  {
    var ms := db.projects[a.projectID].members;
    if a.RemoveInvitation? {
      RemoveUserAt(ms, a.userID, u);
    } else {
      UpdateUserAt(ms, a.userID, (m: Member) => m.(role := a.role.value), u);
    }
  }

  lemma MembershipStep(db: Db, a: Action, p: string, u: string)
    requires UniqueMembers(db) && Handle(db, a).1 == Ok && !a.UpdateUserState?
    ensures Standing(Handle(db, a).0, p, u) == if Concerns(a, p, u) then Granted(a, u) else Standing(db, p, u)
  {
    match a {
      case CreateProject(caller, pid, _, now) =>
        var founder := Member(caller, Owner, Accepted, now, None);
        AppendAt([], founder, u);
        assert [] + [founder] == Handle(db, a).0.projects[pid].members;
      case SendInvitation(_, _, _, _, _) => InvitingStep(db, a, p, u);
      case AcceptInvitation(caller, pid, now) => AnsweringStep(db, caller, pid, Accepted, now, p, u);
      case DeclineInvitation(caller, pid) => AnsweringStep(db, caller, pid, Declined, 0, p, u);
      case LeaveProject(caller, pid, role) => LeavingStep(db, caller, pid, role, p, u);
      case RemoveInvitation(_, _, _) => ManagingStep(db, a, p, u);
      case UpdateMemberRole(_, _, _, _) => ManagingStep(db, a, p, u);
      case _ =>
    }
  }

  lemma StateChangeStep(db: Db, a: Action, p: string, u: string)
    requires a.UpdateUserState?
    ensures Standing(Handle(db, a).0, p, u) == Standing(db, p, u)
  {
    if Handle(db, a).1 == Ok && p in db.projects {
      var uid, time := FindUser(db, a.username).value, if a.isDeactivate then a.now else 0;
      UpdateUserAt(db.projects[p].members, uid, (m: Member) => m.(deactivatedAt := Some(time)), u);
    }
  }

  /** A granted request gives exactly the users it concerns the standing it is meant to give. */
  lemma StepInvitation(db: Db, a: Action, p: string, u: string)
    requires UniqueMembers(db) && Handle(db, a).1 == Ok
    ensures Standing(Handle(db, a).0, p, u) == if Concerns(a, p, u) then Granted(a, u) else Standing(db, p, u)
  {
    if a.UpdateUserState? {
      StateChangeStep(db, a, p, u);
    } else {
      MembershipStep(db, a, p, u);
    }
  }

  /**
   The only way in is an invitation by an accepted owner, then an answer by the
   invited user: Accepted and Declined come only from Pending, Exited only from
   Accepted, a (new) Pending never replaces an Accepted entry.
   */
  lemma GrantedFrom(db: Db, a: Action)
    requires UniqueMembers(db) && Handle(db, a).1 == Ok
    ensures a.AcceptInvitation? || a.DeclineInvitation? ==> Standing(db, a.projectID, a.caller) == Some(Pending)
    ensures a.LeaveProject? ==> Standing(db, a.projectID, a.caller) == Some(Accepted)
    ensures a.SendInvitation? ==> Standing(db, a.projectID, a.userID) != Some(Accepted)
    ensures a.SendInvitation? || a.RemoveInvitation? || a.UpdateMemberRole? || a.DeleteProject? ==>
      OwnerOf(db, a.projectID, a.caller)
  {
    if a.AcceptInvitation? || a.DeclineInvitation? {
      AllowedMember(db, a.caller, a.projectID, ANY_ROLE, Pending);
    } else if a.LeaveProject? {
      AllowedMember(db, a.caller, a.projectID, ANY_ROLE, Accepted);
    } else if a.SendInvitation? || a.RemoveInvitation? || a.UpdateMemberRole? || a.DeleteProject? {
      AllowedMember(db, a.caller, a.projectID, {Owner}, Accepted);
    }
  }

  /** Every change of a stored invitation, over every step of every run. */
  lemma InvitationChanges(r: Run, p: string, u: string)
    requires Valid(r) && r.Then?
    ensures var before, after := Standing(Final(r.prev), p, u), Standing(Final(r), p, u);
      before != after ==>
        && Concerns(r.a, p, u)
        && (after == Some(Accepted) ==> (r.a.AcceptInvitation? && before == Some(Pending)) || r.a.CreateProject?)
        && (after == Some(Declined) ==> r.a.DeclineInvitation? && before == Some(Pending))
        && (after == Some(Exited) ==> r.a.LeaveProject? && before == Some(Accepted))
        && (after == Some(Pending) ==> r.a.SendInvitation? && before != Some(Accepted) && OwnerOf(Final(r.prev), p, r.a.caller))
        && (after == None ==> (r.a.RemoveInvitation? || r.a.DeleteProject?) && OwnerOf(Final(r.prev), p, r.a.caller))
  {
    var db := Final(r.prev);
    MembersUnique(r.prev);
    if Succeeded(r) {
      StepInvitation(db, r.a, p, u);
      GrantedFrom(db, r.a);
    } else {
      RejectedChangesNothing(db, r.a);
    }
  }

  // ---- The stored invitation is what the granted requests say ----

  /** The last granted request about u in p was an invitation, sent by an accepted owner. */
  ghost predicate OpenInvite(r: Run, p: string, u: string) {
    r.Then? &&
    if Succeeded(r) && Concerns(r.a, p, u) then r.a.SendInvitation? && OwnerOf(Final(r.prev), p, r.a.caller)
    else OpenInvite(r.prev, p, u)
  }

  /** The last granted request about u in p was u's acceptance of such an invitation. */
  ghost predicate Joined(r: Run, p: string, u: string) {
    r.Then? &&
    if Succeeded(r) && Concerns(r.a, p, u) then r.a.AcceptInvitation? && OpenInvite(r.prev, p, u)
    else Joined(r.prev, p, u)
  }

  /** The last granted request about u in p was u's creation of p. */
  ghost predicate Founded(r: Run, p: string, u: string) {
    r.Then? &&
    if Succeeded(r) && Concerns(r.a, p, u) then r.a.CreateProject? && r.a.caller == u
    else Founded(r.prev, p, u)
  }

  /**
   Membership is exactly what the requests account for: a user is Pending iff an
   accepted owner's invitation is open, and Accepted iff the user founded the
   project or accepted such an invitation and has not left or been removed since.
   */
  lemma {:induction false} MembershipHasAReason(r: Run, p: string, u: string)
    requires Valid(r)
    ensures Standing(Final(r), p, u) == Some(Pending) <==> OpenInvite(r, p, u)
    ensures Standing(Final(r), p, u) == Some(Accepted) <==> Founded(r, p, u) || Joined(r, p, u)
  {
    if r.Then? {
      var db := Final(r.prev);
      MembershipHasAReason(r.prev, p, u);
      MembersUnique(r.prev);
      if Succeeded(r) {
        StepInvitation(db, r.a, p, u);
        GrantedFrom(db, r.a);
      } else {
        RejectedChangesNothing(db, r.a);
      }
    }
  }

  // ---- A project keeps an accepted owner ----

  predicate HasOtherOwner(ms: seq<Member>, u: string) {
    exists i :: 0 <= i < |ms| && IsAcceptedOwner(ms[i]) && ms[i].userID != u
  }

  lemma UpdateKeepsOther(ms: seq<Member>, u: string, f: Member -> Member)
    requires HasOtherOwner(ms, u)
    ensures HasOwner(UpdateUser(ms, u, f))
  {
    var i :| 0 <= i < |ms| && IsAcceptedOwner(ms[i]) && ms[i].userID != u;
    assert UpdateUser(ms, u, f)[i] == ms[i];
  }

  lemma OwnerIsOther(ms: seq<Member>, u: string)
    requires Unique(ms) && HasOwner(ms) && InvitationIn(ms, u) != Some(Accepted)
    ensures HasOtherOwner(ms, u)
  {
    var i :| 0 <= i < |ms| && IsAcceptedOwner(ms[i]);
    if ms[i].userID == u {
      MemberAt(ms, i);
    }
  }

  lemma FoundOwnerIsOther(ms: seq<Member>, w: string, u: string)
    requires u != w && MemberOf(ms, w).Some? && IsAcceptedOwner(MemberOf(ms, w).value)
    ensures HasOtherOwner(ms, u)
  {
    MemberPosition(ms, w);
  }

  lemma LeavingKeepsOwner(ms: seq<Member>, u: string)
    requires Unique(ms)
    ensures HasOwner(UpdateInvite(ms, u, Exited, Owner, 0)) <==> HasOtherOwner(ms, u)
  {
    var after := UpdateInvite(ms, u, Exited, Owner, 0);
    if HasOtherOwner(ms, u) {
      UpdateKeepsOther(ms, u, (m: Member) => SetInvite(m, Exited, Owner, 0));
    }
    if HasOwner(after) {
      var i :| 0 <= i < |after| && IsAcceptedOwner(after[i]);
      assert ms[i] == after[i] && ms[i].userID != u;
    }
  }

  /** The caller is the project's only accepted owner and does not name that role. */
  predicate Strands(db: Db, a: Action) {
    a.LeaveProject? && a.role != Some(Owner) && a.projectID in db.projects &&
    LoginProblem(db, a.caller) == Ok && db.users[a.caller].deactivatedAt.None? &&
    var owners := Owners(db.projects[a.projectID].members);
    |owners| == 1 && owners[0].userID == a.caller
  }

  lemma LeaveStep(db: Db, a: Action)
    requires UniqueMembers(db) && AllOwned(db) && a.LeaveProject?
    ensures AllOwned(Handle(db, a).0) <==> !Strands(db, a)
  {
    if a.projectID in db.projects {
      var ms := db.projects[a.projectID].members;
      OtherOwner(ms, a.caller);
      OwnersAre(ms);
      LeavingKeepsOwner(ms, a.caller);
      if Strands(db, a) {
        var owner := Owners(ms)[0];
        assert owner in Owners(ms);
        var i :| 0 <= i < |ms| && ms[i] == owner;
        assert Allowed(db, a.caller, a.projectID, ANY_ROLE, Accepted);
        assert a.projectID in Handle(db, a).0.projects;
      }
    }
  }

  lemma InviteOrAnswerStep(db: Db, a: Action)
    requires UniqueMembers(db) && AllOwned(db) && Handle(db, a).1 == Ok
    requires a.SendInvitation? || a.AcceptInvitation? || a.DeclineInvitation?
    ensures HasOwner(Handle(db, a).0.projects[a.projectID].members)
  {
    GrantedFrom(db, a);
    var ms := db.projects[a.projectID].members;
    var u := if a.SendInvitation? then a.userID else a.caller;
    OwnerIsOther(ms, u);
    match a {
      case AcceptInvitation(_, _, now) => UpdateKeepsOther(ms, u, (m: Member) => SetInvite(m, Accepted, Owner, now));
      case DeclineInvitation(_, _) => UpdateKeepsOther(ms, u, (m: Member) => SetInvite(m, Declined, Owner, 0));
      case SendInvitation(_, _, _, role, now) =>
        UpdateKeepsOther(ms, u, (m: Member) => SetInvite(m, Pending, role.value, now));
        var i :| 0 <= i < |ms| && IsAcceptedOwner(ms[i]);
        assert (ms + [Member(u, role.value, Pending, now, None)])[i] == ms[i];
    }
  }

  lemma RemoveKeepsOther(ms: seq<Member>, u: string)
    requires Unique(ms) && HasOtherOwner(ms, u)
    ensures HasOwner(RemoveUser(ms, u))
  {
    var i :| 0 <= i < |ms| && IsAcceptedOwner(ms[i]) && ms[i].userID != u;
    RemoveUserUnique(ms, u);
    assert ms[i] in RemoveUser(ms, u);
  }

  lemma OwnerActsStep(db: Db, a: Action)
    requires UniqueMembers(db) && AllOwned(db) && Handle(db, a).1 == Ok && (a.RemoveInvitation? || a.UpdateMemberRole?)
    ensures HasOwner(Handle(db, a).0.projects[a.projectID].members)
  {
    GrantedFrom(db, a);
    var ms := db.projects[a.projectID].members;
    FoundOwnerIsOther(ms, a.caller, a.userID);
    if a.RemoveInvitation? {
      RemoveKeepsOther(ms, a.userID);
    } else {
      UpdateKeepsOther(ms, a.userID, (m: Member) => m.(role := a.role.value));
    }
  }

  lemma StateChangeKeepsOwner(db: Db, a: Action)
    requires AllOwned(db) && a.UpdateUserState?
    ensures AllOwned(Handle(db, a).0)
  {
    var db' := Handle(db, a).0;
    forall p | p in db'.projects ensures HasOwner(db'.projects[p].members) {
      var ms := db.projects[p].members;
      var i :| 0 <= i < |ms| && IsAcceptedOwner(ms[i]);
      assert IsAcceptedOwner(db'.projects[p].members[i]);
    }
  }

  lemma OthersKeepOwner(db: Db, a: Action)
    requires UniqueMembers(db) && AllOwned(db) && Handle(db, a).1 == Ok
    requires !a.LeaveProject? && !a.UpdateUserState? && !a.DeleteProject? && !a.CreateProject?
    ensures AllOwned(Handle(db, a).0)
  {
    if a.RemoveInvitation? || a.UpdateMemberRole? {
      OwnerActsStep(db, a);
    } else {
      InviteOrAnswerStep(db, a);
    }
  }

  lemma CreateIsOwned(db: Db, a: Action)
    requires AllOwned(db) && a.CreateProject?
    ensures AllOwned(Handle(db, a).0)
  {
    if Handle(db, a).1 == Ok {
      assert IsAcceptedOwner(Handle(db, a).0.projects[a.projectID].members[0]);
    }
  }

  /** From a state in which every project is owned, exactly the stranding leave breaks that. */
  lemma StepOwned(db: Db, a: Action)
    requires UniqueMembers(db) && AllOwned(db)
    ensures AllOwned(Handle(db, a).0) <==> !Strands(db, a)
  {
    if a.LeaveProject? {
      LeaveStep(db, a);
    } else if Handle(db, a).1 != Ok {
      RejectedChangesNothing(db, a);
    } else if a.CreateProject? {
      CreateIsOwned(db, a);
    } else if a.UpdateUserState? {
      StateChangeKeepsOwner(db, a);
    } else if !a.DeleteProject? {
      OthersKeepOwner(db, a);
    }
  }

  ghost predicate AlwaysOwned(r: Run) {
    AllOwned(Final(r)) && (r.Then? ==> AlwaysOwned(r.prev))
  }

  ghost predicate NeverStrands(r: Run) {
    r.Then? ==> NeverStrands(r.prev) && !Strands(Final(r.prev), r.a)
  }

  /** Every leave request of the run names the role the caller is stored with. */
  ghost predicate LeavesNameStoredRole(r: Run) {
    r.Then? ==>
      && LeavesNameStoredRole(r.prev)
      && (r.a.LeaveProject? ==>
            var m := MemberOf(MembersOf(Final(r.prev), r.a.projectID), r.a.caller);
            m.Some? ==> r.a.role == Some(m.value.role))
  }

  /** Every project has an accepted owner throughout the run iff no sole owner leaves unnamed. */
  lemma {:induction false} OwnedIffNeverStranded(r: Run)
    requires Valid(r)
    ensures AlwaysOwned(r) <==> NeverStrands(r)
  {
    if r.Then? {
      OwnedIffNeverStranded(r.prev);
      MembersUnique(r.prev);
      if AlwaysOwned(r.prev) {
        StepOwned(Final(r.prev), r.a);
      }
    }
  }

  lemma {:induction false} NamingTheRoleIsEnough(r: Run)
    requires Valid(r) && LeavesNameStoredRole(r)
    ensures NeverStrands(r)
  {
    if r.Then? {
      NamingTheRoleIsEnough(r.prev);
      var db := Final(r.prev);
      MembersUnique(r.prev);
      if Strands(db, r.a) {
        var ms := db.projects[r.a.projectID].members;
        OwnersAre(ms);
        assert Owners(ms)[0] in Owners(ms);
        var i :| 0 <= i < |ms| && ms[i] == Owners(ms)[0];
        MemberAt(ms, i);
      }
    }
  }

  /**
   If every leave request names the caller's stored role, every project keeps an
   accepted owner, and every member list stays free of duplicates, until deletion.
   */
  lemma ProjectsStayOwned(r: Run)
    requires Valid(r) && LeavesNameStoredRole(r)
    ensures AlwaysOwned(r) && UniqueMembers(Final(r))
  {
    NamingTheRoleIsEnough(r);
    OwnedIffNeverStranded(r);
    MembersUnique(r);
  }

  /** The hypothesis is needed: a founder who leaves without naming a role strands the project. */
  lemma UnnamedLeaveStrands(u: string, p: string, name: string)
    requires name != ""
    ensures var users := map[u := User(u, false, None, false, false)];
      var r := Then(Then(Start(Db(users, map[])), CreateProject(u, p, name, 0)), LeaveProject(u, p, None));
      Valid(r) && Succeeded(r) && p in Final(r).projects && !HasOwner(Final(r).projects[p].members)
  {
    var db := Db(map[u := User(u, false, None, false, false)], map[]);
    var founder := Member(u, Owner, Accepted, 0, None);
    var db1 := Handle(db, CreateProject(u, p, name, 0)).0;
    assert db1.projects == map[p := Project(name, [founder], false, u)];
    assert db1.projects[p].members[0] == founder;
    assert Allowed(db1, u, p, ANY_ROLE, Accepted);
    LeavingKeepsOwner([founder], u);
  }

  // ---- Deactivation ----

  /**
   The time of the first granted deactivation since the last granted reactivation,
   read off the requests alone.
   */
  ghost function DeactivatedSince(r: Run, u: string): Option<int> {
    match r
    case Start(db) => if u in db.users then db.users[u].deactivatedAt else None
    case Then(prev, a) =>
      var before := DeactivatedSince(prev, u);
      if !a.UpdateUserState? || !Succeeded(r) || u !in Final(prev).users || Final(prev).users[u].username != a.username then before
      else if !a.isDeactivate then None
      else if before.Some? then before
      else Some(a.now)
  }

  lemma RequestsKeepUsers(db: Db, a: Action)
    requires !a.UpdateUserState? || Handle(db, a).1 != Ok
    ensures Handle(db, a).0.users == db.users
  {
    if Handle(db, a).1 != Ok {
      RejectedChangesNothing(db, a);
    }
  }

  lemma FoundIsNamed(db: Db, username: string, u: string)
    requires UniqueUsernames(db.users) && u in db.users && FindUser(db, username).Some?
    ensures u == FindUser(db, username).value <==> db.users[u].username == username
  {
  }

  lemma UsersKeep(db: Db, a: Action)
    ensures Handle(db, a).0.users.Keys == db.users.Keys
  {
    if !a.UpdateUserState? || Handle(db, a).1 != Ok {
      RequestsKeepUsers(db, a);
    }
  }

  /** Only a granted state change touches a user, and only the one it names. */
  lemma UserChange(db: Db, a: Action, u: string)
    requires UniqueUsernames(db.users) && u in db.users
    ensures var db' := Handle(db, a).0;
      && db'.users.Keys == db.users.Keys
      && db'.users[u].username == db.users[u].username
      && db'.users[u].deactivatedAt
           == if a.UpdateUserState? && Handle(db, a).1 == Ok && db.users[u].username == a.username
              then (if a.isDeactivate then Some(a.now) else None)
              else db.users[u].deactivatedAt
  {
    if a.UpdateUserState? && Handle(db, a).1 == Ok {
      FoundIsNamed(db, a.username, u);
    } else {
      RequestsKeepUsers(db, a);
    }
  }

  lemma {:induction false} UsersStay(r: Run)
    requires Valid(r)
    ensures UniqueUsernames(Final(r).users)
  {
    if r.Then? {
      var db := Final(r.prev);
      UsersStay(r.prev);
      UsersKeep(db, r.a);
      forall u | u in db.users ensures Final(r).users[u].username == db.users[u].username {
        UserChange(db, r.a, u);
      }
    }
  }

  lemma NoSecondDeactivation(db: Db, a: Action, u: string)
    requires UniqueUsernames(db.users) && u in db.users && a.UpdateUserState? && a.isDeactivate
    requires db.users[u].username == a.username && db.users[u].deactivatedAt.Some?
    ensures Handle(db, a).1 != Ok
  {
  }

  /** The stored time is that first time: a second deactivation never overwrites it. */
  lemma {:induction false} FirstDeactivationStands(r: Run, u: string)
    requires Valid(r) && u in Final(r).users
    ensures Final(r).users[u].deactivatedAt == DeactivatedSince(r, u)
  {
    if r.Then? {
      var db := Final(r.prev);
      UsersStay(r.prev);
      UsersKeep(db, r.a);
      UserChange(db, r.a, u);
      FirstDeactivationStands(r.prev, u);
      if r.a.UpdateUserState? && r.a.isDeactivate && db.users[u].username == r.a.username && db.users[u].deactivatedAt.Some? {
        NoSecondDeactivation(db, r.a, u);
      }
    }
  }

  /** From a granted deactivation until the matching reactivation the user passes no check anywhere. */
  lemma DeactivatedIsRejected(r: Run, u: string, p: string, roles: set<MemberRole>, invitation: Invitation)
    requires Valid(r) && DeactivatedSince(r, u).Some?
    ensures !Allowed(Final(r), u, p, roles, invitation)
  {
    if u in Final(r).users {
      FirstDeactivationStands(r, u);
    }
  }

  /** No state change of an administrator, and none that hits a fault, is ever granted. */
  lemma AdminsAreUntouchable(db: Db, a: Action)
    requires a.UpdateUserState? && UniqueUsernames(db.users)
    requires a.fault != NoFault || exists uid :: uid in db.users && db.users[uid].username == a.username && db.users[uid].isAdmin
    ensures Handle(db, a).1 != Ok && Handle(db, a).0 == db
  {
  }
}
