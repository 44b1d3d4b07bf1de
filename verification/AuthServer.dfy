/**
 The handlers as code that reads, checks and then writes the stored collections.
 The server carries the requests it has answered, so that each handler promises
 what the theorems of Membership say of the run so far.
 */
module AuthServer {
  import opened Wrappers
  import opened Members
  import opened Membership
  import opened MembershipRecords

  /** Nothing but user u's entry in project p has changed. */
  ghost predicate OnlyChanges(before: Db, after: Db, p: string, u: string) {
    && after.users == before.users && after.projects.Keys == before.projects.Keys
    && (forall q :: q in before.projects ==>
          after.projects[q].(members := before.projects[q].members) == before.projects[q])
    && (forall q, w :: (q != p || w != u) ==> EntryIn(after, q, w) == EntryIn(before, q, w))
  }

  /**
   The answer to a request, and what every answer keeps: a request is granted iff it
   may be, a rejection has its reason and changes nothing, no user is listed twice,
   and a project that had an accepted owner keeps one, unless its sole owner left
   without naming that role.
   */
  ghost predicate Orderly(r: Run, reply: Reply)
    requires Membership.Valid(r) && r.Then?
  {
    && reply == Handle(Final(r.prev), r.a).1
    && (reply == Ok <==> MayGrant(Final(r.prev), r.a)) && Because(Final(r.prev), r.a, reply)
    && UniqueMembers(Final(r))
    && (reply != Ok ==> Final(r) == Final(r.prev))
    && (AlwaysOwned(r.prev) ==> (AlwaysOwned(r) <==> !Strands(Final(r.prev), r.a)))
  }

  /**
   Both collections after a state change of u: u's time and flag are set or cleared, u's
   entries carry the time, or 0 on reactivation, the projects u owns carry the flag, and
   nothing else has changed.
   */
  ghost predicate SwitchedState(before: Db, after: Db, u: string, now: int, isDeactivate: bool) {
    && u in before.users && after.users.Keys == before.users.Keys && after.projects.Keys == before.projects.Keys
    && Switched(before.users[u], after.users[u], now, isDeactivate)
    && (forall w :: w in before.users && w != u ==> after.users[w] == before.users[w])
    && (forall p :: p in before.projects ==>
          Marked(before.projects[p], after.projects[p], u, if isDeactivate then now else 0, isDeactivate))
  }

  predicate PlainUser(db: Db, username: string, u: string) {
    u in db.users && db.users[u].username == username && !db.users[u].isAdmin
  }

  /** The user of that name, who is no administrator, has been switched. */
  ghost predicate SwitchesOne(before: Db, after: Db, username: string, now: int, isDeactivate: bool) {
    exists u :: PlainUser(before, username, u) && SwitchedState(before, after, u, now, isDeactivate)
  }

  lemma StepIsOrderly(r: Run)
    requires Membership.Valid(r) && r.Then?
    ensures Orderly(r, Handle(Final(r.prev), r.a).1)
  {
    MembersUnique(r.prev);
    MembersUnique(r);
    GrantedIff(r);
    RepliedBecause(r);
    if Handle(Final(r.prev), r.a).1 != Ok {
      RejectedChangesNothing(Final(r.prev), r.a);
    }
    if AlwaysOwned(r.prev) {
      StepOwned(Final(r.prev), r.a);
    }
  }

  /** The request is about one user's entry in one project. */
  predicate About(a: Action, p: string, u: string) {
    && !a.CreateProject? && !a.DeleteProject? && !a.UpdateUserState? && a.projectID == p
    && u == if a.SendInvitation? || a.RemoveInvitation? || a.UpdateMemberRole? then a.userID else a.caller
  }

  lemma ProjectsKept(db: Db, a: Action, p: string, u: string)
    requires About(a, p, u) && Handle(db, a).1 == Ok
    ensures var db' := Handle(db, a).0;
      && db'.users == db.users && db'.projects.Keys == db.projects.Keys
      && forall q :: q in db.projects ==> db'.projects[q].(members := db.projects[q].members) == db.projects[q]
  {
    forall q | q in db.projects && q in Handle(db, a).0.projects
      ensures Handle(db, a).0.projects[q].(members := db.projects[q].members) == db.projects[q]
    {
      ProjectKept(db, a, q);
    }
  }

  /** A granted request about one user's entry changes that entry as it should, and nothing else. */
  lemma StepChangesOne(r: Run, p: string, u: string)
    requires Membership.Valid(r) && r.Then? && Succeeded(r) && About(r.a, p, u)
    ensures OnlyChanges(Final(r.prev), Final(r), p, u)
    ensures EntryIn(Final(r), p, u) == EntryAfter(Final(r.prev), r.a, p, u)
  {
    UsersStay(r.prev);
    ProjectsKept(Final(r.prev), r.a, p, u);
    StepEntry(Final(r.prev), r.a, p, u);
    forall q, w | q != p || w != u ensures EntryIn(Final(r), q, w) == EntryIn(Final(r.prev), q, w) {
      StepEntry(Final(r.prev), r.a, q, w);
    }
  }

  /** Who made a granted request, and from which standing. */
  lemma GrantedInRun(r: Run)
    requires Membership.Valid(r) && r.Then? && Succeeded(r)
    ensures var db, a := Final(r.prev), r.a;
      && (a.AcceptInvitation? || a.DeclineInvitation? ==> Standing(db, a.projectID, a.caller) == Some(Pending))
      && (a.LeaveProject? ==> Standing(db, a.projectID, a.caller) == Some(Accepted))
      && (a.SendInvitation? ==> Standing(db, a.projectID, a.userID) != Some(Accepted))
      && (a.SendInvitation? || a.RemoveInvitation? || a.UpdateMemberRole? || a.DeleteProject? ==> OwnerOf(db, a.projectID, a.caller))
  {
    MembersUnique(r.prev);
    GrantedFrom(Final(r.prev), r.a);
  }

  class Server {
    ghost var history: Run
    var users: map<string, User>
    var projects: map<string, Project>

    function State(): Db
      reads this
    {
      Db(users, projects)
    }

    /** The collections are what the requests answered so far made of them. */
    ghost predicate Valid()
      reads this
    {
      Membership.Valid(history) && Final(history) == State()
    }

    constructor (users: map<string, User>)
      requires UniqueUsernames(users)
      ensures Valid() && history == Start(Db(users, map[]))
    {
      this.users, this.projects := users, map[];
      history := Start(Db(users, map[]));
    }

    /**
     Allowed is: not deactivated since, and the user's one entry has an admitted
     role and the invitation. Whoever passes as Accepted founded or joined the
     project; whoever passes as Pending was invited by an accepted owner.
     */
    method RbacValidator(uid: string, pid: string, roles: set<MemberRole>, invitation: Invitation) returns (allowed: bool)
      requires Valid()
      ensures allowed <==>
        && uid in users && DeactivatedSince(history, uid).None?
        && Standing(State(), pid, uid) == Some(invitation)
        && MemberOf(MembersOf(State(), pid), uid).value.role in roles
      ensures allowed && invitation == Accepted ==> Founded(history, pid, uid) || Joined(history, pid, uid)
      ensures allowed && invitation == Pending ==> OpenInvite(history, pid, uid)
      ensures allowed <==> Allowed(State(), uid, pid, roles, invitation)
    {
      MembershipHasAReason(history, pid, uid);
      MembersUnique(history);
      if uid !in users {
        return false;
      }
      FirstDeactivationStands(history, uid);
      if users[uid].deactivatedAt.Some? || pid !in projects {
        return false;
      }
      var ms := projects[pid].members;
      allowed := exists i :: 0 <= i < |ms| && ms[i].userID == uid && ms[i].role in roles && ms[i].invitation == invitation;
      AllowedIffEntry(State(), uid, pid, roles, invitation);
    }

    /** Granted iff the caller may act and the name is new; the caller is then the project's accepted owner. */
    method CreateProject(caller: string, pid: string, name: string, now: int) returns (reply: Reply)
      requires Valid()
      modifies this
      ensures Valid() && history == Then(old(history), Membership.CreateProject(caller, pid, name, now))
      ensures Orderly(history, reply)
      ensures reply == Ok ==> pid !in old(projects) && Founded(history, pid, caller) && OwnerOf(State(), pid, caller)
      ensures reply == Ok ==> forall p :: p in old(projects) ==> old(projects)[p].name != name
      ensures reply == Ok ==> State() == Db(old(users), old(projects)[pid := Project(name, [Member(caller, Owner, Accepted, now, None)], false, caller)])
    {
      ghost var before := State();
      reply := LoginProblem(State(), caller);
      if reply != Ok {
      } else if name == "" {
        reply := EmptyProjectName;
      } else if exists p :: p in projects && projects[p].name == name {
        reply := ProjectExists;
      } else if pid in projects {
        reply := ServerError;
      } else {
        projects := projects[pid := Project(name, [Member(caller, Owner, Accepted, now, None)], false, caller)];
      }
      history := Then(history, Membership.CreateProject(caller, pid, name, now));
      assert Handle(before, history.a) == (State(), reply);
      StepIsOrderly(history);
    }

    /** Granted only to an accepted owner for a user who is not a member; that user alone is then Pending. */
    method SendInvitation(caller: string, pid: string, uid: string, role: Option<MemberRole>, now: int) returns (reply: Reply)
      requires Valid()
      modifies this
      ensures Valid() && history == Then(old(history), Membership.SendInvitation(caller, pid, uid, role, now))
      ensures Orderly(history, reply)
      ensures DeactivatedSince(old(history), caller).Some? ==> reply == Unauthorized
      ensures reply == Ok ==>
        && OwnerOf(old(State()), pid, caller) && Standing(old(State()), pid, uid) != Some(Accepted)
        && OpenInvite(history, pid, uid) && RoleGiven(history, pid, uid) == role
        && OnlyChanges(old(State()), State(), pid, uid)
        && role.Some? && EntryIn(State(), pid, uid)
             == Some(if Standing(old(State()), pid, uid).Some?
                     then EntryIn(old(State()), pid, uid).value.(invitation := Pending, role := role.value)
                     else Member(uid, role.value, Pending, now, None))
    {
      ghost var before := State();
      var allowed := RbacValidator(caller, pid, {Owner}, Accepted);
      var login := LoginProblem(State(), caller);
      if !allowed {
        reply := Unauthorized;
      } else if login != Ok {
        reply := login;
      } else if role.None? || role.value !in ANY_ROLE {
        reply := InvalidRole;
      } else if uid !in users {
        reply := UserNotFound;
      } else {
        var project := projects[pid];
        var invitation := GetInvitation(project.members, uid);
        if invitation == Some(Accepted) {
          reply := InvalidRequest;
        } else {
          reply := Ok;
          if invitation.Some? {
            projects := projects[pid := project.(members := UpdateInvite(project.members, uid, Pending, role.value, now))];
          } else {
            projects := projects[pid := project.(members := project.members + [Member(uid, role.value, Pending, now, None)])];
          }
        }
      }
      history := Then(history, Membership.SendInvitation(caller, pid, uid, role, now));
      assert Handle(before, history.a) == (State(), reply);
      StepIsOrderly(history);
      if reply == Ok {
        GrantedInRun(history);
        StepChangesOne(history, pid, uid);
      }
    }

    /** Accepting and declining differ only in the invitation they store. */
    method Answer(caller: string, pid: string, answer: Invitation, now: int) returns (reply: Reply)
      requires Valid()
      modifies this`projects
      ensures (State(), reply) == Answering(old(State()), caller, pid, answer, now)
      ensures DeactivatedSince(history, caller).Some? ==> reply != Ok
    {
      var allowed := RbacValidator(caller, pid, ANY_ROLE, Pending);
      reply := LoginProblem(State(), caller);
      if reply != Ok {
        return;
      }
      if !allowed {
        return Unauthorized;
      }
      var project := projects[pid];
      projects := projects[pid := project.(members := UpdateInvite(project.members, caller, answer, Owner, now))];
    }

    /** Granted only to a user with an open invitation of an accepted owner, who has then joined. */
    method AcceptInvitation(caller: string, pid: string, now: int) returns (reply: Reply)
      requires Valid()
      modifies this
      ensures Valid() && history == Then(old(history), Membership.AcceptInvitation(caller, pid, now))
      ensures Orderly(history, reply)
      ensures DeactivatedSince(old(history), caller).Some? ==> reply != Ok
      ensures reply == Ok ==>
        && OpenInvite(old(history), pid, caller) && Joined(history, pid, caller)
        && OnlyChanges(old(State()), State(), pid, caller)
        && EntryIn(old(State()), pid, caller).Some?
        && EntryIn(State(), pid, caller) == Some(EntryIn(old(State()), pid, caller).value.(invitation := Accepted, joinedAt := now))
    {
      ghost var before := State();
      reply := Answer(caller, pid, Accepted, now);
      MembershipHasAReason(history, pid, caller);
      history := Then(history, Membership.AcceptInvitation(caller, pid, now));
      assert Handle(before, history.a) == (State(), reply);
      StepIsOrderly(history);
      if reply == Ok {
        GrantedInRun(history);
        StepChangesOne(history, pid, caller);
      }
    }

    /** Granted only to a user with an open invitation, who is then listed as Declined. */
    method DeclineInvitation(caller: string, pid: string) returns (reply: Reply)
      requires Valid()
      modifies this
      ensures Valid() && history == Then(old(history), Membership.DeclineInvitation(caller, pid))
      ensures Orderly(history, reply)
      ensures DeactivatedSince(old(history), caller).Some? ==> reply != Ok
      ensures reply == Ok ==>
        && OpenInvite(old(history), pid, caller) && !OpenInvite(history, pid, caller)
        && OnlyChanges(old(State()), State(), pid, caller)
        && EntryIn(old(State()), pid, caller).Some?
        && EntryIn(State(), pid, caller) == Some(EntryIn(old(State()), pid, caller).value.(invitation := Declined))
    {
      ghost var before := State();
      reply := Answer(caller, pid, Declined, 0);
      MembershipHasAReason(history, pid, caller);
      history := Then(history, Membership.DeclineInvitation(caller, pid));
      assert Handle(before, history.a) == (State(), reply);
      StepIsOrderly(history);
      if reply == Ok {
        GrantedInRun(history);
        StepChangesOne(history, pid, caller);
      }
    }

    /** Granted only to an accepted member, who is then Exited; the project keeps an owner unless stranded. */
    method LeaveProject(caller: string, pid: string, role: Option<MemberRole>) returns (reply: Reply)
      requires Valid()
      modifies this
      ensures Valid() && history == Then(old(history), Membership.LeaveProject(caller, pid, role))
      ensures Orderly(history, reply)
      ensures DeactivatedSince(old(history), caller).Some? ==> reply != Ok
      ensures reply == Ok ==>
        && (Founded(old(history), pid, caller) || Joined(old(history), pid, caller))
        && OnlyChanges(old(State()), State(), pid, caller)
        && EntryIn(old(State()), pid, caller).Some?
        && EntryIn(State(), pid, caller) == Some(EntryIn(old(State()), pid, caller).value.(invitation := Exited))
    {
      ghost var before := State();
      var lastOwner := false;
      if role == Some(Owner) && pid in projects {
        var owners := GetProjectOwners(projects[pid].members);
        lastOwner := |owners| == 1;
      }
      var login := LoginProblem(State(), caller);
      var allowed := RbacValidator(caller, pid, ANY_ROLE, Accepted);
      if role == Some(Owner) && pid !in projects {
        reply := ServerError;
      } else if lastOwner {
        reply := InvalidRequest;
      } else if login != Ok {
        reply := login;
      } else if !allowed {
        reply := Unauthorized;
      } else {
        reply := Ok;
        var project := projects[pid];
        projects := projects[pid := project.(members := UpdateInvite(project.members, caller, Exited, Owner, 0))];
      }
      history := Then(history, Membership.LeaveProject(caller, pid, role));
      assert Handle(before, history.a) == (State(), reply);
      StepIsOrderly(history);
      if reply == Ok {
        StepChangesOne(history, pid, caller);
      }
    }

    /** Granted only to an accepted owner about somebody else, who is then not listed. */
    method RemoveInvitation(caller: string, pid: string, uid: string) returns (reply: Reply)
      requires Valid()
      modifies this
      ensures Valid() && history == Then(old(history), Membership.RemoveInvitation(caller, pid, uid))
      ensures Orderly(history, reply)
      ensures DeactivatedSince(old(history), caller).Some? ==> reply != Ok
      ensures reply == Ok ==>
        && caller != uid && OwnerOf(old(State()), pid, caller) && OwnerOf(State(), pid, caller)
        && EntryIn(State(), pid, uid) == None && OnlyChanges(old(State()), State(), pid, uid)
    {
      ghost var before := State();
      var login := LoginProblem(State(), caller);
      var allowed := RbacValidator(caller, pid, {Owner}, Accepted);
      if uid == "" {
        reply := InvalidRequest;
      } else if login != Ok {
        reply := login;
      } else if !allowed {
        reply := Unauthorized;
      } else if caller == uid {
        reply := InvalidRequest;
      } else {
        reply := Ok;
        var project := projects[pid];
        var invitation := GetInvitation(project.members, uid);
        if invitation == Some(Accepted) || invitation == Some(Pending) {
          projects := projects[pid := project.(members := RemoveUser(project.members, uid))];
        } else if invitation.Some? {
          reply := InvalidRequest;
        }
      }
      history := Then(history, Membership.RemoveInvitation(caller, pid, uid));
      assert Handle(before, history.a) == (State(), reply);
      StepIsOrderly(history);
      if reply == Ok {
        GrantedInRun(history);
        StepChangesOne(history, pid, uid);
        assert EntryIn(State(), pid, caller) == EntryIn(before, pid, caller);
      }
    }

    /** Granted only to an accepted owner about somebody else; nobody's standing changes. */
    method UpdateMemberRole(caller: string, pid: string, uid: string, role: Option<MemberRole>) returns (reply: Reply)
      requires Valid()
      modifies this
      ensures Valid() && history == Then(old(history), Membership.UpdateMemberRole(caller, pid, uid, role))
      ensures Orderly(history, reply)
      ensures DeactivatedSince(old(history), caller).Some? ==> reply != Ok
      ensures reply == Ok ==>
        && caller != uid && OwnerOf(old(State()), pid, caller) && OwnerOf(State(), pid, caller)
        && OnlyChanges(old(State()), State(), pid, uid) && role.Some?
        && EntryIn(State(), pid, uid) == WithRole(EntryIn(old(State()), pid, uid), role.value)
    {
      ghost var before := State();
      var allowed := RbacValidator(caller, pid, {Owner}, Accepted);
      if role.None? || role.value !in ANY_ROLE {
        reply := InvalidRole;
      } else if !allowed {
        reply := Unauthorized;
      } else if caller == uid {
        reply := InvalidRequest;
      } else {
        reply := Ok;
        var project := projects[pid];
        projects := projects[pid := project.(members := UpdateRole(project.members, uid, role.value))];
      }
      history := Then(history, Membership.UpdateMemberRole(caller, pid, uid, role));
      assert Handle(before, history.a) == (State(), reply);
      StepIsOrderly(history);
      if reply == Ok {
        GrantedInRun(history);
        StepChangesOne(history, pid, uid);
        assert EntryIn(State(), pid, caller) == EntryIn(before, pid, caller);
      }
    }

    /** Granted only to an accepted owner; the project is gone and no other has changed. */
    method DeleteProject(caller: string, pid: string) returns (reply: Reply)
      requires Valid()
      modifies this
      ensures Valid() && history == Then(old(history), Membership.DeleteProject(caller, pid))
      ensures Orderly(history, reply)
      ensures DeactivatedSince(old(history), caller).Some? ==> reply != Ok
      ensures reply == Ok ==>
        && OwnerOf(old(State()), pid, caller) && (Founded(old(history), pid, caller) || Joined(old(history), pid, caller))
        && State() == Db(old(users), old(projects) - {pid})
    {
      ghost var before := State();
      var allowed := RbacValidator(caller, pid, {Owner}, Accepted);
      if !allowed {
        reply := Unauthorized;
      } else {
        reply := Ok;
        projects := projects - {pid};
      }
      history := Then(history, Membership.DeleteProject(caller, pid));
      assert Handle(before, history.a) == (State(), reply);
      StepIsOrderly(history);
      if reply == Ok {
        GrantedInRun(history);
      }
    }

    /**
     The transaction writes to copies; only the commit at the end makes them the
     stored state. Whoever is deactivated stays so, with the first time, until reactivated.
     */
    method UpdateStateTransaction(username: string, isDeactivate: bool, now: int, fault: Fault) returns (reply: Reply)
      requires Valid()
      modifies this
      ensures Valid() && history == Then(old(history), UpdateUserState(username, isDeactivate, now, fault))
      ensures Orderly(history, reply)
      ensures fault != NoFault ==> reply != Ok
      ensures forall u :: u in users ==> users[u].deactivatedAt == DeactivatedSince(history, u)
      ensures reply == Ok ==> SwitchesOne(old(State()), State(), username, now, isDeactivate)
    {
      ghost var before := State();
      UsersStay(history);
      if !exists uid :: uid in users && users[uid].username == username {
        reply := UserNotFound;
      } else {
        var uid :| uid in users && users[uid].username == username;
        reply := CommitState(uid, isDeactivate, now, fault);
      }
      history := Then(history, UpdateUserState(username, isDeactivate, now, fault));
      assert Handle(before, history.a) == (State(), reply);
      StepIsOrderly(history);
      StateChangeInRun(history);
    }

    /** The body of the transaction, for the user that was found. */
    method CommitState(uid: string, isDeactivate: bool, now: int, fault: Fault) returns (reply: Reply)
      requires uid in users && UniqueUsernames(users)
      modifies this`users, this`projects
      ensures (State(), reply) == ChangingState(old(State()), old(users)[uid].username, isDeactivate, now, fault)
    {
      var user := users[uid];
      if user.isAdmin {
        return UpdatingAdmin;
      }
      var time := 0;
      if isDeactivate {
        time := now;
        if user.deactivatedAt.Some? {
          return AlreadyDeactivated;
        }
      }
      if fault == UserUpdateFails {
        return ServerError;
      }
      var users' := users[uid := MarkUser(user, time, isDeactivate)];
      if fault == ProjectUpdateFails {
        return ServerError;
      }
      var projects' := map p | p in projects :: MarkProject(projects[p], uid, time, isDeactivate);
      if fault == CommitFails {
        return ServerError;
      }
      users, projects := users', projects';
      reply := Ok;
    }
  }

  function WithRole(m: Option<Member>, role: MemberRole): Option<Member> {
    if m.Some? then Some(m.value.(role := role)) else None
  }

  lemma StateChangeInRun(r: Run)
    requires Membership.Valid(r) && r.Then? && r.a.UpdateUserState?
    ensures r.a.fault != NoFault ==> !Succeeded(r)
    ensures forall u :: u in Final(r).users ==> Final(r).users[u].deactivatedAt == DeactivatedSince(r, u)
    ensures Succeeded(r) ==> SwitchesOne(Final(r.prev), Final(r), r.a.username, r.a.now, r.a.isDeactivate)
  {
    UsersStay(r.prev);
    forall u | u in Final(r).users ensures Final(r).users[u].deactivatedAt == DeactivatedSince(r, u) {
      FirstDeactivationStands(r, u);
    }
    if Succeeded(r) {
      var u := StateChangeMarks(Final(r.prev), r.a);
      NamedIsFound(Final(r.prev), r.a, u);
      assert PlainUser(Final(r.prev), r.a.username, u) && SwitchedState(Final(r.prev), Final(r), u, r.a.now, r.a.isDeactivate);
    }
  }
}
