# LitmusChaos control plane: a verified model

This project models the parts of the LitmusChaos control plane whose correctness
is not visible in any single function, and proves what they promise:

- **Event tracker** (`Triggers`, `TriggerProtocol`, `TriggerAudits`,
  `TriggerProgress`): reconcile loops and policy
  auditors that share one EventTrackerPolicy through versioned Get and Update.
  Every Get, Update and SendRequest is its own step; any number of loops and
  auditors interleave, a loop reads through a cache that may return any earlier
  object, an Update may be lost before or after the server applied it, any loop may
  crash between two steps, and the policy may be deleted.
- **Subscriber event cache** (`WorkflowEvents`, `WorkflowNodes`): the merge of workflow snapshots
  with the last event sent, the final status and the eviction.
- **Upgrade agent** (`Versions`, `UpgradePath`, `UpgradeRun`): version texts, the
  sorted upgrade path, and runs that stop at a failing manager and resume.
- **Authentication server** (`Members`, `Membership`, `MembershipRecords`,
  `AuthServer`): projects, invitations, roles and user activation as a state machine of request handlers.
- **GraphQL server registries** (`Connections`, `Subscriptions`): the connection
  registry with its `is_active` writes outside the lock, and the subscriber
  slices that are edited in place.
- **Encodings and views** (`GqlEncoding`, `Payloads`, `JsonReader`, `PodLogs`,
  `ArgoGraph`): the
  nested escaping of GraphQL payloads, decoded by section 7 of RFC 8259 and by
  section 2.9.4 (String Value) of the GraphQL specification, October 2021, and
  the walk that lays out an Argo workflow.

Code that changes state is modelled as methods and classes. Each is proved against
a specification function, and the theorems are about those functions: over every
run, every interleaving, every iteration order of a map, or every text.

`dafny verify dfyconfig.toml` checks the whole project.

## What the theorems say

1. Every stored trigger list only grows (`TriggerProtocol.NoUpdateLost`), a status
   is reopened only by a loop that claimed its id and saw a dispatch of it fail
   (`ReopenedOnlyByOwnFailure`), and per id the flips to triggered equal requests
   sent plus claims still queued (`ClaimAccounting`). Success is final for an id
   if and only if the policy does not hold two passed statuses of that id with one
   of them open (`SuccessIsFinalIff`); otherwise it can be delivered any number of
   times (`ResentForever`), because releases go by experiment id. Every stored status
   beyond the initial ones comes from an auditor whose conditions matched, in commit
   order (`TriggerAudits.StoredEntriesMatched`), and an undisturbed loop with fewer
   conflicts than its budget leaves no failed dispatch unreleased
   (`TriggerProgress.FailedAreReleased`).
2. Chaos data that an event of a workflow carried is carried by every later one up
   to the first finished (`WorkflowEvents.DataOnceSentStays`), and for all snapshots
   it passes from one event to the next exactly under a condition on the earlier
   snapshot (`CarriedToNextIff`). A node that carries earlier data is sent with the
   phase and message of that earlier event (`WorkflowNodes.CarriedNodeLooks`), and that
   phase decides the final status (`EarlierPhaseDecides`).
3. Any sequence of starts of the upgrade agent ends where one uninterrupted run
   ends, each manager having succeeded once and in order (`UpgradeRun.TextsResume`
   on the stored texts, `ResumeEqualsOneRun` on versions).
4. A project always has an accepted owner if and only if no sole owner leaves
   without naming that role (`Membership.OwnedIffNeverStranded`), and membership is
   exactly what the granted requests account for (`MembershipHasAReason`), as are the
   roles, times and flags that are stored (`MembershipRecords.EntryIsGiven`,
   `ProjectIsGiven`); a request is granted exactly under a condition on the stored
   state (`GrantedIff`). The
   handlers in `AuthServer` carry the run of requests and promise these facts.
5. The connection registry holds exactly the latest connection that is not torn
   down (`Connections.RegistryIsLatest`), `is_active` agrees with it if and only if
   the write applied last has the value of the write issued last (`ActiveAgreesIff`),
   and each project's channel list is exactly its live subscriptions
   (`Subscriptions.ListingIsLive`).
6. A printable JSON text survives splicing and both decoding layers if and only if
   it has no backslash (`Payloads.MarshalRoundTrip`). The logs of a pod are parsed as
   one text: all of them come back if every character of every one of them survives,
   and none does otherwise (`PodLogs.PodLogRoundTrip`); one ANSI escape code in the
   main log loses the chaos logs too (`EscapeCodeLosesAll`).

## Where code and comments differ

- The comment at eventtrackerpolicy_controller.go:97-99 says that each claim
  triggers exactly one SendRequest. A loop that crashes, or whose Update was
  applied while its answer was lost, leaves committed claims unsent; the accounting
  theorem counts them.
- Versions are ordered by the (major, minor, patch, beta) tuple, so a beta sorts
  after its release (upgrade-manager.go:162-169). This is not the precedence of
  Semantic Versioning.
- LeaveProject compares the role that the request names, not the stored one, with
  Owner (project_handler.go:705). The theorems state the exact consequence.
- Reactivating a user stores `deactivated_at` 0 in the member entries instead of
  clearing it (transaction_service.go:39-57, project/repository.go:352-356).
- workflow.go:229 sets FinishedAt after the node was stored back, so a stopped node
  keeps its own FinishedAt.
- A text without a minor component, such as "3", makes ParseVersion panic
  (upgrade-manager.go:52); a target below the stored version makes the path slice
  panic (upgrade-manager.go:214). Both are modelled as outcomes.

## Model

| member | source | states |
|---|---|---|
| Triggers.ClaimFlipsWhatItReports | chaoscenter/event-tracker/controllers/eventtrackerpolicy_controller.go:81-87 | a claim pass flips, per id, exactly as many statuses as it reports |
| Triggers.ReportedIsOpen | chaoscenter/event-tracker/controllers/eventtrackerpolicy_controller.go:81-87 | an id is reported once for each passed pending status that carries it |
| Triggers.ClaimTally | chaoscenter/event-tracker/controllers/eventtrackerpolicy_controller.go:81-87 | after a claim pass no status is open and every one that was open or settled is settled |
| Triggers.ReleaseTally | chaoscenter/event-tracker/controllers/eventtrackerpolicy_controller.go:136-146 | a release pass reopens every settled status of the released ids, twins included, and touches no other id |
| Triggers.FlagInAnyCase | chaoscenter/event-tracker/controllers/eventtrackerpolicy_controller.go:82 | the IsTriggered flag is compared with "false" and "true" in any mixture of cases |
| Triggers.ClaimPending | chaoscenter/event-tracker/controllers/eventtrackerpolicy_controller.go:81-87 | the in-place loop claims exactly the passed pending statuses and returns their ids in list order |
| Triggers.Dispatch | chaoscenter/event-tracker/controllers/eventtrackerpolicy_controller.go:100-125 | the ids to revert are those whose send failed or was disabled, in order |
| Triggers.ReleaseClaims | chaoscenter/event-tracker/controllers/eventtrackerpolicy_controller.go:136-149 | the in-place loop reopens exactly the triggered statuses of the given ids, and reports a change iff the list changed |
| TriggerProtocol.StaleIsOlder | chaoscenter/event-tracker/controllers/eventtrackerpolicy_controller.go:72-79 | what a cached read returns has a lower version than the stored object, or is it |
| TriggerProtocol.FreshRun | chaoscenter/event-tracker/controllers/eventtrackerpolicy_controller.go:69-92 | in every reachable state, stale reads included, a snapshot that still has the stored version was computed from the stored list |
| TriggerProtocol.StepChange | chaoscenter/event-tracker/controllers/eventtrackerpolicy_controller.go:69-150 | every step leaves the stored list alone, claims it, releases it, appends one pending entry or deletes it |
| TriggerProtocol.NoUpdateLost | chaoscenter/event-tracker/controllers/eventtrackerpolicy_controller.go:69-92 | between any two points of any run entries keep position and every field but IsTriggered, and none disappears |
| TriggerProtocol.StepTransfers | chaoscenter/event-tracker/controllers/eventtrackerpolicy_controller.go:91-125 | claims move from the stored list into loops and from loops into sends, and are given back only by releases |
| TriggerProtocol.ClaimAccounting | chaoscenter/event-tracker/controllers/eventtrackerpolicy_controller.go:68-125 | in every run and for every id, duplicates included, committed flips equal requests sent plus claims still queued |
| TriggerProtocol.RunExplained | chaoscenter/event-tracker/controllers/eventtrackerpolicy_controller.go:100-125 | what a loop has queued it claimed itself, and what it means to revert it saw fail |
| TriggerProtocol.ReopenedOnlyByOwnFailure | chaoscenter/event-tracker/controllers/eventtrackerpolicy_controller.go:127-150 | a status goes back to pending only by a loop that committed a claim of its id and then saw a dispatch of it not succeed |
| TriggerProtocol.DispatchedAtMostOnce | chaoscenter/event-tracker/controllers/eventtrackerpolicy_controller.go:62-158 | in every interleaving an id that at most one passed status carries is dispatched successfully at most once |
| TriggerProtocol.NeverOpened | chaoscenter/event-tracker/controllers/eventtrackerpolicy_controller.go:62-158 | an id without an open status at the start, and without new ones, is never dispatched |
| TriggerProtocol.SendsAreDispatch | chaoscenter/event-tracker/controllers/eventtrackerpolicy_controller.go:100-127 | single send steps of a loop add up to what the dispatch loop returns |
| TriggerProtocol.ResentForever | chaoscenter/event-tracker/controllers/eventtrackerpolicy_controller.go:136-146 | for every policy with two passed statuses of one id, one of them open, and every k there is a run that delivers that id k times |
| TriggerProtocol.SuccessIsFinalIff | chaoscenter/event-tracker/controllers/eventtrackerpolicy_controller.go:62-158 | every run from a policy delivers an id at most once per status of it iff the policy does not hold two such statuses |
| TriggerProtocol.StepExtends | chaoscenter/event-tracker/pkg/utils/utils.go:259-283 | one step, an auditor's append from a possibly stale read included, keeps every old entry in place |
| TriggerAudits.StoredEntriesMatched | chaoscenter/event-tracker/pkg/utils/utils.go:144-283 | in every run the statuses are the initial ones and then one per committed auditor, in commit order, with the five fields it was started with, and each of these auditors found the conditions met |
| TriggerAudits.MatchIsStored | chaoscenter/event-tracker/pkg/utils/utils.go:256-283 | a matched read whose append arrives at the version it read stores exactly the old list and the auditor's entry, which is open for claiming |
| TriggerAudits.NoMatchNoEntry | chaoscenter/event-tracker/pkg/utils/utils.go:258-288 | an auditor whose conditions are not met stores nothing, however the run goes on |
| TriggerProgress.AttemptsCounted | chaoscenter/event-tracker/controllers/eventtrackerpolicy_controller.go:69-92 | an undisturbed loop has its budget minus its conflicts in attempts left, in each phase |
| TriggerProgress.OpenAreClaimed | chaoscenter/event-tracker/controllers/eventtrackerpolicy_controller.go:69-92 | an undisturbed loop with fewer conflicts than the budget leaves its claim phase with everything open claimed |
| TriggerProgress.FailedAreReleased | chaoscenter/event-tracker/controllers/eventtrackerpolicy_controller.go:127-150 | when such a loop ends, no status of an id whose dispatch it saw fail or be disabled is left triggered |
| TriggerProgress.ConflictRetries | chaoscenter/event-tracker/controllers/eventtrackerpolicy_controller.go:69-92 | below the budget a conflict makes the loop read again, with what it holds |
| TriggerProgress.DisturbedStops | chaoscenter/event-tracker/controllers/eventtrackerpolicy_controller.go:93-95 | after a failed read, a missing policy, an unanswered update or a crash the loop does nothing any more |
| TriggerProgress.SendsOwnClaims | chaoscenter/event-tracker/controllers/eventtrackerpolicy_controller.go:100-103 | every id a loop sends it has claimed itself |
| WorkflowEvents.MergeCached | chaoscenter/subscriber/pkg/events/workflow.go:215-233 | whatever the iteration order, the merge loop computes the same, order-free merge, which NextEventNode describes node by node |
| WorkflowEvents.GetExperimentStatus | chaoscenter/subscriber/pkg/events/workflow.go:295-337 | the counting loop yields Error if any node is faulty, else probe failure if any node has one, else the phase; an empty phase is the error |
| WorkflowEvents.SanitizeMessages | chaoscenter/subscriber/pkg/events/util.go:195-198 | every node message is stripped and nothing else changes |
| WorkflowNodes.StripQuotesConcat | chaoscenter/subscriber/pkg/events/util.go:196 | texts are stripped part by part |
| WorkflowNodes.StripQuotesOne | chaoscenter/subscriber/pkg/events/util.go:196 | a single character is dropped iff it is a double quote |
| WorkflowNodes.FirstEventNodes | chaoscenter/subscriber/pkg/events/workflow.go:214-241 | an event without a predecessor has its snapshot's nodes, double quotes dropped from the messages |
| WorkflowNodes.NextEventNode | chaoscenter/subscriber/pkg/events/workflow.go:215-233 | a carried node is the snapshot's with the data, phase and message of the predecessor's; every other node of any type is the snapshot's; what the predecessor had is halted when stopped |
| WorkflowNodes.CarriedNodeLooks | chaoscenter/subscriber/pkg/events/workflow.go:217-231 | over every run that keeps the node, an event without data of its own sends data, message and phase of the last event whose snapshot had data, halted once a Stopped event has passed |
| WorkflowNodes.EventKeepsTheRest | chaoscenter/subscriber/pkg/events/workflow.go:214-241 | an event is its snapshot in everything but nodes and phase |
| WorkflowNodes.EventStatus | chaoscenter/subscriber/pkg/events/workflow.go:295-337 | the status of every event sent, from the nodes it is sent with |
| WorkflowNodes.EarlierPhaseDecides | chaoscenter/subscriber/pkg/events/workflow.go:214-337 | an Error or probe failure of the last event with data decides the final status, whatever later snapshots show |
| WorkflowEvents.SubscriberEvents.SendWorkflowUpdates | chaoscenter/subscriber/pkg/events/workflow.go:214-262 | the cache and the request after one snapshot, with the early return when the payload cannot be encoded; NextEventNode and EventStatus say what the request holds |
| WorkflowEvents.SubscriberEvents.WorkflowUpdates | chaoscenter/subscriber/pkg/events/workflow.go:264-274 | the channel loop over any snapshots, encodable or not, leaves the cache and sends the requests of the run |
| WorkflowEvents.SentInOrder | chaoscenter/subscriber/pkg/events/workflow.go:264-274 | every snapshot that can be encoded is sent once, in order, as the event it is merged into, and no other is sent |
| WorkflowEvents.StoppedLeavesNoneRunning | chaoscenter/subscriber/pkg/events/workflow.go:224-231 | a Stopped event leaves no previously cached node Running or Pending |
| WorkflowEvents.CachedIffUnfinished | chaoscenter/subscriber/pkg/events/workflow.go:241-254 | after every run the cache holds exactly the workflows whose latest event was unfinished or could not be encoded, as that event |
| WorkflowEvents.SentDataIsNewest | chaoscenter/subscriber/pkg/events/workflow.go:215-254 | a kept ChaosEngine node is sent with exactly the newest data since the last finished event |
| WorkflowEvents.DataOnceSentStays | chaoscenter/subscriber/pkg/events/workflow.go:214-262 | data once seen is in every event sent up to and including the first finished one |
| WorkflowEvents.MissingDataMeansNeverSeen | chaoscenter/subscriber/pkg/events/workflow.go:214-337 | a finished event that lacks data on a ChaosEngine node is an Error, and no event of that run ever carried data there |
| WorkflowEvents.CarriedToNextIff | chaoscenter/subscriber/pkg/events/workflow.go:215-233 | for all snapshots, data passes to the run's next event iff that snapshot has data or the earlier snapshot lists the node as ChaosEngine |
| WorkflowEvents.OmittedNodeLosesData | chaoscenter/subscriber/pkg/events/workflow.go:217-222 | a snapshot that omits the node loses the data one event later |
| Versions.AtoiUndoesItoa | chaoscenter/upgrade-agents/control-plane/versions/upgrade-manager.go:47-55 | number texts parse back, for all 64-bit integers |
| Versions.ParseUndoesPrint | chaoscenter/upgrade-agents/control-plane/versions/upgrade-manager.go:43-149 | ParseVersion undoes getVersion for every version, negative components included, and arrayToVersion agrees with getVersion |
| Versions.ParseOneComponent | chaoscenter/upgrade-agents/control-plane/versions/upgrade-manager.go:43-55 | a text without minor component panics if it is a number and gives 0.0.0 otherwise |
| Versions.ParseTwoComponents | chaoscenter/upgrade-agents/control-plane/versions/upgrade-manager.go:52-68 | a missing patch counts as 0, a bad major or minor gives 0.0.0 |
| Versions.ParseThreeComponents | chaoscenter/upgrade-agents/control-plane/versions/upgrade-manager.go:47-78 | a bad patch counts as 0, a bad major or minor gives 0.0.0 |
| Versions.ParseWithBeta | chaoscenter/upgrade-agents/control-plane/versions/upgrade-manager.go:70-75 | a bad beta number gives 0.0.0 |
| Versions.PrintInjective | chaoscenter/upgrade-agents/control-plane/versions/upgrade-manager.go:143-149 | different versions print differently |
| Versions.CompareRows | chaoscenter/upgrade-agents/control-plane/versions/upgrade-manager.go:162-169 | the comparison loop decides the lexicographic order of rows of any length |
| Versions.RowLessIsLess | chaoscenter/upgrade-agents/control-plane/versions/upgrade-manager.go:162-169 | on version rows that order is the (major, minor, patch, beta) tuple order |
| Versions.LessIsLexicographic | chaoscenter/upgrade-agents/control-plane/versions/upgrade-manager.go:162-169 | lower means lower in the first component that differs |
| UpgradePath.SortSorts | chaoscenter/upgrade-agents/control-plane/versions/upgrade-manager.go:152-178 | sorting gives an ascending permutation |
| UpgradePath.SortUnique | chaoscenter/upgrade-agents/control-plane/versions/upgrade-manager.go:162-169 | there is only one ascending permutation, so the result does not depend on the sorting algorithm |
| UpgradePath.AscendingUnique | chaoscenter/upgrade-agents/control-plane/versions/upgrade-manager.go:152-178 | a strictly ascending list is determined by its elements |
| UpgradePath.SortVersionArray | chaoscenter/upgrade-agents/control-plane/versions/upgrade-manager.go:152-178 | the canonical forms of the input in sorted order, or the panic iff a text does not parse |
| UpgradePath.ListVersions | chaoscenter/upgrade-agents/control-plane/versions/upgrade-manager.go:180-194 | in any map order, each key once and then the ends that are no keys |
| UpgradePath.ListingCounts | chaoscenter/upgrade-agents/control-plane/versions/upgrade-manager.go:180-194 | a version is listed once per key that means it and once per end that is no key |
| UpgradePath.ParseVersionMap | chaoscenter/upgrade-agents/control-plane/versions/upgrade-manager.go:180-196 | for any map and ends, the one ascending list in which each version stands as often as it is listed, or the panic iff a text does not parse |
| UpgradePath.LinearSearchArray | chaoscenter/upgrade-agents/control-plane/versions/upgrade-manager.go:198-206 | the first index of the text, or -1 iff it is absent |
| UpgradePath.TraceUpgradePath | chaoscenter/upgrade-agents/control-plane/versions/upgrade-manager.go:209-215 | for any map: a panic iff a key does not parse or target < previous; otherwise ascending, with everything listed between the ends, the repeats of previous, and target once |
| UpgradePath.CanonicalPath | chaoscenter/upgrade-agents/control-plane/versions/upgrade-manager.go:209-215 | with canonical keys this is the strictly ascending list of exactly the versions in the map or equal to target with previous < v <= target |
| UpgradePath.PathEndsInTarget | chaoscenter/upgrade-agents/control-plane/versions/upgrade-manager.go:209-215 | an upgrade's path is not empty and ends in the target |
| UpgradePath.PathSuffix | chaoscenter/upgrade-agents/control-plane/versions/upgrade-manager.go:209-215 | the path from a version on the path is the rest of the path |
| UpgradeRun.RunLeaves | chaoscenter/upgrade-agents/control-plane/versions/upgrade-manager.go:226-239 | wherever a run stops, managers applied plus managers behind the stored version are what was ahead |
| UpgradeRun.ResumeConserves | chaoscenter/upgrade-agents/control-plane/versions/upgrade-manager.go:218-245 | over any sequence of starts, managers applied followed by managers ahead are those of one uninterrupted run |
| UpgradeRun.ResumeEqualsOneRun | chaoscenter/upgrade-agents/control-plane/versions/upgrade-manager.go:218-245 | once a start met no failing manager, all starts together equal one run: target stored, each manager once, ascending |
| UpgradeRun.TextsResume | chaoscenter/upgrade-agents/control-plane/versions/upgrade-manager.go:218-245 | the same for the stored texts, as Boot changes them: the managers that succeeded are exactly the keys with a manager above the origin and up to the target, ascending |
| UpgradeRun.StartOutcome | chaoscenter/upgrade-agents/control-plane/versions/upgrade-manager.go:82-117 | for any texts: misconfigured, up to date, panicked, failed or upgraded, each exactly when, and what is stored |
| UpgradeRun.BootsPrint | chaoscenter/upgrade-agents/control-plane/versions/upgrade-manager.go:82-117 | starts on texts print what starts on versions compute |
| UpgradeRun.ControlPlane.RunPath | chaoscenter/upgrade-agents/control-plane/versions/upgrade-manager.go:226-244 | managers before the first failing one have run, and the stored version is the last of them, or the path's end |
| UpgradeRun.ControlPlane.Boot | chaoscenter/upgrade-agents/control-plane/versions/upgrade-manager.go:82-117 | one start for any texts: misconfigured, up to date, panic, failed or upgraded, with the resulting state |
| Members.GetInvitation | chaoscenter/authentication/api/handlers/rest/project_handler.go:266-278 | the invitation of the user's first entry, if there is one |
| Members.GetProjectOwners | chaoscenter/authentication/pkg/project/repository.go:449-456 | the accepted owners in list order |
| Members.UpdateUserAt | chaoscenter/authentication/pkg/project/repository.go:257-300 | an array-filter update changes the entry of that user and of no other |
| Members.RemoveUserUnique | chaoscenter/authentication/pkg/project/repository.go:230-254 | a pull removes exactly the user's entries |
| Members.OtherOwner | chaoscenter/authentication/pkg/project/repository.go:438-457 | an owner other than u exists iff the owners are not just u |
| Membership.RejectedChangesNothing | chaoscenter/authentication/api/handlers/rest/project_handler.go:460-971 | a rejected request changes no user and no project |
| MembershipRecords.GrantedIff | chaoscenter/authentication/api/handlers/rest/project_handler.go:334-1077 | in every run a request is granted exactly when its condition on users, entries and owners holds |
| MembershipRecords.RepliedBecause | chaoscenter/authentication/api/handlers/rest/project_handler.go:334-1077 | every rejection gives a reason that holds |
| MembershipRecords.StepEntry | chaoscenter/authentication/pkg/project/repository.go:212-331 | a granted request changes exactly the fields it is about, of exactly the entries it is about |
| MembershipRecords.EntryIsGiven | chaoscenter/authentication/api/handlers/rest/project_handler.go:518-547 | in every run a listed user has the role, join time and mark that the granted requests gave; answering, leaving and state changes keep the role |
| MembershipRecords.OwnerHasAReason | chaoscenter/authentication/api/handlers/rest/project_handler.go:460-971 | an accepted owner is the founder or a joined member, and was made Owner as founder or by an accepted owner |
| MembershipRecords.StateChangeMarks | chaoscenter/authentication/pkg/project/repository.go:344-387 | a granted state change marks the user's entries, flags exactly the projects the user owns, and changes nothing else |
| MembershipRecords.ProjectIsGiven | chaoscenter/authentication/pkg/project/repository.go:364-387 | in every run a project's removal flag, name and creator are those the granted requests gave |
| Membership.MembersUnique | chaoscenter/authentication/api/handlers/rest/project_handler.go:460-971 | in every run no project has two entries for one user |
| Membership.StepInvitation | chaoscenter/authentication/api/handlers/rest/project_handler.go:460-839 | a granted request gives exactly the users it concerns the invitation it is meant to give |
| Membership.GrantedFrom | chaoscenter/authentication/api/handlers/rest/project_handler.go:508-753 | who may make each request, and from which stored invitation |
| Membership.InvitationChanges | chaoscenter/authentication/api/handlers/rest/project_handler.go:508-753 | over every run Accepted and Declined come only from Pending, Exited only from Accepted, and never Pending from Accepted |
| Membership.MembershipHasAReason | chaoscenter/authentication/api/handlers/rest/project_handler.go:508-753 | a user is Pending iff an accepted owner's invitation is open, and Accepted iff founder or accepter of such an invitation since |
| Membership.StepOwned | chaoscenter/authentication/api/handlers/rest/project_handler.go:695-753 | exactly a sole owner's leave that does not name the role takes the last accepted owner from a project |
| Membership.OwnedIffNeverStranded | chaoscenter/authentication/api/handlers/rest/project_handler.go:695-753 | a run keeps every project owned iff no such leave occurs in it |
| Membership.ProjectsStayOwned | chaoscenter/authentication/api/handlers/rest/project_handler.go:460-971 | if leave requests name the stored role, every project keeps an accepted owner and no member appears twice |
| Membership.UnnamedLeaveStrands | chaoscenter/authentication/api/handlers/rest/project_handler.go:705-717 | a founder who leaves without naming a role leaves the project without owner |
| Membership.UserChange | chaoscenter/authentication/pkg/user/repository.go:264-283 | only a granted state change touches a user, and only the one it names |
| Membership.FirstDeactivationStands | chaoscenter/authentication/pkg/services/transaction_service.go:39-55 | the stored time is that of the first deactivation since the last reactivation |
| Membership.DeactivatedIsRejected | chaoscenter/authentication/pkg/validations/rbac_validator.go:16-24 | a deactivated user passes no role check on any project until reactivated |
| Membership.AdminsAreUntouchable | chaoscenter/authentication/pkg/services/transaction_service.go:34-69 | a state change of an administrator, or one that hits a database fault, changes no user and no project |
| AuthServer.Server.RbacValidator | chaoscenter/authentication/pkg/validations/rbac_validator.go:12-51 | accepts iff the run so far leaves the user active and the user's one entry has an admitted role and the invitation; an accepted one founded or joined the project, a pending one was invited by an owner |
| AuthServer.Server.CreateProject | chaoscenter/authentication/api/handlers/rest/project_handler.go:334-442 | granted iff it may be; name and id are new, the caller founded the project and is its accepted owner, and nothing else changes |
| AuthServer.Server.SendInvitation | chaoscenter/authentication/api/handlers/rest/project_handler.go:460-559 | granted iff the active caller is an accepted owner, the role is known and the user no member; that user's entry alone changes, to Pending with the named role |
| AuthServer.Server.AcceptInvitation | chaoscenter/authentication/api/handlers/rest/project_handler.go:575-619 | granted only on an open invitation of an accepted owner; the caller's entry alone changes, keeps its role, and the caller has joined |
| AuthServer.Server.DeclineInvitation | chaoscenter/authentication/api/handlers/rest/project_handler.go:635-679 | granted only on an open invitation, which is then closed; the caller alone changes standing |
| AuthServer.Server.LeaveProject | chaoscenter/authentication/api/handlers/rest/project_handler.go:695-753 | granted only to a founder or joined member, who alone changes standing; projects stay owned iff this leave does not strand one |
| AuthServer.Server.RemoveInvitation | chaoscenter/authentication/api/handlers/rest/project_handler.go:769-839 | granted only to an accepted owner, who stays one, about somebody else, who alone changes standing and is unlisted |
| AuthServer.Server.UpdateMemberRole | chaoscenter/authentication/api/handlers/rest/project_handler.go:928-971 | granted only to an accepted owner, who stays one; the other user has the new role and nobody's standing changes |
| AuthServer.Server.DeleteProject | chaoscenter/authentication/api/handlers/rest/project_handler.go:1052-1077 | granted only to an accepted owner who founded or joined; the project is gone and every other is unchanged |
| AuthServer.Server.UpdateStateTransaction | chaoscenter/authentication/pkg/services/transaction_service.go:18-72 | a granted change switches the named user, marks that user's entries with the time or 0, flags exactly the projects the user owns and changes nothing else; an admin or a fault changes nothing; stored times are those of the first deactivation |
| AuthServer.StepIsOrderly | chaoscenter/authentication/api/handlers/rest/project_handler.go:460-971 | every answer keeps members unique, a rejection changes nothing, and ownership is kept unless the sole owner leaves unnamed |
| Connections.Store.Register | chaoscenter/graphql/server/graph/chaos_infrastructure.resolvers.go:299-309 | afterwards the map holds for every infra exactly the latest connection not torn down, and stale tells whether there was one |
| Connections.Store.Disconnect | chaoscenter/graphql/server/graph/chaos_infrastructure.resolvers.go:314-320 | the same after a teardown, which goes on to announce the disconnection iff no newer connection stands |
| Connections.RegistryIsLatest | chaoscenter/graphql/server/graph/chaos_infrastructure.resolvers.go:299-320 | in every interleaving each id maps to the connection registered last, iff that one is not torn down |
| Connections.StaleTeardownIsHarmless | chaoscenter/graphql/server/graph/chaos_infrastructure.resolvers.go:314-318 | tearing down a replaced connection while a newer one stands changes neither registry nor is_active |
| Connections.ActiveAgreesIff | chaoscenter/graphql/server/graph/chaos_infrastructure.resolvers.go:299-338 | in every run with no write of the infra outstanding, is_active agrees with the registry iff the write applied last has the value of the write issued last |
| Connections.QuietKeeps | chaoscenter/graphql/server/graph/chaos_infrastructure.resolvers.go:322-338 | agreement or disagreement then lasts until the infra's next locked section that issues a write |
| Connections.WritesFollowIssue | chaoscenter/graphql/server/graph/chaos_infrastructure.resolvers.go:314-338 | with in-order writes, the outstanding writes come to the write issued last |
| Connections.ActiveAgrees | chaoscenter/graphql/server/graph/chaos_infrastructure.resolvers.go:322-338 | with in-order writes and none outstanding, is_active agrees with the registry |
| Connections.ActiveAgreesOneStep | chaoscenter/graphql/server/graph/chaos_infrastructure.resolvers.go:299-338 | if each locked section and its write are one step, is_active agrees with the registry |
| Connections.OvertakenWriteDisagrees | chaoscenter/graphql/server/graph/chaos_infrastructure.resolvers.go:320-338 | a write that overtakes another leaves a connected infra inactive, however the run goes on until that infra's next such section |
| Subscriptions.ShiftDown | chaoscenter/graphql/server/graph/chaos_infrastructure.resolvers.go:273-274 | the slots behind i move down by one, the last is nil, the rest is untouched |
| Subscriptions.Append | chaoscenter/graphql/server/graph/chaos_infrastructure.resolvers.go:262 | appending, in place or in a new array, shows the old channels and then the new one |
| Subscriptions.Remove | chaoscenter/graphql/server/graph/chaos_infrastructure.resolvers.go:270-279 | the slice then shows the list without the channel, and the freed slot is nil |
| Subscriptions.Publisher.Subscribe | chaoscenter/graphql/server/graph/chaos_infrastructure.resolvers.go:261-263 | the project's list gains the channel and no other project's list changes |
| Subscriptions.Publisher.Cancel | chaoscenter/graphql/server/graph/chaos_infrastructure.resolvers.go:268-284 | the project's list loses the channel, an empty list loses its key, and no other project's list changes |
| Subscriptions.ListingIsLive | chaoscenter/graphql/server/graph/chaos_infrastructure.resolvers.go:257-288 | over every run each list is the live subscriptions in order, and a key exists iff one is live |
| GqlEncoding.DecodeConcat | chaoscenter/subscriber/pkg/graphql/operations.go:40-50 | decoding a concatenation decodes its parts, if the first is complete |
| GqlEncoding.LexDecodes | chaoscenter/subscriber/pkg/graphql/operations.go:40-50 | a well-formed body in front of a quote is lexed as one string, up to that quote |
| GqlEncoding.MarshalIsWire | chaoscenter/subscriber/pkg/graphql/operations.go:47-49 | quoting and replacing together escape each double quote twice and everything else once |
| Payloads.JsonLayer | chaoscenter/subscriber/pkg/graphql/operations.go:40-50 | the JSON layer leaves any printable text with its double quotes escaped once |
| Payloads.BackslashIsLost | chaoscenter/subscriber/pkg/graphql/operations.go:40-50 | if the GraphQL layer gives the text back, the text has no backslash |
| Payloads.MarshalRoundTrip | chaoscenter/subscriber/pkg/graphql/operations.go:40-50 | splicing and both layers return a printable JSON text iff it has no backslash |
| Payloads.RequestRoundTrip | chaoscenter/subscriber/pkg/k8s/log.go:126-127 | within a whole request both lexers stop at the right quotes and deliver the text |
| PodLogs.CreatePodLog | chaoscenter/subscriber/pkg/k8s/log.go:56-95 | each log that could be read is filed, shielded, under its own pod, the runner's winning for one shared name; no other key; the main entry comes from the main log alone |
| PodLogs.CollectedMeans | chaoscenter/subscriber/pkg/k8s/log.go:70-92 | the same of the logs before shielding |
| PodLogs.SingleQuotedAt | chaoscenter/subscriber/pkg/k8s/log.go:65 | double quotes become single ones and every other character is kept |
| PodLogs.PiecesEndToEnd | chaoscenter/subscriber/pkg/k8s/log.go:111-129 | splicing and both layers take exactly one level of escaping off every log in the struct |
| PodLogs.ShieldedRoundTrip | chaoscenter/subscriber/pkg/k8s/log.go:65-66 | one shielded log is read as the log with single quotes if every character survives, and cannot be read otherwise |
| PodLogs.RenderStruct | chaoscenter/subscriber/pkg/types/log.go:15-18 | the struct's JSON text and the text received for it are the same layout, once with encoded and once with plain contents |
| PodLogs.ReadStruct | chaoscenter/web/src/controllers/CustomStepLog/CustomStepLog.tsx:69 | parsing the received text gives back every log if all survive, and nothing otherwise |
| PodLogs.PodLogRoundTrip | chaoscenter/subscriber/pkg/k8s/log.go:56-129 | for all logs and any key order, all layers and the final parse give back every log with single quotes iff every character of every log survives |
| PodLogs.CreatedLogsRead | chaoscenter/web/src/controllers/CustomStepLog/CustomStepLog.tsx:69 | from the arguments of CreatePodLog: if every log that is shown survives, the browser reads each in its place; otherwise it can read none |
| PodLogs.EscapeCodeLosesAll | chaoscenter/subscriber/pkg/k8s/log.go:65-66 | an ANSI escape code in the main log loses a chaos log that would survive by itself |
| PodLogs.LogPayloadReads | chaoscenter/subscriber/pkg/k8s/log.go:111-129 | the same starting from the payload's bytes |
| PodLogs.LogPayloadDelivers | chaoscenter/subscriber/pkg/k8s/log.go:126-127 | from the payload the server recovers a document whose log argument is the received text |
| PodLogs.MutationFields | chaoscenter/subscriber/pkg/k8s/log.go:126 | in the mutation every field of the request stands behind its own name, and the log comes last |
| ArgoGraph.ShownExactly | chaoscenter/web/src/utils/transformArgoData.ts:45-57 | the nodes shown are exactly those of the chain that are no Steps or StepGroup, each once, in order |
| ArgoGraph.RankedHasChain | chaoscenter/web/src/utils/transformArgoData.ts:18-61 | acyclic first children give a finite chain from every node |
| ArgoGraph.HangBelow | chaoscenter/web/src/utils/transformArgoData.ts:24-39 | one entry per key left in the queue, in order |
| ArgoGraph.TransformArgoData | chaoscenter/web/src/utils/transformArgoData.ts:9-75 | the walk ends and outputs the shown nodes with id, name, icon, phase and result, each with its predecessor's remaining children in order |

## Left out

- Edits of a policy by other clients, cached reads of objects older than the run, and a policy that is created again after its deletion.
- The evaluation of policy conditions in the event tracker: it is the boolean `matched` of the auditor's read.
- The Kubernetes, Argo, Mongo, websocket and HTTP clients: only versioned get and update, atomic document updates and a three-way send outcome are modelled. The retry budget of RetryOnConflict is any number from 1 on.
- WorkflowEventHandler and updateWorkflowStatus, which build a snapshot: a snapshot is any value.
- The base64 text of a workflow payload. Whether a payload can be encoded is part of the snapshot.
- WorkflowEvents.DataOnceSentStays: assumes that later snapshots keep the node and its type; CarriedToNextIff gives the exact condition without that assumption.
- UpgradePath.SortVersionArray: sort.Slice is the function Sort; SortUnique shows that any sorting algorithm returns the same list.
- UpgradeRun.ControlPlane.Boot: version map keys are canonical texts, as those of getVersionMap are; UpdateVersion succeeds; the agent does not crash between a manager's success and the store of its version.
- Races between membership handlers: each handler is one step. Database errors of single reads and writes are modelled only for the state-change transaction.
- UpdateProjectName, the creation of users, and the name, email and audit fields. User names are unique, as the user collection demands.
- Failing or lost UpdateInfra writes, the delivery of SendInfraEvent, and the registries of GetPodLog and GetKubeObject.
- PodLogs.PodLogRoundTrip: pod names hold no quote, backslash or control character, as every name of a pod whose log can be read; the parser reads strings and objects without white space, which is all the text holds.
- PodLogs.LogPayloadDelivers: the identifiers in the request hold no quote, backslash or control character; the fallback text " Could not get logs " is not modelled.
- Payloads.MarshalRoundTrip: characters beyond U+FFFF and non-printable ones are excluded, as is a text that ends in a backslash, which no JSON text does. Which characters beyond ASCII are printable is a parameter.
- ArgoGraph.TransformArgoData: the iteration order of the node map is the parameter `keys`; a cyclic first-child chain, on which the source does not end, and missing children, on which it fails, are excluded.
- Pagination of projects: it would only add easy arithmetic.
