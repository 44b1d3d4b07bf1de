/**
 The subscriber's workflow event cache: every snapshot of a workflow is merged
 with the last event sent for the same run, given a final status, sent, and the
 cache entry is dropped once the run has finished.
 */
module WorkflowEvents {
  import opened Wrappers

  datatype ChaosData = ChaosData(engineUID: string, experimentStatus: string, experimentVerdict: string)

  datatype Node = Node(
    name: string,
    phase: string,
    message: string,
    startedAt: string,
    finishedAt: string,
    children: seq<string>,
    nodeType: string,
    chaosExp: Option<ChaosData>)

  datatype WorkflowEvent = WorkflowEvent(
    workflowID: string,
    uid: string,
    name: string,
    phase: string,
    finishedAt: string,
    nodes: map<string, Node>)

  type EventMap = map<string, WorkflowEvent>

  /** The request to the server: the event and its "completed" flag. */
  datatype Request = Request(event: WorkflowEvent, completed: bool)

  const ZERO_NODE := Node("", "", "", "", "", [], "", None)
  const CHAOS_ENGINE := "ChaosEngine"
  const STOPPED := "Stopped"
  const ERROR := "Error"
  const PROBE_FAILURE := "Completed_With_Probe_Failure"

  function Lookup(nodes: map<string, Node>, key: string): Option<Node> {
    if key in nodes then Some(nodes[key]) else None
  }

  function OrZero(node: Option<Node>): Node {
    if node.Some? then node.value else ZERO_NODE
  }

  predicate Unfinished(node: Node) {
    node.phase == "Running" || node.phase == "Pending"
  }

  // ---- The merge, key by key ----

  /** Chaos data seen earlier is kept, with the phase and message it was seen with. */
  function CarryOver(cached: Node, current: Option<Node>): Option<Node> {
    var node := OrZero(current);
    if cached.nodeType == CHAOS_ENGINE && cached.chaosExp.Some? && node.chaosExp.None? then
      Some(node.(chaosExp := cached.chaosExp, phase := cached.phase, message := cached.message))
    else current
  }

  function Halt(node: Option<Node>, stopped: bool): Option<Node> {
    if stopped && Unfinished(OrZero(node)) then Some(OrZero(node).(phase := STOPPED)) else node
  }

  function MergedAt(cached: map<string, Node>, nodes: map<string, Node>, stopped: bool, key: string): Option<Node> {
    if key in cached then Halt(CarryOver(cached[key], Lookup(nodes, key)), stopped) else Lookup(nodes, key)
  }

  /** The merge as a whole, with no order among the keys. */
  function Merged(cached: map<string, Node>, nodes: map<string, Node>, stopped: bool): map<string, Node> {
    map key | key in cached.Keys + nodes.Keys && MergedAt(cached, nodes, stopped, key).Some? ::
      MergedAt(cached, nodes, stopped, key).value
  }

  // ---- The final status ----

  predicate LacksChaosData(node: Node) {
    node.nodeType == CHAOS_ENGINE && node.chaosExp.None?
  }

  predicate Faulty(node: Node) {
    LacksChaosData(node) || node.phase == ERROR
  }

  predicate ProbeFailed(node: Node) {
    !LacksChaosData(node) && node.phase == PROBE_FAILURE
  }

  function ExperimentStatus(e: WorkflowEvent): string {
    if e.phase == "" || e.phase == STOPPED || e.finishedAt == "" then e.phase
    else if exists key :: key in e.nodes && Faulty(e.nodes[key]) then ERROR
    else if exists key :: key in e.nodes && ProbeFailed(e.nodes[key]) then PROBE_FAILURE
    else e.phase
  }

  // ---- Payload generation drops the double quotes from the node messages ----

  function StripQuotes(s: string): string {
    if s == "" then "" else (if s[0] == '\"' then "" else [s[0]]) + StripQuotes(s[1..])
  }

  function Sanitized(nodes: map<string, Node>): map<string, Node> {
    map key | key in nodes :: nodes[key].(message := StripQuotes(nodes[key].message))
  }

  // ---- One snapshot ----

  /** What is stored and sent for snapshot e. */
  function Prepared(m: EventMap, e: WorkflowEvent): WorkflowEvent {
    var nodes := if e.uid in m then Merged(m[e.uid].nodes, e.nodes, e.phase == STOPPED) else e.nodes;
    e.(nodes := Sanitized(nodes), phase := ExperimentStatus(e.(nodes := nodes)))
  }

  /** A snapshot as it arrives, and whether its payload can be encoded. */
  datatype Snapshot = Snapshot(event: WorkflowEvent, marshals: bool)

  /** The cache entry goes when a finished event is sent; an encoding error returns before that. */
  predicate Evicts(x: Snapshot) {
    x.marshals && x.event.finishedAt != ""
  }

  function CacheAfter(m: EventMap, x: Snapshot): EventMap {
    if Evicts(x) then m - {x.event.uid} else m[x.event.uid := Prepared(m, x.event)]
  }

  function RequestFor(m: EventMap, x: Snapshot): Option<Request> {
    if x.marshals then Some(Request(Prepared(m, x.event), x.event.finishedAt != "")) else None
  }

  /** The cache after a run of snapshots. */
  function Replay(m: EventMap, xs: seq<Snapshot>): EventMap {
    if xs == [] then m
    else
      var n := |xs| - 1;
      CacheAfter(Replay(m, xs[..n]), xs[n])
  }

  /** What is sent for each snapshot of a run. */
  function Requests(m: EventMap, xs: seq<Snapshot>): seq<Option<Request>> {
    if xs == [] then []
    else
      var n := |xs| - 1;
      Requests(m, xs[..n]) + [RequestFor(Replay(m, xs[..n]), xs[n])]
  }

  /** The event that snapshot i is made into; it is what is sent, if it can be encoded. */
  function EventAt(xs: seq<Snapshot>, i: nat): WorkflowEvent
    requires i < |xs|
  {
    Prepared(Replay(map[], xs[..i]), xs[i].event)
  }

  // ---- The imperative code ----

  lemma MergedByKey(cached: map<string, Node>, nodes: map<string, Node>, stopped: bool, merged: map<string, Node>)
    requires forall k :: Lookup(merged, k) == MergedAt(cached, nodes, stopped, k)
    ensures merged == Merged(cached, nodes, stopped)
  {
    forall k ensures k in merged <==> k in Merged(cached, nodes, stopped) {
      assert Lookup(merged, k) == MergedAt(cached, nodes, stopped, k);
    }
    forall k | k in merged ensures merged[k] == Merged(cached, nodes, stopped)[k] {
      assert Lookup(merged, k) == MergedAt(cached, nodes, stopped, k);
    }
  }

  /** The merge loop, over the cached nodes in whatever order the map yields them. */
  method MergeCached(cached: map<string, Node>, nodes: map<string, Node>, stopped: bool) returns (merged: map<string, Node>)
    ensures merged == Merged(cached, nodes, stopped)
  {
    merged := nodes;
    var remaining := cached.Keys;
    while remaining != {}
      invariant remaining <= cached.Keys
      invariant forall k :: Lookup(merged, k)
                         == if k in remaining then Lookup(nodes, k) else MergedAt(cached, nodes, stopped, k)
      decreases |remaining|
    {
      var key :| key in remaining;
      ghost var before := merged;
      remaining := remaining - {key};
      var node := cached[key];
      var current := if key in merged then merged[key] else ZERO_NODE;
      assert current == OrZero(Lookup(nodes, key));
      if node.nodeType == CHAOS_ENGINE && node.chaosExp.Some? && current.chaosExp.None? {
        current := current.(chaosExp := node.chaosExp, phase := node.phase, message := node.message);
        merged := merged[key := current];
      }
      assert Lookup(merged, key) == CarryOver(node, Lookup(nodes, key));
      if stopped && (current.phase == "Running" || current.phase == "Pending") {
        merged := merged[key := current.(phase := STOPPED)];
      }
      assert Lookup(merged, key) == MergedAt(cached, nodes, stopped, key);
      assert forall k :: k != key ==> Lookup(merged, k) == Lookup(before, k);
    }
    MergedByKey(cached, nodes, stopped, merged);
  }

  /** The counting loop of getExperimentStatus, again in any order; an empty phase is the error case. */
  method GetExperimentStatus(e: WorkflowEvent) returns (status: string, valid: bool)
    ensures status == ExperimentStatus(e)
    ensures valid <==> e.phase != ""
  {
    var errorCount, probeFailureCount := 0, 0;
    status, valid := e.phase, e.phase != "";
    if status == "" || status == STOPPED || e.finishedAt == "" {
      return;
    }
    var remaining := e.nodes.Keys;
    while remaining != {}
      invariant remaining <= e.nodes.Keys
      invariant errorCount >= 0 && probeFailureCount >= 0
      invariant errorCount > 0 <==> exists k :: k in e.nodes && k !in remaining && Faulty(e.nodes[k])
      invariant probeFailureCount > 0 <==> exists k :: k in e.nodes && k !in remaining && ProbeFailed(e.nodes[k])
      decreases |remaining|
    {
      var key :| key in remaining;
      remaining := remaining - {key};
      var node := e.nodes[key];
      if node.nodeType == CHAOS_ENGINE && node.chaosExp.None? {
        errorCount := errorCount + 1;
      } else if node.phase == PROBE_FAILURE {
        probeFailureCount := probeFailureCount + 1;
      } else if node.phase == ERROR {
        errorCount := errorCount + 1;
      }
    }
    if errorCount > 0 {
      status := ERROR;
    } else if probeFailureCount > 0 {
      status := PROBE_FAILURE;
    }
  }

  /** The message clean-up that GenerateWorkflowPayload makes on the nodes it is given. */
  method SanitizeMessages(nodes: map<string, Node>) returns (clean: map<string, Node>)
    ensures clean == Sanitized(nodes)
  {
    clean := nodes;
    var remaining := nodes.Keys;
    while remaining != {}
      invariant remaining <= nodes.Keys && clean.Keys == nodes.Keys
      invariant forall k :: k in nodes ==>
        clean[k] == if k in remaining then nodes[k] else nodes[k].(message := StripQuotes(nodes[k].message))
      decreases |remaining|
    {
      var key :| key in remaining;
      remaining := remaining - {key};
      clean := clean[key := clean[key].(message := StripQuotes(clean[key].message))];
    }
  }

  class SubscriberEvents {
    var eventMap: EventMap

    constructor ()
      ensures eventMap == map[]
    {
      eventMap := map[];
    }

    /**
     marshals says whether the payload of this event can be encoded; if not, the
     call returns after the event was stored and nothing is sent.
     */
    method SendWorkflowUpdates(event: WorkflowEvent, marshals: bool) returns (sent: Option<Request>)
      modifies this
      ensures eventMap == CacheAfter(old(eventMap), Snapshot(event, marshals))
      ensures sent == RequestFor(old(eventMap), Snapshot(event, marshals))
    {
      var e := event;
      if e.uid in eventMap {
        var nodes := MergeCached(eventMap[e.uid].nodes, e.nodes, e.phase == STOPPED);
        e := e.(nodes := nodes);
      }
      var status, _ := GetExperimentStatus(e);
      e := e.(phase := status);
      // Stored event and payload share one node map, so the clean-up shows in both.
      var clean := SanitizeMessages(e.nodes);
      e := e.(nodes := clean);
      eventMap := eventMap[e.uid := e];
      if !marshals {
        return None;
      }
      if e.finishedAt != "" {
        eventMap := eventMap - {e.uid};
        assert eventMap == old(eventMap) - {e.uid};
      }
      sent := Some(Request(e, e.finishedAt != ""));
    }

    /** The channel loop: it goes on after a snapshot that could not be encoded. */
    method WorkflowUpdates(snapshots: seq<Snapshot>) returns (requests: seq<Option<Request>>)
      modifies this
      ensures eventMap == Replay(old(eventMap), snapshots)
      ensures requests == Requests(old(eventMap), snapshots)
    {
      requests := [];
      for i := 0 to |snapshots|
        invariant eventMap == Replay(old(eventMap), snapshots[..i])
        invariant requests == Requests(old(eventMap), snapshots[..i])
      {
        assert snapshots[..i + 1][..i] == snapshots[..i];
        var sent := SendWorkflowUpdates(snapshots[i].event, snapshots[i].marshals);
        requests := requests + [sent];
      }
      assert snapshots[..|snapshots|] == snapshots;
    }
  }

  /** Every snapshot that can be encoded is sent once, in order, as the event it is made into. */
  lemma {:induction false} SentInOrder(xs: seq<Snapshot>, i: nat)
    requires i < |xs|
    ensures |Requests(map[], xs)| == |xs|
    ensures Requests(map[], xs)[i]
         == if xs[i].marshals then Some(Request(EventAt(xs, i), xs[i].event.finishedAt != "")) else None
  {
    var n := |xs| - 1;
    if i < n {
      SentInOrder(xs[..n], i);
      assert xs[..n][..i] == xs[..i];
    } else if n > 0 {
      SentInOrder(xs[..n], 0);
    }
  }

  // ---- Stopped events ----

  /** In a Stopped event no node that was cached before is left Running or Pending. */
  lemma StoppedLeavesNoneRunning(m: EventMap, e: WorkflowEvent, key: string)
    requires e.phase == STOPPED && e.uid in m && key in m[e.uid].nodes && key in Prepared(m, e).nodes
    ensures Prepared(m, e).phase == "Stopped" && Prepared(m, e).nodes[key].phase != "Running" && Prepared(m, e).nodes[key].phase != "Pending"
  {
    assert MergedAt(m[e.uid].nodes, e.nodes, true, key).Some?;
  }

  // ---- The cache holds exactly the unfinished runs ----

  /** Event i is the latest one of its run in xs. */
  predicate Latest(xs: seq<Snapshot>, u: string, i: int) {
    0 <= i < |xs| && xs[i].event.uid == u && forall j :: i < j < |xs| ==> xs[j].event.uid != u
  }

  lemma LatestOfPrefix(xs: seq<Snapshot>, u: string, i: int)
    requires xs != [] && xs[|xs| - 1].event.uid != u
    ensures Latest(xs, u, i) <==> Latest(xs[..|xs| - 1], u, i)
    ensures Latest(xs, u, i) ==> xs[..|xs| - 1][i] == xs[i] && EventAt(xs[..|xs| - 1], i) == EventAt(xs, i)
  {
    var n := |xs| - 1;
    if 0 <= i < n {
      assert xs[..n][i] == xs[i] && xs[..n][..i] == xs[..i];
    }
  }

  /**
   After every run of snapshots the cache holds an entry for a workflow exactly
   when its latest event was unfinished or could not be encoded, and the entry is
   that event.
   */
  lemma {:induction false} CachedIffUnfinished(xs: seq<Snapshot>, u: string)
    ensures u in Replay(map[], xs) <==> exists i :: Latest(xs, u, i) && !(xs[i].marshals && xs[i].event.finishedAt != "")
    ensures forall i :: Latest(xs, u, i) && !Evicts(xs[i]) ==> Replay(map[], xs)[u] == EventAt(xs, i)
  {
    if xs != [] {
      var n := |xs| - 1;
      if xs[n].event.uid == u {
        assert Latest(xs, u, n);
        assert forall i :: Latest(xs, u, i) ==> i == n;
      } else {
        CachedIffUnfinished(xs[..n], u);
        forall i ensures Latest(xs, u, i) <==> Latest(xs[..n], u, i) {
          LatestOfPrefix(xs, u, i);
        }
        forall i | Latest(xs, u, i) ensures xs[..n][i] == xs[i] && EventAt(xs[..n], i) == EventAt(xs, i) {
          LatestOfPrefix(xs, u, i);
        }
      }
    }
  }

  // ---- Chaos data once seen stays until the run has finished ----

  predicate Carries(e: WorkflowEvent, key: string) {
    key in e.nodes && e.nodes[key].chaosExp.Some?
  }

  /** Later snapshots of u keep node key once it is there, always as a ChaosEngine node. */
  predicate KeepsNode(xs: seq<Snapshot>, u: string, key: string) {
    && (forall i, j :: 0 <= i < j < |xs| && xs[i].event.uid == u && xs[j].event.uid == u && key in xs[i].event.nodes ==> key in xs[j].event.nodes)
    && (forall i :: 0 <= i < |xs| && xs[i].event.uid == u && key in xs[i].event.nodes ==> xs[i].event.nodes[key].nodeType == CHAOS_ENGINE)
  }

  /** The data of the most recent snapshot of u that had any, back to the last finished one. */
  function CarriedData(xs: seq<Snapshot>, u: string, key: string): Option<ChaosData> {
    if xs == [] then None
    else
      var n := |xs| - 1;
      if xs[n].event.uid != u then CarriedData(xs[..n], u, key)
      else if Evicts(xs[n]) then None
      else Newest(CarriedData(xs[..n], u, key), xs[n].event, key)
  }

  function Newest(earlier: Option<ChaosData>, e: WorkflowEvent, key: string): Option<ChaosData> {
    if Carries(e, key) then e.nodes[key].chaosExp else earlier
  }

  /** Node key of event e is absent, or a ChaosEngine node with exactly this data. */
  predicate Holds(e: WorkflowEvent, key: string, data: Option<ChaosData>) {
    if key in e.nodes then e.nodes[key].nodeType == CHAOS_ENGINE && e.nodes[key].chaosExp == data
    else data == None
  }

  predicate CacheHolds(m: EventMap, u: string, key: string, data: Option<ChaosData>) {
    if u in m then Holds(m[u], key, data) else data == None
  }

  lemma PreparedNode(m: EventMap, e: WorkflowEvent, key: string, data: Option<ChaosData>)
    requires CacheHolds(m, e.uid, key, data)
    requires key in e.nodes ==> e.nodes[key].nodeType == CHAOS_ENGINE
    requires e.uid in m && key in m[e.uid].nodes ==> key in e.nodes
    ensures key in Prepared(m, e).nodes <==> key in e.nodes
    ensures Holds(Prepared(m, e), key, Newest(data, e, key))
  {
    if e.uid in m {
      var merged := MergedAt(m[e.uid].nodes, e.nodes, e.phase == STOPPED, key);
      assert merged.Some? <==> key in e.nodes;
    }
  }

  lemma {:induction false} CacheTracksData(xs: seq<Snapshot>, u: string, key: string)
    requires KeepsNode(xs, u, key)
    ensures var m := Replay(map[], xs);
      && CacheHolds(m, u, key, CarriedData(xs, u, key))
      && (u in m && key in m[u].nodes ==> exists i :: 0 <= i < |xs| && xs[i].event.uid == u && key in xs[i].event.nodes)
  {
    if xs != [] {
      var n := |xs| - 1;
      CacheTracksData(xs[..n], u, key);
      if xs[n].event.uid == u {
        PreparedNode(Replay(map[], xs[..n]), xs[n].event, key, CarriedData(xs[..n], u, key));
      }
    }
  }

  /**
   The last event sent for u holds, on every ChaosEngine node that its snapshots
   keep, exactly the newest data any snapshot had since the last finished event.
   */
  lemma SentDataIsNewest(xs: seq<Snapshot>, i: nat, key: string)
    requires i < |xs| && KeepsNode(xs, xs[i].event.uid, key)
    ensures Holds(EventAt(xs, i), key, Newest(CarriedData(xs[..i], xs[i].event.uid, key), xs[i].event, key))
    ensures key in EventAt(xs, i).nodes <==> key in xs[i].event.nodes
  {
    CacheTracksData(xs[..i], xs[i].event.uid, key);
    PreparedNode(Replay(map[], xs[..i]), xs[i].event, key, CarriedData(xs[..i], xs[i].event.uid, key));
  }

  /** No event of u before position j, from position i on, is finished. */
  predicate OpenBetween(xs: seq<Snapshot>, u: string, i: nat, j: nat) {
    forall k :: i <= k < j && k < |xs| && xs[k].event.uid == u ==> !Evicts(xs[k])
  }

  lemma {:induction false} CarriedDataSurvives(xs: seq<Snapshot>, u: string, key: string, i: nat, j: nat)
    requires i < j <= |xs| && xs[i].event.uid == u && OpenBetween(xs, u, i, j)
    requires Newest(CarriedData(xs[..i], u, key), xs[i].event, key).Some?
    ensures CarriedData(xs[..j], u, key).Some?
  {
    assert xs[..j][..j - 1] == xs[..j - 1];
    if i < j - 1 {
      CarriedDataSurvives(xs, u, key, i, j - 1);
    }
  }

  /**
   Once an event sent for a run has chaos data on a ChaosEngine node, every later
   event of that run has it, up to and including the first finished one.
   */
  lemma DataOnceSentStays(xs: seq<Snapshot>, key: string, i: nat, j: nat)
    requires i < j < |xs| && xs[i].event.uid == xs[j].event.uid && KeepsNode(xs, xs[i].event.uid, key)
    requires OpenBetween(xs, xs[i].event.uid, i, j)
    requires Carries(xs[i].event, key) || Carries(EventAt(xs, i), key)
    ensures Carries(EventAt(xs, j), key)
  {
    SentDataIsNewest(xs, i, key);
    SentDataIsNewest(xs, j, key);
    CarriedDataSurvives(xs, xs[i].event.uid, key, i, j);
  }

  /**
   A finished event whose ChaosEngine node lacks data is sent with status Error,
   and then no snapshot and no event of that run ever had data on that node.
   */
  lemma MissingDataMeansNeverSeen(xs: seq<Snapshot>, key: string, j: nat)
    requires j < |xs| && KeepsNode(xs, xs[j].event.uid, key)
    requires xs[j].event.finishedAt != "" && xs[j].event.phase != STOPPED && xs[j].event.phase != ""
    requires key in xs[j].event.nodes && LacksChaosData(EventAt(xs, j).nodes[key])
    ensures EventAt(xs, j).phase == ERROR
    ensures forall i :: 0 <= i < j && xs[i].event.uid == xs[j].event.uid && OpenBetween(xs, xs[j].event.uid, i, j) ==>
      !Carries(xs[i].event, key) && !Carries(EventAt(xs, i), key)
  {
    SentDataIsNewest(xs, j, key);
    var m, e := Replay(map[], xs[..j]), xs[j].event;
    var nodes := if e.uid in m then Merged(m[e.uid].nodes, e.nodes, e.phase == STOPPED) else e.nodes;
    assert Faulty(nodes[key]);
    forall i | 0 <= i < j && xs[i].event.uid == xs[j].event.uid && OpenBetween(xs, xs[j].event.uid, i, j)
      ensures !Carries(xs[i].event, key) && !Carries(EventAt(xs, i), key)
    {
      if Carries(xs[i].event, key) || Carries(EventAt(xs, i), key) {
        DataOnceSentStays(xs, key, i, j);
      }
    }
  }

  // ---- Exactly when data passes from one event to the next ----

  /** A merged node has the type its snapshot gives it, and none if the snapshot omits it. */
  lemma PreparedType(m: EventMap, e: WorkflowEvent, key: string)
    requires key in Prepared(m, e).nodes
    ensures Prepared(m, e).nodes[key].nodeType == if key in e.nodes then e.nodes[key].nodeType else ""
  {
    if e.uid in m {
      assert MergedAt(m[e.uid].nodes, e.nodes, e.phase == STOPPED, key).Some?;
    }
  }

  lemma PreparedCarries(m: EventMap, e: WorkflowEvent, key: string)
    requires e.uid in m && Carries(m[e.uid], key)
    ensures Carries(Prepared(m, e), key) <==> Carries(e, key) || m[e.uid].nodes[key].nodeType == CHAOS_ENGINE
  {
    var merged := MergedAt(m[e.uid].nodes, e.nodes, e.phase == STOPPED, key);
    assert key in Prepared(m, e).nodes <==> merged.Some?;
  }

  /**
   For all snapshots: if event i of a run has data on a node and event j is the
   run's next one, event j has data there exactly when its own snapshot does or
   snapshot i lists the node as a ChaosEngine node.
   */
  lemma CarriedToNextIff(xs: seq<Snapshot>, key: string, i: nat, j: nat)
    requires i < j < |xs| && xs[i].event.uid == xs[j].event.uid && forall k :: i < k < j ==> xs[k].event.uid != xs[i].event.uid
    requires !Evicts(xs[i]) && Carries(EventAt(xs, i), key)
    ensures Carries(EventAt(xs, j), key)
       <==> Carries(xs[j].event, key) || (key in xs[i].event.nodes && xs[i].event.nodes[key].nodeType == CHAOS_ENGINE)
  {
    var u := xs[i].event.uid;
    var m := Replay(map[], xs[..j]);
    CachedIffUnfinished(xs[..j], u);
    assert Latest(xs[..j], u, i) && xs[..j][..i] == xs[..i];
    assert m[u] == EventAt(xs, i);
    PreparedType(Replay(map[], xs[..i]), xs[i].event, key);
    PreparedCarries(m, xs[j].event, key);
  }

  /**
   Keeping the node matters: for any data, node and run there are three unfinished
   snapshots in which the second omits the node, and the third event lacks the data.
   The merge re-creates an omitted node without its type, so it is not carried again.
   */
  lemma OmittedNodeLosesData(u: string, key: string, data: ChaosData) returns (e0: WorkflowEvent, e1: WorkflowEvent, e2: WorkflowEvent)
    ensures e0.uid == u && e1.uid == u && e2.uid == u && e0.finishedAt == "" && e1.finishedAt == "" && e2.finishedAt == ""
    ensures var m1 := CacheAfter(map[], Snapshot(e0, true));
      var m2 := CacheAfter(m1, Snapshot(e1, true));
      && Carries(Prepared(map[], e0), key) && Carries(Prepared(m1, e1), key)
      && key in e2.nodes && !Carries(Prepared(m2, e2), key)
  {
    var node := ZERO_NODE.(nodeType := CHAOS_ENGINE, chaosExp := Some(data));
    e0 := WorkflowEvent("", u, "", "Running", "", map[key := node]);
    e1 := e0.(nodes := map[]);
    e2 := e0.(nodes := map[key := node.(chaosExp := None)]);
    FirstSeen(e0, key);
    var m1 := CacheAfter(map[], Snapshot(e0, true));
    OmittedLosesType(m1, e1, key);
    UntypedIsNotCarried(CacheAfter(m1, Snapshot(e1, true)), e2, key);
  }

  lemma FirstSeen(e: WorkflowEvent, key: string)
    requires key in e.nodes
    ensures key in Prepared(map[], e).nodes
    ensures Prepared(map[], e).nodes[key] == e.nodes[key].(message := StripQuotes(e.nodes[key].message))
  {
  }

  /** The node comes back with its data but without its type. */
  lemma OmittedLosesType(m: EventMap, e: WorkflowEvent, key: string)
    requires e.uid in m && e.phase != STOPPED && key !in e.nodes
    requires key in m[e.uid].nodes && m[e.uid].nodes[key].nodeType == CHAOS_ENGINE && m[e.uid].nodes[key].chaosExp.Some?
    ensures Carries(Prepared(m, e), key) && Prepared(m, e).nodes[key].nodeType == ""
  {
    assert MergedAt(m[e.uid].nodes, e.nodes, false, key).Some?;
  }

  lemma UntypedIsNotCarried(m: EventMap, e: WorkflowEvent, key: string)
    requires e.uid in m && e.phase != STOPPED && key in e.nodes && e.nodes[key].chaosExp.None?
    requires key in m[e.uid].nodes && m[e.uid].nodes[key].nodeType == ""
    ensures !Carries(Prepared(m, e), key)
  {
    assert MergedAt(m[e.uid].nodes, e.nodes, false, key) == Some(e.nodes[key]);
  }
}
