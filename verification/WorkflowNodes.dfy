/**
 What the events sent for a workflow look like, node by node and field by field, and
 the status they end with, told from the snapshots and the run's earlier events.
 */
module WorkflowNodes {
  import opened Wrappers
  import opened WorkflowEvents

  // ---- Dropping double quotes ----

  /** The result has no double quote, and a text without any is kept. */
  lemma {:induction false} StripQuotesCleans(a: string)
    ensures '\"' !in StripQuotes(a)
    ensures '\"' !in a ==> StripQuotes(a) == a
  {
    if a != "" {
      StripQuotesCleans(a[1..]);
    }
  }

  lemma StripQuotesStep(a: string)
    requires a != ""
    ensures StripQuotes(a) == (if a[0] == '\"' then "" else [a[0]]) + StripQuotes(a[1..])
  {
  }

  lemma StripQuotesNone(a: string, b: string)
    requires |a| == 0
    ensures StripQuotes(a + b) == StripQuotes(a) + StripQuotes(b)
  {
    assert a + b == b;
    var none := StripQuotes(a);
    assert |none| == 0;
    assert none + StripQuotes(b) == StripQuotes(b);
  }

  lemma Regroup(x: string, y: string, z: string)
    ensures x + (y + z) == x + y + z
  {
  }

  lemma DropFirst(a: string, b: string)
    requires a != ""
    ensures (a + b)[1..] == a[1..] + b && (a + b)[0] == a[0] && a + b != ""
  {
  }

  /** Texts are cleaned part by part, and a single character is dropped iff it is a double quote. */
  lemma {:induction false} StripQuotesConcat(a: string, b: string)
    ensures StripQuotes(a + b) == StripQuotes(a) + StripQuotes(b)
    decreases |a|
  {
    if |a| == 0 {
      StripQuotesNone(a, b);
    } else {
      var first := if a[0] == '\"' then "" else [a[0]];
      StripQuotesConcat(a[1..], b);
      DropFirst(a, b);
      StripQuotesStep(a);
      StripQuotesStep(a + b);
      Regroup(first, StripQuotes(a[1..]), StripQuotes(b));
    }
  }

  lemma StripQuotesOne(c: char)
    ensures StripQuotes([c]) == if c == '\"' then "" else [c]
  {
    assert [c][1..] == "";
    assert StripQuotes([c][1..]) == "";
  }

  // ---- The run's previous event ----

  /** Event i is the one that event j is merged with. */
  predicate Before(xs: seq<Snapshot>, i: int, j: int) {
    && 0 <= i < j < |xs| && xs[i].event.uid == xs[j].event.uid && !Evicts(xs[i])
    && forall k :: i < k < j ==> xs[k].event.uid != xs[j].event.uid
  }

  lemma CacheIsBefore(xs: seq<Snapshot>, i: nat, j: nat)
    requires Before(xs, i, j)
    ensures var m := Replay(map[], xs[..j]); xs[j].event.uid in m && m[xs[j].event.uid] == EventAt(xs, i)
  {
    var u := xs[j].event.uid;
    CachedIffUnfinished(xs[..j], u);
    assert Latest(xs[..j], u, i) && xs[..j][i] == xs[i] && xs[..j][..i] == xs[..i];
  }

  lemma CacheIsEmpty(xs: seq<Snapshot>, j: nat)
    requires j < |xs| && forall i :: !Before(xs, i, j)
    ensures xs[j].event.uid !in Replay(map[], xs[..j])
  {
    var u := xs[j].event.uid;
    CachedIffUnfinished(xs[..j], u);
    if u in Replay(map[], xs[..j]) {
      var i :| Latest(xs[..j], u, i) && !Evicts(xs[..j][i]);
      assert forall k :: i < k < j ==> xs[..j][k] == xs[k];
      assert Before(xs, i, j);
    }
  }

  // ---- One event from the previous one ----

  function Halted(phase: string, stopped: bool): string {
    if stopped && (phase == "Running" || phase == "Pending") then "Stopped" else phase
  }

  /** The clean-ups: the message loses its double quotes, and in a Stopped event nothing cached goes on. */
  function Clean(node: Node, stopped: bool): Node {
    node.(message := StripQuotes(node.message), phase := Halted(node.phase, stopped))
  }

  /** The run's first event, or the first after a finished one: the snapshot's nodes, quotes dropped. */
  lemma FirstEventNodes(xs: seq<Snapshot>, j: nat, key: string)
    requires j < |xs| && forall i :: !Before(xs, i, j)
    ensures Lookup(EventAt(xs, j).nodes, key)
         == if key in xs[j].event.nodes then Some(Clean(xs[j].event.nodes[key], false)) else None
  {
    CacheIsEmpty(xs, j);
  }

  /** The previous event's node has chaos data that the snapshot's lacks. */
  predicate Carried(earlier: Option<Node>, own: Option<Node>) {
    && earlier.Some? && earlier.value.nodeType == "ChaosEngine" && earlier.value.chaosExp.Some?
    && (own.None? || own.value.chaosExp.None?)
  }

  /**
   Every node of an event with a predecessor. A carried node is the snapshot's, with
   the data, the phase and the message of the predecessor's; every other node, of any
   type, is exactly the snapshot's. Nodes the predecessor had are halted when stopped.
   */
  lemma NextEventNode(xs: seq<Snapshot>, i: nat, j: nat, key: string)
    requires Before(xs, i, j)
    ensures var earlier, own := Lookup(EventAt(xs, i).nodes, key), Lookup(xs[j].event.nodes, key);
      var stopped := xs[j].event.phase == "Stopped";
      && (Carried(earlier, own) ==>
            var node := if own.Some? then own.value else Node("", "", "", "", "", [], "", None);
            Lookup(EventAt(xs, j).nodes, key)
              == Some(Clean(node.(chaosExp := earlier.value.chaosExp, phase := earlier.value.phase, message := earlier.value.message), stopped)))
      && (!Carried(earlier, own) ==>
            Lookup(EventAt(xs, j).nodes, key)
              == if own.Some? then Some(Clean(own.value, stopped && earlier.Some?)) else None)
  {
    CacheIsBefore(xs, i, j);
    PreparedIs(Replay(map[], xs[..j]), xs[j].event, key);
    var cached := EventAt(xs, i).nodes;
    if key in cached {
      MergedIs(cached[key], Lookup(xs[j].event.nodes, key), xs[j].event.phase == "Stopped");
    }
  }

  lemma PreparedIs(m: EventMap, e: WorkflowEvent, key: string)
    requires e.uid in m
    ensures var merged := MergedAt(m[e.uid].nodes, e.nodes, e.phase == STOPPED, key);
      Lookup(Prepared(m, e).nodes, key)
        == if merged.None? then None else Some(merged.value.(message := StripQuotes(merged.value.message)))
  {
    var merged := MergedAt(m[e.uid].nodes, e.nodes, e.phase == STOPPED, key);
    assert key in Prepared(m, e).nodes <==> merged.Some?;
  }

  lemma MergedIs(earlier: Node, own: Option<Node>, stopped: bool)
    ensures var merged := Halt(CarryOver(earlier, own), stopped);
      if Carried(Some(earlier), own) then
        var node := if own.Some? then own.value else Node("", "", "", "", "", [], "", None);
        merged == Some(node.(chaosExp := earlier.chaosExp, phase := Halted(earlier.phase, stopped), message := earlier.message))
      else merged == if own.Some? then Some(own.value.(phase := Halted(own.value.phase, stopped))) else None
  {
  }

  /** The event is the snapshot in everything but its nodes and its phase. */
  lemma EventKeepsTheRest(xs: seq<Snapshot>, j: nat)
    requires j < |xs|
    ensures EventAt(xs, j).(nodes := xs[j].event.nodes, phase := xs[j].event.phase) == xs[j].event
  {
  }

  // ---- Several events on ----

  /** A Stopped event of u lies behind i, up to j. */
  predicate StoppedSince(xs: seq<Snapshot>, u: string, i: int, j: int) {
    exists k :: i < k <= j && 0 <= k < |xs| && xs[k].event.uid == u && xs[k].event.phase == "Stopped"
  }

  /** Snapshot i is the last of its run up to j that has data of its own on the node; nothing finished in between. */
  predicate LastWithData(xs: seq<Snapshot>, key: string, i: int, j: int) {
    && 0 <= i < j < |xs| && xs[i].event.uid == xs[j].event.uid && Carries(xs[i].event, key)
    && OpenBetween(xs, xs[i].event.uid, i, j)
    && forall k :: i < k <= j && xs[k].event.uid == xs[i].event.uid ==> !Carries(xs[k].event, key)
  }

  lemma {:induction false} FindBefore(xs: seq<Snapshot>, i: nat, j: nat, k: nat) returns (p: nat)
    requires i < k <= j < |xs| && xs[i].event.uid == xs[j].event.uid && OpenBetween(xs, xs[i].event.uid, i, j)
    requires forall l :: k <= l < j ==> xs[l].event.uid != xs[j].event.uid
    ensures i <= p && Before(xs, p, j)
    decreases k
  {
    if xs[k - 1].event.uid == xs[j].event.uid {
      p := k - 1;
    } else {
      p := FindBefore(xs, i, j, k - 1);
    }
  }

  lemma MessageIsClean(xs: seq<Snapshot>, i: nat, key: string)
    requires i < |xs| && key in EventAt(xs, i).nodes
    ensures StripQuotes(EventAt(xs, i).nodes[key].message) == EventAt(xs, i).nodes[key].message
  {
    var m, e := Replay(map[], xs[..i]), xs[i].event;
    var nodes := if e.uid in m then Merged(m[e.uid].nodes, e.nodes, e.phase == STOPPED) else e.nodes;
    StripQuotesCleans(nodes[key].message);
    StripQuotesCleans(StripQuotes(nodes[key].message));
  }

  lemma StoppedOneOn(xs: seq<Snapshot>, u: string, i: nat, p: nat, j: nat)
    requires i <= p && Before(xs, p, j) && xs[j].event.uid == u
    ensures StoppedSince(xs, u, i, j) <==> StoppedSince(xs, u, i, p) || xs[j].event.phase == "Stopped"
  {
    if k :| i < k <= j && 0 <= k < |xs| && xs[k].event.uid == u && xs[k].event.phase == "Stopped" {
      assert k <= p || k == j;
    }
    if xs[j].event.phase == "Stopped" {
      assert i < j <= j;
    }
  }

  /** What the node looks like at j, given what it looked like in event i. */
  function Kept(xs: seq<Snapshot>, key: string, i: nat, j: nat): Node
    requires i < |xs| && j < |xs| && key in EventAt(xs, i).nodes && key in xs[j].event.nodes
  {
    var then_ := EventAt(xs, i).nodes[key];
    xs[j].event.nodes[key].(chaosExp := then_.chaosExp, message := then_.message,
                            phase := Halted(then_.phase, StoppedSince(xs, xs[i].event.uid, i, j)))
  }

  lemma OwnDataShows(xs: seq<Snapshot>, key: string, i: nat)
    requires i < |xs| && KeepsNode(xs, xs[i].event.uid, key) && Carries(xs[i].event, key)
    ensures key in EventAt(xs, i).nodes
    ensures EventAt(xs, i).nodes[key].chaosExp == xs[i].event.nodes[key].chaosExp
    ensures EventAt(xs, i).nodes[key].nodeType == "ChaosEngine"
  {
    SentDataIsNewest(xs, i, key);
  }

  lemma CarriedOneOn(xs: seq<Snapshot>, key: string, i: nat, p: nat, j: nat)
    requires LastWithData(xs, key, i, j) && KeepsNode(xs, xs[i].event.uid, key) && i <= p && Before(xs, p, j)
    requires key in EventAt(xs, i).nodes && EventAt(xs, i).nodes[key].chaosExp.Some?
    requires key in EventAt(xs, p).nodes && EventAt(xs, p).nodes[key].nodeType == "ChaosEngine" && key in xs[j].event.nodes
    requires var before, then_ := EventAt(xs, p).nodes[key], EventAt(xs, i).nodes[key];
      && before.chaosExp == then_.chaosExp && before.message == then_.message
      && before.phase == Halted(then_.phase, StoppedSince(xs, xs[i].event.uid, i, p))
    ensures key in EventAt(xs, j).nodes && EventAt(xs, j).nodes[key] == Kept(xs, key, i, j)
  {
    NextEventNode(xs, p, j, key);
    MessageIsClean(xs, i, key);
    StoppedOneOn(xs, xs[i].event.uid, i, p, j);
  }

  /**
   Over every run that keeps the node: an event whose snapshot lacks the data sends the
   snapshot's node with the data, the message and the phase of the last event of the
   run whose own snapshot had data; Running or Pending there is Stopped once a Stopped
   event has passed.
   */
  lemma {:induction false} CarriedNodeLooks(xs: seq<Snapshot>, key: string, i: nat, j: nat)
    requires LastWithData(xs, key, i, j) && KeepsNode(xs, xs[i].event.uid, key)
    ensures key in EventAt(xs, i).nodes && key in xs[j].event.nodes && key in EventAt(xs, j).nodes
    ensures EventAt(xs, i).nodes[key].chaosExp == xs[i].event.nodes[key].chaosExp
    ensures EventAt(xs, j).nodes[key] == Kept(xs, key, i, j)
    decreases j
  {
    OwnDataShows(xs, key, i);
    var p := FindBefore(xs, i, j, j);
    if p == i {
      assert !StoppedSince(xs, xs[i].event.uid, i, i);
    } else {
      CarriedNodeLooks(xs, key, i, p);
    }
    CarriedOneOn(xs, key, i, p, j);
  }

  // ---- The status an event ends with ----

  predicate ShowsError(e: WorkflowEvent) {
    exists key :: key in e.nodes &&
      ((e.nodes[key].nodeType == "ChaosEngine" && e.nodes[key].chaosExp.None?) || e.nodes[key].phase == "Error")
  }

  predicate ShowsProbeFailure(e: WorkflowEvent) {
    exists key :: key in e.nodes && e.nodes[key].phase == "Completed_With_Probe_Failure"
  }

  lemma SanitizedShowsSame(e: WorkflowEvent)
    ensures ShowsError(e.(nodes := Sanitized(e.nodes))) <==> ShowsError(e)
    ensures ShowsProbeFailure(e.(nodes := Sanitized(e.nodes))) <==> ShowsProbeFailure(e)
  {
    var f := e.(nodes := Sanitized(e.nodes));
    assert f.nodes.Keys == e.nodes.Keys;
    assert forall key :: key in e.nodes ==>
      f.nodes[key].nodeType == e.nodes[key].nodeType && f.nodes[key].chaosExp == e.nodes[key].chaosExp && f.nodes[key].phase == e.nodes[key].phase;
    if key :| key in e.nodes && ((e.nodes[key].nodeType == "ChaosEngine" && e.nodes[key].chaosExp.None?) || e.nodes[key].phase == "Error") {
      assert key in f.nodes;
    }
    if key :| key in e.nodes && e.nodes[key].phase == "Completed_With_Probe_Failure" {
      assert key in f.nodes;
    }
  }

  lemma StatusOf(e: WorkflowEvent)
    ensures e.phase == "" || e.phase == "Stopped" || e.finishedAt == "" ==> ExperimentStatus(e) == e.phase
    ensures e.phase != "" && e.phase != "Stopped" && e.finishedAt != "" ==>
      ExperimentStatus(e) == if ShowsError(e) then "Error" else if ShowsProbeFailure(e) then "Completed_With_Probe_Failure" else e.phase
  {
    assert ShowsError(e) <==> exists key :: key in e.nodes && Faulty(e.nodes[key]);
    if !ShowsError(e) {
      assert ShowsProbeFailure(e) <==> exists key :: key in e.nodes && ProbeFailed(e.nodes[key]);
    }
  }

  /**
   A finished event that is not Stopped is an Error if one of the nodes it is sent with
   lacks its chaos data or is an Error, else a probe failure if one of them is, else
   what its snapshot says; any other event has its snapshot's phase.
   */
  lemma EventStatus(xs: seq<Snapshot>, j: nat)
    requires j < |xs|
    ensures var e, phase := EventAt(xs, j), xs[j].event.phase;
      e.phase == (if phase == "" || phase == "Stopped" || xs[j].event.finishedAt == "" then phase
                  else if ShowsError(e) then "Error"
                  else if ShowsProbeFailure(e) then "Completed_With_Probe_Failure"
                  else phase)
  {
    var m, e := Replay(map[], xs[..j]), xs[j].event;
    var nodes := if e.uid in m then Merged(m[e.uid].nodes, e.nodes, e.phase == STOPPED) else e.nodes;
    StatusOf(e.(nodes := nodes));
    SanitizedShowsSame(e.(nodes := nodes));
    assert ShowsError(EventAt(xs, j)) <==> ShowsError(e.(nodes := Sanitized(nodes)));
    assert ShowsProbeFailure(EventAt(xs, j)) <==> ShowsProbeFailure(e.(nodes := Sanitized(nodes)));
  }

  /**
   The phase that a fault ended with while its data could still be read decides the
   final status, even if later snapshots show another phase for the node.
   */
  lemma EarlierPhaseDecides(xs: seq<Snapshot>, key: string, i: nat, j: nat)
    requires LastWithData(xs, key, i, j) && KeepsNode(xs, xs[i].event.uid, key)
    requires xs[j].event.finishedAt != "" && xs[j].event.phase != "" && xs[j].event.phase != "Stopped"
    requires key in EventAt(xs, i).nodes
    ensures EventAt(xs, i).nodes[key].phase == "Error" ==> EventAt(xs, j).phase == "Error"
    ensures EventAt(xs, i).nodes[key].phase == "Completed_With_Probe_Failure" ==>
      EventAt(xs, j).phase == if ShowsError(EventAt(xs, j)) then "Error" else "Completed_With_Probe_Failure"
  {
    CarriedNodeLooks(xs, key, i, j);
    EventStatus(xs, j);
    assert EventAt(xs, j).nodes[key].phase == Halted(EventAt(xs, i).nodes[key].phase, StoppedSince(xs, xs[i].event.uid, i, j));
  }
}
