/**
 The pipeline view of an Argo workflow: a walk down the first-child chain that
 shows each node with its predecessor's other children hung below it.
 */
module ArgoGraph {
  import opened Wrappers

  datatype Node = Node(name: string, nodeType: string, phase: string, chaosResult: string, children: Option<seq<string>>)

  datatype GraphEntry = GraphEntry(
    id: string,
    name: string,
    icon: string,
    chaosResult: string,
    status: string,
    children: seq<GraphEntry>)

  type Nodes = map<string, Node>

  function MapNameToIcon(name: string): string {
    if name == "install-chaos-faults" then "import"
    else if name == "cleanup-chaos-resources" then "command-rollback"
    else "chaos-scenario-builder"
  }

  function Kids(node: Node): seq<string> {
    if node.children.Some? then node.children.value else []
  }

  predicate IsStep(node: Node) {
    node.nodeType == "StepGroup" || node.nodeType == "Steps"
  }

  function EntryFor(nodes: Nodes, key: string, children: seq<GraphEntry>): GraphEntry
    requires key in nodes
  {
    GraphEntry(key, nodes[key].name, MapNameToIcon(nodes[key].name), nodes[key].chaosResult, nodes[key].phase, children)
  }

  // ---- The first-child chain ----

  /** The chain of first children from start, ending in a node without children. */
  predicate IsChain(nodes: Nodes, start: string, chain: seq<string>) {
    && chain != [] && chain[0] == start
    && (forall i :: 0 <= i < |chain| ==> chain[i] in nodes)
    && (forall i :: 0 <= i < |chain| - 1 ==> Kids(nodes[chain[i]]) != [] && Kids(nodes[chain[i]])[0] == chain[i + 1])
    && Kids(nodes[chain[|chain| - 1]]) == []
  }

  predicate ChildrenPresent(nodes: Nodes, chain: seq<string>) {
    forall i :: 0 <= i < |chain| && chain[i] in nodes ==> forall c :: c in Kids(nodes[chain[i]]) ==> c in nodes
  }

  /** The children of the i-th node's predecessor other than the node itself. */
  function Siblings(nodes: Nodes, chain: seq<string>, i: nat): seq<string>
    requires i < |chain| && forall k :: 0 <= k < |chain| ==> chain[k] in nodes
  {
    if i == 0 || Kids(nodes[chain[i - 1]]) == [] then [] else Kids(nodes[chain[i - 1]])[1..]
  }

  function Leaves(nodes: Nodes, keys: seq<string>): seq<GraphEntry>
    requires forall k :: k in keys ==> k in nodes
  {
    seq(|keys|, i requires 0 <= i < |keys| => EntryFor(nodes, keys[i], []))
  }

  /** The positions of the chain that are shown, in order. */
  function Shown(nodes: Nodes, chain: seq<string>): seq<nat>
    requires forall k :: 0 <= k < |chain| ==> chain[k] in nodes
  {
    if chain == [] then []
    else
      var n := |chain| - 1;
      Shown(nodes, chain[..n]) + if IsStep(nodes[chain[n]]) then [] else [n]
  }

  lemma ShownStep(nodes: Nodes, chain: seq<string>, i: nat)
    requires i < |chain| && forall k :: 0 <= k < |chain| ==> chain[k] in nodes
    ensures Shown(nodes, chain[..i + 1]) == Shown(nodes, chain[..i]) + if IsStep(nodes[chain[i]]) then [] else [i]
  {
    assert chain[..i + 1][..i] == chain[..i];
  }

  /** Exactly the nodes that are not steps, each once and in chain order. */
  lemma {:induction false} ShownExactly(nodes: Nodes, chain: seq<string>)
    requires forall k :: 0 <= k < |chain| ==> chain[k] in nodes
    ensures forall i :: i in Shown(nodes, chain) <==>
      0 <= i < |chain| && nodes[chain[i]].nodeType != "Steps" && nodes[chain[i]].nodeType != "StepGroup"
    ensures forall i, j :: 0 <= i < j < |Shown(nodes, chain)| ==> Shown(nodes, chain)[i] < Shown(nodes, chain)[j]
  {
    if chain != [] {
      var n := |chain| - 1;
      ShownExactly(nodes, chain[..n]);
      var before := Shown(nodes, chain[..n]);
      forall i | 0 <= i < |before| ensures before[i] < n {
        assert before[i] in before;
      }
    }
  }

  /** The entry shows node key: its id, name, phase and chaos result, and the icon that goes with its name. */
  predicate Shows(nodes: Nodes, entry: GraphEntry, key: string) {
    && key in nodes && entry.id == key && entry.name == nodes[key].name
    && entry.status == nodes[key].phase && entry.chaosResult == nodes[key].chaosResult
    && (nodes[key].name == "install-chaos-faults" ==> entry.icon == "import")
    && (nodes[key].name == "cleanup-chaos-resources" ==> entry.icon == "command-rollback")
    && (nodes[key].name != "install-chaos-faults" && nodes[key].name != "cleanup-chaos-resources" ==> entry.icon == "chaos-scenario-builder")
  }

  /** The entry shows the i-th node of the chain, with its siblings below it, in order and without children of their own. */
  predicate Placed(nodes: Nodes, chain: seq<string>, entry: GraphEntry, i: nat)
    requires forall k :: 0 <= k < |chain| ==> chain[k] in nodes
  {
    i < |chain| && Shows(nodes, entry, chain[i]) &&
    var siblings := Siblings(nodes, chain, i);
    |entry.children| == |siblings| &&
    forall k :: 0 <= k < |siblings| ==> Shows(nodes, entry.children[k], siblings[k]) && entry.children[k].children == []
  }

  lemma EntryShows(nodes: Nodes, key: string, children: seq<GraphEntry>)
    requires key in nodes
    ensures Shows(nodes, EntryFor(nodes, key, children), key) && EntryFor(nodes, key, children).children == children
  {
    assert |"install-chaos-faults"| != |"cleanup-chaos-resources"|;
  }

  /** The entry as the walk builds it. */
  predicate Built(nodes: Nodes, chain: seq<string>, entry: GraphEntry, i: nat)
    requires forall k :: 0 <= k < |chain| ==> chain[k] in nodes
  {
    && i < |chain| && (forall k :: k in Siblings(nodes, chain, i) ==> k in nodes)
    && entry == EntryFor(nodes, chain[i], Leaves(nodes, Siblings(nodes, chain, i)))
  }

  lemma BuiltIsPlaced(nodes: Nodes, chain: seq<string>, entry: GraphEntry, i: nat)
    requires (forall k :: 0 <= k < |chain| ==> chain[k] in nodes) && Built(nodes, chain, entry, i)
    ensures Placed(nodes, chain, entry, i)
  {
    var siblings := Siblings(nodes, chain, i);
    EntryShows(nodes, chain[i], Leaves(nodes, siblings));
    forall k | 0 <= k < |siblings| ensures Shows(nodes, Leaves(nodes, siblings)[k], siblings[k]) && Leaves(nodes, siblings)[k].children == [] {
      EntryShows(nodes, siblings[k], []);
    }
  }

  /** Every node map whose first children descend in some ranking has a chain from every node. */
  lemma {:induction false} RankedHasChain(nodes: Nodes, rank: map<string, nat>, start: string) returns (chain: seq<string>)
    requires start in nodes && start in rank
    requires forall k :: k in nodes && Kids(nodes[k]) != [] ==>
      Kids(nodes[k])[0] in nodes && k in rank && Kids(nodes[k])[0] in rank && rank[Kids(nodes[k])[0]] < rank[k]
    ensures IsChain(nodes, start, chain)
    decreases rank[start]
  {
    if Kids(nodes[start]) == [] {
      chain := [start];
    } else {
      var rest := RankedHasChain(nodes, rank, Kids(nodes[start])[0]);
      chain := [start] + rest;
    }
  }

  /** The entries hung below a node: one per key left in the queue. */
  method HangBelow(nodes: Nodes, queue: seq<string>) returns (entries: seq<GraphEntry>)
    requires forall k :: k in queue ==> k in nodes
    ensures entries == Leaves(nodes, queue)
  {
    entries := [];
    for j := 0 to |queue|
      invariant entries == Leaves(nodes, queue[..j])
    {
      entries := entries + [EntryFor(nodes, queue[j], [])];
    }
    assert queue[..|queue|] == queue;
  }

  /**
   keys lists the node map's keys in iteration order; only the first is used. The
   chain is what makes the walk end, and the children must be present because the
   code dereferences each of them.
   */
  method TransformArgoData(nodes: Option<Nodes>, keys: seq<string>, ghost chain: seq<string>) returns (graph: seq<GraphEntry>)
    requires nodes.Some? && nodes.value != map[] ==>
      keys != [] && IsChain(nodes.value, keys[0], chain) && ChildrenPresent(nodes.value, chain)
    ensures nodes.None? || nodes.value == map[] ==> graph == []
    ensures nodes.Some? && nodes.value != map[] ==>
      var shown := Shown(nodes.value, chain);
      |graph| == |shown| && forall i :: 0 <= i < |graph| ==> Placed(nodes.value, chain, graph[i], shown[i])
  {
    graph := [];
    if nodes.None? || nodes.value == map[] {
      return;
    }
    var ns := nodes.value;
    var queue := [keys[0]];
    ghost var i := 0;
    while queue != []
      invariant 0 <= i <= |chain|
      invariant i == |chain| ==> queue == []
      invariant i < |chain| ==> queue != [] && queue[0] == chain[i] && queue[1..] == Siblings(ns, chain, i)
      invariant i < |chain| ==> forall k :: k in queue ==> k in ns
      invariant |graph| == |Shown(ns, chain[..i])|
      invariant forall k :: 0 <= k < |graph| ==> Built(ns, chain, graph[k], Shown(ns, chain[..i])[k])
      decreases |chain| - i
    {
      var nodeKey := queue[0];
      queue := queue[1..];
      var node := ns[nodeKey];
      var childrenNodes := HangBelow(ns, queue);
      queue := [];
      ShownStep(ns, chain, i);
      if !IsStep(node) {
        graph := graph + [EntryFor(ns, nodeKey, childrenNodes)];
      }
      if node.children.Some? {
        queue := queue + node.children.value;
      }
      i := i + 1;
    }
    assert chain[..|chain|] == chain;
    forall k | 0 <= k < |graph| ensures Placed(ns, chain, graph[k], Shown(ns, chain)[k]) {
      BuiltIsPlaced(ns, chain, graph[k], Shown(ns, chain)[k]);
    }
  }
}
