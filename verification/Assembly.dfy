/** Snapshot assembly. Phase one adds a tracked node for the first list item of each identity, list after
    list; phase two claims each tracked source once and adds reference nodes and edges only. */
module Assembly {
  import opened Text
  import opened Names
  import opened GraphBuilding

  datatype Owner = Owner(kind: string, name: string)

  /** One edge to a target, after making sure of a reference node for it (`ensure`), or only if the target is a
      listed resource (`listed`). */
  datatype Link = Link(ensure: bool, listed: bool, edgeType: string, kind: string, namespace: string, name: string, sourceField: string, confidence: string)

  /** What a network policy selects: positions in the pod list for its own selector and for each peer, or the
      sorted namespace names of a peer without pod selector. */
  datatype Peer = PodPeer(pods: set<nat>) | NamespacePeer(names: seq<string>)
  datatype PeerRule = PeerRule(edgeType: string, sourceField: string, peer: Peer)
  datatype Policy = Policy(selectorValid: bool, selected: set<nat>, peers: seq<PeerRule>)

  /** A list item after its kind's own analysis. `template` holds the links of a workload template, `links`
      every other link, in the order the analysis yields them. */
  datatype Item = Item(namespace: string, name: string, status: string, metadata: string, summary: string, valid: bool, ready: bool,
                       definition: string, owners: seq<Owner>, template: seq<Link>, links: seq<Link>, policy: Policy, labels: map<string, string>)

  datatype Endpoint = Endpoint(namespace: string, service: string, pod: string, sourceField: string, confidence: string)

  datatype Resources = Resources(clusterId: string, clusterName: string, version: string, lists: map<string, seq<Item>>, endpoints: seq<Endpoint>)

  function List(r: Resources, kind: string): seq<Item> {
    if kind in r.lists then r.lists[kind] else []
  }

  // ----- phase one -----

  function Spec(kind: string, item: Item): NodeSpec {
    NodeSpec(kind, item.namespace, item.name, item.status, item.metadata, item.summary)
  }

  /** Nodes and pods report an invalid status even when they were not added; five kinds report nothing more
      than the failure to be added; every other kind reports an added item that fails its validation. */
  predicate ReportsInvalid(kind: string, item: Item, added: bool) {
    if kind == "Node" || kind == "Pod" then !item.valid
    else if kind == "Namespace" || kind == "ServiceAccount" || kind == "CustomResourceDefinition" || kind == "CustomResource" || kind == "NetworkPolicy" then false
    else added && !item.valid
  }

  function AddParents(g: Graph, clusterNode: string, kind: string, item: Item, id: string, added: bool): Graph {
    if kind == "Namespace" then
      AddEdge(g, EdgeSpec("owns", clusterNode, id, "metadata.namespace", "observed")).0
    else if kind == "CustomResource" && added then
      var g1 := if item.namespace == "" then g
                else AddEdge(g, EdgeSpec("owns", NodeId(g.clusterId, "Namespace", "", item.namespace), id, "metadata.namespace", "observed")).0;
      AddEdge(g1, EdgeSpec("owns", NodeId(g.clusterId, "CustomResourceDefinition", "", item.definition), id, "CustomResourceDefinition.spec.names.kind", "observed")).0
    else g
  }

  function AddItem(g: Graph, clusterNode: string, kind: string, item: Item): (Graph, bool) {
    var (g1, id, added) := AddTracked(g, Spec(kind, item));
    var g2 := if ReportsInvalid(kind, item, added) then RecordIssue(g1, kind) else g1;
    (AddParents(g2, clusterNode, kind, item, id, added), added)
  }

  function AddItems(g: Graph, clusterNode: string, kind: string, items: seq<Item>): Graph {
    if items == [] then g
    else AddItem(AddItems(g, clusterNode, kind, items[..|items| - 1]), clusterNode, kind, items[|items| - 1]).0
  }

  function AddKinds(g: Graph, clusterNode: string, r: Resources, kinds: seq<string>): Graph {
    if kinds == [] then g
    else
      var kind := kinds[|kinds| - 1];
      AddItems(AddKinds(g, clusterNode, r, kinds[..|kinds| - 1]), clusterNode, kind, List(r, kind))
  }

  function ClusterSpec(r: Resources): NodeSpec {
    NodeSpec("Cluster", "", SafeClusterName(r.clusterName, SafeClusterId(r.clusterId)), "healthy", "provider=native", r.version)
  }

  function PhaseOne(r: Resources): Graph {
    var (g, clusterNode) := AddNode(EmptyGraph(r.clusterId), ClusterSpec(r));
    AddKinds(g, clusterNode, r, ResourceKinds)
  }

  // ----- which items are added, and with what -----

  predicate Accepts(kind: string, item: Item) {
    ValidNodeIdentity(kind, item.namespace, item.name)
  }

  predicate SameIdentity(a: Item, b: Item) {
    a.namespace == b.namespace && a.name == b.name
  }

  function AcceptedBy(kind: string): Item -> bool {
    item => Accepts(kind, item)
  }

  /** Item i is the first of its list with its identity, and the identity is accepted. */
  predicate First(accepts: Item -> bool, items: seq<Item>, i: nat)
    requires i < |items|
  {
    accepts(items[i]) && forall j :: 0 <= j < i ==> !SameIdentity(items[j], items[i])
  }

  /** The positions of the first items, in list order. */
  function FirstIndexes(accepts: Item -> bool, items: seq<Item>): (r: seq<nat>)
    ensures forall i: nat :: i in r <==> i < |items| && First(accepts, items, i)
    ensures forall a, b :: 0 <= a < b < |r| ==> r[a] < r[b]
  {
    if items == [] then []
    else
      var n := |items| - 1;
      var r := FirstIndexes(accepts, items[..n]);
      assert forall i: nat :: i < n ==> First(accepts, items[..n], i) == First(accepts, items, i);
      assert forall a :: 0 <= a < |r| ==> r[a] in r;
      assert forall i: nat :: i in r ==> i < n;
      if First(accepts, items, n) then r + [n] else r
  }

  function ItemNode(clusterId: string, kind: string, item: Item, row: nat): Node {
    Node(NodeId(clusterId, kind, item.namespace, item.name), kind, item.namespace, item.name, SafeNodeStatus(item.status),
         item.metadata, item.summary, Lane(kind), 80 + row * 92)
  }

  function NodesAt(clusterId: string, kind: string, items: seq<Item>, positions: seq<nat>): seq<Node>
    requires forall k :: 0 <= k < |positions| ==> positions[k] < |items|
  {
    seq(|positions|, k requires 0 <= k < |positions| => ItemNode(clusterId, kind, items[positions[k]], k))
  }

  /** The nodes a list contributes: its first items, in order, on consecutive rows. */
  function FirstNodes(clusterId: string, kind: string, items: seq<Item>): seq<Node> {
    var positions := FirstIndexes(AcceptedBy(kind), items);
    assert forall k :: 0 <= k < |positions| ==> positions[k] in positions;
    NodesAt(clusterId, kind, items, positions)
  }

  function KindNodes(clusterId: string, r: Resources, kinds: seq<string>): seq<Node> {
    if kinds == [] then []
    else
      var kind := kinds[|kinds| - 1];
      KindNodes(clusterId, r, kinds[..|kinds| - 1]) + FirstNodes(clusterId, kind, List(r, kind))
  }

  /** The issues of one item: not being added, and failing its validation where the kind reports that. */
  function ItemIssues(kind: string, items: seq<Item>, i: nat): nat
    requires i < |items|
  {
    var added := First(AcceptedBy(kind), items, i);
    (if added then 0 else 1) + (if ReportsInvalid(kind, items[i], added) then 1 else 0)
  }

  function ListIssues(kind: string, items: seq<Item>): nat {
    if items == [] then 0 else ListIssues(kind, items[..|items| - 1]) + ItemIssues(kind, items, |items| - 1)
  }

  function BumpBy(issues: map<string, nat>, id: string, n: nat): map<string, nat> {
    if n == 0 then issues else Bump(BumpBy(issues, id, n - 1), id)
  }

  lemma {:induction false} BumpByCount(issues: map<string, nat>, id: string, n: nat)
    requires Count(issues, id) <= MaxIssueCount
    ensures Count(BumpBy(issues, id, n), id) == if Count(issues, id) + n <= MaxIssueCount then Count(issues, id) + n else MaxIssueCount
    ensures forall other :: other != id ==> Count(BumpBy(issues, id, n), other) == Count(issues, other)
  {
    if n > 0 {
      BumpByCount(issues, id, n - 1);
    }
  }

  lemma {:induction false} BumpByAdd(issues: map<string, nat>, id: string, n: nat, m: nat)
    ensures BumpBy(BumpBy(issues, id, n), id, m) == BumpBy(issues, id, n + m)
  {
    if m > 0 {
      BumpByAdd(issues, id, n, m - 1);
    }
  }

  // ----- phase one refines the specification -----

  predicate NoKind(nodes: seq<Node>, kind: string) {
    forall k :: 0 <= k < |nodes| ==> nodes[k].kind != kind
  }

  lemma {:induction false} NoKindCount(nodes: seq<Node>, kind: string)
    requires NoKind(nodes, kind)
    ensures KindCount(nodes, kind) == 0
  {
    if nodes != [] {
      NoKindCount(nodes[..|nodes| - 1], kind);
    }
  }

  lemma {:induction false} KindCountAppend(a: seq<Node>, b: seq<Node>, kind: string)
    requires forall k :: 0 <= k < |b| ==> b[k].kind == kind
    ensures KindCount(a + b, kind) == KindCount(a, kind) + |b|
  {
    if b == [] {
      assert a + b == a;
    } else {
      var n := |b| - 1;
      assert (a + b)[..|a| + n] == a + b[..n];
      KindCountAppend(a, b[..n], kind);
    }
  }

  /** One more item: a node on the next row if it is a first item, nothing otherwise. */
  lemma FirstNodesStep(clusterId: string, kind: string, items: seq<Item>)
    requires items != []
    ensures var n := |items| - 1;
            var before := FirstNodes(clusterId, kind, items[..n]);
            FirstNodes(clusterId, kind, items)
              == if First(AcceptedBy(kind), items, n) then before + [ItemNode(clusterId, kind, items[n], |before|)] else before
  {
    hide ItemNode, First, AcceptedBy, FirstIndexes;
    var n := |items| - 1;
    var p := FirstIndexes(AcceptedBy(kind), items[..n]);
    assert forall k :: 0 <= k < |p| ==> p[k] in p;
    FirstIndexesStep(AcceptedBy(kind), items);
    SameNodesAt(clusterId, kind, items, p);
  }

  lemma FirstIndexesStep(accepts: Item -> bool, items: seq<Item>)
    requires items != []
    ensures var n := |items| - 1;
            FirstIndexes(accepts, items) == FirstIndexes(accepts, items[..n]) + if First(accepts, items, n) then [n] else []
  {
    hide First;
    var p := FirstIndexes(accepts, items[..|items| - 1]);
    assert p + [] == p;
  }

  lemma SameNodesAt(clusterId: string, kind: string, items: seq<Item>, p: seq<nat>)
    requires items != [] && forall k :: 0 <= k < |p| ==> p[k] < |items| - 1
    ensures var n := |items| - 1;
            && NodesAt(clusterId, kind, items, p) == NodesAt(clusterId, kind, items[..n], p)
            && NodesAt(clusterId, kind, items, p + [n]) == NodesAt(clusterId, kind, items[..n], p) + [ItemNode(clusterId, kind, items[n], |p|)]
            && p + [] == p
  {
    hide ItemNode;
  }

  /** Every accepted identity of a list has a first item. */
  lemma {:induction false} FirstExists(kind: string, items: seq<Item>, j: nat) returns (i: nat)
    requires j < |items| && Accepts(kind, items[j])
    ensures i <= j && SameIdentity(items[i], items[j]) && First(AcceptedBy(kind), items, i)
  {
    if k: nat :| k < j && SameIdentity(items[k], items[j]) {
      i := FirstExists(kind, items, k);
    } else {
      i := j;
    }
  }

  function Ids(nodes: seq<Node>): set<string> {
    set node | node in nodes :: node.id
  }

  /** gi is g after the items of one list: their first nodes, all tracked, and their issues. */
  ghost predicate ListAdded(g: Graph, gi: Graph, kind: string, items: seq<Item>) {
    var nodes := FirstNodes(g.clusterId, kind, items);
    && gi.clusterId == g.clusterId
    && gi.nodes == g.nodes + nodes
    && gi.resourceNodeSet == g.resourceNodeSet + Ids(nodes)
    && gi.issues == BumpBy(g.issues, IssueId(kind), ListIssues(kind, items))
  }

  /** Each node of a list is that of one of its first items, and each first item has its node. */
  lemma FirstNodeItem(clusterId: string, kind: string, items: seq<Item>, row: nat) returns (i: nat)
    requires row < |FirstNodes(clusterId, kind, items)|
    ensures i < |items| && First(AcceptedBy(kind), items, i)
    ensures FirstNodes(clusterId, kind, items)[row] == ItemNode(clusterId, kind, items[i], row)
  {
    hide ItemNode, First;
    i := FirstIndexes(AcceptedBy(kind), items)[row];
    assert i in FirstIndexes(AcceptedBy(kind), items);
  }

  lemma FirstItemNode(clusterId: string, kind: string, items: seq<Item>, i: nat) returns (row: nat)
    requires i < |items| && First(AcceptedBy(kind), items, i)
    ensures row < |FirstNodes(clusterId, kind, items)|
    ensures FirstNodes(clusterId, kind, items)[row] == ItemNode(clusterId, kind, items[i], row)
  {
    hide ItemNode, First;
    var positions := FirstIndexes(AcceptedBy(kind), items);
    assert i in positions;
    row :| 0 <= row < |positions| && positions[row] == i;
  }

  /** During a list, an identity is in the graph exactly if an earlier item of the list has it. */
  lemma LookupDuringList(g: Graph, gi: Graph, kind: string, items: seq<Item>, item: Item)
    requires Inv(gi) && ListAdded(g, gi, kind, items) && NoKind(g.nodes, kind) && Accepts(kind, item)
    ensures var id := NodeId(g.clusterId, kind, item.namespace, item.name);
            && (id in gi.nodeSet <==> exists j :: 0 <= j < |items| && SameIdentity(items[j], item))
            && (id in gi.nodeSet ==> id in gi.resourceNodeSet)
  {
    hide EdgesInv, LayoutInv, NodesInv, ValidNodeIdentity, IssueId, ListIssues, BumpBy, NodeId, FirstNodes, First;
    var id := NodeId(g.clusterId, kind, item.namespace, item.name);
    if id in gi.nodeSet {
      var j := FoundIsEarlier(g, gi, kind, items, item);
    }
    if j :| 0 <= j < |items| && SameIdentity(items[j], item) {
      EarlierIsFound(g, gi, kind, items, item, j);
    }
  }

  lemma FoundIsEarlier(g: Graph, gi: Graph, kind: string, items: seq<Item>, item: Item) returns (j: nat)
    requires NodesInv(gi) && ListAdded(g, gi, kind, items) && NoKind(g.nodes, kind) && Accepts(kind, item)
    requires NodeId(g.clusterId, kind, item.namespace, item.name) in gi.nodeSet
    ensures j < |items| && SameIdentity(items[j], item)
  {
    hide ValidNodeIdentity, IssueId, ListIssues, BumpBy, NodeId, FirstNodes, First;
    var k :| 0 <= k < |gi.nodes| && gi.nodes[k].id == NodeId(g.clusterId, kind, item.namespace, item.name);
    var node := gi.nodes[k];
    assert Placed(gi.clusterId, node);
    NodeIdInjective(g.clusterId, kind, item.namespace, item.name, node.kind, node.namespace, node.name);
    assert k >= |g.nodes|;
    j := FirstNodeItem(g.clusterId, kind, items, k - |g.nodes|);
  }

  lemma EarlierIsFound(g: Graph, gi: Graph, kind: string, items: seq<Item>, item: Item, j: nat)
    requires NodesInv(gi) && ListAdded(g, gi, kind, items) && Accepts(kind, item)
    requires j < |items| && SameIdentity(items[j], item)
    ensures NodeId(g.clusterId, kind, item.namespace, item.name) in gi.nodeSet * gi.resourceNodeSet
  {
    hide ValidNodeIdentity, IssueId, ListIssues, BumpBy, NodeId, FirstNodes, First;
    var i := FirstExists(kind, items, j);
    var row := FirstItemNode(g.clusterId, kind, items, i);
    var node := FirstNodes(g.clusterId, kind, items)[row];
    assert node in FirstNodes(g.clusterId, kind, items);
    assert gi.nodes[|g.nodes| + row] == node;
  }

  /** A step that may add edges and nothing else. */
  ghost predicate OnlyEdges(g: Graph, g': Graph) {
    Inv(g') && Grows(g, g') && g' == g.(edges := g'.edges, edgeSet := g'.edgeSet)
  }

  lemma AddParentsInv(g: Graph, clusterNode: string, kind: string, item: Item, id: string, added: bool)
    requires Inv(g)
    ensures OnlyEdges(g, AddParents(g, clusterNode, kind, item, id, added))
  {
    hide Inv, AddEdge, NodeId;
    if kind == "Namespace" {
      AddEdgeInv(g, EdgeSpec("owns", clusterNode, id, "metadata.namespace", "observed"));
    } else if kind == "CustomResource" && added {
      var byNamespace := EdgeSpec("owns", NodeId(g.clusterId, "Namespace", "", item.namespace), id, "metadata.namespace", "observed");
      AddEdgeInv(g, byNamespace);
      var g1 := if item.namespace == "" then g else AddEdge(g, byNamespace).0;
      AddEdgeInv(g1, EdgeSpec("owns", NodeId(g.clusterId, "CustomResourceDefinition", "", item.definition), id, "CustomResourceDefinition.spec.names.kind", "observed"));
    }
  }

  /** Adding a tracked node, as seen from the id: refused, already tracked, or new. */
  lemma AddTrackedCases(g: Graph, kind: string, item: Item)
    requires Inv(g) && kind != "Cluster"
    requires var id := NodeId(g.clusterId, kind, item.namespace, item.name);
             Accepts(kind, item) && id in g.nodeSet ==> id in g.resourceNodeSet
    ensures var (g', id, added) := AddTracked(g, Spec(kind, item));
            && added == (Accepts(kind, item) && NodeId(g.clusterId, kind, item.namespace, item.name) !in g.nodeSet)
            && g'.clusterId == g.clusterId
            && g'.nodes == (if added then g.nodes + [ItemNode(g.clusterId, kind, item, Count(g.layout, kind))] else g.nodes)
            && g'.resourceNodeSet == (if added then g.resourceNodeSet + {NodeId(g.clusterId, kind, item.namespace, item.name)} else g.resourceNodeSet)
            && g'.issues == (if added then g.issues else Bump(g.issues, IssueId(kind)))
  {
    hide NodesInv, EdgesInv, LayoutInv, ValidNodeIdentity, IssueId, Bump, Lane, SafeNodeStatus;
    NodeIdNonEmpty(g.clusterId, kind, item.namespace, item.name);
    hide NodeId;
  }

  lemma GrowsTransitive(a: Graph, b: Graph, c: Graph)
    requires Grows(a, b) && Grows(b, c)
    ensures Grows(a, c)
  {}

  /** The whole effect of one item whose identity, if already in the graph, is already tracked. */
  lemma AddItemEffect(g: Graph, clusterNode: string, kind: string, item: Item)
    requires Inv(g) && kind != "Cluster"
    requires var id := NodeId(g.clusterId, kind, item.namespace, item.name);
             Accepts(kind, item) && id in g.nodeSet ==> id in g.resourceNodeSet
    ensures var (g', added) := AddItem(g, clusterNode, kind, item);
            && Inv(g') && Grows(g, g')
            && added == (Accepts(kind, item) && NodeId(g.clusterId, kind, item.namespace, item.name) !in g.nodeSet)
            && g'.nodes == (if added then g.nodes + [ItemNode(g.clusterId, kind, item, Count(g.layout, kind))] else g.nodes)
            && g'.resourceNodeSet == (if added then g.resourceNodeSet + {NodeId(g.clusterId, kind, item.namespace, item.name)} else g.resourceNodeSet)
            && g'.issues == BumpBy(g.issues, IssueId(kind), (if added then 0 else 1) + (if ReportsInvalid(kind, item, added) then 1 else 0))
  {
    hide Inv, ValidNodeIdentity, IssueId, Bump, ItemNode, NodeId, ReportsInvalid, AddParents, AddTracked, Accepts;
    AddTrackedCases(g, kind, item);
    AddTrackedInv(g, Spec(kind, item));
    var (g1, id, added) := AddTracked(g, Spec(kind, item));
    RecordIssueInv(g1, kind);
    var g2 := if ReportsInvalid(kind, item, added) then RecordIssue(g1, kind) else g1;
    AddParentsInv(g2, clusterNode, kind, item, id, added);
    GrowsTransitive(g, g1, g2);
    GrowsTransitive(g, g2, AddParents(g2, clusterNode, kind, item, id, added));
    var b0, b1 := BumpBy(g.issues, IssueId(kind), 0), BumpBy(g.issues, IssueId(kind), 1);
  }

  /** The next row of a kind during its list is the number of nodes the list has added. */
  lemma RowDuringList(g: Graph, gi: Graph, kind: string, items: seq<Item>)
    requires LayoutInv(gi) && ListAdded(g, gi, kind, items) && NoKind(g.nodes, kind)
    ensures Count(gi.layout, kind) == |FirstNodes(g.clusterId, kind, items)|
  {
    hide ListIssues, BumpBy, IssueId, First;
    NoKindCount(g.nodes, kind);
    KindCountAppend(g.nodes, FirstNodes(g.clusterId, kind, items), kind);
  }

  /** One item: it is added exactly if it is the first of its list with an accepted identity. */
  lemma AddItemStep(g: Graph, gi: Graph, clusterNode: string, kind: string, items: seq<Item>)
    requires items != [] && kind != "Cluster" && NoKind(g.nodes, kind)
    requires Inv(gi) && ListAdded(g, gi, kind, items[..|items| - 1])
    ensures var (g', added) := AddItem(gi, clusterNode, kind, items[|items| - 1]);
            && added == First(AcceptedBy(kind), items, |items| - 1)
            && Inv(g') && Grows(gi, g') && ListAdded(g, g', kind, items)
  {
    hide NodesInv, EdgesInv, LayoutInv, TrackInv, ValidNodeIdentity, IssueId, Bump, BumpBy, NodeId, ReportsInvalid, AddItem, FirstNodes, NoKind, Lane, SafeNodeStatus;
    var n := |items| - 1;
    var item, before := items[n], items[..n];
    if Accepts(kind, item) {
      LookupDuringList(g, gi, kind, before, item);
      assert forall j :: 0 <= j < n ==> before[j] == items[j];
    }
    AddItemEffect(gi, clusterNode, kind, item);
    RowDuringList(g, gi, kind, before);
    FirstNodesStep(g.clusterId, kind, items);
    BumpByAdd(g.issues, IssueId(kind), ListIssues(kind, before), ItemIssues(kind, items, n));
    IdsAppend(FirstNodes(g.clusterId, kind, before), ItemNode(g.clusterId, kind, item, |FirstNodes(g.clusterId, kind, before)|));
  }

  lemma IdsAppend(nodes: seq<Node>, node: Node)
    ensures Ids(nodes + [node]) == Ids(nodes) + {node.id}
  {
    assert forall x :: x in nodes + [node] <==> x in nodes || x == node;
  }

  lemma {:induction false} AddItemsRefines(g: Graph, clusterNode: string, kind: string, items: seq<Item>)
    requires Inv(g) && kind != "Cluster" && NoKind(g.nodes, kind)
    ensures var g' := AddItems(g, clusterNode, kind, items);
            Inv(g') && Grows(g, g') && ListAdded(g, g', kind, items)
  {
    hide Inv, AddItem, NoKind, First, FirstNodes, IssueId, ItemIssues;
    var g' := AddItems(g, clusterNode, kind, items);
    if items == [] {
      FirstNodesOfNone(g, kind);
    } else {
      var gi := AddItems(g, clusterNode, kind, items[..|items| - 1]);
      AddItemsRefines(g, clusterNode, kind, items[..|items| - 1]);
      AddItemStep(g, gi, clusterNode, kind, items);
      GrowsTransitive(g, gi, g');
    }
  }

  lemma FirstNodesOfNone(g: Graph, kind: string)
    ensures ListAdded(g, g, kind, []) && FirstNodes(g.clusterId, kind, []) == []
  {
    assert FirstNodes(g.clusterId, kind, []) == [];
  }

  predicate DistinctKinds(kinds: seq<string>) {
    && (forall i, j :: 0 <= i < j < |kinds| ==> kinds[i] != kinds[j])
    && (forall i :: 0 <= i < |kinds| ==> kinds[i] != "Cluster" && kinds[i] in ResourceKinds)
  }

  function Saturated(n: nat): nat {
    if n <= MaxIssueCount then n else MaxIssueCount
  }

  /** g' is g after the lists of some kinds: their nodes in order, all tracked, each list with its own issue count. */
  ghost predicate KindsAdded(g: Graph, g': Graph, r: Resources, kinds: seq<string>) {
    var nodes := KindNodes(g.clusterId, r, kinds);
    && g'.clusterId == g.clusterId
    && g'.nodes == g.nodes + nodes
    && g'.resourceNodeSet == g.resourceNodeSet + Ids(nodes)
    && IssuesAdded(g.issues, g'.issues, r, kinds)
  }

  ghost predicate IssuesAdded(issues: map<string, nat>, issues': map<string, nat>, r: Resources, kinds: seq<string>) {
    && (forall kind :: kind in kinds && Count(issues, IssueId(kind)) == 0 ==>
          Count(issues', IssueId(kind)) == Saturated(ListIssues(kind, List(r, kind))))
    && (forall kind :: kind in ResourceKinds && kind !in kinds ==> Count(issues', IssueId(kind)) == Count(issues, IssueId(kind)))
  }

  lemma {:induction false} KindNodesKinds(clusterId: string, r: Resources, kinds: seq<string>)
    ensures forall k :: 0 <= k < |KindNodes(clusterId, r, kinds)| ==> KindNodes(clusterId, r, kinds)[k].kind in kinds
  {
    if kinds != [] {
      KindNodesKinds(clusterId, r, kinds[..|kinds| - 1]);
    }
  }

  lemma IssuesStep(issues: map<string, nat>, mid: map<string, nat>, issues': map<string, nat>, r: Resources, kinds: seq<string>)
    requires kinds != [] && DistinctKinds(kinds) && IssuesAdded(issues, mid, r, kinds[..|kinds| - 1])
    requires var kind := kinds[|kinds| - 1];
             Count(issues, IssueId(kind)) == 0 && issues' == BumpBy(mid, IssueId(kind), ListIssues(kind, List(r, kind)))
    ensures IssuesAdded(issues, issues', r, kinds)
  {
    hide ListIssues, IssueId, BumpBy, ResourceKinds, Count, Saturated, List;
    SaturatedIs(ListIssues(kinds[|kinds| - 1], List(r, kinds[|kinds| - 1])));
    var n := |kinds| - 1;
    var kind := kinds[n];
    assert forall j :: 0 <= j < n ==> kinds[..n][j] == kinds[j];
    assert kind !in kinds[..n] && kind in ResourceKinds;
    assert Count(mid, IssueId(kind)) == 0;
    BumpByCount(mid, IssueId(kind), ListIssues(kind, List(r, kind)));
    forall other | other in ResourceKinds && other != kind
      ensures Count(issues', IssueId(other)) == Count(mid, IssueId(other))
    {
      IssueIdInjective(other, kind);
    }
    forall other | other in kinds
      ensures other == kind || other in kinds[..n]
      ensures other in ResourceKinds
    {}
  }

  lemma SaturatedIs(n: nat)
    ensures Saturated(n) == if n <= MaxIssueCount then n else MaxIssueCount
  {
  }

  lemma DistinctPrefix(kinds: seq<string>)
    requires DistinctKinds(kinds) && kinds != []
    ensures var n := |kinds| - 1;
            DistinctKinds(kinds[..n]) && kinds[n] !in kinds[..n] && kinds[n] != "Cluster" && kinds[n] in ResourceKinds
    ensures forall kind :: kind in kinds[..|kinds| - 1] ==> kind in kinds
  {
    assert forall j :: 0 <= j < |kinds| - 1 ==> kinds[..|kinds| - 1][j] == kinds[j];
  }

  lemma NoNewKind(g: Graph, gi: Graph, r: Resources, kinds: seq<string>, kind: string)
    requires KindsAdded(g, gi, r, kinds) && NoKind(g.nodes, kind) && kind !in kinds
    ensures NoKind(gi.nodes, kind)
  {
    hide IssuesAdded, KindNodes;
    KindNodesKinds(g.clusterId, r, kinds);
  }

  lemma KindsStep(g: Graph, gi: Graph, g': Graph, r: Resources, kinds: seq<string>)
    requires kinds != [] && DistinctKinds(kinds) && g.issues == map[]
    requires KindsAdded(g, gi, r, kinds[..|kinds| - 1])
    requires ListAdded(gi, g', kinds[|kinds| - 1], List(r, kinds[|kinds| - 1]))
    ensures KindsAdded(g, g', r, kinds)
  {
    hide IssuesAdded, DistinctKinds, IssueId, ListIssues, List, FirstNodes, BumpBy;
    var n := |kinds| - 1;
    IssuesStep(g.issues, gi.issues, g'.issues, r, kinds);
    IdsConcat(KindNodes(g.clusterId, r, kinds[..n]), FirstNodes(g.clusterId, kinds[n], List(r, kinds[n])));
  }

  lemma {:induction false} AddKindsRefines(g: Graph, clusterNode: string, r: Resources, kinds: seq<string>)
    requires Inv(g) && DistinctKinds(kinds) && g.issues == map[]
    requires forall kind :: kind in kinds ==> NoKind(g.nodes, kind)
    ensures var g' := AddKinds(g, clusterNode, r, kinds);
            Inv(g') && Grows(g, g') && KindsAdded(g, g', r, kinds)
  {
    hide Inv, NoKind, AddItems, FirstNodes, IssueId, ListIssues, List, DistinctKinds, IssuesAdded, ListAdded;
    if kinds != [] {
      var n := |kinds| - 1;
      DistinctPrefix(kinds);
      AddKindsRefines(g, clusterNode, r, kinds[..n]);
      var gi := AddKinds(g, clusterNode, r, kinds[..n]);
      hide KindsAdded, AddKinds;
      NoNewKind(g, gi, r, kinds[..n], kinds[n]);
      AddItemsRefines(gi, clusterNode, kinds[n], List(r, kinds[n]));
      var g' := AddItems(gi, clusterNode, kinds[n], List(r, kinds[n]));
      GrowsTransitive(g, gi, g');
      KindsStep(g, gi, g', r, kinds);
    } else {
      NoIssuesAdded(r);
    }
  }

  lemma NoIssuesAdded(r: Resources)
    ensures IssuesAdded(map[], map[], r, [])
  {}

  lemma IdsConcat(a: seq<Node>, b: seq<Node>)
    ensures Ids(a + b) == Ids(a) + Ids(b)
  {
    assert forall x :: x in a + b <==> x in a || x in b;
  }

  // ----- the cluster node -----

  function ClusterNode(r: Resources): Node {
    NewNode(EmptyGraph(r.clusterId), ClusterSpec(r))
  }

  lemma VisibleText(t: string, maxBytes: nat)
    requires TrimSpace(t) == t && |t| <= maxBytes && forall c :: c in t ==> c >= ' ' && c != '\U{7f}'
    ensures SafeVisibleText(t, maxBytes) == Some(t)
  {}

  lemma SafeClusterIdVisible(clusterId: string)
    ensures var id := SafeClusterId(clusterId);
            id != "" && TrimSpace(id) == id && |id| <= 64 && forall c :: c in id ==> ClusterIdByte(c)
  {
    TrimSpaceIdempotent(clusterId);
    hide TrimSpace;
    assert TrimSpace("in-cluster") == "in-cluster" by {
      TrimInCluster();
    }
  }

  lemma TrimInCluster()
    ensures TrimSpace("in-cluster") == "in-cluster"
  {}

  lemma SafeClusterNameVisible(value: string, clusterId: string)
    ensures var name := SafeClusterName(value, SafeClusterId(clusterId));
            name != "" && SafeVisibleText(name, 128) == Some(name) && TrimSpace(name) == name
  {
    hide TrimSpace, SafeClusterId;
    TrimSpaceIdempotent(value);
    SafeClusterIdVisible(clusterId);
    var id := SafeClusterId(clusterId);
    assert forall c :: c in id ==> ClusterIdByte(c);
    VisibleText(id, 128);
  }

  /** Whatever the configured id and name, the cluster node is accepted, under its sanitized name. */
  lemma ClusterNodeAccepted(r: Resources)
    ensures ValidNodeIdentity("Cluster", "", ClusterNode(r).name)
    ensures ClusterNode(r).name == SafeClusterName(r.clusterName, SafeClusterId(r.clusterId))
  {
    hide TrimSpace, SafeClusterId, SafeVisibleText;
    var name := SafeClusterName(r.clusterName, SafeClusterId(r.clusterId));
    SafeClusterNameVisible(r.clusterName, r.clusterId);
    assert ValidKind("Cluster");
  }

  lemma ResourceKindsDistinct()
    ensures DistinctKinds(ResourceKinds)
  {
    forall i, j | 0 <= i < j < |ResourceKinds|
      ensures ResourceKinds[i] != ResourceKinds[j]
    {
      KindsDistinct(i, j);
    }
  }

  /** After phase one the nodes are the cluster node and then, kind by kind, the first items of each list. */
  lemma PhaseOneRefines(r: Resources)
    ensures var g := PhaseOne(r);
            && Inv(g) && g.clusterId == SafeClusterId(r.clusterId)
            && g.nodes == [ClusterNode(r)] + KindNodes(g.clusterId, r, ResourceKinds)
            && g.resourceNodeSet == Ids(KindNodes(g.clusterId, r, ResourceKinds))
            && forall kind :: kind in ResourceKinds ==> Count(g.issues, IssueId(kind)) == Saturated(ListIssues(kind, List(r, kind)))
  {
    hide Inv, ValidNodeIdentity, IssueId, ListIssues, AddKinds, KindNodes, List, SafeClusterName, DistinctKinds;
    var g0 := EmptyGraph(r.clusterId);
    EmptyInv(r.clusterId);
    ClusterNodeAccepted(r);
    AddNodeInv(g0, ClusterSpec(r));
    ResourceKindsDistinct();
    var (g1, clusterNode) := AddNode(g0, ClusterSpec(r));
    assert g1.nodes == [ClusterNode(r)];
    NoClusterKind();
    AddKindsRefines(g1, clusterNode, r, ResourceKinds);
  }

  lemma NoClusterKind()
    ensures "Cluster" !in ResourceKinds
  {}
}
