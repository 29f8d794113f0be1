/** The mutable graph builder: nodes and edges deduplicated by their string ids, a row for each new node of a
    kind, and a saturating issue counter per resource list. Functions give each operation's effect on the
    builder as a value. */
module GraphBuilding {
  import opened Text
  import opened Names

  /** `metadata` stands for the sanitized labels, annotations, uid, age and owners. */
  datatype Node = Node(id: string, kind: string, namespace: string, name: string, status: string, metadata: string, summary: string, x: int, y: int)
  datatype Edge = Edge(id: string, source: string, target: string, edgeType: string, sourceField: string, confidence: string)

  /** What a caller hands to `addNodeWithMetadata`. */
  datatype NodeSpec = NodeSpec(kind: string, namespace: string, name: string, status: string, metadata: string, summary: string)
  datatype EdgeSpec = EdgeSpec(edgeType: string, source: string, target: string, sourceField: string, confidence: string)

  datatype Graph = Graph(clusterId: string, layout: map<string, nat>, nodeSet: set<string>, resourceNodeSet: set<string>,
                         issues: map<string, nat>, edgeSet: set<string>, nodes: seq<Node>, edges: seq<Edge>)

  const MaxIssueCount := 1_000_000

  // ----- tables -----

  /** The resource kinds in the order their lists are assembled, and the diagnostic id of each list. */
  const ResourceKinds: seq<string> := [
    "Namespace", "Node", "Deployment", "ReplicaSet", "StatefulSet", "DaemonSet", "Job", "CronJob",
    "HorizontalPodAutoscaler", "ServiceAccount", "ConfigMap", "StorageClass", "CustomResourceDefinition",
    "CustomResource", "PersistentVolume", "PersistentVolumeClaim", "Service", "Ingress", "Gateway",
    "HTTPRoute", "GRPCRoute", "TLSRoute", "TCPRoute", "NetworkPolicy", "Pod"]
  const IssueIds: seq<string> := [
    "snapshot/namespaces", "snapshot/nodes", "snapshot/deployments", "snapshot/replicasets", "snapshot/statefulsets",
    "snapshot/daemonsets", "snapshot/jobs", "snapshot/cronjobs", "snapshot/hpas", "snapshot/serviceaccounts",
    "snapshot/configmaps", "snapshot/storageclasses", "snapshot/crds", "snapshot/custom-resources", "snapshot/pvs",
    "snapshot/pvcs", "snapshot/services", "snapshot/ingresses", "snapshot/gateways", "snapshot/httproutes",
    "snapshot/grpcroutes", "snapshot/tlsroutes", "snapshot/tcproutes", "snapshot/networkpolicies", "snapshot/pods"]
  const LaneX: map<string, int> := map[
    "default" := 980, "Cluster" := 90, "Namespace" := 280, "Node" := 520, "Ingress" := 720, "Gateway" := 720,
    "HTTPRoute" := 840, "GRPCRoute" := 840, "TLSRoute" := 840, "TCPRoute" := 840, "Deployment" := 760,
    "ReplicaSet" := 900, "StatefulSet" := 760, "DaemonSet" := 760, "Job" := 900, "CronJob" := 760,
    "HorizontalPodAutoscaler" := 720, "Service" := 980, "Pod" := 1080, "NetworkPolicy" := 1180,
    "ServiceAccount" := 1220, "ConfigMap" := 1220, "Secret" := 1220, "PersistentVolumeClaim" := 1220,
    "PersistentVolume" := 1380, "StorageClass" := 1380, "CustomResourceDefinition" := 1540, "CustomResource" := 1540]

  lemma KindsDistinct(i: nat, j: nat)
    requires i < j < |ResourceKinds|
    ensures ResourceKinds[i] != ResourceKinds[j]
  {}

  lemma IssueIdsDistinct(i: nat, j: nat)
    requires i < j < |IssueIds|
    ensures IssueIds[i] != IssueIds[j]
  {}

  function IndexOf(kind: string, from: nat := 0): (i: nat)
    requires from <= |ResourceKinds|
    ensures from <= i <= |ResourceKinds|
    ensures i < |ResourceKinds| ==> ResourceKinds[i] == kind
    ensures i == |ResourceKinds| ==> kind !in ResourceKinds[from..]
    decreases |ResourceKinds| - from
  {
    if from == |ResourceKinds| then from
    else if ResourceKinds[from] == kind then from
    else IndexOf(kind, from + 1)
  }

  function IssueId(kind: string): string {
    var i := IndexOf(kind);
    if i < |IssueIds| then IssueIds[i] else "snapshot/resources"
  }

  /** Each assembled list counts its issues under an id of its own. */
  lemma IssueIdInjective(kind: string, kind': string)
    requires kind in ResourceKinds && kind' in ResourceKinds
    ensures IssueId(kind) == IssueId(kind') <==> kind == kind'
  {
    var i, j := IndexOf(kind), IndexOf(kind');
    if i < j {
      IssueIdsDistinct(i, j);
    } else if j < i {
      IssueIdsDistinct(j, i);
    }
  }

  // ----- operations on the value -----

  function EmptyGraph(clusterId: string): Graph {
    Graph(SafeClusterId(clusterId), map[], {}, {}, map[], {}, [], [])
  }

  function SafeNodeStatus(status: string): string {
    if status == "healthy" || status == "warning" || status == "error" || status == "unknown" then status else "unknown"
  }

  function Count(m: map<string, nat>, key: string): nat {
    if key in m then m[key] else 0
  }

  function Lane(kind: string): int {
    if kind in LaneX then LaneX[kind] else LaneX["default"]
  }

  function PlacedName(g: Graph, kind: string, name: string): string {
    if kind == "Cluster" then SafeClusterName(name, g.clusterId) else name
  }

  function NewNode(g: Graph, spec: NodeSpec): Node {
    var name := PlacedName(g, spec.kind, spec.name);
    Node(NodeId(g.clusterId, spec.kind, spec.namespace, name), spec.kind, spec.namespace, name, SafeNodeStatus(spec.status),
         spec.metadata, spec.summary, Lane(spec.kind), 80 + Count(g.layout, spec.kind) * 92)
  }

  /** Returns the id, or "" for an identity that is not accepted. */
  function AddNode(g: Graph, spec: NodeSpec): (Graph, string) {
    var node := NewNode(g, spec);
    if !ValidNodeIdentity(spec.kind, spec.namespace, node.name) then
      (g, "")
    else if node.id in g.nodeSet then
      (g, node.id)
    else
      (g.(layout := g.layout[spec.kind := Count(g.layout, spec.kind) + 1], nodeSet := g.nodeSet + {node.id}, nodes := g.nodes + [node]), node.id)
  }

  function Bump(issues: map<string, nat>, id: string): map<string, nat> {
    if Count(issues, id) < MaxIssueCount then issues[id := Count(issues, id) + 1] else issues
  }

  function RecordIssue(g: Graph, kind: string): Graph {
    g.(issues := Bump(g.issues, IssueId(kind)))
  }

  function AddTracked(g: Graph, spec: NodeSpec): (Graph, string, bool) {
    var (g1, id) := AddNode(g, spec);
    if id == "" || id in g1.resourceNodeSet then
      (RecordIssue(g1, spec.kind), id, false)
    else
      (g1.(resourceNodeSet := g1.resourceNodeSet + {id}), id, true)
  }

  function ReferenceSpec(kind: string, namespace: string, name: string): NodeSpec {
    NodeSpec(kind, namespace, name, "unknown", "", if kind == "Secret" then "referenced; values hidden" else "referenced")
  }

  function EnsureReference(g: Graph, kind: string, namespace: string, name: string): Graph {
    AddNode(g, ReferenceSpec(kind, namespace, name)).0
  }

  function AddEdge(g: Graph, e: EdgeSpec): (Graph, string) {
    if e.source == "" || e.target == "" || e.source !in g.nodeSet || e.target !in g.nodeSet || !ValidEdgeMetadata(e.edgeType, e.sourceField, e.confidence) then
      (g, "")
    else
      var id := EdgeId(e.source, e.target, e.edgeType, e.sourceField);
      if id in g.edgeSet then (g, id)
      else (g.(edgeSet := g.edgeSet + {id}, edges := g.edges + [Edge(id, e.source, e.target, e.edgeType, e.sourceField, e.confidence)]), id)
  }

  /** Replaces the summary of the first node with that id. */
  function ReplaceFirst(nodes: seq<Node>, id: string, summary: string): (r: seq<Node>)
    ensures |r| == |nodes|
    ensures forall k :: 0 <= k < |nodes| ==> r[k] == nodes[k].(summary := r[k].summary)
    ensures forall k :: 0 <= k < |nodes| && nodes[k].id != id ==> r[k] == nodes[k]
  {
    if nodes == [] then []
    else if nodes[0].id == id then [nodes[0].(summary := summary)] + nodes[1..]
    else [nodes[0]] + ReplaceFirst(nodes[1..], id, summary)
  }

  lemma {:induction false} ReplaceFirstAt(nodes: seq<Node>, id: string, summary: string, i: nat)
    requires i <= |nodes| && forall k :: 0 <= k < i ==> nodes[k].id != id
    requires i < |nodes| ==> nodes[i].id == id
    ensures ReplaceFirst(nodes, id, summary) == if i < |nodes| then nodes[i := nodes[i].(summary := summary)] else nodes
  {
    if i > 0 {
      var rest := nodes[1..];
      assert nodes == [nodes[0]] + rest;
      assert forall k :: 0 <= k < |rest| ==> rest[k] == nodes[k + 1];
      ReplaceFirstAt(rest, id, summary, i - 1);
      hide ReplaceFirst;
      ReplaceFirstLater(nodes, id, summary);
    }
  }

  lemma ReplaceFirstLater(nodes: seq<Node>, id: string, summary: string)
    requires nodes != [] && nodes[0].id != id
    ensures ReplaceFirst(nodes, id, summary) == [nodes[0]] + ReplaceFirst(nodes[1..], id, summary)
  {
  }

  function ReplaceSummary(g: Graph, id: string, summary: string): Graph {
    if id == "" || id !in g.nodeSet then g else g.(nodes := ReplaceFirst(g.nodes, id, summary))
  }

  // ----- the invariant -----

  function KindCount(nodes: seq<Node>, kind: string): nat {
    if nodes == [] then 0
    else KindCount(nodes[..|nodes| - 1], kind) + if nodes[|nodes| - 1].kind == kind then 1 else 0
  }

  /** Node ids are distinct, `nodeSet` is exactly those ids, and each id is that of an accepted identity. */
  ghost predicate NodesInv(g: Graph) {
    && (forall i, j :: 0 <= i < j < |g.nodes| ==> g.nodes[i].id != g.nodes[j].id)
    && (forall i :: 0 <= i < |g.nodes| ==> g.nodes[i].id in g.nodeSet)
    && (forall id :: id in g.nodeSet ==> exists i :: 0 <= i < |g.nodes| && g.nodes[i].id == id)
    && (forall i {:trigger Placed(g.clusterId, g.nodes[i])} :: 0 <= i < |g.nodes| ==> Placed(g.clusterId, g.nodes[i]))
  }

  predicate Placed(clusterId: string, node: Node) {
    && node.id == NodeId(clusterId, node.kind, node.namespace, node.name)
    && ValidNodeIdentity(node.kind, node.namespace, node.name)
  }

  /** Edge ids are distinct, `edgeSet` is exactly those ids, each is the id of the edge's own fields, and edges join
      nodes. */
  ghost predicate EdgesInv(g: Graph) {
    && (forall i, j :: 0 <= i < j < |g.edges| ==> g.edges[i].id != g.edges[j].id)
    && (forall i :: 0 <= i < |g.edges| ==> g.edges[i].id in g.edgeSet)
    && (forall id :: id in g.edgeSet ==> exists i :: 0 <= i < |g.edges| && g.edges[i].id == id)
    && (forall i :: 0 <= i < |g.edges| ==> g.edges[i].source in g.nodeSet && g.edges[i].target in g.nodeSet)
    && (forall i :: 0 <= i < |g.edges| ==> g.edges[i].id == EdgeId(g.edges[i].source, g.edges[i].target, g.edges[i].edgeType, g.edges[i].sourceField))
  }

  /** The next row of a kind is the number of its nodes, and each node sits on the row it was given. */
  ghost predicate LayoutInv(g: Graph) {
    && (forall kind :: Count(g.layout, kind) == KindCount(g.nodes, kind))
    && (forall i :: 0 <= i < |g.nodes| ==> g.nodes[i].y == 80 + KindCount(g.nodes[..i], g.nodes[i].kind) * 92)
  }

  ghost predicate TrackInv(g: Graph) {
    && g.resourceNodeSet <= g.nodeSet
    && (forall id :: id in g.issues ==> 1 <= g.issues[id] <= MaxIssueCount)
  }

  ghost predicate Inv(g: Graph) {
    NodesInv(g) && EdgesInv(g) && LayoutInv(g) && TrackInv(g)
  }

  lemma TrackedAreNodes(g: Graph)
    requires Inv(g)
    ensures g.resourceNodeSet <= g.nodeSet
  {
  }

  lemma EmptyInv(clusterId: string)
    ensures Inv(EmptyGraph(clusterId))
  {}

  lemma {:induction false} KindCountMonotone(nodes: seq<Node>, kind: string, i: nat, j: nat)
    requires i <= j <= |nodes|
    ensures KindCount(nodes[..i], kind) <= KindCount(nodes[..j], kind)
    decreases j - i
  {
    if i < j {
      KindCountMonotone(nodes, kind, i, j - 1);
      assert nodes[..j][..j - 1] == nodes[..j - 1];
    }
  }

  /** Two nodes of one kind never share a position. */
  lemma PositionsDiffer(g: Graph, i: nat, j: nat)
    requires Inv(g) && i < j < |g.nodes| && g.nodes[i].kind == g.nodes[j].kind
    ensures g.nodes[i].y < g.nodes[j].y
  {
    var kind := g.nodes[i].kind;
    KindCountMonotone(g.nodes, kind, i + 1, j);
    assert g.nodes[..i + 1][..i] == g.nodes[..i];
  }

  /** Distinct nodes have distinct identities: deduplicating by string id misses nothing and merges nothing. */
  lemma IdentitiesDiffer(g: Graph, i: nat, j: nat)
    requires Inv(g) && i < j < |g.nodes|
    ensures (g.nodes[i].kind, g.nodes[i].namespace, g.nodes[i].name) != (g.nodes[j].kind, g.nodes[j].namespace, g.nodes[j].name)
  {
    assert Placed(g.clusterId, g.nodes[i]) && Placed(g.clusterId, g.nodes[j]);
  }

  /** g' is g after growing only: old nodes and edges stay where they are. */
  ghost predicate Grows(g: Graph, g': Graph) {
    && g'.clusterId == g.clusterId
    && g.nodes <= g'.nodes && g.nodeSet <= g'.nodeSet
    && g.edges <= g'.edges && g.resourceNodeSet <= g'.resourceNodeSet
  }

  lemma NodeIdNonEmpty(clusterId: string, kind: string, namespace: string, name: string)
    ensures NodeId(clusterId, kind, namespace, name) != ""
  {}

  // Each part of the invariant depends on a few fields only.

  lemma NodesFrame(g: Graph, g': Graph)
    requires NodesInv(g) && g'.clusterId == g.clusterId && g'.nodes == g.nodes && g'.nodeSet == g.nodeSet
    ensures NodesInv(g')
  {}

  lemma EdgesFrame(g: Graph, g': Graph)
    requires EdgesInv(g) && g'.edges == g.edges && g'.edgeSet == g.edgeSet && g.nodeSet <= g'.nodeSet
    ensures EdgesInv(g')
  {}

  lemma LayoutFrame(g: Graph, g': Graph)
    requires LayoutInv(g) && g'.nodes == g.nodes && g'.layout == g.layout
    ensures LayoutInv(g')
  {}

  lemma AppendNodeInv(g: Graph, g': Graph, node: Node)
    requires NodesInv(g) && node.id !in g.nodeSet && Placed(g.clusterId, node)
    requires g'.clusterId == g.clusterId && g'.nodes == g.nodes + [node] && g'.nodeSet == g.nodeSet + {node.id}
    ensures NodesInv(g')
  {
    var n := |g.nodes|;
    assert g'.nodes[n] == node && forall i :: 0 <= i < n ==> g'.nodes[i] == g.nodes[i];
    forall id | id in g'.nodeSet
      ensures exists i :: 0 <= i < |g'.nodes| && g'.nodes[i].id == id
    {
      if id in g.nodeSet {
        var i :| 0 <= i < |g.nodes| && g.nodes[i].id == id;
        assert g'.nodes[i].id == id;
      }
    }
  }

  lemma AppendLayoutInv(g: Graph, g': Graph, node: Node)
    requires LayoutInv(g) && node.y == 80 + Count(g.layout, node.kind) * 92
    requires g'.nodes == g.nodes + [node] && g'.layout == g.layout[node.kind := Count(g.layout, node.kind) + 1]
    ensures LayoutInv(g')
  {
    var n := |g.nodes|;
    assert g'.nodes[..n] == g.nodes && g'.nodes[n] == node;
    forall i | 0 <= i < |g'.nodes|
      ensures g'.nodes[i].y == 80 + KindCount(g'.nodes[..i], g'.nodes[i].kind) * 92
    {
      assert i < n ==> g'.nodes[..i] == g.nodes[..i];
    }
  }

  lemma AppendEdgeInv(g: Graph, g': Graph, edge: Edge)
    requires EdgesInv(g) && edge.id !in g.edgeSet && edge.source in g.nodeSet && edge.target in g.nodeSet
    requires edge.id == EdgeId(edge.source, edge.target, edge.edgeType, edge.sourceField)
    requires g'.nodeSet == g.nodeSet && g'.edges == g.edges + [edge] && g'.edgeSet == g.edgeSet + {edge.id}
    ensures EdgesInv(g')
  {
    hide EdgeId;
    var n := |g.edges|;
    assert g'.edges[n] == edge && forall i :: 0 <= i < n ==> g'.edges[i] == g.edges[i];
    forall id | id in g'.edgeSet
      ensures exists i :: 0 <= i < |g'.edges| && g'.edges[i].id == id
    {
      if id in g.edgeSet {
        var i :| 0 <= i < |g.edges| && g.edges[i].id == id;
        assert g'.edges[i].id == id;
      }
    }
  }

  lemma AddNodeInv(g: Graph, spec: NodeSpec)
    requires Inv(g)
    ensures var (g', id) := AddNode(g, spec);
            && Inv(g') && Grows(g, g') && (id == "" || id in g'.nodeSet)
            && (id == "" <==> !ValidNodeIdentity(spec.kind, spec.namespace, PlacedName(g, spec.kind, spec.name)))
            && g'.resourceNodeSet == g.resourceNodeSet && g'.issues == g.issues
  {
    hide NodesInv, EdgesInv, LayoutInv, ValidNodeIdentity, Lane, SafeNodeStatus, SafeClusterName, NodeId;
    var node := NewNode(g, spec);
    var (g', id) := AddNode(g, spec);
    NodeIdNonEmpty(g.clusterId, spec.kind, spec.namespace, node.name);
    if g' != g {
      AppendNodeInv(g, g', node);
      AppendLayoutInv(g, g', node);
      EdgesFrame(g, g');
    }
  }

  lemma RecordIssueInv(g: Graph, kind: string)
    requires Inv(g)
    ensures Inv(RecordIssue(g, kind)) && Grows(g, RecordIssue(g, kind))
  {
    BumpInv(g, IssueId(kind));
  }

  lemma BumpInv(g: Graph, id: string)
    requires Inv(g)
    ensures Inv(g.(issues := Bump(g.issues, id))) && Grows(g, g.(issues := Bump(g.issues, id)))
  {
    hide NodesInv, EdgesInv, LayoutInv;
    var g' := g.(issues := Bump(g.issues, id));
    NodesFrame(g, g');
    EdgesFrame(g, g');
    LayoutFrame(g, g');
  }

  lemma AddTrackedInv(g: Graph, spec: NodeSpec)
    requires Inv(g)
    ensures var (g', id, added) := AddTracked(g, spec);
            && Inv(g') && Grows(g, g')
            && (added ==> id !in g.resourceNodeSet && g'.resourceNodeSet == g.resourceNodeSet + {id} && g'.issues == g.issues)
            && (!added ==> g'.resourceNodeSet == g.resourceNodeSet && g'.issues == Bump(g.issues, IssueId(spec.kind)))
            && (added <==> id != "" && id !in g.resourceNodeSet)
            && (id != "" ==> id in g'.resourceNodeSet)
  {
    hide NodesInv, EdgesInv, LayoutInv, Bump, IssueId;
    AddNodeInv(g, spec);
    var (g1, id) := AddNode(g, spec);
    var g' := AddTracked(g, spec).0;
    if id == "" || id in g1.resourceNodeSet {
      RecordIssueInv(g1, spec.kind);
    } else {
      MarkInv(g1, id);
    }
  }

  lemma MarkInv(g: Graph, id: string)
    requires Inv(g) && id in g.nodeSet
    ensures Inv(g.(resourceNodeSet := g.resourceNodeSet + {id}))
  {
    hide NodesInv, EdgesInv, LayoutInv;
    var g' := g.(resourceNodeSet := g.resourceNodeSet + {id});
    NodesFrame(g, g');
    EdgesFrame(g, g');
    LayoutFrame(g, g');
  }

  lemma EnsureReferenceInv(g: Graph, kind: string, namespace: string, name: string)
    requires Inv(g)
    ensures var g' := EnsureReference(g, kind, namespace, name);
            Inv(g') && Grows(g, g') && g'.resourceNodeSet == g.resourceNodeSet && g'.issues == g.issues
  {
    hide NodesInv, EdgesInv, LayoutInv;
    AddNodeInv(g, ReferenceSpec(kind, namespace, name));
  }

  lemma AddEdgeInv(g: Graph, e: EdgeSpec)
    requires Inv(g)
    ensures var (g', id) := AddEdge(g, e);
            && Inv(g') && Grows(g, g')
            && g' == g.(edges := g'.edges, edgeSet := g'.edgeSet)
            && (id != "" ==> id in g'.edgeSet)
  {
    hide NodesInv, EdgesInv, LayoutInv, ValidEdgeMetadata, EdgeId;
    var (g', id) := AddEdge(g, e);
    if g' != g {
      var edge := Edge(id, e.source, e.target, e.edgeType, e.sourceField, e.confidence);
      assert g'.edges[|g.edges|] == edge;
      AppendEdgeInv(g, g', edge);
      NodesFrame(g, g');
      LayoutFrame(g, g');
    }
  }

  // ----- edges by their fields -----

  predicate SameEdge(edge: Edge, e: EdgeSpec) {
    edge.source == e.source && edge.target == e.target && edge.edgeType == e.edgeType && edge.sourceField == e.sourceField
  }

  ghost predicate HasEdge(g: Graph, e: EdgeSpec) { exists i :: 0 <= i < |g.edges| && SameEdge(g.edges[i], e) }

  /** Fields and targets as every caller passes them. */
  predicate TameSpec(e: EdgeSpec) { '>' !in e.target && TameField(e.sourceField) && ValidEdgeType(e.edgeType) }
  predicate TameEdge(e: Edge) { '>' !in e.target && TameField(e.sourceField) && ValidEdgeType(e.edgeType) }
  predicate TameEdges(edges: seq<Edge>) { forall i :: 0 <= i < |edges| ==> TameEdge(edges[i]) }

  /** In a graph of tame edges, deduplicating by the string id is deduplicating by source, target, type and field: no
      edge is dropped for another. */
  lemma IdMeansEdge(g: Graph, e: EdgeSpec)
    requires Inv(g) && TameEdges(g.edges) && TameSpec(e)
    ensures EdgeId(e.source, e.target, e.edgeType, e.sourceField) in g.edgeSet <==> HasEdge(g, e)
  {
    hide NodesInv, LayoutInv, TrackInv, EdgeId, TameField, ValidEdgeType;
    var id := EdgeId(e.source, e.target, e.edgeType, e.sourceField);
    if id in g.edgeSet {
      var i :| 0 <= i < |g.edges| && g.edges[i].id == id;
      var edge := g.edges[i];
      assert TameEdge(edge);
      EdgeIdInjective(edge.source, edge.target, edge.edgeType, edge.sourceField, e.source, e.target, e.edgeType, e.sourceField);
      assert SameEdge(edge, e);
    }
  }

  lemma {:induction false} KindCountSame(nodes: seq<Node>, nodes': seq<Node>, kind: string)
    requires |nodes| == |nodes'| && forall k :: 0 <= k < |nodes| ==> nodes'[k].kind == nodes[k].kind
    ensures KindCount(nodes', kind) == KindCount(nodes, kind)
  {
    if nodes != [] {
      KindCountSame(nodes[..|nodes| - 1], nodes'[..|nodes| - 1], kind);
    }
  }

  lemma ReplaceNodesInv(g: Graph, g': Graph, id: string, summary: string)
    requires NodesInv(g) && g' == g.(nodes := ReplaceFirst(g.nodes, id, summary))
    ensures NodesInv(g')
  {
    forall i | 0 <= i < |g'.nodes|
      ensures Placed(g'.clusterId, g'.nodes[i])
    {
      assert Placed(g.clusterId, g.nodes[i]);
    }
    forall x | x in g'.nodeSet
      ensures exists i :: 0 <= i < |g'.nodes| && g'.nodes[i].id == x
    {
      var i :| 0 <= i < |g.nodes| && g.nodes[i].id == x;
      assert g'.nodes[i].id == x;
    }
  }

  lemma ReplaceLayoutInv(g: Graph, g': Graph, id: string, summary: string)
    requires LayoutInv(g) && g' == g.(nodes := ReplaceFirst(g.nodes, id, summary))
    ensures LayoutInv(g')
  {
    forall kind
      ensures KindCount(g'.nodes, kind) == KindCount(g.nodes, kind)
    {
      KindCountSame(g.nodes, g'.nodes, kind);
    }
    forall i | 0 <= i < |g.nodes|
      ensures g'.nodes[i].y == 80 + KindCount(g'.nodes[..i], g'.nodes[i].kind) * 92
    {
      KindCountSame(g.nodes[..i], g'.nodes[..i], g.nodes[i].kind);
    }
  }

  lemma ReplaceSummaryInv(g: Graph, id: string, summary: string)
    requires Inv(g)
    ensures Inv(ReplaceSummary(g, id, summary))
  {
    hide NodesInv, EdgesInv, LayoutInv;
    var g' := ReplaceSummary(g, id, summary);
    if g' != g {
      ReplaceNodesInv(g, g', id, summary);
      ReplaceLayoutInv(g, g', id, summary);
      EdgesFrame(g, g');
    }
  }
}
