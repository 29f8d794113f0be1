/** The builder object and the assembly loops, in place, proved against the functions on builder values. */
module SnapshotBuilder {
  import opened Text
  import opened Names
  import opened GraphBuilding
  import opened Assembly
  import opened AssemblyEdges

  class GraphBuilder {
    const clusterId: string
    var layout: map<string, nat>
    var nodeSet: set<string>
    var resourceNodeSet: set<string>
    var issues: map<string, nat>
    var edgeSet: set<string>
    var nodes: seq<Node>
    var edges: seq<Edge>

    function View(): Graph
      reads this
    {
      Graph(clusterId, layout, nodeSet, resourceNodeSet, issues, edgeSet, nodes, edges)
    }

    constructor (requested: string)
      ensures View() == EmptyGraph(requested)
    {
      clusterId := SafeClusterId(requested);
      layout, nodeSet, resourceNodeSet, issues, edgeSet, nodes, edges := map[], {}, {}, map[], {}, [], [];
    }

    method NextPosition(kind: string) returns (x: int, y: int)
      modifies this`layout
      ensures x == Lane(kind) && y == 80 + Count(old(layout), kind) * 92
      ensures layout == old(layout)[kind := Count(old(layout), kind) + 1]
    {
      var row := Count(layout, kind);
      layout := layout[kind := row + 1];
      return Lane(kind), 80 + row * 92;
    }

    method AddNodeWithMetadata(spec: NodeSpec) returns (id: string)
      modifies this
      ensures (View(), id) == AddNode(old(View()), spec)
    {
      hide ValidNodeIdentity, SafeClusterName, NodeId, Lane;
      var name := if spec.kind == "Cluster" then SafeClusterName(spec.name, clusterId) else spec.name;
      if !ValidNodeIdentity(spec.kind, spec.namespace, name) {
        return "";
      }
      id := NodeId(clusterId, spec.kind, spec.namespace, name);
      if id in nodeSet {
        return;
      }
      var x, y := NextPosition(spec.kind);
      nodes := nodes + [Node(id, spec.kind, spec.namespace, name, SafeNodeStatus(spec.status), spec.metadata, spec.summary, x, y)];
      nodeSet := nodeSet + {id};
    }

    method RecordResourceIssue(kind: string)
      modifies this`issues
      ensures View() == RecordIssue(old(View()), kind)
    {
      hide IssueId;
      var id := IssueId(kind);
      if Count(issues, id) < MaxIssueCount {
        issues := issues[id := Count(issues, id) + 1];
      }
    }

    method AddTrackedResourceNode(spec: NodeSpec) returns (id: string, added: bool)
      modifies this
      ensures (View(), id, added) == AddTracked(old(View()), spec)
    {
      hide AddNode, RecordIssue;
      id := AddNodeWithMetadata(spec);
      if id == "" || id in resourceNodeSet {
        RecordResourceIssue(spec.kind);
        return id, false;
      }
      resourceNodeSet := resourceNodeSet + {id};
      return id, true;
    }

    method EnsureReferenceNode(kind: string, namespace: string, name: string) returns (id: string)
      modifies this
      ensures View() == EnsureReference(old(View()), kind, namespace, name)
    {
      hide AddNode;
      id := AddNodeWithMetadata(ReferenceSpec(kind, namespace, name));
    }

    method AddEdgeOnce(e: EdgeSpec) returns (id: string)
      modifies this`edges, this`edgeSet
      ensures (View(), id) == AddEdge(old(View()), e)
    {
      hide ValidEdgeMetadata, EdgeId;
      if e.source == "" || e.target == "" || e.source !in nodeSet || e.target !in nodeSet || !ValidEdgeMetadata(e.edgeType, e.sourceField, e.confidence) {
        return "";
      }
      id := EdgeId(e.source, e.target, e.edgeType, e.sourceField);
      if id in edgeSet {
        return;
      }
      edges := edges + [Edge(id, e.source, e.target, e.edgeType, e.sourceField, e.confidence)];
      edgeSet := edgeSet + {id};
    }

    /** `claimResourceNode`: the caller's seen-set comes back with the id, if claimed. */
    method ClaimResourceNode(id: string, seen: set<string>) returns (claimed: bool, seen': set<string>)
      ensures claimed == Claims(View(), id, seen) && seen' == if claimed then seen + {id} else seen
    {
      if id == "" || id !in resourceNodeSet || id in seen {
        return false, seen;
      }
      return true, seen + {id};
    }

    /** The scan for the node of that id. */
    method ReplaceNodeSummary(id: string, summary: string)
      modifies this`nodes
      ensures View() == ReplaceSummary(old(View()), id, summary)
    {
      if id == "" || id !in nodeSet {
        return;
      }
      for i := 0 to |nodes|
        invariant nodes == old(nodes)
        invariant forall k :: 0 <= k < i ==> nodes[k].id != id
      {
        if nodes[i].id == id {
          ReplaceFirstAt(nodes, id, summary, i);
          nodes := nodes[i := nodes[i].(summary := summary)];
          return;
        }
      }
      ReplaceFirstAt(nodes, id, summary, |nodes|);
    }

    // ----- phase one -----

    method AddListItem(clusterNode: string, kind: string, item: Item) returns (added: bool)
      modifies this
      ensures (View(), added) == AddItem(old(View()), clusterNode, kind, item)
    {
      hide AddTracked, RecordIssue, ReportsInvalid, AddEdge, NodeId;
      var id;
      id, added := AddTrackedResourceNode(Spec(kind, item));
      if ReportsInvalid(kind, item, added) {
        RecordResourceIssue(kind);
      }
      if kind == "Namespace" {
        var _ := AddEdgeOnce(EdgeSpec("owns", clusterNode, id, "metadata.namespace", "observed"));
      } else if kind == "CustomResource" && added {
        if item.namespace != "" {
          var _ := AddEdgeOnce(EdgeSpec("owns", NodeId(clusterId, "Namespace", "", item.namespace), id, "metadata.namespace", "observed"));
        }
        var _ := AddEdgeOnce(EdgeSpec("owns", NodeId(clusterId, "CustomResourceDefinition", "", item.definition), id, "CustomResourceDefinition.spec.names.kind", "observed"));
      }
    }

    /** One list loop, with the counters that the node and pod loops keep. */
    method AddList(clusterNode: string, kind: string, items: seq<Item>) returns (total: nat, ready: nat, warning: nat)
      requires Inv(View()) && kind != "Cluster" && NoKind(nodes, kind)
      modifies this
      ensures View() == AddItems(old(View()), clusterNode, kind, items)
      ensures total == CountAdded(kind, items, EveryItem)
      ensures ready == CountAdded(kind, items, ReadyItem) && warning == CountAdded(kind, items, WarningItem)
    {
      hide Inv, NoKind, AddItem, First, ListAdded;
      total, ready, warning := 0, 0, 0;
      ghost var g := View();
      AddItemsRefines(g, clusterNode, kind, []);
      for i := 0 to |items|
        invariant View() == AddItems(g, clusterNode, kind, items[..i])
        invariant total == CountAdded(kind, items[..i], EveryItem)
        invariant ready == CountAdded(kind, items[..i], ReadyItem) && warning == CountAdded(kind, items[..i], WarningItem)
      {
        ghost var upTo := items[..i + 1];
        assert upTo[..i] == items[..i] && upTo[i] == items[i] && |upTo| == i + 1;
        AddItemsRefines(g, clusterNode, kind, items[..i]);
        AddItemStep(g, View(), clusterNode, kind, upTo);
        var added := AddListItem(clusterNode, kind, items[i]);
        if added {
          total := total + 1;
          ready := ready + if ReadyItem(items[i]) then 1 else 0;
          warning := warning + if WarningItem(items[i]) then 1 else 0;
        }
      }
      assert items[..|items|] == items;
    }

    // ----- phase two -----

    method AddLinkOnce(source: string, link: Link)
      modifies this
      ensures View() == AddLink(old(View()), source, link)
    {
      hide EnsureReference, AddEdge, NodeId;
      var target := NodeId(clusterId, link.kind, link.namespace, link.name);
      var skip := link.listed && target !in resourceNodeSet;
      if link.ensure {
        var _ := EnsureReferenceNode(link.kind, link.namespace, link.name);
      }
      if !skip {
        var _ := AddEdgeOnce(EdgeSpec(link.edgeType, source, target, link.sourceField, link.confidence));
      }
    }

    method AddAllLinks(source: string, links: seq<Link>)
      modifies this
      ensures View() == AddLinks(old(View()), source, links)
    {
      hide AddLink;
      ghost var g := View();
      for i := 0 to |links|
        invariant View() == AddLinks(g, source, links[..i])
      {
        assert links[..i + 1][..i] == links[..i];
        AddLinkOnce(source, links[i]);
      }
      assert links[..|links|] == links;
    }

    method AddOwnerEdges(child: string, namespace: string, owners: seq<Owner>)
      modifies this
      ensures View() == AddOwners(old(View()), child, namespace, owners)
    {
      hide AddEdge, ValidKind, ValidReferenceName, NodeId;
      ghost var g := View();
      for i := 0 to |owners|
        invariant View() == AddOwners(g, child, namespace, owners[..i])
      {
        assert owners[..i + 1][..i] == owners[..i];
        if !ValidKind(owners[i].kind) || !ValidReferenceName(owners[i].name) {
          continue;
        }
        var _ := AddEdgeOnce(EdgeSpec("owns", NodeId(clusterId, owners[i].kind, namespace, owners[i].name), child, "metadata.ownerReferences", "observed"));
      }
      assert owners[..|owners|] == owners;
    }

    /** One pass over a list: claim, then the owner and template links or the other links. */
    method PassOverList(seen: set<string>, pass: Pass, kind: string, items: seq<Item>) returns (seen': set<string>)
      modifies this
      ensures (View(), seen') == PassItems(old(View()), seen, pass, kind, items)
    {
      hide AddLinks, AddOwners, NodeId;
      ghost var g := View();
      seen' := seen;
      for i := 0 to |items|
        invariant (View(), seen') == PassItems(g, seen, pass, kind, items[..i])
      {
        assert items[..i + 1][..i] == items[..i];
        var id := SourceId(View(), kind, items[i]);
        var claimed;
        claimed, seen' := ClaimResourceNode(id, seen');
        if claimed {
          if pass.OwnerPass? {
            AddOwnerEdges(id, items[i].namespace, items[i].owners);
            AddAllLinks(id, items[i].template);
          } else {
            AddAllLinks(id, items[i].links);
          }
        }
      }
      assert items[..|items|] == items;
    }

    method AddPodEdges(source: string, pods: seq<Item>, selected: set<nat>, edgeType: string, sourceField: string) returns (matches: nat)
      modifies this
      ensures (View(), matches) == (PodEdges(old(View()), source, pods, selected, edgeType, sourceField).0, PodEdges(old(View()), source, pods, selected, edgeType, sourceField).2)
    {
      hide AddEdge, NodeId;
      ghost var g := View();
      var seen := {};
      matches := 0;
      for i := 0 to |pods|
        invariant (View(), seen, matches) == PodEdges(g, source, pods[..i], selected, edgeType, sourceField)
        invariant clusterId == g.clusterId
      {
        assert pods[..i + 1][..i] == pods[..i];
        var id := NodeId(clusterId, "Pod", pods[i].namespace, pods[i].name);
        var claimed;
        claimed, seen := ClaimResourceNode(id, seen);
        if claimed && i in selected {
          matches := matches + 1;
          var _ := AddEdgeOnce(EdgeSpec(edgeType, source, id, sourceField, "inferred"));
        }
      }
      assert pods[..|pods|] == pods;
    }

    method AddPeerEdges(source: string, pods: seq<Item>, rules: seq<PeerRule>)
      modifies this
      ensures View() == AddPeers(old(View()), source, pods, rules)
    {
      hide AddLinks, PodEdges;
      ghost var g := View();
      for i := 0 to |rules|
        invariant View() == AddPeers(g, source, pods, rules[..i])
      {
        assert rules[..i + 1][..i] == rules[..i];
        match rules[i].peer {
          case PodPeer(selected) =>
            var _ := AddPodEdges(source, pods, selected, rules[i].edgeType, rules[i].sourceField);
          case NamespacePeer(names) =>
            AddAllLinks(source, NamespaceLinks(names, rules[i].edgeType, rules[i].sourceField));
        }
      }
      assert rules[..|rules|] == rules;
    }

    method AddPolicyEdges(pods: seq<Item>, items: seq<Item>)
      modifies this
      ensures View() == AddPolicies(old(View()), pods, items).0
    {
      hide AddEdge, PodEdges, AddPeers, NodeId;
      ghost var g := View();
      var seen := {};
      for i := 0 to |items|
        invariant (View(), seen) == AddPolicies(g, pods, items[..i])
      {
        assert items[..i + 1][..i] == items[..i];
        var item := items[i];
        var id := SourceId(View(), "NetworkPolicy", item);
        var claimed;
        claimed, seen := ClaimResourceNode(id, seen);
        if claimed {
          var matches := 0;
          if item.policy.selectorValid {
            matches := AddPodEdges(id, pods, item.policy.selected, "applies-to", "NetworkPolicy.spec.podSelector");
          }
          if item.policy.selectorValid && matches == 0 && item.namespace != "" {
            var _ := AddEdgeOnce(EdgeSpec("applies-to", id, NodeId(clusterId, "Namespace", "", item.namespace), "NetworkPolicy.spec.podSelector", "observed"));
          }
          AddPeerEdges(id, pods, item.policy.peers);
        }
      }
      assert items[..|items|] == items;
    }

    method AddEndpointEdges(endpoints: seq<Endpoint>)
      modifies this
      ensures View() == AddEndpoints(old(View()), endpoints)
    {
      hide AddEdge, NodeId;
      ghost var g := View();
      for i := 0 to |endpoints|
        invariant View() == AddEndpoints(g, endpoints[..i]) && clusterId == View().clusterId
      {
        assert endpoints[..i + 1][..i] == endpoints[..i];
        var e := endpoints[i];
        var _ := AddEdgeOnce(EdgeSpec("service-endpoint", NodeId(clusterId, "Service", e.namespace, e.service), NodeId(clusterId, "Pod", e.namespace, e.pod), e.sourceField, e.confidence));
      }
      assert endpoints[..|endpoints|] == endpoints;
    }
  }

  datatype Totals = Totals(readyNodes: nat, totalNodes: nat, podRunning: nat, podWarning: nat, namespaces: nat)

  function Tally(t: Totals, kind: string, total: nat, ready: nat, warning: nat): Totals {
    if kind == "Namespace" then t.(namespaces := total)
    else if kind == "Node" then t.(totalNodes := total, readyNodes := ready)
    else if kind == "Pod" then t.(podRunning := ready, podWarning := warning)
    else t
  }

  function TallyKinds(r: Resources, kinds: seq<string>): Totals {
    if kinds == [] then Totals(0, 0, 0, 0, 0)
    else
      var n := |kinds| - 1;
      var items := List(r, kinds[n]);
      Tally(TallyKinds(r, kinds[..n]), kinds[n], CountAdded(kinds[n], items, EveryItem), CountAdded(kinds[n], items, ReadyItem), CountAdded(kinds[n], items, WarningItem))
  }

  function CountIn(r: Resources, kinds: seq<string>, kind: string, test: Item -> bool): nat {
    if kind in kinds then CountAdded(kind, List(r, kind), test) else 0
  }

  lemma {:induction false} TallyIsCounts(r: Resources, kinds: seq<string>)
    ensures TallyKinds(r, kinds) == Totals(CountIn(r, kinds, "Node", ReadyItem), CountIn(r, kinds, "Node", EveryItem),
                                           CountIn(r, kinds, "Pod", ReadyItem), CountIn(r, kinds, "Pod", WarningItem), CountIn(r, kinds, "Namespace", EveryItem))
  {
    hide List, CountAdded;
    if kinds != [] {
      TallyIsCounts(r, kinds[..|kinds| - 1]);
    }
  }

  function AllTotals(r: Resources): Totals {
    Totals(CountAdded("Node", List(r, "Node"), ReadyItem), CountAdded("Node", List(r, "Node"), EveryItem),
           CountAdded("Pod", List(r, "Pod"), ReadyItem), CountAdded("Pod", List(r, "Pod"), WarningItem),
           CountAdded("Namespace", List(r, "Namespace"), EveryItem))
  }

  /** What the totals of a snapshot count, among the items that added a node. */
  lemma TotalsMean(r: Resources)
    ensures var t, nodes, pods := AllTotals(r), List(r, "Node"), List(r, "Pod");
            && t.totalNodes == |Adding(r, "Node")| && t.namespaces == |Adding(r, "Namespace")|
            && t.readyNodes == |set i | i in Adding(r, "Node") && nodes[i].valid && nodes[i].ready|
            && t.podRunning == |set i | i in Adding(r, "Pod") && pods[i].valid && pods[i].ready|
            && t.podWarning == |set i | i in Adding(r, "Pod") && pods[i].status != "healthy"|
  {
    hide CountAdded, List, Adding;
    CountersMean(r);
  }

  method AddResources(b: GraphBuilder, r: Resources) returns (clusterNode: string, totals: Totals)
    requires b.View() == EmptyGraph(r.clusterId)
    modifies b
    ensures b.View() == PhaseOne(r) && clusterNode == ClusterNode(r).id && totals == AllTotals(r)
  {
    hide Inv, AddNode, ClusterNode, AddItems, AddKinds, TallyKinds, AllTotals, Tally, CountAdded, List, NoKind, NewNode, EmptyGraph, ResourceKinds;
    NoKindsYet(r);
    clusterNode := b.AddNodeWithMetadata(ClusterSpec(r));
    ghost var g0 := b.View();
    ClusterNodeFirst(r);
    totals := Totals(0, 0, 0, 0, 0);
    for i := 0 to |ResourceKinds|
      invariant b.View() == AddKinds(g0, clusterNode, r, ResourceKinds[..i])
      invariant totals == TallyKinds(r, ResourceKinds[..i])
    {
      OneMoreKind(r, g0, clusterNode, ResourceKinds, i);
      KindsSoFar(r, g0, clusterNode, i);
      var kind := ResourceKinds[i];
      var total, ready, warning := b.AddList(clusterNode, kind, List(r, kind));
      totals := Tally(totals, kind, total, ready, warning);
    }
    assert ResourceKinds[..|ResourceKinds|] == ResourceKinds;
    TotalsAre(r);
  }

  lemma TotalsAre(r: Resources)
    ensures TallyKinds(r, ResourceKinds) == AllTotals(r)
  {
    hide TallyKinds, CountAdded, List;
    TallyIsCounts(r, ResourceKinds);
  }

  lemma NoKindsYet(r: Resources)
    ensures TallyKinds(r, ResourceKinds[..0]) == Totals(0, 0, 0, 0, 0)
    ensures forall g, clusterNode :: AddKinds(g, clusterNode, r, ResourceKinds[..0]) == g
  {
  }

  lemma OneMoreKind(r: Resources, g: Graph, clusterNode: string, kinds: seq<string>, i: nat)
    requires i < |kinds|
    ensures AddKinds(g, clusterNode, r, kinds[..i + 1]) == AddItems(AddKinds(g, clusterNode, r, kinds[..i]), clusterNode, kinds[i], List(r, kinds[i]))
    ensures var items := List(r, kinds[i]);
            TallyKinds(r, kinds[..i + 1]) ==
            Tally(TallyKinds(r, kinds[..i]), kinds[i], CountAdded(kinds[i], items, EveryItem), CountAdded(kinds[i], items, ReadyItem), CountAdded(kinds[i], items, WarningItem))
  {
    hide AddItems, CountAdded, List, Tally;
    assert kinds[..i + 1][..i] == kinds[..i];
  }

  /** `addKubernetesSnapshotEdges`. */
  method AddSnapshotEdges(b: GraphBuilder, r: Resources)
    modifies b
    ensures b.View() == PhaseTwo(old(b.View()), r)
  {
    hide PassKinds, AddPolicies, AddEndpoints, List;
    ghost var g := b.View();
    for i := 0 to |EdgePasses|
      invariant b.View() == RunPasses(g, r, EdgePasses[..i])
    {
      ghost var upTo := EdgePasses[..i + 1];
      assert upTo[..i] == EdgePasses[..i] && upTo[i] == EdgePasses[i];
      RunPass(b, EdgePasses[i].0, r, EdgePasses[i].1);
    }
    assert EdgePasses[..|EdgePasses|] == EdgePasses;
    b.AddPolicyEdges(List(r, "Pod"), List(r, "NetworkPolicy"));
    b.AddEndpointEdges(r.endpoints);
  }

  /** `buildKubernetesSnapshot`: both phases and the cluster summary. The builder ends as the specification
      says, and the five totals count the first items of their lists. */
  method BuildSnapshot(r: Resources, render: (string, nat, nat) -> string) returns (b: GraphBuilder, totals: Totals)
    ensures b.View() == Assemble(r, render(r.version, totals.totalNodes, totals.namespaces)) && Inv(b.View())
    ensures totals == AllTotals(r)
  {
    hide Inv, ClusterNode, PhaseOne, PhaseTwo, AllTotals, EmptyGraph, ReplaceSummary;
    b := new GraphBuilder(r.clusterId);
    var clusterNode;
    clusterNode, totals := AddResources(b, r);
    AddSnapshotEdges(b, r);
    var summary := render(r.version, totals.totalNodes, totals.namespaces);
    b.ReplaceNodeSummary(clusterNode, summary);
    SnapshotNodes(r, summary);
  }

  /** The lists of one pass share one seen-set. */
  method RunPass(b: GraphBuilder, pass: Pass, r: Resources, kinds: seq<string>)
    modifies b
    ensures b.View() == PassKinds(old(b.View()), {}, pass, r, kinds).0
  {
    hide PassItems, List;
    ghost var g := b.View();
    var seen := {};
    for i := 0 to |kinds|
      invariant (b.View(), seen) == PassKinds(g, {}, pass, r, kinds[..i])
    {
      assert kinds[..i + 1][..i] == kinds[..i];
      seen := b.PassOverList(seen, pass, kinds[i], List(r, kinds[i]));
    }
    assert kinds[..|kinds|] == kinds;
  }

  lemma ClusterNodeFirst(r: Resources)
    ensures var (g, id) := AddNode(EmptyGraph(r.clusterId), ClusterSpec(r));
            && Inv(g) && g.issues == map[] && g.nodes == [ClusterNode(r)] && id == ClusterNode(r).id
            && forall kind :: kind in ResourceKinds ==> NoKind(g.nodes, kind)
  {
    hide Inv, ValidNodeIdentity, SafeClusterName, SafeClusterId, NodeId, Lane;
    EmptyInv(r.clusterId);
    ClusterNodeAccepted(r);
    AddNodeInv(EmptyGraph(r.clusterId), ClusterSpec(r));
    NoClusterKind();
  }

  lemma KindsSoFar(r: Resources, g0: Graph, clusterNode: string, i: nat)
    requires Inv(g0) && g0.issues == map[] && i < |ResourceKinds|
    requires forall kind :: kind in ResourceKinds ==> NoKind(g0.nodes, kind)
    ensures var g := AddKinds(g0, clusterNode, r, ResourceKinds[..i]);
            Inv(g) && NoKind(g.nodes, ResourceKinds[i]) && ResourceKinds[i] != "Cluster"
  {
    hide Inv, AddKinds, NoKind, KindsAdded;
    ResourceKindsDistinct();
    KindsUpTo(i);
    AddKindsRefines(g0, clusterNode, r, ResourceKinds[..i]);
    NoNewKind(g0, AddKinds(g0, clusterNode, r, ResourceKinds[..i]), r, ResourceKinds[..i], ResourceKinds[i]);
  }

  lemma KindsUpTo(i: nat)
    requires i < |ResourceKinds| && DistinctKinds(ResourceKinds)
    ensures DistinctKinds(ResourceKinds[..i]) && ResourceKinds[i] !in ResourceKinds[..i]
    ensures ResourceKinds[i] != "Cluster" && ResourceKinds[i] in ResourceKinds
    ensures forall kind :: kind in ResourceKinds[..i] ==> kind in ResourceKinds
  {
    var kinds := ResourceKinds;
    assert forall j :: 0 <= j < i ==> kinds[..i][j] == kinds[j];
  }
}
