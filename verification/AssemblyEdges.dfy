/** Phase two of assembly: each tracked source is claimed once, and its links add reference nodes and edges.
    Then what the finished snapshot guarantees. */
module AssemblyEdges {
  import opened Text
  import opened Names
  import opened GraphBuilding
  import opened Assembly

  // ----- links of one source -----

  function AddLink(g: Graph, source: string, link: Link): Graph {
    var target := NodeId(g.clusterId, link.kind, link.namespace, link.name);
    var g1 := if link.ensure then EnsureReference(g, link.kind, link.namespace, link.name) else g;
    if link.listed && target !in g.resourceNodeSet then g1
    else AddEdge(g1, EdgeSpec(link.edgeType, source, target, link.sourceField, link.confidence)).0
  }

  function AddLinks(g: Graph, source: string, links: seq<Link>): Graph {
    if links == [] then g
    else AddLink(AddLinks(g, source, links[..|links| - 1]), source, links[|links| - 1])
  }

  function AddOwners(g: Graph, child: string, namespace: string, owners: seq<Owner>): Graph {
    if owners == [] then g
    else
      var n := |owners| - 1;
      var g1 := AddOwners(g, child, namespace, owners[..n]);
      if !ValidKind(owners[n].kind) || !ValidReferenceName(owners[n].name) then g1
      else AddEdge(g1, EdgeSpec("owns", NodeId(g.clusterId, owners[n].kind, namespace, owners[n].name), child, "metadata.ownerReferences", "observed")).0
  }

  // ----- passes over a list -----

  predicate Claims(g: Graph, id: string, seen: set<string>) {
    id != "" && id in g.resourceNodeSet && id !in seen
  }

  /** A persistent volume is looked up without a namespace. */
  function SourceId(g: Graph, kind: string, item: Item): string {
    NodeId(g.clusterId, kind, if kind == "PersistentVolume" then "" else item.namespace, item.name)
  }

  datatype Pass = OwnerPass | LinkPass

  function PassItem(g: Graph, seen: set<string>, pass: Pass, kind: string, item: Item): (Graph, set<string>) {
    var id := SourceId(g, kind, item);
    if !Claims(g, id, seen) then (g, seen)
    else if pass.OwnerPass? then (AddLinks(AddOwners(g, id, item.namespace, item.owners), id, item.template), seen + {id})
    else (AddLinks(g, id, item.links), seen + {id})
  }

  function PassItems(g: Graph, seen: set<string>, pass: Pass, kind: string, items: seq<Item>): (Graph, set<string>) {
    if items == [] then (g, seen)
    else
      var n := |items| - 1;
      var (g1, seen1) := PassItems(g, seen, pass, kind, items[..n]);
      PassItem(g1, seen1, pass, kind, items[n])
  }

  function PassKinds(g: Graph, seen: set<string>, pass: Pass, r: Resources, kinds: seq<string>): (Graph, set<string>) {
    if kinds == [] then (g, seen)
    else
      var n := |kinds| - 1;
      var (g1, seen1) := PassKinds(g, seen, pass, r, kinds[..n]);
      PassItems(g1, seen1, pass, kinds[n], List(r, kinds[n]))
  }

  // ----- network policies -----

  /** Edges to the pods at the selected positions, each listed pod once; counts the selected ones. */
  function PodEdges(g: Graph, source: string, pods: seq<Item>, selected: set<nat>, edgeType: string, sourceField: string): (Graph, set<string>, nat) {
    if pods == [] then (g, {}, 0)
    else
      var n := |pods| - 1;
      var (g1, seen, matches) := PodEdges(g, source, pods[..n], selected, edgeType, sourceField);
      var id := NodeId(g.clusterId, "Pod", pods[n].namespace, pods[n].name);
      if !Claims(g1, id, seen) then (g1, seen, matches)
      else if n !in selected then (g1, seen + {id}, matches)
      else (AddEdge(g1, EdgeSpec(edgeType, source, id, sourceField, "inferred")).0, seen + {id}, matches + 1)
  }

  function NamespaceLinks(names: seq<string>, edgeType: string, sourceField: string): seq<Link> {
    seq(|names|, k requires 0 <= k < |names| => Link(false, true, edgeType, "Namespace", "", names[k], sourceField, "inferred"))
  }

  function AddPeer(g: Graph, source: string, pods: seq<Item>, rule: PeerRule): Graph {
    match rule.peer
    case PodPeer(selected) => PodEdges(g, source, pods, selected, rule.edgeType, rule.sourceField).0
    case NamespacePeer(names) => AddLinks(g, source, NamespaceLinks(names, rule.edgeType, rule.sourceField))
  }

  function AddPeers(g: Graph, source: string, pods: seq<Item>, rules: seq<PeerRule>): Graph {
    if rules == [] then g
    else AddPeer(AddPeers(g, source, pods, rules[..|rules| - 1]), source, pods, rules[|rules| - 1])
  }

  function AddPolicy(g: Graph, seen: set<string>, pods: seq<Item>, item: Item): (Graph, set<string>) {
    var id := SourceId(g, "NetworkPolicy", item);
    if !Claims(g, id, seen) then (g, seen)
    else
      var field := "NetworkPolicy.spec.podSelector";
      var (g1, _, matches) :=
        if item.policy.selectorValid then PodEdges(g, id, pods, item.policy.selected, "applies-to", field) else (g, {}, 0);
      var g2 :=
        if item.policy.selectorValid && matches == 0 && item.namespace != "" then
          AddEdge(g1, EdgeSpec("applies-to", id, NodeId(g.clusterId, "Namespace", "", item.namespace), field, "observed")).0
        else g1;
      (AddPeers(g2, id, pods, item.policy.peers), seen + {id})
  }

  function AddPolicies(g: Graph, pods: seq<Item>, items: seq<Item>): (Graph, set<string>) {
    if items == [] then (g, {})
    else
      var (g1, seen) := AddPolicies(g, pods, items[..|items| - 1]);
      AddPolicy(g1, seen, pods, items[|items| - 1])
  }

  function AddEndpoints(g: Graph, endpoints: seq<Endpoint>): Graph {
    if endpoints == [] then g
    else
      var e := endpoints[|endpoints| - 1];
      AddEdge(AddEndpoints(g, endpoints[..|endpoints| - 1]),
              EdgeSpec("service-endpoint", NodeId(g.clusterId, "Service", e.namespace, e.service), NodeId(g.clusterId, "Pod", e.namespace, e.pod),
                       e.sourceField, e.confidence)).0
  }

  /** The passes in source order. A list of kinds shares one seen-set. */
  const OwnerKinds: seq<string> := ["Deployment", "ReplicaSet", "StatefulSet", "DaemonSet", "CronJob", "Job", "Pod"]
  const EdgePasses: seq<(Pass, seq<string>)> := [
    (LinkPass, ["CustomResource"]), (OwnerPass, OwnerKinds), (LinkPass, ["Pod"]),
    (LinkPass, ["PersistentVolumeClaim", "PersistentVolume"]), (LinkPass, ["Ingress"]),
    (LinkPass, ["HTTPRoute"]), (LinkPass, ["GRPCRoute"]), (LinkPass, ["TLSRoute"]), (LinkPass, ["TCPRoute"]),
    (LinkPass, ["HorizontalPodAutoscaler"])]

  function RunPasses(g: Graph, r: Resources, passes: seq<(Pass, seq<string>)>): Graph {
    if passes == [] then g
    else
      var (pass, kinds) := passes[|passes| - 1];
      PassKinds(RunPasses(g, r, passes[..|passes| - 1]), {}, pass, r, kinds).0
  }

  function PhaseTwo(g: Graph, r: Resources): Graph {
    AddEndpoints(AddPolicies(RunPasses(g, r, EdgePasses), List(r, "Pod"), List(r, "NetworkPolicy")).0, r.endpoints)
  }

  function Assemble(r: Resources, clusterSummary: string): Graph {
    ReplaceSummary(PhaseTwo(PhaseOne(r), r), ClusterNode(r).id, clusterSummary)
  }

  // ----- phase two only adds reference nodes and edges -----

  /** What `ensureReferenceNode` gives a node. */
  predicate IsReference(node: Node) {
    node.status == "unknown" && node.metadata == "" && node.summary == ReferenceSpec(node.kind, node.namespace, node.name).summary
  }

  ghost predicate OnlyReferences(g: Graph, g': Graph) {
    && Inv(g') && Grows(g, g')
    && g'.resourceNodeSet == g.resourceNodeSet && g'.issues == g.issues
    && forall k :: |g.nodes| <= k < |g'.nodes| ==> IsReference(g'.nodes[k])
  }

  lemma OnlyReferencesTransitive(a: Graph, b: Graph, c: Graph)
    requires OnlyReferences(a, b) && OnlyReferences(b, c)
    ensures OnlyReferences(a, c)
  {
    hide Inv;
    GrowsTransitive(a, b, c);
    forall k | |a.nodes| <= k < |c.nodes|
      ensures IsReference(c.nodes[k])
    {
      if k < |b.nodes| {
        assert c.nodes[k] == b.nodes[k];
      }
    }
  }

  lemma EdgeOnly(g: Graph, e: EdgeSpec)
    requires Inv(g)
    ensures OnlyReferences(g, AddEdge(g, e).0)
  {
    hide Inv, AddEdge;
    AddEdgeInv(g, e);
  }

  lemma ReferenceOnly(g: Graph, kind: string, namespace: string, name: string)
    requires Inv(g)
    ensures OnlyReferences(g, EnsureReference(g, kind, namespace, name))
  {
    hide Inv, ValidNodeIdentity, NodeId, Lane;
    EnsureReferenceInv(g, kind, namespace, name);
  }

  lemma LinkOnly(g: Graph, source: string, link: Link)
    requires Inv(g)
    ensures OnlyReferences(g, AddLink(g, source, link))
  {
    hide Inv, AddEdge, EnsureReference, NodeId;
    ReferenceOnly(g, link.kind, link.namespace, link.name);
    var g1 := if link.ensure then EnsureReference(g, link.kind, link.namespace, link.name) else g;
    var edge := EdgeSpec(link.edgeType, source, NodeId(g.clusterId, link.kind, link.namespace, link.name), link.sourceField, link.confidence);
    EdgeOnly(g1, edge);
    OnlyReferencesTransitive(g, g1, AddEdge(g1, edge).0);
  }

  lemma {:induction false} LinksOnly(g: Graph, source: string, links: seq<Link>)
    requires Inv(g)
    ensures OnlyReferences(g, AddLinks(g, source, links))
  {
    hide Inv, AddLink;
    if links != [] {
      var g1 := AddLinks(g, source, links[..|links| - 1]);
      LinksOnly(g, source, links[..|links| - 1]);
      LinkOnly(g1, source, links[|links| - 1]);
      OnlyReferencesTransitive(g, g1, AddLinks(g, source, links));
    }
  }

  lemma {:induction false} OwnersOnly(g: Graph, child: string, namespace: string, owners: seq<Owner>)
    requires Inv(g)
    ensures OnlyReferences(g, AddOwners(g, child, namespace, owners))
  {
    hide Inv, AddEdge, ValidKind, ValidReferenceName, NodeId;
    if owners != [] {
      var n := |owners| - 1;
      var g1 := AddOwners(g, child, namespace, owners[..n]);
      OwnersOnly(g, child, namespace, owners[..n]);
      var edge := EdgeSpec("owns", NodeId(g.clusterId, owners[n].kind, namespace, owners[n].name), child, "metadata.ownerReferences", "observed");
      EdgeOnly(g1, edge);
      OnlyReferencesTransitive(g, g1, AddEdge(g1, edge).0);
    }
  }

  lemma PassItemOnly(g: Graph, seen: set<string>, pass: Pass, kind: string, item: Item)
    requires Inv(g)
    ensures OnlyReferences(g, PassItem(g, seen, pass, kind, item).0)
  {
    hide Inv, AddLinks, AddOwners, SourceId;
    var id := SourceId(g, kind, item);
    if Claims(g, id, seen) {
      if pass.OwnerPass? {
        OwnersOnly(g, id, item.namespace, item.owners);
        var g1 := AddOwners(g, id, item.namespace, item.owners);
        LinksOnly(g1, id, item.template);
        OnlyReferencesTransitive(g, g1, AddLinks(g1, id, item.template));
      } else {
        LinksOnly(g, id, item.links);
      }
    }
  }

  lemma {:induction false} PassItemsOnly(g: Graph, seen: set<string>, pass: Pass, kind: string, items: seq<Item>)
    requires Inv(g)
    ensures OnlyReferences(g, PassItems(g, seen, pass, kind, items).0)
  {
    hide Inv, PassItem;
    if items != [] {
      var n := |items| - 1;
      var (g1, seen1) := PassItems(g, seen, pass, kind, items[..n]);
      PassItemsOnly(g, seen, pass, kind, items[..n]);
      PassItemOnly(g1, seen1, pass, kind, items[n]);
      OnlyReferencesTransitive(g, g1, PassItems(g, seen, pass, kind, items).0);
    }
  }

  lemma {:induction false} PassKindsOnly(g: Graph, seen: set<string>, pass: Pass, r: Resources, kinds: seq<string>)
    requires Inv(g)
    ensures OnlyReferences(g, PassKinds(g, seen, pass, r, kinds).0)
  {
    hide Inv, PassItems;
    if kinds != [] {
      var n := |kinds| - 1;
      var (g1, seen1) := PassKinds(g, seen, pass, r, kinds[..n]);
      PassKindsOnly(g, seen, pass, r, kinds[..n]);
      PassItemsOnly(g1, seen1, pass, kinds[n], List(r, kinds[n]));
      OnlyReferencesTransitive(g, g1, PassKinds(g, seen, pass, r, kinds).0);
    }
  }

  lemma {:induction false} RunPassesOnly(g: Graph, r: Resources, passes: seq<(Pass, seq<string>)>)
    requires Inv(g)
    ensures OnlyReferences(g, RunPasses(g, r, passes))
  {
    hide Inv, PassKinds;
    if passes != [] {
      var g1 := RunPasses(g, r, passes[..|passes| - 1]);
      RunPassesOnly(g, r, passes[..|passes| - 1]);
      PassKindsOnly(g1, {}, passes[|passes| - 1].0, r, passes[|passes| - 1].1);
      OnlyReferencesTransitive(g, g1, RunPasses(g, r, passes));
    }
  }

  lemma {:induction false} PodEdgesOnly(g: Graph, source: string, pods: seq<Item>, selected: set<nat>, edgeType: string, sourceField: string)
    requires Inv(g)
    ensures OnlyReferences(g, PodEdges(g, source, pods, selected, edgeType, sourceField).0)
  {
    hide Inv, AddEdge, NodeId;
    if pods != [] {
      var n := |pods| - 1;
      var g1 := PodEdges(g, source, pods[..n], selected, edgeType, sourceField).0;
      PodEdgesOnly(g, source, pods[..n], selected, edgeType, sourceField);
      var edge := EdgeSpec(edgeType, source, NodeId(g.clusterId, "Pod", pods[n].namespace, pods[n].name), sourceField, "inferred");
      EdgeOnly(g1, edge);
      OnlyReferencesTransitive(g, g1, AddEdge(g1, edge).0);
    }
  }

  lemma {:induction false} PeersOnly(g: Graph, source: string, pods: seq<Item>, rules: seq<PeerRule>)
    requires Inv(g)
    ensures OnlyReferences(g, AddPeers(g, source, pods, rules))
  {
    hide Inv, AddLinks, PodEdges;
    if rules != [] {
      var n := |rules| - 1;
      var g1, rule := AddPeers(g, source, pods, rules[..n]), rules[n];
      PeersOnly(g, source, pods, rules[..n]);
      match rule.peer {
        case PodPeer(selected) => PodEdgesOnly(g1, source, pods, selected, rule.edgeType, rule.sourceField);
        case NamespacePeer(names) => LinksOnly(g1, source, NamespaceLinks(names, rule.edgeType, rule.sourceField));
      }
      OnlyReferencesTransitive(g, g1, AddPeer(g1, source, pods, rule));
    }
  }

  lemma PolicyOnly(g: Graph, seen: set<string>, pods: seq<Item>, item: Item)
    requires Inv(g)
    ensures OnlyReferences(g, AddPolicy(g, seen, pods, item).0)
  {
    hide Inv, AddEdge, PodEdges, AddPeers, NodeId;
    var id := SourceId(g, "NetworkPolicy", item);
    var field := "NetworkPolicy.spec.podSelector";
    PodEdgesOnly(g, id, pods, item.policy.selected, "applies-to", field);
    var g1 := if item.policy.selectorValid then PodEdges(g, id, pods, item.policy.selected, "applies-to", field).0 else g;
    var edge := EdgeSpec("applies-to", id, NodeId(g.clusterId, "Namespace", "", item.namespace), field, "observed");
    EdgeOnly(g1, edge);
    OnlyReferencesTransitive(g, g1, AddEdge(g1, edge).0);
    PeersOnly(g1, id, pods, item.policy.peers);
    PeersOnly(AddEdge(g1, edge).0, id, pods, item.policy.peers);
    OnlyReferencesTransitive(g, g1, AddPeers(g1, id, pods, item.policy.peers));
    OnlyReferencesTransitive(g, AddEdge(g1, edge).0, AddPeers(AddEdge(g1, edge).0, id, pods, item.policy.peers));
  }

  lemma {:induction false} PoliciesOnly(g: Graph, pods: seq<Item>, items: seq<Item>)
    requires Inv(g)
    ensures OnlyReferences(g, AddPolicies(g, pods, items).0)
  {
    hide Inv, AddPolicy;
    if items != [] {
      var n := |items| - 1;
      var (g1, seen) := AddPolicies(g, pods, items[..n]);
      PoliciesOnly(g, pods, items[..n]);
      PolicyOnly(g1, seen, pods, items[n]);
      OnlyReferencesTransitive(g, g1, AddPolicy(g1, seen, pods, items[n]).0);
    }
  }

  lemma {:induction false} EndpointsOnly(g: Graph, endpoints: seq<Endpoint>)
    requires Inv(g)
    ensures OnlyReferences(g, AddEndpoints(g, endpoints))
  {
    hide Inv, AddEdge, NodeId;
    if endpoints != [] {
      var n := |endpoints| - 1;
      var g1, e := AddEndpoints(g, endpoints[..n]), endpoints[n];
      EndpointsOnly(g, endpoints[..n]);
      var edge := EdgeSpec("service-endpoint", NodeId(g.clusterId, "Service", e.namespace, e.service), NodeId(g.clusterId, "Pod", e.namespace, e.pod), e.sourceField, e.confidence);
      EdgeOnly(g1, edge);
      OnlyReferencesTransitive(g, g1, AddEdge(g1, edge).0);
    }
  }

  lemma PhaseTwoOnly(g: Graph, r: Resources)
    requires Inv(g)
    ensures OnlyReferences(g, PhaseTwo(g, r))
  {
    hide Inv, RunPasses, AddPolicies, AddEndpoints, List;
    RunPassesOnly(g, r, EdgePasses);
    var g1 := RunPasses(g, r, EdgePasses);
    PoliciesOnly(g1, List(r, "Pod"), List(r, "NetworkPolicy"));
    var g2 := AddPolicies(g1, List(r, "Pod"), List(r, "NetworkPolicy")).0;
    OnlyReferencesTransitive(g, g1, g2);
    EndpointsOnly(g2, r.endpoints);
    OnlyReferencesTransitive(g, g2, PhaseTwo(g, r));
  }

  // ----- the finished snapshot -----

  /** Every snapshot: the nodes are the cluster node with its final summary, then the first items of each
      list, then reference nodes; ids, positions, edges and issue counts obey the builder invariant. */
  lemma SnapshotNodes(r: Resources, clusterSummary: string)
    ensures var g, listed := Assemble(r, clusterSummary), KindNodes(SafeClusterId(r.clusterId), r, ResourceKinds);
            && Inv(g)
            && 1 + |listed| <= |g.nodes|
            && g.nodes[0] == ClusterNode(r).(summary := clusterSummary)
            && g.nodes[1..1 + |listed|] == listed
            && (forall k :: 1 + |listed| <= k < |g.nodes| ==> IsReference(g.nodes[k]))
            && g.resourceNodeSet == Ids(listed)
            && forall kind :: kind in ResourceKinds ==> Count(g.issues, IssueId(kind)) == Saturated(ListIssues(kind, List(r, kind)))
  {
    hide PhaseTwo, PhaseOne, KindNodes, IssueId, ListIssues, List, ClusterNode, Inv, ReplaceSummary, ReplaceFirst, Ids, ResourceKinds, IsReference, Saturated, SafeClusterId;
    var g1 := PhaseOne(r);
    PhaseOneRefines(r);
    PhaseTwoOnly(g1, r);
    var g2 := PhaseTwo(g1, r);
    ReplaceSummaryInv(g2, ClusterNode(r).id, clusterSummary);
    assert g2.nodes[0] == ClusterNode(r);
    ReplaceHead(g2, ClusterNode(r).id, clusterSummary);
  }

  lemma ReplaceHead(g: Graph, id: string, summary: string)
    requires Inv(g) && g.nodes != [] && g.nodes[0].id == id
    ensures ReplaceSummary(g, id, summary) == g.(nodes := [g.nodes[0].(summary := summary)] + g.nodes[1..])
  {
    hide EdgesInv, LayoutInv, ValidNodeIdentity;
    assert Placed(g.clusterId, g.nodes[0]);
    NodeIdNonEmpty(g.clusterId, g.nodes[0].kind, g.nodes[0].namespace, g.nodes[0].name);
  }

  /** Each accepted identity of each list is in the snapshot, with the data of the first item that has it. */
  lemma TrackedNodeData(r: Resources, clusterSummary: string, kind: string, i: nat) returns (k: nat, row: nat)
    requires kind in ResourceKinds && i < |List(r, kind)| && First(AcceptedBy(kind), List(r, kind), i)
    ensures var g := Assemble(r, clusterSummary);
            && k < |g.nodes| && g.nodes[k] == ItemNode(SafeClusterId(r.clusterId), kind, List(r, kind)[i], row)
            && g.nodes[k].id in g.resourceNodeSet
  {
    hide *;
    SnapshotNodes(r, clusterSummary);
    var cluster := SafeClusterId(r.clusterId);
    row := FirstItemNode(cluster, kind, List(r, kind), i);
    var at := KindOffset(cluster, r, ResourceKinds, kind);
    var listed := KindNodes(cluster, r, ResourceKinds);
    k := 1 + at + row;
    assert listed[at + row] == FirstNodes(cluster, kind, List(r, kind))[row];
    assert Assemble(r, clusterSummary).nodes[1..1 + |listed|][at + row] == listed[at + row];
    IdListed(listed, at + row);
  }

  lemma IdListed(nodes: seq<Node>, i: nat)
    requires i < |nodes|
    ensures nodes[i].id in Ids(nodes)
  {
    assert nodes[i] in nodes;
  }

  /** Where the nodes of one list start. */
  lemma {:induction false} KindOffset(clusterId: string, r: Resources, kinds: seq<string>, kind: string) returns (at: nat)
    requires kind in kinds
    ensures var nodes := FirstNodes(clusterId, kind, List(r, kind));
            && at + |nodes| <= |KindNodes(clusterId, r, kinds)|
            && forall k :: 0 <= k < |nodes| ==> KindNodes(clusterId, r, kinds)[at + k] == nodes[k]
  {
    hide FirstNodes, List;
    var n := |kinds| - 1;
    if kinds[n] == kind {
      at := |KindNodes(clusterId, r, kinds[..n])|;
    } else {
      at := KindOffset(clusterId, r, kinds[..n], kind);
    }
  }

  // ----- accounting -----

  /** The kinds whose lists report nothing about the items that they add. */
  predicate NeverInvalid(kind: string) {
    kind == "Namespace" || kind == "ServiceAccount" || kind == "CustomResourceDefinition" || kind == "CustomResource" || kind == "NetworkPolicy"
  }

  /** Outside Node and Pod an item is counted at most once: exactly when it was not added, or, unless its kind reports
      nothing more, was added although it is invalid. */
  lemma ItemCountedOnce(kind: string, items: seq<Item>, i: nat)
    requires i < |items| && kind != "Node" && kind != "Pod"
    ensures ItemIssues(kind, items, i) <= 1
    ensures ItemIssues(kind, items, i) == 0 <==> First(AcceptedBy(kind), items, i) && (NeverInvalid(kind) || items[i].valid)
  {
    hide First;
  }

  predicate IsInvalid(item: Item) { !item.valid }

  function CountItems(items: seq<Item>, test: Item -> bool): nat {
    if items == [] then 0 else CountItems(items[..|items| - 1], test) + if test(items[|items| - 1]) then 1 else 0
  }

  /** A node or a pod is counted once for not being added and once for being invalid, whether added or not: twice
      exactly if both hold. */
  lemma NodeIssues(kind: string, items: seq<Item>, i: nat)
    requires i < |items| && (kind == "Node" || kind == "Pod")
    ensures var added := First(AcceptedBy(kind), items, i);
            && (ItemIssues(kind, items, i) == 0 <==> added && items[i].valid)
            && (ItemIssues(kind, items, i) == 2 <==> !added && !items[i].valid)
            && ItemIssues(kind, items, i) <= 2
  {
    hide First;
  }

  /** So their lists count the items not added plus the invalid ones, where every other list counts the items
      not added plus the added ones that fail. */
  lemma {:induction false} NodeListIssues(kind: string, items: seq<Item>)
    requires kind == "Node" || kind == "Pod"
    ensures ListIssues(kind, items) == |items| - CountAdded(kind, items, EveryItem) + CountItems(items, IsInvalid)
  {
    hide First;
    if items != [] {
      NodeListIssues(kind, items[..|items| - 1]);
    }
  }

  /** Every other list counts the items not added, and unless its kind reports nothing more, the invalid ones among
      those added. */
  lemma {:induction false} OtherListIssues(kind: string, items: seq<Item>)
    requires kind != "Node" && kind != "Pod"
    ensures ListIssues(kind, items) == |items| - CountAdded(kind, items, EveryItem) + if NeverInvalid(kind) then 0 else CountAdded(kind, items, IsInvalid)
  {
    hide First;
    if items != [] {
      OtherListIssues(kind, items[..|items| - 1]);
      ItemCountedOnce(kind, items, |items| - 1);
    }
  }

  /** For example, an invalid node or pod that is listed twice counts three times. */
  lemma NodeCountedTwice(kind: string, item: Item)
    requires (kind == "Node" || kind == "Pod") && Accepts(kind, item) && !item.valid
    ensures ListIssues(kind, [item, item]) == 3
  {
    hide Accepts;
    var items := [item, item];
    assert items[..1] == [item] && [item][..0] == [];
    assert First(AcceptedBy(kind), items[..1], 0) && !First(AcceptedBy(kind), items, 1);
    assert ListIssues(kind, items[..0]) == 0;
  }

  /** The counter a list loop keeps: added items that satisfy a test. */
  function CountAdded(kind: string, items: seq<Item>, test: Item -> bool): nat {
    if items == [] then 0
    else
      var n := |items| - 1;
      CountAdded(kind, items[..n], test) + if First(AcceptedBy(kind), items, n) && test(items[n]) then 1 else 0
  }

  function CountNodes(nodes: seq<Node>, test: Node -> bool): nat {
    if nodes == [] then 0
    else CountNodes(nodes[..|nodes| - 1], test) + if test(nodes[|nodes| - 1]) then 1 else 0
  }

  lemma CountNodesAppend(nodes: seq<Node>, node: Node, test: Node -> bool)
    ensures CountNodes(nodes + [node], test) == CountNodes(nodes, test) + if test(node) then 1 else 0
  {
    assert (nodes + [node])[..|nodes|] == nodes;
  }

  /** A list counter equals the matching count of the nodes the list put in the graph, whenever the test on an
      item says what the test on its node says. */
  lemma {:induction false} CounterMatchesNodes(clusterId: string, kind: string, items: seq<Item>, test: Item -> bool, nodeTest: Node -> bool)
    requires forall item, row: nat :: nodeTest(ItemNode(clusterId, kind, item, row)) == test(item)
    ensures CountAdded(kind, items, test) == CountNodes(FirstNodes(clusterId, kind, items), nodeTest)
  {
    hide First, ItemNode, FirstNodes;
    if items == [] {
      FirstNodesOfNone(EmptyGraph(clusterId).(clusterId := clusterId), kind);
    } else {
      var n := |items| - 1;
      CounterMatchesNodes(clusterId, kind, items[..n], test, nodeTest);
      FirstNodesStep(clusterId, kind, items);
      var before := FirstNodes(clusterId, kind, items[..n]);
      CountNodesAppend(before, ItemNode(clusterId, kind, items[n], |before|), nodeTest);
    }
  }

  predicate EveryItem(item: Item) { true }
  predicate EveryNode(node: Node) { true }
  predicate ReadyItem(item: Item) { item.valid && item.ready }
  predicate WarningItem(item: Item) { item.status != "healthy" }
  predicate WarningNode(node: Node) { node.status != "healthy" }

  /** NodeTotal and Namespaces count tracked nodes, PodWarning counts tracked pods that are not healthy, and
      NodeReady is at most NodeTotal. */
  lemma SummaryCounters(clusterId: string, r: Resources)
    ensures CountAdded("Node", List(r, "Node"), EveryItem) == CountNodes(FirstNodes(clusterId, "Node", List(r, "Node")), EveryNode)
    ensures CountAdded("Namespace", List(r, "Namespace"), EveryItem) == CountNodes(FirstNodes(clusterId, "Namespace", List(r, "Namespace")), EveryNode)
    ensures CountAdded("Pod", List(r, "Pod"), WarningItem) == CountNodes(FirstNodes(clusterId, "Pod", List(r, "Pod")), WarningNode)
    ensures CountAdded("Node", List(r, "Node"), ReadyItem) <= CountAdded("Node", List(r, "Node"), EveryItem)
  {
    hide FirstNodes, First;
    CounterMatchesNodes(clusterId, "Node", List(r, "Node"), EveryItem, EveryNode);
    CounterMatchesNodes(clusterId, "Namespace", List(r, "Namespace"), EveryItem, EveryNode);
    CounterMatchesNodes(clusterId, "Pod", List(r, "Pod"), WarningItem, WarningNode);
    CounterMonotone("Node", List(r, "Node"), ReadyItem, EveryItem);
  }

  lemma {:induction false} CounterMonotone(kind: string, items: seq<Item>, stronger: Item -> bool, weaker: Item -> bool)
    requires forall item :: stronger(item) ==> weaker(item)
    ensures CountAdded(kind, items, stronger) <= CountAdded(kind, items, weaker)
  {
    hide First;
    if items != [] {
      CounterMonotone(kind, items[..|items| - 1], stronger, weaker);
    }
  }

  /** The items that a list adds and that pass a test, by position. */
  function AddedWith(kind: string, items: seq<Item>, test: Item -> bool): set<nat> {
    set i: nat | i < |items| && First(AcceptedBy(kind), items, i) && test(items[i])
  }

  lemma {:induction false} CountIsAdded(kind: string, items: seq<Item>, test: Item -> bool)
    ensures CountAdded(kind, items, test) == |AddedWith(kind, items, test)|
  {
    hide First;
    if items != [] {
      var n := |items| - 1;
      CountIsAdded(kind, items[..n], test);
      forall i: nat | i < n
        ensures First(AcceptedBy(kind), items[..n], i) <==> First(AcceptedBy(kind), items, i)
      {
        FirstOfPrefix(kind, items, n, i);
      }
      assert AddedWith(kind, items, test)
          == AddedWith(kind, items[..n], test) + if First(AcceptedBy(kind), items, n) && test(items[n]) then {n} else {};
    }
  }

  lemma FirstOfPrefix(kind: string, items: seq<Item>, n: nat, i: nat)
    requires i < n <= |items|
    ensures First(AcceptedBy(kind), items[..n], i) <==> First(AcceptedBy(kind), items, i)
  {
    assert forall j :: 0 <= j <= i ==> items[..n][j] == items[j];
  }

  /** The items of a list that added a node, by position. */
  function Adding(r: Resources, kind: string): (s: set<nat>)
    ensures forall i :: i in s ==> i < |List(r, kind)|
  {
    set i: nat | i < |List(r, kind)| && First(AcceptedBy(kind), List(r, kind), i)
  }

  /** What the cluster summary counts among the items that added a node: nodes, nodes with a valid and ready status, pods
      with a valid status that runs or has succeeded, pods that are not healthy, and namespaces. */
  lemma CountersMean(r: Resources)
    ensures CountAdded("Node", List(r, "Node"), EveryItem) == |Adding(r, "Node")|
    ensures CountAdded("Node", List(r, "Node"), ReadyItem) == |set i | i in Adding(r, "Node") && List(r, "Node")[i].valid && List(r, "Node")[i].ready|
    ensures CountAdded("Pod", List(r, "Pod"), ReadyItem) == |set i | i in Adding(r, "Pod") && List(r, "Pod")[i].valid && List(r, "Pod")[i].ready|
    ensures CountAdded("Pod", List(r, "Pod"), WarningItem) == |set i | i in Adding(r, "Pod") && List(r, "Pod")[i].status != "healthy"|
    ensures CountAdded("Namespace", List(r, "Namespace"), EveryItem) == |Adding(r, "Namespace")|
  {
    hide First, CountAdded, List;
    CountIsAdded("Node", List(r, "Node"), EveryItem);
    CountIsAdded("Node", List(r, "Node"), ReadyItem);
    CountIsAdded("Pod", List(r, "Pod"), ReadyItem);
    CountIsAdded("Pod", List(r, "Pod"), WarningItem);
    CountIsAdded("Namespace", List(r, "Namespace"), EveryItem);
    assert Adding(r, "Node") == AddedWith("Node", List(r, "Node"), EveryItem);
    assert (set i | i in Adding(r, "Node") && List(r, "Node")[i].valid && List(r, "Node")[i].ready) == AddedWith("Node", List(r, "Node"), ReadyItem);
    assert (set i | i in Adding(r, "Pod") && List(r, "Pod")[i].valid && List(r, "Pod")[i].ready) == AddedWith("Pod", List(r, "Pod"), ReadyItem);
    assert (set i | i in Adding(r, "Pod") && List(r, "Pod")[i].status != "healthy") == AddedWith("Pod", List(r, "Pod"), WarningItem);
    assert Adding(r, "Namespace") == AddedWith("Namespace", List(r, "Namespace"), EveryItem);
  }
}
