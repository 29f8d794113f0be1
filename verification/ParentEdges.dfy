/** The edges of phase one: the cluster owns its namespaces, and a custom resource is owned by its namespace and by
    its definition. */
module ParentEdges {
  import opened Text
  import opened Names
  import opened GraphBuilding
  import opened Assembly
  import opened AssemblyEdges
  import opened Claiming
  import opened NetworkPolicies
  import opened LinkEdges

  // ----- edges added by specification -----

  ghost predicate Specified(specs: set<EdgeSpec>, id: string) { exists e :: e in specs && IdOf(e) == id }

  /** g' has the edges of g and those of the specifications, and no others. */
  ghost predicate EdgesBy(g: Graph, g': Graph, specs: set<EdgeSpec>) {
    && g.edges <= g'.edges
    && (forall id :: id in g'.edgeSet <==> id in g.edgeSet || Specified(specs, id))
    && (forall k :: |g.edges| <= k < |g'.edges| ==> SpecOf(g'.edges[k]) in specs)
  }

  lemma EdgesByTransitive(a: Graph, b: Graph, c: Graph, s: set<EdgeSpec>, t: set<EdgeSpec>)
    requires EdgesBy(a, b, s) && EdgesBy(b, c, t)
    ensures EdgesBy(a, c, s + t)
  {
    hide IdOf, SpecOf;
    forall k | |a.edges| <= k < |c.edges|
      ensures SpecOf(c.edges[k]) in s + t
    {
      assert k < |b.edges| ==> c.edges[k] == b.edges[k];
    }
    forall id
      ensures Specified(s + t, id) <==> Specified(s, id) || Specified(t, id)
    {
      if Specified(s, id) || Specified(t, id) {
        var e :| (e in s || e in t) && IdOf(e) == id;
        assert e in s + t;
      }
    }
  }

  lemma NoEdges(g: Graph, g': Graph)
    requires g'.edges == g.edges && g'.edgeSet == g.edgeSet
    ensures EdgesBy(g, g', {})
  {
  }

  lemma OneEdge(g: Graph, e: EdgeSpec)
    requires Inv(g)
    ensures EdgesBy(g, AddEdge(g, e).0, if Fits(g, e) then {e} else {})
    ensures OnlyReferences(g, AddEdge(g, e).0) && AddEdge(g, e).0.nodeSet == g.nodeSet
  {
    hide Inv, Fits, AddEdge, IdOf, SpecOf;
    EdgeAdded(g, e);
    OneSpecified(e);
  }

  lemma OneSpecified(e: EdgeSpec)
    ensures forall id :: Specified({e}, id) <==> id == IdOf(e)
    ensures forall id :: !Specified({}, id)
  {
    hide IdOf;
    forall id
      ensures Specified({e}, id) <==> id == IdOf(e)
    {
      assert e in {e};
    }
  }

  // ----- the parents of one item -----

  function NamespaceParent(clusterId: string, clusterNode: string, item: Item): EdgeSpec {
    EdgeSpec("owns", clusterNode, NodeId(clusterId, "Namespace", item.namespace, item.name), "metadata.namespace", "observed")
  }

  function CustomId(clusterId: string, item: Item): string { NodeId(clusterId, "CustomResource", item.namespace, item.name) }

  /** A custom resource's namespace, if it has one, and its definition. */
  function CustomParents(clusterId: string, item: Item): set<EdgeSpec> {
    (if item.namespace == "" then {}
     else {EdgeSpec("owns", NodeId(clusterId, "Namespace", "", item.namespace), CustomId(clusterId, item), "metadata.namespace", "observed")})
    + {EdgeSpec("owns", NodeId(clusterId, "CustomResourceDefinition", "", item.definition), CustomId(clusterId, item), "CustomResourceDefinition.spec.names.kind", "observed")}
  }

  /** The parents of one item, given the nodes that were there before its list. */
  function ItemParents(nodes: set<string>, clusterId: string, clusterNode: string, kind: string, item: Item, added: bool): set<EdgeSpec> {
    if kind == "Namespace" && Accepts(kind, item) then {NamespaceParent(clusterId, clusterNode, item)}
    else if kind == "CustomResource" && added then set e | e in CustomParents(clusterId, item) && e.source in nodes
    else {}
  }

  lemma ParentFields()
    ensures ValidEdgeMetadata("owns", "metadata.namespace", "observed")
    ensures ValidEdgeMetadata("owns", "CustomResourceDefinition.spec.names.kind", "observed")
  {
    hide SafeVisibleText;
    PlainFieldIsVisible("metadata.namespace");
    PlainFieldIsVisible("CustomResourceDefinition.spec.names.kind");
  }

  /** The id under which an item's node is known: none if the item is not accepted. */
  function AddedId(clusterId: string, kind: string, item: Item): string {
    if Accepts(kind, item) then NodeId(clusterId, kind, item.namespace, item.name) else ""
  }

  /** Adding the parents, in a graph that has the item's node. */
  lemma ParentsAdded(g: Graph, clusterNode: string, kind: string, item: Item, added: bool)
    requires Inv(g) && clusterNode in g.nodeSet && (added ==> Accepts(kind, item))
    requires Accepts(kind, item) ==> AddedId(g.clusterId, kind, item) in g.nodeSet
    ensures EdgesBy(g, AddParents(g, clusterNode, kind, item, AddedId(g.clusterId, kind, item), added),
                    ItemParents(g.nodeSet, g.clusterId, clusterNode, kind, item, added))
  {
    NoEdges(g, g);
    if kind == "Namespace" {
      NamespaceAdded(g, clusterNode, item);
    } else if kind == "CustomResource" && added {
      CustomAdded(g, clusterNode, item);
    }
    hide Inv, NodeId, AddEdge, Accepts, EdgesBy, AddedId, NamespaceParent, CustomParents;
  }

  lemma NamespaceAdded(g: Graph, clusterNode: string, item: Item)
    requires Inv(g) && clusterNode in g.nodeSet
    requires Accepts("Namespace", item) ==> AddedId(g.clusterId, "Namespace", item) in g.nodeSet
    ensures EdgesBy(g, AddEdge(g, EdgeSpec("owns", clusterNode, AddedId(g.clusterId, "Namespace", item), "metadata.namespace", "observed")).0,
                    if Accepts("Namespace", item) then {NamespaceParent(g.clusterId, clusterNode, item)} else {})
  {
    ParentFields();
    hide Inv, NodeId, AddEdge, ValidEdgeMetadata, ValidNodeIdentity, EdgesBy;
    NoEmptyNode(g);
    OneEdge(g, EdgeSpec("owns", clusterNode, AddedId(g.clusterId, "Namespace", item), "metadata.namespace", "observed"));
  }

  lemma CustomAdded(g: Graph, clusterNode: string, item: Item)
    requires Inv(g) && CustomId(g.clusterId, item) in g.nodeSet
    ensures EdgesBy(g, AddParents(g, clusterNode, "CustomResource", item, CustomId(g.clusterId, item), true),
                    set e | e in CustomParents(g.clusterId, item) && e.source in g.nodeSet)
  {
    ParentFields();
    hide Inv, NodeId, AddEdge, ValidEdgeMetadata, EdgesBy, CustomId;
    var id := CustomId(g.clusterId, item);
    var byNamespace := EdgeSpec("owns", NodeId(g.clusterId, "Namespace", "", item.namespace), id, "metadata.namespace", "observed");
    var byDefinition := EdgeSpec("owns", NodeId(g.clusterId, "CustomResourceDefinition", "", item.definition), id, "CustomResourceDefinition.spec.names.kind", "observed");
    var t := if Fits(g, byDefinition) then {byDefinition} else {};
    if item.namespace == "" {
      OneEdge(g, byDefinition);
      assert t == set e | e in CustomParents(g.clusterId, item) && e.source in g.nodeSet;
    } else {
      var s := if Fits(g, byNamespace) then {byNamespace} else {};
      OneEdge(g, byNamespace);
      var g1 := AddEdge(g, byNamespace).0;
      OneEdge(g1, byDefinition);
      EdgesByTransitive(g, g1, AddEdge(g1, byDefinition).0, s, t);
      assert s + t == set e | e in CustomParents(g.clusterId, item) && e.source in g.nodeSet;
    }
  }

  // ----- one list -----

  function ListParents(nodes: set<string>, clusterId: string, clusterNode: string, kind: string, items: seq<Item>): set<EdgeSpec> {
    if items == [] then {}
    else
      var n := |items| - 1;
      ListParents(nodes, clusterId, clusterNode, kind, items[..n]) + ItemParents(nodes, clusterId, clusterNode, kind, items[n], First(AcceptedBy(kind), items, n))
  }

  /** No custom resource has the id of a namespace or a definition. */
  lemma ParentIsNoCustom(clusterId: string, kind: string, name: string, custom: Item)
    requires kind == "Namespace" || kind == "CustomResourceDefinition"
    requires Accepts("CustomResource", custom)
    ensures NodeId(clusterId, kind, "", name) != CustomId(clusterId, custom)
  {
    hide ValidNodeIdentity, NodeId;
    NodeIdLocal(clusterId, kind, "", name);
    NodeIdLocal(clusterId, "CustomResource", custom.namespace, custom.name);
    SharedLocalId(kind, "", name, "CustomResource", custom.namespace, custom.name);
  }

  /** While the custom resources are added, the parents that are there are those that were there before. */
  lemma SameParents(g: Graph, g': Graph, items: seq<Item>, item: Item, clusterNode: string, kind: string, added: bool)
    requires NodesInv(g) && NodesInv(g') && g'.nodes == g.nodes + FirstNodes(g.clusterId, kind, items) && g.nodeSet <= g'.nodeSet
    ensures ItemParents(g'.nodeSet, g.clusterId, clusterNode, kind, item, added) == ItemParents(g.nodeSet, g.clusterId, clusterNode, kind, item, added)
  {
    hide NodesInv, ValidNodeIdentity, NodeId, FirstNodes, First;
    if kind == "CustomResource" {
      forall e | e in CustomParents(g.clusterId, item) && e.source in g'.nodeSet
        ensures e.source in g.nodeSet
      {
        ParentWasThere(g, g', items, "Namespace", item.namespace);
        ParentWasThere(g, g', items, "CustomResourceDefinition", item.definition);
      }
    }
  }

  lemma ParentWasThere(g: Graph, g': Graph, items: seq<Item>, kind: string, name: string)
    requires NodesInv(g) && NodesInv(g') && g'.nodes == g.nodes + FirstNodes(g.clusterId, "CustomResource", items)
    requires kind == "Namespace" || kind == "CustomResourceDefinition"
    ensures NodeId(g.clusterId, kind, "", name) in g'.nodeSet ==> NodeId(g.clusterId, kind, "", name) in g.nodeSet
  {
    hide ValidNodeIdentity, NodeId, FirstNodes, First, Placed;
    var id := NodeId(g.clusterId, kind, "", name);
    if id in g'.nodeSet {
      var k :| 0 <= k < |g'.nodes| && g'.nodes[k].id == id;
      if k < |g.nodes| {
        assert g'.nodes[k] == g.nodes[k];
      } else {
        var i := FirstNodeItem(g.clusterId, "CustomResource", items, k - |g.nodes|);
        AcceptedFirst("CustomResource", items, i);
        ParentIsNoCustom(g.clusterId, kind, name, items[i]);
      }
    }
  }

  lemma AcceptedFirst(kind: string, items: seq<Item>, i: nat)
    requires i < |items| && First(AcceptedBy(kind), items, i)
    ensures Accepts(kind, items[i])
  {
    hide ValidNodeIdentity;
  }

  /** Adding an item's node, as seen from the edges. */
  lemma TrackedNode(g: Graph, kind: string, item: Item)
    requires Inv(g) && kind != "Cluster"
    ensures var (g1, id, added) := AddTracked(g, Spec(kind, item));
            && id == AddedId(g.clusterId, kind, item)
            && (Accepts(kind, item) ==> id in g1.nodeSet) && (added ==> Accepts(kind, item))
            && g1.edges == g.edges && g1.edgeSet == g.edgeSet && g1.clusterId == g.clusterId
  {
    hide Inv, ValidNodeIdentity, NodeId, Lane, SafeNodeStatus, Bump, IssueId;
  }

  /** One item of a list, with its parents. */
  lemma ItemEdges(g: Graph, gi: Graph, clusterNode: string, kind: string, items: seq<Item>)
    requires items != [] && kind != "Cluster" && NoKind(g.nodes, kind) && Inv(g) && clusterNode in g.nodeSet
    requires Inv(gi) && Grows(g, gi) && ListAdded(g, gi, kind, items[..|items| - 1])
    ensures var n := |items| - 1;
            EdgesBy(gi, AddItem(gi, clusterNode, kind, items[n]).0, ItemParents(g.nodeSet, g.clusterId, clusterNode, kind, items[n], First(AcceptedBy(kind), items, n)))
  {
    hide NodesInv, EdgesInv, LayoutInv, TrackInv, ValidNodeIdentity, NodeId, AddParents, AddTracked, NoKind, First, ReportsInvalid, Bump, BumpBy, IssueId, ItemParents, FirstNodes, ListIssues, EdgesBy, Accepts;
    var n := |items| - 1;
    var item := items[n];
    AddItemStep(g, gi, clusterNode, kind, items);
    var (g1, id, added) := AddTracked(gi, Spec(kind, item));
    var g2 := if ReportsInvalid(kind, item, added) then RecordIssue(g1, kind) else g1;
    AddTrackedInv(gi, Spec(kind, item));
    RecordIssueInv(g1, kind);
    TrackedNode(gi, kind, item);
    NoEdges(gi, g2);
    ParentsAdded(g2, clusterNode, kind, item, added);
    AddParentsInv(g2, clusterNode, kind, item, id, added);
    var g' := AddParents(g2, clusterNode, kind, item, id, added);
    SameParents(g, g', items, item, clusterNode, kind, added);
    var parents := ItemParents(g.nodeSet, g.clusterId, clusterNode, kind, item, added);
    EdgesByTransitive(gi, g2, g', {}, parents);
    assert {} + parents == parents;
  }

  lemma {:induction false} ListEdges(g: Graph, clusterNode: string, kind: string, items: seq<Item>)
    requires Inv(g) && kind != "Cluster" && NoKind(g.nodes, kind) && clusterNode in g.nodeSet
    ensures EdgesBy(g, AddItems(g, clusterNode, kind, items), ListParents(g.nodeSet, g.clusterId, clusterNode, kind, items))
  {
    hide Inv, AddItem, NoKind, First, ItemParents, EdgesBy, ListAdded, Grows;
    if items == [] {
      NoEdges(g, g);
    } else {
      var n := |items| - 1;
      ListEdges(g, clusterNode, kind, items[..n]);
      AddItemsRefines(g, clusterNode, kind, items[..n]);
      var gi := AddItems(g, clusterNode, kind, items[..n]);
      ItemEdges(g, gi, clusterNode, kind, items);
      EdgesByTransitive(g, gi, AddItems(g, clusterNode, kind, items), ListParents(g.nodeSet, g.clusterId, clusterNode, kind, items[..n]),
                        ItemParents(g.nodeSet, g.clusterId, clusterNode, kind, items[n], First(AcceptedBy(kind), items, n)));
    }
  }

  // ----- all lists -----

  function KindsParents(clusterId: string, clusterNode: string, r: Resources, kinds: seq<string>): set<EdgeSpec> {
    if kinds == [] then {}
    else
      var n := |kinds| - 1;
      KindsParents(clusterId, clusterNode, r, kinds[..n])
      + ListParents({clusterNode} + Ids(KindNodes(clusterId, r, kinds[..n])), clusterId, clusterNode, kinds[n], List(r, kinds[n]))
  }

  lemma NodeSetIs(g: Graph)
    requires Inv(g)
    ensures g.nodeSet == Ids(g.nodes)
  {
    hide EdgesInv, LayoutInv, TrackInv, Placed;
    forall id
      ensures id in g.nodeSet <==> id in Ids(g.nodes)
    {
      if id in g.nodeSet {
        var i :| 0 <= i < |g.nodes| && g.nodes[i].id == id;
        assert g.nodes[i] in g.nodes;
      }
    }
  }

  lemma {:induction false} KindsEdges(g: Graph, clusterNode: string, r: Resources, kinds: seq<string>)
    requires Inv(g) && DistinctKinds(kinds) && g.issues == map[] && Ids(g.nodes) == {clusterNode}
    requires forall kind :: kind in kinds ==> NoKind(g.nodes, kind)
    ensures EdgesBy(g, AddKinds(g, clusterNode, r, kinds), KindsParents(g.clusterId, clusterNode, r, kinds))
  {
    hide Inv, NoKind, AddItems, List, DistinctKinds, IssuesAdded, ListParents, EdgesBy, KindNodes, Ids;
    if kinds == [] {
      NoEdges(g, g);
    } else {
      var n := |kinds| - 1;
      DistinctPrefix(kinds);
      KindsEdges(g, clusterNode, r, kinds[..n]);
      AddKindsRefines(g, clusterNode, r, kinds[..n]);
      var gi := AddKinds(g, clusterNode, r, kinds[..n]);
      NoNewKind(g, gi, r, kinds[..n], kinds[n]);
      NodeSetIs(gi);
      IdsConcat(g.nodes, KindNodes(g.clusterId, r, kinds[..n]));
      ListEdges(gi, clusterNode, kinds[n], List(r, kinds[n]));
      EdgesByTransitive(g, gi, AddKinds(g, clusterNode, r, kinds), KindsParents(g.clusterId, clusterNode, r, kinds[..n]),
                        ListParents(gi.nodeSet, g.clusterId, clusterNode, kinds[n], List(r, kinds[n])));
    }
  }

  lemma {:induction false} ListParentsAre(nodes: set<string>, clusterId: string, clusterNode: string, kind: string, items: seq<Item>, e: EdgeSpec)
    ensures e in ListParents(nodes, clusterId, clusterNode, kind, items)
            <==> exists i :: 0 <= i < |items| && e in ItemParents(nodes, clusterId, clusterNode, kind, items[i], First(AcceptedBy(kind), items, i))
  {
    hide ItemParents, AcceptedBy;
    if items != [] {
      var n := |items| - 1;
      ListParentsAre(nodes, clusterId, clusterNode, kind, items[..n], e);
      assert forall i: nat :: i < n ==> items[..n][i] == items[i];
      assert forall i: nat :: i < n ==> First(AcceptedBy(kind), items[..n], i) == First(AcceptedBy(kind), items, i);
      hide First;
      if i :| 0 <= i < n && e in ItemParents(nodes, clusterId, clusterNode, kind, items[..n][i], First(AcceptedBy(kind), items[..n], i)) {
        assert e in ItemParents(nodes, clusterId, clusterNode, kind, items[i], First(AcceptedBy(kind), items, i));
      }
      if i :| 0 <= i < |items| && e in ItemParents(nodes, clusterId, clusterNode, kind, items[i], First(AcceptedBy(kind), items, i)) {
        assert i < n ==> e in ItemParents(nodes, clusterId, clusterNode, kind, items[..n][i], First(AcceptedBy(kind), items[..n], i));
      }
    }
  }

  /** The parents in list m, given the nodes of the lists before. */
  function ParentsAt(clusterId: string, clusterNode: string, r: Resources, kinds: seq<string>, m: int): set<EdgeSpec>
    requires 0 <= m < |kinds|
  {
    ListParents({clusterNode} + Ids(KindNodes(clusterId, r, kinds[..m])), clusterId, clusterNode, kinds[m], List(r, kinds[m]))
  }

  lemma {:induction false} KindsParentsAre(clusterId: string, clusterNode: string, r: Resources, kinds: seq<string>, e: EdgeSpec)
    ensures e in KindsParents(clusterId, clusterNode, r, kinds) <==> exists m :: 0 <= m < |kinds| && e in ParentsAt(clusterId, clusterNode, r, kinds, m)
  {
    hide ListParents, KindNodes, Ids, List;
    if kinds != [] {
      var n := |kinds| - 1;
      KindsParentsAre(clusterId, clusterNode, r, kinds[..n], e);
      ParentsAtPrefix(clusterId, clusterNode, r, kinds);
      assert e in KindsParents(clusterId, clusterNode, r, kinds) <==>
             e in KindsParents(clusterId, clusterNode, r, kinds[..n]) || e in ParentsAt(clusterId, clusterNode, r, kinds, n);
      hide ParentsAt, KindsParents;
      if m :| 0 <= m < n && e in ParentsAt(clusterId, clusterNode, r, kinds[..n], m) {
        assert e in ParentsAt(clusterId, clusterNode, r, kinds, m);
      }
    }
  }

  lemma ParentsAtPrefix(clusterId: string, clusterNode: string, r: Resources, kinds: seq<string>)
    requires kinds != []
    ensures var n := |kinds| - 1;
            forall m :: 0 <= m < n ==> ParentsAt(clusterId, clusterNode, r, kinds[..n], m) == ParentsAt(clusterId, clusterNode, r, kinds, m)
  {
    hide ListParents, KindNodes, Ids, List;
    var n := |kinds| - 1;
    forall m | 0 <= m < n
      ensures ParentsAt(clusterId, clusterNode, r, kinds[..n], m) == ParentsAt(clusterId, clusterNode, r, kinds, m)
    {
      assert kinds[..n][..m] == kinds[..m] && kinds[..n][m] == kinds[m];
    }
  }

  // ----- which parents are there -----

  lemma {:induction false} KindNodesPrefix(clusterId: string, r: Resources, kinds: seq<string>, m: nat)
    requires m <= |kinds|
    ensures KindNodes(clusterId, r, kinds[..m]) <= KindNodes(clusterId, r, kinds)
  {
    hide FirstNodes, List;
    var n := |kinds| - 1;
    if m <= n {
      KindNodesPrefix(clusterId, r, kinds[..n], m);
      assert kinds[..n][..m] == kinds[..m];
    } else {
      assert kinds[..m] == kinds;
    }
  }

  lemma BeforeCustoms()
    ensures "Namespace" in ResourceKinds[..13] && "CustomResourceDefinition" in ResourceKinds[..13]
    ensures |ResourceKinds| > 13 && ResourceKinds[0] == "Namespace" && ResourceKinds[13] == "CustomResource"
    ensures ListedKind("Namespace") && ListedKind("CustomResourceDefinition")
  {
    assert ResourceKinds[..13][0] == "Namespace" && ResourceKinds[..13][12] == "CustomResourceDefinition";
  }

  lemma OneCustomList(m: nat)
    requires m < |ResourceKinds|
    ensures ResourceKinds[m] == "CustomResource" <==> m == 13
  {
    BeforeCustoms();
    if m < 13 {
      KindsDistinct(m, 13);
    } else if m != 13 {
      KindsDistinct(13, m);
    }
  }

  /** When the custom resources are added, a namespace or definition is there exactly if it is a listed resource. */
  lemma ParentThere(r: Resources, kind: string, name: string)
    requires kind == "Namespace" || kind == "CustomResourceDefinition"
    ensures var c := SafeClusterId(r.clusterId); var id := NodeId(c, kind, "", name);
            id in {ClusterNode(r).id} + Ids(KindNodes(c, r, ResourceKinds[..13])) <==> id in Ids(KindNodes(c, r, ResourceKinds))
  {
    BeforeCustoms();
    hide KindNodes, List, NodeId, ValidNodeIdentity, ResourceKinds, ClusterNode, ListedKind, SafeClusterId;
    var c := SafeClusterId(r.clusterId);
    var id := NodeId(c, kind, "", name);
    KindNodesPrefix(c, r, ResourceKinds, 13);
    ClusterIsNoParent(r, kind, name);
    if id in Ids(KindNodes(c, r, ResourceKinds)) {
      var node :| node in KindNodes(c, r, ResourceKinds) && node.id == id;
      var kind', j := KindNodeListed(c, r, ResourceKinds, node);
      ListedKinds();
      var item := List(r, kind')[j];
      NodeIdLocal(c, kind, "", name);
      NodeIdLocal(c, kind', item.namespace, item.name);
      SharedLocalId(kind, "", name, kind', item.namespace, item.name);
      ListedIsIn(c, r, ResourceKinds[..13], kind, j, id);
    }
  }

  lemma ClusterIsNoParent(r: Resources, kind: string, name: string)
    requires kind == "Namespace" || kind == "CustomResourceDefinition"
    ensures NodeId(SafeClusterId(r.clusterId), kind, "", name) != ClusterNode(r).id
  {
    hide SafeClusterId, SafeClusterName, Lane, NodeId;
    var c, cluster := SafeClusterId(r.clusterId), ClusterNode(r).name;
    NodeIdLocal(c, kind, "", name);
    NodeIdLocal(c, "Cluster", "", cluster);
    assert ClusterNode(r).id == NodeId(c, "Cluster", "", cluster);
    if LocalId(kind, "", name) == LocalId("Cluster", "", cluster) {
      SplitUnique(kind, name, "Cluster", cluster, ':');
    }
  }

  /** An edge of phase one: from the cluster to an accepted namespace, or to a custom resource from its namespace or
      its definition, if that is a listed resource. */
  predicate ParentEdge(r: Resources, e: EdgeSpec) {
    var c, namespaces, customs := SafeClusterId(r.clusterId), List(r, "Namespace"), List(r, "CustomResource");
    || (exists j :: 0 <= j < |namespaces| && Accepts("Namespace", namespaces[j]) && e == NamespaceParent(c, ClusterNode(r).id, namespaces[j]))
    || (exists j :: 0 <= j < |customs| && First(AcceptedBy("CustomResource"), customs, j) && e in CustomParents(c, customs[j])
                    && e.source in Ids(KindNodes(c, r, ResourceKinds)))
  }

  /** One item of list m, by the kind of the list. */
  lemma ItemParentIs(r: Resources, m: nat, i: nat, e: EdgeSpec)
    requires m < |ResourceKinds| && i < |List(r, ResourceKinds[m])|
    ensures var c, cn, kind := SafeClusterId(r.clusterId), ClusterNode(r).id, ResourceKinds[m]; var items := List(r, kind);
            e in ItemParents({cn} + Ids(KindNodes(c, r, ResourceKinds[..m])), c, cn, kind, items[i], First(AcceptedBy(kind), items, i)) <==>
            || (kind == "Namespace" && Accepts(kind, items[i]) && e == NamespaceParent(c, cn, items[i]))
            || (kind == "CustomResource" && First(AcceptedBy(kind), items, i) && e in CustomParents(c, items[i]) && e.source in Ids(KindNodes(c, r, ResourceKinds)))
  {
    OneCustomList(m);
    CustomParentThere(r, List(r, ResourceKinds[m])[i], e);
    hide KindNodes, List, Accepts, First, ResourceKinds, ClusterNode, SafeClusterId, Ids, CustomParents, NamespaceParent;
  }

  lemma CustomParentThere(r: Resources, item: Item, e: EdgeSpec)
    ensures var c := SafeClusterId(r.clusterId);
            e in CustomParents(c, item) ==>
              (e.source in {ClusterNode(r).id} + Ids(KindNodes(c, r, ResourceKinds[..13])) <==> e.source in Ids(KindNodes(c, r, ResourceKinds)))
  {
    BeforeCustoms();
    hide KindNodes, NodeId, ResourceKinds, ClusterNode, SafeClusterId, Ids, ListedKind;
    ParentThere(r, "Namespace", item.namespace);
    ParentThere(r, "CustomResourceDefinition", item.definition);
  }

  /** The parents in list m of all lists. */
  predicate ParentOfList(r: Resources, m: nat, e: EdgeSpec)
    requires m < |ResourceKinds|
  {
    var c, kind := SafeClusterId(r.clusterId), ResourceKinds[m]; var items := List(r, kind);
    || (kind == "Namespace" && exists j :: 0 <= j < |items| && Accepts(kind, items[j]) && e == NamespaceParent(c, ClusterNode(r).id, items[j]))
    || (kind == "CustomResource" && exists j :: 0 <= j < |items| && First(AcceptedBy(kind), items, j) && e in CustomParents(c, items[j])
                                                && e.source in Ids(KindNodes(c, r, ResourceKinds)))
  }

  lemma ParentsOfLists(r: Resources, e: EdgeSpec)
    ensures (exists m :: 0 <= m < |ResourceKinds| && ParentOfList(r, m, e)) <==> ParentEdge(r, e)
  {
    BeforeCustoms();
    hide KindNodes, List, Accepts, First, ResourceKinds, ClusterNode, ListedKind, SafeClusterId, Ids, NamespaceParent, CustomParents;
    if ParentEdge(r, e) {
      assert ParentOfList(r, 0, e) || ParentOfList(r, 13, e);
    }
  }

  lemma ParentsAre(r: Resources, e: EdgeSpec)
    ensures e in KindsParents(SafeClusterId(r.clusterId), ClusterNode(r).id, r, ResourceKinds) <==> ParentEdge(r, e)
  {
    hide KindNodes, List, Accepts, First, ResourceKinds, ClusterNode, ListedKind, SafeClusterId, Ids, KindsParents, ListParents, ItemParents, NamespaceParent, CustomParents, ParentEdge;
    var c, cn := SafeClusterId(r.clusterId), ClusterNode(r).id;
    KindsParentsAre(c, cn, r, ResourceKinds, e);
    ParentsOfLists(r, e);
    forall m | 0 <= m < |ResourceKinds|
      ensures e in ParentsAt(c, cn, r, ResourceKinds, m) <==> ParentOfList(r, m, e)
    {
      ListParentsAre({cn} + Ids(KindNodes(c, r, ResourceKinds[..m])), c, cn, ResourceKinds[m], List(r, ResourceKinds[m]), e);
      forall i: nat | i < |List(r, ResourceKinds[m])| {
        ItemParentIs(r, m, i, e);
      }
    }
  }

  /** Phase one has these edges and no others. */
  lemma PhaseOneEdges(r: Resources)
    ensures var g := PhaseOne(r);
            && (forall id :: id in g.edgeSet <==> exists e :: ParentEdge(r, e) && IdOf(e) == id)
            && (forall k :: 0 <= k < |g.edges| ==> ParentEdge(r, SpecOf(g.edges[k])))
  {
    hide Inv, ValidNodeIdentity, AddKinds, KindsParents, List, SafeClusterName, DistinctKinds, ParentEdge, IdOf, SpecOf, Lane;
    var g0 := EmptyGraph(r.clusterId);
    EmptyInv(r.clusterId);
    ClusterNodeAccepted(r);
    AddNodeInv(g0, ClusterSpec(r));
    ResourceKindsDistinct();
    var (g1, clusterNode) := AddNode(g0, ClusterSpec(r));
    assert g1.nodes == [ClusterNode(r)];
    NoClusterKind();
    KindsEdges(g1, clusterNode, r, ResourceKinds);
    forall e
      ensures e in KindsParents(SafeClusterId(r.clusterId), ClusterNode(r).id, r, ResourceKinds) <==> ParentEdge(r, e)
    {
      ParentsAre(r, e);
    }
  }
}
