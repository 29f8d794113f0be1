/** Why a snapshot loses no edge to the string ids of edges, and whose edges start from the node of a custom resource. */
module EdgeIdentity {
  import opened Text
  import opened Names
  import opened GraphBuilding
  import opened Assembly
  import opened AssemblyEdges
  import opened Claiming
  import opened NetworkPolicies
  import opened LinkEdges
  import opened ParentEdges
  import opened SnapshotEdges

  // ----- ids without '>' -----

  predicate NoArrow(s: string) { '>' !in s }

  lemma AcceptedIsTame(clusterId: string, kind: string, namespace: string, name: string)
    requires ValidNodeIdentity(kind, namespace, name) && kind != "Cluster"
    ensures NoArrow(NodeId(SafeClusterId(clusterId), kind, namespace, name))
  {
    SafeClusterIdVisible(clusterId);
    var c := SafeClusterId(clusterId);
    hide SafeClusterId;
    KindAlphabet(kind);
    if namespace != "" {
      DnsAlphabet(namespace);
    }
    if kind == "CustomResource" {
      var (a, b, found) := Cut(name, ':');
      KindAlphabet(a);
      DnsAlphabet(b);
    } else {
      DnsAlphabet(name);
    }
    hide ValidNodeIdentity, ValidKind, ValidNamespace, Cut, TrimSpace;
    assert NoArrow(c) && NoArrow(kind) && NoArrow(namespace) && NoArrow(name);
  }

  lemma PartsAreTame(clusterId: string, kind: string, namespace: string, name: string)
    ensures NoArrow(NodeId(clusterId, kind, namespace, name)) <==> NoArrow(clusterId) && NoArrow(kind) && NoArrow(namespace) && NoArrow(name)
  {
    var id := NodeId(clusterId, kind, namespace, name);
    if namespace == "" {
      assert id == clusterId + ":" + kind + ":" + name;
    }
    assert forall c :: c in id <==> c in clusterId || c == ':' || c in kind || c in namespace || c in name;
  }

  lemma TrackedIsTame(g: Graph, r: Resources, id: string)
    requires FromPhaseOne(g, r) && id in g.resourceNodeSet
    ensures NoArrow(id)
  {
    hide Inv, KindNodes, List, NodeId, ValidNodeIdentity, ResourceKinds, NoArrow, ListedKind;
    var nodes := KindNodes(g.clusterId, r, ResourceKinds);
    var node :| node in nodes && node.id == id;
    var kind, j := KindNodeListed(g.clusterId, r, ResourceKinds, node);
    ListedKinds();
    NotCluster(kind);
    AcceptedIsTame(r.clusterId, kind, List(r, kind)[j].namespace, List(r, kind)[j].name);
  }

  lemma NotCluster(kind: string)
    ensures ListedKind(kind) ==> kind != "Cluster"
  {
  }

  // ----- ids of the cluster -----

  /** A namespace under which an id reads as that of a cluster. No checked namespace does: they are in lower case. */
  predicate ReadsAsCluster(namespace: string) { namespace != "" && Cut(namespace, ':').0 == "Cluster" }

  /** An id of this kind and namespace is a cluster's only if kind and name are. */
  lemma ClusterIdsAre(clusterId: string, kind: string, namespace: string, name: string, cluster: string)
    requires ':' !in kind && !ReadsAsCluster(namespace)
    ensures NodeId(clusterId, kind, namespace, name) == NodeId(clusterId, "Cluster", "", cluster) ==> kind == "Cluster" && namespace == "" && name == cluster
  {
    hide NodeId;
    NodeIdLocal(clusterId, kind, namespace, name);
    NodeIdLocal(clusterId, "Cluster", "", cluster);
    if NodeId(clusterId, kind, namespace, name) == NodeId(clusterId, "Cluster", "", cluster) {
      if namespace == "" {
        SplitUnique(kind, name, "Cluster", cluster, ':');
      } else {
        var (u, v, found) := Cut(namespace, ':');
        var tail := kind + [':'] + name;
        if found {
          assert namespace + [':'] + tail == u + [':'] + (v + [':'] + tail);
          SplitUnique(u, v + [':'] + tail, "Cluster", cluster, ':');
        } else {
          SplitUnique(namespace, tail, "Cluster", cluster, ':');
        }
      }
    }
  }

  /** A node's id holds no '>' unless it is that of a cluster. */
  lemma NodeIsTame(h: Graph, clusterId: string, id: string)
    requires Inv(h) && h.clusterId == SafeClusterId(clusterId) && id in h.nodeSet
    ensures NoArrow(id) || exists cluster :: id == NodeId(h.clusterId, "Cluster", "", cluster)
  {
    hide EdgesInv, LayoutInv, TrackInv, NodeId, SafeClusterId, NoArrow, ValidKind, ValidNamespace, ValidReferenceName, SafeVisibleText, TrimSpace, Cut;
    var i :| 0 <= i < |h.nodes| && h.nodes[i].id == id;
    var node := h.nodes[i];
    assert Placed(h.clusterId, node);
    if node.kind != "Cluster" {
      AcceptedIsTame(clusterId, node.kind, node.namespace, node.name);
    }
  }

  /** The target of an edge holds no '>': it is a node, and not the cluster's unless its name holds none. */
  lemma TargetIsTame(h: Graph, clusterId: string, kind: string, namespace: string, name: string)
    requires Inv(h) && h.clusterId == SafeClusterId(clusterId) && NodeId(h.clusterId, kind, namespace, name) in h.nodeSet
    requires ':' !in kind && !ReadsAsCluster(namespace) && (kind == "Cluster" ==> NoArrow(name))
    ensures NoArrow(NodeId(h.clusterId, kind, namespace, name))
  {
    hide Inv, NodeId, NoArrow, ReadsAsCluster, SafeClusterId;
    var id := NodeId(h.clusterId, kind, namespace, name);
    NodeIsTame(h, clusterId, id);
    if cluster :| id == NodeId(h.clusterId, "Cluster", "", cluster) {
      ClusterIdsAre(h.clusterId, kind, namespace, name, cluster);
      CleanClusterId(clusterId);
      ClusterIsTame();
      PartsAreTame(h.clusterId, kind, namespace, name);
    }
  }

  lemma ClusterIsTame()
    ensures NoArrow("Cluster") && NoArrow("")
  {
  }

  lemma CleanClusterId(clusterId: string)
    ensures NoArrow(SafeClusterId(clusterId))
  {
    SafeClusterIdVisible(clusterId);
    assert !ClusterIdByte('>');
    hide SafeClusterId, TrimSpace, ClusterIdByte;
  }

  /** Nor does the namespace of an item whose id is tracked read as a cluster's. */
  lemma TrackedIsNoCluster(g: Graph, r: Resources, kind: string, namespace: string, name: string)
    requires FromPhaseOne(g, r) && NodeId(g.clusterId, kind, namespace, name) in g.resourceNodeSet
    ensures !ReadsAsCluster(namespace)
  {
    hide FromPhaseOne, NodeId, ReadsAsCluster;
    if ReadsAsCluster(namespace) {
      var cluster := ClusterRead(g.clusterId, kind, namespace, name);
      TrackedIsNotCluster(g, r, NodeId(g.clusterId, kind, namespace, name), cluster);
    }
  }

  lemma ClusterRead(clusterId: string, kind: string, namespace: string, name: string) returns (cluster: string)
    requires ReadsAsCluster(namespace)
    ensures NodeId(clusterId, kind, namespace, name) == NodeId(clusterId, "Cluster", "", cluster)
  {
    hide NodeId;
    var (u, v, found) := Cut(namespace, ':');
    var tail := kind + [':'] + name;
    cluster := if found then v + [':'] + tail else tail;
    NodeIdLocal(clusterId, kind, namespace, name);
    NodeIdLocal(clusterId, "Cluster", "", cluster);
    if found {
      assert namespace + [':'] + tail == u + [':'] + (v + [':'] + tail);
    }
  }

  lemma TrackedIsNotCluster(g: Graph, r: Resources, id: string, cluster: string)
    requires FromPhaseOne(g, r) && id in g.resourceNodeSet
    ensures id != NodeId(g.clusterId, "Cluster", "", cluster)
  {
    hide Inv, KindNodes, List, NodeId, ValidNodeIdentity, ResourceKinds, ReadsAsCluster;
    var nodes := KindNodes(g.clusterId, r, ResourceKinds);
    var node :| node in nodes && node.id == id;
    var kind, j := KindNodeListed(g.clusterId, r, ResourceKinds, node);
    ListedKinds();
    var item := List(r, kind)[j];
    AcceptedReadsAsNone(kind, item.namespace, item.name);
    ClusterIdsAre(g.clusterId, kind, item.namespace, item.name, cluster);
  }

  lemma AcceptedReadsAsNone(kind: string, namespace: string, name: string)
    requires ValidNodeIdentity(kind, namespace, name)
    ensures !ReadsAsCluster(namespace)
  {
    if namespace != "" {
      NamespaceReadsAsNone(namespace);
    }
  }

  lemma NamespaceReadsAsNone(namespace: string)
    requires ValidNamespace(namespace)
    ensures !ReadsAsCluster(namespace)
  {
    DnsAlphabet(namespace);
    assert DnsByte(namespace[0]);
    hide ValidDnsSubdomain;
    var (u, v, found) := Cut(namespace, ':');
    assert namespace == u;
    assert "Cluster"[0] == 'C';
  }

  // ----- resources as the analyses deliver them -----

  /** A link's field is a constant or a path; its kind holds no colon, and names a cluster only as the checks allow; its
      namespace is checked or the item's own. */
  predicate TameLink(kind: string, item: Item, link: Link) {
    && TameField(link.sourceField) && ':' !in link.kind && (link.kind == "Cluster" ==> NoArrow(link.name))
    && (!ReadsAsCluster(link.namespace) || (link.namespace == item.namespace && kind != "PersistentVolume"))
  }

  predicate TameItem(kind: string, item: Item) {
    && (forall k :: 0 <= k < |item.links| ==> TameLink(kind, item, item.links[k]))
    && (forall k :: 0 <= k < |item.template| ==> TameLink(kind, item, item.template[k]))
    && (forall k :: 0 <= k < |item.policy.peers| ==> TameField(item.policy.peers[k].sourceField))
  }

  predicate TameEndpoint(e: Endpoint) { TameField(e.sourceField) && !ReadsAsCluster(e.namespace) }

  ghost predicate TameResources(r: Resources) {
    && (forall kind, i :: 0 <= i < |List(r, kind)| ==> TameItem(kind, List(r, kind)[i]))
    && (forall k :: 0 <= k < |r.endpoints| ==> TameEndpoint(r.endpoints[k]))
  }

  /** A graph after phase two, as far as its nodes go. */
  ghost predicate After(g: Graph, h: Graph, r: Resources) {
    FromPhaseOne(g, r) && Inv(h) && h.clusterId == g.clusterId
  }

  /** The field is tame, and so is the target if it is a node, and the listed resource that it may have to be. */
  predicate TameOffer(g: Graph, h: Graph, o: Offer) {
    && TameField(o.edge.sourceField)
    && (o.edge.target in h.nodeSet && (o.listed ==> o.edge.target in g.resourceNodeSet) ==> NoArrow(o.edge.target))
  }

  lemma LinkOffersTame(g: Graph, h: Graph, r: Resources, source: string, kind: string, item: Item, links: seq<Link>, o: Offer)
    requires After(g, h, r) && (kind != "PersistentVolume" ==> !ReadsAsCluster(item.namespace))
    requires forall k :: 0 <= k < |links| ==> TameLink(kind, item, links[k])
    requires o in LinkOffers(g.clusterId, source, links)
    ensures TameOffer(g, h, o)
  {
    hide Inv, KindNodes, Ids, NodeId, TameField, NoArrow, ReadsAsCluster, SafeClusterId;
    var k :| 0 <= k < |links| && o == LinkOffer(g.clusterId, source, links[k]);
    assert TameLink(kind, item, links[k]);
    if o.edge.target in h.nodeSet {
      TargetIsTame(h, r.clusterId, links[k].kind, links[k].namespace, links[k].name);
    }
  }

  lemma OwnerFieldIsTame()
    ensures TameField("metadata.ownerReferences")
  {
  }

  lemma SelectorFieldIsTame()
    ensures TameField(SelectorField)
  {
  }

  lemma NamespaceFieldIsTame()
    ensures TameField("metadata.namespace")
  {
  }

  lemma DefinitionFieldIsTame()
    ensures TameField("CustomResourceDefinition.spec.names.kind")
  {
  }

  lemma {:induction false} OwnerOffersTame(g: Graph, h: Graph, child: string, namespace: string, owners: seq<Owner>, o: Offer)
    requires NoArrow(child) && o in OwnerOffers(g.clusterId, child, namespace, owners)
    ensures TameOffer(g, h, o)
  {
    OwnerFieldIsTame();
    hide NodeId, NoArrow, OwnerAccepted, TameField;
    var n := |owners| - 1;
    if o in OwnerOffers(g.clusterId, child, namespace, owners[..n]) {
      OwnerOffersTame(g, h, child, namespace, owners[..n], o);
    }
  }

  lemma ItemOffersTame(g: Graph, h: Graph, r: Resources, pass: Pass, kind: string, item: Item, o: Offer)
    requires After(g, h, r) && TameItem(kind, item) && SourceId(g, kind, item) in g.resourceNodeSet
    requires o in ItemOffers(g.clusterId, pass, kind, item)
    ensures TameOffer(g, h, o)
  {
    hide FromPhaseOne, Inv, NodeId, NoArrow, TameLink, OwnerOffers, LinkOffers, TameOffer, ReadsAsCluster;
    var id := SourceId(g, kind, item);
    TrackedIsTame(g, r, id);
    TrackedIsNoCluster(g, r, kind, SourceNamespace(kind, item), item.name);
    if pass.OwnerPass? && o in OwnerOffers(g.clusterId, id, item.namespace, item.owners) {
      OwnerOffersTame(g, h, id, item.namespace, item.owners, o);
    } else {
      LinkOffersTame(g, h, r, id, kind, item, if pass.OwnerPass? then item.template else item.links, o);
    }
  }

  lemma {:induction false} PodOffersTame(g: Graph, h: Graph, r: Resources, source: string, pods: seq<Item>, selected: set<nat>, edgeType: string, sourceField: string, o: Offer)
    requires FromPhaseOne(g, r) && TameField(sourceField) && o in PodOffers(g, source, pods, selected, edgeType, sourceField)
    ensures TameOffer(g, h, o)
  {
    hide Inv, KindNodes, NodeId, NoArrow, Ids, TameField;
    var n := |pods| - 1;
    if o in PodOffers(g, source, pods[..n], selected, edgeType, sourceField) {
      PodOffersTame(g, h, r, source, pods[..n], selected, edgeType, sourceField, o);
    } else {
      assert FirstTracked(g, pods, n);
      TrackedIsTame(g, r, PodId(g, pods[n]));
    }
  }

  lemma NamespaceOffersTame(g: Graph, h: Graph, r: Resources, source: string, names: seq<string>, edgeType: string, sourceField: string, o: Offer)
    requires FromPhaseOne(g, r) && TameField(sourceField) && o in LinkOffers(g.clusterId, source, NamespaceLinks(names, edgeType, sourceField))
    ensures TameOffer(g, h, o)
  {
    hide Inv, KindNodes, NodeId, NoArrow, Ids, TameField;
    if o.edge.target in g.resourceNodeSet {
      TrackedIsTame(g, r, o.edge.target);
    }
  }

  lemma {:induction false} PeersOffersTame(g: Graph, h: Graph, r: Resources, source: string, pods: seq<Item>, rules: seq<PeerRule>, o: Offer)
    requires FromPhaseOne(g, r) && (forall k :: 0 <= k < |rules| ==> TameField(rules[k].sourceField)) && o in PeersOffers(g, source, pods, rules)
    ensures TameOffer(g, h, o)
  {
    hide FromPhaseOne, PodOffers, LinkOffers, TameField, TameOffer;
    var n := |rules| - 1;
    if o in PeersOffers(g, source, pods, rules[..n]) {
      PeersOffersTame(g, h, r, source, pods, rules[..n], o);
    } else {
      match rules[n].peer
      case PodPeer(selected) => PodOffersTame(g, h, r, source, pods, selected, rules[n].edgeType, rules[n].sourceField, o);
      case NamespacePeer(names) => NamespaceOffersTame(g, h, r, source, names, rules[n].edgeType, rules[n].sourceField, o);
    }
  }

  lemma PolicyOffersTame(g: Graph, h: Graph, r: Resources, pods: seq<Item>, item: Item, o: Offer)
    requires After(g, h, r) && TameItem("NetworkPolicy", item) && o in PolicyOffers(g, pods, item)
    ensures TameOffer(g, h, o)
  {
    hide Inv, KindNodes, Ids, PodOffers, PeersOffers, NodeId, NoArrow, SomeSelected, TameLink, SafeClusterId;
    var source := SourceId(g, "NetworkPolicy", item);
    SelectorFieldIsTame();
    hide TameField;
    if o in PeersOffers(g, source, pods, item.policy.peers) {
      PeersOffersTame(g, h, r, source, pods, item.policy.peers, o);
    } else if o in PodOffers(g, source, pods, item.policy.selected, "applies-to", SelectorField) {
      PodOffersTame(g, h, r, source, pods, item.policy.selected, "applies-to", SelectorField, o);
    } else {
      assert o.edge.target == NamespaceId(g, item.namespace);
      if o.edge.target in h.nodeSet {
        assert ':' !in "Namespace" && !ReadsAsCluster("");
        TargetIsTame(h, r.clusterId, "Namespace", "", item.namespace);
      }
    }
  }

  lemma EndpointOfferTame(g: Graph, h: Graph, r: Resources, e: Endpoint)
    requires After(g, h, r) && TameEndpoint(e)
    ensures TameOffer(g, h, EndpointOffer(g.clusterId, e))
  {
    assert ':' !in "Pod";
    hide Inv, KindNodes, Ids, NodeId, NoArrow, TameField, ReadsAsCluster, SafeClusterId;
    var target := NodeId(g.clusterId, "Pod", e.namespace, e.pod);
    if target in h.nodeSet {
      TargetIsTame(h, r.clusterId, "Pod", e.namespace, e.pod);
    }
  }

  lemma OffersAreTame(g: Graph, h: Graph, r: Resources, o: Offer)
    requires After(g, h, r) && TameResources(r) && o in PhaseTwoOffers(g, r)
    ensures TameOffer(g, h, o)
  {
    hide *;
    OffersAre(g, r, o);
    if p, n, i :| PassOffersIt(g, r, p, n, i, o) {
      PassOfferTame(g, h, r, p, n, i, o);
    } else if i :| PolicyOffersIt(g, r, i, o) {
      PolicyOfferTame(g, h, r, i, o);
    } else {
      var k :| 0 <= k < |r.endpoints| && o == EndpointOffer(g.clusterId, r.endpoints[k]);
      EndpointIsTame(r, k);
      EndpointOfferTame(g, h, r, r.endpoints[k]);
    }
  }

  lemma PassOfferTame(g: Graph, h: Graph, r: Resources, p: int, n: int, i: int, o: Offer)
    requires After(g, h, r) && TameResources(r) && PassOffersIt(g, r, p, n, i, o)
    ensures TameOffer(g, h, o)
  {
    hide After, TameItem, ItemOffers, EdgePasses, TameOffer, SourceId, TameEndpoint, ClaimsIn, List;
    var kinds := EdgePasses[p].1;
    ClaimantIsTracked(g, r, kinds, n, i);
    assert TameItem(kinds[n], List(r, kinds[n])[i]);
    ItemOffersTame(g, h, r, EdgePasses[p].0, kinds[n], List(r, kinds[n])[i], o);
  }

  lemma PolicyOfferTame(g: Graph, h: Graph, r: Resources, i: int, o: Offer)
    requires After(g, h, r) && TameResources(r) && PolicyOffersIt(g, r, i, o)
    ensures TameOffer(g, h, o)
  {
    hide After, TameItem, PolicyOffers, TameOffer, SourceId, TameEndpoint, ClaimsAt, List;
    assert TameItem("NetworkPolicy", List(r, "NetworkPolicy")[i]);
    PolicyOffersTame(g, h, r, List(r, "Pod"), List(r, "NetworkPolicy")[i], o);
  }

  lemma EndpointIsTame(r: Resources, k: int)
    requires TameResources(r) && 0 <= k < |r.endpoints|
    ensures TameEndpoint(r.endpoints[k])
  {
    hide TameItem, TameEndpoint, List;
  }

  lemma ClaimantIsTracked(g: Graph, r: Resources, kinds: seq<string>, n: int, i: int)
    requires 0 <= n < |kinds| && 0 <= i < |List(r, kinds[n])| && ClaimsIn(g, r, kinds, n, i)
    ensures SourceId(g, kinds[n], List(r, kinds[n])[i]) in g.resourceNodeSet
  {
    hide List, SourceId, Passed;
  }

  lemma ParentIsTame(r: Resources, e: EdgeSpec)
    requires ParentEdge(r, e)
    ensures TameSpec(e)
  {
    NamespaceFieldIsTame();
    DefinitionFieldIsTame();
    ParentFields();
    var c, namespaces, customs := SafeClusterId(r.clusterId), List(r, "Namespace"), List(r, "CustomResource");
    hide ValidNodeIdentity, NodeId, SafeClusterId, List, ClusterNode, TameField, ValidEdgeType, SafeVisibleText, KindNodes, Ids, First;
    if j :| 0 <= j < |namespaces| && Accepts("Namespace", namespaces[j]) && e == NamespaceParent(c, ClusterNode(r).id, namespaces[j]) {
      AcceptedIsTame(r.clusterId, "Namespace", namespaces[j].namespace, namespaces[j].name);
    } else {
      var j :| 0 <= j < |customs| && First(AcceptedBy("CustomResource"), customs, j) && e in CustomParents(c, customs[j]);
      AcceptedFirst("CustomResource", customs, j);
      AcceptedIsTame(r.clusterId, "CustomResource", customs[j].namespace, customs[j].name);
    }
  }

  lemma OfferedIsTame(g: Graph, r: Resources, e: EdgeSpec)
    requires FromPhaseOne(g, r) && TameResources(r) && OffersEdge(g, PhaseTwoOffers(g, r), e)
    ensures TameSpec(e)
  {
    hide Inv, KindNodes, Ids, TameResources, PhaseTwoOffers, There, TameField, ValidEdgeType, SafeVisibleText, AddOffers, IsReference;
    var offers := PhaseTwoOffers(g, r);
    var h := AddOffers(g, offers);
    OffersBecomeEdges(g, offers);
    var p :| 0 <= p < |offers| && Stands(g, offers, p) && offers[p].edge == e;
    ThereLater(g, offers, p + 1, e.target);
    OffersAreTame(g, h, r, offers[p]);
  }

  lemma ThereLater(g: Graph, offers: seq<Offer>, n: nat, id: string)
    requires n <= |offers| && There(g, offers[..n], id)
    ensures There(g, offers, id)
  {
    hide Makes;
    if q :| 0 <= q < n && Makes(g, offers[..n][q], id) {
      assert Makes(g, offers[q], id);
    }
  }

  // ----- no edge is lost to its id -----

  /** Phase one adds this edge, or it is an offer of phase two that stands. */
  ghost predicate Added(r: Resources, e: EdgeSpec) {
    ParentEdge(r, e) || OffersEdge(PhaseOne(r), PhaseTwoOffers(PhaseOne(r), r), e)
  }

  lemma FromItself(r: Resources)
    ensures FromPhaseOne(PhaseOne(r), r) && PhaseOne(r).clusterId == SafeClusterId(r.clusterId)
  {
    hide *;
    PhaseOneRefines(r);
    FromPhaseOneIs(PhaseOne(r), r);
  }

  lemma FromPhaseOneIs(g: Graph, r: Resources)
    requires Inv(g) && g.clusterId == SafeClusterId(r.clusterId) && g.resourceNodeSet == Ids(KindNodes(g.clusterId, r, ResourceKinds))
    ensures FromPhaseOne(g, r)
  {
    hide Inv, SafeClusterId, Ids, KindNodes, ResourceKinds;
  }

  lemma AddedIsTame(r: Resources, e: EdgeSpec)
    requires TameResources(r) && Added(r, e)
    ensures TameSpec(e)
  {
    hide TameResources, ParentEdge, OffersEdge, PhaseOne, FromPhaseOne, PhaseTwoOffers, TameSpec;
    FromItself(r);
    if ParentEdge(r, e) {
      ParentIsTame(r, e);
    } else {
      OfferedIsTame(PhaseOne(r), r, e);
    }
  }

  lemma EdgesAreAdded(r: Resources, clusterSummary: string)
    ensures var g := Assemble(r, clusterSummary);
            && (forall k :: 0 <= k < |g.edges| ==> Added(r, SpecOf(g.edges[k])))
            && (forall e :: Added(r, e) ==> IdOf(e) in g.edgeSet)
  {
    hide Assemble, ParentEdge, PhaseOne, PhaseTwoOffers, IdOf, OffersEdge;
    EdgesAre(r, clusterSummary);
  }

  lemma SnapshotIsTame(r: Resources, clusterSummary: string)
    requires TameResources(r)
    ensures Inv(Assemble(r, clusterSummary)) && TameEdges(Assemble(r, clusterSummary).edges)
  {
    hide *;
    var g := Assemble(r, clusterSummary);
    SnapshotNodes(r, clusterSummary);
    EdgesAreAdded(r, clusterSummary);
    forall k | 0 <= k < |g.edges|
      ensures TameEdge(g.edges[k])
    {
      AddedIsTame(r, SpecOf(g.edges[k]));
      TameOfSpec(g.edges[k]);
    }
    TameEach(g.edges);
  }

  lemma TameOfSpec(edge: Edge)
    ensures TameSpec(SpecOf(edge)) <==> TameEdge(edge)
  {
    hide TameField, ValidEdgeType;
  }

  lemma TameEach(edges: seq<Edge>)
    requires forall k :: 0 <= k < |edges| ==> TameEdge(edges[k])
    ensures TameEdges(edges)
  {
    hide TameEdge;
  }

  /** The edges of a snapshot, by their fields: an edge of this source, target, type and field is there exactly if one
      was added. Whatever the cluster is called, no edge is dropped because another has its id. */
  lemma NoEdgeIsLost(r: Resources, clusterSummary: string, e: EdgeSpec)
    requires TameResources(r)
    ensures HasEdge(Assemble(r, clusterSummary), e) <==> exists confidence :: Added(r, e.(confidence := confidence))
  {
    hide *;
    var g := Assemble(r, clusterSummary);
    EdgesAreAdded(r, clusterSummary);
    if HasEdge(g, e) {
      var k := EdgeAt(g, e);
      assert Added(r, e.(confidence := g.edges[k].confidence));
    }
    if confidence :| Added(r, e.(confidence := confidence)) {
      SnapshotIsTame(r, clusterSummary);
      AddedIsTame(r, e.(confidence := confidence));
      IdMeansEdge(g, e.(confidence := confidence));
      IdOfIs(e.(confidence := confidence));
      OtherConfidence(g, e, confidence);
    }
  }

  lemma EdgeAt(g: Graph, e: EdgeSpec) returns (k: int)
    requires HasEdge(g, e)
    ensures 0 <= k < |g.edges| && SpecOf(g.edges[k]) == e.(confidence := g.edges[k].confidence)
  {
    k :| 0 <= k < |g.edges| && SameEdge(g.edges[k], e);
  }

  lemma IdOfIs(e: EdgeSpec)
    ensures IdOf(e) == EdgeId(e.source, e.target, e.edgeType, e.sourceField)
  {
  }

  lemma OtherConfidence(g: Graph, e: EdgeSpec, confidence: string)
    requires HasEdge(g, e.(confidence := confidence))
    ensures HasEdge(g, e)
  {
    var i :| 0 <= i < |g.edges| && SameEdge(g.edges[i], e.(confidence := confidence));
    assert SameEdge(g.edges[i], e);
  }

  // ----- edges of items that are not accepted -----

  lemma PassKindsAreListed(p: nat)
    requires p < |EdgePasses|
    ensures AllListed(EdgePasses[p].1)
  {
    ListedKinds();
  }

  /** The edges of an item that is not accepted, but reads as an accepted custom resource, get into the snapshot if no
      earlier item has its identity: they are offered with the node of that custom resource for the item's own. */
  lemma UnacceptedItemOffers(r: Resources, p: nat, n: nat, i: nat, k: nat, o: Offer)
    requires CustomNamesHaveColons(r) && p < |EdgePasses| && n < |EdgePasses[p].1| && i < |List(r, EdgePasses[p].1[n])|
    requires EdgePasses[p].1[n] != "PersistentVolume" && !Accepts(EdgePasses[p].1[n], List(r, EdgePasses[p].1[n])[i])
    requires forall j :: 0 <= j < i ==> !SameIdentity(List(r, EdgePasses[p].1[n])[j], List(r, EdgePasses[p].1[n])[i])
    requires k < |List(r, "CustomResource")| && Accepts("CustomResource", List(r, "CustomResource")[k])
    requires ReadsAs(EdgePasses[p].1[n], List(r, EdgePasses[p].1[n])[i], List(r, "CustomResource")[k])
    requires o in ItemOffers(SafeClusterId(r.clusterId), EdgePasses[p].0, EdgePasses[p].1[n], List(r, EdgePasses[p].1[n])[i])
    ensures o in PhaseTwoOffers(PhaseOne(r), r)
    ensures var custom := List(r, "CustomResource")[k];
            NodeId(SafeClusterId(r.clusterId), "CustomResource", custom.namespace, custom.name) in {o.edge.source, o.edge.target}
    ensures Sure(PhaseOne(r), o) ==> Added(r, o.edge)
  {
    hide *;
    var g, kinds := PhaseOne(r), EdgePasses[p].1;
    FromItself(r);
    PassKindsAreListed(p);
    UnacceptedClaims(g, r, kinds, n, i);
    PassOfferIs(g, r, p, n, i, o);
    OffersAre(g, r, o);
    ItemOffersTouch(g, EdgePasses[p].0, kinds[n], List(r, kinds[n])[i], o);
    if Sure(g, o) {
      SureStands(g, PhaseTwoOffers(g, r), o);
      OfferedIsAdded(r, o.edge);
    }
  }

  lemma PassOfferIs(g: Graph, r: Resources, p: nat, n: nat, i: nat, o: Offer)
    requires p < |EdgePasses| && n < |EdgePasses[p].1| && i < |List(r, EdgePasses[p].1[n])|
    requires ClaimsIn(g, r, EdgePasses[p].1, n, i) && o in ItemOffers(g.clusterId, EdgePasses[p].0, EdgePasses[p].1[n], List(r, EdgePasses[p].1[n])[i])
    ensures PassOffersIt(g, r, p, n, i, o)
  {
    hide EdgePasses, ItemOffers, List, ClaimsIn;
  }

  lemma OfferedIsAdded(r: Resources, e: EdgeSpec)
    ensures OffersEdge(PhaseOne(r), PhaseTwoOffers(PhaseOne(r), r), e) ==> Added(r, e)
  {
    hide OffersEdge, PhaseOne, PhaseTwoOffers, ParentEdge;
  }

  /** Every offer of an item is an edge to or from its node. */
  lemma ItemOffersTouch(g: Graph, pass: Pass, kind: string, item: Item, o: Offer)
    requires o in ItemOffers(g.clusterId, pass, kind, item)
    ensures SourceId(g, kind, item) in {o.edge.source, o.edge.target}
  {
    hide NodeId, OwnerOffers;
    var id := SourceId(g, kind, item);
    if pass.OwnerPass? && o in OwnerOffers(g.clusterId, id, item.namespace, item.owners) {
      OwnerOffersTouch(g.clusterId, id, item.namespace, item.owners, o);
    }
  }

  lemma {:induction false} OwnerOffersTouch(clusterId: string, child: string, namespace: string, owners: seq<Owner>, o: Offer)
    requires o in OwnerOffers(clusterId, child, namespace, owners)
    ensures o.edge.target == child
  {
    hide NodeId, OwnerAccepted;
    var n := |owners| - 1;
    if o in OwnerOffers(clusterId, child, namespace, owners[..n]) {
      OwnerOffersTouch(clusterId, child, namespace, owners[..n], o);
    }
  }
}
