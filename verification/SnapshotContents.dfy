/** What a snapshot holds, kind by kind: the issues of each list, and where each edge comes from. The statements name
    the kinds and the fields of the resources, not the order in which assembly passes over them. */
module SnapshotContents {
  import opened Text
  import opened Names
  import opened GraphBuilding
  import opened Assembly
  import opened AssemblyEdges
  import opened Claiming
  import opened NetworkPolicies
  import opened LinkEdges
  import opened ParentEdges
  import opened SnapshotEdges
  import opened EdgeIdentity

  // ----- kinds -----

  /** Kinds whose items have links of their own: references of custom resources, of pods, claims, volumes, routes and
      autoscalers. */
  predicate LinkKind(kind: string) {
    || kind == "CustomResource" || kind == "Pod" || kind == "PersistentVolumeClaim" || kind == "PersistentVolume" || kind == "Ingress"
    || kind == "HTTPRoute" || kind == "GRPCRoute" || kind == "TLSRoute" || kind == "TCPRoute" || kind == "HorizontalPodAutoscaler"
  }

  /** Kinds whose items have owners; all but pods have a template too. */
  predicate OwnerKind(kind: string) {
    || kind == "Deployment" || kind == "ReplicaSet" || kind == "StatefulSet" || kind == "DaemonSet" || kind == "CronJob" || kind == "Job"
    || kind == "Pod"
  }

  lemma PassesHaveTheirKinds(p: int, n: int)
    requires 0 <= p < |EdgePasses| && 0 <= n < |EdgePasses[p].1|
    ensures if EdgePasses[p].0.OwnerPass? then OwnerKind(EdgePasses[p].1[n]) else LinkKind(EdgePasses[p].1[n])
  {
  }

  /** Each of these kinds has its pass. */
  lemma PassOf(pass: Pass, kind: string) returns (p: int, n: int)
    requires if pass.OwnerPass? then OwnerKind(kind) else LinkKind(kind)
    ensures 0 <= p < |EdgePasses| && 0 <= n < |EdgePasses[p].1| && EdgePasses[p].0 == pass && EdgePasses[p].1[n] == kind
  {
    if pass.OwnerPass? {
      p := 1;
      n := OwnerAt(kind);
    } else {
      p, n := LinkAt(kind);
    }
  }

  lemma OwnerAt(kind: string) returns (n: int)
    requires OwnerKind(kind)
    ensures 0 <= n < |OwnerKinds| && OwnerKinds[n] == kind
  {
    n := if kind == "Deployment" then 0 else if kind == "ReplicaSet" then 1 else if kind == "StatefulSet" then 2
         else if kind == "DaemonSet" then 3 else if kind == "CronJob" then 4 else if kind == "Job" then 5 else 6;
  }

  lemma LinkAt(kind: string) returns (p: int, n: int)
    requires LinkKind(kind)
    ensures 0 <= p < |EdgePasses| && 0 <= n < |EdgePasses[p].1| && EdgePasses[p].0 == LinkPass && EdgePasses[p].1[n] == kind
  {
    n := if kind == "PersistentVolume" then 1 else 0;
    p := if kind == "CustomResource" then 0 else if kind == "Pod" then 2 else if kind == "PersistentVolumeClaim" || kind == "PersistentVolume" then 3
         else if kind == "Ingress" then 4 else if kind == "HTTPRoute" then 5 else if kind == "GRPCRoute" then 6 else if kind == "TLSRoute" then 7
         else if kind == "TCPRoute" then 8 else 9;
  }

  // ----- lists and their issues -----

  /** The kinds of the assembled lists, with the id under which the issues of each are counted. */
  predicate Diagnosed(kind: string, id: string) {
    DiagnosedWorkload(kind, id) || DiagnosedNetwork(kind, id) || DiagnosedOther(kind, id)
  }

  predicate DiagnosedWorkload(kind: string, id: string) {
    || (kind == "Deployment" && id == "snapshot/deployments") || (kind == "ReplicaSet" && id == "snapshot/replicasets")
    || (kind == "StatefulSet" && id == "snapshot/statefulsets") || (kind == "DaemonSet" && id == "snapshot/daemonsets")
    || (kind == "Job" && id == "snapshot/jobs") || (kind == "CronJob" && id == "snapshot/cronjobs")
    || (kind == "HorizontalPodAutoscaler" && id == "snapshot/hpas") || (kind == "Pod" && id == "snapshot/pods")
  }

  predicate DiagnosedNetwork(kind: string, id: string) {
    || (kind == "Service" && id == "snapshot/services") || (kind == "Ingress" && id == "snapshot/ingresses")
    || (kind == "Gateway" && id == "snapshot/gateways") || (kind == "HTTPRoute" && id == "snapshot/httproutes")
    || (kind == "GRPCRoute" && id == "snapshot/grpcroutes") || (kind == "TLSRoute" && id == "snapshot/tlsroutes")
    || (kind == "TCPRoute" && id == "snapshot/tcproutes") || (kind == "NetworkPolicy" && id == "snapshot/networkpolicies")
  }

  predicate DiagnosedOther(kind: string, id: string) {
    || (kind == "Namespace" && id == "snapshot/namespaces") || (kind == "Node" && id == "snapshot/nodes")
    || (kind == "ServiceAccount" && id == "snapshot/serviceaccounts") || (kind == "ConfigMap" && id == "snapshot/configmaps")
    || (kind == "StorageClass" && id == "snapshot/storageclasses") || (kind == "CustomResourceDefinition" && id == "snapshot/crds")
    || (kind == "CustomResource" && id == "snapshot/custom-resources") || (kind == "PersistentVolume" && id == "snapshot/pvs")
    || (kind == "PersistentVolumeClaim" && id == "snapshot/pvcs")
  }

  lemma WorkloadIndex(kind: string, id: string) returns (i: nat)
    requires DiagnosedWorkload(kind, id)
    ensures i < |ResourceKinds| == |IssueIds| && ResourceKinds[i] == kind && IssueIds[i] == id
  {
    i := if kind == "Deployment" then 2 else if kind == "ReplicaSet" then 3 else if kind == "StatefulSet" then 4
         else if kind == "DaemonSet" then 5 else if kind == "Job" then 6 else if kind == "CronJob" then 7
         else if kind == "HorizontalPodAutoscaler" then 8 else 24;
  }

  lemma NetworkIndex(kind: string, id: string) returns (i: nat)
    requires DiagnosedNetwork(kind, id)
    ensures i < |ResourceKinds| == |IssueIds| && ResourceKinds[i] == kind && IssueIds[i] == id
  {
    i := if kind == "Service" then 16 else if kind == "Ingress" then 17 else if kind == "Gateway" then 18
         else if kind == "HTTPRoute" then 19 else if kind == "GRPCRoute" then 20 else if kind == "TLSRoute" then 21
         else if kind == "TCPRoute" then 22 else 23;
  }

  lemma OtherIndex(kind: string, id: string) returns (i: nat)
    requires DiagnosedOther(kind, id)
    ensures i < |ResourceKinds| == |IssueIds| && ResourceKinds[i] == kind && IssueIds[i] == id
  {
    i := if kind == "Namespace" then 0 else if kind == "Node" then 1 else if kind == "ServiceAccount" then 9
         else if kind == "ConfigMap" then 10 else if kind == "StorageClass" then 11 else if kind == "CustomResourceDefinition" then 12
         else if kind == "CustomResource" then 13 else if kind == "PersistentVolume" then 14 else 15;
  }

  lemma DiagnosedIndex(kind: string, id: string) returns (i: nat)
    requires Diagnosed(kind, id)
    ensures i < |ResourceKinds| == |IssueIds| && ResourceKinds[i] == kind && IssueIds[i] == id
  {
    hide DiagnosedWorkload, DiagnosedNetwork, DiagnosedOther, ResourceKinds, IssueIds;
    if DiagnosedWorkload(kind, id) {
      i := WorkloadIndex(kind, id);
    } else if DiagnosedNetwork(kind, id) {
      i := NetworkIndex(kind, id);
    } else {
      i := OtherIndex(kind, id);
    }
  }

  lemma ListedIsDiagnosed(i: nat)
    requires i < |ResourceKinds|
    ensures i < |IssueIds| && Diagnosed(ResourceKinds[i], IssueIds[i])
  {
    if i < 8 {
      FirstAreDiagnosed(i);
    } else if i < 16 {
      NextAreDiagnosed(i);
    } else {
      LastAreDiagnosed(i);
    }
    hide DiagnosedWorkload, DiagnosedNetwork, DiagnosedOther;
  }

  lemma FirstAreDiagnosed(i: nat)
    requires i < 8
    ensures Diagnosed(ResourceKinds[i], IssueIds[i])
  {
    hide DiagnosedNetwork;
  }

  lemma NextAreDiagnosed(i: nat)
    requires 8 <= i < 16
    ensures Diagnosed(ResourceKinds[i], IssueIds[i])
  {
    hide DiagnosedNetwork;
    assert i == 8 ==> DiagnosedWorkload(ResourceKinds[i], IssueIds[i]);
  }

  lemma LastAreDiagnosed(i: nat)
    requires 16 <= i < |ResourceKinds|
    ensures Diagnosed(ResourceKinds[i], IssueIds[i])
  {
  }

  lemma DiagnosedIs(kind: string, id: string)
    ensures Diagnosed(kind, id) <==> kind in ResourceKinds && IssueId(kind) == id
  {
    hide Diagnosed, ResourceKinds, IssueIds;
    var i := IndexOf(kind);
    if i < |ResourceKinds| {
      ListedIsDiagnosed(i);
    }
    if Diagnosed(kind, id) {
      var j := DiagnosedIndex(kind, id);
      if i < j {
        KindsDistinct(i, j);
      } else if j < i {
        KindsDistinct(j, i);
      }
    }
  }

  /** In every list the first accepted item of each identity becomes a tracked node with its data. */
  lemma ItemsAreThere(r: Resources, clusterSummary: string, kind: string, id: string, i: nat) returns (k: nat)
    requires Diagnosed(kind, id) && i in Adding(r, kind)
    ensures var g := Assemble(r, clusterSummary);
            && k < |g.nodes| && g.nodes[k].id in g.resourceNodeSet && g.nodes[k].id == NodeId(SafeClusterId(r.clusterId), kind, g.nodes[k].namespace, g.nodes[k].name)
            && var node, item := g.nodes[k], List(r, kind)[i];
               && node.kind == kind && node.namespace == item.namespace && node.name == item.name && node.metadata == item.metadata && node.summary == item.summary
               && node.status == if item.status in {"healthy", "warning", "error"} then item.status else "unknown"
  {
    hide *;
    DiagnosedIs(kind, id);
    AddingIs(r, kind, i);
    var row;
    k, row := TrackedNodeData(r, clusterSummary, kind, i);
    NodeOfItem(SafeClusterId(r.clusterId), kind, List(r, kind)[i], row);
  }

  lemma AddingIs(r: Resources, kind: string, i: nat)
    requires i in Adding(r, kind)
    ensures i < |List(r, kind)| && First(AcceptedBy(kind), List(r, kind), i)
  {
    hide First, List;
  }

  lemma NodeOfItem(clusterId: string, kind: string, item: Item, row: nat)
    ensures var node := ItemNode(clusterId, kind, item, row);
            && node.id == NodeId(clusterId, kind, node.namespace, node.name)
            && node.kind == kind && node.namespace == item.namespace && node.name == item.name && node.metadata == item.metadata && node.summary == item.summary
            && node.status == if item.status in {"healthy", "warning", "error"} then item.status else "unknown"
  {
    hide NodeId, Lane;
  }

  /** And every tracked id is that of an accepted item of one of these lists. */
  lemma TrackedAreItems(r: Resources, clusterSummary: string, id: string)
    requires id in Assemble(r, clusterSummary).resourceNodeSet && id != ""
    ensures exists kind, i, issueId :: Diagnosed(kind, issueId) && ListedAt(PhaseOne(r).clusterId, r, kind, i, id)
  {
    hide *;
    FromItself(r);
    TrackedAfter(r, clusterSummary, id);
    TrackedIsListed(PhaseOne(r), r, id);
    var kind, i :| kind in ResourceKinds && ListedAt(PhaseOne(r).clusterId, r, kind, i, id);
    DiagnosedIs(kind, IssueId(kind));
  }

  /** Phase two tracks nothing more. */
  lemma TrackedAfter(r: Resources, clusterSummary: string, id: string)
    ensures id in Assemble(r, clusterSummary).resourceNodeSet && id != "" ==> Tracked(PhaseOne(r), id)
  {
    hide PhaseOne, PhaseTwo, KindNodes, Ids, ResourceKinds, SafeClusterId, Inv;
    SnapshotNodes(r, clusterSummary);
    PhaseOneRefines(r);
  }

  /** The invalid items of a list, by position. */
  function Invalid(items: seq<Item>): set<nat> {
    set i: nat | i < |items| && !items[i].valid
  }

  /** The issues of a list, up to a million: the items that added no node and, for nodes and pods, every invalid one; for
      most other kinds, every invalid one that added a node. */
  lemma IssuesAre(r: Resources, clusterSummary: string, kind: string, id: string)
    requires Diagnosed(kind, id)
    ensures var items, adding := List(r, kind), Adding(r, kind);
            var issues := |items| - |adding| +
              if kind == "Node" || kind == "Pod" then |Invalid(items)| else if NeverInvalid(kind) then 0 else |Invalid(items) * adding|;
            Count(Assemble(r, clusterSummary).issues, id) == if issues <= 1_000_000 then issues else 1_000_000
  {
    hide *;
    DiagnosedIs(kind, id);
    SnapshotNodes(r, clusterSummary);
    IssuesOfList(r, kind);
    SaturatedIs(ListIssues(kind, List(r, kind)));
  }

  lemma SaturatedIs(n: nat)
    ensures Saturated(n) == if n <= 1_000_000 then n else 1_000_000
  {
  }

  lemma IssuesOfList(r: Resources, kind: string)
    ensures var items, adding := List(r, kind), Adding(r, kind);
            ListIssues(kind, items) == |items| - |adding| +
              if kind == "Node" || kind == "Pod" then |Invalid(items)| else if NeverInvalid(kind) then 0 else |Invalid(items) * adding|
  {
    hide ListIssues, CountAdded, CountItems, List, First, NeverInvalid;
    var items := List(r, kind);
    CountIsAdded(kind, items, EveryItem);
    CountIsAdded(kind, items, IsInvalid);
    InvalidItems(items);
    assert AddedWith(kind, items, EveryItem) == Adding(r, kind);
    assert AddedWith(kind, items, IsInvalid) == Invalid(items) * Adding(r, kind);
    if kind == "Node" || kind == "Pod" {
      NodeListIssues(kind, items);
    } else {
      OtherListIssues(kind, items);
    }
  }

  lemma {:induction false} InvalidItems(items: seq<Item>)
    ensures CountItems(items, IsInvalid) == |Invalid(items)|
  {
    if items != [] {
      var n := |items| - 1;
      InvalidItems(items[..n]);
      assert Invalid(items) == Invalid(items[..n]) + if items[n].valid then {} else {n};
    }
  }

  // ----- claims -----

  /** Lists that share a seen-set do not get in each other's way: an item claims its node exactly if it is tracked and
      no earlier item of its own list has its id. */
  lemma ClaimsAreAlone(g: Graph, r: Resources, kinds: seq<string>, n: nat, i: nat)
    requires FromPhaseOne(g, r) && AllListed(kinds) && n < |kinds| && i < |List(r, kinds[n])|
    ensures ClaimsIn(g, r, kinds, n, i) <==> ClaimsAt(g, {}, kinds[n], List(r, kinds[n]), i)
  {
    hide Inv, SourceId, ListedKind, List, NodeId, KindNodes, Ids, ValidNodeIdentity, Passed;
    var id := SourceId(g, kinds[n], List(r, kinds[n])[i]);
    if Tracked(g, id) {
      forall m | 0 <= m < n
        ensures !Passed(g, kinds[m], List(r, kinds[m]), id)
      {
        OtherListPassesNone(g, r, kinds, m, n, i);
      }
    }
  }

  lemma OtherListPassesNone(g: Graph, r: Resources, kinds: seq<string>, m: nat, n: nat, i: nat)
    requires FromPhaseOne(g, r) && AllListed(kinds) && m < n < |kinds| && i < |List(r, kinds[n])|
    requires Tracked(g, SourceId(g, kinds[n], List(r, kinds[n])[i]))
    ensures !Passed(g, kinds[m], List(r, kinds[m]), SourceId(g, kinds[n], List(r, kinds[n])[i]))
  {
    hide Inv, SourceId, ListedKind, List, NodeId, KindNodes, Ids, ValidNodeIdentity, ResourceKinds, CustomNamespace;
    var item := List(r, kinds[n])[i];
    var id := SourceId(g, kinds[n], item);
    TrackedIsListed(g, r, id);
    var kind, j :| kind in ResourceKinds && ListedAt(g.clusterId, r, kind, j, id);
    var listed := List(r, kind)[j];
    ListedKinds();
    SharedSource(g, kinds[n], item, kind, listed.namespace, listed.name);
    forall l | 0 <= l < |List(r, kinds[m])|
      ensures SourceId(g, kinds[m], List(r, kinds[m])[l]) != id
    {
      var other := List(r, kinds[m])[l];
      SharedSource(g, kinds[m], other, kind, listed.namespace, listed.name);
      NoColons(kinds, m, n);
      SameHead(kinds[m], other.name, kinds[n], item.name);
    }
  }

  lemma NoColons(kinds: seq<string>, m: nat, n: nat)
    requires AllListed(kinds) && m < n < |kinds|
    ensures ':' !in kinds[m] && ':' !in kinds[n] && kinds[m] != kinds[n] && kinds[m] != "CustomResource" && kinds[n] != "CustomResource"
  {
  }

  // ----- where the edges come from -----

  /** The edge that a link of an item names. */
  function LinkEdge(g: Graph, kind: string, item: Item, link: Link): EdgeSpec {
    EdgeSpec(link.edgeType, SourceId(g, kind, item), NodeId(g.clusterId, link.kind, link.namespace, link.name), link.sourceField, link.confidence)
  }

  /** The edge to an item from one of its owners, which is looked for in the item's namespace. */
  function OwnerEdge(g: Graph, kind: string, item: Item, owner: Owner): EdgeSpec {
    EdgeSpec("owns", NodeId(g.clusterId, owner.kind, item.namespace, owner.name), SourceId(g, kind, item), "metadata.ownerReferences", "observed")
  }

  predicate ItemClaims(g: Graph, r: Resources, kind: string, i: int) {
    0 <= i < |List(r, kind)| && ClaimsAt(g, {}, kind, List(r, kind), i)
  }

  ghost predicate OfLinks(g: Graph, r: Resources, e: EdgeSpec) {
    exists kind, i, k :: OfLink(g, r, kind, i, k, e)
  }

  predicate OfLink(g: Graph, r: Resources, kind: string, i: int, k: int, e: EdgeSpec) {
    LinkKind(kind) && ItemClaims(g, r, kind, i) && 0 <= k < |List(r, kind)[i].links| && e == LinkEdge(g, kind, List(r, kind)[i], List(r, kind)[i].links[k])
  }

  ghost predicate OfTemplates(g: Graph, r: Resources, e: EdgeSpec) {
    exists kind, i, k :: OfTemplate(g, r, kind, i, k, e)
  }

  predicate OfTemplate(g: Graph, r: Resources, kind: string, i: int, k: int, e: EdgeSpec) {
    OwnerKind(kind) && ItemClaims(g, r, kind, i) && 0 <= k < |List(r, kind)[i].template| && e == LinkEdge(g, kind, List(r, kind)[i], List(r, kind)[i].template[k])
  }

  ghost predicate OfOwners(g: Graph, r: Resources, e: EdgeSpec) {
    exists kind, i, k :: OfOwner(g, r, kind, i, k, e)
  }

  predicate OfOwner(g: Graph, r: Resources, kind: string, i: int, k: int, e: EdgeSpec) {
    && OwnerKind(kind) && ItemClaims(g, r, kind, i) && 0 <= k < |List(r, kind)[i].owners|
    && ValidKind(List(r, kind)[i].owners[k].kind) && ValidReferenceName(List(r, kind)[i].owners[k].name)
    && e == OwnerEdge(g, kind, List(r, kind)[i], List(r, kind)[i].owners[k])
  }

  /** An edge of a policy that claims its node: to a pod or the namespace that it applies to, or to a peer. */
  ghost predicate OfPolicies(g: Graph, r: Resources, e: EdgeSpec) {
    exists i :: OfPolicy(g, r, i, e)
  }

  ghost predicate OfPolicy(g: Graph, r: Resources, i: int, e: EdgeSpec) {
    && ItemClaims(g, r, "NetworkPolicy", i) && e.source == SourceId(g, "NetworkPolicy", List(r, "NetworkPolicy")[i])
    && var item := List(r, "NetworkPolicy")[i];
       || (item.policy.selectorValid && ToSelected(g, r, item.policy.selected, "applies-to", "NetworkPolicy.spec.podSelector", e))
       || (item.policy.selectorValid && NoneTracked(g, r, item.policy.selected) && item.namespace != ""
           && e == EdgeSpec("applies-to", e.source, NodeId(g.clusterId, "Namespace", "", item.namespace), "NetworkPolicy.spec.podSelector", "observed"))
       || (exists k :: 0 <= k < |item.policy.peers| && ToPeer(g, r, item.policy.peers[k], e))
  }

  /** To a tracked pod at one of the positions, the first of the list with its id. */
  ghost predicate ToSelected(g: Graph, r: Resources, selected: set<nat>, edgeType: string, sourceField: string, e: EdgeSpec) {
    exists j: nat :: j < |List(r, "Pod")| && j in selected && FirstTracked(g, List(r, "Pod"), j)
                     && e == EdgeSpec(edgeType, e.source, NodeId(g.clusterId, "Pod", List(r, "Pod")[j].namespace, List(r, "Pod")[j].name), sourceField, "inferred")
  }

  ghost predicate NoneTracked(g: Graph, r: Resources, selected: set<nat>) {
    forall j: nat :: j < |List(r, "Pod")| && j in selected ==> !FirstTracked(g, List(r, "Pod"), j)
  }

  ghost predicate ToPeer(g: Graph, r: Resources, rule: PeerRule, e: EdgeSpec) {
    match rule.peer
    case PodPeer(selected) => ToSelected(g, r, selected, rule.edgeType, rule.sourceField, e)
    case NamespacePeer(names) =>
      exists name :: name in names && e == EdgeSpec(rule.edgeType, e.source, NodeId(g.clusterId, "Namespace", "", name), rule.sourceField, "inferred")
  }

  ghost predicate OfEndpoints(g: Graph, r: Resources, e: EdgeSpec) {
    exists k :: 0 <= k < |r.endpoints| &&
      e == EdgeSpec("service-endpoint", NodeId(g.clusterId, "Service", r.endpoints[k].namespace, r.endpoints[k].service),
                    NodeId(g.clusterId, "Pod", r.endpoints[k].namespace, r.endpoints[k].pod), r.endpoints[k].sourceField, r.endpoints[k].confidence)
  }

  // ----- every offer is one of these -----

  lemma ClaimantIs(r: Resources, p: nat, n: nat, i: nat)
    requires p < |EdgePasses| && n < |EdgePasses[p].1| && i < |List(r, EdgePasses[p].1[n])|
    ensures ClaimsIn(PhaseOne(r), r, EdgePasses[p].1, n, i) <==> ItemClaims(PhaseOne(r), r, EdgePasses[p].1[n], i)
  {
    hide *;
    FromItself(r);
    PassKindsAreListed(p);
    ClaimsAreAlone(PhaseOne(r), r, EdgePasses[p].1, n, i);
    ItemClaimsIs(PhaseOne(r), r, EdgePasses[p].1[n], i);
  }

  lemma ItemClaimsIs(g: Graph, r: Resources, kind: string, i: int)
    requires 0 <= i < |List(r, kind)|
    ensures ItemClaims(g, r, kind, i) <==> ClaimsAt(g, {}, kind, List(r, kind), i)
  {
    hide ClaimsAt, List;
  }

  lemma LinkOfferAt(g: Graph, kind: string, item: Item, links: seq<Link>, o: Offer)
    ensures o in LinkOffers(g.clusterId, SourceId(g, kind, item), links) <==>
            exists k :: 0 <= k < |links| && o == LinkOffer(g.clusterId, SourceId(g, kind, item), links[k])
  {
    hide LinkOffer, SourceId;
    var offers := LinkOffers(g.clusterId, SourceId(g, kind, item), links);
    if k :| 0 <= k < |links| && o == LinkOffer(g.clusterId, SourceId(g, kind, item), links[k]) {
      assert offers[k] == o;
    }
  }

  lemma {:induction false} OwnerOfferAt(clusterId: string, child: string, namespace: string, owners: seq<Owner>, o: Offer)
    ensures o in OwnerOffers(clusterId, child, namespace, owners) <==>
            exists k :: 0 <= k < |owners| && OwnerAccepted(owners[k]) && o == OwnerOffer(clusterId, child, namespace, owners[k])
  {
    hide OwnerOffer, OwnerAccepted;
    if owners != [] {
      var n := |owners| - 1;
      OwnerOfferAt(clusterId, child, namespace, owners[..n], o);
      assert forall k :: 0 <= k < n ==> owners[..n][k] == owners[k];
      if k :| 0 <= k < n && OwnerAccepted(owners[..n][k]) && o == OwnerOffer(clusterId, child, namespace, owners[..n][k]) {
        assert OwnerAccepted(owners[k]) && o == OwnerOffer(clusterId, child, namespace, owners[k]);
      }
      if k :| 0 <= k < |owners| && OwnerAccepted(owners[k]) && o == OwnerOffer(clusterId, child, namespace, owners[k]) {
        assert k < n ==> OwnerAccepted(owners[..n][k]) && o == OwnerOffer(clusterId, child, namespace, owners[..n][k]);
      }
    }
  }

  lemma ItemOfferIs(g: Graph, r: Resources, pass: Pass, kind: string, i: int, o: Offer)
    requires ItemClaims(g, r, kind, i) && o in ItemOffers(g.clusterId, pass, kind, List(r, kind)[i])
    requires if pass.OwnerPass? then OwnerKind(kind) else LinkKind(kind)
    ensures OfLinks(g, r, o.edge) || OfTemplates(g, r, o.edge) || OfOwners(g, r, o.edge)
  {
    hide ClaimsAt, NodeId, LinkOffers, OwnerOffers, OwnerKind, LinkKind, List, ValidKind, ValidReferenceName;
    var item := List(r, kind)[i];
    if pass.LinkPass? {
      LinkOfferAt(g, kind, item, item.links, o);
      var k :| 0 <= k < |item.links| && o == LinkOffer(g.clusterId, SourceId(g, kind, item), item.links[k]);
      assert OfLink(g, r, kind, i, k, o.edge);
    } else if o in LinkOffers(g.clusterId, SourceId(g, kind, item), item.template) {
      LinkOfferAt(g, kind, item, item.template, o);
      var k :| 0 <= k < |item.template| && o == LinkOffer(g.clusterId, SourceId(g, kind, item), item.template[k]);
      assert OfTemplate(g, r, kind, i, k, o.edge);
    } else {
      OwnerOfferAt(g.clusterId, SourceId(g, kind, item), item.namespace, item.owners, o);
      var k :| 0 <= k < |item.owners| && OwnerAccepted(item.owners[k]) && o == OwnerOffer(g.clusterId, SourceId(g, kind, item), item.namespace, item.owners[k]);
      assert OfOwner(g, r, kind, i, k, o.edge);
    }
  }

  lemma {:induction false} PodOfferIs(g: Graph, r: Resources, source: string, pods: seq<Item>, selected: set<nat>, edgeType: string, sourceField: string, o: Offer)
    requires o in PodOffers(g, source, pods, selected, edgeType, sourceField) && pods <= List(r, "Pod")
    ensures ToSelected(g, r, selected, edgeType, sourceField, o.edge) && o.edge.source == source
  {
    hide NodeId, List;
    var n := |pods| - 1;
    if o in PodOffers(g, source, pods[..n], selected, edgeType, sourceField) {
      PodOfferIs(g, r, source, pods[..n], selected, edgeType, sourceField, o);
    } else {
      SameFirstTracked(g, pods, List(r, "Pod"), n);
      assert pods[n] == List(r, "Pod")[n];
    }
  }

  lemma SameFirstTracked(g: Graph, pods: seq<Item>, all: seq<Item>, n: nat)
    requires pods <= all && n < |pods|
    ensures FirstTracked(g, pods, n) <==> FirstTracked(g, all, n)
  {
    hide NodeId;
    assert forall j :: 0 <= j <= n ==> pods[j] == all[j];
  }

  lemma {:induction false} PeersOfferIs(g: Graph, r: Resources, source: string, rules: seq<PeerRule>, o: Offer)
    requires o in PeersOffers(g, source, List(r, "Pod"), rules)
    ensures o.edge.source == source && exists k :: 0 <= k < |rules| && ToPeer(g, r, rules[k], o.edge)
  {
    hide NodeId, PodOffers, List, ToSelected;
    var n := |rules| - 1;
    if o in PeersOffers(g, source, List(r, "Pod"), rules[..n]) {
      PeersOfferIs(g, r, source, rules[..n], o);
      var k :| 0 <= k < n && ToPeer(g, r, rules[..n][k], o.edge);
      assert ToPeer(g, r, rules[k], o.edge);
    } else {
      match rules[n].peer {
        case PodPeer(selected) => PodOfferIs(g, r, source, List(r, "Pod"), selected, rules[n].edgeType, rules[n].sourceField, o);
        case NamespacePeer(names) =>
          var k :| 0 <= k < |names| && o == LinkOffer(g.clusterId, source, NamespaceLinks(names, rules[n].edgeType, rules[n].sourceField)[k]);
          assert names[k] in names;
      }
      assert ToPeer(g, r, rules[n], o.edge);
    }
  }

  lemma PolicyOfferIs(g: Graph, r: Resources, i: int, o: Offer)
    requires PolicyOffersIt(g, r, i, o)
    ensures OfPolicies(g, r, o.edge)
  {
    hide NodeId, PodOffers, PeersOffers, List, ToSelected, ToPeer, ClaimsAt, FirstTracked;
    var item := List(r, "NetworkPolicy")[i];
    var source := SourceId(g, "NetworkPolicy", item);
    if o in PeersOffers(g, source, List(r, "Pod"), item.policy.peers) {
      PeersOfferIs(g, r, source, item.policy.peers, o);
    } else if o in PodOffers(g, source, List(r, "Pod"), item.policy.selected, "applies-to", SelectorField) {
      PodOfferIs(g, r, source, List(r, "Pod"), item.policy.selected, "applies-to", SelectorField, o);
    }
    assert OfPolicy(g, r, i, o.edge);
  }

  lemma OfferIs(r: Resources, o: Offer)
    requires o in PhaseTwoOffers(PhaseOne(r), r)
    ensures var g := PhaseOne(r);
            OfLinks(g, r, o.edge) || OfTemplates(g, r, o.edge) || OfOwners(g, r, o.edge) || OfPolicies(g, r, o.edge) || OfEndpoints(g, r, o.edge)
  {
    hide *;
    var g := PhaseOne(r);
    OffersAre(g, r, o);
    if p, n, i :| PassOffersIt(g, r, p, n, i, o) {
      PassOffersItIs(g, r, p, n, i, o);
      ClaimantIs(r, p, n, i);
      PassesHaveTheirKinds(p, n);
      ItemOfferIs(g, r, EdgePasses[p].0, EdgePasses[p].1[n], i, o);
    } else if i :| PolicyOffersIt(g, r, i, o) {
      PolicyOfferIs(g, r, i, o);
    } else {
      var k :| 0 <= k < |r.endpoints| && o == EndpointOffer(g.clusterId, r.endpoints[k]);
      EndpointOfferIs(g, r, k);
    }
  }

  lemma PassOffersItIs(g: Graph, r: Resources, p: int, n: int, i: int, o: Offer)
    requires PassOffersIt(g, r, p, n, i, o)
    ensures 0 <= p < |EdgePasses| && 0 <= n < |EdgePasses[p].1| && 0 <= i < |List(r, EdgePasses[p].1[n])| && ClaimsIn(g, r, EdgePasses[p].1, n, i)
    ensures o in ItemOffers(g.clusterId, EdgePasses[p].0, EdgePasses[p].1[n], List(r, EdgePasses[p].1[n])[i])
  {
    hide EdgePasses, ClaimsIn, ItemOffers, List;
  }

  lemma EndpointOfferIs(g: Graph, r: Resources, k: int)
    requires 0 <= k < |r.endpoints|
    ensures OfEndpoints(g, r, EndpointOffer(g.clusterId, r.endpoints[k]).edge)
  {
    hide NodeId;
  }

  /** Every edge of a snapshot: of phase one, of a link, a template or an owner of an item that claims its node, of a
      policy that claims its, or of an observed endpoint. */
  lemma EdgesComeFrom(r: Resources, clusterSummary: string, k: nat)
    requires k < |Assemble(r, clusterSummary).edges|
    ensures var g, e := PhaseOne(r), SpecOf(Assemble(r, clusterSummary).edges[k]);
            ParentEdge(r, e) || OfLinks(g, r, e) || OfTemplates(g, r, e) || OfOwners(g, r, e) || OfPolicies(g, r, e) || OfEndpoints(g, r, e)
  {
    hide *;
    EdgesAre(r, clusterSummary);
    var g, e := PhaseOne(r), SpecOf(Assemble(r, clusterSummary).edges[k]);
    if !ParentEdge(r, e) {
      var p := OfferOf(g, PhaseTwoOffers(g, r), e);
      OfferIs(r, PhaseTwoOffers(g, r)[p]);
    }
  }

  lemma OfferOf(g: Graph, offers: seq<Offer>, e: EdgeSpec) returns (p: int)
    requires OffersEdge(g, offers, e)
    ensures 0 <= p < |offers| && offers[p].edge == e
  {
    hide Stands;
    p :| 0 <= p < |offers| && Stands(g, offers, p) && offers[p].edge == e;
  }

  // ----- no sure edge is missing -----

  /** A link whose target is a node of phase one, or is made sure of and is an identity the graph accepts. */
  predicate SureLink(g: Graph, link: Link) {
    var target := NodeId(g.clusterId, link.kind, link.namespace, link.name);
    && ValidEdgeMetadata(link.edgeType, link.sourceField, link.confidence)
    && (target in g.nodeSet || (link.ensure && link.kind != "Cluster" && ValidNodeIdentity(link.kind, link.namespace, link.name)))
    && (link.listed ==> target in g.resourceNodeSet)
  }

  lemma SureLinkIsSure(g: Graph, source: string, link: Link)
    requires SureLink(g, link) && source in g.nodeSet
    ensures Sure(g, LinkOffer(g.clusterId, source, link))
  {
    hide ValidEdgeMetadata, ValidNodeIdentity, NodeId, Lane, SafeNodeStatus, SafeClusterName;
    var o := LinkOffer(g.clusterId, source, link);
    if link.ensure && link.kind != "Cluster" && ValidNodeIdentity(link.kind, link.namespace, link.name) {
      assert NewNode(g, ReferenceSpec(link.kind, link.namespace, link.name)).name == link.name;
      assert Makes(g, o, o.edge.target);
    }
  }

  lemma ClaimantIsNode(g: Graph, r: Resources, kind: string, i: int)
    requires Inv(g) && ItemClaims(g, r, kind, i)
    ensures SourceId(g, kind, List(r, kind)[i]) in g.nodeSet
  {
    hide NodesInv, EdgesInv, LayoutInv, SourceId, List;
  }

  /** An offer of an item that claims its node, in either kind of pass, becomes an edge if it is sure. */
  lemma SureOfferIsThere(r: Resources, clusterSummary: string, pass: Pass, kind: string, i: nat, o: Offer)
    requires (if pass.OwnerPass? then OwnerKind(kind) else LinkKind(kind)) && ItemClaims(PhaseOne(r), r, kind, i)
    requires o in ItemOffers(PhaseOne(r).clusterId, pass, kind, List(r, kind)[i]) && Sure(PhaseOne(r), o)
    ensures IdOf(o.edge) in Assemble(r, clusterSummary).edgeSet
  {
    hide *;
    var g := PhaseOne(r);
    var p, n := PassOf(pass, kind);
    ItemClaimsInRange(g, r, kind, i);
    ClaimantIs(r, p, n, i);
    PassOfferIs(g, r, p, n, i, o);
    OffersAre(g, r, o);
    SureStands(g, PhaseTwoOffers(g, r), o);
    OfferedIsAdded(r, o.edge);
    EdgesAreAdded(r, clusterSummary);
  }

  lemma ItemClaimsInRange(g: Graph, r: Resources, kind: string, i: int)
    requires ItemClaims(g, r, kind, i)
    ensures 0 <= i < |List(r, kind)|
  {
  }

  /** No sure link of an item that claims its node is missing in the snapshot, whatever its kind. */
  lemma LinksAreThere(r: Resources, clusterSummary: string, kind: string, i: nat, k: nat)
    requires LinkKind(kind) && ItemClaims(PhaseOne(r), r, kind, i) && k < |List(r, kind)[i].links| && SureLink(PhaseOne(r), List(r, kind)[i].links[k])
    ensures IdOf(LinkEdge(PhaseOne(r), kind, List(r, kind)[i], List(r, kind)[i].links[k])) in Assemble(r, clusterSummary).edgeSet
  {
    hide *;
    FromItself(r);
    ItemClaimsInRange(PhaseOne(r), r, kind, i);
    var g, item := PhaseOne(r), List(r, kind)[i];
    OfPhaseOneInv(g, r);
    ClaimantIsNode(g, r, kind, i);
    var o := LinkOffer(g.clusterId, SourceId(g, kind, item), item.links[k]);
    SureLinkIsSure(g, SourceId(g, kind, item), item.links[k]);
    ItemOffersHave(g, LinkPass, kind, item, o);
    LinkOfferAt(g, kind, item, item.links, o);
    SureOfferIsThere(r, clusterSummary, LinkPass, kind, i, o);
    LinkEdgeIs(g, kind, item, item.links[k]);
  }

  /** Nor is a sure link of a workload's template. */
  lemma TemplatesAreThere(r: Resources, clusterSummary: string, kind: string, i: nat, k: nat)
    requires OwnerKind(kind) && ItemClaims(PhaseOne(r), r, kind, i) && k < |List(r, kind)[i].template| && SureLink(PhaseOne(r), List(r, kind)[i].template[k])
    ensures IdOf(LinkEdge(PhaseOne(r), kind, List(r, kind)[i], List(r, kind)[i].template[k])) in Assemble(r, clusterSummary).edgeSet
  {
    hide *;
    FromItself(r);
    ItemClaimsInRange(PhaseOne(r), r, kind, i);
    var g, item := PhaseOne(r), List(r, kind)[i];
    OfPhaseOneInv(g, r);
    ClaimantIsNode(g, r, kind, i);
    var o := LinkOffer(g.clusterId, SourceId(g, kind, item), item.template[k]);
    SureLinkIsSure(g, SourceId(g, kind, item), item.template[k]);
    ItemOffersHave(g, OwnerPass, kind, item, o);
    LinkOfferAt(g, kind, item, item.template, o);
    SureOfferIsThere(r, clusterSummary, OwnerPass, kind, i, o);
    LinkEdgeIs(g, kind, item, item.template[k]);
  }

  /** Nor is the edge from an accepted owner that is a node of phase one. */
  lemma OwnersAreThere(r: Resources, clusterSummary: string, kind: string, i: nat, k: nat)
    requires OwnerKind(kind) && ItemClaims(PhaseOne(r), r, kind, i) && k < |List(r, kind)[i].owners|
    requires var owner := List(r, kind)[i].owners[k];
             ValidKind(owner.kind) && ValidReferenceName(owner.name) && NodeId(PhaseOne(r).clusterId, owner.kind, List(r, kind)[i].namespace, owner.name) in PhaseOne(r).nodeSet
    ensures IdOf(OwnerEdge(PhaseOne(r), kind, List(r, kind)[i], List(r, kind)[i].owners[k])) in Assemble(r, clusterSummary).edgeSet
  {
    hide *;
    FromItself(r);
    ItemClaimsInRange(PhaseOne(r), r, kind, i);
    var g, item := PhaseOne(r), List(r, kind)[i];
    OfPhaseOneInv(g, r);
    ClaimantIsNode(g, r, kind, i);
    var o := OwnerOffer(g.clusterId, SourceId(g, kind, item), item.namespace, item.owners[k]);
    OwnerIsSure(g, SourceId(g, kind, item), item.namespace, item.owners[k]);
    ItemOffersHave(g, OwnerPass, kind, item, o);
    OwnerOfferAt(g.clusterId, SourceId(g, kind, item), item.namespace, item.owners, o);
    SureOfferIsThere(r, clusterSummary, OwnerPass, kind, i, o);
    OwnerEdgeIs(g, kind, item, item.owners[k]);
  }

  lemma OfPhaseOneInv(g: Graph, r: Resources)
    requires FromPhaseOne(g, r)
    ensures Inv(g)
  {
  }

  lemma LinkEdgeIs(g: Graph, kind: string, item: Item, link: Link)
    ensures LinkOffer(g.clusterId, SourceId(g, kind, item), link).edge == LinkEdge(g, kind, item, link)
  {
  }

  lemma OwnerEdgeIs(g: Graph, kind: string, item: Item, owner: Owner)
    ensures OwnerOffer(g.clusterId, SourceId(g, kind, item), item.namespace, owner).edge == OwnerEdge(g, kind, item, owner)
  {
  }

  lemma ItemOffersHave(g: Graph, pass: Pass, kind: string, item: Item, o: Offer)
    ensures pass.LinkPass? && o in LinkOffers(g.clusterId, SourceId(g, kind, item), item.links) ==> o in ItemOffers(g.clusterId, pass, kind, item)
    ensures pass.OwnerPass? && o in LinkOffers(g.clusterId, SourceId(g, kind, item), item.template) ==> o in ItemOffers(g.clusterId, pass, kind, item)
    ensures pass.OwnerPass? && o in OwnerOffers(g.clusterId, SourceId(g, kind, item), item.namespace, item.owners) ==> o in ItemOffers(g.clusterId, pass, kind, item)
  {
    hide NodeId, LinkOffers, OwnerOffers;
  }

  lemma OwnerIsSure(g: Graph, child: string, namespace: string, owner: Owner)
    requires ValidKind(owner.kind) && ValidReferenceName(owner.name) && child in g.nodeSet && NodeId(g.clusterId, owner.kind, namespace, owner.name) in g.nodeSet
    ensures Sure(g, OwnerOffer(g.clusterId, child, namespace, owner)) && OwnerAccepted(owner)
  {
    OwnerFieldIsPlain();
    hide ValidEdgeMetadata, NodeId, ValidKind, ValidReferenceName;
  }

  lemma OwnerFieldIsPlain()
    ensures ValidEdgeMetadata("owns", "metadata.ownerReferences", "observed")
  {
    hide SafeVisibleText;
    PlainFieldIsVisible("metadata.ownerReferences");
  }

  // ----- nor one of a policy or an endpoint -----

  lemma {:induction false} PodOfferHas(g: Graph, source: string, pods: seq<Item>, selected: set<nat>, edgeType: string, sourceField: string, j: nat)
    requires j < |pods| && j in selected && FirstTracked(g, pods, j)
    ensures Offer(None, false, EdgeSpec(edgeType, source, NodeId(g.clusterId, "Pod", pods[j].namespace, pods[j].name), sourceField, "inferred"))
         in PodOffers(g, source, pods, selected, edgeType, sourceField)
  {
    hide NodeId, FirstTracked;
    var n := |pods| - 1;
    if j < n {
      SameFirstTracked(g, pods[..n], pods, j);
      PodOfferHas(g, source, pods[..n], selected, edgeType, sourceField, j);
    }
  }

  lemma SelectedHas(g: Graph, r: Resources, selected: set<nat>, edgeType: string, sourceField: string, e: EdgeSpec)
    requires ToSelected(g, r, selected, edgeType, sourceField, e)
    ensures Offer(None, false, e) in PodOffers(g, e.source, List(r, "Pod"), selected, edgeType, sourceField)
  {
    hide NodeId, FirstTracked, PodOffers;
    var j: nat :| j < |List(r, "Pod")| && j in selected && FirstTracked(g, List(r, "Pod"), j)
                  && e == EdgeSpec(edgeType, e.source, NodeId(g.clusterId, "Pod", List(r, "Pod")[j].namespace, List(r, "Pod")[j].name), sourceField, "inferred");
    PodOfferHas(g, e.source, List(r, "Pod"), selected, edgeType, sourceField, j);
  }

  lemma {:induction false} PeersOfferHas(g: Graph, r: Resources, rules: seq<PeerRule>, k: nat, e: EdgeSpec) returns (o: Offer)
    requires k < |rules| && ToPeer(g, r, rules[k], e)
    ensures o in PeersOffers(g, e.source, List(r, "Pod"), rules) && o.edge == e
  {
    hide NodeId, ToSelected, PodOffers;
    var n := |rules| - 1;
    if k < n {
      o := PeersOfferHas(g, r, rules[..n], k, e);
    } else {
      match rules[n].peer {
        case PodPeer(selected) =>
          SelectedHas(g, r, selected, rules[n].edgeType, rules[n].sourceField, e);
          o := Offer(None, false, e);
        case NamespacePeer(names) =>
          var name :| name in names && e == EdgeSpec(rules[n].edgeType, e.source, NodeId(g.clusterId, "Namespace", "", name), rules[n].sourceField, "inferred");
          var m :| 0 <= m < |names| && names[m] == name;
          o := LinkOffer(g.clusterId, e.source, NamespaceLinks(names, rules[n].edgeType, rules[n].sourceField)[m]);
          assert o == LinkOffers(g.clusterId, e.source, NamespaceLinks(names, rules[n].edgeType, rules[n].sourceField))[m];
      }
    }
  }

  lemma PolicyOfferHas(g: Graph, r: Resources, i: int, e: EdgeSpec) returns (o: Offer)
    requires OfPolicy(g, r, i, e)
    ensures PolicyOffersIt(g, r, i, o) && o.edge == e
  {
    hide NodeId, PodOffers, PeersOffers, ToSelected, ToPeer, ClaimsAt, FirstTracked, List;
    var item := List(r, "NetworkPolicy")[i];
    if item.policy.selectorValid && ToSelected(g, r, item.policy.selected, "applies-to", "NetworkPolicy.spec.podSelector", e) {
      SelectedHas(g, r, item.policy.selected, "applies-to", "NetworkPolicy.spec.podSelector", e);
      o := Offer(None, false, e);
    } else if k :| 0 <= k < |item.policy.peers| && ToPeer(g, r, item.policy.peers[k], e) {
      o := PeersOfferHas(g, r, item.policy.peers, k, e);
    } else {
      o := Offer(None, false, e);
    }
  }

  /** Every edge of a policy that claims its node is there, if its target is tracked. */
  lemma PoliciesAreThere(r: Resources, clusterSummary: string, i: int, e: EdgeSpec)
    requires OfPolicy(PhaseOne(r), r, i, e) && Tracked(PhaseOne(r), e.target) && ValidEdgeMetadata(e.edgeType, e.sourceField, e.confidence)
    ensures IdOf(e) in Assemble(r, clusterSummary).edgeSet
  {
    hide *;
    FromItself(r);
    var g := PhaseOne(r);
    OfPhaseOneInv(g, r);
    var o := PolicyOfferHas(g, r, i, e);
    PolicySourceIsNode(g, r, i, e);
    TrackedIsNode(g, e.target);
    OffersAre(g, r, o);
    SureOffer(g, o);
    SureStands(g, PhaseTwoOffers(g, r), o);
    OfferedIsAdded(r, o.edge);
    EdgesAreAdded(r, clusterSummary);
  }

  lemma PolicySourceIsNode(g: Graph, r: Resources, i: int, e: EdgeSpec)
    requires Inv(g) && OfPolicy(g, r, i, e)
    ensures e.source in g.nodeSet
  {
    hide NodesInv, EdgesInv, LayoutInv, SourceId, List, ClaimsAt, ToSelected, ToPeer;
    ClaimantIsNode(g, r, "NetworkPolicy", i);
  }

  lemma TrackedIsNode(g: Graph, id: string)
    requires Inv(g) && Tracked(g, id)
    ensures id in g.nodeSet && id in g.resourceNodeSet
  {
  }

  lemma SureOffer(g: Graph, o: Offer)
    requires o.edge.source in g.nodeSet && o.edge.target in g.nodeSet && (o.listed ==> o.edge.target in g.resourceNodeSet)
    requires ValidEdgeMetadata(o.edge.edgeType, o.edge.sourceField, o.edge.confidence)
    ensures Sure(g, o)
  {
    hide ValidEdgeMetadata;
  }

  /** So is every edge from an observed endpoint's service to its pod, if both are nodes of phase one. */
  lemma EndpointsAreThere(r: Resources, clusterSummary: string, e: EdgeSpec)
    requires OfEndpoints(PhaseOne(r), r, e)
    requires e.source in PhaseOne(r).nodeSet && e.target in PhaseOne(r).nodeSet && ValidEdgeMetadata(e.edgeType, e.sourceField, e.confidence)
    ensures IdOf(e) in Assemble(r, clusterSummary).edgeSet
  {
    hide *;
    var g := PhaseOne(r);
    var k := EndpointOfEdge(g, r, e);
    var o := EndpointOffer(g.clusterId, r.endpoints[k]);
    OffersAre(g, r, o);
    SureOffer(g, o);
    SureStands(g, PhaseTwoOffers(g, r), o);
    OfferedIsAdded(r, o.edge);
    EdgesAreAdded(r, clusterSummary);
  }

  lemma EndpointOfEdge(g: Graph, r: Resources, e: EdgeSpec) returns (k: int)
    requires OfEndpoints(g, r, e)
    ensures 0 <= k < |r.endpoints| && EndpointOffer(g.clusterId, r.endpoints[k]).edge == e && !EndpointOffer(g.clusterId, r.endpoints[k]).listed
  {
    hide NodeId;
    k :| 0 <= k < |r.endpoints| &&
      e == EdgeSpec("service-endpoint", NodeId(g.clusterId, "Service", r.endpoints[k].namespace, r.endpoints[k].service),
                    NodeId(g.clusterId, "Pod", r.endpoints[k].namespace, r.endpoints[k].pod), r.endpoints[k].sourceField, r.endpoints[k].confidence);
  }
}
