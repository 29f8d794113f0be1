/** Phase two as a list of offers, made in order. An offer becomes an edge exactly if both its ends are there when it is
    made; that gives the edges of each pass, and of the whole phase, exactly. */
module LinkEdges {
  import opened Text
  import opened Names
  import opened GraphBuilding
  import opened Assembly
  import opened AssemblyEdges
  import opened Claiming
  import opened NetworkPolicies

  function IdOf(e: EdgeSpec): string { EdgeId(e.source, e.target, e.edgeType, e.sourceField) }

  function SpecOf(edge: Edge): EdgeSpec { EdgeSpec(edge.edgeType, edge.source, edge.target, edge.sourceField, edge.confidence) }

  datatype Identity = Identity(kind: string, namespace: string, name: string)

  /** An edge to add, after making sure of a reference node (`made`), or only to a listed resource (`listed`). */
  datatype Offer = Offer(made: Option<Identity>, listed: bool, edge: EdgeSpec)

  function MakeSure(g: Graph, made: Option<Identity>): Graph {
    if made.Some? then EnsureReference(g, made.value.kind, made.value.namespace, made.value.name) else g
  }

  function AddOffer(g: Graph, o: Offer): Graph {
    if o.listed && o.edge.target !in g.resourceNodeSet then MakeSure(g, o.made) else AddEdge(MakeSure(g, o.made), o.edge).0
  }

  function AddOffers(g: Graph, offers: seq<Offer>): Graph {
    if offers == [] then g else AddOffer(AddOffers(g, offers[..|offers| - 1]), offers[|offers| - 1])
  }

  lemma {:induction false} AddOffersAppend(g: Graph, a: seq<Offer>, b: seq<Offer>)
    ensures AddOffers(g, a + b) == AddOffers(AddOffers(g, a), b)
  {
    hide AddOffer;
    if b == [] {
      assert a + b == a;
    } else {
      var n := |b| - 1;
      assert (a + b)[..|a| + n] == a + b[..n];
      AddOffersAppend(g, a, b[..n]);
    }
  }

  // ----- when an offer becomes an edge -----

  /** The offer makes sure of a node with this id. */
  predicate Makes(g: Graph, o: Offer, id: string) {
    o.made.Some? &&
    var node := NewNode(g, ReferenceSpec(o.made.value.kind, o.made.value.namespace, o.made.value.name));
    ValidNodeIdentity(node.kind, node.namespace, node.name) && node.id == id
  }

  /** The id is that of a node once the offers are made. */
  predicate There(g: Graph, offers: seq<Offer>, id: string) {
    id in g.nodeSet || exists q :: 0 <= q < |offers| && Makes(g, offers[q], id)
  }

  /** Offer p becomes an edge, or has the id of an earlier one. */
  predicate Stands(g: Graph, offers: seq<Offer>, p: int)
    requires 0 <= p < |offers|
  {
    var o := offers[p];
    && ValidEdgeMetadata(o.edge.edgeType, o.edge.sourceField, o.edge.confidence)
    && There(g, offers[..p + 1], o.edge.source) && There(g, offers[..p + 1], o.edge.target)
    && (o.listed ==> o.edge.target in g.resourceNodeSet)
  }

  ghost predicate OffersEdge(g: Graph, offers: seq<Offer>, e: EdgeSpec) {
    exists p :: 0 <= p < |offers| && Stands(g, offers, p) && offers[p].edge == e
  }

  ghost predicate Offered(g: Graph, offers: seq<Offer>, id: string) { exists e :: OffersEdge(g, offers, e) && IdOf(e) == id }

  /** g' is g after these offers. */
  ghost predicate OffersMade(g: Graph, g': Graph, offers: seq<Offer>) {
    && OnlyReferences(g, g') && g.edgeSet <= g'.edgeSet
    && (forall id :: id in g'.nodeSet <==> There(g, offers, id))
    && (forall id :: id in g'.edgeSet <==> id in g.edgeSet || Offered(g, offers, id))
    && (forall k :: |g.edges| <= k < |g'.edges| ==> OffersEdge(g, offers, SpecOf(g'.edges[k])))
  }

  lemma SureNodes(g: Graph, o: Offer)
    requires Inv(g)
    ensures var g1 := MakeSure(g, o.made);
            && OnlyReferences(g, g1) && g1.edges == g.edges && g1.edgeSet == g.edgeSet
            && (forall id :: id in g1.nodeSet <==> id in g.nodeSet || Makes(g, o, id))
  {
    hide Inv, ValidNodeIdentity, NodeId, Lane, SafeNodeStatus, SafeClusterName;
    if o.made.Some? {
      ReferenceOnly(g, o.made.value.kind, o.made.value.namespace, o.made.value.name);
    }
  }

  lemma EdgeAdded(g: Graph, e: EdgeSpec)
    requires Inv(g)
    ensures var g' := AddEdge(g, e).0;
            && OnlyReferences(g, g') && g'.nodeSet == g.nodeSet
            && g'.edgeSet == g.edgeSet + (if Fits(g, e) then {IdOf(e)} else {})
            && (|g.edges| < |g'.edges| ==> Fits(g, e))
            && (forall k :: |g.edges| <= k < |g'.edges| ==> SpecOf(g'.edges[k]) == e)
  {
    NoEmptyNode(g);
    hide Inv, Fits, AddEdge;
    EdgeOnly(g, e);
    EdgeEffect(g, e);
  }

  predicate Fits(g: Graph, e: EdgeSpec) {
    e.source in g.nodeSet && e.target in g.nodeSet && ValidEdgeMetadata(e.edgeType, e.sourceField, e.confidence)
  }

  lemma EdgeEffect(g: Graph, e: EdgeSpec)
    requires "" !in g.nodeSet
    ensures var g' := AddEdge(g, e).0;
            && g'.nodeSet == g.nodeSet
            && g'.edgeSet == g.edgeSet + (if Fits(g, e) then {IdOf(e)} else {})
            && (|g.edges| < |g'.edges| ==> Fits(g, e))
            && (forall k :: |g.edges| <= k < |g'.edges| ==> SpecOf(g'.edges[k]) == e)
  {
    hide EdgeId, ValidEdgeMetadata;
    if !Fits(g, e) {
      assert AddEdge(g, e).0 == g;
    } else if IdOf(e) in g.edgeSet {
      assert AddEdge(g, e).0 == g;
    } else {
      assert AddEdge(g, e).0.edges == g.edges + [Edge(IdOf(e), e.source, e.target, e.edgeType, e.sourceField, e.confidence)];
    }
  }

  lemma NoEmptyNode(g: Graph)
    requires Inv(g)
    ensures "" !in g.nodeSet
  {
    hide EdgesInv, LayoutInv, TrackInv, ValidNodeIdentity;
    if "" in g.nodeSet {
      var i :| 0 <= i < |g.nodes| && g.nodes[i].id == "";
      assert Placed(g.clusterId, g.nodes[i]);
      NodeIdNonEmpty(g.clusterId, g.nodes[i].kind, g.nodes[i].namespace, g.nodes[i].name);
    }
  }

  lemma MakesSame(g: Graph, g': Graph, o: Offer, id: string)
    requires g'.clusterId == g.clusterId
    ensures Makes(g', o, id) <==> Makes(g, o, id)
  {
    hide ValidNodeIdentity, NodeId, Lane, SafeClusterName;
  }

  lemma ThereStep(g: Graph, offers: seq<Offer>, id: string)
    requires offers != []
    ensures var n := |offers| - 1;
            There(g, offers, id) <==> There(g, offers[..n], id) || Makes(g, offers[n], id)
  {
    hide Makes;
    var n := |offers| - 1;
    if q :| 0 <= q < |offers| && Makes(g, offers[q], id) {
      assert q < n ==> Makes(g, offers[..n][q], id);
    }
    if q :| 0 <= q < n && Makes(g, offers[..n][q], id) {
      assert Makes(g, offers[q], id);
    }
  }

  lemma StandsPrefix(g: Graph, offers: seq<Offer>)
    requires offers != []
    ensures var n := |offers| - 1;
            forall p :: 0 <= p < n ==> offers[..n][p] == offers[p] && (Stands(g, offers[..n], p) <==> Stands(g, offers, p))
  {
    hide There, ValidEdgeMetadata;
    var n := |offers| - 1;
    forall p | 0 <= p < n
      ensures Stands(g, offers[..n], p) <==> Stands(g, offers, p)
    {
      assert offers[..n][..p + 1] == offers[..p + 1];
    }
  }

  lemma OffersEdgeStep(g: Graph, offers: seq<Offer>, e: EdgeSpec)
    requires offers != []
    ensures var n := |offers| - 1;
            OffersEdge(g, offers, e) <==> OffersEdge(g, offers[..n], e) || (Stands(g, offers, n) && offers[n].edge == e)
  {
    StandsPrefix(g, offers);
    hide Stands;
    var n := |offers| - 1;
    if OffersEdge(g, offers[..n], e) {
      var p :| 0 <= p < n && Stands(g, offers[..n], p) && offers[..n][p].edge == e;
      assert Stands(g, offers, p) && offers[p].edge == e;
    }
    if p :| 0 <= p < |offers| && Stands(g, offers, p) && offers[p].edge == e {
      assert p < n ==> Stands(g, offers[..n], p) && offers[..n][p].edge == e;
    }
  }

  lemma OfferedStep(g: Graph, offers: seq<Offer>, id: string)
    requires offers != []
    ensures var n := |offers| - 1;
            Offered(g, offers, id) <==> Offered(g, offers[..n], id) || (Stands(g, offers, n) && IdOf(offers[n].edge) == id)
  {
    hide Stands, IdOf, OffersEdge;
    var n := |offers| - 1;
    OffersEdgeStep(g, offers, offers[n].edge);
    if e :| OffersEdge(g, offers[..n], e) && IdOf(e) == id {
      OffersEdgeStep(g, offers, e);
    }
    if e :| OffersEdge(g, offers, e) && IdOf(e) == id {
      OffersEdgeStep(g, offers, e);
    }
  }

  /** One offer more, as seen from the start. */
  lemma OneOffer(g: Graph, g1: Graph, offers: seq<Offer>)
    requires offers != [] && OffersMade(g, g1, offers[..|offers| - 1])
    ensures var n := |offers| - 1; var g' := AddOffer(g1, offers[n]);
            && OnlyReferences(g1, g')
            && (forall id :: id in g'.nodeSet <==> There(g, offers, id))
            && g'.edgeSet == g1.edgeSet + (if Stands(g, offers, n) then {IdOf(offers[n].edge)} else {})
            && (|g1.edges| < |g'.edges| ==> Stands(g, offers, n))
            && (forall k :: |g1.edges| <= k < |g'.edges| ==> SpecOf(g'.edges[k]) == offers[n].edge)
  {
    hide Inv, Makes, There, MakeSure, AddEdge, ValidEdgeMetadata, IdOf, Offered, OffersEdge, IsReference;
    var n := |offers| - 1;
    var o := offers[n];
    var g2 := MakeSure(g1, o.made);
    SureNodes(g1, o);
    forall id
      ensures id in g2.nodeSet <==> There(g, offers, id)
    {
      MakesSame(g, g1, o, id);
      ThereStep(g, offers, id);
    }
    assert offers[..n + 1] == offers;
    assert Stands(g, offers, n) <==> Fits(g2, o.edge) && (o.listed ==> o.edge.target in g1.resourceNodeSet);
    EdgeAdded(g2, o.edge);
    OnlyReferencesTransitive(g1, g2, AddEdge(g2, o.edge).0);
    hide Stands;
  }

  /** After a list of offers: the nodes are the old ones and those made sure of, the edges are the old ones and those of
      the offers that stood when they were made. */
  lemma {:induction false} OffersBecomeEdges(g: Graph, offers: seq<Offer>)
    requires Inv(g)
    ensures OffersMade(g, AddOffers(g, offers), offers)
  {
    hide Inv, AddOffer, Makes, Stands, IdOf, SpecOf, IsReference;
    if offers != [] {
      var n := |offers| - 1;
      OffersBecomeEdges(g, offers[..n]);
      var g1, g' := AddOffers(g, offers[..n]), AddOffers(g, offers);
      hide There, Offered, OffersEdge;
      OneOffer(g, g1, offers);
      OnlyReferencesTransitive(g, g1, g');
      forall id
        ensures id in g'.edgeSet <==> id in g.edgeSet || Offered(g, offers, id)
      {
        OfferedStep(g, offers, id);
      }
      forall k | |g.edges| <= k < |g'.edges|
        ensures OffersEdge(g, offers, SpecOf(g'.edges[k]))
      {
        OffersEdgeStep(g, offers, SpecOf(g'.edges[k]));
        assert k < |g1.edges| ==> g'.edges[k] == g1.edges[k];
      }
    }
  }

  // ----- links and owners -----

  function LinkOffer(clusterId: string, source: string, link: Link): Offer {
    Offer(if link.ensure then Some(Identity(link.kind, link.namespace, link.name)) else None, link.listed,
          EdgeSpec(link.edgeType, source, NodeId(clusterId, link.kind, link.namespace, link.name), link.sourceField, link.confidence))
  }

  function LinkOffers(clusterId: string, source: string, links: seq<Link>): seq<Offer> {
    seq(|links|, k requires 0 <= k < |links| => LinkOffer(clusterId, source, links[k]))
  }

  lemma {:induction false} LinksAreOffers(g: Graph, source: string, links: seq<Link>)
    requires Inv(g)
    ensures AddLinks(g, source, links) == AddOffers(g, LinkOffers(g.clusterId, source, links))
  {
    hide Inv, AddLink, AddOffer, LinkOffer;
    if links != [] {
      var n := |links| - 1;
      var offers := LinkOffers(g.clusterId, source, links);
      LinksAreOffers(g, source, links[..n]);
      LinksOnly(g, source, links[..n]);
      assert offers[..n] == LinkOffers(g.clusterId, source, links[..n]);
      LinkIsOffer(AddLinks(g, source, links[..n]), source, links[n]);
    }
  }

  lemma LinkIsOffer(g: Graph, source: string, link: Link)
    ensures AddLink(g, source, link) == AddOffer(g, LinkOffer(g.clusterId, source, link))
  {
    hide EnsureReference, AddEdge, NodeId;
  }

  predicate OwnerAccepted(owner: Owner) { ValidKind(owner.kind) && ValidReferenceName(owner.name) }

  function OwnerOffer(clusterId: string, child: string, namespace: string, owner: Owner): Offer {
    Offer(None, false, EdgeSpec("owns", NodeId(clusterId, owner.kind, namespace, owner.name), child, "metadata.ownerReferences", "observed"))
  }

  function OwnerOffers(clusterId: string, child: string, namespace: string, owners: seq<Owner>): seq<Offer> {
    if owners == [] then []
    else
      var n := |owners| - 1;
      OwnerOffers(clusterId, child, namespace, owners[..n]) + if OwnerAccepted(owners[n]) then [OwnerOffer(clusterId, child, namespace, owners[n])] else []
  }

  lemma {:induction false} OwnersAreOffers(g: Graph, child: string, namespace: string, owners: seq<Owner>)
    requires Inv(g)
    ensures AddOwners(g, child, namespace, owners) == AddOffers(g, OwnerOffers(g.clusterId, child, namespace, owners))
  {
    hide Inv, AddEdge, NodeId, ValidKind, ValidReferenceName;
    if owners != [] {
      var n := |owners| - 1;
      OwnersAreOffers(g, child, namespace, owners[..n]);
      OwnersOnly(g, child, namespace, owners[..n]);
      OneMore(g, OwnerOffers(g.clusterId, child, namespace, owners[..n]), OwnerOffer(g.clusterId, child, namespace, owners[n]));
      assert OwnerOffers(g.clusterId, child, namespace, owners[..n]) + [] == OwnerOffers(g.clusterId, child, namespace, owners[..n]);
    }
  }

  lemma OneMore(g: Graph, offers: seq<Offer>, o: Offer)
    ensures AddOffers(g, offers + [o]) == AddOffer(AddOffers(g, offers), o)
  {
    hide AddOffer;
    assert (offers + [o])[..|offers|] == offers;
  }

  // ----- passes -----

  /** The graph has the cluster and the listed resources of another. */
  predicate SameBase(g0: Graph, g: Graph) { g.clusterId == g0.clusterId && g.resourceNodeSet == g0.resourceNodeSet }

  /** What an item that claims its node offers in a pass. */
  function ItemOffers(clusterId: string, pass: Pass, kind: string, item: Item): seq<Offer> {
    var id := NodeId(clusterId, kind, SourceNamespace(kind, item), item.name);
    if pass.OwnerPass? then OwnerOffers(clusterId, id, item.namespace, item.owners) + LinkOffers(clusterId, id, item.template)
    else LinkOffers(clusterId, id, item.links)
  }

  function ItemsOffers(clusterId: string, pass: Pass, kind: string, items: seq<Item>, claimed: set<int>): seq<Offer> {
    if items == [] then []
    else
      var n := |items| - 1;
      ItemsOffers(clusterId, pass, kind, items[..n], claimed) + if n in claimed then ItemOffers(clusterId, pass, kind, items[n]) else []
  }

  lemma ItemIsOffers(g: Graph, seen: set<string>, pass: Pass, kind: string, item: Item)
    requires Inv(g)
    ensures PassItem(g, seen, pass, kind, item).0 ==
            if Claims(g, SourceId(g, kind, item), seen) then AddOffers(g, ItemOffers(g.clusterId, pass, kind, item)) else g
  {
    hide Inv, NodeId, AddLinks, AddOwners, AddOffers, Claims;
    var id := SourceId(g, kind, item);
    if pass.OwnerPass? {
      OwnersOnly(g, id, item.namespace, item.owners);
      OwnersAreOffers(g, id, item.namespace, item.owners);
      LinksAreOffers(AddOwners(g, id, item.namespace, item.owners), id, item.template);
      AddOffersAppend(g, OwnerOffers(g.clusterId, id, item.namespace, item.owners), LinkOffers(g.clusterId, id, item.template));
    } else {
      LinksAreOffers(g, id, item.links);
    }
  }

  /** A pass over a list makes the offers of the items that claim their node, and no others. */
  lemma {:induction false} PassEdges(g: Graph, seen: set<string>, pass: Pass, kind: string, items: seq<Item>, claimed: set<int>)
    requires Inv(g) && forall i :: 0 <= i < |items| ==> (i in claimed <==> ClaimsAt(g, seen, kind, items, i))
    ensures PassItems(g, seen, pass, kind, items).0 == AddOffers(g, ItemsOffers(g.clusterId, pass, kind, items, claimed))
  {
    hide Inv, PassItem, ItemOffers, Claims, ClaimsAt, SourceId, AddOffers;
    if items == [] {
      NoOffers(g);
    } else {
      var n := |items| - 1;
      ClaimsAtPrefix(g, seen, kind, items);
      PassEdges(g, seen, pass, kind, items[..n], claimed);
      PassItemsOnly(g, seen, pass, kind, items[..n]);
      var (g1, seen1) := PassItems(g, seen, pass, kind, items[..n]);
      ItemIsOffers(g1, seen1, pass, kind, items[n]);
      ClaimDuringPass(g, seen, pass, kind, items, n);
      var before := ItemsOffers(g.clusterId, pass, kind, items[..n], claimed);
      AddOffersAppend(g, before, ItemOffers(g.clusterId, pass, kind, items[n]));
      assert before + [] == before;
    }
  }

  lemma NoOffers(g: Graph)
    ensures AddOffers(g, []) == g
  {
  }

  lemma ClaimsAtPrefix(g: Graph, seen: set<string>, kind: string, items: seq<Item>)
    requires items != []
    ensures var n := |items| - 1;
            forall i :: 0 <= i < n ==> items[..n][i] == items[i] && (ClaimsAt(g, seen, kind, items[..n], i) <==> ClaimsAt(g, seen, kind, items, i))
  {
    hide SourceId, Tracked;
    var n := |items| - 1;
    assert forall i :: 0 <= i < n ==> items[..n][i] == items[i];
  }

  /** The positions of the items of list n that claim their node in a pass over several lists. */
  function ClaimedIn(g0: Graph, r: Resources, kinds: seq<string>, n: int): set<int>
    requires 0 <= n < |kinds|
  {
    set i | 0 <= i < |List(r, kinds[n])| && ClaimsIn(g0, r, kinds, n, i)
  }

  function KindsOffers(g0: Graph, r: Resources, pass: Pass, kinds: seq<string>): seq<Offer> {
    if kinds == [] then []
    else
      var n := |kinds| - 1;
      KindsOffers(g0, r, pass, kinds[..n]) + ItemsOffers(g0.clusterId, pass, kinds[n], List(r, kinds[n]), ClaimedIn(g0, r, kinds, n))
  }

  lemma ClaimsInSame(g0: Graph, g: Graph, r: Resources, kinds: seq<string>, n: int, i: int)
    requires SameBase(g0, g) && 0 <= n < |kinds| && 0 <= i < |List(r, kinds[n])|
    ensures ClaimsIn(g, r, kinds, n, i) <==> ClaimsIn(g0, r, kinds, n, i)
  {
    hide Passed, SourceId, List;
    var id := SourceId(g0, kinds[n], List(r, kinds[n])[i]);
    forall item
      ensures SourceId(g, kinds[n], item) == SourceId(g0, kinds[n], item)
    {
      SourceSame(g0, g, kinds[n], item);
    }
    forall m | 0 <= m < n
      ensures Passed(g, kinds[m], List(r, kinds[m]), id) <==> Passed(g0, kinds[m], List(r, kinds[m]), id)
    {
      PassedSame(g0, g, kinds[m], List(r, kinds[m]), id);
    }
  }

  lemma {:induction false} KindsAreOffers(g0: Graph, g: Graph, r: Resources, pass: Pass, kinds: seq<string>)
    requires Inv(g) && SameBase(g0, g)
    ensures PassKinds(g, {}, pass, r, kinds).0 == AddOffers(g, KindsOffers(g0, r, pass, kinds))
  {
    hide Inv, PassItems, ClaimsAt, ClaimsIn, AddOffers, ItemsOffers;
    if kinds == [] {
      NoOffers(g);
    } else {
      var n := |kinds| - 1;
      KindsAreOffers(g0, g, r, pass, kinds[..n]);
      PassKindsOnly(g, {}, pass, r, kinds[..n]);
      var (gn, seenn) := PassKinds(g, {}, pass, r, kinds[..n]);
      var claimed := ClaimedIn(g0, r, kinds, n);
      forall i | 0 <= i < |List(r, kinds[n])|
        ensures i in claimed <==> ClaimsAt(gn, seenn, kinds[n], List(r, kinds[n]), i)
      {
        ClaimDuringKinds(g, pass, r, kinds, n, i);
        ClaimsInSame(g0, g, r, kinds, n, i);
      }
      PassEdges(gn, seenn, pass, kinds[n], List(r, kinds[n]), claimed);
      AddOffersAppend(g, KindsOffers(g0, r, pass, kinds[..n]), ItemsOffers(g0.clusterId, pass, kinds[n], List(r, kinds[n]), claimed));
    }
  }

  function PassesOffers(g0: Graph, r: Resources, passes: seq<(Pass, seq<string>)>): seq<Offer> {
    if passes == [] then []
    else
      var (pass, kinds) := passes[|passes| - 1];
      PassesOffers(g0, r, passes[..|passes| - 1]) + KindsOffers(g0, r, pass, kinds)
  }

  lemma {:induction false} PassesAreOffers(g: Graph, r: Resources, passes: seq<(Pass, seq<string>)>)
    requires Inv(g)
    ensures RunPasses(g, r, passes) == AddOffers(g, PassesOffers(g, r, passes))
  {
    hide Inv, PassKinds, KindsOffers, AddOffers;
    if passes == [] {
      NoOffers(g);
    } else {
      var (pass, kinds) := passes[|passes| - 1];
      PassesAreOffers(g, r, passes[..|passes| - 1]);
      RunPassesOnly(g, r, passes[..|passes| - 1]);
      var g1 := RunPasses(g, r, passes[..|passes| - 1]);
      KindsAreOffers(g, g1, r, pass, kinds);
      AddOffersAppend(g, PassesOffers(g, r, passes[..|passes| - 1]), KindsOffers(g, r, pass, kinds));
    }
  }
}
