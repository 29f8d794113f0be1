/** The edges of a snapshot, exactly: phase two as one list of offers, the edges of phase one, and why deduplicating
    edges by their string id loses none of them. */
module SnapshotEdges {
  import opened Text
  import opened Names
  import opened GraphBuilding
  import opened Assembly
  import opened AssemblyEdges
  import opened Claiming
  import opened NetworkPolicies
  import opened LinkEdges
  import opened ParentEdges

  // ----- network policies -----

  function PodOffers(g0: Graph, source: string, pods: seq<Item>, selected: set<nat>, edgeType: string, sourceField: string): seq<Offer> {
    if pods == [] then []
    else
      var n := |pods| - 1;
      PodOffers(g0, source, pods[..n], selected, edgeType, sourceField) +
      if n in selected && FirstTracked(g0, pods, n) then [Offer(None, false, EdgeSpec(edgeType, source, PodId(g0, pods[n]), sourceField, "inferred"))] else []
  }

  predicate SomeSelected(g0: Graph, pods: seq<Item>, selected: set<nat>) {
    exists i: nat :: i < |pods| && i in selected && FirstTracked(g0, pods, i)
  }

  lemma {:induction false} PodEdgesAreOffers(g0: Graph, g: Graph, source: string, pods: seq<Item>, selected: set<nat>, edgeType: string, sourceField: string)
    requires SameBase(g0, g)
    ensures var (g', seen, matches) := PodEdges(g, source, pods, selected, edgeType, sourceField);
            && g' == AddOffers(g, PodOffers(g0, source, pods, selected, edgeType, sourceField))
            && SameBase(g0, g')
            && (forall id :: id in seen <==> Tracked(g0, id) && Passed(g0, "Pod", pods, id))
            && (matches == 0 <==> !SomeSelected(g0, pods, selected))
  {
    hide NodeId, AddEdge, FirstTracked, AddOffers, Passed, SomeSelected, SourceId;
    if pods == [] {
      NoOffers(g);
      NonePassed(g0, "Pod");
      NoneSelected(g0, selected);
    } else {
      var n := |pods| - 1;
      var before := PodOffers(g0, source, pods[..n], selected, edgeType, sourceField);
      var (g1, seen, matches) := PodEdges(g, source, pods[..n], selected, edgeType, sourceField);
      PodEdgesAreOffers(g0, g, source, pods[..n], selected, edgeType, sourceField);
      PodClaims(g0, g1, pods, seen);
      PassedOneMore(g0, "Pod", pods);
      SelectedOneMore(g0, pods, selected);
      var e := EdgeSpec(edgeType, source, PodId(g0, pods[n]), sourceField, "inferred");
      EdgeKeepsBase(g0, g1, e);
      OneMore(g, before, Offer(None, false, e));
      assert before + [] == before;
    }
  }

  lemma EdgeKeepsBase(g0: Graph, g: Graph, e: EdgeSpec)
    requires SameBase(g0, g)
    ensures SameBase(g0, AddEdge(g, e).0)
    ensures AddOffer(g, Offer(None, false, e)) == AddEdge(g, e).0
  {
    hide EdgeId, ValidEdgeMetadata;
  }

  lemma NoneSelected(g0: Graph, selected: set<nat>)
    ensures !SomeSelected(g0, [], selected)
  {
  }

  lemma SelectedOneMore(g0: Graph, pods: seq<Item>, selected: set<nat>)
    requires pods != []
    ensures var n := |pods| - 1;
            SomeSelected(g0, pods, selected) <==> SomeSelected(g0, pods[..n], selected) || (n in selected && FirstTracked(g0, pods, n))
  {
    FirstTrackedPrefix(g0, pods);
    hide FirstTracked;
    var n := |pods| - 1;
    if i: nat :| i < n && i in selected && FirstTracked(g0, pods[..n], i) {
      assert FirstTracked(g0, pods, i);
    }
    if i: nat :| i < |pods| && i in selected && FirstTracked(g0, pods, i) {
      assert i < n ==> FirstTracked(g0, pods[..n], i);
    }
  }

  /** A pod is looked at exactly if it is the first tracked one with its id. */
  lemma PodClaims(g0: Graph, g1: Graph, pods: seq<Item>, seen: set<string>)
    requires pods != [] && SameBase(g0, g1)
    requires forall id :: id in seen <==> Tracked(g0, id) && Passed(g0, "Pod", pods[..|pods| - 1], id)
    ensures var n := |pods| - 1; var id := NodeId(g1.clusterId, "Pod", pods[n].namespace, pods[n].name);
            && (Claims(g1, id, seen) <==> FirstTracked(g0, pods, n))
            && id == PodId(g0, pods[n]) == SourceId(g0, "Pod", pods[n])
            && (Claims(g1, id, seen) ==> Tracked(g0, id))
            && (Tracked(g0, id) && !Claims(g1, id, seen) ==> id in seen)
  {
    hide Passed;
    ClaimsByPassed(g0, "Pod", pods);
    PodIdNonEmpty(g0, pods[|pods| - 1]);
    hide NodeId;
  }

  function PeerOffers(g0: Graph, source: string, pods: seq<Item>, rule: PeerRule): seq<Offer> {
    match rule.peer
    case PodPeer(selected) => PodOffers(g0, source, pods, selected, rule.edgeType, rule.sourceField)
    case NamespacePeer(names) => LinkOffers(g0.clusterId, source, NamespaceLinks(names, rule.edgeType, rule.sourceField))
  }

  function PeersOffers(g0: Graph, source: string, pods: seq<Item>, rules: seq<PeerRule>): seq<Offer> {
    if rules == [] then [] else PeersOffers(g0, source, pods, rules[..|rules| - 1]) + PeerOffers(g0, source, pods, rules[|rules| - 1])
  }

  lemma {:induction false} PeersAreOffers(g0: Graph, g: Graph, source: string, pods: seq<Item>, rules: seq<PeerRule>)
    requires Inv(g) && SameBase(g0, g)
    ensures AddPeers(g, source, pods, rules) == AddOffers(g, PeersOffers(g0, source, pods, rules))
  {
    hide Inv, PodEdges, AddLinks, PodOffers, LinkOffers, AddOffers;
    if rules == [] {
      NoOffers(g);
    } else {
      var n := |rules| - 1;
      var g1, rule := AddPeers(g, source, pods, rules[..n]), rules[n];
      PeersAreOffers(g0, g, source, pods, rules[..n]);
      PeersOnly(g, source, pods, rules[..n]);
      match rule.peer {
        case PodPeer(selected) => PodEdgesAreOffers(g0, g1, source, pods, selected, rule.edgeType, rule.sourceField);
        case NamespacePeer(names) => LinksAreOffers(g1, source, NamespaceLinks(names, rule.edgeType, rule.sourceField));
      }
      AddOffersAppend(g, PeersOffers(g0, source, pods, rules[..n]), PeerOffers(g0, source, pods, rule));
    }
  }

  /** What a policy applies to: the selected pods, or its namespace if there are none. */
  function SelectorOffers(g0: Graph, source: string, pods: seq<Item>, item: Item): seq<Offer> {
    if !item.policy.selectorValid then []
    else
      PodOffers(g0, source, pods, item.policy.selected, "applies-to", SelectorField) +
      if SomeSelected(g0, pods, item.policy.selected) || item.namespace == "" then []
      else [Offer(None, false, EdgeSpec("applies-to", source, NamespaceId(g0, item.namespace), SelectorField, "observed"))]
  }

  function PolicyOffers(g0: Graph, pods: seq<Item>, item: Item): seq<Offer> {
    var source := SourceId(g0, "NetworkPolicy", item);
    SelectorOffers(g0, source, pods, item) + PeersOffers(g0, source, pods, item.policy.peers)
  }

  lemma SelectorIsOffers(g0: Graph, g: Graph, source: string, pods: seq<Item>, item: Item)
    requires SameBase(g0, g)
    ensures AddAppliesTo(g, source, pods, item) == AddOffers(g, SelectorOffers(g0, source, pods, item))
    ensures SameBase(g0, AddAppliesTo(g, source, pods, item))
  {
    hide NodeId, PodEdges, AddEdge, PodOffers, SomeSelected, AddOffers;
    NoOffers(g);
    if item.policy.selectorValid {
      var offers := PodOffers(g0, source, pods, item.policy.selected, "applies-to", SelectorField);
      PodEdgesAreOffers(g0, g, source, pods, item.policy.selected, "applies-to", SelectorField);
      var g1 := PodEdges(g, source, pods, item.policy.selected, "applies-to", SelectorField).0;
      var e := EdgeSpec("applies-to", source, NamespaceId(g0, item.namespace), SelectorField, "observed");
      OneMore(g, offers, Offer(None, false, e));
      EdgeKeepsBase(g0, g1, e);
      assert offers + [] == offers;
    }
  }

  lemma PolicyIsOffers(g0: Graph, g: Graph, seen: set<string>, pods: seq<Item>, item: Item)
    requires Inv(g) && SameBase(g0, g)
    ensures var id := SourceId(g, "NetworkPolicy", item); var (g', seen') := AddPolicy(g, seen, pods, item);
            if Claims(g, id, seen) then g' == AddOffers(g, PolicyOffers(g0, pods, item)) && seen' == seen + {id} else g' == g && seen' == seen
  {
    hide Inv, AddAppliesTo, AddPeers, SelectorOffers, PeersOffers, AddOffers, AddPolicy, SourceId, Claims;
    var id := SourceId(g, "NetworkPolicy", item);
    SourceSame(g0, g, "NetworkPolicy", item);
    PolicyInHalves(g, seen, pods, item);
    SelectorIsOffers(g0, g, id, pods, item);
    var g2 := AddAppliesTo(g, id, pods, item);
    OffersKeepInv(g, SelectorOffers(g0, id, pods, item));
    PeersAreOffers(g0, g2, id, pods, item.policy.peers);
    AddOffersAppend(g, SelectorOffers(g0, id, pods, item), PeersOffers(g0, id, pods, item.policy.peers));
  }

  lemma OffersKeepInv(g: Graph, offers: seq<Offer>)
    requires Inv(g)
    ensures OnlyReferences(g, AddOffers(g, offers))
  {
    hide Inv, AddOffers, There, Offered, OffersEdge;
    OffersBecomeEdges(g, offers);
  }

  /** The positions of the items of a list that claim their node in a pass of its own. */
  function ClaimedAlone(g0: Graph, kind: string, items: seq<Item>): set<int> {
    set i | 0 <= i < |items| && ClaimsAt(g0, {}, kind, items, i)
  }

  function PoliciesOffers(g0: Graph, pods: seq<Item>, items: seq<Item>, claimed: set<int>): seq<Offer> {
    if items == [] then []
    else
      var n := |items| - 1;
      PoliciesOffers(g0, pods, items[..n], claimed) + if n in claimed then PolicyOffers(g0, pods, items[n]) else []
  }

  /** The loop over the policies makes the offers of those that claim their node. */
  lemma {:induction false} PoliciesAreOffers(g0: Graph, g: Graph, pods: seq<Item>, items: seq<Item>, claimed: set<int>)
    requires Inv(g) && SameBase(g0, g) && forall i :: 0 <= i < |items| ==> (i in claimed <==> ClaimsAt(g0, {}, "NetworkPolicy", items, i))
    ensures var (g', seen) := AddPolicies(g, pods, items);
            && g' == AddOffers(g, PoliciesOffers(g0, pods, items, claimed))
            && forall id :: id in seen <==> Tracked(g0, id) && Passed(g0, "NetworkPolicy", items, id)
  {
    hide Inv, AddPolicy, PolicyOffers, SourceId, AddOffers, ClaimsAt, Passed;
    if items == [] {
      NoOffers(g);
      NonePassed(g0, "NetworkPolicy");
    } else {
      var n := |items| - 1;
      ClaimsAtPrefix(g0, {}, "NetworkPolicy", items);
      PoliciesAreOffers(g0, g, pods, items[..n], claimed);
      PoliciesOnly(g, pods, items[..n]);
      var (g1, seen) := AddPolicies(g, pods, items[..n]);
      PolicyIsOffers(g0, g1, seen, pods, items[n]);
      SourceSame(g0, g1, "NetworkPolicy", items[n]);
      PassedOneMore(g0, "NetworkPolicy", items);
      ClaimsByPassed(g0, "NetworkPolicy", items);
      AddOffersAppend(g, PoliciesOffers(g0, pods, items[..n], claimed), PolicyOffers(g0, pods, items[n]));
      assert PoliciesOffers(g0, pods, items[..n], claimed) + [] == PoliciesOffers(g0, pods, items[..n], claimed);
    }
  }

  lemma NonePassed(g0: Graph, kind: string)
    ensures forall id :: !Passed(g0, kind, [], id)
  {
  }

  lemma ClaimsByPassed(g0: Graph, kind: string, items: seq<Item>)
    requires items != []
    ensures var n := |items| - 1; var id := SourceId(g0, kind, items[n]);
            ClaimsAt(g0, {}, kind, items, n) <==> Tracked(g0, id) && !Passed(g0, kind, items[..n], id)
  {
    hide SourceId, Tracked;
    var n := |items| - 1;
    var id := SourceId(g0, kind, items[n]);
    assert forall j :: 0 <= j < n ==> items[..n][j] == items[j];
    if j :| 0 <= j < n && SourceId(g0, kind, items[j]) == id {
      assert SourceId(g0, kind, items[..n][j]) == id;
    }
  }

  // ----- the whole of phase two -----

  function EndpointOffer(clusterId: string, e: Endpoint): Offer {
    Offer(None, false, EdgeSpec("service-endpoint", NodeId(clusterId, "Service", e.namespace, e.service), NodeId(clusterId, "Pod", e.namespace, e.pod), e.sourceField, e.confidence))
  }

  function EndpointOffers(clusterId: string, endpoints: seq<Endpoint>): seq<Offer> {
    seq(|endpoints|, k requires 0 <= k < |endpoints| => EndpointOffer(clusterId, endpoints[k]))
  }

  lemma {:induction false} EndpointsAreOffers(g: Graph, endpoints: seq<Endpoint>)
    requires Inv(g)
    ensures AddEndpoints(g, endpoints) == AddOffers(g, EndpointOffers(g.clusterId, endpoints))
  {
    hide Inv, NodeId, AddEdge;
    if endpoints != [] {
      var n := |endpoints| - 1;
      EndpointsAreOffers(g, endpoints[..n]);
      EndpointsOnly(g, endpoints[..n]);
      assert EndpointOffers(g.clusterId, endpoints)[..n] == EndpointOffers(g.clusterId, endpoints[..n]);
    }
  }

  /** Everything that phase two offers, in order: what each claiming item offers in each pass, then each claiming
      policy, then the observed endpoints. */
  function PhaseTwoOffers(g: Graph, r: Resources): seq<Offer> {
    PassesOffers(g, r, EdgePasses)
    + PoliciesOffers(g, List(r, "Pod"), List(r, "NetworkPolicy"), ClaimedAlone(g, "NetworkPolicy", List(r, "NetworkPolicy")))
    + EndpointOffers(g.clusterId, r.endpoints)
  }

  lemma PhaseTwoIsOffers(g: Graph, r: Resources)
    requires Inv(g)
    ensures PhaseTwo(g, r) == AddOffers(g, PhaseTwoOffers(g, r))
  {
    hide Inv, RunPasses, AddPolicies, AddEndpoints, List, PassesOffers, PoliciesOffers, EndpointOffers, AddOffers, EdgePasses, ClaimsAt;
    var pods, policies := List(r, "Pod"), List(r, "NetworkPolicy");
    var passes := PassesOffers(g, r, EdgePasses);
    var claimed := ClaimedAlone(g, "NetworkPolicy", policies);
    PassesAreOffers(g, r, EdgePasses);
    RunPassesOnly(g, r, EdgePasses);
    var g1 := RunPasses(g, r, EdgePasses);
    PoliciesAreOffers(g, g1, pods, policies, claimed);
    PoliciesOnly(g1, pods, policies);
    var g2 := AddPolicies(g1, pods, policies).0;
    EndpointsAreOffers(g2, r.endpoints);
    AddOffersAppend(g, passes, PoliciesOffers(g, pods, policies, claimed));
    AddOffersAppend(g, passes + PoliciesOffers(g, pods, policies, claimed), EndpointOffers(g.clusterId, r.endpoints));
  }

  // ----- what is offered -----

  lemma {:induction false} ItemsOffersAre(clusterId: string, pass: Pass, kind: string, items: seq<Item>, claimed: set<int>, o: Offer)
    ensures o in ItemsOffers(clusterId, pass, kind, items, claimed)
            <==> exists i :: 0 <= i < |items| && i in claimed && o in ItemOffers(clusterId, pass, kind, items[i])
  {
    hide ItemOffers;
    if items != [] {
      var n := |items| - 1;
      ItemsOffersAre(clusterId, pass, kind, items[..n], claimed, o);
      assert forall i :: 0 <= i < n ==> items[..n][i] == items[i];
      if i :| 0 <= i < n && i in claimed && o in ItemOffers(clusterId, pass, kind, items[..n][i]) {
        assert o in ItemOffers(clusterId, pass, kind, items[i]);
      }
      if i :| 0 <= i < |items| && i in claimed && o in ItemOffers(clusterId, pass, kind, items[i]) {
        assert i < n ==> o in ItemOffers(clusterId, pass, kind, items[..n][i]);
      }
    }
  }

  /** Item i of list n claims its node in a pass over several lists, and makes this offer. */
  predicate ClaimantOffers(g: Graph, r: Resources, pass: Pass, kinds: seq<string>, n: int, i: int, o: Offer) {
    && 0 <= n < |kinds| && 0 <= i < |List(r, kinds[n])| && ClaimsIn(g, r, kinds, n, i)
    && o in ItemOffers(g.clusterId, pass, kinds[n], List(r, kinds[n])[i])
  }

  lemma ClaimantPrefix(g: Graph, r: Resources, pass: Pass, kinds: seq<string>, m: int, i: int, o: Offer)
    requires kinds != [] && m < |kinds| - 1
    ensures ClaimantOffers(g, r, pass, kinds[..|kinds| - 1], m, i, o) <==> ClaimantOffers(g, r, pass, kinds, m, i, o)
  {
    hide ItemOffers, List, SourceId, Passed, Tracked;
    assert forall k :: 0 <= k < |kinds| - 1 ==> kinds[..|kinds| - 1][k] == kinds[k];
  }

  lemma {:induction false} KindsOffersAre(g: Graph, r: Resources, pass: Pass, kinds: seq<string>, o: Offer)
    ensures o in KindsOffers(g, r, pass, kinds) <==> exists n, i :: ClaimantOffers(g, r, pass, kinds, n, i, o)
  {
    if kinds != [] {
      var n := |kinds| - 1;
      KindsOffersAre(g, r, pass, kinds[..n], o);
      LastKindOffers(g, r, pass, kinds, o);
      LongerKinds(g, r, pass, kinds, o);
      hide ClaimantOffers, ItemsOffers, ClaimedIn, List;
    } else {
      hide ItemOffers;
    }
  }

  lemma LastKindOffers(g: Graph, r: Resources, pass: Pass, kinds: seq<string>, o: Offer)
    requires kinds != []
    ensures var n := |kinds| - 1;
            o in ItemsOffers(g.clusterId, pass, kinds[n], List(r, kinds[n]), ClaimedIn(g, r, kinds, n)) <==> exists i :: ClaimantOffers(g, r, pass, kinds, n, i, o)
  {
    hide ItemsOffers, ItemOffers, ClaimsIn, List;
    var n := |kinds| - 1;
    ItemsOffersAre(g.clusterId, pass, kinds[n], List(r, kinds[n]), ClaimedIn(g, r, kinds, n), o);
    if i :| 0 <= i < |List(r, kinds[n])| && i in ClaimedIn(g, r, kinds, n) && o in ItemOffers(g.clusterId, pass, kinds[n], List(r, kinds[n])[i]) {
      assert ClaimantOffers(g, r, pass, kinds, n, i, o);
    }
  }

  lemma LongerKinds(g: Graph, r: Resources, pass: Pass, kinds: seq<string>, o: Offer)
    requires kinds != []
    ensures var n := |kinds| - 1;
            (exists m, i :: ClaimantOffers(g, r, pass, kinds, m, i, o)) <==>
            (exists m, i :: ClaimantOffers(g, r, pass, kinds[..n], m, i, o)) || (exists i :: ClaimantOffers(g, r, pass, kinds, n, i, o))
  {
    hide ItemOffers, ClaimsIn, List;
    var n := |kinds| - 1;
    if m, i :| ClaimantOffers(g, r, pass, kinds[..n], m, i, o) {
      ClaimantPrefix(g, r, pass, kinds, m, i, o);
    }
    if m, i :| ClaimantOffers(g, r, pass, kinds, m, i, o) {
      if m < n {
        ClaimantPrefix(g, r, pass, kinds, m, i, o);
        assert ClaimantOffers(g, r, pass, kinds[..n], m, i, o);
      } else {
        assert m == n;
      }
    }
  }

  lemma {:induction false} PassesOffersAre(g: Graph, r: Resources, passes: seq<(Pass, seq<string>)>, o: Offer)
    ensures o in PassesOffers(g, r, passes) <==> exists p :: 0 <= p < |passes| && o in KindsOffers(g, r, passes[p].0, passes[p].1)
  {
    hide KindsOffers;
    if passes != [] {
      var n := |passes| - 1;
      PassesOffersAre(g, r, passes[..n], o);
      assert forall p :: 0 <= p < n ==> passes[..n][p] == passes[p];
      if p :| 0 <= p < n && o in KindsOffers(g, r, passes[..n][p].0, passes[..n][p].1) {
        assert o in KindsOffers(g, r, passes[p].0, passes[p].1);
      }
      if p :| 0 <= p < |passes| && o in KindsOffers(g, r, passes[p].0, passes[p].1) {
        assert p < n ==> o in KindsOffers(g, r, passes[..n][p].0, passes[..n][p].1);
      }
    }
  }

  lemma {:induction false} PoliciesOffersAre(g: Graph, pods: seq<Item>, items: seq<Item>, claimed: set<int>, o: Offer)
    ensures o in PoliciesOffers(g, pods, items, claimed) <==> exists i :: 0 <= i < |items| && i in claimed && o in PolicyOffers(g, pods, items[i])
  {
    hide PolicyOffers;
    if items != [] {
      var n := |items| - 1;
      PoliciesOffersAre(g, pods, items[..n], claimed, o);
      assert forall i :: 0 <= i < n ==> items[..n][i] == items[i];
      if i :| 0 <= i < n && i in claimed && o in PolicyOffers(g, pods, items[..n][i]) {
        assert o in PolicyOffers(g, pods, items[i]);
      }
      if i :| 0 <= i < |items| && i in claimed && o in PolicyOffers(g, pods, items[i]) {
        assert i < n ==> o in PolicyOffers(g, pods, items[..n][i]);
      }
    }
  }

  predicate PolicyOffersIt(g: Graph, r: Resources, i: int, o: Offer) {
    && 0 <= i < |List(r, "NetworkPolicy")| && ClaimsAt(g, {}, "NetworkPolicy", List(r, "NetworkPolicy"), i)
    && o in PolicyOffers(g, List(r, "Pod"), List(r, "NetworkPolicy")[i])
  }

  predicate PassOffersIt(g: Graph, r: Resources, p: int, n: int, i: int, o: Offer) {
    0 <= p < |EdgePasses| && ClaimantOffers(g, r, EdgePasses[p].0, EdgePasses[p].1, n, i, o)
  }

  /** Phase two offers what the claiming items of each pass offer, what the claiming policies offer, and the observed
      endpoints. */
  lemma OffersAre(g: Graph, r: Resources, o: Offer)
    ensures o in PhaseTwoOffers(g, r) <==>
            || (exists p, n, i :: PassOffersIt(g, r, p, n, i, o))
            || (exists i :: PolicyOffersIt(g, r, i, o))
            || (exists k :: 0 <= k < |r.endpoints| && o == EndpointOffer(g.clusterId, r.endpoints[k]))
  {
    hide PolicyOffersIt, PassOffersIt, PoliciesOffers, PassesOffers, EdgePasses, ClaimedAlone, EndpointOffer, List;
    var policies := PoliciesOffers(g, List(r, "Pod"), List(r, "NetworkPolicy"), ClaimedAlone(g, "NetworkPolicy", List(r, "NetworkPolicy")));
    assert o in PhaseTwoOffers(g, r) <==> o in PassesOffers(g, r, EdgePasses) || o in policies || o in EndpointOffers(g.clusterId, r.endpoints);
    PassOffersAre(g, r, o);
    PolicyOffersAre(g, r, o);
    if k :| 0 <= k < |r.endpoints| && o == EndpointOffer(g.clusterId, r.endpoints[k]) {
      assert EndpointOffers(g.clusterId, r.endpoints)[k] == o;
    }
  }

  lemma PassOffersAre(g: Graph, r: Resources, o: Offer)
    ensures o in PassesOffers(g, r, EdgePasses) <==> exists p, n, i :: PassOffersIt(g, r, p, n, i, o)
  {
    hide ClaimantOffers, PassesOffers, KindsOffers, EdgePasses;
    PassesOffersAre(g, r, EdgePasses, o);
    forall p | 0 <= p < |EdgePasses|
      ensures o in KindsOffers(g, r, EdgePasses[p].0, EdgePasses[p].1) <==> exists n, i :: PassOffersIt(g, r, p, n, i, o)
    {
      KindsOffersAre(g, r, EdgePasses[p].0, EdgePasses[p].1, o);
      if n, i :| ClaimantOffers(g, r, EdgePasses[p].0, EdgePasses[p].1, n, i, o) {
        assert PassOffersIt(g, r, p, n, i, o);
      }
    }
    if p, n, i :| PassOffersIt(g, r, p, n, i, o) {
      assert o in KindsOffers(g, r, EdgePasses[p].0, EdgePasses[p].1);
    }
  }

  lemma PolicyOffersAre(g: Graph, r: Resources, o: Offer)
    ensures o in PoliciesOffers(g, List(r, "Pod"), List(r, "NetworkPolicy"), ClaimedAlone(g, "NetworkPolicy", List(r, "NetworkPolicy")))
            <==> exists i :: PolicyOffersIt(g, r, i, o)
  {
    hide PolicyOffers, PoliciesOffers, List, ClaimsAt;
    var policies := List(r, "NetworkPolicy");
    var claimed := ClaimedAlone(g, "NetworkPolicy", policies);
    PoliciesOffersAre(g, List(r, "Pod"), policies, claimed, o);
    if i :| 0 <= i < |policies| && i in claimed && o in PolicyOffers(g, List(r, "Pod"), policies[i]) {
      assert PolicyOffersIt(g, r, i, o);
    }
    if i :| PolicyOffersIt(g, r, i, o) {
      assert i in claimed;
    }
  }

  // ----- the finished snapshot -----

  /** A snapshot's edges are those of phase one, and the offers that stand when phase two makes them; and no others. */
  lemma EdgesAre(r: Resources, clusterSummary: string)
    ensures var g, g1 := Assemble(r, clusterSummary), PhaseOne(r);
            var offers := PhaseTwoOffers(g1, r);
            && (forall id :: id in g.edgeSet <==> (exists e :: ParentEdge(r, e) && IdOf(e) == id) || Offered(g1, offers, id))
            && (forall k :: 0 <= k < |g.edges| ==> ParentEdge(r, SpecOf(g.edges[k])) || OffersEdge(g1, offers, SpecOf(g.edges[k])))
  {
    hide *;
    var g1 := PhaseOne(r);
    PhaseOneRefines(r);
    PhaseOneEdges(r);
    PhaseTwoEdges(g1, r);
    SummaryKeepsEdges(r, clusterSummary);
    var g2 := PhaseTwo(g1, r);
    assert forall k :: 0 <= k < |g1.edges| ==> g2.edges[k] == g1.edges[k];
  }

  lemma PhaseTwoEdges(g: Graph, r: Resources)
    requires Inv(g)
    ensures var g', offers := PhaseTwo(g, r), PhaseTwoOffers(g, r);
            && g.edges <= g'.edges
            && (forall id :: id in g'.edgeSet <==> id in g.edgeSet || Offered(g, offers, id))
            && (forall k :: |g.edges| <= k < |g'.edges| ==> OffersEdge(g, offers, SpecOf(g'.edges[k])))
  {
    hide Inv, Offered, OffersEdge, SpecOf, PhaseTwo, PhaseTwoOffers, AddOffers, There, IsReference;
    PhaseTwoIsOffers(g, r);
    OffersBecomeEdges(g, PhaseTwoOffers(g, r));
  }

  lemma SummaryKeepsEdges(r: Resources, clusterSummary: string)
    ensures var g, g' := PhaseTwo(PhaseOne(r), r), Assemble(r, clusterSummary);
            g'.edges == g.edges && g'.edgeSet == g.edgeSet
  {
    hide PhaseOne, PhaseTwo, ReplaceFirst;
  }

  /** An offer that stands whatever else is offered. */
  predicate Sure(g: Graph, o: Offer) {
    && ValidEdgeMetadata(o.edge.edgeType, o.edge.sourceField, o.edge.confidence)
    && o.edge.source in g.nodeSet && (o.edge.target in g.nodeSet || Makes(g, o, o.edge.target))
    && (o.listed ==> o.edge.target in g.resourceNodeSet)
  }

  lemma SureStands(g: Graph, offers: seq<Offer>, o: Offer)
    requires o in offers && Sure(g, o)
    ensures OffersEdge(g, offers, o.edge)
  {
    hide Makes, ValidEdgeMetadata;
    var p :| 0 <= p < |offers| && offers[p] == o;
    assert offers[..p + 1][p] == o;
    assert Stands(g, offers, p);
  }
}
