/** Which pods and namespaces a network policy selects, and the edges that this gives in the graph. */
module NetworkPolicies {
  import opened Text
  import opened Names
  import opened Dedup
  import opened StringSets
  import opened LabelSelectors
  import opened GraphBuilding
  import opened Assembly
  import opened AssemblyEdges

  /** `ipBlock` tells, for a peer that has one, whether its ranges parse. */
  datatype PolicyPeer = PolicyPeer(ipBlock: Option<bool>, podSelector: Option<LabelSelector>, namespaceSelector: Option<LabelSelector>)

  predicate ValidPeer(p: PolicyPeer) {
    if p.ipBlock.Some? then p.podSelector.None? && p.namespaceSelector.None? && p.ipBlock.value
    else (p.podSelector.Some? ==> ValidSelector(p.podSelector.value)) && (p.namespaceSelector.Some? ==> ValidSelector(p.namespaceSelector.value))
  }

  // ----- namespaces -----

  datatype Namespace = Namespace(name: string, labels: map<string, string>)

  function NamespaceKey(n: Namespace): Option<string> {
    if ValidNamespace(n.name) then Some(n.name) else None
  }

  method NamespaceRecords(namespaces: seq<Namespace>) returns (records: seq<Namespace>)
    ensures records == Firsts(NamespaceKey, namespaces)
  {
    hide Seen, ValidNamespace;
    records := [];
    var seen: set<string> := {};
    EmptySeen(NamespaceKey);
    assert namespaces[..0] == [];
    for i := 0 to |namespaces|
      invariant records == Firsts(NamespaceKey, namespaces[..i])
      invariant forall k :: k in seen <==> Seen(NamespaceKey, namespaces[..i], k)
    {
      var upTo := namespaces[..i + 1];
      assert upTo[..i] == namespaces[..i] && upTo[i] == namespaces[i];
      SeenStep(NamespaceKey, upTo);
      assert records + [] == records;
      if !ValidNamespace(namespaces[i].name) {
        continue;
      }
      FirstIsUnseen(NamespaceKey, upTo);
      if namespaces[i].name in seen {
        continue;
      }
      seen := seen + {namespaces[i].name};
      records := records + [namespaces[i]];
    }
    assert namespaces[..|namespaces|] == namespaces;
  }

  function MatchingNamespaces(records: seq<Namespace>, policyNamespace: string, selector: Option<LabelSelector>): set<string> {
    if selector.None? then {policyNamespace}
    else set n | n in records && Matches(selector, n.labels) :: n.name
  }

  method FindMatchingNamespaces(records: seq<Namespace>, policyNamespace: string, selector: Option<LabelSelector>) returns (names: set<string>)
    ensures names == MatchingNamespaces(records, policyNamespace, selector)
  {
    hide Matches;
    if selector.None? {
      return {policyNamespace};
    }
    names := {};
    for i := 0 to |records|
      invariant names == MatchingNamespaces(records[..i], policyNamespace, selector)
    {
      assert records[..i + 1] == records[..i] + [records[i]];
      var ok := CheckSelector(selector, records[i].labels);
      if ok {
        names := names + {records[i].name};
      }
    }
    assert records[..|records|] == records;
  }

  /** A namespace matches by the labels of the first valid record of its name. */
  lemma MatchingIsByFirstRecord(namespaces: seq<Namespace>, policyNamespace: string, selector: LabelSelector, i: nat)
    requires i < |namespaces| && IsFirst(NamespaceKey, namespaces, i)
    ensures namespaces[i].name in MatchingNamespaces(Firsts(NamespaceKey, namespaces), policyNamespace, Some(selector))
            <==> Matches(Some(selector), namespaces[i].labels)
  {
    hide Matches, ValidNamespace;
    var records := Firsts(NamespaceKey, namespaces);
    FirstsKeys(NamespaceKey, namespaces);
    FirstIsKept(NamespaceKey, namespaces, namespaces[i]);
    assert NamespaceKey(namespaces[i]) == Some(namespaces[i].name);
    forall n | n in records && n.name == namespaces[i].name
      ensures n == namespaces[i]
    {
      assert NamespaceKey(n) == Some(n.name);
      var j :| 0 <= j < |records| && records[j] == n;
      var k :| 0 <= k < |records| && records[k] == namespaces[i];
      assert j == k;
    }
  }

  // ----- what a policy selects -----

  /** The positions of the pods in some namespaces that a selector matches. */
  function Selected(pods: seq<Item>, namespaces: set<string>, selector: Option<LabelSelector>): set<nat> {
    set i: nat | i < |pods| && pods[i].namespace in namespaces && Matches(selector, pods[i].labels)
  }

  /** What one peer stands for; none if it is invalid, an address range or empty. */
  ghost predicate PeerStandsFor(peer: PolicyPeer, records: seq<Namespace>, pods: seq<Item>, policyNamespace: string, result: Option<Peer>) {
    var names := MatchingNamespaces(records, policyNamespace, peer.namespaceSelector);
    if !ValidPeer(peer) || (peer.podSelector.None? && peer.namespaceSelector.None?) then result == None
    else if peer.podSelector.Some? then result == Some(PodPeer(Selected(pods, names, peer.podSelector)))
    else result.Some? && result.value.NamespacePeer? && IsSortedSet(result.value.names, names)
  }

  method AnalyzePeer(peer: PolicyPeer, records: seq<Namespace>, pods: seq<Item>, policyNamespace: string) returns (result: Option<Peer>)
    ensures PeerStandsFor(peer, records, pods, policyNamespace, result)
  {
    hide Matches, MatchingNamespaces, ValidSelector;
    if !ValidPeer(peer) || (peer.podSelector.None? && peer.namespaceSelector.None?) {
      return None;
    }
    var names := FindMatchingNamespaces(records, policyNamespace, peer.namespaceSelector);
    if peer.podSelector.None? {
      var sorted := SortedStringSet(names);
      return Some(NamespacePeer(sorted));
    }
    var selected: set<nat> := {};
    for i := 0 to |pods|
      invariant selected == Selected(pods[..i], names, peer.podSelector)
    {
      assert forall j :: 0 <= j < i ==> pods[..i + 1][j] == pods[..i][j];
      var ok := false;
      if pods[i].namespace in names {
        ok := CheckSelector(peer.podSelector, pods[i].labels);
      }
      if ok {
        selected := selected + {i};
      }
    }
    assert pods[..|pods|] == pods;
    return Some(PodPeer(selected));
  }

  // ----- the edges -----

  predicate SameNodes(g: Graph, g': Graph) {
    g'.clusterId == g.clusterId && g'.nodeSet == g.nodeSet && g'.resourceNodeSet == g.resourceNodeSet
  }

  function PodId(g: Graph, pod: Item): string { NodeId(g.clusterId, "Pod", pod.namespace, pod.name) }

  /** A pod that is tracked and the first of the list with its id: the one whose labels are looked at. */
  predicate FirstTracked(g: Graph, pods: seq<Item>, i: nat)
    requires i < |pods|
  {
    PodId(g, pods[i]) in g.resourceNodeSet && forall j :: 0 <= j < i ==> PodId(g, pods[j]) != PodId(g, pods[i])
  }

  /** The ids of the edges from a policy to the pods at the selected positions. */
  function PodEdgeIds(g: Graph, source: string, pods: seq<Item>, selected: set<nat>, edgeType: string, sourceField: string): set<string> {
    set i: nat | i < |pods| && i in selected && FirstTracked(g, pods, i) :: EdgeId(source, PodId(g, pods[i]), edgeType, sourceField)
  }

  lemma AddedEdge(g: Graph, e: EdgeSpec)
    requires e.source in g.nodeSet && e.target in g.nodeSet && e.source != "" && e.target != ""
    requires ValidEdgeMetadata(e.edgeType, e.sourceField, e.confidence)
    ensures var g' := AddEdge(g, e).0;
            SameNodes(g, g') && g'.edgeSet == g.edgeSet + {EdgeId(e.source, e.target, e.edgeType, e.sourceField)}
  {
    hide ValidEdgeMetadata, EdgeId;
  }

  lemma PodIdNonEmpty(g: Graph, pod: Item)
    ensures PodId(g, pod) != ""
  {
    NodeIdNonEmpty(g.clusterId, "Pod", pod.namespace, pod.name);
  }

  /** Passing over the pods adds exactly the edges to the selected pods, and sees exactly the tracked ones. */
  lemma {:induction false} PodEdgesAre(g: Graph, source: string, pods: seq<Item>, selected: set<nat>, edgeType: string, sourceField: string)
    requires source in g.nodeSet && source != "" && ValidEdgeMetadata(edgeType, sourceField, "inferred")
    requires g.resourceNodeSet <= g.nodeSet
    ensures var (g', seen, matches) := PodEdges(g, source, pods, selected, edgeType, sourceField);
            && SameNodes(g, g')
            && g'.edgeSet == g.edgeSet + PodEdgeIds(g, source, pods, selected, edgeType, sourceField)
            && (forall id :: id in seen <==> id in g.resourceNodeSet && exists j :: 0 <= j < |pods| && PodId(g, pods[j]) == id)
            && (matches == 0 <==> forall i: nat :: i < |pods| && i in selected ==> !FirstTracked(g, pods, i))
  {
    hide ValidEdgeMetadata, EdgeId, NodeId, AddEdge, PodEdgeIds, FirstTracked;
    if pods == [] {
      NoPodEdges(g, source, selected, edgeType, sourceField);
    } else {
      var n := |pods| - 1;
      var (g1, seen, matches) := PodEdges(g, source, pods[..n], selected, edgeType, sourceField);
      PodEdgesAre(g, source, pods[..n], selected, edgeType, sourceField);
      FirstTrackedPrefix(g, pods);
      PodIdNonEmpty(g, pods[n]);
      ClaimsFirst(g, g1, pods, pods[..n], seen);
      PodEdgeIdsStep(g, source, pods, selected, edgeType, sourceField);
      if FirstTracked(g, pods, n) && n in selected {
        AddedEdge(g1, EdgeSpec(edgeType, source, PodId(g, pods[n]), sourceField, "inferred"));
      }
    }
  }

  lemma NoPodEdges(g: Graph, source: string, selected: set<nat>, edgeType: string, sourceField: string)
    ensures PodEdgeIds(g, source, [], selected, edgeType, sourceField) == {}
  {
  }

  lemma FirstTrackedPrefix(g: Graph, pods: seq<Item>)
    requires pods != []
    ensures forall i: nat :: i < |pods| - 1 ==> pods[..|pods| - 1][i] == pods[i]
    ensures forall i: nat :: i < |pods| - 1 ==> (FirstTracked(g, pods, i) <==> FirstTracked(g, pods[..|pods| - 1], i))
  {
    hide NodeId;
  }

  lemma ClaimsFirst(g: Graph, g1: Graph, pods: seq<Item>, before: seq<Item>, seen: set<string>)
    requires pods != [] && before == pods[..|pods| - 1] && SameNodes(g, g1)
    requires forall id :: id in seen <==> id in g.resourceNodeSet && exists j :: 0 <= j < |before| && PodId(g, before[j]) == id
    ensures Claims(g1, PodId(g, pods[|pods| - 1]), seen) <==> FirstTracked(g, pods, |pods| - 1)
  {
    hide NodeId;
    PodIdNonEmpty(g, pods[|pods| - 1]);
    assert forall j :: 0 <= j < |before| ==> before[j] == pods[j];
  }

  lemma PodEdgeIdsStep(g: Graph, source: string, pods: seq<Item>, selected: set<nat>, edgeType: string, sourceField: string)
    requires pods != []
    ensures var n := |pods| - 1;
            PodEdgeIds(g, source, pods, selected, edgeType, sourceField) == PodEdgeIds(g, source, pods[..n], selected, edgeType, sourceField)
              + if n in selected && FirstTracked(g, pods, n) then {EdgeId(source, PodId(g, pods[n]), edgeType, sourceField)} else {}
  {
    hide EdgeId, NodeId;
    var n := |pods| - 1;
    assert forall j :: 0 <= j < n ==> pods[..n][j] == pods[j];
    assert forall i: nat :: i < n ==> (FirstTracked(g, pods, i) <==> FirstTracked(g, pods[..n], i));
  }

  function NamespaceId(g: Graph, name: string): string { NodeId(g.clusterId, "Namespace", "", name) }

  function NamespaceEdgeIds(g: Graph, source: string, names: seq<string>, edgeType: string, sourceField: string): set<string> {
    set name | name in names && NamespaceId(g, name) in g.resourceNodeSet :: EdgeId(source, NamespaceId(g, name), edgeType, sourceField)
  }

  lemma {:induction false} NamespaceEdgesAre(g: Graph, source: string, names: seq<string>, edgeType: string, sourceField: string)
    requires source in g.nodeSet && source != "" && ValidEdgeMetadata(edgeType, sourceField, "inferred")
    requires g.resourceNodeSet <= g.nodeSet
    ensures var g' := AddLinks(g, source, NamespaceLinks(names, edgeType, sourceField));
            SameNodes(g, g') && g'.edgeSet == g.edgeSet + NamespaceEdgeIds(g, source, names, edgeType, sourceField)
  {
    hide ValidEdgeMetadata, EdgeId, NodeId, AddEdge;
    var links := NamespaceLinks(names, edgeType, sourceField);
    if names != [] {
      var n := |names| - 1;
      assert links[..n] == NamespaceLinks(names[..n], edgeType, sourceField);
      NamespaceEdgesAre(g, source, names[..n], edgeType, sourceField);
      assert names == names[..n] + [names[n]];
      var g1 := AddLinks(g, source, links[..n]);
      NodeIdNonEmpty(g.clusterId, "Namespace", "", names[n]);
      if NamespaceId(g, names[n]) in g.resourceNodeSet {
        AddedEdge(g1, EdgeSpec(edgeType, source, NamespaceId(g, names[n]), sourceField, "inferred"));
      }
    }
  }

  function RuleEdgeIds(g: Graph, source: string, pods: seq<Item>, rule: PeerRule): set<string> {
    match rule.peer
    case PodPeer(selected) => PodEdgeIds(g, source, pods, selected, rule.edgeType, rule.sourceField)
    case NamespacePeer(names) => NamespaceEdgeIds(g, source, names, rule.edgeType, rule.sourceField)
  }

  function RulesEdgeIds(g: Graph, source: string, pods: seq<Item>, rules: seq<PeerRule>): set<string> {
    set k: nat, id | k < |rules| && id in RuleEdgeIds(g, source, pods, rules[k]) :: id
  }

  predicate PlainRules(rules: seq<PeerRule>) {
    forall k :: 0 <= k < |rules| ==> ValidEdgeMetadata(rules[k].edgeType, rules[k].sourceField, "inferred")
  }

  lemma {:induction false} RuleEdgesAre(g: Graph, source: string, pods: seq<Item>, rules: seq<PeerRule>)
    requires source in g.nodeSet && source != "" && PlainRules(rules) && g.resourceNodeSet <= g.nodeSet
    ensures var g' := AddPeers(g, source, pods, rules);
            SameNodes(g, g') && g'.edgeSet == g.edgeSet + RulesEdgeIds(g, source, pods, rules)
  {
    hide ValidEdgeMetadata, PodEdges, AddLinks, PodEdgeIds, NamespaceEdgeIds;
    if rules != [] {
      var n := |rules| - 1;
      RuleEdgesAre(g, source, pods, rules[..n]);
      var g1 := AddPeers(g, source, pods, rules[..n]);
      var rule := rules[n];
      match rule.peer {
        case PodPeer(selected) =>
          PodEdgesAre(g1, source, pods, selected, rule.edgeType, rule.sourceField);
          SamePodEdges(g, g1, source, pods, selected, rule.edgeType, rule.sourceField);
        case NamespacePeer(names) =>
          NamespaceEdgesAre(g1, source, names, rule.edgeType, rule.sourceField);
          SameNamespaceEdges(g, g1, source, names, rule.edgeType, rule.sourceField);
      }
      RulesStep(g, source, pods, rules);
    }
  }

  lemma SamePodEdges(g: Graph, g': Graph, source: string, pods: seq<Item>, selected: set<nat>, edgeType: string, sourceField: string)
    requires SameNodes(g, g')
    ensures PodEdgeIds(g, source, pods, selected, edgeType, sourceField) == PodEdgeIds(g', source, pods, selected, edgeType, sourceField)
  {
    hide NodeId, EdgeId;
    assert forall i: nat :: i < |pods| ==> PodId(g, pods[i]) == PodId(g', pods[i]);
    assert forall i: nat :: i < |pods| ==> (FirstTracked(g, pods, i) <==> FirstTracked(g', pods, i));
  }

  lemma SameNamespaceEdges(g: Graph, g': Graph, source: string, names: seq<string>, edgeType: string, sourceField: string)
    requires SameNodes(g, g')
    ensures NamespaceEdgeIds(g, source, names, edgeType, sourceField) == NamespaceEdgeIds(g', source, names, edgeType, sourceField)
  {
    hide NodeId, EdgeId;
  }

  lemma RulesStep(g: Graph, source: string, pods: seq<Item>, rules: seq<PeerRule>)
    requires rules != []
    ensures RulesEdgeIds(g, source, pods, rules) == RulesEdgeIds(g, source, pods, rules[..|rules| - 1]) + RuleEdgeIds(g, source, pods, rules[|rules| - 1])
  {
    hide RuleEdgeIds;
    var n := |rules| - 1;
    assert forall k: nat :: k < n ==> rules[..n][k] == rules[k];
    forall id
      ensures id in RulesEdgeIds(g, source, pods, rules) <==> id in RulesEdgeIds(g, source, pods, rules[..n]) || id in RuleEdgeIds(g, source, pods, rules[n])
    {
      if id in RulesEdgeIds(g, source, pods, rules) {
        var k: nat :| k < |rules| && id in RuleEdgeIds(g, source, pods, rules[k]);
        if k < n {
          assert id in RuleEdgeIds(g, source, pods, rules[..n][k]);
        }
      }
      if id in RulesEdgeIds(g, source, pods, rules[..n]) {
        var k: nat :| k < n && id in RuleEdgeIds(g, source, pods, rules[..n][k]);
        assert id in RuleEdgeIds(g, source, pods, rules[k]);
      }
    }
  }

  const SelectorField := "NetworkPolicy.spec.podSelector"

  /** The edges of a policy to what it applies to: the selected pods, or its namespace if there are none. */
  function AppliesTo(g: Graph, source: string, pods: seq<Item>, item: Item): set<string> {
    if !item.policy.selectorValid then {}
    else
      PodEdgeIds(g, source, pods, item.policy.selected, "applies-to", SelectorField) +
      if (exists i: nat :: i < |pods| && i in item.policy.selected && FirstTracked(g, pods, i)) || item.namespace == "" || NamespaceId(g, item.namespace) !in g.nodeSet then {}
      else {EdgeId(source, NamespaceId(g, item.namespace), "applies-to", SelectorField)}
  }

  /** A claimed policy adds exactly the edges to the tracked pods and namespaces that it selects, and no node. A
      pod listed twice counts with the labels of its first entry. */
  lemma PolicyEdgesAre(g: Graph, seen: set<string>, pods: seq<Item>, item: Item)
    requires Inv(g) && PlainRules(item.policy.peers)
    ensures var source := SourceId(g, "NetworkPolicy", item);
            var (g', seen') := AddPolicy(g, seen, pods, item);
            && (!Claims(g, source, seen) ==> g' == g && seen' == seen)
            && (Claims(g, source, seen) ==>
                 && SameNodes(g, g') && seen' == seen + {source}
                 && g'.edgeSet == g.edgeSet + AppliesTo(g, source, pods, item) + RulesEdgeIds(g, source, pods, item.policy.peers))
  {
    hide *;
    var source := SourceId(g, "NetworkPolicy", item);
    TrackedAreNodes(g);
    PolicyInHalves(g, seen, pods, item);
    if Claims(g, source, seen) {
      ClaimedSource(g, source, seen);
      AppliesToAre(g, source, pods, item);
      var g2 := AddAppliesTo(g, source, pods, item);
      SameNodesGrow(g, g2);
      RuleEdgesAre(g2, source, pods, item.policy.peers);
      SameRuleEdges(g, g2, source, pods, item.policy.peers);
      SameNodesTransitive(g, g2, AddPeers(g2, source, pods, item.policy.peers));
    }
  }

  lemma ClaimedSource(g: Graph, source: string, seen: set<string>)
    requires Claims(g, source, seen)
    ensures source != "" && source in g.resourceNodeSet
  {
  }

  lemma SameNodesGrow(g: Graph, g': Graph)
    requires SameNodes(g, g')
    ensures g'.nodeSet == g.nodeSet && g'.resourceNodeSet == g.resourceNodeSet
  {
  }

  lemma SameNodesTransitive(a: Graph, b: Graph, c: Graph)
    requires SameNodes(a, b) && SameNodes(b, c)
    ensures SameNodes(a, c)
  {
  }

  lemma PolicyInHalves(g: Graph, seen: set<string>, pods: seq<Item>, item: Item)
    ensures var source := SourceId(g, "NetworkPolicy", item);
            AddPolicy(g, seen, pods, item) ==
            if !Claims(g, source, seen) then (g, seen)
            else (AddPeers(AddAppliesTo(g, source, pods, item), source, pods, item.policy.peers), seen + {source})
  {
    hide PodEdges, AddPeers, AddEdge, NodeId, EdgeId;
  }

  /** The first half of `AddPolicy`. */
  function AddAppliesTo(g: Graph, source: string, pods: seq<Item>, item: Item): Graph {
    var (g1, _, matches) := if item.policy.selectorValid then PodEdges(g, source, pods, item.policy.selected, "applies-to", SelectorField) else (g, {}, 0);
    if item.policy.selectorValid && matches == 0 && item.namespace != "" then
      AddEdge(g1, EdgeSpec("applies-to", source, NodeId(g.clusterId, "Namespace", "", item.namespace), SelectorField, "observed")).0
    else g1
  }

  lemma AppliesToAre(g: Graph, source: string, pods: seq<Item>, item: Item)
    requires source in g.nodeSet && source != "" && g.resourceNodeSet <= g.nodeSet
    ensures var g2 := AddAppliesTo(g, source, pods, item);
            SameNodes(g, g2) && g2.edgeSet == g.edgeSet + AppliesTo(g, source, pods, item)
  {
    SelectorFieldIsPlain();
    hide ValidEdgeMetadata, NodeId, EdgeId, PodEdges, AddEdge, PodEdgeIds, FirstTracked;
    if item.policy.selectorValid {
      PodEdgesAre(g, source, pods, item.policy.selected, "applies-to", SelectorField);
      var g1 := PodEdges(g, source, pods, item.policy.selected, "applies-to", SelectorField).0;
      var fallback := EdgeSpec("applies-to", source, NamespaceId(g, item.namespace), SelectorField, "observed");
      NodeIdNonEmpty(g.clusterId, "Namespace", "", item.namespace);
      if fallback.target in g1.nodeSet {
        AddedEdge(g1, fallback);
      } else {
        RefusedEdge(g1, fallback);
      }
    }
  }

  lemma RefusedEdge(g: Graph, e: EdgeSpec)
    requires e.target !in g.nodeSet
    ensures AddEdge(g, e).0 == g
  {
  }

  lemma SameRuleEdges(g: Graph, g': Graph, source: string, pods: seq<Item>, rules: seq<PeerRule>)
    requires SameNodes(g, g')
    ensures RulesEdgeIds(g, source, pods, rules) == RulesEdgeIds(g', source, pods, rules)
  {
    hide PodEdgeIds, NamespaceEdgeIds;
    forall k: nat | k < |rules|
      ensures RuleEdgeIds(g, source, pods, rules[k]) == RuleEdgeIds(g', source, pods, rules[k])
    {
      match rules[k].peer
      case PodPeer(selected) => SamePodEdges(g, g', source, pods, selected, rules[k].edgeType, rules[k].sourceField);
      case NamespacePeer(names) => SameNamespaceEdges(g, g', source, names, rules[k].edgeType, rules[k].sourceField);
    }
  }

  predicate FieldByte(c: char) { IsAlpha(c) || c == '.' }

  lemma PlainFieldIsVisible(s: string)
    requires s != "" && forall k :: 0 <= k < |s| ==> FieldByte(s[k])
    ensures SafeVisibleText(s, 512) == if |s| <= 512 then Some(s) else None
  {
    assert FieldByte(s[0]) && FieldByte(s[|s| - 1]);
    hide IsAlpha;
    FieldTrimmed(s);
    hide TrimSpace, FieldByte;
    assert forall c :: c in s ==> c > ' ' && c < '\U{7f}';
  }

  lemma FieldTrimmed(s: string)
    requires s != "" && forall k :: 0 <= k < |s| ==> FieldByte(s[k])
    ensures TrimSpace(s) == s
    ensures forall k :: 0 <= k < |s| ==> ' ' < s[k] < '\U{7f}'
  {
    assert FieldByte(s[0]) && FieldByte(s[|s| - 1]);
    hide FieldByte;
    assert TrimLeft(s) == s;
    assert TrimRight(s) == s;
  }

  lemma SelectorFieldIsPlain()
    ensures ValidEdgeMetadata("applies-to", SelectorField, "inferred") && ValidEdgeMetadata("applies-to", SelectorField, "observed")
  {
    hide SafeVisibleText;
    PlainFieldIsVisible(SelectorField);
  }
}
