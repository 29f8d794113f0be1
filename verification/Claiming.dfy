/** Whose edges a node gets. Phase two passes over the lists again and lets the first item of each tracked id claim
    its node; here is when that is the item that gave the node its data. */
module Claiming {
  import opened Text
  import opened Names
  import opened GraphBuilding
  import opened Assembly
  import opened AssemblyEdges

  // ----- claims by position -----

  predicate Tracked(g: Graph, id: string) { id != "" && id in g.resourceNodeSet }

  predicate Passed(g: Graph, kind: string, items: seq<Item>, id: string) {
    exists i :: 0 <= i < |items| && SourceId(g, kind, items[i]) == id
  }

  /** Item i claims its node in a pass over its list: the node is tracked, not seen before and not an earlier item's. */
  predicate ClaimsAt(g: Graph, seen: set<string>, kind: string, items: seq<Item>, i: int)
    requires 0 <= i < |items|
  {
    var id := SourceId(g, kind, items[i]);
    Tracked(g, id) && id !in seen && forall j :: 0 <= j < i ==> SourceId(g, kind, items[j]) != id
  }

  /** And in a pass over several lists that share their seen-set. */
  predicate ClaimsIn(g: Graph, r: Resources, kinds: seq<string>, n: int, i: int)
    requires 0 <= n < |kinds| && 0 <= i < |List(r, kinds[n])|
  {
    var id := SourceId(g, kinds[n], List(r, kinds[n])[i]);
    && Tracked(g, id)
    && (forall j :: 0 <= j < i ==> SourceId(g, kinds[n], List(r, kinds[n])[j]) != id)
    && (forall m :: 0 <= m < n ==> !Passed(g, kinds[m], List(r, kinds[m]), id))
  }

  lemma SourceSame(g: Graph, g': Graph, kind: string, item: Item)
    requires g'.clusterId == g.clusterId
    ensures SourceId(g', kind, item) == SourceId(g, kind, item)
  {
  }

  lemma PassedSame(g: Graph, g': Graph, kind: string, items: seq<Item>, id: string)
    requires g'.clusterId == g.clusterId
    ensures Passed(g', kind, items, id) <==> Passed(g, kind, items, id)
  {
    hide SourceId;
    forall item
      ensures SourceId(g', kind, item) == SourceId(g, kind, item)
    {
      SourceSame(g, g', kind, item);
    }
  }

  /** After a pass the seen-set holds the tracked ids passed. */
  lemma {:induction false} PassSeen(g: Graph, seen: set<string>, pass: Pass, kind: string, items: seq<Item>)
    requires Inv(g)
    ensures forall id :: id in PassItems(g, seen, pass, kind, items).1 <==> id in seen || (Tracked(g, id) && Passed(g, kind, items, id))
  {
    hide Inv, AddLinks, AddOwners, SourceId;
    if items != [] {
      var n := |items| - 1;
      PassSeen(g, seen, pass, kind, items[..n]);
      PassItemsOnly(g, seen, pass, kind, items[..n]);
      var (g1, seen1) := PassItems(g, seen, pass, kind, items[..n]);
      SourceSame(g, g1, kind, items[n]);
      PassedOneMore(g, kind, items);
      hide Passed;
    }
  }

  lemma PassedOneMore(g: Graph, kind: string, items: seq<Item>)
    requires items != []
    ensures var n := |items| - 1;
            forall id :: Passed(g, kind, items, id) <==> Passed(g, kind, items[..n], id) || SourceId(g, kind, items[n]) == id
  {
    hide SourceId;
    var n := |items| - 1;
    forall id
      ensures Passed(g, kind, items, id) <==> Passed(g, kind, items[..n], id) || SourceId(g, kind, items[n]) == id
    {
      if Passed(g, kind, items[..n], id) {
        var i :| 0 <= i < n && SourceId(g, kind, items[..n][i]) == id;
        assert SourceId(g, kind, items[i]) == id;
      }
      if Passed(g, kind, items, id) && SourceId(g, kind, items[n]) != id {
        var i :| 0 <= i < |items| && SourceId(g, kind, items[i]) == id;
        assert SourceId(g, kind, items[..n][i]) == id;
      }
    }
  }

  /** The claim that the pass makes at an item. */
  lemma ClaimDuringPass(g: Graph, seen: set<string>, pass: Pass, kind: string, items: seq<Item>, i: nat)
    requires Inv(g) && i < |items|
    ensures var (gi, seeni) := PassItems(g, seen, pass, kind, items[..i]);
            Claims(gi, SourceId(gi, kind, items[i]), seeni) <==> ClaimsAt(g, seen, kind, items, i)
  {
    hide Inv, PassItems, SourceId;
    var gi := PassItems(g, seen, pass, kind, items[..i]).0;
    PassSeen(g, seen, pass, kind, items[..i]);
    PassItemsOnly(g, seen, pass, kind, items[..i]);
    SourceSame(g, gi, kind, items[i]);
    assert forall j :: 0 <= j < i ==> items[..i][j] == items[j];
    var id := SourceId(g, kind, items[i]);
    if Passed(g, kind, items[..i], id) {
      var j :| 0 <= j < i && SourceId(g, kind, items[..i][j]) == id;
      assert SourceId(g, kind, items[j]) == id;
    }
    if j :| 0 <= j < i && SourceId(g, kind, items[j]) == id {
      assert SourceId(g, kind, items[..i][j]) == id;
    }
  }

  /** After a pass over several lists the seen-set holds the tracked ids passed in any of them. */
  lemma {:induction false} KindsSeen(g: Graph, pass: Pass, r: Resources, kinds: seq<string>)
    requires Inv(g)
    ensures forall id :: id in PassKinds(g, {}, pass, r, kinds).1 <==>
                         Tracked(g, id) && exists m :: 0 <= m < |kinds| && Passed(g, kinds[m], List(r, kinds[m]), id)
  {
    hide Inv, PassItems, Passed, List, Tracked;
    if kinds != [] {
      var n := |kinds| - 1;
      KindsSeen(g, pass, r, kinds[..n]);
      PassKindsOnly(g, {}, pass, r, kinds[..n]);
      var (g1, seen1) := PassKinds(g, {}, pass, r, kinds[..n]);
      PassSeen(g1, seen1, pass, kinds[n], List(r, kinds[n]));
      assert forall m :: 0 <= m < n ==> kinds[..n][m] == kinds[m];
      forall id
        ensures Passed(g1, kinds[n], List(r, kinds[n]), id) <==> Passed(g, kinds[n], List(r, kinds[n]), id)
        ensures Tracked(g1, id) <==> Tracked(g, id)
      {
        PassedSame(g, g1, kinds[n], List(r, kinds[n]), id);
        TrackedSame(g, g1, id);
      }
    }
  }

  lemma TrackedSame(g: Graph, g': Graph, id: string)
    requires g'.resourceNodeSet == g.resourceNodeSet
    ensures Tracked(g', id) <==> Tracked(g, id)
  {
  }

  /** The claim that a pass over several lists makes at an item. */
  lemma ClaimDuringKinds(g: Graph, pass: Pass, r: Resources, kinds: seq<string>, n: nat, i: nat)
    requires Inv(g) && n < |kinds| && i < |List(r, kinds[n])|
    ensures var (gn, seenn) := PassKinds(g, {}, pass, r, kinds[..n]);
            ClaimsAt(gn, seenn, kinds[n], List(r, kinds[n]), i) <==> ClaimsIn(g, r, kinds, n, i)
  {
    hide Inv, PassKinds, SourceId, Passed;
    var gn := PassKinds(g, {}, pass, r, kinds[..n]).0;
    KindsSeen(g, pass, r, kinds[..n]);
    PassKindsOnly(g, {}, pass, r, kinds[..n]);
    assert forall m :: 0 <= m < n ==> kinds[..n][m] == kinds[m];
    forall item
      ensures SourceId(gn, kinds[n], item) == SourceId(g, kinds[n], item)
    {
      SourceSame(g, gn, kinds[n], item);
    }
  }

  // ----- whose ids are the same -----

  /** The namespace under which an item is looked up. */
  function SourceNamespace(kind: string, item: Item): string { if kind == "PersistentVolume" then "" else item.namespace }

  /** An item's source id is the id of an accepted identity of a listed kind exactly if it is that identity, or reads
      as that custom resource. */
  lemma SharedSource(g: Graph, kind: string, item: Item, kind': string, namespace': string, name': string)
    requires ListedKind(kind) && ListedKind(kind') && ValidNodeIdentity(kind', namespace', name')
    ensures SourceId(g, kind, item) == NodeId(g.clusterId, kind', namespace', name') <==>
            || (kind == kind' && SourceNamespace(kind, item) == namespace' && item.name == name')
            || (kind' == "CustomResource" && name' == kind + ":" + item.name && SourceNamespace(kind, item) == CustomNamespace(namespace'))
  {
    hide ValidNodeIdentity, ListedKind, CustomNamespace;
    NodeIdLocal(g.clusterId, kind, SourceNamespace(kind, item), item.name);
    NodeIdLocal(g.clusterId, kind', namespace', name');
    SharedLocalId(kind, SourceNamespace(kind, item), item.name, kind', namespace', name');
  }

  lemma ListedKinds()
    ensures forall kind :: kind in ResourceKinds ==> ListedKind(kind)
  {
    forall i | 0 <= i < |ResourceKinds|
      ensures ListedKind(ResourceKinds[i])
    {
      if i < 6 { ListedKindsTo6(i); } else if i < 13 { ListedKindsTo13(i); } else if i < 19 { ListedKindsTo19(i); } else { ListedKindsToEnd(i); }
    }
    hide ListedKind;
  }

  lemma ListedKindsTo6(i: nat)
    requires i < 6
    ensures ListedKind(ResourceKinds[i])
  {
  }

  lemma ListedKindsTo13(i: nat)
    requires 6 <= i < 13
    ensures ListedKind(ResourceKinds[i])
  {
  }

  lemma ListedKindsTo19(i: nat)
    requires 13 <= i < 19
    ensures ListedKind(ResourceKinds[i])
  {
  }

  lemma ListedKindsToEnd(i: nat)
    requires 19 <= i < |ResourceKinds|
    ensures ListedKind(ResourceKinds[i])
  {
  }

  predicate AllListed(kinds: seq<string>) {
    && (forall m :: 0 <= m < |kinds| ==> ListedKind(kinds[m]))
    && (forall m, n :: 0 <= m < n < |kinds| ==> kinds[m] != kinds[n])
    && ("CustomResource" in kinds ==> |kinds| == 1)
  }

  /** Custom resources are listed under their kind and name, joined by a colon. */
  predicate CustomNamesHaveColons(r: Resources) {
    forall i :: 0 <= i < |List(r, "CustomResource")| ==> ':' in List(r, "CustomResource")[i].name
  }

  lemma TwoColons(kind: string, name: string)
    requires ':' in name
    ensures Colons(kind + ":" + name) >= 2
  {
    ColonsOfJoin(kind, name);
    assert kind + ":" + name == kind + [':'] + name;
  }

  /** Another item has the source id of an accepted one only if it has its identity. */
  lemma AcceptedSourceIsOwn(g: Graph, kind: string, item: Item, other: string, item': Item)
    requires ListedKind(kind) && Accepts(kind, item) && kind != "PersistentVolume" && ListedKind(other)
    requires kind == "CustomResource" ==> other == "CustomResource" && ':' in item'.name
    ensures SourceId(g, other, item') == SourceId(g, kind, item) <==> other == kind && SameIdentity(item', item)
  {
    hide ValidNodeIdentity, ListedKind, CustomNamespace, Colons;
    SharedSource(g, other, item', kind, item.namespace, item.name);
    if kind == "CustomResource" {
      AcceptedColons(kind, item.namespace, item.name);
      TwoColons(other, item'.name);
    }
  }

  /** The edges of a source come from the item that gave its node its data: for every kind but PersistentVolume and
      whatever else is in the lists, an accepted item of a tracked id claims its node exactly if it is the first of
      its list with its identity. */
  lemma ClaimIsFirst(g: Graph, r: Resources, kinds: seq<string>, n: nat, i: nat)
    requires Inv(g) && AllListed(kinds) && CustomNamesHaveColons(r)
    requires n < |kinds| && kinds[n] != "PersistentVolume" && i < |List(r, kinds[n])|
    requires var item := List(r, kinds[n])[i]; Accepts(kinds[n], item) && Tracked(g, SourceId(g, kinds[n], item))
    ensures ClaimsIn(g, r, kinds, n, i) <==> First(AcceptedBy(kinds[n]), List(r, kinds[n]), i)
  {
    hide Inv, SourceId, ValidNodeIdentity, ListedKind, SameIdentity, List;
    var kind, items := kinds[n], List(r, kinds[n]);
    forall j | 0 <= j < i
      ensures SourceId(g, kind, items[j]) == SourceId(g, kind, items[i]) <==> SameIdentity(items[j], items[i])
    {
      AcceptedSourceIsOwn(g, kind, items[i], kind, items[j]);
    }
    forall m | 0 <= m < n
      ensures !Passed(g, kinds[m], List(r, kinds[m]), SourceId(g, kind, items[i]))
    {
      forall k | 0 <= k < |List(r, kinds[m])|
        ensures SourceId(g, kinds[m], List(r, kinds[m])[k]) != SourceId(g, kind, items[i])
      {
        AcceptedSourceIsOwn(g, kind, items[i], kinds[m], List(r, kinds[m])[k]);
      }
    }
  }

  // ----- what is tracked -----

  /** The graph as phase one leaves it to phase two. */
  ghost predicate FromPhaseOne(g: Graph, r: Resources) {
    Inv(g) && g.clusterId == SafeClusterId(r.clusterId) && g.resourceNodeSet == Ids(KindNodes(g.clusterId, r, ResourceKinds))
  }

  /** Item j of a list is accepted and has this id. */
  predicate ListedAt(clusterId: string, r: Resources, kind: string, j: int, id: string) {
    && 0 <= j < |List(r, kind)| && Accepts(kind, List(r, kind)[j])
    && id == NodeId(clusterId, kind, List(r, kind)[j].namespace, List(r, kind)[j].name)
  }

  lemma {:induction false} KindNodeListed(clusterId: string, r: Resources, kinds: seq<string>, node: Node) returns (kind: string, j: nat)
    requires node in KindNodes(clusterId, r, kinds)
    ensures kind in kinds && ListedAt(clusterId, r, kind, j, node.id)
  {
    hide FirstNodes, List, NodeId, ValidNodeIdentity;
    var n := |kinds| - 1;
    if node in KindNodes(clusterId, r, kinds[..n]) {
      kind, j := KindNodeListed(clusterId, r, kinds[..n], node);
    } else {
      kind := kinds[n];
      var row :| 0 <= row < |FirstNodes(clusterId, kind, List(r, kind))| && FirstNodes(clusterId, kind, List(r, kind))[row] == node;
      j := FirstNodeItem(clusterId, kind, List(r, kind), row);
    }
  }

  /** The tracked ids are those of the accepted items of all lists. */
  lemma TrackedIsListed(g: Graph, r: Resources, id: string)
    requires FromPhaseOne(g, r)
    ensures Tracked(g, id) <==> exists kind, j :: kind in ResourceKinds && ListedAt(g.clusterId, r, kind, j, id)
  {
    hide Inv, KindNodes, List, NodeId, ValidNodeIdentity, ResourceKinds, FirstNodes, First;
    var nodes := KindNodes(g.clusterId, r, ResourceKinds);
    if Tracked(g, id) {
      var node :| node in nodes && node.id == id;
      var kind, j := KindNodeListed(g.clusterId, r, ResourceKinds, node);
    }
    if kind, j :| kind in ResourceKinds && ListedAt(g.clusterId, r, kind, j, id) {
      ListedIsTracked(g, r, kind, j, id);
    }
  }

  lemma ListedIsTracked(g: Graph, r: Resources, kind: string, j: nat, id: string)
    requires FromPhaseOne(g, r) && kind in ResourceKinds && ListedAt(g.clusterId, r, kind, j, id)
    ensures Tracked(g, id)
  {
    hide Inv, KindNodes, List, NodeId, ValidNodeIdentity, ResourceKinds;
    ListedIsIn(g.clusterId, r, ResourceKinds, kind, j, id);
    NodeIdNonEmpty(g.clusterId, kind, List(r, kind)[j].namespace, List(r, kind)[j].name);
  }

  lemma ListedIsIn(clusterId: string, r: Resources, kinds: seq<string>, kind: string, j: nat, id: string)
    requires kind in kinds && ListedAt(clusterId, r, kind, j, id)
    ensures id in Ids(KindNodes(clusterId, r, kinds))
  {
    hide KindNodes, List, NodeId, ValidNodeIdentity, FirstNodes, First;
    var nodes, items := KindNodes(clusterId, r, kinds), List(r, kind);
    var i := FirstExists(kind, items, j);
    var row := FirstItemNode(clusterId, kind, items, i);
    var at := KindOffset(clusterId, r, kinds, kind);
    var node := FirstNodes(clusterId, kind, items)[row];
    assert nodes[at + row] == node;
    IdListed(nodes, at + row);
  }

  // ----- persistent volumes -----

  /** Volume k of a list is accepted and has this name and no namespace. */
  predicate PlainVolume(items: seq<Item>, k: int, name: string) {
    0 <= k < |items| && Accepts("PersistentVolume", items[k]) && items[k].namespace == "" && items[k].name == name
  }

  /** For every volume, accepted or not: it claims a node exactly if some accepted volume of its name without a
      namespace is listed, and no volume of that name before it. The node is that of the one without a namespace. */
  lemma VolumeClaims(g: Graph, r: Resources, kinds: seq<string>, n: nat, i: nat)
    requires FromPhaseOne(g, r) && AllListed(kinds) && n < |kinds| && kinds[n] == "PersistentVolume" && i < |List(r, kinds[n])|
    ensures ClaimsIn(g, r, kinds, n, i) <==>
            && (exists k :: PlainVolume(List(r, kinds[n]), k, List(r, kinds[n])[i].name))
            && forall j :: 0 <= j < i ==> List(r, kinds[n])[j].name != List(r, kinds[n])[i].name
  {
    hide *;
    var items := List(r, kinds[n]);
    var name := items[i].name;
    var id := SourceId(g, kinds[n], items[i]);
    VolumeSource(g, items[i]);
    TrackedVolume(g, r, name);
    KindsDiffer(kinds, n, n);
    if k :| PlainVolume(items, k, name) {
      PlainVolumeIs(items, k, name);
      VolumeSource(g, items[k]);
      assert id == SourceId(g, "PersistentVolume", items[k]);
      forall j | 0 <= j < i
        ensures SourceId(g, kinds[n], items[j]) == id <==> items[j].name == name
      {
        VolumeIdIsItsName(g, kinds[n], items[j], items[k]);
      }
      forall m | 0 <= m < n
        ensures !Passed(g, kinds[m], List(r, kinds[m]), id)
      {
        KindsDiffer(kinds, m, n);
        NoVolumePassed(g, kinds[m], List(r, kinds[m]), items[k]);
      }
    }
    ClaimIs(g, r, kinds, n, i);
  }

  lemma PlainVolumeIs(items: seq<Item>, k: int, name: string)
    requires PlainVolume(items, k, name)
    ensures 0 <= k < |items| && Accepts("PersistentVolume", items[k]) && items[k].namespace == "" && items[k].name == name
  {
  }

  lemma ClaimIs(g: Graph, r: Resources, kinds: seq<string>, n: nat, i: nat)
    requires n < |kinds| && i < |List(r, kinds[n])|
    ensures var id := SourceId(g, kinds[n], List(r, kinds[n])[i]);
            ClaimsIn(g, r, kinds, n, i) <==>
            && Tracked(g, id)
            && (forall j :: 0 <= j < i ==> SourceId(g, kinds[n], List(r, kinds[n])[j]) != id)
            && (forall m :: 0 <= m < n ==> !Passed(g, kinds[m], List(r, kinds[m]), id))
  {
    hide Tracked, SourceId, List, Passed;
  }

  /** The id under which a volume is looked up is tracked exactly if such a volume is listed. */
  lemma TrackedVolume(g: Graph, r: Resources, name: string)
    requires FromPhaseOne(g, r)
    ensures Tracked(g, NodeId(g.clusterId, "PersistentVolume", "", name)) <==> exists k :: PlainVolume(List(r, "PersistentVolume"), k, name)
  {
    hide Inv, SourceId, ValidNodeIdentity, List, NodeId, KindNodes, Ids, CustomNamespace, ResourceKinds;
    var id := NodeId(g.clusterId, "PersistentVolume", "", name);
    assert ListedKind("PersistentVolume") && "PersistentVolume" in ResourceKinds by { VolumeIsListed(); }
    TrackedIsListed(g, r, id);
    if Tracked(g, id) {
      var kind, j :| kind in ResourceKinds && ListedAt(g.clusterId, r, kind, j, id);
      ListedKinds();
      var item := List(r, kind)[j];
      NodeIdLocal(g.clusterId, "PersistentVolume", "", name);
      NodeIdLocal(g.clusterId, kind, item.namespace, item.name);
      SharedLocalId("PersistentVolume", "", name, kind, item.namespace, item.name);
      assert CustomNamespace(item.namespace) != "" by { CustomNamespaceNonEmpty(item.namespace); }
      assert PlainVolume(List(r, "PersistentVolume"), j, name);
    }
    if k :| PlainVolume(List(r, "PersistentVolume"), k, name) {
      assert ListedAt(g.clusterId, r, "PersistentVolume", k, id);
    }
  }

  lemma VolumeIsListed()
    ensures ListedKind("PersistentVolume") && "PersistentVolume" in ResourceKinds
  {
    ListedKindsTo19(14);
    assert ResourceKinds[14] == "PersistentVolume";
    hide ListedKind;
  }

  lemma CustomNamespaceNonEmpty(namespace: string)
    ensures CustomNamespace(namespace) != ""
  {
  }

  predicate NamesakeElsewhere(items: seq<Item>, i: int, j: int)
    requires 0 <= i < |items| && 0 <= j < |items|
  {
    items[j].name == items[i].name && items[j].namespace != ""
  }

  /** Phase one knows a volume by its namespace too, phase two by its name alone. The first volume of its name
      without a namespace gets the edges of its own item exactly if no volume of that name with a namespace is
      listed before it. */
  lemma VolumeClaimsOwn(g: Graph, r: Resources, kinds: seq<string>, n: nat, i: nat)
    requires FromPhaseOne(g, r) && AllListed(kinds) && n < |kinds| && kinds[n] == "PersistentVolume" && i < |List(r, kinds[n])|
    requires First(AcceptedBy(kinds[n]), List(r, kinds[n]), i) && List(r, kinds[n])[i].namespace == ""
    ensures ClaimsIn(g, r, kinds, n, i) <==> forall j :: 0 <= j < i ==> !NamesakeElsewhere(List(r, kinds[n]), i, j)
  {
    hide *;
    FirstVolume(List(r, kinds[n]), i);
    VolumeClaims(g, r, kinds, n, i);
  }

  lemma FirstVolume(items: seq<Item>, i: nat)
    requires i < |items| && First(AcceptedBy("PersistentVolume"), items, i) && items[i].namespace == ""
    ensures PlainVolume(items, i, items[i].name)
    ensures forall j :: 0 <= j < i ==> (items[j].name == items[i].name <==> NamesakeElsewhere(items, i, j))
  {
    hide ValidNodeIdentity;
  }

  lemma KindsDiffer(kinds: seq<string>, m: nat, n: nat)
    requires AllListed(kinds) && m <= n < |kinds|
    ensures (kinds[m] == kinds[n] <==> m == n) && ListedKind(kinds[m])
  {
    hide ListedKind;
  }

  lemma VolumeIdIsItsName(g: Graph, kind: string, item: Item, volume: Item)
    requires ListedKind(kind) && Accepts("PersistentVolume", volume) && volume.namespace == ""
    ensures SourceId(g, kind, item) == SourceId(g, "PersistentVolume", volume) <==> kind == "PersistentVolume" && item.name == volume.name
  {
    hide SourceId, ValidNodeIdentity, NodeId, CustomNamespace;
    assert ListedKind("PersistentVolume") by { ListedKindsTo19(14); }
    VolumeSource(g, volume);
    SharedSource(g, kind, item, "PersistentVolume", "", volume.name);
  }

  lemma NoVolumePassed(g: Graph, kind: string, items: seq<Item>, volume: Item)
    requires ListedKind(kind) && kind != "PersistentVolume" && Accepts("PersistentVolume", volume) && volume.namespace == ""
    ensures !Passed(g, kind, items, SourceId(g, "PersistentVolume", volume))
  {
    hide SourceId, ValidNodeIdentity, ListedKind;
    forall k | 0 <= k < |items|
      ensures SourceId(g, kind, items[k]) != SourceId(g, "PersistentVolume", volume)
    {
      VolumeIdIsItsName(g, kind, items[k], volume);
    }
  }

  lemma VolumeSource(g: Graph, item: Item)
    ensures SourceId(g, "PersistentVolume", item) == NodeId(g.clusterId, "PersistentVolume", "", item.name)
  {
  }

  /** A volume with a namespace has a node, but no item of any list claims it. */
  lemma NamespacedVolumeIsNeverClaimed(g: Graph, volume: Item, kind: string, item: Item)
    requires Accepts("PersistentVolume", volume) && volume.namespace != "" && ListedKind(kind)
    ensures SourceId(g, kind, item) != NodeId(g.clusterId, "PersistentVolume", volume.namespace, volume.name)
  {
    hide ValidNodeIdentity, SourceId, NodeId, CustomNamespace;
    assert ListedKind("PersistentVolume") by { ListedKindsTo19(14); }
    SharedSource(g, kind, item, "PersistentVolume", volume.namespace, volume.name);
  }

  const StorageKinds: seq<string> := ["PersistentVolumeClaim", "PersistentVolume"]

  /** For example: a volume with a namespace claims the node of its namesake without one, which carries the
      namesake's data. */
  lemma VolumeClaimsAnothers(g: Graph, r: Resources, a: Item, b: Item)
    requires FromPhaseOne(g, r) && List(r, "PersistentVolume") == [a, b]
    requires ValidNamespace(a.namespace) && b.namespace == "" && a.name == b.name && ValidReferenceName(a.name)
    ensures var items := List(r, "PersistentVolume");
            && First(AcceptedBy("PersistentVolume"), items, 0) && First(AcceptedBy("PersistentVolume"), items, 1)
            && SourceId(g, "PersistentVolume", a) == NodeId(g.clusterId, "PersistentVolume", b.namespace, b.name)
            && ClaimsIn(g, r, StorageKinds, 1, 0) && !ClaimsIn(g, r, StorageKinds, 1, 1)
  {
    hide Inv, ValidDnsSubdomain, ListedKind, NodeId, KindNodes, Ids, CustomNamespace, First;
    var items := List(r, "PersistentVolume");
    assert ListedKind("PersistentVolume") && ListedKind("PersistentVolumeClaim") by { ListedKindsTo19(14); ListedKindsTo19(15); }
    assert ValidKind("PersistentVolume");
    BothFirst(a, b);
    VolumeSource(g, a);
    VolumeSource(g, b);
    assert AllListed(StorageKinds);
    assert PlainVolume(items, 1, a.name);
    VolumeClaims(g, r, StorageKinds, 1, 0);
    VolumeClaims(g, r, StorageKinds, 1, 1);
  }

  lemma BothFirst(a: Item, b: Item)
    requires Accepts("PersistentVolume", a) && Accepts("PersistentVolume", b) && a.namespace != b.namespace
    ensures First(AcceptedBy("PersistentVolume"), [a, b], 0) && First(AcceptedBy("PersistentVolume"), [a, b], 1)
  {
    hide ValidNodeIdentity;
  }

  // ----- items that are not accepted -----

  /** The identity of an item reads as that of a custom resource. */
  predicate ReadsAs(kind: string, item: Item, custom: Item) {
    custom.name == kind + ":" + item.name && item.namespace == CustomNamespace(custom.namespace)
  }

  /** An item that is not accepted passes its claim exactly if its identity reads as that of an accepted custom
      resource that is listed, and no earlier item of its list has its identity. Its edges then start from the node
      of that custom resource. */
  lemma UnacceptedClaims(g: Graph, r: Resources, kinds: seq<string>, n: nat, i: nat)
    requires FromPhaseOne(g, r) && AllListed(kinds) && CustomNamesHaveColons(r)
    requires n < |kinds| && kinds[n] != "PersistentVolume" && i < |List(r, kinds[n])| && !Accepts(kinds[n], List(r, kinds[n])[i])
    ensures ClaimsIn(g, r, kinds, n, i) <==>
            && (forall j :: 0 <= j < i ==> !SameIdentity(List(r, kinds[n])[j], List(r, kinds[n])[i]))
            && exists k :: 0 <= k < |List(r, "CustomResource")| && Accepts("CustomResource", List(r, "CustomResource")[k])
                           && ReadsAs(kinds[n], List(r, kinds[n])[i], List(r, "CustomResource")[k])
    ensures forall k :: 0 <= k < |List(r, "CustomResource")| && Accepts("CustomResource", List(r, "CustomResource")[k])
                        && ReadsAs(kinds[n], List(r, kinds[n])[i], List(r, "CustomResource")[k]) ==>
              SourceId(g, kinds[n], List(r, kinds[n])[i])
              == NodeId(g.clusterId, "CustomResource", List(r, "CustomResource")[k].namespace, List(r, "CustomResource")[k].name)
  {
    hide Inv, SourceId, ValidNodeIdentity, ListedKind, List, NodeId, KindNodes, Ids, CustomNamespace, ResourceKinds, Passed, SameIdentity;
    var kind, items, customs := kinds[n], List(r, kinds[n]), List(r, "CustomResource");
    var id := SourceId(g, kind, items[i]);
    CustomIsListed();
    forall k | 0 <= k < |customs| && Accepts("CustomResource", customs[k]) && ReadsAs(kind, items[i], customs[k])
      ensures id == NodeId(g.clusterId, "CustomResource", customs[k].namespace, customs[k].name)
    {
      SharedSource(g, kind, items[i], "CustomResource", customs[k].namespace, customs[k].name);
    }
    if ClaimsIn(g, r, kinds, n, i) {
      UnacceptedIsCustom(g, r, kind, items[i]);
      forall j | 0 <= j < i
        ensures !SameIdentity(items[j], items[i])
      {
        SameIdentitySameSource(g, kind, items[j], items[i]);
      }
    }
    if k :| 0 <= k < |customs| && Accepts("CustomResource", customs[k]) && ReadsAs(kind, items[i], customs[k]) && forall j :: 0 <= j < i ==> !SameIdentity(items[j], items[i]) {
      assert ListedAt(g.clusterId, r, "CustomResource", k, id);
      ListedIsTracked(g, r, "CustomResource", k, id);
      ReaderIsAlone(g, r, kinds, n, i, k);
    }
  }

  lemma CustomIsListed()
    ensures "CustomResource" in ResourceKinds && ListedKind("CustomResource")
  {
    assert ResourceKinds[13] == "CustomResource";
    ListedKindsTo19(13);
    hide ListedKind;
  }

  lemma SameIdentitySameSource(g: Graph, kind: string, a: Item, b: Item)
    ensures SameIdentity(a, b) ==> SourceId(g, kind, a) == SourceId(g, kind, b)
  {
  }

  lemma UnacceptedIsCustom(g: Graph, r: Resources, kind: string, item: Item)
    requires FromPhaseOne(g, r) && ListedKind(kind) && kind != "PersistentVolume" && !Accepts(kind, item) && Tracked(g, SourceId(g, kind, item))
    ensures exists k :: 0 <= k < |List(r, "CustomResource")| && Accepts("CustomResource", List(r, "CustomResource")[k]) && ReadsAs(kind, item, List(r, "CustomResource")[k])
  {
    hide Inv, SourceId, ListedKind, List, NodeId, KindNodes, Ids, CustomNamespace, ResourceKinds, ValidNodeIdentity;
    var id := SourceId(g, kind, item);
    TrackedIsListed(g, r, id);
    var kind', j :| kind' in ResourceKinds && ListedAt(g.clusterId, r, kind', j, id);
    var item' := List(r, kind')[j];
    ListedKinds();
    SharedSource(g, kind, item, kind', item'.namespace, item'.name);
  }

  /** No other item of the lists so far has the id of an item that reads as a custom resource. */
  lemma ReaderIsAlone(g: Graph, r: Resources, kinds: seq<string>, n: nat, i: nat, k: nat)
    requires AllListed(kinds) && CustomNamesHaveColons(r) && n < |kinds| && kinds[n] != "PersistentVolume" && i < |List(r, kinds[n])|
    requires k < |List(r, "CustomResource")| && Accepts("CustomResource", List(r, "CustomResource")[k])
    requires ReadsAs(kinds[n], List(r, kinds[n])[i], List(r, "CustomResource")[k]) && ListedKind("CustomResource")
    ensures var id := SourceId(g, kinds[n], List(r, kinds[n])[i]);
            && (forall j :: 0 <= j < |List(r, kinds[n])| && SourceId(g, kinds[n], List(r, kinds[n])[j]) == id ==> SameIdentity(List(r, kinds[n])[j], List(r, kinds[n])[i]))
            && (forall m :: 0 <= m < n ==> !Passed(g, kinds[m], List(r, kinds[m]), id))
  {
    hide SourceId, ValidNodeIdentity, List, NodeId, CustomNamespace, Colons;
    var kind, items, custom := kinds[n], List(r, kinds[n]), List(r, "CustomResource")[k];
    var id := SourceId(g, kind, items[i]);
    SharedSource(g, kind, items[i], "CustomResource", custom.namespace, custom.name);
    AcceptedColons("CustomResource", custom.namespace, custom.name);
    if kind == "CustomResource" {
      TwoColons(kind, items[i].name);
    }
    forall j | 0 <= j < |items| && SourceId(g, kind, items[j]) == id
      ensures SameIdentity(items[j], items[i])
    {
      SharedSource(g, kind, items[j], "CustomResource", custom.namespace, custom.name);
      SameTail(kind, items[j].name, items[i].name);
    }
    forall m | 0 <= m < n
      ensures !Passed(g, kinds[m], List(r, kinds[m]), id)
    {
      forall l | 0 <= l < |List(r, kinds[m])|
        ensures SourceId(g, kinds[m], List(r, kinds[m])[l]) != id
      {
        var other := List(r, kinds[m])[l];
        SharedSource(g, kinds[m], other, "CustomResource", custom.namespace, custom.name);
        SameHead(kinds[m], other.name, kind, items[i].name);
      }
    }
  }

  lemma SameTail(kind: string, a: string, b: string)
    ensures kind + ":" + a == kind + ":" + b ==> a == b
  {
    assert (kind + ":" + a)[|kind| + 1..] == a && (kind + ":" + b)[|kind| + 1..] == b;
  }

  lemma SameHead(kind: string, a: string, kind': string, b: string)
    requires ':' !in kind && ':' !in kind'
    ensures kind + ":" + a == kind' + ":" + b ==> kind == kind'
  {
    if kind + ":" + a == kind' + ":" + b {
      SplitUnique(kind, a, kind', b, ':');
    }
  }

  /** For example, a pod whose namespace is not a namespace has the id of a custom resource. */
  lemma MalformedItemSharesId(clusterId: string, namespace: string, name: string)
    requires namespace != ""
    ensures NodeId(clusterId, "Pod", namespace + ":CustomResource", name) == NodeId(clusterId, "CustomResource", namespace, "Pod:" + name)
  {
    hide NodeId;
    NodeIdLocal(clusterId, "Pod", namespace + ":CustomResource", name);
    NodeIdLocal(clusterId, "CustomResource", namespace, "Pod:" + name);
    CustomReadsAs("Pod", name, namespace);
  }
}
