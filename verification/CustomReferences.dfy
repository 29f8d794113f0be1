/** The bounded search for references in an untyped custom-resource spec, and the unbounded search it
    approximates. */
module CustomReferences {
  import opened Text
  import opened Names
  import opened Decimal
  import opened Sorting
  import opened Dedup

  const MaxReferences := 80
  const MaxDepth := 24
  const MaxVisits := 4096
  const MaxCollection := 256
  const MaxPathBytes := 512

  /** Decoded JSON. An object is its fields in ascending key order, the order in which it is searched. */
  datatype Value = Nil | Text(text: string) | Scalar | List(items: seq<Value>) | Object(fields: seq<Field>)
  datatype Field = Field(key: string, value: Value)

  datatype Reference = Reference(kind: string, namespace: string, name: string, sourceField: string)

  /** The source's default namespace and scope, and the scope of the served definition of an API version and kind. */
  datatype Context = Context(namespace: string, scope: string, definition: (string, string) -> Option<string>)

  // ----- what counts as a reference -----

  const KnownKinds: set<string> := {
    "Cluster", "Namespace", "Node", "Deployment", "ReplicaSet", "StatefulSet", "DaemonSet", "Job", "CronJob", "HorizontalPodAutoscaler",
    "Pod", "ServiceAccount", "Service", "EndpointSlice", "Ingress", "Gateway", "HTTPRoute", "GRPCRoute", "TLSRoute", "TCPRoute",
    "NetworkPolicy", "ConfigMap", "Secret", "PersistentVolumeClaim", "PersistentVolume", "StorageClass", "CustomResourceDefinition", "CustomResource"}
  const ClusterKinds: set<string> := {"Cluster", "Namespace", "Node", "PersistentVolume", "StorageClass", "CustomResourceDefinition"}

  function Lower(s: string): string {
    seq(|s|, i requires 0 <= i < |s| => if 'A' <= s[i] <= 'Z' then s[i] + ('a' - 'A') else s[i])
  }

  predicate HasSuffix(s: string, suffix: string) {
    |s| >= |suffix| && s[|s| - |suffix|..] == suffix
  }

  predicate IsReferenceField(key: string) {
    HasSuffix(key, "Ref") || HasSuffix(key, "Refs") || HasSuffix(key, "Reference") || HasSuffix(key, "References")
  }

  function KindFromKey(key: string): string {
    var k := Lower(key);
    if k == "secretref" || k == "secretrefs" then "Secret"
    else if k == "configmapref" || k == "configmaprefs" then "ConfigMap"
    else if k == "serviceaccountref" || k == "serviceaccountrefs" then "ServiceAccount"
    else if k == "serviceref" || k == "servicerefs" || k == "backendref" || k == "backendrefs" then "Service"
    else ""
  }

  function KindFromNameKey(key: string): string {
    var k := Lower(key);
    if k == "secretname" then "Secret"
    else if k == "configmapname" then "ConfigMap"
    else if k == "serviceaccountname" then "ServiceAccount"
    else if k == "servicename" then "Service"
    else ""
  }

  /** `validKubernetesAPIPathSegment`. */
  predicate ValidPathSegment(s: string, allowDots: bool, limit: nat) {
    && 1 <= |s| <= limit && IsLowerAlphanumeric(s[0]) && IsLowerAlphanumeric(s[|s| - 1])
    && forall k :: 0 <= k < |s| ==> IsLowerAlphanumeric(s[k]) || s[k] == '-' || (allowDots && s[k] == '.')
  }

  predicate ValidCustomKind(s: string) {
    1 <= |s| <= 80 && forall k :: 0 <= k < |s| ==> IsAlphanumeric(s[k])
  }

  predicate ValidIdentity(r: Reference) {
    && r.kind in KnownKinds
    && (r.namespace != "" ==> ValidPathSegment(r.namespace, false, 63))
    && if r.kind == "CustomResource" then
         var (kind, name, found) := Cut(r.name, ':');
         found && ValidCustomKind(kind) && ValidPathSegment(name, true, 253)
       else ValidPathSegment(r.name, true, 253)
  }

  function SafeSegment(key: string): string {
    if key == "" || |key| > 64 || exists k :: 0 <= k < |key| && !(IsAlphanumeric(key[k]) || key[k] == '_' || key[k] == '-') then "field" else key
  }

  function Lookup(fields: seq<Field>, key: string): Option<Value> {
    if fields == [] then None
    else if fields[0].key == key then Some(fields[0].value)
    else Lookup(fields[1..], key)
  }

  function StringAt(fields: seq<Field>, key: string, fallback: string): string {
    var v := Lookup(fields, key);
    if v.Some? && v.value.Text? then TrimSpace(v.value.text) else fallback
  }

  function TargetNamespace(kind: string, namespace: string, scope: string): string {
    if kind == "CustomResource" && scope == "Cluster" then "" else if kind in ClusterKinds then "" else namespace
  }

  /** `customResourceReferenceFromObject`. */
  function FromObject(ctx: Context, fields: seq<Field>, fallbackKind: string, sourceField: string): Option<Reference> {
    var name := StringAt(fields, "name", "");
    var kindName := StringAt(fields, "kind", "");
    var definition := ctx.definition(StringAt(fields, "apiVersion", ""), kindName);
    var kind := if definition.Some? then "CustomResource" else if kindName in KnownKinds then kindName else fallbackKind;
    var scope := if definition.Some? then definition.value else ctx.scope;
    if name == "" || kind == "" then None
    else Some(Reference(kind, TargetNamespace(kind, StringAt(fields, "namespace", ctx.namespace), scope),
                        if definition.Some? then kindName + ":" + name else name, sourceField))
  }

  // ----- the unbounded search -----

  function IndexPath(path: string, i: nat): string { path + "[" + Itoa(i) + "]" }
  function FieldPath(path: string, key: string): string { path + "." + SafeSegment(key) }

  function OptionToSeq<T>(o: Option<T>): seq<T> { if o.Some? then [o.value] else [] }

  function ListRefs(ctx: Context, items: seq<Value>, fallbackKind: string, path: string, i: nat): seq<Reference>
    requires i <= |items|
    decreases |items| - i
  {
    if i == |items| then []
    else (if items[i].Object? then OptionToSeq(FromObject(ctx, items[i].fields, fallbackKind, IndexPath(path, i))) else [])
         + ListRefs(ctx, items, fallbackKind, path, i + 1)
  }

  function NameRefs(ctx: Context, fields: seq<Field>, f: Field, path: string): seq<Reference> {
    var kind := KindFromNameKey(f.key);
    if kind != "" && f.value.Text? && TrimSpace(f.value.text) != "" then
      [Reference(kind, TargetNamespace(kind, StringAt(fields, "namespace", ctx.namespace), ctx.scope), TrimSpace(f.value.text), path)]
    else []
  }

  /** The references that one field of an object offers, before its value is searched. */
  function FieldRefs(ctx: Context, fields: seq<Field>, f: Field, path: string): seq<Reference> {
    (if IsReferenceField(f.key) && f.value.Object? then OptionToSeq(FromObject(ctx, f.value.fields, KindFromKey(f.key), path)) else [])
    + (if IsReferenceField(f.key) && f.value.List? then ListRefs(ctx, f.value.items, KindFromKey(f.key), path, 0) else [])
    + NameRefs(ctx, fields, f, path)
  }

  /** Every candidate in the order of the sorted-key search, without any budget. */
  function Candidates(ctx: Context, v: Value, path: string): seq<Reference>
    decreases v, 0
  {
    match v
    case List(items) => ItemCandidates(ctx, items, path, 0)
    case Object(fields) => FieldCandidates(ctx, fields, path, 0)
    case _ => []
  }

  function ItemCandidates(ctx: Context, items: seq<Value>, path: string, i: nat): seq<Reference>
    requires i <= |items|
    decreases items, |items| - i
  {
    if i == |items| then [] else Candidates(ctx, items[i], IndexPath(path, i)) + ItemCandidates(ctx, items, path, i + 1)
  }

  function FieldCandidates(ctx: Context, fields: seq<Field>, path: string, i: nat): seq<Reference>
    requires i <= |fields|
    decreases fields, |fields| - i
  {
    if i == |fields| then []
    else
      var f := fields[i];
      FieldRefs(ctx, fields, f, FieldPath(path, f.key)) + Candidates(ctx, f.value, FieldPath(path, f.key)) + FieldCandidates(ctx, fields, path, i + 1)
  }

  // ----- the bounded search -----

  datatype Traversal = Traversal(references: seq<Reference>, seen: set<string>, visits: nat)

  const Fresh := Traversal([], {}, 0)

  function Key(r: Reference): string { r.kind + ['\0'] + (r.namespace + ['\0'] + (r.name + ['\0'] + r.sourceField)) }

  predicate Full(t: Traversal) { |t.references| >= MaxReferences }

  function Add(t: Traversal, r: Reference): Traversal {
    if Full(t) || !ValidIdentity(r) || |r.sourceField| > MaxPathBytes || Key(r) in t.seen then t
    else t.(references := t.references + [r], seen := t.seen + {Key(r)})
  }

  function AddAll(t: Traversal, rs: seq<Reference>): Traversal
    decreases rs
  {
    if rs == [] then t else AddAll(Add(t, rs[0]), rs[1..])
  }

  /** The inner list loop: it stops at the collection limit or when the result is full. */
  function AddList(ctx: Context, t: Traversal, items: seq<Value>, fallbackKind: string, path: string, i: nat): Traversal
    requires i <= |items|
    decreases |items| - i
  {
    if i == |items| || i >= MaxCollection || Full(t) then t
    else
      var t1 := if items[i].Object? then AddAll(t, OptionToSeq(FromObject(ctx, items[i].fields, fallbackKind, IndexPath(path, i)))) else t;
      AddList(ctx, t1, items, fallbackKind, path, i + 1)
  }

  function AddField(ctx: Context, t: Traversal, fields: seq<Field>, f: Field, path: string): Traversal {
    var t1 := if IsReferenceField(f.key) && f.value.Object? then AddAll(t, OptionToSeq(FromObject(ctx, f.value.fields, KindFromKey(f.key), path))) else t;
    var t2 := if IsReferenceField(f.key) && f.value.List? then AddList(ctx, t1, f.value.items, KindFromKey(f.key), path, 0) else t1;
    AddAll(t2, NameRefs(ctx, fields, f, path))
  }

  function Collect(ctx: Context, t: Traversal, v: Value, path: string, depth: nat): Traversal
    decreases v, 0
  {
    if v.Nil? || Full(t) || depth > MaxDepth || t.visits >= MaxVisits || |path| > MaxPathBytes then t
    else
      var t1 := t.(visits := t.visits + 1);
      match v
      case List(items) => CollectItems(ctx, t1, items, path, depth, 0)
      case Object(fields) => CollectFields(ctx, t1, fields, path, depth, 0)
      case _ => t1
  }

  function CollectItems(ctx: Context, t: Traversal, items: seq<Value>, path: string, depth: nat, i: nat): Traversal
    requires i <= |items|
    decreases items, |items| - i
  {
    if i == |items| || i >= MaxCollection || Full(t) then t
    else CollectItems(ctx, Collect(ctx, t, items[i], IndexPath(path, i), depth + 1), items, path, depth, i + 1)
  }

  function CollectFields(ctx: Context, t: Traversal, fields: seq<Field>, path: string, depth: nat, i: nat): Traversal
    requires i <= |fields|
    decreases fields, |fields| - i
  {
    if i == |fields| || i >= MaxCollection || Full(t) then t
    else
      var f := fields[i];
      var p := FieldPath(path, f.key);
      var t1 := if |p| > MaxPathBytes then t else Collect(ctx, AddField(ctx, t, fields, f, p), f.value, p, depth + 1);
      CollectFields(ctx, t1, fields, path, depth, i + 1)
  }

  // ----- what every search keeps -----

  /** At most 80 references, all accepted and distinct, the seen-set holding their keys, at most 4096 visits. */
  ghost predicate Inv(t: Traversal) {
    && |t.references| <= MaxReferences && t.visits <= MaxVisits
    && (forall i :: 0 <= i < |t.references| ==> ValidIdentity(t.references[i]) && |t.references[i].sourceField| <= MaxPathBytes)
    && (forall k :: k in t.seen <==> exists i :: 0 <= i < |t.references| && Key(t.references[i]) == k)
    && (forall i, j :: 0 <= i < j < |t.references| ==> t.references[i] != t.references[j])
  }

  /** t' is t with some of the given candidates appended. */
  ghost predicate From(t: Traversal, t': Traversal, candidates: seq<Reference>) {
    && t.references <= t'.references && t.visits <= t'.visits
    && forall i :: |t.references| <= i < |t'.references| ==> t'.references[i] in candidates
  }

  lemma FromJoin(a: Traversal, b: Traversal, c: Traversal, x: seq<Reference>, y: seq<Reference>)
    requires From(a, b, x) && From(b, c, y)
    ensures From(a, c, x + y)
  {
    forall i | |a.references| <= i < |c.references|
      ensures c.references[i] in x + y
    {
      if i < |b.references| {
        assert c.references[i] == b.references[i];
      }
    }
  }

  lemma FromMore(a: Traversal, b: Traversal, x: seq<Reference>, y: seq<Reference>)
    requires From(a, b, x)
    ensures From(a, b, x + y) && From(a, b, y + x)
  {}

  lemma AddInv(t: Traversal, r: Reference)
    requires Inv(t)
    ensures Inv(Add(t, r)) && From(t, Add(t, r), [r])
  {
    hide ValidIdentity, Key;
    var t' := Add(t, r);
    if t' != t {
      var n := |t.references|;
      assert t'.references[n] == r;
      forall k
        ensures k in t'.seen <==> exists i :: 0 <= i < |t'.references| && Key(t'.references[i]) == k
      {
        if k in t.seen {
          var i :| 0 <= i < n && Key(t.references[i]) == k;
          assert t'.references[i] == t.references[i];
        }
      }
    }
  }

  lemma {:induction false} AddAllInv(t: Traversal, rs: seq<Reference>)
    requires Inv(t)
    ensures Inv(AddAll(t, rs)) && From(t, AddAll(t, rs), rs) && AddAll(t, rs).visits == t.visits
    decreases rs
  {
    hide Inv, Add;
    if rs != [] {
      AddInv(t, rs[0]);
      AddAllInv(Add(t, rs[0]), rs[1..]);
      AddVisits(t, rs[0]);
      FromJoin(t, Add(t, rs[0]), AddAll(t, rs), [rs[0]], rs[1..]);
      assert rs == [rs[0]] + rs[1..];
    }
  }

  lemma AddVisits(t: Traversal, r: Reference)
    ensures Add(t, r).visits == t.visits
  {}

  lemma {:induction false} AddListInv(ctx: Context, t: Traversal, items: seq<Value>, fallbackKind: string, path: string, i: nat)
    requires Inv(t) && i <= |items|
    ensures var t' := AddList(ctx, t, items, fallbackKind, path, i);
            Inv(t') && From(t, t', ListRefs(ctx, items, fallbackKind, path, i)) && t'.visits == t.visits
    decreases |items| - i
  {
    hide Inv, FromObject, IndexPath, AddAll;
    if i < |items| && i < MaxCollection && !Full(t) {
      var rs := if items[i].Object? then OptionToSeq(FromObject(ctx, items[i].fields, fallbackKind, IndexPath(path, i))) else [];
      AddAllInv(t, rs);
      var t1 := AddAll(t, rs);
      AddAllOfNone(t);
      AddListInv(ctx, t1, items, fallbackKind, path, i + 1);
      FromJoin(t, t1, AddList(ctx, t1, items, fallbackKind, path, i + 1), rs, ListRefs(ctx, items, fallbackKind, path, i + 1));
    }
  }

  lemma AddAllOfNone(t: Traversal)
    ensures AddAll(t, []) == t
  {}

  lemma AddFieldInv(ctx: Context, t: Traversal, fields: seq<Field>, f: Field, path: string)
    requires Inv(t)
    ensures var t' := AddField(ctx, t, fields, f, path);
            Inv(t') && From(t, t', FieldRefs(ctx, fields, f, path)) && t'.visits == t.visits
  {
    hide Inv, FromObject, IndexPath, AddAll, AddList, ListRefs, NameRefs, IsReferenceField, KindFromKey, From;
    AddAllOfNone(t);
    var x := if IsReferenceField(f.key) && f.value.Object? then OptionToSeq(FromObject(ctx, f.value.fields, KindFromKey(f.key), path)) else [];
    AddAllInv(t, x);
    var t1 := AddAll(t, x);
    var isList := IsReferenceField(f.key) && f.value.List?;
    var y := if isList then ListRefs(ctx, f.value.items, KindFromKey(f.key), path, 0) else [];
    if isList {
      AddListInv(ctx, t1, f.value.items, KindFromKey(f.key), path, 0);
    } else {
      FromSelf(t1);
    }
    var t2 := if isList then AddList(ctx, t1, f.value.items, KindFromKey(f.key), path, 0) else t1;
    var z := NameRefs(ctx, fields, f, path);
    AddAllInv(t2, z);
    FromJoin(t, t1, t2, x, y);
    FromJoin(t, t2, AddAll(t2, z), x + y, z);
  }

  lemma FromSelf(t: Traversal)
    ensures From(t, t, [])
  {}

  /** One step of the search, with the nested searches left closed. */
  function Searched(ctx: Context, t: Traversal, v: Value, path: string, depth: nat): Traversal {
    match v
    case List(items) => CollectItems(ctx, t, items, path, depth, 0)
    case Object(fields) => CollectFields(ctx, t, fields, path, depth, 0)
    case _ => t
  }

  predicate Stops(t: Traversal, v: Value, path: string, depth: nat) {
    v.Nil? || Full(t) || depth > MaxDepth || t.visits >= MaxVisits || |path| > MaxPathBytes
  }

  lemma CollectOnce(ctx: Context, t: Traversal, v: Value, path: string, depth: nat)
    ensures Collect(ctx, t, v, path, depth) == if Stops(t, v, path, depth) then t else Searched(ctx, t.(visits := t.visits + 1), v, path, depth)
  {
    hide CollectItems, CollectFields;
  }

  lemma CandidatesOnce(ctx: Context, v: Value, path: string)
    ensures v.List? ==> Candidates(ctx, v, path) == ItemCandidates(ctx, v.items, path, 0)
    ensures v.Object? ==> Candidates(ctx, v, path) == FieldCandidates(ctx, v.fields, path, 0)
    ensures !v.List? && !v.Object? ==> Candidates(ctx, v, path) == []
  {
    hide ItemCandidates, FieldCandidates;
  }

  lemma {:induction false} CollectInv(ctx: Context, t: Traversal, v: Value, path: string, depth: nat)
    requires Inv(t)
    ensures var t' := Collect(ctx, t, v, path, depth);
            Inv(t') && From(t, t', Candidates(ctx, v, path))
    decreases v, 0
  {
    hide From, Inv, Full, Collect, CollectItems, CollectFields, Candidates, ItemCandidates, FieldCandidates;
    CollectOnce(ctx, t, v, path, depth);
    CandidatesOnce(ctx, v, path);
    if Stops(t, v, path, depth) {
      FromNothing(t, Candidates(ctx, v, path));
    } else {
      var t1 := t.(visits := t.visits + 1);
      VisitedInv(t);
      match v {
        case List(items) =>
          CollectItemsInv(ctx, t1, items, path, depth, 0);
        case Object(fields) =>
          CollectFieldsInv(ctx, t1, fields, path, depth, 0);
        case _ =>
          FromNothing(t1, []);
      }
      FromVisited(t, Collect(ctx, t, v, path, depth), Candidates(ctx, v, path));
    }
  }

  lemma FromNothing(t: Traversal, x: seq<Reference>)
    ensures From(t, t, x)
  {}

  lemma VisitedInv(t: Traversal)
    requires Inv(t) && t.visits < MaxVisits
    ensures Inv(t.(visits := t.visits + 1))
  {
    hide ValidIdentity, Key;
  }

  lemma FromVisited(t: Traversal, t': Traversal, x: seq<Reference>)
    requires From(t.(visits := t.visits + 1), t', x)
    ensures From(t, t', x)
  {}

  lemma {:induction false} CollectItemsInv(ctx: Context, t: Traversal, items: seq<Value>, path: string, depth: nat, i: nat)
    requires Inv(t) && i <= |items|
    ensures var t' := CollectItems(ctx, t, items, path, depth, i);
            Inv(t') && From(t, t', ItemCandidates(ctx, items, path, i))
    decreases items, |items| - i
  {
    hide Inv, IndexPath;
    if i < |items| && i < MaxCollection && !Full(t) {
      var t1 := Collect(ctx, t, items[i], IndexPath(path, i), depth + 1);
      CollectInv(ctx, t, items[i], IndexPath(path, i), depth + 1);
      CollectItemsInv(ctx, t1, items, path, depth, i + 1);
      FromJoin(t, t1, CollectItems(ctx, t, items, path, depth, i), Candidates(ctx, items[i], IndexPath(path, i)), ItemCandidates(ctx, items, path, i + 1));
    }
  }

  lemma {:induction false} CollectFieldsInv(ctx: Context, t: Traversal, fields: seq<Field>, path: string, depth: nat, i: nat)
    requires Inv(t) && i <= |fields|
    ensures var t' := CollectFields(ctx, t, fields, path, depth, i);
            Inv(t') && From(t, t', FieldCandidates(ctx, fields, path, i))
    decreases fields, |fields| - i
  {
    hide Inv, FieldPath, AddField, FieldRefs, From;
    if i < |fields| && i < MaxCollection && !Full(t) {
      var f := fields[i];
      var p := FieldPath(path, f.key);
      var here := FieldRefs(ctx, fields, f, p) + Candidates(ctx, f.value, p);
      var t1 := if |p| > MaxPathBytes then t else Collect(ctx, AddField(ctx, t, fields, f, p), f.value, p, depth + 1);
      if |p| > MaxPathBytes {
        FromSelf(t);
        FromMore(t, t, [], here);
        assert [] + here == here;
      } else {
        AddFieldInv(ctx, t, fields, f, p);
        CollectInv(ctx, AddField(ctx, t, fields, f, p), f.value, p, depth + 1);
        FromJoin(t, AddField(ctx, t, fields, f, p), t1, FieldRefs(ctx, fields, f, p), Candidates(ctx, f.value, p));
      }
      CollectFieldsInv(ctx, t1, fields, path, depth, i + 1);
      FromJoin(t, t1, CollectFields(ctx, t, fields, path, depth, i), here, FieldCandidates(ctx, fields, path, i + 1));
    } else {
      FromSelf(t);
      FromMore(t, t, [], FieldCandidates(ctx, fields, path, i));
      assert [] + FieldCandidates(ctx, fields, path, i) == FieldCandidates(ctx, fields, path, i);
    }
  }

  // ----- exactness when no budget is reached -----

  /** The visits a search needs: one for each value that is not nil. */
  function Size(v: Value): nat
    decreases v, 0
  {
    match v
    case Nil => 0
    case List(items) => 1 + ItemsSize(items, 0)
    case Object(fields) => 1 + FieldsSize(fields, 0)
    case _ => 1
  }

  function ItemsSize(items: seq<Value>, i: nat): nat
    requires i <= |items|
    decreases items, |items| - i
  {
    if i == |items| then 0 else Size(items[i]) + ItemsSize(items, i + 1)
  }

  function FieldsSize(fields: seq<Field>, i: nat): nat
    requires i <= |fields|
    decreases fields, |fields| - i
  {
    if i == |fields| then 0 else Size(fields[i].value) + FieldsSize(fields, i + 1)
  }

  /** Depth, path length and collection sizes stay within their budgets everywhere. */
  predicate Fits(v: Value, path: string, depth: nat)
    decreases v, 0
  {
    v.Nil? ||
    (depth <= 24 && |path| <= 512 && match v
     case List(items) => |items| <= 256 && ItemsFit(items, path, depth, 0)
     case Object(fields) => |fields| <= 256 && FieldsFit(fields, path, depth, 0)
     case _ => true)
  }

  predicate ItemsFit(items: seq<Value>, path: string, depth: nat, i: nat)
    requires i <= |items|
    decreases items, |items| - i
  {
    i == |items| || (Fits(items[i], IndexPath(path, i), depth + 1) && ItemsFit(items, path, depth, i + 1))
  }

  predicate FieldsFit(fields: seq<Field>, path: string, depth: nat, i: nat)
    requires i <= |fields|
    decreases fields, |fields| - i
  {
    i == |fields| ||
    (var p := FieldPath(path, fields[i].key);
     |p| <= 512 && Fits(fields[i].value, p, depth + 1) && FieldsFit(fields, path, depth, i + 1))
  }

  lemma {:induction false} AddAllJoin(t: Traversal, a: seq<Reference>, b: seq<Reference>)
    ensures AddAll(t, a + b) == AddAll(AddAll(t, a), b)
    decreases a
  {
    hide Add;
    if a == [] {
      assert a + b == b;
    } else {
      assert (a + b)[1..] == a[1..] + b;
      AddAllJoin(Add(t, a[0]), a[1..], b);
    }
  }

  lemma {:induction false} AddAllFull(t: Traversal, rs: seq<Reference>)
    requires Full(t)
    ensures AddAll(t, rs) == t
    decreases rs
  {
    if rs != [] {
      AddAllFull(t, rs[1..]);
    }
  }

  lemma {:induction false} AddAllVisits(t: Traversal, rs: seq<Reference>, n: nat)
    ensures AddAll(t.(visits := n), rs) == AddAll(t, rs).(visits := n)
    decreases rs
  {
    hide ValidIdentity, Key;
    if rs != [] {
      assert Add(t.(visits := n), rs[0]) == Add(t, rs[0]).(visits := n);
      AddAllVisits(Add(t, rs[0]), rs[1..], n);
    }
  }

  lemma {:induction false} AddListExact(ctx: Context, t: Traversal, items: seq<Value>, fallbackKind: string, path: string, i: nat)
    requires i <= |items| <= MaxCollection
    ensures AddList(ctx, t, items, fallbackKind, path, i) == AddAll(t, ListRefs(ctx, items, fallbackKind, path, i))
    decreases |items| - i
  {
    hide FromObject, IndexPath, Add;
    if i < |items| {
      if Full(t) {
        AddAllFull(t, ListRefs(ctx, items, fallbackKind, path, i));
      } else {
        var rs := if items[i].Object? then OptionToSeq(FromObject(ctx, items[i].fields, fallbackKind, IndexPath(path, i))) else [];
        AddAllJoin(t, rs, ListRefs(ctx, items, fallbackKind, path, i + 1));
        AddListExact(ctx, AddAll(t, rs), items, fallbackKind, path, i + 1);
      }
    }
  }

  lemma AddFieldExact(ctx: Context, t: Traversal, fields: seq<Field>, f: Field, path: string)
    requires f.value.List? ==> |f.value.items| <= MaxCollection
    ensures AddField(ctx, t, fields, f, path) == AddAll(t, FieldRefs(ctx, fields, f, path))
  {
    hide FromObject, IndexPath, AddAll, AddList, ListRefs, NameRefs, IsReferenceField, KindFromKey;
    AddAllOfNone(t);
    var x := if IsReferenceField(f.key) && f.value.Object? then OptionToSeq(FromObject(ctx, f.value.fields, KindFromKey(f.key), path)) else [];
    var isList := IsReferenceField(f.key) && f.value.List?;
    var y := if isList then ListRefs(ctx, f.value.items, KindFromKey(f.key), path, 0) else [];
    var z := NameRefs(ctx, fields, f, path);
    if isList {
      AddListExact(ctx, AddAll(t, x), f.value.items, KindFromKey(f.key), path, 0);
    } else {
      AddAllOfNone(AddAll(t, x));
    }
    AddAllJoin(t, x, y);
    AddAllJoin(t, x + y, z);
  }

  /** Within the budgets a search adds exactly the candidates, and visits no more than it needs. */
  lemma {:induction false} CollectExact(ctx: Context, t: Traversal, v: Value, path: string, depth: nat)
    requires Fits(v, path, depth) && t.visits + Size(v) <= MaxVisits
    ensures var t' := Collect(ctx, t, v, path, depth);
            t' == AddAll(t, Candidates(ctx, v, path)).(visits := t'.visits) && t.visits <= t'.visits <= t.visits + Size(v)
    decreases v, 0
  {
    hide AddAll, Collect, CollectItems, CollectFields, Candidates, ItemCandidates, FieldCandidates, Fits, ItemsFit, FieldsFit, Size, ItemsSize, FieldsSize;
    CollectOnce(ctx, t, v, path, depth);
    CandidatesOnce(ctx, v, path);
    FitsOnce(v, path, depth);
    if Full(t) {
      AddAllFull(t, Candidates(ctx, v, path));
    } else {
      AddAllOfNone(t);
      var t1 := t.(visits := t.visits + 1);
      AddAllVisits(t, Candidates(ctx, v, path), t.visits + 1);
      match v {
        case List(items) => CollectItemsExact(ctx, t1, items, path, depth, 0);
        case Object(fields) => CollectFieldsExact(ctx, t1, fields, path, depth, 0);
        case _ =>
      }
    }
  }

  lemma FitsOnce(v: Value, path: string, depth: nat)
    ensures v.Nil? ==> Size(v) == 0
    ensures v.List? ==> Size(v) == 1 + ItemsSize(v.items, 0) && (Fits(v, path, depth) ==> |v.items| <= MaxCollection && ItemsFit(v.items, path, depth, 0))
    ensures v.Object? ==> Size(v) == 1 + FieldsSize(v.fields, 0) && (Fits(v, path, depth) ==> |v.fields| <= MaxCollection && FieldsFit(v.fields, path, depth, 0))
    ensures !v.Nil? && !v.List? && !v.Object? ==> Size(v) == 1
    ensures !v.Nil? && Fits(v, path, depth) ==> depth <= MaxDepth && |path| <= MaxPathBytes
  {
    hide ItemsFit, FieldsFit, ItemsSize, FieldsSize;
  }

  lemma {:induction false} CollectItemsExact(ctx: Context, t: Traversal, items: seq<Value>, path: string, depth: nat, i: nat)
    requires i <= |items| <= MaxCollection && ItemsFit(items, path, depth, i) && t.visits + ItemsSize(items, i) <= MaxVisits
    ensures var t' := CollectItems(ctx, t, items, path, depth, i);
            t' == AddAll(t, ItemCandidates(ctx, items, path, i)).(visits := t'.visits) && t.visits <= t'.visits <= t.visits + ItemsSize(items, i)
    decreases items, |items| - i
  {
    hide AddAll, IndexPath, Collect, Candidates, Fits, Size;
    AddAllOfNone(t);
    if i < |items| {
      if Full(t) {
        AddAllFull(t, ItemCandidates(ctx, items, path, i));
      } else {
        var p := IndexPath(path, i);
        var t1 := Collect(ctx, t, items[i], p, depth + 1);
        CollectExact(ctx, t, items[i], p, depth + 1);
        CollectItemsExact(ctx, t1, items, path, depth, i + 1);
        ExactJoin(t, t1, CollectItems(ctx, t, items, path, depth, i), Candidates(ctx, items[i], p), ItemCandidates(ctx, items, path, i + 1));
      }
    }
  }

  lemma ExactJoin(t: Traversal, t1: Traversal, t2: Traversal, a: seq<Reference>, b: seq<Reference>)
    requires t1 == AddAll(t, a).(visits := t1.visits) && t2 == AddAll(t1, b).(visits := t2.visits)
    ensures t2 == AddAll(t, a + b).(visits := t2.visits)
  {
    hide AddAll;
    AddAllJoin(t, a, b);
    AddAllVisits(AddAll(t, a), b, t1.visits);
  }

  lemma {:induction false} CollectFieldsExact(ctx: Context, t: Traversal, fields: seq<Field>, path: string, depth: nat, i: nat)
    requires i <= |fields| <= MaxCollection && FieldsFit(fields, path, depth, i) && t.visits + FieldsSize(fields, i) <= MaxVisits
    ensures var t' := CollectFields(ctx, t, fields, path, depth, i);
            t' == AddAll(t, FieldCandidates(ctx, fields, path, i)).(visits := t'.visits) && t.visits <= t'.visits <= t.visits + FieldsSize(fields, i)
    decreases fields, |fields| - i
  {
    hide AddAll, FieldPath, AddField, FieldRefs;
    AddAllOfNone(t);
    if i < |fields| {
      if Full(t) {
        AddAllFull(t, FieldCandidates(ctx, fields, path, i));
      } else {
        var f := fields[i];
        var p := FieldPath(path, f.key);
        var t0 := AddField(ctx, t, fields, f, p);
        AddFieldExact(ctx, t, fields, f, p);
        FieldVisits(ctx, t, fields, f, p);
        var t1 := Collect(ctx, t0, f.value, p, depth + 1);
        CollectExact(ctx, t0, f.value, p, depth + 1);
        ExactJoin(t, t0, t1, FieldRefs(ctx, fields, f, p), Candidates(ctx, f.value, p));
        CollectFieldsExact(ctx, t1, fields, path, depth, i + 1);
        ExactJoin(t, t1, CollectFields(ctx, t, fields, path, depth, i), FieldRefs(ctx, fields, f, p) + Candidates(ctx, f.value, p), FieldCandidates(ctx, fields, path, i + 1));
      }
    }
  }

  lemma FieldVisits(ctx: Context, t: Traversal, fields: seq<Field>, f: Field, path: string)
    requires f.value.List? ==> |f.value.items| <= MaxCollection
    ensures AddField(ctx, t, fields, f, path).visits == t.visits
  {
    hide FieldRefs, AddField, AddAll;
    AddFieldExact(ctx, t, fields, f, path);
    AddAllVisits(t, FieldRefs(ctx, fields, f, path), t.visits);
  }

  predicate ShortFields(rs: seq<Reference>) {
    forall r :: r in rs ==> |r.sourceField| <= MaxPathBytes
  }

  lemma {:induction false} ListRefsShort(ctx: Context, items: seq<Value>, fallbackKind: string, path: string, depth: nat, i: nat)
    requires i <= |items| && ItemsFit(items, path, depth, i)
    ensures ShortFields(ListRefs(ctx, items, fallbackKind, path, i))
    decreases |items| - i
  {
    hide IndexPath, StringAt, TargetNamespace;
    if i < |items| {
      ListRefsShort(ctx, items, fallbackKind, path, depth, i + 1);
    }
  }

  lemma FieldRefsShort(ctx: Context, fields: seq<Field>, f: Field, path: string, depth: nat)
    requires |path| <= MaxPathBytes && Fits(f.value, path, depth)
    ensures ShortFields(FieldRefs(ctx, fields, f, path))
  {
    hide StringAt, TargetNamespace, IsReferenceField, KindFromKey, KindFromNameKey, ListRefs;
    if f.value.List? {
      ListRefsShort(ctx, f.value.items, KindFromKey(f.key), path, depth, 0);
    }
  }

  lemma {:induction false} CandidatesShort(ctx: Context, v: Value, path: string, depth: nat)
    requires Fits(v, path, depth)
    ensures ShortFields(Candidates(ctx, v, path))
    decreases v, 0
  {
    match v
    case List(items) => ItemCandidatesShort(ctx, items, path, depth, 0);
    case Object(fields) => FieldCandidatesShort(ctx, fields, path, depth, 0);
    case _ =>
  }

  lemma {:induction false} ItemCandidatesShort(ctx: Context, items: seq<Value>, path: string, depth: nat, i: nat)
    requires i <= |items| && ItemsFit(items, path, depth, i)
    ensures ShortFields(ItemCandidates(ctx, items, path, i))
    decreases items, |items| - i
  {
    hide IndexPath;
    if i < |items| {
      CandidatesShort(ctx, items[i], IndexPath(path, i), depth + 1);
      ItemCandidatesShort(ctx, items, path, depth, i + 1);
    }
  }

  lemma {:induction false} FieldCandidatesShort(ctx: Context, fields: seq<Field>, path: string, depth: nat, i: nat)
    requires i <= |fields| && FieldsFit(fields, path, depth, i)
    ensures ShortFields(FieldCandidates(ctx, fields, path, i))
    decreases fields, |fields| - i
  {
    hide FieldPath, FieldRefs;
    if i < |fields| {
      var p := FieldPath(path, fields[i].key);
      FieldRefsShort(ctx, fields, fields[i], p, depth + 1);
      CandidatesShort(ctx, fields[i].value, p, depth + 1);
      FieldCandidatesShort(ctx, fields, path, depth, i + 1);
    }
  }

  // ----- what the unbounded search finds -----

  function AcceptedKey(r: Reference): Option<string> {
    if ValidIdentity(r) then Some(Key(r)) else None
  }

  /** The accepted candidates, each once, in search order. */
  function Unbounded(ctx: Context, v: Value, path: string): seq<Reference> {
    Firsts(AcceptedKey, Candidates(ctx, v, path))
  }

  lemma {:induction false} AddAllIsFirsts(rs: seq<Reference>)
    requires ShortFields(rs)
    ensures var t := AddAll(Fresh, rs);
            && t.references == Take(Firsts(AcceptedKey, rs), MaxReferences)
            && (!Full(t) ==> forall k :: k in t.seen <==> Seen(AcceptedKey, rs, k))
  {
    hide AcceptedKey, Add;
    if rs == [] {
      assert Firsts(AcceptedKey, rs) == [];
    } else {
      var n := |rs| - 1;
      assert rs == rs[..n] + [rs[n]];
      AddAllIsFirsts(rs[..n]);
      AddAllJoin(Fresh, rs[..n], [rs[n]]);
      AddOne(AddAll(Fresh, rs[..n]), rs[n]);
      SeenStep(AcceptedKey, rs);
      AddIsFirst(AddAll(Fresh, rs[..n]), rs);
    }
  }

  lemma AddOne(t: Traversal, r: Reference)
    ensures AddAll(t, [r]) == Add(t, r)
  {
    hide Add;
    assert [r][1..] == [];
  }

  lemma AddIsFirst(t: Traversal, rs: seq<Reference>)
    requires rs != [] && ShortFields(rs)
    requires t.references == Take(Firsts(AcceptedKey, rs[..|rs| - 1]), MaxReferences)
    requires !Full(t) ==> forall k :: k in t.seen <==> Seen(AcceptedKey, rs[..|rs| - 1], k)
    ensures var t' := Add(t, rs[|rs| - 1]);
            && t'.references == Take(Firsts(AcceptedKey, rs), MaxReferences)
            && (!Full(t') ==> forall k :: k in t'.seen <==> Seen(AcceptedKey, rs, k))
  {
    hide AcceptedKey, Seen, Add, Firsts, IsFirst;
    var n := |rs| - 1;
    assert rs[n] in rs;
    AddCases(t, rs[n]);
    FirstsOnce(rs);
    if Full(t) {
      TakePrefix(Firsts(AcceptedKey, rs[..n]), Firsts(AcceptedKey, rs), MaxReferences);
    } else {
      AddBelowLimit(t, rs);
    }
  }

  lemma AddBelowLimit(t: Traversal, rs: seq<Reference>)
    requires rs != [] && ShortFields(rs) && !Full(t)
    requires t.references == Take(Firsts(AcceptedKey, rs[..|rs| - 1]), MaxReferences)
    requires forall k :: k in t.seen <==> Seen(AcceptedKey, rs[..|rs| - 1], k)
    ensures var t' := Add(t, rs[|rs| - 1]);
            && t'.references == Take(Firsts(AcceptedKey, rs), MaxReferences)
            && (forall k :: k in t'.seen <==> Seen(AcceptedKey, rs, k))
  {
    hide AcceptedKey, Seen, Add, Firsts, IsFirst;
    var n := |rs| - 1;
    var key := AcceptedKey(rs[n]);
    assert rs[n] in rs;
    AddCases(t, rs[n]);
    FirstsOnce(rs);
    SeenStep(AcceptedKey, rs);
    assert Firsts(AcceptedKey, rs[..n]) == t.references;
    if key.Some? {
      FirstIsUnseen(AcceptedKey, rs);
      assert IsFirst(AcceptedKey, rs, n) <==> key.value !in t.seen;
    }
  }

  lemma FirstsOnce(rs: seq<Reference>)
    requires rs != []
    ensures var before := Firsts(AcceptedKey, rs[..|rs| - 1]);
            Firsts(AcceptedKey, rs) == if IsFirst(AcceptedKey, rs, |rs| - 1) then before + [rs[|rs| - 1]] else before
    ensures AcceptedKey(rs[|rs| - 1]).None? ==> !IsFirst(AcceptedKey, rs, |rs| - 1)
  {
    hide AcceptedKey;
    var before := Firsts(AcceptedKey, rs[..|rs| - 1]);
    assert before + [] == before;
  }

  lemma AddCases(t: Traversal, r: Reference)
    requires |r.sourceField| <= MaxPathBytes
    ensures Add(t, r) == if Full(t) || AcceptedKey(r).None? || AcceptedKey(r).value in t.seen then t
                         else t.(references := t.references + [r], seen := t.seen + {AcceptedKey(r).value})
  {
    hide ValidIdentity, Key;
  }

  lemma TakePrefix<T>(a: seq<T>, b: seq<T>, n: nat)
    requires a <= b && |a| >= n
    ensures Take(a, n) == Take(b, n)
  {
    assert a[..n] == b[..n];
  }

  predicate KeyBytes(s: string) { '\0' !in s && '>' !in s }
  predicate Letters(s: string) { forall k :: 0 <= k < |s| ==> IsAlpha(s[k]) }

  lemma LettersAreBytes(s: string)
    requires Letters(s)
    ensures KeyBytes(s) && ':' !in s
  {
  }

  /** Neither the separator of the joined key nor that of an edge id. */
  lemma AcceptedBytes(r: Reference)
    requires ValidIdentity(r)
    ensures Letters(r.kind) && KeyBytes(r.kind) && KeyBytes(r.namespace) && KeyBytes(r.name)
  {
    KnownKindBytes(r.kind);
    LettersAreBytes(r.kind);
    hide KnownKinds;
    if r.kind == "CustomResource" {
      var (kind, name, found) := Cut(r.name, ':');
      assert r.name == kind + [':'] + name;
      assert forall k :: 0 <= k < |kind| ==> IsAlphanumeric(kind[k]);
    }
  }

  lemma KnownKindBytes(kind: string)
    requires kind in KnownKinds
    ensures Letters(kind)
  {
    if kind in ClusterKinds {
      ClusterKindBytes(kind);
    } else if kind in WorkloadKinds {
      WorkloadKindBytes(kind);
    } else {
      OtherKindBytes(kind);
    }
    hide Letters;
  }

  const WorkloadKinds: set<string> := {
    "Deployment", "ReplicaSet", "StatefulSet", "DaemonSet", "Job", "CronJob", "HorizontalPodAutoscaler", "Pod", "ServiceAccount", "CustomResource"}
  const OtherKinds: set<string> := {
    "Service", "EndpointSlice", "Ingress", "Gateway", "HTTPRoute", "GRPCRoute", "TLSRoute", "TCPRoute", "NetworkPolicy", "ConfigMap", "Secret",
    "PersistentVolumeClaim"}

  lemma ClusterKindBytes(kind: string)
    requires kind in ClusterKinds
    ensures Letters(kind)
  {
  }

  lemma WorkloadKindBytes(kind: string)
    requires kind in WorkloadKinds
    ensures Letters(kind)
  {
  }

  lemma OtherKindBytes(kind: string)
    requires kind in OtherKinds
    ensures Letters(kind)
  {
  }

  /** Accepted references are told apart by their joined key. */
  lemma KeyInjective(a: Reference, b: Reference)
    requires ValidIdentity(a) && ValidIdentity(b)
    ensures Key(a) == Key(b) <==> a == b
  {
    AcceptedBytes(a);
    AcceptedBytes(b);
    hide ValidIdentity;
    if Key(a) == Key(b) {
      SplitUnique(a.kind, a.namespace + ['\0'] + (a.name + ['\0'] + a.sourceField), b.kind, b.namespace + ['\0'] + (b.name + ['\0'] + b.sourceField), '\0');
      SplitUnique(a.namespace, a.name + ['\0'] + a.sourceField, b.namespace, b.name + ['\0'] + b.sourceField, '\0');
      SplitUnique(a.name, a.sourceField, b.name, b.sourceField, '\0');
    }
  }

  // ----- the sorted result -----

  predicate RefLess(a: Reference, b: Reference) {
    if a.sourceField != b.sourceField then Less(a.sourceField, b.sourceField)
    else if a.kind != b.kind then Less(a.kind, b.kind)
    else if a.namespace != b.namespace then Less(a.namespace, b.namespace)
    else Less(a.name, b.name)
  }

  lemma RefLessFacts(a: Reference, b: Reference, c: Reference)
    ensures !RefLess(a, a) && !(RefLess(a, b) && RefLess(b, a)) && (RefLess(a, b) || a == b || RefLess(b, a))
    ensures RefLess(a, b) && RefLess(b, c) ==> RefLess(a, c)
  {
    hide Less;
    LessFacts(a.sourceField, b.sourceField, c.sourceField);
    LessFacts(a.kind, b.kind, c.kind);
    LessFacts(a.namespace, b.namespace, c.namespace);
    LessFacts(a.name, b.name, c.name);
  }

  lemma RefOrder()
    ensures StrictWeakOrder(RefLess)
  {
    hide RefLess;
    forall a, b, c
      ensures !RefLess(a, a) && (RefLess(a, b) && RefLess(b, c) ==> RefLess(a, c)) && (RefLess(a, c) ==> RefLess(a, b) || RefLess(b, c))
    {
      RefLessFacts(a, b, c);
      RefLessFacts(b, a, c);
      RefLessFacts(b, c, a);
    }
  }

  /** `customResourceReferences`: the search of an object, then the sort. */
  function References(ctx: Context, spec: seq<Field>): seq<Reference> {
    StableSort(RefLess, Collect(ctx, Fresh, Object(spec), "spec", 0).references)
  }

  lemma FreshInv()
    ensures Inv(Fresh)
  {}

  /** For every spec: at most 4096 visits, and at most 80 references, sorted, pairwise distinct, accepted, and
      all found by the unbounded search. */
  lemma SearchIsSound(ctx: Context, spec: seq<Field>)
    ensures Collect(ctx, Fresh, Object(spec), "spec", 0).visits <= 4096
    ensures var result := References(ctx, spec);
            && |result| <= 80 && Sorted(RefLess, result)
            && (forall r :: r in result ==> ValidIdentity(r) && |r.sourceField| <= 512 && r in Candidates(ctx, Object(spec), "spec"))
            && (forall i, j :: 0 <= i < j < |result| ==> result[i] != result[j])
  {
    hide Candidates, Collect, ValidIdentity, Key, RefLess, Sorted, StrictWeakOrder;
    FreshInv();
    var t := Collect(ctx, Fresh, Object(spec), "spec", 0);
    CollectInv(ctx, Fresh, Object(spec), "spec", 0);
    RefOrder();
    StableSortSorted(RefLess, t.references);
    var result := References(ctx, spec);
    forall r | r in result
      ensures r in t.references
    {
      assert r in multiset(result);
    }
    DistinctPermutation(t.references, result);
  }

  /** The references ascend by field, then kind, then namespace, then name. */
  lemma ReferencesAscend(ctx: Context, spec: seq<Field>, i: nat, j: nat)
    requires i < j < |References(ctx, spec)|
    ensures var a, b := References(ctx, spec)[i], References(ctx, spec)[j];
            LessThen(a.sourceField, b.sourceField, LessThen(a.kind, b.kind, LessThen(a.namespace, b.namespace, LessThen(a.name, b.name, false))))
  {
    hide References, Less, Candidates, Collect, ValidIdentity;
    SearchIsSound(ctx, spec);
    var a, b := References(ctx, spec)[i], References(ctx, spec)[j];
    assert !RefLess(b, a) && a != b;
    LessTotal(a.sourceField, b.sourceField);
    LessTotal(a.kind, b.kind);
    LessTotal(a.namespace, b.namespace);
    LessTotal(a.name, b.name);
  }

  // ----- paths without the separators of edge ids -----

  lemma PathsStayTame(path: string, key: string, i: nat)
    requires TameField(path)
    ensures TameField(IndexPath(path, i)) && TameField(FieldPath(path, key))
  {
    var index, segment := Itoa(i), SafeSegment(key);
    assert forall c :: c in index ==> IsDigit(c);
    assert "field"[0] == 'f';
    assert forall c :: c in segment ==> IsAlphanumeric(c) || c == '_' || c == '-';
    assert forall c :: c in IndexPath(path, i) ==> c in path || c == '[' || c == ']' || c in index;
    assert forall c :: c in FieldPath(path, key) ==> c in path || c == '.' || c in segment;
  }

  predicate TamePaths(rs: seq<Reference>) { forall r :: r in rs ==> TameField(r.sourceField) }

  lemma {:induction false} ListRefsTame(ctx: Context, items: seq<Value>, fallbackKind: string, path: string, i: nat)
    requires i <= |items| && TameField(path)
    ensures TamePaths(ListRefs(ctx, items, fallbackKind, path, i))
    decreases |items| - i
  {
    hide TameField, IndexPath, KnownKinds, StringAt;
    if i < |items| {
      PathsStayTame(path, "", i);
      ListRefsTame(ctx, items, fallbackKind, path, i + 1);
    }
  }

  lemma FieldRefsTame(ctx: Context, fields: seq<Field>, f: Field, path: string)
    requires TameField(path)
    ensures TamePaths(FieldRefs(ctx, fields, f, path))
  {
    hide TameField, ListRefs, KnownKinds, StringAt, KindFromKey, KindFromNameKey, IsReferenceField;
    if f.value.List? {
      ListRefsTame(ctx, f.value.items, KindFromKey(f.key), path, 0);
    }
  }

  lemma {:induction false} CandidatesTame(ctx: Context, v: Value, path: string)
    requires TameField(path)
    ensures TamePaths(Candidates(ctx, v, path))
    decreases v, 0
  {
    hide TameField, ItemCandidates, FieldCandidates;
    match v
    case List(items) => ItemCandidatesTame(ctx, items, path, 0);
    case Object(fields) => FieldCandidatesTame(ctx, fields, path, 0);
    case _ =>
  }

  lemma {:induction false} ItemCandidatesTame(ctx: Context, items: seq<Value>, path: string, i: nat)
    requires i <= |items| && TameField(path)
    ensures TamePaths(ItemCandidates(ctx, items, path, i))
    decreases items, |items| - i
  {
    hide TameField, IndexPath, Candidates;
    if i < |items| {
      PathsStayTame(path, "", i);
      CandidatesTame(ctx, items[i], IndexPath(path, i));
      ItemCandidatesTame(ctx, items, path, i + 1);
    }
  }

  lemma {:induction false} FieldCandidatesTame(ctx: Context, fields: seq<Field>, path: string, i: nat)
    requires i <= |fields| && TameField(path)
    ensures TamePaths(FieldCandidates(ctx, fields, path, i))
    decreases fields, |fields| - i
  {
    hide TameField, FieldPath, Candidates, FieldRefs;
    if i < |fields| {
      var f := fields[i];
      PathsStayTame(path, f.key, 0);
      FieldRefsTame(ctx, fields, f, FieldPath(path, f.key));
      CandidatesTame(ctx, f.value, FieldPath(path, f.key));
      FieldCandidatesTame(ctx, fields, path, i + 1);
    }
  }

  /** No reference found holds a separator of the edge id it becomes part of. */
  lemma FoundAreTame(ctx: Context, spec: seq<Field>)
    ensures forall r :: r in References(ctx, spec) ==>
              TameField(r.sourceField) && '>' !in r.kind && '>' !in r.namespace && '>' !in r.name && ':' !in r.kind
  {
    SpecIsTame();
    CandidatesTame(ctx, Object(spec), "spec");
    SearchIsSound(ctx, spec);
    hide Candidates, References, ValidIdentity, TameField, Sorted;
    forall r | r in References(ctx, spec)
      ensures '>' !in r.kind && '>' !in r.namespace && '>' !in r.name && ':' !in r.kind
    {
      AcceptedBytes(r);
      LettersAreBytes(r.kind);
    }
  }

  lemma SpecIsTame()
    ensures TameField("spec")
  {
  }

  /** A spec that stays within depth, path, collection and visit budgets gets exactly the result of the
      unbounded search, cut at 80 references in search order and then sorted. */
  lemma SearchIsExact(ctx: Context, spec: seq<Field>)
    requires Fits(Object(spec), "spec", 0) && Size(Object(spec)) <= 4096
    ensures References(ctx, spec) == StableSort(RefLess, Take(Unbounded(ctx, Object(spec), "spec"), 80))
  {
    hide Candidates, Collect, RefLess, Fits, Size, AddAll;
    CollectExact(ctx, Fresh, Object(spec), "spec", 0);
    CandidatesShort(ctx, Object(spec), "spec", 0);
    AddAllIsFirsts(Candidates(ctx, Object(spec), "spec"));
  }

  // ----- what a field refers to -----

  /** The word in any case: each letter of it may be upper. */
  predicate InAnyCase(key: string, word: string) {
    |key| == |word| && forall k :: 0 <= k < |key| ==> key[k] == word[k] || ('a' <= word[k] <= 'z' && key[k] as int == word[k] as int - 32)
  }

  /** The kind that a reference field stands for by its name alone. */
  predicate KeyNamesKind(key: string, kind: string) {
    || ((InAnyCase(key, "secretref") || InAnyCase(key, "secretrefs")) && kind == "Secret")
    || ((InAnyCase(key, "configmapref") || InAnyCase(key, "configmaprefs")) && kind == "ConfigMap")
    || ((InAnyCase(key, "serviceaccountref") || InAnyCase(key, "serviceaccountrefs")) && kind == "ServiceAccount")
    || ((InAnyCase(key, "serviceref") || InAnyCase(key, "servicerefs")) && kind == "Service")
    || ((InAnyCase(key, "backendref") || InAnyCase(key, "backendrefs")) && kind == "Service")
  }

  /** The kind whose name a field holds as text. */
  predicate NameKeyNamesKind(key: string, kind: string) {
    || (InAnyCase(key, "secretname") && kind == "Secret")
    || (InAnyCase(key, "configmapname") && kind == "ConfigMap")
    || (InAnyCase(key, "serviceaccountname") && kind == "ServiceAccount")
    || (InAnyCase(key, "servicename") && kind == "Service")
  }

  ghost predicate ReferenceKey(key: string) {
    exists p: string :: key == p + "Ref" || key == p + "Refs" || key == p + "Reference" || key == p + "References"
  }

  predicate ClusterScoped(kind: string) {
    || kind == "Cluster" || kind == "Namespace" || kind == "Node" || kind == "PersistentVolume" || kind == "StorageClass"
    || kind == "CustomResourceDefinition"
  }

  predicate Known(kind: string) {
    ClusterScoped(kind) || kind in WorkloadKinds || kind in OtherKinds
  }

  predicate TextAt(fields: seq<Field>, key: string, i: int) {
    0 <= i < |fields| && fields[i].key == key && fields[i].value.Text? && forall j :: 0 <= j < i ==> fields[j].key != key
  }

  /** The text of an object's member, without the space around it, or the fallback if it has none. */
  ghost predicate Reads(fields: seq<Field>, key: string, fallback: string, text: string) {
    || (exists i :: TextAt(fields, key, i) && text == TrimSpace(fields[i].value.text))
    || (text == fallback && forall i :: !TextAt(fields, key, i))
  }

  /** A target of a cluster-wide kind or definition has no namespace; any other has the one named beside it, or else
      that of the source. */
  ghost predicate InNamespace(ctx: Context, fields: seq<Field>, clusterWide: bool, namespace: string) {
    if clusterWide then namespace == "" else Reads(fields, "namespace", ctx.namespace, namespace)
  }

  /** What an object below a reference field refers to: a custom resource if a served definition has its API version and
      kind, or else its own kind if that is known, or else the kind its key stands for. */
  ghost predicate ObjectRefersTo(ctx: Context, key: string, fields: seq<Field>, path: string, r: Reference) {
    exists name, kindName, apiVersion ::
      && Reads(fields, "name", "", name) && Reads(fields, "kind", "", kindName) && Reads(fields, "apiVersion", "", apiVersion)
      && TargetIs(ctx, key, fields, path, name, kindName, ctx.definition(apiVersion, kindName), r)
  }

  ghost predicate TargetIs(ctx: Context, key: string, fields: seq<Field>, path: string, name: string, kindName: string, definition: Option<string>, r: Reference) {
    && name != "" && r.sourceField == path
    && match definition
       case Some(scope) =>
         r.kind == "CustomResource" && r.name == kindName + ":" + name && InNamespace(ctx, fields, scope == "Cluster", r.namespace)
       case None =>
         && r.name == name && (if Known(kindName) then r.kind == kindName else KeyNamesKind(key, r.kind))
         && InNamespace(ctx, fields, ClusterScoped(r.kind) || (r.kind == "CustomResource" && ctx.scope == "Cluster"), r.namespace)
  }

  /** What a field refers to: as an object, as a list of objects, or as a name. */
  ghost predicate FieldRefersTo(ctx: Context, fields: seq<Field>, f: Field, path: string, r: Reference) {
    || (ReferenceKey(f.key) && f.value.Object? && ObjectRefersTo(ctx, f.key, f.value.fields, path, r))
    || (ReferenceKey(f.key) && f.value.List? && ItemRefersTo(ctx, f.key, f.value.items, path, r))
    || (f.value.Text? && NameKeyNamesKind(f.key, r.kind) && r.name == TrimSpace(f.value.text) != "" && r.sourceField == path
        && InNamespace(ctx, fields, false, r.namespace))
  }

  ghost predicate ItemRefersTo(ctx: Context, key: string, items: seq<Value>, path: string, r: Reference) {
    exists i: nat :: i < |items| && items[i].Object? && ObjectRefersTo(ctx, key, items[i].fields, path + "[" + Itoa(i) + "]", r)
  }

  lemma LowerIs(key: string, word: string)
    requires forall k :: 0 <= k < |word| ==> 'a' <= word[k] <= 'z'
    ensures Lower(key) == word <==> InAnyCase(key, word)
  {
    assert InAnyCase(key, word) ==> forall k :: 0 <= k < |key| ==> Lower(key)[k] == word[k];
    if Lower(key) == word {
      assert forall k :: 0 <= k < |key| ==> Lower(key)[k] == word[k];
    }
  }

  lemma KindOfKey(key: string, kind: string)
    ensures KeyNamesKind(key, kind) <==> kind != "" && KindFromKey(key) == kind
  {
    LowerIs(key, "secretref");
    LowerIs(key, "secretrefs");
    LowerIs(key, "configmapref");
    LowerIs(key, "configmaprefs");
    LowerIs(key, "serviceaccountref");
    LowerIs(key, "serviceaccountrefs");
    LowerIs(key, "serviceref");
    LowerIs(key, "servicerefs");
    LowerIs(key, "backendref");
    LowerIs(key, "backendrefs");
    hide Lower, InAnyCase;
  }

  lemma KindOfNameKey(key: string, kind: string)
    ensures NameKeyNamesKind(key, kind) <==> kind != "" && KindFromNameKey(key) == kind
    ensures kind != "" && KindFromNameKey(key) == kind ==> kind !in ClusterKinds && kind != "CustomResource"
  {
    LowerIs(key, "secretname");
    LowerIs(key, "configmapname");
    LowerIs(key, "serviceaccountname");
    LowerIs(key, "servicename");
    hide Lower, InAnyCase;
  }

  lemma SuffixIs(key: string, suffix: string)
    ensures HasSuffix(key, suffix) <==> exists p: string :: key == p + suffix
  {
    if HasSuffix(key, suffix) {
      assert key == key[..|key| - |suffix|] + suffix;
    }
  }

  lemma ReferenceKeyIs(key: string)
    ensures ReferenceKey(key) <==> IsReferenceField(key)
  {
    SuffixIs(key, "Ref");
    SuffixIs(key, "Refs");
    SuffixIs(key, "Reference");
    SuffixIs(key, "References");
    hide HasSuffix;
  }

  lemma ScopeOfKind(kind: string)
    ensures kind in ClusterKinds <==> ClusterScoped(kind)
  {
  }

  lemma KnownIs(kind: string)
    ensures kind in KnownKinds <==> Known(kind)
  {
    ScopeOfKind(kind);
    hide ClusterScoped;
    assert KnownKinds == ClusterKinds + WorkloadKinds + OtherKinds;
  }

  lemma {:induction false} ReadsIs(fields: seq<Field>, key: string, fallback: string, text: string)
    ensures Reads(fields, key, fallback, text) <==> text == StringAt(fields, key, fallback)
  {
    hide TrimSpace;
    if fields != [] {
      var rest := fields[1..];
      ReadsIs(rest, key, fallback, text);
      assert forall i :: 0 <= i < |rest| ==> rest[i] == fields[i + 1];
      if fields[0].key == key {
        assert TextAt(fields, key, 0) <==> fields[0].value.Text?;
      } else {
        forall i | 0 <= i < |rest|
          ensures TextAt(fields, key, i + 1) <==> TextAt(rest, key, i)
        {
          if TextAt(fields, key, i + 1) {
            assert forall j :: 0 <= j < i ==> rest[j] == fields[j + 1];
          }
        }
        if i :| TextAt(fields, key, i) {
          assert TextAt(rest, key, i - 1);
        }
        if i :| TextAt(rest, key, i) {
          assert TextAt(fields, key, i + 1);
        }
      }
    }
  }

  lemma ObjectIs(ctx: Context, key: string, fields: seq<Field>, path: string, r: Reference)
    ensures FromObject(ctx, fields, KindFromKey(key), path) == Some(r) <==> ObjectRefersTo(ctx, key, fields, path, r)
  {
    hide StringAt, Reads, KnownKinds, ClusterKinds, Known, ClusterScoped, KeyNamesKind, KindFromKey;
    var name, kindName, apiVersion := StringAt(fields, "name", ""), StringAt(fields, "kind", ""), StringAt(fields, "apiVersion", "");
    TargetOf(ctx, key, fields, path, r);
    forall name', kindName', apiVersion'
      ensures Reads(fields, "name", "", name') && Reads(fields, "kind", "", kindName') && Reads(fields, "apiVersion", "", apiVersion')
         <==> name' == name && kindName' == kindName && apiVersion' == apiVersion
    {
      ReadsIs(fields, "name", "", name');
      ReadsIs(fields, "kind", "", kindName');
      ReadsIs(fields, "apiVersion", "", apiVersion');
    }
    hide TargetIs, FromObject;
    assert Reads(fields, "name", "", name) && Reads(fields, "kind", "", kindName) && Reads(fields, "apiVersion", "", apiVersion);
  }

  lemma TargetOf(ctx: Context, key: string, fields: seq<Field>, path: string, r: Reference)
    ensures var name, kindName, apiVersion := StringAt(fields, "name", ""), StringAt(fields, "kind", ""), StringAt(fields, "apiVersion", "");
            FromObject(ctx, fields, KindFromKey(key), path) == Some(r) <==> TargetIs(ctx, key, fields, path, name, kindName, ctx.definition(apiVersion, kindName), r)
  {
    hide StringAt, Reads, KnownKinds, ClusterKinds, Known, ClusterScoped, KeyNamesKind, KindFromKey;
    var kindName, apiVersion := StringAt(fields, "kind", ""), StringAt(fields, "apiVersion", "");
    KnownIs(kindName);
    KindOfKey(key, r.kind);
    ScopeOfKind(r.kind);
    CustomIsNamespaced();
    ReadsIs(fields, "namespace", ctx.namespace, r.namespace);
    NoKindIsKnown();
  }

  lemma CustomIsNamespaced()
    ensures "CustomResource" !in ClusterKinds && !ClusterScoped("CustomResource")
  {
  }

  lemma NoKindIsKnown()
    ensures "" !in KnownKinds
  {
  }

  lemma {:induction false} ListIs(ctx: Context, key: string, items: seq<Value>, path: string, n: nat, r: Reference)
    requires n <= |items|
    ensures r in ListRefs(ctx, items, KindFromKey(key), path, n) <==>
            exists i: nat :: n <= i < |items| && items[i].Object? && ObjectRefersTo(ctx, key, items[i].fields, path + "[" + Itoa(i) + "]", r)
    decreases |items| - n
  {
    hide FromObject, ObjectRefersTo, KindFromKey, Itoa;
    if n < |items| {
      ListIs(ctx, key, items, path, n + 1, r);
      if items[n].Object? {
        ObjectIs(ctx, key, items[n].fields, IndexPath(path, n), r);
      }
    }
  }

  lemma NameIs(ctx: Context, fields: seq<Field>, f: Field, path: string, r: Reference)
    ensures r in NameRefs(ctx, fields, f, path) <==>
            && f.value.Text? && NameKeyNamesKind(f.key, r.kind) && r.name == TrimSpace(f.value.text) != "" && r.sourceField == path
            && InNamespace(ctx, fields, false, r.namespace)
  {
    hide TrimSpace, StringAt, Reads, NameKeyNamesKind, KindFromNameKey, ClusterKinds;
    KindOfNameKey(f.key, r.kind);
    ReadsIs(fields, "namespace", ctx.namespace, r.namespace);
  }

  /** What one field offers the search is exactly what it refers to. */
  lemma FieldRefsAre(ctx: Context, fields: seq<Field>, f: Field, path: string, r: Reference)
    ensures r in FieldRefs(ctx, fields, f, path) <==> FieldRefersTo(ctx, fields, f, path, r)
  {
    hide TrimSpace, Reads, NameKeyNamesKind, IsReferenceField, ReferenceKey, FromObject, ObjectRefersTo, KindFromKey, Itoa, ListRefs, NameRefs;
    ReferenceKeyIs(f.key);
    NameIs(ctx, fields, f, path, r);
    if f.value.Object? {
      ObjectIs(ctx, f.key, f.value.fields, path, r);
    }
    if f.value.List? {
      ListIs(ctx, f.key, f.value.items, path, 0, r);
    }
  }

  // ----- where the fields are -----

  predicate PlainKey(key: string) {
    1 <= |key| <= 64 && forall k :: 0 <= k < |key| ==> 'a' <= key[k] <= 'z' || 'A' <= key[k] <= 'Z' || '0' <= key[k] <= '9' || key[k] == '_' || key[k] == '-'
  }

  /** Below a value at a path, an object with the given fields has the field f, at the path p. */
  ghost predicate Occurs(v: Value, path: string, fields: seq<Field>, f: Field, p: string)
    decreases v
  {
    match v
    case List(items) => exists i: nat :: i < |items| && Occurs(items[i], path + "[" + Itoa(i) + "]", fields, f, p)
    case Object(own) =>
      exists i: nat :: i < |own| &&
        var at := path + "." + if PlainKey(own[i].key) then own[i].key else "field";
        (own == fields && own[i] == f && at == p) || Occurs(own[i].value, at, fields, f, p)
    case _ => false
  }

  lemma FieldPathIs(path: string, key: string)
    ensures FieldPath(path, key) == path + "." + if PlainKey(key) then key else "field"
  {
  }

  ghost predicate RefersTo(ctx: Context, v: Value, path: string, r: Reference) {
    exists fields, f, p :: Occurs(v, path, fields, f, p) && FieldRefersTo(ctx, fields, f, p, r)
  }

  /** The unbounded search finds exactly what the fields below a value refer to. */
  lemma {:induction false} CandidatesAre(ctx: Context, v: Value, path: string, r: Reference)
    ensures r in Candidates(ctx, v, path) <==> RefersTo(ctx, v, path, r)
    decreases v, 0
  {
    hide FieldRefersTo, ItemCandidates, FieldCandidates, Candidates;
    CandidatesOnce(ctx, v, path);
    match v
    case List(items) =>
      ItemCandidatesAre(ctx, items, path, 0, r);
      ListRefersTo(ctx, items, path, r);
    case Object(own) =>
      FieldCandidatesAre(ctx, own, path, 0, r);
      FieldsReferTo(ctx, own, path, r);
    case _ =>
  }

  lemma ListRefersTo(ctx: Context, items: seq<Value>, path: string, r: Reference)
    ensures RefersTo(ctx, List(items), path, r) <==> exists i: nat :: i < |items| && RefersTo(ctx, items[i], IndexPath(path, i), r)
  {
    hide FieldRefersTo, Itoa;
    if i: nat :| i < |items| && RefersTo(ctx, items[i], IndexPath(path, i), r) {
      var fields, f, p :| Occurs(items[i], IndexPath(path, i), fields, f, p) && FieldRefersTo(ctx, fields, f, p, r);
      assert Occurs(List(items), path, fields, f, p);
    }
  }

  /** A field of the object, or one below one of its values. */
  ghost predicate FieldLeadsTo(ctx: Context, own: seq<Field>, path: string, i: nat, r: Reference)
    requires i < |own|
  {
    var at := FieldPath(path, own[i].key);
    FieldRefersTo(ctx, own, own[i], at, r) || RefersTo(ctx, own[i].value, at, r)
  }

  lemma FieldsReferTo(ctx: Context, own: seq<Field>, path: string, r: Reference)
    ensures RefersTo(ctx, Object(own), path, r) <==> exists i: nat :: i < |own| && FieldLeadsTo(ctx, own, path, i, r)
  {
    hide FieldRefersTo, PlainKey, FieldPath;
    forall i: nat | i < |own|
      ensures FieldPath(path, own[i].key) == path + "." + if PlainKey(own[i].key) then own[i].key else "field"
    {
      FieldPathIs(path, own[i].key);
    }
    if fields, f, p :| Occurs(Object(own), path, fields, f, p) && FieldRefersTo(ctx, fields, f, p, r) {
      var i: nat :| i < |own| && var at := FieldPath(path, own[i].key);
        (own == fields && own[i] == f && at == p) || Occurs(own[i].value, at, fields, f, p);
      assert FieldLeadsTo(ctx, own, path, i, r);
    }
    if i: nat :| i < |own| && FieldLeadsTo(ctx, own, path, i, r) {
      var at := FieldPath(path, own[i].key);
      if FieldRefersTo(ctx, own, own[i], at, r) {
        assert Occurs(Object(own), path, own, own[i], at);
      } else {
        var fields, f, p :| Occurs(own[i].value, at, fields, f, p) && FieldRefersTo(ctx, fields, f, p, r);
        assert Occurs(Object(own), path, fields, f, p);
      }
    }
  }

  lemma {:induction false} ItemCandidatesAre(ctx: Context, items: seq<Value>, path: string, n: nat, r: Reference)
    requires n <= |items|
    ensures r in ItemCandidates(ctx, items, path, n) <==> exists i: nat :: n <= i < |items| && RefersTo(ctx, items[i], IndexPath(path, i), r)
    decreases items, |items| - n
  {
    hide RefersTo, IndexPath, Candidates;
    if n < |items| {
      CandidatesAre(ctx, items[n], IndexPath(path, n), r);
      ItemCandidatesAre(ctx, items, path, n + 1, r);
    }
  }

  lemma {:induction false} FieldCandidatesAre(ctx: Context, own: seq<Field>, path: string, n: nat, r: Reference)
    requires n <= |own|
    ensures r in FieldCandidates(ctx, own, path, n) <==> exists i: nat :: n <= i < |own| && FieldLeadsTo(ctx, own, path, i, r)
    decreases own, |own| - n
  {
    hide RefersTo, FieldPath, Candidates, FieldRefs, FieldRefersTo;
    if n < |own| {
      FieldRefsAre(ctx, own, own[n], FieldPath(path, own[n].key), r);
      CandidatesAre(ctx, own[n].value, FieldPath(path, own[n].key), r);
      FieldCandidatesAre(ctx, own, path, n + 1, r);
      var here := FieldRefs(ctx, own, own[n], FieldPath(path, own[n].key)) + Candidates(ctx, own[n].value, FieldPath(path, own[n].key));
      assert r in FieldCandidates(ctx, own, path, n) <==> r in here || r in FieldCandidates(ctx, own, path, n + 1);
      assert r in here <==> FieldLeadsTo(ctx, own, path, n, r);
    }
  }

  /** The references of a spec are references that its fields make. Within the budgets, and with at most 80 accepted
      references, they are all the accepted ones. */
  lemma ReferencesAreReferredTo(ctx: Context, spec: seq<Field>, r: Reference)
    ensures r in References(ctx, spec) ==> ValidIdentity(r) && |r.sourceField| <= 512 && RefersTo(ctx, Object(spec), "spec", r)
    ensures Fits(Object(spec), "spec", 0) && Size(Object(spec)) <= 4096 && |Unbounded(ctx, Object(spec), "spec")| <= 80 ==>
              (r in References(ctx, spec) <==> ValidIdentity(r) && RefersTo(ctx, Object(spec), "spec", r))
  {
    hide Candidates, RefersTo, ValidIdentity, Fits, Size, References, Unbounded, Sorted;
    SearchIsSound(ctx, spec);
    CandidatesAre(ctx, Object(spec), "spec", r);
    if Fits(Object(spec), "spec", 0) && Size(Object(spec)) <= 4096 && |Unbounded(ctx, Object(spec), "spec")| <= 80 {
      SearchIsExact(ctx, spec);
      UnboundedHas(ctx, spec, r);
      SortKeeps(Unbounded(ctx, Object(spec), "spec"), r);
      assert Take(Unbounded(ctx, Object(spec), "spec"), MaxReferences) == Unbounded(ctx, Object(spec), "spec");
    }
  }

  lemma UnboundedHas(ctx: Context, spec: seq<Field>, r: Reference)
    ensures r in Unbounded(ctx, Object(spec), "spec") <==> r in Candidates(ctx, Object(spec), "spec") && ValidIdentity(r)
  {
    hide Candidates, Key, ValidIdentity;
    var candidates := Candidates(ctx, Object(spec), "spec");
    FirstsKeys(AcceptedKey, candidates);
    if r in candidates && ValidIdentity(r) {
      var i :| 0 <= i < |candidates| && candidates[i] == r;
      assert Seen(AcceptedKey, candidates, Key(r));
      var j :| 0 <= j < |Firsts(AcceptedKey, candidates)| && AcceptedKey(Firsts(AcceptedKey, candidates)[j]) == Some(Key(r));
      KeyInjective(Firsts(AcceptedKey, candidates)[j], r);
    }
  }

  lemma SortKeeps(rs: seq<Reference>, r: Reference)
    ensures r in StableSort(RefLess, rs) <==> r in rs
  {
    hide RefLess;
    assert r in StableSort(RefLess, rs) <==> r in multiset(StableSort(RefLess, rs));
  }

  // ----- the traversal object -----

  class ReferenceTraversal {
    var references: seq<Reference>
    var seen: set<string>
    var visits: nat

    function View(): Traversal
      reads this
    {
      Traversal(references, seen, visits)
    }

    constructor ()
      ensures View() == Fresh
    {
      references, seen, visits := [], {}, 0;
    }

    method AddReference(r: Reference)
      modifies this`references, this`seen
      ensures View() == Add(old(View()), r)
    {
      hide ValidIdentity, Key;
      if |references| >= MaxReferences || !ValidIdentity(r) || |r.sourceField| > MaxPathBytes {
        return;
      }
      if Key(r) in seen {
        return;
      }
      seen := seen + {Key(r)};
      references := references + [r];
    }

    method AddObject(ctx: Context, fields: seq<Field>, fallbackKind: string, path: string)
      modifies this
      ensures View() == AddAll(old(View()), OptionToSeq(FromObject(ctx, fields, fallbackKind, path)))
    {
      hide FromObject, Add;
      var r := FromObject(ctx, fields, fallbackKind, path);
      AddAllOfNone(View());
      if r.Some? {
        AddOne(View(), r.value);
        AddReference(r.value);
      }
    }

    /** The references of one field: an object, a list of objects, or a name. */
    method AddFieldReferences(ctx: Context, fields: seq<Field>, f: Field, path: string)
      modifies this
      ensures View() == AddField(ctx, old(View()), fields, f, path)
    {
      hide FromObject, Add, AddAll, IsReferenceField, KindFromKey, KindFromNameKey, TargetNamespace, StringAt, IndexPath;
      AddAllOfNone(View());
      if IsReferenceField(f.key) {
        if f.value.Object? {
          AddObject(ctx, f.value.fields, KindFromKey(f.key), path);
        }
        if f.value.List? {
          ghost var t := View();
          var items := f.value.items;
          var index := 0;
          while index < |items| && index < MaxCollection && |references| < MaxReferences
            invariant 0 <= index <= |items|
            invariant AddList(ctx, View(), items, KindFromKey(f.key), path, index) == AddList(ctx, t, items, KindFromKey(f.key), path, 0)
          {
            if items[index].Object? {
              AddObject(ctx, items[index].fields, KindFromKey(f.key), IndexPath(path, index));
            }
            index := index + 1;
          }
        }
      }
      AddAllOfNone(View());
      var nameKind := KindFromNameKey(f.key);
      if nameKind != "" && f.value.Text? && TrimSpace(f.value.text) != "" {
        var r := Reference(nameKind, TargetNamespace(nameKind, StringAt(fields, "namespace", ctx.namespace), ctx.scope), TrimSpace(f.value.text), path);
        AddOne(View(), r);
        AddReference(r);
      }
    }

    /** `collect`. */
    method CollectValue(ctx: Context, value: Value, path: string, depth: nat)
      modifies this
      ensures View() == Collect(ctx, old(View()), value, path, depth)
      decreases value
    {
      hide AddField, IndexPath, FieldPath;
      if value.Nil? || |references| >= MaxReferences || depth > MaxDepth || visits >= MaxVisits || |path| > MaxPathBytes {
        return;
      }
      visits := visits + 1;
      ghost var t := View();
      match value {
        case List(items) =>
          var index := 0;
          while index < |items| && index < MaxCollection && |references| < MaxReferences
            invariant 0 <= index <= |items|
            invariant CollectItems(ctx, View(), items, path, depth, index) == CollectItems(ctx, t, items, path, depth, 0)
          {
            CollectValue(ctx, items[index], IndexPath(path, index), depth + 1);
            index := index + 1;
          }
        case Object(fields) =>
          var index := 0;
          while index < |fields| && index < MaxCollection && |references| < MaxReferences
            invariant 0 <= index <= |fields|
            invariant CollectFields(ctx, View(), fields, path, depth, index) == CollectFields(ctx, t, fields, path, depth, 0)
          {
            var f := fields[index];
            var childPath := FieldPath(path, f.key);
            if |childPath| <= MaxPathBytes {
              AddFieldReferences(ctx, fields, f, childPath);
              CollectValue(ctx, f.value, childPath, depth + 1);
            }
            index := index + 1;
          }
        case _ =>
      }
    }
  }

  method FindReferences(ctx: Context, spec: seq<Field>) returns (result: seq<Reference>)
    ensures result == References(ctx, spec)
  {
    hide Collect, StableSort;
    var state := new ReferenceTraversal();
    state.CollectValue(ctx, Object(spec), "spec", 0);
    result := StableSort(RefLess, state.references);
  }
}
