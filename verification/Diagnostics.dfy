/** Snapshot diagnostics: aggregation by id, resource and reason, and the bounded normal form a snapshot carries. */
module Diagnostics {
  import opened Text
  import opened Sorting
  import opened Dedup

  const MaxInputs := 256
  const MaxDiagnostics := 64
  const MaxCount := 1_000_000

  datatype Diagnostic = Diagnostic(id: string, resource: string, reason: string, count: int)
  datatype Key = Key(id: string, resource: string, reason: string)

  function KeyOf(d: Diagnostic): Key { Key(d.id, d.resource, d.reason) }
  function SomeKey(d: Diagnostic): Option<Key> { Some(KeyOf(d)) }

  predicate KeyLess(a: Key, b: Key) {
    if a.id != b.id then Less(a.id, b.id)
    else if a.resource != b.resource then Less(a.resource, b.resource)
    else Less(a.reason, b.reason)
  }

  lemma KeyLessFacts(a: Key, b: Key, c: Key)
    ensures !KeyLess(a, a) && !(KeyLess(a, b) && KeyLess(b, a))
    ensures KeyLess(a, b) || a == b || KeyLess(b, a)
    ensures KeyLess(a, b) && KeyLess(b, c) ==> KeyLess(a, c)
  {
    hide Less;
    LessTotal(a.id, b.id);
    LessTotal(a.resource, b.resource);
    LessTotal(a.reason, b.reason);
    LessTotal(a.id, a.id);
    LessTotal(a.resource, a.resource);
    LessTotal(a.reason, a.reason);
    LessTotal(b.id, c.id);
    LessTotal(b.resource, c.resource);
    LessTotal(b.reason, c.reason);
    if KeyLess(a, b) && KeyLess(b, c) {
      if Less(a.id, b.id) && Less(b.id, c.id) {
        LessTransitive(a.id, b.id, c.id);
      } else if a.id == b.id == c.id {
        if Less(a.resource, b.resource) && Less(b.resource, c.resource) {
          LessTransitive(a.resource, b.resource, c.resource);
        } else if a.resource == b.resource == c.resource {
          LessTransitive(a.reason, b.reason, c.reason);
        }
      }
    }
  }

  lemma KeyOrder()
    ensures StrictWeakOrder(KeyLess)
  {
    hide KeyLess;
    forall a, b, c
      ensures !KeyLess(a, a) && (KeyLess(a, b) && KeyLess(b, c) ==> KeyLess(a, c)) && (KeyLess(a, c) ==> KeyLess(a, b) || KeyLess(b, c))
    {
      KeyLessFacts(a, b, c);
      KeyLessFacts(b, a, c);
      KeyLessFacts(b, c, a);
    }
  }

  // ----- aggregation -----

  function AtLeastOne(count: int): int { if count < 1 then 1 else count }

  /** The sum of a group's counts, each at least 1. */
  function GroupSum(ds: seq<Diagnostic>, key: Key): (r: nat)
  {
    if ds == [] then 0
    else GroupSum(ds[..|ds| - 1], key) + if KeyOf(ds[|ds| - 1]) == key then AtLeastOne(ds[|ds| - 1].count) else 0
  }

  function Keys(ds: seq<Diagnostic>): seq<Key> {
    seq(|ds|, i requires 0 <= i < |ds| => KeyOf(ds[i]))
  }

  function SortedKeys(ds: seq<Diagnostic>): seq<Key> {
    StableSort(KeyLess, Keys(Firsts(SomeKey, ds)))
  }

  function Grouped(ds: seq<Diagnostic>, keys: seq<Key>): seq<Diagnostic> {
    seq(|keys|, i requires 0 <= i < |keys| => Diagnostic(keys[i].id, keys[i].resource, keys[i].reason, GroupSum(ds, keys[i])))
  }

  /** Fewer than two diagnostics are returned as they are, whatever their count. */
  function Aggregate(ds: seq<Diagnostic>): seq<Diagnostic> {
    if |ds| < 2 then ds else Grouped(ds, SortedKeys(ds))
  }

  /** The counting loop after some diagnostics: the keys in order of first appearance, each with its sum. */
  ghost predicate Counting(ds: seq<Diagnostic>, keys: seq<Key>, counts: map<Key, int>) {
    && keys == Keys(Firsts(SomeKey, ds))
    && (forall key :: key in counts <==> Seen(SomeKey, ds, key))
    && (forall key :: key in counts ==> counts[key] == GroupSum(ds, key))
  }

  lemma CountingStep(ds: seq<Diagnostic>, i: nat, keys: seq<Key>, counts: map<Key, int>)
    requires i < |ds| && Counting(ds[..i], keys, counts)
    ensures var key := KeyOf(ds[i]);
            Counting(ds[..i + 1], if key in counts then keys else keys + [key],
                     counts[key := (if key in counts then counts[key] else 0) + AtLeastOne(ds[i].count)])
  {
    hide KeyOf, AtLeastOne;
    var upTo := ds[..i + 1];
    assert upTo[..i] == ds[..i] && upTo[i] == ds[i];
    SeenStep(SomeKey, upTo);
    FirstIsUnseen(SomeKey, upTo);
    UnseenSum(ds[..i], KeyOf(ds[i]));
    var before := Firsts(SomeKey, ds[..i]);
    assert Keys(before + [ds[i]]) == Keys(before) + [KeyOf(ds[i])];
    assert Keys(before + []) == Keys(before);
  }

  /** `aggregateSnapshotDiagnostics`: the counting loop over a map and a list of keys, then the sort. */
  method AggregateDiagnostics(ds: seq<Diagnostic>) returns (result: seq<Diagnostic>)
    ensures result == Aggregate(ds)
  {
    hide Counting, KeyOf, AtLeastOne, Keys, Firsts, GroupSum;
    if |ds| < 2 {
      return ds;
    }
    var counts: map<Key, int> := map[];
    var keys: seq<Key> := [];
    CountingStart();
    assert ds[..0] == [];
    for i := 0 to |ds|
      invariant Counting(ds[..i], keys, counts)
    {
      CountingStep(ds, i, keys, counts);
      var key := KeyOf(ds[i]);
      if key !in counts {
        keys := keys + [key];
      }
      counts := counts[key := (if key in counts then counts[key] else 0) + AtLeastOne(ds[i].count)];
    }
    assert ds[..|ds|] == ds;
    CountingEnd(ds, keys, counts);
    keys := StableSort(KeyLess, keys);
    result := ListGroups(ds, keys, counts);
  }

  /** The loop that lists the groups by their sorted keys. */
  method ListGroups(ghost ds: seq<Diagnostic>, keys: seq<Key>, counts: map<Key, int>) returns (result: seq<Diagnostic>)
    requires forall key :: key in keys ==> key in counts && counts[key] == GroupSum(ds, key)
    ensures result == Grouped(ds, keys)
  {
    hide GroupSum;
    result := [];
    for i := 0 to |keys|
      invariant result == Grouped(ds, keys[..i])
    {
      assert keys[i] in keys;
      assert Grouped(ds, keys[..i + 1]) == Grouped(ds, keys[..i]) + [Diagnostic(keys[i].id, keys[i].resource, keys[i].reason, GroupSum(ds, keys[i]))];
      result := result + [Diagnostic(keys[i].id, keys[i].resource, keys[i].reason, counts[keys[i]])];
    }
    assert keys[..|keys|] == keys;
  }

  lemma CountingStart()
    ensures Counting([], [], map[])
  {}

  lemma CountingEnd(ds: seq<Diagnostic>, keys: seq<Key>, counts: map<Key, int>)
    requires Counting(ds, keys, counts)
    ensures StableSort(KeyLess, keys) == SortedKeys(ds)
    ensures forall key :: key in SortedKeys(ds) ==> key in counts && counts[key] == GroupSum(ds, key)
  {
    hide KeyLess, GroupSum, StableSort;
    SortedKeysAre(ds);
  }

  lemma {:induction false} UnseenSum(ds: seq<Diagnostic>, key: Key)
    ensures Seen(SomeKey, ds, key) <==> GroupSum(ds, key) > 0
  {
    if ds != [] {
      UnseenSum(ds[..|ds| - 1], key);
      SeenStep(SomeKey, ds);
    }
  }

  /** The sorted keys are exactly the keys that occur, strictly ascending. */
  lemma SortedKeysAre(ds: seq<Diagnostic>)
    ensures forall key :: key in SortedKeys(ds) <==> Seen(SomeKey, ds, key)
    ensures forall i, j :: 0 <= i < j < |SortedKeys(ds)| ==> KeyLess(SortedKeys(ds)[i], SortedKeys(ds)[j])
  {
    hide KeyLess, StrictWeakOrder;
    var kept := Firsts(SomeKey, ds);
    var keys, sorted := Keys(kept), SortedKeys(ds);
    FirstsKeys(SomeKey, ds);
    KeyOrder();
    StableSortSorted(KeyLess, keys);
    forall key
      ensures key in sorted <==> Seen(SomeKey, ds, key)
    {
      assert key in sorted <==> key in multiset(sorted);
      if Seen(SomeKey, kept, key) {
        var j :| 0 <= j < |kept| && SomeKey(kept[j]) == Some(key);
        assert keys[j] == key;
      }
    }
    assert forall i, j :: 0 <= i < j < |keys| ==> keys[i] != keys[j] by {
      forall i, j | 0 <= i < j < |keys|
        ensures keys[i] != keys[j]
      {
        assert SomeKey(kept[i]) != SomeKey(kept[j]);
      }
    }
    DistinctPermutation(keys, sorted);
    forall i, j | 0 <= i < j < |sorted|
      ensures KeyLess(sorted[i], sorted[j])
    {
      KeyLessFacts(sorted[i], sorted[j], sorted[j]);
    }
  }

  /** Strictly ascending sequences with the same elements are equal. */
  lemma {:induction false} AscendingUnique(s: seq<Key>, t: seq<Key>)
    requires forall i, j :: 0 <= i < j < |s| ==> KeyLess(s[i], s[j])
    requires forall i, j :: 0 <= i < j < |t| ==> KeyLess(t[i], t[j])
    requires forall k :: k in s <==> k in t
    ensures s == t
  {
    hide KeyLess;
    assert t == [] || t[0] in t;
    if s != [] {
      assert s[0] in t && t != [] && t[0] in s;
      var i :| 0 <= i < |t| && t[i] == s[0];
      var j :| 0 <= j < |s| && s[j] == t[0];
      KeyLessFacts(s[0], t[0], t[0]);
      assert s[0] == t[0];
      forall k
        ensures k in s[1..] <==> k in t[1..]
      {
        if k in s[1..] {
          var a :| 1 <= a < |s| && s[a] == k;
          KeyLessFacts(s[0], k, k);
          assert k in t;
          var b :| 0 <= b < |t| && t[b] == k;
          assert t[1..][b - 1] == k;
        }
        if k in t[1..] {
          var a :| 1 <= a < |t| && t[a] == k;
          KeyLessFacts(t[0], k, k);
          assert k in s;
          var b :| 0 <= b < |s| && s[b] == k;
          assert s[1..][b - 1] == k;
        }
      }
      AscendingUnique(s[1..], t[1..]);
      assert s == [s[0]] + s[1..] && t == [t[0]] + t[1..];
    }
  }

  // ----- the normal form -----

  predicate ValidId(s: string) {
    1 <= |s| <= 128 && 'a' <= s[0] <= 'z' && forall k :: 1 <= k < |s| ==> 'a' <= s[k] <= 'z' || '0' <= s[k] <= '9' || s[k] == '-' || s[k] == '/'
  }

  const KnownReasons: set<string> := {
    "api_unavailable", "forbidden", "invalid_item", "invalid_response", "pagination_byte_limit", "pagination_incomplete",
    "pagination_item_limit", "pagination_page_limit", "pagination_token_invalid", "processing_limit", "request_failed",
    "request_invalid", "response_read_failed", "response_too_large"}
  const KnownResources: set<string> := {
    "ConfigMaps", "CronJobs", "Custom resources", "CustomResourceDefinitions", "DaemonSets", "Deployments", "EndpointSlices",
    "Gateways", "GRPCRoutes", "HorizontalPodAutoscalers", "HTTPRoutes", "Ingresses", "Jobs", "Kubernetes version", "Namespaces",
    "NetworkPolicies", "Nodes", "PersistentVolumeClaims", "PersistentVolumes", "Pods", "ReplicaSets", "Resources",
    "ServiceAccounts", "Services", "StatefulSets", "StorageClasses", "TCPRoutes", "TLSRoutes"}

  predicate ValidKey(k: Key) {
    ValidId(k.id) && k.resource in KnownResources && k.reason in KnownReasons
  }

  function Clamp(count: int): int {
    if count < 1 then 1 else if count > MaxCount then MaxCount else count
  }

  function Clean(ds: seq<Diagnostic>): (r: seq<Diagnostic>)
    ensures |r| <= |ds|
  {
    if ds == [] then []
    else
      var d := ds[|ds| - 1];
      Clean(ds[..|ds| - 1]) + if ValidKey(KeyOf(d)) then [d.(count := Clamp(d.count))] else []
  }

  function CapCounts(ds: seq<Diagnostic>): seq<Diagnostic> {
    seq(|ds|, i requires 0 <= i < |ds| => if ds[i].count > MaxCount then ds[i].(count := MaxCount) else ds[i])
  }

  /** `safeSnapshotDiagnostics`. */
  function Safe(values: seq<Diagnostic>): seq<Diagnostic> {
    Take(CapCounts(Aggregate(Clean(Take(values, MaxInputs)))), MaxDiagnostics)
  }

  method SafeDiagnostics(values: seq<Diagnostic>) returns (valid: seq<Diagnostic>)
    ensures valid == Safe(values)
  {
    hide ValidKey, Aggregate, CapCounts;
    var inputs := if |values| > MaxInputs then values[..MaxInputs] else values;
    valid := [];
    for i := 0 to |inputs|
      invariant valid == Clean(inputs[..i])
    {
      assert inputs[..i + 1][..i] == inputs[..i];
      var value := inputs[i];
      if !ValidKey(KeyOf(value)) {
        assert valid == Clean(inputs[..i + 1]);
        continue;
      }
      var count := value.count;
      if count < 1 {
        count := 1;
      }
      if count > MaxCount {
        count := MaxCount;
      }
      valid := valid + [Diagnostic(value.id, value.resource, value.reason, count)];
    }
    assert inputs[..|inputs|] == inputs;
    valid := AggregateDiagnostics(valid);
    valid := CapAll(valid);
    if |valid| > MaxDiagnostics {
      valid := valid[..MaxDiagnostics];
    }
  }

  /** The in-place loop over the aggregated counts. */
  method CapAll(aggregated: seq<Diagnostic>) returns (valid: seq<Diagnostic>)
    ensures valid == CapCounts(aggregated)
  {
    valid := aggregated;
    for index := 0 to |valid|
      invariant |valid| == |aggregated|
      invariant forall k :: 0 <= k < index ==> valid[k] == CapCounts(aggregated)[k]
      invariant forall k :: index <= k < |valid| ==> valid[k] == aggregated[k]
    {
      if valid[index].count > MaxCount {
        valid := valid[index := valid[index].(count := MaxCount)];
      }
    }
  }

  /** The clamped counts of one group, summed over the accepted inputs. */
  function CleanSum(ds: seq<Diagnostic>, key: Key): nat {
    if ds == [] then 0
    else
      var d := ds[|ds| - 1];
      CleanSum(ds[..|ds| - 1], key) + if KeyOf(d) == key && ValidKey(key) then Clamp(d.count) else 0
  }

  lemma {:induction false} CleanSumIsGroupSum(ds: seq<Diagnostic>, key: Key)
    ensures GroupSum(Clean(ds), key) == CleanSum(ds, key)
    ensures forall d :: d in Clean(ds) ==> 1 <= d.count <= MaxCount && ValidKey(KeyOf(d))
  {
    hide ValidKey;
    if ds != [] {
      var d := ds[|ds| - 1];
      var before := Clean(ds[..|ds| - 1]);
      CleanSumIsGroupSum(ds[..|ds| - 1], key);
      if ValidKey(KeyOf(d)) {
        var c := d.(count := Clamp(d.count));
        assert (before + [c])[..|before|] == before;
        assert KeyOf(c) == KeyOf(d) && AtLeastOne(c.count) == Clamp(d.count);
        assert Clean(ds) == before + [c];
      } else {
        assert Clean(ds) == before;
      }
    }
  }

  /** On cleaned input the shortcut for fewer than two diagnostics makes no difference. */
  lemma AggregateCleaned(ds: seq<Diagnostic>)
    requires forall d :: d in ds ==> d.count >= 1
    ensures Aggregate(ds) == Grouped(ds, SortedKeys(ds))
  {
    if |ds| == 1 {
      hide KeyLess;
      assert ds[..0] == [] && ds[0] in ds;
      assert GroupSum(ds[..0], KeyOf(ds[0])) == 0;
      assert Firsts(SomeKey, ds[..0]) == [];
      assert Firsts(SomeKey, ds) == [ds[0]];
      assert Keys([ds[0]]) == [KeyOf(ds[0])];
      assert StableSort(KeyLess, [KeyOf(ds[0])]) == [KeyOf(ds[0])] by {
        assert StableSort(KeyLess, [KeyOf(ds[0])][1..]) == [];
      }
      assert Grouped(ds, [KeyOf(ds[0])]) == ds;
    } else if |ds| == 0 {
      assert ds == [] && Firsts(SomeKey, ds) == [] && SortedKeys(ds) == [];
    }
  }

  function NormalAt(ds: seq<Diagnostic>, key: Key): Diagnostic {
    Diagnostic(key.id, key.resource, key.reason, if CleanSum(ds, key) > MaxCount then MaxCount else CleanSum(ds, key))
  }

  /** What the normal form holds: the first 64 of the sorted groups, each with its clamped sum. */
  lemma SafeIs(values: seq<Diagnostic>)
    ensures var ds := Take(values, MaxInputs);
            var keys := Take(SortedKeys(Clean(ds)), MaxDiagnostics);
            && |Safe(values)| == |keys|
            && (forall i :: 0 <= i < |keys| ==> Safe(values)[i] == NormalAt(ds, keys[i]))
            && (forall i, j :: 0 <= i < j < |keys| ==> KeyLess(keys[i], keys[j]))
            && (forall key :: key in SortedKeys(Clean(ds)) <==> CleanSum(ds, key) > 0)
  {
    hide ValidKey, KeyLess, SortedKeys;
    var ds := Take(values, MaxInputs);
    CleanSumIsGroupSum(ds, Key("", "", ""));
    AggregateCleaned(Clean(ds));
    SortedKeysAre(Clean(ds));
    forall key
      ensures GroupSum(Clean(ds), key) == CleanSum(ds, key)
      ensures key in SortedKeys(Clean(ds)) <==> CleanSum(ds, key) > 0
    {
      CleanSumIsGroupSum(ds, key);
      UnseenSum(Clean(ds), key);
    }
  }

  /** The normal form is small, strictly sorted by key, with accepted keys and counts in range, and each count
      is the clamped sum of its group's clamped counts. */
  lemma NormalForm(values: seq<Diagnostic>)
    ensures var r := Safe(values);
            && |r| <= 64
            && (forall i, j :: 0 <= i < j < |r| ==> KeyLess(KeyOf(r[i]), KeyOf(r[j])))
            && (forall i :: 0 <= i < |r| ==> 1 <= r[i].count <= 1_000_000 && ValidKey(KeyOf(r[i])))
            && (forall i :: 0 <= i < |r| ==> r[i] == NormalAt(Take(values, 256), KeyOf(r[i])))
  {
    hide ValidKey, KeyLess, SortedKeys, Safe, Clean;
    SafeIs(values);
    var ds := Take(values, MaxInputs);
    var keys, r := Take(SortedKeys(Clean(ds)), MaxDiagnostics), Safe(values);
    forall i | 0 <= i < |r|
      ensures KeyOf(r[i]) == keys[i] && 1 <= r[i].count <= MaxCount && ValidKey(KeyOf(r[i]))
    {
      assert keys[i] in SortedKeys(Clean(ds));
      PositiveSumIsValid(ds, keys[i]);
    }
  }

  lemma {:induction false} PositiveSumIsValid(ds: seq<Diagnostic>, key: Key)
    requires CleanSum(ds, key) > 0
    ensures ValidKey(key)
  {
    hide ValidKey;
    if !ValidKey(key) {
      NoSum(ds, key);
    }
  }

  lemma {:induction false} NoSum(ds: seq<Diagnostic>, key: Key)
    requires !ValidKey(key)
    ensures CleanSum(ds, key) == 0
  {
    hide ValidKey;
    if ds != [] {
      NoSum(ds[..|ds| - 1], key);
    }
  }

  /** The result depends on the inputs only through the group sums. */
  lemma SafeDependsOnSums(v: seq<Diagnostic>, w: seq<Diagnostic>)
    requires |v| <= MaxInputs && |w| <= MaxInputs
    requires forall key :: CleanSum(v, key) == CleanSum(w, key)
    ensures Safe(v) == Safe(w)
  {
    hide ValidKey, KeyLess, SortedKeys, Safe, Clean, CleanSum;
    SafeIs(v);
    SafeIs(w);
    SortedKeysAre(Clean(v));
    SortedKeysAre(Clean(w));
    AscendingUnique(SortedKeys(Clean(v)), SortedKeys(Clean(w)));
    assert Safe(v) == Safe(w);
  }

  lemma {:induction false} CleanSumConcat(a: seq<Diagnostic>, b: seq<Diagnostic>, key: Key)
    ensures CleanSum(a + b, key) == CleanSum(a, key) + CleanSum(b, key)
  {
    hide ValidKey, Clamp;
    if b == [] {
      assert a + b == a;
    } else {
      var n := |b| - 1;
      assert (a + b)[..|a| + n] == a + b[..n] && (a + b)[|a| + n] == b[n];
      CleanSumConcat(a, b[..n], key);
    }
  }

  lemma {:induction false} CleanSumPermutes(v: seq<Diagnostic>, w: seq<Diagnostic>, key: Key)
    requires multiset(v) == multiset(w)
    ensures CleanSum(v, key) == CleanSum(w, key)
  {
    hide CleanSum;
    if v == [] {
      assert |multiset(w)| == 0 && w == [];
    } else {
      var n := |v| - 1;
      var a, b := SplitPermutation(v, w);
      CleanSumPermutes(v[..n], a + b, key);
      CleanSumConcat(a, b, key);
      CleanSumConcat(a + [v[n]], b, key);
      CleanSumConcat(a, [v[n]], key);
      CleanSumConcat(v[..n], [v[n]], key);
      assert v == v[..n] + [v[n]];
    }
  }

  /** For at most 256 inputs their order does not matter. */
  lemma SafeIgnoresOrder(v: seq<Diagnostic>, w: seq<Diagnostic>)
    requires multiset(v) == multiset(w) && |v| <= MaxInputs
    ensures Safe(v) == Safe(w)
  {
    hide Safe, CleanSum;
    assert |multiset(v)| == |v| && |multiset(w)| == |w|;
    forall key
      ensures CleanSum(v, key) == CleanSum(w, key)
    {
      CleanSumPermutes(v, w, key);
    }
    SafeDependsOnSums(v, w);
  }

  /** Group sums of a list with distinct accepted keys and counts in range. */
  lemma {:induction false} NormalSums(r: seq<Diagnostic>, key: Key)
    requires forall i, j :: 0 <= i < j < |r| ==> KeyLess(KeyOf(r[i]), KeyOf(r[j]))
    requires forall i :: 0 <= i < |r| ==> 1 <= r[i].count <= MaxCount && ValidKey(KeyOf(r[i]))
    ensures forall i :: 0 <= i < |r| && KeyOf(r[i]) == key ==> CleanSum(r, key) == r[i].count
    ensures (forall i :: 0 <= i < |r| ==> KeyOf(r[i]) != key) ==> CleanSum(r, key) == 0
  {
    hide ValidKey, KeyLess, KeyOf;
    if r != [] {
      var n := |r| - 1;
      NormalSums(r[..n], key);
      forall i | 0 <= i < n
        ensures KeyOf(r[i]) != KeyOf(r[n]) && r[..n][i] == r[i]
      {
        KeyLessFacts(KeyOf(r[i]), KeyOf(r[n]), KeyOf(r[n]));
      }
    }
  }

  /** Normalizing twice is normalizing once. */
  lemma SafeIdempotent(values: seq<Diagnostic>)
    ensures Safe(Safe(values)) == Safe(values)
  {
    hide ValidKey, KeyLess, SortedKeys, Safe, Clean, CleanSum;
    var r := Safe(values);
    NormalForm(values);
    SafeIs(r);
    var all := SortedKeys(Clean(r));
    SortedKeysAre(Clean(r));
    var own := Keys(r);
    forall key
      ensures key in all <==> key in own
    {
      NormalSums(r, key);
      if key in own {
        var i :| 0 <= i < |own| && own[i] == key;
        assert KeyOf(r[i]) == key;
      } else {
        forall i | 0 <= i < |r|
          ensures KeyOf(r[i]) != key
        {
          assert own[i] in own;
        }
      }
    }
    AscendingUnique(all, own);
    forall i | 0 <= i < |r|
      ensures Safe(r)[i] == r[i]
    {
      NormalSums(r, KeyOf(r[i]));
    }
    assert Safe(r) == r;
  }

  /** The normal form ascends by id, then resource, then reason. */
  lemma NormalAscends(values: seq<Diagnostic>, i: nat, j: nat)
    requires i < j < |Safe(values)|
    ensures var a, b := Safe(values)[i], Safe(values)[j];
            LessThen(a.id, b.id, LessThen(a.resource, b.resource, LessThen(a.reason, b.reason, false)))
  {
    hide Safe, Less, ValidKey, NormalAt;
    NormalForm(values);
    assert KeyLess(KeyOf(Safe(values)[i]), KeyOf(Safe(values)[j]));
  }
}
