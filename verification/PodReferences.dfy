/** The references of a pod template to secrets, config maps and claims: collected over all its lists, each once,
    cut at a limit, and sorted. */
module PodReferences {
  import opened Text
  import opened Names
  import opened Dedup
  import opened Sorting

  const MaxResults := 256
  const MaxItems := 256

  datatype Source = Source(configMap: Option<string>, secret: Option<string>)
  datatype Volume = Volume(source: Source, claim: Option<string>)
  datatype Container = Container(envFrom: seq<Source>, env: seq<Source>)
  datatype PodSpec = PodSpec(pullSecrets: seq<string>, volumes: seq<Volume>, initContainers: seq<Container>, containers: seq<Container>)

  /** Where in the template a reference stands. */
  datatype Place = PullSecret | VolumeConfigMap | VolumeSecret | VolumeClaim | EnvFromConfigMap | EnvFromSecret | EnvConfigMap | EnvSecret
  datatype Reference = Reference(place: Place, name: string)

  function Kind(p: Place): string {
    match p
    case VolumeConfigMap | EnvFromConfigMap | EnvConfigMap => "ConfigMap"
    case VolumeClaim => "PersistentVolumeClaim"
    case _ => "Secret"
  }

  function EdgeType(p: Place): string {
    if p.VolumeConfigMap? || p.VolumeSecret? || p.VolumeClaim? then "mounts" else "env-from"
  }

  function Suffix(p: Place): string {
    match p
    case PullSecret => ".imagePullSecrets"
    case VolumeConfigMap => ".volumes.configMap"
    case VolumeSecret => ".volumes.secret"
    case VolumeClaim => ".volumes.persistentVolumeClaim"
    case EnvFromConfigMap => ".containers.envFrom.configMapRef"
    case EnvFromSecret => ".containers.envFrom.secretRef"
    case EnvConfigMap => ".containers.env.valueFrom.configMapKeyRef"
    case EnvSecret => ".containers.env.valueFrom.secretKeyRef"
  }

  /** The string that deduplicates. */
  function KeyText(prefix: string, r: Reference): string {
    Kind(r.place) + ['\0'] + (r.name + ['\0'] + (EdgeType(r.place) + ['\0'] + (prefix + Suffix(r.place))))
  }

  function Key(r: Reference): Option<Reference> { if ValidReferenceName(r.name) then Some(r) else None }

  lemma SuffixesDiffer(p: Place, q: Place)
    ensures Suffix(p) == Suffix(q) ==> p == q
  {
    assert |Suffix(VolumeClaim)| == 30;
    match p {
      case PullSecret => assert Suffix(p) == ".imagePullSecrets" && |Suffix(p)| == 17;
      case VolumeConfigMap => assert |Suffix(p)| == 18;
      case VolumeSecret => assert |Suffix(p)| == 15;
      case VolumeClaim =>
      case EnvFromConfigMap => assert |Suffix(p)| == 32;
      case EnvFromSecret => assert |Suffix(p)| == 29;
      case EnvConfigMap => assert |Suffix(p)| == 41;
      case EnvSecret => assert |Suffix(p)| == 38;
    }
  }

  /** The key string tells references of one template apart. */
  lemma KeyTextInjective(prefix: string, a: Reference, b: Reference)
    requires Key(a).Some? && Key(b).Some?
    ensures KeyText(prefix, a) == KeyText(prefix, b) <==> a == b
  {
    hide *;
    if KeyText(prefix, a) == KeyText(prefix, b) {
      PlainParts(a);
      PlainParts(b);
      var fa, fb := prefix + Suffix(a.place), prefix + Suffix(b.place);
      KeyTextIs(prefix, a);
      KeyTextIs(prefix, b);
      SplitUnique(Kind(a.place), a.name + ['\0'] + (EdgeType(a.place) + ['\0'] + fa), Kind(b.place), b.name + ['\0'] + (EdgeType(b.place) + ['\0'] + fb), '\0');
      SplitUnique(a.name, EdgeType(a.place) + ['\0'] + fa, b.name, EdgeType(b.place) + ['\0'] + fb, '\0');
      SplitUnique(EdgeType(a.place), fa, EdgeType(b.place), fb, '\0');
      assert fa[|prefix|..] == Suffix(a.place) && fb[|prefix|..] == Suffix(b.place);
      SuffixesDiffer(a.place, b.place);
    }
  }

  lemma KeyTextIs(prefix: string, r: Reference)
    ensures KeyText(prefix, r) == Kind(r.place) + ['\0'] + (r.name + ['\0'] + (EdgeType(r.place) + ['\0'] + (prefix + Suffix(r.place))))
  {
    hide Kind, EdgeType, Suffix;
  }

  lemma PlainParts(r: Reference)
    requires Key(r).Some?
    ensures '\0' !in Kind(r.place) && '\0' !in r.name && '\0' !in EdgeType(r.place)
  {
    hide ValidReferenceName;
    PlainName(r.name);
  }

  lemma PlainName(name: string)
    requires ValidReferenceName(name)
    ensures '\0' !in name
  {
    DnsAlphabet(name);
    hide ValidDnsSubdomain;
    assert !DnsByte('\0');
  }

  // ----- all references in visiting order -----

  function SourceReferences(s: Source, configMap: Place, secret: Place): seq<Reference> {
    (if s.configMap.Some? then [Reference(configMap, s.configMap.value)] else []) + if s.secret.Some? then [Reference(secret, s.secret.value)] else []
  }

  function SourcesReferences(ss: seq<Source>, configMap: Place, secret: Place): seq<Reference> {
    if ss == [] then [] else SourcesReferences(ss[..|ss| - 1], configMap, secret) + SourceReferences(ss[|ss| - 1], configMap, secret)
  }

  function PullReferences(names: seq<string>): seq<Reference> {
    seq(|names|, k requires 0 <= k < |names| => Reference(PullSecret, names[k]))
  }

  function VolumeReferences(vs: seq<Volume>): seq<Reference> {
    if vs == [] then []
    else
      var v := vs[|vs| - 1];
      VolumeReferences(vs[..|vs| - 1]) + SourceReferences(v.source, VolumeConfigMap, VolumeSecret)
        + if v.claim.Some? then [Reference(VolumeClaim, v.claim.value)] else []
  }

  function ContainerReferences(cs: seq<Container>): seq<Reference> {
    if cs == [] then []
    else
      var c := cs[|cs| - 1];
      ContainerReferences(cs[..|cs| - 1]) + SourcesReferences(c.envFrom, EnvFromConfigMap, EnvFromSecret) + SourcesReferences(c.env, EnvConfigMap, EnvSecret)
  }

  function AllReferences(spec: PodSpec): seq<Reference> {
    PullReferences(spec.pullSecrets) + VolumeReferences(spec.volumes) + ContainerReferences(spec.initContainers + spec.containers)
  }

  predicate TooMany(spec: PodSpec) {
    || |spec.pullSecrets| > MaxItems || |spec.volumes| > MaxItems || |spec.initContainers| > MaxItems || |spec.containers| > MaxItems
    || |spec.initContainers| + |spec.containers| > MaxItems
    || exists k :: 0 <= k < |spec.initContainers + spec.containers| && Crowded((spec.initContainers + spec.containers)[k])
  }

  predicate Crowded(c: Container) { |c.envFrom| > MaxItems || |c.env| > MaxItems }

  function Limited(s: seq<Reference>): seq<Reference> { Take(s, MaxResults) }

  /** The comparison handed to `sort.SliceStable`. */
  predicate Before(prefix: string, a: Reference, b: Reference) {
    if Kind(a.place) != Kind(b.place) then Less(Kind(a.place), Kind(b.place))
    else if a.name != b.name then Less(a.name, b.name)
    else Less(prefix + Suffix(a.place), prefix + Suffix(b.place))
  }

  function Order(prefix: string): (Reference, Reference) -> bool { (a: Reference, b: Reference) => Before(prefix, a, b) }

  function References(spec: PodSpec, prefix: string): seq<Reference> {
    if TooMany(spec) then [] else StableSort(Order(prefix), Limited(Firsts(Key, AllReferences(spec))))
  }

  // ----- the collecting closure -----

  class Collector {
    const prefix: string
    var refs: seq<Reference>
    var seen: set<string>
    ghost var visited: seq<Reference>

    ghost predicate Valid()
      reads this
    {
      && refs == Limited(Firsts(Key, visited))
      && (|refs| < MaxResults ==> forall r :: Key(r).Some? ==> (KeyText(prefix, r) in seen <==> r in refs))
    }

    constructor (prefix: string)
      ensures Valid() && visited == [] && this.prefix == prefix
    {
      this.prefix := prefix;
      refs, seen, visited := [], {}, [];
    }

    method Add(r: Reference)
      requires Valid()
      modifies this
      ensures Valid() && visited == old(visited) + [r]
    {
      hide ValidReferenceName, KeyText, Firsts;
      visited := visited + [r];
      assert visited[..|visited| - 1] == old(visited);
      if |refs| >= MaxResults || !ValidReferenceName(r.name) {
        NotAdded(visited);
        return;
      }
      var key := KeyText(prefix, r);
      AddedOrNot(visited, refs);
      OneKey(prefix, r);
      if key in seen {
        return;
      }
      seen := seen + {key};
      refs := refs + [r];
    }

    method AddSource(s: Source, configMap: Place, secret: Place)
      requires Valid()
      modifies this
      ensures Valid() && visited == old(visited) + SourceReferences(s, configMap, secret)
    {
      if s.configMap.Some? {
        Add(Reference(configMap, s.configMap.value));
      }
      if s.secret.Some? {
        Add(Reference(secret, s.secret.value));
      }
    }

    method AddPullSecrets(names: seq<string>)
      requires Valid()
      modifies this
      ensures Valid() && visited == old(visited) + PullReferences(names)
    {
      hide Firsts, KeyText, Limited;
      for i := 0 to |names|
        invariant Valid() && visited == old(visited) + PullReferences(names[..i])
      {
        assert PullReferences(names[..i + 1]) == PullReferences(names[..i]) + [Reference(PullSecret, names[i])];
        Add(Reference(PullSecret, names[i]));
      }
      assert names[..|names|] == names;
    }

    method AddVolumes(vs: seq<Volume>)
      requires Valid()
      modifies this
      ensures Valid() && visited == old(visited) + VolumeReferences(vs)
    {
      hide Firsts, KeyText, Limited, SourceReferences;
      for i := 0 to |vs|
        invariant Valid() && visited == old(visited) + VolumeReferences(vs[..i])
      {
        assert vs[..i + 1][..i] == vs[..i];
        AddSource(vs[i].source, VolumeConfigMap, VolumeSecret);
        if vs[i].claim.Some? {
          Add(Reference(VolumeClaim, vs[i].claim.value));
        }
      }
      assert vs[..|vs|] == vs;
    }

    /** Gives up at the first container with too many entries. */
    method AddContainers(containers: seq<Container>) returns (crowded: bool)
      requires Valid()
      modifies this
      ensures Valid()
      ensures crowded <==> exists k :: 0 <= k < |containers| && Crowded(containers[k])
      ensures !crowded ==> visited == old(visited) + ContainerReferences(containers)
    {
      hide Firsts, KeyText, Limited, SourcesReferences;
      for i := 0 to |containers|
        invariant Valid() && visited == old(visited) + ContainerReferences(containers[..i])
        invariant forall k :: 0 <= k < i ==> !Crowded(containers[k])
      {
        if Crowded(containers[i]) {
          return true;
        }
        assert containers[..i + 1][..i] == containers[..i];
        AddSources(containers[i].envFrom, EnvFromConfigMap, EnvFromSecret);
        AddSources(containers[i].env, EnvConfigMap, EnvSecret);
      }
      assert containers[..|containers|] == containers;
      return false;
    }

    method AddSources(ss: seq<Source>, configMap: Place, secret: Place)
      requires Valid()
      modifies this
      ensures Valid() && visited == old(visited) + SourcesReferences(ss, configMap, secret)
    {
      hide Firsts, KeyText, Limited, SourceReferences;
      for i := 0 to |ss|
        invariant Valid() && visited == old(visited) + SourcesReferences(ss[..i], configMap, secret)
      {
        assert ss[..i + 1][..i] == ss[..i];
        AddSource(ss[i], configMap, secret);
      }
      assert ss[..|ss|] == ss;
    }
  }

  lemma OneKey(prefix: string, r: Reference)
    requires Key(r).Some?
    ensures forall q :: Key(q).Some? ==> (KeyText(prefix, q) == KeyText(prefix, r) <==> q == r)
  {
    hide KeyText, ValidReferenceName;
    forall q | Key(q).Some?
      ensures KeyText(prefix, q) == KeyText(prefix, r) <==> q == r
    {
      KeyTextInjective(prefix, q, r);
    }
  }

  /** A valid reference below the limit is added exactly if it is not there yet. */
  lemma AddedOrNot(s: seq<Reference>, refs: seq<Reference>)
    requires s != [] && Key(s[|s| - 1]).Some?
    requires refs == Limited(Firsts(Key, s[..|s| - 1])) && |refs| < MaxResults
    ensures Limited(Firsts(Key, s)) == if s[|s| - 1] in refs then refs else refs + [s[|s| - 1]]
  {
    hide ValidReferenceName;
    var n := |s| - 1;
    SeenIsKept(s[..n], s[n]);
    FirstIsUnseen(Key, s);
    assert refs + [] == refs;
  }

  lemma NotAdded(s: seq<Reference>)
    requires s != []
    requires |Firsts(Key, s[..|s| - 1])| >= MaxResults || !IsFirst(Key, s, |s| - 1)
    ensures Limited(Firsts(Key, s)) == Limited(Firsts(Key, s[..|s| - 1]))
  {
    hide Key;
    FirstsPrefix(Key, s, |s| - 1);
    if !IsFirst(Key, s, |s| - 1) {
      assert Firsts(Key, s) == Firsts(Key, s[..|s| - 1]) + [];
    }
  }

  lemma SeenIsKept(s: seq<Reference>, r: Reference)
    requires Key(r).Some?
    ensures Seen(Key, s, r) <==> r in Firsts(Key, s)
  {
    hide ValidReferenceName;
    FirstsKeys(Key, s);
    var kept := Firsts(Key, s);
    if Seen(Key, s, r) {
      assert Seen(Key, kept, r);
      var j :| 0 <= j < |kept| && Key(kept[j]) == Some(r);
    }
    if r in kept {
      var j :| 0 <= j < |kept| && kept[j] == r;
      assert Seen(Key, kept, r);
    }
  }

  /** `podSpecRefs`. */
  method PodSpecReferences(spec: PodSpec, prefix: string) returns (r: seq<Reference>)
    ensures r == References(spec, prefix)
  {
    hide Firsts, KeyText, Limited, StableSort, ContainerReferences, PullReferences, VolumeReferences, Before, Crowded;
    if |spec.pullSecrets| > MaxItems || |spec.volumes| > MaxItems || |spec.initContainers| > MaxItems || |spec.containers| > MaxItems
       || |spec.initContainers| + |spec.containers| > MaxItems {
      return [];
    }
    var c := new Collector(prefix);
    c.AddPullSecrets(spec.pullSecrets);
    c.AddVolumes(spec.volumes);
    var crowded := c.AddContainers(spec.initContainers + spec.containers);
    if crowded {
      assert TooMany(spec);
      return [];
    }
    assert !TooMany(spec);
    assert c.visited == AllReferences(spec);
    r := StableSort(Order(prefix), c.refs);
  }

  // ----- what the result is -----

  lemma ResultElements(spec: PodSpec, prefix: string)
    ensures forall r :: r in References(spec, prefix) <==> !TooMany(spec) && r in Limited(Firsts(Key, AllReferences(spec)))
    ensures |References(spec, prefix)| <= 256
  {
    hide Firsts, AllReferences, TooMany, StableSort, Before;
    var refs, kept := References(spec, prefix), Limited(Firsts(Key, AllReferences(spec)));
    assert forall r :: r in refs <==> r in multiset(refs);
    assert forall r :: r in kept <==> r in multiset(kept);
  }

  /** Only references of the template with valid names, at most 256; below the limit, all of them. */
  lemma ReferencesAre(spec: PodSpec, prefix: string, r: Reference)
    ensures r in References(spec, prefix) ==> r in AllReferences(spec) && ValidReferenceName(r.name)
    ensures |References(spec, prefix)| <= 256
    ensures !TooMany(spec) && |References(spec, prefix)| < 256 && r in AllReferences(spec) && ValidReferenceName(r.name)
            ==> r in References(spec, prefix)
  {
    hide ValidReferenceName, TooMany, StableSort, Before, Firsts;
    var all := AllReferences(spec);
    hide AllReferences;
    FirstsKeys(Key, all);
    ResultElements(spec, prefix);
    assert forall x :: x in Limited(Firsts(Key, all)) ==> x in Firsts(Key, all);
    if r in all && ValidReferenceName(r.name) {
      SeenIsKept(all, r);
      var k :| 0 <= k < |all| && all[k] == r;
      assert Key(all[k]) == Some(r);
      assert Seen(Key, all, r);
    }
  }

  lemma OrderFacts(prefix: string, a: Reference, b: Reference, c: Reference)
    ensures !Before(prefix, a, a)
    ensures Before(prefix, a, b) || a == b || Before(prefix, b, a)
    ensures Before(prefix, a, b) && Before(prefix, b, c) ==> Before(prefix, a, c)
    ensures !(Before(prefix, a, b) && Before(prefix, b, a))
  {
    hide Less, Kind, Suffix;
    LessFacts(Kind(a.place), Kind(b.place), Kind(c.place));
    LessFacts(a.name, b.name, c.name);
    LessFacts(prefix + Suffix(a.place), prefix + Suffix(b.place), prefix + Suffix(c.place));
    SuffixesDiffer(a.place, b.place);
    assert (prefix + Suffix(a.place))[|prefix|..] == Suffix(a.place) && (prefix + Suffix(b.place))[|prefix|..] == Suffix(b.place);
  }

  lemma OrderIsWeak(prefix: string)
    ensures StrictWeakOrder(Order(prefix))
  {
    hide Before;
    forall a, b, c
      ensures !Order(prefix)(a, a) && (Order(prefix)(a, b) && Order(prefix)(b, c) ==> Order(prefix)(a, c)) && (Order(prefix)(a, c) ==> Order(prefix)(a, b) || Order(prefix)(b, c))
    {
      OrderFacts(prefix, a, b, c);
      OrderFacts(prefix, b, a, c);
      OrderFacts(prefix, b, c, a);
    }
  }

  /** Two templates with the same references, in whatever order and however often, give the same list, if neither
      reaches the limit. */
  lemma OrderDoesNotMatter(spec: PodSpec, spec': PodSpec, prefix: string)
    requires !TooMany(spec) && !TooMany(spec')
    requires forall r :: r in AllReferences(spec) <==> r in AllReferences(spec')
    requires |References(spec, prefix)| < MaxResults && |References(spec', prefix)| < MaxResults
    ensures References(spec, prefix) == References(spec', prefix)
  {
    hide TooMany, AllReferences, StableSort, Before, StrictWeakOrder, ValidReferenceName, Firsts;
    var a, b := References(spec, prefix), References(spec', prefix);
    forall r
      ensures r in a <==> r in b
    {
      ReferencesAre(spec, prefix, r);
      ReferencesAre(spec', prefix, r);
    }
    OrderIsWeak(prefix);
    StableSortSorted(Order(prefix), Limited(Firsts(Key, AllReferences(spec))));
    StableSortSorted(Order(prefix), Limited(Firsts(Key, AllReferences(spec'))));
    ResultOnce(spec, prefix);
    ResultOnce(spec', prefix);
    assert forall r :: r in a <==> r in multiset(a);
    assert forall r :: r in b <==> r in multiset(b);
    assert multiset(a) == multiset(b);
    forall x, y | x in a && y in a && x != y
      ensures Order(prefix)(x, y) || Order(prefix)(y, x)
    {
      OrderFacts(prefix, x, y, x);
    }
    SortedUnique(Order(prefix), a, b);
  }

  /** No reference is listed twice. */
  lemma ResultOnce(spec: PodSpec, prefix: string)
    ensures forall r :: r in References(spec, prefix) ==> multiset(References(spec, prefix))[r] == 1
  {
    hide TooMany, AllReferences, StableSort, Before, Firsts, Limited;
    KeptOnce(AllReferences(spec));
    ResultElements(spec, prefix);
  }

  lemma KeptOnce(all: seq<Reference>)
    ensures forall r :: r in Limited(Firsts(Key, all)) ==> multiset(Limited(Firsts(Key, all)))[r] == 1
  {
    hide Firsts, ValidReferenceName;
    FirstsKeys(Key, all);
    var kept := Limited(Firsts(Key, all));
    assert forall i, j :: 0 <= i < j < |kept| ==> kept[i] != kept[j] by {
      assert forall j :: 0 <= j < |Firsts(Key, all)| ==> Firsts(Key, all)[j] in Firsts(Key, all);
      assert forall i, j :: 0 <= i < j < |kept| ==> Key(kept[i]) != Key(kept[j]);
    }
    forall r | r in kept
      ensures multiset(kept)[r] == 1
    {
      OccursOnce(kept, r);
    }
  }

  /** The references ascend by kind, then name, then field. */
  lemma ReferencesAscend(spec: PodSpec, prefix: string, i: nat, j: nat)
    requires i < j < |References(spec, prefix)|
    ensures var a, b := References(spec, prefix)[i], References(spec, prefix)[j];
            LessThen(Kind(a.place), Kind(b.place), LessThen(a.name, b.name, LessThen(prefix + Suffix(a.place), prefix + Suffix(b.place), true)))
  {
    hide AllReferences, TooMany, Firsts, Less, Kind, Suffix, StableSort, StrictWeakOrder;
    OrderIsWeak(prefix);
    StableSortSorted(Order(prefix), Limited(Firsts(Key, AllReferences(spec))));
    var a, b := References(spec, prefix)[i], References(spec, prefix)[j];
    assert !Before(prefix, b, a);
    LessTotal(Kind(a.place), Kind(b.place));
    LessTotal(a.name, b.name);
    LessTotal(prefix + Suffix(a.place), prefix + Suffix(b.place));
  }

  // ----- what a template refers to -----

  ghost predicate InSources(ss: seq<Source>, configMap: bool, name: string) {
    exists k :: 0 <= k < |ss| && Some(name) == if configMap then ss[k].configMap else ss[k].secret
  }

  ghost predicate InContainers(cs: seq<Container>, envFrom: bool, configMap: bool, name: string) {
    exists k :: 0 <= k < |cs| && InSources(if envFrom then cs[k].envFrom else cs[k].env, configMap, name)
  }

  ghost predicate InVolumes(vs: seq<Volume>, configMap: bool, name: string) {
    exists k :: 0 <= k < |vs| && Some(name) == if configMap then vs[k].source.configMap else vs[k].source.secret
  }

  ghost predicate InClaims(vs: seq<Volume>, name: string) {
    exists k :: 0 <= k < |vs| && vs[k].claim == Some(name)
  }

  /** Each reference of a template, with its kind, the type of its edge and its field below the prefix. */
  ghost predicate Refers(spec: PodSpec, name: string, kind: string, edgeType: string, field: string) {
    var containers := spec.initContainers + spec.containers;
    || (name in spec.pullSecrets && kind == "Secret" && edgeType == "env-from" && field == ".imagePullSecrets")
    || (InVolumes(spec.volumes, true, name) && kind == "ConfigMap" && edgeType == "mounts" && field == ".volumes.configMap")
    || (InVolumes(spec.volumes, false, name) && kind == "Secret" && edgeType == "mounts" && field == ".volumes.secret")
    || (InClaims(spec.volumes, name) && kind == "PersistentVolumeClaim" && edgeType == "mounts" && field == ".volumes.persistentVolumeClaim")
    || (InContainers(containers, true, true, name) && kind == "ConfigMap" && edgeType == "env-from" && field == ".containers.envFrom.configMapRef")
    || (InContainers(containers, true, false, name) && kind == "Secret" && edgeType == "env-from" && field == ".containers.envFrom.secretRef")
    || (InContainers(containers, false, true, name) && kind == "ConfigMap" && edgeType == "env-from" && field == ".containers.env.valueFrom.configMapKeyRef")
    || (InContainers(containers, false, false, name) && kind == "Secret" && edgeType == "env-from" && field == ".containers.env.valueFrom.secretKeyRef")
  }

  /** Where each place is. */
  ghost predicate At(spec: PodSpec, r: Reference) {
    var containers := spec.initContainers + spec.containers;
    match r.place
    case PullSecret => r.name in spec.pullSecrets
    case VolumeConfigMap => InVolumes(spec.volumes, true, r.name)
    case VolumeSecret => InVolumes(spec.volumes, false, r.name)
    case VolumeClaim => InClaims(spec.volumes, r.name)
    case EnvFromConfigMap => InContainers(containers, true, true, r.name)
    case EnvFromSecret => InContainers(containers, true, false, r.name)
    case EnvConfigMap => InContainers(containers, false, true, r.name)
    case EnvSecret => InContainers(containers, false, false, r.name)
  }

  lemma {:induction false} SourcesAre(ss: seq<Source>, configMap: Place, secret: Place, r: Reference)
    requires configMap != secret
    ensures r in SourcesReferences(ss, configMap, secret) <==>
            (r.place == configMap && InSources(ss, true, r.name)) || (r.place == secret && InSources(ss, false, r.name))
  {
    if ss != [] {
      var n := |ss| - 1;
      SourcesAre(ss[..n], configMap, secret, r);
      assert forall k :: 0 <= k < n ==> ss[..n][k] == ss[k];
      InSourcesStep(ss, true, r.name);
      InSourcesStep(ss, false, r.name);
      hide InSources;
    }
  }

  lemma InSourcesStep(ss: seq<Source>, configMap: bool, name: string)
    requires ss != []
    ensures InSources(ss, configMap, name) <==>
            InSources(ss[..|ss| - 1], configMap, name) || Some(name) == if configMap then ss[|ss| - 1].configMap else ss[|ss| - 1].secret
  {
    var n := |ss| - 1;
    if k :| 0 <= k < n && Some(name) == if configMap then ss[..n][k].configMap else ss[..n][k].secret {
      assert ss[k] == ss[..n][k];
    }
    if k :| 0 <= k < n && Some(name) == if configMap then ss[k].configMap else ss[k].secret {
      assert ss[k] == ss[..n][k];
    }
  }

  lemma {:induction false} VolumesAre(vs: seq<Volume>, r: Reference)
    ensures r in VolumeReferences(vs) <==>
            || (r.place == VolumeConfigMap && InVolumes(vs, true, r.name)) || (r.place == VolumeSecret && InVolumes(vs, false, r.name))
            || (r.place == VolumeClaim && InClaims(vs, r.name))
  {
    if vs != [] {
      var n := |vs| - 1;
      VolumesAre(vs[..n], r);
      InVolumesStep(vs, true, r.name);
      InVolumesStep(vs, false, r.name);
      hide InVolumes, InClaims;
    }
  }

  lemma InVolumesStep(vs: seq<Volume>, configMap: bool, name: string)
    requires vs != []
    ensures InVolumes(vs, configMap, name) <==>
            InVolumes(vs[..|vs| - 1], configMap, name) || Some(name) == if configMap then vs[|vs| - 1].source.configMap else vs[|vs| - 1].source.secret
    ensures InClaims(vs, name) <==> InClaims(vs[..|vs| - 1], name) || vs[|vs| - 1].claim == Some(name)
  {
    var n := |vs| - 1;
    assert forall k :: 0 <= k < n ==> vs[..n][k] == vs[k];
    if k :| 0 <= k < n && Some(name) == if configMap then vs[..n][k].source.configMap else vs[..n][k].source.secret {
      assert vs[k] == vs[..n][k];
    }
    if k :| 0 <= k < n && vs[..n][k].claim == Some(name) {
      assert vs[k] == vs[..n][k];
    }
  }

  lemma {:induction false} ContainersAre(cs: seq<Container>, r: Reference)
    ensures r in ContainerReferences(cs) <==>
            || (r.place == EnvFromConfigMap && InContainers(cs, true, true, r.name)) || (r.place == EnvFromSecret && InContainers(cs, true, false, r.name))
            || (r.place == EnvConfigMap && InContainers(cs, false, true, r.name)) || (r.place == EnvSecret && InContainers(cs, false, false, r.name))
  {
    hide InSources, SourcesReferences;
    if cs != [] {
      var n := |cs| - 1;
      ContainersAre(cs[..n], r);
      SourcesAre(cs[n].envFrom, EnvFromConfigMap, EnvFromSecret, r);
      SourcesAre(cs[n].env, EnvConfigMap, EnvSecret, r);
      InContainersStep(cs, true, true, r.name);
      InContainersStep(cs, true, false, r.name);
      InContainersStep(cs, false, true, r.name);
      InContainersStep(cs, false, false, r.name);
      hide InContainers;
    }
  }

  lemma InContainersStep(cs: seq<Container>, envFrom: bool, configMap: bool, name: string)
    requires cs != []
    ensures var last := cs[|cs| - 1];
            InContainers(cs, envFrom, configMap, name) <==>
            InContainers(cs[..|cs| - 1], envFrom, configMap, name) || InSources(if envFrom then last.envFrom else last.env, configMap, name)
  {
    hide InSources;
    var n := |cs| - 1;
    if k :| 0 <= k < n && InSources(if envFrom then cs[..n][k].envFrom else cs[..n][k].env, configMap, name) {
      assert cs[k] == cs[..n][k];
    }
    if k :| 0 <= k < n && InSources(if envFrom then cs[k].envFrom else cs[k].env, configMap, name) {
      assert cs[k] == cs[..n][k];
    }
  }

  lemma AllAreAt(spec: PodSpec, r: Reference)
    ensures r in AllReferences(spec) <==> At(spec, r)
  {
    hide InVolumes, InClaims, InContainers, VolumeReferences, ContainerReferences;
    VolumesAre(spec.volumes, r);
    ContainersAre(spec.initContainers + spec.containers, r);
    if r.name in spec.pullSecrets && r.place.PullSecret? {
      var k :| 0 <= k < |spec.pullSecrets| && spec.pullSecrets[k] == r.name;
      assert PullReferences(spec.pullSecrets)[k] == r;
    }
  }

  lemma PlaceRefers(spec: PodSpec, r: Reference)
    ensures At(spec, r) ==> Refers(spec, r.name, Kind(r.place), EdgeType(r.place), Suffix(r.place))
  {
    hide InVolumes, InClaims, InContainers;
  }

  /** All references of a template, in whichever list they stand, and with the fields they get. */
  lemma AllReferencesAre(spec: PodSpec, name: string, kind: string, edgeType: string, field: string)
    ensures (exists r :: r in AllReferences(spec) && r.name == name && Kind(r.place) == kind && EdgeType(r.place) == edgeType && Suffix(r.place) == field)
       <==> Refers(spec, name, kind, edgeType, field)
  {
    hide AllReferences, InVolumes, InClaims, InContainers, At, Kind, EdgeType, Suffix;
    if r :| r in AllReferences(spec) && r.name == name && Kind(r.place) == kind && EdgeType(r.place) == edgeType && Suffix(r.place) == field {
      AllAreAt(spec, r);
      PlaceRefers(spec, r);
    }
    if Refers(spec, name, kind, edgeType, field) {
      var place := PlaceOf(spec, name, kind, edgeType, field);
      AllAreAt(spec, Reference(place, name));
    }
  }

  lemma PlaceOf(spec: PodSpec, name: string, kind: string, edgeType: string, field: string) returns (place: Place)
    requires Refers(spec, name, kind, edgeType, field)
    ensures At(spec, Reference(place, name)) && Kind(place) == kind && EdgeType(place) == edgeType && Suffix(place) == field
  {
    hide InVolumes, InClaims, InContainers;
    place := if field == ".imagePullSecrets" then PullSecret else if field == ".volumes.configMap" then VolumeConfigMap
             else if field == ".volumes.secret" then VolumeSecret else if field == ".volumes.persistentVolumeClaim" then VolumeClaim
             else if field == ".containers.envFrom.configMapRef" then EnvFromConfigMap else if field == ".containers.envFrom.secretRef" then EnvFromSecret
             else if field == ".containers.env.valueFrom.configMapKeyRef" then EnvConfigMap else EnvSecret;
  }
}
