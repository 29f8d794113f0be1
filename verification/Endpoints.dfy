/** EndpointSlice analysis: deduplicated endpoint identities counted per service, observed pod references,
    and all-or-nothing limits. */
module Endpoints {
  import opened Text
  import opened Names
  import opened Dedup

  const MaxSliceEndpoints := 1000
  const MaxAddresses := 100
  const MaxVisits := 100_000
  const MaxResults := 8192

  datatype TargetRef = TargetRef(kind: string, namespace: string, name: string)
  datatype Endpoint = Endpoint(addresses: seq<string>, target: Option<TargetRef>, ready: Option<bool>, serving: Option<bool>, terminating: Option<bool>)
  datatype Slice = Slice(namespace: string, name: string, service: string, addressType: string, endpoints: seq<Endpoint>)
  datatype Counter = Counter(ready: nat, serving: nat, terminating: nat, total: nat)
  datatype Reference = Reference(namespace: string, service: string, pod: string, sourceField: string, confidence: string, ready: bool)
  datatype Analysis = Analysis(counts: map<string, Counter>, references: seq<Reference>, invalidItems: nat, processingLimited: bool)

  const NoEndpoints := Counter(0, 0, 0, 0)

  function ServiceKey(namespace: string, name: string): string { namespace + ['/'] + name }

  /** Namespaces hold no '/', so a service key determines its service. */
  lemma ServiceKeyInjective(namespace: string, name: string, namespace': string, name': string)
    requires ValidNamespace(namespace) && ValidNamespace(namespace')
    ensures ServiceKey(namespace, name) == ServiceKey(namespace', name') <==> namespace == namespace' && name == name'
  {
    DnsAlphabet(namespace);
    DnsAlphabet(namespace');
    if ServiceKey(namespace, name) == ServiceKey(namespace', name') {
      SplitUnique(namespace, name, namespace', name', '/');
    }
  }

  predicate ValidAddressType(t: string) { t == "IPv4" || t == "IPv6" || t == "FQDN" }

  /** `ip(type, text)` stands for the library's parse of a canonical address of that family. */
  predicate ValidAddress(ip: (string, string) -> bool, addressType: string, value: string) {
    if addressType == "IPv4" || addressType == "IPv6" then ip(addressType, value)
    else addressType == "FQDN" && ValidDnsSubdomain(value)
  }

  predicate ValidAddresses(ip: (string, string) -> bool, addressType: string, addresses: seq<string>) {
    && 1 <= |addresses| <= MaxAddresses
    && (forall i :: 0 <= i < |addresses| ==> ValidAddress(ip, addressType, addresses[i]))
    && (forall i, j :: 0 <= i < j < |addresses| ==> addresses[i] != addresses[j])
  }

  /** The address loop: all valid, none repeated; the first one is the endpoint's. */
  method PrimaryAddress(ip: (string, string) -> bool, addressType: string, addresses: seq<string>) returns (address: string, valid: bool)
    ensures valid <==> ValidAddresses(ip, addressType, addresses)
    ensures valid ==> address == addresses[0]
  {
    hide ValidAddress;
    if |addresses| == 0 || |addresses| > MaxAddresses {
      return "", false;
    }
    var seen: set<string> := {};
    for i := 0 to |addresses|
      invariant forall k :: 0 <= k < i ==> ValidAddress(ip, addressType, addresses[k]) && addresses[k] in seen
      invariant forall a :: a in seen ==> exists k :: 0 <= k < i && addresses[k] == a
      invariant forall j, k :: 0 <= j < k < i ==> addresses[j] != addresses[k]
    {
      if addresses[i] in seen || !ValidAddress(ip, addressType, addresses[i]) {
        return "", false;
      }
      seen := seen + {addresses[i]};
    }
    return addresses[0], true;
  }

  // ----- identities -----

  datatype Identity = ByAddress(addressType: string, address: string) | ByTarget(kind: string, name: string)

  function IdentityOf(ip: (string, string) -> bool, namespace: string, addressType: string, e: Endpoint): Option<Identity> {
    if !ValidAddresses(ip, addressType, e.addresses) then None
    else if e.target.None? then Some(ByAddress(addressType, e.addresses[0]))
    else
      var t := e.target.value;
      if !ValidKind(t.kind) || !ValidReferenceName(t.name) then None
      else if t.namespace != "" && t.namespace != namespace then None
      else Some(ByTarget(t.kind, t.name))
  }

  function Encode(key: string, id: Identity): string {
    key + ['\0'] + match id
      case ByAddress(t, a) => "address" + ['\0'] + (t + ['\0'] + a)
      case ByTarget(k, n) => "target" + ['\0'] + (k + ['\0'] + n)
  }

  predicate Encodable(key: string, id: Identity) {
    '\0' !in key && match id
      case ByAddress(t, _) => '\0' !in t
      case ByTarget(k, _) => '\0' !in k
  }

  /** Deduplicating by the joined string is deduplicating by service and identity. */
  lemma EncodeInjective(key: string, id: Identity, key': string, id': Identity)
    requires Encodable(key, id) && Encodable(key', id')
    ensures Encode(key, id) == Encode(key', id') <==> key == key' && id == id'
  {
    if Encode(key, id) == Encode(key', id') {
      var rest := match id case ByAddress(t, a) => "address" + ['\0'] + (t + ['\0'] + a) case ByTarget(k, n) => "target" + ['\0'] + (k + ['\0'] + n);
      var rest' := match id' case ByAddress(t, a) => "address" + ['\0'] + (t + ['\0'] + a) case ByTarget(k, n) => "target" + ['\0'] + (k + ['\0'] + n);
      SplitUnique(key, rest, key', rest', '\0');
      var tag, tag' := if id.ByAddress? then "address" else "target", if id'.ByAddress? then "address" else "target";
      var body := match id case ByAddress(t, a) => t + ['\0'] + a case ByTarget(k, n) => k + ['\0'] + n;
      var body' := match id' case ByAddress(t, a) => t + ['\0'] + a case ByTarget(k, n) => k + ['\0'] + n;
      SplitUnique(tag, body, tag', body', '\0');
      var head := match id case ByAddress(t, _) => t case ByTarget(k, _) => k;
      var head' := match id' case ByAddress(t, _) => t case ByTarget(k, _) => k;
      var last := match id case ByAddress(_, a) => a case ByTarget(_, n) => n;
      var last' := match id' case ByAddress(_, a) => a case ByTarget(_, n) => n;
      SplitUnique(head, last, head', last', '\0');
    }
  }

  /** An endpoint has an identity exactly if it lists 1 to 100 addresses, all of the slice's type and none twice, and
      its target, if any, is named and not in another namespace. The target is the identity, or else the first address. */
  lemma IdentityIs(ip: (string, string) -> bool, namespace: string, addressType: string, e: Endpoint)
    ensures IdentityOf(ip, namespace, addressType, e).Some? <==>
              && 1 <= |e.addresses| <= 100 && (forall i, j :: 0 <= i < j < |e.addresses| ==> e.addresses[i] != e.addresses[j])
              && (forall a :: a in e.addresses ==> (addressType == "IPv4" && ip("IPv4", a)) || (addressType == "IPv6" && ip("IPv6", a))
                                                    || (addressType == "FQDN" && ValidDnsSubdomain(a)))
              && (e.target.Some? ==> ValidKind(e.target.value.kind) && ValidReferenceName(e.target.value.name) && e.target.value.namespace in {"", namespace})
    ensures var id := IdentityOf(ip, namespace, addressType, e);
            id.Some? ==> id.value == if e.target.Some? then ByTarget(e.target.value.kind, e.target.value.name) else ByAddress(addressType, e.addresses[0])
  {
    AddressesAre(ip, addressType, e.addresses);
    hide ValidAddresses, ValidDnsSubdomain, ValidReferenceName, ValidKind;
  }

  lemma AddressesAre(ip: (string, string) -> bool, addressType: string, addresses: seq<string>)
    ensures ValidAddresses(ip, addressType, addresses) <==>
              && 1 <= |addresses| <= 100 && (forall i, j :: 0 <= i < j < |addresses| ==> addresses[i] != addresses[j])
              && (forall a :: a in addresses ==> (addressType == "IPv4" && ip("IPv4", a)) || (addressType == "IPv6" && ip("IPv6", a))
                                                  || (addressType == "FQDN" && ValidDnsSubdomain(a)))
  {
    forall a
      ensures ValidAddress(ip, addressType, a) <==>
                (addressType == "IPv4" && ip("IPv4", a)) || (addressType == "IPv6" && ip("IPv6", a)) || (addressType == "FQDN" && ValidDnsSubdomain(a))
    {
      hide ValidDnsSubdomain;
    }
    hide ValidAddress, ValidDnsSubdomain;
    assert (forall i :: 0 <= i < |addresses| ==> ValidAddress(ip, addressType, addresses[i])) <==> (forall a :: a in addresses ==> ValidAddress(ip, addressType, a));
  }

  // ----- what the loops visit -----

  /** A slice is rejected before its endpoints are looked at unless it passes this check. */
  predicate ValidSlice(s: Slice) {
    && ValidReferenceName(s.name) && ValidReferenceName(s.service) && ValidNamespace(s.namespace)
    && ValidAddressType(s.addressType) && |s.endpoints| <= MaxSliceEndpoints
  }

  function SliceId(s: Slice): Option<string> {
    if ValidSlice(s) then Some(ServiceKey(s.namespace, s.name)) else None
  }

  /** One endpoint of an accepted slice. */
  datatype Visit = Visit(key: string, namespace: string, service: string, addressType: string, endpoint: Endpoint)

  function VisitsOf(s: Slice): seq<Visit> {
    seq(|s.endpoints|, i requires 0 <= i < |s.endpoints| =>
      Visit(ServiceKey(s.namespace, s.service), s.namespace, s.service, s.addressType, s.endpoints[i]))
  }

  function AllVisits(accepted: seq<Slice>): seq<Visit> {
    if accepted == [] then [] else AllVisits(accepted[..|accepted| - 1]) + VisitsOf(accepted[|accepted| - 1])
  }

  function VisitId(ip: (string, string) -> bool): Visit -> Option<string> {
    (v: Visit) => match IdentityOf(ip, v.namespace, v.addressType, v.endpoint)
      case None => None
      case Some(id) => Some(Encode(v.key, id))
  }

  /** The visits that count: the first of each service and identity, over the first slice of each name. */
  function Kept(ip: (string, string) -> bool, visits: seq<Visit>): seq<Visit> {
    Firsts(VisitId(ip), visits)
  }

  function Condition(value: Option<bool>, fallback: bool): bool {
    if value.None? then fallback else value.value
  }

  function Count(c: Counter, e: Endpoint): Counter {
    Counter(c.ready + (if Condition(e.ready, true) then 1 else 0), c.serving + (if Condition(e.serving, true) then 1 else 0),
            c.terminating + (if Condition(e.terminating, false) then 1 else 0), c.total + 1)
  }

  /** The counter of one service over the visits that count. */
  function Tally(kept: seq<Visit>, key: string): Counter {
    if kept == [] then NoEndpoints
    else
      var n := |kept| - 1;
      var c := Tally(kept[..n], key);
      if kept[n].key == key then Count(c, kept[n].endpoint) else c
  }

  predicate NamesPod(v: Visit) {
    v.endpoint.target.Some? && v.endpoint.target.value.kind == "Pod" && ValidReferenceName(v.endpoint.target.value.name)
  }

  function ObservedReference(v: Visit): Reference
    requires NamesPod(v)
  {
    Reference(v.namespace, v.service, v.endpoint.target.value.name, "EndpointSlice.endpoints.targetRef", "observed", Condition(v.endpoint.ready, true))
  }

  function References(kept: seq<Visit>): (r: seq<Reference>)
    ensures |r| <= |kept|
  {
    if kept == [] then []
    else
      var n := |kept| - 1;
      References(kept[..n]) + if NamesPod(kept[n]) then [ObservedReference(kept[n])] else []
  }

  function Accepted(slices: seq<Slice>): seq<Slice> {
    Firsts(SliceId, slices)
  }

  /** The analysis, when the accepted slices hold no more endpoints than may be visited. */
  ghost predicate Complete(ip: (string, string) -> bool, slices: seq<Slice>, a: Analysis) {
    var accepted := Accepted(slices);
    var visits := AllVisits(accepted);
    var kept := Kept(ip, visits);
    && (forall key :: key in a.counts <==> exists i :: 0 <= i < |accepted| && ServiceKey(accepted[i].namespace, accepted[i].service) == key)
    && (forall key :: key in a.counts ==> a.counts[key] == Tally(kept, key))
    && a.processingLimited == (|References(kept)| > MaxResults)
    && a.references == (if a.processingLimited then [] else References(kept))
    && a.invalidItems == (|slices| - |accepted|) + (|visits| - |kept|)
  }

  // ----- the loops -----

  /** The loop variables that outlive a slice, apart from the counts. */
  datatype Progress = Progress(seenEndpoints: set<string>, seenReferences: set<string>, references: seq<Reference>, rejected: nat, limited: bool)

  function ReferenceKey(key: string, pod: string): string { key + ['\0'] + pod }

  ghost predicate Tracks(ip: (string, string) -> bool, visits: seq<Visit>, p: Progress) {
    var kept := Kept(ip, visits);
    && (forall k :: k in p.seenEndpoints <==> Seen(VisitId(ip), visits, k))
    && Referenced(kept, p.seenReferences)
    && p.limited == (|References(kept)| > MaxResults)
    && p.references == (if p.limited then [] else References(kept))
    && p.rejected == |visits| - |kept|
  }

  /** Keys and address types as accepted slices have them. */
  predicate Plain(v: Visit) {
    '\0' !in v.key && ValidAddressType(v.addressType)
  }

  lemma VisitEncodable(ip: (string, string) -> bool, v: Visit)
    requires Plain(v) && IdentityOf(ip, v.namespace, v.addressType, v.endpoint).Some?
    ensures Encodable(v.key, IdentityOf(ip, v.namespace, v.addressType, v.endpoint).value)
  {
    hide ValidAddresses, ValidReferenceName;
    if v.endpoint.target.Some? {
      KindAlphabet(v.endpoint.target.value.kind);
    }
  }

  /** A visit that counts and names a pod names a pod not referenced before for its service: the identity
      check has already excluded the repetition. */
  lemma ReferenceIsNew(ip: (string, string) -> bool, visits: seq<Visit>, v: Visit, u: Visit)
    requires Plain(v) && NamesPod(v) && VisitId(ip)(v).Some? && !Seen(VisitId(ip), visits, VisitId(ip)(v).value)
    requires u in Kept(ip, visits) && Plain(u) && NamesPod(u)
    ensures ReferenceKey(u.key, u.endpoint.target.value.name) != ReferenceKey(v.key, v.endpoint.target.value.name)
  {
    hide ValidAddresses, ValidReferenceName, Encode;
    FirstsKeys(VisitId(ip), visits);
    assert u in visits && VisitId(ip)(u).Some?;
    var j :| 0 <= j < |visits| && visits[j] == u;
    if ReferenceKey(u.key, u.endpoint.target.value.name) == ReferenceKey(v.key, v.endpoint.target.value.name) {
      SplitUnique(u.key, u.endpoint.target.value.name, v.key, v.endpoint.target.value.name, '\0');
    }
  }

  /** The body of the endpoint loop. */
  method VisitEndpoint(ip: (string, string) -> bool, v: Visit, p: Progress, counter: Counter, ghost visits: seq<Visit>)
    returns (p': Progress, counter': Counter)
    requires Tracks(ip, visits, p) && Plain(v) && forall u :: u in visits ==> Plain(u)
    requires counter == Tally(Kept(ip, visits), v.key)
    ensures Tracks(ip, visits + [v], p')
    ensures counter' == Tally(Kept(ip, visits + [v]), v.key)
  {
    hide IdentityOf, ValidReferenceName, Encode, ObservedReference, Count, Kept, Seen, ReferenceKey, References, Plain;
    p', counter' := p, counter;
    var id := VisitId(ip)(v);
    if id.None? || id.value in p.seenEndpoints {
      p' := p.(rejected := p.rejected + 1);
      RejectStep(ip, visits, v, p);
      return;
    }
    KeptStep(ip, visits, v);
    TrackStep(ip, visits, v, p);
    p' := p.(seenEndpoints := p.seenEndpoints + {id.value});
    counter' := Count(counter, v.endpoint);
    if !NamesPod(v) {
      return;
    }
    var referenceKey := ReferenceKey(v.key, v.endpoint.target.value.name);
    NotReferencedYet(ip, visits, v, p);
    if referenceKey in p.seenReferences {
      return;
    }
    if p.limited {
      return;
    }
    if |p.references| >= MaxResults {
      p' := p'.(references := [], limited := true);
      return;
    }
    p' := p'.(seenReferences := p.seenReferences + {referenceKey}, references := p.references + [ObservedReference(v)]);
  }

  /** The progress after a visit that counts, given that its pod was not referenced before. */
  function Observe(ip: (string, string) -> bool, v: Visit, p: Progress): Progress
    requires VisitId(ip)(v).Some?
  {
    var p1 := p.(seenEndpoints := p.seenEndpoints + {VisitId(ip)(v).value});
    if !NamesPod(v) || p.limited then p1
    else if |p.references| >= MaxResults then p1.(references := [], limited := true)
    else p1.(seenReferences := p.seenReferences + {ReferenceKey(v.key, v.endpoint.target.value.name)}, references := p.references + [ObservedReference(v)])
  }

  lemma TrackStep(ip: (string, string) -> bool, visits: seq<Visit>, v: Visit, p: Progress)
    requires Tracks(ip, visits, p)
    requires VisitId(ip)(v).Some? && !Seen(VisitId(ip), visits, VisitId(ip)(v).value)
    ensures Tracks(ip, visits + [v], Observe(ip, v, p))
  {
    hide VisitId, ObservedReference, ReferenceKey, References, Kept, Seen, ValidReferenceName, Referenced;
    SeenAfter(ip, visits, v);
    KeptStep(ip, visits, v);
    ReferencedStep(Kept(ip, visits), v, p.seenReferences);
    ReferencedGrows(Kept(ip, visits), v, p.seenReferences);
  }

  lemma SeenAfter(ip: (string, string) -> bool, visits: seq<Visit>, v: Visit)
    requires VisitId(ip)(v).Some?
    ensures forall k :: Seen(VisitId(ip), visits + [v], k) <==> Seen(VisitId(ip), visits, k) || k == VisitId(ip)(v).value
  {
    hide VisitId, Seen;
    var after := visits + [v];
    assert after[..|visits|] == visits && after[|visits|] == v;
    SeenStep(VisitId(ip), after);
  }

  /** The keys are those of pods that visits which count have named. */
  ghost predicate Referenced(kept: seq<Visit>, keys: set<string>) {
    forall k :: k in keys ==> exists v :: v in kept && NamesPod(v) && ReferenceKey(v.key, v.endpoint.target.value.name) == k
  }

  lemma ReferencedGrows(kept: seq<Visit>, v: Visit, keys: set<string>)
    requires Referenced(kept, keys)
    ensures Referenced(kept + [v], keys)
  {
    hide ReferenceKey, ValidReferenceName;
    forall k | k in keys
      ensures exists u :: u in kept + [v] && NamesPod(u) && ReferenceKey(u.key, u.endpoint.target.value.name) == k
    {
      var u :| u in kept && NamesPod(u) && ReferenceKey(u.key, u.endpoint.target.value.name) == k;
      assert u in kept + [v];
    }
  }

  lemma ReferencedStep(kept: seq<Visit>, v: Visit, keys: set<string>)
    requires Referenced(kept, keys)
    ensures NamesPod(v) ==> Referenced(kept + [v], keys + {ReferenceKey(v.key, v.endpoint.target.value.name)})
  {
    ReferencedGrows(kept, v, keys);
    hide ReferenceKey;
    if NamesPod(v) {
      assert v in kept + [v];
    }
  }

  lemma RejectStep(ip: (string, string) -> bool, visits: seq<Visit>, v: Visit, p: Progress)
    requires Tracks(ip, visits, p)
    requires VisitId(ip)(v).None? || Seen(VisitId(ip), visits, VisitId(ip)(v).value)
    ensures Tracks(ip, visits + [v], p.(rejected := p.rejected + 1))
    ensures Kept(ip, visits + [v]) == Kept(ip, visits)
  {
    hide IdentityOf, ValidReferenceName, Encode, NamesPod, References;
    var after := visits + [v];
    assert after[..|visits|] == visits;
    SeenStep(VisitId(ip), after);
    if VisitId(ip)(v).Some? {
      FirstIsUnseen(VisitId(ip), after);
    }
    assert Kept(ip, after) == Kept(ip, visits);
  }

  lemma KeptStep(ip: (string, string) -> bool, visits: seq<Visit>, v: Visit)
    requires VisitId(ip)(v).Some? && !Seen(VisitId(ip), visits, VisitId(ip)(v).value)
    ensures var kept, kept' := Kept(ip, visits), Kept(ip, visits + [v]);
            && kept' == kept + [v]
            && Tally(kept', v.key) == Count(Tally(kept, v.key), v.endpoint)
            && (forall key :: key != v.key ==> Tally(kept', key) == Tally(kept, key))
            && References(kept') == References(kept) + if NamesPod(v) then [ObservedReference(v)] else []
  {
    hide IdentityOf, ValidReferenceName, Encode, NamesPod, ObservedReference, Count;
    var after := visits + [v];
    assert after[..|visits|] == visits;
    FirstIsUnseen(VisitId(ip), after);
    var kept := Kept(ip, visits);
    assert (kept + [v])[..|kept|] == kept;
  }

  lemma NotReferencedYet(ip: (string, string) -> bool, visits: seq<Visit>, v: Visit, p: Progress)
    requires Tracks(ip, visits, p) && Plain(v) && NamesPod(v) && forall u :: u in visits ==> Plain(u)
    requires VisitId(ip)(v).Some? && !Seen(VisitId(ip), visits, VisitId(ip)(v).value)
    ensures ReferenceKey(v.key, v.endpoint.target.value.name) !in p.seenReferences
  {
    hide IdentityOf, ValidReferenceName, Encode, ReferenceKey;
    var k := ReferenceKey(v.key, v.endpoint.target.value.name);
    FirstsKeys(VisitId(ip), visits);
    if k in p.seenReferences {
      var u :| u in Kept(ip, visits) && NamesPod(u) && ReferenceKey(u.key, u.endpoint.target.value.name) == k;
      ReferenceIsNew(ip, visits, v, u);
    }
  }

  /** The endpoint loop of one accepted slice, with its local counter. */
  method VisitSlice(ip: (string, string) -> bool, slice: Slice, p: Progress, counter: Counter, ghost visits: seq<Visit>)
    returns (p': Progress, counter': Counter)
    requires Tracks(ip, visits, p) && ValidSlice(slice) && forall u :: u in visits ==> Plain(u)
    requires counter == Tally(Kept(ip, visits), ServiceKey(slice.namespace, slice.service))
    ensures Tracks(ip, visits + VisitsOf(slice), p')
    ensures counter' == Tally(Kept(ip, visits + VisitsOf(slice)), ServiceKey(slice.namespace, slice.service))
  {
    hide Tracks, Tally, Kept, ValidSlice;
    ghost var all := VisitsOf(slice);
    SlicePlain(slice);
    p', counter' := p, counter;
    assert visits + all[..0] == visits;
    for i := 0 to |slice.endpoints|
      invariant Tracks(ip, visits + all[..i], p')
      invariant counter' == Tally(Kept(ip, visits + all[..i]), ServiceKey(slice.namespace, slice.service))
    {
      var v := Visit(ServiceKey(slice.namespace, slice.service), slice.namespace, slice.service, slice.addressType, slice.endpoints[i]);
      assert v == all[i] && all[i] in all;
      assert (visits + all[..i]) + [v] == visits + all[..i + 1];
      p', counter' := VisitEndpoint(ip, v, p', counter', visits + all[..i]);
    }
    assert all[..|all|] == all;
  }

  lemma SlicePlain(slice: Slice)
    requires ValidSlice(slice)
    ensures forall v :: v in VisitsOf(slice) ==> Plain(v)
  {
    DnsAlphabet(slice.namespace);
    DnsAlphabet(slice.service);
    hide ValidNamespace, ValidReferenceName;
    assert '\0' !in ServiceKey(slice.namespace, slice.service);
  }

  lemma {:induction false} VisitsPlain(accepted: seq<Slice>)
    requires forall s :: s in accepted ==> ValidSlice(s)
    ensures forall v :: v in AllVisits(accepted) ==> Plain(v)
  {
    hide ValidSlice, Plain;
    if accepted != [] {
      VisitsPlain(accepted[..|accepted| - 1]);
      SlicePlain(accepted[|accepted| - 1]);
    }
  }

  /** The tallies of other services do not move while one service's slice is visited. */
  lemma {:induction false} OtherTallies(ip: (string, string) -> bool, visits: seq<Visit>, more: seq<Visit>, key: string)
    requires forall v :: v in more ==> v.key != key
    ensures Tally(Kept(ip, visits + more), key) == Tally(Kept(ip, visits), key)
  {
    hide IsFirst, Count;
    if more == [] {
      assert visits + more == visits;
    } else {
      var n := |more| - 1;
      OtherTallies(ip, visits, more[..n], key);
      assert (visits + more)[..|visits| + n] == visits + more[..n];
      assert (visits + more)[|visits| + n] == more[n];
      var kept := Kept(ip, visits + more[..n]);
      assert (kept + [more[n]])[..|kept|] == kept;
      assert Kept(ip, visits + more) == kept + [more[n]] || Kept(ip, visits + more) == kept;
    }
  }

  ghost predicate CountsOf(ip: (string, string) -> bool, accepted: seq<Slice>, counts: map<string, Counter>) {
    && (forall key :: key in counts <==> exists i :: 0 <= i < |accepted| && ServiceKey(accepted[i].namespace, accepted[i].service) == key)
    && (forall key :: key in counts ==> counts[key] == Tally(Kept(ip, AllVisits(accepted)), key))
  }

  /** A service no accepted slice names has an empty tally. */
  lemma {:induction false} NoTally(ip: (string, string) -> bool, accepted: seq<Slice>, key: string)
    requires forall i :: 0 <= i < |accepted| ==> ServiceKey(accepted[i].namespace, accepted[i].service) != key
    ensures Tally(Kept(ip, AllVisits(accepted)), key) == NoEndpoints
  {
    if accepted == [] {
      assert Kept(ip, AllVisits(accepted)) == [];
    } else {
      hide Tally, Kept, ServiceKey;
      var n := |accepted| - 1;
      NoTally(ip, accepted[..n], key);
      OtherTallies(ip, AllVisits(accepted[..n]), VisitsOf(accepted[n]), key);
    }
  }

  lemma CountsStep(ip: (string, string) -> bool, accepted: seq<Slice>, slice: Slice, counts: map<string, Counter>, counter: Counter)
    requires CountsOf(ip, accepted, counts)
    requires var key := ServiceKey(slice.namespace, slice.service);
             counter == Tally(Kept(ip, AllVisits(accepted) + VisitsOf(slice)), key)
    ensures CountsOf(ip, accepted + [slice], counts[ServiceKey(slice.namespace, slice.service) := counter])
  {
    hide Tally, Kept, ServiceKey;
    var key := ServiceKey(slice.namespace, slice.service);
    var accepted' := accepted + [slice];
    assert accepted'[..|accepted|] == accepted;
    forall other | other in counts && other != key
      ensures counts[other] == Tally(Kept(ip, AllVisits(accepted')), other)
    {
      OtherTallies(ip, AllVisits(accepted), VisitsOf(slice), other);
    }
    var counts' := counts[key := counter];
    forall other
      ensures other in counts' <==> exists i :: 0 <= i < |accepted'| && ServiceKey(accepted'[i].namespace, accepted'[i].service) == other
    {
      if other == key {
        assert ServiceKey(accepted'[|accepted|].namespace, accepted'[|accepted|].service) == other;
      } else if other in counts {
        var i :| 0 <= i < |accepted| && ServiceKey(accepted[i].namespace, accepted[i].service) == other;
        assert accepted'[i] == accepted[i];
      }
    }
  }

  /** What an analysis cut at the visit limit reports: the invalid items before the slice that exceeds it. */
  ghost predicate CutAt(ip: (string, string) -> bool, slices: seq<Slice>, a: Analysis, n: nat) {
    && n < |slices|
    && |AllVisits(Accepted(slices[..n]))| <= MaxVisits < |AllVisits(Accepted(slices[..n + 1]))|
    && a == Analysis(map[], [], (n - |Accepted(slices[..n])|) + (|AllVisits(Accepted(slices[..n]))| - |Kept(ip, AllVisits(Accepted(slices[..n])))|), true)
  }

  lemma AcceptedStep(slices: seq<Slice>, i: nat)
    requires i < |slices|
    ensures var slice := slices[i];
            var taken := SliceId(slice).Some? && !Seen(SliceId, slices[..i], SliceId(slice).value);
            && Accepted(slices[..i + 1]) == (if taken then Accepted(slices[..i]) + [slice] else Accepted(slices[..i]))
            && (forall k :: Seen(SliceId, slices[..i + 1], k) <==> Seen(SliceId, slices[..i], k) || SliceId(slice) == Some(k))
  {
    hide SliceId;
    var upTo := slices[..i + 1];
    assert upTo[..i] == slices[..i] && upTo[i] == slices[i];
    SeenStep(SliceId, upTo);
    if SliceId(slices[i]).Some? {
      FirstIsUnseen(SliceId, upTo);
    }
    assert Accepted(slices[..i]) + [] == Accepted(slices[..i]);
  }

  lemma AcceptedValid(slices: seq<Slice>)
    ensures forall s :: s in Accepted(slices) ==> ValidSlice(s)
    ensures forall v :: v in AllVisits(Accepted(slices)) ==> Plain(v)
  {
    hide ValidSlice;
    FirstsKeys(SliceId, slices);
    assert forall s :: s in Accepted(slices) ==> SliceId(s).Some?;
    VisitsPlain(Accepted(slices));
  }

  lemma {:induction false} VisitsGrow(slices: seq<Slice>, i: nat, j: nat)
    requires i <= j <= |slices|
    ensures |AllVisits(Accepted(slices[..i]))| <= |AllVisits(Accepted(slices[..j]))|
    decreases j - i
  {
    hide AllVisits, Accepted, SliceId, Seen;
    if i < j {
      VisitsGrow(slices, i, j - 1);
      AcceptedStep(slices, j - 1);
      VisitsAppend(Accepted(slices[..j - 1]), slices[j - 1]);
    }
  }

  /** `analyzeEndpointSlices`: complete unless the visit limit cuts it, and then empty. */
  method AnalyzeEndpointSlices(ip: (string, string) -> bool, slices: seq<Slice>) returns (a: Analysis)
    ensures |AllVisits(Accepted(slices))| <= 100_000 ==> Complete(ip, slices, a)
    ensures |AllVisits(Accepted(slices))| > 100_000 ==> exists n: nat :: CutAt(ip, slices, a, n)
  {
    hide Tracks, ValidSlice, CountsOf, ServiceKey, Kept, AllVisits, VisitsOf, Accepted, Complete, Seen, Tally, Plain;
    var counts: map<string, Counter> := map[];
    var seenSlices: set<string> := {};
    var p := Progress({}, {}, [], 0, false);
    var rejectedSlices, endpointVisits := 0, 0;
    EmptyProgress(ip);
    assert slices[..0] == [];
    for i := 0 to |slices|
      invariant forall k :: k in seenSlices <==> Seen(SliceId, slices[..i], k)
      invariant Tracks(ip, AllVisits(Accepted(slices[..i])), p)
      invariant CountsOf(ip, Accepted(slices[..i]), counts)
      invariant rejectedSlices == i - |Accepted(slices[..i])|
      invariant endpointVisits == |AllVisits(Accepted(slices[..i]))| <= MaxVisits
    {
      ghost var accepted := Accepted(slices[..i]);
      var slice := slices[i];
      AcceptedStep(slices, i);
      if !ValidSlice(slice) || ServiceKey(slice.namespace, slice.name) in seenSlices {
        rejectedSlices := rejectedSlices + 1;
        continue;
      }
      seenSlices := seenSlices + {ServiceKey(slice.namespace, slice.name)};
      AcceptedValid(slices[..i]);
      VisitsAppend(accepted, slice);
      endpointVisits := endpointVisits + |slice.endpoints|;
      VisitsGrow(slices, i + 1, |slices|);
      assert slices[..|slices|] == slices;
      if endpointVisits > MaxVisits {
        a := Analysis(map[], [], rejectedSlices + p.rejected, true);
        CutProgress(ip, AllVisits(accepted), p);
        assert CutAt(ip, slices, a, i);
        return;
      }
      var key := ServiceKey(slice.namespace, slice.service);
      var counter := if key in counts then counts[key] else NoEndpoints;
      CurrentTally(ip, accepted, counts, key);
      p, counter := VisitSlice(ip, slice, p, counter, AllVisits(accepted));
      CountsStep(ip, accepted, slice, counts, counter);
      counts := counts[key := counter];
    }
    assert slices[..|slices|] == slices;
    a := Analysis(counts, p.references, rejectedSlices + p.rejected, p.limited);
    FinishAnalysis(ip, slices, counts, p, a);
  }

  lemma EmptyProgress(ip: (string, string) -> bool)
    ensures Tracks(ip, AllVisits(Accepted([])), Progress({}, {}, [], 0, false)) && CountsOf(ip, Accepted([]), map[])
    ensures |AllVisits(Accepted([]))| == 0 && Accepted([]) == [] && forall k :: !Seen(SliceId, [], k)
  {
    assert Kept(ip, []) == [];
  }

  lemma VisitsAppend(accepted: seq<Slice>, slice: Slice)
    ensures AllVisits(accepted + [slice]) == AllVisits(accepted) + VisitsOf(slice)
    ensures |VisitsOf(slice)| == |slice.endpoints|
  {
    assert (accepted + [slice])[..|accepted|] == accepted;
  }

  lemma CutProgress(ip: (string, string) -> bool, visits: seq<Visit>, p: Progress)
    requires Tracks(ip, visits, p)
    ensures p.rejected == |visits| - |Kept(ip, visits)|
  {}

  lemma CurrentTally(ip: (string, string) -> bool, accepted: seq<Slice>, counts: map<string, Counter>, key: string)
    requires CountsOf(ip, accepted, counts)
    ensures (if key in counts then counts[key] else NoEndpoints) == Tally(Kept(ip, AllVisits(accepted)), key)
  {
    hide Tally, Kept, ServiceKey;
    if key !in counts {
      NoTally(ip, accepted, key);
    }
  }

  lemma FinishAnalysis(ip: (string, string) -> bool, slices: seq<Slice>, counts: map<string, Counter>, p: Progress, a: Analysis)
    requires Tracks(ip, AllVisits(Accepted(slices)), p) && CountsOf(ip, Accepted(slices), counts)
    requires a == Analysis(counts, p.references, (|slices| - |Accepted(slices)|) + p.rejected, p.limited)
    ensures Complete(ip, slices, a)
  {
    hide Tally, Kept, ServiceKey, Accepted, AllVisits, References;
  }

  // ----- what the counts and references mean -----

  /** The distinct valid identities of one service. */
  function Identities(ip: (string, string) -> bool, visits: seq<Visit>, key: string): set<Identity> {
    set v | v in visits && v.key == key && IdentityOf(ip, v.namespace, v.addressType, v.endpoint).Some?
          :: IdentityOf(ip, v.namespace, v.addressType, v.endpoint).value
  }

  /** Each service's total is the number of its distinct valid endpoint identities. */
  lemma {:induction false} TotalIsDistinct(ip: (string, string) -> bool, visits: seq<Visit>, key: string)
    requires forall v :: v in visits ==> Plain(v)
    ensures Tally(Kept(ip, visits), key).total == |Identities(ip, visits, key)|
  {
    hide IdentityOf, Encode, Plain;
    if visits == [] {
      assert Kept(ip, visits) == [] && Identities(ip, visits, key) == {};
    } else {
      var n := |visits| - 1;
      var before, v := visits[..n], visits[n];
      assert visits == before + [v];
      TotalIsDistinct(ip, before, key);
      IdentitiesStep(ip, before, v, key);
      if VisitId(ip)(v).Some? && !Seen(VisitId(ip), before, VisitId(ip)(v).value) {
        KeptStep(ip, before, v);
      } else {
        RejectedKept(ip, before, v);
      }
    }
  }

  lemma RejectedKept(ip: (string, string) -> bool, visits: seq<Visit>, v: Visit)
    requires VisitId(ip)(v).None? || Seen(VisitId(ip), visits, VisitId(ip)(v).value)
    ensures Kept(ip, visits + [v]) == Kept(ip, visits)
  {
    hide IdentityOf, Encode;
    var after := visits + [v];
    assert after[..|visits|] == visits;
    if VisitId(ip)(v).Some? {
      FirstIsUnseen(VisitId(ip), after);
    }
    assert Kept(ip, visits) + [] == Kept(ip, visits);
  }

  lemma IdentitiesStep(ip: (string, string) -> bool, visits: seq<Visit>, v: Visit, key: string)
    requires Plain(v) && forall u :: u in visits ==> Plain(u)
    ensures var new_ := v.key == key && VisitId(ip)(v).Some? && !Seen(VisitId(ip), visits, VisitId(ip)(v).value);
            |Identities(ip, visits + [v], key)| == |Identities(ip, visits, key)| + if new_ then 1 else 0
  {
    hide IdentityOf, Encode;
    var after, before := Identities(ip, visits + [v], key), Identities(ip, visits, key);
    var id := IdentityOf(ip, v.namespace, v.addressType, v.endpoint);
    if v.key == key && id.Some? {
      KnownIdentity(ip, visits, v);
      assert after == before + {id.value};
      if id.value in before {
        assert after == before;
      }
      assert VisitId(ip)(v).Some?;
    } else {
      assert after == before;
    }
  }

  lemma KnownIdentity(ip: (string, string) -> bool, visits: seq<Visit>, v: Visit)
    requires Plain(v) && forall u :: u in visits ==> Plain(u)
    requires IdentityOf(ip, v.namespace, v.addressType, v.endpoint).Some?
    ensures IdentityOf(ip, v.namespace, v.addressType, v.endpoint).value in Identities(ip, visits, v.key)
       <==> Seen(VisitId(ip), visits, VisitId(ip)(v).value)
  {
    hide IdentityOf, Encode;
    VisitEncodable(ip, v);
    var id := IdentityOf(ip, v.namespace, v.addressType, v.endpoint).value;
    forall j | 0 <= j < |visits| && VisitId(ip)(visits[j]).Some?
      ensures VisitId(ip)(visits[j]) == VisitId(ip)(v) <==> visits[j].key == v.key && IdentityOf(ip, visits[j].namespace, visits[j].addressType, visits[j].endpoint).value == id
    {
      var u := visits[j];
      VisitEncodable(ip, u);
      EncodeInjective(u.key, IdentityOf(ip, u.namespace, u.addressType, u.endpoint).value, v.key, id);
    }
  }

  lemma {:induction false} TallyBounds(kept: seq<Visit>, key: string)
    ensures var c := Tally(kept, key);
            c.ready <= c.total && c.serving <= c.total && c.terminating <= c.total
  {
    if kept != [] {
      TallyBounds(kept[..|kept| - 1], key);
    }
  }

  ghost function SumTotals(keys: set<string>, kept: seq<Visit>): nat {
    if keys == {} then 0
    else
      var key :| key in keys;
      Tally(kept, key).total + SumTotals(keys - {key}, kept)
  }

  lemma {:induction false} SumTotalsStep(keys: set<string>, kept: seq<Visit>, v: Visit)
    ensures SumTotals(keys, kept + [v]) == SumTotals(keys, kept) + if v.key in keys then 1 else 0
  {
    if keys != {} {
      var key :| key in keys && SumTotals(keys, kept) == Tally(kept, key).total + SumTotals(keys - {key}, kept);
      SumTotalsPick(keys, kept + [v], key);
      SumTotalsStep(keys - {key}, kept, v);
      assert (kept + [v])[..|kept|] == kept;
    }
  }

  /** The sum does not depend on which key is taken first. */
  lemma {:induction false} SumTotalsPick(keys: set<string>, kept: seq<Visit>, key: string)
    requires key in keys
    ensures SumTotals(keys, kept) == Tally(kept, key).total + SumTotals(keys - {key}, kept)
  {
    var first :| first in keys && SumTotals(keys, kept) == Tally(kept, first).total + SumTotals(keys - {first}, kept);
    if first != key {
      SumTotalsPick(keys - {first}, kept, key);
      SumTotalsPick(keys - {key}, kept, first);
      assert keys - {first} - {key} == keys - {key} - {first};
    }
  }

  lemma {:induction false} SumIsKept(keys: set<string>, kept: seq<Visit>)
    requires forall v :: v in kept ==> v.key in keys
    ensures SumTotals(keys, kept) == |kept|
  {
    if kept == [] {
      SumOfNone(keys);
    } else {
      var n := |kept| - 1;
      SumIsKept(keys, kept[..n]);
      SumTotalsStep(keys, kept[..n], kept[n]);
      assert kept == kept[..n] + [kept[n]];
    }
  }

  lemma {:induction false} SumOfNone(keys: set<string>)
    ensures SumTotals(keys, []) == 0
  {
    if keys != {} {
      var key :| key in keys && SumTotals(keys, []) == Tally([], key).total + SumTotals(keys - {key}, []);
      SumOfNone(keys - {key});
      assert Tally([], key).total == 0;
    }
  }

  lemma {:induction false} VisitKeys(accepted: seq<Slice>)
    ensures forall v :: v in AllVisits(accepted) ==>
              v.key == ServiceKey(v.namespace, v.service) && exists i :: 0 <= i < |accepted| && ServiceKey(accepted[i].namespace, accepted[i].service) == v.key
    ensures forall v :: v in AllVisits(accepted) ==> exists s :: s in accepted && s.namespace == v.namespace && s.service == v.service
  {
    hide ServiceKey;
    if accepted != [] {
      var n := |accepted| - 1;
      VisitKeys(accepted[..n]);
      forall v | v in AllVisits(accepted)
        ensures v.key == ServiceKey(v.namespace, v.service) && exists i :: 0 <= i < |accepted| && ServiceKey(accepted[i].namespace, accepted[i].service) == v.key
        ensures exists s :: s in accepted && s.namespace == v.namespace && s.service == v.service
      {
        if v in AllVisits(accepted[..n]) {
          var i :| 0 <= i < n && ServiceKey(accepted[..n][i].namespace, accepted[..n][i].service) == v.key;
          assert accepted[i] == accepted[..n][i];
        } else {
          assert ServiceKey(accepted[n].namespace, accepted[n].service) == v.key && accepted[n] in accepted;
        }
      }
    }
  }

  /** A complete analysis loses nothing: the visited endpoints are the totals plus the rejected endpoints, each
      total is a number of distinct identities, and no partial count exceeds its total. */
  lemma EndpointsConserved(ip: (string, string) -> bool, slices: seq<Slice>, a: Analysis)
    requires Complete(ip, slices, a)
    ensures var visits := AllVisits(Accepted(slices));
            && |visits| + (|slices| - |Accepted(slices)|) == SumTotals(a.counts.Keys, Kept(ip, visits)) + a.invalidItems
            && forall key :: key in a.counts ==>
                 && a.counts[key].total == |Identities(ip, visits, key)|
                 && a.counts[key].ready <= a.counts[key].total && a.counts[key].serving <= a.counts[key].total
                 && a.counts[key].terminating <= a.counts[key].total
  {
    hide Plain, ServiceKey, Tally, References, Accepted, AllVisits, Identities, SumTotals;
    var accepted := Accepted(slices);
    var visits := AllVisits(accepted);
    var kept := Kept(ip, visits);
    AcceptedValid(slices);
    VisitKeys(accepted);
    FirstsKeys(VisitId(ip), visits);
    assert forall v :: v in kept ==> v in visits && v.key in a.counts;
    hide Kept;
    SumIsKept(a.counts.Keys, kept);
    forall key | key in a.counts
      ensures a.counts[key].total == |Identities(ip, visits, key)|
      ensures a.counts[key].ready <= a.counts[key].total && a.counts[key].serving <= a.counts[key].total && a.counts[key].terminating <= a.counts[key].total
    {
      TotalIsDistinct(ip, visits, key);
      TallyBounds(kept, key);
    }
  }

  // ----- totals by namespace and service -----

  /** Slice i of the accepted ones belongs to the service. */
  predicate Serves(accepted: seq<Slice>, i: int, namespace: string, service: string) {
    0 <= i < |accepted| && accepted[i].namespace == namespace && accepted[i].service == service
  }

  /** The valid endpoint identities in the slices of a service. */
  function ServiceIdentities(ip: (string, string) -> bool, accepted: seq<Slice>, namespace: string, service: string): set<Identity> {
    set i: nat, j: nat | i < |accepted| && j < |accepted[i].endpoints| && Serves(accepted, i, namespace, service)
                         && IdentityOf(ip, namespace, accepted[i].addressType, accepted[i].endpoints[j]).Some?
      :: IdentityOf(ip, namespace, accepted[i].addressType, accepted[i].endpoints[j]).value
  }

  lemma {:induction false} VisitsAre(accepted: seq<Slice>, v: Visit)
    ensures v in AllVisits(accepted) <==> exists i, j :: 0 <= i < |accepted| && 0 <= j < |VisitsOf(accepted[i])| && VisitsOf(accepted[i])[j] == v
  {
    hide VisitsOf;
    if accepted != [] {
      var n := |accepted| - 1;
      VisitsAre(accepted[..n], v);
      if i, j :| 0 <= i < n && 0 <= j < |VisitsOf(accepted[..n][i])| && VisitsOf(accepted[..n][i])[j] == v {
        assert VisitsOf(accepted[i])[j] == v;
      }
      if i, j :| 0 <= i < |accepted| && 0 <= j < |VisitsOf(accepted[i])| && VisitsOf(accepted[i])[j] == v {
        if i < n {
          assert VisitsOf(accepted[..n][i])[j] == v;
        }
      }
    }
  }

  /** The counts are kept per namespace and service: a service is counted exactly if it has an accepted slice, and its
      total is the number of valid identities in its own slices. */
  lemma TotalsPerService(ip: (string, string) -> bool, slices: seq<Slice>, a: Analysis, namespace: string, service: string)
    requires Complete(ip, slices, a) && ValidNamespace(namespace)
    ensures var accepted, key := Accepted(slices), ServiceKey(namespace, service);
            && (key in a.counts <==> exists i :: Serves(accepted, i, namespace, service))
            && (key in a.counts ==> a.counts[key].total == |ServiceIdentities(ip, accepted, namespace, service)|)
  {
    hide Plain, ServiceKey, Tally, References, AllVisits, Identities, ServiceIdentities, ValidSlice, Kept, ValidNamespace, Accepted;
    var accepted, key := Accepted(slices), ServiceKey(namespace, service);
    AcceptedValid(slices);
    AcceptedNamespaces(slices);
    forall i | 0 <= i < |accepted|
      ensures ServiceKey(accepted[i].namespace, accepted[i].service) == key <==> Serves(accepted, i, namespace, service)
    {
      ServiceKeyInjective(accepted[i].namespace, accepted[i].service, namespace, service);
    }
    TotalIsDistinct(ip, AllVisits(accepted), key);
    SameIdentities(ip, accepted, namespace, service);
  }

  lemma AcceptedNamespaces(slices: seq<Slice>)
    ensures forall i :: 0 <= i < |Accepted(slices)| ==> ValidNamespace(Accepted(slices)[i].namespace)
  {
    AcceptedValid(slices);
    hide Accepted, ValidNamespace, ValidReferenceName;
    assert forall i :: 0 <= i < |Accepted(slices)| ==> ValidSlice(Accepted(slices)[i]);
  }

  lemma VisitsLength(s: Slice)
    ensures |VisitsOf(s)| == |s.endpoints|
    ensures forall j :: 0 <= j < |s.endpoints| ==> VisitsOf(s)[j] == Visit(ServiceKey(s.namespace, s.service), s.namespace, s.service, s.addressType, s.endpoints[j])
  {
    hide ServiceKey;
  }

  lemma {:induction false} SameIdentities(ip: (string, string) -> bool, accepted: seq<Slice>, namespace: string, service: string)
    requires forall i :: 0 <= i < |accepted| ==>
               (ServiceKey(accepted[i].namespace, accepted[i].service) == ServiceKey(namespace, service) <==> Serves(accepted, i, namespace, service))
    ensures Identities(ip, AllVisits(accepted), ServiceKey(namespace, service)) == ServiceIdentities(ip, accepted, namespace, service)
  {
    hide ServiceKey, IdentityOf, AllVisits, VisitsOf;
    var key, visits := ServiceKey(namespace, service), AllVisits(accepted);
    forall id
      ensures id in Identities(ip, visits, key) <==> id in ServiceIdentities(ip, accepted, namespace, service)
    {
      if id in Identities(ip, visits, key) {
        var v :| v in visits && v.key == key && IdentityOf(ip, v.namespace, v.addressType, v.endpoint) == Some(id);
        VisitsAre(accepted, v);
        var i, j :| 0 <= i < |accepted| && 0 <= j < |VisitsOf(accepted[i])| && VisitsOf(accepted[i])[j] == v;
        VisitsLength(accepted[i]);
        assert Serves(accepted, i, namespace, service);
      }
      if id in ServiceIdentities(ip, accepted, namespace, service) {
        var i: nat, j: nat :| i < |accepted| && j < |accepted[i].endpoints| && Serves(accepted, i, namespace, service)
                              && IdentityOf(ip, namespace, accepted[i].addressType, accepted[i].endpoints[j]) == Some(id);
        VisitsLength(accepted[i]);
        VisitsAre(accepted, VisitsOf(accepted[i])[j]);
      }
    }
  }

  // ----- what ready, serving and terminating count -----

  function IdentityAt(ip: (string, string) -> bool, v: Visit): Option<Identity> {
    IdentityOf(ip, v.namespace, v.addressType, v.endpoint)
  }

  /** Visit k is the first of a service key with that identity. */
  ghost predicate FirstVisit(ip: (string, string) -> bool, visits: seq<Visit>, key: string, id: Identity, k: int) {
    && 0 <= k < |visits| && visits[k].key == key && IdentityAt(ip, visits[k]) == Some(id)
    && forall j :: 0 <= j < k && visits[j].key == key ==> IdentityAt(ip, visits[j]) != Some(id)
  }

  ghost predicate FirstVisitIs(ip: (string, string) -> bool, visits: seq<Visit>, key: string, id: Identity, p: Endpoint -> bool) {
    exists k :: 0 <= k < |visits| && FirstVisit(ip, visits, key, id, k) && p(visits[k].endpoint)
  }

  ghost function IdentitiesWith(ip: (string, string) -> bool, visits: seq<Visit>, key: string, p: Endpoint -> bool): set<Identity> {
    set id | id in Identities(ip, visits, key) && FirstVisitIs(ip, visits, key, id, p)
  }

  /** An endpoint without the condition is ready and serving, but not terminating. */
  predicate IsReady(e: Endpoint) { e.ready == None || e.ready == Some(true) }
  predicate IsServing(e: Endpoint) { e.serving == None || e.serving == Some(true) }
  predicate IsTerminating(e: Endpoint) { e.terminating == Some(true) }

  lemma FirstVisitGrows(ip: (string, string) -> bool, visits: seq<Visit>, v: Visit, key: string, id: Identity, k: int)
    ensures k < |visits| ==> (FirstVisit(ip, visits + [v], key, id, k) <==> FirstVisit(ip, visits, key, id, k))
    ensures FirstVisit(ip, visits + [v], key, id, |visits|) <==> v.key == key && IdentityAt(ip, v) == Some(id) && id !in Identities(ip, visits, key)
  {
    hide IdentityOf;
    var after := visits + [v];
    assert forall j :: 0 <= j < |visits| ==> after[j] == visits[j];
    if id in Identities(ip, visits, key) {
      var u :| u in visits && u.key == key && IdentityAt(ip, u) == Some(id);
      var j :| 0 <= j < |visits| && visits[j] == u;
      assert after[j] == u;
    }
  }

  lemma FirstVisitIsListed(ip: (string, string) -> bool, visits: seq<Visit>, key: string, id: Identity, k: int)
    requires FirstVisit(ip, visits, key, id, k)
    ensures id in Identities(ip, visits, key)
  {
    hide IdentityOf;
    assert visits[k] in visits;
  }

  lemma WithStep(ip: (string, string) -> bool, visits: seq<Visit>, v: Visit, key: string, p: Endpoint -> bool)
    ensures var counts := v.key == key && IdentityAt(ip, v).Some? && IdentityAt(ip, v).value !in Identities(ip, visits, key) && p(v.endpoint);
            IdentitiesWith(ip, visits + [v], key, p) == IdentitiesWith(ip, visits, key, p) + (if counts then {IdentityAt(ip, v).value} else {})
  {
    hide IdentityAt, FirstVisit, Identities;
    var after := visits + [v];
    var counts := v.key == key && IdentityAt(ip, v).Some? && IdentityAt(ip, v).value !in Identities(ip, visits, key) && p(v.endpoint);
    forall id
      ensures id in IdentitiesWith(ip, after, key, p) <==> id in IdentitiesWith(ip, visits, key, p) || (counts && id == IdentityAt(ip, v).value)
    {
      if k :| 0 <= k < |after| && FirstVisit(ip, after, key, id, k) && p(after[k].endpoint) {
        FirstVisitGrows(ip, visits, v, key, id, k);
        if k < |visits| {
          assert after[k] == visits[k];
          FirstVisitIsListed(ip, visits, key, id, k);
        } else {
          assert after[k] == v;
        }
      }
      if k :| 0 <= k < |visits| && FirstVisit(ip, visits, key, id, k) && p(visits[k].endpoint) {
        FirstVisitGrows(ip, visits, v, key, id, k);
        assert after[k] == visits[k];
        FirstVisitIsListed(ip, after, key, id, k);
      }
      if counts && id == IdentityAt(ip, v).value {
        FirstVisitGrows(ip, visits, v, key, id, |visits|);
        assert after[|visits|] == v;
        FirstVisitIsListed(ip, after, key, id, |visits|);
      }
    }
  }

  lemma WithCount(ip: (string, string) -> bool, visits: seq<Visit>, v: Visit, key: string, p: Endpoint -> bool)
    ensures var counts := v.key == key && IdentityAt(ip, v).Some? && IdentityAt(ip, v).value !in Identities(ip, visits, key) && p(v.endpoint);
            |IdentitiesWith(ip, visits + [v], key, p)| == |IdentitiesWith(ip, visits, key, p)| + if counts then 1 else 0
  {
    WithStep(ip, visits, v, key, p);
    hide Identities, FirstVisitIs, IdentityAt;
    assert IdentitiesWith(ip, visits, key, p) <= Identities(ip, visits, key);
    hide IdentitiesWith;
  }

  /** Each counter is the number of identities whose first visit meets the condition. */
  lemma {:induction false} ConditionsAreCounted(ip: (string, string) -> bool, visits: seq<Visit>, key: string)
    requires forall v :: v in visits ==> Plain(v)
    ensures var c := Tally(Kept(ip, visits), key);
            && c.ready == |IdentitiesWith(ip, visits, key, IsReady)| && c.serving == |IdentitiesWith(ip, visits, key, IsServing)|
            && c.terminating == |IdentitiesWith(ip, visits, key, IsTerminating)|
  {
    hide IdentityAt, VisitId, Plain, Identities, IdentitiesWith, Tally, Kept, Count, Seen;
    NothingTallied(ip, key);
    if visits != [] {
      var n := |visits| - 1;
      var before, v := visits[..n], visits[n];
      assert visits == before + [v] && v in visits && forall u :: u in before ==> u in visits;
      ConditionsAreCounted(ip, before, key);
      WithCount(ip, before, v, key, IsReady);
      WithCount(ip, before, v, key, IsServing);
      WithCount(ip, before, v, key, IsTerminating);
      TallyStep(ip, before, v, key);
    }
  }

  lemma TallyStep(ip: (string, string) -> bool, visits: seq<Visit>, v: Visit, key: string)
    requires Plain(v) && forall u :: u in visits ==> Plain(u)
    ensures var c, counts := Tally(Kept(ip, visits), key), v.key == key && IdentityAt(ip, v).Some? && IdentityAt(ip, v).value !in Identities(ip, visits, key);
            var c' := Tally(Kept(ip, visits + [v]), key);
            && c'.ready == c.ready + (if counts && IsReady(v.endpoint) then 1 else 0)
            && c'.serving == c.serving + (if counts && IsServing(v.endpoint) then 1 else 0)
            && c'.terminating == c.terminating + (if counts && IsTerminating(v.endpoint) then 1 else 0)
  {
    hide IdentityAt, VisitId, Plain, Identities, Tally, Kept, Count, Seen, References;
    NewVisit(ip, visits, v);
    if VisitId(ip)(v).Some? && !Seen(VisitId(ip), visits, VisitId(ip)(v).value) {
      KeptStep(ip, visits, v);
      CountIs(Tally(Kept(ip, visits), key), v.endpoint);
    } else {
      RejectedKept(ip, visits, v);
    }
  }

  lemma NothingTallied(ip: (string, string) -> bool, key: string)
    ensures Tally(Kept(ip, []), key) == Counter(0, 0, 0, 0) && forall p :: IdentitiesWith(ip, [], key, p) == {}
  {
    assert Kept(ip, []) == [];
  }

  lemma CountIs(c: Counter, e: Endpoint)
    ensures Count(c, e).ready == c.ready + (if IsReady(e) then 1 else 0) && Count(c, e).serving == c.serving + (if IsServing(e) then 1 else 0)
    ensures Count(c, e).terminating == c.terminating + if IsTerminating(e) then 1 else 0
  {
  }

  /** A visit counts exactly if its service has not had its identity before. */
  lemma NewVisit(ip: (string, string) -> bool, visits: seq<Visit>, v: Visit)
    requires Plain(v) && forall u :: u in visits ==> Plain(u)
    ensures VisitId(ip)(v).Some? && !Seen(VisitId(ip), visits, VisitId(ip)(v).value) <==>
            IdentityAt(ip, v).Some? && IdentityAt(ip, v).value !in Identities(ip, visits, v.key)
  {
    hide IdentityOf, Encode, Identities, Plain, Seen;
    if IdentityAt(ip, v).Some? {
      KnownIdentity(ip, visits, v);
    }
  }

  // ----- the same by slices -----

  /** Endpoint j of accepted slice i is the first of its service with that identity. */
  ghost predicate FirstEndpoint(ip: (string, string) -> bool, accepted: seq<Slice>, namespace: string, service: string, id: Identity, i: int, j: int) {
    && HasIdentity(ip, accepted, namespace, service, id, i, j)
    && forall i', j' :: HasIdentity(ip, accepted, namespace, service, id, i', j') ==> i < i' || (i == i' && j <= j')
  }

  predicate HasIdentity(ip: (string, string) -> bool, accepted: seq<Slice>, namespace: string, service: string, id: Identity, i: int, j: int) {
    && 0 <= i < |accepted| && 0 <= j < |accepted[i].endpoints| && accepted[i].namespace == namespace && accepted[i].service == service
    && IdentityOf(ip, namespace, accepted[i].addressType, accepted[i].endpoints[j]) == Some(id)
  }

  /** The identities of a service whose first endpoint, in the order of the slices, meets the condition. */
  ghost function ServiceIdentitiesWith(ip: (string, string) -> bool, accepted: seq<Slice>, namespace: string, service: string, p: Endpoint -> bool): set<Identity> {
    set id | id in ServiceIdentities(ip, accepted, namespace, service) && FirstEndpointIs(ip, accepted, namespace, service, id, p)
  }

  ghost predicate FirstEndpointIs(ip: (string, string) -> bool, accepted: seq<Slice>, namespace: string, service: string, id: Identity, p: Endpoint -> bool) {
    exists i, j :: 0 <= i < |accepted| && 0 <= j < |accepted[i].endpoints| && FirstEndpoint(ip, accepted, namespace, service, id, i, j)
                   && p(accepted[i].endpoints[j])
  }

  /** The number of endpoints before those of slice i. */
  function Offset(accepted: seq<Slice>, i: nat): nat
    requires i <= |accepted|
  {
    if i == 0 then 0 else Offset(accepted, i - 1) + |accepted[i - 1].endpoints|
  }

  lemma {:induction false} OffsetGrows(accepted: seq<Slice>, i: nat, i': nat)
    requires i < i' <= |accepted|
    ensures Offset(accepted, i) + |accepted[i].endpoints| <= Offset(accepted, i')
    decreases i'
  {
    if i + 1 < i' {
      OffsetGrows(accepted, i, i' - 1);
    }
  }

  lemma {:induction false} OffsetOfPrefix(accepted: seq<Slice>, n: nat, i: nat)
    requires i <= n <= |accepted|
    ensures Offset(accepted[..n], i) == Offset(accepted, i)
  {
    if i > 0 {
      OffsetOfPrefix(accepted, n, i - 1);
    }
  }

  /** Visits are endpoints in the order of the slices. */
  lemma {:induction false} VisitOfEndpoint(accepted: seq<Slice>, i: nat, j: nat)
    requires i < |accepted| && j < |accepted[i].endpoints|
    ensures |AllVisits(accepted)| == Offset(accepted, |accepted|) > Offset(accepted, i) + j
    ensures AllVisits(accepted)[Offset(accepted, i) + j]
         == Visit(ServiceKey(accepted[i].namespace, accepted[i].service), accepted[i].namespace, accepted[i].service, accepted[i].addressType, accepted[i].endpoints[j])
  {
    hide ServiceKey, VisitsOf;
    var n := |accepted| - 1;
    VisitCount(accepted[..n]);
    VisitCount(accepted);
    OffsetOfPrefix(accepted, n, i);
    OffsetOfPrefix(accepted, n, n);
    VisitsLength(accepted[n]);
    if i < n {
      VisitOfEndpoint(accepted[..n], i, j);
    }
    OffsetGrows(accepted, i, |accepted|);
  }

  lemma {:induction false} VisitCount(accepted: seq<Slice>)
    ensures |AllVisits(accepted)| == Offset(accepted, |accepted|)
  {
    hide VisitsOf;
    if accepted != [] {
      var n := |accepted| - 1;
      VisitCount(accepted[..n]);
      OffsetOfPrefix(accepted, n, n);
      VisitsLength(accepted[n]);
    }
  }

  lemma {:induction false} EndpointOfVisit(accepted: seq<Slice>, k: nat) returns (i: nat, j: nat)
    requires k < Offset(accepted, |accepted|)
    ensures i < |accepted| && j < |accepted[i].endpoints| && k == Offset(accepted, i) + j
  {
    var n := |accepted| - 1;
    if k < Offset(accepted, n) {
      OffsetOfPrefix(accepted, n, n);
      i, j := EndpointOfVisit(accepted[..n], k);
      OffsetOfPrefix(accepted, n, i);
    } else {
      i, j := n, k - Offset(accepted, n);
    }
  }

  /** Endpoint j of slice i has the identity exactly if its visit does. */
  lemma EndpointIsVisit(ip: (string, string) -> bool, accepted: seq<Slice>, namespace: string, service: string, id: Identity, i: nat, j: nat)
    requires OwnKeys(accepted, namespace, service) && i < |accepted| && j < |accepted[i].endpoints|
    ensures var k := Offset(accepted, i) + j;
            && k < |AllVisits(accepted)| && AllVisits(accepted)[k].endpoint == accepted[i].endpoints[j]
            && (HasIdentity(ip, accepted, namespace, service, id, i, j) <==>
                AllVisits(accepted)[k].key == ServiceKey(namespace, service) && IdentityAt(ip, AllVisits(accepted)[k]) == Some(id))
  {
    hide ServiceKey, IdentityOf, AllVisits;
    VisitOfEndpoint(accepted, i, j);
  }

  /** Among these slices the key belongs to the service alone. */
  ghost predicate OwnKeys(accepted: seq<Slice>, namespace: string, service: string) {
    forall i :: 0 <= i < |accepted| ==>
      (ServiceKey(accepted[i].namespace, accepted[i].service) == ServiceKey(namespace, service) <==> Serves(accepted, i, namespace, service))
  }

  lemma FirstsAgree(ip: (string, string) -> bool, accepted: seq<Slice>, namespace: string, service: string, id: Identity, i: nat, j: nat)
    requires OwnKeys(accepted, namespace, service) && i < |accepted| && j < |accepted[i].endpoints|
    ensures FirstEndpoint(ip, accepted, namespace, service, id, i, j) <==>
            FirstVisit(ip, AllVisits(accepted), ServiceKey(namespace, service), id, Offset(accepted, i) + j)
  {
    hide ServiceKey, IdentityAt, AllVisits, OwnKeys, HasIdentity, Offset;
    var visits, key, k := AllVisits(accepted), ServiceKey(namespace, service), Offset(accepted, i) + j;
    EndpointIsVisit(ip, accepted, namespace, service, id, i, j);
    if FirstEndpoint(ip, accepted, namespace, service, id, i, j) {
      forall m | 0 <= m < k && visits[m].key == key
        ensures IdentityAt(ip, visits[m]) != Some(id)
      {
        VisitCount(accepted);
        var i', j' := EndpointOfVisit(accepted, m);
        EndpointIsVisit(ip, accepted, namespace, service, id, i', j');
        if i < i' {
          OffsetGrows(accepted, i, i');
        }
      }
    }
    if FirstVisit(ip, visits, key, id, k) {
      forall i', j' | HasIdentity(ip, accepted, namespace, service, id, i', j')
        ensures i < i' || (i == i' && j <= j')
      {
        PositionOf(ip, accepted, namespace, service, id, i', j');
        EndpointIsVisit(ip, accepted, namespace, service, id, i', j');
        if i' < i {
          OffsetGrows(accepted, i', i);
        }
      }
    }
  }

  lemma PositionOf(ip: (string, string) -> bool, accepted: seq<Slice>, namespace: string, service: string, id: Identity, i: int, j: int)
    requires HasIdentity(ip, accepted, namespace, service, id, i, j)
    ensures 0 <= i < |accepted| && 0 <= j < |accepted[i].endpoints|
  {
    hide IdentityOf;
  }

  lemma SameFirsts(ip: (string, string) -> bool, accepted: seq<Slice>, namespace: string, service: string, id: Identity, p: Endpoint -> bool)
    requires OwnKeys(accepted, namespace, service)
    ensures FirstVisitIs(ip, AllVisits(accepted), ServiceKey(namespace, service), id, p) <==> FirstEndpointIs(ip, accepted, namespace, service, id, p)
  {
    hide ServiceKey, IdentityAt, AllVisits, OwnKeys, HasIdentity, Offset, FirstVisit, FirstEndpoint;
    var visits, key := AllVisits(accepted), ServiceKey(namespace, service);
    if k :| 0 <= k < |visits| && FirstVisit(ip, visits, key, id, k) && p(visits[k].endpoint) {
      VisitCount(accepted);
      var i, j := EndpointOfVisit(accepted, k);
      EndpointIsVisit(ip, accepted, namespace, service, id, i, j);
      FirstsAgree(ip, accepted, namespace, service, id, i, j);
    }
    if i, j :| 0 <= i < |accepted| && 0 <= j < |accepted[i].endpoints| && FirstEndpoint(ip, accepted, namespace, service, id, i, j)
              && p(accepted[i].endpoints[j]) {
      EndpointIsVisit(ip, accepted, namespace, service, id, i, j);
      FirstsAgree(ip, accepted, namespace, service, id, i, j);
    }
  }

  lemma SameIdentitiesWith(ip: (string, string) -> bool, accepted: seq<Slice>, namespace: string, service: string, p: Endpoint -> bool)
    requires OwnKeys(accepted, namespace, service)
    ensures IdentitiesWith(ip, AllVisits(accepted), ServiceKey(namespace, service), p) == ServiceIdentitiesWith(ip, accepted, namespace, service, p)
  {
    SameIdentities(ip, accepted, namespace, service);
    hide ServiceKey, AllVisits, OwnKeys, Identities, ServiceIdentities, FirstVisitIs, FirstEndpointIs;
    forall id
      ensures FirstVisitIs(ip, AllVisits(accepted), ServiceKey(namespace, service), id, p) <==> FirstEndpointIs(ip, accepted, namespace, service, id, p)
    {
      SameFirsts(ip, accepted, namespace, service, id, p);
    }
  }

  /** What a service's counter says: ready is the number of its endpoint identities whose first endpoint has no ready
      condition or a true one, serving likewise, and terminating the number whose first endpoint has a true one. */
  lemma ConditionsPerService(ip: (string, string) -> bool, slices: seq<Slice>, a: Analysis, namespace: string, service: string)
    requires Complete(ip, slices, a) && ValidNamespace(namespace) && ServiceKey(namespace, service) in a.counts
    ensures var accepted, c := Accepted(slices), a.counts[ServiceKey(namespace, service)];
            && c.ready == |ServiceIdentitiesWith(ip, accepted, namespace, service, IsReady)|
            && c.serving == |ServiceIdentitiesWith(ip, accepted, namespace, service, IsServing)|
            && c.terminating == |ServiceIdentitiesWith(ip, accepted, namespace, service, IsTerminating)|
  {
    hide Plain, ServiceKey, Tally, References, AllVisits, IdentitiesWith, ServiceIdentitiesWith, ValidSlice, Kept, ValidNamespace, Accepted;
    var accepted, key := Accepted(slices), ServiceKey(namespace, service);
    AcceptedValid(slices);
    AcceptedNamespaces(slices);
    forall i | 0 <= i < |accepted|
      ensures ServiceKey(accepted[i].namespace, accepted[i].service) == key <==> Serves(accepted, i, namespace, service)
    {
      ServiceKeyInjective(accepted[i].namespace, accepted[i].service, namespace, service);
    }
    ConditionsAreCounted(ip, AllVisits(accepted), key);
    SameIdentitiesWith(ip, accepted, namespace, service, IsReady);
    SameIdentitiesWith(ip, accepted, namespace, service, IsServing);
    SameIdentitiesWith(ip, accepted, namespace, service, IsTerminating);
  }

  predicate SamePair(a: Reference, b: Reference) {
    a.namespace == b.namespace && a.service == b.service && a.pod == b.pod
  }

  lemma {:induction false} ReferencesFrom(kept: seq<Visit>)
    ensures forall r :: r in References(kept) ==> exists v :: v in kept && NamesPod(v) && r == ObservedReference(v)
  {
    hide NamesPod, ObservedReference;
    if kept != [] {
      ReferencesFrom(kept[..|kept| - 1]);
    }
  }

  lemma {:induction false} ReferencesDistinct(ip: (string, string) -> bool, kept: seq<Visit>)
    requires forall v :: v in kept ==> VisitId(ip)(v).Some? && v.key == ServiceKey(v.namespace, v.service)
    requires forall i, j :: 0 <= i < j < |kept| ==> VisitId(ip)(kept[i]) != VisitId(ip)(kept[j])
    ensures forall i, j :: 0 <= i < j < |References(kept)| ==> !SamePair(References(kept)[i], References(kept)[j])
  {
    hide ServiceKey, VisitId, NamesPod, ObservedReference, SamePair;
    if kept != [] {
      var n := |kept| - 1;
      ReferencesDistinct(ip, kept[..n]);
      ReferencesFrom(kept[..n]);
      var before := References(kept[..n]);
      if NamesPod(kept[n]) {
        forall i | 0 <= i < |before|
          ensures !SamePair(before[i], ObservedReference(kept[n]))
        {
          assert before[i] in before;
          var v :| v in kept[..n] && NamesPod(v) && before[i] == ObservedReference(v);
          var k :| 0 <= k < n && kept[k] == v;
          assert VisitId(ip)(kept[k]) != VisitId(ip)(kept[n]);
          SamePairSameId(ip, v, kept[n]);
        }
      }
    }
  }

  /** Visits that name the same pod of the same service have the same identity. */
  lemma SamePairSameId(ip: (string, string) -> bool, u: Visit, v: Visit)
    requires NamesPod(u) && NamesPod(v) && VisitId(ip)(u).Some? && VisitId(ip)(v).Some?
    requires u.key == ServiceKey(u.namespace, u.service) && v.key == ServiceKey(v.namespace, v.service)
    ensures SamePair(ObservedReference(u), ObservedReference(v)) ==> VisitId(ip)(u) == VisitId(ip)(v)
  {
    hide ServiceKey, Encode, ValidAddresses, ValidReferenceName;
  }

  /** Observed references are unique per namespace, service and pod, at most 8192, and all dropped beyond that. */
  lemma ObservedReferences(ip: (string, string) -> bool, slices: seq<Slice>, a: Analysis)
    requires Complete(ip, slices, a)
    ensures |a.references| <= 8192 && (a.processingLimited ==> a.references == [])
    ensures forall i, j :: 0 <= i < j < |a.references| ==> !SamePair(a.references[i], a.references[j])
    ensures forall i :: 0 <= i < |a.references| ==>
              ServiceKey(a.references[i].namespace, a.references[i].service) in a.counts && a.references[i].confidence == "observed"
  {
    hide Plain, ServiceKey, Tally, Accepted, AllVisits, NamesPod, SamePair;
    var accepted := Accepted(slices);
    var visits := AllVisits(accepted);
    VisitKeys(accepted);
    FirstsKeys(VisitId(ip), visits);
    var kept := Kept(ip, visits);
    ReferencesDistinct(ip, kept);
    ReferencesFrom(kept);
    forall i | 0 <= i < |a.references|
      ensures ServiceKey(a.references[i].namespace, a.references[i].service) in a.counts && a.references[i].confidence == "observed"
    {
      assert a.references[i] in References(kept);
      var v :| v in kept && NamesPod(v) && a.references[i] == ObservedReference(v);
      assert v in visits;
    }
  }

  /** A reference as the checks leave it: accepted names and a constant field. */
  predicate Checked(r: Reference) {
    && ValidNamespace(r.namespace) && ValidReferenceName(r.service) && ValidReferenceName(r.pod)
    && (r.sourceField == "EndpointSlice.endpoints.targetRef" || r.sourceField == "Service.spec.selector")
  }

  lemma ObservedAreChecked(ip: (string, string) -> bool, slices: seq<Slice>, a: Analysis)
    requires Complete(ip, slices, a)
    ensures forall r :: r in a.references ==> Checked(r)
  {
    hide Plain, ServiceKey, Tally, Accepted, AllVisits, ValidNamespace, ValidReferenceName, Kept, References;
    var accepted := Accepted(slices);
    var visits := AllVisits(accepted);
    var kept := Kept(ip, visits);
    AcceptedValid(slices);
    VisitKeys(accepted);
    FirstsKeys(VisitId(ip), visits);
    ReferencesFrom(kept);
    forall r | r in a.references
      ensures Checked(r)
    {
      var v :| v in kept && NamesPod(v) && r == ObservedReference(v);
      KeptIsVisited(ip, visits, v);
      var s :| s in accepted && s.namespace == v.namespace && s.service == v.service;
    }
  }

  lemma KeptIsVisited(ip: (string, string) -> bool, visits: seq<Visit>, v: Visit)
    requires v in Kept(ip, visits)
    ensures v in visits
  {
    FirstsKeys(VisitId(ip), visits);
    hide VisitId;
  }
}
