/** Endpoint references inferred from service selectors, and the merge of their counts. */
module EndpointInference {
  import opened Text
  import opened Names
  import opened Dedup
  import opened LabelSelectors
  import opened Endpoints

  const MaxComparisons := 250_000

  datatype Pod = Pod(namespace: string, name: string, labels: map<string, string>, healthy: bool)

  /** `supports` is the service's own check that its type and spec allow selector inference. */
  datatype Service = Service(namespace: string, name: string, selector: map<string, string>, supports: bool)

  /** `labelsMatch`: a non-empty bounded selector whose valid labels the bounded label set holds. */
  predicate LabelsMatch(selector: map<string, string>, labels: map<string, string>) {
    |selector| > 0 && SelectorMatchesLabels(selector, labels)
  }

  function PodId(p: Pod): Option<string> {
    if ValidNamespace(p.namespace) && ValidReferenceName(p.name) then Some(ServiceKey(p.namespace, p.name)) else None
  }

  function ServiceId(s: Service): Option<string> {
    if s.supports && ValidNamespace(s.namespace) && ValidReferenceName(s.name) then Some(ServiceKey(s.namespace, s.name)) else None
  }

  /** `uniqueValidPods`. */
  method UniqueValidPods(pods: seq<Pod>) returns (result: seq<Pod>)
    ensures result == Firsts(PodId, pods)
  {
    hide PodId, Seen;
    result := [];
    var seen: set<string> := {};
    EmptySeen(PodId);
    for i := 0 to |pods|
      invariant result == Firsts(PodId, pods[..i])
      invariant forall k :: k in seen <==> Seen(PodId, pods[..i], k)
    {
      ghost var upTo := pods[..i + 1];
      assert upTo[..i] == pods[..i] && upTo[i] == pods[i];
      SeenStep(PodId, upTo);
      var id := PodId(pods[i]);
      if id.None? {
        continue;
      }
      FirstIsUnseen(PodId, upTo);
      if id.value in seen {
        continue;
      }
      seen := seen + {id.value};
      result := result + [pods[i]];
    }
    assert pods[..|pods|] == pods;
  }

  // ----- the specification -----

  function ReferenceId(namespace: string, service: string, pod: string): string {
    namespace + ['\0'] + (service + ['\0'] + pod)
  }

  function IdOf(r: Reference): string { ReferenceId(r.namespace, r.service, r.pod) }

  /** For accepted names the joined string determines the three names. */
  lemma ReferenceIdInjective(namespace: string, service: string, pod: string, namespace': string, service': string, pod': string)
    requires ValidNamespace(namespace) && ValidNamespace(namespace') && ValidReferenceName(service) && ValidReferenceName(service')
    ensures ReferenceId(namespace, service, pod) == ReferenceId(namespace', service', pod') <==> (namespace, service, pod) == (namespace', service', pod')
  {
    DnsAlphabet(namespace);
    DnsAlphabet(namespace');
    DnsAlphabet(service);
    DnsAlphabet(service');
    if ReferenceId(namespace, service, pod) == ReferenceId(namespace', service', pod') {
      SplitUnique(namespace, service + ['\0'] + pod, namespace', service' + ['\0'] + pod', '\0');
      SplitUnique(service, pod, service', pod', '\0');
    }
  }

  predicate Selects(s: Service, p: Pod) {
    p.namespace == s.namespace && LabelsMatch(s.selector, p.labels)
  }

  function Inferred(s: Service, p: Pod): Reference {
    Reference(s.namespace, s.name, p.name, "Service.spec.selector", "inferred", p.healthy)
  }

  /** The selector matches of one service that were not observed, in pod order. */
  function ServiceMatches(known: set<string>, s: Service, pods: seq<Pod>): seq<Reference> {
    if pods == [] then []
    else
      var p := pods[|pods| - 1];
      ServiceMatches(known, s, pods[..|pods| - 1])
        + if Selects(s, p) && IdOf(Inferred(s, p)) !in known then [Inferred(s, p)] else []
  }

  function AllMatches(known: set<string>, services: seq<Service>, pods: seq<Pod>): seq<Reference> {
    if services == [] then []
    else AllMatches(known, services[..|services| - 1], pods) + ServiceMatches(known, services[|services| - 1], pods)
  }

  function SameNamespace(s: Service, pods: seq<Pod>): nat {
    if pods == [] then 0
    else SameNamespace(s, pods[..|pods| - 1]) + if pods[|pods| - 1].namespace == s.namespace then 1 else 0
  }

  function Comparisons(services: seq<Service>, pods: seq<Pod>): nat {
    if services == [] then 0
    else Comparisons(services[..|services| - 1], pods) + SameNamespace(services[|services| - 1], pods)
  }

  function Known(observed: seq<Reference>): set<string> {
    set r | r in observed :: IdOf(r)
  }

  /** All or nothing: the observed references, followed by every match unless a limit is exceeded. */
  function Expected(observed: seq<Reference>, services: seq<Service>, pods: seq<Pod>): seq<Reference> {
    var matches := AllMatches(Known(observed), services, pods);
    if Comparisons(services, pods) > MaxComparisons || |observed| + |matches| > MaxResults then observed
    else observed + matches
  }

  // ----- the loops -----

  ghost predicate DistinctPods(pods: seq<Pod>) {
    && (forall i :: 0 <= i < |pods| ==> PodId(pods[i]).Some?)
    && (forall i, j :: 0 <= i < j < |pods| ==> PodId(pods[i]) != PodId(pods[j]))
  }

  lemma PodNamesDiffer(s: Service, pods: seq<Pod>, i: nat, j: nat)
    requires DistinctPods(pods) && ServiceId(s).Some? && i < j < |pods|
    requires pods[i].namespace == s.namespace && pods[j].namespace == s.namespace
    ensures IdOf(Inferred(s, pods[i])) != IdOf(Inferred(s, pods[j]))
  {
    hide ValidNamespace, ValidReferenceName, ServiceKey;
    assert PodId(pods[i]).Some? && PodId(pods[j]).Some? && PodId(pods[i]) != PodId(pods[j]);
    ReferenceIdInjective(s.namespace, s.name, pods[i].name, s.namespace, s.name, pods[j].name);
  }

  predicate IdIn(references: seq<Reference>, id: string) { exists r :: r in references && IdOf(r) == id }

  /** The loop variables after the first i pods of one service. */
  ghost predicate Matching(known: set<string>, s: Service, pods: seq<Pod>, i: nat, references: seq<Reference>, seen: set<string>,
                           references': seq<Reference>, seen': set<string>)
  {
    && i <= |pods|
    && references' == references + ServiceMatches(known, s, pods[..i])
    && (ServiceMatches(known, s, pods[..i]) != [] ==> |references'| <= MaxResults)
    && (forall k :: k in seen' <==> k in seen || IdIn(ServiceMatches(known, s, pods[..i]), k))
    && (forall j :: i <= j < |pods| && pods[j].namespace == s.namespace ==>
          (IdOf(Inferred(s, pods[j])) in seen' <==> IdOf(Inferred(s, pods[j])) in known))
  }

  lemma MatchSkip(known: set<string>, s: Service, pods: seq<Pod>, i: nat, references: seq<Reference>, seen: set<string>,
                  references': seq<Reference>, seen': set<string>)
    requires Matching(known, s, pods, i, references, seen, references', seen') && i < |pods|
    requires !Selects(s, pods[i]) || IdOf(Inferred(s, pods[i])) in known
    ensures Matching(known, s, pods, i + 1, references, seen, references', seen')
  {
    hide Selects, IdOf, Inferred;
    var upTo := pods[..i + 1];
    assert upTo[..i] == pods[..i] && upTo[i] == pods[i];
    assert ServiceMatches(known, s, upTo) == ServiceMatches(known, s, pods[..i]);
  }

  lemma MatchAdd(known: set<string>, s: Service, pods: seq<Pod>, i: nat, references: seq<Reference>, seen: set<string>,
                 references': seq<Reference>, seen': set<string>)
    requires Matching(known, s, pods, i, references, seen, references', seen') && i < |pods|
    requires DistinctPods(pods) && ServiceId(s).Some?
    requires Selects(s, pods[i]) && IdOf(Inferred(s, pods[i])) !in known && |references'| < MaxResults
    ensures Matching(known, s, pods, i + 1, references, seen, references' + [Inferred(s, pods[i])], seen' + {IdOf(Inferred(s, pods[i]))})
  {
    hide LabelsMatch, IdOf, Inferred, DistinctPods, ServiceId;
    var upTo := pods[..i + 1];
    assert upTo[..i] == pods[..i] && upTo[i] == pods[i];
    var r := Inferred(s, pods[i]);
    var before := ServiceMatches(known, s, pods[..i]);
    assert ServiceMatches(known, s, upTo) == before + [r];
    hide ServiceMatches;
    forall j | i < j < |pods| && pods[j].namespace == s.namespace
      ensures IdOf(Inferred(s, pods[j])) != IdOf(r)
    {
      PodNamesDiffer(s, pods, i, j);
    }
    assert forall x :: x in before + [r] <==> x in before || x == r;
  }

  /** The pod loop of one service. `ok` is false when a limit is exceeded, and the caller then drops everything. */
  method MatchService(s: Service, pods: seq<Pod>, references: seq<Reference>, seen: set<string>, comparisons: nat, ghost known: set<string>)
    returns (ok: bool, references': seq<Reference>, seen': set<string>, comparisons': nat)
    requires DistinctPods(pods) && ServiceId(s).Some? && comparisons <= MaxComparisons
    requires Matching(known, s, pods, 0, references, seen, references, seen)
    ensures var matches := ServiceMatches(known, s, pods);
            ok == !(comparisons + SameNamespace(s, pods) > MaxComparisons || (matches != [] && |references| + |matches| > MaxResults))
    ensures ok ==> Matching(known, s, pods, |pods|, references, seen, references', seen') && comparisons' == comparisons + SameNamespace(s, pods)
  {
    hide LabelsMatch, PodId, ServiceId, ReferenceId, DistinctPods;
    references', seen', comparisons' := references, seen, comparisons;
    for i := 0 to |pods|
      invariant comparisons' == comparisons + SameNamespace(s, pods[..i]) <= MaxComparisons
      invariant Matching(known, s, pods, i, references, seen, references', seen')
    {
      ghost var upTo := pods[..i + 1];
      assert upTo[..i] == pods[..i] && upTo[i] == pods[i];
      MatchesGrow(known, s, pods, i + 1, |pods|);
      assert pods[..|pods|] == pods;
      if pods[i].namespace != s.namespace {
        MatchSkip(known, s, pods, i, references, seen, references', seen');
        continue;
      }
      comparisons' := comparisons' + 1;
      if comparisons' > MaxComparisons {
        ok := false;
        return;
      }
      if !LabelsMatch(s.selector, pods[i].labels) || IdOf(Inferred(s, pods[i])) in seen' {
        MatchSkip(known, s, pods, i, references, seen, references', seen');
        continue;
      }
      if |references'| >= MaxResults {
        ok := false;
        return;
      }
      MatchAdd(known, s, pods, i, references, seen, references', seen');
      references', seen' := references' + [Inferred(s, pods[i])], seen' + {IdOf(Inferred(s, pods[i]))};
    }
    assert pods[..|pods|] == pods;
    ok := true;
  }

  lemma {:induction false} MatchesGrow(known: set<string>, s: Service, pods: seq<Pod>, i: nat, j: nat)
    requires i <= j <= |pods|
    ensures |ServiceMatches(known, s, pods[..i])| <= |ServiceMatches(known, s, pods[..j])|
    ensures SameNamespace(s, pods[..i]) <= SameNamespace(s, pods[..j])
    decreases j - i
  {
    hide Selects, IdOf;
    if i < j {
      MatchesGrow(known, s, pods, i, j - 1);
      assert pods[..j][..j - 1] == pods[..j - 1];
    }
  }

  lemma {:induction false} ServiceMatchesAre(known: set<string>, s: Service, pods: seq<Pod>)
    ensures forall r :: r in ServiceMatches(known, s, pods) <==> IdOf(r) !in known && exists p :: p in pods && Selects(s, p) && r == Inferred(s, p)
  {
    hide Selects, IdOf, Inferred;
    if pods != [] {
      var n := |pods| - 1;
      ServiceMatchesAre(known, s, pods[..n]);
      assert forall p :: p in pods <==> p in pods[..n] || p == pods[n];
    }
  }

  /** The matches are exactly the unobserved references of a service and a pod its selector selects. */
  lemma {:induction false} MatchesAre(known: set<string>, services: seq<Service>, pods: seq<Pod>)
    ensures forall r :: r in AllMatches(known, services, pods) <==>
              IdOf(r) !in known && exists s, p :: s in services && p in pods && Selects(s, p) && r == Inferred(s, p)
  {
    hide Selects, IdOf, Inferred;
    if services != [] {
      var n := |services| - 1;
      MatchesAre(known, services[..n], pods);
      ServiceMatchesAre(known, services[n], pods);
      assert forall s :: s in services <==> s in services[..n] || s == services[n];
    }
  }

  /** A service not taken before meets none of its own references among the earlier matches. */
  lemma NewServiceMatching(known: set<string>, taken: seq<Service>, s: Service, pods: seq<Pod>, references: seq<Reference>, seen: set<string>)
    requires DistinctPods(pods) && ServiceId(s).Some?
    requires forall t :: t in taken ==> ServiceId(t).Some? && ServiceId(t) != ServiceId(s)
    requires forall k :: k in seen <==> k in known || IdIn(AllMatches(known, taken, pods), k)
    ensures Matching(known, s, pods, 0, references, seen, references, seen)
  {
    hide Selects, ServiceKey, ValidNamespace, ValidReferenceName, ReferenceId;
    MatchesAre(known, taken, pods);
    forall j | 0 <= j < |pods| && pods[j].namespace == s.namespace && IdOf(Inferred(s, pods[j])) in seen
      ensures IdOf(Inferred(s, pods[j])) in known
    {
      if IdOf(Inferred(s, pods[j])) !in known {
        var r :| r in AllMatches(known, taken, pods) && IdOf(r) == IdOf(Inferred(s, pods[j]));
        var t, p :| t in taken && p in pods && Selects(t, p) && r == Inferred(t, p);
        assert ServiceId(t).Some? && PodId(pods[j]).Some?;
        ReferenceIdInjective(t.namespace, t.name, p.name, s.namespace, s.name, pods[j].name);
      }
    }
  }

  lemma {:induction false} MatchesMonotone(known: set<string>, a: seq<Service>, b: seq<Service>, pods: seq<Pod>)
    requires a <= b
    ensures |AllMatches(known, a, pods)| <= |AllMatches(known, b, pods)| && Comparisons(a, pods) <= Comparisons(b, pods)
    decreases |b|
  {
    hide ServiceMatches, SameNamespace;
    if |a| < |b| {
      assert a <= b[..|b| - 1];
      MatchesMonotone(known, a, b[..|b| - 1], pods);
    } else {
      assert a == b;
    }
  }

  /** The outer loop variables after the services taken so far. */
  ghost predicate Inferring(observed: seq<Reference>, taken: seq<Service>, pods: seq<Pod>, references: seq<Reference>, seen: set<string>, comparisons: nat) {
    var matches := AllMatches(Known(observed), taken, pods);
    && references == observed + matches
    && (matches != [] ==> |references| <= MaxResults)
    && comparisons == Comparisons(taken, pods) <= MaxComparisons
    && forall k :: k in seen <==> k in Known(observed) || IdIn(matches, k)
  }

  lemma InferringStep(observed: seq<Reference>, taken: seq<Service>, s: Service, pods: seq<Pod>, references: seq<Reference>, seen: set<string>, comparisons: nat,
                      references': seq<Reference>, seen': set<string>)
    requires Inferring(observed, taken, pods, references, seen, comparisons)
    requires Matching(Known(observed), s, pods, |pods|, references, seen, references', seen')
    requires comparisons + SameNamespace(s, pods) <= MaxComparisons
    ensures Inferring(observed, taken + [s], pods, references', seen', comparisons + SameNamespace(s, pods))
  {
    hide Known, ServiceMatches, SameNamespace, IdOf, IdIn, Inferred, Selects, AllMatches, Comparisons;
    assert pods[..|pods|] == pods;
    var a, b := AllMatches(Known(observed), taken, pods), ServiceMatches(Known(observed), s, pods);
    OneMoreService(Known(observed), taken, s, pods);
    assert references' == observed + (a + b);
    SeenUnion(Known(observed), a, b, seen, seen');
  }

  lemma OneMoreService(known: set<string>, taken: seq<Service>, s: Service, pods: seq<Pod>)
    ensures AllMatches(known, taken + [s], pods) == AllMatches(known, taken, pods) + ServiceMatches(known, s, pods)
    ensures Comparisons(taken + [s], pods) == Comparisons(taken, pods) + SameNamespace(s, pods)
  {
    hide ServiceMatches, SameNamespace;
    assert (taken + [s])[..|taken|] == taken;
  }

  lemma SeenUnion(known: set<string>, a: seq<Reference>, b: seq<Reference>, seen: set<string>, seen': set<string>)
    requires forall k :: k in seen <==> k in known || IdIn(a, k)
    requires forall k :: k in seen' <==> k in seen || IdIn(b, k)
    ensures forall k :: k in seen' <==> k in known || IdIn(a + b, k)
  {
    hide IdOf;
    assert forall r :: r in a + b <==> r in a || r in b;
  }

  lemma FirstPodsDistinct(pods: seq<Pod>)
    ensures DistinctPods(Firsts(PodId, pods))
  {
    hide PodId;
    FirstsKeys(PodId, pods);
    assert forall i :: 0 <= i < |Firsts(PodId, pods)| ==> Firsts(PodId, pods)[i] in Firsts(PodId, pods);
  }

  lemma ServiceStep(services: seq<Service>, i: nat)
    requires i < |services|
    ensures var taken := ServiceId(services[i]).Some? && !Seen(ServiceId, services[..i], ServiceId(services[i]).value);
            Firsts(ServiceId, services[..i + 1]) == (if taken then Firsts(ServiceId, services[..i]) + [services[i]] else Firsts(ServiceId, services[..i]))
    ensures forall k :: Seen(ServiceId, services[..i + 1], k) <==> Seen(ServiceId, services[..i], k) || ServiceId(services[i]) == Some(k)
  {
    hide ServiceId;
    var upTo := services[..i + 1];
    assert upTo[..i] == services[..i] && upTo[i] == services[i];
    SeenStep(ServiceId, upTo);
    if ServiceId(services[i]).Some? {
      FirstIsUnseen(ServiceId, upTo);
    }
    assert Firsts(ServiceId, services[..i]) + [] == Firsts(ServiceId, services[..i]);
  }

  lemma NotTaken(services: seq<Service>, i: nat)
    requires i < |services| && ServiceId(services[i]).Some? && !Seen(ServiceId, services[..i], ServiceId(services[i]).value)
    ensures forall t :: t in Firsts(ServiceId, services[..i]) ==> ServiceId(t).Some? && ServiceId(t) != ServiceId(services[i])
  {
    hide ServiceId;
    FirstsKeys(ServiceId, services[..i]);
    forall t | t in Firsts(ServiceId, services[..i])
      ensures ServiceId(t) != ServiceId(services[i])
    {
      var j :| 0 <= j < i && services[..i][j] == t;
    }
  }

  lemma InferringStart(observed: seq<Reference>, pods: seq<Pod>, seen: set<string>)
    requires seen == Known(observed)
    ensures Inferring(observed, Firsts(ServiceId, []), pods, observed, seen, 0)
  {
    assert AllMatches(Known(observed), [], pods) == [];
    assert observed + [] == observed;
  }

  lemma InferringSeen(observed: seq<Reference>, taken: seq<Service>, pods: seq<Pod>, references: seq<Reference>, seen: set<string>, comparisons: nat)
    requires Inferring(observed, taken, pods, references, seen, comparisons)
    ensures forall k :: k in seen <==> k in Known(observed) || IdIn(AllMatches(Known(observed), taken, pods), k)
    ensures |references| == |observed| + |AllMatches(Known(observed), taken, pods)| && comparisons == Comparisons(taken, pods)
  {
    hide AllMatches, IdOf, Known, Comparisons;
  }

  /** A limit exceeded by one service is exceeded by the whole list. */
  lemma LimitReached(observed: seq<Reference>, services: seq<Service>, i: nat, pods: seq<Pod>, references: seq<Reference>, seen: set<string>, comparisons: nat)
    requires i < |services| && Inferring(observed, Firsts(ServiceId, services[..i]), pods, references, seen, comparisons)
    requires Firsts(ServiceId, services[..i + 1]) == Firsts(ServiceId, services[..i]) + [services[i]]
    requires var matches := ServiceMatches(Known(observed), services[i], pods);
             comparisons + SameNamespace(services[i], pods) > MaxComparisons || (matches != [] && |references| + |matches| > MaxResults)
    ensures Expected(observed, Firsts(ServiceId, services), pods) == observed
  {
    hide Firsts, ServiceMatches, SameNamespace, Known, Seen, IdOf;
    var taken := Firsts(ServiceId, services[..i]);
    FirstsPrefix(ServiceId, services, i + 1);
    assert (taken + [services[i]])[..|taken|] == taken;
    InferringSeen(observed, taken, pods, references, seen, comparisons);
    MatchesMonotone(Known(observed), taken + [services[i]], Firsts(ServiceId, services), pods);
  }

  lemma InferringEnd(observed: seq<Reference>, services: seq<Service>, pods: seq<Pod>, references: seq<Reference>, seen: set<string>, comparisons: nat)
    requires Inferring(observed, services, pods, references, seen, comparisons)
    ensures references == Expected(observed, services, pods)
  {
    hide AllMatches, Known, IdOf, Comparisons;
    var matches := AllMatches(Known(observed), services, pods);
    if matches == [] {
      assert observed + matches == observed;
    }
  }

  /** `serviceEndpointReferencesFromObserved`, over the first supported service and the first valid pod of each name. */
  method InferReferences(observed: seq<Reference>, services: seq<Service>, pods: seq<Pod>) returns (result: seq<Reference>)
    ensures result == Expected(observed, Firsts(ServiceId, services), Firsts(PodId, pods))
  {
    hide Matching, Seen, ServiceId, PodId, DistinctPods, Inferring, AllMatches, Comparisons, Known, SameNamespace, ServiceMatches, IdIn, Firsts, Expected, IsFirst;
    NoServices();
    var validPods := UniqueValidPods(pods);
    FirstPodsDistinct(pods);
    var references := observed;
    var comparisons: nat := 0;
    var seen, seenServices: set<string> := Known(observed), {};
    EmptySeen(ServiceId);
    assert services[..0] == [];
    InferringStart(observed, validPods, seen);
    for i := 0 to |services|
      invariant forall k :: k in seenServices <==> Seen(ServiceId, services[..i], k)
      invariant Inferring(observed, Firsts(ServiceId, services[..i]), validPods, references, seen, comparisons)
      invariant comparisons <= MaxComparisons
    {
      ghost var taken := Firsts(ServiceId, services[..i]);
      var service := services[i];
      ServiceStep(services, i);
      var id := ServiceId(service);
      if id.None? || id.value in seenServices {
        continue;
      }
      seenServices := seenServices + {id.value};
      NotTaken(services, i);
      InferringSeen(observed, taken, validPods, references, seen, comparisons);
      NewServiceMatching(Known(observed), taken, service, validPods, references, seen);
      var ok, references', seen', comparisons' := MatchService(service, validPods, references, seen, comparisons, Known(observed));
      if !ok {
        LimitReached(observed, services, i, validPods, references, seen, comparisons);
        return observed;
      }
      InferringStep(observed, taken, service, validPods, references, seen, comparisons, references', seen');
      references, seen, comparisons := references', seen', comparisons';
    }
    assert services[..|services|] == services;
    InferringEnd(observed, Firsts(ServiceId, services), validPods, references, seen, comparisons);
    result := references;
  }

  lemma NoServices()
    ensures Firsts(ServiceId, []) == []
  {
  }

  /** Observed references that are checked stay so, and so are the inferred ones. */
  lemma InferredAreChecked(observed: seq<Reference>, services: seq<Service>, pods: seq<Pod>)
    requires forall r :: r in observed ==> Checked(r)
    ensures forall r :: r in Expected(observed, Firsts(ServiceId, services), Firsts(PodId, pods)) ==> Checked(r)
  {
    hide Selects, IdOf, Known, Comparisons, AllMatches, ValidNamespace, ValidReferenceName;
    var first, valid := Firsts(ServiceId, services), Firsts(PodId, pods);
    MatchesAre(Known(observed), first, valid);
    FirstsKeys(ServiceId, services);
    FirstsKeys(PodId, pods);
    forall r | r in AllMatches(Known(observed), first, valid)
      ensures Checked(r)
    {
      var s, p :| s in first && p in valid && Selects(s, p) && r == Inferred(s, p);
      assert ServiceId(s).Some? && PodId(p).Some?;
    }
  }

  /** Either nothing is inferred, or every unobserved selector match is, once: the references are the observed
      ones followed by exactly the matches of a first supported service and a first valid pod. */
  lemma InferenceIsComplete(observed: seq<Reference>, services: seq<Service>, pods: seq<Pod>)
    ensures observed <= Expected(observed, Firsts(ServiceId, services), Firsts(PodId, pods))
    ensures var result := Expected(observed, Firsts(ServiceId, services), Firsts(PodId, pods));
            var added := result[|observed|..];
            && (added == [] || |result| <= 8192)
            && (forall r :: r in added ==> IdOf(r) !in Known(observed) && r.confidence == "inferred")
            && (|result| > |observed| ==> forall s, p :: s in services && p in pods && IsFirstOf(ServiceId, services, s) && IsFirstOf(PodId, pods, p) && Selects(s, p) ==>
                  IdOf(Inferred(s, p)) in Known(observed) || Inferred(s, p) in added)
  {
    hide Selects, ServiceId, PodId, IdOf, Known, Comparisons;
    var first, valid := Firsts(ServiceId, services), Firsts(PodId, pods);
    var matches := AllMatches(Known(observed), first, valid);
    MatchesAre(Known(observed), first, valid);
    hide AllMatches;
    var result := Expected(observed, first, valid);
    assert result == observed + matches || result == observed;
    assert (observed + matches)[|observed|..] == matches && observed[|observed|..] == [];
    forall s, p | s in services && p in pods && IsFirstOf(ServiceId, services, s) && IsFirstOf(PodId, pods, p) && Selects(s, p)
      ensures s in first && p in valid
    {
      FirstIsKept(ServiceId, services, s);
      FirstIsKept(PodId, pods, p);
    }
  }

  // ----- merging inferred counts -----

  function InferredFor(references: seq<Reference>, key: string): (r: (nat, nat))
    ensures r.1 <= r.0
  {
    if references == [] then (0, 0)
    else
      var last := references[|references| - 1];
      var (count, ready) := InferredFor(references[..|references| - 1], key);
      if last.confidence == "inferred" && ServiceKey(last.namespace, last.service) == key
      then (count + 1, ready + if last.ready then 1 else 0) else (count, ready)
  }

  function CounterOf(counts: map<string, Counter>, key: string): Counter {
    if key in counts then counts[key] else NoEndpoints
  }

  predicate Observed(counts: map<string, Counter>, key: string) {
    key in counts && counts[key].total > 0
  }

  /** What merging leaves for one service: observed counts alone, or raised by the inferred references. */
  function Merged(counts: map<string, Counter>, references: seq<Reference>, key: string): Counter {
    var c := CounterOf(counts, key);
    var (count, ready) := InferredFor(references, key);
    if Observed(counts, key) then c else Counter(c.ready + ready, c.serving + ready, c.terminating, c.total + count)
  }

  /** The map holds the merged counter of every service, and names the services it should. */
  ghost predicate Merging(counts: map<string, Counter>, references: seq<Reference>, merged: map<string, Counter>) {
    forall key :: MergedAt(counts, references, merged, key)
  }

  predicate MergedAt(counts: map<string, Counter>, references: seq<Reference>, merged: map<string, Counter>, key: string) {
    && CounterOf(merged, key) == Merged(counts, references, key)
    && (key in merged <==> key in counts || InferredFor(references, key).0 > 0)
  }

  /** `mergeReferenceEndpointCounts`, returning the updated map. */
  method MergeReferenceCounts(counts: map<string, Counter>, references: seq<Reference>) returns (merged: map<string, Counter>)
    ensures Merging(counts, references, merged)
  {
    hide ServiceKey, Merging;
    merged := counts;
    assert references[..0] == [];
    MergingStart(counts);
    for i := 0 to |references|
      invariant Merging(counts, references[..i], merged)
    {
      var reference := references[i];
      var key := ServiceKey(reference.namespace, reference.service);
      MergingStep(counts, references, i, merged);
      if reference.confidence != "inferred" || Observed(counts, key) {
        continue;
      }
      var c := CounterOf(merged, key);
      var more := if reference.ready then 1 else 0;
      merged := merged[key := Counter(c.ready + more, c.serving + more, c.terminating, c.total + 1)];
    }
    assert references[..|references|] == references;
  }

  lemma MergingStart(counts: map<string, Counter>)
    ensures Merging(counts, [], counts)
  {}

  /** The body of the merge loop. */
  function MergeOne(counts: map<string, Counter>, merged: map<string, Counter>, reference: Reference): map<string, Counter> {
    var key := ServiceKey(reference.namespace, reference.service);
    var c := CounterOf(merged, key);
    var more := if reference.ready then 1 else 0;
    if reference.confidence != "inferred" || Observed(counts, key) then merged
    else merged[key := Counter(c.ready + more, c.serving + more, c.terminating, c.total + 1)]
  }

  lemma MergedAtStep(counts: map<string, Counter>, references: seq<Reference>, merged: map<string, Counter>, key: string)
    requires references != [] && MergedAt(counts, references[..|references| - 1], merged, key)
    ensures MergedAt(counts, references, MergeOne(counts, merged, references[|references| - 1]), key)
  {
    hide ServiceKey;
  }

  lemma MergingStep(counts: map<string, Counter>, references: seq<Reference>, i: nat, merged: map<string, Counter>)
    requires i < |references| && Merging(counts, references[..i], merged)
    ensures Merging(counts, references[..i + 1], MergeOne(counts, merged, references[i]))
  {
    hide MergedAt, MergeOne;
    var upTo := references[..i + 1];
    assert upTo[..i] == references[..i] && upTo[i] == references[i];
    forall key
      ensures MergedAt(counts, upTo, MergeOne(counts, merged, references[i]), key)
    {
      MergedAtStep(counts, upTo, merged, key);
    }
  }

  /** Merging keeps the partial counts within the total. */
  lemma MergeKeepsBounds(counts: map<string, Counter>, references: seq<Reference>, key: string)
    requires key in counts ==> counts[key].ready <= counts[key].total && counts[key].serving <= counts[key].total && counts[key].terminating <= counts[key].total
    ensures var c := Merged(counts, references, key);
            c.ready <= c.total && c.serving <= c.total && c.terminating <= c.total
  {
    assert InferredFor(references, key).1 <= InferredFor(references, key).0;
  }

  // ----- what the merge adds -----

  predicate InferredTo(r: Reference, namespace: string, service: string) {
    r.confidence == "inferred" && r.namespace == namespace && r.service == service
  }

  /** The inferred references of a service, by position, and the ready ones of them. */
  function InferredOf(references: seq<Reference>, namespace: string, service: string): set<nat> {
    set i: nat | i < |references| && InferredTo(references[i], namespace, service)
  }

  function ReadyOf(references: seq<Reference>, namespace: string, service: string): set<nat> {
    set i: nat | i < |references| && InferredTo(references[i], namespace, service) && references[i].ready
  }

  lemma {:induction false} InferredForIs(references: seq<Reference>, namespace: string, service: string)
    requires ValidNamespace(namespace) && forall r :: r in references ==> ValidNamespace(r.namespace)
    ensures InferredFor(references, ServiceKey(namespace, service)) == (|InferredOf(references, namespace, service)|, |ReadyOf(references, namespace, service)|)
  {
    hide ValidNamespace, ServiceKey;
    if references != [] {
      var n := |references| - 1;
      var last := references[n];
      InferredForIs(references[..n], namespace, service);
      ServiceKeyInjective(last.namespace, last.service, namespace, service);
      InferredStep(references, namespace, service);
      hide InferredOf, ReadyOf;
    }
  }

  lemma InferredStep(references: seq<Reference>, namespace: string, service: string)
    requires references != []
    ensures var n, last := |references| - 1, references[|references| - 1];
            var counts := InferredTo(last, namespace, service);
            && |InferredOf(references, namespace, service)| == |InferredOf(references[..n], namespace, service)| + (if counts then 1 else 0)
            && |ReadyOf(references, namespace, service)| == |ReadyOf(references[..n], namespace, service)| + (if counts && last.ready then 1 else 0)
  {
    hide InferredTo;
    var n, last := |references| - 1, references[|references| - 1];
    assert InferredOf(references, namespace, service) == InferredOf(references[..n], namespace, service) + if InferredTo(last, namespace, service) then {n} else {};
    assert ReadyOf(references, namespace, service)
        == ReadyOf(references[..n], namespace, service) + if InferredTo(last, namespace, service) && last.ready then {n} else {};
  }

  /** A service with observed endpoints keeps its counts. Any other gets its inferred references on top: all of them in
      the total, the ready ones both as ready and as serving, and none as terminating. */
  lemma MergeAdds(counts: map<string, Counter>, references: seq<Reference>, merged: map<string, Counter>, namespace: string, service: string)
    requires Merging(counts, references, merged) && ValidNamespace(namespace) && forall r :: r in references ==> ValidNamespace(r.namespace)
    ensures var key := ServiceKey(namespace, service);
            && (key in merged <==> key in counts || InferredOf(references, namespace, service) != {})
            && (key in counts && counts[key].total > 0 ==> merged[key] == counts[key])
            && (key in merged && (key !in counts || counts[key].total == 0) ==>
                 var before := if key in counts then counts[key] else Counter(0, 0, 0, 0);
                 var added, ready := |InferredOf(references, namespace, service)|, |ReadyOf(references, namespace, service)|;
                 && merged[key].total == before.total + added && merged[key].terminating == before.terminating
                 && merged[key].ready == before.ready + ready && merged[key].serving == before.serving + ready)
  {
    hide InferredOf, ReadyOf, InferredFor, ValidNamespace, ServiceKey;
    InferredForIs(references, namespace, service);
    assert MergedAt(counts, references, merged, ServiceKey(namespace, service));
  }

  // ----- when references are inferred -----

  /** Services and pods of one namespace, by position. */
  function Pairs(services: seq<Service>, pods: seq<Pod>): set<(nat, nat)> {
    set i: nat, j: nat | i < |services| && j < |pods| && services[i].namespace == pods[j].namespace :: (i, j)
  }

  /** Those whose service selects the pod, without a reference of their own among the observed ones. */
  function NewPairs(observed: seq<Reference>, services: seq<Service>, pods: seq<Pod>): set<(nat, nat)> {
    set i: nat, j: nat | i < |services| && j < |pods| && services[i].namespace == pods[j].namespace && LabelsMatch(services[i].selector, pods[j].labels)
                         && !IsNamed(observed, services[i].namespace, services[i].name, pods[j].name) :: (i, j)
  }

  predicate IsNamed(observed: seq<Reference>, namespace: string, service: string, pod: string) {
    exists k :: 0 <= k < |observed| && observed[k].namespace == namespace && observed[k].service == service && observed[k].pod == pod
  }

  /** Position n with the positions of the pods that pass a test. */
  function Row(pods: seq<Pod>, n: nat, test: Pod -> bool): set<(nat, nat)> {
    set j: nat | j < |pods| && test(pods[j]) :: (n, j)
  }

  lemma RowStep(pods: seq<Pod>, n: nat, test: Pod -> bool)
    requires pods != []
    ensures |Row(pods, n, test)| == |Row(pods[..|pods| - 1], n, test)| + if test(pods[|pods| - 1]) then 1 else 0
  {
    var m := |pods| - 1;
    var before := Row(pods[..m], n, test);
    assert (n, m) !in before;
    assert Row(pods, n, test) == before + if test(pods[m]) then {(n, m)} else {};
  }

  lemma {:induction false} PairsAreComparisons(services: seq<Service>, pods: seq<Pod>)
    ensures |Pairs(services, pods)| == Comparisons(services, pods)
  {
    if services != [] {
      var n := |services| - 1;
      PairsAreComparisons(services[..n], pods);
      PairsStep(services, pods);
    }
  }

  lemma PairsStep(services: seq<Service>, pods: seq<Pod>)
    requires services != []
    ensures |Pairs(services, pods)| == |Pairs(services[..|services| - 1], pods)| + SameNamespace(services[|services| - 1], pods)
  {
    hide SameNamespace;
    var n := |services| - 1;
    var row := Row(pods, n, InNamespaceOf(services[n]));
    assert Pairs(services, pods) == Pairs(services[..n], pods) + row;
    RowOfPods(services[n], pods, n);
  }

  function InNamespaceOf(s: Service): Pod -> bool { (p: Pod) => s.namespace == p.namespace }

  lemma {:induction false} RowOfPods(s: Service, pods: seq<Pod>, n: nat)
    ensures |Row(pods, n, InNamespaceOf(s))| == SameNamespace(s, pods)
  {
    hide Row;
    if pods == [] {
      NoRow(n, InNamespaceOf(s));
    } else {
      RowOfPods(s, pods[..|pods| - 1], n);
      RowStep(pods, n, InNamespaceOf(s));
    }
  }

  lemma NoRow(n: nat, test: Pod -> bool)
    ensures Row([], n, test) == {}
  {
  }

  /** Observed references of valid names are known by their three names. */
  lemma KnownNames(observed: seq<Reference>, s: Service, p: Pod)
    requires forall r :: r in observed ==> Checked(r)
    requires ValidNamespace(s.namespace) && ValidReferenceName(s.name)
    ensures IdOf(Inferred(s, p)) in Known(observed) <==> IsNamed(observed, s.namespace, s.name, p.name)
  {
    hide ValidNamespace, ValidReferenceName, ReferenceId;
    forall r | r in observed
      ensures IdOf(r) == IdOf(Inferred(s, p)) <==> r.namespace == s.namespace && r.service == s.name && r.pod == p.name
    {
      ReferenceIdInjective(r.namespace, r.service, r.pod, s.namespace, s.name, p.name);
    }
    if IdOf(Inferred(s, p)) in Known(observed) {
      var r :| r in observed && IdOf(r) == IdOf(Inferred(s, p));
      var k :| 0 <= k < |observed| && observed[k] == r;
    }
  }

  lemma {:induction false} NewPairsAreMatches(observed: seq<Reference>, services: seq<Service>, pods: seq<Pod>)
    requires (forall r :: r in observed ==> Checked(r)) && forall s :: s in services ==> ValidNamespace(s.namespace) && ValidReferenceName(s.name)
    ensures |NewPairs(observed, services, pods)| == |AllMatches(Known(observed), services, pods)|
  {
    hide ValidNamespace, ValidReferenceName, Known, Checked, LabelsMatch, IsNamed, ServiceMatches;
    if services != [] {
      var n := |services| - 1;
      NewPairsAreMatches(observed, services[..n], pods);
      NewPairsStep(observed, services, pods);
      hide NewPairs, ServiceMatches;
    }
  }

  lemma NewPairsStep(observed: seq<Reference>, services: seq<Service>, pods: seq<Pod>)
    requires services != [] && forall r :: r in observed ==> Checked(r)
    requires ValidNamespace(services[|services| - 1].namespace) && ValidReferenceName(services[|services| - 1].name)
    ensures |NewPairs(observed, services, pods)|
         == |NewPairs(observed, services[..|services| - 1], pods)| + |ServiceMatches(Known(observed), services[|services| - 1], pods)|
  {
    hide ValidNamespace, ValidReferenceName, Known, Checked, LabelsMatch, IsNamed, ServiceMatches;
    var n := |services| - 1;
    var row := Row(pods, n, NewFor(observed, services[n]));
    assert NewPairs(observed, services, pods) == NewPairs(observed, services[..n], pods) + row;
    RowOfMatches(observed, services[n], pods, n);
  }

  function NewFor(observed: seq<Reference>, s: Service): Pod -> bool {
    (p: Pod) => s.namespace == p.namespace && LabelsMatch(s.selector, p.labels) && !IsNamed(observed, s.namespace, s.name, p.name)
  }

  lemma {:induction false} RowOfMatches(observed: seq<Reference>, s: Service, pods: seq<Pod>, n: nat)
    requires (forall r :: r in observed ==> Checked(r)) && ValidNamespace(s.namespace) && ValidReferenceName(s.name)
    ensures |Row(pods, n, NewFor(observed, s))| == |ServiceMatches(Known(observed), s, pods)|
  {
    hide Row, ValidNamespace, ValidReferenceName, Known, Checked, LabelsMatch, IsNamed, IdOf, Inferred;
    if pods == [] {
      NoRow(n, NewFor(observed, s));
    } else {
      var m := |pods| - 1;
      RowOfMatches(observed, s, pods[..m], n);
      RowStep(pods, n, NewFor(observed, s));
      KnownNames(observed, s, pods[m]);
    }
  }

  /** Nothing is inferred exactly if there is no new pair of a first supported service and a first valid pod, or if the
      pairs to compare or the references to return are too many. Otherwise each new pair gives one reference. */
  lemma WhenInferred(observed: seq<Reference>, services: seq<Service>, pods: seq<Pod>)
    requires forall r :: r in observed ==> Checked(r)
    ensures var first, valid, result := Firsts(ServiceId, services), Firsts(PodId, pods), Expected(observed, Firsts(ServiceId, services), Firsts(PodId, pods));
            var new_ := NewPairs(observed, first, valid);
            var limited := |Pairs(first, valid)| > 250_000 || |observed| + |new_| > 8192;
            && (result == observed <==> new_ == {} || limited)
            && (!limited ==> |result| == |observed| + |new_|)
            && (!limited ==> forall i: nat, j: nat :: i < |first| && j < |valid| && (i, j) in new_ ==>
                  Reference(first[i].namespace, first[i].name, valid[j].name, "Service.spec.selector", "inferred", valid[j].healthy) in result)
  {
    hide Firsts, Known, Checked, LabelsMatch, IsNamed, IdOf, AllMatches, Comparisons, Pairs, ValidNamespace, ValidReferenceName, IsFirst;
    var first, valid := Firsts(ServiceId, services), Firsts(PodId, pods);
    FirstsKeys(ServiceId, services);
    assert forall s :: s in first ==> ServiceId(s).Some?;
    PairsAreComparisons(first, valid);
    NewPairsAreMatches(observed, first, valid);
    MatchesAre(Known(observed), first, valid);
    forall i: nat, j: nat | i < |first| && j < |valid| && (i, j) in NewPairs(observed, first, valid)
      ensures Inferred(first[i], valid[j]) in AllMatches(Known(observed), first, valid)
    {
      assert first[i] in first && valid[j] in valid;
      KnownNames(observed, first[i], valid[j]);
    }
  }
}
