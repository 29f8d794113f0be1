/** The references that the analyses find, as links and endpoints of the assembled graph: they are what
    `EdgeIdentity` asks of them, so none of their edges is lost to its id. */
module AnalysisLinks {
  import opened Text
  import opened Names
  import opened Assembly
  import opened EdgeIdentity
  import opened NetworkPolicies
  import CustomReferences
  import PodReferences
  import Endpoints
  import EndpointInference
  import Dedup

  // ----- custom resources -----

  function CustomLink(r: CustomReferences.Reference): Link {
    Link(false, false, "references", r.kind, r.namespace, r.name, r.sourceField, "inferred")
  }

  lemma CustomLinksAreTame(ctx: CustomReferences.Context, spec: seq<CustomReferences.Field>, item: Item, r: CustomReferences.Reference)
    requires r in CustomReferences.References(ctx, spec)
    ensures TameLink("CustomResource", item, CustomLink(r))
  {
    CustomReferences.FoundAreTame(ctx, spec);
    CustomReferences.SearchIsSound(ctx, spec);
    CheckedNamespace(r);
    hide CustomReferences.References, CustomReferences.ValidIdentity, TameField, ReadsAsCluster, CustomReferences.Candidates;
  }

  lemma CheckedNamespace(r: CustomReferences.Reference)
    requires CustomReferences.ValidIdentity(r)
    ensures !ReadsAsCluster(r.namespace)
  {
    hide CustomReferences.KnownKinds, CustomReferences.ValidCustomKind;
    if r.namespace != "" {
      assert IsLowerAlphanumeric(r.namespace[0]);
      LowerCaseReadsAsNone(r.namespace);
    }
  }

  lemma LowerCaseReadsAsNone(namespace: string)
    requires namespace != "" && IsLowerAlphanumeric(namespace[0])
    ensures !ReadsAsCluster(namespace)
  {
    var (u, v, found) := Cut(namespace, ':');
    assert "Cluster"[0] == 'C';
    assert u != "" ==> namespace[0] == u[0];
  }

  // ----- pod templates -----

  /** `prefix` is where the template stands in its resource: a constant of each kind. */
  function PodLink(prefix: string, namespace: string, r: PodReferences.Reference): Link {
    Link(true, false, PodReferences.EdgeType(r.place), PodReferences.Kind(r.place), namespace, r.name, prefix + PodReferences.Suffix(r.place), "observed")
  }

  lemma PodLinksAreTame(kind: string, item: Item, spec: PodReferences.PodSpec, prefix: string, r: PodReferences.Reference)
    requires kind != "PersistentVolume" && TameField(prefix) && r in PodReferences.References(spec, prefix)
    ensures TameLink(kind, item, PodLink(prefix, item.namespace, r))
  {
    KindsOfPlaces(r.place);
    SuffixesAreTame(r.place);
    hide PodReferences.Kind, PodReferences.Suffix, ReadsAsCluster;
  }

  lemma KindsOfPlaces(p: PodReferences.Place)
    ensures ':' !in PodReferences.Kind(p) && PodReferences.Kind(p) != "Cluster"
  {
  }

  lemma SuffixesAreTame(p: PodReferences.Place)
    ensures TameField(PodReferences.Suffix(p))
  {
    if p.EnvFromConfigMap? || p.EnvFromSecret? {
      EnvFromSuffix(p);
    } else if p.EnvConfigMap? || p.EnvSecret? {
      EnvSuffix(p);
    } else {
      ShortSuffix(p);
    }
    FieldBytesAreTame(PodReferences.Suffix(p));
  }

  lemma FieldBytesAreTame(s: string)
    requires forall k :: 0 <= k < |s| ==> FieldByte(s[k])
    ensures TameField(s)
  {
  }

  lemma ShortSuffix(p: PodReferences.Place)
    requires !p.EnvFromConfigMap? && !p.EnvFromSecret? && !p.EnvConfigMap? && !p.EnvSecret?
    ensures forall k :: 0 <= k < |PodReferences.Suffix(p)| ==> FieldByte(PodReferences.Suffix(p)[k])
  {
  }

  lemma EnvFromSuffix(p: PodReferences.Place)
    requires p.EnvFromConfigMap? || p.EnvFromSecret?
    ensures forall k :: 0 <= k < |PodReferences.Suffix(p)| ==> FieldByte(PodReferences.Suffix(p)[k])
  {
  }

  lemma EnvSuffix(p: PodReferences.Place)
    requires p.EnvConfigMap? || p.EnvSecret?
    ensures forall k :: 0 <= k < |PodReferences.Suffix(p)| ==> FieldByte(PodReferences.Suffix(p)[k])
  {
  }

  // ----- endpoints -----

  function EndpointOf(r: Endpoints.Reference): Endpoint { Endpoint(r.namespace, r.service, r.pod, r.sourceField, r.confidence) }

  /** The references handed to assembly: observed ones, or those and every inferred one. */
  lemma EndpointsAreTame(ip: (string, string) -> bool, slices: seq<Endpoints.Slice>, a: Endpoints.Analysis,
                         services: seq<EndpointInference.Service>, pods: seq<EndpointInference.Pod>, r: Endpoints.Reference)
    requires Endpoints.Complete(ip, slices, a)
    requires r in EndpointInference.Expected(a.references, Dedup.Firsts(EndpointInference.ServiceId, services), Dedup.Firsts(EndpointInference.PodId, pods))
    ensures TameEndpoint(EndpointOf(r))
  {
    hide *;
    Endpoints.ObservedAreChecked(ip, slices, a);
    EndpointInference.InferredAreChecked(a.references, services, pods);
    CheckedIsTame(r);
  }

  lemma CheckedIsTame(r: Endpoints.Reference)
    requires Endpoints.Checked(r)
    ensures TameEndpoint(EndpointOf(r))
  {
    hide ValidNamespace, ValidReferenceName, ReadsAsCluster;
    NamespaceReadsAsNone(r.namespace);
    EndpointFieldsAreTame();
    hide TameField;
  }

  lemma EndpointFieldsAreTame()
    ensures TameField("EndpointSlice.endpoints.targetRef") && TameField("Service.spec.selector")
  {
    FieldBytesAreTame("EndpointSlice.endpoints.targetRef");
    FieldBytesAreTame("Service.spec.selector");
    hide TameField;
  }
}
