# Verified model of the Kuviewer server and desktop cores

Kuviewer collects Kubernetes resources, assembles them into a graph snapshot and serves it; a desktop shell keeps
SSH tunnels to such servers. This project models the algorithms at the centre of the Go server, the tunnel state
machine of the Rust desktop shell and the log stream reader of the web client, and proves what they keep, over all
inputs, all schedules and all runs.

Where the original changes state step by step, the model does too: classes with the original's fields and loops with
invariants, each proved to compute a function on values. The guarantees are then lemmas about those functions and about
runs of atomic steps.

| file | module | what it models |
|---|---|---|
| `SnapshotCache.dfy` | `SnapshotCaching` | the single-flight cache as interleaved lock regions, and its two classes |
| `Names.dfy` | `Names` | the DNS, kind and label grammars, node ids and edge ids |
| `GraphBuilder.dfy` | `GraphBuilding` | the builder's operations on values and their invariant |
| `Assembly.dfy`, `AssemblyEdges.dfy` | `Assembly`, `AssemblyEdges` | both phases of snapshot assembly, accounting, counters |
| `Claiming.dfy` | `Claiming` | whose edges a node gets: the claims of phase two |
| `LinkEdges.dfy`, `ParentEdges.dfy` | `LinkEdges`, `ParentEdges` | the edges of the passes of phase two, and of phase one |
| `SnapshotEdges.dfy`, `EdgeIdentity.dfy` | same names | the edges of a snapshot exactly, and that none is lost to its string id |
| `SnapshotContents.dfy` | `SnapshotContents` | what a snapshot holds, kind by kind: nodes, issues and edges |
| `AnalysisLinks.dfy` | `AnalysisLinks` | what the analyses find, as links and endpoints of the graph |
| `LabelSelectors.dfy`, `NetworkPolicies.dfy` | same names | label selectors, and the edges of network policies |
| `PodReferences.dfy` | `PodReferences` | the references of pod templates |
| `SnapshotBuilder.dfy` | `SnapshotBuilder` | the builder as a class, and the assembly loops over it |
| `Endpoints.dfy`, `EndpointInference.dfy` | same names | endpoint analysis, inferred references, the merge of counts |
| `Pagination.dfy`, `FetchPool.dfy`, `Diagnostics.dfy` | same names | list collection, the worker pool, the diagnostic normal form |
| `CustomReferences.dfy` | `CustomReferences` | the bounded reference search in custom resources |
| `Json.dfy`, `ConfigMapKeys.dfy` | same names | concrete JSON syntax, the key scanner against it |
| `Base64.dfy`, `ResourceList.dfy`, `StringSets.dfy` | same names | the resource table: filters, order, cursors, facets |
| `CursorSignatures.dfy` | `CursorSignatures` | which filters the signature of a cursor tells apart |
| `CodePoints.dfy`, `SavedViews.dfy`, `ViewStores.dfy` | same names | saved views and their two stores |
| `DesktopRuntime.dfy`, `DesktopShell.dfy` | same names | the desktop commands on values, and as a class |
| `DesktopEffects.dfy` | `DesktopEffects` | what each command does session by session, and its errors |
| `LogStream.dfy`, `LogMessages.dfy` | same names | the chunked line reader, and the message codec end to end |
| `Text.dfy`, `Sorting.dfy`, `Dedup.dfy`, `Decimal.dfy` | same names | shared: byte strings, stable sorting, seen-sets, decimals |

No proof rests on automatic induction: the project is set to verify without it.

## What turned out

Most properties hold as the code's design suggests. Where they do not, the code is kept as it is and the exact
condition is proved:

- Node ids are injective only on accepted identities: a pod whose namespace is malformed can have the id of a custom
  resource (`Claiming.MalformedItemSharesId`). It was not added, but it passes the claim of phase two, and its edges
  then start from or end at the node of that custom resource. `Claiming.UnacceptedClaims` says exactly when, and
  `EdgeIdentity.UnacceptedItemOffers` which edges the snapshot gets.
- Among accepted items of every kind but PersistentVolume, the one whose edges a node gets is the one that gave it its
  data (`Claiming.ClaimIsFirst`). Phase one knows a volume by its namespace and name, phase two by its name alone: a
  volume claims exactly if it is the first of its name and an accepted one of that name has no namespace
  (`Claiming.VolumeClaims`). So a volume with a namespace takes over the node of its namesake without one
  (`Claiming.VolumeClaimsAnothers`) if it is listed before it (`Claiming.VolumeClaimsOwn`), and nobody claims its own
  node (`Claiming.NamespacedVolumeIsNeverClaimed`).
- Edge ids are ambiguous as strings: with a colon in a source field, edges to different accepted nodes share an id
  (`Names.EdgeIdNeedsColonFreeFields`). No caller passes such a field, and then a snapshot has exactly the edges that
  were added, whatever the cluster is called (`EdgeIdentity.NoEdgeIsLost`). Of the references of custom resources, whose
  paths come from the outside, of pod templates and of endpoints `AnalysisLinks` proves that.
- An invalid node or pod that is not added either counts as two issues, where any other item counts as one
  (`AssemblyEdges.NodeIssues`, `AssemblyEdges.NodeListIssues`).
- The `seenReferences` check of the endpoint loop is never taken (`Endpoints.ReferenceIsNew`), and neither is the branch
  of a tunnel start that stops other sessions (`DesktopRuntime.StartStopsNobodyElse`).
- Label expressions "NotIn" and "Exists" also ask for a valid label value; apart from that a selector means its set of
  requirements (`LabelSelectors.SelectorMeaning`).
- A cursor is bound to its filters by a text in which NUL bytes separate them, and an accepted filter may hold some.
  Its text is no other's unless one of these, with no white space beside it, can take over from a border between two
  filters without breaking a length limit (`CursorSignatures.SignedTextIsExact`). Far below the limits every NUL without
  white space beside it can (`CursorSignatures.FarFromTheLimits`), at the limits none
  (`CursorSignatures.AtTheLimits`). Two accepted requests that take each other's cursors are in
  `ResourceList.NulBreaksTheSignature`.
- Saved views survive a second sanitizing, and so a save and a list of the file store, exactly if truncation left no
  blank at the end of a name or group and the times survive as floats (`SavedViews.SanitizeAgain`,
  `ViewStores.FileListAfterSave`); otherwise a preset can be lost (`SavedViews.TruncationMergesPresets`).
- A failed save of the file store leaves its temporary file behind exactly if that cannot be removed either; the next
  save writes over it (`ViewStores.SavesAreWhole`).
- File store versions follow the clock, also backwards (`ViewStores.FileVersionsFollowTheClock`).
- A desktop session whose tunnel runs need not be marked active: selecting another session hides it, and so does a
  check that finds the tunnel alive but unhealthy; only selecting it again, a healthy check or a start that gets as far
  as launching shows it.
  `DesktopRuntime.StepHides` says exactly when for every command, `DesktopRuntime.RunHides` for every run.
- A start that finds no local port leaves its key file on disk for good (`DesktopRuntime.NoPortLeavesTheKey`), and so
  does a key file that could not be written whole; `DesktopRuntime.RunLeaks` accounts for every file left.

## Model

| member | source | states |
|---|---|---|
| SnapshotCaching.RunInv | server/internal/httpapi/snapshot_cache.go:42-88 | every state of every interleaving of calls, cancellations and load results keeps the invariant of loads, cached value and callers |
| SnapshotCaching.SingleFlight | server/internal/httpapi/snapshot_cache.go:51-87 | at most one load runs; `inFlight` names it exactly while its leader runs it; every other load closed its channel exactly once; the value is that of the latest success |
| SnapshotCaching.ResultsAreOfLaterLoads | server/internal/httpapi/snapshot_cache.go:48-79 | shared and missed results are those of a load that completed after the call entered, hits are fresh published values, forced calls never hit |
| SnapshotCaching.ResultsAreFinal | server/internal/httpapi/snapshot_cache.go:66-87 | results of calls and of closed loads never change afterwards |
| SnapshotCaching.CachedAtNeverDecreases | server/internal/httpapi/snapshot_cache.go:73-79 | under a monotone clock the cached value never gets older |
| SnapshotCaching.NoLostWakeup | server/internal/httpapi/snapshot_cache.go:51-87 | a call that has not returned can step, or waits for a load whose leader can finish |
| SnapshotCaching.SnapshotCache.Enter | server/internal/httpapi/snapshot_cache.go:42-66 | the first lock region in place: hit, join or lead, and the whole new state |
| SnapshotCaching.SnapshotCache.Finish | server/internal/httpapi/snapshot_cache.go:68-87 | the second lock region in place: what is published, cached and closed |
| SnapshotCaching.EnterDecides | server/internal/httpapi/snapshot_cache.go:42-66 | for every unforced or forced call of any run: it hits exactly if it is not forced and the last load that succeeded is younger than the lifetime, and returns just that load's snapshot and time; else it waits exactly if a load is in flight, for that load; else it leads a new one |
| SnapshotCaching.TtlStays | server/internal/httpapi/snapshot_cache.go:37-41 | in any run the lifetime is the one asked for, ten seconds if none was |
| SnapshotCaching.LoadsAreBrought | server/internal/httpapi/snapshot_cache.go:66-87 | what a closed load holds is what its own load call brought, and a cached value is that of a load that succeeded |
| SnapshotCaching.RepliesAreDelivered | server/internal/httpapi/snapshot_cache.go:42-88 | what a call returns is what its step brought: the cached value, the outcome of the load it waited for or led, its own load past the cache, or its cancellation |
| Names.DnsSubdomainGrammar | server/internal/provider/kubernetes_validation.go:37-52 | a valid DNS subdomain is exactly a dot-separated list of labels within the length limits |
| Names.CheckDnsSubdomain | server/internal/provider/kubernetes_validation.go:37-52 | the index loops decide that grammar |
| Names.CheckQualifiedNamePart | server/internal/provider/kubernetes_validation.go:21-35 | the index loop decides the alphabet and ends of a qualified name part |
| Names.NodeIdInjective | server/internal/provider/kubernetes_graph.go:216-221 | for any cluster id two accepted identities share a node id only if they are the same |
| Names.EdgeIdInjective | server/internal/provider/kubernetes_graph.go:102-121 | edge ids determine source, target, type and field, for any sources, if targets hold no ">" and fields neither ":" nor ">" |
| Names.EdgeIdNeedsColonFreeFields | server/internal/provider/kubernetes_graph.go:102-121 | given a colon in the field, edges from any source to two different accepted nodes share an id: a family of them |
| GraphBuilding.IdMeansEdge | server/internal/provider/kubernetes_graph.go:102-121 | in a graph of such targets and fields an id is taken exactly if an edge of that source, target, type and field is there |
| GraphBuilding.AddNodeInv | server/internal/provider/kubernetes_graph.go:62-92 | adding a node keeps the builder invariant, only grows the graph and fails exactly for unaccepted identities |
| GraphBuilding.AddTrackedInv | server/internal/provider/kubernetes_graph.go:40-48 | tracking keeps the invariant; it either tracks the new id and counts nothing, or counts one issue of the kind and tracks nothing |
| GraphBuilding.AddEdgeInv | server/internal/provider/kubernetes_graph.go:102-121 | adding an edge keeps the invariant and changes edges only |
| GraphBuilding.ReplaceSummaryInv | server/internal/provider/kubernetes_snapshot_accounting.go:142-152 | replacing a summary keeps the invariant |
| GraphBuilding.PositionsDiffer | server/internal/provider/kubernetes_graph.go:223-262 | nodes of one kind never share a position |
| GraphBuilding.IdentitiesDiffer | server/internal/provider/kubernetes_graph.go:62-92 | distinct nodes of a graph have distinct identities |
| GraphBuilding.IssueIdInjective | server/internal/provider/kubernetes_snapshot_accounting.go:107-140 | issue counts of different resource kinds never share an id |
| Assembly.AddItemsRefines | server/internal/provider/kubernetes_snapshot_assembly.go:62-296 | a list adds exactly the first item of each accepted identity, in order, and its issues |
| Assembly.PhaseOneRefines | server/internal/provider/kubernetes_snapshot_assembly.go:44-296 | after phase one the nodes are the cluster node and, kind by kind, the first items of each list; issue counts are those of the lists, saturated |
| AssemblyEdges.PhaseTwoOnly | server/internal/provider/kubernetes_snapshot_assembly.go:308-499 | phase two keeps the invariant and adds nothing but reference nodes and edges |
| AssemblyEdges.SnapshotNodes | server/internal/provider/kubernetes_snapshot_assembly.go:44-306 | every finished snapshot obeys the invariant; its nodes are the cluster node, the first items, then references; tracked ids and issue counts are exact |
| AssemblyEdges.TrackedNodeData | server/internal/provider/kubernetes_snapshot_assembly.go:44-306 | each accepted identity is in the snapshot with the data of the first item that has it |
| AssemblyEdges.ItemCountedOnce | server/internal/provider/kubernetes_snapshot_assembly.go:62-296 | outside Node and Pod an item counts at most one issue, and none exactly if it was added and is valid, or added and of one of five kinds spelled out whose validity is not looked at |
| AssemblyEdges.NodeIssues | server/internal/provider/kubernetes_snapshot_assembly.go:73-82 | a node or pod counts no issue exactly if it was added and is valid, two exactly if it was not added and is invalid, else one |
| AssemblyEdges.NodeListIssues | server/internal/provider/kubernetes_snapshot_assembly.go:258-278 | the issues of the node list and of the pod list are the items not added plus the invalid items |
| AssemblyEdges.OtherListIssues | server/internal/provider/kubernetes_snapshot_assembly.go:62-296 | every other list counts the items not added, plus the added items that are invalid unless its kind is one of those five |
| AssemblyEdges.NodeCountedTwice | server/internal/provider/kubernetes_snapshot_assembly.go:73-82 | for example, an invalid node or pod listed twice counts three issues |
| AssemblyEdges.SummaryCounters | server/internal/provider/kubernetes_snapshot_assembly.go:62-306 | NodeTotal, Namespaces and PodWarning equal the matching tracked nodes; NodeReady is at most NodeTotal |
| SnapshotBuilder.TotalsMean | server/internal/provider/kubernetes_snapshot_assembly.go:62-306 | the five totals as numbers of items that added a node: nodes, valid and ready ones, pods, valid and running or succeeded ones, pods not healthy, namespaces |
| SnapshotContents.ItemsAreThere | server/internal/provider/kubernetes_snapshot_assembly.go:62-296 | for each of the 25 kinds, spelled out: the first accepted item of each identity becomes a tracked node with its data |
| SnapshotContents.TrackedAreItems | server/internal/provider/kubernetes_snapshot_assembly.go:44-306 | and every tracked id of the snapshot is that of an accepted item of one of these kinds |
| SnapshotContents.IssuesAre | server/internal/provider/kubernetes_snapshot_accounting.go:15-140 | for each of the 25 kinds and its diagnostic id, spelled out: the issues counted are, up to a million, the items that added no node and the invalid ones that the kind reports |
| Claiming.ClaimDuringPass | server/internal/provider/kubernetes_snapshot_assembly.go:308-440 | in a pass an item claims its node exactly if the node is tracked, and no earlier item and nothing seen before has its id |
| Claiming.ClaimIsFirst | server/internal/provider/kubernetes_graph.go:54-60 | for every kind but PersistentVolume an accepted item of a tracked id claims its node exactly if it is the first of its list with its identity, that is, the one that gave the node its data; whatever else is listed |
| Claiming.TrackedIsListed | server/internal/provider/kubernetes_graph.go:40-52 | after phase one the tracked ids are exactly those of the accepted items of all lists |
| Claiming.VolumeClaims | server/internal/provider/kubernetes_snapshot_assembly.go:402-406 | for every volume, accepted or not: it claims a node exactly if an accepted volume of its name without a namespace is listed and no volume of that name before it |
| Claiming.VolumeClaimsOwn | server/internal/provider/kubernetes_snapshot_assembly.go:402-406 | the first volume of its name without a namespace claims its node exactly if no volume of that name with a namespace is listed before it |
| Claiming.VolumeClaimsAnothers | server/internal/provider/kubernetes_snapshot_assembly.go:402-406 | failing inputs: a volume with a namespace claims the node that carries the data of its namesake |
| Claiming.NamespacedVolumeIsNeverClaimed | server/internal/provider/kubernetes_snapshot_assembly.go:402-406 | the node of a volume with a namespace is claimed by no item of any list |
| Claiming.UnacceptedClaims | server/internal/provider/kubernetes_graph.go:50-60 | outside PersistentVolume, for which see VolumeClaims, an item that is not accepted claims a node exactly if its identity reads as that of an accepted custom resource that is listed and no earlier item has it; the node is that custom resource's |
| Claiming.MalformedItemSharesId | server/internal/provider/kubernetes_graph.go:216-221 | for example, a pod with a malformed namespace has the id of a custom resource |
| LinkEdges.OffersBecomeEdges | server/internal/provider/kubernetes_graph.go:94-121 | after any list of edges to add, with the reference nodes to make sure of: the nodes are the old ones and those made, the edges are the old ones and exactly those whose ends were there at their turn |
| LinkEdges.LinksAreOffers | server/internal/provider/kubernetes_workloads.go:257-270 | adding the links of a source is making their offers in order |
| LinkEdges.PassEdges | server/internal/provider/kubernetes_snapshot_assembly.go:308-440 | a pass of owners and templates, or of links, makes the offers of the items that claim their node, in order, and no others |
| LinkEdges.PassesAreOffers | server/internal/provider/kubernetes_snapshot_assembly.go:308-446 | so do all passes one after the other |
| ParentEdges.PhaseOneEdges | server/internal/provider/kubernetes_snapshot_assembly.go:62-208 | the edges of phase one are exactly those from the cluster to accepted namespaces, and those to first accepted custom resources from their namespace and definition where these are listed resources |
| SnapshotEdges.PodEdgesAreOffers | server/internal/provider/kubernetes_snapshot_assembly.go:457-469 | the pod loop of a policy offers the edges to its selected, tracked, first pods, and finds no match exactly if there are none |
| SnapshotEdges.PhaseTwoIsOffers | server/internal/provider/kubernetes_snapshot_assembly.go:308-499 | phase two makes the offers of all passes, policies and endpoints, in order |
| SnapshotEdges.OffersAre | server/internal/provider/kubernetes_snapshot_assembly.go:308-499 | these are exactly the offers of the items that claim their node in a pass, of the policies that claim theirs, and of the observed endpoints |
| SnapshotEdges.EdgesAre | server/internal/provider/kubernetes_snapshot_assembly.go:44-499 | the edges of a finished snapshot are exactly those of phase one and the offers of phase two that stand |
| SnapshotEdges.SureStands | server/internal/provider/kubernetes_graph.go:94-121 | no offer is lost whose source is a node of phase one and whose target is one too or is made sure of |
| SnapshotContents.ClaimsAreAlone | server/internal/provider/kubernetes_snapshot_assembly.go:308-440 | lists that share a seen-set do not get in each other's way: an item claims its node exactly if it is tracked and no earlier item of its own list has its id |
| SnapshotContents.EdgesComeFrom | server/internal/provider/kubernetes_snapshot_assembly.go:44-499 | every edge of a snapshot is one of phase one, or of a link, a template or an owner of an item that claims its node, of one of the kinds spelled out for each, or of a claiming policy or an observed endpoint, with the fields it then has |
| SnapshotContents.LinksAreThere | server/internal/provider/kubernetes_snapshot_assembly.go:308-440 | for CustomResource, Pod, both volume kinds, Ingress, the four routes and HorizontalPodAutoscaler, each link of an item that claims its node is an edge if its target is a node of phase one or an accepted identity that is made sure of |
| SnapshotContents.TemplatesAreThere | server/internal/provider/kubernetes_snapshot_assembly.go:317-366 | the same of the template links of Deployment, ReplicaSet, StatefulSet, DaemonSet, CronJob, Job and Pod |
| SnapshotContents.OwnersAreThere | server/internal/provider/kubernetes_snapshot_assembly.go:317-366 | and of their owners that are nodes of phase one |
| SnapshotContents.PoliciesAreThere | server/internal/provider/kubernetes_snapshot_assembly.go:447-490 | every edge that a claiming policy has to a tracked resource is there |
| SnapshotContents.EndpointsAreThere | server/internal/provider/kubernetes_snapshot_assembly.go:491-499 | so is every edge from a service to the pod of an observed endpoint, if both are nodes |
| EdgeIdentity.NoEdgeIsLost | server/internal/provider/kubernetes_graph.go:102-121 | with fields, kinds and namespaces as the analyses deliver them, and any target names, a snapshot has an edge of given source, target, type and field exactly if one was added: none is dropped for another of the same id, whatever the cluster is called |
| EdgeIdentity.TargetIsTame | server/internal/provider/kubernetes_graph.go:62-121 | the id of a node that is a target holds no ">", given a kind without colon and a namespace that does not read as the cluster's |
| AnalysisLinks.CustomLinksAreTame | server/internal/provider/kubernetes_graph.go:209-214 | every reference found in a custom resource is such a link |
| AnalysisLinks.PodLinksAreTame | server/internal/provider/kubernetes_workloads.go:257-270 | every reference of a pod template is such a link |
| AnalysisLinks.EndpointsAreTame | server/internal/provider/kubernetes_references.go:65-262 | every observed or inferred endpoint reference is such an endpoint |
| EdgeIdentity.UnacceptedItemOffers | server/internal/provider/kubernetes_snapshot_assembly.go:308-446 | every edge of an unaccepted item that reads as a custom resource is offered at the node of that custom resource, and added if it is sure |
| LabelSelectors.CheckLabels | server/internal/provider/kubernetes_network_policy.go:39-53 | the map loop decides whether labels hold a bounded, valid selector |
| LabelSelectors.CheckSelector | server/internal/provider/kubernetes_network_policy.go:55-68 | the selector loop decides the match, nil matching everything |
| LabelSelectors.SelectorMeaning | server/internal/provider/kubernetes_network_policy.go:55-126 | a selector matches exactly if it is valid, labels are bounded and meet its requirements as a set, and the values of "NotIn" and "Exists" keys are valid |
| NetworkPolicies.NamespaceRecords | server/internal/provider/kubernetes_network_policy.go:128-142 | the record loop keeps the first namespace of each valid name |
| NetworkPolicies.MatchingIsByFirstRecord | server/internal/provider/kubernetes_network_policy.go:144-156 | a namespace matches by the labels of its first record |
| NetworkPolicies.AnalyzePeer | server/internal/provider/kubernetes_graph.go:164-207 | what a peer selects: pods by namespace and labels, or sorted namespaces, or nothing |
| NetworkPolicies.PodEdgesAre | server/internal/provider/kubernetes_graph.go:181-195 | a pass over the pods adds exactly the edges to selected pods that are tracked and first of their id |
| NetworkPolicies.PolicyEdgesAre | server/internal/provider/kubernetes_snapshot_assembly.go:447-490 | a claimed policy adds exactly the edges to what it applies to and to its peers, and no node |
| PodReferences.KeyTextInjective | server/internal/provider/kubernetes_references.go:326-336 | the joined key tells references of one template apart |
| PodReferences.PodSpecReferences | server/internal/provider/kubernetes_references.go:315-391 | the nested collecting loops compute the first 256 valid references, sorted, or nothing if a list is too long |
| PodReferences.ReferencesAre | server/internal/provider/kubernetes_references.go:315-391 | only valid references of the template are listed, and below the limit all of them |
| PodReferences.AllReferencesAre | server/internal/provider/kubernetes_references.go:326-371 | every reference of a template, spelled out list by list, with the kind, edge type and field it gets |
| PodReferences.ReferencesAscend | server/internal/provider/kubernetes_references.go:373-382 | the references ascend by kind, name and field |
| PodReferences.OrderDoesNotMatter | server/internal/provider/kubernetes_references.go:315-391 | two templates with the same references give the same list below the limit |
| SnapshotBuilder.GraphBuilder.AddNodeWithMetadata | server/internal/provider/kubernetes_graph.go:62-92 | the builder's node method in place |
| SnapshotBuilder.GraphBuilder.AddTrackedResourceNode | server/internal/provider/kubernetes_graph.go:40-48 | the tracking method in place |
| SnapshotBuilder.GraphBuilder.AddEdgeOnce | server/internal/provider/kubernetes_graph.go:102-121 | the edge method in place |
| SnapshotBuilder.GraphBuilder.ReplaceNodeSummary | server/internal/provider/kubernetes_snapshot_accounting.go:142-152 | the summary loop in place |
| SnapshotBuilder.AddResources | server/internal/provider/kubernetes_snapshot_assembly.go:44-296 | the loops of phase one compute the phase and the summary counters |
| SnapshotBuilder.AddSnapshotEdges | server/internal/provider/kubernetes_snapshot_assembly.go:308-499 | the loops of phase two compute the phase |
| SnapshotBuilder.BuildSnapshot | server/internal/provider/kubernetes_snapshot_assembly.go:44-306 | the whole assembly in place |
| Endpoints.PrimaryAddress | server/internal/provider/kubernetes_references.go:160-172 | the address loop returns the first address if all are valid and distinct, and refuses otherwise |
| Endpoints.EncodeInjective | server/internal/provider/kubernetes_references.go:143-158 | deduplicating by the joined string is deduplicating by service and identity |
| Endpoints.ReferenceIsNew | server/internal/provider/kubernetes_references.go:115-132 | a counted endpoint never repeats a reference: the second seen-check is never taken |
| Endpoints.AnalyzeEndpointSlices | server/internal/provider/kubernetes_references.go:65-141 | the loops compute, for every service, the tally over accepted slices, or on a passed visit limit no counts at all |
| Endpoints.TotalIsDistinct | server/internal/provider/kubernetes_references.go:65-141 | a total is the number of distinct valid endpoint identities |
| Endpoints.TotalsPerService | server/internal/provider/kubernetes_references.go:65-141 | the string-keyed counts are per namespace and service: a service is counted exactly if it has an accepted slice, and its total is the number of valid identities in its own slices |
| Endpoints.ConditionsPerService | server/internal/provider/kubernetes_references.go:65-141 | ready is the number of a service's identities whose first endpoint, in slice order, has ready absent or true, serving likewise, terminating the number whose first has it true |
| Endpoints.IdentityIs | server/internal/provider/kubernetes_references.go:143-202 | an endpoint counts exactly if it lists 1 to 100 distinct addresses of the slice's type and its target, if any, is well named and in no other namespace; the target, or else the first address, identifies it |
| Endpoints.EndpointsConserved | server/internal/provider/kubernetes_references.go:65-141 | visited endpoints are totals plus rejected ones; ready, serving and terminating are at most the total |
| Endpoints.ObservedReferences | server/internal/provider/kubernetes_references.go:115-141 | references are unique, at most 8192, and all dropped beyond that |
| EndpointInference.UniqueValidPods | server/internal/provider/kubernetes_references.go:264-279 | the loop keeps the first valid pod of each name |
| EndpointInference.MatchesAre | server/internal/provider/kubernetes_references.go:224-261 | the matches are exactly the unobserved pairs of a service and a pod it selects |
| EndpointInference.InferReferences | server/internal/provider/kubernetes_references.go:213-262 | the nested loops give the observed list, or it followed by every match in order, all or nothing |
| EndpointInference.InferenceIsComplete | server/internal/provider/kubernetes_references.go:213-262 | what is inferred is exactly the selector matches not observed, each once |
| EndpointInference.WhenInferred | server/internal/provider/kubernetes_references.go:213-262 | nothing is inferred exactly if there is no new pair of a service and a pod it selects, or more than 250000 pairs to compare or 8192 references to return; else each new pair gives one reference, spelled out |
| EndpointInference.MergeReferenceCounts | server/internal/provider/kubernetes_references.go:281-305 | the merge leaves observed services alone and adds the inferred counts to the others |
| EndpointInference.MergeKeepsBounds | server/internal/provider/kubernetes_references.go:281-305 | after the merge ready and serving are at most the total |
| EndpointInference.MergeAdds | server/internal/provider/kubernetes_references.go:281-305 | per namespace and service: observed counts stay; others gain all inferred references in the total, the ready ones in ready and in serving, and nothing in terminating |
| Pagination.GetList | server/internal/provider/kubernetes_pagination.go:54-108 | for any server: success exactly if its pages form an acceptable list, then all items in order; otherwise nothing, and the error is that of the place where the client stops |
| Pagination.PagesInOrder | server/internal/provider/kubernetes_pagination.go:86-95 | the items and bytes of a list are those of its pages, one after the other |
| Pagination.AcceptableIsUnique | server/internal/provider/kubernetes_pagination.go:54-108 | a server has at most one acceptable list |
| Pagination.StopIsUnique | server/internal/provider/kubernetes_pagination.go:54-108 | a client that fails stops at one place and for one reason, each error spelled out by the pages before it and the answer that it got, and then the server has no acceptable list |
| Pagination.FiniteListsDoNotRepeat | server/internal/provider/kubernetes_pagination.go:96-103 | on a server whose pages depend on the token only, the loop check never rejects a finite list |
| Pagination.StatelessAcceptance | server/internal/provider/kubernetes_pagination.go:54-108 | there the client agrees with the naive chase within the limits |
| Pagination.RepeatMeansEndless | server/internal/provider/kubernetes_pagination.go:96-103 | there a repeated token means an endless list |
| FetchPool.RunInv | server/internal/provider/kubernetes_snapshot_collection.go:18-63 | never more than the concurrency asked for, clamped between 1 and the number of tasks, runs at once, in every schedule |
| FetchPool.SlotWrittenOnce | server/internal/provider/kubernetes_snapshot_collection.go:31-52 | a slot changes only when its own task completes, and then never again |
| FetchPool.NilErrorMeansAllRan | server/internal/provider/kubernetes_snapshot_collection.go:31-63 | a return without error means every task ran exactly once |
| FetchPool.NoDeadlock | server/internal/provider/kubernetes_snapshot_collection.go:18-63 | some step is always enabled until all goroutines returned |
| FetchPool.ListFailures | server/internal/provider/kubernetes_snapshot_collection.go:54-63 | the loop lists failed tasks in index order with their reasons |
| FetchPool.RunReports | server/internal/provider/kubernetes_snapshot_collection.go:18-90 | a completed run reports exactly the tasks whose fetch fails, each at its place among them, with its id, its resource and the reason of its error, spelled out |
| FetchPool.ReasonsAreKnown | server/internal/provider/kubernetes_snapshot_collection.go:65-90 | every such reason passes the filter of safe diagnostics |
| FetchPool.ScheduleDoesNotMatter | server/internal/provider/kubernetes_snapshot_collection.go:18-63 | the diagnostics of a completed run depend on the outcomes only |
| Diagnostics.AggregateDiagnostics | server/internal/provider/kubernetes_snapshot_collection.go:92-128 | the counting and sorting loops compute the sorted group sums |
| Diagnostics.SafeDiagnostics | server/internal/provider/kubernetes_snapshot_accounting.go:154-182 | the filtering and capping loops compute the normal form |
| Diagnostics.NormalForm | server/internal/provider/kubernetes_snapshot_accounting.go:154-182 | at most 64 entries, strictly sorted, counts in range, each the clamped sum of its group |
| Diagnostics.NormalAscends | server/internal/provider/kubernetes_snapshot_collection.go:92-128 | it ascends by id, resource and reason |
| Diagnostics.SafeIdempotent | server/internal/provider/kubernetes_snapshot_accounting.go:154-182 | normalizing twice is normalizing once |
| Diagnostics.SafeIgnoresOrder | server/internal/provider/kubernetes_snapshot_accounting.go:154-182 | for at most 256 inputs their order does not matter |
| CustomReferences.SearchIsSound | server/internal/provider/kubernetes_custom_resources.go:121-217 | at most 80 distinct accepted references, all found by the unbounded search, in at most 4096 visits |
| CustomReferences.SearchIsExact | server/internal/provider/kubernetes_custom_resources.go:121-217 | within the budgets the result is that of the unbounded search |
| CustomReferences.FieldRefsAre | server/internal/provider/kubernetes_custom_resources.go:166-383 | what one field refers to, spelled out: keys in any case, objects, lists and names; a served definition wins over a known kind, that over the key; cluster-wide targets have no namespace, others the object's or else the source's |
| CustomReferences.CandidatesAre | server/internal/provider/kubernetes_custom_resources.go:141-205 | the unbounded search finds exactly what the fields below a value refer to, at their paths |
| CustomReferences.ReferencesAreReferredTo | server/internal/provider/kubernetes_custom_resources.go:121-243 | every reference returned is an accepted one that some field of the spec makes; within the budgets and with at most 80 of them, they are all of those |
| CustomReferences.ReferencesAscend | server/internal/provider/kubernetes_custom_resources.go:124-138 | the references ascend by field, kind, namespace and name |
| CustomReferences.FoundAreTame | server/internal/provider/kubernetes_custom_resources.go:141-243 | no reference found has a colon or ">" in its path, a ">" in its target or a colon in its kind |
| CustomReferences.KeyInjective | server/internal/provider/kubernetes_custom_resources.go:207-217 | the joined key tells accepted references apart |
| CustomReferences.ReferenceTraversal.CollectValue | server/internal/provider/kubernetes_custom_resources.go:141-205 | the recursive search in place |
| CustomReferences.FindReferences | server/internal/provider/kubernetes_custom_resources.go:121-139 | the search and sort as they run |
| Json.LexStringGrammar | server/internal/provider/kubernetes_configmaps.go:212-245 | the literal scanner stops exactly where the grammar of RFC 8259, section 7, ends a string |
| ConfigMapKeys.SkipJsonString | server/internal/provider/kubernetes_configmaps.go:212-245 | the position loop stays in bounds, strictly advances and finds that end |
| ConfigMapKeys.SkipJsonWhitespace | server/internal/provider/kubernetes_configmaps.go:200-210 | the position loop skips exactly the white space of RFC 8259, section 2 |
| ConfigMapKeys.ConfigMapKeyIndex.UnmarshalJson | server/internal/provider/kubernetes_configmaps.go:31-107 | the index after any text: rejected, or what the scan of the trimmed text gives |
| ConfigMapKeys.ScannerDecidesTheGrammar | server/internal/provider/kubernetes_configmaps.go:31-107 | on every JSON text the index is valid exactly for null or a flat object of strings with at most 4096 valid distinct keys, and then holds exactly those keys |
| ConfigMapKeys.PrintingDoesNotMatter | server/internal/provider/kubernetes_configmaps.go:31-107 | white space and escapes do not change the index |
| ConfigMapKeys.AnalysisIsTheRule | server/internal/provider/kubernetes_configmaps.go:131-185 | a ConfigMap is sound exactly if both maps are, they are disjoint and hold at most 4096 keys together; the count is that of the union |
| Base64.DecodeEncode | server/internal/httpapi/resource_list.go:126-129 | unpadded base64url (RFC 4648, sections 3.2 and 5) loses nothing |
| ResourceList.CursorFits | server/internal/httpapi/resource_list.go:68-71 | an emitted cursor fits 32 characters exactly for offsets below ten to the eleven |
| ResourceList.ParseCursorOf | server/internal/httpapi/resource_list.go:68-88 | an emitted cursor reads back as its offset, or as a mismatch with other filters |
| ResourceList.RequestMeans | server/internal/httpapi/resource_list.go:30-92 | every request: which of the eight errors it gets, in the order of the checks, or the filters, limit and offset that it asks for |
| CursorSignatures.SignedTextIsExact | server/internal/httpapi/resource_list.go:34-60 | among accepted requests, a filter's signed text is no other's exactly if no NUL in its first five fields, without white space beside it, can take over from one of the four borders within the 160 and 120 byte limits |
| CursorSignatures.FarFromTheLimits | server/internal/httpapi/resource_list.go:143-147 | if the five fields joined are at most 120 bytes, that is every NUL without white space beside it |
| CursorSignatures.AtTheLimits | server/internal/httpapi/resource_list.go:46-48 | if all five fields are as long as they may be, it is none |
| ResourceList.CursorsAreShared | server/internal/httpapi/resource_list.go:68-88 | an accepted request takes the cursors of every filter with the same signed text |
| ResourceList.NulBreaksTheSignature | server/internal/httpapi/resource_list.go:143-147 | two different accepted requests, whatever the digest, take each other's cursors |
| ResourceList.WalkIsTheList | server/internal/httpapi/resource_list.go:94-141 | walking the cursors with any limits from 1 to 200 yields the whole list with no gap or repeat, and ends exactly when the limits add up |
| ResourceList.OrderOfInputDoesNotMatter | server/internal/httpapi/resource_list.go:101-115 | with a sort field and unique ids the list does not depend on the input order |
| ResourceList.DescendingIsReversed | server/internal/httpapi/resource_list.go:101-115 | "desc" is "asc" backwards |
| ResourceList.ShownAre | server/internal/httpapi/resource_list.go:149-182 | the table shows exactly the resources whose columns are those chosen and of which some column, label or summary entry holds the query, in lower case |
| ResourceList.ShownInOrder | server/internal/httpapi/resource_list.go:101-115 | sorted, it ascends or descends by the column that the sort field names, and by id where these agree |
| ResourceList.UnsortedKeepsOrder | server/internal/httpapi/resource_list.go:94-115 | unsorted, it keeps the order of the resources |
| ResourceList.FacetsSelect | server/internal/httpapi/resource_list.go:149-218 | choosing a facet's value selects exactly resources that have it, and never none |
| ResourceList.ListFacets | server/internal/httpapi/resource_list.go:199-218 | the loop lists each facet's values once, in byte order |
| ResourceList.ListResources | server/internal/httpapi/resource_list.go:94-141 | the filtering, sorting and slicing as they run |
| StringSets.SortedStringSet | server/internal/httpapi/resource_list.go:220-227 | the keys of a map once each, in byte order |
| SavedViews.SanitizeInputs | server/internal/httpapi/resource_views.go:222-249 | the loop with its early end keeps the first eight names, then orders them |
| SavedViews.PresetMeans | server/internal/httpapi/resource_views.go:222-295 | what each field of a preset is made of, with its limit and its default |
| SavedViews.NormalizeOrders | server/internal/httpapi/resource_views.go:400-409 | the stable sort and the renumbering loop |
| SavedViews.SanitizeIsNormal | server/internal/httpapi/resource_views.go:222-249 | always at most eight presets with unique non-empty names, numbered from 1 |
| SavedViews.SanitizeIsStable | server/internal/httpapi/resource_views.go:400-409 | presets come in the order asked for, ties in input order |
| SavedViews.NamesAreKept | server/internal/httpapi/resource_views.go:222-249 | no name is lost unless eight were kept |
| SavedViews.SanitizeAgain | server/internal/httpapi/resource_views.go:222-295 | sanitizing again changes nothing exactly under the condition on blanks and times |
| SavedViews.TruncationMergesPresets | server/internal/httpapi/resource_views.go:225-228 | a family of inputs for which a second sanitizing drops a preset |
| ViewStores.MemoryViewStore.Save | server/internal/httpapi/resource_views.go:108-117 | the save in place, with a strictly larger version |
| ViewStores.MemoryVersionsIncrease | server/internal/httpapi/resource_views.go:348-360 | memory store versions strictly increase over any run, whatever the clock does |
| ViewStores.MemoryListAfterSave | server/internal/httpapi/resource_views.go:99-117 | listing shows what the save returned exactly if the clock was not before 1970 |
| ViewStores.FileViewStore.Save | server/internal/httpapi/resource_views.go:147-190 | whatever step fails, the file is the old or the new one; a temporary file is left exactly if writing, closing or renaming failed and so did removing it |
| ViewStores.SavesAreWhole | server/internal/httpapi/resource_views.go:147-190 | over any run of saves with any faults the file is that of the last save that succeeded, and a temporary file is left exactly if the last save that touched it left it |
| ViewStores.FileViewStore.List | server/internal/httpapi/resource_views.go:124-145 | what listing a missing, broken or written file gives |
| ViewStores.FileListAfterSave | server/internal/httpapi/resource_views.go:124-220 | listing after a save shows what was saved exactly if every preset and the time of the save survive |
| ViewStores.FileListAfterOrdinarySave | server/internal/httpapi/resource_views.go:124-220 | for ordinary clocks only truncated blanks spoil that |
| ViewStores.FileVersionsFollowTheClock | server/internal/httpapi/resource_views.go:155-158 | file store versions increase exactly with the clock |
| DesktopRuntime.RunInv | desktop/src-tauri/src/main.rs:105-562 | after every command sequence: unique valid ids, selection flags and stored id agree and name a session, profile, child, one registered file and one process come together, only the profile's session is marked active |
| DesktopRuntime.StepInv | desktop/src-tauri/src/main.rs:105-349 | each command keeps that invariant, whatever the outside answers |
| DesktopRuntime.StartIsAllOrNothing | desktop/src-tauri/src/main.rs:105-136 | a start is refused unchanged, or runs that session's tunnel, or leaves no child, profile, process or registered file |
| DesktopRuntime.StepHides | desktop/src-tauri/src/main.rs:105-349 | for every command, exactly when the tunnel that runs after it belongs to a session not marked active |
| DesktopRuntime.RunHides | desktop/src-tauri/src/main.rs:105-562 | over any run, that is exactly if some command hid the tunnel and none since showed it |
| DesktopRuntime.SelectingAnotherHidesTheTunnel | desktop/src-tauri/src/main.rs:179-211 | for example, selecting another session hides it until a healthy check |
| DesktopRuntime.StartStopsNobodyElse | desktop/src-tauri/src/main.rs:664-680 | in a start no other session is still marked active |
| DesktopRuntime.StepLeaks | desktop/src-tauri/src/main.rs:392-684 | the key files a command leaves behind are exactly those it fails to remove, cuts short, or writes before finding no port |
| DesktopRuntime.RunLeaks | desktop/src-tauri/src/main.rs:105-684 | over any run the key files on disk are the registered one, older ones and those left behind |
| DesktopRuntime.NoPortLeavesTheKey | desktop/src-tauri/src/main.rs:564-570 | a start that finds no port leaves its key file for good |
| DesktopRuntime.GeneratedIdIsValid | desktop/src-tauri/src/main.rs:898-940 | a generated id passes the check for given ids |
| DesktopEffects.StartEffect | desktop/src-tauri/src/main.rs:105-136 | which error a start gives, in the order of the checks, what it leaves of the state and which key files, or the profile, process, files and sessions of the tunnel it launches |
| DesktopEffects.StopEffect | desktop/src-tauri/src/main.rs:392-443 | a stop reaps the process, deletes the registered files that can be deleted, and changes its own session only |
| DesktopEffects.CheckEffect | desktop/src-tauri/src/main.rs:467-562 | a runtime check does nothing without a tunnel, ends one whose process is gone as lost, else records its health |
| DesktopEffects.SaveEffect | desktop/src-tauri/src/main.rs:150-177 | a saved session as its form says, in place of the one of its id or first, and the errors |
| DesktopEffects.SelectEffect | desktop/src-tauri/src/main.rs:178-211 | the selected session and its status, every other one reset, and the errors |
| DesktopEffects.DeleteEffect | desktop/src-tauri/src/main.rs:212-246 | one session is gone and nothing else, or which error, after the stop of its tunnel |
| DesktopEffects.ImportEffect | desktop/src-tauri/src/main.rs:248-272 | the session of an imported key, and the errors in the order of the checks |
| DesktopEffects.DeleteCredentialEffect | desktop/src-tauri/src/main.rs:274-300 | the session of a deleted credential, and the errors after the stop of its tunnel |
| DesktopEffects.CheckSessionEffect | desktop/src-tauri/src/main.rs:302-349 | what a session check records and which key file it leaves |
| DesktopShell.CmRuntime.StopRuntimeState | desktop/src-tauri/src/main.rs:392-419 | the stop in place |
| DesktopShell.CmRuntime.CheckRuntimeState | desktop/src-tauri/src/main.rs:467-562 | the runtime check in place |
| DesktopShell.CmRuntime.StartTunnel | desktop/src-tauri/src/main.rs:564-684 | the tunnel start in place, with every failing step |
| DesktopShell.CmRuntime.StartRuntimeCommand | desktop/src-tauri/src/main.rs:105-136 | the start command in place |
| DesktopShell.CmRuntime.SaveSessionCommand | desktop/src-tauri/src/main.rs:150-177 | the save command in place |
| DesktopShell.CmRuntime.SelectSessionCommand | desktop/src-tauri/src/main.rs:178-211 | the select command in place |
| DesktopShell.CmRuntime.DeleteSessionCommand | desktop/src-tauri/src/main.rs:212-246 | the delete command in place |
| DesktopShell.CmRuntime.ImportKeyCommand | desktop/src-tauri/src/main.rs:248-272 | the key import in place |
| DesktopShell.CmRuntime.DeleteCredentialCommand | desktop/src-tauri/src/main.rs:274-300 | the credential deletion in place |
| DesktopShell.CmRuntime.CheckSessionCommand | desktop/src-tauri/src/main.rs:302-349 | the session check in place, with its own key file |
| LogStream.TakeAppend | website/src/services/resourceApi.ts:191-203 | streaming decoding in pieces is decoding the whole |
| LogStream.TakeUtf8 | website/src/services/resourceApi.ts:191-203 | cut anywhere, the bytes of a text decode to the characters that arrived whole |
| LogStream.BreaksAreKept | website/src/services/resourceApi.ts:191-203 | on any bytes, malformed ones too, decoding loses and makes no line break |
| LogStream.StreamLogs | website/src/services/resourceApi.ts:188-211 | for every chunking of any bytes the reader delivers the parsed non-blank lines of the whole text, up to the first that is no message |
| LogMessages.MarshalIsJson | server/internal/httpapi/server.go:503-519 | what the server writes is JSON |
| LogMessages.ParseMarshal | server/internal/httpapi/server.go:503-519 | the client reads back the message marshalled |
| LogMessages.MarshalIsALine | server/internal/httpapi/server.go:508-519 | a marshalled message is one line that trimming leaves alone |
| LogMessages.EndToEnd | website/src/services/resourceApi.ts:188-211 | however the bytes are cut into chunks, the client receives exactly the messages sent, in order |
| LogMessages.CutStream | website/src/services/resourceApi.ts:188-211 | a stream cut off after any byte yields a prefix of the messages sent: the first n exactly if their text, less the last newline, has arrived |

## Left out

- HTTP transport, routing, authentication, CORS, static files and the URL of each request: the Kubernetes API is an arbitrary function from page and token to a response.
- Go strings are sequences of bytes with one character each; UTF-8 validity and multi-byte white space in `strings.TrimSpace` of identities are not modelled. Saved views, desktop ids and the log stream are over code points instead, and the log stream also over bytes.
- `json.Valid` is a parameter required to agree with the grammar; half a surrogate pair decodes to the replacement character and a whole pair to two of them, which no valid key holds.
- Integers are unbounded except where a limit matters (issue counts, cursors, decimal parsing, millisecond clocks).
- Per-kind field validators and summaries (Service, HPA, Gateway, Ingress, storage, nodes, workloads): an item carries whether it is valid, its status and its links. Whether label, annotation and summary sanitizing hides what it should is not modelled.
- Policy types and rule limits of a network policy: a policy carries its peers after those checks, `NetworkPolicies.AnalyzePeer` computes what one peer selects.
- The custom-resource instance collection around the search, and the sanitizing of versions and paths of definitions.
- CustomReferences.FieldRefsAre: keys are matched by their ASCII letters; `strings.ToLower` also takes the Kelvin sign for a k and a dotted capital I for an i.
- Objects in untyped custom resources are field lists in sorted key order, as the search visits them.
- IP address parsing, SHA-256 and lower-casing are parameters; nothing more is assumed of a digest than twelve hexadecimal characters.
- A load that panics would leave the cache's flight open for ever; loads and fetches are assumed to return.
- Redaction rules, token comparison, path checks, mock data and presentation-only fields.
- ssh, sockets, the credential store and file system calls of the desktop shell: their answers are parameters; diagnostics and check messages are not part of the model, nor are directories of key files, nor the short-lived ssh process of a session check.
- Floats in saved views are reals; a float of 2^63 or more converts to an unspecified integer.
- LogMessages.Parse: reads compact objects of strings, which is all the server writes; other JSON is rejected by the model.
- A leading byte order mark, which `TextDecoder` drops: it is decoded like any other character, and trimming drops it from its line.
- EdgeIdentity.NoEdgeIsLost: links, peers and endpoints are parameters, so it asks of them constant fields, kinds without a colon and namespaces that do not read as a cluster's; for custom resources, pod templates and endpoints `AnalysisLinks` proves it, for the constant fields and kinds of the other analyses nothing does.
