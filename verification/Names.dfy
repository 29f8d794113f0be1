/** The grammars under every identity check, the string id of a graph node, and why deduplicating by that
    string is deduplicating by (kind, namespace, name). */
module Names {
  import opened Text

  predicate IsAlpha(c: char) { 'a' <= c <= 'z' || 'A' <= c <= 'Z' }
  predicate IsAlphanumeric(c: char) { IsAlpha(c) || '0' <= c <= '9' }
  predicate IsLowerAlphanumeric(c: char) { 'a' <= c <= 'z' || '0' <= c <= '9' }

  // ----- splitting and joining -----

  function Join(parts: seq<string>, sep: char): string {
    if |parts| == 0 then "" else if |parts| == 1 then parts[0] else parts[0] + [sep] + Join(parts[1..], sep)
  }

  /** `strings.Cut` at one byte. */
  function Cut(s: string, sep: char): (r: (string, string, bool))
    ensures sep !in r.0
    ensures r.2 ==> s == r.0 + [sep] + r.1
    ensures r.2 <==> sep in s
    ensures !r.2 ==> r.0 == s
  {
    if s == "" then ("", "", false)
    else if s[0] == sep then ("", s[1..], true)
    else
      var (before, after, found) := Cut(s[1..], sep);
      assert s == [s[0]] + s[1..];
      ([s[0]] + before, after, found)
  }

  /** `strings.Split` at one byte: the only way to write s as separator-free parts joined by the separator. */
  function Split(s: string, sep: char): (r: seq<string>)
    ensures |r| > 0 && Join(r, sep) == s
    ensures forall k :: 0 <= k < |r| ==> sep !in r[k]
    decreases |s|
  {
    var (before, after, found) := Cut(s, sep);
    if found then [before] + Split(after, sep) else [before]
  }

  lemma {:induction false} SplitIsTheOnlySplit(parts: seq<string>, sep: char)
    requires |parts| > 0 && forall k :: 0 <= k < |parts| ==> sep !in parts[k]
    ensures Split(Join(parts, sep), sep) == parts
  {
    var s := Join(parts, sep);
    var (before, after, found) := Cut(s, sep);
    if |parts| > 1 {
      assert s[|parts[0]|] == sep;
      SplitUnique(parts[0], Join(parts[1..], sep), before, after, sep);
      SplitIsTheOnlySplit(parts[1..], sep);
    }
  }

  // ----- DNS names, kinds and labels -----

  predicate DnsLabel(p: string) {
    && 1 <= |p| <= 63
    && IsLowerAlphanumeric(p[0]) && IsLowerAlphanumeric(p[|p| - 1])
    && forall k :: 1 <= k < |p| - 1 ==> IsLowerAlphanumeric(p[k]) || p[k] == '-'
  }

  predicate ValidDnsSubdomain(s: string) {
    s != "" && |s| <= 253 && forall k :: 0 <= k < |Split(s, '.')| ==> DnsLabel(Split(s, '.')[k])
  }

  ghost predicate LabelList(labels: seq<string>, s: string) {
    |labels| > 0 && (forall k :: 0 <= k < |labels| ==> DnsLabel(labels[k])) && Join(labels, '.') == s
  }

  /** The check as a grammar: a bounded dot-separated list of labels. */
  lemma DnsSubdomainGrammar(s: string)
    ensures ValidDnsSubdomain(s) <==> |s| <= 253 && exists labels: seq<string> :: LabelList(labels, s)
  {
    if ValidDnsSubdomain(s) {
      assert LabelList(Split(s, '.'), s);
    }
    if labels: seq<string> :| LabelList(labels, s) {
      forall k | 0 <= k < |labels|
        ensures '.' !in labels[k]
      {
        assert DnsLabel(labels[k]);
      }
      SplitIsTheOnlySplit(labels, '.');
      assert DnsLabel(labels[0]);
    }
  }

  /** The index loops of `validDNSSubdomain`. */
  method CheckDnsSubdomain(value: string) returns (valid: bool)
    ensures valid <==> ValidDnsSubdomain(value)
  {
    if value == "" || |value| > 253 {
      return false;
    }
    var parts := Split(value, '.');
    for i := 0 to |parts|
      invariant forall k :: 0 <= k < i ==> DnsLabel(parts[k])
    {
      var part := parts[i];
      if part == "" || |part| > 63 || !IsLowerAlphanumeric(part[0]) || !IsLowerAlphanumeric(part[|part| - 1]) {
        assert !DnsLabel(parts[i]);
        return false;
      }
      var index := 1;
      while index < |part| - 1
        invariant 1 <= index
        invariant forall k :: 1 <= k < index && k < |part| - 1 ==> IsLowerAlphanumeric(part[k]) || part[k] == '-'
      {
        if !IsLowerAlphanumeric(part[index]) && part[index] != '-' {
          assert !DnsLabel(parts[i]);
          return false;
        }
        index := index + 1;
      }
    }
    return true;
  }

  predicate ValidReferenceName(s: string) { |s| <= 253 && ValidDnsSubdomain(s) }
  predicate ValidNamespace(s: string) { s != "" && |s| <= 63 && '.' !in s && ValidDnsSubdomain(s) }

  predicate ValidKind(s: string) {
    1 <= |s| <= 63 && IsAlpha(s[0]) && forall k :: 1 <= k < |s| ==> IsAlphanumeric(s[k])
  }

  predicate ValidQualifiedNamePart(s: string, allowEmpty: bool) {
    if s == "" then allowEmpty else
      && |s| <= 63 && IsAlphanumeric(s[0]) && IsAlphanumeric(s[|s| - 1])
      && forall k :: 1 <= k < |s| - 1 ==> IsAlphanumeric(s[k]) || s[k] == '-' || s[k] == '_' || s[k] == '.'
  }

  /** The index loop of `validQualifiedNamePart`. */
  method CheckQualifiedNamePart(value: string, allowEmpty: bool) returns (valid: bool)
    ensures valid <==> ValidQualifiedNamePart(value, allowEmpty)
  {
    if value == "" {
      return allowEmpty;
    }
    if |value| > 63 || !IsAlphanumeric(value[0]) || !IsAlphanumeric(value[|value| - 1]) {
      return false;
    }
    var index := 1;
    while index < |value| - 1
      invariant 1 <= index
      invariant forall k :: 1 <= k < index && k < |value| - 1 ==> IsAlphanumeric(value[k]) || value[k] == '-' || value[k] == '_' || value[k] == '.'
    {
      var c := value[index];
      if !IsAlphanumeric(c) && c != '-' && c != '_' && c != '.' {
        return false;
      }
      index := index + 1;
    }
    return true;
  }

  predicate ValidLabelKey(s: string) {
    var (prefix, name, found) := Cut(s, '/');
    && 1 <= |s| <= 317
    && if found then '/' !in name && ValidQualifiedNamePart(name, false) && ValidDnsSubdomain(prefix)
       else ValidQualifiedNamePart(s, false)
  }

  predicate ValidLabelValue(s: string) { ValidQualifiedNamePart(s, true) }

  // ----- the alphabets -----

  predicate DnsByte(c: char) { IsLowerAlphanumeric(c) || c == '-' || c == '.' }

  lemma {:induction false} JoinAlphabet(parts: seq<string>, sep: char, ok: char -> bool)
    requires ok(sep) && forall k, c :: 0 <= k < |parts| && c in parts[k] ==> ok(c)
    ensures forall c :: c in Join(parts, sep) ==> ok(c)
  {
    if |parts| > 1 {
      forall k, c | 0 <= k < |parts[1..]| && c in parts[1..][k]
        ensures ok(c)
      {
        assert parts[1..][k] == parts[k + 1];
      }
      JoinAlphabet(parts[1..], sep, ok);
    }
  }

  /** A DNS name holds no separator of any string key of the server and no upper-case letter. */
  lemma DnsAlphabet(s: string)
    requires ValidDnsSubdomain(s)
    ensures forall c :: c in s ==> DnsByte(c)
  {
    var parts := Split(s, '.');
    forall k, c | 0 <= k < |parts| && c in parts[k]
      ensures DnsByte(c)
    {
      assert DnsLabel(parts[k]);
    }
    JoinAlphabet(parts, '.', DnsByte);
  }

  lemma KindAlphabet(s: string)
    requires ValidKind(s)
    ensures forall c :: c in s ==> IsAlphanumeric(c)
  {}

  // ----- sanitized cluster identity -----

  /** `safeVisibleText`: None where Go returns false. */
  function SafeVisibleText(value: string, maxBytes: nat): Option<string> {
    var trimmed := TrimSpace(value);
    if |trimmed| > maxBytes || exists c :: c in trimmed && (c < ' ' || c == '\U{7f}') then None else Some(trimmed)
  }

  predicate ClusterIdByte(c: char) { IsAlphanumeric(c) || c == '-' || c == '_' || c == '.' }

  function SafeClusterId(value: string): string {
    var trimmed := TrimSpace(value);
    if trimmed == "" || |trimmed| > 64 || exists c :: c in trimmed && !ClusterIdByte(c) then "in-cluster" else trimmed
  }

  function SafeClusterName(value: string, fallback: string): string {
    var text := SafeVisibleText(value, 128);
    if text.Some? && text.value != "" then text.value else fallback
  }

  // ----- node identity -----

  predicate ValidNodeIdentity(kind: string, namespace: string, name: string) {
    && ValidKind(kind) && (namespace != "" ==> ValidNamespace(namespace))
    && if kind == "Cluster" then
         namespace == "" && SafeVisibleText(name, 128).Some? && TrimSpace(name) != ""
       else if kind == "CustomResource" then
         var (resourceKind, resourceName, found) := Cut(name, ':');
         found && ValidKind(resourceKind) && ValidReferenceName(resourceName)
       else
         ValidReferenceName(name)
  }

  function NodeId(clusterId: string, kind: string, namespace: string, name: string): string {
    if namespace == "" then clusterId + ":" + kind + ":" + name
    else clusterId + ":" + namespace + ":" + kind + ":" + name
  }

  /** The part of an id after the cluster. */
  function LocalId(kind: string, namespace: string, name: string): string {
    if namespace == "" then kind + [':'] + name else namespace + [':'] + (kind + [':'] + name)
  }

  /** A cluster-scoped id never reads as a namespaced one: only "Cluster" and "CustomResource" names hold a
      colon, and their upper-case kind cannot be a namespace. */
  lemma ScopesDiffer(kind: string, name: string, kind': string, namespace': string, name': string)
    requires ValidNodeIdentity(kind, "", name) && ValidNodeIdentity(kind', namespace', name') && namespace' != ""
    ensures LocalId(kind, "", name) != LocalId(kind', namespace', name')
  {
    DnsAlphabet(namespace');
    KindAlphabet(kind);
    assert namespace' != "Cluster" && namespace' != "CustomResource" by {
      assert namespace'[0] in namespace';
    }
    if kind != "Cluster" && kind != "CustomResource" {
      DnsAlphabet(name);
      assert ':' !in name;
    }
    assert (kind' + [':'] + name')[|kind'|] == ':';
    if LocalId(kind, "", name) == LocalId(kind', namespace', name') {
      SplitUnique(kind, name, namespace', kind' + [':'] + name', ':');
    }
  }

  lemma LocalIdInjective(kind: string, namespace: string, name: string, kind': string, namespace': string, name': string)
    requires ValidNodeIdentity(kind, namespace, name) && ValidNodeIdentity(kind', namespace', name')
    requires LocalId(kind, namespace, name) == LocalId(kind', namespace', name')
    ensures kind == kind' && namespace == namespace' && name == name'
  {
    KindAlphabet(kind);
    KindAlphabet(kind');
    if namespace == "" && namespace' == "" {
      SplitUnique(kind, name, kind', name', ':');
    } else if namespace == "" {
      ScopesDiffer(kind, name, kind', namespace', name');
    } else if namespace' == "" {
      ScopesDiffer(kind', name', kind, namespace, name);
    } else {
      DnsAlphabet(namespace);
      DnsAlphabet(namespace');
      SplitUnique(namespace, kind + [':'] + name, namespace', kind' + [':'] + name', ':');
      SplitUnique(kind, name, kind', name', ':');
    }
  }

  /** Within one cluster, whatever its id, two accepted identities share a node id only if they are the same. */
  lemma NodeIdInjective(clusterId: string, kind: string, namespace: string, name: string, kind': string, namespace': string, name': string)
    requires ValidNodeIdentity(kind, namespace, name) && ValidNodeIdentity(kind', namespace', name')
    ensures NodeId(clusterId, kind, namespace, name) == NodeId(clusterId, kind', namespace', name')
       <==> kind == kind' && namespace == namespace' && name == name'
  {
    NodeIdLocal(clusterId, kind, namespace, name);
    NodeIdLocal(clusterId, kind', namespace', name');
    if NodeId(clusterId, kind, namespace, name) == NodeId(clusterId, kind', namespace', name') {
      LocalIdInjective(kind, namespace, name, kind', namespace', name');
    }
  }

  lemma NodeIdLocal(clusterId: string, kind: string, namespace: string, name: string)
    ensures NodeId(clusterId, kind, namespace, name) == clusterId + [':'] + LocalId(kind, namespace, name)
    ensures NodeId(clusterId, kind, namespace, name)[|clusterId| + 1..] == LocalId(kind, namespace, name)
  {}

  // ----- edge identity -----

  predicate ValidEdgeType(s: string) {
    1 <= |s| <= 64 && forall k :: 0 <= k < |s| ==> IsLowerAlphanumeric(s[k]) || s[k] == '-'
  }

  predicate ValidEdgeMetadata(edgeType: string, sourceField: string, confidence: string) {
    && (confidence == "observed" || confidence == "inferred")
    && ValidEdgeType(edgeType)
    && 1 <= |sourceField| <= 512 && SafeVisibleText(sourceField, 512) == Some(sourceField)
  }

  function EdgeId(source: string, target: string, edgeType: string, sourceField: string): string {
    source + "->" + target + ":" + edgeType + ":" + sourceField
  }

  /** A source field as every caller passes it: a constant or a path, without the separators of an edge id. */
  predicate TameField(f: string) { '>' !in f && ':' !in f }

  /** Edges with tame fields, to targets whose id holds no '>', share an id only if they agree on source, target,
      type and field. Nothing is asked of the sources, one of which is a cluster of any name. */
  lemma EdgeIdInjective(s: string, t: string, e: string, f: string, s': string, t': string, e': string, f': string)
    requires '>' !in t && '>' !in t' && TameField(f) && TameField(f')
    requires ValidEdgeType(e) && ValidEdgeType(e')
    ensures EdgeId(s, t, e, f) == EdgeId(s', t', e', f') <==> s == s' && t == t' && e == e' && f == f'
  {
    if EdgeId(s, t, e, f) == EdgeId(s', t', e', f') {
      var rest, rest' := t + [':'] + (e + [':'] + f), t' + [':'] + (e' + [':'] + f');
      assert EdgeId(s, t, e, f) == (s + "-") + ['>'] + rest;
      assert EdgeId(s', t', e', f') == (s' + "-") + ['>'] + rest';
      SplitUniqueLast(s + "-", rest, s' + "-", rest', '>');
      assert (s + "-")[..|s|] == s && (s' + "-")[..|s'|] == s';
      assert rest == (t + [':'] + e) + [':'] + f && rest' == (t' + [':'] + e') + [':'] + f';
      SplitUniqueLast(t + [':'] + e, f, t' + [':'] + e', f', ':');
      SplitUniqueLast(t, e, t', e', ':');
    }
  }

  lemma SplitUniqueLast(a: string, b: string, a': string, b': string, sep: char)
    requires sep !in b && sep !in b'
    requires a + [sep] + b == a' + [sep] + b'
    ensures a == a' && b == b'
  {
    var s, s' := a + [sep] + b, a' + [sep] + b';
    assert forall k :: |a| < k < |s| ==> s[k] == b[k - |a| - 1] != sep;
    assert forall k :: |a'| < k < |s'| ==> s'[k] == b'[k - |a'| - 1] != sep;
    assert s[|a|] == sep && s'[|a'|] == sep;
    assert a == s[..|a|] == s'[..|a'|] == a';
    assert b == s[|a| + 1..] == s'[|a'| + 1..] == b';
  }

  /** The field must be tame: given one with a colon, a builder would take edges to different accepted nodes for
      the same. */
  lemma EdgeIdNeedsColonFreeFields(clusterId: string, source: string, namespace: string, kind: string, name: string, edgeType: string, field: string)
    requires ValidNamespace(namespace) && ValidKind(namespace) && ValidKind(kind) && ValidReferenceName(kind) && ValidReferenceName(name)
    ensures var t, t' := NodeId(clusterId, namespace, "", kind), NodeId(clusterId, kind, namespace, name);
            && ValidNodeIdentity(namespace, "", kind) && ValidNodeIdentity(kind, namespace, name) && t != t'
            && EdgeId(source, t, name, edgeType + ":" + field) == EdgeId(source, t', edgeType, field)
  {
    DnsAlphabet(namespace);
    DnsAlphabet(kind);
    assert namespace[0] in namespace && kind[0] in kind;
    assert DnsByte(namespace[0]) && DnsByte(kind[0]);
    hide ValidDnsSubdomain, ValidKind, DnsByte;
    var t, t' := NodeId(clusterId, namespace, "", kind), NodeId(clusterId, kind, namespace, name);
    assert t' == t + ":" + name;
    assert source + "->" + t + ":" + name + ":" + (edgeType + ":" + field) == source + "->" + t' + ":" + edgeType + ":" + field;
  }

  // ----- identities that are not accepted -----

  /** A kind as the assembled lists have them: with an upper-case letter first, and no colon. */
  predicate ListedKind(kind: string) { kind != "" && 'A' <= kind[0] <= 'Z' && ':' !in kind && kind != "Cluster" }

  /** The namespace of an identity that is not accepted and yet reads as a custom resource of this namespace. */
  function CustomNamespace(namespace: string): string {
    if namespace == "" then "CustomResource" else namespace + ":CustomResource"
  }

  function Colons(s: string): nat { multiset(s)[':'] }

  lemma ColonsOfJoin(a: string, b: string)
    ensures Colons(a + [':'] + b) == Colons(a) + 1 + Colons(b)
  {
    assert multiset(a + [':'] + b) == multiset(a) + multiset{':'} + multiset(b);
  }

  lemma AcceptedColons(kind: string, namespace: string, name: string)
    requires ValidNodeIdentity(kind, namespace, name) && ListedKind(kind)
    ensures ':' !in namespace && (namespace != "" ==> !('A' <= namespace[0] <= 'Z'))
    ensures kind != "CustomResource" ==> ':' !in name
    ensures kind == "CustomResource" ==> Colons(name) == 1
  {
    if namespace != "" {
      DnsAlphabet(namespace);
      assert namespace[0] in namespace;
    }
    if kind == "CustomResource" {
      var (a, x, found) := Cut(name, ':');
      KindAlphabet(a);
      DnsAlphabet(x);
      assert ':' !in a && ':' !in x;
      ColonsOfJoin(a, x);
    } else {
      DnsAlphabet(name);
    }
  }

  /** An id of a listed kind that equals the id of an accepted identity is that identity, or it is not accepted and
      reads as a custom resource. */
  lemma SharedLocalId(kind: string, namespace: string, name: string, kind': string, namespace': string, name': string)
    requires ListedKind(kind) && ListedKind(kind') && ValidNodeIdentity(kind', namespace', name')
    ensures LocalId(kind, namespace, name) == LocalId(kind', namespace', name') <==>
            || (kind == kind' && namespace == namespace' && name == name')
            || (kind' == "CustomResource" && name' == kind + ":" + name && namespace == CustomNamespace(namespace'))
  {
    AcceptedColons(kind', namespace', name');
    hide ValidNodeIdentity;
    var (u, v, found) := Cut(namespace, ':');
    if kind' == "CustomResource" && name' == kind + ":" + name && namespace == CustomNamespace(namespace') {
      CustomReadsAs(kind, name, namespace');
    }
    if LocalId(kind, namespace, name) == LocalId(kind', namespace', name') {
      if namespace == "" && namespace' == "" {
        SplitUnique(kind, name, kind', name', ':');
      } else if namespace == "" {
        SplitUnique(kind, name, namespace', kind' + [':'] + name', ':');
      } else if namespace' == "" {
        SharedWithCluster(kind, namespace, name, kind', name');
      } else {
        SharedWithNamespaced(kind, namespace, name, kind', namespace', name');
      }
    }
  }

  lemma CustomReadsAs(kind: string, name: string, namespace: string)
    ensures LocalId(kind, CustomNamespace(namespace), name) == LocalId("CustomResource", namespace, kind + ":" + name)
  {
    if namespace != "" {
      assert namespace + ":CustomResource" + [':'] + (kind + [':'] + name) == namespace + [':'] + ("CustomResource" + [':'] + (kind + ":" + name));
    }
  }

  lemma SharedWithCluster(kind: string, namespace: string, name: string, kind': string, name': string)
    requires ListedKind(kind) && ListedKind(kind') && namespace != "" && LocalId(kind, namespace, name) == LocalId(kind', "", name')
    requires Colons(name') <= 1 && (kind' != "CustomResource" ==> ':' !in name')
    ensures kind' == "CustomResource" && name' == kind + ":" + name && namespace == "CustomResource"
  {
    var (u, v, found) := Cut(namespace, ':');
    var tail := kind + [':'] + name;
    ColonsOfJoin(kind, name);
    if found {
      assert namespace + [':'] + tail == u + [':'] + (v + [':'] + tail);
      SplitUnique(u, v + [':'] + tail, kind', name', ':');
      ColonsOfJoin(v, tail);
    } else {
      SplitUnique(namespace, tail, kind', name', ':');
      assert tail[|kind|] == ':';
      assert ':' in name';
    }
  }

  lemma SharedWithNamespaced(kind: string, namespace: string, name: string, kind': string, namespace': string, name': string)
    requires ListedKind(kind) && ListedKind(kind') && namespace != "" && namespace' != "" && ':' !in namespace'
    requires LocalId(kind, namespace, name) == LocalId(kind', namespace', name')
    requires Colons(name') <= 1 && (kind' != "CustomResource" ==> ':' !in name')
    ensures || (kind == kind' && namespace == namespace' && name == name')
            || (kind' == "CustomResource" && name' == kind + ":" + name && namespace == namespace' + ":CustomResource")
  {
    var (u, v, found) := Cut(namespace, ':');
    var tail := kind + [':'] + name;
    if found {
      assert namespace + [':'] + tail == u + [':'] + (v + [':'] + tail);
      SplitUnique(u, v + [':'] + tail, namespace', kind' + [':'] + name', ':');
      if v == "" {
        SplitUnique("", tail, kind', name', ':');
      } else {
        assert LocalId(kind, v, name) == LocalId(kind', "", name');
        SharedWithCluster(kind, v, name, kind', name');
        assert namespace == u + ":CustomResource";
      }
    } else {
      SplitUnique(namespace, tail, namespace', kind' + [':'] + name', ':');
      SplitUnique(kind, name, kind', name', ':');
    }
  }
}
