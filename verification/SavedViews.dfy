/** Saved views of the resource table: the normal form that every list of presets is brought into, and the two
    stores that keep it. Strings here are sequences of code points, as JSON text decodes to. */
module SavedViews {
  import opened Text
  import opened CodePoints
  import opened Sorting
  import opened Dedup

  const MaxPresets := 8
  const MaxNameLength := 80
  const MaxGroupLength := 40
  const MaxQueryLength := 160

  // ----- scalar inputs -----

  function Truncate(s: string, n: nat): (r: string)
    ensures |r| <= n && r <= s
    ensures |s| <= n ==> r == s
  {
    if |s| <= n then s else s[..n]
  }

  /** A field as JSON decodes it; everything that is neither a string nor a number is alike. */
  datatype Value = Text(text: string) | Number(number: real) | Other

  /** Floating point at its two contacts with integers: an integer read back from JSON text as a float, and
      the conversion of a positive float to an integer. */
  datatype Machine = Machine(float: int -> real, convert: real -> int)

  const MaxExact := 0x20_0000_0000_0000

  ghost predicate Sound(m: Machine) {
    && (forall n: int :: -MaxExact <= n <= MaxExact ==> m.float(n) == n as real)
    && (forall n: int :: m.float(n) > 0.0 <==> n > 0)
    && (forall x: real :: 0.0 < x < 9223372036854775808.0 ==> m.convert(x) == x.Floor)
  }

  function StringInput(v: Value): string { if v.Text? then v.text else "" }
  function NameInput(v: Value): string { Truncate(Trim(StringInput(v)), MaxNameLength) }
  function QueryInput(v: Value): string { Truncate(StringInput(v), MaxQueryLength) }

  function GroupInput(v: Value): string {
    var text := Truncate(Trim(StringInput(v)), MaxGroupLength);
    if text == "" then "General" else text
  }

  function FilterInput(v: Value): string {
    var text := Trim(StringInput(v));
    if text == "" then "all" else text
  }

  /** Both `orderInput` and `timestampInput`. */
  function PositiveInput(v: Value, fallback: int, m: Machine): int {
    if v.Number? && v.number > 0.0 then m.convert(v.number) else fallback
  }

  // ----- sanitizing -----

  datatype Input = Input(
    name: Value, group: Value, query: Value, cluster: Value, namespace: Value, kind: Value, status: Value, order: Value, updatedAt: Value)
  datatype Preset = Preset(
    name: string, group: string, query: string, cluster: string, namespace: string, kind: string, status: string, order: int, updatedAt: int)

  function PresetOf(input: Input, position: int, now: int, m: Machine): Preset {
    Preset(NameInput(input.name), GroupInput(input.group), QueryInput(input.query), FilterInput(input.cluster), FilterInput(input.namespace),
           FilterInput(input.kind), FilterInput(input.status), PositiveInput(input.order, position, m), PositiveInput(input.updatedAt, now, m))
  }

  function Presets(inputs: seq<Input>, now: int, m: Machine): (r: seq<Preset>)
    ensures |r| == |inputs|
  {
    seq(|inputs|, k requires 0 <= k < |inputs| => PresetOf(inputs[k], k + 1, now, m))
  }

  /** Inputs are told apart by their names; those without one are passed over. */
  function NameKey(input: Input): Option<string> {
    if NameInput(input.name) == "" then None else Some(NameInput(input.name))
  }

  function Kept(inputs: seq<Input>): seq<Input> { Take(Firsts(NameKey, inputs), MaxPresets) }

  function ByOrder(): (Preset, Preset) -> bool { (a: Preset, b: Preset) => a.order < b.order }

  function Renumbered(items: seq<Preset>): (r: seq<Preset>)
    ensures |r| == |items|
  {
    seq(|items|, k requires 0 <= k < |items| => items[k].(order := k + 1))
  }

  function Normalize(items: seq<Preset>): seq<Preset> { Renumbered(StableSort(ByOrder(), items)) }

  function Sanitize(inputs: seq<Input>, now: int, m: Machine): seq<Preset> {
    Normalize(Presets(Kept(inputs), now, m))
  }

  method NormalizeOrders(items: seq<Preset>) returns (normalized: seq<Preset>)
    ensures normalized == Normalize(items)
  {
    normalized := StableSort(ByOrder(), items);
    ghost var sorted := normalized;
    for index := 0 to |normalized|
      invariant |normalized| == |sorted|
      invariant forall k :: 0 <= k < index ==> normalized[k] == sorted[k].(order := k + 1)
      invariant forall k :: index <= k < |sorted| ==> normalized[k] == sorted[k]
    {
      normalized := normalized[index := normalized[index].(order := index + 1)];
    }
  }

  method SanitizeInputs(inputs: seq<Input>, now: int, m: Machine) returns (r: seq<Preset>)
    ensures r == Sanitize(inputs, now, m)
  {
    hide Normalize, PresetOf, Presets, NameInput, Firsts, IsFirst;
    var seen: set<string> := {};
    var presets: seq<Preset> := [];
    var i := 0;
    NothingKept(now, m);
    assert inputs[..0] == [];
    while i < |inputs|
      invariant i <= |inputs|
      invariant forall name :: name in seen <==> Seen(NameKey, inputs[..i], name)
      invariant |Firsts(NameKey, inputs[..i])| < MaxPresets
      invariant presets == Presets(Firsts(NameKey, inputs[..i]), now, m)
    {
      var input := inputs[i];
      i := i + 1;
      assert inputs[..i][..i - 1] == inputs[..i - 1];
      SeenStep(NameKey, inputs[..i]);
      var name := NameInput(input.name);
      if name == "" || name in seen {
        SkippedInput(inputs[..i]);
        continue;
      }
      KeptInput(inputs[..i]);
      var position := |presets| + 1;
      seen := seen + {name};
      PresetsStep(Firsts(NameKey, inputs[..i - 1]), input, now, m);
      presets := presets + [PresetOf(input, position, now, m)];
      if |presets| >= MaxPresets {
        EnoughKept(inputs, i);
        r := NormalizeOrders(presets);
        return;
      }
    }
    assert inputs[..i] == inputs;
    assert Kept(inputs) == Firsts(NameKey, inputs);
    r := NormalizeOrders(presets);
  }

  lemma NothingKept(now: int, m: Machine)
    ensures Firsts(NameKey, []) == [] && Presets([], now, m) == []
  {
  }

  lemma PresetsStep(inputs: seq<Input>, x: Input, now: int, m: Machine)
    ensures Presets(inputs + [x], now, m) == Presets(inputs, now, m) + [PresetOf(x, |inputs| + 1, now, m)]
  {
    hide PresetOf;
  }

  /** Nothing after the eighth name is looked at. */
  lemma EnoughKept(inputs: seq<Input>, i: nat)
    requires i <= |inputs| && |Firsts(NameKey, inputs[..i])| == MaxPresets
    ensures Kept(inputs) == Firsts(NameKey, inputs[..i])
  {
    hide Firsts;
    FirstsPrefix(NameKey, inputs, i);
  }

  lemma SkippedInput(s: seq<Input>)
    requires s != []
    requires NameKey(s[|s| - 1]).None? || Seen(NameKey, s[..|s| - 1], NameKey(s[|s| - 1]).value)
    ensures Firsts(NameKey, s) == Firsts(NameKey, s[..|s| - 1])
  {
    hide NameKey;
    var n := |s| - 1;
    assert Firsts(NameKey, s[..n]) + [] == Firsts(NameKey, s[..n]);
    if NameKey(s[n]).Some? {
      FirstIsUnseen(NameKey, s);
    }
  }

  lemma KeptInput(s: seq<Input>)
    requires s != []
    requires NameKey(s[|s| - 1]).Some? && !Seen(NameKey, s[..|s| - 1], NameKey(s[|s| - 1]).value)
    ensures Firsts(NameKey, s) == Firsts(NameKey, s[..|s| - 1]) + [s[|s| - 1]]
  {
    hide NameKey;
    FirstIsUnseen(NameKey, s);
  }

  // ----- the normal form -----

  /** What every preset of a sanitized list is. */
  predicate Settled(p: Preset) {
    && p.name != "" && |p.name| <= MaxNameLength && !StartsWhite(p.name)
    && p.group != "" && |p.group| <= MaxGroupLength && !StartsWhite(p.group)
    && |p.query| <= MaxQueryLength
    && FilterSettled(p.cluster) && FilterSettled(p.namespace) && FilterSettled(p.kind) && FilterSettled(p.status)
  }

  predicate FilterSettled(s: string) { s != "" && !StartsWhite(s) && !EndsWhite(s) }

  predicate UniqueNames(ps: seq<Preset>) { forall i, j :: 0 <= i < j < |ps| ==> ps[i].name != ps[j].name }
  predicate Numbered(ps: seq<Preset>) { forall k :: 0 <= k < |ps| ==> ps[k].order == k + 1 }

  predicate NormalForm(ps: seq<Preset>) {
    && |ps| <= 8 && UniqueNames(ps) && Numbered(ps)
    && forall k :: 0 <= k < |ps| ==> Settled(ps[k])
  }

  lemma PresetSettled(input: Input, position: int, now: int, m: Machine)
    requires NameInput(input.name) != ""
    ensures Settled(PresetOf(input, position, now, m))
  {
    hide IsWhite;
    TrimFacts(StringInput(input.name));
    TrimFacts(StringInput(input.group));
    TrimFacts(StringInput(input.cluster));
    TrimFacts(StringInput(input.namespace));
    TrimFacts(StringInput(input.kind));
    TrimFacts(StringInput(input.status));
    hide Trim;
    assert !IsWhite('a') && !IsWhite('l') && !IsWhite('G') by { WhiteLetters(); }
  }

  /** The text of a field that is no text is empty. */
  predicate Reads(v: Value, text: string) { if v.Text? then text == v.text else text == "" }

  predicate CutAt(text: string, n: nat, r: string) { if |text| <= n then r == text else r == text[..n] }

  predicate Chooses(v: Value, r: string) {
    if v.Text? && Trim(v.text) != "" then r == Trim(v.text) else r == "all"
  }

  /** A positive number is converted, anything else replaced. */
  predicate Counts(v: Value, fallback: int, m: Machine, r: int) {
    if v.Number? && v.number > 0.0 then r == m.convert(v.number) else r == fallback
  }

  /** What each field of a preset is made of: the limits are 80, 40 and 160 characters, the group is "General" and a
      filter "all" unless they are given. */
  lemma PresetMeans(input: Input, position: int, now: int, m: Machine, name: string, group: string, query: string)
    requires Reads(input.name, name) && Reads(input.group, group) && Reads(input.query, query)
    ensures var p := PresetOf(input, position, now, m);
            && CutAt(Trim(name), 80, p.name) && (if Trim(group) == "" then p.group == "General" else CutAt(Trim(group), 40, p.group)) && CutAt(query, 160, p.query)
            && Chooses(input.cluster, p.cluster) && Chooses(input.namespace, p.namespace) && Chooses(input.kind, p.kind) && Chooses(input.status, p.status)
            && Counts(input.order, position, m, p.order) && Counts(input.updatedAt, now, m, p.updatedAt)
  {
    hide Trim;
    TrimOfNothing();
  }

  lemma TrimOfNothing()
    ensures Trim("") == ""
  {
  }

  lemma WhiteLetters()
    ensures !IsWhite('a') && !IsWhite('l') && !IsWhite('G')
  {
  }

  /** The presets before they are put in order. */
  lemma CollectedFacts(inputs: seq<Input>, now: int, m: Machine)
    ensures var ps := Presets(Kept(inputs), now, m);
            && |ps| <= MaxPresets && UniqueNames(ps)
            && (forall k :: 0 <= k < |ps| ==> Settled(ps[k]))
            && (forall k :: 0 <= k < |ps| ==> Kept(inputs)[k] in inputs && ps[k].name == NameInput(Kept(inputs)[k].name))
  {
    hide PresetOf, NameInput, Settled;
    var kept := Kept(inputs);
    FirstsKeys(NameKey, inputs);
    assert kept <= Firsts(NameKey, inputs);
    forall k | 0 <= k < |kept|
      ensures kept[k] in inputs && NameInput(kept[k].name) != ""
    {
      assert kept[k] == Firsts(NameKey, inputs)[k];
      assert kept[k] in Firsts(NameKey, inputs);
    }
    forall k | 0 <= k < |kept|
      ensures Settled(PresetOf(kept[k], k + 1, now, m)) && PresetOf(kept[k], k + 1, now, m).name == NameInput(kept[k].name)
    {
      PresetSettled(kept[k], k + 1, now, m);
      NameOfPreset(kept[k], k + 1, now, m);
    }
    forall i, j | 0 <= i < j < |kept|
      ensures NameInput(kept[i].name) != NameInput(kept[j].name)
    {
      assert NameKey(kept[i]) != NameKey(kept[j]);
    }
  }

  lemma NameOfPreset(input: Input, position: int, now: int, m: Machine)
    ensures PresetOf(input, position, now, m).name == NameInput(input.name)
  {
  }

  lemma OrderIsWeak()
    ensures StrictWeakOrder(ByOrder())
  {
  }

  lemma SortKeepsPresets(ps: seq<Preset>)
    requires UniqueNames(ps)
    ensures var s := StableSort(ByOrder(), ps);
            |s| == |ps| && UniqueNames(s) && forall p :: p in s <==> p in ps
  {
    hide StableSort;
    var s := StableSort(ByOrder(), ps);
    assert forall p :: p in s <==> p in multiset(s);
    assert forall p :: p in ps <==> p in multiset(ps);
    forall i, j | 0 <= i < j < |s|
      ensures s[i].name != s[j].name
    {
      assert s == s[..j] + s[j..] && s[..j][i] == s[i] && s[j..][0] == s[j];
      assert multiset(s) == multiset(s[..j]) + multiset(s[j..]);
      assert s[i] in multiset(s[..j]) && s[j] in multiset(s[j..]);
      OneName(ps, s[i], s[j]);
    }
  }

  lemma OneName(ps: seq<Preset>, p: Preset, q: Preset)
    requires UniqueNames(ps) && p in ps && q in ps
    ensures p.name == q.name ==> p == q && multiset(ps)[p] == 1
  {
    var i :| 0 <= i < |ps| && ps[i] == p;
    assert ps == ps[..i] + [p] + ps[i + 1..];
    assert forall k :: 0 <= k < i ==> ps[k].name != ps[i].name;
    assert forall k :: i < k < |ps| ==> ps[i].name != ps[k].name;
    assert p !in ps[..i] && p !in ps[i + 1..];
  }

  /** Sanitizing always gives the normal form: at most eight presets with unique names, numbered from 1. */
  lemma SanitizeIsNormal(inputs: seq<Input>, now: int, m: Machine)
    ensures NormalForm(Sanitize(inputs, now, m))
  {
    hide StableSort, Presets, Kept;
    var ps := Presets(Kept(inputs), now, m);
    CollectedFacts(inputs, now, m);
    SortKeepsPresets(ps);
    var s := StableSort(ByOrder(), ps);
    forall k | 0 <= k < |s|
      ensures Settled(Renumbered(s)[k])
    {
      assert s[k] in ps;
    }
  }

  predicate HasName(ps: seq<Preset>, name: string) { exists k :: 0 <= k < |ps| && ps[k].name == name }

  predicate AsksFor(inputs: seq<Input>, name: string) { exists i :: 0 <= i < |inputs| && NameInput(inputs[i].name) == name }

  lemma NamesComeFromInputs(inputs: seq<Input>, now: int, m: Machine, name: string)
    requires HasName(Sanitize(inputs, now, m), name)
    ensures AsksFor(inputs, name)
  {
    hide StableSort, NameInput, PresetOf, Presets, Kept;
    var ps, r := Presets(Kept(inputs), now, m), Sanitize(inputs, now, m);
    CollectedFacts(inputs, now, m);
    SortKeepsPresets(ps);
    var s := StableSort(ByOrder(), ps);
    var k :| 0 <= k < |r| && r[k].name == name;
    assert s[k] in ps;
    var j :| 0 <= j < |ps| && ps[j] == s[k];
    assert Kept(inputs)[j] in inputs;
  }

  /** No name is lost unless eight others were kept. */
  lemma NamesAreKept(inputs: seq<Input>, now: int, m: Machine, name: string)
    requires AsksFor(inputs, name) && name != "" && |Sanitize(inputs, now, m)| < MaxPresets
    ensures HasName(Sanitize(inputs, now, m), name)
  {
    hide StableSort, NameInput, PresetOf, Firsts;
    var kept := Kept(inputs);
    var ps := Presets(kept, now, m);
    var i :| 0 <= i < |inputs| && NameInput(inputs[i].name) == name;
    assert NameKey(inputs[i]) == Some(name);
    assert Seen(NameKey, inputs, name);
    FirstsKeys(NameKey, inputs);
    assert |ps| == |kept| < MaxPresets;
    assert kept == Firsts(NameKey, inputs);
    var j :| 0 <= j < |kept| && NameKey(kept[j]) == Some(name);
    NameOfPreset(kept[j], j + 1, now, m);
    NameSurvivesSorting(inputs, j, now, m);
  }

  lemma NameSurvivesSorting(inputs: seq<Input>, j: nat, now: int, m: Machine)
    requires j < |Presets(Kept(inputs), now, m)|
    ensures HasName(Sanitize(inputs, now, m), Presets(Kept(inputs), now, m)[j].name)
  {
    hide StableSort, Presets, Kept;
    var ps, r := Presets(Kept(inputs), now, m), Sanitize(inputs, now, m);
    CollectedFacts(inputs, now, m);
    SortKeepsPresets(ps);
    var s := StableSort(ByOrder(), ps);
    assert ps[j] in s;
    var k :| 0 <= k < |s| && s[k] == ps[j];
    assert r[k].name == ps[j].name;
  }

  /** The list is put in the order asked for; presets that ask for the same place keep their order. */
  lemma SanitizeIsStable(inputs: seq<Input>, now: int, m: Machine)
    ensures var ps := Presets(Kept(inputs), now, m);
            exists s: seq<Preset> ::
              && Sanitize(inputs, now, m) == Renumbered(s)
              && multiset(s) == multiset(ps)
              && (forall i, j :: 0 <= i < j < |s| ==> s[i].order <= s[j].order)
              && (forall x :: Filter(Same(ByOrder(), x), s) == Filter(Same(ByOrder(), x), ps))
  {
    hide Presets, Kept, Renumbered;
    var ps := Presets(Kept(inputs), now, m);
    var s := StableSort(ByOrder(), ps);
    OrderIsWeak();
    StableSortSorted(ByOrder(), ps);
    forall x
      ensures Filter(Same(ByOrder(), x), s) == Filter(Same(ByOrder(), x), ps)
    {
      StableSortStable(ByOrder(), ps, x);
    }
    assert forall i, j :: 0 <= i < j < |s| ==> !ByOrder()(s[j], s[i]);
  }

  // ----- sanitizing again -----

  /** A preset written as JSON and decoded again. */
  function AsInput(p: Preset, m: Machine): Input {
    Input(Text(p.name), Text(p.group), Text(p.query), Text(p.cluster), Text(p.namespace), Text(p.kind), Text(p.status),
          Number(m.float(p.order)), Number(m.float(p.updatedAt)))
  }

  function AsInputs(ps: seq<Preset>, m: Machine): (r: seq<Input>)
    ensures |r| == |ps|
  {
    seq(|ps|, k requires 0 <= k < |ps| => AsInput(ps[k], m))
  }

  /** A time that survives: a positive one that a float holds exactly, or the time of the second reading. */
  predicate TimeKept(t: int, now: int, m: Machine) {
    if t > 0 then m.convert(m.float(t)) == t else t == now
  }

  /** What a caller can look at: no truncation left a blank at the end, and the times survive. */
  predicate Keeps(p: Preset, now: int, m: Machine) {
    !EndsWhite(p.name) && !EndsWhite(p.group) && TimeKept(p.updatedAt, now, m)
  }

  lemma NameAgain(p: Preset)
    requires Settled(p)
    ensures NameInput(Text(p.name)) == Trim(p.name) != "" && !EndsWhite(NameInput(Text(p.name)))
    ensures NameInput(Text(p.name)) == p.name <==> !EndsWhite(p.name)
  {
    TrimFacts(p.name);
  }

  lemma FieldsAgain(p: Preset, position: int, now: int, m: Machine)
    requires Settled(p)
    requires Sound(m) && p.order == position && 1 <= position <= MaxExact
    ensures var q := PresetOf(AsInput(p, m), position, now, m);
            && q.order == position
            && (q == p <==> Keeps(p, now, m))
  {
    hide IsWhite;
    NameAgain(p);
    TrimFacts(p.group);
    TrimFacts(p.cluster);
    TrimFacts(p.namespace);
    TrimFacts(p.kind);
    TrimFacts(p.status);
    hide Trim;
    assert m.float(position) == position as real;
    assert m.convert(position as real) == (position as real).Floor == position;
    assert m.float(p.updatedAt) > 0.0 <==> p.updatedAt > 0;
  }

  /** Unique names are all kept. */
  lemma {:induction false} AllFirst(inputs: seq<Input>)
    requires forall k :: 0 <= k < |inputs| ==> NameKey(inputs[k]).Some?
    requires forall i, j :: 0 <= i < j < |inputs| ==> NameKey(inputs[i]) != NameKey(inputs[j])
    ensures Firsts(NameKey, inputs) == inputs
  {
    hide NameKey;
    if inputs != [] {
      var n := |inputs| - 1;
      AllFirst(inputs[..n]);
      assert inputs == inputs[..n] + [inputs[n]];
    }
  }

  lemma OrderedAlready(ps: seq<Preset>)
    requires Numbered(ps)
    ensures Normalize(ps) == ps
  {
    assert Sorted(ByOrder(), ps);
    StableSortOfSorted(ByOrder(), ps);
  }

  /** A normal list whose names all survive is sanitized preset by preset. */
  lemma AgainOneByOne(ps: seq<Preset>, now: int, m: Machine)
    requires NormalForm(ps) && Sound(m)
    requires forall k :: 0 <= k < |ps| ==> !EndsWhite(ps[k].name)
    ensures Sanitize(AsInputs(ps, m), now, m) == Presets(AsInputs(ps, m), now, m)
    ensures Sanitize(AsInputs(ps, m), now, m) == ps <==> forall k :: 0 <= k < |ps| ==> Keeps(ps[k], now, m)
  {
    hide Settled, EndsWhite, NameInput, PresetOf, Keeps, StableSort, Firsts, Sound;
    var inputs := AsInputs(ps, m);
    forall k | 0 <= k < |ps|
      ensures NameKey(inputs[k]) == Some(ps[k].name)
    {
      NameAgain(ps[k]);
    }
    AllFirst(inputs);
    assert Kept(inputs) == inputs;
    var again := Presets(inputs, now, m);
    forall k | 0 <= k < |ps|
      ensures again[k].order == k + 1 && (again[k] == ps[k] <==> Keeps(ps[k], now, m))
    {
      FieldsAgain(ps[k], k + 1, now, m);
    }
    OrderedAlready(again);
  }

  /** Sanitizing a sanitized list changes nothing exactly if every preset keeps: no name and no group that
      truncation cut off ends in white space, and every time is positive and exact as a float or is the
      time of the second reading. */
  lemma SanitizeAgain(ps: seq<Preset>, now: int, m: Machine)
    requires NormalForm(ps) && Sound(m)
    ensures Sanitize(AsInputs(ps, m), now, m) == ps <==> forall k :: 0 <= k < |ps| ==> Keeps(ps[k], now, m)
  {
    if forall k :: 0 <= k < |ps| ==> !EndsWhite(ps[k].name) {
      AgainOneByOne(ps, now, m);
    } else {
      hide Sanitize, Settled, EndsWhite;
      var k :| 0 <= k < |ps| && EndsWhite(ps[k].name);
      assert !Keeps(ps[k], now, m);
      AgainEndsClean(ps, now, m);
    }
  }

  /** Names of a second sanitizing never end in white space. */
  lemma AgainEndsClean(ps: seq<Preset>, now: int, m: Machine)
    requires NormalForm(ps)
    ensures var r := Sanitize(AsInputs(ps, m), now, m); forall k :: 0 <= k < |r| ==> !EndsWhite(r[k].name)
  {
    hide Sanitize, NameInput, EndsWhite, Settled;
    var inputs := AsInputs(ps, m);
    var r := Sanitize(inputs, now, m);
    forall k | 0 <= k < |r|
      ensures !EndsWhite(r[k].name)
    {
      assert HasName(r, r[k].name);
      NamesComeFromInputs(inputs, now, m, r[k].name);
      var i :| 0 <= i < |inputs| && NameInput(inputs[i].name) == r[k].name;
      NameAgain(ps[i]);
    }
  }

  /** Times from the clock of an ordinary server survive. */
  lemma OrdinaryTimesAreKept(t: int, now: int, m: Machine)
    requires Sound(m) && 1 <= t <= MaxExact
    ensures TimeKept(t, now, m)
  {
    assert m.float(t) == t as real;
    assert m.convert(t as real) == (t as real).Floor == t;
  }

  function Named(name: string): Input { Input(Text(name), Other, Other, Other, Other, Other, Other, Other, Other) }

  /** Two presets whose names differ only in what a second trim removes are merged by it, and one is lost. */
  lemma TruncationMergesPresets(a: string, tail: string, now: int, m: Machine)
    requires |a| == MaxNameLength - 1 && !StartsWhite(a) && !EndsWhite(a) && tail != "" && !EndsWhite(tail)
    ensures var once := Sanitize([Named(a + " " + tail), Named(a)], now, m);
            |once| == 2 && |Sanitize(AsInputs(once, m), now, m)| == 1
  {
    hide IsWhite, Sanitize, NormalForm;
    var long := a + " " + tail;
    var inputs := [Named(long), Named(a)];
    TrimCut(a);
    TrimFacts(long);
    TrimFacts(a);
    assert long[0] == a[0] && long[|long| - 1] == tail[|tail| - 1];
    assert long[..80] == a + " ";
    assert NameInput(Text(long)) == a + " " && NameInput(Text(a)) == a;
    SanitizeIsNormal(inputs, now, m);
    TwoNames(inputs, a + " ", a, now, m);
    OneNameLeft(Sanitize(inputs, now, m), a, now, m);
  }

  lemma TrimCut(a: string)
    requires a != "" && !StartsWhite(a) && !EndsWhite(a)
    ensures Trim(a + " ") == a && Trim(a) == a
  {
    TrimFacts(a);
    assert (a + " ")[..|a|] == a;
    assert TrimEnd(IsWhite, a) == a;
    assert TrimStart(IsWhite, a + " ") == a + " ";
  }

  lemma TwoNames(inputs: seq<Input>, x: string, y: string, now: int, m: Machine)
    requires |inputs| == 2 && NameInput(inputs[0].name) == x && NameInput(inputs[1].name) == y && x != y && x != "" && y != ""
    ensures var r := Sanitize(inputs, now, m);
            |r| == 2 && (forall k :: 0 <= k < 2 ==> r[k].name == x || r[k].name == y)
  {
    hide NameInput, StableSort, PresetOf, Presets, Firsts, Settled;
    AllFirst(inputs);
    var ps := Presets(Kept(inputs), now, m);
    CollectedFacts(inputs, now, m);
    SortKeepsPresets(ps);
    var s := StableSort(ByOrder(), ps);
    assert |s| == 2 && s[0] in ps && s[1] in ps;
  }

  lemma OneNameLeft(ps: seq<Preset>, name: string, now: int, m: Machine)
    requires NormalForm(ps) && |ps| == 2 && forall k :: 0 <= k < 2 ==> Trim(ps[k].name) == name
    ensures |Sanitize(AsInputs(ps, m), now, m)| == 1
  {
    hide StableSort, PresetOf, NameInput, Trim, Settled;
    var inputs := AsInputs(ps, m);
    NameAgain(ps[0]);
    NameAgain(ps[1]);
    assert inputs[..1] == [inputs[0]] && inputs[..1][..0] == [];
    assert IsFirst(NameKey, inputs[..1], 0);
    assert Firsts(NameKey, inputs[..1]) == [inputs[0]];
    assert !IsFirst(NameKey, inputs, 1);
    assert Firsts(NameKey, inputs) == [inputs[0]];
  }
}
