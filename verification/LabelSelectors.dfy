/** Label selectors: what the matching code decides, against the requirements that a selector states. */
module LabelSelectors {
  import opened Text
  import opened Names

  const MaxSelectorLabels := 64
  const MaxSelectorExpressions := 64
  const MaxSelectorValues := 64
  const MaxObjectLabels := 256

  datatype Expression = Expression(key: string, operator: string, values: seq<string>)
  datatype LabelSelector = LabelSelector(matchLabels: map<string, string>, expressions: seq<Expression>)

  predicate SelectorMatchesLabels(selector: map<string, string>, labels: map<string, string>) {
    && |selector| <= MaxSelectorLabels && |labels| <= MaxObjectLabels
    && forall key :: key in selector ==>
         ValidLabelKey(key) && ValidLabelValue(selector[key]) && key in labels && ValidLabelValue(labels[key]) && labels[key] == selector[key]
  }

  predicate ValidExpression(e: Expression) {
    && ValidLabelKey(e.key) && |e.values| <= MaxSelectorValues
    && (forall k :: 0 <= k < |e.values| ==> ValidLabelValue(e.values[k]))
    && (if e.operator == "In" || e.operator == "NotIn" then |e.values| > 0
        else if e.operator == "Exists" || e.operator == "DoesNotExist" then |e.values| == 0
        else false)
  }

  predicate ValidSelector(s: LabelSelector) {
    && |s.matchLabels| <= MaxSelectorLabels && |s.expressions| <= MaxSelectorExpressions
    && (forall key :: key in s.matchLabels ==> ValidLabelKey(key) && ValidLabelValue(s.matchLabels[key]))
    && forall k :: 0 <= k < |s.expressions| ==> ValidExpression(s.expressions[k])
  }

  predicate ExpressionMatches(e: Expression, labels: map<string, string>) {
    if !ValidExpression(e) || |labels| > MaxObjectLabels then false
    else if e.key in labels && !ValidLabelValue(labels[e.key]) then false
    else if e.operator == "In" then e.key in labels && labels[e.key] in e.values
    else if e.operator == "NotIn" then e.key !in labels || labels[e.key] !in e.values
    else if e.operator == "Exists" then e.key in labels
    else e.key !in labels
  }

  /** `labelSelectorMatches`; no selector at all matches everything. */
  predicate Matches(selector: Option<LabelSelector>, labels: map<string, string>) {
    selector.None? ||
    (&& ValidSelector(selector.value) && SelectorMatchesLabels(selector.value.matchLabels, labels)
     && forall k :: 0 <= k < |selector.value.expressions| ==> ExpressionMatches(selector.value.expressions[k], labels))
  }

  method CheckLabels(selector: map<string, string>, labels: map<string, string>) returns (ok: bool)
    ensures ok == SelectorMatchesLabels(selector, labels)
  {
    if |selector| > MaxSelectorLabels || |labels| > MaxObjectLabels {
      return false;
    }
    var rest := selector.Keys;
    while rest != {}
      invariant rest <= selector.Keys
      invariant forall key :: key in selector && key !in rest ==>
                  ValidLabelKey(key) && ValidLabelValue(selector[key]) && key in labels && ValidLabelValue(labels[key]) && labels[key] == selector[key]
      decreases |rest|
    {
      var key :| key in rest;
      rest := rest - {key};
      if !ValidLabelKey(key) || !ValidLabelValue(selector[key]) {
        return false;
      }
      if key !in labels || !ValidLabelValue(labels[key]) || labels[key] != selector[key] {
        return false;
      }
    }
    return true;
  }

  method CheckSelector(selector: Option<LabelSelector>, labels: map<string, string>) returns (ok: bool)
    ensures ok == Matches(selector, labels)
  {
    if selector.None? {
      return true;
    }
    if !ValidSelector(selector.value) {
      return false;
    }
    var all := CheckLabels(selector.value.matchLabels, labels);
    if !all {
      return false;
    }
    for k := 0 to |selector.value.expressions|
      invariant forall j :: 0 <= j < k ==> ExpressionMatches(selector.value.expressions[j], labels)
    {
      if !ExpressionMatches(selector.value.expressions[k], labels) {
        return false;
      }
    }
    return true;
  }

  // ----- what a selector means -----

  datatype Requirement = OneOf(key: string, values: set<string>) | NoneOf(key: string, values: set<string>) | Present(key: string) | Absent(key: string)

  predicate Meets(labels: map<string, string>, r: Requirement) {
    match r
    case OneOf(key, values) => key in labels && labels[key] in values
    case NoneOf(key, values) => key in labels ==> labels[key] !in values
    case Present(key) => key in labels
    case Absent(key) => key !in labels
  }

  function RequirementOf(e: Expression): Requirement {
    var values := set v | v in e.values;
    if e.operator == "In" then OneOf(e.key, values)
    else if e.operator == "NotIn" then NoneOf(e.key, values)
    else if e.operator == "Exists" then Present(e.key)
    else Absent(e.key)
  }

  function Requirements(s: LabelSelector): set<Requirement> {
    (set key | key in s.matchLabels :: OneOf(key, {s.matchLabels[key]})) + (set e | e in s.expressions :: RequirementOf(e))
  }

  /** Where the code is stricter than the requirements: a value that is only looked at by "NotIn" or "Exists"
      must be valid too. */
  predicate NeedsValidValue(e: Expression) { e.operator == "NotIn" || e.operator == "Exists" }

  predicate ValuesAreValid(s: LabelSelector, labels: map<string, string>) {
    forall k :: 0 <= k < |s.expressions| && NeedsValidValue(s.expressions[k]) && s.expressions[k].key in labels
                ==> ValidLabelValue(labels[s.expressions[k].key])
  }

  /** A selector matches exactly if it is valid, the labels are not too many and meet its requirements as a set,
      and the values it only excludes or asks for are valid. In particular neither the order nor a repetition matters. */
  lemma SelectorMeaning(s: LabelSelector, labels: map<string, string>)
    ensures Matches(Some(s), labels) <==>
            && ValidSelector(s) && |labels| <= 256
            && (forall r :: r in Requirements(s) ==> Meets(labels, r))
            && ValuesAreValid(s, labels)
  {
    hide ValidLabelKey, ValidLabelValue;
    if ValidSelector(s) && |labels| <= MaxObjectLabels {
      forall k | 0 <= k < |s.expressions|
        ensures RequirementOf(s.expressions[k]) in Requirements(s)
        ensures ExpressionMatches(s.expressions[k], labels) <==>
                Meets(labels, RequirementOf(s.expressions[k])) &&
                (NeedsValidValue(s.expressions[k]) && s.expressions[k].key in labels ==> ValidLabelValue(labels[s.expressions[k].key]))
      {
        assert s.expressions[k] in s.expressions;
        ExpressionMeaning(s.expressions[k], labels);
      }
      hide ExpressionMatches, RequirementOf;
      assert forall key :: key in s.matchLabels ==> OneOf(key, {s.matchLabels[key]}) in Requirements(s);
      forall r | r in Requirements(s)
        ensures (exists key :: key in s.matchLabels && r == OneOf(key, {s.matchLabels[key]}))
             || (exists k :: 0 <= k < |s.expressions| && r == RequirementOf(s.expressions[k]))
      {
      }
      SameLabels(s, labels);
    }
  }

  lemma SameLabels(s: LabelSelector, labels: map<string, string>)
    requires ValidSelector(s) && |labels| <= MaxObjectLabels
    ensures SelectorMatchesLabels(s.matchLabels, labels) <==> forall key :: key in s.matchLabels ==> Meets(labels, OneOf(key, {s.matchLabels[key]}))
  {
    hide ValidLabelKey, ValidLabelValue;
    if forall key :: key in s.matchLabels ==> Meets(labels, OneOf(key, {s.matchLabels[key]})) {
      forall key | key in s.matchLabels
        ensures key in labels && labels[key] == s.matchLabels[key]
      {
        assert Meets(labels, OneOf(key, {s.matchLabels[key]}));
      }
    }
  }

  lemma ExpressionMeaning(e: Expression, labels: map<string, string>)
    requires ValidExpression(e) && |labels| <= MaxObjectLabels
    ensures ExpressionMatches(e, labels) <==>
            Meets(labels, RequirementOf(e)) && (NeedsValidValue(e) && e.key in labels ==> ValidLabelValue(labels[e.key]))
  {
    hide ValidLabelKey, ValidLabelValue;
    if e.key in labels && labels[e.key] in e.values {
      var k :| 0 <= k < |e.values| && e.values[k] == labels[e.key];
      assert ValidLabelValue(e.values[k]);
    }
  }
}
