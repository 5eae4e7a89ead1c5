// The order in which the native rules report: rule by rule, and within a rule property by
// property as the contract lists them.
module BreachOrder {
  import opened Json
  import opened RuleEngine

  // The place of the rule a cause belongs to.
  function PlaceOf(cause: Cause): int {
    match cause
    case NotAnObject => 0
    case Missing => 0
    case WrongType => 1
    case NotAllowed => 2
    case BelowMinimum => 3
    case AboveMaximum => 3
    case IsNull => 4
    case _ => 5
  }

  // The breaches of the rules at places from low to high, in order.
  ghost predicate InPlaces(found: seq<RuleBreach>, low: int, high: int) {
    && (forall i :: 0 <= i < |found| ==> low <= PlaceOf(found[i].cause) <= high)
    && forall i, j :: 0 <= i < j < |found| ==> PlaceOf(found[i].cause) <= PlaceOf(found[j].cause)
  }

  ghost predicate Placed(checked: Checked, low: int, high: int) {
    checked.Breaches? ==> InPlaces(checked.found, low, high)
  }

  lemma BothPlaced(a: Checked, b: Checked, low: int, mid: int, high: int)
    requires Placed(a, low, mid) && Placed(b, mid, high) && low <= mid <= high
    ensures Placed(Both(a, b), low, high)
  {
  }

  lemma {:induction false} ForEachPlaced<T>(entries: seq<T>, rule: T -> Checked, place: int)
    requires forall x :: Placed(rule(x), place, place)
    ensures Placed(ForEach(entries, rule), place, place)
  {
    if entries != [] {
      ForEachPlaced(entries[..|entries| - 1], rule, place);
      BothPlaced(ForEach(entries[..|entries| - 1], rule), rule(entries[|entries| - 1]), place, place, place);
    }
  }

  function RulePlace(rule: PropertyRule): int {
    match rule
    case TypeMatch => 1
    case EnumValues => 2
    case RangeCheck => 3
    case RegexPattern => 5
  }

  lemma PropertiesPlaced(re: Regex, rule: PropertyRule, payload: Json, properties: Json)
    requires payload.JObj?
    ensures Placed(OverProperties(re, rule, payload, properties), RulePlace(rule), RulePlace(rule))
  {
    if properties.JObj? {
      forall name ensures Placed(PropertyRuleOf(re, rule, payload, properties)(name), RulePlace(rule), RulePlace(rule)) {
        PropertyPlaced(re, rule, payload, properties, name);
      }
      ForEachPlaced(properties.keys, PropertyRuleOf(re, rule, payload, properties), RulePlace(rule));
    }
  }

  lemma PropertyPlaced(re: Regex, rule: PropertyRule, payload: Json, properties: Json, name: string)
    requires payload.JObj? && properties.JObj?
    ensures Placed(PropertyOf(re, rule, payload, properties, name), RulePlace(rule), RulePlace(rule))
  {
    hide RuleEngine.TypeMatches, RuleEngine.Contains;
  }

  lemma ListsPlaced(payload: Json, required: Json, forbidden: Json)
    requires payload.JObj?
    ensures Placed(FieldPresence(payload, required), 0, 0) && Placed(NullGuard(payload, forbidden), 4, 4)
  {
    hide Iterate, Descends;
    if Iterate(required).Yields? {
      ForEachPlaced(Iterate(required).items, PresenceRule(payload), 0);
    }
    if Iterate(forbidden).Yields? {
      ForEachPlaced(Iterate(forbidden).items, NullRule(payload), 4);
    }
  }

  // Whatever the contract, the breaches come rule by rule: missing fields, types, enums,
  // ranges, nulls, patterns.
  lemma BreachesComeRuleByRule(re: Regex, payload: Json, schema: Json)
    requires schema.JObj?
    ensures Placed(Validate(re, payload, schema), 0, 5)
  {
    hide OverProperties, FieldPresence, NullGuard, Both, Placed;
    if payload.JObj? {
      var properties := GetOr(schema, "properties", NO_PROPERTIES);
      var required, forbidden := GetOr(schema, "required", NO_FIELDS), GetOr(schema, "null_forbidden", NO_FIELDS);
      ListsPlaced(payload, required, forbidden);
      PropertiesPlaced(re, TypeMatch, payload, properties);
      PropertiesPlaced(re, EnumValues, payload, properties);
      PropertiesPlaced(re, RangeCheck, payload, properties);
      PropertiesPlaced(re, RegexPattern, payload, properties);
      var last := OverProperties(re, RegexPattern, payload, properties);
      Widened(last, 5, 4);
      BothPlaced(NullGuard(payload, forbidden), last, 4, 4, 5);
      var two := Both(NullGuard(payload, forbidden), last);
      Widened(two, 4, 3);
      BothPlaced(OverProperties(re, RangeCheck, payload, properties), two, 3, 3, 5);
      var three := Both(OverProperties(re, RangeCheck, payload, properties), two);
      Widened(three, 3, 2);
      BothPlaced(OverProperties(re, EnumValues, payload, properties), three, 2, 2, 5);
      var four := Both(OverProperties(re, EnumValues, payload, properties), three);
      Widened(four, 2, 1);
      BothPlaced(OverProperties(re, TypeMatch, payload, properties), four, 1, 1, 5);
      var five := Both(OverProperties(re, TypeMatch, payload, properties), four);
      Widened(five, 1, 0);
      BothPlaced(FieldPresence(payload, required), five, 0, 0, 5);
    } else {
      NotAnObjectIsFirst();
    }
  }

  lemma Widened(checked: Checked, low: int, lower: int)
    requires Placed(checked, low, 5) && lower <= low
    ensures Placed(checked, lower, 5)
  {
  }

  lemma NotAnObjectIsFirst()
    ensures Placed(Breach("<root>", NotAnObject), 0, 5)
  {
  }

  // The position of a breach's entry.
  ghost predicate FromEntry<T>(entries: seq<T>, rule: T -> Checked, i: nat, b: RuleBreach) {
    i < |entries| && rule(entries[i]).Breaches? && b in rule(entries[i]).found
  }

  // And within a rule entry by entry: every breach has an entry it comes from, none before
  // that of an earlier breach.
  lemma {:induction false} BreachesComeEntryByEntry<T>(entries: seq<T>, rule: T -> Checked) returns (from: seq<nat>)
    requires ForEach(entries, rule).Breaches?
    ensures var found := ForEach(entries, rule).found;
            && |from| == |found|
            && (forall i :: 0 <= i < |found| ==> FromEntry(entries, rule, from[i], found[i]))
            && (forall i, j :: 0 <= i < j < |found| ==> from[i] <= from[j])
  {
    if entries == [] {
      from := [];
    } else {
      var n := |entries| - 1;
      var before := BreachesComeEntryByEntry(entries[..n], rule);
      var found := ForEach(entries[..n], rule).found;
      from := before + seq(|rule(entries[n]).found|, i => n);
      forall i | 0 <= i < |found| ensures FromEntry(entries, rule, from[i], found[i]) && from[i] < n {
        assert FromEntry(entries[..n], rule, before[i], found[i]);
      }
    }
  }
}
