// Contracts that were never admitted: on which of them the native rules raise, and what
// "in" means for the shapes of "enum" they tolerate.
module Raising {
  import opened Options
  import opened Json
  import opened Equality
  import opened RuleEngine

  // A for loop over the value raises, or its body does for something the value yields. A
  // string yields its characters and a dict its keys, strings all of them.
  ghost predicate NoListOfNames(fields: Json) {
    match fields
    case JArr(items) => exists i :: 0 <= i < |items| && !items[i].JStr?
    case JStr(_) => false
    case JObj(_, _) => false
    case _ => true
  }

  ghost predicate NoListOfKeys(fields: Json) {
    match fields
    case JArr(items) => exists i :: 0 <= i < |items| && (items[i].JArr? || items[i].JObj?)
    case JStr(_) => false
    case JObj(_, _) => false
    case _ => true
  }

  // `value in allowed` raises: nothing is in a number, only a string is in a string, and a
  // list or dict cannot be looked up as a key.
  predicate NotTestable(allowed: Json, value: Json) {
    match allowed
    case JArr(_) => false
    case JStr(_) => !value.JStr?
    case JObj(_, _) => value.JArr? || value.JObj?
    case _ => true
  }

  // A bound that is there and is neither a number nor a bool.
  predicate NoBound(bound: Json) {
    match bound
    case JNull => false
    case JBool(_) => false
    case JInt(_) => false
    case JFloat(_) => false
    case _ => true
  }

  // What Python makes of a bound: true counts as 1.
  function BoundValue(bound: Json): Option<real> {
    match bound
    case JBool(b) => Some(if b then 1.0 else 0.0)
    case _ => Magnitude(bound)
  }

  // The comparison with the lower bound raises, or passes and the one with the upper raises.
  predicate NotComparable(spec: Json, value: Json)
    requires spec.JObj? && Magnitude(value).Some?
  {
    var lower := if "min" in spec.m then spec.m["min"] else if "minimum" in spec.m then spec.m["minimum"] else JNull;
    var upper := if "max" in spec.m then spec.m["max"] else if "maximum" in spec.m then spec.m["maximum"] else JNull;
    || NoBound(lower)
    || ((BoundValue(lower).None? || BoundValue(lower).value <= Magnitude(value).value) && NoBound(upper))
  }

  // len() or the compilation raises: a number or true has no length, and a list or dict that
  // is short enough cannot be a key of the pattern cache.
  predicate NoPattern(pattern: Json, s: string) {
    match pattern
    case JBool(b) => b
    case JInt(n) => n != 0
    case JFloat(x) => x != 0.0
    case JArr(items) => 0 < |items| <= 1000 && |s| <= 50_000
    case JObj(keys, _) => 0 < |keys| <= 1000 && |s| <= 50_000
    case _ => false
  }

  // A property whose spec is no object has no enum, bound or pattern to trip over.
  ghost predicate PropertyRaises(payload: Json, name: string, spec: Json)
    requires payload.JObj?
  {
    name in payload.m && spec.JObj? &&
    var value := payload.m[name];
    || ("enum" in spec.m && NotTestable(spec.m["enum"], value))
    || (Magnitude(value).Some? && NotComparable(spec, value))
    || ("pattern" in spec.m && value.JStr? && NoPattern(spec.m["pattern"], value.s))
  }

  ghost predicate Trips(payload: Json, schema: Json)
    requires payload.JObj? && schema.JObj?
  {
    || ("required" in schema.m && NoListOfNames(schema.m["required"]))
    || ("null_forbidden" in schema.m && NoListOfKeys(schema.m["null_forbidden"]))
    || ("properties" in schema.m &&
        match schema.m["properties"]
        case JObj(keys, m) => exists i :: 0 <= i < |keys| && keys[i] in m && PropertyRaises(payload, keys[i], m[keys[i]])
        case _ => true)
  }

  // ------------------------------------------------------------------------------
  // Entry by entry
  // ------------------------------------------------------------------------------

  lemma {:induction false} CharactersAreStrings(s: string)
    ensures forall i :: 0 <= i < |Characters(s)| ==> Characters(s)[i].JStr?
  {
    if s != [] {
      CharactersAreStrings(s[..|s| - 1]);
    }
  }

  lemma {:induction false} KeysAreStrings(keys: seq<string>)
    ensures forall i :: 0 <= i < |KeyList(keys)| ==> KeyList(keys)[i].JStr?
  {
    if keys != [] {
      KeysAreStrings(keys[..|keys| - 1]);
    }
  }

  lemma PresenceRaises(payload: Json, fields: Json)
    ensures FieldPresence(payload, fields).Raised? <==> NoListOfNames(fields)
  {
    hide ForEach, Descends, Characters, KeyList;
    match fields
    case JArr(items) => ForEachMeans(items, PresenceRule(payload));
    case JStr(s) =>
      CharactersAreStrings(s);
      ForEachMeans(Characters(s), PresenceRule(payload));
    case JObj(keys, _) =>
      KeysAreStrings(keys);
      ForEachMeans(KeyList(keys), PresenceRule(payload));
    case _ =>
  }

  lemma NullsRaise(payload: Json, fields: Json)
    requires payload.JObj?
    ensures NullGuard(payload, fields).Raised? <==> NoListOfKeys(fields)
  {
    hide ForEach, Characters, KeyList;
    match fields
    case JArr(items) => ForEachMeans(items, NullRule(payload));
    case JStr(s) =>
      CharactersAreStrings(s);
      ForEachMeans(Characters(s), NullRule(payload));
    case JObj(keys, _) =>
      KeysAreStrings(keys);
      ForEachMeans(KeyList(keys), NullRule(payload));
    case _ =>
  }

  lemma EnumRaises(payload: Json, name: string, spec: Json)
    requires payload.JObj?
    ensures EnumOf(payload, name, spec).Raised?
       <==> spec.JObj? && "enum" in spec.m && name in payload.m && NotTestable(spec.m["enum"], payload.m[name])
  {
    hide PyEqual, IsSubstring;
  }

  lemma RangeRaises(payload: Json, name: string, spec: Json)
    requires payload.JObj?
    ensures RangeOf(payload, name, spec).Raised?
       <==> spec.JObj? && name in payload.m && Magnitude(payload.m[name]).Some? && NotComparable(spec, payload.m[name])
  {
  }

  lemma PatternRaises(re: Regex, payload: Json, name: string, spec: Json)
    requires payload.JObj?
    ensures PatternOf(re, payload, name, spec).Raised?
       <==> spec.JObj? && "pattern" in spec.m && name in payload.m && payload.m[name].JStr?
            && NoPattern(spec.m["pattern"], payload.m[name].s)
  {
  }

  lemma OneRuleRaises(re: Regex, rule: PropertyRule, payload: Json, properties: Json)
    requires payload.JObj? && properties.JObj?
    ensures OverProperties(re, rule, payload, properties).Raised?
       <==> exists i :: 0 <= i < |properties.keys| && PropertyOf(re, rule, payload, properties, properties.keys[i]).Raised?
  {
    hide PropertyOf, ForEach;
    ForEachMeans(properties.keys, PropertyRuleOf(re, rule, payload, properties));
  }

  // One of the four rules over properties raises at the name, or over all of them.
  ghost predicate AnyRuleAt(re: Regex, payload: Json, properties: Json, name: string)
    requires payload.JObj? && properties.JObj?
  {
    || PropertyOf(re, TypeMatch, payload, properties, name).Raised? || PropertyOf(re, EnumValues, payload, properties, name).Raised?
    || PropertyOf(re, RangeCheck, payload, properties, name).Raised? || PropertyOf(re, RegexPattern, payload, properties, name).Raised?
  }

  ghost predicate AnyRule(re: Regex, payload: Json, properties: Json)
    requires payload.JObj?
  {
    || OverProperties(re, TypeMatch, payload, properties).Raised? || OverProperties(re, EnumValues, payload, properties).Raised?
    || OverProperties(re, RangeCheck, payload, properties).Raised? || OverProperties(re, RegexPattern, payload, properties).Raised?
  }

  lemma SomeRuleRaises(re: Regex, payload: Json, properties: Json, name: string)
    requires payload.JObj? && properties.JObj?
    ensures AnyRuleAt(re, payload, properties, name)
       <==> name in properties.m && PropertyRaises(payload, name, properties.m[name])
  {
    hide TypeOf, EnumOf, RangeOf, PatternOf, NotTestable, NotComparable, NoPattern;
    if name in properties.m {
      var spec := properties.m[name];
      TypeNeverRaises(payload, name, spec);
      EnumRaises(payload, name, spec);
      RangeRaises(payload, name, spec);
      PatternRaises(re, payload, name, spec);
    }
  }

  lemma TypeNeverRaises(payload: Json, name: string, spec: Json)
    requires payload.JObj?
    ensures !TypeOf(payload, name, spec).Raised?
  {
    hide RuleEngine.TypeMatches;
  }

  lemma PropertiesRaise(re: Regex, payload: Json, properties: Json)
    requires payload.JObj?
    ensures AnyRule(re, payload, properties)
       <==> || !properties.JObj?
            || exists i :: 0 <= i < |properties.keys| && properties.keys[i] in properties.m
                    && PropertyRaises(payload, properties.keys[i], properties.m[properties.keys[i]])
  {
    if properties.JObj? {
      hide OverProperties, PropertyOf, PropertyRaises;
      OneRuleRaises(re, TypeMatch, payload, properties);
      OneRuleRaises(re, EnumValues, payload, properties);
      OneRuleRaises(re, RangeCheck, payload, properties);
      OneRuleRaises(re, RegexPattern, payload, properties);
      forall i | 0 <= i < |properties.keys|
        ensures AnyRuleAt(re, payload, properties, properties.keys[i])
           <==> properties.keys[i] in properties.m && PropertyRaises(payload, properties.keys[i], properties.m[properties.keys[i]])
      {
        SomeRuleRaises(re, payload, properties, properties.keys[i]);
      }
    }
  }

  // On any contract, admitted or not, a validation of an object raises exactly when the
  // contract trips it up.
  lemma RaisesExactlyWhenItTrips(re: Regex, payload: Json, schema: Json)
    requires payload.JObj? && schema.JObj?
    ensures Validate(re, payload, schema).Raised? <==> Trips(payload, schema)
  {
    hide FieldPresence, NullGuard, OverProperties, PropertyRaises, NoListOfNames, NoListOfKeys;
    PresenceRaises(payload, GetOr(schema, "required", NO_FIELDS));
    NullsRaise(payload, GetOr(schema, "null_forbidden", NO_FIELDS));
    NoFieldsAreLists();
    PropertiesRaise(re, payload, GetOr(schema, "properties", NO_PROPERTIES));
  }

  lemma NoFieldsAreLists()
    ensures !NoListOfNames(NO_FIELDS) && !NoListOfKeys(NO_FIELDS)
  {
  }

  // ------------------------------------------------------------------------------
  // Membership
  // ------------------------------------------------------------------------------

  // The value is in the list by ==, in the string as a part of it, in the dict as a key.
  ghost predicate In(value: Json, allowed: Json) {
    match allowed
    case JArr(items) => exists i :: 0 <= i < |items| && NormalOf(value) == NormalOf(items[i])
    case JStr(s) => value.JStr? && exists i :: 0 <= i <= |s| && value.s <= s[i..]
    case JObj(_, m) => value.JStr? && value.s in m
    case _ => false
  }

  lemma {:induction false} SubstringExactly(s: string, t: string)
    ensures IsSubstring(s, t) <==> exists i :: 0 <= i <= |t| && s <= t[i..]
  {
    assert t[0..] == t;
    if t != [] {
      SubstringExactly(s, t[1..]);
      if IsSubstring(s, t[1..]) {
        var i :| 0 <= i <= |t| - 1 && s <= t[1..][i..];
        assert t[1..][i..] == t[i + 1..];
      }
      if i :| 0 < i <= |t| && s <= t[i..] {
        assert t[1..][i - 1..] == t[i..];
      }
    }
  }

  // An enum of any shape that does not raise reports exactly the values that are not in it.
  lemma EnumReportsExactly(payload: Json, name: string, spec: Json)
    requires payload.JObj? && spec.JObj? && "enum" in spec.m && name in payload.m
    requires !NotTestable(spec.m["enum"], payload.m[name])
    ensures EnumOf(payload, name, spec) == if In(payload.m[name], spec.m["enum"]) then Clean() else Breach(name, NotAllowed)
  {
    hide PyEqual, NormalOf, IsSubstring;
    var value, allowed := payload.m[name], spec.m["enum"];
    match allowed
    case JArr(items) =>
      forall i | 0 <= i < |items| ensures PyEqual(value, items[i]) <==> NormalOf(value) == NormalOf(items[i]) {
        EqualExactlyWhenSameNormal(value, items[i]);
      }
    case JStr(s) => SubstringExactly(value.s, s);
    case _ =>
  }
}
