// validator.py: the six native rules and their composition, with the exceptions Python
// raises when a contract is not shaped the way a rule assumes.
module RuleEngine {
  import opened Json
  import opened JsonPointer
  import opened SecurityLimits

  datatype Cause =
    | NotAnObject | Missing | WrongType | NotAllowed | BelowMinimum | AboveMaximum
    | IsNull | PatternTooLong | ValueTooLong | BadPattern | NoMatch

  // A BreachDetail: the rule is the one that can have this cause, the message is prose.
  datatype RuleBreach = RuleBreach(field: string, cause: Cause)

  // A rule returns a list of breaches, or raises.
  datatype Checked = Raised | Breaches(found: seq<RuleBreach>)

  // google-re2 as two deterministic functions.
  datatype Regex = Regex(compiles: string -> bool, fullMatch: (string, string) -> bool)

  function Clean(): Checked {
    Breaches([])
  }

  function Breach(field: string, cause: Cause): Checked {
    Breaches([RuleBreach(field, cause)])
  }

  function Both(a: Checked, b: Checked): Checked {
    if a.Raised? || b.Raised? then Raised else Breaches(a.found + b.found)
  }

  // The loop every rule runs: entry by entry, stopping at the first exception.
  function ForEach<T>(entries: seq<T>, rule: T -> Checked): Checked {
    if entries == [] then Clean()
    else Both(ForEach(entries[..|entries| - 1], rule), rule(entries[|entries| - 1]))
  }

  // ------------------------------------------------------------------------------
  // Python's view of JSON values
  // ------------------------------------------------------------------------------

  predicate Falsy(j: Json) {
    match j
    case JNull => true
    case JBool(b) => !b
    case JInt(n) => n == 0
    case JFloat(x) => x == 0.0
    case JStr(s) => s == ""
    case JArr(items) => items == []
    case JObj(keys, _) => keys == []
  }

  // int, float or bool: what Python compares as a number.
  predicate Comparable(j: Json) {
    j.JInt? || j.JFloat? || j.JBool?
  }

  function NumberOf(j: Json): real
    requires Comparable(j)
  {
    match j
    case JInt(n) => n as real
    case JFloat(x) => x
    case JBool(b) => if b then 1.0 else 0.0
  }

  // ==, where True, 1 and 1.0 are equal and dicts are compared without order.
  predicate PyEqual(a: Json, b: Json) {
    if Comparable(a) && Comparable(b) then NumberOf(a) == NumberOf(b)
    else
      match a
      case JNull => b.JNull?
      case JStr(s) => b.JStr? && b.s == s
      case JArr(items) => b.JArr? && |b.items| == |items| && forall i :: 0 <= i < |items| ==> PyEqual(items[i], b.items[i])
      case JObj(_, m) => b.JObj? && b.m.Keys == m.Keys && forall k :: k in m ==> k in b.m && PyEqual(m[k], b.m[k])
      case _ => false
  }

  predicate IsSubstring(s: string, t: string) {
    s <= t || (t != [] && IsSubstring(s, t[1..]))
  }

  // What a for loop over the value yields; Raised for a value that is not iterable.
  datatype Iteration = NotIterable | Yields(items: seq<Json>)

  function Characters(s: string): seq<Json> {
    if s == [] then [] else Characters(s[..|s| - 1]) + [JStr([s[|s| - 1]])]
  }

  function KeyList(keys: seq<string>): seq<Json> {
    if keys == [] then [] else KeyList(keys[..|keys| - 1]) + [JStr(keys[|keys| - 1])]
  }

  function Iterate(j: Json): Iteration {
    match j
    case JArr(items) => Yields(items)
    case JStr(s) => Yields(Characters(s))
    case JObj(keys, _) => Yields(KeyList(keys))
    case _ => NotIterable
  }

  // schema.get(key, default)
  function GetOr(j: Json, key: string, default: Json): Json
    requires j.JObj?
  {
    if key in j.m then j.m[key] else default
  }

  // ------------------------------------------------------------------------------
  // Rule 1: FIELD_PRESENCE
  // ------------------------------------------------------------------------------

  function Descends(node: Json, segments: seq<string>): bool {
    segments == [] || (node.JObj? && segments[0] in node.m && Descends(node.m[segments[0]], segments[1..]))
  }

  // _path_present.
  method PathPresent(payload: Json, field: string) returns (present: bool)
    ensures present == Descends(payload, Split(field, '.'))
  {
    var segments := Split(field, '.');
    var node := payload;
    for i := 0 to |segments|
      invariant Descends(node, segments[i..]) == Descends(payload, segments)
    {
      assert segments[i..][1..] == segments[i + 1..];
      if !node.JObj? || segments[i] !in node.m {
        return false;
      }
      node := node.m[segments[i]];
    }
    present := true;
  }

  function PresenceOf(payload: Json, entry: Json): Checked {
    if !entry.JStr? then Raised   // no .split
    else if Descends(payload, Split(entry.s, '.')) then Clean()
    else Breach(entry.s, Missing)
  }

  function PresenceRule(payload: Json): Json -> Checked {
    entry => PresenceOf(payload, entry)
  }

  function FieldPresence(payload: Json, required: Json): Checked {
    match Iterate(required)
    case NotIterable => Raised
    case Yields(items) => ForEach(items, PresenceRule(payload))
  }

  // ------------------------------------------------------------------------------
  // Rules over the declared properties
  // ------------------------------------------------------------------------------

  predicate KnownType(name: string) {
    name in ["string", "number", "integer", "boolean", "object", "array", "null"]
  }

  // _type_matches: a bool is not a number, an unrecognised declaration matches everything.
  predicate TypeMatches(value: Json, declared: Json) {
    match declared
    case JArr(members) => members == [] || exists i :: 0 <= i < |members| && TypeMatches(value, members[i])
    case JStr(name) =>
      if name == "string" then value.JStr?
      else if name == "number" then value.JInt? || value.JFloat?
      else if name == "integer" then value.JInt?
      else if name == "boolean" then value.JBool?
      else if name == "object" then value.JObj?
      else if name == "array" then value.JArr?
      else if name == "null" then value.JNull?
      else true
    case _ => true
  }

  // Somewhere in the declaration the engine declines to judge.
  predicate FallsBack(declared: Json) {
    match declared
    case JArr(members) => members == [] || exists i :: 0 <= i < |members| && FallsBack(members[i])
    case JStr(name) => !KnownType(name)
    case _ => true
  }

  function TypeOf(payload: Json, name: string, spec: Json): Checked
    requires payload.JObj?
  {
    var declared := if spec.JObj? then GetOr(spec, "type", JNull) else spec;
    if name !in payload.m || Falsy(declared) || payload.m[name].JNull? || TypeMatches(payload.m[name], declared) then Clean()
    else Breach(name, WrongType)
  }

  // `value in allowed`
  function Contains(allowed: Json, value: Json): (bool, bool) {   // (raises, answer)
    match allowed
    case JArr(items) => (false, exists i :: 0 <= i < |items| && PyEqual(value, items[i]))
    case JStr(s) => if value.JStr? then (false, IsSubstring(value.s, s)) else (true, false)
    case JObj(_, m) => if value.JArr? || value.JObj? then (true, false) else (false, value.JStr? && value.s in m)
    case _ => (true, false)
  }

  function EnumOf(payload: Json, name: string, spec: Json): Checked
    requires payload.JObj?
  {
    if !spec.JObj? || "enum" !in spec.m || name !in payload.m then Clean()
    else
      var (raises, found) := Contains(spec.m["enum"], payload.m[name]);
      if raises then Raised else if found then Clean() else Breach(name, NotAllowed)
  }

  predicate IsNumber(j: Json) {
    j.JInt? || j.JFloat?
  }

  // spec.get("min", spec.get("minimum")), and the same for the upper bound.
  function LowerBound(spec: Json): Json
    requires spec.JObj?
  {
    GetOr(spec, "min", GetOr(spec, "minimum", JNull))
  }

  function UpperBound(spec: Json): Json
    requires spec.JObj?
  {
    GetOr(spec, "max", GetOr(spec, "maximum", JNull))
  }

  function RangeOf(payload: Json, name: string, spec: Json): Checked
    requires payload.JObj?
  {
    if !spec.JObj? || name !in payload.m || !IsNumber(payload.m[name]) then Clean()
    else
      var value, lower, upper := payload.m[name], LowerBound(spec), UpperBound(spec);
      if !lower.JNull? && !Comparable(lower) then Raised
      else if !lower.JNull? && NumberOf(value) < NumberOf(lower) then Breach(name, BelowMinimum)
      else if !upper.JNull? && !Comparable(upper) then Raised
      else if !upper.JNull? && NumberOf(value) > NumberOf(upper) then Breach(name, AboveMaximum)
      else Clean()
  }

  function Length(j: Json): int {
    match j
    case JStr(s) => |s|
    case JArr(items) => |items|
    case JObj(keys, _) => |keys|
    case _ => -1
  }

  function PatternOf(re: Regex, payload: Json, name: string, spec: Json): Checked
    requires payload.JObj?
  {
    if !spec.JObj? || "pattern" !in spec.m || name !in payload.m || !payload.m[name].JStr? || Falsy(spec.m["pattern"])
    then Clean()
    else
      var pattern, value := spec.m["pattern"], payload.m[name].s;
      if Length(pattern) < 0 then Raised                       // no len()
      else if Length(pattern) > MAX_PATTERN_LENGTH then Breach(name, PatternTooLong)
      else if |value| > MAX_REGEX_VALUE_LENGTH then Breach(name, ValueTooLong)
      else if !pattern.JStr? then Raised                       // unhashable
      else if !re.compiles(pattern.s) then Breach(name, BadPattern)
      else if !re.fullMatch(pattern.s, value) then Breach(name, NoMatch)
      else Clean()
  }

  datatype PropertyRule = TypeMatch | EnumValues | RangeCheck | RegexPattern

  function PropertyOf(re: Regex, rule: PropertyRule, payload: Json, properties: Json, name: string): Checked
    requires payload.JObj? && properties.JObj?
  {
    if name !in properties.m then Clean()
    else
      match rule
      case TypeMatch => TypeOf(payload, name, properties.m[name])
      case EnumValues => EnumOf(payload, name, properties.m[name])
      case RangeCheck => RangeOf(payload, name, properties.m[name])
      case RegexPattern => PatternOf(re, payload, name, properties.m[name])
  }

  function PropertyRuleOf(re: Regex, rule: PropertyRule, payload: Json, properties: Json): string -> Checked
    requires payload.JObj? && properties.JObj?
  {
    name => PropertyOf(re, rule, payload, properties, name)
  }

  // One rule over properties.items(); anything but a dict has no items.
  function OverProperties(re: Regex, rule: PropertyRule, payload: Json, properties: Json): Checked
    requires payload.JObj?
  {
    if !properties.JObj? then Raised
    else ForEach(properties.keys, PropertyRuleOf(re, rule, payload, properties))
  }

  // ------------------------------------------------------------------------------
  // Rule 5: NULL_GUARD
  // ------------------------------------------------------------------------------

  function NullOf(payload: Json, entry: Json): Checked
    requires payload.JObj?
  {
    if entry.JArr? || entry.JObj? then Raised   // unhashable
    else if entry.JStr? && entry.s in payload.m && payload.m[entry.s].JNull? then Breach(entry.s, IsNull)
    else Clean()
  }

  function NullRule(payload: Json): Json -> Checked
    requires payload.JObj?
  {
    entry => NullOf(payload, entry)
  }

  function NullGuard(payload: Json, forbidden: Json): Checked
    requires payload.JObj?
  {
    match Iterate(forbidden)
    case NotIterable => Raised
    case Yields(items) => ForEach(items, NullRule(payload))
  }

  // ------------------------------------------------------------------------------
  // LocalValidator.validate
  // ------------------------------------------------------------------------------

  const NO_FIELDS: Json := JArr([])
  const NO_PROPERTIES: Json := JObj([], map[])

  function Validate(re: Regex, payload: Json, schema: Json): Checked
    requires schema.JObj?
  {
    if !payload.JObj? then Breach("<root>", NotAnObject)
    else
      var properties := GetOr(schema, "properties", NO_PROPERTIES);
      Both(FieldPresence(payload, GetOr(schema, "required", NO_FIELDS)),
      Both(OverProperties(re, TypeMatch, payload, properties),
      Both(OverProperties(re, EnumValues, payload, properties),
      Both(OverProperties(re, RangeCheck, payload, properties),
      Both(NullGuard(payload, GetOr(schema, "null_forbidden", NO_FIELDS)),
           OverProperties(re, RegexPattern, payload, properties))))))
  }

  class LocalValidator {
    const re: Regex

    constructor (re: Regex)
      ensures this.re == re
    {
      this.re := re;
    }

    method RunFieldPresence(payload: Json, required: Json) returns (checked: Checked)
      ensures checked == FieldPresence(payload, required)
    {
      hide Iterate;
      var fields := Iterate(required);
      if fields.NotIterable? {
        return Raised;
      }
      var breaches := [];
      for i := 0 to |fields.items|
        invariant ForEach(fields.items[..i], PresenceRule(payload)) == Breaches(breaches)
      {
        ForEachStuck(fields.items, PresenceRule(payload), i);
        var entry := fields.items[i];
        if !entry.JStr? {
          return Raised;
        }
        var present := PathPresent(payload, entry.s);
        if !present {
          breaches := breaches + [RuleBreach(entry.s, Missing)];
        }
      }
      assert fields.items[..|fields.items|] == fields.items;
      checked := Breaches(breaches);
    }

    method RunOverProperties(rule: PropertyRule, payload: Json, properties: Json) returns (checked: Checked)
      requires payload.JObj?
      ensures checked == OverProperties(re, rule, payload, properties)
    {
      hide PropertyOf;
      if !properties.JObj? {
        return Raised;
      }
      var breaches := [];
      for i := 0 to |properties.keys|
        invariant ForEach(properties.keys[..i], PropertyRuleOf(re, rule, payload, properties)) == Breaches(breaches)
      {
        ForEachStuck(properties.keys, PropertyRuleOf(re, rule, payload, properties), i);
        var entry := PropertyOf(re, rule, payload, properties, properties.keys[i]);
        if entry.Raised? {
          return Raised;
        }
        breaches := breaches + entry.found;
      }
      assert properties.keys[..|properties.keys|] == properties.keys;
      checked := Breaches(breaches);
    }

    method RunNullGuard(payload: Json, forbidden: Json) returns (checked: Checked)
      requires payload.JObj?
      ensures checked == NullGuard(payload, forbidden)
    {
      hide Iterate;
      var fields := Iterate(forbidden);
      if fields.NotIterable? {
        return Raised;
      }
      var breaches := [];
      for i := 0 to |fields.items|
        invariant ForEach(fields.items[..i], NullRule(payload)) == Breaches(breaches)
      {
        ForEachStuck(fields.items, NullRule(payload), i);
        var entry := fields.items[i];
        if entry.JArr? || entry.JObj? {
          return Raised;
        }
        if entry.JStr? && entry.s in payload.m && payload.m[entry.s].JNull? {
          breaches := breaches + [RuleBreach(entry.s, IsNull)];
        }
      }
      assert fields.items[..|fields.items|] == fields.items;
      checked := Breaches(breaches);
    }

    method Run(payload: Json, schema: Json) returns (checked: Checked)
      requires schema.JObj?
      ensures checked == Validate(re, payload, schema)
    {
      hide FieldPresence, OverProperties, NullGuard;
      if !payload.JObj? {
        return Breaches([RuleBreach("<root>", NotAnObject)]);
      }
      var properties := GetOr(schema, "properties", NO_PROPERTIES);
      var presence := RunFieldPresence(payload, GetOr(schema, "required", NO_FIELDS));
      var types := RunOverProperties(TypeMatch, payload, properties);
      var enums := RunOverProperties(EnumValues, payload, properties);
      var ranges := RunOverProperties(RangeCheck, payload, properties);
      var nulls := RunNullGuard(payload, GetOr(schema, "null_forbidden", NO_FIELDS));
      var patterns := RunOverProperties(RegexPattern, payload, properties);
      checked := Both(presence, Both(types, Both(enums, Both(ranges, Both(nulls, patterns)))));
    }
  }

  // The loop's next step, and what an exception in it does to the whole rule.
  lemma ForEachStuck<T>(entries: seq<T>, rule: T -> Checked, i: nat)
    requires i < |entries|
    ensures ForEach(entries[..i + 1], rule) == Both(ForEach(entries[..i], rule), rule(entries[i]))
    ensures ForEach(entries[..i + 1], rule).Raised? ==> ForEach(entries, rule).Raised?
  {
    assert entries[..i + 1][..i] == entries[..i];
    RaisedStays(entries, rule, i + 1);
  }

  lemma {:induction false} RaisedStays<T>(entries: seq<T>, rule: T -> Checked, i: nat)
    requires i <= |entries|
    ensures ForEach(entries[..i], rule).Raised? ==> ForEach(entries, rule).Raised?
    decreases |entries|
  {
    if i == |entries| {
      assert entries[..i] == entries;
    } else {
      assert entries[..|entries| - 1][..i] == entries[..i];
      RaisedStays(entries[..|entries| - 1], rule, i);
    }
  }

  // A rule raises exactly when some entry does, and otherwise reports exactly what its
  // entries report.
  lemma {:induction false} ForEachMeans<T>(entries: seq<T>, rule: T -> Checked)
    ensures ForEach(entries, rule).Raised? <==> exists i :: 0 <= i < |entries| && rule(entries[i]).Raised?
    ensures ForEach(entries, rule).Breaches? ==>
              forall b :: b in ForEach(entries, rule).found <==>
                exists i :: 0 <= i < |entries| && rule(entries[i]).Breaches? && b in rule(entries[i]).found
  {
    if entries != [] {
      var n := |entries| - 1;
      ForEachMeans(entries[..n], rule);
      assert forall i :: 0 <= i < n ==> entries[..n][i] == entries[i];
      var before := ForEach(entries[..n], rule);
      if before.Raised? {
        var i :| 0 <= i < n && rule(entries[..n][i]).Raised?;
        assert rule(entries[i]).Raised?;
      }
    }
  }
}
