// Admission makes the native rules faithful: on an admitted contract the rule engine
// reports exactly the violations of a declarative reading of the contract.
module Faithful {
  import opened Json
  import opened Collecting
  import opened Equality
  import opened JsonPointer
  import opened References
  import opened RuleEngine
  import opened SecurityLimits
  import opened SchemaVocabulary
  import opened Admission
  import opened AdmissionMeaning
  import opened PlainContracts

  // ------------------------------------------------------------------------------
  // The declarative reading
  // ------------------------------------------------------------------------------

  // The type names a value answers to; an integer is also a number, a boolean is neither.
  function NamesOf(value: Json): set<string> {
    match value
    case JNull => {"null"}
    case JBool(_) => {"boolean"}
    case JInt(_) => {"integer", "number"}
    case JFloat(_) => {"number"}
    case JStr(_) => {"string"}
    case JArr(_) => {"array"}
    case JObj(_, _) => {"object"}
  }

  // A single name or a union of them.
  ghost predicate Declares(declared: Json, name: string) {
    declared == JStr(name) || (declared.JArr? && JStr(name) in declared.items)
  }

  function KeyPath(segments: seq<string>): seq<PathStep> {
    if segments == [] then [] else [Key(segments[0])] + KeyPath(segments[1..])
  }

  // A dotted name leads to a value, which may be null.
  ghost predicate IsPresent(payload: Json, field: string) {
    NodeAt(payload, KeyPath(Split(field, '.'))).Some?
  }

  ghost predicate ListedUnder(schema: Json, key: string, field: string)
    requires schema.JObj?
  {
    GetOr(schema, key, NO_FIELDS).JArr? && JStr(field) in GetOr(schema, key, NO_FIELDS).items
  }

  ghost predicate WrongValue(re: Regex, value: Json, spec: Json, cause: Cause)
    requires spec.JObj?
  {
    match cause
    case WrongType => "type" in spec.m && !value.JNull? && forall name :: name in NamesOf(value) ==> !Declares(spec.m["type"], name)
    case NotAllowed => "enum" in spec.m && spec.m["enum"].JArr? && forall a :: a in spec.m["enum"].items ==> NormalOf(value) != NormalOf(a)
    case BelowMinimum => Below(value, LeastAllowed(spec))
    case AboveMaximum => !Below(value, LeastAllowed(spec)) && Below(GreatestAllowed(spec), value)
    case ValueTooLong => HasPattern(spec) && value.JStr? && |value.s| > MAX_REGEX_VALUE_LENGTH
    case NoMatch =>
      HasPattern(spec) && value.JStr? && |value.s| <= MAX_REGEX_VALUE_LENGTH && !re.fullMatch(spec.m["pattern"].s, value.s)
    case _ => false
  }

  // Of two numbers; nothing else is below anything.
  predicate Below(a: Json, b: Json) {
    Magnitude(a).Some? && Magnitude(b).Some? && Magnitude(a).value < Magnitude(b).value
  }

  // "min" is looked at first, "minimum" only where there is no "min".
  function LeastAllowed(spec: Json): Json
    requires spec.JObj?
  {
    if "min" in spec.m then spec.m["min"] else if "minimum" in spec.m then spec.m["minimum"] else JNull
  }

  function GreatestAllowed(spec: Json): Json
    requires spec.JObj?
  {
    if "max" in spec.m then spec.m["max"] else if "maximum" in spec.m then spec.m["maximum"] else JNull
  }

  // An empty pattern is no constraint.
  predicate HasPattern(spec: Json)
    requires spec.JObj?
  {
    "pattern" in spec.m && spec.m["pattern"].JStr? && spec.m["pattern"].s != ""
  }

  ghost predicate Violates(re: Regex, payload: Json, schema: Json, breach: RuleBreach)
    requires payload.JObj? && schema.JObj?
  {
    match breach.cause
    case Missing => ListedUnder(schema, "required", breach.field) && !IsPresent(payload, breach.field)
    case IsNull =>
      ListedUnder(schema, "null_forbidden", breach.field) && breach.field in payload.m && payload.m[breach.field].JNull?
    case cause =>
      var properties := GetOr(schema, "properties", NO_PROPERTIES);
      && properties.JObj? && breach.field in properties.keys && breach.field in payload.m
      && breach.field in properties.m && properties.m[breach.field].JObj?
      && WrongValue(re, payload.m[breach.field], properties.m[breach.field], cause)
  }

  // `required`, `null_forbidden` and `properties` may be left out, but not spelled null.
  predicate ExplicitNull(schema: Json)
    requires schema.JObj?
  {
    || ("properties" in schema.m && schema.m["properties"].JNull?)
    || ("required" in schema.m && schema.m["required"].JNull?)
    || ("null_forbidden" in schema.m && schema.m["null_forbidden"].JNull?)
  }

  // ------------------------------------------------------------------------------
  // Entry by entry
  // ------------------------------------------------------------------------------

  lemma {:induction false} DescendsIsNodeAt(node: Json, segments: seq<string>)
    ensures Descends(node, segments) <==> NodeAt(node, KeyPath(segments)).Some?
  {
    if segments != [] {
      assert KeyPath(segments)[1..] == KeyPath(segments[1..]);
      if node.JObj? && segments[0] in node.m {
        DescendsIsNodeAt(node.m[segments[0]], segments[1..]);
      }
    }
  }

  lemma NameMatches(value: Json, name: string)
    requires KnownType(name)
    ensures TypeMatches(value, JStr(name)) <==> name in NamesOf(value)
  {
  }

  lemma MatchesByName(value: Json, declared: Json)
    requires TypeIsEnforceable(declared)
    ensures TypeMatches(value, declared) <==> exists name :: name in NamesOf(value) && Declares(declared, name)
  {
    hide NamesOf, KnownType;
    match declared
    case JStr(name) =>
      NameMatches(value, name);
      assert Declares(declared, name);
    case JArr(members) =>
      UnionMatches(value, members);
  }

  lemma UnionMatches(value: Json, members: seq<Json>)
    requires TypeIsEnforceable(JArr(members))
    ensures TypeMatches(value, JArr(members)) <==> exists name :: name in NamesOf(value) && Declares(JArr(members), name)
  {
    hide NamesOf, KnownType;
    forall i | 0 <= i < |members|
      ensures members[i].JStr? && (TypeMatches(value, members[i]) <==> members[i].s in NamesOf(value))
    {
      assert members[i] in members;
      NameMatches(value, members[i].s);
    }
    if name :| name in NamesOf(value) && Declares(JArr(members), name) {
      var i :| 0 <= i < |members| && members[i] == JStr(name);
      assert TypeMatches(value, members[i]);
    }
    if i :| 0 <= i < |members| && TypeMatches(value, members[i]) {
      assert Declares(JArr(members), members[i].s);
    }
  }

  ghost function CausesOf(rule: PropertyRule): set<Cause> {
    match rule
    case TypeMatch => {WrongType}
    case EnumValues => {NotAllowed}
    case RangeCheck => {BelowMinimum, AboveMaximum}
    case RegexPattern => {ValueTooLong, NoMatch}
  }

  ghost predicate Exactly(re: Regex, rule: PropertyRule, payload: Json, name: string, spec: Json, checked: Checked)
    requires payload.JObj? && spec.JObj?
  {
    checked.Breaches? &&
    forall b :: b in checked.found <==>
      b.field == name && b.cause in CausesOf(rule) && name in payload.m && WrongValue(re, payload.m[name], spec, b.cause)
  }

  lemma TypeExact(re: Regex, payload: Json, name: string, spec: Json)
    requires payload.JObj? && SoundSpec(re, spec)
    ensures Exactly(re, TypeMatch, payload, name, spec, TypeOf(payload, name, spec))
  {
    if name in payload.m && "type" in spec.m {
      hide TypeMatches;
      MatchesByName(payload.m[name], spec.m["type"]);
    }
  }

  lemma EnumExact(re: Regex, payload: Json, name: string, spec: Json)
    requires payload.JObj? && SoundSpec(re, spec)
    ensures Exactly(re, EnumValues, payload, name, spec, EnumOf(payload, name, spec))
  {
    hide PyEqual, NormalOf;
    if "enum" in spec.m {
      var items := spec.m["enum"].items;
      forall a ensures name in payload.m ==> (PyEqual(payload.m[name], a) <==> NormalOf(payload.m[name]) == NormalOf(a)) {
        if name in payload.m {
          EqualExactlyWhenSameNormal(payload.m[name], a);
        }
      }
      assert forall a :: a in items <==> exists i :: 0 <= i < |items| && items[i] == a;
    }
  }

  lemma RangeExact(re: Regex, payload: Json, name: string, spec: Json)
    requires payload.JObj? && SoundSpec(re, spec)
    ensures Exactly(re, RangeCheck, payload, name, spec, RangeOf(payload, name, spec))
  {
    assert "min" in BOUNDS && "max" in BOUNDS && "minimum" in BOUNDS && "maximum" in BOUNDS;
  }

  lemma PatternExact(re: Regex, payload: Json, name: string, spec: Json)
    requires payload.JObj? && SoundSpec(re, spec)
    ensures Exactly(re, RegexPattern, payload, name, spec, PatternOf(re, payload, name, spec))
  {
  }

  lemma PropertyExact(re: Regex, rule: PropertyRule, payload: Json, properties: Json, name: string)
    requires payload.JObj? && properties.JObj? && name in properties.m && SoundSpec(re, properties.m[name])
    ensures Exactly(re, rule, payload, name, properties.m[name], PropertyOf(re, rule, payload, properties, name))
  {
    hide Exactly, SoundSpec, TypeOf, EnumOf, RangeOf, PatternOf;
    match rule
    case TypeMatch => TypeExact(re, payload, name, properties.m[name]);
    case EnumValues => EnumExact(re, payload, name, properties.m[name]);
    case RangeCheck => RangeExact(re, payload, name, properties.m[name]);
    case RegexPattern => PatternExact(re, payload, name, properties.m[name]);
  }

  // ------------------------------------------------------------------------------
  // Rule by rule
  // ------------------------------------------------------------------------------

  ghost predicate Finds(re: Regex, payload: Json, schema: Json, causes: set<Cause>, checked: Checked)
    requires payload.JObj? && schema.JObj?
  {
    checked.Breaches? && forall b :: b in checked.found <==> b.cause in causes && Violates(re, payload, schema, b)
  }

  lemma PresenceFinds(re: Regex, payload: Json, schema: Json)
    requires payload.JObj? && schema.JObj? && NamesOrNothing(schema, "required") && !ExplicitNull(schema)
    ensures Finds(re, payload, schema, {Missing}, FieldPresence(payload, GetOr(schema, "required", NO_FIELDS)))
  {
    hide Split, Descends, NodeAt, WrongValue;
    var items := GetOr(schema, "required", NO_FIELDS).items;
    ForEachMeans(items, PresenceRule(payload));
    forall i | 0 <= i < |items| ensures items[i].JStr? {
      assert items[i] in items;
    }
    forall field: string ensures Descends(payload, Split(field, '.')) <==> IsPresent(payload, field) {
      DescendsIsNodeAt(payload, Split(field, '.'));
    }
    forall b ensures (exists i :: 0 <= i < |items| && PresenceRule(payload)(items[i]).Breaches? && b in PresenceRule(payload)(items[i]).found)
                <==> b.cause == Missing && Violates(re, payload, schema, b) {
      if b.cause == Missing && Violates(re, payload, schema, b) {
        var i :| 0 <= i < |items| && items[i] == JStr(b.field);
        assert b in PresenceRule(payload)(items[i]).found;
      }
    }
  }

  lemma NullsFind(re: Regex, payload: Json, schema: Json)
    requires payload.JObj? && schema.JObj? && NamesOrNothing(schema, "null_forbidden") && !ExplicitNull(schema)
    ensures Finds(re, payload, schema, {IsNull}, NullGuard(payload, GetOr(schema, "null_forbidden", NO_FIELDS)))
  {
    hide WrongValue;
    var items := GetOr(schema, "null_forbidden", NO_FIELDS).items;
    ForEachMeans(items, NullRule(payload));
    forall i | 0 <= i < |items| ensures items[i].JStr? {
      assert items[i] in items;
    }
    forall b ensures (exists i :: 0 <= i < |items| && NullRule(payload)(items[i]).Breaches? && b in NullRule(payload)(items[i]).found)
                <==> b.cause == IsNull && Violates(re, payload, schema, b) {
      if b.cause == IsNull && Violates(re, payload, schema, b) {
        var i :| 0 <= i < |items| && items[i] == JStr(b.field);
        assert b in NullRule(payload)(items[i]).found;
      }
    }
  }

  lemma PropertiesFind(re: Regex, rule: PropertyRule, payload: Json, schema: Json)
    requires payload.JObj? && schema.JObj? && SoundProperties(re, schema) && !ExplicitNull(schema)
    ensures Finds(re, payload, schema, CausesOf(rule), OverProperties(re, rule, payload, GetOr(schema, "properties", NO_PROPERTIES)))
  {
    hide PropertyOf, WrongValue, SoundSpec;
    var properties := GetOr(schema, "properties", NO_PROPERTIES);
    var names, check := properties.keys, PropertyRuleOf(re, rule, payload, properties);
    ForEachMeans(names, check);
    SpecsAreObjects(re);
    forall i | 0 <= i < |names|
      ensures names[i] in properties.m && properties.m[names[i]].JObj?
      ensures Exactly(re, rule, payload, names[i], properties.m[names[i]], check(names[i]))
    {
      assert names[i] in names;
      PropertyExact(re, rule, payload, properties, names[i]);
    }
    forall b ensures (exists i :: 0 <= i < |names| && check(names[i]).Breaches? && b in check(names[i]).found)
                <==> b.cause in CausesOf(rule) && Violates(re, payload, schema, b) {
      if b.cause in CausesOf(rule) && Violates(re, payload, schema, b) {
        var i :| 0 <= i < |names| && names[i] == b.field;
        assert b in check(names[i]).found;
      }
    }
  }

  lemma BothFind(re: Regex, payload: Json, schema: Json, a: Checked, someCauses: set<Cause>, b: Checked, otherCauses: set<Cause>)
    requires payload.JObj? && schema.JObj?
    requires Finds(re, payload, schema, someCauses, a) && Finds(re, payload, schema, otherCauses, b)
    ensures Finds(re, payload, schema, someCauses + otherCauses, Both(a, b))
  {
    hide Violates;
  }

  // ------------------------------------------------------------------------------
  // The main results
  // ------------------------------------------------------------------------------

  // On any object payload an admitted contract raises exactly when one of its three
  // top-level keys is spelled null.
  lemma RaisesExactlyOnExplicitNull(re: Regex, payload: Json, schema: Json, setting: Setting)
    requires Admit(re, schema, setting).admitted && schema.JObj? && payload.JObj?
    ensures Validate(re, payload, schema).Raised? <==> ExplicitNull(schema)
  {
    hide Admit, Validate, ExplicitNull, Violates;
    if ExplicitNull(schema) {
      ExplicitNullRaises(re, payload, schema);
    } else {
      ReportsExactlyTheViolations(re, payload, schema, setting);
    }
  }

  lemma ExplicitNullRaises(re: Regex, payload: Json, schema: Json)
    requires schema.JObj? && payload.JObj? && ExplicitNull(schema)
    ensures Validate(re, payload, schema).Raised?
  {
    hide ForEach;
  }

  // Otherwise the breaches reported are exactly the violations: none is missed, none is
  // invented, and none is the contract's own fault.
  lemma ReportsExactlyTheViolations(re: Regex, payload: Json, schema: Json, setting: Setting)
    requires Admit(re, schema, setting).admitted && schema.JObj? && payload.JObj? && !ExplicitNull(schema)
    ensures var checked := Validate(re, payload, schema);
            && checked.Breaches?
            && (forall b :: b in checked.found <==> Violates(re, payload, schema, b))
            && (checked == Clean() <==> forall b :: !Violates(re, payload, schema, b))
            && (forall b :: b in checked.found ==> b.cause != BadPattern && b.cause != PatternTooLong)
  {
    hide Admit, FieldPresence, OverProperties, NullGuard, Violates, NamesOrNothing, SoundProperties, ExplicitNull;
    AdmittedExactly(re, schema, setting);
    AllRulesFind(re, payload, schema);
    forall b | Violates(re, payload, schema, b) ensures b.cause in ALL_CAUSES {
      OnlyTheseCauses(re, payload, schema, b);
    }
    var found := Validate(re, payload, schema).found;
    assert found != [] ==> found[0] in found;
  }

  ghost const ALL_CAUSES: set<Cause> :=
    {Missing, WrongType, NotAllowed, BelowMinimum, AboveMaximum, IsNull, ValueTooLong, NoMatch}

  lemma OnlyTheseCauses(re: Regex, payload: Json, schema: Json, b: RuleBreach)
    requires payload.JObj? && schema.JObj? && Violates(re, payload, schema, b)
    ensures b.cause in ALL_CAUSES
  {
  }

  lemma AllRulesFind(re: Regex, payload: Json, schema: Json)
    requires payload.JObj? && schema.JObj? && !ExplicitNull(schema)
    requires NamesOrNothing(schema, "required") && NamesOrNothing(schema, "null_forbidden") && SoundProperties(re, schema)
    ensures Finds(re, payload, schema, ALL_CAUSES, Validate(re, payload, schema))
  {
    hide Finds, FieldPresence, OverProperties, NullGuard, Both, NamesOrNothing, SoundProperties, ExplicitNull;
    var properties := GetOr(schema, "properties", NO_PROPERTIES);
    PresenceFinds(re, payload, schema);
    PropertiesFind(re, TypeMatch, payload, schema);
    PropertiesFind(re, EnumValues, payload, schema);
    PropertiesFind(re, RangeCheck, payload, schema);
    NullsFind(re, payload, schema);
    PropertiesFind(re, RegexPattern, payload, schema);
    var six := OverProperties(re, RegexPattern, payload, properties);
    var five := Both(NullGuard(payload, GetOr(schema, "null_forbidden", NO_FIELDS)), six);
    var four := Both(OverProperties(re, RangeCheck, payload, properties), five);
    var three := Both(OverProperties(re, EnumValues, payload, properties), four);
    var two := Both(OverProperties(re, TypeMatch, payload, properties), three);
    BothFind(re, payload, schema, NullGuard(payload, GetOr(schema, "null_forbidden", NO_FIELDS)), {IsNull}, six, {ValueTooLong, NoMatch});
    BothFind(re, payload, schema, OverProperties(re, RangeCheck, payload, properties), CausesOf(RangeCheck),
             five, {IsNull} + CausesOf(RegexPattern));
    BothFind(re, payload, schema, OverProperties(re, EnumValues, payload, properties), CausesOf(EnumValues),
             four, CausesOf(RangeCheck) + ({IsNull} + CausesOf(RegexPattern)));
    BothFind(re, payload, schema, OverProperties(re, TypeMatch, payload, properties), CausesOf(TypeMatch),
             three, CausesOf(EnumValues) + (CausesOf(RangeCheck) + ({IsNull} + CausesOf(RegexPattern))));
    var rest := CausesOf(TypeMatch) + (CausesOf(EnumValues) + (CausesOf(RangeCheck) + ({IsNull} + CausesOf(RegexPattern))));
    BothFind(re, payload, schema, FieldPresence(payload, GetOr(schema, "required", NO_FIELDS)), {Missing}, two, rest);
    assert {Missing} + rest == ALL_CAUSES;
  }

  // Such a contract can indeed be admitted, for each of the three keys and whatever the
  // evaluators enforce.
  lemma ExplicitNullIsAdmitted(re: Regex, setting: Setting, key: string)
    requires key == "properties" || key == "required" || key == "null_forbidden"
    ensures var schema := OneKey(key, JNull);
            Admit(re, schema, setting).admitted && WellFormed(schema) && ExplicitNull(schema)
  {
    hide Admit;
    if key == "properties" {
      NullPropertiesAdmitted(re, setting);
    } else {
      OneKeyAdmitted(re, setting, key, JNull);
    }
  }

  lemma NullPropertiesAdmitted(re: Regex, setting: Setting)
    ensures Admit(re, OneKey("properties", JNull), setting).admitted
  {
    hide Admit, Covered, Listed;
    var schema := OneKey("properties", JNull);
    PlainVerdict(re, schema, setting);
    assert Findings(schema) == [] by {
      assert ["properties"][..0] == [];
      assert TopFinding(schema, "properties") == [];
    }
    AllCovered(schema, setting.enforced);
  }

  // No declared type of an admitted contract is one the engine declines to judge.
  lemma NoTypeFallsBack(re: Regex, schema: Json, setting: Setting, name: string)
    requires Admit(re, schema, setting).admitted && schema.JObj?
    requires PropertiesOf(schema).JObj? && name in PropertiesOf(schema).keys
    ensures name in PropertiesOf(schema).m && PropertiesOf(schema).m[name].JObj?
    ensures "type" in PropertiesOf(schema).m[name].m ==> !FallsBack(PropertiesOf(schema).m[name].m["type"])
  {
    hide Admit, FallsBack;
    AdmittedExactly(re, schema, setting);
    var spec := PropertiesOf(schema).m[name];
    if "type" in spec.m {
      EnforceableNeverFallsBack(spec.m["type"]);
    }
  }

  // ------------------------------------------------------------------------------
  // Bounds that are admitted but not enforced
  // ------------------------------------------------------------------------------

  // The range rule passes no value below the declared minimum.
  ghost predicate MinimumIsEnforced(spec: Json)
    requires spec.JObj? && "minimum" in spec.m
  {
    forall value :: RangeOf(Holding(value), "x", spec) == Clean() ==> !Below(value, spec.m["minimum"])
  }

  ghost predicate MaximumIsEnforced(spec: Json)
    requires spec.JObj? && "maximum" in spec.m
  {
    forall value :: RangeOf(Holding(value), "x", spec) == Clean() ==> !Below(spec.m["maximum"], value)
  }

  // The rule reads "min" before "minimum": a weaker "min" stands beside it, and the upper
  // bound does not shut out every value from there on.
  predicate MinimumIsShadowed(spec: Json)
    requires spec.JObj?
  {
    && "minimum" in spec.m && "min" in spec.m
    && Below(spec.m["min"], spec.m["minimum"]) && !Below(GreatestAllowed(spec), spec.m["min"])
  }

  predicate MaximumIsShadowed(spec: Json)
    requires spec.JObj?
  {
    && "maximum" in spec.m && "max" in spec.m
    && Below(spec.m["maximum"], spec.m["max"]) && !Below(spec.m["max"], LeastAllowed(spec))
  }

  // A sound spec has its declared minimum enforced exactly when it is not shadowed.
  lemma MinimumEnforcedExactlyWhen(re: Regex, spec: Json)
    requires SoundSpec(re, spec) && "minimum" in spec.m
    ensures MinimumIsEnforced(spec) <==> !MinimumIsShadowed(spec)
  {
    assert "min" in BOUNDS && "max" in BOUNDS && "minimum" in BOUNDS && "maximum" in BOUNDS;
    if MinimumIsShadowed(spec) {
      assert RangeOf(Holding(spec.m["min"]), "x", spec) == Clean();
    }
  }

  // The twin for the upper bound.
  lemma MaximumEnforcedExactlyWhen(re: Regex, spec: Json)
    requires SoundSpec(re, spec) && "maximum" in spec.m
    ensures MaximumIsEnforced(spec) <==> !MaximumIsShadowed(spec)
  {
    assert "min" in BOUNDS && "max" in BOUNDS && "minimum" in BOUNDS && "maximum" in BOUNDS;
    if MaximumIsShadowed(spec) {
      assert RangeOf(Holding(spec.m["max"]), "x", spec) == Clean();
    }
  }

  function Holding(value: Json): Json {
    OneKey("x", value)
  }

  function TwoBounds(first: string, a: int, second: string, b: int): Json {
    JObj([first, second], map[first := JInt(a), second := JInt(b)])
  }

  // Whole contracts: {"properties": {"x": {"min": a, "minimum": b}}} is admitted whatever
  // the evaluators enforce, and the rules pass any x from a up to b, below its minimum.
  lemma MinBesideMinimumPasses(re: Regex, setting: Setting, a: int, b: int, value: int)
    requires a <= value < b
    ensures var spec := TwoBounds("min", a, "minimum", b);
            && Admit(re, OneProperty("x", spec), setting).admitted
            && Below(JInt(value), spec.m["minimum"])
            && Validate(re, Holding(JInt(value)), OneProperty("x", spec)) == Clean()
  {
    hide Admit, Validate;
    TwoBoundsAdmitted(re, setting, "min", a, "minimum", b);
    OnlyTheRangeRule(re, TwoBounds("min", a, "minimum", b), value);
  }

  // And {"properties": {"x": {"max": b, "maximum": a}}} passes any x from above a up to b.
  lemma MaxBesideMaximumPasses(re: Regex, setting: Setting, a: int, b: int, value: int)
    requires a < value <= b
    ensures var spec := TwoBounds("max", b, "maximum", a);
            && Admit(re, OneProperty("x", spec), setting).admitted
            && Below(spec.m["maximum"], JInt(value))
            && Validate(re, Holding(JInt(value)), OneProperty("x", spec)) == Clean()
  {
    hide Admit, Validate;
    TwoBoundsAdmitted(re, setting, "max", b, "maximum", a);
    OnlyTheRangeRule(re, TwoBounds("max", b, "maximum", a), value);
  }

  lemma TwoBoundsAdmitted(re: Regex, setting: Setting, first: string, a: int, second: string, b: int)
    requires first in BOUNDS && second in BOUNDS && first != second
    ensures Admit(re, OneProperty("x", TwoBounds(first, a, second, b)), setting).admitted
  {
    hide Admit, Covered, Plain, SoundSpec, Findings;
    TwoBoundsPlain(re, first, a, second, b);
    TwoBoundsRead(first, a, second, b);
    OnePropertyAdmitted(re, setting, "x", TwoBounds(first, a, second, b));
  }

  lemma TwoBoundsPlain(re: Regex, first: string, a: int, second: string, b: int)
    requires first in BOUNDS && second in BOUNDS && first != second
    ensures Plain(TwoBounds(first, a, second, b)) && SoundSpec(re, TwoBounds(first, a, second, b))
  {
    forall k: Keyword ensures Word(k) !in BOUNDS {
    }
    forall word | word in JUDGED_WORDS ensures word !in BOUNDS {
    }
    assert "type" !in BOUNDS && "pattern" !in BOUNDS && "enum" !in BOUNDS;
  }

  lemma BoundIsRead(spec: Json, key: string)
    requires spec.JObj? && key in BOUNDS
    ensures KeyFinding("x", spec, key) == []
  {
  }

  lemma TwoBoundsRead(first: string, a: int, second: string, b: int)
    requires first in BOUNDS && second in BOUNDS && first != second
    ensures Findings(OneProperty("x", TwoBounds(first, a, second, b))) == []
  {
    hide Findings, KeyFinding, FlatMap;
    var spec := TwoBounds(first, a, second, b);
    OnePropertyFindings("x", spec);
    BoundIsRead(spec, first);
    BoundIsRead(spec, second);
    NothingCollected([first, second], KeyFindings("x", spec));
  }

  // A payload of one number, under a contract of one property that has only bounds.
  lemma OnlyTheRangeRule(re: Regex, spec: Json, value: int)
    requires spec.JObj? && "type" !in spec.m && "enum" !in spec.m && "pattern" !in spec.m
    requires RangeOf(Holding(JInt(value)), "x", spec) == Clean()
    ensures Validate(re, Holding(JInt(value)), OneProperty("x", spec)) == Clean()
  {
    hide RangeOf;
    var payload, properties := Holding(JInt(value)), OneKey("x", spec);
    forall rule ensures OverProperties(re, rule, payload, properties) == Clean() {
      assert PropertyOf(re, rule, payload, properties, "x") == Clean();
      assert ["x"][..0] == [];
    }
    assert ForEach([], PresenceRule(payload)) == Clean() && ForEach([], NullRule(payload)) == Clean();
  }
}
