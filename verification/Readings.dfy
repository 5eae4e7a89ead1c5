// The lists of schema_vocabulary.py against what the rules of validator.py look at: a
// keyword is on a list exactly when taking it away can change the outcome of a validation.
module Readings {
  import opened Json
  import opened JsonPointer
  import opened PlainContracts
  import opened References
  import opened RuleEngine
  import opened SchemaVocabulary
  import opened AdmissionMeaning
  import opened Coverage
  import opened Faithful

  // The node without one of its keys.
  function Dropped(node: Json, key: string): (r: Json)
    requires node.JObj?
    ensures r.JObj? && key !in r.m
  {
    JObj(Others(node.keys, key), node.m - {key})
  }

  function Others(keys: seq<string>, key: string): seq<string> {
    if keys == [] then []
    else Others(keys[..|keys| - 1], key) + (if keys[|keys| - 1] == key then [] else [keys[|keys| - 1]])
  }

  // The schema with another spec for one of its properties.
  function WithSpec(schema: Json, name: string, spec: Json): Json
    requires schema.JObj? && PropertiesOf(schema).JObj?
  {
    var properties := PropertiesOf(schema);
    schema.(m := schema.m["properties" := properties.(m := properties.m[name := spec])])
  }

  // ------------------------------------------------------------------------------
  // What is not listed is not looked at
  // ------------------------------------------------------------------------------

  lemma UnreadAtTheRoot(re: Regex, payload: Json, schema: Json, key: string)
    requires schema.JObj? && !ReadAtTopLevel(key)
    ensures Validate(re, payload, Dropped(schema, key)) == Validate(re, payload, schema)
  {
    hide OverProperties, FieldPresence, NullGuard;
  }

  lemma {:induction false} SameForEach<T>(entries: seq<T>, rule: T -> Checked, other: T -> Checked)
    requires forall x :: x in entries ==> rule(x) == other(x)
    ensures ForEach(entries, rule) == ForEach(entries, other)
  {
    if entries != [] {
      SameForEach(entries[..|entries| - 1], rule, other);
    }
  }

  lemma UnreadInAProperty(re: Regex, payload: Json, schema: Json, name: string, key: string)
    requires schema.JObj? && PropertiesOf(schema).JObj?
    requires name in PropertiesOf(schema).m && PropertiesOf(schema).m[name].JObj? && !ReadPerProperty(key)
    ensures Validate(re, payload, WithSpec(schema, name, Dropped(PropertiesOf(schema).m[name], key)))
         == Validate(re, payload, schema)
  {
    hide OverProperties, FieldPresence, NullGuard, ReadPerProperty;
    if payload.JObj? {
      var properties := PropertiesOf(schema);
      var other := properties.(m := properties.m[name := Dropped(properties.m[name], key)]);
      forall rule ensures OverProperties(re, rule, payload, properties) == OverProperties(re, rule, payload, other) {
        SameOverProperties(re, rule, payload, properties, name, key);
      }
    }
  }

  lemma SameOverProperties(re: Regex, rule: PropertyRule, payload: Json, properties: Json, name: string, key: string)
    requires payload.JObj? && properties.JObj? && name in properties.m && properties.m[name].JObj? && !ReadPerProperty(key)
    ensures var other := properties.(m := properties.m[name := Dropped(properties.m[name], key)]);
            OverProperties(re, rule, payload, properties) == OverProperties(re, rule, payload, other)
  {
    hide ForEach, TypeOf, EnumOf, RangeOf, PatternOf;
    var other := properties.(m := properties.m[name := Dropped(properties.m[name], key)]);
    SameRules(re, payload, name, properties.m[name], key);
    SameForEach(properties.keys, PropertyRuleOf(re, rule, payload, properties), PropertyRuleOf(re, rule, payload, other));
  }

  lemma SameRules(re: Regex, payload: Json, name: string, spec: Json, key: string)
    requires payload.JObj? && spec.JObj? && !ReadPerProperty(key)
    ensures TypeOf(payload, name, Dropped(spec, key)) == TypeOf(payload, name, spec)
    ensures EnumOf(payload, name, Dropped(spec, key)) == EnumOf(payload, name, spec)
    ensures RangeOf(payload, name, Dropped(spec, key)) == RangeOf(payload, name, spec)
    ensures PatternOf(re, payload, name, Dropped(spec, key)) == PatternOf(re, payload, name, spec)
  {
    hide RuleEngine.TypeMatches, RuleEngine.Contains;
  }

  // ------------------------------------------------------------------------------
  // What is listed is
  // ------------------------------------------------------------------------------

  // Taking the keyword away from some spec of an admissible kind changes some validation.
  ghost predicate MattersInAProperty(key: string) {
    exists re, payload, spec :: ChangesInAProperty(re, payload, spec, key)
  }

  ghost predicate ChangesInAProperty(re: Regex, payload: Json, spec: Json, key: string) {
    && SoundSpec(re, spec)
    && Validate(re, payload, OneProperty("x", spec)) != Validate(re, payload, OneProperty("x", Dropped(spec, key)))
  }

  ghost predicate MattersAtTheRoot(key: string) {
    exists re, payload, schema :: ChangesAtTheRoot(re, payload, schema, key)
  }

  ghost predicate ChangesAtTheRoot(re: Regex, payload: Json, schema: Json, key: string) {
    && schema.JObj? && !ExplicitNull(schema)
    && NamesOrNothing(schema, "required") && NamesOrNothing(schema, "null_forbidden") && SoundProperties(re, schema)
    && Validate(re, payload, schema) != Validate(re, payload, Dropped(schema, key))
  }

  // An engine that compiles everything and matches nothing.
  function Matchless(): Regex {
    Regex(pattern => true, (pattern, s) => false)
  }

  // A value of the field and a declaration it breaks.
  function Forbidden(key: string): (Json, Json) {
    match key
    case "type" => (JInt(0), JStr("string"))
    case "enum" => (JInt(0), JArr([]))
    case "min" => (JInt(0), JInt(1))
    case "minimum" => (JInt(0), JInt(1))
    case "max" => (JInt(1), JInt(0))
    case "maximum" => (JInt(1), JInt(0))
    case _ => (JStr("b"), JStr("a"))
  }

  lemma OneRuleSpeaks(re: Regex, value: Json, spec: Json, rule: PropertyRule)
    requires spec.JObj?
    ensures OverProperties(re, rule, Holding(value), OneKey("x", spec))
         == PropertyOf(re, rule, Holding(value), OneKey("x", spec), "x")
  {
    hide PropertyOf;
    assert ["x"][..0] == [];
    assert ForEach([], PropertyRuleOf(re, rule, Holding(value), OneKey("x", spec))) == Clean();
  }

  lemma CleanTogether(a: Checked, b: Checked)
    ensures Both(a, b) == Clean() <==> a == Clean() && b == Clean()
  {
  }

  lemma SpeaksAtAll(re: Regex, value: Json, spec: Json)
    requires spec.JObj?
    requires exists rule :: PropertyOf(re, rule, Holding(value), OneKey("x", spec), "x") != Clean()
    ensures Validate(re, Holding(value), OneProperty("x", spec)) != Clean()
  {
    hide PropertyOf, OverProperties, FieldPresence, NullGuard, Both;
    forall a, b ensures Both(a, b) == Clean() <==> a == Clean() && b == Clean() {
      CleanTogether(a, b);
    }
    var rule :| PropertyOf(re, rule, Holding(value), OneKey("x", spec), "x") != Clean();
    OneRuleSpeaks(re, value, spec, rule);
    assert GetOr(OneProperty("x", spec), "properties", NO_PROPERTIES) == OneKey("x", spec);
    match rule
    case TypeMatch =>
    case EnumValues =>
    case RangeCheck =>
    case RegexPattern =>
  }

  lemma NothingToSay(re: Regex, value: Json)
    ensures Validate(re, Holding(value), OneProperty("x", JObj([], map[]))) == Clean()
  {
    forall rule ensures OverProperties(re, rule, Holding(value), OneKey("x", JObj([], map[]))) == Clean() {
      OneRuleSpeaks(re, value, JObj([], map[]), rule);
    }
    assert ForEach([], PresenceRule(Holding(value))) == Clean() && ForEach([], NullRule(Holding(value))) == Clean();
  }

  lemma DroppedToNothing(key: string, value: Json)
    ensures Dropped(OneKey(key, value), key) == JObj([], map[])
  {
    assert [key][..0] == [] && Others([], key) == [];
    assert Others([key], key) == [];
    assert map[key := value] - {key} == map[];
  }

  lemma ForbiddenIsReported(key: string)
    requires ReadPerProperty(key)
    ensures var (value, declared) := Forbidden(key);
            && SoundSpec(Matchless(), OneKey(key, declared))
            && exists rule :: PropertyOf(Matchless(), rule, Holding(value), OneKey("x", OneKey(key, declared)), "x") != Clean()
  {
    var (value, declared) := Forbidden(key);
    var rule := if key == "type" then TypeMatch else if key == "enum" then EnumValues
                else if key == "pattern" then RegexPattern else RangeCheck;
    assert PropertyOf(Matchless(), rule, Holding(value), OneKey("x", OneKey(key, declared)), "x") != Clean();
  }

  lemma OnlySpecChanged(name: string, spec: Json, other: Json)
    ensures WithSpec(OneProperty(name, spec), name, other) == OneProperty(name, other)
  {
    assert map[name := spec][name := other] == map[name := other];
    var properties := map["properties" := OneKey(name, spec)];
    assert properties["properties" := OneKey(name, other)] == map["properties" := OneKey(name, other)];
  }

  // The per-property list holds exactly the keywords whose removal from some sound spec
  // changes some validation.
  lemma ReadInAPropertyExactlyWhenItMatters(key: string)
    ensures ReadPerProperty(key) <==> MattersInAProperty(key)
  {
    hide ReadPerProperty, Validate, Dropped;
    if ReadPerProperty(key) {
      var (value, declared) := Forbidden(key);
      ForbiddenIsReported(key);
      SpeaksAtAll(Matchless(), value, OneKey(key, declared));
      DroppedToNothing(key, declared);
      NothingToSay(Matchless(), value);
      assert ChangesInAProperty(Matchless(), Holding(value), OneKey(key, declared), key);
    } else {
      forall re, payload, spec | SoundSpec(re, spec)
        ensures Validate(re, payload, OneProperty("x", spec)) == Validate(re, payload, OneProperty("x", Dropped(spec, key)))
      {
        SpecsAreObjects(re);
        UnreadInAProperty(re, payload, OneProperty("x", spec), "x", key);
        OnlySpecChanged("x", spec, Dropped(spec, key));
      }
    }
  }

  function Demand(key: string): (Json, Json) {
    match key
    case "required" => (JObj([], map[]), OneKey("required", JArr([JStr("x")])))
    case "null_forbidden" => (Holding(JNull), OneKey("null_forbidden", JArr([JStr("x")])))
    case _ => (Holding(JInt(0)), OneProperty("x", OneKey("enum", JArr([]))))
  }

  lemma DemandIsMissed(key: string)
    requires ReadAtTopLevel(key)
    ensures var (payload, schema) := Demand(key);
            Validate(Matchless(), payload, schema) != Clean() && Dropped(schema, key) == JObj([], map[])
  {
    var (payload, schema) := Demand(key);
    DroppedToNothing(key, schema.m[key]);
    if key == "properties" {
      ForbiddenIsReported("enum");
      SpeaksAtAll(Matchless(), JInt(0), OneKey("enum", JArr([])));
    } else {
      hide OverProperties, Split, Descends;
      assert [JStr("x")][..0] == [];
      if key == "required" {
        XIsNotThere();
        assert FieldPresence(payload, JArr([JStr("x")])) == Breach("x", Missing);
      } else {
        assert NullGuard(payload, JArr([JStr("x")])) == Breach("x", IsNull);
      }
    }
  }

  lemma XIsNotThere()
    ensures !Descends(JObj([], map[]), Split("x", '.'))
  {
  }

  lemma DemandIsInOrder(key: string)
    requires ReadAtTopLevel(key)
    ensures var (_, schema) := Demand(key);
            && schema.JObj? && !ExplicitNull(schema) && NamesOrNothing(schema, "required")
            && NamesOrNothing(schema, "null_forbidden") && SoundProperties(Matchless(), schema)
  {
  }

  lemma NoDemand(re: Regex, payload: Json)
    requires payload.JObj?
    ensures Validate(re, payload, JObj([], map[])) == Clean()
  {
    assert ForEach([], PresenceRule(payload)) == Clean() && ForEach([], NullRule(payload)) == Clean();
  }

  // And the top-level list those whose removal from some contract in order does.
  lemma ReadAtTheRootExactlyWhenItMatters(key: string)
    ensures ReadAtTopLevel(key) <==> MattersAtTheRoot(key)
  {
    hide ReadAtTopLevel, Validate, Dropped, ExplicitNull, NamesOrNothing, SoundProperties;
    if ReadAtTopLevel(key) {
      var (payload, schema) := Demand(key);
      DemandIsMissed(key);
      DemandIsInOrder(key);
      NoDemand(Matchless(), payload);
      assert ChangesAtTheRoot(Matchless(), payload, schema, key);
    } else {
      forall re, payload, schema: Json | schema.JObj?
        ensures Validate(re, payload, schema) == Validate(re, payload, Dropped(schema, key))
      {
        UnreadAtTheRoot(re, payload, schema, key);
      }
    }
  }

  // Some value does not match the name: the rule judges it.
  ghost predicate Judged(name: string) {
    exists value :: !RuleEngine.TypeMatches(value, JStr(name))
  }

  // A type name is recognised exactly when some value does not match it: the rule takes
  // whatever it does not recognise for satisfied.
  lemma KnownExactlyWhenJudged(name: string)
    ensures KnownType(name) <==> Judged(name)
  {
    if KnownType(name) {
      var value := if name == "null" then JBool(true) else JNull;
      assert !RuleEngine.TypeMatches(value, JStr(name));
    }
  }

  // A declaration is enforceable exactly when it is a judged name, or a union of at least one
  // name in which every one is judged.
  lemma EnforceableExactly(declared: Json)
    ensures TypeIsEnforceable(declared)
       <==> match declared
            case JStr(name) => Judged(name)
            case JArr(members) => |members| > 0 && forall i :: 0 <= i < |members| ==> members[i].JStr? && Judged(members[i].s)
            case _ => false
  {
    hide KnownType, Judged;
    forall name ensures KnownType(name) <==> Judged(name) {
      KnownExactlyWhenJudged(name);
    }
    if declared.JArr? {
      assert forall m :: m in declared.items <==> exists i :: 0 <= i < |declared.items| && declared.items[i] == m;
    }
  }

  // ------------------------------------------------------------------------------
  // Documentation
  // ------------------------------------------------------------------------------

  // The meta-data annotations of section 9 of JSON Schema Validation 2020-12, and what
  // section 8 of JSON Schema Core 2020-12 uses to identify and to comment on a schema.
  const ANNOTATIONS := ["title", "description", "default", "deprecated", "readOnly", "writeOnly", "examples"]
  const IDENTIFIERS := ["$schema", "$id", "$comment"]

  // The words nobody has to execute are the annotations and identifiers of JSON Schema; none
  // of them is read by a native rule or asserted by the evaluator.
  lemma MetadataAssertsNothing(key: string)
    ensures IsMetadata(key) <==> key in ANNOTATIONS || key in IDENTIFIERS
    ensures IsMetadata(key) ==> key !in SEMANTIC_WORDS && !MattersInAProperty(key) && !MattersAtTheRoot(key)
  {
    hide MattersInAProperty, MattersAtTheRoot;
    ReadInAPropertyExactlyWhenItMatters(key);
    ReadAtTheRootExactlyWhenItMatters(key);
    MetadataIsApart(key);
  }

  lemma MetadataIsApart(key: string)
    ensures IsMetadata(key) <==> key in ANNOTATIONS || key in IDENTIFIERS
    ensures IsMetadata(key) ==> key !in SEMANTIC_WORDS && !ReadPerProperty(key) && !ReadAtTopLevel(key)
  {
    hide ReadPerProperty, ReadAtTopLevel;
    if IsMetadata(key) {
      hide IsMetadata;
      MetadataIsUnread(key);
      MetadataIsUnasserted(key);
    }
  }

  lemma MetadataIsUnread(key: string)
    requires IsMetadata(key)
    ensures !ReadPerProperty(key) && !ReadAtTopLevel(key)
  {
  }

  lemma MetadataIsUnasserted(key: string)
    requires IsMetadata(key)
    ensures key !in SEMANTIC_WORDS
  {
  }

  // The native words of admission are the words the rules read somewhere.
  lemma NativeWordsAreRead(key: string)
    ensures key in NATIVE_WORDS <==> MattersInAProperty(key) || MattersAtTheRoot(key)
  {
    hide MattersInAProperty, MattersAtTheRoot;
    ReadInAPropertyExactlyWhenItMatters(key);
    ReadAtTheRootExactlyWhenItMatters(key);
  }

  // Every keyword admission walks into is a word of the evaluator, or "properties", or one of
  // the two the static list leaves out.
  lemma WalkedWordsAreKnown(k: Keyword)
    ensures Word(k) in SEMANTIC_WORDS || Word(k) in ["properties", "unevaluatedItems", "unevaluatedProperties"]
    ensures forall other: Keyword :: Word(k) == Word(other) ==> k == other
  {
  }
}
