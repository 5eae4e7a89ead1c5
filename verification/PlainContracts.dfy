// Contracts with nothing below their properties, for which the verdict of
// contract_admission.py comes down to the checks of the top level.
module PlainContracts {
  import opened Json
  import opened Collecting
  import opened JsonPointer
  import opened References
  import opened RuleEngine
  import opened SchemaVocabulary
  import opened Admission
  import opened AdmissionMeaning

  const JUDGED_WORDS := ["$ref", "pattern", "patternProperties", "exclusiveMinimum", "exclusiveMaximum", "format"]

  // No clause that is judged at every depth.
  predicate Unjudged(node: Json) {
    node.JObj? && forall word :: word in JUDGED_WORDS ==> word !in node.m
  }

  // No schema in it either.
  ghost predicate Plain(node: Json) {
    Unjudged(node) && forall k: Keyword :: Word(k) !in node.m
  }

  ghost predicate PlainContract(schema: Json) {
    && Unjudged(schema)
    && (forall k: Keyword :: k != Properties ==> Word(k) !in schema.m)
    && (PropertiesOf(schema).JObj? ==>
          forall name :: name in PropertiesOf(schema).m && PropertiesOf(schema).m[name].JObj? ==> Plain(PropertiesOf(schema).m[name]))
  }

  ghost predicate PartOf(schema: Json, node: Json) {
    node == schema || Plain(node)
  }

  lemma OnlySpecsBelow(schema: Json, a: Json, b: Json)
    requires PlainContract(schema) && PartOf(schema, a) && HoldsSchema(a, b)
    ensures PartOf(schema, b)
  {
    hide Unjudged, Plain;
    if a == schema {
      var k, name :| k in SCHEMA_MAP_VALUED && Names(schema, k, name) && schema.m[Word(k)].m[name] == b;
      assert k == Properties;
      assert PropertiesOf(schema).m[name] == b;
    } else {
      NothingInPlain(a, b);
    }
  }

  lemma NothingInPlain(a: Json, b: Json)
    requires Plain(a)
    ensures !HoldsSchema(a, b)
  {
    hide Unjudged;
  }

  lemma UnjudgedIsSound(re: Regex, root: Json, setting: Setting, visit: Visit)
    requires Unjudged(visit.node)
    ensures SoundNode(re, root, setting, visit)
  {
    hide Resolve, NeverEnds, AssertsBound;
    assert "$ref" in JUDGED_WORDS && "pattern" in JUDGED_WORDS && "patternProperties" in JUDGED_WORDS;
    assert "exclusiveMinimum" in JUDGED_WORDS && "exclusiveMaximum" in JUDGED_WORDS && "format" in JUDGED_WORDS;
  }

  // Such a contract is admitted exactly when its lists, its properties and its reported
  // clauses are in order.
  lemma PlainVerdict(re: Regex, schema: Json, setting: Setting)
    requires PlainContract(schema)
    ensures Admit(re, schema, setting).admitted
       <==> && NamesOrNothing(schema, "required") && NamesOrNothing(schema, "null_forbidden")
            && SoundProperties(re, schema) && ReportedAreCovered(schema, setting.enforced)
  {
    hide Admit, WalkSubschemas, SoundNode, HoldsSchema, NamesOrNothing, SoundProperties, ReportedAreCovered;
    AdmittedExactly(re, schema, setting);
    var part := node => PartOf(schema, node);
    forall a, b | part(a) && HoldsSchema(a, b) ensures part(b) {
      OnlySpecsBelow(schema, a, b);
    }
    WalkStaysWithin(schema, ROOT, part);
    forall v | v in WalkSubschemas(schema, ROOT) ensures SoundNode(re, schema, setting, v) {
      UnjudgedIsSound(re, schema, setting, v);
    }
  }

  // The reported clauses are in order whenever all of them are.
  lemma AllCovered(schema: Json, enforced: set<string>)
    requires schema.JObj? && forall path :: path in Findings(schema) ==> Covered(enforced, path)
    ensures ReportedAreCovered(schema, enforced)
  {
    hide Findings, Covered, Listed;
    forall i | 0 <= i < Shown(schema) ensures Covered(enforced, Listed(Findings(schema))[i]) {
      OnlyFindingsAreListed(schema, Listed(Findings(schema))[i]);
    }
  }

  // ------------------------------------------------------------------------------
  // The smallest of them
  // ------------------------------------------------------------------------------

  function OneKey(key: string, value: Json): Json {
    JObj([key], map[key := value])
  }

  function OneProperty(name: string, spec: Json): Json {
    OneKey("properties", OneKey(name, spec))
  }

  lemma OneKeyIsPlain(key: string, value: Json)
    requires key !in JUDGED_WORDS && key != "properties" && forall k: Keyword :: Word(k) != key
    ensures PlainContract(OneKey(key, value))
  {
  }

  lemma OneKeyFindings(key: string, value: Json)
    requires key != "properties"
    ensures Findings(OneKey(key, value)) == TopFinding(OneKey(key, value), key)
  {
    hide TopFinding;
    FlatMapOne(key, TopFindings(OneKey(key, value)));
  }

  lemma OnePropertyIsPlain(name: string, spec: Json)
    requires Plain(spec)
    ensures PlainContract(OneProperty(name, spec))
  {
    hide Plain;
  }

  lemma OnePropertyFindings(name: string, spec: Json)
    requires spec.JObj?
    ensures Findings(OneProperty(name, spec)) == FlatMap(spec.keys, KeyFindings(name, spec))
  {
    hide KeyFindings;
    FlatMapOne("properties", TopFindings(OneProperty(name, spec)));
    FlatMapOne(name, PropertyFindings(OneKey(name, spec)));
  }

  // A contract of one property is admitted when the property is sound and its clauses are
  // covered.
  lemma OnePropertyAdmitted(re: Regex, setting: Setting, name: string, spec: Json)
    requires '.' !in name && Plain(spec) && SoundSpec(re, spec)
    requires forall path :: path in Findings(OneProperty(name, spec)) ==> Covered(setting.enforced, path)
    ensures Admit(re, OneProperty(name, spec), setting).admitted
  {
    hide Admit, Findings, Covered, Plain, SoundSpec;
    OnePropertyIsPlain(name, spec);
    PlainVerdict(re, OneProperty(name, spec), setting);
    AllCovered(OneProperty(name, spec), setting.enforced);
  }

  lemma OneKeyAdmitted(re: Regex, setting: Setting, key: string, value: Json)
    requires key !in JUDGED_WORDS && key != "properties" && forall k: Keyword :: Word(k) != key
    requires (key == "required" || key == "null_forbidden") ==> value.JNull?
    requires forall path :: path in TopFinding(OneKey(key, value), key) ==> Covered(setting.enforced, path)
    ensures Admit(re, OneKey(key, value), setting).admitted
  {
    hide Admit, Findings, Covered, ReportedAreCovered, TopFinding;
    OneKeyIsPlain(key, value);
    OneKeyFindings(key, value);
    PlainVerdict(re, OneKey(key, value), setting);
    AllCovered(OneKey(key, value), setting.enforced);
  }
}
