// schema_vocabulary.py: which clauses of a contract the native rules read, and the
// scanner that lists the ones they do not.
module SchemaVocabulary {
  import opened Json
  import opened Sorting
  import opened Collecting
  import opened JsonPointer
  import opened Decimal
  import opened RuleEngine

  const ROOT := "<root>"
  const MAX_REPORTED := 20

  predicate ReadAtTopLevel(key: string) {
    key in ["properties", "required", "null_forbidden"]
  }

  predicate ReadPerProperty(key: string) {
    key in ["type", "enum", "min", "max", "minimum", "maximum", "pattern"]
  }

  predicate IsMetadata(key: string) {
    key in ["description", "title", "default", "examples", "$comment", "deprecated",
            "readOnly", "writeOnly", "$schema", "$id"]
  }

  // What the JSON Schema evaluator asserts when nothing more is known of it than that it is on.
  const SEMANTIC_WORDS: set<string> :=
    {"minLength", "maxLength", "exclusiveMinimum", "exclusiveMaximum", "multipleOf",
     "items", "prefixItems", "minItems", "maxItems", "uniqueItems", "contains", "minContains", "maxContains",
     "additionalProperties", "minProperties", "maxProperties", "patternProperties", "propertyNames",
     "dependentRequired", "dependentSchemas", "allOf", "anyOf", "oneOf", "not", "if", "then", "else", "const",
     "$ref", "$defs", "definitions"}

  // _type_is_enforceable.
  predicate TypeIsEnforceable(declared: Json) {
    match declared
    case JArr(members) => members != [] && forall m :: m in members ==> m.JStr? && KnownType(m.s)
    case JStr(name) => KnownType(name)
    case _ => false
  }

  // The engine never falls back on a type the vocabulary calls enforceable.
  lemma EnforceableNeverFallsBack(declared: Json)
    ensures TypeIsEnforceable(declared) ==> !FallsBack(declared)
  {
    if declared.JArr? && TypeIsEnforceable(declared) {
      forall i | 0 <= i < |declared.items| ensures !FallsBack(declared.items[i]) {
        assert declared.items[i] in declared.items;
      }
    }
  }

  function TopFinding(schema: Json, key: string): seq<string>
    requires schema.JObj?
  {
    if ReadAtTopLevel(key) || IsMetadata(key) then []
    else if key == "type" && key in schema.m && schema.m[key] == JStr("object") then []
    else [ROOT + "." + key]
  }

  function TopFindings(schema: Json): string -> seq<string>
    requires schema.JObj?
  {
    key => TopFinding(schema, key)
  }

  function KeyFinding(name: string, spec: Json, key: string): seq<string>
    requires spec.JObj?
  {
    if IsMetadata(key) then []
    else if key == "type" then (if key in spec.m && TypeIsEnforceable(spec.m[key]) then [] else [name + ".type"])
    else if ReadPerProperty(key) then []
    else [name + "." + key]
  }

  function KeyFindings(name: string, spec: Json): string -> seq<string>
    requires spec.JObj?
  {
    key => KeyFinding(name, spec, key)
  }

  function PropertyFinding(properties: Json, name: string): seq<string>
    requires properties.JObj?
  {
    if name !in properties.m || !properties.m[name].JObj? then []
    else FlatMap(properties.m[name].keys, KeyFindings(name, properties.m[name]))
  }

  function PropertyFindings(properties: Json): string -> seq<string>
    requires properties.JObj?
  {
    name => PropertyFinding(properties, name)
  }

  function PropertiesOf(schema: Json): Json
    requires schema.JObj?
  {
    GetOr(schema, "properties", JNull)
  }

  // Every clause the native rules do not read, as "field.keyword".
  function Findings(schema: Json): seq<string>
    requires schema.JObj?
  {
    FlatMap(schema.keys, TopFindings(schema))
    + (if PropertiesOf(schema).JObj? then FlatMap(PropertiesOf(schema).keys, PropertyFindings(PropertiesOf(schema))) else [])
  }

  function Listed(findings: seq<string>): seq<string> {
    Sort(Distinct(findings), StringLeq)
  }

  // The first MAX_REPORTED of them and a marker for the rest.
  function Capped(unique: seq<string>): seq<string> {
    if |unique| > MAX_REPORTED
    then unique[..MAX_REPORTED] + ["... (+" + NatText(|unique| - MAX_REPORTED) + " more)"]
    else unique
  }

  function UnenforcedKeywords(schema: Json): seq<string> {
    if schema.JObj? then Capped(Listed(Findings(schema))) else []
  }

  method FindUnenforcedKeywords(schema: Json) returns (paths: seq<string>)
    ensures paths == UnenforcedKeywords(schema)
  {
    hide TopFinding, KeyFinding;
    if !schema.JObj? {
      return [];
    }
    var findings := [];
    for i := 0 to |schema.keys|
      invariant findings == FlatMap(schema.keys[..i], TopFindings(schema))
    {
      FlatMapStep(schema.keys, TopFindings(schema), i);
      findings := findings + TopFinding(schema, schema.keys[i]);
    }
    assert schema.keys[..|schema.keys|] == schema.keys;
    var properties := PropertiesOf(schema);
    if properties.JObj? {
      ghost var top := findings;
      for i := 0 to |properties.keys|
        invariant findings == top + FlatMap(properties.keys[..i], PropertyFindings(properties))
      {
        FlatMapStep(properties.keys, PropertyFindings(properties), i);
        var found := ScanProperty(properties, properties.keys[i]);
        findings := findings + found;
      }
      assert properties.keys[..|properties.keys|] == properties.keys;
    }
    assert findings == Findings(schema);
    var unique := Sort(Distinct(findings), StringLeq);
    if |unique| > MAX_REPORTED {
      var extra := |unique| - MAX_REPORTED;
      unique := unique[..MAX_REPORTED] + ["... (+" + NatText(extra) + " more)"];
    }
    paths := unique;
  }

  method ScanProperty(properties: Json, name: string) returns (findings: seq<string>)
    requires properties.JObj?
    ensures findings == PropertyFinding(properties, name)
  {
    hide KeyFinding;
    findings := [];
    if name in properties.m && properties.m[name].JObj? {
      var spec := properties.m[name];
      for i := 0 to |spec.keys|
        invariant findings == FlatMap(spec.keys[..i], KeyFindings(name, spec))
      {
        FlatMapStep(spec.keys, KeyFindings(name, spec), i);
        findings := findings + KeyFinding(name, spec, spec.keys[i]);
      }
      assert spec.keys[..|spec.keys|] == spec.keys;
    }
  }

  // Only the cap hides a clause: an unread path that is not reported has MAX_REPORTED
  // reported ones sorted before it.
  lemma OnlyTheCapHides(schema: Json, path: string)
    requires schema.JObj? && path in Findings(schema)
    ensures path !in Listed(Findings(schema))[..Shown(schema)] ==>
              Shown(schema) == MAX_REPORTED
              && forall i :: 0 <= i < Shown(schema) ==> StringLeq(Listed(Findings(schema))[i], path)
  {
    hide StringLeq, Findings;
    var findings := Findings(schema);
    StringOrder();
    SortSorts(Distinct(findings), StringLeq);
    SortMembers(Distinct(findings), StringLeq);
    DistinctIs(findings);
    var all := Listed(findings);
    var at :| 0 <= at < |all| && all[at] == path;
    if at < Shown(schema) {
      assert all[..Shown(schema)][at] == path;
    }
  }

  // The list names every finding once, in code point order, up to the cap; past it one more
  // line says how many are left out.
  lemma ListedExactly(schema: Json)
    requires schema.JObj?
    ensures var all, shown := Listed(Findings(schema)), UnenforcedKeywords(schema);
            && (forall path :: path in all <==> path in Findings(schema))
            && (forall i, j :: 0 <= i < j < |all| ==> all[i] != all[j] && StringLeq(all[i], all[j]))
            && (if |all| <= 20 then shown == all
                else shown == all[..20] + ["... (+" + NatText(|all| - 20) + " more)"])
  {
    hide StringLeq, Findings, Sort, Distinct;
    var findings := Findings(schema);
    StringOrder();
    SortSorts(Distinct(findings), StringLeq);
    SortMembers(Distinct(findings), StringLeq);
    DistinctIs(findings);
    StillDistinct(Listed(findings), Distinct(findings));
  }

  // Nothing is reported that is read.
  lemma OnlyFindingsAreListed(schema: Json, path: string)
    requires schema.JObj? && path in Listed(Findings(schema))
    ensures path in Findings(schema)
  {
    StringOrder();
    SortMembers(Distinct(Findings(schema)), StringLeq);
    DistinctIs(Findings(schema));
  }

  // How many findings the list reports before its marker.
  function Shown(schema: Json): (n: nat)
    requires schema.JObj?
    ensures n <= |Listed(Findings(schema))|
  {
    if |Listed(Findings(schema))| > MAX_REPORTED then MAX_REPORTED else |Listed(Findings(schema))|
  }

  // Text after the last '.'.
  function LastSegment(path: string): string {
    var parts := Split(path, '.');
    parts[|parts| - 1]
  }
}
