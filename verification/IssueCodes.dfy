// What each issue of a verdict says: a code stands at a path exactly for its own fault.
module IssueCodes {
  import opened Json
  import opened Collecting
  import opened Equality
  import opened JsonPointer
  import opened References
  import opened RuleEngine
  import opened SchemaVocabulary
  import opened Admission
  import opened AdmissionMeaning

  predicate Says(issue: Issue, code: Code, path: string) {
    issue.code == code && issue.path == path && issue.level == Error
  }

  ghost predicate ListFault(schema: Json, key: string, issue: Issue)
    requires schema.JObj?
  {
    && key in schema.m && Says(issue, InvalidStructure, "<root>" + "." + key)
    && match schema.m[key]
       case JNull => false
       case JArr(items) => exists i :: 0 <= i < |items| && !items[i].JStr?
       case _ => true
  }

  // A pattern that is no string is malformed, one that is too long or does not compile is bad.
  ghost predicate PatternFault(re: Regex, pattern: Json, path: string, issue: Issue) {
    match pattern
    case JStr(s) => (|s| > 1000 || !re.compiles(s)) && Says(issue, InvalidPattern, path)
    case _ => Says(issue, InvalidStructure, path)
  }

  ghost predicate BoundFault(spec: Json, bound: string, name: string, issue: Issue)
    requires spec.JObj?
  {
    bound in spec.m && Magnitude(spec.m[bound]).None? && Says(issue, InvalidStructure, name + "." + bound)
  }

  ghost predicate TypeFault(declared: Json, name: string, issue: Issue) {
    && !TypeIsEnforceable(declared)
    && Says(issue, if declared.JArr? && |declared.items| == 0 then EmptyTypeUnion else UnknownType, name + ".type")
  }

  ghost predicate SpecFault(re: Regex, spec: Json, name: string, issue: Issue)
    requires spec.JObj?
  {
    || ("type" in spec.m && TypeFault(spec.m["type"], name, issue))
    || ("pattern" in spec.m && PatternFault(re, spec.m["pattern"], name + ".pattern", issue))
    || ("enum" in spec.m && !spec.m["enum"].JArr? && Says(issue, InvalidStructure, name + ".enum"))
    || BoundFault(spec, "min", name, issue) || BoundFault(spec, "max", name, issue)
    || BoundFault(spec, "minimum", name, issue) || BoundFault(spec, "maximum", name, issue)
  }

  // A dotted name hides whatever else is wrong with the property.
  ghost predicate PropertyFault(re: Regex, properties: Json, name: string, issue: Issue)
    requires properties.JObj?
  {
    if '.' in name then Says(issue, AmbiguousPropertyPath, name)
    else if name !in properties.m || !properties.m[name].JObj? then Says(issue, InvalidStructure, name)
    else SpecFault(re, properties.m[name], name, issue)
  }

  ghost predicate PropertiesFault(re: Regex, schema: Json, issue: Issue)
    requires schema.JObj?
  {
    match GetOr(schema, "properties", JNull)
    case JNull => false
    case JObj(keys, _) => exists i :: 0 <= i < |keys| && PropertyFault(re, schema.m["properties"], keys[i], issue)
    case _ => Says(issue, InvalidStructure, "<root>" + ".properties")
  }

  // Of a visited schema.
  ghost predicate ReferenceFault(root: Json, visit: Visit, issue: Issue) {
    && visit.node.JObj? && "$ref" in visit.node.m && !SoundReference(root, visit.node.m["$ref"])
    && Says(issue, if visit.node.m["$ref"].JStr? then UnsupportedReference else InvalidStructure, visit.path + ".$ref")
  }

  ghost predicate ExclusiveFault(capability: Capability, visit: Visit, bound: string, issue: Issue) {
    && visit.node.JObj? && bound in visit.node.m && !AssertsBound(capability, bound, visit.node.m[bound], visit.node)
    && Says(issue, UnsupportedKeyword, visit.path + "." + bound)
  }

  ghost predicate FormatFault(capability: Capability, visit: Visit, issue: Issue) {
    && visit.node.JObj? && "format" in visit.node.m && !SoundFormat(capability, visit.node)
    && Says(issue, UnsupportedKeyword, visit.path + ".format")
  }

  ghost predicate NestedFault(re: Regex, visit: Visit, issue: Issue) {
    visit.node.JObj? &&
    ( (visit.path != "<root>" && "pattern" in visit.node.m && !visit.node.m["pattern"].JNull?
         && PatternFault(re, visit.node.m["pattern"], visit.path + ".pattern", issue))
      || ("patternProperties" in visit.node.m && visit.node.m["patternProperties"].JObj?
          && exists i :: 0 <= i < |visit.node.m["patternProperties"].keys|
               && PatternFault(re, JStr(visit.node.m["patternProperties"].keys[i]),
                    visit.path + ".patternProperties[" + visit.node.m["patternProperties"].keys[i] + "]", issue)))
  }

  ghost predicate Fault(re: Regex, schema: Json, setting: Setting, check: Check, issue: Issue)
    requires schema.JObj?
  {
    var visits := WalkSubschemas(schema, ROOT);
    match check
    case RequiredNames => ListFault(schema, "required", issue)
    case NullForbiddenNames => ListFault(schema, "null_forbidden", issue)
    case PropertySpecs => PropertiesFault(re, schema, issue)
    case KeywordCoverage =>
      issue.path in UnenforcedKeywords(schema) && !Covered(setting.enforced, issue.path)
      && Says(issue, UnsupportedKeyword, issue.path)
    case ExclusiveBounds =>
      exists i :: 0 <= i < |visits|
        && (ExclusiveFault(setting.Effective(), visits[i], "exclusiveMinimum", issue)
            || ExclusiveFault(setting.Effective(), visits[i], "exclusiveMaximum", issue))
    case LocalReferences => exists i :: 0 <= i < |visits| && ReferenceFault(schema, visits[i], issue)
    case NestedPatterns => exists i :: 0 <= i < |visits| && NestedFault(re, visits[i], issue)
    case KnownFormats => setting.capability.Some? && exists i :: 0 <= i < |visits| && FormatFault(setting.capability.value, visits[i], issue)
  }

  lemma RefusalSays(issue: Issue)
    ensures forall code, path :: issue in Refuse(code, path) <==> Says(issue, code, path)
  {
  }

  lemma ListFaultExactly(schema: Json, key: string, issue: Issue)
    requires schema.JObj?
    ensures issue in ListIssues(schema, key) <==> ListFault(schema, key, issue)
  {
    hide Refuse, Says;
    RefusalSays(issue);
    var value := GetOr(schema, key, JNull);
    if value.JArr? {
      InFlatMap(value.items, EntryIssues(key), issue);
      assert forall i :: 0 <= i < |value.items| ==>
        (issue in EntryIssues(key)(value.items[i]) <==> !value.items[i].JStr? && Says(issue, InvalidStructure, ROOT + "." + key));
    }
  }

  lemma PatternFaultExactly(re: Regex, pattern: Json, path: string, issue: Issue)
    ensures issue in PatternIssues(re, path, pattern) <==> PatternFault(re, pattern, path, issue)
  {
    hide Refuse, Says;
    RefusalSays(issue);
  }

  lemma TypeFaultExactly(declared: Json, name: string, issue: Issue)
    ensures issue in TypeIssues(name, declared) <==> TypeFault(declared, name, issue)
  {
    hide Refuse, Says;
    RefusalSays(issue);
  }

  lemma SpecFaultExactly(re: Regex, spec: Json, name: string, issue: Issue)
    requires spec.JObj?
    ensures issue in SpecIssues(re, name, spec) <==> SpecFault(re, spec, name, issue)
  {
    hide TypeIsEnforceable, FlatMap, Refuse, Says, BoundFault, BoundIssues, PatternFault, PatternIssues, TypeIssues, TypeFault;
    RefusalSays(issue);
    InFlatMap(BOUNDS, BoundIssues(name, spec), issue);
    BoundFaults(spec, name, issue);
    if "pattern" in spec.m {
      PatternFaultExactly(re, spec.m["pattern"], name + ".pattern", issue);
    }
    if "type" in spec.m {
      TypeFaultExactly(spec.m["type"], name, issue);
    }
  }

  ghost predicate AllAt(issues: seq<Issue>, path: string) {
    forall i :: 0 <= i < |issues| ==> issues[i].path == path
  }

  // The issues of one property come in the order type, pattern, enum and the four bounds.
  lemma SpecIssuesInOrder(re: Regex, spec: Json, name: string) returns (parts: seq<seq<Issue>>)
    requires spec.JObj?
    ensures |parts| == 7
    ensures SpecIssues(re, name, spec) == parts[0] + parts[1] + parts[2] + parts[3] + parts[4] + parts[5] + parts[6]
    ensures AllAt(parts[0], name + ".type") && AllAt(parts[1], name + ".pattern") && AllAt(parts[2], name + ".enum")
    ensures AllAt(parts[3], name + "." + "min") && AllAt(parts[4], name + "." + "max")
    ensures AllAt(parts[5], name + "." + "minimum") && AllAt(parts[6], name + "." + "maximum")
  {
    hide TypeIssues, PatternIssues, EnumIssues, BoundIssues, FlatMap, AllAt;
    var f := BoundIssues(name, spec);
    FourBounds(f);
    parts := [if "type" in spec.m then TypeIssues(name, spec.m["type"]) else [],
              if "pattern" in spec.m then PatternIssues(re, name + ".pattern", spec.m["pattern"]) else [],
              if "enum" in spec.m then EnumIssues(name, spec.m["enum"]) else [],
              f("min"), f("max"), f("minimum"), f("maximum")];
    var declared, pattern, allowed := GetOr(spec, "type", JNull), GetOr(spec, "pattern", JNull), GetOr(spec, "enum", JNull);
    EachAtItsPath(re, spec, name, declared, pattern, allowed, "min");
    EachAtItsPath(re, spec, name, declared, pattern, allowed, "max");
    EachAtItsPath(re, spec, name, declared, pattern, allowed, "minimum");
    EachAtItsPath(re, spec, name, declared, pattern, allowed, "maximum");
  }

  lemma EachAtItsPath(re: Regex, spec: Json, name: string, declared: Json, pattern: Json, allowed: Json, bound: string)
    requires spec.JObj?
    ensures AllAt(TypeIssues(name, declared), name + ".type") && AllAt([], name + ".type")
    ensures AllAt(PatternIssues(re, name + ".pattern", pattern), name + ".pattern") && AllAt([], name + ".pattern")
    ensures AllAt(EnumIssues(name, allowed), name + ".enum") && AllAt([], name + ".enum")
    ensures AllAt(BoundIssues(name, spec)(bound), name + "." + bound)
  {
    hide TypeIsEnforceable;
  }

  lemma FourBounds(f: string -> seq<Issue>)
    ensures FlatMap(BOUNDS, f) == f("min") + f("max") + f("minimum") + f("maximum")
  {
    hide FlatMap;
    NothingYet(f);
    FlatMapStep(BOUNDS, f, 0);
    FlatMapStep(BOUNDS, f, 1);
    FlatMapStep(BOUNDS, f, 2);
    FlatMapStep(BOUNDS, f, 3);
    assert BOUNDS[..4] == BOUNDS;
  }

  lemma BoundFaults(spec: Json, name: string, issue: Issue)
    requires spec.JObj?
    ensures (exists i :: 0 <= i < |BOUNDS| && issue in BoundIssues(name, spec)(BOUNDS[i]))
       <==> || BoundFault(spec, "min", name, issue) || BoundFault(spec, "max", name, issue)
            || BoundFault(spec, "minimum", name, issue) || BoundFault(spec, "maximum", name, issue)
  {
    assert |BOUNDS| == 4 && BOUNDS[0] == "min" && BOUNDS[1] == "max" && BOUNDS[2] == "minimum" && BOUNDS[3] == "maximum";
    forall bound ensures issue in BoundIssues(name, spec)(bound) <==> BoundFault(spec, bound, name, issue) {
      RefusalSays(issue);
      if bound in spec.m {
        MagnitudeIsTheNumber(spec.m[bound]);
      }
    }
  }

  lemma PropertiesFaultExactly(re: Regex, schema: Json, issue: Issue)
    requires schema.JObj?
    ensures issue in PropertiesIssues(re, schema) <==> PropertiesFault(re, schema, issue)
  {
    hide SpecFault, SpecIssues, FlatMap, Refuse, Says;
    RefusalSays(issue);
    var properties := PropertiesOf(schema);
    if properties.JObj? {
      InFlatMap(properties.keys, EachProperty(re, properties), issue);
      forall name ensures issue in EachProperty(re, properties)(name) <==> PropertyFault(re, properties, name, issue) {
        if name in properties.m && properties.m[name].JObj? {
          SpecFaultExactly(re, properties.m[name], name, issue);
        }
      }
    }
  }

  lemma ExclusiveFaultExactly(capability: Capability, visit: Visit, issue: Issue)
    ensures issue in ExclusiveBoundIssues(capability)(visit)
       <==> || ExclusiveFault(capability, visit, "exclusiveMinimum", issue)
            || ExclusiveFault(capability, visit, "exclusiveMaximum", issue)
  {
    hide Refuse, Says, EnforcesExclusiveBound, AssertsBound, FlatMap;
    RefusalSays(issue);
    if visit.node.JObj? {
      BoundIsAsserted(capability, visit.node);
      InFlatMap(EXCLUSIVE_BOUNDS, OneBoundIssues(capability, visit.path, visit.node), issue);
      assert |EXCLUSIVE_BOUNDS| == 2 && EXCLUSIVE_BOUNDS[0] == "exclusiveMinimum" && EXCLUSIVE_BOUNDS[1] == "exclusiveMaximum";
    }
  }

  lemma BoundIsAsserted(capability: Capability, node: Json)
    requires node.JObj?
    ensures forall bound, value :: bound == "exclusiveMinimum" || bound == "exclusiveMaximum" ==>
              (EnforcesExclusiveBound(capability, bound, value, node) <==> AssertsBound(capability, bound, value, node))
  {
  }

  lemma NestedFaultExactly(re: Regex, visit: Visit, issue: Issue)
    ensures issue in NestedPatternIssues(re)(visit) <==> NestedFault(re, visit, issue)
  {
    hide FlatMap, PatternIssues, PatternFault;
    forall pattern, path ensures issue in PatternIssues(re, path, pattern) <==> PatternFault(re, pattern, path, issue) {
      PatternFaultExactly(re, pattern, path, issue);
    }
    if visit.node.JObj? && GetOr(visit.node, "patternProperties", JNull).JObj? {
      InFlatMap(visit.node.m["patternProperties"].keys, KeyPatternIssues(re, visit.path), issue);
    }
  }

  lemma ReferenceFaultExactly(root: Json, visit: Visit, issue: Issue)
    ensures issue in ReferenceIssues(root)(visit) <==> ReferenceFault(root, visit, issue)
  {
    hide Resolve, NeverEnds, Refuse, Says;
    RefusalSays(issue);
  }

  lemma CheckFaultExactly(re: Regex, schema: Json, setting: Setting, check: Check, issue: Issue)
    requires schema.JObj?
    ensures issue in IssuesOf(re, schema, setting, check) <==> Fault(re, schema, setting, check, issue)
  {
    hide FlatMap, WalkSubschemas, UnenforcedKeywords, ListIssues, PropertiesIssues, ListFault, PropertiesFault,
         ExclusiveFault, NestedFault, ReferenceFault;
    var visits := WalkSubschemas(schema, ROOT);
    match check
    case RequiredNames => ListFaultExactly(schema, "required", issue);
    case NullForbiddenNames => ListFaultExactly(schema, "null_forbidden", issue);
    case PropertySpecs => PropertiesFaultExactly(re, schema, issue);
    case KeywordCoverage =>
      RefusalSays(issue);
      InFlatMap(UnenforcedKeywords(schema), KeywordIssues(setting.enforced), issue);
    case ExclusiveBounds =>
      InFlatMap(visits, ExclusiveBoundIssues(setting.Effective()), issue);
      forall visit { ExclusiveFaultExactly(setting.Effective(), visit, issue); }
    case LocalReferences =>
      InFlatMap(visits, ReferenceIssues(schema), issue);
      forall visit { ReferenceFaultExactly(schema, visit, issue); }
    case NestedPatterns =>
      InFlatMap(visits, NestedPatternIssues(re), issue);
      forall visit { NestedFaultExactly(re, visit, issue); }
    case KnownFormats =>
      InFlatMap(visits, FormatIssues(setting.Effective()), issue);
  }

  // The blocking issues are exactly the faults of the contract, each with its own code at its
  // own path; the verdict lists them check by check up to the cap, and after them in the
  // advisory mode one note on null_forbidden.
  lemma IssuesAreExactlyTheFaults(re: Regex, schema: Json, setting: Setting, issue: Issue)
    requires schema.JObj?
    ensures issue in ErrorsOf(re, schema, setting) <==> exists check :: Fault(re, schema, setting, check, issue)
  {
    hide Fault, IssuesOf, FlatMap;
    InFlatMap(CHECKS, EachCheck(re, schema, setting), issue);
    forall check ensures issue in IssuesOf(re, schema, setting, check) <==> Fault(re, schema, setting, check, issue) {
      CheckFaultExactly(re, schema, setting, check, issue);
    }
    if check :| Fault(re, schema, setting, check, issue) {
      CheckRuns(check);
    }
  }

  lemma CheckRuns(check: Check)
    ensures exists i :: 0 <= i < |CHECKS| && CHECKS[i] == check
  {
    var i := match check
      case RequiredNames => 0
      case NullForbiddenNames => 1
      case PropertySpecs => 2
      case KeywordCoverage => 3
      case ExclusiveBounds => 4
      case LocalReferences => 5
      case NestedPatterns => 6
      case KnownFormats => 7;
    assert CHECKS[i] == check;
  }

  lemma VerdictListsTheFirst(re: Regex, schema: Json, setting: Setting)
    ensures !schema.JObj? ==> Admit(re, schema, setting) == Verdict(false, [Issue(InvalidStructure, "<root>", Error)])
    ensures schema.JObj? ==>
              var issues, errors := Admit(re, schema, setting).issues, ErrorsOf(re, schema, setting);
              var noted := setting.mode.Warn? && "null_forbidden" in schema.m;
              var all := errors + if noted then [Issue(LegacyConstruct, "<root>" + ".null_forbidden", Warning)] else [];
              issues == if |all| <= 50 then all else all[..50]
  {
    hide ErrorsOf, AnyError;
  }
}
