// contract_admission.py: whether a contract may become active policy.
//
// The checks append to one shared list of issues. Each check is specified by the list it
// appends, so the order of issues, which the cap of 50 makes visible, is part of the model.
module Admission {
  import opened Options
  import opened Json
  import opened Collecting
  import opened JsonPointer
  import opened References
  import opened RuleEngine
  import opened SecurityLimits
  import opened SchemaVocabulary

  const MAX_ISSUES := 50

  datatype Code =
    | UnknownType | EmptyTypeUnion | InvalidPattern | AmbiguousPropertyPath
    | UnsupportedKeyword | InvalidStructure | LegacyConstruct | UnsupportedReference

  datatype Level = Error | Warning

  // A ContractAdmissionIssue without its prose.
  datatype Issue = Issue(code: Code, path: string, level: Level)

  datatype Mode = Strict | Warn

  // SemanticCapability: what the wired evaluator asserts.
  datatype Capability = Capability(enforced: set<string>, booleanBounds: bool, formatAssertion: bool, formats: set<string>)

  datatype Verdict = Verdict(admitted: bool, issues: seq<Issue>)

  // What admit_contract is called with besides the schema.
  datatype Setting = Setting(mode: Mode, enforced: set<string>, capability: Option<Capability>)
  {
    function Effective(): Capability {
      capability.GetOr(Capability(enforced, false, false, {}))
    }
  }

  function Refuse(code: Code, path: string): seq<Issue> {
    [Issue(code, path, Error)]
  }

  // ------------------------------------------------------------------------------
  // Grammar checks
  // ------------------------------------------------------------------------------

  function EntryIssues(key: string): Json -> seq<Issue> {
    (entry: Json) => if entry.JStr? then [] else Refuse(InvalidStructure, ROOT + "." + key)
  }

  function ListIssues(schema: Json, key: string): seq<Issue>
    requires schema.JObj?
  {
    match GetOr(schema, key, JNull)
    case JNull => []
    case JArr(items) => FlatMap(items, EntryIssues(key))
    case _ => Refuse(InvalidStructure, ROOT + "." + key)
  }

  function TypeIssues(name: string, declared: Json): seq<Issue> {
    if declared == JArr([]) then Refuse(EmptyTypeUnion, name + ".type")
    else if TypeIsEnforceable(declared) then []
    else Refuse(UnknownType, name + ".type")
  }

  // _check_pattern and _check_regex_value.
  function PatternIssues(re: Regex, path: string, pattern: Json): seq<Issue> {
    if !pattern.JStr? then Refuse(InvalidStructure, path)
    else if |pattern.s| > MAX_PATTERN_LENGTH then Refuse(InvalidPattern, path)
    else if !re.compiles(pattern.s) then Refuse(InvalidPattern, path)
    else []
  }

  function EnumIssues(name: string, allowed: Json): seq<Issue> {
    if allowed.JArr? then [] else Refuse(InvalidStructure, name + ".enum")
  }

  const BOUNDS := ["min", "max", "minimum", "maximum"]

  function BoundIssues(name: string, spec: Json): string -> seq<Issue>
    requires spec.JObj?
  {
    key => if key in spec.m && !IsNumber(spec.m[key]) then Refuse(InvalidStructure, name + "." + key) else []
  }

  function SpecIssues(re: Regex, name: string, spec: Json): seq<Issue>
    requires spec.JObj?
  {
    (if "type" in spec.m then TypeIssues(name, spec.m["type"]) else [])
    + (if "pattern" in spec.m then PatternIssues(re, name + ".pattern", spec.m["pattern"]) else [])
    + (if "enum" in spec.m then EnumIssues(name, spec.m["enum"]) else [])
    + FlatMap(BOUNDS, BoundIssues(name, spec))
  }

  function PropertyIssues(re: Regex, properties: Json, name: string): seq<Issue>
    requires properties.JObj?
  {
    if '.' in name then Refuse(AmbiguousPropertyPath, name)
    else if name !in properties.m || !properties.m[name].JObj? then Refuse(InvalidStructure, name)
    else SpecIssues(re, name, properties.m[name])
  }

  function EachProperty(re: Regex, properties: Json): string -> seq<Issue>
    requires properties.JObj?
  {
    name => PropertyIssues(re, properties, name)
  }

  function PropertiesIssues(re: Regex, schema: Json): seq<Issue>
    requires schema.JObj?
  {
    match PropertiesOf(schema)
    case JNull => []
    case JObj(keys, _) => FlatMap(keys, EachProperty(re, PropertiesOf(schema)))
    case _ => Refuse(InvalidStructure, ROOT + ".properties")
  }

  // ------------------------------------------------------------------------------
  // Enforcement coverage
  // ------------------------------------------------------------------------------

  const EXCLUSIVE_BOUNDS := ["exclusiveMinimum", "exclusiveMaximum"]

  // The keyword test of a reported path: by the last segment it is judged elsewhere, is
  // documentation, or is a word some evaluator enforces.
  predicate Covered(enforced: set<string>, path: string) {
    "..." <= path
    || LastSegment(path) == "type"
    || LastSegment(path) in EXCLUSIVE_BOUNDS
    || IsMetadata(LastSegment(path))
    || LastSegment(path) in enforced
  }

  function KeywordIssues(enforced: set<string>): string -> seq<Issue> {
    path => if Covered(enforced, path) then [] else Refuse(UnsupportedKeyword, path)
  }

  // Draft 6 asserts a standalone number, draft 4 a boolean beside its sibling bound.
  predicate EnforcesExclusiveBound(capability: Capability, keyword: string, value: Json, node: Json)
    requires node.JObj?
  {
    if keyword in capability.enforced then !value.JBool?
    else
      && capability.booleanBounds && value.JBool?
      && (if keyword == "exclusiveMinimum" then "minimum" else "maximum") in node.m
  }

  function OneBoundIssues(capability: Capability, path: string, node: Json): string -> seq<Issue>
    requires node.JObj?
  {
    keyword =>
      if keyword in node.m && !EnforcesExclusiveBound(capability, keyword, node.m[keyword], node)
      then Refuse(UnsupportedKeyword, path + "." + keyword) else []
  }

  function ExclusiveBoundIssues(capability: Capability): Visit -> seq<Issue> {
    (visit: Visit) => if visit.node.JObj? then FlatMap(EXCLUSIVE_BOUNDS, OneBoundIssues(capability, visit.path, visit.node)) else []
  }

  function FormatIssues(capability: Capability): Visit -> seq<Issue> {
    (visit: Visit) =>
      if visit.node.JObj? && GetOr(visit.node, "format", JNull).JStr?
         && !(capability.formatAssertion && visit.node.m["format"].s in capability.formats)
      then Refuse(UnsupportedKeyword, visit.path + ".format") else []
  }

  // ------------------------------------------------------------------------------
  // References and nested patterns
  // ------------------------------------------------------------------------------

  ghost function RefIssues(root: Json, path: string, ref: Json): seq<Issue> {
    if ref.JNull? then []
    else if !ref.JStr? then Refuse(InvalidStructure, path + ".$ref")
    else if !IsLocal(ref.s) || Resolve(root, ref.s).None? || NeverEnds(root, ref.s) then Refuse(UnsupportedReference, path + ".$ref")
    else []
  }

  ghost function ReferenceIssues(root: Json): Visit -> seq<Issue> {
    (visit: Visit) => if visit.node.JObj? then RefIssues(root, visit.path, GetOr(visit.node, "$ref", JNull)) else []
  }

  function KeyPatternIssues(re: Regex, path: string): string -> seq<Issue> {
    key => PatternIssues(re, path + ".patternProperties[" + key + "]", JStr(key))
  }

  function NestedPatternsAt(re: Regex, path: string, node: Json): seq<Issue>
    requires node.JObj?
  {
    var pattern, patterns := GetOr(node, "pattern", JNull), GetOr(node, "patternProperties", JNull);
    (if !pattern.JNull? && path != ROOT then PatternIssues(re, path + ".pattern", pattern) else [])
    + (if patterns.JObj? then FlatMap(patterns.keys, KeyPatternIssues(re, path)) else [])
  }

  function NestedPatternIssues(re: Regex): Visit -> seq<Issue> {
    (visit: Visit) => if visit.node.JObj? then NestedPatternsAt(re, visit.path, visit.node) else []
  }

  // ------------------------------------------------------------------------------
  // admit_contract
  // ------------------------------------------------------------------------------

  // The blocking checks, in the order they run.
  datatype Check =
    | RequiredNames | NullForbiddenNames | PropertySpecs | KeywordCoverage
    | ExclusiveBounds | LocalReferences | NestedPatterns | KnownFormats

  const CHECKS := [RequiredNames, NullForbiddenNames, PropertySpecs, KeywordCoverage,
                   ExclusiveBounds, LocalReferences, NestedPatterns, KnownFormats]

  ghost function IssuesOf(re: Regex, schema: Json, setting: Setting, check: Check): seq<Issue>
    requires schema.JObj?
  {
    match check
    case RequiredNames => ListIssues(schema, "required")
    case NullForbiddenNames => ListIssues(schema, "null_forbidden")
    case PropertySpecs => PropertiesIssues(re, schema)
    case KeywordCoverage => FlatMap(UnenforcedKeywords(schema), KeywordIssues(setting.enforced))
    case ExclusiveBounds => FlatMap(WalkSubschemas(schema, ROOT), ExclusiveBoundIssues(setting.Effective()))
    case LocalReferences => FlatMap(WalkSubschemas(schema, ROOT), ReferenceIssues(schema))
    case NestedPatterns => FlatMap(WalkSubschemas(schema, ROOT), NestedPatternIssues(re))
    case KnownFormats =>
      if setting.capability.Some? then FlatMap(WalkSubschemas(schema, ROOT), FormatIssues(setting.Effective())) else []
  }

  ghost function EachCheck(re: Regex, schema: Json, setting: Setting): Check -> seq<Issue>
    requires schema.JObj?
  {
    check => IssuesOf(re, schema, setting, check)
  }

  // Every blocking issue, before the cap.
  ghost function ErrorsOf(re: Regex, schema: Json, setting: Setting): seq<Issue>
    requires schema.JObj?
  {
    FlatMap(CHECKS, EachCheck(re, schema, setting))
  }

  lemma ChecksInOrder(re: Regex, schema: Json, setting: Setting)
    requires schema.JObj?
    ensures ErrorsOf(re, schema, setting)
         == IssuesOf(re, schema, setting, RequiredNames) + IssuesOf(re, schema, setting, NullForbiddenNames)
            + IssuesOf(re, schema, setting, PropertySpecs) + IssuesOf(re, schema, setting, KeywordCoverage)
            + IssuesOf(re, schema, setting, ExclusiveBounds) + IssuesOf(re, schema, setting, LocalReferences)
            + IssuesOf(re, schema, setting, NestedPatterns) + IssuesOf(re, schema, setting, KnownFormats)
  {
    hide IssuesOf, FlatMap;
    var f := EachCheck(re, schema, setting);
    NothingYet(f);
    FlatMapStep(CHECKS, f, 0);
    FlatMapStep(CHECKS, f, 1);
    FlatMapStep(CHECKS, f, 2);
    FlatMapStep(CHECKS, f, 3);
    FlatMapStep(CHECKS, f, 4);
    FlatMapStep(CHECKS, f, 5);
    FlatMapStep(CHECKS, f, 6);
    FlatMapStep(CHECKS, f, 7);
    assert CHECKS[..8] == CHECKS;
  }

  lemma NothingYet<A>(f: A -> seq<Issue>)
    ensures forall xs: seq<A> :: FlatMap(xs[..0], f) == []
  {
  }

  function Advisories(schema: Json, mode: Mode): seq<Issue>
    requires schema.JObj?
  {
    if mode.Warn? && "null_forbidden" in schema.m then [Issue(LegacyConstruct, ROOT + ".null_forbidden", Warning)] else []
  }

  function CappedIssues(issues: seq<Issue>): seq<Issue> {
    if |issues| > MAX_ISSUES then issues[..MAX_ISSUES] else issues
  }

  predicate AnyError(issues: seq<Issue>) {
    exists i :: 0 <= i < |issues| && issues[i].level == Error
  }

  ghost function Admit(re: Regex, schema: Json, setting: Setting): Verdict {
    if !schema.JObj? then Verdict(false, Refuse(InvalidStructure, ROOT))
    else
      var issues := CappedIssues(ErrorsOf(re, schema, setting) + Advisories(schema, setting.mode));
      Verdict(!AnyError(issues), issues)
  }

  // The shared list every check appends to.
  class IssueList {
    const re: Regex
    var issues: seq<Issue>

    constructor (re: Regex)
      ensures issues == [] && this.re == re
    {
      this.re, issues := re, [];
    }

    method CheckTopLevelLists(schema: Json)
      requires schema.JObj?
      modifies this
      ensures issues == old(issues) + ListIssues(schema, "required") + ListIssues(schema, "null_forbidden")
    {
      CheckList(schema, "required");
      CheckList(schema, "null_forbidden");
    }

    method CheckList(schema: Json, key: string)
      requires schema.JObj?
      modifies this
      ensures issues == old(issues) + ListIssues(schema, key)
    {
      var value := GetOr(schema, key, JNull);
      if value.JNull? {
        return;
      }
      if !value.JArr? {
        issues := issues + Refuse(InvalidStructure, ROOT + "." + key);
        return;
      }
      for i := 0 to |value.items|
        invariant issues == old(issues) + FlatMap(value.items[..i], EntryIssues(key))
      {
        FlatMapStep(value.items, EntryIssues(key), i);
        if !value.items[i].JStr? {
          issues := issues + Refuse(InvalidStructure, ROOT + "." + key);
        }
      }
      assert value.items[..|value.items|] == value.items;
    }

    method CheckProperties(schema: Json)
      requires schema.JObj?
      modifies this
      ensures issues == old(issues) + PropertiesIssues(re, schema)
    {
      hide PropertyIssues;
      var properties := GetOr(schema, "properties", JNull);
      if !properties.JNull? && !properties.JObj? {
        issues := issues + Refuse(InvalidStructure, ROOT + ".properties");
      }
      if properties.JObj? {
        for i := 0 to |properties.keys|
          invariant issues == old(issues) + FlatMap(properties.keys[..i], EachProperty(re, properties))
        {
          FlatMapStep(properties.keys, EachProperty(re, properties), i);
          CheckProperty(properties, properties.keys[i]);
        }
        assert properties.keys[..|properties.keys|] == properties.keys;
      }
    }

    method CheckProperty(properties: Json, name: string)
      requires properties.JObj?
      modifies this
      ensures issues == old(issues) + PropertyIssues(re, properties, name)
    {
      hide SpecIssues;
      if '.' in name {
        issues := issues + Refuse(AmbiguousPropertyPath, name);
        return;
      }
      if name !in properties.m || !properties.m[name].JObj? {
        issues := issues + Refuse(InvalidStructure, name);
        return;
      }
      CheckSpec(name, properties.m[name]);
    }

    method CheckSpec(name: string, spec: Json)
      requires spec.JObj?
      modifies this
      ensures issues == old(issues) + SpecIssues(re, name, spec)
    {
      hide TypeIssues, PatternIssues, EnumIssues, FlatMap;
      if "type" in spec.m {
        issues := issues + TypeIssues(name, spec.m["type"]);
      }
      if "pattern" in spec.m {
        issues := issues + PatternIssues(re, name + ".pattern", spec.m["pattern"]);
      }
      if "enum" in spec.m {
        issues := issues + EnumIssues(name, spec.m["enum"]);
      }
      CheckRange(name, spec);
    }

    method CheckRange(name: string, spec: Json)
      requires spec.JObj?
      modifies this
      ensures issues == old(issues) + FlatMap(BOUNDS, BoundIssues(name, spec))
    {
      for i := 0 to |BOUNDS|
        invariant issues == old(issues) + FlatMap(BOUNDS[..i], BoundIssues(name, spec))
      {
        FlatMapStep(BOUNDS, BoundIssues(name, spec), i);
        var key := BOUNDS[i];
        if key in spec.m && !IsNumber(spec.m[key]) {
          issues := issues + Refuse(InvalidStructure, name + "." + key);
        }
      }
      assert BOUNDS[..|BOUNDS|] == BOUNDS;
    }

    method CheckUnsupportedKeywords(schema: Json, enforced: set<string>)
      requires schema.JObj?
      modifies this
      ensures issues == old(issues) + FlatMap(UnenforcedKeywords(schema), KeywordIssues(enforced))
    {
      hide UnenforcedKeywords, Covered;
      var paths := FindUnenforcedKeywords(schema);
      for i := 0 to |paths|
        invariant issues == old(issues) + FlatMap(paths[..i], KeywordIssues(enforced))
      {
        FlatMapStep(paths, KeywordIssues(enforced), i);
        if !Covered(enforced, paths[i]) {
          issues := issues + Refuse(UnsupportedKeyword, paths[i]);
        }
      }
      assert paths[..|paths|] == paths;
    }

    method CheckReferences(schema: Json)
      requires schema.JObj?
      modifies this
      ensures issues == old(issues) + FlatMap(WalkSubschemas(schema, ROOT), ReferenceIssues(schema))
    {
      hide WalkSubschemas, Resolve, NeverEnds;
      var visits := WalkSubschemas(schema, ROOT);
      for i := 0 to |visits|
        invariant issues == old(issues) + FlatMap(visits[..i], ReferenceIssues(schema))
      {
        FlatMapStep(visits, ReferenceIssues(schema), i);
        CheckReference(schema, visits[i]);
      }
      assert visits[..|visits|] == visits;
    }

    method CheckReference(root: Json, visit: Visit)
      modifies this
      ensures issues == old(issues) + ReferenceIssues(root)(visit)
    {
      hide Resolve, NeverEnds;
      if !visit.node.JObj? {
        return;
      }
      var ref := GetOr(visit.node, "$ref", JNull);
      if ref.JNull? {
        return;
      }
      if !ref.JStr? {
        issues := issues + Refuse(InvalidStructure, visit.path + ".$ref");
        return;
      }
      if !IsLocal(ref.s) {
        issues := issues + Refuse(UnsupportedReference, visit.path + ".$ref");
        return;
      }
      var target := ResolvePointer(root, ref.s);
      if target.None? {
        issues := issues + Refuse(UnsupportedReference, visit.path + ".$ref");
        return;
      }
      var cyclic := ReferenceCycle(root, ref.s);
      if cyclic {
        issues := issues + Refuse(UnsupportedReference, visit.path + ".$ref");
      }
    }

    // Every blocking check, in the source's order.
    method CheckAll(schema: Json, setting: Setting)
      requires schema.JObj? && issues == []
      modifies this
      ensures issues == ErrorsOf(re, schema, setting)
    {
      hide ListIssues, PropertiesIssues, UnenforcedKeywords, WalkSubschemas, FlatMap, ErrorsOf;
      ChecksInOrder(re, schema, setting);
      CheckTopLevelLists(schema);
      CheckProperties(schema);
      CheckUnsupportedKeywords(schema, setting.enforced);
      var visits := WalkSubschemas(schema, ROOT);
      CheckEach(visits, ExclusiveBoundIssues(setting.Effective()));
      CheckReferences(schema);
      CheckEach(visits, NestedPatternIssues(re));
      if setting.capability.Some? {
        CheckEach(visits, FormatIssues(setting.Effective()));
      }
    }

    // The traversals that judge each visited schema on its own.
    method CheckEach(visits: seq<Visit>, check: Visit -> seq<Issue>)
      modifies this
      ensures issues == old(issues) + FlatMap(visits, check)
    {
      for i := 0 to |visits|
        invariant issues == old(issues) + FlatMap(visits[..i], check)
      {
        FlatMapStep(visits, check, i);
        issues := issues + check(visits[i]);
      }
      assert visits[..|visits|] == visits;
    }
  }

  method AdmitContract(re: Regex, schema: Json, setting: Setting) returns (verdict: Verdict)
    ensures verdict == Admit(re, schema, setting)
  {
    hide ErrorsOf, AnyError;
    if !schema.JObj? {
      return Verdict(false, Refuse(InvalidStructure, ROOT));
    }
    var list := new IssueList(re);
    list.CheckAll(schema, setting);
    var issues := list.issues + Advisories(schema, setting.mode);
    if |issues| > MAX_ISSUES {
      issues := issues[..MAX_ISSUES];
    }
    verdict := Verdict(!AnyError(issues), issues);
  }
}
