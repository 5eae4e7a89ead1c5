// What a verdict of contract_admission.py says about the contract.
module AdmissionMeaning {
  import opened Json
  import opened Sorting
  import opened Collecting
  import opened JsonPointer
  import opened References
  import opened RuleEngine
  import opened SecurityLimits
  import opened SchemaVocabulary
  import opened Admission

  // ------------------------------------------------------------------------------
  // The cap never flips the verdict
  // ------------------------------------------------------------------------------

  ghost predicate AllErrors(issues: seq<Issue>) {
    forall i :: 0 <= i < |issues| ==> issues[i].level == Error
  }

  lemma CollectedErrors<A>(xs: seq<A>, check: A -> seq<Issue>)
    requires forall x :: AllErrors(check(x))
    ensures AllErrors(FlatMap(xs, check))
  {
    forall i | 0 <= i < |FlatMap(xs, check)| ensures FlatMap(xs, check)[i].level == Error {
      InFlatMap(xs, check, FlatMap(xs, check)[i]);
      var j :| 0 <= j < |xs| && FlatMap(xs, check)[i] in check(xs[j]);
      assert AllErrors(check(xs[j]));
    }
  }

  lemma ListIssuesBlock(schema: Json, key: string)
    requires schema.JObj?
    ensures AllErrors(ListIssues(schema, key))
  {
    if GetOr(schema, key, JNull).JArr? {
      CollectedErrors(GetOr(schema, key, JNull).items, EntryIssues(key));
    }
  }

  lemma PropertyIssuesBlock(re: Regex, properties: Json, name: string)
    requires properties.JObj?
    ensures AllErrors(PropertyIssues(re, properties, name))
  {
    if name in properties.m && properties.m[name].JObj? {
      CollectedErrors(BOUNDS, BoundIssues(name, properties.m[name]));
    }
  }

  lemma PropertiesIssuesBlock(re: Regex, schema: Json)
    requires schema.JObj?
    ensures AllErrors(PropertiesIssues(re, schema))
  {
    hide PropertyIssues;
    var properties := PropertiesOf(schema);
    if properties.JObj? {
      forall name ensures AllErrors(EachProperty(re, properties)(name)) {
        PropertyIssuesBlock(re, properties, name);
      }
      CollectedErrors(properties.keys, EachProperty(re, properties));
    }
  }

  lemma NodeIssuesBlock(re: Regex, root: Json, capability: Capability, visits: seq<Visit>)
    ensures AllErrors(FlatMap(visits, ExclusiveBoundIssues(capability)))
    ensures AllErrors(FlatMap(visits, ReferenceIssues(root)))
    ensures AllErrors(FlatMap(visits, NestedPatternIssues(re)))
    ensures AllErrors(FlatMap(visits, FormatIssues(capability)))
  {
    hide NeverEnds, Resolve;
    forall v: Visit ensures AllErrors(ExclusiveBoundIssues(capability)(v)) && AllErrors(NestedPatternIssues(re)(v)) {
      if v.node.JObj? {
        CollectedErrors(EXCLUSIVE_BOUNDS, OneBoundIssues(capability, v.path, v.node));
        var patterns := GetOr(v.node, "patternProperties", JNull);
        if patterns.JObj? {
          CollectedErrors(patterns.keys, KeyPatternIssues(re, v.path));
        }
      }
    }
    CollectedErrors(visits, ExclusiveBoundIssues(capability));
    CollectedErrors(visits, ReferenceIssues(root));
    CollectedErrors(visits, NestedPatternIssues(re));
    CollectedErrors(visits, FormatIssues(capability));
  }

  lemma ErrorsBlock(re: Regex, schema: Json, setting: Setting)
    requires schema.JObj?
    ensures AllErrors(ErrorsOf(re, schema, setting))
  {
    hide FlatMap, IssuesOf;
    forall check ensures AllErrors(EachCheck(re, schema, setting)(check)) {
      CheckBlocks(re, schema, setting, check);
    }
    CollectedErrors(CHECKS, EachCheck(re, schema, setting));
  }

  lemma CheckBlocks(re: Regex, schema: Json, setting: Setting, check: Check)
    requires schema.JObj?
    ensures AllErrors(IssuesOf(re, schema, setting, check))
  {
    hide FlatMap, ListIssues, PropertiesIssues, WalkSubschemas, UnenforcedKeywords;
    match check
    case RequiredNames => ListIssuesBlock(schema, "required");
    case NullForbiddenNames => ListIssuesBlock(schema, "null_forbidden");
    case PropertySpecs => PropertiesIssuesBlock(re, schema);
    case KeywordCoverage => CollectedErrors(UnenforcedKeywords(schema), KeywordIssues(setting.enforced));
    case _ => NodeIssuesBlock(re, schema, setting.Effective(), WalkSubschemas(schema, ROOT));
  }

  // A contract is admitted exactly when no check blocks it: neither the cap on the number
  // of issues nor the advisory mode has a say.
  lemma AdmittedWhenNothingBlocks(re: Regex, schema: Json, setting: Setting)
    ensures Admit(re, schema, setting).admitted <==> schema.JObj? && ErrorsOf(re, schema, setting) == []
    ensures |Admit(re, schema, setting).issues| <= MAX_ISSUES
  {
    hide ErrorsOf;
    if schema.JObj? {
      ErrorsBlock(re, schema, setting);
      var errors := ErrorsOf(re, schema, setting);
      var issues := CappedIssues(errors + Advisories(schema, setting.mode));
      if errors != [] {
        assert issues[0] == errors[0];
      }
    }
  }

  // WARN relaxes compatibility, never correctness.
  lemma ModeNeverDecides(re: Regex, schema: Json, setting: Setting, mode: Mode)
    ensures Admit(re, schema, setting).admitted == Admit(re, schema, setting.(mode := mode)).admitted
  {
    hide Admit, IssuesOf, FlatMap;
    var other := setting.(mode := mode);
    AdmittedWhenNothingBlocks(re, schema, setting);
    AdmittedWhenNothingBlocks(re, schema, other);
    if schema.JObj? {
      forall check ensures IssuesOf(re, schema, setting, check) == IssuesOf(re, schema, other, check) {
        ChecksIgnoreTheMode(re, schema, setting, mode, check);
      }
      NothingCollected(CHECKS, EachCheck(re, schema, setting));
      NothingCollected(CHECKS, EachCheck(re, schema, other));
    }
  }

  lemma ChecksIgnoreTheMode(re: Regex, schema: Json, setting: Setting, mode: Mode, check: Check)
    requires schema.JObj?
    ensures IssuesOf(re, schema, setting, check) == IssuesOf(re, schema, setting.(mode := mode), check)
  {
    hide FlatMap, WalkSubschemas, UnenforcedKeywords;
  }

  // ------------------------------------------------------------------------------
  // What admission demands, clause by clause
  // ------------------------------------------------------------------------------

  ghost predicate NamesOrNothing(schema: Json, key: string)
    requires schema.JObj?
  {
    var value := GetOr(schema, key, JNull);
    value.JNull? || (value.JArr? && forall entry :: entry in value.items ==> entry.JStr?)
  }

  ghost predicate GoodPattern(re: Regex, pattern: Json) {
    pattern.JStr? && |pattern.s| <= MAX_PATTERN_LENGTH && re.compiles(pattern.s)
  }

  ghost predicate SoundSpec(re: Regex, spec: Json) {
    && spec.JObj?
    && ("type" in spec.m ==> TypeIsEnforceable(spec.m["type"]))
    && ("pattern" in spec.m ==> GoodPattern(re, spec.m["pattern"]))
    && ("enum" in spec.m ==> spec.m["enum"].JArr?)
    && forall bound :: bound in BOUNDS && bound in spec.m ==> IsNumber(spec.m[bound])
  }

  ghost predicate SoundProperties(re: Regex, schema: Json)
    requires schema.JObj?
  {
    var properties := PropertiesOf(schema);
    properties.JNull?
    || (properties.JObj? && forall name :: name in properties.keys ==>
          '.' !in name && name in properties.m && SoundSpec(re, properties.m[name]))
  }

  // Every unread clause among the first MAX_REPORTED passes the keyword test.
  ghost predicate ReportedAreCovered(schema: Json, enforced: set<string>)
    requires schema.JObj?
  {
    forall i :: 0 <= i < Shown(schema) ==> Covered(enforced, Listed(Findings(schema))[i])
  }

  ghost predicate SoundReference(root: Json, ref: Json) {
    ref.JNull? || (ref.JStr? && "#" <= ref.s && Resolve(root, ref.s).Some? && !NeverEnds(root, ref.s))
  }

  // A dialect with a handler of its own for the bound takes anything but a boolean; one that
  // has none takes a boolean, beside the bound it sharpens, if it knows that form at all.
  predicate AssertsBound(capability: Capability, keyword: string, value: Json, node: Json)
    requires node.JObj?
  {
    || (keyword in capability.enforced && !value.JBool?)
    || (keyword !in capability.enforced && capability.booleanBounds && value.JBool?
        && ((keyword == "exclusiveMinimum" && "minimum" in node.m) || (keyword == "exclusiveMaximum" && "maximum" in node.m)))
  }

  ghost predicate SoundBounds(capability: Capability, node: Json)
    requires node.JObj?
  {
    && ("exclusiveMinimum" in node.m ==> AssertsBound(capability, "exclusiveMinimum", node.m["exclusiveMinimum"], node))
    && ("exclusiveMaximum" in node.m ==> AssertsBound(capability, "exclusiveMaximum", node.m["exclusiveMaximum"], node))
  }

  ghost predicate SoundPatterns(re: Regex, path: string, node: Json)
    requires node.JObj?
  {
    && (path != ROOT ==> GetOr(node, "pattern", JNull).JNull? || GoodPattern(re, node.m["pattern"]))
    && (GetOr(node, "patternProperties", JNull).JObj? ==>
          forall key :: key in node.m["patternProperties"].keys ==> GoodPattern(re, JStr(key)))
  }

  ghost predicate SoundFormat(capability: Capability, node: Json)
    requires node.JObj?
  {
    GetOr(node, "format", JNull).JStr? ==> capability.formatAssertion && node.m["format"].s in capability.formats
  }

  ghost predicate SoundNode(re: Regex, root: Json, setting: Setting, visit: Visit) {
    visit.node.JObj? ==>
      && SoundBounds(setting.Effective(), visit.node)
      && SoundReference(root, GetOr(visit.node, "$ref", JNull))
      && SoundPatterns(re, visit.path, visit.node)
      && (setting.capability.Some? ==> SoundFormat(setting.Effective(), visit.node))
  }

  ghost predicate Acceptable(re: Regex, schema: Json, setting: Setting) {
    && schema.JObj?
    && NamesOrNothing(schema, "required")
    && NamesOrNothing(schema, "null_forbidden")
    && SoundProperties(re, schema)
    && ReportedAreCovered(schema, setting.enforced)
    && forall v :: v in WalkSubschemas(schema, ROOT) ==> SoundNode(re, schema, setting, v)
  }

  lemma ListMeans(schema: Json, key: string)
    requires schema.JObj?
    ensures ListIssues(schema, key) == [] <==> NamesOrNothing(schema, key)
  {
    var value := GetOr(schema, key, JNull);
    if value.JArr? {
      NothingCollected(value.items, EntryIssues(key));
      assert forall i :: 0 <= i < |value.items| ==> value.items[i] in value.items;
    }
  }

  lemma SpecMeans(re: Regex, name: string, spec: Json)
    requires spec.JObj?
    ensures SpecIssues(re, name, spec) == [] <==> SoundSpec(re, spec)
  {
    hide FlatMap;
    NothingCollected(BOUNDS, BoundIssues(name, spec));
    assert forall bound :: bound in BOUNDS <==> exists i :: 0 <= i < |BOUNDS| && BOUNDS[i] == bound;
  }

  lemma PropertiesMeans(re: Regex, schema: Json)
    requires schema.JObj?
    ensures PropertiesIssues(re, schema) == [] <==> SoundProperties(re, schema)
  {
    hide FlatMap, SpecIssues, SoundSpec;
    var properties := PropertiesOf(schema);
    if properties.JObj? {
      NothingCollected(properties.keys, EachProperty(re, properties));
      forall name | name in properties.m && properties.m[name].JObj?
        ensures SpecIssues(re, name, properties.m[name]) == [] <==> SoundSpec(re, properties.m[name])
      {
        SpecMeans(re, name, properties.m[name]);
      }
      SpecsAreObjects(re);
      assert forall name :: name in properties.keys <==> exists i :: 0 <= i < |properties.keys| && properties.keys[i] == name;
    }
  }

  lemma SpecsAreObjects(re: Regex)
    ensures forall spec :: SoundSpec(re, spec) ==> spec.JObj?
  {
  }

  lemma KeywordsMean(schema: Json, enforced: set<string>)
    requires schema.JObj?
    ensures FlatMap(UnenforcedKeywords(schema), KeywordIssues(enforced)) == [] <==> ReportedAreCovered(schema, enforced)
  {
    hide FlatMap, LastSegment, Findings, Listed;
    var paths, all := UnenforcedKeywords(schema), Listed(Findings(schema));
    NothingCollected(paths, KeywordIssues(enforced));
    assert forall i :: 0 <= i < Shown(schema) ==> paths[i] == all[i];
    if |all| > MAX_REPORTED {
      assert "..." <= paths[MAX_REPORTED];
    }
  }

  lemma BoundsMean(capability: Capability, visit: Visit)
    requires visit.node.JObj?
    ensures ExclusiveBoundIssues(capability)(visit) == [] <==> SoundBounds(capability, visit.node)
  {
    hide FlatMap;
    NothingCollected(EXCLUSIVE_BOUNDS, OneBoundIssues(capability, visit.path, visit.node));
    assert EXCLUSIVE_BOUNDS[0] == "exclusiveMinimum" && EXCLUSIVE_BOUNDS[1] == "exclusiveMaximum" && |EXCLUSIVE_BOUNDS| == 2;
  }

  lemma PatternsMean(re: Regex, visit: Visit)
    requires visit.node.JObj?
    ensures NestedPatternIssues(re)(visit) == [] <==> SoundPatterns(re, visit.path, visit.node)
  {
    hide FlatMap;
    var patterns := GetOr(visit.node, "patternProperties", JNull);
    if patterns.JObj? {
      NothingCollected(patterns.keys, KeyPatternIssues(re, visit.path));
      assert forall key :: key in patterns.keys <==> exists i :: 0 <= i < |patterns.keys| && patterns.keys[i] == key;
    }
  }

  ghost predicate Quiet(re: Regex, root: Json, setting: Setting, visit: Visit) {
    && ExclusiveBoundIssues(setting.Effective())(visit) == []
    && ReferenceIssues(root)(visit) == []
    && NestedPatternIssues(re)(visit) == []
    && (setting.capability.Some? ==> FormatIssues(setting.Effective())(visit) == [])
  }

  lemma NodeMeans(re: Regex, root: Json, setting: Setting, visit: Visit)
    ensures Quiet(re, root, setting, visit) <==> SoundNode(re, root, setting, visit)
  {
    hide FlatMap, NeverEnds, Resolve, SoundBounds, SoundPatterns;
    if visit.node.JObj? {
      BoundsMean(setting.Effective(), visit);
      PatternsMean(re, visit);
    }
  }

  ghost predicate NodesQuiet(re: Regex, root: Json, setting: Setting, visits: seq<Visit>) {
    && FlatMap(visits, ExclusiveBoundIssues(setting.Effective())) == []
    && FlatMap(visits, ReferenceIssues(root)) == []
    && FlatMap(visits, NestedPatternIssues(re)) == []
    && (setting.capability.Some? ==> FlatMap(visits, FormatIssues(setting.Effective())) == [])
  }

  lemma NodesMean(re: Regex, root: Json, setting: Setting, visits: seq<Visit>)
    ensures NodesQuiet(re, root, setting, visits) <==> forall v :: v in visits ==> SoundNode(re, root, setting, v)
  {
    hide FlatMap, SoundNode, ExclusiveBoundIssues, ReferenceIssues, NestedPatternIssues, FormatIssues;
    NothingCollected(visits, ExclusiveBoundIssues(setting.Effective()));
    NothingCollected(visits, ReferenceIssues(root));
    NothingCollected(visits, NestedPatternIssues(re));
    NothingCollected(visits, FormatIssues(setting.Effective()));
    assert NodesQuiet(re, root, setting, visits) <==> forall i :: 0 <= i < |visits| ==> Quiet(re, root, setting, visits[i]);
    forall v ensures Quiet(re, root, setting, v) <==> SoundNode(re, root, setting, v) {
      NodeMeans(re, root, setting, v);
    }
  }

  // The verdict, with no list of issues in sight.
  lemma AdmittedExactly(re: Regex, schema: Json, setting: Setting)
    ensures Admit(re, schema, setting).admitted <==> Acceptable(re, schema, setting)
  {
    AdmittedWhenNothingBlocks(re, schema, setting);
    if schema.JObj? {
      NothingBlocksExactly(re, schema, setting);
    }
  }

  lemma NothingBlocksExactly(re: Regex, schema: Json, setting: Setting)
    requires schema.JObj?
    ensures ErrorsOf(re, schema, setting) == [] <==> Acceptable(re, schema, setting)
  {
    hide FlatMap, ListIssues, PropertiesIssues, NamesOrNothing, SoundProperties, ReportedAreCovered, SoundNode,
         WalkSubschemas, UnenforcedKeywords, ErrorsOf;
    ChecksInOrder(re, schema, setting);
    ListMeans(schema, "required");
    ListMeans(schema, "null_forbidden");
    PropertiesMeans(re, schema);
    KeywordsMean(schema, setting.enforced);
    NodesMean(re, schema, setting, WalkSubschemas(schema, ROOT));
  }

  // Every clause the native rules do not read passes the keyword test by its name, or is
  // hidden by the cap of the scanner behind MAX_REPORTED others.
  lemma UnreadClausesAreCovered(re: Regex, schema: Json, setting: Setting, path: string)
    requires Admit(re, schema, setting).admitted && schema.JObj? && path in Findings(schema)
    ensures Covered(setting.enforced, path)
         || (Shown(schema) == MAX_REPORTED && forall i :: 0 <= i < MAX_REPORTED ==> StringLeq(Listed(Findings(schema))[i], path))
  {
    hide Admit, StringLeq, Covered, Findings, Listed;
    AdmittedExactly(re, schema, setting);
    OnlyTheCapHides(schema, path);
    var shown := Listed(Findings(schema))[..Shown(schema)];
    if path in shown {
      var i :| 0 <= i < |shown| && shown[i] == path;
      assert Covered(setting.enforced, Listed(Findings(schema))[i]);
    }
  }

  // The keyword test reads the last segment only: a clause whose name ends in ".type" is
  // taken for a type declaration, whoever enforces what.
  lemma KeywordTestIsByName(enforced: set<string>, path: string)
    ensures Covered(enforced, path + ".type")
  {
    LastOfSplit(path, "type");
    assert path + "." + "type" == path + ".type";
  }

  lemma {:induction false} LastOfSplit(path: string, last: string)
    requires '.' !in last
    ensures LastSegment(path + "." + last) == last
  {
    if path == [] {
      SplitToken("", last, '.');
      SplitToken(last, "", '.');
      assert "" + "." + last == path + "." + last;
    } else {
      LastOfSplit(path[1..], last);
      assert (path + "." + last)[1..] == path[1..] + "." + last;
      assert |Split(path[1..] + "." + last, '.')| >= 2 by {
        SplitHasTwo(path[1..], last);
      }
    }
  }

  lemma {:induction false} SplitHasTwo(path: string, last: string)
    ensures |Split(path + "." + last, '.')| >= 2
  {
    if path != [] {
      SplitHasTwo(path[1..], last);
      assert (path + "." + last)[1..] == path[1..] + "." + last;
    } else {
      assert path + "." + last == "." + last && ("." + last)[1..] == last;
    }
  }

  // ------------------------------------------------------------------------------
  // What an admitted contract guarantees at any depth
  // ------------------------------------------------------------------------------

  // At every schema reachable through schema-bearing keywords, a reference is absent or
  // local, resolves, and its direct chain is finite.
  lemma AdmittedReferencesEnd(re: Regex, schema: Json, setting: Setting, chain: seq<Json>)
    requires Admit(re, schema, setting).admitted && WellFormed(schema) && Beneath(schema, chain)
    ensures chain[|chain| - 1].JObj? ==> SoundReference(schema, GetOr(chain[|chain| - 1], "$ref", JNull))
  {
    hide WalkSubschemas, HoldsSchema, SoundReference, SoundBounds, SoundPatterns, SoundFormat, Admit,
         NamesOrNothing, SoundProperties, ReportedAreCovered;
    AdmittedExactly(re, schema, setting);
    WalkIsComplete(schema, ROOT, chain);
    var visits := WalkSubschemas(schema, ROOT);
    var i :| 0 <= i < |visits| && visits[i].node == chain[|chain| - 1];
    assert visits[i] in visits;
  }

  // Every regular expression below the top level, in a pattern or as a key of
  // patternProperties, compiles within the length budget.
  lemma AdmittedPatternsCompile(re: Regex, schema: Json, setting: Setting, chain: seq<Json>)
    requires Admit(re, schema, setting).admitted && WellFormed(schema) && Beneath(schema, chain) && |chain| >= 2
    ensures var node := chain[|chain| - 1];
            node.JObj? ==>
              && (GetOr(node, "pattern", JNull).JNull? || GoodPattern(re, node.m["pattern"]))
              && (GetOr(node, "patternProperties", JNull).JObj? ==>
                    forall key :: key in node.m["patternProperties"].keys ==> GoodPattern(re, JStr(key)))
  {
    hide WalkSubschemas, Beneath, SoundReference, SoundBounds, SoundFormat, Admit,
         NamesOrNothing, SoundProperties, ReportedAreCovered, GoodPattern;
    AdmittedExactly(re, schema, setting);
    var visit := VisitedBelow(schema, ROOT, chain);
    assert SoundNode(re, schema, setting, visit);
  }
}
