// A contract that was admitted never trips the pattern guard of the semantic validator.
module AdmittedPatterns {
  import opened Options
  import opened Json
  import opened RuleEngine
  import opened SchemaVocabulary
  import opened Admission
  import opened AdmissionMeaning
  import SemanticValidator

  lemma AdmittedPassesTheGuard(re: Regex, schema: Json, setting: Setting, lib: SemanticValidator.Library)
    requires Admit(re, schema, setting).admitted
    ensures SemanticValidator.Guard(lib, SemanticValidator.Snapshot(schema)) == Some([])
  {
    hide Admit;
    AdmittedExactly(re, schema, setting);
    if PropertiesOf(schema).JObj? {
      var properties := PropertiesOf(schema);
      var found := SemanticValidator.PatternBreaches(properties, properties.keys);
      forall name | name in properties.keys ensures !SemanticValidator.OverBudget(properties, name) {
        assert SoundSpec(re, properties.m[name]);
      }
      if found != [] {
        SemanticValidator.PatternsReportedExactly(properties, properties.keys, found[0]);
      }
    }
  }
}
