/** The outcome of one classification: the input and the rules that matched it. */
module DetectionResults {
  import opened Wrappers
  import opened Model

  /**
   * Both fields are fixed at construction and returned unchanged by the
   * accessors; the rule list may in principle be absent.
   */
  datatype DetectionResult = DetectionResult(data: string, matchedRules: Option<seq<Rule>>) {

    /** `hasMatch`: the list is present and not empty. */
    predicate HasMatch() {
      matchedRules.Some? && |matchedRules.value| > 0
    }
  }

  /** A result reports a match exactly when it names at least one matched rule. */
  lemma HasMatchIffSomeRule(result: DetectionResult)
    ensures result.HasMatch() <==> result.matchedRules.Some? && exists rule :: rule in result.matchedRules.value
  {
    if result.HasMatch() {
      assert result.matchedRules.value[0] in result.matchedRules.value;
    }
  }
}
