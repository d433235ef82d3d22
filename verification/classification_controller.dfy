/**
 * The framework-free controller of the SDK client: a health message, and a
 * classify call that maps a request to a response through the SDK.
 */
module ClassificationController {
  import opened Wrappers
  import opened Model
  import opened Regex
  import opened DetectionResults
  import opened DetectionEngine
  import opened ClassificationSdk

  const HealthMessage: string := "sdk-client-mock is running"

  /** A classify request; either field may be missing from the JSON. */
  datatype ClassificationRequest = ClassificationRequest(text: Option<string>, mode: Option<Mode>)

  /** The answer: the input text, whether anything matched, and the matched rules. */
  datatype ClassificationResponse = ClassificationResponse(input: string, matched: bool, rules: Option<seq<Rule>>)

  /** The mode used for a request: top-match-only when none is given. */
  function ModeOf(mode: Option<Mode>): (m: Mode)
    ensures mode.None? ==> m == TopMatchOnly
    ensures mode.Some? ==> m == mode.value
  {
    mode.GetOr(TopMatchOnly)
  }

  /** The response filled from the request text and the detection result. */
  function ResponseOf(text: string, result: DetectionResult): (response: ClassificationResponse)
    ensures response.input == text
    ensures response.rules == result.matchedRules
    ensures response.matched <==> result.HasMatch()
  {
    ClassificationResponse(text, result.HasMatch(), result.matchedRules)
  }

  /**
   * Whenever detection succeeds, a response reports a match exactly when
   * its rule list is not empty.
   */
  lemma MatchedIffRules(snapshot: Option<Ruleset>, text: string, mode: Option<Mode>, lib: RegexLib)
    requires Detection(snapshot, text, ModeOf(mode), lib).Ok?
    ensures var response := ResponseOf(text, Detection(snapshot, text, ModeOf(mode), lib).value);
      response.rules.Some? && (response.matched <==> |response.rules.value| > 0)
  {
  }

  class ClassificationController {
    const sdk: ClassificationSdk

    constructor (sdk: ClassificationSdk)
      ensures this.sdk == sdk
    {
      this.sdk := sdk;
    }

    method Health() returns (message: string)
      ensures message == HealthMessage
    {
      message := HealthMessage;
    }

    /**
     * `classify`: None for a missing request or text; otherwise the SDK's
     * result in the requested mode (top-match-only by default), mapped to
     * a response. A malformed regular expression propagates.
     */
    method Classify(request: Option<ClassificationRequest>) returns (response: Result<Option<ClassificationResponse>, PatternSyntaxError>)
      requires sdk.engine.cache.Valid()
      modifies sdk.engine.cache
      ensures sdk.engine.cache.Valid()
      ensures request.None? || request.value.text.None? ==> response == Ok(None)
      ensures request.Some? && request.value.text.Some? ==>
        var text := request.value.text.value;
        match Detection(sdk.engine.manager.current, text, ModeOf(request.value.mode), sdk.engine.cache.lib)
        case Err(e) => response == Err(e)
        case Ok(result) => response == Ok(Some(ResponseOf(text, result)))
    {
      if request.None? || request.value.text.None? {
        return Ok(None);
      }
      var text := request.value.text.value;
      var mode := if request.value.mode.Some? then request.value.mode.value else TopMatchOnly;
      var result := sdk.ClassifyWithMode(text, mode);
      match result
      case Err(e) =>
        response := Err(e);
      case Ok(detected) =>
        response := Ok(Some(ClassificationResponse(text, detected.HasMatch(), detected.matchedRules)));
    }
  }
}
