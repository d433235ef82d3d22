/**
 * The public entry point of the SDK: constructing it runs the rule
 * manager's `init` (which may throw), and both `classify` overloads
 * delegate to the detection engine.
 */
module ClassificationSdk {
  import opened Wrappers
  import opened Model
  import opened Regex
  import opened Config
  import opened Http
  import opened DetectionResults
  import opened RuleManager
  import opened DetectionEngine

  class ClassificationSdk {
    const engine: DetectionEngine

    /** The object itself; construction goes through `Create`, which runs `init`. */
    constructor Wrap(engine: DetectionEngine)
      ensures this.engine == engine
    {
      this.engine := engine;
    }

    /**
     * `new ClassificationSdk()`: runs `RuleManager.init` with no guard, so
     * each successful construction schedules one more periodic refresh; an
     * exception from `init` means no object is made.
     */
    static method Create(engine: DetectionEngine, bootstrap: Parsed, transport: Request -> Reply, parse: string -> Parsed)
      returns (sdk: Result<ClassificationSdk, InitError>)
      modifies engine.manager, engine.manager.config, engine.manager.store
      ensures sdk.Ok? ==> fresh(sdk.value) && sdk.value.engine == engine
      ensures var manager := engine.manager;
        match StartingState(old(manager.State()), manager.Environment(), bootstrap)
        case Err(e) => sdk == Err(e) && manager.State() == old(manager.State()) && manager.scheduled == old(manager.scheduled)
        case Ok(started) =>
          match FetchStep(started, manager.Environment(), manager.store.unwritable, transport, parse)
          case Err(e) => sdk == Err(FetchFailed(e)) && manager.State() == started && manager.scheduled == old(manager.scheduled)
          case Ok(fetched) =>
            manager.State() == fetched &&
            var interval := PollIntervalSeconds(manager.Environment());
            if interval <= 0 then sdk == Err(IllegalPeriod(interval)) && manager.scheduled == old(manager.scheduled)
            else sdk.Ok? && manager.scheduled == old(manager.scheduled) + [Schedule(interval, interval)]
    {
      var outcome := engine.manager.Init(bootstrap, transport, parse);
      if outcome.Fail? {
        return Err(outcome.error);
      }
      var created := new ClassificationSdk.Wrap(engine);
      sdk := Ok(created);
    }

    /** `classify(data)`: the same as classifying in top-match mode. */
    method Classify(data: string) returns (result: Result<DetectionResult, PatternSyntaxError>)
      requires engine.cache.Valid()
      modifies engine.cache
      ensures engine.cache.Valid()
      ensures result == Detection(engine.manager.current, data, TopMatchOnly, engine.cache.lib)
      ensures result.Ok? ==> result.value.data == data && |result.value.matchedRules.value| <= 1
    {
      result := ClassifyWithMode(data, TopMatchOnly);
    }

    /** `classify(data, mode)`: the engine's result, unchanged. */
    method ClassifyWithMode(data: string, mode: Mode) returns (result: Result<DetectionResult, PatternSyntaxError>)
      requires engine.cache.Valid()
      modifies engine.cache
      ensures engine.cache.Valid()
      ensures result == Detection(engine.manager.current, data, mode, engine.cache.lib)
    {
      result := engine.Detect(data, mode);
    }
  }
}
