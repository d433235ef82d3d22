/**
 * The rule-freshness state machine: which ruleset is current, which ETag is
 * sent with the next conditional request, and what the disk cache holds.
 * `init` prefers the cache over the bundled bootstrap rules, fetches once,
 * then registers a periodic refresh; each refresh either changes nothing or
 * adopts, stamps, records and persists a new ruleset.
 */
module RuleManager {
  import opened Wrappers
  import opened Model
  import opened Config
  import opened Cache
  import opened Http

  /** A periodic task registration, in seconds. */
  datatype Schedule = Schedule(initialDelay: int, period: int)

  /** Why `init` aborted. */
  datatype InitError =
    | BootstrapUnavailable     // the bootstrap resource is missing or does not parse
    | FetchFailed(cause: FetchException)  // the startup fetch threw
    | IllegalPeriod(period: int)  // the scheduler refuses a period that is not positive

  /** What a fetch can observe and change: the current ruleset, the last ETag and the cache files. */
  datatype FreshnessState = FreshnessState(current: Option<Ruleset>, lastETag: Option<string>, files: map<string, Stored>)

  /** The current ruleset carries the ETag that the next request will send. */
  predicate Synced(s: FreshnessState) {
    s.current.Some? && s.current.value.eTag == s.lastETag
  }

  /** Steps 1 and 2 of `init`: adopt the cached ruleset and its ETag, else the bootstrap rules. */
  function StartingState(s: FreshnessState, env: Env, bootstrap: Parsed): (r: Result<FreshnessState, InitError>)
    ensures r.Ok? ==> r.value.files == s.files
    ensures LoadLatestFrom(env, s.files).Some? ==>
      r == Ok(s.(current := LoadLatestFrom(env, s.files), lastETag := LoadLatestFrom(env, s.files).value.eTag))
    ensures LoadLatestFrom(env, s.files).None? ==>
      (r.Err? <==> bootstrap.Malformed?) &&
      (r.Ok? ==> r.value.lastETag == s.lastETag) &&
      (bootstrap.Decoded? ==> r.value.current == Some(bootstrap.ruleset)) &&
      (bootstrap.JsonNull? ==> r.value.current == None)
  {
    match LoadLatestFrom(env, s.files)
    case Some(cached) => Ok(s.(current := Some(cached), lastETag := cached.eTag))
    case None =>
      match bootstrap
      case Malformed => Err(BootstrapUnavailable)
      case JsonNull => Ok(s.(current := None))
      case Decoded(rules) => Ok(s.(current := Some(rules)))
  }

  /**
   * Starting from the cache or from a decoded bootstrap ruleset, a ruleset
   * is current, and a fetch that does not throw leaves one current.
   */
  lemma StartedWithRuleset(s: FreshnessState, env: Env, bootstrap: Parsed, unwritable: set<string>, transport: Request -> Reply, parse: string -> Parsed)
    requires LoadLatestFrom(env, s.files).Some? || bootstrap.Decoded?
    ensures StartingState(s, env, bootstrap).Ok?
    ensures StartingState(s, env, bootstrap).value.current.Some?
    ensures var started := StartingState(s, env, bootstrap).value;
      FetchStep(started, env, unwritable, transport, parse).Ok? ==>
      FetchStep(started, env, unwritable, transport, parse).value.current.Some?
  {
  }

  /** `fetchRemoteAndUpdate` as a transition. */
  function FetchStep(s: FreshnessState, env: Env, unwritable: set<string>, transport: Request -> Reply, parse: string -> Parsed)
    : Result<FreshnessState, FetchException>
  {
    match FetchLatest(PolicyUrl(env), s.lastETag, transport, parse)
    case Err(e) => Err(e)
    case Ok(None) => Ok(s)
    case Ok(Some(response)) =>
      var stamped := response.ruleset.(eTag := response.eTag);
      Ok(FreshnessState(Some(stamped), response.eTag, SaveTo(env, unwritable, s.files, stamped)))
  }

  /** No response (304, failure status, I/O or parse failure): nothing changes and nothing is saved. */
  lemma NoResponseNoChange(s: FreshnessState, env: Env, unwritable: set<string>, transport: Request -> Reply, parse: string -> Parsed)
    requires FetchLatest(PolicyUrl(env), s.lastETag, transport, parse) == Ok(None)
    ensures FetchStep(s, env, unwritable, transport, parse) == Ok(s)
  {
  }

  /**
   * A URL or a last ETag that OkHttp refuses makes the fetch throw before
   * anything is sent: nothing changes and nothing is saved.
   */
  lemma RefusedRequestThrows(s: FreshnessState, env: Env, unwritable: set<string>, transport: Request -> Reply, parse: string -> Parsed)
    requires !RequestBuildable(PolicyUrl(env), s.lastETag)
    ensures FetchStep(s, env, unwritable, transport, parse) == Err(IllegalArgument)
  {
  }

  /**
   * A response stamps its ETag onto the ruleset, makes it current, records
   * the ETag for the next request (an absent ETag removes If-None-Match from
   * it) and, when both cache files are writable, persists it for
   * `loadLatest`.
   */
  lemma UpdateAdoptsResponse(s: FreshnessState, env: Env, unwritable: set<string>, transport: Request -> Reply, parse: string -> Parsed)
    requires FetchLatest(PolicyUrl(env), s.lastETag, transport, parse).Ok?
    requires FetchLatest(PolicyUrl(env), s.lastETag, transport, parse).value.Some?
    ensures var response := FetchLatest(PolicyUrl(env), s.lastETag, transport, parse).value.value;
      var t := FetchStep(s, env, unwritable, transport, parse);
      t.Ok? && Synced(t.value) &&
      t.value.current == Some(response.ruleset.(eTag := response.eTag)) &&
      t.value.lastETag == response.eTag &&
      (IfNoneMatch in BuildRequest(PolicyUrl(env), t.value.lastETag).headers <==> response.eTag.Some?) &&
      (VersionCacheFile(env, response.ruleset.version) !in unwritable && LatestCacheFile(env) !in unwritable ==>
        LoadLatestFrom(env, t.value.files) == t.value.current)
  {
    var response := FetchLatest(PolicyUrl(env), s.lastETag, transport, parse).value.value;
    var stamped := response.ruleset.(eTag := response.eTag);
    if VersionCacheFile(env, response.ruleset.version) !in unwritable && LatestCacheFile(env) !in unwritable {
      SaveThenLoad(env, unwritable, s.files, stamped);
    }
  }

  /** A fetch keeps the current ruleset and the last ETag in step. */
  lemma FetchPreservesSynced(s: FreshnessState, env: Env, unwritable: set<string>, transport: Request -> Reply, parse: string -> Parsed)
    requires Synced(s)
    requires FetchStep(s, env, unwritable, transport, parse).Ok?
    ensures Synced(FetchStep(s, env, unwritable, transport, parse).value)
  {
  }

  /** Starting from the cache leaves the state in step. */
  lemma CacheStartSynced(s: FreshnessState, env: Env, bootstrap: Parsed)
    requires LoadLatestFrom(env, s.files).Some?
    ensures StartingState(s, env, bootstrap).Ok? && Synced(StartingState(s, env, bootstrap).value)
  {
  }

  /**
   * A process that restarts after a fully persisted update starts from that
   * update's ruleset and sends its ETag again, whatever the bootstrap rules.
   */
  lemma RestartResumesFromCache(s: FreshnessState, env: Env, unwritable: set<string>,
                                transport: Request -> Reply, parse: string -> Parsed,
                                bootstrap: Parsed, restarted: FreshnessState)
    requires FetchLatest(PolicyUrl(env), s.lastETag, transport, parse).Ok?
    requires FetchLatest(PolicyUrl(env), s.lastETag, transport, parse).value.Some?
    requires VersionCacheFile(env, FetchLatest(PolicyUrl(env), s.lastETag, transport, parse).value.value.ruleset.version) !in unwritable
    requires LatestCacheFile(env) !in unwritable
    requires FetchStep(s, env, unwritable, transport, parse).Ok?
    requires restarted == FreshnessState(None, None, FetchStep(s, env, unwritable, transport, parse).value.files)
    ensures var t := FetchStep(s, env, unwritable, transport, parse).value;
      StartingState(restarted, env, bootstrap) == Ok(t)
  {
    UpdateAdoptsResponse(s, env, unwritable, transport, parse);
  }

  /**
   * The periodic task: each run's exception is caught and logged, so a
   * failing run leaves the state alone and later runs still happen.
   */
  function Polls(s: FreshnessState, env: Env, unwritable: set<string>, transports: seq<Request -> Reply>, parse: string -> Parsed)
    : FreshnessState
    decreases |transports|
  {
    if transports == [] then s
    else
      var next := match FetchStep(s, env, unwritable, transports[0], parse)
        case Err(_) => s
        case Ok(t) => t;
      Polls(next, env, unwritable, transports[1..], parse)
  }

  /** Once in step, the state stays in step across any number of periodic runs. */
  lemma {:induction false} PollsPreserveSynced(s: FreshnessState, env: Env, unwritable: set<string>,
                                              transports: seq<Request -> Reply>, parse: string -> Parsed)
    requires Synced(s)
    ensures Synced(Polls(s, env, unwritable, transports, parse))
    decreases |transports|
  {
    if transports != [] {
      if FetchStep(s, env, unwritable, transports[0], parse).Ok? {
        FetchPreservesSynced(s, env, unwritable, transports[0], parse);
      }
      var next := match FetchStep(s, env, unwritable, transports[0], parse)
        case Err(_) => s
        case Ok(t) => t;
      PollsPreserveSynced(next, env, unwritable, transports[1..], parse);
    }
  }

  /** Runs that all answer "not modified" (or fail) leave the state exactly as it was. */
  lemma {:induction false} QuietPollsChangeNothing(s: FreshnessState, env: Env, unwritable: set<string>,
                                                  transports: seq<Request -> Reply>, parse: string -> Parsed)
    requires forall i :: 0 <= i < |transports| ==> FetchLatest(PolicyUrl(env), s.lastETag, transports[i], parse).Ok?
    requires forall i :: 0 <= i < |transports| ==> FetchLatest(PolicyUrl(env), s.lastETag, transports[i], parse).value.None?
    ensures Polls(s, env, unwritable, transports, parse) == s
    decreases |transports|
  {
    if transports != [] {
      assert FetchStep(s, env, unwritable, transports[0], parse) == Ok(s);
      QuietPollsChangeNothing(s, env, unwritable, transports[1..], parse);
    }
  }

  /**
   * The rule manager: the current ruleset (null before `init`), the periodic
   * tasks registered so far, and the shared configuration and cache.
   */
  class RuleManager {
    var current: Option<Ruleset>
    var scheduled: seq<Schedule>
    const config: SdkConfig
    const store: CacheStore

    constructor (config: SdkConfig, store: CacheStore)
      ensures current == None && scheduled == []
      ensures this.config == config && this.store == store
    {
      current := None;
      scheduled := [];
      this.config := config;
      this.store := store;
    }

    /** The system properties and environment, shared with the cache store. */
    function Environment(): Env {
      store.env
    }

    /** `getCurrentRuleset`. */
    function CurrentRuleset(): Option<Ruleset>
      reads this
    {
      current
    }

    /** The part of the state a fetch reads and writes. */
    function State(): FreshnessState
      reads this, config, store
    {
      FreshnessState(current, config.lastETag, store.files)
    }

    /** `fetchRemoteAndUpdate`: an exception from `fetchLatest` is passed to the caller. */
    method FetchRemoteAndUpdate(transport: Request -> Reply, parse: string -> Parsed) returns (outcome: Outcome<FetchException>)
      modifies this, config, store
      ensures scheduled == old(scheduled)
      ensures match FetchStep(old(State()), Environment(), store.unwritable, transport, parse)
        case Err(e) => outcome == Fail(e) && State() == old(State())
        case Ok(t) => outcome == Pass && State() == t
    {
      ghost var before := State();
      var response := FetchLatest(PolicyUrl(Environment()), config.LastETag(), transport, parse);
      assert FetchStep(before, Environment(), store.unwritable, transport, parse) ==
        match response
        case Err(e) => Err(e)
        case Ok(None) => Ok(before)
        case Ok(Some(fetched)) =>
          var stamped := fetched.ruleset.(eTag := fetched.eTag);
          Ok(FreshnessState(Some(stamped), fetched.eTag, SaveTo(Environment(), store.unwritable, before.files, stamped)));
      match response
      case Err(e) =>
        return Fail(e);
      case Ok(None) =>
        return Pass;
      case Ok(Some(fetched)) =>
        var newRules := fetched.ruleset.(eTag := fetched.eTag);
        current := Some(newRules);
        config.SetLastETag(fetched.eTag);
        store.Save(newRules);
        return Pass;
    }

    /**
     * `init`: cache or bootstrap, one synchronous fetch, then a periodic
     * refresh with initial delay and period both equal to the poll interval.
     */
    method Init(bootstrap: Parsed, transport: Request -> Reply, parse: string -> Parsed) returns (outcome: Outcome<InitError>)
      modifies this, config, store
      ensures match StartingState(old(State()), Environment(), bootstrap)
        case Err(e) => outcome == Fail(e) && State() == old(State()) && scheduled == old(scheduled)
        case Ok(started) =>
          match FetchStep(started, Environment(), store.unwritable, transport, parse)
          case Err(e) => outcome == Fail(FetchFailed(e)) && State() == started && scheduled == old(scheduled)
          case Ok(fetched) =>
            State() == fetched &&
            var interval := PollIntervalSeconds(Environment());
            if interval <= 0 then outcome == Fail(IllegalPeriod(interval)) && scheduled == old(scheduled)
            else outcome == Pass && scheduled == old(scheduled) + [Schedule(interval, interval)]
    {
      var cached := store.LoadLatest();
      match cached {
        case Some(rules) =>
          current := Some(rules);
          config.SetLastETag(rules.eTag);
        case None =>
          match bootstrap {
            case Malformed =>
              return Fail(BootstrapUnavailable);
            case JsonNull =>
              current := None;
            case Decoded(rules) =>
              current := Some(rules);
          }
      }
      var fetched := FetchRemoteAndUpdate(transport, parse);
      if fetched.Fail? {
        return Fail(FetchFailed(fetched.error));
      }
      var interval := PollIntervalSeconds(Environment());
      if interval <= 0 {
        return Fail(IllegalPeriod(interval));
      }
      scheduled := scheduled + [Schedule(interval, interval)];
      return Pass;
    }

    /** One run of the periodic task: any exception is swallowed. */
    method PollOnce(transport: Request -> Reply, parse: string -> Parsed)
      modifies this, config, store
      ensures scheduled == old(scheduled)
      ensures State() == Polls(old(State()), Environment(), store.unwritable, [transport], parse)
    {
      var ignored := FetchRemoteAndUpdate(transport, parse);
    }

    /** Successive runs of the periodic task, one transport per run. */
    method RunPolls(transports: seq<Request -> Reply>, parse: string -> Parsed)
      modifies this, config, store
      ensures scheduled == old(scheduled)
      ensures State() == Polls(old(State()), Environment(), store.unwritable, transports, parse)
    {
      var i := 0;
      while i < |transports|
        invariant 0 <= i <= |transports|
        invariant scheduled == old(scheduled)
        invariant Polls(old(State()), Environment(), store.unwritable, transports, parse) ==
                  Polls(State(), Environment(), store.unwritable, transports[i..], parse)
      {
        assert transports[i..][1..] == transports[i + 1..];
        PollOnce(transports[i], parse);
        i := i + 1;
      }
    }
  }
}
