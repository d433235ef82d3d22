/**
 * The SDK and the policy backend together: the backend's rules endpoint as
 * the SDK's transport (a conditional GET under sections 13.1.2 and 15.4.5
 * of RFC 9110, with tags compared by exact string equality), and the rules
 * the backend builds as the engine evaluates them.
 */
module EndToEnd {
  import opened Wrappers
  import opened Model
  import opened Regex
  import opened Strings
  import opened Config
  import opened Http
  import opened Integers
  import opened Cache
  import opened RuleManager
  import opened Policies
  import opened RulesController
  import DetectionEngine

  /** The If-None-Match value a request carries, if any. */
  function IfNoneMatchOf(request: Request): (tag: Option<string>)
    ensures tag.Some? <==> IfNoneMatch in request.headers
    ensures tag.Some? ==> tag.value == request.headers[IfNoneMatch]
  {
    if IfNoneMatch in request.headers then Some(request.headers[IfNoneMatch]) else None
  }

  /** The endpoint's answer as the client receives it: a bare 304, or 200 with the ETag header and the JSON body. */
  function OnTheWire(reply: RulesReply, serialize: Ruleset -> string): (wire: Reply)
    ensures reply.NotModified? ==> wire == Response(Http.NotModified, None, None)
    ensures reply.Served? ==> wire == Response(200, Some(reply.eTag), Some(serialize(reply.ruleset)))
  {
    match reply
    case NotModified => Response(Http.NotModified, None, None)
    case Served(ruleset, eTag) => Response(200, Some(eTag), Some(serialize(ruleset)))
  }

  /**
   * The backend as the client's transport, for a freshly built ruleset
   * `latest` whose computed tag is `eTag` and the ruleset `last` it served
   * before.
   */
  function Backend(latest: Ruleset, eTag: string, last: Option<Ruleset>, serialize: Ruleset -> string): Request -> Reply {
    (request: Request) => OnTheWire(Answer(latest, eTag, IfNoneMatchOf(request), last).0, serialize)
  }

  /**
   * A client holding the current tag, asking a backend that has served
   * before, gets 304 and keeps its ruleset, its tag and its cache files.
   */
  lemma RevalidationChangesNothing(s: FreshnessState, env: Env, unwritable: set<string>,
                                   latest: Ruleset, eTag: string, last: Option<Ruleset>,
                                   serialize: Ruleset -> string, parse: string -> Parsed)
    requires s.lastETag == Some(eTag) && last.Some?
    requires RequestBuildable(PolicyUrl(env), s.lastETag)
    ensures FetchStep(s, env, unwritable, Backend(latest, eTag, last, serialize), parse) == Ok(s)
  {
    var request := BuildRequest(PolicyUrl(env), s.lastETag);
    assert IfNoneMatchOf(request) == Some(eTag);
    NoResponseNoChange(s, env, unwritable, Backend(latest, eTag, last, serialize), parse);
  }

  /**
   * When the tags differ (or nothing was served yet) and the JSON round trip
   * is faithful, the client adopts the tagged ruleset, records its tag, and
   * sends that tag as If-None-Match next time.
   */
  lemma NewTagAdopted(s: FreshnessState, env: Env, unwritable: set<string>,
                      latest: Ruleset, eTag: string, last: Option<Ruleset>,
                      serialize: Ruleset -> string, parse: string -> Parsed)
    requires s.lastETag != Some(eTag) || last.None?
    requires RequestBuildable(PolicyUrl(env), s.lastETag)
    requires parse(serialize(latest.(eTag := Some(eTag)))) == Decoded(latest.(eTag := Some(eTag)))
    ensures var t := FetchStep(s, env, unwritable, Backend(latest, eTag, last, serialize), parse);
      && t.Ok?
      && t.value.current == Some(latest.(eTag := Some(eTag)))
      && t.value.lastETag == Some(eTag)
      && BuildRequest(PolicyUrl(env), t.value.lastETag).headers == map[IfNoneMatch := eTag]
  {
    var transport := Backend(latest, eTag, last, serialize);
    var request := BuildRequest(PolicyUrl(env), s.lastETag);
    assert IfNoneMatchOf(request) == s.lastETag;
    var tagged := latest.(eTag := Some(eTag));
    assert transport(request) == Response(200, Some(eTag), Some(serialize(tagged)));
    assert FetchLatest(PolicyUrl(env), s.lastETag, transport, parse) == Ok(Some(VersionedResponse(tagged, Some(eTag))));
    assert tagged.(eTag := Some(eTag)) == tagged;
  }

  /**
   * Every tag the backend computes passes OkHttp's header-value check, so a
   * client that adopted it can send it back as If-None-Match.
   */
  lemma BackendTagsAccepted(version: string, rulesHash: int)
    requires IsInt32(rulesHash)
    ensures HeaderValueAccepted(ComputeETag(version, rulesHash))
  {
    var eTag := ComputeETag(version, rulesHash);
    forall k | 0 <= k < |eTag|
      ensures ' ' <= eTag[k] <= '~'
    {
      if 0 < k < |eTag| - 1 {
        assert eTag[k] == eTag[1..|eTag| - 1][k - 1];
      }
    }
  }

  /** A regex matcher whose pattern compiles never throws. */
  lemma RegexMatcherHit(pattern: string, data: string, lib: RegexLib)
    requires lib.compiles(pattern)
    ensures DetectionEngine.MatcherHit(MatcherOf(pattern), data, lib) == Ok(lib.find(pattern, data))
  {
    assert EqualsIgnoreCase("regex", RegexType);
  }

  /**
   * A rule built from a policy whose patterns all compile matches exactly
   * when one of its patterns is found in the data.
   */
  lemma BuiltRuleMatches(p: PolicyData, data: string, lib: RegexLib)
    requires forall k :: 0 <= k < |p.patterns| ==> lib.compiles(p.patterns[k])
    ensures DetectionEngine.RuleMatches(RuleOf(p).matchers, data, lib) ==
      Ok(exists k :: 0 <= k < |p.patterns| && lib.find(p.patterns[k], data))
  {
    var matchers := RuleOf(p).matchers;
    forall k | 0 <= k < |matchers|
      ensures DetectionEngine.MatcherHit(matchers[k], data, lib) == Ok(lib.find(p.patterns[k], data))
    {
      RegexMatcherHit(p.patterns[k], data, lib);
    }
    DetectionEngine.RuleMatchesWithoutErrors(matchers, data, lib);
  }
}
