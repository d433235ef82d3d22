/**
 * The rules endpoint of the policy backend: it turns the published policies
 * into a ruleset (one enabled rule per policy, one regex matcher per
 * pattern), versions it, tags it, and answers a conditional GET with 304
 * when the client's tag equals the current one and a ruleset was served
 * before.
 */
module RulesController {
  import opened Wrappers
  import opened Model
  import opened Integers
  import opened Policies
  import opened PolicyStore
  import opened PolicyServices
  import opened PolicyVersion

  /** The matcher type every backend pattern gets. */
  const RegexType: string := "regex"

  /** The matcher built for one policy pattern. */
  function MatcherOf(pattern: string): MatcherDef {
    MatcherDef(Some(RegexType), pattern)
  }

  /** One regex matcher per pattern, in pattern order. */
  function MatchersOf(patterns: seq<string>): (matchers: seq<MatcherDef>)
    ensures |matchers| == |patterns|
    ensures forall k :: 0 <= k < |patterns| ==> matchers[k] == MatcherOf(patterns[k])
  {
    if patterns == [] then [] else [MatcherOf(patterns[0])] + MatchersOf(patterns[1..])
  }

  /** The inner loop of `buildRuleset`: one regex matcher per pattern, appended in order. */
  method BuildMatchers(patterns: seq<string>) returns (matchers: seq<MatcherDef>)
    ensures matchers == MatchersOf(patterns)
  {
    matchers := [];
    var k := 0;
    while k < |patterns|
      invariant 0 <= k <= |patterns|
      invariant |matchers| == k
      invariant forall m :: 0 <= m < k ==> matchers[m] == MatcherOf(patterns[m])
    {
      matchers := matchers + [MatcherDef(Some(RegexType), patterns[k])];
      k := k + 1;
    }
  }

  /** The rule served for a published policy. */
  function RuleOf(p: PolicyData): (rule: Rule)
    ensures rule.id == p.id && rule.name == p.name && rule.level == p.level && rule.priority == p.priority
    ensures rule.enabled
    ensures |rule.matchers| == |p.patterns|
    ensures forall k :: 0 <= k < |p.patterns| ==> rule.matchers[k] == MatcherDef(Some("regex"), p.patterns[k])
  {
    Rule(p.id, p.name, p.level, p.priority, MatchersOf(p.patterns), true)
  }

  /** Exactly one rule per published policy, in listing order. */
  function RulesOf(published: seq<PolicyData>): (rules: seq<Rule>)
    ensures |rules| == |published|
    ensures forall i :: 0 <= i < |published| ==> rules[i] == RuleOf(published[i])
  {
    if published == [] then [] else [RuleOf(published[0])] + RulesOf(published[1..])
  }

  /** The ruleset built from a listing of the published policies, not yet tagged. */
  function BuiltRuleset(published: seq<PolicyData>): (ruleset: Ruleset)
    ensures ruleset.rules == Some(RulesOf(published))
    ensures ruleset.version == CalculateVersion(published)
    ensures ruleset.eTag == None
  {
    Ruleset(CalculateVersion(published), Some(RulesOf(published)), None)
  }

  /**
   * `computeETag`: the quoted hex hash of the version and the rules list's
   * hash code. That hash code depends on the identity of freshly built
   * rule objects, so it comes in as an unconstrained `rulesHash`.
   */
  function ComputeETag(version: string, rulesHash: int): (eTag: string)
    requires IsInt32(rulesHash)
    ensures 3 <= |eTag| <= 10
    ensures eTag[0] == '"' && eTag[|eTag| - 1] == '"'
    ensures AllHex(eTag[1..|eTag| - 1])
  {
    var candidate := version + "-" + IntToString(rulesHash);
    ToHexStringLength(StringHash(candidate));
    var digits := ToHexString(StringHash(candidate));
    var eTag := "\"" + digits + "\"";
    assert eTag[1..|eTag| - 1] == digits;
    eTag
  }

  /** What the endpoint answers: 304 Not Modified, or 200 with the ruleset and its ETag header. */
  datatype RulesReply = NotModified | Served(ruleset: Ruleset, eTag: string)

  /**
   * The answer and the new last-served ruleset for a freshly built ruleset
   * `latest` tagged `eTag`, given the request's If-None-Match value and
   * the ruleset served last.
   */
  function Answer(latest: Ruleset, eTag: string, ifNoneMatch: Option<string>, last: Option<Ruleset>): (result: (RulesReply, Option<Ruleset>))
    ensures result.0.NotModified? <==> ifNoneMatch == Some(eTag) && last.Some?
    ensures result.0.NotModified? ==> result.1 == last
    ensures result.0.Served? ==>
      && result.0.ruleset == latest.(eTag := Some(eTag))
      && result.0.eTag == eTag
      && result.1 == Some(result.0.ruleset)
  {
    if ifNoneMatch == Some(eTag) && last.Some? then (NotModified, last)
    else
      var tagged := latest.(eTag := Some(eTag));
      (Served(tagged, eTag), Some(tagged))
  }

  /** Nothing was served yet: the first request gets the ruleset whatever tag it carries. */
  lemma FirstRequestServed(latest: Ruleset, eTag: string, ifNoneMatch: Option<string>)
    ensures Answer(latest, eTag, ifNoneMatch, None).0 == Served(latest.(eTag := Some(eTag)), eTag)
  {
  }

  /**
   * After a 200, a request carrying the served tag gets 304 as long as the
   * recomputed tag is the same.
   */
  lemma ServedTagRevalidates(latest: Ruleset, eTag: string, ifNoneMatch: Option<string>, last: Option<Ruleset>, again: Ruleset)
    requires Answer(latest, eTag, ifNoneMatch, last).0.Served?
    ensures var (reply, next) := Answer(latest, eTag, ifNoneMatch, last);
      Answer(again, eTag, Some(reply.eTag), next) == (NotModified, next)
  {
  }

  class RulesController {
    const service: PolicyService
    /** The ruleset served last (an `AtomicReference`, read and written sequentially here). */
    var lastRuleset: Option<Ruleset>

    ghost predicate Valid()
      reads this, service, service.repository
    {
      service.Valid()
    }

    constructor (service: PolicyService)
      ensures this.service == service && lastRuleset == None
    {
      this.service := service;
      lastRuleset := None;
    }

    /**
     * `fetchRules`: builds the current ruleset, tags it, and answers the
     * conditional GET; `published` is the listing the build used.
     */
    method FetchRules(ifNoneMatch: Option<string>, rulesHash: int) returns (reply: RulesReply, ghost published: seq<PolicyData>)
      requires Valid() && IsInt32(rulesHash)
      modifies this
      ensures ListsExactly(service.repository.storage, published, WithStatus(Published))
      ensures var latest := BuiltRuleset(published);
        (reply, lastRuleset) == Answer(latest, ComputeETag(latest.version, rulesHash), ifNoneMatch, old(lastRuleset))
    {
      var latest;
      latest, published := BuildRuleset();
      var eTag := ComputeETag(latest.version, rulesHash);
      var cached := lastRuleset;
      if ifNoneMatch == Some(eTag) && cached.Some? {
        reply := NotModified;
        return;
      }
      latest := latest.(eTag := Some(eTag));
      lastRuleset := Some(latest);
      reply := Served(latest, eTag);
    }

    /**
     * `buildRuleset`: one rule per published policy and one regex matcher
     * per pattern, built by two nested loops, and the version of the listing.
     */
    method BuildRuleset() returns (ruleset: Ruleset, ghost published: seq<PolicyData>)
      requires Valid()
      ensures ListsExactly(service.repository.storage, published, WithStatus(Published))
      ensures ruleset == BuiltRuleset(published)
    {
      var listing := service.ListPublished();
      published := listing;
      var rules: seq<Rule> := [];
      var i := 0;
      while i < |listing|
        invariant 0 <= i <= |listing|
        invariant |rules| == i
        invariant forall n :: 0 <= n < i ==> rules[n] == RuleOf(listing[n])
      {
        var policy := listing[i];
        var matchers := BuildMatchers(policy.patterns);
        var rule := Rule(policy.id, policy.name, policy.level, policy.priority, matchers, true);
        assert rule == RuleOf(policy);
        rules := rules + [rule];
        i := i + 1;
      }
      assert rules == RulesOf(listing);
      ruleset := Ruleset(CalculateVersion(listing), Some(rules), None);
    }
  }
}
