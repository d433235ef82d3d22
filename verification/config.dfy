/**
 * SDK configuration: lookups that prefer a JVM system property, then an
 * environment variable, then a built-in default, and the last ETag seen from
 * the policy service. System properties and the environment are read-only
 * inputs here.
 */
module Config {
  import opened Wrappers
  import opened Integers

  /** The JVM system properties and the process environment. */
  datatype Env = Env(properties: map<string, string>, variables: map<string, string>)

  /** `System.getProperty(key)`: absent keys read as null. */
  function Property(env: Env, key: string): Option<string> {
    if key in env.properties then Some(env.properties[key]) else None
  }

  /** `System.getenv(key)`. */
  function Variable(env: Env, key: string): Option<string> {
    if key in env.variables then Some(env.variables[key]) else None
  }

  /** Neither null nor empty. */
  predicate Present(v: Option<string>) {
    v.Some? && v.value != []
  }

  /**
   * The property when it is present, otherwise the environment variable as
   * it is (which may itself be absent or empty).
   */
  function Pick(env: Env, property: string, variable: string): Option<string> {
    if Present(Property(env, property)) then Property(env, property) else Variable(env, variable)
  }

  const PolicyUrlProperty := "sdk.policy.url"
  const PolicyUrlVariable := "SDK_POLICY_URL"
  const DefaultPolicyUrl := "http://localhost:8081/api/v1/rules"
  const PollIntervalProperty := "sdk.rule.poll.interval.seconds"
  const PollIntervalVariable := "SDK_RULE_POLL_INTERVAL_SECONDS"
  const DefaultPollIntervalSeconds := 900

  /** `getPolicyUrl`: property, then environment, then the default; never empty. */
  function PolicyUrl(env: Env): (url: string)
    ensures url != []
    ensures Present(Property(env, PolicyUrlProperty)) ==>
      url == Property(env, PolicyUrlProperty).value
    ensures !Present(Property(env, PolicyUrlProperty)) && Present(Variable(env, PolicyUrlVariable)) ==>
      url == Variable(env, PolicyUrlVariable).value
    ensures !Present(Property(env, PolicyUrlProperty)) && !Present(Variable(env, PolicyUrlVariable)) ==>
      url == DefaultPolicyUrl
  {
    var picked := Pick(env, PolicyUrlProperty, PolicyUrlVariable);
    if Present(picked) then picked.value else DefaultPolicyUrl
  }

  /**
   * `getPollIntervalSeconds`: the picked value when it parses as an `int`,
   * with no range check, else 900.
   */
  function PollIntervalSeconds(env: Env): (seconds: int)
    ensures IsInt32(seconds)
    ensures var picked := Pick(env, PollIntervalProperty, PollIntervalVariable);
      if Present(picked) && ParseInt(picked.value).Some?
      then seconds == ParseInt(picked.value).value
      else seconds == DefaultPollIntervalSeconds
  {
    var picked := Pick(env, PollIntervalProperty, PollIntervalVariable);
    if Present(picked) then
      match ParseInt(picked.value)
      case Some(n) => n
      case None => DefaultPollIntervalSeconds
    else DefaultPollIntervalSeconds
  }

  /**
   * A property that does not parse gives the default even when the
   * environment variable holds a valid number: the environment is consulted
   * only when the property is absent or empty.
   */
  lemma UnparseablePropertyIgnoresVariable(env: Env)
    requires Present(Property(env, PollIntervalProperty))
    requires ParseInt(Property(env, PollIntervalProperty).value).None?
    ensures PollIntervalSeconds(env) == DefaultPollIntervalSeconds
  {
  }

  /** Any `int` written in decimal is read back as that value, zero and negatives included. */
  lemma PollIntervalRoundTrip(env: Env, n: int)
    requires IsInt32(n)
    requires Property(env, PollIntervalProperty) == Some(IntToString(n))
    ensures PollIntervalSeconds(env) == n
  {
    ParseIntToString(n);
  }

  /** The holder of the last ETag received from the policy service (initially null). */
  class SdkConfig {
    var lastETag: Option<string>

    constructor ()
      ensures lastETag == None
    {
      lastETag := None;
    }

    function LastETag(): Option<string>
      reads this
    {
      lastETag
    }

    /** `setLastETag`: the getter then returns exactly `eTag`, null included. */
    method SetLastETag(eTag: Option<string>)
      modifies this
      ensures LastETag() == eTag
    {
      lastETag := eTag;
    }
  }
}
