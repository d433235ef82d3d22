/**
 * The rule data shared by the SDK and the policy backend: matcher
 * definitions, rules, rulesets and the two classification modes. They carry
 * no logic of their own.
 */
module Model {
  import opened Wrappers

  /**
   * One matcher of a rule. `kind` is the matcher type ("regex", "fuzzy",
   * "dictionary", ...), absent when the JSON left it out; `pattern` is read
   * according to the type. The optional floating-point confidence is never
   * read by the engine and is not modelled.
   */
  datatype MatcherDef = MatcherDef(kind: Option<string>, pattern: string)

  /** A classification rule: a higher `priority` wins; disabled rules are never evaluated. */
  datatype Rule = Rule(
    id: string,
    name: string,
    level: string,
    priority: int,
    matchers: seq<MatcherDef>,
    enabled: bool)

  /** A versioned list of rules; `rules` is absent when the JSON left it out. */
  datatype Ruleset = Ruleset(version: string, rules: Option<seq<Rule>>, eTag: Option<string>)

  /** Whether detection stops at the first matching rule or collects them all. */
  datatype Mode = TopMatchOnly | AllMatches
}
