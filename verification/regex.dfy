/**
 * The `java.util.regex` library, left uninterpreted: which pattern sources
 * compile, and what `Matcher.find` answers for a compiled pattern and a text.
 */
module Regex {
  import opened Wrappers

  /** A compiled pattern; only the source it was compiled from is observable. */
  datatype Pattern = Pattern(source: string)

  /** The `PatternSyntaxException` thrown for a malformed source. */
  datatype PatternSyntaxError = PatternSyntaxError(source: string)

  /** The regular-expression engine as two uninterpreted functions. */
  datatype RegexLib = RegexLib(compiles: string -> bool, find: (string, string) -> bool)

  /** `Pattern.compile`, which throws for a malformed source. */
  function Compile(lib: RegexLib, source: string): (r: Result<Pattern, PatternSyntaxError>)
    ensures r.Ok? <==> lib.compiles(source)
    ensures r.Ok? ==> r.value.source == source
    ensures r.Err? ==> r.error.source == source
  {
    if lib.compiles(source) then Ok(Pattern(source)) else Err(PatternSyntaxError(source))
  }

  /** `pattern.matcher(text).find()`: some substring of `text` matches. */
  predicate Find(lib: RegexLib, pattern: Pattern, text: string) {
    lib.find(pattern.source, text)
  }
}
