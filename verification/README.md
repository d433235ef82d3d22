# classification-sdk in Dafny

A model of the core of the classification SDK and its policy backend, with
proofs of what the code promises.

The model covers three parts.

- **The SDK's detection path.**
  - `DetectionEngine.detect` sorts a copy of the current ruleset by
    descending priority. It skips disabled rules and asks each rule's
    matchers whether the text matches. In top-match mode it stops at the
    first hit.
  - There are three matcher types:
    - a regular expression, compiled through a 100-entry LRU cache;
    - a Levenshtein distance of at most 2;
    - a keyword dictionary.
  - `ClassificationSdk`, `DetectionResult` and the client's
    `ClassificationController` are thin layers over the engine.
- **The SDK's rule-freshness state machine.**
  - `RuleManager.init` starts from the disk cache or the bundled bootstrap
    rules. It then fetches once and schedules repeats.
  - `fetchRemoteAndUpdate` runs a conditional GET through
    `PolicyHttpClient`: If-None-Match, section 13.1.2 of RFC 9110; 304 Not
    Modified, section 15.4.5 of RFC 9110.
  - On an update it stamps the ETag onto the ruleset, makes the ruleset
    current, records the ETag in `SdkConfig`, and saves the ruleset through
    `CacheStore` to paths from `CachePaths`.
- **The policy backend.**
  - `PolicyRepository` is a map keyed by policy id.
  - `PolicyService` provides CRUD plus approve and publish.
  - `Policy` normalises nulls.
  - `RulesController` turns published policies into a ruleset, versions it
    from an id-sorted seed, tags it with an ETag, and answers 304 against
    the ruleset it served last.

## How the model is built

**Values and objects.**
- Rules, rulesets, matcher definitions, policies and detection results are
  datatypes.
- State the source updates in place is a class with fields and `modifies`
  clauses:
  - the current ruleset and the schedules of `RuleManager`;
  - `SdkConfig.lastETag`;
  - the pattern cache;
  - the cache files;
  - the repository map;
  - the backend's last-served ruleset;
  - the fields of `Policy`.
- Java statics become objects that are shared by reference.

**Imperative code is proved against pure functions.**
- `detect` is proved against `Detection`.
- `matches` is proved against `RuleMatches`.
- `levenshteinDistance`, over a 2-D array, is proved against `EditDistance`.
- The dictionary loop is proved against `DictionaryHit`.
- `fetchRemoteAndUpdate` is proved against `FetchStep`.
- `init` is proved against `StartingState` and `FetchStep`.
- `save` is proved against `SaveTo`.
- `findAll` and `findByStatus` are proved against `ListsExactly`.
- `buildRuleset` is proved against `RulesOf` and `CalculateVersion`.
- `fetchRules` is proved against `Answer`.

**Library sorts.** `List.sort` and `Stream.sorted` are library calls. They
are modelled as pure stable insertion sorts with proved properties.

**Parameters for everything outside the program.** Each of these becomes a
parameter:
- the regular-expression engine: which sources compile, and what `find`
  answers;
- the HTTP transport: a function from request to reply;
- the JSON mapper: a text is malformed, the literal `null`, or a ruleset;
- the bootstrap resource;
- the file system: a map from path to stored content, plus the set of
  paths whose writes fail when the file is opened;
- system properties and environment variables: two maps;
- the random UUID;
- the identity-dependent hash code of the rule list in `computeETag`.

**Exceptions.** Exceptions become `Result` and `Outcome` values:
- `PatternSyntaxException` out of `detect`;
- the `IllegalArgumentException` OkHttp throws while building the request,
  for a URL that is not http(s) or an If-None-Match value outside tab and
  visible ASCII; it is thrown before the `try`, so it escapes `fetchLatest`
  and, at startup, `init`;
- the `NullPointerException` for a JSON `null` body;
- the bootstrap failure;
- `IllegalArgumentException` from `scheduleAtFixedRate` for a period that
  is not positive.

## Model

| member | source | states |
|---|---|---|
| DetectionEngine.MatcherHit | classification-sdk/src/main/java/com/example/sdk/DetectionEngine.java:60-78 | a matcher throws iff its type is "regex" (ignoring case) and the pattern does not compile; a null or unknown type never hits |
| DetectionEngine.RuleMatches | classification-sdk/src/main/java/com/example/sdk/DetectionEngine.java:59-81 | a rule reports a hit only if one of its matchers hits, and throws only if one of its matchers throws |
| DetectionEngine.RuleMatchesWithoutErrors | classification-sdk/src/main/java/com/example/sdk/DetectionEngine.java:59-81 | when no matcher throws, a rule matches iff some matcher hits |
| DetectionEngine.IgnoredMatcherContributesNothing | classification-sdk/src/main/java/com/example/sdk/DetectionEngine.java:61-64 | removing a matcher with a null or unknown type never changes the outcome |
| DetectionEngine.Scan | classification-sdk/src/main/java/com/example/sdk/DetectionEngine.java:44-54 | the loop over the sorted rules; in top-match mode it reports at most one rule |
| DetectionEngine.Extend | classification-sdk/src/main/java/com/example/sdk/DetectionEngine.java:48-49 | prefixing a scan result keeps success or failure, and the prefix and the rest are both recoverable |
| DetectionEngine.ScanAllIsFilter | classification-sdk/src/main/java/com/example/sdk/DetectionEngine.java:44-54 | all-matches mode reports exactly the enabled, matching rules, in scan order |
| DetectionEngine.ScanAllErrors | classification-sdk/src/main/java/com/example/sdk/DetectionEngine.java:44-54 | all-matches mode throws iff some enabled rule's matchers throw |
| DetectionEngine.ScanTopIsFirstOfAll | classification-sdk/src/main/java/com/example/sdk/DetectionEngine.java:48-53 | top-match mode reports the first rule of the all-matches report, and throws only if all-matches mode throws |
| DetectionEngine.ScanTopIsFirstSelected | classification-sdk/src/main/java/com/example/sdk/DetectionEngine.java:44-53 | the top match is selected, and no earlier rule in scan order is enabled and matching |
| DetectionEngine.ScanEmptyIff | classification-sdk/src/main/java/com/example/sdk/DetectionEngine.java:44-54 | a scan without an exception reports nothing iff no rule is enabled and matching |
| DetectionEngine.Detection | classification-sdk/src/main/java/com/example/sdk/DetectionEngine.java:34-57 | the result keeps the input text and always holds a list, of at most one rule in top-match mode |
| DetectionEngine.NoRulesNoMatch | classification-sdk/src/main/java/com/example/sdk/DetectionEngine.java:35-38 | a null ruleset or a null rule list gives the input text, an empty list and no match |
| DetectionEngine.AllMatchesExactly | classification-sdk/src/main/java/com/example/sdk/DetectionEngine.java:40-56 | all-matches mode lists exactly the enabled, matching rules, each as often as the ruleset holds it; disabled rules never appear |
| DetectionEngine.MatchesOrderedAndStable | classification-sdk/src/main/java/com/example/sdk/DetectionEngine.java:41-42 | reported priorities never increase, and in all-matches mode the rules of one priority keep their ruleset order |
| DetectionEngine.TopMatchIsFirstOfAll | classification-sdk/src/main/java/com/example/sdk/DetectionEngine.java:48-53 | top-match mode reports the first rule of the all-matches report for the same input and ruleset |
| DetectionEngine.ScanTopHighest | classification-sdk/src/main/java/com/example/sdk/DetectionEngine.java:44-53 | over rules sorted by priority, the top match is at least as high as every enabled, matching rule |
| DetectionEngine.TopMatchHasHighestPriority | classification-sdk/src/main/java/com/example/sdk/DetectionEngine.java:40-53 | a top match has the highest priority among the enabled, matching rules of the ruleset |
| DetectionEngine.HasMatchIff | classification-sdk/src/main/java/com/example/sdk/DetectionEngine.java:44-56 | `hasMatch` holds iff some enabled rule of the ruleset matches |
| DetectionEngine.HigherPriorityReportedFirst | sdk-client-mock/src/test/java/com/example/sdkclientmock/ClassificationSdkTests.java:39-54 | with an id-card rule above a phone rule and both matching, all-matches mode gives [idcard, phone] and top-match mode gives [idcard] |
| DetectionEngine.DetectionEngine.Matches | classification-sdk/src/main/java/com/example/sdk/DetectionEngine.java:59-81 | the early-return loop over the matchers, looking regexes up in the cache, gives `RuleMatches` and keeps the cache valid |
| DetectionEngine.DetectionEngine.Detect | classification-sdk/src/main/java/com/example/sdk/DetectionEngine.java:34-57 | the sort-then-loop with `continue` and `break` gives `Detection` of the manager's current ruleset |
| PrioritySort.SortPermutation | classification-sdk/src/main/java/com/example/sdk/DetectionEngine.java:41-42 | the sorted copy is a permutation of the ruleset's rules |
| PrioritySort.SortNonIncreasing | classification-sdk/src/main/java/com/example/sdk/DetectionEngine.java:42 | the sorted copy lists priorities from highest to lowest |
| PrioritySort.SortStable | classification-sdk/src/main/java/com/example/sdk/DetectionEngine.java:42 | the rules of each priority keep their ruleset order, because the sort is stable |
| PrioritySort.FilterNonIncreasing | classification-sdk/src/main/java/com/example/sdk/DetectionEngine.java:44-54 | skipping rules keeps the priorities non-increasing |
| PrioritySort.PlaceInSorted | classification-sdk/src/main/java/com/example/sdk/DetectionEngine.java:41-42 | every rule of the ruleset has a position in the sorted copy |
| PatternCache.WithoutDistinct | classification-sdk/src/main/java/com/example/sdk/DetectionEngine.java:26-32 | removing a key keeps keys distinct and shrinks the map by one exactly when the key was present |
| PatternCache.TouchMostRecent | classification-sdk/src/main/java/com/example/sdk/DetectionEngine.java:26-32 | a hit keeps the same keys and size and makes the key the most recent |
| PatternCache.AdmitBounded | classification-sdk/src/main/java/com/example/sdk/DetectionEngine.java:29-31 | an insertion never takes the cache past 100 entries, and the new key is the most recent |
| PatternCache.AdmitEvictsLeastRecent | classification-sdk/src/main/java/com/example/sdk/DetectionEngine.java:27-31 | inserting a 101st key evicts exactly the least recently accessed key and keeps every other key |
| PatternCache.AdmitBelowCapacity | classification-sdk/src/main/java/com/example/sdk/DetectionEngine.java:29-31 | below capacity an insertion evicts nothing |
| PatternCache.EvictionIgnoresInsertionOrder | classification-sdk/src/main/java/com/example/sdk/DetectionEngine.java:27-31 | a re-accessed eldest key survives the next eviction, and the key after it goes instead |
| PatternCache.LruCache.ComputeIfAbsent | classification-sdk/src/main/java/com/example/sdk/DetectionEngine.java:66 | the answer is a fresh compilation's; a hit only refreshes recency; a miss inserts and may evict; a malformed source throws and adds no entry |
| FuzzyMatcher.EditDistanceStep | classification-sdk/src/main/java/com/example/sdk/FuzzyMatcher.java:53-58 | the recurrence one table cell computes from its three neighbours |
| FuzzyMatcher.LevenshteinDistance | classification-sdk/src/main/java/com/example/sdk/FuzzyMatcher.java:44-61 | the table method returns the unit-cost edit distance of the two strings |
| FuzzyMatcher.FillRow | classification-sdk/src/main/java/com/example/sdk/FuzzyMatcher.java:53-58 | the inner loop fills row i with the prefix distances and changes no other row |
| FuzzyMatcher.Matches | classification-sdk/src/main/java/com/example/sdk/FuzzyMatcher.java:28-32 | a fuzzy match holds iff the edit distance is at most 2 |
| FuzzyMatcher.EditDistanceEmpty | classification-sdk/src/main/java/com/example/sdk/FuzzyMatcher.java:45-51 | the distance to or from the empty string is the other string's length |
| FuzzyMatcher.EditDistanceSelf | classification-sdk/src/main/java/com/example/sdk/FuzzyMatcher.java:52-60 | every string is at distance 0 from itself, so it fuzzy-matches itself |
| FuzzyMatcher.EditDistanceZero | classification-sdk/src/main/java/com/example/sdk/FuzzyMatcher.java:52-60 | distance 0 only between equal strings |
| FuzzyMatcher.EditDistanceSymmetric | classification-sdk/src/main/java/com/example/sdk/FuzzyMatcher.java:44-60 | the distance is symmetric |
| FuzzyMatcher.EditDistanceBounds | classification-sdk/src/main/java/com/example/sdk/FuzzyMatcher.java:44-60 | the distance lies between the length difference and the longer length |
| FuzzyMatcher.LengthGapNeverMatches | classification-sdk/src/main/java/com/example/sdk/FuzzyMatcher.java:28-32 | strings whose lengths differ by more than 2 never match |
| FuzzyMatcher.EditDistanceDisjoint | classification-sdk/src/main/java/com/example/sdk/FuzzyMatcher.java:44-60 | strings with no character in common are as far apart as the longer is long |
| FuzzyMatcher.EditDistanceCommonSuffix | classification-sdk/src/main/java/com/example/sdk/FuzzyMatcher.java:54-58 | appending the same suffix to both strings never increases the distance |
| FuzzyMatcher.CaseSensitiveExamples | classification-sdk/src/main/java/com/example/sdk/FuzzyMatcher.java:54 | characters compare exactly: "Hello" vs "hello" is distance 1 and matches; "hello" vs "xyz" is 5 and does not |
| DictionaryMatcher.SplitAllChars | classification-sdk/src/main/java/com/example/sdk/DictionaryMatcher.java:49 | the split pieces consist of characters of the pattern other than ',' and ';' |
| DictionaryMatcher.Matches | classification-sdk/src/main/java/com/example/sdk/DictionaryMatcher.java:44-61 | the loop with `continue` and early return answers iff some trimmed, lower-cased, non-empty entry occurs in the lower-cased data; a null argument gives false |
| DictionaryMatcher.EmptyDataNeverMatches | classification-sdk/src/main/java/com/example/sdk/DictionaryMatcher.java:50-60 | empty data matches no pattern |
| DictionaryMatcher.BlankPatternNeverMatches | classification-sdk/src/main/java/com/example/sdk/DictionaryMatcher.java:52-55 | a pattern of only separators and blanks never matches |
| DictionaryMatcher.SplitSingle | classification-sdk/src/main/java/com/example/sdk/DictionaryMatcher.java:49 | a pattern without separators is one entry |
| DictionaryMatcher.SubstringNotWord | classification-sdk/src/main/java/com/example/sdk/DictionaryMatcher.java:56 | containment is by substring: "cat" matches "this is a category" |
| DictionaryMatcher.InteriorBlanksKept | classification-sdk/src/main/java/com/example/sdk/DictionaryMatcher.java:52 | only the ends of an entry are trimmed: " credit card " matches "my credit card" but not "creditcard" |
| DictionaryMatcher.SingleEntryHit | classification-sdk/src/main/java/com/example/sdk/DictionaryMatcher.java:49-58 | a one-entry pattern matches iff that entry hits |
| DictionaryMatcher.DataCaseIgnored | classification-sdk/src/main/java/com/example/sdk/DictionaryMatcher.java:50 | lower-casing the data does not change the result |
| DictionaryMatcher.SplitToLower | classification-sdk/src/main/java/com/example/sdk/DictionaryMatcher.java:49-52 | splitting commutes with lower-casing |
| DictionaryMatcher.KeywordOfLower | classification-sdk/src/main/java/com/example/sdk/DictionaryMatcher.java:52 | lower-casing an entry first does not change its keyword |
| DictionaryMatcher.PatternCaseIgnored | classification-sdk/src/main/java/com/example/sdk/DictionaryMatcher.java:49-52 | lower-casing the pattern does not change the result |
| DictionaryMatcher.CaseInsensitive | classification-sdk/src/main/java/com/example/sdk/DictionaryMatcher.java:50-52 | inputs differing only in letter case get the same answer |
| Strings.TrimIsInfix | classification-sdk/src/main/java/com/example/sdk/DictionaryMatcher.java:52 | `trim` returns a contiguous piece of its input |
| Strings.TrimKeepsInterior | classification-sdk/src/main/java/com/example/sdk/DictionaryMatcher.java:52 | a string that neither starts nor ends with a char up to U+0020 is left as it is by `trim` |
| Strings.TrimBlank | classification-sdk/src/main/java/com/example/sdk/DictionaryMatcher.java:52-53 | an entry made only of chars up to U+0020 trims to empty, so it is skipped |
| Strings.TrimToLower | classification-sdk/src/main/java/com/example/sdk/DictionaryMatcher.java:52 | trimming and lower-casing commute |
| Strings.ToLowerIdempotent | classification-sdk/src/main/java/com/example/sdk/DictionaryMatcher.java:50 | lower-casing twice is lower-casing once |
| DetectionResults.HasMatchIffSomeRule | classification-sdk/src/main/java/com/example/sdk/DetectionResult.java:16-29 | `hasMatch` holds exactly when the list given to the constructor is present and names at least one rule |
| ClassificationSdk.ClassificationSdk.Create | classification-sdk/src/main/java/com/example/sdk/ClassificationSdk.java:13-15 | construction runs `init` unguarded: each success appends one schedule; a failure of `init` yields no object |
| ClassificationSdk.ClassificationSdk.Classify | classification-sdk/src/main/java/com/example/sdk/ClassificationSdk.java:21-23 | `classify(data)` is classification in top-match mode: at most one rule, the input echoed |
| ClassificationSdk.ClassificationSdk.ClassifyWithMode | classification-sdk/src/main/java/com/example/sdk/ClassificationSdk.java:29-31 | `classify(data, mode)` is the engine's result, unchanged |
| ClassificationController.ModeOf | sdk-client-mock/src/main/java/com/example/sdkclientmock/controller/ClassificationController.java:28-30 | an absent mode means top-match-only |
| ClassificationController.ResponseOf | sdk-client-mock/src/main/java/com/example/sdkclientmock/controller/ClassificationController.java:33-37 | the response carries the request text, the matched rules, and `matched` iff `hasMatch` |
| ClassificationController.MatchedIffRules | sdk-client-mock/src/main/java/com/example/sdkclientmock/controller/ClassificationController.java:35-36 | `matched` is true iff the rule list is non-empty |
| ClassificationController.ClassificationController.Health | sdk-client-mock/src/main/java/com/example/sdkclientmock/controller/ClassificationController.java:19-21 | always "sdk-client-mock is running" |
| ClassificationController.ClassificationController.Classify | sdk-client-mock/src/main/java/com/example/sdkclientmock/controller/ClassificationController.java:23-38 | a null request or text gives null; otherwise the detection result for the text in the requested mode, as a response |
| RuleManager.RuleManager.constructor | classification-sdk/src/main/java/com/example/sdk/RuleManager.java:25 | before any `init` there is no current ruleset and nothing is scheduled |
| RuleManager.StartingState | classification-sdk/src/main/java/com/example/sdk/RuleManager.java:40-50 | a cached ruleset is adopted together with its ETag; otherwise the bootstrap ruleset is adopted with the ETag untouched; a bootstrap that cannot be read aborts |
| RuleManager.StartedWithRuleset | classification-sdk/src/main/java/com/example/sdk/RuleManager.java:41-53 | starting from the cache or a decoded bootstrap leaves a ruleset current, also after a fetch that does not throw |
| RuleManager.NoResponseNoChange | classification-sdk/src/main/java/com/example/sdk/RuleManager.java:71-74 | no response changes neither ruleset nor ETag and saves nothing |
| RuleManager.RefusedRequestThrows | classification-sdk/src/main/java/com/example/sdk/RuleManager.java:70-71 | a URL or last ETag the request builder refuses makes the fetch throw, so nothing changes and nothing is saved |
| RuleManager.UpdateAdoptsResponse | classification-sdk/src/main/java/com/example/sdk/RuleManager.java:76-82 | a response is stamped with its ETag and made current; the ETag is recorded and sent as If-None-Match iff present; with writable files it is what `loadLatest` returns |
| RuleManager.FetchPreservesSynced | classification-sdk/src/main/java/com/example/sdk/RuleManager.java:70-82 | the current ruleset's ETag equals the last ETag, and every fetch keeps it so |
| RuleManager.CacheStartSynced | classification-sdk/src/main/java/com/example/sdk/RuleManager.java:41-45 | starting from the cache makes the current ETag the last ETag |
| RuleManager.RestartResumesFromCache | classification-sdk/src/main/java/com/example/sdk/RuleManager.java:41-45 | after a saved update, a restart adopts that ruleset and ETag again |
| RuleManager.PollsPreserveSynced | classification-sdk/src/main/java/com/example/sdk/RuleManager.java:56-63 | any run of the periodic task keeps the ruleset and the ETag in step, exceptions being swallowed |
| RuleManager.QuietPollsChangeNothing | classification-sdk/src/main/java/com/example/sdk/RuleManager.java:56-63 | periodic runs that get no response change nothing |
| RuleManager.RuleManager.FetchRemoteAndUpdate | classification-sdk/src/main/java/com/example/sdk/RuleManager.java:70-85 | the step-by-step update of ruleset, ETag and cache gives `FetchStep`; a null-pointer exception leaves everything as it was |
| RuleManager.RuleManager.Init | classification-sdk/src/main/java/com/example/sdk/RuleManager.java:37-64 | cache or bootstrap, then exactly one fetch, then one schedule whose delay and period both equal the poll interval; a period that is not positive throws after the fetch |
| RuleManager.RuleManager.PollOnce | classification-sdk/src/main/java/com/example/sdk/RuleManager.java:57-62 | one scheduled run: a fetch whose exception is swallowed |
| RuleManager.RuleManager.RunPolls | classification-sdk/src/main/java/com/example/sdk/RuleManager.java:56-63 | successive scheduled runs give `Polls`, later runs happening after an exception |
| Http.BuildRequest | classification-sdk/src/main/java/com/example/sdk/http/PolicyHttpClient.java:33-42 | If-None-Match is sent iff an ETag is known, with that ETag as value, and no other header |
| Http.FetchLatest | classification-sdk/src/main/java/com/example/sdk/http/PolicyHttpClient.java:32-72 | a refused URL or ETag throws before sending; then 304, other non-2xx statuses, I/O and parse failures give no update; a 2xx body that decodes is an update, exactly, with the response ETag; a `null` body throws |
| Http.DefaultUrlAccepted | classification-sdk/src/main/java/com/example/sdk/http/PolicyHttpClient.java:33-34 | the built-in policy URL passes the request builder's URL check |
| Http.SchemelessUrlThrows | classification-sdk/src/main/java/com/example/sdk/http/PolicyHttpClient.java:33-34 | a configured URL without a scheme, such as "localhost:8080/api/v1/rules", throws whatever the server would answer |
| Http.SkipLeadingWhitespace | classification-sdk/src/main/java/com/example/sdk/http/PolicyHttpClient.java:33-34 | the URL parser drops exactly the leading run of tab, LF, FF, CR and space, and keeps the rest unchanged |
| Http.HttpSchemeAccepted | classification-sdk/src/main/java/com/example/sdk/http/PolicyHttpClient.java:33-34 | a URL that starts with `http:` has nothing skipped and passes the URL check |
| Http.SkipWhitespaceRun | classification-sdk/src/main/java/com/example/sdk/http/PolicyHttpClient.java:33-34 | the skip drops a whole run of URL whitespace and stops at the first other character |
| Http.WhitespaceBeforeHttpAccepted | classification-sdk/src/main/java/com/example/sdk/http/PolicyHttpClient.java:33-34 | any URL whitespace before an `http:` URL is skipped, so the URL is still accepted |
| Http.WhitespaceBeforeWebSocketRefused | classification-sdk/src/main/java/com/example/sdk/http/PolicyHttpClient.java:33-34 | the `ws:` rewrite looks only at the start of the string as given, so whitespace before `ws:` leaves a refused scheme |
| Http.FirstLetterRejects | classification-sdk/src/main/java/com/example/sdk/http/PolicyHttpClient.java:33-34 | a URL starting with a character that is not whitespace and not h or w, in either case, is refused |
| Config.PolicyUrl | classification-sdk/src/main/java/com/example/sdk/config/SdkConfig.java:25-31 | the property if non-empty, else the variable if non-empty, else the default; never empty |
| Config.PollIntervalSeconds | classification-sdk/src/main/java/com/example/sdk/config/SdkConfig.java:38-51 | the picked value parsed as an int, without a range check; 900 when nothing is picked or it does not parse |
| Config.UnparseablePropertyIgnoresVariable | classification-sdk/src/main/java/com/example/sdk/config/SdkConfig.java:39-50 | an unparseable property gives 900 even when the variable is valid |
| Config.PollIntervalRoundTrip | classification-sdk/src/main/java/com/example/sdk/config/SdkConfig.java:43-46 | a property holding a printed int yields that int, zero and negatives included |
| Config.SdkConfig.SetLastETag | classification-sdk/src/main/java/com/example/sdk/config/SdkConfig.java:53-59 | the getter returns the value last set |
| Integers.ParseIntToString | classification-sdk/src/main/java/com/example/sdk/config/SdkConfig.java:45 | `Integer.parseInt` reads back what `Integer.toString` prints |
| Cache.WithTrailingSlash | classification-sdk/src/main/java/com/example/sdk/cache/CachePaths.java:19 | the result ends with "/", and exactly one "/" is added when missing |
| Cache.WithTrailingSlashIdempotent | classification-sdk/src/main/java/com/example/sdk/cache/CachePaths.java:19 | normalising twice is normalising once |
| Cache.CacheDir | classification-sdk/src/main/java/com/example/sdk/cache/CachePaths.java:11-20 | property, else variable, else `user.home + "/.classification-sdk/"`, always ending in "/" |
| Cache.CacheFilesInDirectory | classification-sdk/src/main/java/com/example/sdk/cache/CachePaths.java:26-36 | both cache files lie in the cache directory |
| Cache.VersionFilesDistinct | classification-sdk/src/main/java/com/example/sdk/cache/CachePaths.java:34-36 | distinct versions give distinct paths |
| Cache.VersionFileIsNotLatest | classification-sdk/src/main/java/com/example/sdk/cache/CachePaths.java:26-36 | no version path equals the latest path |
| Cache.LoadLatestFrom | classification-sdk/src/main/java/com/example/sdk/cache/CacheStore.java:23-33 | a ruleset iff the latest file exists and parses to one; missing, unreadable or `null` files give null |
| Cache.SaveTouchesOnlyItsFiles | classification-sdk/src/main/java/com/example/sdk/cache/CacheStore.java:40-56 | a save changes no file other than the version file and the latest file |
| Cache.SaveThenLoad | classification-sdk/src/main/java/com/example/sdk/cache/CacheStore.java:23-51 | after a save that reaches both files, `loadLatest` returns the saved ruleset |
| Cache.FailedSaveKeepsLatest | classification-sdk/src/main/java/com/example/sdk/cache/CacheStore.java:45-55 | a write that fails as its file is opened, on either file, is swallowed and leaves what `loadLatest` returns unchanged |
| Cache.CacheStore.LoadLatest | classification-sdk/src/main/java/com/example/sdk/cache/CacheStore.java:23-33 | reads the store's files as `LoadLatestFrom` |
| Cache.CacheStore.Save | classification-sdk/src/main/java/com/example/sdk/cache/CacheStore.java:40-56 | the version file first, then the latest file; an I/O error stops the writes and never escapes |
| Policies.PatternsOrEmpty | policy-backend/src/main/java/com/example/policybackend/model/Policy.java:24 | a null pattern list is stored as an empty list |
| Policies.StatusOrDraft | policy-backend/src/main/java/com/example/policybackend/model/Policy.java:25 | a null status is stored as DRAFT |
| Policies.Policy.Fresh | policy-backend/src/main/java/com/example/policybackend/model/Policy.java:12-17 | the no-argument constructor: a fresh id, no patterns, DRAFT |
| Policies.Policy.constructor | policy-backend/src/main/java/com/example/policybackend/model/Policy.java:19-26 | the full constructor stores its arguments, with the two null replacements |
| Policies.Policy.SetPatterns | policy-backend/src/main/java/com/example/policybackend/model/Policy.java:64-66 | a null list becomes empty; no other field changes |
| Policies.Policy.SetStatus | policy-backend/src/main/java/com/example/policybackend/model/Policy.java:68-74 | the getter returns the value last set; no other field changes (the other setters likewise) |
| PolicyStore.ListingSize | policy-backend/src/main/java/com/example/policybackend/repository/PolicyRepository.java:25-27 | a listing of all stored policies is exactly as long as the map |
| PolicyStore.PolicyRepository.Save | policy-backend/src/main/java/com/example/policybackend/repository/PolicyRepository.java:16-19 | stores under the policy's id, replacing only that entry |
| PolicyStore.PolicyRepository.FindById | policy-backend/src/main/java/com/example/policybackend/repository/PolicyRepository.java:21-23 | the policy stored under the id, or empty; after `save(p)` that is p |
| PolicyStore.PolicyRepository.Delete | policy-backend/src/main/java/com/example/policybackend/repository/PolicyRepository.java:29-31 | removes only that id; an absent id is a no-op |
| PolicyStore.PolicyRepository.FindAll | policy-backend/src/main/java/com/example/policybackend/repository/PolicyRepository.java:25-27 | every stored policy exactly once, in unspecified order |
| PolicyStore.PolicyRepository.FindByStatus | policy-backend/src/main/java/com/example/policybackend/repository/PolicyRepository.java:33-37 | exactly the stored policies with that status, each once |
| PolicyServices.Revised | policy-backend/src/main/java/com/example/policybackend/service/PolicyService.java:28-33 | an update keeps id and status and takes name, level, priority and patterns from the update |
| PolicyServices.UpdateKeepsPublished | policy-backend/src/main/java/com/example/policybackend/service/PolicyService.java:27-35 | an update never changes which policies are published |
| PolicyServices.PublishAddsOnlyItself | policy-backend/src/main/java/com/example/policybackend/service/PolicyService.java:47-49 | publishing adds exactly that id to the published ones |
| PolicyServices.UnpublishRemovesOnlyItself | policy-backend/src/main/java/com/example/policybackend/service/PolicyService.java:43-45 | approving a published policy withdraws exactly that one |
| PolicyServices.DeleteRemovesOnlyItself | policy-backend/src/main/java/com/example/policybackend/service/PolicyService.java:37-41 | deleting withdraws that policy and no other |
| PolicyServices.ReviseIdempotent | policy-backend/src/main/java/com/example/policybackend/service/PolicyService.java:27-35 | repeating an update changes nothing more |
| PolicyServices.PolicyService.Create | policy-backend/src/main/java/com/example/policybackend/service/PolicyService.java:15-17 | stores the policy under its id, replacing any with the same id |
| PolicyServices.PolicyService.Get | policy-backend/src/main/java/com/example/policybackend/service/PolicyService.java:19-21 | the stored policy or empty |
| PolicyServices.PolicyService.List | policy-backend/src/main/java/com/example/policybackend/service/PolicyService.java:23-25 | every stored policy exactly once |
| PolicyServices.PolicyService.Update | policy-backend/src/main/java/com/example/policybackend/service/PolicyService.java:27-35 | a missing id gives empty and changes nothing; otherwise only that entry is revised |
| PolicyServices.PolicyService.Delete | policy-backend/src/main/java/com/example/policybackend/service/PolicyService.java:37-41 | reports whether the id existed; afterwards it is absent |
| PolicyServices.PolicyService.Approve | policy-backend/src/main/java/com/example/policybackend/service/PolicyService.java:43-45 | sets APPROVED from any status; a missing id gives empty |
| PolicyServices.PolicyService.Publish | policy-backend/src/main/java/com/example/policybackend/service/PolicyService.java:47-49 | sets PUBLISHED from any status; a missing id gives empty |
| PolicyServices.PolicyService.ListPublished | policy-backend/src/main/java/com/example/policybackend/service/PolicyService.java:51-53 | exactly the stored policies whose status is PUBLISHED |
| PolicyServices.PolicyService.UpdateStatus | policy-backend/src/main/java/com/example/policybackend/service/PolicyService.java:55-60 | sets the status with no transition check and saves |
| PolicyVersion.LexAsymmetric | policy-backend/src/main/java/com/example/policybackend/controller/RulesController.java:87 | the id order is asymmetric |
| PolicyVersion.LexTotal | policy-backend/src/main/java/com/example/policybackend/controller/RulesController.java:87 | any two different keys are ordered one way or the other |
| PolicyVersion.LexTransitive | policy-backend/src/main/java/com/example/policybackend/controller/RulesController.java:87 | the id order is transitive |
| PolicyVersion.SortPermutation | policy-backend/src/main/java/com/example/policybackend/controller/RulesController.java:86-87 | sorting by id neither drops nor duplicates policies |
| PolicyVersion.SortAscending | policy-backend/src/main/java/com/example/policybackend/controller/RulesController.java:87 | with ids distinct ignoring case, the sorted stream strictly ascends |
| PolicyVersion.AscendingUnique | policy-backend/src/main/java/com/example/policybackend/controller/RulesController.java:86-87 | two strictly ascending orderings of the same policies are equal |
| PolicyVersion.DistinctKeysPermutation | policy-backend/src/main/java/com/example/policybackend/controller/RulesController.java:86-87 | distinct ids ignoring case survive a reordering |
| PolicyVersion.SortIgnoresOrder | policy-backend/src/main/java/com/example/policybackend/controller/RulesController.java:86-87 | with distinct ids ignoring case, the sorted stream does not depend on the listing order |
| PolicyVersion.CalculateVersion | policy-backend/src/main/java/com/example/policybackend/controller/RulesController.java:81-92 | "v-empty" iff there are no published policies, else "v-" and one to eight hex digits |
| PolicyVersion.VersionIgnoresOrder | policy-backend/src/main/java/com/example/policybackend/controller/RulesController.java:86-91 | with distinct ids ignoring case, the version does not depend on the order of `listPublished` |
| RulesController.BuildMatchers | policy-backend/src/main/java/com/example/policybackend/controller/RulesController.java:59-66 | the inner loop builds one "regex" matcher per pattern, in pattern order |
| RulesController.RuleOf | policy-backend/src/main/java/com/example/policybackend/controller/RulesController.java:52-66 | a rule copies id, name, level and priority, is enabled, and has one "regex" matcher per pattern, in pattern order, and no other |
| RulesController.RulesOf | policy-backend/src/main/java/com/example/policybackend/controller/RulesController.java:48-68 | exactly one rule per published policy, in listing order |
| RulesController.BuiltRuleset | policy-backend/src/main/java/com/example/policybackend/controller/RulesController.java:70-73 | the built ruleset holds those rules and the calculated version, and no ETag yet |
| RulesController.ComputeETag | policy-backend/src/main/java/com/example/policybackend/controller/RulesController.java:76-79 | a quoted string of one to eight hex digits |
| RulesController.Answer | policy-backend/src/main/java/com/example/policybackend/controller/RulesController.java:34-44 | 304 iff a ruleset was served before and If-None-Match equals the tag exactly; a 304 keeps the last ruleset; otherwise the tagged ruleset is served with that ETag and remembered |
| RulesController.FirstRequestServed | policy-backend/src/main/java/com/example/policybackend/controller/RulesController.java:34-44 | before anything was served, every request gets 200 |
| RulesController.ServedTagRevalidates | policy-backend/src/main/java/com/example/policybackend/controller/RulesController.java:34-44 | after a 200, a request carrying the served tag gets 304 while the recomputed tag is the same |
| RulesController.RulesController.FetchRules | policy-backend/src/main/java/com/example/policybackend/controller/RulesController.java:29-45 | builds, tags and answers as `Answer`, updating the last ruleset only on a 200 |
| RulesController.RulesController.BuildRuleset | policy-backend/src/main/java/com/example/policybackend/controller/RulesController.java:47-74 | the nested loops build `RulesOf` the published listing, with its version |
| EndToEnd.RevalidationChangesNothing | policy-backend/src/main/java/com/example/policybackend/controller/RulesController.java:34-37 | a client whose request can be built, holding the current tag and asking a backend that has served before, keeps its ruleset, ETag and cache files |
| EndToEnd.NewTagAdopted | policy-backend/src/main/java/com/example/policybackend/controller/RulesController.java:39-44 | on a tag mismatch, with a request that can be built, the client adopts the tagged ruleset, records the tag and sends it as If-None-Match next |
| EndToEnd.BackendTagsAccepted | policy-backend/src/main/java/com/example/policybackend/controller/RulesController.java:76-79 | every tag the backend computes passes the client's header-value check, so an adopted tag can be sent back |
| EndToEnd.BuiltRuleMatches | policy-backend/src/main/java/com/example/policybackend/controller/RulesController.java:59-66 | a backend-built rule whose patterns compile matches iff one of its patterns is found |

## Left out

- Http.FetchLatest: of OkHttp's URL parsing only the scheme check is modelled, after the `ws:`/`wss:` rewrite and the skip of leading whitespace. A URL with an accepted scheme but a host or port the parser rejects is taken as buildable here, whereas the source throws `IllegalArgumentException`; the URL grammar belongs to the HTTP library.
- Regular-expression semantics: `java.util.regex` is a foreign library. Which sources compile and what `find` answers are parameters.
- HTTP transport, JSON (de)serialisation, file I/O, `mkdirs`, classpath resource loading: these are foreign I/O. They are parameters, and the file system is a map.
- Concurrency: volatile statics, the synchronized map, `ConcurrentHashMap`, `AtomicReference`, and the scheduler's timing are not modelled. Everything runs sequentially. A schedule is recorded as its (initial delay, period) pair, and its runs are replayed by `RunPolls`.
- Logging and the floating-point `confidence` field: the engine never reads them.
- Java `null` in places the code dereferences is not modelled. This covers a null priority, null matchers, a null pattern of a matcher, a null policy id, and a null text given to `detect`. The model uses non-null types there.
- A null ruleset version: the source prints it as "null" in the backup file name. The model's version is a non-null string.
- Cache.SaveTo: a failed write is modelled as failing when the file is opened, so it changes nothing. Jackson's `writeValue` first truncates the file and then writes it. An IOException after that point leaves a truncated or partial file, which the model cannot produce.
- Cache.FailedSaveKeepsLatest: its case of a failure on the latest file holds only for failures at open. When writing the latest file fails after it was truncated, the next `loadLatest` in the source finds an unreadable file and returns null.
- Null policy fields: a null `name` or `level` is printed as "null" in the version seed, and `Policy.Fresh` leaves name, level and priority unset. Neither is modelled.
- `classify(data, null)`: a null mode behaves like all-matches mode in `detect`. The model's `Mode` cannot be null.
- `toLowerCase`, `equalsIgnoreCase` and `compareToIgnoreCase` are modelled on ASCII letters only, without Unicode case mapping.
- `Integer.parseInt`: non-ASCII digits are not modelled.
- Characters outside the Basic Multilingual Plane: a Dafny `char` is a Unicode scalar value, whereas a Java `char` is a UTF-16 code unit. Text with such characters is one `char` per code point here and two code units in the source, and a lone surrogate cannot be written at all. Text within the Basic Multilingual Plane is modelled exactly. The members affected follow.
- FuzzyMatcher.LevenshteinDistance: for text outside the Basic Multilingual Plane, the distance counts code points where the source counts UTF-16 code units. A single emoji substitution is 1 here and up to 2 in the source.
- FuzzyMatcher.Matches: the threshold of 2 applies to the code-point distance, so for text outside the Basic Multilingual Plane it can accept a pair that the source rejects.
- Integers.StringHash: outside the Basic Multilingual Plane it hashes code points where `String.hashCode` hashes both surrogate code units, so the two values differ there.
- PolicyVersion.CalculateVersion: it inherits that hash difference through `Integers.StringHash` on ids or names outside the Basic Multilingual Plane. It also orders ids by code point, whereas `compareToIgnoreCase` compares surrogate code units. So a character above U+FFFF sorts before one in U+E000–U+FFFF in the source and after it here, which can change the seed order.
- `computeETag` hashes `List.hashCode` of freshly built `Rule` objects, which depends on object identity. That hash is an unconstrained input of `FetchRules`. The ETag is therefore not claimed to be stable between calls.
- `user.home` missing: it is taken as the text "null", as string concatenation prints it.
- Aliasing of `Policy` objects: the repository holds policy values. A caller that keeps a reference to a stored `Policy` and mutates it afterwards is not modelled, so `setId` on a stored policy cannot break the keyed-by-id invariant.
- ClassificationSdk.ClassificationSdk.Create: the Java constructor becomes a static method returning a `Result`, because `init` can throw out of the constructor. The engine and its shared cache are passed in rather than built inside.
- The policy endpoints of `PolicyController` are Spring routing over `PolicyService`, and the file-watching mock policy service is I/O. Neither is part of this model.
- Entry points and test harnesses (`SdkClientMockApplication`, `DemoMain`, the test class) are not modelled. The two-rule expectation of the tests is stated as `DetectionEngine.HigherPriorityReportedFirst`.
