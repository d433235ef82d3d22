/**
 * The SDK side of the conditional GET for rules (If-None-Match, section
 * 13.1.2 of RFC 9110; 304 Not Modified, section 15.4.5 of RFC 9110). The
 * HTTP transport and the JSON mapper are parameters; the client keeps no
 * state of its own.
 */
module Http {
  import opened Wrappers
  import opened Model
  import opened Strings

  const IfNoneMatch := "If-None-Match"
  const NotModified := 304

  /** A GET request: the target URL and its headers. */
  datatype Request = Request(url: string, headers: map<string, string>)

  /**
   * What the transport yields: an IOException (connection failure, or a body
   * that could not be read), or a response with its status, its `ETag`
   * header and its body (absent when there is none).
   */
  datatype Reply =
    | TransportFailure
    | Response(code: int, eTag: Option<string>, body: Option<string>)

  /**
   * What the JSON mapper makes of a text: an IOException for malformed
   * input, a null reference for the literal `null`, or a ruleset.
   */
  datatype Parsed = Malformed | JsonNull | Decoded(ruleset: Ruleset)

  /** The fetched ruleset paired with the response's ETag header, which may be absent. */
  datatype VersionedResponse = VersionedResponse(ruleset: Ruleset, eTag: Option<string>)

  /** The unchecked exceptions that escape `fetchLatest`. */
  datatype FetchException =
    | IllegalArgument  // OkHttp refused to build the request, before anything was sent
    | NullPointer      // a success body was the JSON literal `null`

  /** The characters OkHttp's URL parser skips around a URL: tab, LF, FF, CR and space. */
  predicate IsUrlWhitespace(c: char) {
    c == '\t' || c == '\n' || c == '\U{C}' || c == '\r' || c == ' '
  }

  /** The URL from its first character that is not URL whitespace on. */
  function SkipLeadingWhitespace(s: string): (r: string)
    ensures |r| <= |s| && r == s[|s| - |r|..]
    ensures r != [] ==> !IsUrlWhitespace(r[0])
    ensures forall k :: 0 <= k < |s| - |r| ==> IsUrlWhitespace(s[k])
  {
    if s != [] && IsUrlWhitespace(s[0]) then SkipLeadingWhitespace(s[1..]) else s
  }

  /**
   * `Request.Builder.url(String)` first rewrites a leading `ws:` or `wss:`
   * of the string as given to HTTP; the URL parser then skips leading
   * whitespace and accepts only the http and https schemes. Both tests
   * ignore case.
   */
  predicate UrlAccepted(url: string) {
    var rest := SkipLeadingWhitespace(url);
    StartsIgnoringCase(url, "ws:") || StartsIgnoringCase(url, "wss:") ||
    StartsIgnoringCase(rest, "http:") || StartsIgnoringCase(rest, "https:")
  }

  /** `regionMatches(true, 0, prefix, 0, |prefix|)` for a lower-case prefix. */
  predicate StartsIgnoringCase(s: string, prefix: string) {
    |s| >= |prefix| && forall k :: 0 <= k < |prefix| ==> LowerChar(s[k]) == prefix[k]
  }

  /** OkHttp's header-value check: only tab and visible ASCII (U+0020 to U+007E). */
  predicate HeaderValueAccepted(value: string) {
    forall k :: 0 <= k < |value| ==> value[k] == '\t' || ' ' <= value[k] <= '~'
  }

  /** The request can be built: the URL is accepted, and so is the If-None-Match value when one is sent. */
  predicate RequestBuildable(url: string, lastETag: Option<string>) {
    UrlAccepted(url) && (lastETag.Some? ==> HeaderValueAccepted(lastETag.value))
  }

  /** OkHttp's `isSuccessful`: a 2xx status. */
  predicate IsSuccessful(code: int) {
    200 <= code < 300
  }

  /** The request carries If-None-Match exactly when an ETag is known, and no other header. */
  function BuildRequest(url: string, lastETag: Option<string>): (request: Request)
    ensures request.url == url
    ensures IfNoneMatch in request.headers <==> lastETag.Some?
    ensures lastETag.Some? ==> request.headers[IfNoneMatch] == lastETag.value
    ensures request.headers.Keys <= {IfNoneMatch}
  {
    match lastETag
    case None => Request(url, map[])
    case Some(tag) => Request(url, map[IfNoneMatch := tag])
  }

  /**
   * `fetchLatest`: building the request may throw before the `try`; once it
   * is sent, there is no update (null) for 304, for any other non-2xx status,
   * and for transport or parse failures; otherwise the parsed body, with a
   * missing body read as the empty text.
   */
  function FetchLatest(url: string, lastETag: Option<string>, transport: Request -> Reply, parse: string -> Parsed)
    : (r: Result<Option<VersionedResponse>, FetchException>)
    // a URL or an ETag that OkHttp refuses throws out of `fetchLatest`
    ensures r == Err(IllegalArgument) <==> !RequestBuildable(url, lastETag)
    // 304, any other non-2xx status and transport failures: no update and no exception
    ensures var reply := transport(BuildRequest(url, lastETag));
      RequestBuildable(url, lastETag) && (reply.TransportFailure? || !IsSuccessful(reply.code)) ==> r == Ok(None)
    // an update comes only from a 2xx reply whose body decodes, and carries that reply's ETag
    ensures var reply := transport(BuildRequest(url, lastETag));
      r.Ok? && r.value.Some? ==>
        RequestBuildable(url, lastETag) &&
        reply.Response? && IsSuccessful(reply.code) && reply.code != NotModified &&
        parse(reply.body.GetOr("")) == Decoded(r.value.value.ruleset) &&
        r.value.value.eTag == reply.eTag
    // and every such reply is an update
    ensures var reply := transport(BuildRequest(url, lastETag));
      RequestBuildable(url, lastETag) && reply.Response? && IsSuccessful(reply.code) && parse(reply.body.GetOr("")).Decoded? ==>
        r == Ok(Some(VersionedResponse(parse(reply.body.GetOr("")).ruleset, reply.eTag)))
    // a 2xx body that does not parse is no update either
    ensures var reply := transport(BuildRequest(url, lastETag));
      RequestBuildable(url, lastETag) && reply.Response? && parse(reply.body.GetOr("")) == Malformed ==> r == Ok(None)
    // the null pointer for a `null` success body
    ensures var reply := transport(BuildRequest(url, lastETag));
      r == Err(NullPointer) <==>
        RequestBuildable(url, lastETag) && reply.Response? && IsSuccessful(reply.code) && parse(reply.body.GetOr("")) == JsonNull
  {
    if !RequestBuildable(url, lastETag) then Err(IllegalArgument)
    else
      var reply := transport(BuildRequest(url, lastETag));
      if reply.TransportFailure? || reply.code == NotModified || !IsSuccessful(reply.code) then Ok(None)
      else
        match parse(reply.body.GetOr(""))
        case Malformed => Ok(None)
        case JsonNull => Err(NullPointer)
        case Decoded(ruleset) => Ok(Some(VersionedResponse(ruleset, reply.eTag)))
  }

  /** The built-in policy URL is accepted. */
  lemma DefaultUrlAccepted()
    ensures UrlAccepted("http://localhost:8081/api/v1/rules")
  {
    HttpSchemeAccepted("http://localhost:8081/api/v1/rules");
  }

  /**
   * A URL without a scheme throws before anything is sent, whatever the
   * transport would have answered.
   */
  lemma SchemelessUrlThrows(lastETag: Option<string>, transport: Request -> Reply, parse: string -> Parsed)
    ensures FetchLatest("localhost:8080/api/v1/rules", lastETag, transport, parse) == Err(IllegalArgument)
  {
    FirstLetterRejects("localhost:8080/api/v1/rules");
  }

  /** A URL that starts with `http:` is accepted. */
  lemma HttpSchemeAccepted(url: string)
    requires |url| >= 5 && url[..5] == "http:"
    ensures SkipLeadingWhitespace(url) == url
    ensures StartsIgnoringCase(url, "http:") && UrlAccepted(url)
  {
    assert url[0] == url[..5][0];
    forall k | 0 <= k < 5
      ensures LowerChar(url[k]) == "http:"[k]
    {
      assert url[k] == url[..5][k];
    }
  }

  /** Skipping drops a whole run of whitespace and stops at the first other character. */
  lemma {:induction false} SkipWhitespaceRun(ws: string, rest: string)
    requires forall k :: 0 <= k < |ws| ==> IsUrlWhitespace(ws[k])
    requires rest == [] || !IsUrlWhitespace(rest[0])
    ensures SkipLeadingWhitespace(ws + rest) == rest
    decreases |ws|
  {
    if ws == [] {
      assert ws + rest == rest;
    } else {
      assert (ws + rest)[0] == ws[0];
      assert (ws + rest)[1..] == ws[1..] + rest;
      SkipWhitespaceRun(ws[1..], rest);
    }
  }

  /** Any whitespace before an http URL is skipped, so the URL is still accepted. */
  lemma WhitespaceBeforeHttpAccepted(ws: string, rest: string)
    requires forall k :: 0 <= k < |ws| ==> IsUrlWhitespace(ws[k])
    requires |rest| >= 5 && rest[..5] == "http:"
    ensures UrlAccepted(ws + rest)
  {
    HttpSchemeAccepted(rest);
    SkipWhitespaceRun(ws, rest);
  }

  /**
   * The web-socket rewrite looks at the string as given, so whitespace
   * before `ws:` leaves a scheme the parser refuses.
   */
  lemma WhitespaceBeforeWebSocketRefused(ws: string, rest: string)
    requires ws != [] && forall k :: 0 <= k < |ws| ==> IsUrlWhitespace(ws[k])
    requires |rest| >= 3 && rest[..3] == "ws:"
    ensures !UrlAccepted(ws + rest)
  {
    assert rest[0] == rest[..3][0];
    SkipWhitespaceRun(ws, rest);
    assert (ws + rest)[0] == ws[0];
  }

  /**
   * A URL whose first character is neither whitespace nor 'h' nor 'w' in
   * either case has no accepted scheme.
   */
  lemma FirstLetterRejects(url: string)
    requires url != [] && !IsUrlWhitespace(url[0]) && LowerChar(url[0]) != 'h' && LowerChar(url[0]) != 'w'
    ensures !UrlAccepted(url)
  {
    assert SkipLeadingWhitespace(url) == url;
  }
}
