/**
 The transport optimizer plugin: the output-buffer handler that adds an MD5
 ETag, answers a matching `If-None-Match` with `304 Not Modified`, optionally
 sends `Last-Modified`, gzips the body for clients that accept it, and sets
 `Content-Length`; plus the enable-time check that switches gzip off when
 `gzencode()` is missing.

 The handler's side effects become data: the fields its `header()` calls set
 are a map from field name to value (none is set once `headers_sent()` holds,
 as PHP then ignores `header()`), `exit()` after the 304 is the `NotModified`
 outcome, which carries the status line, and the fatal error of calling a
 missing `gzencode()` is the `Fatal` outcome.
 MD5, gzip encoding and `gmdate()` are foreign library calls and arrive as
 function values in a `Runtime`, together with the clock (`$localtimenow`),
 PHP's `headers_sent()` and `function_exists('gzencode')`.
 */
module TransportOptimizer {
  import opened Php
  import opened Http

  predicate IsLowerHex(c: char) {
    ('0' <= c <= '9') || ('a' <= c <= 'f')
  }

  /** What PHP's `md5()` returns: a 32-character hexadecimal number, in the
      lower-case digits its implementation writes. */
  type Digest = s: string | |s| == 32 && forall i :: 0 <= i < |s| ==> IsLowerHex(s[i])
    witness "00000000000000000000000000000000"

  /** The plugin's three checkbox settings, as the strings the settings store
      holds ('1' or '0'); PHP tests them for truthiness. */
  datatype Settings = Settings(useEtags: string, useGzipCompression: string, sendLastModified: string)

  /** What the handler reads from the request: whether `$current_User` is set,
      `HTTP_IF_NONE_MATCH`, `HTTP_ACCEPT_ENCODING` (each absent or present) and
      `SERVER_PROTOCOL`. */
  datatype Request = Request(
    currentUserSet: bool,
    ifNoneMatch: Option<string>,
    acceptEncoding: Option<string>,
    serverProtocol: string)

  /** The foreign calls and ambient state the handler depends on. */
  datatype Runtime = Runtime(
    md5: string -> Digest,
    gzencodeExists: bool,
    gzencode: string -> Option<string>,
    gmdate: (string, int) -> string,
    localTimeNow: int,
    headersSent: bool)

  /** The handler's result: the body PHP sends with the header fields set; the
      304 short-circuit (`exit()`), which sends a status line (unless headers
      are already out) and no body; or the fatal error of calling `gzencode()`
      where it does not exist, with the fields set before it. */
  datatype Outcome =
    | Passthrough(body: string, fields: HeaderFields)
    | NotModified(statusLine: Option<string>, fields: HeaderFields)
    | Fatal(fields: HeaderFields)

  /** The `gmdate()` format of the Last-Modified header (an RFC 1123 date). */
  const LastModifiedFormat: string := "D, d M Y H:i:s \\G\\M\\T"

  /** The note `BeforeEnable` shows when gzip has to be switched off. */
  const GzencodeMissingNote: string := "The PHP function gzencode() is not available. GZip compression is disabled."

  /** The validator: `"AUT<md5>"` for a logged-in user, `"PUB<md5>"` otherwise. */
  function ETagFor(loggedIn: bool, digest: Digest): (e: string)
    ensures IsStrongEntityTag(e)
    ensures NoBackslash(e)
    ensures |e| == 37
  {
    var e := "\"" + (if loggedIn then "AUT" else "PUB") + digest + "\"";
    assert forall i :: 4 <= i < 36 ==> e[i] == digest[i - 4];
    e
  }

  /** The ETag carries the login flag and the digest and nothing else:
      two validators are equal exactly when both parts are. */
  lemma ETagInjective(a: bool, d: Digest, b: bool, d': Digest)
    ensures ETagFor(a, d) == ETagFor(b, d') <==> a == b && d == d'
  {
    var e, e' := ETagFor(a, d), ETagFor(b, d');
    if e == e' {
      assert e[1] == e'[1];
      assert e[4..36] == d && e'[4..36] == d';
    }
  }

  /** For one body, the public and the private validator differ in the three
      prefix characters and agree everywhere else. */
  lemma ETagDiffersOnlyInPrefix(d: Digest)
    ensures |ETagFor(true, d)| == |ETagFor(false, d)|
    ensures ETagFor(true, d)[1..4] == "AUT" && ETagFor(false, d)[1..4] == "PUB"
    ensures forall i :: 0 <= i < 37 && !(1 <= i < 4) ==> ETagFor(true, d)[i] == ETagFor(false, d)[i]
  {
  }

  /** The gzip gate: the setting is on, no header has gone out yet, and the
      client sent an Accept-Encoding in which `strstr` finds "gzip". */
  function GzipApplies(s: Settings, req: Request, headersSent: bool): (b: bool)
    ensures b <==> && Truthy(s.useGzipCompression)
                   && !headersSent
                   && req.acceptEncoding.Some?
                   && Contains(req.acceptEncoding.value, "gzip")
  {
    && Truthy(s.useGzipCompression)
    && !headersSent
    && req.acceptEncoding.Some?
    && match StrStr(req.acceptEncoding.value, "gzip")
       case None => false
       case Some(rest) => Truthy(rest)
  }

  /** `gzencode()` exists but returns `false` (`None`) for this body. */
  predicate GzipFails(s: Settings, req: Request, rt: Runtime, output: string) {
    GzipApplies(s, req, rt.headersSent) && rt.gzencodeExists && rt.gzencode(output).None?
  }

  /** The output-buffer handler `obhandler($output)`. */
  function ObHandler(s: Settings, req: Request, rt: Runtime, output: string): (r: Outcome)
    // An empty buffer ("" or "0" for PHP's empty()) goes out untouched.
    ensures !Truthy(output) ==> r == Passthrough(output, map[])
    // 304 exactly when ETags are on and the un-escaped If-None-Match is the ETag.
    ensures r.NotModified? <==>
              && Truthy(output)
              && Truthy(s.useEtags)
              && req.ifNoneMatch.Some?
              && StripSlashes(req.ifNoneMatch.value) == ETagFor(req.currentUserSet, rt.md5(output))
    // Once headers are out, no header() call has any effect.
    ensures rt.headersSent ==> r.fields == map[] && (r.NotModified? ==> r.statusLine == None)
    // Otherwise the 304 carries the status line and the ETag already set, nothing more.
    ensures r.NotModified? && !rt.headersSent ==>
              && r.statusLine == Some(req.serverProtocol + " 304 Not Modified")
              && r.fields == map["ETag" := ETagFor(req.currentUserSet, rt.md5(output))]
    // With ETags on every non-empty response has the ETag; with them off none has.
    ensures Truthy(output) && Truthy(s.useEtags) && !rt.headersSent ==>
              "ETag" in r.fields && r.fields["ETag"] == ETagFor(req.currentUserSet, rt.md5(output))
    ensures !Truthy(s.useEtags) ==> !r.NotModified? && "ETag" !in r.fields
    // The gzip gate opening where gzencode() does not exist is a fatal error.
    ensures r.Fatal? <==> Truthy(output) && !r.NotModified? && GzipApplies(s, req, rt.headersSent) && !rt.gzencodeExists
    ensures r.Fatal? ==> "Content-Encoding" !in r.fields && "Content-Length" !in r.fields
    // Last-Modified on a response that is not a 304 iff the setting is on.
    ensures !r.NotModified? && Truthy(output) && !rt.headersSent ==>
              ("Last-Modified" in r.fields <==> Truthy(s.sendLastModified))
    ensures !r.NotModified? && Truthy(output) && !rt.headersSent && Truthy(s.sendLastModified) ==>
              "Last-Modified" in r.fields && r.fields["Last-Modified"] == rt.gmdate(LastModifiedFormat, rt.localTimeNow)
    // Gzip iff the gate opens; otherwise the body is the input.
    ensures r.Passthrough? && Truthy(output) ==>
              ("Content-Encoding" in r.fields <==> GzipApplies(s, req, rt.headersSent))
    ensures r.Passthrough? && Truthy(output) && GzipApplies(s, req, rt.headersSent) && !rt.headersSent ==>
              "Content-Encoding" in r.fields && r.fields["Content-Encoding"] == "gzip"
    ensures r.Passthrough? && Truthy(output) && GzipApplies(s, req, rt.headersSent) && rt.gzencode(output).Some? ==>
              r.body == rt.gzencode(output).value
    // A failed gzencode() makes the handler return false, and PHP then sends the original buffer.
    ensures r.Passthrough? && !(GzipApplies(s, req, rt.headersSent) && rt.gzencode(output).Some?) ==> r.body == output
    // Content-Length is the length of the body sent, or strlen(false) == 0 when gzencode() failed.
    ensures r.Passthrough? && Truthy(output) && !rt.headersSent ==>
              && "Content-Length" in r.fields
              && r.fields["Content-Length"] == DecimalString(if GzipFails(s, req, rt, output) then 0 else |r.body|)
    // No other field is set.
    ensures r.fields.Keys <= {"ETag", "Last-Modified", "Content-Encoding", "Content-Length"}
  {
    if !Truthy(output) then
      Passthrough(output, map[])
    else
      var sent := rt.headersSent;
      var etag := ETagFor(req.currentUserSet, rt.md5(output));
      var withETag := if Truthy(s.useEtags) then SetField(map[], sent, "ETag", etag) else map[];
      if Truthy(s.useEtags) && req.ifNoneMatch.Some? && StripSlashes(req.ifNoneMatch.value) == etag then
        NotModified(if sent then None else Some(req.serverProtocol + " 304 Not Modified"), withETag)
      else
        var withDate :=
          if Truthy(s.sendLastModified)
          then SetField(withETag, sent, "Last-Modified", rt.gmdate(LastModifiedFormat, rt.localTimeNow))
          else withETag;
        var zip := GzipApplies(s, req, sent);
        if zip && !rt.gzencodeExists then
          Fatal(withDate)
        else
          // What the handler returns: false (None) when gzencode() fails.
          var returned := if zip then rt.gzencode(output) else Some(output);
          var withEncoding := if zip then SetField(withDate, sent, "Content-Encoding", "gzip") else withDate;
          var length := if returned.Some? then |returned.value| else 0;
          var body := if returned.Some? then returned.value else output;
          Passthrough(body, SetField(withEncoding, sent, "Content-Length", DecimalString(length)))
  }

  /** A client that sends back the ETag it was given, for the same body and the
      same login state, is answered 304. */
  lemma EchoedETagIsNotModified(s: Settings, req: Request, rt: Runtime, output: string)
    requires Truthy(output) && Truthy(s.useEtags)
    requires req.ifNoneMatch == Some(ETagFor(req.currentUserSet, rt.md5(output)))
    ensures ObHandler(s, req, rt, output).NotModified?
  {
  }

  /** The same holds when the client's header arrives backslash-escaped,
      which is what the `stripslashes()` before the comparison undoes. */
  lemma EscapedETagIsNotModified(s: Settings, req: Request, rt: Runtime, output: string)
    requires Truthy(output) && Truthy(s.useEtags)
    requires req.ifNoneMatch == Some(AddSlashes(ETagFor(req.currentUserSet, rt.md5(output))))
    ensures ObHandler(s, req, rt, output).NotModified?
  {
    StripSlashesUndoesAddSlashes(ETagFor(req.currentUserSet, rt.md5(output)));
  }

  /** A validator issued for a public page never revalidates a page rendered
      for a logged-in user, and the other way round, whatever the bodies. */
  lemma ValidatorDoesNotCrossLogin(s: Settings, req: Request, rt: Runtime, output: string, d: Digest)
    requires req.ifNoneMatch == Some(ETagFor(!req.currentUserSet, d))
    ensures !ObHandler(s, req, rt, output).NotModified?
  {
    ETagInjective(!req.currentUserSet, d, req.currentUserSet, rt.md5(output));
  }

  /** Content-Length is sent on every full response unless headers are already
      out, and whenever it is sent it reads back as the length of the body,
      except after a failed `gzencode()`, where it reads back as 0. */
  lemma ContentLengthIsBodyLength(s: Settings, req: Request, rt: Runtime, output: string)
    requires Truthy(output)
    ensures var r := ObHandler(s, req, rt, output);
            r.Passthrough? ==> ("Content-Length" in r.fields <==> !rt.headersSent)
    ensures var r := ObHandler(s, req, rt, output);
            "Content-Length" in r.fields ==>
              && r.Passthrough?
              && ParseContentLength(r.fields["Content-Length"])
                 == Some(if GzipFails(s, req, rt, output) then 0 else |r.body|)
  {
    var r := ObHandler(s, req, rt, output);
    if r.Passthrough? {
      DecimalStringRoundTrip(if GzipFails(s, req, rt, output) then 0 else |r.body|);
    }
  }

  /** When `gzencode()` fails, the uncompressed page goes out labelled
      `Content-Encoding: gzip` with `Content-Length: 0`, which does not match it. */
  lemma FailedGzipMislabelsBody(s: Settings, req: Request, rt: Runtime, output: string)
    requires Truthy(output) && GzipFails(s, req, rt, output)
    requires !ObHandler(s, req, rt, output).NotModified?
    ensures var r := ObHandler(s, req, rt, output);
            && r.Passthrough?
            && r.body == output
            && r.fields["Content-Encoding"] == "gzip"
            && r.fields["Content-Length"] == "0"
            && ParseContentLength(r.fields["Content-Length"]) != Some(|r.body|)
  {
    var r := ObHandler(s, req, rt, output);
    DecimalStringRoundTrip(0);
  }

  /** The enable-time result: enabling is always allowed; the settings may
      have been corrected, with a note shown and the settings saved. */
  datatype EnableResult = EnableResult(allowed: bool, settings: Settings, notes: seq<string>, saved: bool)

  /** `BeforeEnable()`: gzip on while `gzencode()` does not exist is switched off. */
  function BeforeEnable(s: Settings, gzencodeExists: bool): (r: EnableResult)
    ensures r.allowed
    ensures r.settings.useEtags == s.useEtags && r.settings.sendLastModified == s.sendLastModified
    ensures r.saved <==> Truthy(s.useGzipCompression) && !gzencodeExists
    ensures r.saved ==> r.settings.useGzipCompression == "0" && r.notes == [GzencodeMissingNote]
    ensures !r.saved ==> r.settings == s && r.notes == []
    ensures !gzencodeExists ==> !Truthy(r.settings.useGzipCompression)
  {
    if Truthy(s.useGzipCompression) && !gzencodeExists then
      EnableResult(true, s.(useGzipCompression := "0"), [GzencodeMissingNote], true)
    else
      EnableResult(true, s, [], false)
  }

  /** Once enabled on the host it runs on, the handler never reaches a missing
      `gzencode()`; where it is missing, it never compresses. */
  lemma NoGzipWithoutGzencode(s: Settings, req: Request, rt: Runtime, output: string)
    ensures var r := ObHandler(BeforeEnable(s, rt.gzencodeExists).settings, req, rt, output);
            !r.Fatal?
    ensures var r := ObHandler(BeforeEnable(s, rt.gzencodeExists).settings, req, rt, output);
            !rt.gzencodeExists ==> r.Passthrough? ==> r.body == output && "Content-Encoding" !in r.fields
  {
  }

  /** Ticking the gzip box after enabling, on a host without `gzencode()`, makes
      every request for a non-empty page that accepts gzip fail, unless it is
      answered 304 first or headers have already gone out. */
  lemma GzipTickedLaterIsFatal(s: Settings, req: Request, rt: Runtime, output: string)
    requires Truthy(output) && Truthy(s.useGzipCompression)
    requires !rt.headersSent && !rt.gzencodeExists
    requires req.acceptEncoding.Some? && Contains(req.acceptEncoding.value, "gzip")
    requires !ObHandler(s, req, rt, output).NotModified?
    ensures ObHandler(s, req, rt, output).Fatal?
  {
  }

  /** A 15-byte public page with only ETags on and no validator from the
      client: the body is sent as is with its ETag and `Content-Length: 15`. */
  lemma PublicPageExample(rt: Runtime)
    ensures var body := "<html>Hi</html>";
            ObHandler(Settings("1", "0", "0"), Request(false, None, None, "HTTP/1.1"), rt, body)
            == Passthrough(body, if rt.headersSent then map[]
                                 else map["ETag" := "\"PUB" + rt.md5(body) + "\"", "Content-Length" := "15"])
  {
    var body := "<html>Hi</html>";
    var s, req := Settings("1", "0", "0"), Request(false, None, None, "HTTP/1.1");
    assert ETagFor(false, rt.md5(body)) == "\"PUB" + rt.md5(body) + "\"";
    assert Truthy(body) && Truthy(s.useEtags) && !Truthy(s.sendLastModified);
    assert !GzipApplies(s, req, rt.headersSent);
    assert DigitChar(1) == '1' && DigitChar(5) == '5';
    assert DecimalString(|body|) == "15";
  }
}
