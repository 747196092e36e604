/**
 The response header fields the optimizer sets with PHP's `header()`, and
 the two pieces of HTTP grammar its output is meant to satisfy: the
 entity-tag of section 2.3 of RFC 7232 and the decimal Content-Length of
 section 3.3.2 of RFC 7230.
 */
module Http {
  import opened Php

  /** The response header fields that `header("Name: value")` calls set, by
      name; a later call with the same name replaces the earlier value. */
  type HeaderFields = map<string, string>

  /** `header("Name: value")`: sets the field, replacing one of the same name,
      unless the headers have already gone out; then PHP only warns and
      nothing changes. */
  function SetField(h: HeaderFields, headersSent: bool, name: string, value: string): HeaderFields {
    if headersSent then h else h[name := value]
  }

  /** etagc of section 2.3 of RFC 7232: %x21 / %x23-7E / obs-text. */
  predicate IsETagChar(c: char) {
    c == '!' || ('#' <= c <= '~') || ('\U{80}' <= c <= '\U{FF}')
  }

  /** A strong entity-tag: DQUOTE *etagc DQUOTE, with no `W/` prefix. */
  predicate IsStrongEntityTag(e: string) {
    && |e| >= 2
    && e[0] == '"'
    && e[|e| - 1] == '"'
    && forall i :: 0 < i < |e| - 1 ==> IsETagChar(e[i])
  }

  /** A Content-Length value: 1*DIGIT. */
  predicate IsDigits(s: string) {
    |s| >= 1 && forall i :: 0 <= i < |s| ==> IsDigit(s[i])
  }

  /** The number a string of decimal digits denotes. */
  function DigitsValue(s: string): (n: nat)
    requires forall i :: 0 <= i < |s| ==> IsDigit(s[i])
    decreases |s|
  {
    if |s| == 0 then 0
    else
      assert IsDigit(s[|s| - 1]);
      10 * DigitsValue(s[..|s| - 1]) + (s[|s| - 1] as int - '0' as int)
  }

  /** Reading a Content-Length value back: `None` unless it is 1*DIGIT. */
  function ParseContentLength(s: string): (r: Option<nat>)
    ensures r.Some? <==> IsDigits(s)
  {
    if IsDigits(s) then Some(DigitsValue(s)) else None
  }

  /** The decimal text PHP writes for a length reads back as that length. */
  lemma {:induction false} DecimalStringRoundTrip(n: nat)
    ensures ParseContentLength(DecimalString(n)) == Some(n)
    decreases n
  {
    var s := DecimalString(n);
    if n >= 10 {
      DecimalStringRoundTrip(n / 10);
      assert s[..|s| - 1] == DecimalString(n / 10);
      assert s[|s| - 1] == DigitChar(n % 10);
      assert DigitsValue(s) == 10 * (n / 10) + n % 10;
    }
  }
}
