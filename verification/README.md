# b2evolution: transport optimizer and post-list paging, in Dafny

This project models two small decision procedures of the b2evolution blogging
platform and proves what they promise.

1. **The transport optimizer plugin's output-buffer handler** (`obhandler`).
   It takes the fully rendered page and does the following:
   - it adds an `ETag` of the form `"PUB<md5>"`, or `"AUT<md5>"` when a user is logged in;
   - it answers with `304 Not Modified` when the client's `If-None-Match`, after `stripslashes()`, is exactly that ETag;
   - it may add `Last-Modified`;
   - it gzips the body when the setting is on, no header has been sent yet, and `Accept-Encoding` contains `gzip`;
   - it sets `Content-Length`.

   The plugin's `BeforeEnable` switches gzip off when `gzencode()` is missing.
   The fields the handler's `header()` calls set become a map from field name
   to value. A later call with the same name replaces the earlier value. Once
   `headers_sent()` holds, PHP ignores `header()` with a warning, so no field
   and no status line is set. The `exit()` after the 304 becomes the
   `NotModified` outcome, which carries the status line. Calling `gzencode()`
   where it does not exist is a PHP fatal error; it becomes the `Fatal`
   outcome, with the fields set before the call. MD5, gzip encoding and
   `gmdate()` are function values in a `Runtime` record, next to the clock
   (`$localtimenow`), `headers_sent()` and `function_exists('gzencode')`. The
   only thing assumed about MD5 is its output shape: PHP documents a
   32-character hexadecimal number, and its implementation writes it in
   lower-case digits. Nothing proved depends on the case. Function values are
   deterministic, so the same body always gets the same validator.
2. **The post-browsing screen's window arithmetic.** The past/future checkboxes
   become the `timestamp_min`/`timestamp_max` bounds of the post query. The
   `posts`, `poststart` and `postend` parameters become the current page, the
   "next" range and the "previous" range.

The PHP built-ins the decisions rest on are defined concretely in module `Php`:
- string truthiness (`empty()`);
- `strstr`;
- `stripslashes`, with `addslashes` as its inverse;
- the int-to-decimal conversion behind `'Content-Length: '.strlen(...)`.

Module `Http` has two grammar rules the emitted headers satisfy: the
entity-tag of section 2.3 of RFC 7232, and the decimal Content-Length of
section 3.3.2 of RFC 7230, with a parser that reads it back.

Points where the code is followed literally:
- PHP's `empty()` is true for `"0"` as well as for `""`. So a page whose whole
  body is `0` also goes out untouched, with no headers (`ObHandler`, first ensures).
- The gzip gate tests the truthiness of `strstr()`'s result. `GzipApplies`
  proves this is the same as "Accept-Encoding contains `gzip`".
- `If-None-Match` is compared as one whole string. The list form, `*` and weak
  validators of section 3.2 of RFC 7232 never match. For example,
  `If-None-Match: "x", "PUB<md5>"` gets a full response.
- In `ComputePageWindow`, `posts` ends up positive when the request's
  `posts` and the list's `posts_per_page` are both non-negative. A non-zero
  `posts` parameter is kept as is, so a negative one stays negative (it is
  never 0 afterwards).
- `gzencode()` returns `false` on failure. The handler then assigns `false` to
  the output and still sends `Content-Encoding: gzip` and
  `Content-Length: 0` (`strlen(false)`). It returns `false`, so PHP's output
  buffering sends the original, uncompressed page under those headers
  (`FailedGzipMislabelsBody`).
- `BeforeEnable` checks for `gzencode()` only when the plugin is enabled. If
  the gzip box is ticked later on a host without it, the handler calls the
  missing function and PHP stops with a fatal error (`GzipTickedLaterIsFatal`).

## Model

| member | source | states |
|---|---|---|
| TransportOptimizer.ObHandler | blogs/plugins/_transport_optimizer.plugin.php:132-183 | An empty buffer ("" or "0") is returned unchanged with no fields. The outcome is 304 exactly when ETags are on, If-None-Match is present and its stripslashes() is the ETag. Once headers are sent, no field and no status line is set. Otherwise a 304 carries the `<protocol> 304 Not Modified` status line and only the ETag field, and every non-empty response has the ETag when ETags are on; with ETags off there is no ETag and never a 304. The outcome is a fatal error exactly when it is not a 304 and the gzip gate opens where gzencode() does not exist; it then carries neither Content-Encoding nor Content-Length. Short of a 304, with headers not yet sent: Last-Modified is present iff the setting is on, and it holds gmdate of the clock. On a full response Content-Encoding: gzip is present iff the gzip gate opens. The body is gzencode(output) when the gate opens and gzencode() succeeds, and the input otherwise, since PHP sends the original buffer when the handler returns gzencode()'s false. Content-Length holds the decimal length of the body sent, or 0 (strlen(false)) after a failed gzencode(). No field other than these four is ever set. |
| TransportOptimizer.ETagFor | blogs/plugins/_transport_optimizer.plugin.php:141-146 | The validator is a strong entity-tag (section 2.3 of RFC 7232), 37 characters long, with no backslash in it. |
| TransportOptimizer.ETagInjective | blogs/plugins/_transport_optimizer.plugin.php:144-145 | Two validators are equal iff they have the same login prefix and the same digest. |
| TransportOptimizer.ETagDiffersOnlyInPrefix | blogs/plugins/_transport_optimizer.plugin.php:144-145 | For one body, the logged-in and public validators have the same length. Characters 1-3 are `AUT` and `PUB`, and every other character is identical. |
| TransportOptimizer.GzipApplies | blogs/plugins/_transport_optimizer.plugin.php:171-175 | The gate that tests truthiness of strstr() opens iff the gzip setting is truthy, headers are not yet sent, Accept-Encoding is present and contains `gzip` as a substring. |
| TransportOptimizer.EchoedETagIsNotModified | blogs/plugins/_transport_optimizer.plugin.php:144-157 | A client that sends back the ETag it got, for the same body and login state, is answered 304. |
| TransportOptimizer.EscapedETagIsNotModified | blogs/plugins/_transport_optimizer.plugin.php:149-151 | The same holds when the echoed ETag arrives addslashes()-escaped, since stripslashes() undoes the escaping. |
| TransportOptimizer.ValidatorDoesNotCrossLogin | blogs/plugins/_transport_optimizer.plugin.php:144-150 | A validator issued under the other login state (any digest) never produces a 304. |
| TransportOptimizer.ContentLengthIsBodyLength | blogs/plugins/_transport_optimizer.plugin.php:180-182 | On a non-empty full response, Content-Length is present iff headers were not yet sent. Whenever it is present, the response is a full one and the value parses back to the length of the body sent, compressed or not, except after a failed gzencode(), where it parses back to 0. |
| TransportOptimizer.FailedGzipMislabelsBody | blogs/plugins/_transport_optimizer.plugin.php:171-182 | On every non-empty response not answered 304 where gzencode() exists but returns false, the original uncompressed page goes out with `Content-Encoding: gzip` and `Content-Length: 0`, a length that does not match the body. |
| TransportOptimizer.BeforeEnable | blogs/plugins/_transport_optimizer.plugin.php:95-106 | Enabling is always allowed. The gzip setting becomes "0", with the note shown and the settings saved, iff it was truthy and gzencode() is missing. Otherwise the settings are unchanged and nothing is shown or saved. The other two settings never change. Without gzencode() the resulting gzip setting is falsy. |
| TransportOptimizer.NoGzipWithoutGzencode | blogs/plugins/_transport_optimizer.plugin.php:95-106 | With the settings as enabling leaves them on the same host, the handler never hits the missing-gzencode() fatal error; where gzencode() is missing it never compresses and never sends Content-Encoding. |
| TransportOptimizer.GzipTickedLaterIsFatal | blogs/plugins/_transport_optimizer.plugin.php:171-177 | With the gzip setting truthy, headers not sent, gzencode() missing and an Accept-Encoding that contains `gzip`, every non-empty page not answered 304 ends in the fatal error. |
| TransportOptimizer.PublicPageExample | blogs/plugins/_transport_optimizer.plugin.php:132-183 | With only ETags on and no If-None-Match, the public 15-byte page `<html>Hi</html>` goes out unchanged with exactly `ETag: "PUB<md5>"` and `Content-Length: 15`, or with no field at all when headers were already sent. |
| Php.StripSlashes | blogs/plugins/_transport_optimizer.plugin.php:150 | stripslashes() never lengthens a string and leaves a string without backslashes unchanged. |
| Php.StripSlashesUndoesAddSlashes | blogs/plugins/_transport_optimizer.plugin.php:150 | stripslashes(addslashes(s)) == s for every s. |
| Php.StrStr | blogs/plugins/_transport_optimizer.plugin.php:174 | strstr() finds something iff the needle occurs. What it returns is a suffix of the haystack that starts with the needle, and no earlier position holds the needle. |
| Php.DecimalString | blogs/plugins/_transport_optimizer.plugin.php:180 | PHP's decimal text of a length is non-empty, all digits, and has no leading zero. |
| Http.DecimalStringRoundTrip | blogs/plugins/_transport_optimizer.plugin.php:180 | The decimal text of n is a valid Content-Length (1*DIGIT) that parses back to n. |
| EditShowPosts.ShowPostsDateFilter | blogs/admin/_edit_showposts.php:52-60 | With both flags 0 both become 1, otherwise both are kept. timestamp_min is "now" iff show_past is 0 and "" otherwise; likewise for timestamp_max and show_future. At most one bound is "now". |
| EditShowPosts.ComputePageWindow | blogs/admin/_edit_showposts.php:79-110 | posts falls back to posts_per_page, else 10 for both; it is never 0, and it is positive when both inputs are non-negative. A start of 0 becomes 1. Without an explicit end the page holds exactly posts posts. "Next" starts right after the page and holds posts posts. "Previous" ends right before the page, starts at max(1, start - posts) >= 1, and is a full page when there is room for one. |
| EditShowPosts.NextThenPreviousReturns | blogs/admin/_edit_showposts.php:97-110 | From a default-sized page, following the "next" range and then that page's "previous" range returns to the original page. |
| EditShowPosts.PreviousThenNextReturns | blogs/admin/_edit_showposts.php:97-110 | From a default-sized page starting after post 1, following "previous" and then "next" returns to the original page. |
| EditShowPosts.PreviousOfFirstPageIsFirstPage | blogs/admin/_edit_showposts.php:97-110 | On the first page the previous range is 1..0. Because an end of 0 reads as unset, following it shows the first page again. |

## Left out

- MD5, gzip encoding and `gmdate()` HTTP-date formatting are foreign library calls. They are opaque function values. Only MD5's output shape (32 hex digits, lower-case as PHP's implementation writes them) is used.
- `CachePageContent` (`ob_start`), the real `header()` side effects and `exit()` are represented by the `Outcome` datatype and its field map. The order in which the fields were set is not kept.
- ObHandler: `gzencode()` appears as a function value that returns the compressed text or `None` (PHP's `false`). Which inputs make it fail, and the warning PHP raises then, are not modelled.
- ObHandler: the `Fatal` outcome records only that PHP stops, and the fields set before it. The error text PHP prints, and what of it reaches the client from inside an output-buffer callback, are not modelled. The warnings `header()` raises once headers are sent are not modelled either.
- `PluginInit` and `GetDefaultSettings` (plugin registration and setting defaults) are configuration plumbing. The handler takes the three settings directly.
- `Settings->dbupdate()` and `msg()` in `BeforeEnable` are persistence and UI. They appear only as the `saved` flag and the note text of `EnableResult`.
- PHP strings are bytes. Here a `char` stands for one byte, and the body and headers are `seq<char>`.
- PHP integers are 64 bits and turn into floats on overflow. The window arithmetic uses unbounded integers. This only matters for parameters near 2^63.
- EditShowPosts.ComputePageWindow: states posts > 0 only when both the `posts` parameter and `posts_per_page` are non-negative, because the code keeps a negative `posts` as is.
- The rest of blogs/admin/_edit_showposts.php is not part of this model. This covers the `ItemList`, `CommentList`, `Calendar` and `ArchiveList` queries, archive and category display, and the `cat_list_*` echo callbacks: database queries and HTML output. `posts_per_page`, which comes from the `ItemList`, is a parameter.
- The rest of the repository is not part of this model.
