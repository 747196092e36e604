/**
 The handful of PHP runtime behaviours the plugin and the admin screen lean on,
 stated over `string` (PHP strings are byte strings; here one `char` stands for
 one byte).
 - `Option` models both `isset()` on a request variable and the `false|string`
   return of `strstr()`.
 - `Truthy` is PHP's string-to-boolean conversion; `empty($s)` is `!Truthy(s)`.
 - `StrStr`, `StripSlashes`, `AddSlashes` and `DecimalString` follow the PHP
   built-ins of the same names (the last one is the int-to-string conversion
   done by the `.` operator).
 */
module Php {

  datatype Option<+T> = None | Some(value: T)

  /** PHP's conversion of a string to bool: only "" and "0" are false. */
  predicate Truthy(s: string) {
    s != "" && s != "0"
  }

  /** `needle` occurs in `hay` starting at position `i`. */
  predicate OccursAt(hay: string, needle: string, i: int) {
    0 <= i && i + |needle| <= |hay| && hay[i..i + |needle|] == needle
  }

  /** `needle` occurs somewhere in `hay`. */
  predicate Contains(hay: string, needle: string) {
    exists i :: 0 <= i <= |hay| && OccursAt(hay, needle, i)
  }

  lemma OccursAtTail(hay: string, needle: string, i: int)
    requires |hay| > 0 && 0 <= i
    ensures OccursAt(hay, needle, i + 1) <==> OccursAt(hay[1..], needle, i)
  {
  }

  /** `strstr($hay, $needle)`: the suffix of `hay` starting at the first
      occurrence of `needle`, or `false` (`None`) when there is none. */
  function StrStr(hay: string, needle: string): (r: Option<string>)
    ensures r.Some? <==> Contains(hay, needle)
    ensures r.Some? ==> |r.value| <= |hay| && r.value == hay[|hay| - |r.value|..] && needle <= r.value
    ensures r.Some? ==> forall i :: 0 <= i < |hay| - |r.value| ==> !OccursAt(hay, needle, i)
    decreases |hay|
  {
    if needle <= hay then
      assert OccursAt(hay, needle, 0);
      Some(hay)
    else if |hay| == 0 then
      assert forall i :: !OccursAt(hay, needle, i);
      None
    else
      var rest := StrStr(hay[1..], needle);
      assert !OccursAt(hay, needle, 0);
      assert Contains(hay, needle) ==> Contains(hay[1..], needle) by {
        if Contains(hay, needle) {
          var i :| 0 <= i <= |hay| && OccursAt(hay, needle, i);
          OccursAtTail(hay, needle, i - 1);
        }
      }
      assert Contains(hay[1..], needle) ==> Contains(hay, needle) by {
        if Contains(hay[1..], needle) {
          var i :| 0 <= i <= |hay| - 1 && OccursAt(hay[1..], needle, i);
          OccursAtTail(hay, needle, i);
        }
      }
      assert rest.Some? ==> forall i :: 0 <= i < |hay| - |rest.value| ==> !OccursAt(hay, needle, i) by {
        if rest.Some? {
          forall i | 0 < i < |hay| - |rest.value| ensures !OccursAt(hay, needle, i) {
            OccursAtTail(hay, needle, i - 1);
          }
        }
      }
      rest
  }

  /** No backslash anywhere in `s`. */
  predicate NoBackslash(s: string) {
    forall i :: 0 <= i < |s| ==> s[i] != '\\'
  }

  /** `stripslashes()`: a backslash is dropped and the character after it kept,
      except that `\0` becomes a NUL byte; a lone trailing backslash vanishes. */
  function StripSlashes(s: string): (r: string)
    ensures |r| <= |s|
    ensures NoBackslash(s) ==> r == s
    decreases |s|
  {
    if |s| == 0 then ""
    else if s[0] != '\\' then [s[0]] + StripSlashes(s[1..])
    else if |s| == 1 then ""
    else (if s[1] == '0' then ['\0'] else [s[1]]) + StripSlashes(s[2..])
  }

  /** The escape `addslashes()` writes for one character. */
  function EscapeChar(c: char): string {
    if c == '\0' then "\\0"
    else if c == '\'' || c == '"' || c == '\\' then ['\\', c]
    else [c]
  }

  /** `addslashes()`: quote, double quote, backslash and NUL are backslash-escaped. */
  function AddSlashes(s: string): (r: string)
    ensures |s| <= |r| <= 2 * |s|
    decreases |s|
  {
    if |s| == 0 then "" else EscapeChar(s[0]) + AddSlashes(s[1..])
  }

  lemma StripEscapedChar(c: char, t: string)
    ensures StripSlashes(EscapeChar(c) + t) == [c] + StripSlashes(t)
  {
  }

  /** `stripslashes` undoes `addslashes`. */
  lemma {:induction false} StripSlashesUndoesAddSlashes(s: string)
    ensures StripSlashes(AddSlashes(s)) == s
    decreases |s|
  {
    if |s| > 0 {
      StripEscapedChar(s[0], AddSlashes(s[1..]));
      StripSlashesUndoesAddSlashes(s[1..]);
      assert [s[0]] + s[1..] == s;
    }
  }

  predicate IsDigit(c: char) {
    '0' <= c <= '9'
  }

  function DigitChar(d: nat): (c: char)
    requires d < 10
    ensures IsDigit(c) && c as int - '0' as int == d
  {
    (d + '0' as int) as char
  }

  /** The decimal text PHP produces for a non-negative integer: at least one
      digit, and no leading zero except for "0" itself. */
  function DecimalString(n: nat): (r: string)
    ensures |r| >= 1
    ensures forall i :: 0 <= i < |r| ==> IsDigit(r[i])
    ensures |r| > 1 ==> r[0] != '0'
    ensures n < 10 <==> |r| == 1
    decreases n
  {
    if n < 10 then [DigitChar(n)] else DecimalString(n / 10) + [DigitChar(n % 10)]
  }
}
