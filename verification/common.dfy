/**
 Shared building blocks: the optional value that stands for Java's `null`
 and JavaScript's `undefined`, an error-carrying result, and the two
 notions of "blank text" the application relies on (JavaScript's
 `String.prototype.trim` on the client, Java's `String.isBlank` on the
 server), which use different sets of white-space characters.
 */
module Common {

  /** A value that may be absent (`null` / `undefined` in the source). */
  datatype Option<+T> = None | Some(value: T) {

    /** The value, or `default` when absent (the `x || ''` idiom). */
    function GetOr(default: T): T {
      match this
      case Some(v) => v
      case None => default
    }
  }

  /** The outcome of a server operation that can fail. */
  datatype Result<+T, +E> = Success(value: T) | Failure(error: E)

  /**
   White space as JavaScript's `trim` understands it: the WhiteSpace and
   LineTerminator productions of ECMAScript (tab, vertical tab, form feed,
   the byte-order mark, every space separator, line feed, carriage return,
   line separator and paragraph separator).
   */
  predicate IsJsSpace(c: char) {
    var n := c as int;
    || n == 0x09 || n == 0x0A || n == 0x0B || n == 0x0C || n == 0x0D
    || n == 0x20 || n == 0xA0 || n == 0x1680
    || (0x2000 <= n <= 0x200A)
    || n == 0x2028 || n == 0x2029 || n == 0x202F || n == 0x205F
    || n == 0x3000 || n == 0xFEFF
  }

  /**
   White space as Java's `Character.isWhitespace` understands it: the
   space, line and paragraph separators except the non-breaking ones
   (U+00A0, U+2007, U+202F), plus the ASCII controls U+0009..U+000D and
   U+001C..U+001F.
   */
  predicate IsJavaSpace(c: char) {
    var n := c as int;
    || (0x09 <= n <= 0x0D) || (0x1C <= n <= 0x1F)
    || n == 0x20 || n == 0x1680
    || (0x2000 <= n <= 0x2006) || (0x2008 <= n <= 0x200A)
    || n == 0x2028 || n == 0x2029 || n == 0x205F || n == 0x3000
  }

  /** Every character is JavaScript white space (the empty string included). */
  predicate IsBlankJs(s: string) {
    forall i :: 0 <= i < |s| ==> IsJsSpace(s[i])
  }

  /** Java's `String.isBlank`: empty, or only white space code points. */
  predicate IsBlankJava(s: string) {
    forall i :: 0 <= i < |s| ==> IsJavaSpace(s[i])
  }

  /** The number of leading white-space characters of `s`. */
  function Leading(s: string): (n: nat)
    ensures n <= |s|
    ensures forall i :: 0 <= i < n ==> IsJsSpace(s[i])
    ensures n < |s| ==> !IsJsSpace(s[n])
  {
    if |s| > 0 && IsJsSpace(s[0]) then 1 + Leading(s[1..]) else 0
  }

  /** Drops trailing white space. */
  function TrimEnd(s: string): (r: string)
    ensures |r| <= |s| && r == s[..|r|]
    ensures forall i :: |r| <= i < |s| ==> IsJsSpace(s[i])
    ensures |r| > 0 ==> !IsJsSpace(r[|r| - 1])
  {
    if |s| > 0 && IsJsSpace(s[|s| - 1]) then TrimEnd(s[..|s| - 1]) else s
  }

  /**
   JavaScript's `s.trim()`: leading and then trailing white space dropped.
   The result is the infix of `s` that starts after the leading white
   space and neither starts nor ends with white space; it is empty exactly
   when `s` is blank, which is what the source's `!s.trim()` tests.
   */
  function Trim(s: string): (r: string)
    ensures Leading(s) + |r| <= |s| && r == s[Leading(s)..Leading(s) + |r|]
    ensures forall i :: Leading(s) + |r| <= i < |s| ==> IsJsSpace(s[i])
    ensures |r| > 0 ==> !IsJsSpace(r[0]) && !IsJsSpace(r[|r| - 1])
    ensures r == [] <==> IsBlankJs(s)
  {
    TrimEnd(s[Leading(s)..])
  }
}
