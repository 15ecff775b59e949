/** The pieces of Python's `re` semantics that the installer's three
    validation patterns rely on: their character classes and the end anchor
    `$`. The patterns are str patterns compiled without flags, so ranges such
    as `[A-Za-z]` are ASCII-only while `\s` is Unicode whitespace. */
module Regex {

  /** `[A-Za-z]` */
  predicate IsAsciiLetter(c: char) {
    'A' <= c <= 'Z' || 'a' <= c <= 'z'
  }

  /** `[0-9]` */
  predicate IsAsciiDigit(c: char) {
    '0' <= c <= '9'
  }

  /** `[A-Za-z0-9.-]`, the characters of a proxy host name */
  predicate IsHostChar(c: char) {
    IsAsciiLetter(c) || IsAsciiDigit(c) || c == '.' || c == '-'
  }

  /** `[A-Za-z0-9+/=]`, the characters of an SSH key blob */
  predicate IsBase64Char(c: char) {
    IsAsciiLetter(c) || IsAsciiDigit(c) || c == '+' || c == '/' || c == '='
  }

  /** `.` without DOTALL: anything but a line feed */
  predicate IsDotChar(c: char) {
    c != '\n'
  }

  /** `\s` in a str pattern: exactly the characters for which Python's
      `str.isspace()` holds. */
  predicate IsUnicodeSpace(c: char) {
    var n := c as int;
    || 0x09 <= n <= 0x0D
    || 0x1C <= n <= 0x20
    || n == 0x85 || n == 0xA0 || n == 0x1680
    || 0x2000 <= n <= 0x200A
    || n == 0x2028 || n == 0x2029 || n == 0x202F || n == 0x205F || n == 0x3000
  }

  /** Every character of `s` is in the class `cls`. */
  predicate AllIn(s: string, cls: char -> bool) {
    forall i :: 0 <= i < |s| ==> cls(s[i])
  }

  /** What `$` (without MULTILINE) lets remain after the match: nothing, or
      a single line feed that ends the subject. */
  predicate DollarTail(t: string) {
    t == "" || t == "\n"
  }

  /** The subject without its final line feed, if it has one: the only part
      a pattern that cannot itself match a line feed can span before `$`. */
  function DropFinalNewline(s: string): (body: string)
    ensures |body| <= |s| && body == s[..|body|]
    ensures DollarTail(s[|body|..])
  {
    if |s| > 0 && s[|s| - 1] == '\n' then s[..|s| - 1] else s
  }

  /** Without a final line feed there is nothing to drop. */
  lemma NoFinalNewline(s: string)
    requires |s| == 0 || s[|s| - 1] != '\n'
    ensures DropFinalNewline(s) == s
  {
  }

  /** If a match free of line feeds ends at `k` and `$` succeeds there,
      then `k` is fixed by the subject alone. */
  lemma DollarBoundary(s: string, k: nat)
    requires k <= |s|
    requires '\n' !in s[..k]
    requires DollarTail(s[k..])
    ensures s[..k] == DropFinalNewline(s)
  {
    if k == |s| && |s| > 0 {
      assert s[|s| - 1] in s[..k];
    }
  }

  /** A class that rejects `c` admits no string containing `c`. */
  lemma AllInExcludes(s: string, cls: char -> bool, c: char)
    requires AllIn(s, cls) && !cls(c)
    ensures c !in s
  {
  }

  /** A class admits a concatenation exactly when it admits both parts. */
  lemma AllInConcat(a: string, b: string, cls: char -> bool)
    ensures AllIn(a + b, cls) <==> AllIn(a, cls) && AllIn(b, cls)
  {
    if AllIn(a + b, cls) {
      forall i | 0 <= i < |a| ensures cls(a[i]) {
        assert a[i] == (a + b)[i];
      }
      forall i | 0 <= i < |b| ensures cls(b[i]) {
        assert b[i] == (a + b)[|a| + i];
      }
    }
  }
}
