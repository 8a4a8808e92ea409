/** The java.lang.String operations the board service relies on, with Java's semantics. */
module JavaText {
  import opened Outcomes

  /** `m` occurs in `s` starting at index `i`. */
  predicate OccursAt(s: string, m: string, i: int) {
    0 <= i && i + |m| <= |s| && s[i..i + |m|] == m
  }

  /** `s.indexOf(m, from)`: the first index at or after `from` where `m` occurs, or -1. */
  function IndexOfFrom(s: string, m: string, from: nat): (r: int)
    decreases |s| - from
    ensures r == -1 || (from <= r && OccursAt(s, m, r))
    ensures forall i :: from <= i && (r == -1 || i < r) ==> !OccursAt(s, m, i)
  {
    if from + |m| > |s| then -1
    else if s[from..from + |m|] == m then from
    else IndexOfFrom(s, m, from + 1)
  }

  /** `s.indexOf(m)`. */
  function IndexOf(s: string, m: string): int {
    IndexOfFrom(s, m, 0)
  }

  /** `s.lastIndexOf(c)`: the last index holding `c`, or -1. */
  function LastIndexOf(s: string, c: char): (r: int)
    ensures -1 <= r < |s|
    ensures r == -1 <==> c !in s
    ensures 0 <= r ==> s[r] == c && c !in s[r + 1..]
  {
    if s == [] then -1
    else if s[|s| - 1] == c then |s| - 1
    else
      assert s == s[..|s| - 1] + [s[|s| - 1]];
      LastIndexOf(s[..|s| - 1], c)
  }

  /** `s.substring(begin)`, which throws unless `0 <= begin <= s.length()`. */
  function Substring(s: string, begin: int): Result<string, Thrown> {
    if 0 <= begin <= |s| then Ok(s[begin..]) else Err(StringIndexOutOfBounds)
  }

  /** `Character.isWhitespace`: the Unicode space, line and paragraph separators other than
      the no-break spaces U+00A0, U+2007 and U+202F, and the controls U+0009..U+000D, U+001C..U+001F. */
  predicate IsWhitespace(c: char) {
    var n := c as int;
    || 0x09 <= n <= 0x0D
    || 0x1C <= n <= 0x20
    || n == 0x1680
    || 0x2000 <= n <= 0x2006
    || 0x2008 <= n <= 0x200A
    || n == 0x2028 || n == 0x2029
    || n == 0x205F
    || n == 0x3000
  }

  /** `s.isBlank()`: empty, or whitespace only. */
  predicate IsBlank(s: string) {
    forall i :: 0 <= i < |s| ==> IsWhitespace(s[i])
  }
}
