/** The three string operations the objective list uses: `String.prototype.trim`
    (to reject a blank title), `toLowerCase` (restricted to ASCII here) and
    `String.prototype.includes` (the search). Strings are sequences of characters. */
module Text {

  /** The code points ECMAScript's `trim` strips: the WhiteSpace set (tab, vertical
      tab, form feed, space, no-break space, byte order mark and every Unicode
      space separator) and the LineTerminator set (LF, CR, LS, PS). */
  predicate IsJsWhitespace(c: char) {
    var n := c as int;
    n == 0x09 || n == 0x0A || n == 0x0B || n == 0x0C || n == 0x0D || n == 0x20
    || n == 0xA0 || n == 0x1680 || (0x2000 <= n <= 0x200A) || n == 0x2028
    || n == 0x2029 || n == 0x202F || n == 0x205F || n == 0x3000 || n == 0xFEFF
  }

  /** Every character of `s` is whitespace (the empty string included). */
  predicate IsBlank(s: string) {
    forall i :: 0 <= i < |s| ==> IsJsWhitespace(s[i])
  }

  /** `s.trimStart()`: drops the leading whitespace and nothing else. */
  function TrimStart(s: string): (r: string)
    ensures |r| <= |s| && r == s[|s| - |r|..]
    ensures IsBlank(s[..|s| - |r|])
    ensures r == [] || !IsJsWhitespace(r[0])
  {
    if s != [] && IsJsWhitespace(s[0]) then
      var r := TrimStart(s[1..]);
      assert s[..|s| - |r|] == [s[0]] + s[1..][..|s| - 1 - |r|];
      r
    else s
  }

  /** `s.trimEnd()`: drops the trailing whitespace and nothing else. */
  function TrimEnd(s: string): (r: string)
    ensures |r| <= |s| && r == s[..|r|]
    ensures IsBlank(s[|r|..])
    ensures r == [] || !IsJsWhitespace(r[|r| - 1])
  {
    if s != [] && IsJsWhitespace(s[|s| - 1]) then
      var r := TrimEnd(s[..|s| - 1]);
      assert s[|r|..] == s[..|s| - 1][|r|..] + [s[|s| - 1]];
      r
    else s
  }

  /** `s.trim()`. The title check of the form only asks whether this is empty. */
  function Trim(s: string): (r: string)
  {
    TrimEnd(TrimStart(s))
  }

  /** `s.trim()` is empty exactly when `s` is blank; otherwise it neither starts nor
      ends with whitespace. */
  lemma TrimEmptyIffBlank(s: string)
    ensures Trim(s) == [] <==> IsBlank(s)
    ensures Trim(s) != [] ==> !IsJsWhitespace(Trim(s)[0]) && !IsJsWhitespace(Trim(s)[|Trim(s)| - 1])
  {
  }

  /** ASCII lower-casing of one character. */
  function LowerChar(c: char): (d: char)
    ensures 'A' <= c <= 'Z' ==> 'a' <= d <= 'z' && d as int == c as int + 32
    ensures !('A' <= d <= 'Z')
    ensures 'a' <= d <= 'z' ==> 'a' <= c <= 'z' || 'A' <= c <= 'Z'
    ensures !('A' <= c <= 'Z') ==> d == c
  {
    if 'A' <= c <= 'Z' then (c as int + 32) as char else c
  }

  /** `s.toLowerCase()`, on the ASCII letters only. */
  function Lower(s: string): (r: string)
  {
    seq(|s|, i requires 0 <= i < |s| => LowerChar(s[i]))
  }

  /** Lower-casing keeps the length, leaves no upper-case ASCII letter behind and is
      idempotent. */
  lemma LowerProperties(s: string)
    ensures |Lower(s)| == |s|
    ensures forall i :: 0 <= i < |s| ==> !('A' <= Lower(s)[i] <= 'Z')
    ensures Lower(Lower(s)) == Lower(s)
  {
  }

  /** `a` and `b` differ at most in the case of ASCII letters: at each position they
      hold the same character, or an upper-case letter and its lower-case partner. */
  predicate SameUpToAsciiCase(a: string, b: string) {
    && |a| == |b|
    && forall i :: 0 <= i < |a| ==>
         || a[i] == b[i]
         || ('A' <= a[i] <= 'Z' && b[i] as int == a[i] as int + 32)
         || ('A' <= b[i] <= 'Z' && a[i] as int == b[i] as int + 32)
  }

  /** Strings that differ only in the case of ASCII letters have the same lower-cased
      form, and every string differs from its lower-cased form only in that way. */
  lemma LowerIgnoresCase(a: string, b: string)
    ensures SameUpToAsciiCase(a, b) ==> Lower(a) == Lower(b)
    ensures SameUpToAsciiCase(a, Lower(a))
  {
  }

  /** `needle` occurs in `hay` starting at index `i`. */
  ghost predicate OccursAt(hay: string, needle: string, i: int) {
    0 <= i && i + |needle| <= |hay| && hay[i..i + |needle|] == needle
  }

  /** `hay.includes(needle)`: tries each starting position from the left. */
  function Includes(hay: string, needle: string): (b: bool)
    decreases |hay|
  {
    |needle| <= |hay| && (hay[..|needle|] == needle || Includes(hay[1..], needle))
  }

  /** `Includes` holds exactly when `needle` occurs somewhere in `hay`. */
  lemma {:induction false} IncludesIffOccurs(hay: string, needle: string)
    ensures Includes(hay, needle) <==> exists i :: OccursAt(hay, needle, i)
    decreases |hay|
  {
    if |needle| <= |hay| {
      if hay[..|needle|] == needle {
        assert OccursAt(hay, needle, 0);
      } else {
        IncludesIffOccurs(hay[1..], needle);
        if Includes(hay[1..], needle) {
          var j :| OccursAt(hay[1..], needle, j);
          assert hay[j + 1..j + 1 + |needle|] == hay[1..][j..j + |needle|];
          assert OccursAt(hay, needle, j + 1);
        }
        if exists i :: OccursAt(hay, needle, i) {
          var i :| OccursAt(hay, needle, i);
          if i > 0 {
            assert hay[1..][i - 1..i - 1 + |needle|] == hay[i..i + |needle|];
            assert OccursAt(hay[1..], needle, i - 1);
          }
        }
      }
    }
  }
}
