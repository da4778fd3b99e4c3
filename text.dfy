/** String operations the plugin relies on, written out over `seq<char>`:
    case-insensitive literal replacement (a global `/pattern/gi` regular
    expression with a literal pattern), trimming, substring search and the
    code-unit order JavaScript uses to compare strings. */
module Text {

  /** ASCII lower-casing of one character; every other character is left alone. */
  function LowerAscii(c: char): char {
    if 'A' <= c <= 'Z' then (c as int + 32) as char else c
  }

  function LowerAsciiString(s: string): (r: string)
    ensures |r| == |s| && forall i :: 0 <= i < |s| ==> r[i] == LowerAscii(s[i])
  {
    seq(|s|, i requires 0 <= i < |s| => LowerAscii(s[i]))
  }

  /** `s` starts with `p` up to ASCII case; `p` is given in lower case. */
  predicate StartsWithCI(s: string, p: string) {
    |p| <= |s| && LowerAsciiString(s[..|p|]) == p
  }

  /** `s.replace(/p/gi, r)` for a literal, lower-case pattern `p`: matches are
      found left to right, do not overlap, and the scan resumes after each match. */
  function ReplaceAllCI(s: string, p: string, r: string): (out: string)
    requires |p| > 0
    ensures |r| <= |p| ==> |out| <= |s|
    decreases |s|
  {
    if s == [] then []
    else if StartsWithCI(s, p) then r + ReplaceAllCI(s[|p|..], p, r)
    else [s[0]] + ReplaceAllCI(s[1..], p, r)
  }

  /** A match at the head is replaced whatever the ASCII case of the matched text. */
  lemma ReplaceHeadAnyCase(v: string, rest: string, p: string, r: string)
    requires |p| > 0 && LowerAsciiString(v) == p
    ensures ReplaceAllCI(v + rest, p, r) == r + ReplaceAllCI(rest, p, r)
  {
    var s := v + rest;
    assert s[..|p|] == v;
    assert s[|p|..] == rest;
  }

  /** A string that lacks the first character of the pattern (a character that is
      not a letter, so ASCII case plays no part) is left as it is. */
  lemma {:induction false} ReplaceWithoutLead(s: string, p: string, r: string)
    requires |p| > 0 && !('a' <= p[0] <= 'z') && !('A' <= p[0] <= 'Z')
    requires forall i :: 0 <= i < |s| ==> s[i] != p[0]
    ensures ReplaceAllCI(s, p, r) == s
    decreases |s|
  {
    if s != [] {
      assert !StartsWithCI(s, p) by {
        if |p| <= |s| {
          assert LowerAsciiString(s[..|p|])[0] == LowerAscii(s[0]);
          assert LowerAscii(s[0]) != p[0] by {
            if 'A' <= s[0] <= 'Z' {
              assert LowerAscii(s[0]) as int == s[0] as int + 32;
            }
          }
        }
      }
      ReplaceWithoutLead(s[1..], p, r);
      assert [s[0]] + s[1..] == s;
    }
  }

  // ---- Trimming ----

  /** JavaScript `WhiteSpace` and `LineTerminator` characters, which `String.prototype.trim` removes. */
  predicate IsJsSpace(c: char) {
    || c == '\t' || c == '\U{000B}' || c == '\U{000C}' || c == ' ' || c == '\U{00A0}' || c == '\U{FEFF}'
    || c == '\U{1680}' || ('\U{2000}' <= c <= '\U{200A}') || c == '\U{202F}' || c == '\U{205F}' || c == '\U{3000}'
    || c == '\n' || c == '\r' || c == '\U{2028}' || c == '\U{2029}'
  }

  /** The characters PHP's `trim` removes by default: space, tab, newline, carriage return, NUL, vertical tab. */
  predicate IsPhpSpace(c: char) {
    c == ' ' || c == '\t' || c == '\n' || c == '\r' || c == '\0' || c == '\U{000B}'
  }

  /** The two whitespace sets the code trims: JavaScript's and PHP's. */
  datatype SpaceSet = JsSpace | PhpSpace

  predicate IsSpace(ws: SpaceSet, c: char) {
    match ws
    case JsSpace => IsJsSpace(c)
    case PhpSpace => IsPhpSpace(c)
  }

  /** No leading and no trailing character is in `ws`. */
  predicate Tight(s: string, ws: SpaceSet) {
    s == [] || (!IsSpace(ws, s[0]) && !IsSpace(ws, s[|s| - 1]))
  }

  /** The number of leading characters in `ws`. */
  function LeadingSpaces(s: string, ws: SpaceSet): (n: nat)
    ensures n <= |s|
    ensures forall k :: 0 <= k < n ==> IsSpace(ws, s[k])
    ensures n < |s| ==> !IsSpace(ws, s[n])
    decreases |s|
  {
    if s != [] && IsSpace(ws, s[0]) then 1 + LeadingSpaces(s[1..], ws) else 0
  }

  /** Where the trailing run of characters in `ws` begins. */
  function TrailingStart(s: string, ws: SpaceSet): (n: nat)
    ensures n <= |s|
    ensures forall k :: n <= k < |s| ==> IsSpace(ws, s[k])
    ensures n > 0 ==> !IsSpace(ws, s[n - 1])
    decreases |s|
  {
    if s != [] && IsSpace(ws, s[|s| - 1]) then TrailingStart(s[..|s| - 1], ws) else |s|
  }

  /** Only characters of `ws` lie outside `s[i..j]`. */
  predicate OnlySpaceOutside(s: string, ws: SpaceSet, i: int, j: int) {
    && 0 <= i <= j <= |s|
    && (forall k :: 0 <= k < i ==> IsSpace(ws, s[k]))
    && (forall k :: j <= k < |s| ==> IsSpace(ws, s[k]))
  }

  /** Removes every leading and every trailing character of `ws`:
      the result is the slice between the first and the last other character. */
  function Trim(s: string, ws: SpaceSet): (r: string)
    ensures Tight(r, ws)
    ensures exists i, j :: OnlySpaceOutside(s, ws, i, j) && r == s[i..j]
  {
    var i := LeadingSpaces(s, ws);
    var t := TrailingStart(s, ws);
    var j := if i < t then t else i;
    assert OnlySpaceOutside(s, ws, i, j);
    s[i..j]
  }

  /** A string with nothing to trim is its own trim. */
  lemma {:induction false} TrimTight(s: string, ws: SpaceSet)
    requires Tight(s, ws)
    ensures Trim(s, ws) == s
  {
    assert LeadingSpaces(s, ws) == 0;
    assert TrailingStart(s, ws) == |s|;
    assert s[0..|s|] == s;
  }

  // ---- Substrings ----

  predicate StartsWith(s: string, p: string) {
    |p| <= |s| && s[..|p|] == p
  }

  /** `s.includes(sub)`. */
  predicate Contains(s: string, sub: string)
    decreases |s|
  {
    StartsWith(s, sub) || (s != [] && Contains(s[1..], sub))
  }

  /** `sub` occurs in `s` starting at index `i`. */
  predicate OccursAt(s: string, sub: string, i: int) {
    0 <= i <= |s| - |sub| && s[i..i + |sub|] == sub
  }

  lemma {:induction false} ContainsAt(s: string, sub: string)
    ensures Contains(s, sub) <==> exists i :: OccursAt(s, sub, i)
    decreases |s|
  {
    if StartsWith(s, sub) {
      assert OccursAt(s, sub, 0);
    } else if s != [] {
      ContainsAt(s[1..], sub);
      if Contains(s[1..], sub) {
        var i :| OccursAt(s[1..], sub, i);
        assert OccursAt(s, sub, i + 1);
      }
      if exists i :: OccursAt(s, sub, i) {
        var i :| OccursAt(s, sub, i);
        assert i != 0;
        assert OccursAt(s[1..], sub, i - 1);
      }
    } else {
      assert forall i :: !OccursAt(s, sub, i);
    }
  }

  // ---- JavaScript string order ----

  /** The UTF-16 encoding of one character: one unit in the Basic Multilingual Plane, a surrogate pair above it. */
  function Utf16Char(c: char): (r: seq<int>)
    ensures 1 <= |r| <= 2
  {
    var v := c as int;
    if v < 0x1_0000 then [v]
    else [0xD800 + (v - 0x1_0000) / 0x400, 0xDC00 + (v - 0x1_0000) % 0x400]
  }

  /** The code units of a string, the thing JavaScript's `<` on strings compares. */
  function Utf16(s: string): seq<int> {
    if s == [] then [] else Utf16Char(s[0]) + Utf16(s[1..])
  }

  /** Lexicographic order on code-unit sequences: a proper prefix comes first. */
  predicate LexLess(a: seq<int>, b: seq<int>) {
    if a == [] then b != []
    else if b == [] then false
    else if a[0] != b[0] then a[0] < b[0]
    else LexLess(a[1..], b[1..])
  }

  lemma {:induction false} LexLessIrreflexive(a: seq<int>)
    ensures !LexLess(a, a)
  {
    if a != [] { LexLessIrreflexive(a[1..]); }
  }

  /** Two different sequences are ordered one way or the other, never both. */
  lemma {:induction false} LexLessTotal(a: seq<int>, b: seq<int>)
    ensures a != b ==> LexLess(a, b) || LexLess(b, a)
    ensures !(LexLess(a, b) && LexLess(b, a))
  {
    if a != [] && b != [] && a[0] == b[0] {
      LexLessTotal(a[1..], b[1..]);
      if a != b { assert a[1..] != b[1..] by { assert a == [a[0]] + a[1..] && b == [b[0]] + b[1..]; } }
    }
  }

  lemma {:induction false} LexLessTransitive(a: seq<int>, b: seq<int>, c: seq<int>)
    requires LexLess(a, b) && LexLess(b, c)
    ensures LexLess(a, c)
  {
    if a != [] && a[0] == b[0] && b[0] == c[0] {
      LexLessTransitive(a[1..], b[1..], c[1..]);
    }
  }

  /** The non-strict order `!(b < a)` is transitive as well. */
  lemma LexLeqTransitive(a: seq<int>, b: seq<int>, c: seq<int>)
    requires !LexLess(b, a) && !LexLess(c, b)
    ensures !LexLess(c, a)
  {
    LexLessTotal(a, b);
    LexLessTotal(b, c);
    LexLessTotal(a, c);
    if a != b && b != c {
      LexLessTransitive(a, b, c);
    }
  }
}
