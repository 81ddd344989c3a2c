/**
  The JavaScript string operations the admin code relies on, given exact
  meanings: truthiness of an optional string, `x || null`, `startsWith`,
  `trim` (with the full ECMAScript white-space and line-terminator set),
  `toUpperCase` on ASCII letters, and the case-insensitive `contains` the
  database filters use.
 */
module JsText {

  datatype Option<T> = None | Some(value: T)

  /** A value, or the error an operation throws instead. */
  datatype Result<T, E> = Success(value: T) | Failure(error: E)

  /** No character of `s` is a line terminator. */
  predicate SingleLine(s: string) {
    forall k :: 0 <= k < |s| ==> !IsLineTerminator(s[k])
  }

  /** A JSON field or query parameter that may be absent, null or a string
      is truthy exactly when it is a non-empty string. */
  predicate Truthy(o: Option<string>) {
    o.Some? && o.value != ""
  }

  /** The expression `x || null`: keeps a truthy value, turns the rest into null. */
  function OrNull(o: Option<string>): (r: Option<string>)
    ensures r.Some? <==> Truthy(o)
    ensures r.Some? ==> r == o
  {
    if Truthy(o) then o else None
  }

  /** `s.startsWith(p)`. */
  predicate StartsWith(s: string, p: string) {
    |p| <= |s| && s[..|p|] == p
  }

  lemma PrefixOfPrefix(s: string, a: string, b: string)
    requires StartsWith(s, a) && StartsWith(s, b) && |a| <= |b|
    ensures StartsWith(b, a)
  {
    assert b[..|a|] == s[..|b|][..|a|];
  }

  lemma PrefixTransitive(s: string, a: string, b: string)
    ensures StartsWith(s, b) && StartsWith(b, a) ==> StartsWith(s, a)
  {
    if StartsWith(s, b) && StartsWith(b, a) {
      assert s[..|a|] == s[..|b|][..|a|];
    }
  }

  /** `needle` occurs in `hay` starting at position `i`. */
  predicate OccursAt(hay: string, needle: string, i: int) {
    0 <= i <= |hay| - |needle| && hay[i..i + |needle|] == needle
  }

  /** `hay.includes(needle)`. */
  predicate Contains(hay: string, needle: string) {
    exists i :: 0 <= i <= |hay| - |needle| && OccursAt(hay, needle, i)
  }

  /** The characters `String.prototype.trim` removes: ECMAScript WhiteSpace
      (tab, vertical tab, form feed, space, no-break space, byte order mark
      and every other Unicode "Zs" character) and LineTerminator. */
  predicate IsWhiteSpace(c: char) {
    c == '\t' || c == '\U{000B}' || c == '\U{000C}' || c == ' ' ||
    c == '\U{00A0}' || c == '\U{FEFF}' || c == '\U{1680}' ||
    ('\U{2000}' <= c <= '\U{200A}') || c == '\U{202F}' || c == '\U{205F}' ||
    c == '\U{3000}' || IsLineTerminator(c)
  }

  /** ECMAScript LineTerminator; also the characters a regular-expression `.` does not match. */
  predicate IsLineTerminator(c: char) {
    c == '\n' || c == '\r' || c == '\U{2028}' || c == '\U{2029}'
  }

  predicate IsTrimmed(s: string) {
    s == [] || (!IsWhiteSpace(s[0]) && !IsWhiteSpace(s[|s| - 1]))
  }

  function TrimStart(s: string): (r: string)
    ensures r == [] || !IsWhiteSpace(r[0])
    ensures |r| <= |s| && r == s[|s| - |r|..]
    ensures forall k :: 0 <= k < |s| - |r| ==> IsWhiteSpace(s[k])
    ensures r == [] <==> IsBlank(s)
  {
    if s != [] && IsWhiteSpace(s[0]) then TrimStart(s[1..]) else s
  }

  function TrimEnd(s: string): (r: string)
    ensures r == [] || !IsWhiteSpace(r[|r| - 1])
    ensures |r| <= |s| && r == s[..|r|]
    ensures forall k :: |r| <= k < |s| ==> IsWhiteSpace(s[k])
    ensures r == [] <==> IsBlank(s)
  {
    if s != [] && IsWhiteSpace(s[|s| - 1]) then TrimEnd(s[..|s| - 1]) else s
  }

  /** Every character is white space: `s.trim()` is empty. */
  predicate IsBlank(s: string) {
    forall k :: 0 <= k < |s| ==> IsWhiteSpace(s[k])
  }

  /** `s.trim()`: the longest middle part of `s` that neither starts nor ends
      with white space; it is empty exactly when `s` is all white space. */
  function Trim(s: string): (r: string)
    ensures IsTrimmed(r)
    ensures |r| <= |s|
    ensures r == [] <==> IsBlank(s)
  {
    var t := TrimStart(s);
    var r := TrimEnd(t);
    assert t != [] ==> !IsBlank(t) by {
      if t != [] {
        assert !IsWhiteSpace(t[0]);
      }
    }
    assert r != [] ==> r[0] == t[0];
    r
  }

  /** What `trim` keeps: `s` with its leading and trailing white space cut
      off, and nothing else (character for character, from offset `a`). */
  lemma {:induction false} TrimKeepsMiddle(s: string)
    ensures var r := Trim(s); var a := |s| - |TrimStart(s)|;
      a + |r| <= |s| && (forall k :: 0 <= k < |r| ==> r[k] == s[a + k]) &&
      IsBlank(s[..a]) && IsBlank(s[a + |r|..])
  {
    TrimIsSlice(s);
    TrimDropsBlankStart(s);
    TrimDropsBlankEnd(s);
  }

  lemma {:induction false} TrimIsSlice(s: string)
    ensures var r := Trim(s); var a := |s| - |TrimStart(s)|;
      a + |r| <= |s| && forall k :: 0 <= k < |r| ==> r[k] == s[a + k]
  {
    var t := TrimStart(s);
    var r := TrimEnd(t);
    CutBothEnds(s, t, r);
  }

  lemma {:induction false} TrimDropsBlankStart(s: string)
    ensures var a := |s| - |TrimStart(s)|; IsBlank(s[..a])
  {
    var t := TrimStart(s);
    BlankPrefix(s, |s| - |t|);
  }

  lemma {:induction false} TrimDropsBlankEnd(s: string)
    ensures var r := Trim(s); var a := |s| - |TrimStart(s)|;
      a + |r| <= |s| && IsBlank(s[a + |r|..])
  {
    var t := TrimStart(s);
    var r := TrimEnd(t);
    CutBothEnds(s, t, r);
  }

  /** A suffix `t` of `s` after white space, and a prefix `r` of `t` before
      white space, make a middle slice of `s` with only white space around it. */
  lemma CutBothEnds(s: string, t: string, r: string)
    requires |t| <= |s| && t == s[|s| - |t|..] && forall k :: 0 <= k < |s| - |t| ==> IsWhiteSpace(s[k])
    requires |r| <= |t| && r == t[..|r|] && forall k :: |r| <= k < |t| ==> IsWhiteSpace(t[k])
    ensures var a := |s| - |t|;
      a + |r| <= |s| && (forall k :: 0 <= k < |r| ==> r[k] == s[a + k]) &&
      IsBlank(s[..a]) && IsBlank(s[a + |r|..])
  {
    var a := |s| - |t|;
    BlankPrefix(s, a);
    BlankSuffix(t, |r|);
    assert s[a + |r|..] == t[|r|..];
  }

  lemma BlankPrefix(s: string, a: nat)
    requires a <= |s| && forall k :: 0 <= k < a ==> IsWhiteSpace(s[k])
    ensures IsBlank(s[..a])
  {
    assert forall k :: 0 <= k < a ==> s[..a][k] == s[k];
  }

  lemma BlankSuffix(s: string, b: nat)
    requires b <= |s| && forall k :: b <= k < |s| ==> IsWhiteSpace(s[k])
    ensures IsBlank(s[b..])
  {
    assert forall k :: 0 <= k < |s| - b ==> s[b..][k] == s[b + k];
  }

  /** Trimming an already trimmed string changes nothing, so `trim` is idempotent. */
  lemma TrimmedIsFixed(s: string)
    requires IsTrimmed(s)
    ensures Trim(s) == s
  {
  }

  lemma TrimIdempotent(s: string)
    ensures Trim(Trim(s)) == Trim(s)
  {
    TrimmedIsFixed(Trim(s));
  }

  /** The number of UTF-16 code units that encode `c`: two for a character
      above U+FFFF (a surrogate pair), one otherwise. */
  function CodeUnits(c: char): nat {
    if c as int > 0xFFFF then 2 else 1
  }

  /** `s.length`, which counts UTF-16 code units rather than characters. */
  function Utf16Length(s: string): (n: nat)
    ensures |s| <= n <= 2 * |s|
    ensures (forall k :: 0 <= k < |s| ==> CodeUnits(s[k]) == 1) ==> n == |s|
  {
    if s == [] then 0 else CodeUnits(s[0]) + Utf16Length(s[1..])
  }

  /** `toUpperCase` on one character; only the ASCII letters are mapped. */
  function UpperChar(c: char): char {
    if 'a' <= c <= 'z' then (c as int - 32) as char else c
  }

  /** `s.toUpperCase()`, restricted to ASCII case mapping. */
  function ToUpperCase(s: string): (r: string)
    ensures |r| == |s|
    ensures forall i :: 0 <= i < |s| ==> r[i] == UpperChar(s[i])
  {
    seq(|s|, i requires 0 <= i < |s| => UpperChar(s[i]))
  }

  /** No lower-case ASCII letter is left in an upper-cased string. */
  predicate IsUpperCase(s: string) {
    forall i :: 0 <= i < |s| ==> !('a' <= s[i] <= 'z')
  }

  lemma ToUpperCaseIsUpper(s: string)
    ensures IsUpperCase(ToUpperCase(s))
    ensures ToUpperCase(ToUpperCase(s)) == ToUpperCase(s)
  {
  }

  /** Case-insensitive containment, as the database's `mode: 'insensitive'`
      applies it: both sides are compared after case folding. */
  predicate ContainsInsensitive(hay: string, needle: string) {
    Contains(ToUpperCase(hay), ToUpperCase(needle))
  }

  /** Any slice of a text is found in it by a case-insensitive search. */
  lemma SliceIsContainedInsensitive(hay: string, i: nat, j: nat)
    requires i <= j <= |hay|
    ensures ContainsInsensitive(hay, hay[i..j])
  {
    var H, N := ToUpperCase(hay), ToUpperCase(hay[i..j]);
    assert OccursAt(H, N, i);
  }
}
