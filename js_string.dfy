/**
 * The few JavaScript string primitives the modelled code relies on, stated over
 * `string` (a sequence of Unicode scalar values):
 *  - the white-space class `\s` of regular expressions, which is also the set
 *    `String.prototype.trim` removes;
 *  - `trim`, and the `replace(/\s+$/g, '')` idiom (trailing trim);
 *  - `replace(/literal/g, rep)` for a literal pattern (leftmost, non-overlapping);
 *  - `substring(a, b)` with its clamping and swapping of arguments;
 *  - `includes`, `lastIndexOf` of one character, and `Array.prototype.join`.
 */
module JsString {

  /** The characters matched by `\s` (WhiteSpace and LineTerminator of ECMAScript). */
  predicate IsSpace(c: char)
  {
    c == '\t' || c == '\n' || c == '\U{000B}' || c == '\U{000C}' || c == '\r' || c == ' ' ||
    c == '\U{00A0}' || c == '\U{1680}' || ('\U{2000}' <= c <= '\U{200A}') ||
    c == '\U{2028}' || c == '\U{2029}' || c == '\U{202F}' || c == '\U{205F}' ||
    c == '\U{3000}' || c == '\U{FEFF}'
  }

  predicate AllSpace(s: string)
  {
    forall i :: 0 <= i < |s| ==> IsSpace(s[i])
  }

  /** `s.replace(/\s+$/g, '')`: drops the longest all-white-space suffix. */
  function TrimEnd(s: string): (r: string)
    ensures r <= s
    ensures r == [] || !IsSpace(r[|r| - 1])
    ensures forall i :: |r| <= i < |s| ==> IsSpace(s[i])
  {
    if s != [] && IsSpace(s[|s| - 1]) then TrimEnd(s[..|s| - 1]) else s
  }

  /** Drops the longest all-white-space prefix. */
  function TrimStart(s: string): (r: string)
    ensures |r| <= |s| && r == s[|s| - |r|..]
    ensures r == [] || !IsSpace(r[0])
    ensures forall i :: 0 <= i < |s| - |r| ==> IsSpace(s[i])
  {
    if s != [] && IsSpace(s[0]) then TrimStart(s[1..]) else s
  }

  /** `s.trim()`. */
  function Trim(s: string): (r: string)
  {
    TrimStart(TrimEnd(s))
  }

  /** The number of white-space characters `trim` removes from the front. */
  function TrimOffset(s: string): nat
  {
    |TrimEnd(s)| - |Trim(s)|
  }

  /** `s.trim()` is what is left between a white-space prefix and a white-space suffix of `s`. */
  lemma TrimShape(s: string)
    ensures var r, k := Trim(s), TrimOffset(s);
      && (r == [] || (!IsSpace(r[0]) && !IsSpace(r[|r| - 1])))
      && k + |r| <= |s| && r == s[k..k + |r|]
      && (forall i :: 0 <= i < k ==> IsSpace(s[i]))
      && (forall i :: k + |r| <= i < |s| ==> IsSpace(s[i]))
  {
    var e := TrimEnd(s);
    var r := TrimStart(e);
    var k := |e| - |r|;
    assert k == TrimOffset(s) && k + |r| == |e|;
    assert r == e[k..] == s[k..k + |r|];
    forall i | 0 <= i < k ensures IsSpace(s[i]) {
      assert s[i] == e[i];
    }
    if r != [] {
      assert r[|r| - 1] == e[|e| - 1];
    }
  }

  /** `s.trim() === ''` holds exactly for all-white-space strings. */
  lemma TrimEmptyIff(s: string)
    ensures Trim(s) == [] <==> AllSpace(s)
  {
    var e := TrimEnd(s);
    if Trim(s) == [] {
      forall i | 0 <= i < |s| ensures IsSpace(s[i]) {
        if i < |e| {
          assert IsSpace(e[i]);
        }
      }
    }
    if e != [] {
      assert e[|e| - 1] == s[|e| - 1];
    }
  }

  /** `s.replace(/pat/g, rep)` for a literal pattern: leftmost matches, never overlapping. */
  function ReplaceAll(s: string, pat: string, rep: string): string
    requires |pat| > 0
    decreases |s|
  {
    if s == [] then []
    else if pat <= s then rep + ReplaceAll(s[|pat|..], pat, rep)
    else [s[0]] + ReplaceAll(s[1..], pat, rep)
  }

  /** A replacement passes over text that holds no occurrence of the pattern's first character. */
  lemma {:induction false} ReplaceSkip(t: string, rest: string, pat: string, rep: string)
    requires |pat| > 0 && pat[0] !in t
    ensures ReplaceAll(t + rest, pat, rep) == t + ReplaceAll(rest, pat, rep)
  {
    if t == [] {
      assert t + rest == rest;
    } else {
      var s := t + rest;
      assert t[0] in t;
      assert s[0] == t[0] != pat[0];
      assert !(pat <= s);
      assert s[1..] == t[1..] + rest;
      assert forall x :: x in t[1..] ==> x in t;
      ReplaceSkip(t[1..], rest, pat, rep);
      assert ReplaceAll(s, pat, rep) == [t[0]] + (t[1..] + ReplaceAll(rest, pat, rep));
      assert [t[0]] + t[1..] == t;
    }
  }

  /** `s.includes(sub)`. */
  predicate Contains(s: string, sub: string)
    decreases |s|
  {
    sub <= s || (s != [] && Contains(s[1..], sub))
  }

  lemma {:induction false} ContainsPrefix(sub: string, rest: string)
    ensures Contains(sub + rest, sub)
  {
    assert sub <= sub + rest;
  }

  /** An index of `substring` clamped into `[0, n]`. */
  function ClampIndex(i: int, n: nat): (r: nat)
    ensures r <= n
    ensures 0 <= i <= n ==> r == i
  {
    if i < 0 then 0 else if i > n then n else i
  }

  /** `s.substring(a, b)`: both indices are clamped to `[0, |s|]`, then ordered. */
  function Substring(s: string, a: int, b: int): (r: string)
    ensures var lo := ClampIndex(a, |s|);
            var hi := ClampIndex(b, |s|);
            |r| == (if lo <= hi then hi - lo else lo - hi)
    ensures 0 <= a <= b <= |s| ==> r == s[a..b]
    ensures 0 <= b <= a <= |s| ==> r == s[b..a]
  {
    var lo := ClampIndex(a, |s|);
    var hi := ClampIndex(b, |s|);
    if lo <= hi then s[lo..hi] else s[hi..lo]
  }

  /** The order of the two arguments of `substring` does not matter. */
  lemma SubstringSymmetric(s: string, a: int, b: int)
    ensures Substring(s, a, b) == Substring(s, b, a)
  {
  }

  /** Out-of-range arguments act as the nearest end of the string. */
  lemma SubstringClamps(s: string, a: int, b: int)
    ensures Substring(s, a, b) == Substring(s, ClampIndex(a, |s|), ClampIndex(b, |s|))
  {
  }

  /** `s.indexOf(c)` for a one-character needle: the first index holding `c`, or -1. */
  function IndexOf(s: string, c: char): (r: int)
    ensures -1 <= r < |s|
    ensures r >= 0 ==> s[r] == c
    ensures forall i :: 0 <= i < |s| && (r < 0 || i < r) ==> s[i] != c
  {
    if s == [] then -1
    else if s[0] == c then 0
    else
      var k := IndexOf(s[1..], c);
      if k < 0 then -1 else k + 1
  }

  /** `s.lastIndexOf(c)` for a one-character needle: the last index holding `c`, or -1. */
  function LastIndexOf(s: string, c: char): (r: int)
    ensures -1 <= r < |s|
    ensures r >= 0 ==> s[r] == c
    ensures forall i :: r < i < |s| ==> s[i] != c
  {
    if s == [] then -1
    else if s[|s| - 1] == c then |s| - 1
    else LastIndexOf(s[..|s| - 1], c)
  }

  /** `parts.join(sep)`. */
  function Join(parts: seq<string>, sep: string): string
  {
    if parts == [] then []
    else if |parts| == 1 then parts[0]
    else Join(parts[..|parts| - 1], sep) + sep + parts[|parts| - 1]
  }

  /** Joining is empty exactly when there is nothing to join, or one empty part. */
  lemma JoinEmpty(parts: seq<string>, sep: string)
    requires |sep| > 0
    ensures Join(parts, sep) == [] <==> parts == [] || parts == [[]]
  {
    if |parts| > 1 {
      assert |Join(parts, sep)| >= |sep|;
    }
  }
}
