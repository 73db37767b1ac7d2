/**
 * The JavaScript string primitives the core relies on: the `\s` class of regular
 * expressions (which is also the set that `String.prototype.trim` removes), line
 * terminators as the `m` flag sees them, `trim`, ASCII case folding and `includes`.
 */
module Text {

  /** `\s`: WhiteSpace and LineTerminator code points of ECMAScript. */
  predicate IsWs(c: char) {
    c == '\t' || c == '\n' || c == '\U{B}' || c == '\U{C}' || c == '\r' || c == ' '
    || c == '\U{A0}' || c == '\U{1680}' || ('\U{2000}' <= c <= '\U{200A}')
    || c == '\U{2028}' || c == '\U{2029}' || c == '\U{202F}' || c == '\U{205F}'
    || c == '\U{3000}' || c == '\U{FEFF}'
  }

  /** The characters after which `^` matches in multiline mode. */
  predicate IsLineTerminator(c: char) {
    c == '\n' || c == '\r' || c == '\U{2028}' || c == '\U{2029}'
  }

  predicate AllWs(s: string) {
    forall i :: 0 <= i < |s| ==> IsWs(s[i])
  }

  /** No whitespace at either end: what `trim` guarantees. */
  predicate IsTrimmed(s: string) {
    s == [] || (!IsWs(s[0]) && !IsWs(s[|s| - 1]))
  }

  /** The length of the longest all-whitespace prefix. */
  function LeadingWs(s: string): (n: nat)
    ensures n <= |s|
    ensures AllWs(s[..n])
    ensures n < |s| ==> !IsWs(s[n])
  {
    if s == [] || !IsWs(s[0]) then 0
    else
      var k := LeadingWs(s[1..]);
      assert s[..k + 1] == [s[0]] + s[1..][..k];
      k + 1
  }

  /** The length of `s` without its longest all-whitespace suffix. */
  function TrailingWsStart(s: string): (n: nat)
    ensures n <= |s|
    ensures AllWs(s[n..])
    ensures n > 0 ==> !IsWs(s[n - 1])
  {
    if s == [] || !IsWs(s[|s| - 1]) then |s|
    else
      var k := TrailingWsStart(s[..|s| - 1]);
      assert s[k..] == s[..|s| - 1][k..] + [s[|s| - 1]];
      k
  }

  /** `s.trim()` */
  function Trim(s: string): (r: string)
    ensures IsTrimmed(r)
    ensures LeadingWs(s) + |r| <= |s|
    ensures r == s[LeadingWs(s)..LeadingWs(s) + |r|]
    ensures AllWs(s[..LeadingWs(s)]) && AllWs(s[LeadingWs(s) + |r|..])
  {
    var a := LeadingWs(s);
    var u := s[a..];
    var b := TrailingWsStart(u);
    assert u[..b] == s[a..a + b];
    assert s[a + b..] == u[b..];
    u[..b]
  }

  /** A string is exactly its trimmed core between two whitespace runs. */
  lemma TrimOfPadded(w1: string, x: string, w2: string)
    requires AllWs(w1) && AllWs(w2) && IsTrimmed(x)
    ensures Trim(w1 + x + w2) == x
  {
    var s := w1 + x + w2;
    var n := LeadingWs(s);
    if x == [] {
      assert s == w1 + w2;
      assert forall i :: 0 <= i < |s| ==> IsWs(s[i]);
      assert n == |s|;
    } else {
      assert forall i :: 0 <= i < |w1| ==> s[i] == w1[i];
      assert s[|w1|] == x[0];
      assert n == |w1|;
      var u := s[n..];
      assert u == x + w2;
      var b := TrailingWsStart(u);
      assert forall i :: |x| <= i < |u| ==> u[i] == w2[i - |x|];
      assert u[|x| - 1] == x[|x| - 1];
      assert b == |x|;
      assert u[..b] == x;
    }
  }

  /** Trimming a trimmed string changes nothing. */
  lemma TrimIdempotent(x: string)
    requires IsTrimmed(x)
    ensures Trim(x) == x
  {
    TrimOfPadded([], x, []);
    assert [] + x + [] == x;
  }

  lemma AllWsConcat(a: string, b: string)
    requires AllWs(a) && AllWs(b)
    ensures AllWs(a + b)
  {
    assert forall i :: 0 <= i < |a + b| ==> (a + b)[i] == if i < |a| then a[i] else b[i - |a|];
  }

  lemma Regroup(a: string, b: string, c: string, d: string, e: string)
    ensures a + (b + c + d) + e == (a + b) + c + (d + e)
  {
  }

  /** Whitespace added at either end is removed again. */
  lemma TrimIgnoresPadding(w1: string, s: string, w2: string)
    requires AllWs(w1) && AllWs(w2)
    ensures Trim(w1 + s + w2) == Trim(s)
  {
    var a := LeadingWs(s);
    var r := Trim(s);
    var e := a + |r|;
    var p := s[..a];
    var q := s[e..];
    assert r == s[a..e];
    assert s == p + r + q by {
      assert s == s[..a] + s[a..e] + s[e..];
    }
    AllWsConcat(w1, p);
    AllWsConcat(q, w2);
    Regroup(w1, p, r, q, w2);
    TrimOfPadded(w1 + p, r, q + w2);
  }

  /** The end of the whitespace run starting at `q`. */
  function WsRunEnd(t: string, q: nat): (w: nat)
    requires q <= |t|
    ensures q <= w <= |t|
    ensures forall j :: q <= j < w ==> IsWs(t[j])
    ensures w < |t| ==> !IsWs(t[w])
    decreases |t| - q
  {
    if q == |t| || !IsWs(t[q]) then q else WsRunEnd(t, q + 1)
  }

  /** ASCII-only `toLowerCase` of one character. */
  function LowerChar(c: char): char {
    if 'A' <= c <= 'Z' then (c as int + 32) as char else c
  }

  /** `toLowerCase`, restricted to the ASCII letters. */
  function AsciiLower(s: string): (r: string)
    ensures |r| == |s|
    ensures forall i :: 0 <= i < |s| ==> r[i] == LowerChar(s[i])
  {
    if s == [] then [] else [LowerChar(s[0])] + AsciiLower(s[1..])
  }

  /** `s` contains `pat` starting at index `i`. */
  predicate OccursAt(s: string, pat: string, i: int) {
    0 <= i && i + |pat| <= |s| && s[i..i + |pat|] == pat
  }

  /** `s.includes(pat)` */
  function Includes(s: string, pat: string): (r: bool)
    ensures r ==> |pat| <= |s|
    ensures |pat| <= |s| && s[..|pat|] == pat ==> r
    decreases |s|
  {
    if |s| < |pat| then false
    else if s[..|pat|] == pat then true
    else Includes(s[1..], pat)
  }

  /** `includes` finds `pat` exactly when it occurs somewhere in `s`. */
  lemma {:induction false} IncludesIffOccurs(s: string, pat: string)
    ensures Includes(s, pat) <==> exists i :: OccursAt(s, pat, i)
    decreases |s|
  {
    if |s| < |pat| {
    } else if s[..|pat|] == pat {
      assert OccursAt(s, pat, 0);
    } else {
      IncludesIffOccurs(s[1..], pat);
      forall i | OccursAt(s[1..], pat, i) ensures OccursAt(s, pat, i + 1) {
        assert s[1..][i..i + |pat|] == s[i + 1..i + 1 + |pat|];
      }
      forall i | OccursAt(s, pat, i) ensures i > 0 && OccursAt(s[1..], pat, i - 1) {
        assert s[1..][i - 1..i - 1 + |pat|] == s[i..i + |pat|];
      }
    }
  }
}
