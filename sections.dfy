/**
 * `extractSection` of the orchestrator: the first match of
 *     ^##\s+<heading>\s*[\r\n]+([\s\S]*?)(?=^##\s+|\Z)
 * with the flags `m` and `i`, its capture group trimmed.
 *
 * The search is written out as a scanner. At a line start `p` holding "##" and
 * whitespace, `\s+` has to take the whole whitespace run, because the heading begins
 * with a letter. After the heading, the greedy `\s*` followed by `[\r\n]+` settles on
 * the LAST carriage return or line feed of the whitespace run, and the lazy body ends at
 * the first position, at or after the character following it, where the lookahead
 * holds. JavaScript has no `\Z` anchor: outside unicode mode the escape stands for the
 * letter `Z`, which the `i` flag also lets match `z`. The lookahead therefore holds
 * either before a line-start "##" plus whitespace, or before the letter `z`/`Z`; it
 * never holds at the end of the text, so a section that runs to the end is not found.
 */
module Sections {
  import opened Wrappers
  import opened Text

  /** `^` in multiline mode: the start of the text, or just after a line terminator. */
  predicate LineStart(t: string, i: int) {
    i == 0 || (0 < i <= |t| && IsLineTerminator(t[i - 1]))
  }

  /** `^##\s` matches at `i`. */
  predicate HeadingMarkAt(t: string, i: int) {
    LineStart(t, i) && 0 <= i && i + 3 <= |t| && t[i] == '#' && t[i + 1] == '#' && IsWs(t[i + 2])
  }

  predicate IsZ(c: char) {
    c == 'z' || c == 'Z'
  }

  /** The lookahead `(?=^##\s+|\Z)` holds at `x`. */
  predicate SectionStopAt(t: string, x: int) {
    HeadingMarkAt(t, x) || (0 <= x < |t| && IsZ(t[x]))
  }

  predicate IsAsciiLetter(c: char) {
    'a' <= c <= 'z' || 'A' <= c <= 'Z'
  }

  /** A heading such as `Product` or `Architecture`: a non-empty word of ASCII letters. */
  predicate IsPlainHeading(h: string) {
    |h| > 0 && forall i :: 0 <= i < |h| ==> IsAsciiLetter(h[i])
  }

  /**
   * The heading occurs at `r`, compared as the `i` flag compares: for ASCII letters,
   * exactly up to ASCII case.
   */
  predicate HeadingAt(t: string, r: int, h: string) {
    0 <= r && r + |h| <= |t| && AsciiLower(t[r..r + |h|]) == AsciiLower(h)
  }

  predicate IsCrOrLf(c: char) {
    c == '\r' || c == '\n'
  }

  /**
   * The expression matches at `p` with the heading at `r` and the capture group
   * `t[b..x]`: "##" at a line start, whitespace, the heading, whitespace ending in a
   * carriage return or line feed just before `b`, any body, and the lookahead at `x`.
   */
  ghost predicate SectionRegexMatch(t: string, h: string, p: int, r: int, b: int, x: int) {
    && LineStart(t, p) && 0 <= p && p + 2 < r && r + |h| < b <= x < |t|
    && t[p] == '#' && t[p + 1] == '#'
    && (forall j :: p + 2 <= j < r ==> IsWs(t[j]))
    && HeadingAt(t, r, h)
    && (forall j :: r + |h| <= j < b ==> IsWs(t[j]))
    && IsCrOrLf(t[b - 1])
    && SectionStopAt(t, x)
  }

  /** The last carriage return or line feed in `t[q..w]`. */
  function LastCrOrLf(t: string, q: nat, w: nat): (r: Option<nat>)
    requires q <= w <= |t|
    ensures r.Some? ==> q <= r.value < w && IsCrOrLf(t[r.value])
    ensures r.Some? ==> forall j :: r.value < j < w ==> !IsCrOrLf(t[j])
    ensures r.None? ==> forall j :: q <= j < w ==> !IsCrOrLf(t[j])
    decreases w - q
  {
    if w == q then None
    else if IsCrOrLf(t[w - 1]) then Some(w - 1)
    else LastCrOrLf(t, q, w - 1)
  }

  /** The first position at or after `from` where the lookahead holds. */
  function FindStop(t: string, from: nat): (x: Option<nat>)
    requires from <= |t|
    ensures x.Some? ==> from <= x.value < |t| && SectionStopAt(t, x.value)
    ensures x.Some? ==> forall j :: from <= j < x.value ==> !SectionStopAt(t, j)
    ensures x.None? ==> forall j :: from <= j ==> !SectionStopAt(t, j)
    decreases |t| - from
  {
    if from == |t| then None
    else if SectionStopAt(t, from) then Some(from)
    else FindStop(t, from + 1)
  }

  /** The capture bounds `(b, x)` of the match the regular-expression engine finds at `p`. */
  function SectionAt(t: string, h: string, p: nat): (m: Option<(nat, nat)>)
    requires p <= |t|
    ensures m.Some? ==> p + 2 < |t| && SectionRegexMatch(t, h, p, WsRunEnd(t, p + 2), m.value.0, m.value.1)
    ensures m.Some? ==> forall j :: m.value.0 <= j < m.value.1 ==> !SectionStopAt(t, j)
  {
    if !HeadingMarkAt(t, p) then None
    else
      var r := WsRunEnd(t, p + 2);
      if !HeadingAt(t, r, h) then None
      else
        var w := WsRunEnd(t, r + |h|);
        match LastCrOrLf(t, r + |h|, w)
        case None => None
        case Some(n) =>
          match FindStop(t, n + 1)
          case None => None
          case Some(x) => Some((n + 1, x))
  }

  /** A letter, which neither `\s` nor the lookahead can take. */
  lemma HeadingStartsWithLetter(t: string, r: int, h: string)
    requires IsPlainHeading(h) && HeadingAt(t, r, h)
    ensures !IsWs(t[r]) && !IsCrOrLf(t[r])
  {
    assert AsciiLower(t[r..r + |h|])[0] == AsciiLower(h)[0];
    assert t[r..r + |h|][0] == t[r];
    assert 'a' <= LowerChar(h[0]) <= 'z';
  }

  /**
   * Every way the expression can match at `p` starts its capture no later, and ends it
   * no earlier, than the one `SectionAt` returns: the greedy `\s*` and the lazy body.
   */
  lemma SectionAtComplete(t: string, h: string, p: nat, r: int, b: int, x: int)
    requires IsPlainHeading(h) && p <= |t| && SectionRegexMatch(t, h, p, r, b, x)
    ensures SectionAt(t, h, p).Some?
    ensures r == WsRunEnd(t, p + 2)
    ensures b <= SectionAt(t, h, p).value.0 && SectionAt(t, h, p).value.1 <= x
  {
    HeadingStartsWithLetter(t, r, h);
    assert IsWs(t[p + 2]);
    assert HeadingMarkAt(t, p);
    var r' := WsRunEnd(t, p + 2);
    assert r' < |t| ==> !IsWs(t[r']);
    assert r' == r;
    var w := WsRunEnd(t, r + |h|);
    assert w < |t| ==> !IsWs(t[w]);
    assert !IsWs(t[x]);
    assert b <= w;
    var n := LastCrOrLf(t, r + |h|, w);
    assert n.Some?;
    var n1 := n.value + 1;
    assert b <= n1;
    assert forall j :: b <= j < n1 ==> IsWs(t[j]);
    assert n1 <= x;
    var f := FindStop(t, n1);
    assert f.Some?;
  }

  /** The expression matches at `p`. */
  predicate MatchesAt(t: string, h: string, p: nat)
    requires p <= |t|
  {
    SectionAt(t, h, p).Some?
  }

  /** The leftmost start position at or after `from` where the expression matches. */
  function FirstSection(t: string, h: string, from: nat): (r: Option<nat>)
    requires from <= |t|
    ensures r.Some? ==> from <= r.value <= |t| && MatchesAt(t, h, r.value)
    ensures r.Some? ==> forall j :: from <= j < r.value ==> !MatchesAt(t, h, j)
    ensures r.None? ==> forall j :: from <= j <= |t| ==> !MatchesAt(t, h, j)
    decreases |t| - from
  {
    if MatchesAt(t, h, from) then Some(from)
    else if from == |t| then None
    else
      var r := FirstSection(t, h, from + 1);
      assert !MatchesAt(t, h, from);
      r
  }

  /** The trimmed capture of a stretch in which the lookahead never holds has no `z`/`Z`. */
  lemma TrimmedCaptureHasNoZ(t: string, b: nat, x: nat)
    requires b <= x <= |t|
    requires forall j :: b <= j < x ==> !SectionStopAt(t, j)
    ensures forall i :: 0 <= i < |Trim(t[b..x])| ==> !IsZ(Trim(t[b..x])[i])
  {
    var body := t[b..x];
    var r := Trim(body);
    var a := LeadingWs(body);
    forall i | 0 <= i < |r| ensures !IsZ(r[i]) {
      assert r[i] == body[a + i] == t[b + a + i];
      assert !SectionStopAt(t, b + a + i);
    }
  }

  /** `extractSection(fullText, heading)`: the trimmed capture of the leftmost match. */
  function ExtractSection(t: string, h: string): (r: Option<string>)
    ensures r.Some? ==> IsTrimmed(r.value) && forall i :: 0 <= i < |r.value| ==> !IsZ(r.value[i])
    ensures r.None? <==> FirstSection(t, h, 0).None?
    ensures r.Some? ==>
      var (b, x) := SectionAt(t, h, FirstSection(t, h, 0).value).value;
      r.value == Trim(t[b..x])
  {
    match FirstSection(t, h, 0)
    case None => None
    case Some(p) =>
      var (b, x) := SectionAt(t, h, p).value;
      TrimmedCaptureHasNoZ(t, b, x);
      Some(Trim(t[b..x]))
  }
}

/** What `extractSection` answers, stated over the model above. */
module SectionsProperties {
  import opened Wrappers
  import opened Text
  import opened Sections

  /**
   * Every match of the expression lies at or after the leftmost one `FirstSection` finds
   * and, at that position, captures no later start and no earlier end.
   */
  lemma LeftmostBound(t: string, h: string, p: nat, r: int, b: int, x: int)
    requires IsPlainHeading(h) && SectionRegexMatch(t, h, p, r, b, x)
    ensures FirstSection(t, h, 0).Some? && FirstSection(t, h, 0).value <= p
    ensures FirstSection(t, h, 0).value == p ==>
      b <= SectionAt(t, h, p).value.0 && SectionAt(t, h, p).value.1 <= x
  {
    SectionAtComplete(t, h, p, r, b, x);
    assert MatchesAt(t, h, p);
  }

  /** The expression matches somewhere iff `FirstSection` finds a position. */
  lemma FoundIffMatches(t: string, h: string)
    requires IsPlainHeading(h)
    ensures FirstSection(t, h, 0).None? <==> forall p, r, b, x :: !SectionRegexMatch(t, h, p, r, b, x)
  {
    forall p, r, b, x | SectionRegexMatch(t, h, p, r, b, x)
      ensures FirstSection(t, h, 0).Some?
    {
      LeftmostBound(t, h, p, r, b, x);
    }
    if FirstSection(t, h, 0).Some? {
      var p := FirstSection(t, h, 0).value;
      assert MatchesAt(t, h, p);
      var (b, x) := SectionAt(t, h, p).value;
      assert SectionRegexMatch(t, h, p, WsRunEnd(t, p + 2), b, x);
    }
  }

  /** The match `FirstSection` finds is a match, and no other match lies before it or is shorter. */
  lemma FoundIsLeftmost(t: string, h: string)
    requires IsPlainHeading(h) && FirstSection(t, h, 0).Some?
    ensures var p := FirstSection(t, h, 0).value;
      var (b, x) := SectionAt(t, h, p).value;
      && SectionRegexMatch(t, h, p, WsRunEnd(t, p + 2), b, x)
      && forall p', r', b', x' :: SectionRegexMatch(t, h, p', r', b', x') ==>
           p <= p' && (p' == p ==> b' <= b && x <= x')
  {
    var p := FirstSection(t, h, 0).value;
    assert MatchesAt(t, h, p);
    var (b, x) := SectionAt(t, h, p).value;
    forall p', r', b', x' | SectionRegexMatch(t, h, p', r', b', x')
      ensures p <= p' && (p' == p ==> b' <= b && x <= x')
    {
      LeftmostBound(t, h, p', r', b', x');
    }
  }

  /**
   * `extractSection` answers exactly as the regular expression does: nothing iff it
   * matches nowhere; otherwise the trimmed capture of the leftmost match, taking at that
   * position the latest capture start (greedy `\s*`) and the earliest end (lazy body).
   */
  lemma ExtractSectionIsLeftmostRegexMatch(t: string, h: string)
    requires IsPlainHeading(h)
    ensures ExtractSection(t, h).None? <==> forall p, r, b, x :: !SectionRegexMatch(t, h, p, r, b, x)
    ensures ExtractSection(t, h).Some? ==>
      exists p, r, b, x ::
        && SectionRegexMatch(t, h, p, r, b, x)
        && ExtractSection(t, h).value == Trim(t[b..x])
        && forall p', r', b', x' :: SectionRegexMatch(t, h, p', r', b', x') ==>
             p <= p' && (p' == p ==> b' <= b && x <= x')
  {
    FoundIffMatches(t, h);
    if FirstSection(t, h, 0).Some? {
      FoundIsLeftmost(t, h);
      var p := FirstSection(t, h, 0).value;
      var (b, x) := SectionAt(t, h, p).value;
      assert ExtractSection(t, h).value == Trim(t[b..x]);
      assert SectionRegexMatch(t, h, p, WsRunEnd(t, p + 2), b, x);
    }
  }

  /** The text opens with "## " + heading + a line feed at `q`. */
  predicate OpensWithHeading(t: string, h: string, q: nat) {
    q == 3 + |h| && q < |t| && t[..q + 1] == "## " + h + "\n"
  }

  /** The heading line at the start of the text: the mark, one space, the heading, a line feed. */
  lemma HeadingLineFacts(t: string, h: string, q: nat)
    requires IsPlainHeading(h) && OpensWithHeading(t, h, q)
    ensures HeadingMarkAt(t, 0) && WsRunEnd(t, 2) == 3 && HeadingAt(t, 3, h) && t[q] == '\n'
  {
    var o := "## " + h + "\n";
    assert forall j :: 0 <= j < |o| ==> t[j] == o[j];
    assert t[0] == '#' && t[1] == '#' && t[2] == ' ' && t[q] == '\n';
    assert t[3..3 + |h|] == h;
    HeadingStartsWithLetter(t, 3, h);
  }

  /**
   * The expression matches at the start of such a text; its capture ends at the first
   * stop `c` and starts after whitespace that follows the heading line.
   */
  lemma MatchAtStart(t: string, h: string, q: nat, c: nat)
    requires IsPlainHeading(h) && OpensWithHeading(t, h, q)
    requires q < c < |t| && SectionStopAt(t, c)
    requires forall j :: q + 1 <= j < c ==> !SectionStopAt(t, j)
    ensures SectionAt(t, h, 0).Some? && SectionAt(t, h, 0).value.1 == c
    ensures q + 1 <= SectionAt(t, h, 0).value.0 <= c
    ensures forall j :: q + 1 <= j < SectionAt(t, h, 0).value.0 ==> IsWs(t[j])
  {
    HeadingLineFacts(t, h, q);
    var w := WsRunEnd(t, q);
    assert !IsWs(t[c]);
    assert w <= c;
    var n := LastCrOrLf(t, q, w).value;
    assert FindStop(t, n + 1) == Some(c);
  }

  /**
   * A text that opens with the heading and whose first stop after the heading line sits
   * at `c` yields the trimmed text between them.
   */
  lemma FirstSectionAtStart(t: string, h: string, q: nat, c: nat)
    requires IsPlainHeading(h) && OpensWithHeading(t, h, q)
    requires q < c < |t| && SectionStopAt(t, c)
    requires forall j :: q + 1 <= j < c ==> !SectionStopAt(t, j)
    ensures ExtractSection(t, h) == Some(Trim(t[q + 1..c]))
  {
    MatchAtStart(t, h, q, c);
    assert MatchesAt(t, h, 0);
    assert FirstSection(t, h, 0) == Some(0);
    var b := SectionAt(t, h, 0).value.0;
    var u := t[q + 1..c];
    var k := b - (q + 1);
    assert AllWs(u[..k]) by {
      forall j | 0 <= j < k ensures IsWs(u[..k][j]) {
        assert u[..k][j] == t[q + 1 + j];
      }
    }
    assert t[b..c] == u[k..];
    assert u == u[..k] + u[k..] + [];
    TrimIgnoresPadding(u[..k], u[k..], []);
  }

  /** Neither a heading mark nor the letter z can start in `s`. */
  predicate Quiet(s: string) {
    forall i :: 0 <= i < |s| ==> s[i] != '#' && !IsZ(s[i])
  }

  /** Splitting `pre + body + post` into its parts. */
  lemma Parts(pre: string, body: string, post: string)
    ensures var t := pre + body + post;
      && t[..|pre|] == pre && t[|pre|..|pre| + |body|] == body && t[|pre| + |body|..] == post
  {
  }

  /** No stop inside a quiet stretch `t[a..c]`. */
  lemma QuietHasNoStop(t: string, a: nat, c: nat)
    requires a <= c <= |t| && Quiet(t[a..c])
    ensures forall j :: a <= j < c ==> !SectionStopAt(t, j)
  {
    forall j | a <= j < c ensures !SectionStopAt(t, j) {
      assert t[j] == t[a..c][j - a];
    }
  }

  /** The stop that `post` opens right after `body`. */
  predicate OpensStop(body: string, post: string) {
    || (post != [] && IsZ(post[0]))
    || (|post| >= 3 && post[0] == '#' && post[1] == '#' && IsWs(post[2])
        && body != [] && IsLineTerminator(body[|body| - 1]))
  }

  /** A quiet body between the heading line and a stop yields the trimmed body. */
  lemma ClosedSection(h: string, body: string, post: string)
    requires IsPlainHeading(h) && Quiet(body) && OpensStop(body, post)
    ensures ExtractSection("## " + h + "\n" + body + post, h) == Some(Trim(body))
  {
    var o := "## " + h + "\n";
    var t := o + body + post;
    Parts(o, body, post);
    var q := 3 + |h|;
    var c := q + 1 + |body|;
    assert t[q + 1..c] == body;
    assert t[c..] == post;
    assert t[c] == post[0];
    if body != [] {
      assert t[c - 1] == body[|body| - 1];
    }
    if |post| >= 3 {
      assert t[c + 1] == post[1] && t[c + 2] == post[2];
    }
    assert SectionStopAt(t, c);
    QuietHasNoStop(t, q + 1, c);
    FirstSectionAtStart(t, h, q, c);
  }

  lemma QuietThenLineFeed(body: string)
    requires Quiet(body)
    ensures Quiet(body + "\n")
  {
    var body' := body + "\n";
    forall i | 0 <= i < |body'| ensures body'[i] != '#' && !IsZ(body'[i]) {
      if i < |body| {
        assert body'[i] == body[i];
      }
    }
  }

  lemma LineFeedRegroup(o: string, body: string, rest: string)
    ensures o + body + "\n## " + rest == o + (body + "\n") + ("## " + rest)
  {
    assert "\n## " == "\n" + "## ";
  }

  /** A quiet body closed by a line feed and a `##` heading mark yields the trimmed body. */
  lemma ClosedByHeading(h: string, body: string, post: string)
    requires IsPlainHeading(h) && Quiet(body)
    requires |post| >= 3 && post[0] == '#' && post[1] == '#' && IsWs(post[2])
    ensures ExtractSection("## " + h + "\n" + (body + "\n") + post, h) == Some(Trim(body))
  {
    var body' := body + "\n";
    QuietThenLineFeed(body);
    assert OpensStop(body', post);
    ClosedSection(h, body', post);
    TrimDropsLineFeed(body);
  }

  lemma TrimDropsLineFeed(body: string)
    ensures Trim(body + "\n") == Trim(body)
  {
    TrimIgnoresPadding([], body, "\n");
    assert [] + body + "\n" == body + "\n";
  }

  /**
   * A section runs from its heading line to the next line that starts with "##" and
   * whitespace, and is trimmed.
   */
  lemma SectionBeforeNextHeading(h: string, body: string, rest: string)
    requires IsPlainHeading(h) && Quiet(body)
    ensures ExtractSection("## " + h + "\n" + body + "\n## " + rest, h) == Some(Trim(body))
  {
    LineFeedRegroup("## " + h + "\n", body, rest);
    ClosedByHeading(h, body, "## " + rest);
  }

  /** The `\Z` of the expression is the letter Z: a section ends before a `z` or `Z`. */
  lemma SectionStopsAtLetterZ(h: string, body: string, z: char, rest: string)
    requires IsPlainHeading(h) && Quiet(body) && IsZ(z)
    ensures ExtractSection("## " + h + "\n" + body + [z] + rest, h) == Some(Trim(body))
  {
    ClosedSection(h, body, [z] + rest);
    assert "## " + h + "\n" + body + [z] + rest == "## " + h + "\n" + body + ([z] + rest);
  }

  /**
   * A heading whose section runs to the end of the text is not found: the lookahead
   * never holds at the end of the text.
   */
  lemma SectionToEndOfTextIsAbsent(h: string, body: string)
    requires IsPlainHeading(h) && Quiet(h) && Quiet(body)
    ensures ExtractSection("## " + h + "\n" + body, h).None?
  {
    var t := "## " + h + "\n" + body;
    var o := "## " + h + "\n";
    assert t == o + body;
    assert Quiet(t[2..]) by {
      forall i | 0 <= i < |t[2..]| ensures t[2..][i] != '#' && !IsZ(t[2..][i]) {
        var j := i + 2;
        assert t[2..][i] == t[j];
        if j < |o| {
          assert t[j] == o[j];
          if 3 <= j < 3 + |h| {
            assert o[j] == h[j - 3];
          }
        } else {
          assert t[j] == body[j - |o|];
        }
      }
    }
    QuietHasNoStop(t, 2, |t|);
    assert t[0] == '#' && t[1] == '#';
    assert !SectionStopAt(t, 1);
    assert forall p :: 0 <= p <= |t| ==> !MatchesAt(t, h, p);
  }
}
