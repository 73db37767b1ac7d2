/**
 * `extractHTML`: the first match of the regular expression
 *     ```(?:html|HTML)?\s*\n([\s\S]*?)```
 * in a response text, with its capture group trimmed.
 *
 * The backtracking search of the expression is written out as a scanner. At a start
 * position `p` holding a fence, the optional tag can only be taken when the text spells
 * `html` or `HTML` there (the empty alternative then fails, as `h`/`H` is not
 * whitespace), so the tag end `q` is forced. The greedy `\s*` followed by `\n` settles on
 * the LAST line feed of the whitespace run that starts at `q`; the lazy body then ends at
 * the FIRST fence at or after the character following that line feed, wherever it sits
 * on its line. When no such fence exists, no other choice of the `\s*` length can help
 * (the skipped characters are whitespace and cannot begin a fence), and the search moves
 * on to `p + 1`. `RegexMatch` states the expression's language independently, and
 * `MatchAtSound` / `MatchAtComplete` connect it to the scanner.
 */
module CodeExtractor {
  import opened Wrappers
  import opened Text

  /** A "```" fence starts at `i`. */
  predicate FenceAt(t: string, i: int) {
    0 <= i && i + 3 <= |t| && t[i] == '`' && t[i + 1] == '`' && t[i + 2] == '`'
  }

  predicate NoFence(t: string) {
    forall i :: 0 <= i < |t| ==> !FenceAt(t, i)
  }

  /** `(?:html|HTML)?` may end at `q` when the fence starts at `p`. */
  predicate TagEndsAt(t: string, p: int, q: int) {
    q == p + 3 || (q == p + 7 && 0 <= p && q <= |t| && (t[p + 3..q] == "html" || t[p + 3..q] == "HTML"))
  }

  /**
   * The expression matches at `p` with the capture group `t[s..e]`: fence, optional tag
   * ending at `q`, whitespace, a line feed just before `s`, any body, fence at `e`.
   */
  ghost predicate RegexMatch(t: string, p: int, q: int, s: int, e: int) {
    && FenceAt(t, p) && TagEndsAt(t, p, q)
    && q < s <= e && FenceAt(t, e)
    && t[s - 1] == '\n'
    && (forall j :: q <= j < s ==> IsWs(t[j]))
  }

  /** Where the (forced) optional tag ends. */
  function TagEnd(t: string, p: nat): (q: nat)
    requires p + 3 <= |t|
    ensures TagEndsAt(t, p, q) && q <= |t|
    ensures q == p + 7 <==> p + 7 <= |t| && (t[p + 3..p + 7] == "html" || t[p + 3..p + 7] == "HTML")
    ensures forall q' :: TagEndsAt(t, p, q') && q' < |t| && IsWs(t[q']) ==> q' == q
  {
    if p + 7 <= |t| && (t[p + 3..p + 7] == "html" || t[p + 3..p + 7] == "HTML") then
      assert t[p + 3] == t[p + 3..p + 7][0];
      p + 7
    else p + 3
  }

  /** The last line feed in `t[q..w]`. */
  function LastLineFeed(t: string, q: nat, w: nat): (r: Option<nat>)
    requires q <= w <= |t|
    ensures r.Some? ==> q <= r.value < w && t[r.value] == '\n'
    ensures r.Some? ==> forall j :: r.value < j < w ==> t[j] != '\n'
    ensures r.None? ==> forall j :: q <= j < w ==> t[j] != '\n'
    decreases w - q
  {
    if w == q then None
    else if t[w - 1] == '\n' then Some(w - 1)
    else LastLineFeed(t, q, w - 1)
  }

  /** The first fence at or after `from`. */
  function FindFence(t: string, from: nat): (r: Option<nat>)
    requires from <= |t|
    ensures r.Some? ==> from <= r.value && FenceAt(t, r.value)
    ensures r.Some? ==> forall j :: from <= j < r.value ==> !FenceAt(t, j)
    ensures r.None? ==> forall j :: from <= j ==> !FenceAt(t, j)
    decreases |t| - from
  {
    if from + 3 > |t| then None
    else if FenceAt(t, from) then Some(from)
    else FindFence(t, from + 1)
  }

  /** The capture bounds `(s, e)` of the match the regular-expression engine finds at `p`. */
  function MatchAt(t: string, p: nat): (r: Option<(nat, nat)>)
    requires p <= |t|
    ensures r.Some? ==> p + 3 <= |t| && RegexMatch(t, p, TagEnd(t, p), r.value.0, r.value.1)
    ensures r.Some? ==> forall j :: r.value.0 <= j < r.value.1 ==> !FenceAt(t, j)
  {
    if !FenceAt(t, p) then None
    else
      var q := TagEnd(t, p);
      var w := WsRunEnd(t, q);
      match LastLineFeed(t, q, w)
      case None => None
      case Some(n) =>
        match FindFence(t, n + 1)
        case None => None
        case Some(e) => Some((n + 1, e))
  }

  /**
   * Every way the expression can match at `p` starts its capture no later, and ends it
   * no earlier, than the one `MatchAt` returns: the greedy `\s*` and the lazy body.
   */
  lemma MatchAtComplete(t: string, p: nat, q: int, s: int, e: int)
    requires p <= |t| && RegexMatch(t, p, q, s, e)
    ensures MatchAt(t, p).Some?
    ensures q == TagEnd(t, p)
    ensures s <= MatchAt(t, p).value.0 && MatchAt(t, p).value.1 <= e
  {
    // the tag, when spelled out, starts with a letter, which `\s*\n` cannot consume
    assert IsWs(t[q]);
    assert p + 7 <= |t| ==> t[p + 3..p + 7][0] == t[p + 3];
    var w := WsRunEnd(t, q);
    assert w < |t| ==> !IsWs(t[w]);
    var n := LastLineFeed(t, q, w);
    assert n.Some?;
    var n1 := n.value + 1;
    assert s <= n1;
    assert forall j :: s <= j < n1 ==> IsWs(t[j]);
    assert !IsWs(t[e]);
    var f := FindFence(t, n1);
    assert f.Some?;
  }

  /** The leftmost start position at or after `from` where the expression matches. */
  function FirstMatch(t: string, from: nat): (r: Option<nat>)
    requires from <= |t|
    ensures r.Some? ==> from <= r.value <= |t| && MatchAt(t, r.value).Some?
    ensures r.Some? ==> forall j :: from <= j < r.value ==> MatchAt(t, j).None?
    ensures r.None? ==> forall j :: from <= j <= |t| ==> MatchAt(t, j).None?
    decreases |t| - from
  {
    if MatchAt(t, from).Some? then Some(from)
    else if from == |t| then None
    else FirstMatch(t, from + 1)
  }

  /** The trimmed capture of a stretch in which no fence starts contains no fence. */
  lemma TrimmedCaptureHasNoFence(t: string, s: nat, e: nat)
    requires s <= e <= |t|
    requires forall j :: s <= j < e ==> !FenceAt(t, j)
    ensures NoFence(Trim(t[s..e]))
  {
    var body := t[s..e];
    var r := Trim(body);
    var a := LeadingWs(body);
    assert forall i :: 0 <= i < |r| ==> r[i] == body[a + i];
    forall i | 0 <= i < |r| ensures !FenceAt(r, i) {
      if i + 3 <= |r| {
        assert r[i] == t[s + a + i] && r[i + 1] == t[s + a + i + 1] && r[i + 2] == t[s + a + i + 2];
        assert !FenceAt(t, s + a + i);
      }
    }
  }

  /** `extractHTML(text)`: the trimmed capture of the leftmost match, or `null`. */
  function ExtractHtml(text: string): (r: Option<string>)
    ensures r.Some? ==> IsTrimmed(r.value) && NoFence(r.value)
    ensures r.None? <==> FirstMatch(text, 0).None?
    ensures r.Some? ==>
      var (s, e) := MatchAt(text, FirstMatch(text, 0).value).value;
      r.value == Trim(text[s..e])
  {
    match FirstMatch(text, 0)
    case None => None
    case Some(p) =>
      var (s, e) := MatchAt(text, p).value;
      var body := text[s..e];
      TrimmedCaptureHasNoFence(text, s, e);
      Some(Trim(body))
  }
}

/** What `extractHTML` promises its callers, stated over the model above. */
module CodeExtractorProperties {
  import opened Wrappers
  import opened Text
  import opened CodeExtractor

  /**
   * `extractHTML` answers exactly as the regular expression does: `null` iff it matches
   * nowhere; otherwise the trimmed capture of the leftmost match, taking at that position
   * the latest capture start (greedy `\s*`) and the earliest end (lazy body).
   */
  lemma ExtractHtmlIsLeftmostRegexMatch(t: string)
    ensures ExtractHtml(t).None? <==> forall p, q, s, e :: !RegexMatch(t, p, q, s, e)
    ensures ExtractHtml(t).Some? ==>
      exists p, q, s, e ::
        && RegexMatch(t, p, q, s, e)
        && ExtractHtml(t).value == Trim(t[s..e])
        && forall p', q', s', e' :: RegexMatch(t, p', q', s', e') ==>
             p <= p' && (p' == p ==> s' <= s && e <= e')
  {
    forall p, q, s, e | RegexMatch(t, p, q, s, e)
      ensures FirstMatch(t, 0).Some? && FirstMatch(t, 0).value <= p
    {
      MatchAtComplete(t, p, q, s, e);
    }
    match FirstMatch(t, 0)
    case None =>
    case Some(p) =>
      var (s, e) := MatchAt(t, p).value;
      var q := TagEnd(t, p);
      assert RegexMatch(t, p, q, s, e);
      forall p', q', s', e' | RegexMatch(t, p', q', s', e')
        ensures p <= p' && (p' == p ==> s' <= s && e <= e')
      {
        MatchAtComplete(t, p', q', s', e');
      }
  }

  /** The opening fence, the forced tag end `q` and the line feed at `q`. */
  predicate OpensAtStart(t: string, q: nat) {
    FenceAt(t, 0) && TagEnd(t, 0) == q && q < |t| && t[q] == '\n'
  }

  /**
   * A text that opens a block at its start and whose first fence after the opening line
   * sits at `c` yields the trimmed text between them.
   */
  lemma FirstBlockAtStart(t: string, q: nat, c: nat)
    requires OpensAtStart(t, q) && q < c && FenceAt(t, c)
    requires forall j :: q + 1 <= j < c ==> !FenceAt(t, j)
    ensures ExtractHtml(t) == Some(Trim(t[q + 1..c]))
  {
    var w := WsRunEnd(t, q);
    assert !IsWs(t[c]);
    assert w <= c;
    var n := LastLineFeed(t, q, w).value;
    var s := n + 1;
    assert FindFence(t, s) == Some(c);
    assert MatchAt(t, 0) == Some((s, c));
    assert FirstMatch(t, 0) == Some(0);
    var u := t[q + 1..c];
    var k := s - (q + 1);
    assert AllWs(u[..k]) by {
      forall j | 0 <= j < k ensures IsWs(u[..k][j]) {
        assert u[..k][j] == t[q + 1 + j];
      }
    }
    assert t[s..c] == u[k..];
    assert u == u[..k] + u[k..] + [];
    TrimIgnoresPadding(u[..k], u[k..], []);
  }

  /** The opening line "```" + tag + "\n" with tag `html`, `HTML` or nothing. */
  lemma OpeningLine(tag: string, t: string)
    requires tag == "html" || tag == "HTML" || tag == ""
    requires |t| >= 4 + |tag| && t[..4 + |tag|] == "```" + tag + "\n"
    ensures OpensAtStart(t, 3 + |tag|)
    ensures forall j :: 1 <= j < 4 + |tag| ==> !FenceAt(t, j)
  {
    var o := "```" + tag + "\n";
    assert forall j :: 0 <= j < |o| ==> t[j] == o[j];
    assert t[0] == '`' && t[1] == '`' && t[2] == '`' && t[3 + |tag|] == '\n';
    if tag == "" {
      assert |t| >= 7 ==> t[3..7][0] == t[3];
    } else {
      assert t[3..7] == tag;
    }
  }

  /** Splitting `pre + body + post` into its parts, index by index. */
  lemma Parts(pre: string, body: string, post: string)
    ensures var t := pre + body + post;
      && t[..|pre|] == pre && t[|pre|..|pre| + |body|] == body && t[|pre| + |body|..] == post
  {
  }

  /**
   * A block opened by "```", "```html" or "```HTML" and a line feed, and closed by the
   * next "```" (at the start of a line or in the middle of one), yields its trimmed body,
   * whatever follows the block.
   */
  lemma ClosedBlock(tag: string, body: string, rest: string)
    requires tag == "html" || tag == "HTML" || tag == ""
    requires NoFence(body) && (body == [] || body[|body| - 1] != '`')
    ensures ExtractHtml("```" + tag + "\n" + body + "```" + rest) == Some(Trim(body))
  {
    var o := "```" + tag + "\n";
    var post := "```" + rest;
    var t := o + body + post;
    assert t == "```" + tag + "\n" + body + "```" + rest;
    Parts(o, body, post);
    var q := 3 + |tag|;
    var c := q + 1 + |body|;
    OpeningLine(tag, t);
    assert post[0] == '`' && post[1] == '`' && post[2] == '`';
    assert FenceAt(t, c) by {
      assert t[c..][0] == post[0] && t[c..][1] == post[1] && t[c..][2] == post[2];
    }
    forall j | q + 1 <= j < c ensures !FenceAt(t, j) {
      var i := j - (q + 1);
      assert t[j] == body[i];
      if i + 3 <= |body| {
        assert t[j + 1] == body[i + 1] && t[j + 2] == body[i + 2];
        assert !FenceAt(body, i);
      } else {
        assert t[c - 1] == body[|body| - 1];
      }
    }
    FirstBlockAtStart(t, q, c);
  }

  lemma NoFenceThenLineFeed(x: string)
    requires NoFence(x)
    ensures NoFence(x + "\n")
  {
    var body := x + "\n";
    forall i | 0 <= i < |body| ensures !FenceAt(body, i) {
      if i + 3 <= |x| {
        assert body[i] == x[i] && body[i + 1] == x[i + 1] && body[i + 2] == x[i + 2];
        assert !FenceAt(x, i);
      } else if i + 3 <= |body| {
        assert body[|x|] == '\n';
      }
    }
  }

  lemma LineFeedRegroup(o: string, x: string, rest: string)
    ensures o + x + "\n```" + rest == o + (x + "\n") + "```" + rest
  {
    assert "\n```" == "\n" + "```";
  }

  /** The round trip: "```html\nX\n```" yields X for every trimmed X without a fence. */
  lemma HtmlBlockRoundTrip(tag: string, x: string, rest: string)
    requires tag == "html" || tag == "HTML" || tag == ""
    requires IsTrimmed(x) && NoFence(x)
    ensures ExtractHtml("```" + tag + "\n" + x + "\n```" + rest) == Some(x)
  {
    var body := x + "\n";
    NoFenceThenLineFeed(x);
    ClosedBlock(tag, body, rest);
    LineFeedRegroup("```" + tag + "\n", x, rest);
    assert AllWs("\n");
    TrimOfPadded([], x, "\n");
    assert [] + x + "\n" == body;
  }

  /** A block whose body is only whitespace yields "" (not `null`). */
  lemma WhitespaceBlockIsEmpty(tag: string, w: string, rest: string)
    requires tag == "html" || tag == "HTML" || tag == ""
    requires AllWs(w)
    ensures ExtractHtml("```" + tag + "\n" + w + "```" + rest) == Some("")
  {
    assert NoFence(w) by {
      forall i | 0 <= i < |w| ensures !FenceAt(w, i) { assert IsWs(w[i]); }
    }
    ClosedBlock(tag, w, rest);
    TrimOfPadded(w, "", []);
    assert w + "" + [] == w;
  }

  /** A text whose only fence is the one opening it matches nowhere. */
  lemma OnlyOpeningFence(t: string, q: nat)
    requires OpensAtStart(t, q)
    requires forall j :: 1 <= j ==> !FenceAt(t, j)
    ensures FirstMatch(t, 0).None?
  {
    var w := WsRunEnd(t, q);
    var n := LastLineFeed(t, q, w);
    assert n.Some? ==> FindFence(t, n.value + 1).None?;
    assert MatchAt(t, 0).None?;
    assert forall p :: 1 <= p <= |t| ==> MatchAt(t, p).None?;
  }

  /** Past `b`, `t` is a text without fences. */
  lemma NoFenceInSuffix(t: string, b: nat)
    requires b <= |t| && NoFence(t[b..])
    ensures forall j :: b <= j ==> !FenceAt(t, j)
  {
    var u := t[b..];
    forall j | b <= j && j + 3 <= |t| ensures !FenceAt(t, j) {
      var i := j - b;
      assert t[j] == u[i] && t[j + 1] == u[i + 1] && t[j + 2] == u[i + 2];
      assert !FenceAt(u, i);
    }
  }

  /** An opening fence that no later "```" closes yields `null`: a truncated block is dropped. */
  lemma TruncatedBlockIsNull(tag: string, body: string)
    requires tag == "html" || tag == "HTML" || tag == ""
    requires NoFence(body)
    ensures ExtractHtml("```" + tag + "\n" + body) == None
  {
    var o := "```" + tag + "\n";
    var t := o + body;
    var q := 3 + |tag|;
    assert t[..q + 1] == o && t[q + 1..] == body;
    OpeningLine(tag, t);
    NoFenceInSuffix(t, q + 1);
    OnlyOpeningFence(t, q);
  }

  /** A fence tagged with anything but `html`/`HTML` (e.g. "```js") opens no block at that position. */
  lemma OtherTagRejected(t: string, p: nat)
    requires FenceAt(t, p) && p + 3 < |t| && !IsWs(t[p + 3])
    requires !(p + 7 <= |t| && (t[p + 3..p + 7] == "html" || t[p + 3..p + 7] == "HTML"))
    ensures MatchAt(t, p).None?
    ensures forall q, s, e :: !RegexMatch(t, p, q, s, e)
  {
    assert TagEnd(t, p) == p + 3;
    assert WsRunEnd(t, p + 3) == p + 3;
    forall q, s, e | RegexMatch(t, p, q, s, e) ensures false {
      MatchAtComplete(t, p, q, s, e);
    }
  }
}
