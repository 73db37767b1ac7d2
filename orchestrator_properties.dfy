/** What the orchestrator's parsers promise, stated over the model. */
module MiniAtomsOrchestratorProperties {
  import opened Wrappers
  import opened Seqs
  import opened Text
  import opened Sections
  import opened SectionsProperties
  import opened OrchestratorTypes
  import opened MiniAtomsOrchestrator

  /** A line of bullet text that stays on its line. */
  predicate IsLineText(x: string) {
    IsBulletText(x) && '\n' !in x
  }

  /** Each text as a "- " bullet. */
  function Bulleted(xs: seq<string>): (ps: seq<string>)
    ensures |ps| == |xs|
    ensures forall i :: 0 <= i < |xs| ==> ps[i] == "- " + xs[i]
  {
    seq(|xs|, i requires 0 <= i < |xs| => "- " + xs[i])
  }

  /** The first line feed of `a + "\n" + b` is the one after `a`. */
  lemma FirstLineFeed(a: string, b: string)
    requires '\n' !in a
    ensures IndexOfChar(a + "\n" + b, '\n') == Some(|a|)
    ensures (a + "\n" + b)[..|a|] == a && (a + "\n" + b)[|a| + 1..] == b
  {
    var s := a + "\n" + b;
    assert s[|a|] == '\n';
    var r := IndexOfChar(s, '\n');
    assert r.Some?;
    assert s[..|a|] == a;
  }

  /** Splitting on line feeds undoes joining pieces that hold none. */
  lemma {:induction false} SplitJoin(ps: seq<string>)
    requires |ps| >= 1 && forall i :: 0 <= i < |ps| ==> '\n' !in ps[i]
    ensures SplitOnLineFeed(JoinLines(ps)) == ps
  {
    if |ps| == 1 {
      assert IndexOfChar(ps[0], '\n').None?;
    } else {
      SplitJoin(ps[1..]);
      FirstLineFeed(ps[0], JoinLines(ps[1..]));
      assert ps == [ps[0]] + ps[1..];
    }
  }

  /** `ps.join('\r\n')` */
  function JoinCrLf(ps: seq<string>): string
    requires |ps| >= 1
  {
    if |ps| == 1 then ps[0] else ps[0] + "\r\n" + JoinCrLf(ps[1..])
  }

  /** Every piece but the last with a carriage return appended. */
  function CrTerminated(ps: seq<string>): (r: seq<string>)
    ensures |r| == |ps|
  {
    seq(|ps|, i requires 0 <= i < |ps| => if i + 1 < |ps| then ps[i] + "\r" else ps[i])
  }

  /** Joining on CR LF is joining on LF after appending a CR to every piece but the last. */
  lemma {:induction false} JoinCrLfAsJoinLines(ps: seq<string>)
    requires |ps| >= 1
    ensures JoinCrLf(ps) == JoinLines(CrTerminated(ps))
  {
    if |ps| > 1 {
      JoinCrLfAsJoinLines(ps[1..]);
      assert CrTerminated(ps)[1..] == CrTerminated(ps[1..]);
      assert ps[0] + "\r\n" + JoinCrLf(ps[1..]) == (ps[0] + "\r") + "\n" + JoinCrLf(ps[1..]);
    }
  }

  /**
   * `split(/\r?\n/)` undoes a CR LF join: Windows line endings give back the same lines,
   * whatever the pieces end with, as long as they hold no line feed.
   */
  lemma SplitCrLfJoin(ps: seq<string>)
    requires |ps| >= 1 && forall i :: 0 <= i < |ps| ==> '\n' !in ps[i]
    ensures SplitLines(JoinCrLf(ps)) == ps
  {
    var s := JoinCrLf(ps);
    CrLfPieces(ps);
    forall i | 0 <= i < |ps| ensures SplitLines(s)[i] == ps[i] {
      SplitLinesAt(s, i);
      if i + 1 < |ps| {
        assert SplitOnLineFeed(s)[i] == ps[i] + "\r";
        DropAppendedCr(ps[i]);
      }
    }
  }

  /** The LF-pieces of a CR LF join are the pieces with their CRs. */
  lemma CrLfPieces(ps: seq<string>)
    requires |ps| >= 1 && forall i :: 0 <= i < |ps| ==> '\n' !in ps[i]
    ensures SplitOnLineFeed(JoinCrLf(ps)) == CrTerminated(ps)
  {
    CrTerminatedHasNoLineFeed(ps);
    JoinCrLfAsJoinLines(ps);
    SplitJoin(CrTerminated(ps));
  }

  /** Line `i` of `split(/\r?\n/)` is LF-piece `i`, less one trailing CR unless it is the last. */
  lemma SplitLinesAt(s: string, i: nat)
    requires i < |SplitOnLineFeed(s)|
    ensures var pieces := SplitOnLineFeed(s);
      SplitLines(s)[i] == if i + 1 < |pieces| then DropCr(pieces[i]) else pieces[i]
  {
  }

  /** Appending a carriage return adds no line feed. */
  lemma CrTerminatedHasNoLineFeed(ps: seq<string>)
    requires forall i :: 0 <= i < |ps| ==> '\n' !in ps[i]
    ensures forall i :: 0 <= i < |ps| ==> '\n' !in CrTerminated(ps)[i]
  {
    forall i | 0 <= i < |ps| ensures '\n' !in CrTerminated(ps)[i] {
      if i + 1 < |ps| {
        assert CrTerminated(ps)[i] == ps[i] + "\r";
      }
    }
  }

  /** `DropCr` removes an appended carriage return. */
  lemma DropAppendedCr(p: string)
    ensures DropCr(p + "\r") == p
  {
    assert (p + "\r")[..|p|] == p;
  }

  /** `split(/\r?\n/)` undoes an LF join of pieces that hold no LF and, but for the last, end in no CR. */
  lemma SplitLinesJoin(ps: seq<string>)
    requires |ps| >= 1 && forall i :: 0 <= i < |ps| ==> '\n' !in ps[i]
    requires forall i :: 0 <= i < |ps| - 1 ==> ps[i] == [] || ps[i][|ps[i]| - 1] != '\r'
    ensures SplitLines(JoinLines(ps)) == ps
  {
    SplitJoin(ps);
    forall i | 0 <= i < |ps| ensures SplitLines(JoinLines(ps))[i] == ps[i] {
      SplitLinesAt(JoinLines(ps), i);
    }
  }

  /** Text whose lines end in CR LF splits into the same lines as text whose lines end in LF. */
  lemma CrLfSameLines(ps: seq<string>)
    requires |ps| >= 1 && forall i :: 0 <= i < |ps| ==> '\n' !in ps[i]
    requires forall i :: 0 <= i < |ps| - 1 ==> ps[i] == [] || ps[i][|ps[i]| - 1] != '\r'
    ensures SplitLines(JoinCrLf(ps)) == SplitLines(JoinLines(ps)) == ps
  {
    SplitCrLfJoin(ps);
    SplitLinesJoin(ps);
  }

  /** The joined text begins with the first piece's first character and ends with the last piece's last. */
  lemma {:induction false} JoinLinesEnds(ps: seq<string>)
    requires |ps| >= 1 && forall i :: 0 <= i < |ps| ==> ps[i] != []
    ensures var s := JoinLines(ps); s != [] && s[0] == ps[0][0] && s[|s| - 1] == ps[|ps| - 1][|ps[|ps| - 1]| - 1]
  {
    if |ps| > 1 {
      JoinLinesEnds(ps[1..]);
    }
  }

  /** A "- " bullet normalises to its text. */
  lemma NormalizeBullet(x: string)
    requires IsBulletText(x)
    ensures NormalizeLine("- " + x) == x
  {
    var s := "- " + x;
    assert s[1..] == " " + x && (" " + x)[1..] == x;
    assert MarkerPrefix(x) == 0;
    assert MarkerPrefix(" " + x) == 1;
    assert MarkerPrefix(s) == 2;
    assert s[2..] == x;
    TrimIdempotent(x);
  }

  /** Bullet lines joined by line feeds split back into the same lines. */
  lemma BulletLinesSplit(xs: seq<string>)
    requires |xs| >= 1 && forall i :: 0 <= i < |xs| ==> IsLineText(xs[i])
    ensures SplitLines(JoinLines(Bulleted(xs))) == Bulleted(xs)
  {
    var ps := Bulleted(xs);
    assert forall i :: 0 <= i < |ps| ==> '\n' !in ps[i] by {
      forall i | 0 <= i < |ps| ensures '\n' !in ps[i] {
        assert ps[i] == "- " + xs[i];
      }
    }
    forall i | 0 <= i < |ps| - 1 ensures ps[i] == [] || ps[i][|ps[i]| - 1] != '\r' {
      var x := xs[i];
      assert ps[i][|ps[i]| - 1] == x[|x| - 1];
      assert !IsWs(x[|x| - 1]);
    }
    SplitLinesJoin(ps);
  }

  /** Normalising "- " bullets gives their texts. */
  lemma NormalizeBullets(xs: seq<string>)
    requires forall i :: 0 <= i < |xs| ==> IsLineText(xs[i])
    ensures NormalizeEach(Bulleted(xs)) == xs
  {
    forall i | 0 <= i < |xs| ensures NormalizeEach(Bulleted(xs))[i] == xs[i] {
      NormalizeBullet(xs[i]);
    }
  }

  /**
   * The round trip of `normalizeBulletSection`: a list of "- " bullets, one per line,
   * normalises back to the bullet texts.
   */
  lemma BulletListRoundTrip(xs: seq<string>)
    requires |xs| >= 1 && forall i :: 0 <= i < |xs| ==> IsLineText(xs[i])
    ensures NormalizeBulletSection(JoinLines(Bulleted(xs))) == xs
  {
    assert NormalizeEach(SplitLines(JoinLines(Bulleted(xs)))) == xs by {
      BulletLinesSplit(xs);
      NormalizeBullets(xs);
    }
    FilterAll(xs, NonEmpty);
  }

  /** A bullet list joined into lines is trimmed. */
  lemma BulletListIsTrimmed(xs: seq<string>)
    requires |xs| >= 1 && forall i :: 0 <= i < |xs| ==> IsLineText(xs[i])
    ensures IsTrimmed(JoinLines(Bulleted(xs)))
  {
    var body := JoinLines(Bulleted(xs));
    JoinLinesEnds(Bulleted(xs));
    var last := xs[|xs| - 1];
    assert body[|body| - 1] == last[|last| - 1];
  }

  /** The lines of a section of "- " bullets closed by the next heading are the bullet texts. */
  lemma SectionOfBullets(h: string, xs: seq<string>, rest: string)
    requires IsPlainHeading(h)
    requires |xs| >= 1 && forall i :: 0 <= i < |xs| ==> IsLineText(xs[i])
    requires Quiet(JoinLines(Bulleted(xs)))
    ensures SectionLines("## " + h + "\n" + JoinLines(Bulleted(xs)) + "\n## " + rest, h) == xs
  {
    var body := JoinLines(Bulleted(xs));
    SectionBeforeNextHeading(h, body, rest);
    BulletListIsTrimmed(xs);
    TrimIdempotent(body);
    BulletListRoundTrip(xs);
  }

  lemma ProductHeadingLine(body: string, rest: string)
    ensures "## Product\n" + body + "\n## " + rest == "## " + "Product" + "\n" + body + "\n## " + rest
  {
    assert "## Product\n" == "## " + "Product" + "\n";
  }

  /**
   * A `## Product` section of "- " bullets, closed by the next heading, gives the spec:
   * every bullet as a feature, the first as the summary, and the user's text as the
   * title source.
   */
  lemma ProductSectionOfBullets(xs: seq<string>, rest: string, userText: string)
    requires |xs| >= 1 && forall i :: 0 <= i < |xs| ==> IsLineText(xs[i])
    requires Quiet(JoinLines(Bulleted(xs)))
    ensures ParseProductSection("## Product\n" + JoinLines(Bulleted(xs)) + "\n## " + rest, Some(userText))
      == Some(AppSpec(ProductTitle(userText), xs[0], None, xs))
  {
    var body := JoinLines(Bulleted(xs));
    assert IsPlainHeading("Product");
    SectionOfBullets("Product", xs, rest);
    var t := "## Product\n" + body + "\n## " + rest;
    ProductHeadingLine(body, rest);
    assert SectionLines(t, "Product") == xs;
    var spec := ParseProductSection(t, Some(userText));
    assert spec.Some?;
  }

  /** The three buckets partition the lines they are drawn from. */
  lemma BucketsPartition(rest: seq<string>)
    ensures var c, st, i := Filter(rest, IsComponentLine), Filter(rest, IsStateLine), Filter(rest, IsInteractionLine);
      && multiset(c) + multiset(st) + multiset(i) == multiset(rest)
      && |c| + |st| + |i| == |rest|
      && IsSubsequence(c, rest) && IsSubsequence(st, rest) && IsSubsequence(i, rest)
      && (forall l :: l in rest && IsStateLine(l) ==> l in st && l !in i && l !in c)
  {
    var c, st, i := Filter(rest, IsComponentLine), Filter(rest, IsStateLine), Filter(rest, IsInteractionLine);
    assert forall l :: l in rest && IsStateLine(l) ==> l in st && l !in i && l !in c by {
      FilterFacts(rest, IsComponentLine);
      FilterFacts(rest, IsStateLine);
      FilterFacts(rest, IsInteractionLine);
    }
    FilterIsSubsequence(rest, IsComponentLine);
    FilterIsSubsequence(rest, IsStateLine);
    FilterIsSubsequence(rest, IsInteractionLine);
    forall x ensures (multiset(c) + multiset(st) + multiset(i))[x] == multiset(rest)[x] {
      FilterCount(rest, IsComponentLine, x);
      FilterCount(rest, IsStateLine, x);
      FilterCount(rest, IsInteractionLine, x);
    }
    assert multiset(c) + multiset(st) + multiset(i) == multiset(rest);
    assert |multiset(rest)| == |rest|;
  }

  /**
   * `parseArchitectureSection` sorts every line after the layout into exactly one of the
   * three lists, keeping their order; state words are tested before interaction words.
   */
  lemma ArchitecturePartition(t: string)
    ensures ArchitectureDesign(t).None? <==> SectionLines(t, "Architecture") == []
    ensures ArchitectureDesign(t).Some? ==>
      var lines := SectionLines(t, "Architecture");
      var d := ArchitectureDesign(t).value;
      && d.layout == lines[0]
      && multiset(d.components) + multiset(d.stateModel) + multiset(d.interactions) == multiset(lines[1..])
      && |d.components| + |d.stateModel| + |d.interactions| == |lines| - 1
      && IsSubsequence(d.components, lines[1..])
      && IsSubsequence(d.stateModel, lines[1..])
      && IsSubsequence(d.interactions, lines[1..])
      && (forall l :: l in lines[1..] && IsStateLine(l) ==> l in d.stateModel && l !in d.interactions && l !in d.components)
  {
    var lines := SectionLines(t, "Architecture");
    if lines != [] {
      BucketsPartition(lines[1..]);
    }
  }
}
