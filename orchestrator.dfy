/**
 * `MiniAtomsOrchestrator`: turns a completed chat response into the preview HTML, a
 * history entry and the per-project orchestration state, parsing the `## Product` and
 * `## Architecture` sections of the response along the way. The preview widget is not
 * modelled; the storage service is the `AppStorage` object, and the fresh id and
 * creation time it would draw from a generator and the clock are parameters.
 */
module MiniAtomsOrchestrator {
  import opened Wrappers
  import opened Seqs
  import opened Text
  import opened CodeExtractor
  import opened CodeExtractorProperties
  import opened Sections
  import opened OrchestratorTypes
  import opened MiniAtomsStorage

  // ---------------------------------------------------------------------------
  // normalizeBulletSection

  /** `s.indexOf(c)`, or nothing for -1. */
  function IndexOfChar(s: string, c: char): (r: Option<nat>)
    ensures r.Some? ==> r.value < |s| && s[r.value] == c && c !in s[..r.value]
    ensures r.None? ==> c !in s
  {
    if s == [] then None
    else if s[0] == c then Some(0)
    else match IndexOfChar(s[1..], c)
      case None => None
      case Some(k) =>
        assert s[..k + 1] == [s[0]] + s[1..][..k];
        Some(k + 1)
  }

  /** `pieces.join('\n')` */
  function JoinLines(pieces: seq<string>): (r: string)
    requires |pieces| >= 1
    ensures |pieces[0]| <= |r| && r[..|pieces[0]|] == pieces[0]
  {
    if |pieces| == 1 then pieces[0] else pieces[0] + "\n" + JoinLines(pieces[1..])
  }

  /** `s.split('\n')`: the pieces between line feeds, which rejoin to `s`. */
  function SplitOnLineFeed(s: string): (pieces: seq<string>)
    ensures |pieces| >= 1
    ensures forall i :: 0 <= i < |pieces| ==> '\n' !in pieces[i]
    ensures JoinLines(pieces) == s
    decreases |s|
  {
    match IndexOfChar(s, '\n')
    case None => [s]
    case Some(i) =>
      var rest := SplitOnLineFeed(s[i + 1..]);
      assert s == s[..i] + "\n" + s[i + 1..];
      assert ([s[..i]] + rest)[1..] == rest;
      [s[..i]] + rest
  }

  /** One carriage return dropped from the end of `s`, if it has one. */
  function DropCr(s: string): (r: string)
    ensures s != [] && s[|s| - 1] == '\r' ==> s == r + "\r"
    ensures !(s != [] && s[|s| - 1] == '\r') ==> r == s
  {
    if s != [] && s[|s| - 1] == '\r' then s[..|s| - 1] else s
  }

  /**
   * `s.split(/\r?\n/)`: every line feed separates, together with the carriage return
   * just before it; a carriage return at the very end of `s` stays.
   */
  function SplitLines(s: string): (lines: seq<string>)
    ensures |lines| == |SplitOnLineFeed(s)|
    ensures forall i :: 0 <= i < |lines| ==> '\n' !in lines[i]
    ensures forall i :: 0 <= i < |lines| ==>
      SplitOnLineFeed(s)[i] == lines[i] || (i + 1 < |lines| && SplitOnLineFeed(s)[i] == lines[i] + "\r")
    ensures lines[|lines| - 1] == SplitOnLineFeed(s)[|lines| - 1]
  {
    var pieces := SplitOnLineFeed(s);
    seq(|pieces|, i requires 0 <= i < |pieces| => if i + 1 < |pieces| then DropCr(pieces[i]) else pieces[i])
  }

  /** The characters of `[\s>*-]`. */
  predicate IsMarkerChar(c: char) {
    IsWs(c) || c == '>' || c == '*' || c == '-'
  }

  /** The length of the longest prefix of bullet and quote markers and whitespace. */
  function MarkerPrefix(s: string): (n: nat)
    ensures n <= |s|
    ensures forall i :: 0 <= i < n ==> IsMarkerChar(s[i])
    ensures n < |s| ==> !IsMarkerChar(s[n])
  {
    if s == [] || !IsMarkerChar(s[0]) then 0 else 1 + MarkerPrefix(s[1..])
  }

  /** A normalised line: not empty, trimmed, and not starting with a marker. */
  predicate IsBulletText(l: string) {
    l != [] && IsTrimmed(l) && !IsMarkerChar(l[0])
  }

  /** `line.replace(/^[\s>*-]+\s*\/, '').trim()` */
  function NormalizeLine(line: string): (r: string)
    ensures r == [] || IsBulletText(r)
  {
    var u := line[MarkerPrefix(line)..];
    assert u != [] ==> !IsWs(u[0]);
    Trim(u)
  }

  function NormalizeEach(lines: seq<string>): seq<string> {
    seq(|lines|, i requires 0 <= i < |lines| => NormalizeLine(lines[i]))
  }

  predicate NonEmpty(l: string) {
    l != []
  }

  /** `normalizeBulletSection(section)`: the non-empty normalised lines, in order. */
  function NormalizeBulletSection(section: string): (lines: seq<string>)
    ensures forall i :: 0 <= i < |lines| ==> IsBulletText(lines[i])
    ensures IsSubsequence(lines, NormalizeEach(SplitLines(section)))
    ensures forall l :: l in NormalizeEach(SplitLines(section)) && l != [] ==> l in lines
    ensures forall l :: l != [] ==> multiset(lines)[l] == multiset(NormalizeEach(SplitLines(section)))[l]
  {
    var all := NormalizeEach(SplitLines(section));
    FilterFacts(all, NonEmpty);
    FilterCounts(all, NonEmpty);
    FilterIsSubsequence(all, NonEmpty);
    Filter(all, NonEmpty)
  }

  /** The lines the parsers work on: none when the section is absent. */
  function SectionLines(t: string, h: string): seq<string> {
    match ExtractSection(t, h)
    case None => []
    case Some(section) => NormalizeBulletSection(section)
  }

  /** An empty section normalises to no lines. */
  lemma EmptySectionHasNoLines()
    ensures NormalizeBulletSection("") == []
  {
    assert IndexOfChar("", '\n') == None;
    assert SplitOnLineFeed("") == [""];
    assert SplitLines("") == [""];
    assert Trim("") == "";
    assert NormalizeEach([""]) == [""];
  }

  // ---------------------------------------------------------------------------
  // parseProductSection

  /** The title is cut to this many characters. */
  const TitleLimit: nat := 60

  /** `(userText ?? lines[0]).slice(0, 60) || 'Generated App'` */
  function ProductTitle(source: string): (title: string)
    ensures title != []
    ensures source == [] ==> title == "Generated App"
    ensures source != [] ==>
      |title| == (if |source| <= TitleLimit then |source| else TitleLimit) && title == source[..|title|]
  {
    var cut := Take(source, TitleLimit);
    if cut == [] then "Generated App" else cut
  }

  /** `parseProductSection(fullText, userText)` */
  function ParseProductSection(fullText: string, userText: Option<string>): (spec: Option<AppSpec>)
    ensures spec.None? <==> SectionLines(fullText, "Product") == []
    ensures spec.Some? ==>
      && spec.value.features == SectionLines(fullText, "Product")
      && spec.value.summary == spec.value.features[0]
      && spec.value.title == ProductTitle(userText.GetOr(spec.value.summary))
      && spec.value.targetUser.None?
  {
    match ExtractSection(fullText, "Product")
    case None => None
    case Some(section) =>
      if section == "" then EmptySectionHasNoLines(); None
      else
        var lines := NormalizeBulletSection(section);
        if |lines| == 0 then None
        else Some(AppSpec(ProductTitle(userText.GetOr(lines[0])), lines[0], None, lines))
  }

  // ---------------------------------------------------------------------------
  // parseArchitectureSection

  /** The words that put a line into `stateModel`: `state`, 数据 (data), 状态 (state). */
  const StateWords: seq<string> := ["state", "\U{6570}\U{636E}", "\U{72B6}\U{6001}"]

  /** The words that put a line into `interactions`: 点击 (click), 输入 (input), 交互 (interaction), `flow`. */
  const InteractionWords: seq<string> := ["\U{70B9}\U{51FB}", "\U{8F93}\U{5165}", "\U{4EA4}\U{4E92}", "flow"]

  /** `words.some(w => lower.includes(w))`, as the chain of `||` tests. */
  function IncludesAny(lower: string, words: seq<string>): bool {
    if words == [] then false else Includes(lower, words[0]) || IncludesAny(lower, words[1..])
  }

  predicate MentionsState(lower: string) {
    IncludesAny(lower, StateWords)
  }

  predicate MentionsInteraction(lower: string) {
    IncludesAny(lower, InteractionWords)
  }

  /** A line for `stateModel`: state words are tested first. */
  predicate IsStateLine(line: string) {
    MentionsState(AsciiLower(line))
  }

  /** A line for `interactions`. */
  predicate IsInteractionLine(line: string) {
    !MentionsState(AsciiLower(line)) && MentionsInteraction(AsciiLower(line))
  }

  /** A line for `components`: every other line. */
  predicate IsComponentLine(line: string) {
    !MentionsState(AsciiLower(line)) && !MentionsInteraction(AsciiLower(line))
  }

  /**
   * The design the architecture section describes: the first line is the layout, and
   * each later line goes, in order, to the bucket its wording selects.
   */
  function ArchitectureDesign(fullText: string): (r: Option<AppDesign>)
    ensures r.None? <==> SectionLines(fullText, "Architecture") == []
    ensures r.Some? ==>
      var lines := SectionLines(fullText, "Architecture");
      && r.value.layout == lines[0]
      && IsSubsequence(r.value.components, lines[1..])
      && IsSubsequence(r.value.stateModel, lines[1..])
      && IsSubsequence(r.value.interactions, lines[1..])
  {
    var lines := SectionLines(fullText, "Architecture");
    if lines == [] then None
    else
      var rest := lines[1..];
      FilterIsSubsequence(rest, IsComponentLine);
      FilterIsSubsequence(rest, IsStateLine);
      FilterIsSubsequence(rest, IsInteractionLine);
      Some(AppDesign(lines[0], Filter(rest, IsComponentLine), Filter(rest, IsStateLine), Filter(rest, IsInteractionLine)))
  }

  /** One more line extends exactly the bucket its lowercased wording selects. */
  lemma BucketStep(done: seq<string>, line: string)
    ensures var lower := AsciiLower(line);
      && Filter(done + [line], IsStateLine)
         == Filter(done, IsStateLine) + (if MentionsState(lower) then [line] else [])
      && Filter(done + [line], IsInteractionLine)
         == Filter(done, IsInteractionLine) + (if !MentionsState(lower) && MentionsInteraction(lower) then [line] else [])
      && Filter(done + [line], IsComponentLine)
         == Filter(done, IsComponentLine) + (if !MentionsState(lower) && !MentionsInteraction(lower) then [line] else [])
  {
    FilterSnoc(done, line, IsStateLine);
    FilterSnoc(done, line, IsInteractionLine);
    FilterSnoc(done, line, IsComponentLine);
  }

  /** The loop of `parseArchitectureSection`: each line, in order, into its bucket. */
  method SortIntoBuckets(rest: seq<string>)
    returns (components: seq<string>, stateModel: seq<string>, interactions: seq<string>)
    ensures components == Filter(rest, IsComponentLine)
    ensures stateModel == Filter(rest, IsStateLine)
    ensures interactions == Filter(rest, IsInteractionLine)
  {
    components, stateModel, interactions := [], [], [];
    var i := 0;
    while i < |rest|
      invariant 0 <= i <= |rest|
      invariant components == Filter(rest[..i], IsComponentLine)
      invariant stateModel == Filter(rest[..i], IsStateLine)
      invariant interactions == Filter(rest[..i], IsInteractionLine)
    {
      var line := rest[i];
      var lower := AsciiLower(line);
      assert rest[..i + 1] == rest[..i] + [line];
      BucketStep(rest[..i], line);
      if MentionsState(lower) {
        stateModel := stateModel + [line];
      } else if MentionsInteraction(lower) {
        interactions := interactions + [line];
      } else {
        components := components + [line];
      }
      i := i + 1;
    }
    assert rest[..i] == rest;
  }

  /** `parseArchitectureSection(fullText)` */
  method ParseArchitectureSection(fullText: string) returns (design: Option<AppDesign>)
    ensures design == ArchitectureDesign(fullText)
  {
    var section := ExtractSection(fullText, "Architecture");
    if section.None? || section.value == "" {
      EmptySectionHasNoLines();
      return None;
    }
    var lines := NormalizeBulletSection(section.value);
    if |lines| == 0 {
      return None;
    }
    var layout := lines[0];
    var components, stateModel, interactions := SortIntoBuckets(lines[1..]);
    design := Some(AppDesign(layout, components, stateModel, interactions));
  }

  // ---------------------------------------------------------------------------
  // handleCompletedChatRequest

  /** The parts of a `ChatRequestModel` the orchestrator reads. */
  datatype ChatRequest = ChatRequest(
    sessionId: string,
    userText: string,
    isComplete: bool,
    isError: bool,
    responseText: string)

  /** `(description ?? 'From Chat').trim() || 'From Chat'` */
  function SaveDescription(description: Option<string>): (d: string)
    ensures d != [] && IsTrimmed(d)
    ensures description.Some? && Trim(description.value) != [] ==> d == Trim(description.value)
    ensures !(description.Some? && Trim(description.value) != []) ==> d == "From Chat"
  {
    var trimmed := Trim(description.GetOr("From Chat"));
    if trimmed == [] then "From Chat" else trimmed
  }

  /** Above this length, HTML without a closing tag draws the truncation warning. */
  const TruncationWarningLength: nat := 2000

  /** `/<\/html>\s*$/i` matches `s` with `</html>`, in any case, ending at `e` and only whitespace after it. */
  ghost predicate ClosingTagAt(s: string, e: int) {
    7 <= e <= |s| && AsciiLower(s[e - 7..e]) == "</html>" && AllWs(s[e..])
  }

  /** A closing tag can only end where the trailing whitespace starts. */
  lemma ClosingTagAtTrailingWs(s: string, e: int)
    requires ClosingTagAt(s, e)
    ensures e == TrailingWsStart(s)
  {
    var n := TrailingWsStart(s);
    assert AsciiLower(s[e - 7..e])[6] == '>';
    assert s[e - 1] == s[e - 7..e][6];
    assert s[e - 1] == '>';
  }

  /** `/<\/html>\s*$/i.test(s)`: `s` ends with `</html>`, in any case, then whitespace. */
  predicate EndsWithClosingHtml(s: string): (b: bool)
    ensures b <==> exists e :: ClosingTagAt(s, e)
  {
    var e := TrailingWsStart(s);
    if e >= 7 && AsciiLower(s[e - 7..e]) == "</html>" then
      assert ClosingTagAt(s, e);
      true
    else
      assert forall e' :: ClosingTagAt(s, e') ==> e' == e by {
        forall e' | ClosingTagAt(s, e') ensures e' == e {
          ClosingTagAtTrailingWs(s, e');
        }
      }
      false
  }

  /** The condition of the truncation warning: long, and the trimmed HTML does not end with `</html>`. */
  predicate LooksTruncated(html: string): (b: bool)
    ensures b <==> |html| > TruncationWarningLength && forall e :: !ClosingTagAt(Trim(html), e)
  {
    |html| > TruncationWarningLength && !EndsWithClosingHtml(Trim(html))
  }

  /** The response is left alone: still running, failed, or without (non-empty) HTML. */
  predicate IsIgnored(request: ChatRequest): (b: bool)
    ensures b <==>
      || !request.isComplete || request.isError
      || (forall p, q, s, e :: !RegexMatch(request.responseText, p, q, s, e))
      || ExtractHtml(request.responseText) == Some([])
  {
    ExtractHtmlIsLeftmostRegexMatch(request.responseText);
    !request.isComplete || request.isError
    || match ExtractHtml(request.responseText)
       case None => true
       case Some(html) => html == []
  }

  /** The state recorded for a response that is not ignored, given the history entry saved for it. */
  function StateFor(request: ChatRequest, html: string, stored: StoredApp): (st: OrchestrationState)
    ensures st.projectId == request.sessionId
    ensures st.spec.Some? <==> SectionLines(request.responseText, "Product") != []
    ensures st.design.Some? <==> SectionLines(request.responseText, "Architecture") != []
    ensures st.code == Some(GeneratedCode(html)) && st.lastStoredApp == Some(stored)
  {
    OrchestrationState(
      request.sessionId,
      ParseProductSection(request.responseText, Some(request.userText)),
      ArchitectureDesign(request.responseText),
      Some(GeneratedCode(html)),
      Some(stored))
  }

  class Orchestrator {
    /** Per-project state; the chat session id is the project id. */
    var stateByProject: map<string, OrchestrationState>
    const storage: AppStorage

    constructor (storage: AppStorage)
      ensures stateByProject == map[] && this.storage == storage
    {
      stateByProject := map[];
      this.storage := storage;
    }

    /** `getState(projectId)` */
    function GetState(projectId: string): (r: Option<OrchestrationState>)
      reads this
      ensures r.Some? <==> projectId in stateByProject
      ensures r.Some? ==> r.value == stateByProject[projectId]
    {
      if projectId in stateByProject then Some(stateByProject[projectId]) else None
    }

    /** `saveAndPreview(html, description)`, without the preview widget. */
    method SaveAndPreview(html: string, description: Option<string>, freshId: string, createdAt: string)
      returns (stored: StoredApp)
      modifies storage
      ensures stored == StoredApp(freshId, SaveDescription(description), html, createdAt)
      ensures storage.current == Some(stored)
      ensures storage.appsSlot == AppList(WithNewest(stored, old(storage.ListHistory())))
    {
      stored := storage.SaveCurrent(SaveDescription(description), html, freshId, createdAt);
    }

    /**
     * `handleCompletedChatRequest(request)`. Returns whether the truncation warning was
     * logged. An ignored response changes nothing; otherwise the HTML is saved to the
     * history and the project's state is replaced as a whole.
     */
    method HandleCompletedChatRequest(request: ChatRequest, freshId: string, createdAt: string)
      returns (warnedTruncation: bool)
      modifies this, storage
      ensures IsIgnored(request) ==>
        stateByProject == old(stateByProject) && unchanged(storage) && !warnedTruncation
      ensures !IsIgnored(request) ==>
        var html := ExtractHtml(request.responseText).value;
        var stored := StoredApp(freshId, SaveDescription(Some(request.userText)), html, createdAt);
        && stateByProject == old(stateByProject)[request.sessionId := StateFor(request, html, stored)]
        && storage.current == Some(stored)
        && storage.appsSlot == AppList(WithNewest(stored, old(storage.ListHistory())))
        && warnedTruncation == LooksTruncated(html)
      ensures !IsIgnored(request) ==>
        && GetState(request.sessionId).Some?
        && GetState(request.sessionId).value.lastStoredApp == storage.GetCurrent()
        && GetState(request.sessionId).value.code.value.html == storage.GetCurrent().value.html
    {
      warnedTruncation := false;
      if !request.isComplete || request.isError {
        return;
      }
      var fullText := request.responseText;
      var html := ExtractHtml(fullText);
      if html.None? || html.value == [] {
        return;
      }
      if |html.value| > TruncationWarningLength && !EndsWithClosingHtml(Trim(html.value)) {
        warnedTruncation := true;
      }
      RecordResponse(request, html.value, freshId, createdAt);
    }

    /**
     * The second half of `handleCompletedChatRequest`, once the HTML is known. The
     * architecture section is parsed after the save rather than before it; parsing is
     * pure, so the order changes no result.
     */
    method RecordResponse(request: ChatRequest, html: string, freshId: string, createdAt: string)
      modifies this, storage
      ensures var stored := StoredApp(freshId, SaveDescription(Some(request.userText)), html, createdAt);
        && stateByProject == old(stateByProject)[request.sessionId := StateFor(request, html, stored)]
        && storage.current == Some(stored)
        && storage.appsSlot == AppList(WithNewest(stored, old(storage.ListHistory())))
    {
      var fullText := request.responseText;
      var projectId := request.sessionId;
      var userText := request.userText;
      var spec := ParseProductSection(fullText, Some(userText));
      var stored := SaveAndPreview(html, Some(userText), freshId, createdAt);
      var design := ParseArchitectureSection(fullText);
      var state := OrchestrationState(projectId, spec, design, Some(GeneratedCode(html)), Some(stored));
      stateByProject := stateByProject[projectId := state];
    }
  }
}
