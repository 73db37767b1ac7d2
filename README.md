# Mini Atoms core, modelled in Dafny

Mini Atoms turns a chat answer from a language model into a small single-page web app. The
answer is markdown. It has a `## Product` section and an `## Architecture` section made of
bullet lines, and it has a fenced HTML code block. When a chat request completes, the
orchestrator does four things:

- it pulls the first HTML block out of the answer;
- it parses the two sections into an `AppSpec` and an `AppDesign`;
- it saves the HTML as the current app and at the front of a history of at most 50 apps;
- it records the result as the state of the chat session, which doubles as the project.

Beside it sit:

- the language model service, which filters a request's messages by the client's settings,
  forwards the request, and records every exchange in a list of sessions;
- the wrapper around a streamed answer, which copies each part into the recorded response;
- the chat service's choice of the default agent, which migrates the legacy `Coder` id to
  `MiniAtoms`.

Files, each one module or a module plus a `…Properties` module:

- `wrappers.dfy`: `Option`.
- `seqs.dfy`:
  - `Filter` (JavaScript's `Array.prototype.filter`);
  - subsequences.
- `text.dfy`:
  - JavaScript whitespace (the `\s` class) and `trim()`;
  - ASCII lowercasing;
  - `includes`.
- `code_extractor.dfy`: `extractHTML`. Its regular expression is written out as a scanner, and
  the scanner is proved to return the leftmost match the regular expression defines.
- `sections.dfy`: `extractSection`, handled the same way.
- `orchestrator_types.dfy`: the records of `orchestrator-types.ts` and the stored app.
- `storage.dfy`: the history store, as a class over its two storage slots.
- `orchestrator.dfy` and `orchestrator_properties.dfy`, covering:
  - line splitting;
  - bullet normalisation;
  - the product and architecture parsers;
  - the orchestrator class.
- `language_model_service.dfy`:
  - the session log;
  - `sendRequest`;
  - `storeRequest`;
  - the stream wrapper.
- `frontend_chat_service.dfy`: default agent selection.

External inputs are parameters of the model:

- the clock (`Date.now()`, `new Date().toISOString()`);
- `generateUuid()`;
- the language model's answer (a `ModelOutcome`);
- the parts a stream delivers, plus whether it fails after them;
- how many parts the consumer pulls;
- the agent registry and the stored preference.

The storage backend is modelled as the two slots the store uses. The logger and the preference
writes are an output list of `Action`s. The session-changed emitter is an output list of
`SessionEvent`s.

Where a source comment and the source code disagree, the model follows the code. The doc
comment of `extractSection` (mini-atoms-orchestrator.ts:204) says a section runs "until the
next `##` or end of text". In the regular expression at :207, `\Z` sits inside a JavaScript
`RegExp`, which has no end-of-input `\Z`. There it is an identity escape for the letter `Z`,
and the `i` flag makes it match `z` too. As a result:

- a section stops at the first `z` or `Z`;
- a section whose text runs to the end without a later `## ` heading and without a `z` does
  not match at all, so the section is absent.

`SectionsProperties.SectionStopsAtLetterZ` and `SectionsProperties.SectionToEndOfTextIsAbsent`
state both behaviours.

## Model

| member | source | states |
|---|---|---|
| CodeExtractor.TagEnd | packages/mini-atoms/src/common/code-extractor.ts:16 | the optional `html`/`HTML` tag is taken exactly when one follows the fence, and no other tag end can be followed by the whitespace `\s*\n` needs, so the choice is forced |
| CodeExtractor.LastLineFeed | packages/mini-atoms/src/common/code-extractor.ts:16 | the last LF in the whitespace run after the tag, with no LF after it, where the greedy `\s*` backs off to let `\n` match; none at all when the run holds no LF |
| CodeExtractor.FindFence | packages/mini-atoms/src/common/code-extractor.ts:16 | the first fence at or after the body start, none before it, where the lazy body stops; none at all when no fence follows |
| CodeExtractor.MatchAt | packages/mini-atoms/src/common/code-extractor.ts:16 | a match found at a position really is a match of the pattern there, and its lazy body holds no fence |
| CodeExtractor.MatchAtComplete | packages/mini-atoms/src/common/code-extractor.ts:16 | every match of the pattern at a position is found, with the body starting no later and ending no earlier |
| CodeExtractor.FirstMatch | packages/mini-atoms/src/common/code-extractor.ts:16-17 | the first position with a match; none before it; none at all when absent |
| CodeExtractor.ExtractHtml | packages/mini-atoms/src/common/code-extractor.ts:15-19 | null exactly when nothing matches; otherwise the trimmed capture of the leftmost match, which contains no fence |
| CodeExtractorProperties.ExtractHtmlIsLeftmostRegexMatch | packages/mini-atoms/src/common/code-extractor.ts:16-18 | null iff the pattern has no match anywhere; otherwise the result is the trimmed body of a match at the least position, with the latest body start and earliest body end |
| CodeExtractorProperties.FirstBlockAtStart | packages/mini-atoms/src/common/code-extractor.ts:15-19 | a text that opens with a fence line gives the trimmed text up to the first later fence |
| CodeExtractorProperties.ClosedBlock | packages/mini-atoms/src/common/code-extractor.ts:15-19 | "```"+tag+"\n"+body+"```"+rest gives Trim(body) for tag "", "html" or "HTML" and a body without a fence |
| CodeExtractorProperties.HtmlBlockRoundTrip | packages/mini-atoms/src/common/code-extractor.ts:11-19 | wrapping trimmed, fence-free HTML in a block and extracting it gives the HTML back |
| CodeExtractorProperties.WhitespaceBlockIsEmpty | packages/mini-atoms/src/common/code-extractor.ts:18 | a block holding only whitespace gives the empty string, not null |
| CodeExtractorProperties.OnlyOpeningFence | packages/mini-atoms/src/common/code-extractor.ts:16-18 | an opening fence line with no later fence gives no match |
| CodeExtractorProperties.TruncatedBlockIsNull | packages/mini-atoms/src/common/code-extractor.ts:16-18 | a block whose closing fence is cut off gives null |
| CodeExtractorProperties.OtherTagRejected | packages/mini-atoms/src/common/code-extractor.ts:16 | a fence followed by a tag other than html/HTML on its line (a non-whitespace character) does not match there |
| Text.Trim | packages/mini-atoms/src/common/code-extractor.ts:18 | the result is trimmed and is the input minus its leading and trailing whitespace runs |
| Text.LeadingWs | packages/mini-atoms/src/common/code-extractor.ts:18 | the length of the longest whitespace prefix: all of it whitespace, and the next character (if any) not |
| Text.TrailingWsStart | packages/mini-atoms/src/common/code-extractor.ts:18 | where the longest whitespace suffix begins: all of it whitespace, and the character before it (if any) not |
| Text.TrimOfPadded | packages/mini-atoms/src/common/code-extractor.ts:18 | trimming whitespace around a trimmed text gives that text |
| Text.TrimIdempotent | packages/mini-atoms/src/browser/mini-atoms-orchestrator.ts:218 | trimming a trimmed text changes nothing |
| Text.TrimIgnoresPadding | packages/mini-atoms/src/browser/mini-atoms-orchestrator.ts:209 | whitespace added on either side does not change the trimmed text |
| Text.AsciiLower | packages/mini-atoms/src/browser/mini-atoms-orchestrator.ts:183 | same length, each character lowercased |
| Text.IncludesIffOccurs | packages/mini-atoms/src/browser/mini-atoms-orchestrator.ts:184-186 | `includes` holds iff the pattern occurs at some index |
| Text.Includes | packages/mini-atoms/src/browser/mini-atoms-orchestrator.ts:184-186 | never true for a pattern longer than the text; true whenever the text starts with the pattern |
| Text.WsRunEnd | packages/mini-atoms/src/common/code-extractor.ts:16 | the end of the maximal whitespace run from a position, as far as the greedy `\s*` reaches: every character in it is whitespace and the one after it (if any) is not |
| Sections.LastCrOrLf | packages/mini-atoms/src/browser/mini-atoms-orchestrator.ts:207 | the last CR or LF of the whitespace run after the heading, where the greedy `\s*[\r\n]+` ends |
| Sections.FindStop | packages/mini-atoms/src/browser/mini-atoms-orchestrator.ts:207 | the first position where the lookahead holds (a line-start `##` and whitespace, or the letter z/Z); none before |
| Sections.SectionAt | packages/mini-atoms/src/browser/mini-atoms-orchestrator.ts:207 | a found section is a match of the pattern at that position and its lazy body holds no stop |
| Sections.SectionAtComplete | packages/mini-atoms/src/browser/mini-atoms-orchestrator.ts:207 | every match at a position is found, with the body starting no later and ending no earlier |
| Sections.FirstSection | packages/mini-atoms/src/browser/mini-atoms-orchestrator.ts:207-208 | the first position with a match, none before it, none at all when absent |
| Sections.ExtractSection | packages/mini-atoms/src/browser/mini-atoms-orchestrator.ts:206-210 | absent exactly when nothing matches; otherwise the trimmed capture, which holds no z/Z |
| SectionsProperties.ExtractSectionIsLeftmostRegexMatch | packages/mini-atoms/src/browser/mini-atoms-orchestrator.ts:207-209 | for a plain heading: absent iff the pattern has no match; otherwise the trimmed body of the leftmost, greedy-then-lazy match |
| SectionsProperties.FirstSectionAtStart | packages/mini-atoms/src/browser/mini-atoms-orchestrator.ts:206-210 | a text opening with the heading line gives the trimmed text up to the first stop |
| SectionsProperties.ClosedSection | packages/mini-atoms/src/browser/mini-atoms-orchestrator.ts:206-210 | heading line, quiet body, then a stop: the section is the trimmed body |
| SectionsProperties.SectionBeforeNextHeading | packages/mini-atoms/src/browser/mini-atoms-orchestrator.ts:204-210 | "## h\n"+body+"\n## "+rest gives Trim(body) for a body without '#' or z/Z |
| SectionsProperties.SectionStopsAtLetterZ | packages/mini-atoms/src/browser/mini-atoms-orchestrator.ts:207 | the section ends before the first letter z or Z |
| SectionsProperties.SectionToEndOfTextIsAbsent | packages/mini-atoms/src/browser/mini-atoms-orchestrator.ts:207-209 | a section with no later heading and no z/Z is absent |
| MiniAtomsOrchestrator.SplitOnLineFeed | packages/mini-atoms/src/browser/mini-atoms-orchestrator.ts:217 | at least one piece, none containing LF, and joining them with LF gives the input back |
| MiniAtomsOrchestrator.IndexOfChar | packages/mini-atoms/src/browser/mini-atoms-orchestrator.ts:217 | the first position of the character, which does not occur before it; none when it does not occur |
| MiniAtomsOrchestrator.JoinLines | packages/mini-atoms/src/browser/mini-atoms-orchestrator.ts:217 | the joined text starts with the first piece |
| MiniAtomsOrchestrator.SplitLines | packages/mini-atoms/src/browser/mini-atoms-orchestrator.ts:217 | one line per LF-piece, none containing LF; each line is its piece, or (for every line but the last) its piece less the CR before the LF; the last line is the last piece |
| MiniAtomsOrchestrator.DropCr | packages/mini-atoms/src/browser/mini-atoms-orchestrator.ts:217 | the optional `\r` of `\r?\n`: a piece ending in CR loses exactly that CR, any other piece is unchanged |
| MiniAtomsOrchestrator.MarkerPrefix | packages/mini-atoms/src/browser/mini-atoms-orchestrator.ts:218 | the maximal leading run of whitespace, `>`, `*`, `-` |
| MiniAtomsOrchestrator.NormalizeLine | packages/mini-atoms/src/browser/mini-atoms-orchestrator.ts:218 | a normalised line is empty or trimmed text that does not start with a marker |
| MiniAtomsOrchestrator.NormalizeBulletSection | packages/mini-atoms/src/browser/mini-atoms-orchestrator.ts:215-220 | every kept line is bullet text; the kept lines are a subsequence of the normalised lines, and every non-empty one is kept as often as it occurs |
| MiniAtomsOrchestrator.EmptySectionHasNoLines | packages/mini-atoms/src/browser/mini-atoms-orchestrator.ts:140-146 | an empty section yields no lines, so an empty capture is treated like a missing one |
| MiniAtomsOrchestrator.ProductTitle | packages/mini-atoms/src/browser/mini-atoms-orchestrator.ts:148 | the title is never empty: "Generated App" for an empty source, otherwise its first 60 characters |
| MiniAtomsOrchestrator.ParseProductSection | packages/mini-atoms/src/browser/mini-atoms-orchestrator.ts:138-158 | absent iff the section yields no lines; otherwise features are the lines, summary the first line, title from the user text (or the summary), no target user |
| MiniAtomsOrchestrator.SortIntoBuckets | packages/mini-atoms/src/browser/mini-atoms-orchestrator.ts:182-191 | the loop puts exactly the state lines, the interaction lines and the remaining lines, each in order, into the three lists |
| MiniAtomsOrchestrator.ParseArchitectureSection | packages/mini-atoms/src/browser/mini-atoms-orchestrator.ts:167-201 | equals the design function: absent iff no lines, layout the first line, the rest sorted by keyword |
| MiniAtomsOrchestrator.ArchitectureDesign | packages/mini-atoms/src/browser/mini-atoms-orchestrator.ts:167-201 | absent iff the section yields no lines; otherwise the layout is the first line and each bucket is a subsequence of the remaining lines |
| MiniAtomsOrchestrator.SaveDescription | packages/mini-atoms/src/browser/mini-atoms-orchestrator.ts:124 | the description is non-empty and trimmed: the trimmed user text, or "From Chat" when that is missing or blank |
| MiniAtomsOrchestrator.EndsWithClosingHtml | packages/mini-atoms/src/browser/mini-atoms-orchestrator.ts:88 | holds iff `</html>`, in any ASCII case, ends somewhere in the text with only whitespace after it |
| MiniAtomsOrchestrator.ClosingTagAtTrailingWs | packages/mini-atoms/src/browser/mini-atoms-orchestrator.ts:88 | such a closing tag can only end where the trailing whitespace begins, so checking there decides the pattern |
| MiniAtomsOrchestrator.LooksTruncated | packages/mini-atoms/src/browser/mini-atoms-orchestrator.ts:88 | the warning condition: longer than 2000 characters and the trimmed HTML has no closing tag followed only by whitespace |
| MiniAtomsOrchestrator.IsIgnored | packages/mini-atoms/src/browser/mini-atoms-orchestrator.ts:50-86 | a response is ignored iff it is incomplete, failed, the fence pattern matches nowhere in it, or the extracted block is empty |
| MiniAtomsOrchestrator.StateFor | packages/mini-atoms/src/browser/mini-atoms-orchestrator.ts:92-106 | the recorded state is keyed by the session, has a spec iff the product section yields lines and a design iff the architecture section does, and holds the HTML and the stored app |
| MiniAtomsOrchestrator.Orchestrator.constructor | packages/mini-atoms/src/browser/mini-atoms-orchestrator.ts:45 | a new orchestrator has no project state |
| MiniAtomsOrchestrator.Orchestrator.GetState | packages/mini-atoms/src/browser/mini-atoms-orchestrator.ts:113-115 | present iff the project has state, and then that state |
| MiniAtomsOrchestrator.Orchestrator.SaveAndPreview | packages/mini-atoms/src/browser/mini-atoms-orchestrator.ts:117-133 | saves a new app with the derived description as current and at the head of the history |
| MiniAtomsOrchestrator.Orchestrator.HandleCompletedChatRequest | packages/mini-atoms/src/browser/mini-atoms-orchestrator.ts:50-108 | incomplete, failed or HTML-less answers change nothing; otherwise the app is saved, the project's whole state is replaced (spec, design, code, stored app), the state's stored app is the current app, and the warning fires iff the HTML is over 2000 characters without a closing tag |
| MiniAtomsOrchestrator.Orchestrator.RecordResponse | packages/mini-atoms/src/browser/mini-atoms-orchestrator.ts:92-107 | the app is saved as current and heads the history; the project's state becomes the parsed spec, the design, the code and the stored app; no other project changes |
| MiniAtomsOrchestratorProperties.SplitJoin | packages/mini-atoms/src/browser/mini-atoms-orchestrator.ts:217 | splitting lines joined by LF gives the lines back |
| MiniAtomsOrchestratorProperties.SplitLinesJoin | packages/mini-atoms/src/browser/mini-atoms-orchestrator.ts:217 | LF-joined lines that hold no LF, and do not end in CR except perhaps the last, split back into exactly those lines |
| MiniAtomsOrchestratorProperties.SplitCrLfJoin | packages/mini-atoms/src/browser/mini-atoms-orchestrator.ts:217 | CR LF-joined lines that hold no LF split back into exactly those lines: the `\r?` removes every CR of a CR LF ending |
| MiniAtomsOrchestratorProperties.CrLfSameLines | packages/mini-atoms/src/browser/mini-atoms-orchestrator.ts:217 | the same lines joined with CR LF and joined with LF split identically, into those lines |
| MiniAtomsOrchestratorProperties.NormalizeBullet | packages/mini-atoms/src/browser/mini-atoms-orchestrator.ts:218 | "- "+x normalises to x for bullet text x |
| MiniAtomsOrchestratorProperties.BulletListRoundTrip | packages/mini-atoms/src/browser/mini-atoms-orchestrator.ts:215-220 | normalising a rendered bullet list gives the items back |
| MiniAtomsOrchestratorProperties.BulletListIsTrimmed | packages/mini-atoms/src/browser/mini-atoms-orchestrator.ts:209 | a rendered bullet list is already trimmed, so the section's trim leaves it whole |
| MiniAtomsOrchestratorProperties.SectionOfBullets | packages/mini-atoms/src/browser/mini-atoms-orchestrator.ts:139-143 | a heading, a bullet list and the next heading give exactly the listed items |
| MiniAtomsOrchestratorProperties.ProductSectionOfBullets | packages/mini-atoms/src/browser/mini-atoms-orchestrator.ts:138-158 | a `## Product` bullet list before the next heading parses to the spec with those features, the first as summary, and the title from the user text |
| MiniAtomsOrchestratorProperties.BucketsPartition | packages/mini-atoms/src/browser/mini-atoms-orchestrator.ts:182-191 | the three lists partition the lines (multisets and lengths add up), each is a subsequence, and a state keyword wins over an interaction keyword |
| MiniAtomsOrchestratorProperties.ArchitecturePartition | packages/mini-atoms/src/browser/mini-atoms-orchestrator.ts:167-201 | absent iff no lines; layout is the first line and the three lists partition the remaining lines |
| MiniAtomsStorage.Take | packages/mini-atoms/src/browser/mini-atoms-storage.ts:35 | `slice(0, n)`: the first min(n, length) elements |
| MiniAtomsStorage.WithoutId | packages/mini-atoms/src/browser/mini-atoms-storage.ts:55 | exactly the entries whose id differs from the given one |
| MiniAtomsStorage.WithNewest | packages/mini-atoms/src/browser/mini-atoms-storage.ts:35 | 1 to 50 entries, the new app first, then only older entries with other ids |
| MiniAtomsStorage.FindById | packages/mini-atoms/src/browser/mini-atoms-storage.ts:51 | a found entry has the id and is the first entry with it; none found means no entry has it |
| MiniAtomsStorage.IndexOfId | packages/mini-atoms/src/browser/mini-atoms-storage.ts:51 | the first index with that id, none earlier, or none at all |
| MiniAtomsStorage.AppStorage.constructor | packages/mini-atoms/src/browser/mini-atoms-storage.ts:23-24 | the store starts from the given slot contents |
| MiniAtomsStorage.AppStorage.ListHistory | packages/mini-atoms/src/browser/mini-atoms-storage.ts:44-47 | the stored list when the slot holds a list; otherwise empty |
| MiniAtomsStorage.AppStorage.GetCurrent | packages/mini-atoms/src/browser/mini-atoms-storage.ts:40-42 | the current slot as it stands; after a save it is the saved app, after deleting its id it is empty |
| MiniAtomsStorage.AppStorage.GetById | packages/mini-atoms/src/browser/mini-atoms-storage.ts:49-52 | a found app is in the history with that id and is its first entry with it; none found means no history entry has it |
| MiniAtomsStorage.AppStorage.SaveCurrent | packages/mini-atoms/src/browser/mini-atoms-storage.ts:26-38 | the new app becomes current and heads the history, older entries with its id dropped, at most 50; it can be found by id |
| MiniAtomsStorage.AppStorage.DeleteById | packages/mini-atoms/src/browser/mini-atoms-storage.ts:54-61 | the history loses every entry with the id; the current app is cleared iff it has that id; the id is no longer found |
| MiniAtomsStorageProperties.WithoutIdFacts | packages/mini-atoms/src/browser/mini-atoms-storage.ts:55 | after the filter the id is absent, the rest is a subsequence, and every other entry keeps its multiplicity |
| MiniAtomsStorageProperties.WithoutIdKeepsDistinct | packages/mini-atoms/src/browser/mini-atoms-storage.ts:55 | filtering keeps ids distinct |
| MiniAtomsStorageProperties.WithNewestFacts | packages/mini-atoms/src/browser/mini-atoms-storage.ts:35 | the new history has 1 to 50 entries, starts with the new app, holds its id once, and the rest is a subsequence of the old history; its exact length |
| MiniAtomsStorageProperties.WithNewestKeepsDistinct | packages/mini-atoms/src/browser/mini-atoms-storage.ts:35 | saving keeps history ids distinct |
| MiniAtomsStorageProperties.LookupAfterSave | packages/mini-atoms/src/browser/mini-atoms-storage.ts:26-52 | below the cap, a save does not change what any other id finds |
| MiniAtomsStorageProperties.FindByIdFilter | packages/mini-atoms/src/browser/mini-atoms-storage.ts:49-55 | a filter that keeps every entry with the id does not change what the id finds |
| LanguageModelService.FindSession | packages/ai-core/src/common/language-model-service.ts:145 | the first session with the id, or none |
| LanguageModelService.FindExchange | packages/ai-core/src/common/language-model-service.ts:155 | the first exchange with the id, or none |
| LanguageModelService.RequestKey | packages/ai-core/src/common/language-model-service.ts:167 | the sub-request id when there is one, the request id otherwise |
| LanguageModelService.SessionWith | packages/ai-core/src/common/language-model-service.ts:154-174 | the session keeps its id, gains at most one exchange, and keeps the ids of its exchanges in place |
| LanguageModelService.Recorded | packages/ai-core/src/common/language-model-service.ts:143-174 | at most one session is added, earlier sessions keep their ids, and the request's session can then be found |
| LanguageModelService.ErrorPart | packages/ai-core/src/common/language-model-service.ts:228 | a text part made of the not-from-the-model marker followed by the error message |
| LanguageModelService.FailureParts | packages/ai-core/src/common/language-model-service.ts:226-228 | one error part exactly when the consumer reads past the end of a failing stream, none otherwise |
| LanguageModelService.FilterMessages | packages/ai-core/src/common/language-model-service.ts:76-86 | no longer than the input, and a message is kept iff it is in the input and its kind is not dropped by the settings |
| LanguageModelService.NewExchangeRequest | packages/ai-core/src/common/language-model-service.ts:166-183 | id is the sub-request id or request id; metadata holds agent and timestamp, the prompt variant only when non-empty, the customised flag when given |
| LanguageModelService.PartBuffer.constructor | packages/ai-core/src/common/language-model-service.ts:115 | the recorded parts start empty |
| LanguageModelService.LanguageModelServiceImpl.constructor | packages/ai-core/src/common/language-model-service.ts:55 | no sessions and no events |
| LanguageModelService.LoggingStream.constructor | packages/ai-core/src/common/language-model-service.ts:115-131 | the wrapper holds the request's part buffer and key and has not run yet |
| LanguageModelService.LanguageModelServiceImpl.Sessions | packages/ai-core/src/common/language-model-service.ts:57-59 | the getter returns the current sessions, which after the setter are the ones installed |
| LanguageModelService.LanguageModelServiceImpl.SetSessions | packages/ai-core/src/common/language-model-service.ts:61-66 | replaces the sessions; a sessions-cleared event iff the new list is empty |
| LanguageModelService.LanguageModelServiceImpl.StoreRequest | packages/ai-core/src/common/language-model-service.ts:143-186 | the sessions become the recorded update with the new exchange request, and exactly one request-added event with its id |
| LanguageModelService.LanguageModelServiceImpl.SendRequest | packages/ai-core/src/common/language-model-service.ts:71-141 | the messages are filtered; a throwing model records nothing; a direct answer is recorded as is; a stream is recorded as a fresh, empty parts buffer, and the returned stream is new, not finished, appends to that buffer and reports under `subRequestId ?? requestId` |
| LanguageModelService.LanguageModelServiceImpl.ConsumeStream | packages/ai-core/src/common/language-model-service.ts:194-286 | the consumer sees the first parts it pulls, each already in the buffer when yielded; a failure adds the error part and is re-raised; once started, the stream finishes and fires exactly one completion event under its request's key; a finished stream yields nothing and fires nothing |
| LanguageModelServiceProperties.FilterMessagesFacts | packages/ai-core/src/common/language-model-service.ts:76-86 | the filtered messages are a subsequence; a message stays iff not thinking with keepThinking false and not a tool call/result with keepToolCalls false; multiplicities are kept |
| LanguageModelServiceProperties.FilterKeepsAllByDefault | packages/ai-core/src/common/language-model-service.ts:76-86 | with neither flag set to false, nothing is removed |
| LanguageModelServiceProperties.FindSessionUpdate | packages/ai-core/src/common/language-model-service.ts:145 | replacing a session by one with the same id does not change any lookup |
| LanguageModelServiceProperties.FindSessionAppend | packages/ai-core/src/common/language-model-service.ts:145-152 | appending a session changes only the lookup of an id not yet present |
| LanguageModelServiceProperties.FindExchangeUpdate | packages/ai-core/src/common/language-model-service.ts:155 | replacing an exchange by one with the same id does not change any lookup |
| LanguageModelServiceProperties.FindExchangeAppend | packages/ai-core/src/common/language-model-service.ts:155-163 | appending an exchange changes only the lookup of an id not yet present |
| LanguageModelServiceProperties.SessionWithLookup | packages/ai-core/src/common/language-model-service.ts:155-174 | recording into a session keeps its id, grows its exchanges by at most one, appends the request to the target exchange, leaves other exchanges alone |
| LanguageModelServiceProperties.StoreRequestLookup | packages/ai-core/src/common/language-model-service.ts:143-174 | after storing, the target exchange gains the request at the end (agent set only on creation), and every other session/exchange lookup is unchanged |
| LanguageModelServiceProperties.StoreRequestShape | packages/ai-core/src/common/language-model-service.ts:145-163 | at most one session is added, at the end; earlier sessions keep their ids and only the target one changes |
| LanguageModelServiceProperties.SessionWithKeepsDistinct | packages/ai-core/src/common/language-model-service.ts:155-163 | recording into a session keeps its exchange ids distinct |
| LanguageModelServiceProperties.StoreRequestKeepsIdsUnique | packages/ai-core/src/common/language-model-service.ts:143-174 | storing keeps session ids, and exchange ids within each session, distinct |
| FrontendChatService.DefaultAgent | packages/ai-chat/src/browser/frontend-chat-service.ts:94-133 | a configured, registered agent wins; otherwise the MiniAtoms agent if registered |
| FrontendChatService.MigrationActions | packages/ai-chat/src/browser/frontend-chat-service.ts:117-124 | at most one action, only for a configured id with no agent: the preference set to MiniAtoms in user scope for `Coder`, a warning naming the id otherwise |
| FrontendChatService.FrontendChatServiceImpl.constructor | packages/ai-chat/src/browser/frontend-chat-service.ts:30-31 | starts from the given registry and preference with no actions |
| FrontendChatService.FrontendChatServiceImpl.GetConfiguredDefaultChatAgent | packages/ai-chat/src/browser/frontend-chat-service.ts:94-133 | returns the default agent, performs the migration actions, changes nothing else |
| FrontendChatService.FrontendChatServiceImpl.InitialAgentSelection | packages/ai-chat/src/browser/frontend-chat-service.ts:40-92 | a mentioned agent defers to the base choice with no lookup; otherwise the default agent if any, else the base choice, after the migration actions |
| Seqs.FilterFacts | packages/mini-atoms/src/browser/mini-atoms-orchestrator.ts:219 | the filter result is no longer than the input, holds only input elements that satisfy the predicate, and holds every one of them |
| Seqs.Filter | packages/mini-atoms/src/browser/mini-atoms-orchestrator.ts:219 | no longer than the input |
| Seqs.FilterIsSubsequence | packages/mini-atoms/src/browser/mini-atoms-orchestrator.ts:219 | a filter result is a subsequence of its input |
| Seqs.FilterAppend | packages/mini-atoms/src/browser/mini-atoms-orchestrator.ts:182-191 | filtering distributes over concatenation |
| Seqs.FilterCount | packages/mini-atoms/src/browser/mini-atoms-storage.ts:55 | a kept element keeps its multiplicity, a dropped one has none |
| Seqs.FilterCounts | packages/mini-atoms/src/browser/mini-atoms-storage.ts:55 | for every element at once: kept elements keep their multiplicity, dropped ones have none |

Members that carry an `ensures` but have no row are proof steps used only inside the rowed
lemmas above, and model no source line of their own:
- CodeExtractor.TrimmedCaptureHasNoFence, and in CodeExtractorProperties: OpeningLine, Parts,
  NoFenceThenLineFeed, LineFeedRegroup and NoFenceInSuffix;
- Sections.HeadingStartsWithLetter and Sections.TrimmedCaptureHasNoZ, and in
  SectionsProperties: LeftmostBound, FoundIffMatches, FoundIsLeftmost, HeadingLineFacts,
  MatchAtStart, Parts, QuietHasNoStop, QuietThenLineFeed, LineFeedRegroup, ClosedByHeading and
  TrimDropsLineFeed;
- MiniAtomsOrchestrator.BucketStep, which advances the bucketing loop by one line;
- in MiniAtomsOrchestratorProperties: Bulleted (builds the `- item` text the lemmas start
  from), CrTerminated (builds the pieces a CR LF join is made of), FirstLineFeed,
  BulletLinesSplit, NormalizeBullets, ProductHeadingLine, SplitLinesAt, JoinCrLfAsJoinLines,
  CrTerminatedHasNoLineFeed, DropAppendedCr and CrLfPieces;
- MiniAtomsStorageProperties.ConsDistinct and MiniAtomsStorageProperties.FindByIdCons;
- Seqs.FilterSnoc, Text.AllWsConcat and Text.Regroup.

## Left out

- Telemetry: the `fetch` calls to the local ingest endpoint and the `console.warn` text. The
  warning is modelled only as the boolean `warnedTruncation`.
- ConsumeStream: does not model the `partCount`, `textPartCount`, `lastPartType` and `hadError`
  counters. They feed only the telemetry.
- The order of events in time. The model cannot express `async`/`await`, cancellation tokens,
  or the interleaving of several requests.
- ConsumeStream: models a consumer that pulls some parts and then stops. A generator that is
  never pulled does not run its `finally`, so no completion event fires. A consumer that stops
  early is modelled as the generator having been closed, so the event fires.
- HandleCompletedChatRequest: the preview widget (`setPreviewHtml`, `refreshFromStorage`) is not
  modelled. It is a UI call that does not affect the stored data.
- AppStorage: the `StorageService` backend is modelled as the two slots it holds. Failures of
  its reads and writes are not modelled.
- Text.AsciiLower: lowercases ASCII only, where JavaScript's `toLowerCase` is Unicode-aware. The
  keywords searched for (`state`, `flow`, and the Chinese words) are unaffected.
- ProductTitle: measures 60 characters, where JavaScript's `slice(0, 60)` counts UTF-16 code
  units.
- LooksTruncated: compares the number of characters with 2000, where `html.length`
  (mini-atoms-orchestrator.ts:88) counts UTF-16 code units, so HTML with characters outside
  the Basic Multilingual Plane can draw the warning in the source and not in the model.
- Aliasing in `language-model-service.ts`:
  - sessions and exchange requests are values;
  - the metadata that lines 176-183 write after the push is part of the pushed value;
  - `SendRequest` returns the filtered request instead of overwriting the caller's `messages`
    array in place.
- The preference write for the `Coder` migration (frontend-chat-service.ts:120) is recorded as
  an action. The write is not awaited, and the preference the model reads stays the same.
- `createSession` and `isPinChatAgentEnabled` (frontend-chat-service.ts:36-38, 135-143) are not
  modelled. They are a UI subscription and a preference read.
- The UI and wiring files are not part of this model: widgets, contributions, the frontend
  module, the layout transformers and the chat integration.
- `language-model.ts`, `language-model-interaction-model.ts` and `mini-atoms-types.ts` are not
  part of this model. Their types are reconstructed from how the core files use them.
- LookupAfterSave: holds only while the history is below its cap. At the cap, the oldest entry
  is dropped.
- ExtractHtml: a fence in the middle of a line closes a block, as in the regular expression.
  There is no separate statement that blocks close only on their own line.
- HandleCompletedChatRequest: parses the architecture section after saving the app, where the
  source parses it at line 96, before the save at line 98. Parsing reads only the answer text, so no result
  changes.
