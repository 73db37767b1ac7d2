/**
 * `LanguageModelServiceImpl`: records every language-model request in a tree of
 * sessions, exchanges and exchange requests, and reports changes on an event emitter.
 * The emitter is the append-only `events` log; the language model is uninterpreted, its
 * answer to a request being a parameter; the clock reading is the parameter `now`.
 */
module LanguageModelService {
  import opened Wrappers
  import opened Seqs

  // ---------------------------------------------------------------------------
  // Requests and responses

  datatype MessageKind = TextMessage | ThinkingMessage | ToolUseMessage | ToolResultMessage | ImageMessage

  /** A chat message; only its kind matters to the service. */
  datatype Message = Message(kind: MessageKind, body: string)

  /** `clientSettings`: each flag may be absent. */
  datatype ClientSettings = ClientSettings(keepThinking: Option<bool>, keepToolCalls: Option<bool>)

  /** The fields of a `UserRequest` the service reads. */
  datatype UserRequest = UserRequest(
    sessionId: string,
    requestId: string,
    subRequestId: Option<string>,
    agentId: Option<string>,
    promptVariantId: Option<string>,
    isPromptVariantCustomized: Option<bool>,
    clientSettings: Option<ClientSettings>,
    messages: seq<Message>)

  /** A part of a streamed response. */
  datatype Part =
    | TextPart(content: string)
    | ToolCallPart(toolCalls: seq<string>)
    | ThinkingPart(thought: string)
    | UsagePart(inputTokens: nat, outputTokens: nat)

  /** The array the stream wrapper appends to, shared with the recorded response. */
  class PartBuffer {
    var parts: seq<Part>

    constructor ()
      ensures parts == []
    {
      parts := [];
    }
  }

  /** What is recorded as the response: a direct response as it is, or the shared part buffer of a stream. */
  datatype RecordedResponse = Direct(text: string) | Streamed(buffer: PartBuffer)

  datatype RequestMetadata = RequestMetadata(
    agent: Option<string>,
    timestamp: int,
    promptVariantId: Option<string>,
    isPromptVariantCustomized: Option<bool>)

  datatype ExchangeRequest = ExchangeRequest(
    id: string,
    request: UserRequest,
    languageModel: string,
    response: RecordedResponse,
    metadata: RequestMetadata)

  /** An exchange; `agent` is its metadata. */
  datatype Exchange = Exchange(id: string, requests: seq<ExchangeRequest>, agent: Option<string>)

  datatype Session = Session(id: string, exchanges: seq<Exchange>)

  datatype SessionEvent = RequestAdded(id: string) | ResponseCompleted(requestId: string) | SessionsCleared

  // ---------------------------------------------------------------------------
  // The message filter of `sendRequest`

  /** A message survives the filter unless the client settings explicitly drop its kind. */
  predicate Kept(settings: Option<ClientSettings>, m: Message) {
    && !(m.kind == ThinkingMessage && settings.Some? && settings.value.keepThinking == Some(false))
    && !((m.kind == ToolResultMessage || m.kind == ToolUseMessage)
         && settings.Some? && settings.value.keepToolCalls == Some(false))
  }

  /** `messages.filter(...)` of `sendRequest`. */
  function FilterMessages(messages: seq<Message>, settings: Option<ClientSettings>): (r: seq<Message>)
    ensures |r| <= |messages|
    ensures forall m :: m in r <==> m in messages && Kept(settings, m)
  {
    FilterFacts(messages, (m: Message) => Kept(settings, m));
    Filter(messages, (m: Message) => Kept(settings, m))
  }

  /** `subRequestId ?? requestId`: the id of the exchange request and of its events. */
  function RequestKey(request: UserRequest): (key: string)
    ensures request.subRequestId.Some? ==> key == request.subRequestId.value
    ensures request.subRequestId.None? ==> key == request.requestId
  {
    request.subRequestId.GetOr(request.requestId)
  }

  // ---------------------------------------------------------------------------
  // The recorded tree

  /** `sessions.find(s => s.id === id)`, as an index. */
  function FindSession(sessions: seq<Session>, id: string): (r: Option<nat>)
    ensures r.Some? ==> r.value < |sessions| && sessions[r.value].id == id
    ensures r.Some? ==> forall j :: 0 <= j < r.value ==> sessions[j].id != id
    ensures r.None? ==> forall j :: 0 <= j < |sessions| ==> sessions[j].id != id
  {
    if sessions == [] then None
    else if sessions[0].id == id then Some(0)
    else match FindSession(sessions[1..], id)
      case None => None
      case Some(k) => Some(k + 1)
  }

  /** `exchanges.find(r => r.id === id)`, as an index. */
  function FindExchange(exchanges: seq<Exchange>, id: string): (r: Option<nat>)
    ensures r.Some? ==> r.value < |exchanges| && exchanges[r.value].id == id
    ensures r.Some? ==> forall j :: 0 <= j < r.value ==> exchanges[j].id != id
    ensures r.None? ==> forall j :: 0 <= j < |exchanges| ==> exchanges[j].id != id
  {
    if exchanges == [] then None
    else if exchanges[0].id == id then Some(0)
    else match FindExchange(exchanges[1..], id)
      case None => None
      case Some(k) => Some(k + 1)
  }

  /**
   * The exchange request `storeRequest` records, with its metadata as it stands once
   * `storeRequest` returns.
   */
  function NewExchangeRequest(modelId: string, request: UserRequest, response: RecordedResponse, now: int)
    : (er: ExchangeRequest)
    ensures er.id == RequestKey(request) && er.request == request
    ensures er.languageModel == modelId && er.response == response
    ensures er.metadata.agent == request.agentId && er.metadata.timestamp == now
    ensures er.metadata.promptVariantId.Some? <==> request.promptVariantId.Some? && request.promptVariantId.value != ""
    ensures er.metadata.promptVariantId.Some? ==> er.metadata.promptVariantId == request.promptVariantId
    ensures er.metadata.isPromptVariantCustomized == request.isPromptVariantCustomized
  {
    var variant := if request.promptVariantId.Some? && request.promptVariantId.value != "" then request.promptVariantId else None;
    ExchangeRequest(RequestKey(request), request, modelId, response,
      RequestMetadata(request.agentId, now, variant, request.isPromptVariantCustomized))
  }

  /** The exchange `exchangeId` of `session` with `er` appended, created first when missing. */
  function SessionWith(session: Session, exchangeId: string, agent: Option<string>, er: ExchangeRequest): (r: Session)
    ensures r.id == session.id
    ensures |session.exchanges| <= |r.exchanges| <= |session.exchanges| + 1
    ensures forall j :: 0 <= j < |session.exchanges| ==> r.exchanges[j].id == session.exchanges[j].id
  {
    match FindExchange(session.exchanges, exchangeId)
    case None => session.(exchanges := session.exchanges + [Exchange(exchangeId, [er], agent)])
    case Some(j) =>
      var ex := session.exchanges[j];
      session.(exchanges := session.exchanges[j := ex.(requests := ex.requests + [er])])
  }

  /** The tree after `storeRequest` records `er` for `request`: find or create, then append. */
  function Recorded(sessions: seq<Session>, request: UserRequest, er: ExchangeRequest): (r: seq<Session>)
    ensures |sessions| <= |r| <= |sessions| + 1
    ensures forall i :: 0 <= i < |sessions| ==> r[i].id == sessions[i].id
    ensures FindSession(r, request.sessionId).Some?
  {
    match FindSession(sessions, request.sessionId)
    case None =>
      var r := sessions + [SessionWith(Session(request.sessionId, []), request.requestId, request.agentId, er)];
      assert r[|sessions|].id == request.sessionId;
      r
    case Some(i) =>
      var r := sessions[i := SessionWith(sessions[i], request.requestId, request.agentId, er)];
      assert r[i].id == request.sessionId;
      r
  }

  /** The outcome of `languageModel.request(...)`. */
  datatype ModelOutcome = Threw(error: string) | Answered(text: string) | StreamOpened

  /**
   * The generator `createLoggingAsyncIterable` returns for one request: it appends to
   * `buffer`, reports completion under `requestKey`, and runs at most once.
   */
  class LoggingStream {
    const buffer: PartBuffer
    const requestKey: string
    /** The generator has run its `finally`; iterating it again yields nothing. */
    var finished: bool

    constructor (buffer: PartBuffer, requestKey: string)
      ensures this.buffer == buffer && this.requestKey == requestKey && !finished
    {
      this.buffer := buffer;
      this.requestKey := requestKey;
      finished := false;
    }
  }

  /** What `sendRequest` gives back: the error it rethrows, the direct response, or the wrapped stream. */
  datatype SendResult = Raised(error: string) | DirectAnswer(text: string) | Streaming(stream: LoggingStream)

  /** What the error part starts with, marking it as not coming from the model. */
  const ErrorPrefix: string := "[NOT FROM LLM] An error occurred: "

  /** The text part recording a stream failure: the marker, then the error message. */
  function ErrorPart(message: string): (p: Part)
    ensures p.TextPart? && |p.content| == |ErrorPrefix| + |message|
    ensures p.content[..|ErrorPrefix|] == ErrorPrefix && p.content[|ErrorPrefix|..] == message
  {
    TextPart(ErrorPrefix + message)
  }

  /** The error part is added only when the consumer asked past the end of a failing stream. */
  function FailureParts(upstream: seq<Part>, failure: Option<string>, pulls: nat): (r: seq<Part>)
    ensures |r| <= 1
    ensures r != [] <==> pulls > |upstream| && failure.Some?
    ensures r != [] ==> r[0] == ErrorPart(failure.value)
  {
    if pulls > |upstream| && failure.Some? then [ErrorPart(failure.value)] else []
  }

  function Min(a: nat, b: nat): nat {
    if a <= b then a else b
  }

  class LanguageModelServiceImpl {
    /** `_sessions` */
    var sessions: seq<Session>
    /** Every event fired on `onSessionChanged`, oldest first. */
    var events: seq<SessionEvent>

    constructor ()
      ensures sessions == [] && events == []
    {
      sessions := [];
      events := [];
    }

    /** The `sessions` getter. */
    function Sessions(): (r: seq<Session>)
      reads this
      ensures r == sessions
    {
      sessions
    }

    /** The `sessions` setter: installing an empty list fires `sessionsCleared`. */
    method SetSessions(newSessions: seq<Session>)
      modifies this
      ensures sessions == newSessions && Sessions() == newSessions
      ensures events == old(events) + (if newSessions == [] then [SessionsCleared] else [])
    {
      sessions := newSessions;
      if |newSessions| == 0 {
        events := events + [SessionsCleared];
      }
    }

    /** `storeRequest(languageModel, request, response)` */
    method StoreRequest(modelId: string, request: UserRequest, response: RecordedResponse, now: int)
      modifies this
      ensures sessions == Recorded(old(sessions), request, NewExchangeRequest(modelId, request, response, now))
      ensures events == old(events) + [RequestAdded(RequestKey(request))]
    {
      var si := FindSession(sessions, request.sessionId);
      var index: nat;
      var session: Session;
      if si.None? {
        session := Session(request.sessionId, []);
        sessions := sessions + [session];
        index := |sessions| - 1;
      } else {
        index := si.value;
        session := sessions[index];
      }
      var er := NewExchangeRequest(modelId, request, response, now);
      session := SessionWith(session, request.requestId, request.agentId, er);
      sessions := sessions[index := session];
      events := events + [RequestAdded(RequestKey(request))];
    }

    /**
     * `sendRequest(languageModel, request)`: filter the messages, ask the model, wrap a
     * stream around a fresh part buffer, and record. A model that throws leaves
     * everything as it was.
     */
    method SendRequest(modelId: string, request: UserRequest, outcome: ModelOutcome, now: int)
      returns (result: SendResult, filtered: UserRequest)
      modifies this
      ensures filtered == request.(messages := FilterMessages(request.messages, request.clientSettings))
      ensures outcome.Threw? ==>
        result == Raised(outcome.error) && sessions == old(sessions) && events == old(events)
      ensures outcome.Answered? ==>
        && result == DirectAnswer(outcome.text)
        && sessions == Recorded(old(sessions), filtered, NewExchangeRequest(modelId, filtered, Direct(outcome.text), now))
        && events == old(events) + [RequestAdded(RequestKey(request))]
      ensures outcome.StreamOpened? ==>
        && result.Streaming? && fresh(result.stream) && fresh(result.stream.buffer)
        && result.stream.buffer.parts == [] && !result.stream.finished
        && result.stream.requestKey == RequestKey(request)
        && sessions == Recorded(old(sessions), filtered, NewExchangeRequest(modelId, filtered, Streamed(result.stream.buffer), now))
        && events == old(events) + [RequestAdded(RequestKey(request))]
    {
      filtered := request.(messages := FilterMessages(request.messages, request.clientSettings));
      match outcome
      case Threw(error) =>
        result := Raised(error);
      case Answered(text) =>
        StoreRequest(modelId, filtered, Direct(text), now);
        result := DirectAnswer(text);
      case StreamOpened =>
        var buffer := new PartBuffer();
        var stream := new LoggingStream(buffer, RequestKey(request));
        StoreRequest(modelId, filtered, Streamed(buffer), now);
        result := Streaming(stream);
    }

    /**
     * A consumer draining `stream`, the wrapper `createLoggingAsyncIterable` puts around
     * `upstream` (which raises `failure`, if any, after its last part), stopping once it
     * has received `pulls` parts. Returns the parts it received and the error raised to
     * it; `bufferAtYield[k]` is the buffer as it stands when part `k` is handed over. A
     * generator that has finished yields nothing and does not report completion again.
     */
    method ConsumeStream(stream: LoggingStream, upstream: seq<Part>, failure: Option<string>, pulls: nat)
      returns (seen: seq<Part>, raised: Option<string>, ghost bufferAtYield: seq<seq<Part>>)
      modifies this, stream, stream.buffer
      ensures stream.finished == (old(stream.finished) || pulls >= 1)
      ensures old(stream.finished) ==>
        && seen == [] && raised == None && bufferAtYield == []
        && stream.buffer.parts == old(stream.buffer.parts) && events == old(events)
      ensures !old(stream.finished) ==>
        && seen == upstream[..Min(pulls, |upstream|)]
        && raised == (if pulls > |upstream| then failure else None)
        && stream.buffer.parts == old(stream.buffer.parts) + seen + FailureParts(upstream, failure, pulls)
        && |bufferAtYield| == |seen|
        && (forall k :: 0 <= k < |seen| ==> bufferAtYield[k] == old(stream.buffer.parts) + seen[..k + 1])
        && events == old(events) + (if pulls >= 1 then [ResponseCompleted(stream.requestKey)] else [])
      ensures sessions == old(sessions)
    {
      seen, raised, bufferAtYield := [], None, [];
      if stream.finished || pulls == 0 {
        // a generator that is never pulled never starts, so its `finally` never runs
        return;
      }
      var buffer := stream.buffer;
      var i := 0;
      while i < |upstream| && i < pulls
        invariant 0 <= i <= Min(pulls, |upstream|)
        invariant seen == upstream[..i]
        invariant buffer.parts == old(buffer.parts) + seen
        invariant |bufferAtYield| == i
        invariant forall k :: 0 <= k < i ==> bufferAtYield[k] == old(buffer.parts) + seen[..k + 1]
        invariant events == old(events) && sessions == old(sessions) && !stream.finished
      {
        var part := upstream[i];
        buffer.parts := buffer.parts + [part];
        // yield
        seen := seen + [part];
        bufferAtYield := bufferAtYield + [buffer.parts];
        assert seen[..i + 1] == seen;
        i := i + 1;
      }
      if pulls > |upstream| && failure.Some? {
        buffer.parts := buffer.parts + [ErrorPart(failure.value)];
        raised := failure;
      }
      // finally
      events := events + [ResponseCompleted(stream.requestKey)];
      stream.finished := true;
    }
  }
}

/** What the message filter and `storeRequest` promise, stated over the model above. */
module LanguageModelServiceProperties {
  import opened Wrappers
  import opened Seqs
  import opened LanguageModelService

  /** The explicit `keepThinking` flag, if any. */
  function KeepThinking(settings: Option<ClientSettings>): Option<bool> {
    if settings.Some? then settings.value.keepThinking else None
  }

  /** The explicit `keepToolCalls` flag, if any. */
  function KeepToolCalls(settings: Option<ClientSettings>): Option<bool> {
    if settings.Some? then settings.value.keepToolCalls else None
  }

  /**
   * Thinking messages are dropped iff `keepThinking === false`, tool messages iff
   * `keepToolCalls === false`; every other message is kept, as often as it occurs and in
   * its order.
   */
  lemma FilterMessagesFacts(messages: seq<Message>, settings: Option<ClientSettings>, m: Message)
    ensures IsSubsequence(FilterMessages(messages, settings), messages)
    ensures m in FilterMessages(messages, settings) <==>
      && m in messages
      && (m.kind == ThinkingMessage ==> KeepThinking(settings) != Some(false))
      && (m.kind == ToolUseMessage || m.kind == ToolResultMessage ==> KeepToolCalls(settings) != Some(false))
    ensures multiset(FilterMessages(messages, settings))[m] ==
      if Kept(settings, m) then multiset(messages)[m] else 0
  {
    var keep := (x: Message) => Kept(settings, x);
    assert FilterMessages(messages, settings) == Filter(messages, keep);
    FilterIsSubsequence(messages, keep);
    FilterCount(messages, keep, m);
  }

  /** Without an explicit `false` flag the filter keeps the messages as they are. */
  lemma FilterKeepsAllByDefault(messages: seq<Message>, settings: Option<ClientSettings>)
    requires KeepThinking(settings) != Some(false) && KeepToolCalls(settings) != Some(false)
    ensures FilterMessages(messages, settings) == messages
  {
    var keep := (x: Message) => Kept(settings, x);
    assert FilterMessages(messages, settings) == Filter(messages, keep);
    FilterAll(messages, keep);
  }

  lemma {:induction false} FindSessionUpdate(a: seq<Session>, i: nat, s: Session, id: string)
    requires i < |a| && s.id == a[i].id
    ensures FindSession(a[i := s], id) == FindSession(a, id)
  {
    if i > 0 {
      FindSessionUpdate(a[1..], i - 1, s, id);
      assert a[i := s][1..] == a[1..][i - 1 := s];
    }
  }

  lemma {:induction false} FindSessionAppend(a: seq<Session>, s: Session, id: string)
    ensures FindSession(a + [s], id) ==
      if FindSession(a, id).Some? then FindSession(a, id) else if s.id == id then Some(|a|) else None
  {
    if a != [] {
      FindSessionAppend(a[1..], s, id);
      assert (a + [s])[1..] == a[1..] + [s];
    }
  }

  lemma {:induction false} FindExchangeUpdate(a: seq<Exchange>, i: nat, e: Exchange, id: string)
    requires i < |a| && e.id == a[i].id
    ensures FindExchange(a[i := e], id) == FindExchange(a, id)
  {
    if i > 0 {
      FindExchangeUpdate(a[1..], i - 1, e, id);
      assert a[i := e][1..] == a[1..][i - 1 := e];
    }
  }

  lemma {:induction false} FindExchangeAppend(a: seq<Exchange>, e: Exchange, id: string)
    ensures FindExchange(a + [e], id) ==
      if FindExchange(a, id).Some? then FindExchange(a, id) else if e.id == id then Some(|a|) else None
  {
    if a != [] {
      FindExchangeAppend(a[1..], e, id);
      assert (a + [e])[1..] == a[1..] + [e];
    }
  }

  /** The exchange a lookup by session id and exchange id finds, as `storeRequest` looks. */
  function ExchangeAt(sessions: seq<Session>, sessionId: string, exchangeId: string): Option<Exchange> {
    match FindSession(sessions, sessionId)
    case None => None
    case Some(i) =>
      match FindExchange(sessions[i].exchanges, exchangeId)
      case None => None
      case Some(j) => Some(sessions[i].exchanges[j])
  }

  /** The exchange `storeRequest` leaves behind, given the one it found, if any. */
  function Appended(found: Option<Exchange>, exchangeId: string, agent: Option<string>, er: ExchangeRequest): Exchange {
    match found
    case None => Exchange(exchangeId, [er], agent)
    case Some(ex) => ex.(requests := ex.requests + [er])
  }

  /** Inside one session: the target exchange gets `er` appended last; every other lookup is unchanged. */
  lemma SessionWithLookup(session: Session, exchangeId: string, agent: Option<string>, er: ExchangeRequest, id: string)
    ensures SessionWith(session, exchangeId, agent, er).id == session.id
    ensures |SessionWith(session, exchangeId, agent, er).exchanges| ==
      |session.exchanges| + (if FindExchange(session.exchanges, exchangeId).None? then 1 else 0)
    ensures var after := SessionWith(session, exchangeId, agent, er).exchanges;
      var found := FindExchange(session.exchanges, id);
      if id == exchangeId then
        && FindExchange(after, id).Some?
        && after[FindExchange(after, id).value] ==
             Appended(if found.Some? then Some(session.exchanges[found.value]) else None, exchangeId, agent, er)
      else FindExchange(after, id) == found && (found.Some? ==> after[found.value] == session.exchanges[found.value])
  {
    var exs := session.exchanges;
    match FindExchange(exs, exchangeId)
    case None =>
      FindExchangeAppend(exs, Exchange(exchangeId, [er], agent), id);
    case Some(j) =>
      FindExchangeUpdate(exs, j, exs[j].(requests := exs[j].requests + [er]), id);
  }

  /**
   * `storeRequest` appends the new exchange request last to the exchange it finds or
   * creates (a created exchange takes the request's agent as its metadata), and every
   * other (session, exchange) lookup gives what it gave before.
   */
  lemma StoreRequestLookup(sessions: seq<Session>, request: UserRequest, er: ExchangeRequest, sessionId: string, exchangeId: string)
    ensures var after := Recorded(sessions, request, er);
      if sessionId == request.sessionId && exchangeId == request.requestId then
        ExchangeAt(after, sessionId, exchangeId) ==
          Some(Appended(ExchangeAt(sessions, sessionId, exchangeId), exchangeId, request.agentId, er))
      else ExchangeAt(after, sessionId, exchangeId) == ExchangeAt(sessions, sessionId, exchangeId)
  {
    var sid := request.sessionId;
    match FindSession(sessions, sid)
    case None =>
      var created := SessionWith(Session(sid, []), request.requestId, request.agentId, er);
      SessionWithLookup(Session(sid, []), request.requestId, request.agentId, er, exchangeId);
      FindSessionAppend(sessions, created, sessionId);
    case Some(i) =>
      var updated := SessionWith(sessions[i], request.requestId, request.agentId, er);
      SessionWithLookup(sessions[i], request.requestId, request.agentId, er, exchangeId);
      FindSessionUpdate(sessions, i, updated, sessionId);
  }

  /** `storeRequest` adds at most one session, at the end, and changes no other session. */
  lemma StoreRequestShape(sessions: seq<Session>, request: UserRequest, er: ExchangeRequest)
    ensures var after := Recorded(sessions, request, er);
      var found := FindSession(sessions, request.sessionId);
      && |after| == |sessions| + (if found.None? then 1 else 0)
      && (forall i :: 0 <= i < |sessions| && found != Some(i) ==> after[i] == sessions[i])
      && (found.None? ==> after[|sessions|].id == request.sessionId && |after[|sessions|].exchanges| == 1)
      && (found.Some? ==> after[found.value].id == request.sessionId)
      && (found.Some? ==>
            |sessions[found.value].exchanges| <= |after[found.value].exchanges| <= |sessions[found.value].exchanges| + 1)
  {
    var sid := request.sessionId;
    match FindSession(sessions, sid)
    case None =>
      SessionWithLookup(Session(sid, []), request.requestId, request.agentId, er, request.requestId);
    case Some(i) =>
      SessionWithLookup(sessions[i], request.requestId, request.agentId, er, request.requestId);
  }

  predicate DistinctSessionIds(sessions: seq<Session>) {
    forall i, j :: 0 <= i < j < |sessions| ==> sessions[i].id != sessions[j].id
  }

  predicate DistinctExchangeIds(exchanges: seq<Exchange>) {
    forall i, j :: 0 <= i < j < |exchanges| ==> exchanges[i].id != exchanges[j].id
  }

  /** Session ids are unique, and so are exchange ids within each session. */
  predicate UniqueIds(sessions: seq<Session>) {
    DistinctSessionIds(sessions) && forall i :: 0 <= i < |sessions| ==> DistinctExchangeIds(sessions[i].exchanges)
  }

  lemma SessionWithKeepsDistinct(session: Session, exchangeId: string, agent: Option<string>, er: ExchangeRequest)
    requires DistinctExchangeIds(session.exchanges)
    ensures DistinctExchangeIds(SessionWith(session, exchangeId, agent, er).exchanges)
  {
    var exs := session.exchanges;
    var after := SessionWith(session, exchangeId, agent, er).exchanges;
    match FindExchange(exs, exchangeId)
    case None =>
      assert after == exs + [Exchange(exchangeId, [er], agent)];
      forall i, j | 0 <= i < j < |after| ensures after[i].id != after[j].id {
        if j == |exs| {
          assert after[i] == exs[i];
        }
      }
    case Some(k) =>
      assert forall i :: 0 <= i < |after| ==> after[i].id == exs[i].id;
  }

  /** Find-or-create keeps session ids, and exchange ids within a session, unique. */
  lemma StoreRequestKeepsIdsUnique(sessions: seq<Session>, request: UserRequest, er: ExchangeRequest)
    requires UniqueIds(sessions)
    ensures UniqueIds(Recorded(sessions, request, er))
  {
    var sid := request.sessionId;
    var after := Recorded(sessions, request, er);
    match FindSession(sessions, sid)
    case None =>
      var created := SessionWith(Session(sid, []), request.requestId, request.agentId, er);
      SessionWithLookup(Session(sid, []), request.requestId, request.agentId, er, request.requestId);
      SessionWithKeepsDistinct(Session(sid, []), request.requestId, request.agentId, er);
      assert after == sessions + [created];
      forall i, j | 0 <= i < j < |after| ensures after[i].id != after[j].id {
        if j == |sessions| {
          assert after[i] == sessions[i];
        }
      }
      forall i | 0 <= i < |after| ensures DistinctExchangeIds(after[i].exchanges) {
        if i < |sessions| {
          assert after[i] == sessions[i];
        }
      }
    case Some(k) =>
      var updated := SessionWith(sessions[k], request.requestId, request.agentId, er);
      SessionWithLookup(sessions[k], request.requestId, request.agentId, er, request.requestId);
      SessionWithKeepsDistinct(sessions[k], request.requestId, request.agentId, er);
      assert forall i :: 0 <= i < |after| ==> after[i].id == sessions[i].id;
  }
}
