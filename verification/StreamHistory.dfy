/** What a stream holds and has done, read off the events it has taken: laws of every run, with no
    assumption on what Envoy sends. */
module StreamHistory {
  import opened Text
  import opened Stream

  function Flatten(chunks: seq<seq<byte>>): seq<byte> {
    if chunks == [] then [] else Flatten(chunks[..|chunks| - 1]) + chunks[|chunks| - 1]
  }

  /** The body chunks among the events. */
  function Chunks(events: seq<Event>): seq<seq<byte>> {
    if events == [] then []
    else
      var earlier := Chunks(events[..|events| - 1]);
      match events[|events| - 1]
      case Receive(RequestBody(chunk, _)) => earlier + [chunk]
      case _ => earlier
  }

  /** The number of chunks up to and including the last one that did not fit behind those since the one before it. */
  function LastCut(limit: int, chunks: seq<seq<byte>>): (k: nat)
    ensures k <= |chunks|
  {
    if chunks == [] then 0
    else
      var k := LastCut(limit, chunks[..|chunks| - 1]);
      if |Flatten(chunks[k..])| > limit then |chunks| else k
  }

  function BufferOf(limit: int, chunks: seq<seq<byte>>): seq<byte> {
    Flatten(chunks[LastCut(limit, chunks)..])
  }

  predicate LastOverflows(limit: int, chunks: seq<seq<byte>>) {
    chunks != [] && LastCut(limit, chunks) == |chunks|
  }

  /** The last request headers, empty before the first. */
  function LastHeaders(events: seq<Event>): seq<Header> {
    if events == [] then []
    else match events[|events| - 1]
      case Receive(RequestHeaders(headers)) => headers
      case _ => LastHeaders(events[..|events| - 1])
  }

  /** The method a request names, and the authority; the pseudo-header goes before its fallback. */
  function MethodHeader(headers: seq<Header>): string {
    if First(headers, ":method") != "" then First(headers, ":method") else First(headers, "method")
  }

  function Authority(headers: seq<Header>): string {
    if First(headers, ":authority") != "" then First(headers, ":authority") else First(headers, "host")
  }

  lemma LowerOrElse(a: string, b: string)
    ensures OrElse(ToLower(a), ToLower(b)) == ToLower(if a != "" then a else b)
  {
  }

  /** What the handler reads of a header message, in terms of its first values. */
  lemma ReadMeaning(headers: seq<Header>)
    ensures var q := Read(headers);
            && q.httpMethod ==
               ToLower(if First(headers, ":method") != "" then First(headers, ":method") else First(headers, "method"))
            && q.host ==
               ToLower(if First(headers, ":authority") != "" then First(headers, ":authority") else First(headers, "host"))
            && q.contentType == First(headers, "content-type")
            && (q.configPath <==> First(headers, ":path") == "/.well-known/ohttp-configs")
            && (q.hasLength <==> First(headers, "content-length") !in {"", "0"})
            && (q.acceptsKeys <==> ToLower(First(headers, "accept")) == "application/ohttp-keys")
  {
    LowerOrElse(First(headers, ":method"), First(headers, "method"));
    LowerOrElse(First(headers, ":authority"), First(headers, "host"));
  }

  predicate AsksForConfig(e: Event) {
    e.Receive? && e.message.RequestHeaders? && Read(e.message.headers).configPath
  }

  predicate ConfigSeen(events: seq<Event>) {
    exists i :: 0 <= i < |events| && AsksForConfig(events[i])
  }

  predicate EndsStream(e: Event) {
    e.Receive? && e.message.RequestBody? && e.message.endOfStream
  }

  function EndCount(events: seq<Event>): nat {
    if events == [] then 0
    else EndCount(events[..|events| - 1]) + if EndsStream(events[|events| - 1]) then 1 else 0
  }

  /** A content type the relay takes: none, or OHTTP's in any case. */
  predicate OhttpType(contentType: string) {
    contentType == "" || ToLower(contentType) == OHTTP_REQ
  }

  lemma OhttpTypeIsNotForeign(contentType: string)
    ensures OhttpType(contentType) <==> !Foreign(contentType)
  {
    assert ToLower(OHTTP_REQ) == OHTTP_REQ;
  }

  /** The call a forward makes at this point: the last headers and the bytes since the last overflow. */
  function CallFor(limit: int, events: seq<Event>): RelayCall {
    var q := Read(LastHeaders(events));
    RelayCall(q.host, BufferOf(limit, Chunks(events)),
              if OhttpType(q.contentType) then OHTTP_REQ else q.contentType, q.httpMethod)
  }

  /** The last event closes the body, fits, and no key configuration was ever asked for. */
  predicate Forwards(limit: int, events: seq<Event>) {
    events != [] && EndsStream(events[|events| - 1]) && !LastOverflows(limit, Chunks(events)) && !ConfigSeen(events)
  }

  function Relays(limit: int, events: seq<Event>): seq<RelayCall> {
    if events == [] then []
    else
      Relays(limit, events[..|events| - 1]) +
      if Forwards(limit, events) then [CallFor(limit, events)] else []
  }

  /** An outcome whose bytes go to the client: a 2xx with a readable body. */
  predicate Good(o: RelayOutcome) {
    o.Answered? && 200 <= o.status < 300
  }

  /** One traffic record for each such outcome. */
  function TrafficOf(env: Env, calls: seq<RelayCall>): seq<Traffic> {
    if calls == [] then []
    else
      var before, call := calls[..|calls| - 1], calls[|calls| - 1];
      var o := env.relay(before, call);
      TrafficOf(env, before) + if Good(o) then [Traffic(call.host, |call.body|, |o.body|)] else []
  }

  // What the stream answers.

  /** A plain-text answer: a status, and the reason phrase of a code. */
  function Say(env: Env, status: int, code: int): Response {
    var phrase := env.statusText(code);
    ImmediateResponse(status, "text/plain", if phrase == [] then [69, 114, 114, 111, 114] else phrase)
  }

  /** The answer to a header message, if it gets one. */
  function HeadersAnswer(env: Env, fetched: seq<string>, q: Steering): Option<Response> {
    if q.configPath then
      if q.httpMethod != "get" then Some(Say(env, 405, 405))
      else if !q.acceptsKeys then Some(Say(env, 400, 400))
      else match env.keyConfig(fetched, q.host)
        case KeyConfig(bytes) => Some(ImmediateResponse(200, OHTTP_KEYS, bytes))
        case KeyConfigFailed => Some(Say(env, 500, 500))
    else if q.httpMethod != "post" then Some(Say(env, 405, 405))
    else if !OhttpType(q.contentType) then Some(Say(env, 500, 415))
    else if !q.hasLength then Some(Say(env, 500, 411))
    else None
  }

  /** The answer to a forwarded request: the bytes of a 2xx, and nothing of any other outcome. */
  function Passed(env: Env, o: RelayOutcome): Response {
    if Good(o) then ImmediateResponse(200, OHTTP_RES, o.body) else Say(env, 502, 502)
  }

  predicate WantsKeys(q: Steering) {
    q.configPath && q.httpMethod == "get" && q.acceptsKeys
  }

  /** The hosts whose keys are fetched. */
  function Fetches(events: seq<Event>): seq<string> {
    if events == [] then []
    else
      Fetches(events[..|events| - 1]) +
      match events[|events| - 1]
      case Receive(RequestHeaders(headers)) => if WantsKeys(Read(headers)) then [Read(headers).host] else []
      case _ => []
  }

  /** The answer to the last event. */
  function Answer(env: Env, events: seq<Event>): Option<Response>
    requires events != []
  {
    var earlier := events[..|events| - 1];
    match events[|events| - 1]
    case Receive(RequestHeaders(headers)) => HeadersAnswer(env, Fetches(earlier), Read(headers))
    case Receive(RequestBody(_, _)) =>
      if LastOverflows(env.limit, Chunks(events)) then Some(Say(env, 413, 413))
      else if Forwards(env.limit, events) then
        Some(Passed(env, env.relay(Relays(env.limit, earlier), CallFor(env.limit, events))))
      else None
    case _ => None
  }

  function Answers(env: Env, events: seq<Event>): seq<Response> {
    if events == [] then []
    else
      Answers(env, events[..|events| - 1]) +
      if Answer(env, events).Some? then [Answer(env, events).value] else []
  }

  /** How the last event ends the stream, if it does. */
  function Ending(env: Env, events: seq<Event>): Option<Exit> {
    if events == [] then None
    else match events[|events| - 1]
      case ContextDone => Some(Cancelled)
      case EndOfInput => Some(Clean)
      case RecvFailed => Some(Failed("recv_error"))
      case Receive(Other) => Some(Failed("unknown_request_type"))
      case Receive(_) =>
        if EndsStream(events[|events| - 1]) && !LastOverflows(env.limit, Chunks(events)) && ConfigSeen(events) then
          Some(Failed("process_error"))
        else if Answer(env, events).Some? && !env.sendOk(|Answers(env, events[..|events| - 1])|) then
          Some(Failed("send_error"))
        else None
  }

  function ErrorsOf(ending: Option<Exit>): seq<string> {
    match ending
    case Some(Failed(reason)) => [reason]
    case _ => []
  }

  function SentBytes(sent: seq<Response>): nat {
    if sent == [] then 0 else SentBytes(sent[..|sent| - 1]) + |sent[|sent| - 1].body|
  }

  function LastStatus(sent: seq<Response>): int {
    if sent == [] then 200 else sent[|sent| - 1].status
  }

  /** The whole state, told from the taken events alone. */
  function Account(env: Env, h: seq<Event>): State {
    State(AccountOfRequest(env, h), AccountOfMeters(env, h), AccountOfTrace(env, h), Ending(env, h))
  }

  function AccountOfRequest(env: Env, h: seq<Event>): StreamState {
    var q := Read(LastHeaders(h));
    StreamState(q.host, ConfigSeen(h), q.contentType, q.httpMethod, BufferOf(env.limit, Chunks(h)))
  }

  function AccountOfMeters(env: Env, h: seq<Event>): Meters {
    Meters(|Flatten(Chunks(h))|, SentBytes(Answers(env, h)), LastStatus(Answers(env, h)))
  }

  function AccountOfTrace(env: Env, h: seq<Event>): Trace {
    Trace(Relays(env.limit, h), Fetches(h), Answers(env, h), TrafficOf(env, Relays(env.limit, h)), ErrorsOf(Ending(env, h)))
  }

  lemma ChunksSnoc(h: seq<Event>, e: Event)
    ensures Chunks(h + [e]) ==
            if e.Receive? && e.message.RequestBody? then Chunks(h) + [e.message.body] else Chunks(h)
  {
    assert (h + [e])[..|h|] == h;
  }

  lemma LastHeadersSnoc(h: seq<Event>, e: Event)
    ensures LastHeaders(h + [e]) ==
            if e.Receive? && e.message.RequestHeaders? then e.message.headers else LastHeaders(h)
  {
    assert (h + [e])[..|h|] == h;
  }

  lemma RelaysSnoc(limit: int, h: seq<Event>, e: Event)
    ensures Relays(limit, h + [e]) ==
            Relays(limit, h) + if Forwards(limit, h + [e]) then [CallFor(limit, h + [e])] else []
  {
    assert (h + [e])[..|h|] == h;
  }

  lemma ConfigSeenSnoc(h: seq<Event>, e: Event)
    ensures ConfigSeen(h + [e]) == (ConfigSeen(h) || AsksForConfig(e))
  {
    if ConfigSeen(h) {
      var i :| 0 <= i < |h| && AsksForConfig(h[i]);
      assert (h + [e])[i] == h[i];
    }
    assert (h + [e])[|h|] == e;
  }

  /** Appending a chunk either grows the buffer or, past the limit, empties it. */
  lemma BufferSnoc(limit: int, chunks: seq<seq<byte>>, chunk: seq<byte>)
    ensures LastOverflows(limit, chunks + [chunk]) <==> |BufferOf(limit, chunks)| + |chunk| > limit
    ensures BufferOf(limit, chunks + [chunk]) ==
            if LastOverflows(limit, chunks + [chunk]) then [] else BufferOf(limit, chunks) + chunk
  {
    var all := chunks + [chunk];
    var k := LastCut(limit, chunks);
    assert all[..|all| - 1] == chunks;
    assert all[k..][..|all[k..]| - 1] == chunks[k..];
    assert all[|all|..] == [];
  }

  lemma FlattenSnoc(chunks: seq<seq<byte>>, chunk: seq<byte>)
    ensures Flatten(chunks + [chunk]) == Flatten(chunks) + chunk
  {
    assert (chunks + [chunk])[..|chunks|] == chunks;
  }

  lemma FetchesSnoc(h: seq<Event>, e: Event)
    ensures Fetches(h + [e]) == Fetches(h) +
            match e
            case Receive(RequestHeaders(headers)) => if WantsKeys(Read(headers)) then [Read(headers).host] else []
            case _ => []
  {
    assert (h + [e])[..|h|] == h;
  }

  lemma AnswersSnoc(env: Env, h: seq<Event>, e: Event)
    ensures Answers(env, h + [e]) == Answers(env, h) +
            if Answer(env, h + [e]).Some? then [Answer(env, h + [e]).value] else []
  {
    assert (h + [e])[..|h|] == h;
  }

  lemma TrafficSnoc(env: Env, calls: seq<RelayCall>, call: RelayCall)
    ensures TrafficOf(env, calls + [call]) == TrafficOf(env, calls) +
            var o := env.relay(calls, call);
            if Good(o) then [Traffic(call.host, |call.body|, |o.body|)] else []
  {
    assert (calls + [call])[..|calls|] == calls;
  }

  lemma SentSnoc(sent: seq<Response>, r: Response)
    ensures SentBytes(sent + [r]) == SentBytes(sent) + |r.body| && LastStatus(sent + [r]) == r.status
  {
    assert (sent + [r])[..|sent|] == sent;
  }

  // Each handler is a change of the request facts followed by at most one answer.

  function Then(env: Env, s: State, r: Option<Response>): State {
    if r.Some? then Deliver(env, s, r.value) else s
  }

  function Noted(s: State, q: Steering): State {
    s.(st := StreamState(q.host, s.st.configRequest || q.configPath, q.contentType, q.httpMethod, s.st.body),
       trace := s.trace.(fetched := s.trace.fetched + if WantsKeys(q) then [q.host] else []))
  }

  lemma OnHeadersIs(env: Env, s: State, q: Steering)
    ensures OnHeaders(env, s, q) == Then(env, Noted(s, q), HeadersAnswer(env, s.trace.fetched, q))
  {
    OhttpTypeIsNotForeign(q.contentType);
    assert s.trace.fetched + [] == s.trace.fetched;
  }

  function Buffered(env: Env, s: State, chunk: seq<byte>): State {
    var fits := |s.st.body| + |chunk| <= env.limit;
    s.(st := s.st.(body := if fits then s.st.body + chunk else []),
       meters := s.meters.(reqSize := s.meters.reqSize + |chunk|))
  }

  function Relayed(env: Env, s: State, call: RelayCall): State {
    var o := env.relay(s.trace.relayed, call);
    s.(trace := s.trace.(
         relayed := s.trace.relayed + [call],
         traffic := s.trace.traffic + if Good(o) then [Traffic(call.host, |call.body|, |o.body|)] else []))
  }

  lemma OnBodyIs(env: Env, s: State, chunk: seq<byte>, endOfStream: bool)
    ensures OnBody(env, s, chunk, endOfStream) ==
            var t := Buffered(env, s, chunk);
            if |s.st.body| + |chunk| > env.limit then Then(env, t, Some(Say(env, 413, 413)))
            else if !endOfStream then t
            else if s.st.configRequest then Abort(t, "process_error")
            else Then(env, Relayed(env, t, CallOf(t.st)), Some(Passed(env, env.relay(s.trace.relayed, CallOf(t.st)))))
  {
  }

  /** The account of a longer history, from that of a shorter one and the answer to its last event. */
  lemma AccountThen(env: Env, h: seq<Event>, e: Event, s: State)
    requires Ending(env, h).None?
    requires e.Receive? && !e.message.Other?
    requires !(EndsStream(e) && !LastOverflows(env.limit, Chunks(h + [e])) && ConfigSeen(h + [e]))
    requires s.st == AccountOfRequest(env, h + [e])
    requires s.meters == AccountOfMeters(env, h).(reqSize := |Flatten(Chunks(h + [e]))|)
    requires s.trace == AccountOfTrace(env, h + [e]).(sent := Answers(env, h), errors := [])
    requires s.exit.None?
    ensures Account(env, h + [e]) == Then(env, s, Answer(env, h + [e]))
  {
    AnswersSnoc(env, h, e);
    assert (h + [e])[..|h|] == h;
    var r := Answer(env, h + [e]);
    if r.Some? {
      SentSnoc(Answers(env, h), r.value);
    } else {
      assert Answers(env, h) + [] == Answers(env, h);
    }
  }

  lemma HeadersStep(env: Env, h: seq<Event>, headers: seq<Header>)
    requires Ending(env, h).None?
    ensures Account(env, h + [Receive(RequestHeaders(headers))]) == OnHeaders(env, Account(env, h), Read(headers))
  {
    var e, s := Receive(RequestHeaders(headers)), Account(env, h);
    OnHeadersIs(env, s, Read(headers));
    ConfigSeenSnoc(h, e);
    LastHeadersSnoc(h, e);
    ChunksSnoc(h, e);
    RelaysSnoc(env.limit, h, e);
    FetchesSnoc(h, e);
    assert (h + [e])[..|h|] == h;
    assert Relays(env.limit, h) + [] == Relays(env.limit, h);
    AccountThen(env, h, e, Noted(s, Read(headers)));
  }

  lemma BodyRequest(env: Env, h: seq<Event>, chunk: seq<byte>, endOfStream: bool)
    ensures var h', t := h + [Receive(RequestBody(chunk, endOfStream))], Buffered(env, Account(env, h), chunk);
            && t.st == AccountOfRequest(env, h')
            && t.meters == AccountOfMeters(env, h).(reqSize := |Flatten(Chunks(h'))|)
            && (LastOverflows(env.limit, Chunks(h')) <==> |BufferOf(env.limit, Chunks(h))| + |chunk| > env.limit)
            && ConfigSeen(h') == ConfigSeen(h)
  {
    var e := Receive(RequestBody(chunk, endOfStream));
    ConfigSeenSnoc(h, e);
    LastHeadersSnoc(h, e);
    ChunksSnoc(h, e);
    FlattenSnoc(Chunks(h), chunk);
    BufferSnoc(env.limit, Chunks(h), chunk);
  }

  lemma BodyTrace(env: Env, h: seq<Event>, chunk: seq<byte>, endOfStream: bool)
    ensures var h' := h + [Receive(RequestBody(chunk, endOfStream))];
            && Fetches(h') == Fetches(h)
            && (!Forwards(env.limit, h') ==> Relays(env.limit, h') == Relays(env.limit, h))
            && (Forwards(env.limit, h') ==>
                  var call := CallFor(env.limit, h');
                  var o := env.relay(Relays(env.limit, h), call);
                  && Relays(env.limit, h') == Relays(env.limit, h) + [call]
                  && TrafficOf(env, Relays(env.limit, h')) == TrafficOf(env, Relays(env.limit, h)) +
                       if Good(o) then [Traffic(call.host, |call.body|, |o.body|)] else [])
  {
    var e := Receive(RequestBody(chunk, endOfStream));
    RelaysSnoc(env.limit, h, e);
    FetchesSnoc(h, e);
    TrafficSnoc(env, Relays(env.limit, h), CallFor(env.limit, h + [e]));
  }

  lemma BodyForwards(env: Env, h: seq<Event>, chunk: seq<byte>)
    requires Ending(env, h).None? && Forwards(env.limit, h + [Receive(RequestBody(chunk, true))])
    ensures Account(env, h + [Receive(RequestBody(chunk, true))]) == OnBody(env, Account(env, h), chunk, true)
  {
    var e, s := Receive(RequestBody(chunk, true)), Account(env, h);
    var t := Buffered(env, s, chunk);
    BodyRequest(env, h, chunk, true);
    BodyTrace(env, h, chunk, true);
    OhttpTypeIsNotForeign(t.st.reqContentType);
    assert CallOf(t.st) == CallFor(env.limit, h + [e]);
    AccountThen(env, h, e, Relayed(env, t, CallOf(t.st)));
    assert (h + [e])[..|h|] == h;
    OnBodyIs(env, s, chunk, true);
  }

  lemma BodyOfConfigStream(env: Env, h: seq<Event>, chunk: seq<byte>)
    requires Ending(env, h).None?
    requires !LastOverflows(env.limit, Chunks(h + [Receive(RequestBody(chunk, true))]))
    requires ConfigSeen(h + [Receive(RequestBody(chunk, true))])
    ensures Account(env, h + [Receive(RequestBody(chunk, true))]) == OnBody(env, Account(env, h), chunk, true)
  {
    var h', s := h + [Receive(RequestBody(chunk, true))], Account(env, h);
    BodyRequest(env, h, chunk, true);
    BodyTrace(env, h, chunk, true);
    AnswersSnoc(env, h, Receive(RequestBody(chunk, true)));
    assert Answers(env, h') == Answers(env, h);
    assert Ending(env, h') == Some(Failed("process_error"));
    var t := Buffered(env, s, chunk);
    assert AccountOfTrace(env, h') == t.trace.(errors := ["process_error"]);
    assert AccountOfMeters(env, h') == t.meters && AccountOfRequest(env, h') == t.st;
    OnBodyIs(env, s, chunk, true);
  }

  lemma BodyStays(env: Env, h: seq<Event>, chunk: seq<byte>, endOfStream: bool)
    requires Ending(env, h).None?
    requires !endOfStream || LastOverflows(env.limit, Chunks(h + [Receive(RequestBody(chunk, endOfStream))]))
    ensures Account(env, h + [Receive(RequestBody(chunk, endOfStream))]) == OnBody(env, Account(env, h), chunk, endOfStream)
  {
    var e, s := Receive(RequestBody(chunk, endOfStream)), Account(env, h);
    BodyRequest(env, h, chunk, endOfStream);
    BodyTrace(env, h, chunk, endOfStream);
    AccountThen(env, h, e, Buffered(env, s, chunk));
    OnBodyIs(env, s, chunk, endOfStream);
  }

  lemma QuietRequest(env: Env, h: seq<Event>, e: Event)
    requires e.Receive? ==> !e.message.RequestHeaders? && !e.message.RequestBody?
    ensures AccountOfRequest(env, h + [e]) == AccountOfRequest(env, h)
  {
    ConfigSeenSnoc(h, e);
    LastHeadersSnoc(h, e);
    ChunksSnoc(h, e);
  }

  lemma QuietTrace(env: Env, h: seq<Event>, e: Event)
    requires e.Receive? ==> !e.message.RequestHeaders? && !e.message.RequestBody?
    ensures Chunks(h + [e]) == Chunks(h) && Fetches(h + [e]) == Fetches(h)
    ensures Relays(env.limit, h + [e]) == Relays(env.limit, h)
    ensures Answers(env, h + [e]) == Answers(env, h)
  {
    ChunksSnoc(h, e);
    RelaysSnoc(env.limit, h, e);
    FetchesSnoc(h, e);
    AnswersSnoc(env, h, e);
  }

  lemma QuietEnding(env: Env, s: State, h: seq<Event>, e: Event)
    requires s.exit.None? && s.trace.errors == []
    requires e.Receive? ==> !e.message.RequestHeaders? && !e.message.RequestBody?
    ensures var end := Ending(env, h + [e]);
            Step(env, s, e) == s.(trace := s.trace.(errors := ErrorsOf(end)), exit := end)
  {
    assert (h + [e])[|h|] == e;
  }

  lemma QuietStep(env: Env, h: seq<Event>, e: Event)
    requires Ending(env, h).None?
    requires e.Receive? ==> !e.message.RequestHeaders? && !e.message.RequestBody?
    ensures Account(env, h + [e]) == Step(env, Account(env, h), e)
  {
    QuietRequest(env, h, e);
    QuietTrace(env, h, e);
    QuietEnding(env, Account(env, h), h, e);
  }

  lemma BodyStep(env: Env, h: seq<Event>, chunk: seq<byte>, endOfStream: bool)
    requires Ending(env, h).None?
    ensures Account(env, h + [Receive(RequestBody(chunk, endOfStream))]) == OnBody(env, Account(env, h), chunk, endOfStream)
  {
    var h' := h + [Receive(RequestBody(chunk, endOfStream))];
    if !endOfStream || LastOverflows(env.limit, Chunks(h')) {
      BodyStays(env, h, chunk, endOfStream);
    } else if ConfigSeen(h') {
      BodyOfConfigStream(env, h, chunk);
    } else {
      BodyForwards(env, h, chunk);
    }
  }

  lemma AccountStep(env: Env, h: seq<Event>, e: Event)
    requires Ending(env, h).None?
    ensures Account(env, h + [e]) == Step(env, Account(env, h), e)
  {
    match e
    case Receive(RequestHeaders(headers)) => HeadersStep(env, h, headers);
    case Receive(RequestBody(chunk, endOfStream)) => BodyStep(env, h, chunk, endOfStream);
    case _ => QuietStep(env, h, e);
  }

  lemma TakesNoMore(env: Env, events: seq<Event>, e: Event)
    requires Run(env, events).exit.Some?
    ensures Run(env, events + [e]) == Run(env, events)
    ensures (events + [e])[..Consumed(env, events + [e])] == events[..Consumed(env, events)]
  {
    assert (events + [e])[..|events|] == events;
  }

  lemma TakesAll(env: Env, events: seq<Event>)
    requires events == [] || Run(env, events[..|events| - 1]).exit.None?
    ensures events[..Consumed(env, events)] == events
  {
  }

  /** Over every event sequence the whole state is the account of the events the stream has taken: its variables,
      meters, calls, fetches, responses, traffic records, errors and exit. */
  lemma {:induction false} HistoryExplainsState(env: Env, events: seq<Event>)
    ensures Run(env, events) == Account(env, events[..Consumed(env, events)])
  {
    if events != [] {
      var front, e := events[..|events| - 1], events[|events| - 1];
      assert front + [e] == events;
      HistoryExplainsState(env, front);
      if Run(env, front).exit.Some? {
        TakesNoMore(env, front, e);
      } else {
        assert front[..Consumed(env, front)] == front;
        TakesAll(env, events);
        AccountStep(env, front, e);
        RunSnoc(env, front, e);
      }
    }
  }

  /** The buffer never exceeds the limit. */
  lemma {:induction false} BufferBounded(limit: int, chunks: seq<seq<byte>>)
    ensures |BufferOf(limit, chunks)| <= limit || BufferOf(limit, chunks) == []
  {
    if chunks != [] && !LastOverflows(limit, chunks) {
      BufferFits(limit, chunks);
    } else {
      assert chunks[|chunks|..] == [];
    }
  }

  lemma ClosingChunk(h: seq<Event>)
    requires h != [] && EndsStream(h[|h| - 1])
    ensures Chunks(h) != []
  {
  }

  lemma BufferFits(limit: int, chunks: seq<seq<byte>>)
    requires chunks != [] && !LastOverflows(limit, chunks)
    ensures |BufferOf(limit, chunks)| <= limit
  {
  }

  /** Every call was made at a body-closing event of the history, with the headers and the buffer of that moment. */
  lemma {:induction false} EveryRelayHasItsMoment(limit: int, h: seq<Event>, i: nat) returns (n: nat)
    requires i < |Relays(limit, h)|
    ensures 0 < n <= |h| && Forwards(limit, h[..n]) && Relays(limit, h)[i] == CallFor(limit, h[..n])
    ensures |Relays(limit, h[..n])| == i + 1
    ensures |Relays(limit, h)[i].body| <= limit
  {
    var front := h[..|h| - 1];
    if i < |Relays(limit, front)| {
      n := EveryRelayHasItsMoment(limit, front, i);
      assert h[..n] == front[..n];
    } else {
      n := |h|;
      assert h[..n] == h;
      ClosingChunk(h);
      BufferFits(limit, Chunks(h));
    }
  }

  /** Forwarding is never repeated: no more calls than body-closing events. */
  lemma {:induction false} RelaysAtMostEnds(limit: int, h: seq<Event>)
    ensures |Relays(limit, h)| <= EndCount(h)
  {
    if h != [] {
      RelaysAtMostEnds(limit, h[..|h| - 1]);
    }
  }

  lemma ConfigSets(env: Env, events: seq<Event>)
    ensures Run(env, events).st.configRequest == ConfigSeen(events[..Consumed(env, events)])
  {
    HistoryExplainsState(env, events);
  }

  lemma SilentStep(env: Env, s: State, e: Event)
    requires s.st.configRequest
    ensures Step(env, s, e).trace.relayed == s.trace.relayed && Step(env, s, e).st.configRequest
  {
    match e
    case Receive(RequestHeaders(headers)) => OnHeadersIs(env, s, Read(headers));
    case Receive(RequestBody(chunk, endOfStream)) => OnBodyIs(env, s, chunk, endOfStream);
    case _ =>
  }

  lemma {:induction false} SilentRun(env: Env, before: seq<Event>, after: seq<Event>)
    requires Run(env, before).st.configRequest
    ensures Run(env, before + after).trace.relayed == Run(env, before).trace.relayed
    ensures Run(env, before + after).st.configRequest
  {
    if after == [] {
      assert before + after == before;
    } else {
      var front, e := after[..|after| - 1], after[|after| - 1];
      SilentRun(env, before, front);
      assert before + after == before + front + [e];
      RunSnoc(env, before + front, e);
      SilentStep(env, Run(env, before + front), e);
    }
  }

  /** Once a key configuration has been asked for, no later event makes the stream relay. */
  lemma ConfigSilencesRelay(env: Env, before: seq<Event>, after: seq<Event>)
    requires ConfigSeen(before[..Consumed(env, before)])
    ensures Run(env, before + after).trace.relayed == Run(env, before).trace.relayed
  {
    ConfigSets(env, before);
    SilentRun(env, before, after);
  }

  lemma RefusesClosing(env: Env, s: State, chunk: seq<byte>)
    requires s.st.configRequest && |s.st.body| + |chunk| <= env.limit
    ensures var t := Step(env, s, Receive(RequestBody(chunk, true)));
            t.exit == Some(Failed("process_error")) && t.trace.sent == s.trace.sent && t.trace.relayed == s.trace.relayed
  {
  }

  /** A body-closing chunk that fits, on a stream that asked for the configuration, ends it with an error and no answer. */
  lemma ConfigStreamRefusesBody(env: Env, events: seq<Event>, chunk: seq<byte>)
    requires Run(env, events).exit.None? && ConfigSeen(events)
    requires |BufferOf(env.limit, Chunks(events))| + |chunk| <= env.limit
    ensures var s, t := Run(env, events), Run(env, events + [Receive(RequestBody(chunk, true))]);
            t.exit == Some(Failed("process_error")) && t.trace.sent == s.trace.sent && t.trace.relayed == s.trace.relayed
  {
    HistoryExplainsState(env, events);
    assert events[..|events|] == events;
    RunSnoc(env, events, Receive(RequestBody(chunk, true)));
    RefusesClosing(env, Run(env, events), chunk);
  }
}
