/** Two-run laws of a stream: under Envoy's discipline it is one decision on the headers and the whole
    body, however the body was cut; and on any run the headers that do not steer it leave no trace. */
module StreamDiscipline {
  import opened Text
  import opened Stream
  import opened StreamHistory

  /** The chunks as Envoy sends them, the end marked on the last. */
  function BodyEvents(chunks: seq<seq<byte>>): seq<Event> {
    seq(|chunks|, i requires 0 <= i < |chunks| => Receive(RequestBody(chunks[i], i == |chunks| - 1)))
  }

  /** Envoy feeds the chunks in order and sends nothing more once it has an immediate response. */
  function Feed(env: Env, s: State, chunks: seq<seq<byte>>): State
    decreases |chunks|
  {
    if chunks == [] || s.trace.sent != [] || s.exit.Some? then s
    else Feed(env, OnBody(env, s, chunks[0], |chunks| == 1), chunks[1..])
  }

  /** One disciplined stream: the headers, then the chunks. */
  function EnvoyRun(env: Env, headers: seq<Header>, chunks: seq<seq<byte>>): State {
    Feed(env, OnHeaders(env, INIT, Read(headers)), chunks)
  }

  /** What the gateway, the key-configuration source, the client and the traffic counters see. */
  datatype Visible = Visible(relayed: seq<RelayCall>, fetched: seq<string>, sent: seq<Response>, traffic: seq<Traffic>)

  function View(s: State): Visible {
    Visible(s.trace.relayed, s.trace.fetched, s.trace.sent, s.trace.traffic)
  }

  predicate MissingLength(headers: seq<Header>) {
    First(headers, "content-length") in {"", "0"}
  }

  /** The headers of a request that is to be forwarded. */
  predicate Acceptable(headers: seq<Header>) {
    && First(headers, ":path") != CONFIGS_PATH
    && ToLower(MethodHeader(headers)) == "post"
    && OhttpType(First(headers, "content-type"))
    && !MissingLength(headers)
  }

  /** Envoy has sent the whole request; one that is not to be forwarded needs no body. */
  predicate Complete(headers: seq<Header>, chunks: seq<seq<byte>>) {
    Acceptable(headers) ==> chunks != []
  }

  /** A single plain answer, with no call to anyone. */
  function Refusal(env: Env, status: int, code: int): Visible {
    Visible([], [], [Say(env, status, code)], [])
  }

  /** The relay as one decision, in the terms of the HTTP request. */
  function OneShot(env: Env, headers: seq<Header>, body: seq<byte>): Visible {
    var host := ToLower(Authority(headers));
    if First(headers, ":path") == CONFIGS_PATH then
      if ToLower(MethodHeader(headers)) != "get" then Refusal(env, 405, 405)
      else if ToLower(First(headers, "accept")) != OHTTP_KEYS then Refusal(env, 400, 400)
      else
        match env.keyConfig([], host)
        case KeyConfig(bytes) => Visible([], [host], [ImmediateResponse(200, OHTTP_KEYS, bytes)], [])
        case KeyConfigFailed => Refusal(env, 500, 500).(fetched := [host])
    else if ToLower(MethodHeader(headers)) != "post" then Refusal(env, 405, 405)
    else if !OhttpType(First(headers, "content-type")) then Refusal(env, 500, 415)
    else if MissingLength(headers) then Refusal(env, 500, 411)
    else if |body| > env.limit then Refusal(env, 413, 413)
    else
      var call := RelayCall(host, body, OHTTP_REQ, "post");
      var o := env.relay([], call);
      if Good(o) then
        Visible([call], [], [ImmediateResponse(200, OHTTP_RES, o.body)], [Traffic(host, |body|, |o.body|)])
      else Refusal(env, 502, 502).(relayed := [call])
  }

  lemma {:induction false} FlattenCons(chunks: seq<seq<byte>>)
    requires chunks != []
    ensures Flatten(chunks) == chunks[0] + Flatten(chunks[1..])
  {
    var front, last := chunks[..|chunks| - 1], chunks[|chunks| - 1];
    if front == [] {
      assert chunks[1..] == [];
    } else {
      FlattenCons(front);
      assert chunks[1..] == front[1..] + [last];
      FlattenSnoc(front[1..], last);
    }
  }

  /** The open stream: nothing said yet, and no key configuration asked for. */
  ghost predicate Open(s: State) {
    s.trace.sent == [] && s.exit.None? && !s.st.configRequest
  }

  /** The stream after these further bytes, none of them answered. */
  function Buffering(s: State, bytes: seq<byte>): State {
    s.(st := s.st.(body := s.st.body + bytes), meters := s.meters.(reqSize := s.meters.reqSize + |bytes|))
  }

  /** An open stream past the limit refuses at the chunk that goes past it. */
  lemma {:induction false} FeedTooMuch(env: Env, s: State, chunks: seq<seq<byte>>)
    requires Open(s) && chunks != [] && |s.st.body| + |Flatten(chunks)| > env.limit
    ensures View(Feed(env, s, chunks)) == View(s).(sent := [ErrorResponse(env, 413)])
    decreases |chunks|
  {
    FlattenCons(chunks);
    var t := OnBody(env, s, chunks[0], |chunks| == 1);
    if |s.st.body| + |chunks[0]| > env.limit {
      assert t.trace.sent == [ErrorResponse(env, 413)];
    } else {
      assert t == Buffering(s, chunks[0]);
      FeedTooMuch(env, t, chunks[1..]);
    }
  }

  lemma FeedLast(env: Env, s: State, chunk: seq<byte>)
    requires Open(s) && |s.st.body| + |chunk| <= env.limit
    ensures Feed(env, s, [chunk]) == Forward(env, Buffering(s, chunk))
  {
    assert [chunk][1..] == [];
    assert OnBody(env, s, chunk, true) == Forward(env, Buffering(s, chunk));
  }

  lemma FeedMore(env: Env, s: State, chunks: seq<seq<byte>>)
    requires Open(s) && |chunks| > 1 && |s.st.body| + |chunks[0]| <= env.limit
    ensures Feed(env, s, chunks) == Feed(env, Buffering(s, chunks[0]), chunks[1..])
  {
    assert OnBody(env, s, chunks[0], false) == Buffering(s, chunks[0]);
  }

  lemma BufferingTwice(s: State, a: seq<byte>, b: seq<byte>)
    ensures Buffering(Buffering(s, a), b) == Buffering(s, a + b)
  {
    assert s.st.body + a + b == s.st.body + (a + b);
  }

  /** Within the limit it forwards once, with every byte, whatever the pieces were. */
  lemma {:induction false} FeedAll(env: Env, s: State, chunks: seq<seq<byte>>)
    requires Open(s) && chunks != [] && |s.st.body| + |Flatten(chunks)| <= env.limit
    ensures Feed(env, s, chunks) == Forward(env, Buffering(s, Flatten(chunks)))
    decreases |chunks|
  {
    FlattenCons(chunks);
    if |chunks| == 1 {
      assert chunks == [chunks[0]] && chunks[1..] == [] && Flatten(chunks) == chunks[0];
      FeedLast(env, s, chunks[0]);
    } else {
      FeedMore(env, s, chunks);
      FeedAll(env, Buffering(s, chunks[0]), chunks[1..]);
      BufferingTwice(s, chunks[0], Flatten(chunks[1..]));
    }
  }

  function Saying(r: Response): Visible {
    Visible([], [], [r], [])
  }

  /** The decision in terms of what the handler reads from the headers. */
  function Decide(env: Env, q: Steering, body: seq<byte>): Visible {
    if q.configPath then
      if q.httpMethod != "get" then Saying(ErrorResponse(env, 405))
      else if !q.acceptsKeys then Saying(ErrorResponse(env, 400))
      else Saying(KeyConfigResponse(env, env.keyConfig([], q.host))).(fetched := [q.host])
    else if Rejection(q).Some? then Saying(ErrorResponse(env, Rejection(q).value))
    else if |body| > env.limit then Saying(ErrorResponse(env, 413))
    else
      var call := RelayCall(q.host, body, OHTTP_REQ, q.httpMethod);
      var o := env.relay([], call);
      Visible([call], [], [GatewayResponse(env, o)],
              if Succeeds(o) then [Traffic(q.host, |body|, |o.body|)] else [])
  }

  /** The handler's reading in the words of the request. */
  predicate ReadsAs(q: Steering, headers: seq<Header>) {
    && q.host == ToLower(Authority(headers))
    && q.httpMethod == ToLower(MethodHeader(headers))
    && (q.configPath <==> First(headers, ":path") == CONFIGS_PATH)
    && (q.acceptsKeys <==> ToLower(First(headers, "accept")) == OHTTP_KEYS)
    && (Foreign(q.contentType) <==> !OhttpType(First(headers, "content-type")))
    && (q.hasLength <==> !MissingLength(headers))
  }

  lemma ReadIsRead(headers: seq<Header>)
    ensures ReadsAs(Read(headers), headers)
  {
    ReadMeaning(headers);
    OhttpTypeIsNotForeign(First(headers, "content-type"));
  }

  lemma DecisionForKeys(env: Env, q: Steering, headers: seq<Header>, body: seq<byte>)
    requires ReadsAs(q, headers) && q.configPath
    ensures Decide(env, q, body) == OneShot(env, headers, body)
  {
  }

  lemma DecisionToRelay(env: Env, q: Steering, headers: seq<Header>, body: seq<byte>)
    requires ReadsAs(q, headers) && !q.configPath
    ensures Decide(env, q, body) == OneShot(env, headers, body)
  {
  }

  lemma DecisionOfHeaders(env: Env, headers: seq<Header>, body: seq<byte>)
    ensures Decide(env, Read(headers), body) == OneShot(env, headers, body)
  {
    ReadIsRead(headers);
    if Read(headers).configPath {
      DecisionForKeys(env, Read(headers), headers, body);
    } else {
      DecisionToRelay(env, Read(headers), headers, body);
    }
  }

  lemma FeedDecides(env: Env, q: Steering, chunks: seq<seq<byte>>)
    requires q.configPath || Rejection(q).Some? || chunks != []
    ensures View(Feed(env, OnHeaders(env, INIT, q), chunks)) == Decide(env, q, Flatten(chunks))
  {
    var s := OnHeaders(env, INIT, q);
    if q.configPath || Rejection(q).Some? {
      RefusedAtOnce(env, q, Flatten(chunks));
      assert s.trace.sent != [];
    } else {
      OpenAfterHeaders(env, q);
      if |Flatten(chunks)| > env.limit {
        FeedTooMuch(env, s, chunks);
      } else {
        FeedAll(env, s, chunks);
        assert [] + Flatten(chunks) == Flatten(chunks);
      }
    }
  }

  lemma RefusedAtOnce(env: Env, q: Steering, body: seq<byte>)
    requires q.configPath || Rejection(q).Some?
    ensures View(OnHeaders(env, INIT, q)) == Decide(env, q, body)
  {
  }

  /** Streamed mode refines buffered mode: whatever the chunks, the limit and the answers of the
      environment, a disciplined stream does exactly what one decision on the whole body would do. */
  lemma OneShotRefinement(env: Env, headers: seq<Header>, chunks: seq<seq<byte>>)
    requires Complete(headers, chunks)
    ensures View(EnvoyRun(env, headers, chunks)) == OneShot(env, headers, Flatten(chunks))
  {
    AcceptableIff(headers);
    FeedDecides(env, Read(headers), chunks);
    DecisionOfHeaders(env, headers, Flatten(chunks));
  }

  lemma OpenAfterHeaders(env: Env, q: Steering)
    requires !q.configPath && Rejection(q).None?
    ensures OnHeaders(env, INIT, q) ==
            INIT.(st := StreamState(q.host, false, q.contentType, q.httpMethod, []))
  {
  }

  /** Two ways of cutting one body cannot be told apart, over-limit bodies included. */
  lemma ChunkingIndependence(env: Env, headers: seq<Header>, cut1: seq<seq<byte>>, cut2: seq<seq<byte>>)
    requires Complete(headers, cut1) && Complete(headers, cut2) && Flatten(cut1) == Flatten(cut2)
    ensures View(EnvoyRun(env, headers, cut1)) == View(EnvoyRun(env, headers, cut2))
  {
    OneShotRefinement(env, headers, cut1);
    OneShotRefinement(env, headers, cut2);
  }

  /** When a request is to be forwarded. */
  lemma AcceptableIff(headers: seq<Header>)
    ensures Acceptable(headers) <==>
            && First(headers, ":path") != "/.well-known/ohttp-configs"
            && ToLower(if First(headers, ":method") != "" then First(headers, ":method") else First(headers, "method"))
               == "post"
            && (First(headers, "content-type") == "" || ToLower(First(headers, "content-type")) == "message/ohttp-req")
            && First(headers, "content-length") != "" && First(headers, "content-length") != "0"
    ensures Acceptable(headers) <==> !Read(headers).configPath && Rejection(Read(headers)).None?
  {
    ReadMeaning(headers);
    OhttpTypeIsNotForeign(First(headers, "content-type"));
  }

  /** When the relay forwards at all, what it then forwards, and what the client and the counters get of the outcome. */
  lemma DisciplinedStream(env: Env, headers: seq<Header>, chunks: seq<seq<byte>>)
    requires Complete(headers, chunks)
    ensures var s, body := EnvoyRun(env, headers, chunks), Flatten(chunks);
            && |s.trace.sent| == 1
            && (!(Acceptable(headers) && |body| <= env.limit) ==> s.trace.relayed == [] && s.trace.traffic == [])
            && (Acceptable(headers) && |body| <= env.limit ==>
                  var call := RelayCall(ToLower(Authority(headers)), body, "message/ohttp-req", "post");
                  var o := env.relay([], call);
                  && s.trace.relayed == [call]
                  && (if o.Answered? && 200 <= o.status < 300
                      then s.trace.sent == [ImmediateResponse(200, "message/ohttp-res", o.body)]
                           && s.trace.traffic == [Traffic(call.host, |body|, |o.body|)]
                      else s.trace.sent == [Say(env, 502, 502)] && s.trace.traffic == []))
  {
    OneShotRefinement(env, headers, chunks);
  }

  const ORDINARY := [
    Header(":method", "POST"), Header(":path", "/"), Header("Host", "other.example"), Header(":authority", "Example.COM"),
    Header("content-type", "message/ohttp-req"), Header("content-length", "3")]

  lemma OrdinaryHeaders()
    ensures First(ORDINARY, ":method") == "POST" && First(ORDINARY, ":path") == "/"
    ensures First(ORDINARY, ":authority") == "Example.COM" && First(ORDINARY, "host") == "other.example"
    ensures First(ORDINARY, "content-type") == "message/ohttp-req" && First(ORDINARY, "content-length") == "3"
  {
    var h := ORDINARY;
    assert |ToLower(":method")| == 7 && |ToLower(":path")| == 5 && |ToLower("Host")| == 4 && |ToLower(":authority")| == 10;
    assert |ToLower("content-type")| == 12 && |ToLower("content-length")| == 14;
    assert ToLower("Host") == ToLower("host");
    FirstIsTheFirst(h, ":method", 0);
    FirstIsTheFirst(h, ":path", 1);
    FirstIsTheFirst(h, "host", 2);
    FirstIsTheFirst(h, ":authority", 3);
    FirstIsTheFirst(h, "content-type", 4);
    FirstIsTheFirst(h, "content-length", 5);
  }

  lemma OrdinaryIsAcceptable(h: seq<Header>)
    requires First(h, ":method") == "POST" && First(h, ":path") == "/" && First(h, ":authority") == "Example.COM"
    requires First(h, "content-type") == "message/ohttp-req" && First(h, "content-length") == "3"
    ensures Acceptable(h) && ToLower(Authority(h)) == "example.com"
  {
    assert ToLower("POST") == "post" && ToLower("Example.COM") == "example.com";
    assert ToLower("message/ohttp-req") == "message/ohttp-req";
  }

  /** Such a request, in two chunks, is relayed as one. */
  lemma OrdinaryRelayed(env: Env, h: seq<Header>, a: seq<byte>, b: seq<byte>)
    requires Acceptable(h) && |a| + |b| <= env.limit
    ensures EnvoyRun(env, h, [a, b]).trace.relayed ==
            [RelayCall(ToLower(Authority(h)), a + b, "message/ohttp-req", "post")]
  {
    TwoChunks(a, b);
    DisciplinedStream(env, h, [a, b]);
  }

  /** An ordinary request: the authority goes before the host header, and both chunks are in the call. */
  lemma OrdinaryRequest(env: Env)
    requires env.limit >= 3
    ensures EnvoyRun(env, ORDINARY, [[1, 2], [3]]).trace.relayed ==
            [RelayCall("example.com", [1, 2, 3], "message/ohttp-req", "post")]
  {
    OrdinaryHeaders();
    OrdinaryIsAcceptable(ORDINARY);
    OrdinaryRelayed(env, ORDINARY, [1, 2], [3]);
    assert [1, 2] + [3] == [1, 2, 3];
  }

  lemma TwoChunks(a: seq<byte>, b: seq<byte>)
    ensures Flatten([a, b]) == a + b
  {
    assert [a, b][1..] == [b] && [b][..0] == [];
    FlattenCons([a, b]);
    assert Flatten([b]) == [] + b;
  }

  lemma ForwardTraffic(env: Env, s: State)
    requires s.trace.traffic == [] && s.meters.respSize == 0 && s.meters.reqSize == |s.st.body|
    ensures var t := Forward(env, s);
            t.trace.traffic != [] ==>
              t.trace.traffic == [Traffic(s.st.host, t.meters.reqSize, t.meters.respSize)] && t.meters.statusCode == 200
  {
  }

  lemma ForwardMeters(env: Env, q: Steering, chunks: seq<seq<byte>>)
    requires !q.configPath && Rejection(q).None? && chunks != [] && |Flatten(chunks)| <= env.limit
    ensures var s := Feed(env, OnHeaders(env, INIT, q), chunks);
            s.trace.traffic != [] ==>
              s.trace.traffic == [Traffic(q.host, s.meters.reqSize, s.meters.respSize)] && s.meters.statusCode == 200
  {
    OpenAfterHeaders(env, q);
    FeedAll(env, OnHeaders(env, INIT, q), chunks);
    ForwardTraffic(env, Buffering(OnHeaders(env, INIT, q), Flatten(chunks)));
  }

  /** A successful relay is metered twice with the same numbers: as traffic and as the request's sizes. */
  lemma TrafficMatchesMeters(env: Env, headers: seq<Header>, chunks: seq<seq<byte>>)
    requires Complete(headers, chunks)
    requires EnvoyRun(env, headers, chunks).trace.traffic != []
    ensures var s := EnvoyRun(env, headers, chunks);
            s.trace.traffic == [Traffic(ToLower(Authority(headers)), s.meters.reqSize, s.meters.respSize)]
            && s.meters.statusCode == 200
  {
    DisciplinedStream(env, headers, chunks);
    AcceptableIff(headers);
    ReadMeaning(headers);
    ForwardMeters(env, Read(headers), chunks);
  }

  /** Requests turned away for what their headers say. */
  predicate RefusedOnHeaders(headers: seq<Header>) {
    if First(headers, ":path") == CONFIGS_PATH then
      ToLower(MethodHeader(headers)) != "get" || ToLower(First(headers, "accept")) != OHTTP_KEYS
    else !Acceptable(headers)
  }

  /** Of these, exactly those on the key-configuration path or with a wrong method get a 4xx status. */
  lemma RefusalStatusIs4xx(env: Env, headers: seq<Header>, chunks: seq<seq<byte>>)
    requires RefusedOnHeaders(headers)
    ensures var sent := EnvoyRun(env, headers, chunks).trace.sent;
            |sent| == 1 &&
            (400 <= sent[0].status < 500
             <==> First(headers, ":path") == CONFIGS_PATH || ToLower(MethodHeader(headers)) != "post")
  {
    OneShotRefinement(env, headers, chunks);
  }

  const FOREIGN_POST := [Header(":method", "POST"), Header("content-type", "text/plain")]

  /** A POST with a foreign content type is answered with 500. */
  lemma ForeignPostGets500(env: Env, chunks: seq<seq<byte>>)
    ensures EnvoyRun(env, FOREIGN_POST, chunks).trace.sent == [Say(env, 500, 415)]
  {
    var h := FOREIGN_POST;
    assert |ToLower("text/plain")| != |OHTTP_REQ|;
    assert ToLower("POST") == "post";
    assert |ToLower(":method")| == 7 && |ToLower("content-type")| == 12 && |ToLower(":path")| == 5;
    FirstIsTheFirst(h, ":path", 2);
    FirstIsTheFirst(h, ":method", 0);
    FirstIsTheFirst(h, "content-type", 1);
    OneShotRefinement(env, h, chunks);
  }

  /** The events up to and including the first `n` chunks. */
  function Fed(events: seq<Event>, chunks: seq<seq<byte>>, n: nat): seq<Event>
    requires n <= |chunks|
  {
    events + BodyEvents(chunks)[..n]
  }

  lemma FedShift(events: seq<Event>, chunks: seq<seq<byte>>, n: nat)
    requires 0 < n <= |chunks|
    ensures Fed(events, chunks, n) == Fed(events + [BodyEvents(chunks)[0]], chunks[1..], n - 1)
  {
  }

  /** How many chunks Envoy feeds before it stops. */
  function FedCount(env: Env, s: State, chunks: seq<seq<byte>>): (n: nat)
    ensures n <= |chunks|
    decreases |chunks|
  {
    if chunks == [] || s.trace.sent != [] || s.exit.Some? then 0
    else 1 + FedCount(env, OnBody(env, s, chunks[0], |chunks| == 1), chunks[1..])
  }

  lemma FirstFed(env: Env, events: seq<Event>, chunks: seq<seq<byte>>)
    requires chunks != [] && Run(env, events).exit.None?
    ensures Run(env, events + [BodyEvents(chunks)[0]]) == OnBody(env, Run(env, events), chunks[0], |chunks| == 1)
  {
    RunSnoc(env, events, BodyEvents(chunks)[0]);
  }

  /** Feeding is running on the chunks that are fed. */
  lemma {:induction false} FeedIsRun(env: Env, events: seq<Event>, chunks: seq<seq<byte>>)
    ensures Feed(env, Run(env, events), chunks) ==
            Run(env, Fed(events, chunks, FedCount(env, Run(env, events), chunks)))
    decreases |chunks|
  {
    var s := Run(env, events);
    var n := FedCount(env, s, chunks);
    if n == 0 {
      assert Fed(events, chunks, 0) == events;
    } else {
      var e := BodyEvents(chunks)[0];
      FirstFed(env, events, chunks);
      FeedIsRun(env, events + [e], chunks[1..]);
      FedShift(events, chunks, n);
    }
  }

  /** Before the last chunk that is fed, the stream has said nothing. */
  lemma {:induction false} QuietUntilFed(env: Env, events: seq<Event>, chunks: seq<seq<byte>>, m: nat)
    requires m < FedCount(env, Run(env, events), chunks)
    ensures Run(env, Fed(events, chunks, m)).trace.sent == []
    decreases |chunks|
  {
    if m == 0 {
      assert Fed(events, chunks, 0) == events;
    } else {
      var e := BodyEvents(chunks)[0];
      FirstFed(env, events, chunks);
      QuietUntilFed(env, events + [e], chunks[1..], m - 1);
      FedShift(events, chunks, m);
    }
  }

  /** A disciplined stream is a run of `Process`: headers first, the end marked on the last chunk only,
      nothing sent after an answer. */
  lemma EnvoyRunIsRun(env: Env, headers: seq<Header>, chunks: seq<seq<byte>>) returns (n: nat)
    ensures n <= |chunks|
    ensures EnvoyRun(env, headers, chunks) == Run(env, Fed([Receive(RequestHeaders(headers))], chunks, n))
    ensures forall m :: 0 <= m < n ==>
              Run(env, Fed([Receive(RequestHeaders(headers))], chunks, m)).trace.sent == []
  {
    var e := Receive(RequestHeaders(headers));
    RunSnoc(env, [], e);
    assert [] + [e] == [e];
    FeedIsRun(env, [e], chunks);
    n := FedCount(env, Run(env, [e]), chunks);
    forall m | 0 <= m < n ensures Run(env, Fed([e], chunks, m)).trace.sent == [] {
      QuietUntilFed(env, [e], chunks, m);
    }
  }

  const NAMES := {":method", "method", ":authority", "host", "content-type", ":path", "content-length", "accept"}

  predicate Agree(h1: seq<Header>, h2: seq<Header>) {
    forall name :: name in NAMES ==> First(h1, name) == First(h2, name)
  }

  /** The same event, up to headers that do not steer the relay. */
  predicate Alike(e1: Event, e2: Event) {
    e1 == e2 || (e1.Receive? && e2.Receive? && e1.message.RequestHeaders? && e2.message.RequestHeaders?
                 && Agree(e1.message.headers, e2.message.headers))
  }

  lemma AgreeReads(h1: seq<Header>, h2: seq<Header>)
    requires Agree(h1, h2)
    ensures Read(h1) == Read(h2)
  {
    assert First(h1, ":method") == First(h2, ":method");
    assert First(h1, "method") == First(h2, "method");
    assert First(h1, ":authority") == First(h2, ":authority");
    assert First(h1, "host") == First(h2, "host");
    assert First(h1, "content-type") == First(h2, "content-type");
    assert First(h1, ":path") == First(h2, ":path");
    assert First(h1, "content-length") == First(h2, "content-length");
    assert First(h1, "accept") == First(h2, "accept");
  }

  /** Header non-interference, on every run: calls, responses, meters and errors are all the same. */
  lemma {:induction false} NonInterference(env: Env, run1: seq<Event>, run2: seq<Event>)
    requires |run1| == |run2| && forall i :: 0 <= i < |run1| ==> Alike(run1[i], run2[i])
    ensures Run(env, run1) == Run(env, run2)
  {
    if run1 != [] {
      var k := |run1| - 1;
      NonInterference(env, run1[..k], run2[..k]);
      if run1[k] != run2[k] {
        AgreeReads(run1[k].message.headers, run2[k].message.headers);
      }
    }
  }

  lemma NamesAreLower(name: string)
    requires name in NAMES
    ensures ToLower(name) == name
  {
    assert forall i :: 0 <= i < |name| ==> !('A' <= name[i] <= 'Z');
  }

  /** The steering headers, keys lower-cased, in order. */
  function Project(headers: seq<Header>): seq<Header> {
    if headers == [] then []
    else
      var key := ToLower(headers[0].key);
      (if key in NAMES then [Header(key, headers[0].value)] else []) + Project(headers[1..])
  }

  lemma {:induction false} FirstOfProjection(headers: seq<Header>, name: string)
    requires name in NAMES && ToLower(name) == name
    ensures First(Project(headers), name) == First(headers, name)
  {
    if headers != [] {
      FirstOfProjection(headers[1..], name);
      var p, key := Project(headers), ToLower(headers[0].key);
      ToLowerFacts(headers[0].key);
      if key in NAMES {
        assert p[0] == Header(key, headers[0].value) && p[1..] == Project(headers[1..]);
      } else {
        assert p == Project(headers[1..]);
      }
    }
  }

  /** Other headers may be added, removed or moved, and any key re-cased. */
  lemma ProjectionDecides(h1: seq<Header>, h2: seq<Header>)
    requires Project(h1) == Project(h2)
    ensures Agree(h1, h2)
  {
    forall name | name in NAMES ensures First(h1, name) == First(h2, name) {
      NamesAreLower(name);
      FirstOfProjection(h1, name);
      FirstOfProjection(h2, name);
    }
  }

  /** Two neighbours with different names may change places. */
  lemma {:induction false} SwapAgrees(before: seq<Header>, x: Header, y: Header, after: seq<Header>, name: string)
    requires !EqualFold(x.key, y.key)
    ensures First(before + [x, y] + after, name) == First(before + [y, x] + after, name)
  {
    var h1, h2 := before + [x, y] + after, before + [y, x] + after;
    if before == [] {
      assert h1[1..] == [y] + after && h2[1..] == [x] + after;
      assert ([y] + after)[1..] == after && ([x] + after)[1..] == after;
    } else {
      SwapAgrees(before[1..], x, y, after, name);
      assert h1[1..] == before[1..] + [x, y] + after && h2[1..] == before[1..] + [y, x] + after;
    }
  }
}
