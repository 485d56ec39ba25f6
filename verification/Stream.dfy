/** One ext_proc stream of the relay: the values `Server.Process` keeps, and what each received event does to them. */
module Stream {
  import opened Text

  const OHTTP_REQ := "message/ohttp-req"
  const OHTTP_RES := "message/ohttp-res"
  const OHTTP_KEYS := "application/ohttp-keys"
  const CONFIGS_PATH := "/.well-known/ohttp-configs"

  datatype Header = Header(key: string, value: string)

  /** `Other` stands for every message kind the handler does not list, response trailers included. */
  datatype Message =
    | RequestHeaders(headers: seq<Header>)
    | RequestBody(body: seq<byte>, endOfStream: bool)
    | RequestTrailers
    | ResponseHeaders
    | ResponseBody
    | Other

  /** What one turn of the receive loop can meet. `EndOfInput` is io.EOF or a cancelled receive. */
  datatype Event = ContextDone | EndOfInput | RecvFailed | Receive(message: Message)

  datatype RelayCall = RelayCall(host: string, body: seq<byte>, contentType: string, httpMethod: string)

  datatype RelayOutcome =
    | NoGateway
    | RelayFailed
    | ReadFailed(status: int)
    | Answered(status: int, body: seq<byte>)

  datatype KeyConfigOutcome = KeyConfig(bytes: seq<byte>) | KeyConfigFailed

  datatype Response = ImmediateResponse(status: int, contentType: string, body: seq<byte>)

  datatype Traffic = Traffic(host: string, bytesIn: int, bytesOut: int)

  datatype Exit = Clean | Cancelled | Failed(reason: string)

  /** The body limit, and oracles for everything the stream calls. A gateway may answer according to
      the stream's earlier calls; `sendOk(n)` says whether the n-th Send succeeds,
      and `statusText` is the reason phrase net/http has for a code. */
  datatype Env = Env(
    limit: int,
    relay: (seq<RelayCall>, RelayCall) -> RelayOutcome,
    keyConfig: (seq<string>, string) -> KeyConfigOutcome,
    sendOk: nat -> bool,
    statusText: int -> seq<byte>)

  /** The request facts a stream keeps between messages. */
  datatype StreamState = StreamState(
    host: string,
    configRequest: bool,
    reqContentType: string,
    httpMethod: string,
    body: seq<byte>)

  datatype Meters = Meters(reqSize: int, respSize: int, statusCode: int)

  /** What the stream has done to the outside so far. */
  datatype Trace = Trace(
    relayed: seq<RelayCall>,
    fetched: seq<string>,
    sent: seq<Response>,
    traffic: seq<Traffic>,
    errors: seq<string>)

  datatype State = State(st: StreamState, meters: Meters, trace: Trace, exit: Option<Exit>)

  const INIT := State(StreamState("", false, "", "", []), Meters(0, 0, 200), Trace([], [], [], [], []), None)

  /** The value of the first header whose key equals `name` up to case, or "" when there is none. */
  function First(headers: seq<Header>, name: string): string {
    if headers == [] then ""
    else if EqualFold(headers[0].key, name) then headers[0].value
    else First(headers[1..], name)
  }

  lemma {:induction false} FirstIsTheFirst(headers: seq<Header>, name: string, i: nat)
    requires i <= |headers| && forall j :: 0 <= j < i ==> ToLower(headers[j].key) != ToLower(name)
    ensures i == |headers| ==> First(headers, name) == ""
    ensures i < |headers| && ToLower(headers[i].key) == ToLower(name) ==> First(headers, name) == headers[i].value
  {
    if i > 0 {
      FirstIsTheFirst(headers[1..], name, i - 1);
    }
  }

  /** Everything the logic reads from a header message. */
  datatype Steering = Steering(
    httpMethod: string,
    host: string,
    contentType: string,
    configPath: bool,
    hasLength: bool,
    acceptsKeys: bool)

  function OrElse(first: string, second: string): string {
    if first == "" then second else first
  }

  function Read(headers: seq<Header>): Steering {
    var length := First(headers, "content-length");
    Steering(
      OrElse(ToLower(First(headers, ":method")), ToLower(First(headers, "method"))),
      OrElse(ToLower(First(headers, ":authority")), ToLower(First(headers, "host"))),
      First(headers, "content-type"),
      First(headers, ":path") == CONFIGS_PATH,
      length != "" && length != "0",
      ToLower(First(headers, "accept")) == OHTTP_KEYS)
  }

  /** The HTTP codes for which the handler has an Envoy status; every other code goes out as 500. */
  function EnvoyStatus(code: int): int {
    if code in {400, 401, 403, 404, 405, 413, 429, 502, 503, 504} then code else 500
  }

  function ErrorResponse(env: Env, code: int): Response {
    var text := env.statusText(code);
    ImmediateResponse(EnvoyStatus(code), "text/plain", if text == [] then [69, 114, 114, 111, 114] else text)  // "Error"
  }

  /** Meters a response and hands it to Send. */
  function Deliver(env: Env, s: State, r: Response): State {
    var t := s.(meters := s.meters.(statusCode := r.status, respSize := s.meters.respSize + |r.body|),
                trace := s.trace.(sent := s.trace.sent + [r]));
    if env.sendOk(|s.trace.sent|) then t else Abort(t, "send_error")
  }

  function Abort(s: State, reason: string): State {
    s.(trace := s.trace.(errors := s.trace.errors + [reason]), exit := Some(Failed(reason)))
  }

  /** A content type that is named and is not OHTTP's. */
  predicate Foreign(contentType: string) {
    contentType != "" && !EqualFold(contentType, OHTTP_REQ)
  }

  /** The fail-fast checks on a request that is not for the key configuration. */
  function Rejection(q: Steering): Option<int> {
    if q.httpMethod != "post" then Some(405)
    else if Foreign(q.contentType) then Some(415)
    else if !q.hasLength then Some(411)
    else None
  }

  function KeyConfigResponse(env: Env, k: KeyConfigOutcome): Response {
    match k
    case KeyConfig(bytes) => ImmediateResponse(200, OHTTP_KEYS, bytes)
    case KeyConfigFailed => ErrorResponse(env, 500)
  }

  function RespondKeyConfig(env: Env, s: State, q: Steering): State {
    if q.httpMethod != "get" then Deliver(env, s, ErrorResponse(env, 405))
    else if !q.acceptsKeys then Deliver(env, s, ErrorResponse(env, 400))
    else
      Deliver(env, s.(trace := s.trace.(fetched := s.trace.fetched + [q.host])),
              KeyConfigResponse(env, env.keyConfig(s.trace.fetched, q.host)))
  }

  function OnHeaders(env: Env, s: State, q: Steering): State {
    var t := s.(st := StreamState(q.host, s.st.configRequest || q.configPath, q.contentType, q.httpMethod, s.st.body));
    if q.configPath then RespondKeyConfig(env, t, q)
    else
      match Rejection(q)
      case Some(code) => Deliver(env, t, ErrorResponse(env, code))
      case None => t
  }

  predicate Succeeds(o: RelayOutcome) {
    o.Answered? && o.status / 100 == 2
  }

  function GatewayResponse(env: Env, o: RelayOutcome): Response {
    match o
    case NoGateway => ErrorResponse(env, 502)
    case RelayFailed => ErrorResponse(env, 502)
    case ReadFailed(_) => ErrorResponse(env, 502)
    case Answered(status, body) =>
      if status / 100 != 2 then ErrorResponse(env, 502) else ImmediateResponse(200, OHTTP_RES, body)
  }

  /** The call a forward makes: a foreign content type is passed on as it came. */
  function CallOf(st: StreamState): RelayCall {
    RelayCall(st.host, st.body, if Foreign(st.reqContentType) then st.reqContentType else OHTTP_REQ, st.httpMethod)
  }

  function Forward(env: Env, s: State): State {
    var call := CallOf(s.st);
    var outcome := env.relay(s.trace.relayed, call);
    var counted := if Succeeds(outcome) then [Traffic(s.st.host, |s.st.body|, |outcome.body|)] else [];
    Deliver(env, s.(trace := s.trace.(relayed := s.trace.relayed + [call], traffic := s.trace.traffic + counted)),
            GatewayResponse(env, outcome))
  }

  function OnBody(env: Env, s: State, chunk: seq<byte>, endOfStream: bool): State {
    var meters := s.meters.(reqSize := s.meters.reqSize + |chunk|);
    if |s.st.body| + |chunk| > env.limit then
      Deliver(env, s.(st := s.st.(body := []), meters := meters), ErrorResponse(env, 413))
    else
      var t := s.(st := s.st.(body := s.st.body + chunk), meters := meters);
      if !endOfStream then t
      else if t.st.configRequest then Abort(t, "process_error")
      else Forward(env, t)
  }

  function OnMessage(env: Env, s: State, m: Message): State {
    match m
    case RequestHeaders(headers) => OnHeaders(env, s, Read(headers))
    case RequestBody(chunk, endOfStream) => OnBody(env, s, chunk, endOfStream)
    case RequestTrailers => s
    case ResponseHeaders => s
    case ResponseBody => s
    case Other => Abort(s, "unknown_request_type")
  }

  /** One turn of the loop in `Process`. */
  function Step(env: Env, s: State, e: Event): State {
    match e
    case ContextDone => s.(exit := Some(Cancelled))
    case EndOfInput => s.(exit := Some(Clean))
    case RecvFailed => Abort(s, "recv_error")
    case Receive(m) => OnMessage(env, s, m)
  }

  /** The state after the events, of which those that follow a return are never looked at. */
  function Run(env: Env, events: seq<Event>): State {
    if events == [] then INIT
    else
      var s := Run(env, events[..|events| - 1]);
      if s.exit.Some? then s else Step(env, s, events[|events| - 1])
  }

  /** How many of the events the stream takes before it returns. */
  function Consumed(env: Env, events: seq<Event>): (n: nat)
    ensures n <= |events|
    ensures Run(env, events).exit.None? ==> n == |events|
  {
    if events == [] then 0
    else if Run(env, events[..|events| - 1]).exit.Some? then Consumed(env, events[..|events| - 1])
    else |events|
  }

  lemma RunSnoc(env: Env, events: seq<Event>, e: Event)
    ensures Run(env, events + [e]) ==
            (if Run(env, events).exit.Some? then Run(env, events) else Step(env, Run(env, events), e))
  {
    assert (events + [e])[..|events|] == events;
  }
}
