/** The whole path: from the mapping spec, the headers and the chunks to the request a gateway receives and the answer
    the client gets. */
module EndToEnd {
  import opened Text
  import opened Stream
  import opened StreamHistory
  import opened StreamDiscipline
  import opened Routing
  import D = DomainMap

  /** A relay with the HTTP relayer and the HTTP key-configuration source, as one stream meets it. The n-th relay of
      the stream looks its host up at one moment, the n-th key fetch at another. */
  datatype Deployment = Deployment(
    limit: int,
    spec: string,
    redis: Option<Reads>,
    relayedAt: nat -> nat,
    fetchedAt: nat -> nat,
    client: Client,
    fetch: nat -> string -> Fetch,
    sendOk: nat -> bool,
    statusText: int -> seq<byte>)
  {
    /** A relay whose spec does not parse does not start. */
    predicate Starts() {
      D.Parse(spec).Ok?
    }

    function RelaySource(): nat -> Source
      requires Starts()
    {
      var urls := D.Parse(spec).value;
      (n: nat) => GatewaySource(urls, redis, relayedAt(n))
    }

    function KeySource(): nat -> Source
      requires Starts()
    {
      var urls := D.Parse(spec).value;
      (n: nat) => GatewaySource(urls, redis, fetchedAt(n))
    }
  }

  function Wired(d: Deployment): Env
    requires d.Starts()
  {
    var relaySource, keySource := d.RelaySource(), d.KeySource();
    Env(d.limit,
        (earlier: seq<RelayCall>, call: RelayCall) =>
          RelayResult(relaySource(|earlier|), d.client, Requests(relaySource, d.client, earlier), call),
        (earlier: seq<string>, host: string) =>
          KeyConfigOf(keySource(|earlier|), d.fetch(|earlier|), host),
        d.sendOk,
        d.statusText)
  }

  /** The requests a run relays to the gateways. */
  function Asks(d: Deployment, s: State): seq<GatewayRequest>
    requires d.Starts()
  {
    Requests(d.RelaySource(), d.client, s.trace.relayed)
  }

  predicate OnlyOwnHeaders(r: GatewayRequest) {
    r.headers.Keys == {"Content-Type", "User-Agent"} && r.headers["User-Agent"] == ""
  }

  lemma {:induction false} CallsAreTyped(limit: int, h: seq<Event>)
    ensures forall i :: 0 <= i < |Relays(limit, h)| ==> Relays(limit, h)[i].contentType != ""
  {
    if h != [] {
      CallsAreTyped(limit, h[..|h| - 1]);
    }
  }

  lemma {:induction false} TypedRequestsAreClean(source: nat -> Source, client: Client, calls: seq<RelayCall>)
    requires forall i :: 0 <= i < |calls| ==> calls[i].contentType != ""
    ensures forall i :: 0 <= i < |Requests(source, client, calls)| ==> OnlyOwnHeaders(Requests(source, client, calls)[i])
  {
    if calls != [] {
      TypedRequestsAreClean(source, client, calls[..|calls| - 1]);
    }
  }

  /** On every run, no header of the client reaches a gateway but the content type. */
  lemma GatewayHeadersAreOwn(d: Deployment, events: seq<Event>)
    requires d.Starts()
    ensures var asked := Asks(d, Run(Wired(d), events));
            forall i :: 0 <= i < |asked| ==> OnlyOwnHeaders(asked[i])
  {
    var env := Wired(d);
    HistoryExplainsState(env, events);
    CallsAreTyped(env.limit, events[..Consumed(env, events)]);
    TypedRequestsAreClean(d.RelaySource(), d.client, Run(env, events).trace.relayed);
  }

  /** The gateway the spec and Redis name for an authority at a moment. */
  function Gateway(d: Deployment, authority: string, time: nat): Option<string> {
    match (D.LastBinding(D.Split(d.spec, ','), ToLower(authority)), d.redis)
    case (Some(url), _) => Some(url)
    case (None, None) => None
    case (None, Some(read)) =>
      match read(time, ToLower(TrimSpace(authority)))
      case Found(url) => if url == "" then None else Some(url)
      case _ => None
  }

  /** The url of a lookup that found one. */
  function Target(l: Lookup): Option<string> {
    if l.Url? && l.url != "" then Some(l.url) else None
  }

  lemma GatewayIsLookup(d: Deployment, authority: string, time: nat)
    requires d.Starts()
    ensures Gateway(d, authority, time) == Target(GatewaySource(D.Parse(d.spec).value, d.redis, time)(ToLower(authority)))
  {
    RouteMeaning(d.spec, d.redis, time, authority);
    if D.LastBinding(D.Split(d.spec, ','), ToLower(authority)).Some? {
      BindingNotEmpty(d.spec, ToLower(authority));
    }
  }

  /** What one whole request brings about: the relayed requests, and the answer. */
  datatype Effect = Effect(requests: seq<GatewayRequest>, answer: Response)

  /** The answer to a well-formed request for the keys. */
  function KeysAnswer(env: Env, gateway: Option<string>, fetch: string -> Fetch): Response {
    match gateway
    case None => Say(env, 500, 500)
    case Some(url) =>
      match fetch(url + CONFIGS_PATH)
      case FetchFailed => Say(env, 500, 500)
      case Fetched(status, bytes) =>
        if status == 200 then ImmediateResponse(200, OHTTP_KEYS, bytes) else Say(env, 500, 500)
  }

  /** What an acceptable request within the limit brings about. */
  function RelayEffect(env: Env, gateway: Option<string>, client: Client, body: seq<byte>): Effect {
    match gateway
    case None => Effect([], Say(env, 502, 502))
    case Some(url) =>
      if !client.canBuild("post", url) then Effect([], Say(env, 502, 502))
      else
        var request := GatewayRequest("post", url, map["Content-Type" := OHTTP_REQ, "User-Agent" := ""], body);
        match client.exchange([], request)
        case Reply(status, reply) =>
          Effect([request],
                 if 200 <= status < 300 then ImmediateResponse(200, OHTTP_RES, reply) else Say(env, 502, 502))
        case _ => Effect([request], Say(env, 502, 502))
  }

  /** Which of the two a request comes to, or the refusal it gets. */
  function Choose(env: Env, headers: seq<Header>, body: seq<byte>, keys: Response, relay: Effect): Effect {
    if First(headers, ":path") == CONFIGS_PATH then
      if ToLower(MethodHeader(headers)) != "get" then Effect([], Say(env, 405, 405))
      else if ToLower(First(headers, "accept")) != OHTTP_KEYS then Effect([], Say(env, 400, 400))
      else Effect([], keys)
    else if ToLower(MethodHeader(headers)) != "post" then Effect([], Say(env, 405, 405))
    else if !OhttpType(First(headers, "content-type")) then Effect([], Say(env, 500, 415))
    else if MissingLength(headers) then Effect([], Say(env, 500, 411))
    else if |body| > env.limit then Effect([], Say(env, 413, 413))
    else relay
  }

  /** The deployment as one decision on a request, in terms of the spec, Redis and what the gateways reply. */
  function Serve(d: Deployment, headers: seq<Header>, body: seq<byte>): Effect
    requires d.Starts()
  {
    var env, authority := Wired(d), Authority(headers);
    Choose(env, headers, body,
           KeysAnswer(env, Gateway(d, authority, d.fetchedAt(0)), d.fetch(0)),
           RelayEffect(env, Gateway(d, authority, d.relayedAt(0)), d.client, body))
  }

  function KeysOutcome(env: Env, outcome: KeyConfigOutcome): Response {
    match outcome
    case KeyConfig(bytes) => ImmediateResponse(200, OHTTP_KEYS, bytes)
    case KeyConfigFailed => Say(env, 500, 500)
  }

  lemma ShotIsChoice(env: Env, headers: seq<Header>, body: seq<byte>, requests: seq<GatewayRequest>)
    ensures var call := RelayCall(ToLower(Authority(headers)), body, OHTTP_REQ, "post");
            var shot := OneShot(env, headers, body);
            var choice := Choose(env, headers, body, KeysOutcome(env, env.keyConfig([], ToLower(Authority(headers)))),
                                 Effect(requests, Passed(env, env.relay([], call))));
            && shot.sent == [choice.answer]
            && (if shot.relayed == [] then choice.requests == [] else shot.relayed == [call] && choice.requests == requests)
  {
  }

  lemma KeysFetched(env: Env, source: Source, fetch: string -> Fetch, host: string)
    ensures KeysAnswer(env, Target(source(host)), fetch) ==
            KeysOutcome(env, KeyConfigOf(source, fetch, host))
  {
  }

  lemma CallRelayed(env: Env, source: nat -> Source, client: Client, host: string, body: seq<byte>)
    ensures var call := RelayCall(host, body, OHTTP_REQ, "post");
            RelayEffect(env, Target(source(0)(host)), client, body) ==
            Effect(Requests(source, client, [call]), Passed(env, RelayResult(source(0), client, [], call)))
  {
    var call := RelayCall(host, body, OHTTP_REQ, "post");
    assert [call][..0] == [];
    assert Requests(source, client, []) == [];
  }

  lemma KeysWired(d: Deployment, authority: string)
    requires d.Starts()
    ensures var env := Wired(d);
            KeysAnswer(env, Gateway(d, authority, d.fetchedAt(0)), d.fetch(0)) ==
            KeysOutcome(env, env.keyConfig([], ToLower(authority)))
  {
    GatewayIsLookup(d, authority, d.fetchedAt(0));
    KeysFetched(Wired(d), d.KeySource()(0), d.fetch(0), ToLower(authority));
  }

  lemma RelayWired(d: Deployment, authority: string, body: seq<byte>)
    requires d.Starts()
    ensures var env, call := Wired(d), RelayCall(ToLower(authority), body, OHTTP_REQ, "post");
            RelayEffect(env, Gateway(d, authority, d.relayedAt(0)), d.client, body) ==
            Effect(Requests(d.RelaySource(), d.client, [call]), Passed(env, env.relay([], call)))
  {
    GatewayIsLookup(d, authority, d.relayedAt(0));
    CallRelayed(Wired(d), d.RelaySource(), d.client, ToLower(authority), body);
    assert Requests(d.RelaySource(), d.client, []) == [];
  }

  /** A disciplined stream, however its body is cut, sends at most one request, to the gateway that the spec and Redis
      name for its authority and with the exact body, and gives the client the one answer that the reply calls for. */
  lemma OneRequestOneReply(d: Deployment, headers: seq<Header>, chunks: seq<seq<byte>>)
    requires d.Starts() && Complete(headers, chunks)
    ensures var s, effect := EnvoyRun(Wired(d), headers, chunks), Serve(d, headers, Flatten(chunks));
            Asks(d, s) == effect.requests && s.trace.sent == [effect.answer]
  {
    var env, body := Wired(d), Flatten(chunks);
    var call := RelayCall(ToLower(Authority(headers)), body, OHTTP_REQ, "post");
    OneShotRefinement(env, headers, chunks);
    KeysWired(d, Authority(headers));
    RelayWired(d, Authority(headers), body);
    ShotIsChoice(env, headers, body, Requests(d.RelaySource(), d.client, [call]));
  }

  /** Two runs that agree on the steering headers look the same to the gateways, relayed and key requests alike, and
      to the client. */
  lemma GatewaysCannotTell(d: Deployment, run1: seq<Event>, run2: seq<Event>)
    requires d.Starts() && |run1| == |run2| && forall i :: 0 <= i < |run1| ==> Alike(run1[i], run2[i])
    ensures var s1, s2 := Run(Wired(d), run1), Run(Wired(d), run2);
            Asks(d, s1) == Asks(d, s2) && s1.trace.fetched == s2.trace.fetched && s1.trace.sent == s2.trace.sent
  {
    NonInterference(Wired(d), run1, run2);
  }
}
