/** From a host to a gateway: the url sources, the relayer that uses them, and the key-configuration source beside it. */
module Routing {
  import opened Text
  import opened Stream
  import D = DomainMap

  /** The answer of a source; an empty url means that it knows none. */
  datatype Lookup = Url(url: string) | LookupFailed(error: string)

  /** What a url source answers to one lookup. Redis can change between two lookups, so the source that a component
      uses is one of these for each lookup it makes. */
  type Source = string -> Lookup

  predicate Settled(l: Lookup) {
    l.LookupFailed? || l.url != ""
  }

  function Static(urls: D.Urls): Source {
    (host: string) => Url(if host in urls then urls[host] else "")
  }

  datatype RedisRead = Found(value: string) | Missing | RedisError(error: string)

  /** What HGET answers for a host at each moment. */
  type Reads = (nat, string) -> RedisRead

  function Redis(read: Reads, time: nat): Source {
    (host: string) =>
      match read(time, ToLower(TrimSpace(host)))
      case Found(url) => Url(url)
      case Missing => Url("")
      case RedisError(e) => LookupFailed(e)
  }

  function Constant(url: string): Source {
    (host: string) => Url(url)
  }

  function Fallback(default: string, other: Source): Source {
    (host: string) => if Settled(other(host)) then other(host) else Url(default)
  }

  function Ask(sources: seq<Source>, host: string): Lookup {
    if sources == [] then Url("")
    else if Settled(sources[0](host)) then sources[0](host)
    else Ask(sources[1..], host)
  }

  function Chain(sources: seq<Source>): Source {
    (host: string) => Ask(sources, host)
  }

  /** Asks the sources in order and stops at the first error or url; `asked` counts those it asked. */
  method ChainSources(sources: seq<Source>, host: string) returns (r: Lookup, asked: nat)
    ensures r == Ask(sources, host)
    ensures asked <= |sources|
    ensures forall i :: 0 <= i < asked - 1 ==> !Settled(sources[i](host))
    ensures if Settled(r) then asked > 0 && r == sources[asked - 1](host)
            else asked == |sources| && forall i :: 0 <= i < |sources| ==> !Settled(sources[i](host))
  {
    asked := 0;
    while asked < |sources|
      invariant asked <= |sources|
      invariant forall i :: 0 <= i < asked ==> !Settled(sources[i](host))
      invariant Ask(sources[asked..], host) == Ask(sources, host)
    {
      assert sources[asked..][1..] == sources[asked + 1..];
      r := sources[asked](host);
      asked := asked + 1;
      if Settled(r) {
        return;
      }
    }
    r := Url("");
  }

  // The algebra of chains.

  lemma AskTwo(a: Source, b: Source, host: string)
    ensures Ask([a, b], host) == if Settled(a(host)) then a(host) else b(host)
  {
    var two := [a, b];
    assert two[1..] == [b] && [b][1..] == [];
    assert Ask([b], host) == if Settled(b(host)) then b(host) else Ask([], host);
  }

  lemma {:induction false} ChainConcat(a: seq<Source>, b: seq<Source>, host: string)
    ensures Ask(a + b, host) == Ask([Chain(a), Chain(b)], host)
  {
    AskTwo(Chain(a), Chain(b), host);
    if a == [] {
      assert a + b == b;
    } else {
      ChainConcat(a[1..], b, host);
      AskTwo(Chain(a[1..]), Chain(b), host);
      assert (a + b)[1..] == a[1..] + b;
    }
  }

  lemma EmptyChainIsUnit(a: seq<Source>, host: string)
    ensures Ask([Chain([])] + a, host) == Ask(a, host) == Ask(a + [Chain([])], host)
  {
    assert ([Chain([])] + a)[1..] == a;
    UnitAtEnd(a, host);
  }

  lemma {:induction false} UnitAtEnd(a: seq<Source>, host: string)
    ensures Ask(a + [Chain([])], host) == Ask(a, host)
  {
    var s := a + [Chain([])];
    if a == [] {
      assert s[0] == Chain([]) && s[1..] == [];
    } else {
      UnitAtEnd(a[1..], host);
      assert s[1..] == a[1..] + [Chain([])];
    }
  }

  lemma FallbackIsChain(default: string, other: Source, host: string)
    ensures Fallback(default, other)(host) == Ask([other, Constant(default)], host)
  {
    AskTwo(other, Constant(default), host);
  }

  // The sources of the running relay.

  /** Static mappings first and then Redis, which may be switched off. */
  function GatewaySource(urls: D.Urls, redis: Option<Reads>, time: nat): Source {
    match redis
    case None => Static(urls)
    case Some(read) => Chain([Static(urls), Redis(read, time)])
  }

  lemma {:induction false} TrimLeftLower(s: string)
    ensures TrimLeft(ToLower(s)) == ToLower(TrimLeft(s))
  {
    if s != "" && IsSpace(s[0]) {
      TrimLeftLower(s[1..]);
      assert ToLower(s)[1..] == ToLower(s[1..]);
    }
  }

  lemma {:induction false} TrimRightLower(s: string)
    ensures TrimRight(ToLower(s)) == ToLower(TrimRight(s))
  {
    if s != "" && IsSpace(s[|s| - 1]) {
      TrimRightLower(s[..|s| - 1]);
      assert ToLower(s)[..|s| - 1] == ToLower(s[..|s| - 1]);
    }
  }

  lemma NormalForm(authority: string)
    ensures ToLower(TrimSpace(ToLower(authority))) == ToLower(TrimSpace(authority))
  {
    TrimLeftLower(authority);
    TrimRightLower(TrimLeft(authority));
    ToLowerFacts(TrimSpace(authority));
  }

  /** Routing, end to end: the last static binding of the lower-cased authority, and only without one
      the Redis entry under the trimmed lower-cased authority. */
  lemma RouteMeaning(spec: string, redis: Option<Reads>, time: nat, authority: string)
    requires D.Parse(spec).Ok?
    ensures GatewaySource(D.Parse(spec).value, redis, time)(ToLower(authority)) ==
            match (D.LastBinding(D.Split(spec, ','), ToLower(authority)), redis)
            case (Some(url), _) => Url(url)
            case (None, None) => Url("")
            case (None, Some(read)) =>
              match read(time, ToLower(TrimSpace(authority)))
              case Found(url) => Url(url)
              case Missing => Url("")
              case RedisError(e) => LookupFailed(e)
  {
    var urls, host := D.Parse(spec).value, ToLower(authority);
    D.ParseIsPairs(spec);
    D.ParseWellFormed(spec);
    D.LastBindingWins(D.Split(spec, ','), host);
    NormalForm(authority);
    if redis.Some? {
      AskTwo(Static(urls), Redis(redis.value, time), host);
    }
  }

  /** A parsed binding is never empty. */
  lemma BindingNotEmpty(spec: string, host: string)
    requires D.Parse(spec).Ok? && D.LastBinding(D.Split(spec, ','), host).Some?
    ensures D.LastBinding(D.Split(spec, ','), host).value != ""
  {
    D.ParseIsPairs(spec);
    D.ParseWellFormed(spec);
    D.LastBindingWins(D.Split(spec, ','), host);
  }

  /** Nothing Redis answers, failures included, reaches a host that is statically mapped, at any time. */
  lemma StaticIgnoresRedis(spec: string, redis1: Option<Reads>, time1: nat, redis2: Option<Reads>, time2: nat,
                           authority: string)
    requires D.Parse(spec).Ok? && D.LastBinding(D.Split(spec, ','), ToLower(authority)).Some?
    ensures GatewaySource(D.Parse(spec).value, redis1, time1)(ToLower(authority))
            == GatewaySource(D.Parse(spec).value, redis2, time2)(ToLower(authority))
  {
    RouteMeaning(spec, redis1, time1, authority);
    RouteMeaning(spec, redis2, time2, authority);
  }

  /** No entry, or an empty one: the host is unknown either way. */
  predicate Unknown(r: RedisRead) {
    r == Missing || r == Found("")
  }

  /** Two lookups of a host agree exactly when it has a static binding, there is no Redis, or Redis said the same. */
  lemma LookupsAgreeIff(spec: string, redis: Option<Reads>, time1: nat, time2: nat, authority: string)
    requires D.Parse(spec).Ok?
    ensures GatewaySource(D.Parse(spec).value, redis, time1)(ToLower(authority))
            == GatewaySource(D.Parse(spec).value, redis, time2)(ToLower(authority)) <==>
            || D.LastBinding(D.Split(spec, ','), ToLower(authority)).Some?
            || redis.None?
            || (var name := ToLower(TrimSpace(authority));
                var read1, read2 := redis.value(time1, name), redis.value(time2, name);
                read1 == read2 || (Unknown(read1) && Unknown(read2)))
  {
    RouteMeaning(spec, redis, time1, authority);
    RouteMeaning(spec, redis, time2, authority);
  }

  // The relayer.

  datatype GatewayRequest = GatewayRequest(httpMethod: string, url: string, headers: map<string, string>, body: seq<byte>)

  /** How an exchange with a gateway ends. A broken one may still have brought a status. */
  datatype Exchange = Broken(status: int) | Unreadable(status: int) | Reply(status: int, body: seq<byte>)

  /** Go's HTTP client: whether a request can be built, and what the gateways answer, given the earlier requests. */
  datatype Client = Client(
    canBuild: (string, string) -> bool,
    exchange: (seq<GatewayRequest>, GatewayRequest) -> Exchange)

  /** The request a call leads to, if it leads to one. */
  function RequestFor(source: Source, client: Client, call: RelayCall): Option<GatewayRequest> {
    var target := source(call.host);
    if target.LookupFailed? || target.url == "" || !client.canBuild(call.httpMethod, target.url) then None
    else
      var typed := if call.contentType != "" then map["Content-Type" := call.contentType] else map[];
      Some(GatewayRequest(call.httpMethod, target.url, typed["User-Agent" := ""], call.body))
  }

  function OutcomeOf(e: Exchange): RelayOutcome {
    match e
    case Broken(_) => RelayFailed
    case Unreadable(status) => ReadFailed(status)
    case Reply(status, body) => Answered(status, body)
  }

  function RelayResult(source: Source, client: Client, earlier: seq<GatewayRequest>, call: RelayCall): RelayOutcome {
    match RequestFor(source, client, call)
    case None => if source(call.host) == Url("") then NoGateway else RelayFailed
    case Some(request) => OutcomeOf(client.exchange(earlier, request))
  }

  class HTTPRelayer {
    const source: nat -> Source  // by the relayer's lookups
    const client: Client
    var lookups: nat
    var requests: seq<GatewayRequest>
    var statuses: seq<int>  // RecordGatewayRequest

    constructor (source: nat -> Source, client: Client)
      ensures this.source == source && this.client == client && lookups == 0 && requests == [] && statuses == []
    {
      this.source, this.client, lookups, requests, statuses := source, client, 0, [], [];
    }

    /** Looks the host up once, sends one request, or none when there is no gateway, and records the status of each
        exchange. */
    method Relay(host: string, body: seq<byte>, contentType: string, httpMethod: string) returns (outcome: RelayOutcome)
      modifies this
      ensures var call := RelayCall(host, body, contentType, httpMethod);
              && lookups == old(lookups) + 1
              && outcome == RelayResult(source(old(lookups)), client, old(requests), call)
              && (match RequestFor(source(old(lookups)), client, call)
                  case None => requests == old(requests) && statuses == old(statuses)
                  case Some(request) =>
                    && requests == old(requests) + [request]
                    && statuses == old(statuses) + [client.exchange(old(requests), request).status])
      ensures var target := source(old(lookups))(host);
              if target.LookupFailed? || target.url == "" || !client.canBuild(httpMethod, target.url) then
                requests == old(requests) && outcome == if target == Url("") then NoGateway else RelayFailed
              else
                && |requests| == |old(requests)| + 1
                && (var r := requests[|old(requests)|];
                    && r.httpMethod == httpMethod && r.url == target.url && r.body == body
                    && r.headers == (if contentType != "" then map["Content-Type" := contentType, "User-Agent" := ""]
                                     else map["User-Agent" := ""])
                    && (match client.exchange(old(requests), r)
                        case Broken(_) => outcome == RelayFailed
                        case Unreadable(status) => outcome == ReadFailed(status)
                        case Reply(status, reply) => outcome == Answered(status, reply)))
    {
      var target := source(lookups)(host);
      lookups := lookups + 1;
      if target.LookupFailed? {
        return RelayFailed;
      }
      if target.url == "" {
        return NoGateway;
      }
      if !client.canBuild(httpMethod, target.url) {
        return RelayFailed;
      }
      var headers: map<string, string> := map[];
      if contentType != "" {
        headers := headers["Content-Type" := contentType];
      }
      headers := headers["User-Agent" := ""];
      var request := GatewayRequest(httpMethod, target.url, headers, body);
      var e := client.exchange(requests, request);
      requests := requests + [request];
      statuses := statuses + [e.status];
      return OutcomeOf(e);
    }
  }

  /** The requests the calls lead to, in order, each call with its own lookup. */
  function Requests(source: nat -> Source, client: Client, calls: seq<RelayCall>): seq<GatewayRequest> {
    if calls == [] then []
    else
      Requests(source, client, calls[..|calls| - 1]) +
      match RequestFor(source(|calls| - 1), client, calls[|calls| - 1])
      case None => []
      case Some(request) => [request]
  }

  // The key-configuration source.

  datatype Fetch = FetchFailed | Fetched(status: int, bytes: seq<byte>)

  function KeyConfigUrl(source: Source, host: string): Option<string> {
    match source(host)
    case LookupFailed(_) => None
    case Url(url) => if url == "" then None else Some(url + CONFIGS_PATH)
  }

  function KeyConfigOf(source: Source, fetch: string -> Fetch, host: string): KeyConfigOutcome {
    match KeyConfigUrl(source, host)
    case None => KeyConfigFailed
    case Some(url) =>
      match fetch(url)
      case FetchFailed => KeyConfigFailed
      case Fetched(status, bytes) => if status != 200 then KeyConfigFailed else KeyConfig(bytes)
  }

  lemma AppendInjective(a: string, b: string, end: string)
    ensures a + end == b + end <==> a == b
  {
    assert (a + end)[..|a + end| - |end|] == a && (b + end)[..|b + end| - |end|] == b;
  }

  /** The key fetch and the relay look the host up separately. When both reach a gateway it is the same one exactly
      when the host has a static binding or Redis read the same both times. */
  lemma SameGatewayIff(spec: string, redis: Option<Reads>, fetched: nat, relayed: nat, authority: string, client: Client,
                       call: RelayCall)
    requires D.Parse(spec).Ok? && call.host == ToLower(authority)
    requires KeyConfigUrl(GatewaySource(D.Parse(spec).value, redis, fetched), call.host).Some?
    requires RequestFor(GatewaySource(D.Parse(spec).value, redis, relayed), client, call).Some?
    ensures KeyConfigUrl(GatewaySource(D.Parse(spec).value, redis, fetched), call.host).value
            == RequestFor(GatewaySource(D.Parse(spec).value, redis, relayed), client, call).value.url
               + "/.well-known/ohttp-configs" <==>
            || D.LastBinding(D.Split(spec, ','), ToLower(authority)).Some?
            || (redis.Some? && var name := ToLower(TrimSpace(authority));
                redis.value(fetched, name) == redis.value(relayed, name))
  {
    RouteMeaning(spec, redis, fetched, authority);
    RouteMeaning(spec, redis, relayed, authority);
    var urls := D.Parse(spec).value;
    var first, second := GatewaySource(urls, redis, fetched)(call.host), GatewaySource(urls, redis, relayed)(call.host);
    AppendInjective(first.url, second.url, CONFIGS_PATH);
  }

  /** An entry that moves from one gateway to another between the two lookups. */
  const MOVED: Reads := (time: nat, host: string) => Found(if time == 0 then "https://a" else "https://b")

  /** The keys then come from the one gateway, and the request that was made with them goes to the other. */
  lemma KeysOfAnotherGateway(client: Client, call: RelayCall)
    requires client.canBuild(call.httpMethod, "https://b")
    ensures KeyConfigUrl(GatewaySource(map[], Some(MOVED), 0), call.host) == Some("https://a/.well-known/ohttp-configs")
    ensures RequestFor(GatewaySource(map[], Some(MOVED), 1), client, call).Some?
    ensures RequestFor(GatewaySource(map[], Some(MOVED), 1), client, call).value.url == "https://b"
  {
    assert "https://a" + "/.well-known/ohttp-configs" == "https://a/.well-known/ohttp-configs";
    AskTwo(Static(map[]), Redis(MOVED, 0), call.host);
    AskTwo(Static(map[]), Redis(MOVED, 1), call.host);
  }
}
