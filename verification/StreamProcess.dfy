/** `Server.Process` in its own form: a loop that updates the stream's fields and the shared counters. */
module StreamProcess {
  import opened Text
  import opened Stream
  import opened StreamHistory
  import opened Metrics
  import Redis = Traffic

  /** The shared records as a stream found them. */
  datatype Tally = Tally(log: seq<Traffic>, errors: seq<string>, stored: seq<Redis.Recording>)

  /** The recordings asked of Redis for a stream's traffic records, each at its own time. */
  function Asked(traffic: seq<Traffic>, timings: nat -> Redis.Timing): seq<Redis.Recording> {
    seq(|traffic|, (i: nat) requires i < |traffic| =>
      Redis.Recording(traffic[i].host, traffic[i].bytesIn, traffic[i].bytesOut, timings(i)))
  }

  lemma {:induction false} RunStays(env: Env, events: seq<Event>, n: nat)
    requires n <= |events| && Run(env, events[..n]).exit.Some?
    ensures Run(env, events) == Run(env, events[..n])
  {
    if n == |events| {
      assert events[..n] == events;
    } else {
      var front := events[..|events| - 1];
      assert front[..n] == events[..n];
      RunStays(env, front, n);
    }
  }

  lemma RunOneMore(env: Env, events: seq<Event>, i: nat)
    requires i < |events| && Run(env, events[..i]).exit.None?
    ensures Run(env, events[..i + 1]) == Step(env, Run(env, events[..i]), events[i])
  {
    assert events[..i + 1] == events[..i] + [events[i]];
    RunSnoc(env, events[..i], events[i]);
  }

  /** The events a stream takes before it returns. */
  function Taken(env: Env, events: seq<Event>): seq<Event> {
    events[..Consumed(env, events)]
  }

  /** What the deferred record of a stream finds, told from the events it took. */
  lemma RunRecord(env: Env, events: seq<Event>)
    ensures var s, taken := Run(env, events), Taken(env, events);
            && s.st.httpMethod == ToLower(MethodHeader(LastHeaders(taken)))
            && s.meters == Meters(|Flatten(Chunks(taken))|, SentBytes(Answers(env, taken)), LastStatus(Answers(env, taken)))
            && s.trace.traffic == TrafficOf(env, Relays(env.limit, taken))
  {
    HistoryExplainsState(env, events);
    ReadMeaning(LastHeaders(Taken(env, events)));
  }

  lemma AskedInOrder(log: seq<Redis.Recording>, base: seq<Redis.Recording>, traffic: seq<Traffic>, timings: nat -> Redis.Timing)
    requires log == base + Asked(traffic, timings)
    ensures |log| == |base| + |traffic| && log[..|base|] == base
    ensures forall i :: 0 <= i < |traffic| ==>
              log[|base| + i] == Redis.Recording(traffic[i].host, traffic[i].bytesIn, traffic[i].bytesOut, timings(i))
  {
  }

  method ExtractHeaderValue(headers: seq<Header>, name: string) returns (value: string)
    ensures value == First(headers, name)
  {
    for i := 0 to |headers|
      invariant First(headers[i..], name) == First(headers, name)
    {
      assert headers[i..][1..] == headers[i + 1..];
      if EqualFold(headers[i].key, name) {
        return headers[i].value;
      }
    }
    return "";
  }

  method ExtractSteering(headers: seq<Header>) returns (q: Steering)
    ensures q == Read(headers)
  {
    var httpMethod := ExtractHeaderValue(headers, ":method");
    httpMethod := ToLower(httpMethod);
    if httpMethod == "" {
      httpMethod := ExtractHeaderValue(headers, "method");
      httpMethod := ToLower(httpMethod);
    }
    var host := ExtractHeaderValue(headers, ":authority");
    host := ToLower(host);
    if host == "" {
      host := ExtractHeaderValue(headers, "host");
      host := ToLower(host);
    }
    var contentType := ExtractHeaderValue(headers, "content-type");
    var path := ExtractHeaderValue(headers, ":path");
    var length := ExtractHeaderValue(headers, "content-length");
    var accept := ExtractHeaderValue(headers, "accept");
    q := Steering(httpMethod, host, contentType, path == CONFIGS_PATH, length != "" && length != "0",
                  ToLower(accept) == OHTTP_KEYS);
  }

  class Processor {
    const env: Env
    const counters: Counters
    const store: Redis.RedisTrafficMetrics?  // absent when the server was given none
    const timings: nat -> Redis.Timing       // when the stream's recordings reach Redis

    var host: string
    var configRequest: bool
    var reqContentType: string
    var httpMethod: string
    var body: seq<byte>
    var reqSize: int
    var respSize: int
    var statusCode: int

    // Calls and responses so far; the environment's answers depend on them.
    var relayed: seq<RelayCall>
    var fetched: seq<string>
    var sent: seq<Response>
    var traffic: seq<Traffic>
    ghost var errors: seq<string>

    constructor (env: Env, counters: Counters, store: Redis.RedisTrafficMetrics?, timings: nat -> Redis.Timing)
      ensures this.env == env && this.counters == counters && this.store == store && this.timings == timings
      ensures Abs(None) == INIT
    {
      this.env, this.counters, this.store, this.timings := env, counters, store, timings;
      host, configRequest, reqContentType, httpMethod, body := "", false, "", "", [];
      reqSize, respSize, statusCode := 0, 0, 200;
      relayed, fetched, sent, traffic, errors := [], [], [], [], [];
    }

    ghost function Abs(exit: Option<Exit>): State
      reads this
    {
      State(StreamState(host, configRequest, reqContentType, httpMethod, body), Meters(reqSize, respSize, statusCode),
            Trace(relayed, fetched, sent, traffic, errors), exit)
    }

    /** The counters and the Redis client, if there is one, tell the truth about what they were given. */
    ghost predicate MetersValid()
      reads this, counters, store
    {
      counters.Valid() && (store != null ==> store.Valid())
    }

    ghost function Now(): Tally
      reads this, counters, store
    {
      Tally(counters.log, counters.errors, if store != null then store.log else [])
    }

    /** The shared records have moved from `base` by exactly what this stream recorded. */
    ghost predicate Counted(base: Tally)
      reads this, counters, store
    {
      && MetersValid()
      && counters.log == base.log + traffic
      && counters.errors == base.errors + errors
      && (store != null ==> store.log == base.stored + Asked(traffic, timings))
    }

    /** The state once the pending response, if there is one, has been handed to Send. */
    ghost function Answering(response: Option<Response>): State
      reads this
    {
      if response.Some? then Deliver(env, Abs(None), response.value) else Abs(None)
    }

    method RespondKeyConfig(q: Steering) returns (response: Response)
      requires q.httpMethod == httpMethod && q.host == host
      modifies this`fetched
      ensures Stream.RespondKeyConfig(env, old(Abs(None)), q) == Deliver(env, Abs(None), response)
      ensures Some(response) == HeadersAnswer(env, old(fetched), q.(configPath := true))
      ensures fetched == old(fetched) + if q.httpMethod == "get" && q.acceptsKeys then [q.host] else []
    {
      if httpMethod != "get" {
        response := ErrorResponse(env, 405);
      } else if !q.acceptsKeys {
        response := ErrorResponse(env, 400);
      } else {
        response := KeyConfigResponse(env, env.keyConfig(fetched, host));
        fetched := fetched + [host];
      }
    }

    /** The checks that turn away a request for anything but the key configuration. */
    method FailFast(q: Steering) returns (response: Option<Response>)
      requires q.httpMethod == httpMethod && q.contentType == reqContentType && !q.configPath
      ensures response == HeadersAnswer(env, fetched, q)
    {
      OhttpTypeIsNotForeign(reqContentType);
      response := None;
      if httpMethod != "post" {
        response := Some(ErrorResponse(env, 405));
      } else if reqContentType != "" && !EqualFold(reqContentType, OHTTP_REQ) {
        response := Some(ErrorResponse(env, 415));
      } else if !q.hasLength {
        response := Some(ErrorResponse(env, 411));
      }
    }

    method HandleHeaders(q: Steering) returns (response: Option<Response>)
      modifies this
      ensures Answering(response) == OnHeaders(env, old(Abs(None)), q)
      ensures response == HeadersAnswer(env, old(fetched), q)
      ensures traffic == old(traffic) && errors == old(errors)
    {
      host, httpMethod, reqContentType := q.host, q.httpMethod, q.contentType;
      if q.configPath {
        configRequest := true;
        var r := RespondKeyConfig(q);
        response := Some(r);
      } else {
        response := FailFast(q);
      }
      assert Abs(None) == Noted(old(Abs(None)), q);
      OnHeadersIs(env, old(Abs(None)), q);
    }

    /** The same numbers go to the counters and to Redis; an error of Redis is only logged. */
    method Record(received: int, returned: int, ghost base: Tally)
      requires Counted(base)
      modifies this`traffic, counters`bytesIn, counters`bytesOut, counters`log, store
      ensures Counted(base) && traffic == old(traffic) + [Traffic(host, received, returned)]
      ensures store != null ==>
                store.log == old(store.log) + [Redis.Recording(host, received, returned, timings(|old(traffic)|))]
    {
      counters.RecordTrafficIO(host, received, returned);
      if store != null {
        var _ := store.RecordTraffic(host, received, returned, timings(|traffic|));
      }
      traffic := traffic + [Traffic(host, received, returned)];
    }

    method ForwardAndRespond(ghost base: Tally) returns (response: Response)
      requires Counted(base)
      modifies this`relayed, this`traffic, counters`bytesIn, counters`bytesOut, counters`log, store
      ensures Deliver(env, Abs(None), response) == Forward(env, old(Abs(None)))
      ensures var call := RelayCall(host, body, if OhttpType(reqContentType) then OHTTP_REQ else reqContentType,
                                    httpMethod);
              relayed == old(relayed) + [call] && response == Passed(env, env.relay(old(relayed), call))
      ensures Counted(base)
    {
      OhttpTypeIsNotForeign(reqContentType);
      var contentType := OHTTP_REQ;
      if reqContentType != "" && !EqualFold(reqContentType, OHTTP_REQ) {
        contentType := reqContentType;
      }
      var call := RelayCall(host, body, contentType, httpMethod);
      var outcome := env.relay(relayed, call);
      relayed := relayed + [call];
      if outcome.Answered? && outcome.status / 100 == 2 {
        Record(|body|, |outcome.body|, base);
        response := ImmediateResponse(200, OHTTP_RES, outcome.body);
      } else {
        response := ErrorResponse(env, 502);
      }
    }

    method HandleBody(chunk: seq<byte>, endOfStream: bool, ghost base: Tally)
      returns (response: Option<Response>, failed: bool)
      requires Counted(base)
      modifies this, counters`bytesIn, counters`bytesOut, counters`log, store
      ensures (if failed then Abort(Abs(None), "process_error") else Answering(response))
              == OnBody(env, old(Abs(None)), chunk, endOfStream)
      ensures Counted(base)
    {
      response, failed := None, false;
      reqSize := reqSize + |chunk|;
      if |body| + |chunk| > env.limit {
        body := [];
        response := Some(ErrorResponse(env, 413));
      } else {
        body := body + chunk;
        ghost var buffered := Abs(None);
        if endOfStream {
          assert !configRequest ==> OnBody(env, old(Abs(None)), chunk, true) == Forward(env, buffered);
          if configRequest {
            failed := true;
          } else {
            var r := ForwardAndRespond(base);
            response := Some(r);
          }
        }
      }
    }

    method Fail(reason: string, ghost base: Tally) returns (exit: Option<Exit>)
      requires Counted(base)
      modifies this`errors, counters`errors, counters`errorsTotal
      ensures Abs(exit) == Abort(old(Abs(None)), reason)
      ensures Counted(base)
    {
      counters.RecordError(reason);
      errors := errors + [reason];
      exit := Some(Failed(reason));
    }

    method Send(response: Option<Response>, ghost base: Tally) returns (exit: Option<Exit>)
      requires Counted(base)
      modifies this`statusCode, this`respSize, this`sent, this`errors, counters`errors, counters`errorsTotal
      ensures Abs(exit) == old(Answering(response))
      ensures Counted(base)
    {
      exit := None;
      if response.Some? {
        var r := response.value;
        statusCode := r.status;
        respSize := respSize + |r.body|;
        sent := sent + [r];
        if !env.sendOk(|sent| - 1) {
          exit := Fail("send_error", base);
        }
      }
    }

    method HandleMessage(m: Message, ghost base: Tally) returns (exit: Option<Exit>)
      requires Counted(base)
      modifies this, counters`errors, counters`errorsTotal, counters`bytesIn, counters`bytesOut, counters`log, store
      ensures Abs(exit) == OnMessage(env, old(Abs(None)), m)
      ensures Counted(base)
    {
      var response, failed := None, false;
      match m {
        case RequestHeaders(headers) =>
          var q := ExtractSteering(headers);
          response := HandleHeaders(q);
        case RequestBody(chunk, endOfStream) => response, failed := HandleBody(chunk, endOfStream, base);
        case RequestTrailers =>
        case ResponseHeaders =>
        case ResponseBody =>
        case Other =>
          exit := Fail("unknown_request_type", base);
          return;
      }
      if failed {
        exit := Fail("process_error", base);
      } else {
        exit := Send(response, base);
      }
    }

    method HandleEvent(e: Event, ghost base: Tally) returns (exit: Option<Exit>)
      requires Counted(base)
      modifies this, counters`errors, counters`errorsTotal, counters`bytesIn, counters`bytesOut, counters`log, store
      ensures Abs(exit) == Step(env, old(Abs(None)), e)
      ensures Counted(base)
    {
      match e
      case ContextDone => exit := Some(Cancelled);
      case EndOfInput => exit := Some(Clean);
      case RecvFailed => exit := Fail("recv_error", base);
      case Receive(m) => exit := HandleMessage(m, base);
    }

    /** The receive loop; when Envoy has nothing more to send, the receive returns io.EOF. */
    method Loop(all: seq<Event>) returns (exit: Exit)
      requires Abs(None) == INIT && MetersValid()
      requires all != [] && all[|all| - 1] == EndOfInput
      modifies this, counters`errors, counters`errorsTotal, counters`bytesIn, counters`bytesOut, counters`log, store
      ensures Abs(Some(exit)) == Run(env, all)
      ensures Counted(old(Now()))
    {
      ghost var base := Now();
      var i, done := 0, None;
      while done.None?
        invariant 0 <= i <= |all|
        invariant done.None? ==> i < |all|
        invariant Abs(done) == Run(env, all[..i])
        invariant Counted(base)
        decreases |all| - i
      {
        RunOneMore(env, all, i);
        done := HandleEvent(all[i], base);
        i := i + 1;
      }
      RunStays(env, all, i);
      exit := done.value;
    }

    /** The loop, and what the fields and the shared records then hold, told from the events. */
    method Serve(all: seq<Event>) returns (exit: Exit)
      requires Abs(None) == INIT && MetersValid()
      requires all != [] && all[|all| - 1] == EndOfInput
      modifies this, counters`errors, counters`errorsTotal, counters`bytesIn, counters`bytesOut, counters`log, store
      ensures Abs(Some(exit)) == Run(env, all) && MetersValid()
      ensures var taken := Taken(env, all);
              && httpMethod == ToLower(MethodHeader(LastHeaders(taken)))
              && reqSize == |Flatten(Chunks(taken))| && respSize == SentBytes(Answers(env, taken))
              && statusCode == LastStatus(Answers(env, taken))
              && traffic == TrafficOf(env, Relays(env.limit, taken))
      ensures counters.log == old(counters.log) + traffic
      ensures counters.errors == old(counters.errors) + Run(env, all).trace.errors
      ensures store != null ==> store.log == old(store.log) + Asked(traffic, timings)
    {
      exit := Loop(all);
      RunRecord(env, all);
    }

    /** The deferred record of the request. */
    method RecordSelf()
      requires counters.Valid()
      modifies counters`requestsTotal, counters`requestSizeBytes, counters`responseSizeBytes, counters`requests
      ensures counters.Valid()
      ensures counters.requests == old(counters.requests) +
                [RequestRecord(Attributes(if httpMethod == "" then "UNKNOWN" else httpMethod, statusCode / 100),
                               reqSize, respSize)]
    {
      var name := if httpMethod == "" then "UNKNOWN" else httpMethod;
      counters.RecordRequest(name, statusCode / 100, reqSize, respSize);
    }

    /** Serves the stream to its end. Whichever way it returns, it leaves the gauge as it was, has recorded itself
        once, with the bytes it received, the bytes of the answers its events call for and the last status, and has
        told the counters and Redis of the same traffic: that of the calls its events call for. */
    method Process(events: seq<Event>) returns (exit: Exit)
      requires Abs(None) == INIT && MetersValid()
      modifies this, counters, store
      ensures Abs(Some(exit)) == Run(env, events + [EndOfInput])
      ensures counters.activeRequests == old(counters.activeRequests)
      ensures var taken := Taken(env, events + [EndOfInput]);
              var answers, name := Answers(env, taken), ToLower(MethodHeader(LastHeaders(taken)));
              counters.requests == old(counters.requests) +
                [RequestRecord(Attributes(if name == "" then "UNKNOWN" else name,
                                          (if answers == [] then 200 else answers[|answers| - 1].status) / 100),
                               |Flatten(Chunks(taken))|, SentBytes(answers))]
      ensures traffic == TrafficOf(env, Relays(env.limit, Taken(env, events + [EndOfInput])))
      ensures MetersValid() && counters.log == old(counters.log) + traffic
      ensures counters.errors == old(counters.errors) + Run(env, events + [EndOfInput]).trace.errors
      ensures store != null ==>
                && |store.log| == |old(store.log)| + |traffic| && store.log[..|old(store.log)|] == old(store.log)
                && forall i :: 0 <= i < |traffic| ==>
                     store.log[|old(store.log)| + i] ==
                     Redis.Recording(traffic[i].host, traffic[i].bytesIn, traffic[i].bytesOut, timings(i))
    {
      counters.AddActive(1);
      exit := Serve(events + [EndOfInput]);
      if store != null {
        AskedInOrder(store.log, old(store.log), traffic, timings);
      }
      RecordSelf();
      counters.AddActive(-1);
    }
  }
}
