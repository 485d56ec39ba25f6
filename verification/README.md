# OHTTP relay: a verified model

A Dafny model of the OHTTP relay (an Envoy external processor for RFC 9458), of the meters its streams share, of the
way it finds a gateway, and of the key-configuration codecs around it. `dafny verify dfyconfig.toml` checks everything.

- `Text` – bytes, and the ASCII string functions the relay uses.
- `Stream` – one ext_proc stream: the values `Server.Process` keeps and what each received event does to them, with
  oracles for the gateway, the key-configuration source and Send.
- `StreamHistory` – laws of every run, with no assumption on Envoy: the whole state is an account of the taken events.
- `StreamDiscipline` – two-run laws: under Envoy's discipline a stream is one decision on the headers and the whole body,
  however the body is cut; headers that do not steer the relay leave no trace on any run.
- `StreamProcess`, `Metrics` – `Process` as a loop over the fields of an object, the shared counters and the Redis client,
  proved to run `Stream.Run`.
- `Traffic`, `Metering`, `MeteringLaws`, `MeteredStreams` – hourly Redis buckets; any number of streams and recordings
  interleaved action by action under one clock with expiring keys and failing calls; the meters against the streams' runs.
  `Sums` holds the totals they use.
- `DomainMap`, `Routing`, `EndToEnd` – the mapping parser, the url sources with a Redis that may change between lookups, the
  relayer, and the path from the spec, the headers and the chunks to the request a gateway receives and the client's answer.
- `KeyConfigCodec`, `Frame` – the YAML record of a key configuration and the two-byte length frame.

The definitions that the handlers, the parser and the codecs share with their laws are tied down by laws that spell them out:
`ReadMeaning` and `AcceptableIff` for the header checks, `SpecParsesIff` for the parser, `NameMeaning` and `DayOfDate` for
bucket names and the calendar, `MarshalMeaning` and `UnmarshalMeaning` for the algorithm tables, `HexMeaning` and
`UnframeMeaning` for the byte formats, `ToLowerMeaning` for letters.

The discipline of `StreamDiscipline.EnvoyRun` is: one header message first, then body chunks with EndOfStream on the last,
nothing after an immediate response. `EnvoyRunIsRun` shows that such a stream is a run of the real loop.

In `Metering` a stream enters or leaves `Process` and changes the gauge in one step, so `GaugeCountsStreams` only adds up the
steps; that the code changes the gauge once on entry and once on every way out is the contract of
`StreamProcess.Processor.Process`.

Where the code differs from what its comments or documents say, the model follows the code:

- The body buffer is cleared only by an over-limit chunk, not by a forward or by new headers (`HistoryExplainsState`).
- 411 and 415 are missing from the status table and go out as 500, although section 5.2 of RFC 9458 asks for 4xx
  (`RefusalStatusIs4xx` gives the exact condition, `ForeignPostGets500` an input).
- The method handed to the gateway is the lower-cased `post` (`DisciplinedStream`).
- A stream whose end is signalled only by trailers never forwards (`RelaysAtMostEnds`).
- EXPIRE is sent without NX and renews the ttl on every recording (`Traffic.RedisTrafficMetrics.RecordTraffic`). Conservation
  still holds exactly when the ttl is at least an hour plus the command delay (`ConservationIff`).
- A pair of the documented colon form is cut at the first `=` if it has one, and at the first colon of the domain
  (`ColonFormIff`; `ColonFormMissesUrl` and `ColonFormMissesDomain` are inputs).
- The key fetch and the relay look a host up separately, so keys can come from one gateway and the request go to another when
  the Redis entry changes in between (`SameGatewayIff`, `KeysOfAnotherGateway`).
- Keys are meant to disappear on their own, but a recording that fails between HINCRBY and EXPIRE leaves a bucket without an
  expiry until a later recording of that hour completes, and forever if none does (`LeakedIff`, `LeakIsForever`).
- The client passes on everything behind the length prefix, not just the declared length, so the round trip holds for all
  lengths, while truncation is caught only up to 65535 bytes (`FrameRoundTrip`, `TruncationCaughtIff`).

## Model

| member | source | states |
|---|---|---|
| Text.ToLowerMeaning | pkg/ohttp-relay/handlers/server.go:111-119 | lower-casing turns each letter A-Z into its lower-case letter and changes nothing else |
| Stream.FirstIsTheFirst | pkg/ohttp-relay/handlers/server.go:345-356 | a header read is the value of the first key equal up to case, or empty when there is none |
| StreamHistory.HistoryExplainsState | pkg/ohttp-relay/handlers/server.go:86-195 | over every event sequence the whole state is a function of the events taken: buffer, host, method, content type and config flag; relay calls, key fetches, every response with its status and bytes, traffic records, errors and exit; and the meters, computed from those responses |
| StreamHistory.BufferBounded | pkg/ohttp-relay/handlers/server.go:146-153 | the buffer, the concatenation of the chunks since the last over-limit one, is within the limit, or empty |
| StreamHistory.EveryRelayHasItsMoment | pkg/ohttp-relay/handlers/server.go:146-156 | the i-th relay call belongs to the i-th forwarding EndOfStream chunk, one to one, and carries the headers and exactly the buffer of that moment, never more than the limit |
| StreamHistory.RelaysAtMostEnds | pkg/ohttp-relay/handlers/server.go:154-156 | relay calls never outnumber EndOfStream chunks, so nothing is retried and nothing forwarded on trailers |
| StreamHistory.ConfigSilencesRelay | pkg/ohttp-relay/handlers/server.go:121-124 | after a key-config header message no event of any later sequence causes a relay call |
| StreamHistory.ConfigStreamRefusesBody | pkg/ohttp-relay/handlers/server.go:206-209 | an EndOfStream chunk within the limit on such a stream ends it with an error, with no call and no response |
| StreamDiscipline.OneShotRefinement | pkg/ohttp-relay/handlers/server.go:105-195 | for every body, cutting, limit and environment a disciplined stream makes the calls, fetches, responses and traffic records of one decision on the whole body |
| StreamDiscipline.ChunkingIndependence | pkg/ohttp-relay/handlers/server.go:142-156 | two cuttings of one body are indistinguishable, over-limit bodies included |
| StreamDiscipline.AcceptableIff | pkg/ohttp-relay/handlers/server.go:120-139 | a request is let through exactly when its path is not the key-configuration path, its method is post in any case, its content type absent or message/ohttp-req in any case, and its length neither absent nor 0; the handler's own checks come to the same |
| StreamDiscipline.DisciplinedStream | pkg/ohttp-relay/handlers/server.go:206-267 | exactly one response; one relay call exactly for a request let through and within the limit, with the lower-cased authority, the exact body and message/ohttp-req; a 2xx goes to the client and the traffic record, anything else is a 502 |
| StreamDiscipline.OrdinaryRequest | pkg/ohttp-relay/handlers/server.go:111-156 | the relayed call of a plain request in two chunks, whose authority differs from its host header |
| StreamDiscipline.TrafficMatchesMeters | pkg/ohttp-relay/handlers/server.go:239-251 | a relayed stream's traffic bytes equal its request and response sizes |
| StreamDiscipline.RefusalStatusIs4xx | pkg/ohttp-relay/handlers/server.go:295-339 | of all requests refused on their headers exactly those on the key-configuration path or with a wrong method get a 4xx |
| StreamDiscipline.ForeignPostGets500 | pkg/ohttp-relay/handlers/server.go:130-131 | a POST with a foreign content type is answered with 500 and the phrase of 415 |
| StreamHistory.ReadMeaning | pkg/ohttp-relay/handlers/server.go:111-139 | what the handler reads: the lower-cased :method and :authority, or when they are empty method and host; content-type as it is; whether the path, the length and the lower-cased accept are the ones named |
| StreamDiscipline.EnvoyRunIsRun | pkg/ohttp-relay/handlers/server.go:177-195 | a disciplined stream is a run of the loop on the shortest answered prefix of its chunks |
| StreamDiscipline.NonInterference | pkg/ohttp-relay/handlers/server.go:106-139 | any two runs whose header messages agree on the eight steering names reach the same state: calls, responses, meters, errors |
| StreamDiscipline.ProjectionDecides | pkg/ohttp-relay/handlers/server.go:345-356 | adding, removing, moving other headers and re-casing any key keeps that agreement |
| StreamDiscipline.SwapAgrees | pkg/ohttp-relay/handlers/server.go:345-356 | neighbouring headers with different names may change places |
| StreamProcess.ExtractHeaderValue | pkg/ohttp-relay/handlers/server.go:345-356 | the search loop finds that first value |
| StreamProcess.Processor.HandleHeaders | pkg/ohttp-relay/handlers/server.go:106-141 | new fields are those of Stream.OnHeaders, and the pending response the one the history of the stream calls for |
| StreamProcess.Processor.HandleBody | pkg/ohttp-relay/handlers/server.go:142-156 | new fields, pending response or failure are those of Stream.OnBody |
| StreamProcess.Processor.ForwardAndRespond | pkg/ohttp-relay/handlers/server.go:206-267 | one call, the response for its outcome, and on success only, the same traffic recorded in the counters and asked of Redis |
| StreamProcess.Processor.RespondKeyConfig | pkg/ohttp-relay/handlers/server.go:269-293 | method and accept checks, then the fetched configuration or an error |
| StreamProcess.Processor.Process | pkg/ohttp-relay/handlers/server.go:60-196 | whichever way it returns: the final state of the run, the gauge as before, one request record with the lower-cased method of the last headers, or UNKNOWN when that is empty, all received bytes, and the bytes and last status (200 without any) of the answers the events call for, and exactly the traffic and errors of the run added to the counters, with the same traffic, record by record, asked of Redis |
| Metrics.Counters.RecordTrafficIO | pkg/ohttp-relay/metrics/metrics.go:175-182 | the two counters of the host grow by the bytes received and returned, no other changes, and all stay the totals of the records |
| Metrics.Counters.RecordRequest | pkg/ohttp-relay/metrics/metrics.go:144-154 | for each method and status category the request count and the sums of both size histograms stay the totals of all records |
| Metrics.Counters.RecordError | pkg/ohttp-relay/metrics/metrics.go:157-161 | the error counter of each kind stays the number of errors recorded under it |
| Traffic.KeysInjective | pkg/ohttp-relay/traffic/metrics.go:73-77 | two bucket names are equal exactly when host and hour are, whatever the hosts contain |
| Traffic.NameMeaning | pkg/ohttp-relay/traffic/metrics.go:71-77 | a bucket name is gateway:, the host, :traffic: and four numbers in decimal that read back, as year, month, day and hour, to the UTC date and hour of the clock, the date being the one with that day count |
| Traffic.NameOfTestTime | pkg/ohttp-relay/traffic/metrics.go:73-77 | the name for example.com on 15 March 2024 at 14h, letter by letter |
| Traffic.DayOfDate | pkg/ohttp-relay/traffic/metrics.go:75 | the date reached by counting days is the one whose closed-form Gregorian day number the count is |
| Traffic.DateOfDay | pkg/ohttp-relay/traffic/metrics.go:75 | and every Gregorian date is reached at its day number |
| Traffic.NamesInjective | pkg/ohttp-relay/traffic/metrics.go:73-77 | the same for hours of the clock, through the UTC calendar, in all years from 0 on, five digits and more included |
| Traffic.RedisTrafficMetrics.RecordTraffic | pkg/ohttp-relay/traffic/metrics.go:47-69 | every bucket holds what was found in it and what all recordings so far wrote; the arrived prefix of the three commands adds its bytes to the bucket of its host and hour and touches no other, EXPIRE sets the time anew, and the result is an error exactly when a command was lost; without a client nothing happens |
| Traffic.NewStore | pkg/ohttp-relay/traffic/metrics.go:24-42 | a client that does not answer the ping is refused; otherwise the store is attached to the Redis as it is, and a ttl that is not positive becomes 72 hours |
| Metering.InvAlways | pkg/ohttp-relay/traffic/metrics.go:47-69 | in every world of every interleaving: gauge and counters exact, no bucket above what was written and exact if never expired, expiry times between hour start + ttl and last possible write + ttl, each set by the EXPIRE of one of the bucket's recordings |
| MeteringLaws.GaugeCountsStreams | pkg/ohttp-relay/handlers/server.go:66-67 | the gauge is the number of streams inside Process, zero when all have left |
| MeteringLaws.ConservationWhenDone | pkg/ohttp-relay/traffic/metrics.go:52-63 | once all recordings completed, a live bucket is the sum over the recordings of its host and hour, only recorded keys exist, and a missing one is a ttl past its hour's start |
| MeteringLaws.NoOpenHourExpires | pkg/ohttp-relay/traffic/metrics.go:60-63 | an expired bucket's hour and delay are over and nothing in flight can still write to it |
| MeteringLaws.TtlIsTight | pkg/ohttp-relay/traffic/metrics.go:60-61 | for every shorter ttl, a run in which all recordings complete and bytes are lost |
| MeteringLaws.ConservationIff | pkg/ohttp-relay/traffic/metrics.go:24-27 | conservation in all reachable worlds if and only if ttl >= 1h + delay |
| MeteringLaws.StorageBound | pkg/ohttp-relay/app/app.go:144 | in every run a host has at most floor((ttl + delay - 2ns) / 1h) + 2 live buckets, 73 for 72h and no delay, plus the leaked ones; none is leaked when no recording failed |
| MeteringLaws.StorageBoundAttained | pkg/ohttp-relay/app/app.go:144 | for every ttl and delay a run without failures has exactly that many |
| MeteringLaws.NoExpiryIff | pkg/ohttp-relay/traffic/metrics.go:60-63 | a live bucket has no expiry if and only if every time that an EXPIRE of its recordings set is past |
| MeteringLaws.LeakedIff | pkg/ohttp-relay/traffic/metrics.go:60-66 | with ttl >= 1h + delay, a live bucket past its hour and delay has no expiry if and only if every recording sent for it failed |
| MeteringLaws.LeakIsForever | pkg/ohttp-relay/traffic/metrics.go:60-66 | such a bucket stays, unchanged, in every later world of the run |
| MeteringLaws.RecordNow | pkg/ohttp-relay/traffic/metrics.go:52-63 | an uninterrupted recording is its three commands in order on the bucket of its host and hour, and nothing else |
| MeteringLaws.FailureLeaks | pkg/ohttp-relay/traffic/metrics.go:54-66 | after any time there is a run in which a recording that failed before EXPIRE has left such a bucket |
| MeteringLaws.RedisWithinProcess | pkg/ohttp-relay/handlers/server.go:243-251 | per host Redis never holds more than the process counted, through failures and expiries, and exactly that when all completed and none expired |
| MeteredStreams.MetersAreTraffic | pkg/ohttp-relay/handlers/server.go:239-251 | for any set of streams in any interleaving, per host: Redis holds at most what the process counted, and that is at most the sum of the traffic records of the streams' runs; the process has exactly that sum once all recordings are counted, and Redis when all completed and none expired |
| MeteredStreams.AnyStreamsServed | pkg/ohttp-relay/handlers/server.go:60-67 | every set of stream runs is served by some run of the meters |
| DomainMap.ParseDomainMap | pkg/ohttp-relay/config/config.go:71-99 | the loop computes the specified map or the error of the first bad pair |
| DomainMap.ParserHomomorphism | pkg/ohttp-relay/config/config.go:76-97 | parsing a + "," + b fails with a's error, else b's, else gives a's map overridden by b's |
| DomainMap.SpecParsesIff | pkg/ohttp-relay/config/config.go:76-95 | a spec parses if and only if each piece between commas is blank or splits at its separator into two parts that are not blank |
| DomainMap.SpecFailsAtFirst | pkg/ohttp-relay/config/config.go:88-95 | the error is that of the first other piece: a missing separator when it has neither = nor colon, an empty part otherwise |
| DomainMap.PairWithoutSeparator | pkg/ohttp-relay/config/config.go:88-90 | a pair with neither separator is refused, quoted without its surrounding white space |
| DomainMap.BareDomainRefused | pkg/ohttp-relay/config/config.go:88-90 | the spec example.com is refused |
| DomainMap.PairMeaning | pkg/ohttp-relay/config/config.go:83-95 | a pair binds the trimmed lower-cased text before its separator to the trimmed text after it, or fails when one is empty |
| DomainMap.SeparatorPadded | pkg/ohttp-relay/config/config.go:91-92 | white space around the separator changes no binding, and no failure except in the text quoted |
| DomainMap.PairPadded | pkg/ohttp-relay/config/config.go:78 | white space around a pair changes nothing |
| DomainMap.SpecPadded | pkg/ohttp-relay/config/config.go:73-78 | white space around a spec changes nothing |
| DomainMap.BlankPairs | pkg/ohttp-relay/config/config.go:79-81 | blank pairs at the ends or in the middle of a spec change nothing |
| DomainMap.ParseWellFormed | pkg/ohttp-relay/config/config.go:91-96 | parsed domains are trimmed, lower-case, non-empty and free of = and comma; urls trimmed, non-empty and free of comma |
| DomainMap.ParsePrintParse | pkg/ohttp-relay/config/config.go:71-99 | printing a parsed map in any order of its keys and parsing again gives the same map |
| DomainMap.ParserImage | pkg/ohttp-relay/config/config.go:71-99 | the maps the parser can yield are exactly the well-formed ones |
| DomainMap.ColonFormIff | pkg/ohttp-relay/config/config.go:83-87 | domain:url binds domain to url if and only if the url has no = and the domain no colon |
| DomainMap.ColonFormMissesUrl | pkg/ohttp-relay/config/config.go:83-84 | h:u=v binds h:u to v |
| DomainMap.ColonFormMissesDomain | pkg/ohttp-relay/config/config.go:85-87 | h:1:u binds h to 1:u |
| DomainMap.LastBindingWins | pkg/ohttp-relay/config/config.go:96 | a host maps to the url of the last pair that names it |
| Routing.ChainSources | pkg/ohttp-relay/gateway/source.go:36-49 | asks exactly the shortest prefix of sources up to the first error or url, and answers with it |
| Routing.ChainConcat | pkg/ohttp-relay/gateway/source.go:36-49 | chaining a concatenation equals chaining the two chains |
| Routing.EmptyChainIsUnit | pkg/ohttp-relay/gateway/source.go:36-49 | the empty chain is a unit on both sides |
| Routing.FallbackIsChain | pkg/ohttp-relay/gateway/source.go:22-33 | a fallback is a chain with a constant |
| Routing.RouteMeaning | pkg/ohttp-relay/app/app.go:114-154 | for every spec that parses, every authority and every moment the gateway is the last static binding, else the Redis entry of the trimmed lower-cased authority at that moment, with missing and failed reads told apart |
| Routing.NormalForm | pkg/ohttp-relay/gateway/redis.go:30-31 | normalising the lower-cased host is normalising the authority |
| Routing.StaticIgnoresRedis | pkg/ohttp-relay/gateway/source.go:38-46 | nothing Redis answers, at any two moments, reaches a statically mapped host |
| Routing.LookupsAgreeIff | pkg/ohttp-relay/gateway/source.go:36-49 | two lookups of a host agree if and only if it has a static binding, Redis is off, or Redis said the same, a missing entry being the same as an empty one |
| Routing.HTTPRelayer.Relay | pkg/ohttp-relay/relay/relayer.go:42-81 | one lookup, one request to the url it gave or none, its outcome, and one recorded status for each exchange; the request has the method, url and body given, and as headers an empty User-Agent and the content type, if there is one |
| Routing.SameGatewayIff | pkg/ohttp-relay/gateway/static.go:26-35 | when a key fetch and a relay of one host both reach a gateway it is the same one if and only if the host has a static binding or Redis answered both lookups alike |
| Routing.KeysOfAnotherGateway | pkg/ohttp-relay/gateway/static.go:28-35 | an entry that changes between the two lookups: the keys come from one gateway, the request goes to the other |
| EndToEnd.GatewayHeadersAreOwn | pkg/ohttp-relay/relay/relayer.go:60-66 | on every run each gateway request has exactly Content-Type and an empty User-Agent |
| EndToEnd.OneRequestOneReply | pkg/ohttp-relay/app/app.go:155-159 | for every spec that parses and every Redis, a disciplined stream relays at most one request, with the exact body, to the last binding or Redis entry of its authority, and the client gets the one answer that refusal, key fetch or reply calls for, in every case |
| EndToEnd.GatewaysCannotTell | pkg/ohttp-relay/relay/relayer.go:53-66 | in a deployment, runs that agree on the steering headers give the gateways the same requests and key fetches and the client the same responses |
| KeyConfigCodec.IdToStr | pkg/echo-gateway/keyconfig/key_config.go:33-40 | some name of the identifier in any iteration order, or empty exactly when there is none |
| KeyConfigCodec.MarshalKeyConfig | pkg/echo-gateway/keyconfig/key_config.go:54-73 | a record with the names, the hex key and the algorithms in order |
| KeyConfigCodec.UnmarshalKeyConfig | pkg/echo-gateway/keyconfig/key_config.go:75-103 | the configuration of the record, or the first failure |
| KeyConfigCodec.MarshalMeaning | pkg/echo-gateway/keyconfig/key_config.go:12-40 | the record has, for each KEM, KDF and AEAD identifier of section 7 of RFC 9180 and the two later KEMs, its one name, and an empty name for any other |
| KeyConfigCodec.UnmarshalMeaning | pkg/echo-gateway/keyconfig/key_config.go:75-103 | unmarshalling yields a configuration if and only if each name of the record stands for its identifier under those numbers, the key is the one its hex spells in either case, and it is a non-empty valid key of the KEM |
| KeyConfigCodec.UnmarshalFailures | pkg/echo-gateway/keyconfig/key_config.go:80-91 | exactly when each of the failures before the algorithms occurs: bad hex, empty key, unknown KEM, bad key |
| KeyConfigCodec.UnmarshalUnknown | pkg/echo-gateway/keyconfig/key_config.go:93-101 | with a good key the first algorithm that is not known decides, and of its two names the KDF's goes first |
| KeyConfigCodec.TestKey | pkg/echo-gateway/keyconfig/key_config.go:54-103 | the record of the development key, for any key bytes: what it reads as, and that it is the only record written for it |
| KeyConfigCodec.HexMeaning | pkg/echo-gateway/keyconfig/key_config.go:62 | two lower-case hex digits for each byte, the high one first |
| KeyConfigCodec.HexAccepts | pkg/echo-gateway/keyconfig/key_config.go:80-83 | hex decodes exactly when it is an even number of hex digits of either case |
| KeyConfigCodec.ConfigRoundTripIff | pkg/echo-gateway/keyconfig/key_config.go:54-103 | unmarshal after marshal is the identity if and only if KEM, KDF and AEAD ids have names and the key is a non-empty valid key of the KEM, whatever the iteration order; it panics exactly for a KEM without a name and a non-empty key |
| KeyConfigCodec.RecordRoundTrip | pkg/echo-gateway/keyconfig/key_config.go:54-103 | marshal after a successful unmarshal only lower-cases the hex |
| KeyConfigCodec.HexRoundTrip | pkg/echo-gateway/keyconfig/key_config.go:62 | decoding the hex of a key gives the key |
| Frame.WriteFrame | cmd/echo-gateway/main.go:99-101 | the first two bytes of the buffer filled in place are the length modulo 2^16, big end first, and the rest is the payload |
| Frame.UnframeMeaning | cmd/test-client/main.go:180-194 | the client takes a message exactly when it is as long as its first two bytes say, big end first, and passes on all behind them |
| Frame.FrameRoundTrip | cmd/test-client/main.go:180-194 | the client gets back exactly the framed payload, for every length |
| Frame.PrefixRefused | cmd/test-client/main.go:180-187 | a strict prefix is refused exactly when shorter than 2 + length mod 65536 |
| Frame.TruncationCaughtIff | cmd/test-client/main.go:184-187 | every truncation is refused if and only if the payload has at most 65535 bytes |
| Frame.OrOfShifted | cmd/test-client/main.go:184 | shift and or of the two prefix bytes is positional addition |

## Left out

- HPKE, KEM key encodings and the binary key-configuration format are library code: a public key stands for its encoding, and whether bytes are a valid key of a KEM is an oracle. An unknown KEM name is modelled as the library's panic.
- YAML text syntax: the record is the serialised form.
- HTTP wire behaviour, client retries, timeouts and go-redis retries: the gateway is an oracle of the earlier requests, and a failed Redis call has carried out a prefix of its commands once.
- Non-ASCII letters and white space in ToLower, TrimSpace and EqualFold.
- Times before the year 0 of the proleptic calendar.
- EXPIRE's rounding of the ttl to whole seconds, and leap seconds.
- Histogram buckets: of a size histogram the count and the sum are kept.
- 64-bit overflow of the size meters and counters; integers are unbounded.
- Reason phrases come from net/http and are a parameter of the environment.
- Logging, flags, start-up, health checks, TLS, duration histograms, the echo handler, its middleware and the client's transport.
