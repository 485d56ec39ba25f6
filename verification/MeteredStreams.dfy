/** Streams and meters together: what the process and Redis hold is the traffic of the streams' runs. */
module MeteredStreams {
  import opened Text
  import opened Traffic
  import opened Sums
  import opened Metering
  import opened MeteringLaws
  import S = Stream
  import H = StreamHistory
  import M = Metrics

  /** One stream: everything around it, and the events it has met so far. */
  datatype Served = Served(env: S.Env, events: seq<S.Event>)

  /** The traffic records of each stream's run. */
  function Traffics(streams: seq<Served>): (r: seq<seq<S.Traffic>>)
    ensures |r| == |streams| && forall i :: 0 <= i < |r| ==> r[i] == S.Run(streams[i].env, streams[i].events).trace.traffic
  {
    if streams == [] then []
    else
      var front, s := streams[..|streams| - 1], streams[|streams| - 1];
      Traffics(front) + [S.Run(s.env, s.events).trace.traffic]
  }

  function PartOf(host: string, way: Way): S.Traffic -> int {
    if way.In? then M.InOf(host) else M.OutOf(host)
  }

  /** What a stream's records say of one host. */
  function StreamTotal(host: string, way: Way): seq<S.Traffic> -> int {
    (traffic: seq<S.Traffic>) => Sum(PartOf(host, way), traffic)
  }

  /** The recordings of one stream, in their order. */
  function RecordsOf(calls: seq<Call>, id: nat): seq<S.Traffic> {
    if calls == [] then []
    else
      var c := calls[|calls| - 1];
      RecordsOf(calls[..|calls| - 1], id) + if c.stream == id then [S.Traffic(c.host, c.bytesIn, c.bytesOut)] else []
  }

  /** The recordings are those of the streams, each stream's as it has made them. */
  ghost predicate Serves(w: World, traffics: seq<seq<S.Traffic>>) {
    && (forall i :: 0 <= i < |w.calls| ==> w.calls[i].stream < |traffics|)
    && (forall id :: 0 <= id < |traffics| ==> RecordsOf(w.calls, id) == traffics[id])
  }

  /** The recordings of the first `n` streams, stream by stream. */
  function ByStream(calls: seq<Call>, host: string, way: Way, n: nat): int {
    if n == 0 then 0 else ByStream(calls, host, way, n - 1) + Sum(PartOf(host, way), RecordsOf(calls, n - 1))
  }

  lemma RecordsSnoc(calls: seq<Call>, c: Call, id: nat)
    ensures RecordsOf(calls + [c], id) ==
            RecordsOf(calls, id) + if c.stream == id then [S.Traffic(c.host, c.bytesIn, c.bytesOut)] else []
  {
    assert (calls + [c])[..|calls|] == calls;
  }

  lemma OneMore(calls: seq<Call>, c: Call, host: string, way: Way, id: nat)
    ensures Sum(PartOf(host, way), RecordsOf(calls + [c], id)) ==
            Sum(PartOf(host, way), RecordsOf(calls, id)) + if c.stream == id then Of(host, way, 0)(c) else 0
  {
    RecordsSnoc(calls, c, id);
    var t := S.Traffic(c.host, c.bytesIn, c.bytesOut);
    if c.stream == id {
      SumSnoc(PartOf(host, way), RecordsOf(calls, id), t);
      assert PartOf(host, way)(t) == Of(host, way, 0)(c);
    } else {
      assert RecordsOf(calls, id) + [] == RecordsOf(calls, id);
    }
  }

  lemma {:induction false} ByStreamSnoc(calls: seq<Call>, c: Call, host: string, way: Way, n: nat)
    ensures ByStream(calls + [c], host, way, n) ==
            ByStream(calls, host, way, n) + if c.stream < n then Of(host, way, 0)(c) else 0
  {
    if n > 0 {
      var more := calls + [c];
      ByStreamSnoc(calls, c, host, way, n - 1);
      OneMore(calls, c, host, way, n - 1);
      assert ByStream(more, host, way, n) ==
             ByStream(more, host, way, n - 1) + Sum(PartOf(host, way), RecordsOf(more, n - 1));
    }
  }

  lemma {:induction false} ByStreamEmpty(host: string, way: Way, n: nat)
    ensures ByStream([], host, way, n) == 0
  {
    if n > 0 {
      ByStreamEmpty(host, way, n - 1);
    }
  }

  /** The recordings add up the same in the order they were made and stream by stream. */
  lemma {:induction false} ByStreamIsAll(calls: seq<Call>, host: string, way: Way, n: nat)
    requires forall i :: 0 <= i < |calls| ==> calls[i].stream < n
    ensures ByStream(calls, host, way, n) == Sum(Of(host, way, 0), calls)
  {
    if calls == [] {
      ByStreamEmpty(host, way, n);
    } else {
      var front, c := calls[..|calls| - 1], calls[|calls| - 1];
      ByStreamIsAll(front, host, way, n);
      assert front + [c] == calls;
      ByStreamSnoc(front, c, host, way, n);
    }
  }

  lemma {:induction false} ByStreamIsTraffic(calls: seq<Call>, traffics: seq<seq<S.Traffic>>, host: string, way: Way)
    requires forall id :: 0 <= id < |traffics| ==> RecordsOf(calls, id) == traffics[id]
    ensures ByStream(calls, host, way, |traffics|) == Sum(StreamTotal(host, way), traffics)
  {
    if traffics != [] {
      var id := |traffics| - 1;
      ByStreamIsTraffic(calls, traffics[..id], host, way);
      assert StreamTotal(host, way)(traffics[id]) == Sum(PartOf(host, way), RecordsOf(calls, id));
    }
  }

  lemma AllRecordings(w: World, traffics: seq<seq<S.Traffic>>, host: string, way: Way)
    requires Serves(w, traffics)
    ensures Sum(Of(host, way, 0), w.calls) == Sum(StreamTotal(host, way), traffics)
  {
    ByStreamIsTraffic(w.calls, traffics, host, way);
    ByStreamIsAll(w.calls, host, way, |traffics|);
  }

  ghost predicate AllCounted(w: World) {
    forall i :: 0 <= i < |w.calls| ==> w.calls[i].stage >= OUT_COUNTED
  }

  lemma MetersAreRecords(cfg: Config, w: World, traffics: seq<seq<S.Traffic>>, host: string, way: Way)
    requires Reachable(cfg, w) && Serves(w, traffics)
    ensures Total(w, host, way) <= Sum(StreamTotal(host, way), traffics)
    ensures AllCounted(w) ==> Total(w, host, way) == Sum(StreamTotal(host, way), traffics)
  {
    AllRecordings(w, traffics, host, way);
    InvReachable(cfg, w);
    assert CountedFor(w, host, way);
    var f, g := Of(host, way, CountedAt(way)), Of(host, way, 0);
    SumLeq(f, g, w.calls);
    if AllCounted(w) {
      SumLeq(g, f, w.calls);
    }
  }

  /** In every run, for every host: the process counter is at most the traffic of the streams' runs, and is exactly
      that once every recording has been counted; Redis holds no more than it, and exactly that when every recording
      has completed and no bucket has expired. */
  lemma MetersAreTraffic(cfg: Config, w: World, streams: seq<Served>, host: string, way: Way, n: nat)
    requires Reachable(cfg, w) && Serves(w, Traffics(streams))
    ensures HostHeld(w, host, way, n) <= Total(w, host, way) <= Sum(StreamTotal(host, way), Traffics(streams))
    ensures AllCounted(w) ==> Total(w, host, way) == Sum(StreamTotal(host, way), Traffics(streams))
    ensures AllDone(w) && w.expired == {} && n > w.clock / HOUR ==>
              HostHeld(w, host, way, n) == Sum(StreamTotal(host, way), Traffics(streams))
  {
    MetersAreRecords(cfg, w, Traffics(streams), host, way);
    RedisWithinProcess(cfg, w, host, way, n);
  }

  // Every set of streams has such a world.

  predicate Countable(traffic: seq<S.Traffic>) {
    forall i :: 0 <= i < |traffic| ==> traffic[i].bytesIn >= 0 && traffic[i].bytesOut >= 0
  }

  lemma {:induction false} TrafficCounts(env: S.Env, calls: seq<S.RelayCall>)
    ensures Countable(H.TrafficOf(env, calls))
  {
    if calls != [] {
      TrafficCounts(env, calls[..|calls| - 1]);
    }
  }

  lemma RunCounts(env: S.Env, events: seq<S.Event>)
    ensures Countable(S.Run(env, events).trace.traffic)
  {
    H.HistoryExplainsState(env, events);
    TrafficCounts(env, S.Run(env, events).trace.relayed);
  }

  /** No stream is inside, and every recording is complete and of one of the first `n` streams. */
  ghost predicate Idle(cfg: Config, w: World, n: nat) {
    Reachable(cfg, w) && w.inside == {} && AllDone(w) && forall i :: 0 <= i < |w.calls| ==> w.calls[i].stream < n
  }

  lemma {:induction false} NoRecords(calls: seq<Call>, id: nat)
    requires forall i :: 0 <= i < |calls| ==> calls[i].stream != id
    ensures RecordsOf(calls, id) == []
  {
    if calls != [] {
      NoRecords(calls[..|calls| - 1], id);
    }
  }

  lemma {:induction false} RecordsConcat(calls: seq<Call>, more: seq<Call>, id: nat)
    ensures RecordsOf(calls + more, id) == RecordsOf(calls, id) + RecordsOf(more, id)
  {
    if more == [] {
      assert calls + more == calls;
    } else {
      var front, c := more[..|more| - 1], more[|more| - 1];
      RecordsConcat(calls, front, id);
      assert calls + more == calls + front + [c];
      RecordsSnoc(calls + front, c, id);
    }
  }

  /** A stream is alone inside, and every recording is complete. */
  ghost predicate Alone(cfg: Config, w: World, id: nat) {
    Reachable(cfg, w) && w.inside == {id} && AllDone(w)
  }

  lemma RecordOne(cfg: Config, w: World, id: nat, t: S.Traffic) returns (v: World, c: Call)
    requires Alone(cfg, w, id) && t.bytesIn >= 0 && t.bytesOut >= 0
    ensures Alone(cfg, v, id) && v.calls == w.calls + [c]
    ensures c.stream == id && S.Traffic(c.host, c.bytesIn, c.bytesOut) == t
  {
    v := RecordNow(cfg, w, id, t.host, t.bytesIn, t.bytesOut);
    c := v.calls[|w.calls|];
  }

  /** The stream makes its recordings. */
  lemma {:induction false} RecordAll(cfg: Config, w: World, id: nat, traffic: seq<S.Traffic>)
    returns (v: World, more: seq<Call>)
    requires Alone(cfg, w, id) && Countable(traffic)
    ensures Alone(cfg, v, id) && v.calls == w.calls + more
    ensures (forall i :: 0 <= i < |more| ==> more[i].stream == id) && RecordsOf(more, id) == traffic
  {
    if traffic == [] {
      v, more := w, [];
    } else {
      var t := traffic[|traffic| - 1];
      var u, some := RecordAll(cfg, w, id, traffic[..|traffic| - 1]);
      var c;
      v, c := RecordOne(cfg, u, id, t);
      more := some + [c];
      RecordsSnoc(some, c, id);
    }
  }

  /** One more stream enters, makes its recordings and leaves. */
  lemma ServeNext(cfg: Config, w: World, id: nat, traffic: seq<S.Traffic>) returns (v: World)
    requires Idle(cfg, w, id) && Countable(traffic)
    ensures Idle(cfg, v, id + 1) && RecordsOf(v.calls, id) == traffic
    ensures forall j: nat :: j < id ==> RecordsOf(v.calls, j) == RecordsOf(w.calls, j)
  {
    ReachNext(cfg, w, Enter(id));
    var u, more := RecordAll(cfg, Apply(cfg, w, Enter(id)), id, traffic);
    ReachNext(cfg, u, Leave(id));
    v := Apply(cfg, u, Leave(id));
    NoRecords(w.calls, id);
    RecordsConcat(w.calls, more, id);
    forall j: nat | j < id ensures RecordsOf(v.calls, j) == RecordsOf(w.calls, j) {
      NoRecords(more, j);
      RecordsConcat(w.calls, more, j);
    }
  }

  lemma {:induction false} ServeAll(cfg: Config, traffics: seq<seq<S.Traffic>>) returns (w: World)
    requires forall i :: 0 <= i < |traffics| ==> Countable(traffics[i])
    ensures Idle(cfg, w, |traffics|) && Serves(w, traffics)
  {
    if traffics == [] {
      ReachStart(cfg);
      w := START;
    } else {
      var id := |traffics| - 1;
      w := ServeAll(cfg, traffics[..id]);
      w := ServeNext(cfg, w, id, traffics[id]);
    }
  }

  /** Whatever the streams, there is a run of the meters that serves them, one after the other. */
  lemma AnyStreamsServed(cfg: Config, streams: seq<Served>) returns (w: World)
    ensures Idle(cfg, w, |streams|) && Serves(w, Traffics(streams))
  {
    forall i | 0 <= i < |streams| ensures Countable(Traffics(streams)[i]) {
      RunCounts(streams[i].env, streams[i].events);
    }
    w := ServeAll(cfg, Traffics(streams));
  }
}
