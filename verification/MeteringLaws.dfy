/** What the meters are worth in every run: the gauge, conservation in the Redis buckets and the exact ttl it
    needs, the bound on storage, and the agreement of Redis with the process counters. */
module MeteringLaws {
  import opened Text
  import opened Traffic
  import opened Sums
  import opened Metering

  ghost predicate Reachable(cfg: Config, w: World) {
    exists worlds :: Run(cfg, worlds) && worlds[|worlds| - 1] == w
  }

  lemma InvReachable(cfg: Config, w: World)
    requires Reachable(cfg, w)
    ensures Inv(cfg, w)
  {
    var worlds :| Run(cfg, worlds) && worlds[|worlds| - 1] == w;
    InvAlways(cfg, worlds, |worlds| - 1);
  }

  lemma ReachStart(cfg: Config)
    ensures Reachable(cfg, START)
  {
    assert Run(cfg, [START]);
  }

  lemma ReachNext(cfg: Config, w: World, s: Step)
    requires Reachable(cfg, w) && Enabled(cfg, w, s)
    ensures Reachable(cfg, Apply(cfg, w, s))
  {
    var worlds :| Run(cfg, worlds) && worlds[|worlds| - 1] == w;
    var v := Apply(cfg, w, s);
    var longer := worlds + [v];
    assert Next(cfg, w, v);
    forall i | 0 <= i < |longer| - 1 ensures Next(cfg, longer[i], longer[i + 1]) {
      if i < |worlds| - 1 {
        assert Next(cfg, worlds[i], worlds[i + 1]);
      }
    }
    assert Run(cfg, longer) && longer[|longer| - 1] == v;
  }

  /** The gauge is the number of streams inside `Process`, and zero when all have left. */
  lemma GaugeCountsStreams(cfg: Config, w: World)
    requires Reachable(cfg, w)
    ensures w.activeRequests == |w.inside|
    ensures w.inside == {} ==> w.activeRequests == 0
  {
    InvReachable(cfg, w);
  }

  // Conservation in the buckets.

  /** The ttl outlives the hour and the delay of its last recording. */
  predicate TtlCoversHour(cfg: Config) {
    cfg.Ttl() >= HOUR + cfg.delay
  }

  /** An expired bucket does not come back. */
  ghost predicate Sealed(w: World) {
    forall k :: k in w.expired ==> k !in w.redis
  }

  lemma SealedStep(cfg: Config, w: World, s: Step)
    requires TtlCoversHour(cfg) && Enabled(cfg, w, s) && Inv(cfg, w) && Sealed(w)
    ensures Sealed(Apply(cfg, w, s))
  {
    if s.Advance? {
      var c := w.calls[s.call];
      assert Timely(cfg, w, c) && Lifetime(cfg, w, c.Bucket());
    }
  }

  lemma SealedNext(cfg: Config, worlds: seq<World>, n: nat)
    requires TtlCoversHour(cfg) && Run(cfg, worlds) && n + 1 < |worlds| && Sealed(worlds[n])
    ensures Sealed(worlds[n + 1])
  {
    var v := worlds[n];
    assert Next(cfg, v, worlds[n + 1]);
    var s :| Enabled(cfg, v, s) && worlds[n + 1] == Apply(cfg, v, s);
    InvAlways(cfg, worlds, n);
    SealedStep(cfg, v, s);
  }

  lemma {:induction false} SealedAlways(cfg: Config, worlds: seq<World>, n: nat)
    requires TtlCoversHour(cfg) && Run(cfg, worlds) && n < |worlds|
    ensures Sealed(worlds[n])
  {
    if n > 0 {
      SealedAlways(cfg, worlds, n - 1);
      SealedNext(cfg, worlds, n - 1);
    }
  }

  /** Every live bucket holds exactly what has been written to it since its hour began. */
  ghost predicate Conserved(w: World) {
    forall k, way :: k in w.redis ==> Held(w.redis, k, way) == Written(w, k, way)
  }

  ghost predicate AllDone(w: World) {
    forall i :: 0 <= i < |w.calls| ==> w.calls[i].stage == DONE
  }

  lemma ConservedReachable(cfg: Config, w: World)
    requires TtlCoversHour(cfg) && Reachable(cfg, w)
    ensures Sealed(w) && Conserved(w)
  {
    var worlds :| Run(cfg, worlds) && worlds[|worlds| - 1] == w;
    SealedAlways(cfg, worlds, |worlds| - 1);
    InvReachable(cfg, w);
    forall k, way | k in w.redis ensures Held(w.redis, k, way) == Written(w, k, way) {
      assert HoldsWritten(w, k, way);
    }
  }

  /** Once every recording has completed, a live bucket is the sum of the recordings of its host and hour,
      and the only keys there are those of recordings. */
  lemma ConservationWhenDone(cfg: Config, w: World, k: Key, way: Way)
    requires TtlCoversHour(cfg) && Reachable(cfg, w) && AllDone(w)
    ensures k in w.redis ==> Held(w.redis, k, way) == Sum(To(k, way, 0), w.calls)
    ensures forall i :: 0 <= i < |w.calls| && w.calls[i].Bucket() == k ==>
              k in w.redis || k.hour * HOUR + cfg.Ttl() <= w.clock
    ensures k in w.redis ==> exists i :: 0 <= i < |w.calls| && w.calls[i].Bucket() == k
  {
    ConservedReachable(cfg, w);
    InvReachable(cfg, w);
    var f, g := To(k, way, WrittenAt(way)), To(k, way, 0);
    SumLeq(f, g, w.calls);
    SumLeq(g, f, w.calls);
    assert Lifetime(cfg, w, k);
    forall i | 0 <= i < |w.calls| && w.calls[i].Bucket() == k
      ensures k in w.redis || k.hour * HOUR + cfg.Ttl() <= w.clock
    {
      assert Timely(cfg, w, w.calls[i]);
    }
  }

  /** No bucket expires while a recording of its hour is still to write, and no open hour has expired. */
  lemma NoOpenHourExpires(cfg: Config, w: World, k: Key)
    requires TtlCoversHour(cfg) && Reachable(cfg, w) && k in w.expired
    ensures (k.hour + 1) * HOUR + cfg.delay <= w.clock
    ensures forall i :: 0 <= i < |w.calls| && w.calls[i].InFlight() ==> w.calls[i].Bucket() != k
  {
    InvReachable(cfg, w);
    assert Lifetime(cfg, w, k);
    forall i | 0 <= i < |w.calls| && w.calls[i].InFlight() ensures w.calls[i].Bucket() != k {
      assert Timely(cfg, w, w.calls[i]);
    }
  }

  // Runs that show the laws to be exact.

  const HOST := "h"

  lemma Advances(cfg: Config, w: World, i: nat) returns (v: World)
    requires Reachable(cfg, w) && i < |w.calls| && w.calls[i].Open()
    ensures v == Perform(cfg, w, i) && Reachable(cfg, v)
  {
    ReachNext(cfg, w, Advance(i));
    v := Perform(cfg, w, i);
  }

  /** A recording up to the moment its pipeline is sent. */
  lemma SendNow(cfg: Config, w: World, id: nat, host: string, bytesIn: nat, bytesOut: nat) returns (v: World)
    requires Reachable(cfg, w) && id in w.inside && !Busy(w, id)
    ensures Reachable(cfg, v) && v.clock == w.clock && v.inside == w.inside && v.expired == w.expired && v.redis == w.redis
    ensures v.calls == w.calls + [Call(id, host, bytesIn, bytesOut, SENT, w.clock, false, None)]
  {
    var i := |w.calls|;
    ReachNext(cfg, w, Record(id, host, bytesIn, bytesOut));
    v := Apply(cfg, w, Record(id, host, bytesIn, bytesOut));
    v := Advances(cfg, v, i);
    v := Advances(cfg, v, i);
    v := Advances(cfg, v, i);
  }

  /** What the three commands of an uninterrupted recording do to the buckets. */
  function Commands(redis: map<Key, Bucket>, k: Key, bytesIn: int, bytesOut: int, at: int): map<Key, Bucket> {
    Expire(IncrOut(IncrIn(redis, k, bytesIn), k, bytesOut), k, at)
  }

  lemma WriteNow(cfg: Config, w: World, i: nat) returns (v: World)
    requires Reachable(cfg, w) && i < |w.calls| && w.calls[i].stage == SENT && !w.calls[i].failed
    ensures Reachable(cfg, v)
    ensures var c := w.calls[i];
            v == w.(calls := w.calls[i := c.(stage := DONE, armed := Some(w.clock + cfg.Ttl()))],
                    redis := Commands(w.redis, c.Bucket(), c.bytesIn, c.bytesOut, w.clock + cfg.Ttl()))
  {
    v := Advances(cfg, w, i);
    v := Advances(cfg, v, i);
    v := Advances(cfg, v, i);
  }

  lemma RecordNow(cfg: Config, w: World, id: nat, host: string, bytesIn: nat, bytesOut: nat) returns (v: World)
    requires Reachable(cfg, w) && id in w.inside && !Busy(w, id)
    ensures Reachable(cfg, v) && v.clock == w.clock && v.inside == w.inside && v.expired == w.expired && !Busy(v, id)
    ensures v.calls == w.calls + [Call(id, host, bytesIn, bytesOut, DONE, w.clock, false, Some(w.clock + cfg.Ttl()))]
    ensures v.redis == Commands(w.redis, Key(host, w.clock / HOUR), bytesIn, bytesOut, w.clock + cfg.Ttl())
  {
    v := SendNow(cfg, w, id, host, bytesIn, bytesOut);
    v := WriteNow(cfg, v, |w.calls|);
  }

  /** One stream has entered, and time has passed. */
  lemma EnterAt(cfg: Config, t: nat) returns (w: World)
    ensures Reachable(cfg, w) && w == START.(clock := t, inside := {0}, activeRequests := 1)
  {
    ReachStart(cfg);
    ReachNext(cfg, START, Enter(0));
    w := Apply(cfg, START, Enter(0));
    ReachNext(cfg, w, Tick(t));
    w := Apply(cfg, w, Tick(t));
  }

  /** The first recording is made as the hour begins, the second sent at its last moment and then delayed: with a shorter
      ttl the bucket has expired before the second one writes. */
  lemma LateRecording(cfg: Config) returns (w: World)
    requires !TtlCoversHour(cfg)
    ensures Reachable(cfg, w) && Key(HOST, 0) !in w.redis
    ensures w.calls == [Call(0, HOST, 1, 0, DONE, 0, false, Some(cfg.Ttl())),
                        Call(0, HOST, 1, 0, SENT, HOUR - 1, false, None)]
  {
    var k := Key(HOST, 0);
    w := EnterAt(cfg, 0);
    w := RecordNow(cfg, w, 0, HOST, 1, 0);
    assert k in w.redis && w.redis[k].expires == Some(cfg.Ttl());
    ReachNext(cfg, w, Tick(HOUR - 1));
    w := Apply(cfg, w, Tick(HOUR - 1));
    w := SendNow(cfg, w, 0, HOST, 1, 0);
    ReachNext(cfg, w, Tick(cfg.delay));
    w := Apply(cfg, w, Tick(cfg.delay));
  }

  /** With any shorter ttl, bytes of an hour can be lost although every recording completes. */
  lemma TtlIsTight(cfg: Config) returns (w: World)
    requires !TtlCoversHour(cfg)
    ensures Reachable(cfg, w) && AllDone(w) && !Conserved(w)
  {
    w := LateRecording(cfg);
    w := WriteNow(cfg, w, 1);
    TwoWritten(w);
    assert Held(w.redis, Key(HOST, 0), In) == 1;
  }

  lemma TwoWritten(w: World)
    requires |w.calls| == 2 && forall i :: 0 <= i < 2 ==>
               w.calls[i].Bucket() == Key(HOST, 0) && w.calls[i].stage == DONE && w.calls[i].bytesIn == 1
    ensures Written(w, Key(HOST, 0), In) == 2
  {
    var f, first, second := To(Key(HOST, 0), In, IN_WRITTEN), w.calls[0], w.calls[1];
    assert w.calls[..1] == [first] && [first][..0] == [];
    assert Sum(f, [first]) == Sum(f, []) + f(first);
    assert Sum(f, w.calls) == Sum(f, [first]) + f(second);
  }

  /** Conservation in every run, exactly when the ttl is at least an hour and the delay. */
  lemma ConservationIff(cfg: Config)
    ensures (forall w :: Reachable(cfg, w) ==> Conserved(w)) <==> TtlCoversHour(cfg)
  {
    if TtlCoversHour(cfg) {
      forall w | Reachable(cfg, w) ensures Conserved(w) {
        ConservedReachable(cfg, w);
      }
    } else {
      var w := TtlIsTight(cfg);
    }
  }

  // Storage.

  function HoursOf(w: World, host: string): set<int> {
    set k | k in w.redis && k.host == host :: k.hour
  }

  lemma {:induction false} IntervalSize(s: set<int>, lo: int, hi: int)
    requires lo <= hi + 1 && forall x :: x in s ==> lo <= x <= hi
    ensures |s| <= hi - lo + 1
    decreases hi - lo
  {
    if lo == hi + 1 {
      assert forall x :: x !in s;
      assert s == {};
    } else {
      IntervalSize(s - {hi}, lo, hi - 1);
    }
  }

  ghost predicate NoneFailed(w: World) {
    forall i :: 0 <= i < |w.calls| ==> !w.calls[i].failed
  }

  /** A bucket with no expiry, written to by a recording that then failed before EXPIRE. */
  predicate Leaked(w: World, k: Key) {
    && k in w.redis && w.redis[k].expires.None?
    && exists i :: 0 <= i < |w.calls| && w.calls[i].failed && IN_WRITTEN <= w.calls[i].stage && w.calls[i].Bucket() == k
  }

  function LeakedHours(w: World, host: string): set<int> {
    set k | k in w.redis && k.host == host && Leaked(w, k) :: k.hour
  }

  /** The hours within reach of ttl + delay, to the nanosecond. */
  function MaxHours(cfg: Config): int {
    (cfg.Ttl() + cfg.delay - 2) / HOUR + 2
  }

  lemma BucketIsRecentOrLeaked(cfg: Config, w: World, k: Key)
    requires Reachable(cfg, w) && k in w.redis
    ensures k.hour * HOUR <= w.clock
    ensures Leaked(w, k) || w.clock + 2 <= (k.hour + 1) * HOUR + cfg.delay + cfg.Ttl()
  {
    InvReachable(cfg, w);
    assert Lifetime(cfg, w, k);
    if w.redis[k].expires.None? {
      var i :| 0 <= i < |w.calls| && IN_WRITTEN <= w.calls[i].stage < DONE && w.calls[i].Bucket() == k;
      assert Timely(cfg, w, w.calls[i]);
    }
  }

  /** In every run, whatever fails, a host has at most one bucket for each hour within reach, and the leaked ones. */
  lemma StorageBound(cfg: Config, w: World, host: string)
    requires Reachable(cfg, w)
    ensures |HoursOf(w, host)| <= MaxHours(cfg) + |LeakedHours(w, host)|
    ensures NoneFailed(w) ==> LeakedHours(w, host) == {}
    ensures cfg.Ttl() == 72 * HOUR && cfg.delay == 0 ==> MaxHours(cfg) == 73
  {
    var all, leaked := HoursOf(w, host), LeakedHours(w, host);
    var lo, hi := (w.clock + 1 - cfg.Ttl() - cfg.delay) / HOUR, w.clock / HOUR;
    forall x | x in all - leaked ensures lo <= x <= hi {
      BucketIsRecentOrLeaked(cfg, w, Key(host, x));
    }
    IntervalSize(all - leaked, lo, hi);
    assert leaked <= all;
    assert |all| == |all - leaked| + |leaked|;
  }

  /** A live bucket has no expiry exactly when every time an EXPIRE of one of its recordings set is past. */
  lemma NoExpiryIff(cfg: Config, w: World, k: Key)
    requires Reachable(cfg, w) && k in w.redis
    ensures w.redis[k].expires.None? <==>
            forall i :: 0 <= i < |w.calls| && w.calls[i].Bucket() == k && w.calls[i].armed.Some? ==>
              w.calls[i].armed.value <= w.clock
  {
    InvReachable(cfg, w);
    assert Lifetime(cfg, w, k);
    if w.redis[k].expires.None? {
      forall i | 0 <= i < |w.calls| && w.calls[i].Bucket() == k && w.calls[i].armed.Some?
        ensures w.calls[i].armed.value <= w.clock
      {
        assert Armed(cfg, w, w.calls[i]);
      }
    }
  }

  /** The hour of the bucket and the delay of its last recording are over. */
  predicate Past(cfg: Config, w: World, k: Key) {
    (k.hour + 1) * HOUR + cfg.delay <= w.clock
  }

  lemma NoneInFlight(cfg: Config, w: World, k: Key, i: nat)
    requires Inv(cfg, w) && Past(cfg, w, k) && i < |w.calls| && w.calls[i].Bucket() == k
    ensures !w.calls[i].InFlight()
  {
    assert Timely(cfg, w, w.calls[i]);
  }

  /** Under a ttl that covers the hour, a live bucket past its time has no expiry exactly when every recording sent for it
      failed: one that completes repairs what the failed ones left. */
  lemma LeakedIff(cfg: Config, w: World, k: Key)
    requires TtlCoversHour(cfg) && Reachable(cfg, w) && k in w.redis && Past(cfg, w, k)
    ensures w.redis[k].expires.None? <==>
            forall i :: 0 <= i < |w.calls| && w.calls[i].Bucket() == k && w.calls[i].stage >= SENT ==> w.calls[i].failed
  {
    InvReachable(cfg, w);
    ConservedReachable(cfg, w);
    NoExpiryIff(cfg, w, k);
    forall i | 0 <= i < |w.calls| && w.calls[i].Bucket() == k && w.calls[i].stage >= SENT
      ensures w.calls[i].failed <==> w.calls[i].armed.None?
      ensures w.calls[i].armed.Some? ==> w.redis[k].expires.Some?
    {
      assert Armed(cfg, w, w.calls[i]);
      NoneInFlight(cfg, w, k, i);
    }
  }

  lemma LeakStays(cfg: Config, w: World, s: Step, k: Key)
    requires Inv(cfg, w) && Enabled(cfg, w, s) && k in w.redis && w.redis[k].expires.None? && Past(cfg, w, k)
    ensures var v := Apply(cfg, w, s); k in v.redis && v.redis[k] == w.redis[k] && Past(cfg, v, k)
  {
    if s.Advance? && w.calls[s.call].stage >= SENT && w.calls[s.call].Bucket() == k {
      NoneInFlight(cfg, w, k, s.call);
    }
  }

  /** Such a bucket is never removed, in any continuation of any run. */
  lemma {:induction false} LeakIsForever(cfg: Config, worlds: seq<World>, m: nat, n: nat, k: Key)
    requires Run(cfg, worlds) && m <= n < |worlds|
    requires k in worlds[m].redis && worlds[m].redis[k].expires.None? && Past(cfg, worlds[m], k)
    ensures k in worlds[n].redis && worlds[n].redis[k] == worlds[m].redis[k] && Past(cfg, worlds[n], k)
  {
    if m < n {
      LeakIsForever(cfg, worlds, m, n - 1, k);
      InvAlways(cfg, worlds, n - 1);
      assert Next(cfg, worlds[n - 1], worlds[n - 1 + 1]);
      var s :| Enabled(cfg, worlds[n - 1], s) && worlds[n] == Apply(cfg, worlds[n - 1], s);
      LeakStays(cfg, worlds[n - 1], s, k);
    }
  }

  /** A recording that fails between its writes and EXPIRE leaves a bucket that time does not remove. */
  lemma FailureLeaks(cfg: Config, t: nat) returns (w: World)
    ensures Reachable(cfg, w) && w.clock >= t && Leaked(w, Key(HOST, 0))
  {
    w := EnterAt(cfg, 0);
    w := SendNow(cfg, w, 0, HOST, 1, 0);
    w := Advances(cfg, w, 0);
    ReachNext(cfg, w, Fail(0));
    w := Apply(cfg, w, Fail(0));
    ReachNext(cfg, w, Tick(t));
    w := Apply(cfg, w, Tick(t));
    assert w.calls[0].failed && w.calls[0].Bucket() == Key(HOST, 0);
  }

  // A run that fills the bound: a new stream records in each hour and its EXPIRE waits as long as the first one's may.

  function Range(n: nat): set<int> {
    if n == 0 then {} else Range(n - 1) + {n - 1}
  }

  lemma {:induction false} RangeSize(n: nat)
    ensures |Range(n)| == n && forall i :: i in Range(n) <==> 0 <= i < n
  {
    if n > 0 {
      RangeSize(n - 1);
    }
  }

  lemma CountHours(w: World, n: nat)
    requires forall k :: k in w.redis <==> k.host == HOST && 0 <= k.hour < n
    ensures |HoursOf(w, HOST)| == n
  {
    RangeSize(n);
    forall i | i in Range(n) ensures i in HoursOf(w, HOST) {
      assert Key(HOST, i) in w.redis;
    }
    assert HoursOf(w, HOST) == Range(n);
  }

  /** When the recording of an hour is sent: the first as late as its hour allows, the others as their hours begin. */
  function Slot(hour: nat): nat {
    if hour == 0 then HOUR - 1 else hour * HOUR
  }

  /** A recording of the run: complete, or waiting for its EXPIRE. */
  predicate Waits(c: Call) {
    c.stage in {OUT_WRITTEN, DONE} && !c.failed && c.host == HOST && c.started >= HOUR - 1
  }

  ghost predicate Kept(cfg: Config, w: World, n: nat, until: int) {
    && Reachable(cfg, w) && (forall id :: id in w.inside ==> id < n)
    && (forall i :: 0 <= i < |w.calls| ==> Waits(w.calls[i]) && w.calls[i].stream < n && w.calls[i].started / HOUR < n)
    && (forall k :: k in w.redis <==> k.host == HOST && 0 <= k.hour < n)
    && (forall k :: k in w.redis && w.redis[k].expires.Some? ==> until < w.redis[k].expires.value)
  }

  /** Time passes while no delay runs out and no bucket dies. */
  lemma Wait(cfg: Config, w: World, n: nat, until: int, time: nat) returns (v: World)
    requires Kept(cfg, w, n, until) && w.clock <= time <= until
    requires AllDone(w) || time <= HOUR - 1 + cfg.delay
    ensures Kept(cfg, v, n, until) && v.clock == time && v.calls == w.calls
  {
    PassQuietly(w, time - w.clock);
    ReachNext(cfg, w, Tick(time - w.clock));
    v := Apply(cfg, w, Tick(time - w.clock));
  }

  /** A new stream's recording, up to its EXPIRE. */
  lemma Hang(cfg: Config, w: World, id: nat) returns (v: World)
    requires Reachable(cfg, w) && id !in w.inside && !Busy(w, id)
    ensures Reachable(cfg, v) && v.clock == w.clock && v.inside == w.inside + {id}
    ensures v.calls == w.calls + [Call(id, HOST, 1, 0, OUT_WRITTEN, w.clock, false, None)]
    ensures var k := Key(HOST, w.clock / HOUR); v.redis == IncrOut(IncrIn(w.redis, k, 1), k, 0)
  {
    ReachNext(cfg, w, Enter(id));
    v := SendNow(cfg, Apply(cfg, w, Enter(id)), id, HOST, 1, 0);
    v := Advances(cfg, v, |w.calls|);
    v := Advances(cfg, v, |w.calls|);
  }

  /** The recording of the next hour. */
  lemma Launch(cfg: Config, w: World, n: nat, until: int) returns (v: World)
    requires Kept(cfg, w, n, until) && w.clock == Slot(n)
    ensures Kept(cfg, v, n + 1, until) && v.clock == w.clock
  {
    v := Hang(cfg, w, n);
    assert w.clock / HOUR == n;
  }

  /** The waiting recordings from the `j`-th on complete. */
  lemma {:induction false} Settle(cfg: Config, w: World, n: nat, until: int, j: nat) returns (v: World)
    requires Kept(cfg, w, n, until) && w.clock + cfg.Ttl() > until
    requires j <= |w.calls| && forall i :: 0 <= i < j ==> w.calls[i].stage == DONE
    ensures Kept(cfg, v, n, until) && v.clock == w.clock && AllDone(v)
    decreases |w.calls| - j
  {
    v := w;
    if j < |w.calls| {
      if w.calls[j].stage == OUT_WRITTEN {
        v := Advances(cfg, w, j);
      }
      v := Settle(cfg, v, n, until, j + 1);
    }
  }

  /** Buckets of the first `n` hours, all alive until the end of the run. */
  lemma {:induction false} Keep(cfg: Config, n: nat, until: int) returns (w: World)
    requires 1 <= n && Slot(n - 1) <= until < HOUR - 1 + cfg.delay + cfg.Ttl()
    ensures Kept(cfg, w, n, until) && w.clock == Slot(n - 1)
    ensures AllDone(w) || w.clock <= HOUR - 1 + cfg.delay
  {
    var limit := HOUR - 1 + cfg.delay;
    if n == 1 {
      ReachStart(cfg);
      w := START;
    } else {
      w := Keep(cfg, n - 1, until);
      if limit < Slot(n - 1) && !AllDone(w) {
        w := Wait(cfg, w, n - 1, until, limit);
        w := Settle(cfg, w, n - 1, until, 0);
      }
    }
    w := Wait(cfg, w, n - 1, until, Slot(n - 1));
    w := Launch(cfg, w, n - 1, until);
    if limit < w.clock {
      w := Settle(cfg, w, n, until, 0);
    }
  }

  /** The storage bound is attained under every ttl and delay, without any failure. */
  lemma StorageBoundAttained(cfg: Config) returns (w: World)
    ensures Reachable(cfg, w) && NoneFailed(w) && |HoursOf(w, HOST)| == MaxHours(cfg)
  {
    var m := MaxHours(cfg) - 1;
    w := Keep(cfg, m + 1, Slot(m));
    CountHours(w, m + 1);
  }

  // Redis against the process counters.

  /** What the buckets of a host hold, over the hours before `n`. */
  function HostHeld(w: World, host: string, way: Way, n: nat): int {
    if n == 0 then 0 else HostHeld(w, host, way, n - 1) + Held(w.redis, Key(host, n - 1), way)
  }

  function Before(host: string, way: Way, n: nat): Call -> int {
    (c: Call) => if c.stage >= WrittenAt(way) && c.host == host && c.started / HOUR < n then c.Bytes(way) else 0
  }

  lemma {:induction false} HeldAtMostWritten(cfg: Config, w: World, host: string, way: Way, n: nat)
    requires Inv(cfg, w)
    ensures HostHeld(w, host, way, n) <= Sum(Before(host, way, n), w.calls)
    ensures w.expired == {} ==> HostHeld(w, host, way, n) == Sum(Before(host, way, n), w.calls)
  {
    if n == 0 {
      SumZero(Before(host, way, 0), w.calls);
    } else {
      HeldAtMostWritten(cfg, w, host, way, n - 1);
      var k := Key(host, n - 1);
      assert HoldsWritten(w, k, way);
      SumAdd(Before(host, way, n - 1), To(k, way, WrittenAt(way)), Before(host, way, n), w.calls);
    }
  }

  /** For every host, Redis never holds more than the process has counted, through any failures and expiries;
      it holds exactly that when all recordings have completed and no bucket has expired. */
  lemma RedisWithinProcess(cfg: Config, w: World, host: string, way: Way, n: nat)
    requires Reachable(cfg, w)
    ensures HostHeld(w, host, way, n) <= Total(w, host, way)
    ensures AllDone(w) && w.expired == {} && n > w.clock / HOUR ==> HostHeld(w, host, way, n) == Total(w, host, way)
  {
    InvReachable(cfg, w);
    HeldAtMostWritten(cfg, w, host, way, n);
    var f, g := Before(host, way, n), Of(host, way, CountedAt(way));
    SumLeq(f, g, w.calls);
    assert CountedFor(w, host, way);
    if AllDone(w) && n > w.clock / HOUR {
      forall i | 0 <= i < |w.calls| ensures g(w.calls[i]) <= f(w.calls[i]) {
        assert Timely(cfg, w, w.calls[i]);
      }
      SumLeq(g, f, w.calls);
    }
  }
}
