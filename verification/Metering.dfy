/** Many streams at once: the shared gauge and byte counters, and the hourly Redis buckets that their
    recordings write command by command, in any interleaving, under one clock, with keys that expire. */
module Metering {
  import opened Text
  import opened Traffic
  import opened Sums
  import M = Metrics

  /** A bucket; by Traffic.NamesInjective its printed name stands for the host and the hour. */
  datatype Key = Key(host: string, hour: int)

  /** The two quantities of a recording: bytes received from the client, and bytes returned to it. */
  datatype Way = In | Out

  /** How far one recording has come: each stage has carried out one more of its actions. */
  const IN_COUNTED := 1   // TrafficBytesIn.Add
  const OUT_COUNTED := 2  // TrafficBytesOut.Add
  const SENT := 3         // the clock read, the key made, the pipeline on its way
  const IN_WRITTEN := 4   // HINCRBY bytes_in
  const OUT_WRITTEN := 5  // HINCRBY bytes_out
  const DONE := 6         // EXPIRE

  /** One recording. A failed one stays at the stage it had reached; `armed` is the time its EXPIRE set, if that
      found the bucket. */
  datatype Call = Call(
    stream: nat,
    host: string,
    bytesIn: nat,
    bytesOut: nat,
    stage: nat,
    started: nat,
    failed: bool,
    armed: Option<int>)
  {
    predicate Open() { stage < DONE && !failed }
    predicate InFlight() { SENT <= stage < DONE && !failed }
    function Bucket(): Key { Key(host, started / HOUR) }
    function Bytes(way: Way): nat { if way.In? then bytesIn else bytesOut }
  }

  /** The stage at which a quantity is in the process counter, and in the bucket. */
  function CountedAt(way: Way): nat { if way.In? then IN_COUNTED else OUT_COUNTED }

  function WrittenAt(way: Way): nat { if way.In? then IN_WRITTEN else OUT_WRITTEN }

  function Held(redis: map<Key, Bucket>, k: Key, way: Way): int {
    if way.In? then At(redis, k).bytesIn else At(redis, k).bytesOut
  }

  /** The requested ttl, and the longest time between the clock read and the last command of a recording. */
  datatype Config = Config(requestedTtl: int, delay: nat) {
    function Ttl(): (ttl: int)
      ensures ttl > 0
    {
      EffectiveTtl(requestedTtl)
    }
  }

  datatype World = World(
    clock: nat,  // from the first hour of the calendar of Traffic
    activeRequests: int,
    inside: set<nat>,
    calls: seq<Call>,
    totalIn: map<string, int>,
    totalOut: map<string, int>,
    redis: map<Key, Bucket>,
    expired: set<Key>)  // every key that has ever expired

  const START := World(0, 0, {}, [], map[], map[], map[], {})

  datatype Step =
    | Enter(stream: nat)
    | Leave(stream: nat)
    | Record(stream: nat, host: string, bytesIn: nat, bytesOut: nat)
    | Advance(call: nat)
    | Fail(call: nat)
    | Tick(time: nat)

  predicate Busy(w: World, stream: nat) {
    exists i :: 0 <= i < |w.calls| && w.calls[i].stream == stream && w.calls[i].Open()
  }

  predicate Enabled(cfg: Config, w: World, s: Step) {
    match s
    case Enter(id) => id !in w.inside
    case Leave(id) => id in w.inside && !Busy(w, id)
    case Record(id, _, _, _) => id in w.inside && !Busy(w, id)
    case Advance(i) => i < |w.calls| && w.calls[i].Open()
    case Fail(i) => i < |w.calls| && w.calls[i].Open() && w.calls[i].stage >= OUT_COUNTED
    case Tick(t) => forall i :: 0 <= i < |w.calls| && w.calls[i].InFlight() ==>
                      w.clock + t <= w.calls[i].started + cfg.delay
  }

  /** The next action of a recording. */
  function Perform(cfg: Config, w: World, i: nat): World
    requires i < |w.calls| && w.calls[i].Open()
  {
    var c := w.calls[i];
    var next := c.(
      stage := c.stage + 1,
      started := if c.stage == OUT_COUNTED then w.clock else c.started,
      armed := if c.stage == OUT_WRITTEN && c.Bucket() in w.redis then Some(w.clock + cfg.Ttl()) else c.armed);
    var w1 := w.(calls := w.calls[i := next]);
    match c.stage
    case 0 => w1.(totalIn := M.Bump(w.totalIn, c.host, c.bytesIn))
    case 1 => w1.(totalOut := M.Bump(w.totalOut, c.host, c.bytesOut))
    case 2 => w1
    case 3 => w1.(redis := IncrIn(w.redis, c.Bucket(), c.bytesIn))
    case 4 => w1.(redis := IncrOut(w.redis, c.Bucket(), c.bytesOut))
    case 5 => w1.(redis := Expire(w.redis, c.Bucket(), w.clock + cfg.Ttl()))
  }

  predicate Dead(b: Bucket, now: int) {
    b.expires.Some? && b.expires.value <= now
  }

  /** Time passes, and the keys whose time has come are gone. */
  function Pass(w: World, t: nat): World {
    var now := w.clock + t;
    w.(clock := now,
       redis := map k | k in w.redis && !Dead(w.redis[k], now) :: w.redis[k],
       expired := w.expired + set k | k in w.redis && Dead(w.redis[k], now))
  }

  function Apply(cfg: Config, w: World, s: Step): World
    requires Enabled(cfg, w, s)
  {
    match s
    case Enter(id) => w.(inside := w.inside + {id}, activeRequests := w.activeRequests + 1)
    case Leave(id) => w.(inside := w.inside - {id}, activeRequests := w.activeRequests - 1)
    case Record(id, host, bytesIn, bytesOut) =>
      w.(calls := w.calls + [Call(id, host, bytesIn, bytesOut, 0, 0, false, None)])
    case Advance(i) => Perform(cfg, w, i)
    case Fail(i) => w.(calls := w.calls[i := w.calls[i].(failed := true)])
    case Tick(t) => Pass(w, t)
  }

  ghost predicate Next(cfg: Config, v: World, w: World) {
    exists s :: Enabled(cfg, v, s) && w == Apply(cfg, v, s)
  }

  /** The worlds of a run, from the start. */
  ghost predicate Run(cfg: Config, worlds: seq<World>) {
    && worlds != [] && worlds[0] == START
    && forall i :: 0 <= i < |worlds| - 1 ==> Next(cfg, worlds[i], worlds[i + 1])
  }

  // Totals over the recordings.

  /** The bytes of the recordings for one bucket that have reached a stage. */
  function To(k: Key, way: Way, stage: nat): Call -> int {
    (c: Call) => if c.stage >= stage && c.Bucket() == k then c.Bytes(way) else 0
  }

  /** The bytes of the recordings for one host that have reached a stage. */
  function Of(host: string, way: Way, stage: nat): Call -> int {
    (c: Call) => if c.stage >= stage && c.host == host then c.Bytes(way) else 0
  }

  /** The process counter of a host. */
  function Total(w: World, host: string, way: Way): int {
    M.Count(if way.In? then w.totalIn else w.totalOut, host)
  }

  /** What has been written to a bucket so far. */
  function Written(w: World, k: Key, way: Way): int {
    Sum(To(k, way, WrittenAt(way)), w.calls)
  }

  // What every step keeps.

  /** The byte counters hold every byte counted so far for the host. */
  ghost predicate CountedFor(w: World, h: string, way: Way) {
    Total(w, h, way) == Sum(Of(h, way, CountedAt(way)), w.calls)
  }

  /** A bucket never holds more than was written to it, and exactly that if it has never expired. */
  ghost predicate HoldsWritten(w: World, k: Key, way: Way) {
    Held(w.redis, k, way) <= Written(w, k, way) && (k !in w.expired ==> Held(w.redis, k, way) == Written(w, k, way))
  }

  /** A recording in flight is within its delay, and what it wrote is there or has expired. */
  ghost predicate Timely(cfg: Config, w: World, c: Call) {
    c.stage >= SENT ==>
      && c.started <= w.clock
      && (c.InFlight() ==> w.clock <= c.started + cfg.delay)
      && (c.stage >= IN_WRITTEN ==> c.Bucket() in w.redis || c.Bucket() in w.expired)
  }

  /** The times set by EXPIRE: only a completed recording has set one, unless it came too late; the bucket outlives
      it, or has expired by it. */
  ghost predicate Armed(cfg: Config, w: World, c: Call) {
    && c.stage <= DONE && (c.failed ==> c.stage < DONE)
    && (c.armed.Some? ==> c.stage == DONE && c.armed.value <= w.clock + cfg.Ttl())
    && (c.stage == DONE && c.armed.None? ==> c.Bucket() in w.expired)
    && (c.armed.Some? ==>
          || (var b := At(w.redis, c.Bucket()); b.expires.Some? && c.armed.value <= b.expires.value)
          || (c.Bucket() in w.expired && c.armed.value <= w.clock))
  }

  /** A time a bucket has was set by one of its recordings. */
  predicate SetBy(w: World, k: Key, at: int) {
    exists i :: 0 <= i < |w.calls| && w.calls[i].Bucket() == k && w.calls[i].armed == Some(at)
  }

  /** A recording that has written to the bucket and has not set its time. */
  predicate Unsettled(w: World, k: Key) {
    exists i :: 0 <= i < |w.calls| && IN_WRITTEN <= w.calls[i].stage < DONE && w.calls[i].Bucket() == k
  }

  /** A recording that has written to the bucket. */
  predicate Touched(w: World, k: Key) {
    exists i :: 0 <= i < |w.calls| && IN_WRITTEN <= w.calls[i].stage && w.calls[i].Bucket() == k
  }

  /** When a bucket dies: not before a ttl from the start of its hour, nor after one from its last write. */
  ghost predicate Lifetime(cfg: Config, w: World, k: Key) {
    && (k in w.redis ==>
          && 0 <= k.hour * HOUR <= w.clock
          && match w.redis[k].expires
             case None => Unsettled(w, k)
             case Some(at) =>
               && w.clock < at
               && k.hour * HOUR + cfg.Ttl() <= at < (k.hour + 1) * HOUR + cfg.delay + cfg.Ttl())
    && (k in w.expired ==> k.hour * HOUR + cfg.Ttl() <= w.clock)
  }

  ghost predicate Inv(cfg: Config, w: World) {
    && w.activeRequests == |w.inside|
    && (forall h, way :: CountedFor(w, h, way))
    && (forall k, way :: HoldsWritten(w, k, way))
    && (forall i :: 0 <= i < |w.calls| ==> Timely(cfg, w, w.calls[i]))
    && (forall k :: Lifetime(cfg, w, k))
    && (forall k :: k in w.redis ==> Touched(w, k))
    && Scheduled(cfg, w)
  }

  ghost predicate Scheduled(cfg: Config, w: World) {
    && (forall i :: 0 <= i < |w.calls| ==> Armed(cfg, w, w.calls[i]))
    && (forall k :: k in w.redis && w.redis[k].expires.Some? ==> SetBy(w, k, w.redis[k].expires.value))
  }

  /** What a recording's next action adds to a counter is what it adds to the bytes counted. */
  lemma PerformCounts(cfg: Config, w: World, i: nat, h: string, way: Way)
    requires i < |w.calls| && w.calls[i].Open()
    ensures var v, f := Perform(cfg, w, i), Of(h, way, CountedAt(way));
            Total(v, h, way) - Total(w, h, way) == f(v.calls[i]) - f(w.calls[i])
  {
  }

  lemma CountedPerform(cfg: Config, w: World, i: nat, h: string, way: Way)
    requires i < |w.calls| && w.calls[i].Open() && CountedFor(w, h, way)
    ensures CountedFor(Perform(cfg, w, i), h, way)
  {
    PerformCounts(cfg, w, i, h, way);
    SumUpdate(Of(h, way, CountedAt(way)), w.calls, i, Perform(cfg, w, i).calls[i]);
  }

  lemma CountedStep(cfg: Config, w: World, s: Step, h: string, way: Way)
    requires Enabled(cfg, w, s) && CountedFor(w, h, way)
    ensures CountedFor(Apply(cfg, w, s), h, way)
  {
    var v, f := Apply(cfg, w, s), Of(h, way, CountedAt(way));
    match s
    case Record(_, _, _, _) => SumSnoc(f, w.calls, v.calls[|w.calls|]);
    case Fail(i) => SumUpdate(f, w.calls, i, v.calls[i]);
    case Advance(i) => CountedPerform(cfg, w, i, h, way);
    case _ =>
  }

  /** What it adds to a bucket is what it adds to the bytes written to it. */
  lemma PerformWrites(cfg: Config, w: World, i: nat, k: Key, way: Way)
    requires i < |w.calls| && w.calls[i].Open()
    ensures var v, f := Perform(cfg, w, i), To(k, way, WrittenAt(way));
            Held(v.redis, k, way) - Held(w.redis, k, way) == f(v.calls[i]) - f(w.calls[i])
  {
  }

  lemma HoldsPerform(cfg: Config, w: World, i: nat, k: Key, way: Way)
    requires i < |w.calls| && w.calls[i].Open() && HoldsWritten(w, k, way)
    ensures HoldsWritten(Perform(cfg, w, i), k, way)
  {
    PerformWrites(cfg, w, i, k, way);
    SumUpdate(To(k, way, WrittenAt(way)), w.calls, i, Perform(cfg, w, i).calls[i]);
  }

  lemma HoldsStep(cfg: Config, w: World, s: Step, k: Key, way: Way)
    requires Enabled(cfg, w, s) && HoldsWritten(w, k, way)
    ensures HoldsWritten(Apply(cfg, w, s), k, way)
  {
    var v, f := Apply(cfg, w, s), To(k, way, WrittenAt(way));
    match s
    case Record(_, _, _, _) => SumSnoc(f, w.calls, v.calls[|w.calls|]);
    case Fail(i) => SumUpdate(f, w.calls, i, v.calls[i]);
    case Advance(i) => HoldsPerform(cfg, w, i, k, way);
    case Tick(t) => PassHolds(w, t, k, way);
    case _ =>
  }

  lemma PassHolds(w: World, t: nat, k: Key, way: Way)
    requires HoldsWritten(w, k, way)
    ensures HoldsWritten(Pass(w, t), k, way)
  {
    SumNonNegative(To(k, way, WrittenAt(way)), w.calls);
  }

  lemma PassQuietly(w: World, t: nat)
    requires forall k :: k in w.redis ==> !Dead(w.redis[k], w.clock + t)
    ensures Pass(w, t) == w.(clock := w.clock + t)
  {
    assert Pass(w, t).redis == w.redis && Pass(w, t).expired == w.expired;
  }

  lemma TimelyStep(cfg: Config, w: World, s: Step, i: nat)
    requires Enabled(cfg, w, s) && i < |Apply(cfg, w, s).calls|
    requires i < |w.calls| ==> Timely(cfg, w, w.calls[i])
    ensures Timely(cfg, Apply(cfg, w, s), Apply(cfg, w, s).calls[i])
  {
  }

  /** A bucket whose time is not set has a recording that will set it, before and after each step. */
  lemma UnsettledStep(cfg: Config, w: World, s: Step, k: Key)
    requires Enabled(cfg, w, s)
    requires k in w.redis && w.redis[k].expires.None? ==> Unsettled(w, k)
    ensures var v := Apply(cfg, w, s);
            k in v.redis && v.redis[k].expires.None? ==> Unsettled(v, k)
  {
    var v := Apply(cfg, w, s);
    if k in v.redis && v.redis[k].expires.None? {
      if k in w.redis {
        assert w.redis[k].expires.None?;
        var i :| 0 <= i < |w.calls| && IN_WRITTEN <= w.calls[i].stage < DONE && w.calls[i].Bucket() == k;
        assert v.calls[i].Bucket() == k;
      } else {
        assert v.calls[s.call].Bucket() == k;
      }
    }
  }

  lemma TouchedStep(cfg: Config, w: World, s: Step, k: Key)
    requires Enabled(cfg, w, s) && (k in w.redis ==> Touched(w, k))
    ensures k in Apply(cfg, w, s).redis ==> Touched(Apply(cfg, w, s), k)
  {
    var v := Apply(cfg, w, s);
    if k in w.redis {
      var i :| 0 <= i < |w.calls| && IN_WRITTEN <= w.calls[i].stage && w.calls[i].Bucket() == k;
      assert v.calls[i].Bucket() == k;
    } else if k in v.redis {
      assert v.calls[s.call].Bucket() == k;
    }
  }

  lemma PerformArmed(cfg: Config, w: World, j: nat, i: nat)
    requires j < |w.calls| && w.calls[j].Open() && i < |w.calls|
    requires Timely(cfg, w, w.calls[i]) && Armed(cfg, w, w.calls[i])
    ensures Armed(cfg, Perform(cfg, w, j), Perform(cfg, w, j).calls[i])
  {
  }

  lemma ArmedStep(cfg: Config, w: World, s: Step, i: nat)
    requires Enabled(cfg, w, s) && i < |Apply(cfg, w, s).calls|
    requires i < |w.calls| ==>
               Timely(cfg, w, w.calls[i]) && Armed(cfg, w, w.calls[i]) && Lifetime(cfg, w, w.calls[i].Bucket())
    ensures Armed(cfg, Apply(cfg, w, s), Apply(cfg, w, s).calls[i])
  {
    if s.Advance? {
      PerformArmed(cfg, w, s.call, i);
    }
  }

  lemma SetByStep(cfg: Config, w: World, s: Step, k: Key)
    requires Enabled(cfg, w, s)
    requires forall i :: 0 <= i < |w.calls| ==> Armed(cfg, w, w.calls[i])
    requires k in w.redis && w.redis[k].expires.Some? ==> SetBy(w, k, w.redis[k].expires.value)
    ensures var v := Apply(cfg, w, s);
            k in v.redis && v.redis[k].expires.Some? ==> SetBy(v, k, v.redis[k].expires.value)
  {
    var v := Apply(cfg, w, s);
    if k in v.redis && v.redis[k].expires.Some? {
      var at := v.redis[k].expires.value;
      if s.Advance? && w.calls[s.call].stage == OUT_WRITTEN && w.calls[s.call].Bucket() == k {
        assert v.calls[s.call].Bucket() == k && v.calls[s.call].armed == Some(at);
      } else {
        assert w.redis[k].expires == Some(at);
        var i :| 0 <= i < |w.calls| && w.calls[i].Bucket() == k && w.calls[i].armed == Some(at);
        assert v.calls[i].Bucket() == k && v.calls[i].armed == Some(at);
      }
    }
  }

  lemma ScheduledStep(cfg: Config, w: World, s: Step)
    requires Enabled(cfg, w, s) && Scheduled(cfg, w)
    requires forall k :: Lifetime(cfg, w, k)
    requires forall i :: 0 <= i < |w.calls| ==> Timely(cfg, w, w.calls[i])
    ensures Scheduled(cfg, Apply(cfg, w, s))
  {
    var v := Apply(cfg, w, s);
    forall i | 0 <= i < |v.calls| ensures Armed(cfg, v, v.calls[i]) {
      ArmedStep(cfg, w, s, i);
    }
    forall k | k in v.redis && v.redis[k].expires.Some? ensures SetBy(v, k, v.redis[k].expires.value) {
      SetByStep(cfg, w, s, k);
    }
  }

  lemma PerformLifetime(cfg: Config, w: World, i: nat, k: Key)
    requires i < |w.calls| && w.calls[i].Open() && Timely(cfg, w, w.calls[i]) && Lifetime(cfg, w, k)
    requires var v := Perform(cfg, w, i); k in v.redis && v.redis[k].expires.None? ==> Unsettled(v, k)
    ensures Lifetime(cfg, Perform(cfg, w, i), k)
  {
  }

  lemma LifetimeStep(cfg: Config, w: World, s: Step, k: Key)
    requires Enabled(cfg, w, s) && Lifetime(cfg, w, k)
    requires s.Advance? ==> Timely(cfg, w, w.calls[s.call])
    ensures Lifetime(cfg, Apply(cfg, w, s), k)
  {
    UnsettledStep(cfg, w, s, k);
    if s.Advance? {
      PerformLifetime(cfg, w, s.call, k);
    }
  }

  lemma BooksStep(cfg: Config, w: World, s: Step)
    requires Enabled(cfg, w, s) && Inv(cfg, w)
    ensures forall h, way :: CountedFor(Apply(cfg, w, s), h, way)
    ensures forall k, way :: HoldsWritten(Apply(cfg, w, s), k, way)
  {
    var v := Apply(cfg, w, s);
    forall h, way ensures CountedFor(v, h, way) { CountedStep(cfg, w, s, h, way); }
    forall k, way ensures HoldsWritten(v, k, way) { HoldsStep(cfg, w, s, k, way); }
  }

  lemma BucketsStep(cfg: Config, w: World, s: Step)
    requires Enabled(cfg, w, s) && Inv(cfg, w)
    ensures forall k :: Lifetime(cfg, Apply(cfg, w, s), k)
    ensures forall k :: k in Apply(cfg, w, s).redis ==> Touched(Apply(cfg, w, s), k)
  {
    var v := Apply(cfg, w, s);
    forall k ensures Lifetime(cfg, v, k) { LifetimeStep(cfg, w, s, k); }
    forall k | k in v.redis ensures Touched(v, k) { TouchedStep(cfg, w, s, k); }
  }

  lemma InsideStep(cfg: Config, w: World, s: Step)
    requires Enabled(cfg, w, s)
    ensures var v := Apply(cfg, w, s);
            match s
            case Enter(id) => v.inside == w.inside + {id} && v.activeRequests == w.activeRequests + 1
            case Leave(id) => v.inside == w.inside - {id} && v.activeRequests == w.activeRequests - 1
            case _ => v.inside == w.inside && v.activeRequests == w.activeRequests
  {
  }

  lemma GaugeStep(cfg: Config, w: World, s: Step, v: World)
    requires Enabled(cfg, w, s) && w.activeRequests == |w.inside| && v == Apply(cfg, w, s)
    ensures v.activeRequests == |v.inside|
  {
    InsideStep(cfg, w, s);
  }

  lemma CallsStep(cfg: Config, w: World, s: Step)
    requires Enabled(cfg, w, s) && forall i :: 0 <= i < |w.calls| ==> Timely(cfg, w, w.calls[i])
    ensures forall i :: 0 <= i < |Apply(cfg, w, s).calls| ==> Timely(cfg, Apply(cfg, w, s), Apply(cfg, w, s).calls[i])
  {
    var v := Apply(cfg, w, s);
    forall i | 0 <= i < |v.calls| ensures Timely(cfg, v, v.calls[i]) { TimelyStep(cfg, w, s, i); }
  }

  lemma InvStep(cfg: Config, w: World, s: Step)
    requires Enabled(cfg, w, s) && Inv(cfg, w)
    ensures Inv(cfg, Apply(cfg, w, s))
  {
    BooksStep(cfg, w, s);
    ScheduledStep(cfg, w, s);
    BucketsStep(cfg, w, s);
    CallsStep(cfg, w, s);
    GaugeStep(cfg, w, s, Apply(cfg, w, s));
  }

  lemma InvNext(cfg: Config, v: World, w: World)
    requires Next(cfg, v, w) && Inv(cfg, v)
    ensures Inv(cfg, w)
  {
    var s :| Enabled(cfg, v, s) && w == Apply(cfg, v, s);
    InvStep(cfg, v, s);
  }

  /** Every world of every run, however the streams and the commands interleave. */
  lemma {:induction false} InvAlways(cfg: Config, worlds: seq<World>, n: nat)
    requires Run(cfg, worlds) && n < |worlds|
    ensures Inv(cfg, worlds[n])
  {
    if n > 0 {
      InvAlways(cfg, worlds, n - 1);
      assert Next(cfg, worlds[n - 1], worlds[n - 1 + 1]);
      InvNext(cfg, worlds[n - 1], worlds[n]);
    }
  }
}
