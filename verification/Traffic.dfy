/** The hourly traffic buckets in Redis: their names, the three commands of a recording, and the recording itself. */
module Traffic {
  import opened Text

  /** A hash with the fields bytes_in and bytes_out, and the time it expires if it has one. */
  datatype Bucket = Bucket(bytesIn: int, bytesOut: int, expires: Option<int>)

  function At<K>(redis: map<K, Bucket>, k: K): Bucket {
    if k in redis then redis[k] else Bucket(0, 0, None)
  }

  /** HINCRBY makes the hash when it is not there. */
  function IncrIn<K>(redis: map<K, Bucket>, k: K, n: int): map<K, Bucket> {
    redis[k := At(redis, k).(bytesIn := At(redis, k).bytesIn + n)]
  }

  function IncrOut<K>(redis: map<K, Bucket>, k: K, n: int): map<K, Bucket> {
    redis[k := At(redis, k).(bytesOut := At(redis, k).bytesOut + n)]
  }

  /** EXPIRE sets the time anew on every call, and does nothing when the key is not there. */
  function Expire<K>(redis: map<K, Bucket>, k: K, at: int): map<K, Bucket> {
    if k in redis then redis[k := redis[k].(expires := Some(at))] else redis
  }

  const HOUR := 3_600_000_000_000  // in nanoseconds

  /** The ttl a store is given; one that is not positive stands for 72 hours. */
  function EffectiveTtl(ttl: int): int {
    if ttl <= 0 then 72 * HOUR else ttl
  }

  // The UTC calendar, counted from the first hour of the year 0.

  datatype Date = Date(year: nat, month: nat, day: nat)

  predicate Leap(year: nat) {
    year % 4 == 0 && (year % 100 != 0 || year % 400 == 0)
  }

  function DaysIn(year: nat, month: nat): nat {
    if month == 2 then (if Leap(year) then 29 else 28)
    else if month in {4, 6, 9, 11} then 30
    else 31
  }

  function NextDay(d: Date): Date {
    if d.day < DaysIn(d.year, d.month) then d.(day := d.day + 1)
    else if d.month < 12 then Date(d.year, d.month + 1, 1)
    else Date(d.year + 1, 1, 1)
  }

  function DateOf(days: nat): (d: Date)
    ensures 1 <= d.month <= 12 && 1 <= d.day <= 31
  {
    if days == 0 then Date(0, 1, 1) else NextDay(DateOf(days - 1))
  }

  // The same calendar in closed form.

  const DAYS_BEFORE := [0, 31, 59, 90, 120, 151, 181, 212, 243, 273, 304, 334]

  predicate RealDate(d: Date) {
    1 <= d.month <= 12 && 1 <= d.day <= DaysIn(d.year, d.month)
  }

  /** The days before the first of January of a year: 365 for each year, and one more for each leap year. */
  function YearStart(year: nat): nat {
    365 * year + (year + 3) / 4 - (year + 99) / 100 + (year + 399) / 400
  }

  /** The days from the first of January of the year 0 to a date. */
  function DayNumber(d: Date): nat
    requires RealDate(d)
  {
    YearStart(d.year) + DAYS_BEFORE[d.month - 1] + (if d.month > 2 && Leap(d.year) then 1 else 0) + d.day - 1
  }

  lemma Fours(year: nat)
    ensures (year + 4) / 4 == (year + 3) / 4 + if year % 4 == 0 then 1 else 0
  {
  }

  lemma Centuries(year: nat)
    ensures (year + 100) / 100 == (year + 99) / 100 + if year % 100 == 0 then 1 else 0
    ensures (year + 400) / 400 == (year + 399) / 400 + if year % 400 == 0 then 1 else 0
  {
  }

  lemma RoundYears(year: nat)
    ensures year % 100 == 0 ==> year % 4 == 0
    ensures year % 400 == 0 ==> year % 100 == 0
  {
    var hundreds, rest := year / 100, year % 100;
    assert year == 4 * (25 * hundreds) + rest;
    assert year == 100 * (4 * (year / 400)) + year % 400;
  }

  lemma YearLength(year: nat)
    ensures YearStart(year + 1) == YearStart(year) + if Leap(year) then 366 else 365
  {
    Fours(year);
    Centuries(year);
    RoundYears(year);
  }

  lemma NextDayIsNext(d: Date)
    requires RealDate(d)
    ensures RealDate(NextDay(d)) && DayNumber(NextDay(d)) == DayNumber(d) + 1
  {
    YearLength(d.year);
  }

  /** The date of a day is the one whose number the day is. */
  lemma {:induction false} DayOfDate(days: nat)
    ensures RealDate(DateOf(days)) && DayNumber(DateOf(days)) == days
  {
    if days > 0 {
      DayOfDate(days - 1);
      NextDayIsNext(DateOf(days - 1));
    }
  }

  lemma DayBefore(d: Date) returns (p: Date)
    requires RealDate(d) && d != Date(0, 1, 1)
    ensures RealDate(p) && NextDay(p) == d
  {
    p := if d.day > 1 then d.(day := d.day - 1)
         else if d.month > 1 then Date(d.year, d.month - 1, DaysIn(d.year, d.month - 1))
         else Date(d.year - 1, 12, 31);
  }

  /** And every date of the calendar is the date of its number. */
  lemma {:induction false} DateOfDay(d: Date)
    requires RealDate(d)
    ensures DateOf(DayNumber(d)) == d
    decreases DayNumber(d)
  {
    if d != Date(0, 1, 1) {
      var p := DayBefore(d);
      NextDayIsNext(p);
      DateOfDay(p);
    }
  }

  /** A UTC hour of the calendar, as the bucket name prints it. */
  datatype Window = Window(date: Date, hour: nat) {
    predicate Valid() {
      date.month <= 12 && date.day <= 31 && hour < 24
    }
  }

  function WindowOf(hour: nat): (w: Window)
    ensures w.Valid()
  {
    Window(DateOf(hour / 24), hour % 24)
  }

  lemma WindowsDiffer(a: nat, b: nat)
    requires WindowOf(a) == WindowOf(b)
    ensures a == b
  {
    DayOfDate(a / 24);
    DayOfDate(b / 24);
  }

  // Names of buckets.

  function Digit(d: nat): char
    requires d < 10
  {
    ('0' as int + d) as char
  }

  function Digits(n: nat): string {
    if n < 10 then [Digit(n)] else Digits(n / 10) + [Digit(n % 10)]
  }

  function Pad2(n: nat): string
    requires n <= 99
  {
    [Digit(n / 10), Digit(n % 10)]
  }

  /** Four digits, and more from the year 10000 on. */
  function PrintYear(n: nat): string {
    if n <= 9999 then Pad2(n / 100) + Pad2(n % 100) else Digits(n)
  }

  function Format(w: Window): string
    requires w.Valid()
  {
    PrintYear(w.date.year) + "-" + Pad2(w.date.month) + "-" + Pad2(w.date.day) + "-" + Pad2(w.hour)
  }

  function GenerateKey(host: string, w: Window): string
    requires w.Valid()
  {
    "gateway:" + host + ":traffic:" + Format(w)
  }

  // Reading the names.

  predicate Decimal(s: string) {
    forall i :: 0 <= i < |s| ==> '0' <= s[i] <= '9'
  }

  /** The number that digits stand for. */
  function Value(s: string): nat
    requires Decimal(s)
  {
    if s == "" then 0 else 10 * Value(s[..|s| - 1]) + (s[|s| - 1] as int - '0' as int)
  }

  lemma Pad2Reads(n: nat)
    requires n <= 99
    ensures Decimal(Pad2(n)) && Value(Pad2(n)) == n
  {
    var s := Pad2(n);
    assert s[..1] == [Digit(n / 10)] && s[..1][..0] == "";
    assert Value(s[..1]) == n / 10;
  }

  lemma {:induction false} DigitsRead(n: nat)
    ensures Decimal(Digits(n)) && Value(Digits(n)) == n
  {
    var s := Digits(n);
    if n < 10 {
      assert s[..0] == "";
    } else {
      DigitsRead(n / 10);
      assert s[..|s| - 1] == Digits(n / 10);
    }
  }

  lemma ValueOfPair(s: string, t: string)
    requires Decimal(s) && Decimal(t) && |t| == 2
    ensures Decimal(s + t) && Value(s + t) == 100 * Value(s) + Value(t)
  {
    var st := s + t;
    assert st[..|st| - 1] == s + t[..1] && (s + t[..1])[..|s|] == s;
    assert t[..1][..0] == "";
    assert Value(t[..1]) == t[0] as int - '0' as int;
  }

  lemma YearReads(n: nat)
    ensures Decimal(PrintYear(n)) && Value(PrintYear(n)) == n && |PrintYear(n)| >= 4
  {
    if n <= 9999 {
      Pad2Reads(n / 100);
      Pad2Reads(n % 100);
      ValueOfPair(Pad2(n / 100), Pad2(n % 100));
    } else {
      DigitsRead(n);
      DigitsLonger(n);
      DigitsLonger(n / 10);
      DigitsLonger(n / 100);
    }
  }

  lemma DigitsLonger(n: nat)
    requires n >= 10
    ensures |Digits(n)| == |Digits(n / 10)| + 1 >= 2
  {
  }

  /** A date and an hour as four numbers in decimal, in this order: year, month, day, hour. */
  ghost predicate Spells(s: string, w: Window) {
    exists y, m, d, h ::
      && Fields(s, y, m, d, h)
      && Value(y) == w.date.year && Value(m) == w.date.month && Value(d) == w.date.day && Value(h) == w.hour
  }

  /** Four fields of digits between dashes, at least four for the year and two for each other. */
  predicate Fields(s: string, year: string, month: string, day: string, hour: string) {
    && s == year + "-" + month + "-" + day + "-" + hour
    && Decimal(year) && Decimal(month) && Decimal(day) && Decimal(hour)
    && |year| >= 4 && |month| == 2 && |day| == 2 && |hour| == 2
  }

  lemma FormatSpells(w: Window)
    requires w.Valid()
    ensures Spells(Format(w), w)
  {
    YearReads(w.date.year);
    Pad2Reads(w.date.month);
    Pad2Reads(w.date.day);
    Pad2Reads(w.hour);
    assert Fields(Format(w), PrintYear(w.date.year), Pad2(w.date.month), Pad2(w.date.day), Pad2(w.hour));
  }

  /** The fields are told from the text. */
  lemma FieldsAreUnique(s: string, y1: string, m1: string, d1: string, h1: string, y2: string, m2: string, d2: string, h2: string)
    requires Fields(s, y1, m1, d1, h1) && Fields(s, y2, m2, d2, h2)
    ensures y1 == y2 && m1 == m2 && d1 == d2 && h1 == h2
  {
    var y := |s| - 9;
    assert y1 == s[..y] == y2;
    assert m1 == s[y + 1..y + 3] == m2;
    assert d1 == s[y + 4..y + 6] == d2;
    assert h1 == s[y + 7..] == h2;
  }

  lemma SpellsOne(s: string, v: Window, w: Window)
    requires Spells(s, v) && Spells(s, w)
    ensures v == w
  {
    var y1, m1, d1, h1 :| Fields(s, y1, m1, d1, h1) &&
      Value(y1) == v.date.year && Value(m1) == v.date.month && Value(d1) == v.date.day && Value(h1) == v.hour;
    var y2, m2, d2, h2 :| Fields(s, y2, m2, d2, h2) &&
      Value(y2) == w.date.year && Value(m2) == w.date.month && Value(d2) == w.date.day && Value(h2) == w.hour;
    FieldsAreUnique(s, y1, m1, d1, h1, y2, m2, d2, h2);
  }

  lemma FormatInjective(v: Window, w: Window)
    requires v.Valid() && w.Valid() && Format(v) == Format(w)
    ensures v == w
  {
    FormatSpells(v);
    FormatSpells(w);
    SpellsOne(Format(v), v, w);
  }

  lemma FormatHasNoColon(w: Window)
    requires w.Valid()
    ensures ':' !in Format(w)
  {
    YearReads(w.date.year);
  }

  /** The text behind the last colon is determined by the whole. */
  lemma LastColon(x1: string, y1: string, x2: string, y2: string)
    requires x1 + ":" + y1 == x2 + ":" + y2 && ':' !in y1 && ':' !in y2
    ensures x1 == x2 && y1 == y2
  {
    var s := x1 + ":" + y1;
    assert s[|x1|] == ':' && s[|x2|] == ':';
    assert forall i :: |x1| < i < |s| ==> s[i] == y1[i - |x1| - 1];
    assert forall i :: |x2| < i < |s| ==> s[i] == y2[i - |x2| - 1];
    assert |x1| == |x2|;
    assert x1 == s[..|x1|] && x2 == s[..|x2|];
    assert y1 == s[|x1| + 1..] && y2 == s[|x2| + 1..];
  }

  /** Whatever the hosts contain, two keys are equal only for the same host and the same hour. */
  lemma KeysInjective(host1: string, w1: Window, host2: string, w2: Window)
    requires w1.Valid() && w2.Valid()
    ensures GenerateKey(host1, w1) == GenerateKey(host2, w2) <==> host1 == host2 && w1 == w2
  {
    if GenerateKey(host1, w1) == GenerateKey(host2, w2) {
      var x1, x2 := "gateway:" + host1 + ":traffic", "gateway:" + host2 + ":traffic";
      assert GenerateKey(host1, w1) == x1 + ":" + Format(w1) && GenerateKey(host2, w2) == x2 + ":" + Format(w2);
      FormatHasNoColon(w1);
      FormatHasNoColon(w2);
      LastColon(x1, Format(w1), x2, Format(w2));
      FormatInjective(w1, w2);
      assert x1[8..|x1| - 8] == host1 && x2[8..|x2| - 8] == host2;
    }
  }

  /** The name of the bucket of a host and an hour of the clock. */
  function BucketName(host: string, hour: nat): string {
    GenerateKey(host, WindowOf(hour))
  }

  /** What the name of the bucket at a time of the clock, in nanoseconds, says: the host, and behind it the date and the
      hour of that time. */
  lemma NameMeaning(host: string, time: nat) returns (text: string, d: Date)
    ensures BucketName(host, time / HOUR) == "gateway:" + host + ":traffic:" + text
    ensures RealDate(d) && DayNumber(d) == time / (24 * 3_600_000_000_000)
    ensures Spells(text, Window(d, time / 3_600_000_000_000 % 24))
  {
    var hour := time / HOUR;
    text, d := Format(WindowOf(hour)), DateOf(hour / 24);
    DayOfDate(hour / 24);
    FormatSpells(WindowOf(hour));
  }

  lemma HourOfDay(day: nat, hour: nat)
    requires hour < 24
    ensures (24 * day + hour) / 24 == day && (24 * day + hour) % 24 == hour
  {
  }

  lemma NameOfDate(host: string, d: Date, hour: nat)
    requires RealDate(d) && hour < 24
    ensures Window(d, hour).Valid() && BucketName(host, 24 * DayNumber(d) + hour) == GenerateKey(host, Window(d, hour))
  {
    DateOfDay(d);
    HourOfDay(DayNumber(d), hour);
    assert WindowOf(24 * DayNumber(d) + hour) == Window(d, hour);
  }

  /** The example of the tests, the 15th of March 2024 at two in the afternoon; and the day on which Unix time begins. */
  lemma NameOfTestTime()
    ensures GenerateKey("example.com", Window(Date(2024, 3, 15), 14)) == "gateway:example.com:traffic:2024-03-15-14"
    ensures DayNumber(Date(1970, 1, 1)) == 719528
  {
    TestWindow(Window(Date(2024, 3, 15), 14));
    assert "gateway:" + "example.com" + ":traffic:" + "2024-03-15-14" == "gateway:example.com:traffic:2024-03-15-14";
  }

  lemma TestWindow(w: Window)
    requires w == Window(Date(2024, 3, 15), 14)
    ensures Format(w) == "2024-03-15-14"
  {
    assert PrintYear(w.date.year) == "2024" && Pad2(w.date.month) == "03" && Pad2(w.date.day) == "15" && Pad2(w.hour) == "14";
  }

  /** Names stand for hosts and hours of the clock, one for one. */
  lemma NamesInjective(host1: string, hour1: nat, host2: string, hour2: nat)
    ensures BucketName(host1, hour1) == BucketName(host2, hour2) <==> host1 == host2 && hour1 == hour2
  {
    KeysInjective(host1, WindowOf(hour1), host2, WindowOf(hour2));
    if WindowOf(hour1) == WindowOf(hour2) {
      WindowsDiffer(hour1, hour2);
    }
  }

  // The store.

  /** When a recording reads the clock, when Redis carries its commands out, and how many of them arrive. */
  datatype Timing = Timing(started: nat, now: int, arrived: nat)

  /** A recording as the store was asked for it. */
  datatype Recording = Recording(host: string, bytesIn: int, bytesOut: int, timing: Timing)

  /** What the recordings with enough arrived commands wrote to a bucket. */
  function WroteIn(log: seq<Recording>, host: string, hour: nat): int {
    if log == [] then 0
    else
      var r := log[|log| - 1];
      WroteIn(log[..|log| - 1], host, hour) +
      if r.host == host && r.timing.started / HOUR == hour && r.timing.arrived >= 1 then r.bytesIn else 0
  }

  function WroteOut(log: seq<Recording>, host: string, hour: nat): int {
    if log == [] then 0
    else
      var r := log[|log| - 1];
      WroteOut(log[..|log| - 1], host, hour) +
      if r.host == host && r.timing.started / HOUR == hour && r.timing.arrived >= 2 then r.bytesOut else 0
  }

  /** The bucket holds what was found in it and what the recordings wrote. */
  ghost predicate HoldsLogged(redis: map<string, Bucket>, found: map<string, Bucket>, log: seq<Recording>,
                              host: string, hour: nat) {
    var now, before := At(redis, BucketName(host, hour)), At(found, BucketName(host, hour));
    && now.bytesIn == before.bytesIn + WroteIn(log, host, hour)
    && now.bytesOut == before.bytesOut + WroteOut(log, host, hour)
  }

  /** The buckets after the commands of a recording that arrive. */
  function Carried(redis: map<string, Bucket>, r: Recording, ttl: int): map<string, Bucket> {
    var key, n := BucketName(r.host, r.timing.started / HOUR), r.timing.arrived;
    var one := if n >= 1 then IncrIn(redis, key, r.bytesIn) else redis;
    var two := if n >= 2 then IncrOut(one, key, r.bytesOut) else one;
    if n >= 3 then Expire(two, key, r.timing.now + ttl) else two
  }

  lemma CarriedElsewhere(redis: map<string, Bucket>, r: Recording, ttl: int, host: string, hour: nat)
    requires host != r.host || hour != r.timing.started / HOUR
    ensures At(Carried(redis, r, ttl), BucketName(host, hour)) == At(redis, BucketName(host, hour))
  {
    NamesInjective(host, hour, r.host, r.timing.started / HOUR);
  }

  lemma CarriedHolds(redis: map<string, Bucket>, found: map<string, Bucket>, log: seq<Recording>, r: Recording, ttl: int,
                     host: string, hour: nat)
    requires HoldsLogged(redis, found, log, host, hour)
    ensures HoldsLogged(Carried(redis, r, ttl), found, log + [r], host, hour)
  {
    assert (log + [r])[..|log|] == log;
    if host != r.host || hour != r.timing.started / HOUR {
      CarriedElsewhere(redis, r, ttl, host, hour);
    }
  }

  /** The client of a Redis that others have filled before; without a client every recording is a no-op. */
  class RedisTrafficMetrics {
    const ttl: int
    const connected: bool
    var redis: map<string, Bucket>
    ghost const found: map<string, Bucket>  // what was there at the start
    ghost var log: seq<Recording>  // every recording asked for

    /** Each bucket holds what was found in it and what the recordings wrote, and nothing else has changed. */
    ghost predicate Valid()
      reads this
    {
      if connected then forall host, hour: nat :: HoldsLogged(redis, found, log, host, hour) else redis == found
    }

    constructor (connected: bool, contents: map<string, Bucket>, ttl: int)
      ensures Valid() && this.connected == connected && this.ttl == EffectiveTtl(ttl)
      ensures redis == contents && found == contents && log == []
    {
      this.ttl := if ttl <= 0 then 72 * HOUR else ttl;
      this.connected, redis, found, log := connected, contents, contents, [];
    }

    /** Sends the three commands of one recording, of which the first `arrived` are carried out. */
    method RecordTraffic(host: string, bytesIn: int, bytesOut: int, timing: Timing) returns (ok: bool)
      requires Valid()
      modifies this`redis, this`log
      ensures Valid() && log == old(log) + [Recording(host, bytesIn, bytesOut, timing)]
      ensures ok <==> !connected || timing.arrived >= 3
      ensures connected ==>
                var key := BucketName(host, timing.started / HOUR);
                && At(redis, key).bytesIn == At(old(redis), key).bytesIn + (if timing.arrived >= 1 then bytesIn else 0)
                && At(redis, key).bytesOut == At(old(redis), key).bytesOut + (if timing.arrived >= 2 then bytesOut else 0)
      ensures connected && timing.arrived >= 3 ==>
                var key := BucketName(host, timing.started / HOUR);
                key in redis && redis[key].expires == Some(timing.now + ttl)
      ensures forall h, hour: nat :: !connected || h != host || hour != timing.started / HOUR ==>
                At(redis, BucketName(h, hour)) == At(old(redis), BucketName(h, hour))
    {
      ghost var r := Recording(host, bytesIn, bytesOut, timing);
      ok := true;
      if connected {
        var key := BucketName(host, timing.started / HOUR);
        if timing.arrived >= 1 {
          redis := IncrIn(redis, key, bytesIn);
        }
        if timing.arrived >= 2 {
          redis := IncrOut(redis, key, bytesOut);
        }
        if timing.arrived >= 3 {
          redis := Expire(redis, key, timing.now + ttl);
        }
        ok := timing.arrived >= 3;
        assert redis == Carried(old(redis), r, ttl);
        forall h, hour: nat ensures HoldsLogged(redis, found, log + [r], h, hour) {
          CarriedHolds(old(redis), found, log, r, ttl, h, hour);
        }
        forall h, hour: nat | h != host || hour != timing.started / HOUR
          ensures At(redis, BucketName(h, hour)) == At(old(redis), BucketName(h, hour))
        {
          CarriedElsewhere(old(redis), r, ttl, h, hour);
        }
      }
      log := log + [r];
    }
  }

  /** NewRedisTrafficMetrics: a client that does not answer the ping is refused. */
  method NewStore(connected: bool, pingOk: bool, contents: map<string, Bucket>, ttl: int)
    returns (store: RedisTrafficMetrics?)
    ensures store == null <==> connected && !pingOk
    ensures store != null ==>
              && fresh(store) && store.Valid() && store.connected == connected
              && store.redis == contents && store.log == []
              && (if ttl > 0 then store.ttl == ttl else store.ttl == 72 * 3_600_000_000_000)
  {
    if connected && !pingOk {
      return null;
    }
    store := new RedisTrafficMetrics(connected, contents, ttl);
  }
}
