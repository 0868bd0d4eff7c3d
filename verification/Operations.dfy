/** Operational counters: fifteen minute buckets that answer for the whole request log. */
module Operations {
  import opened Prelude

  datatype Metric = Requests | DurationMs | ApiRequests | Api5xx | Le100 | Le500 | Le2000

  type Counter = map<Metric, real>

  /** One recorded request. */
  datatype Call = Call(minute: int, status: int, duration: real, business: bool)

  datatype Bucket = Bucket(minute: int, counts: Counter)

  const BUCKETS := 15

  function MinuteOf(now: real): int {
    (now / 60.0).Floor
  }

  function At(c: Counter, m: Metric): real {
    if m in c then c[m] else 0.0
  }

  function Add(c: Counter, m: Metric, x: real): Counter {
    c[m := At(c, m) + x]
  }

  function Merge(a: Counter, b: Counter): Counter {
    map m | m in a.Keys + b.Keys :: At(a, m) + At(b, m)
  }

  function One(b: bool): real {
    if b then 1.0 else 0.0
  }

  /** What a request contributes to a metric. */
  function Share(c: Call, m: Metric): real {
    match m
    case Requests => 1.0
    case DurationMs => if c.duration > 0.0 then c.duration else 0.0
    case ApiRequests => One(c.business)
    case Api5xx => One(c.business && c.status >= 500)
    case Le100 => One(c.duration <= 100.0)
    case Le500 => One(c.duration <= 500.0)
    case Le2000 => One(c.duration <= 2000.0)
  }

  /** The total of a metric over the whole log, from a minute on. */
  function LogTotal(log: seq<Call>, m: Metric, minimum: int): real {
    if log == [] then 0.0
    else
      var last := log[|log| - 1];
      LogTotal(log[..|log| - 1], m, minimum) + if last.minute >= minimum then Share(last, m) else 0.0
  }

  /** The total of a metric over the buckets, from a minute on. */
  function WindowTotal(buckets: seq<Bucket>, m: Metric, minimum: int): real {
    if buckets == [] then 0.0
    else
      var last := buckets[|buckets| - 1];
      WindowTotal(buckets[..|buckets| - 1], m, minimum) + if last.minute >= minimum then At(last.counts, m) else 0.0
  }

  /** A metric that counts fewer requests never exceeds one that counts more. */
  lemma {:induction false} LogOrdered(log: seq<Call>, a: Metric, b: Metric, minimum: int)
    requires forall c :: Share(c, a) <= Share(c, b)
    ensures LogTotal(log, a, minimum) <= LogTotal(log, b, minimum)
  {
    if log != [] { LogOrdered(log[..|log| - 1], a, b, minimum); }
  }

  // ---- the totals, told by the requests ----

  lemma {:induction false} CountedBy(log: seq<Call>, m: Metric, minimum: int, hits: set<int>)
    requires forall i :: i in hits ==> 0 <= i < |log|
    requires forall i :: 0 <= i < |log| && log[i].minute >= minimum ==> Share(log[i], m) == if i in hits then 1.0 else 0.0
    requires forall i :: i in hits ==> log[i].minute >= minimum
    ensures LogTotal(log, m, minimum) == |hits| as real
  {
    if log != [] {
      var n := |log| - 1;
      forall i | 0 <= i < n ensures log[..n][i] == log[i] {}
      CountedBy(log[..n], m, minimum, hits - {n});
    } else {
      assert forall i :: i !in hits;
      assert hits == {};
    }
  }

  /** How long the requests from a minute on took together; a negative duration counts as none. */
  function Durations(log: seq<Call>, minimum: int): real {
    if log == [] then 0.0
    else
      var last := log[|log| - 1];
      Durations(log[..|log| - 1], minimum) + if last.minute >= minimum && last.duration > 0.0 then last.duration else 0.0
  }

  lemma {:induction false} DurationsSummed(log: seq<Call>, minimum: int)
    ensures LogTotal(log, DurationMs, minimum) == Durations(log, minimum)
  {
    if log != [] { DurationsSummed(log[..|log| - 1], minimum); }
  }

  /** The totals of a window count its requests: all of them, those of the API, those of the API that failed in the server, and those
      answered within 100, 500 and 2000 milliseconds. */
  lemma TotalsCount(log: seq<Call>, minimum: int)
    ensures LogTotal(log, Requests, minimum) == |set i | 0 <= i < |log| && log[i].minute >= minimum| as real
    ensures LogTotal(log, ApiRequests, minimum) == |set i | 0 <= i < |log| && log[i].minute >= minimum && log[i].business| as real
    ensures LogTotal(log, Api5xx, minimum) ==
      |set i | 0 <= i < |log| && log[i].minute >= minimum && log[i].business && log[i].status >= 500| as real
    ensures LogTotal(log, Le100, minimum) == |set i | 0 <= i < |log| && log[i].minute >= minimum && log[i].duration <= 100.0| as real
    ensures LogTotal(log, Le500, minimum) == |set i | 0 <= i < |log| && log[i].minute >= minimum && log[i].duration <= 500.0| as real
    ensures LogTotal(log, Le2000, minimum) == |set i | 0 <= i < |log| && log[i].minute >= minimum && log[i].duration <= 2000.0| as real
  {
    CountedBy(log, Requests, minimum, set i | 0 <= i < |log| && log[i].minute >= minimum);
    CountedBy(log, ApiRequests, minimum, set i | 0 <= i < |log| && log[i].minute >= minimum && log[i].business);
    CountedBy(log, Api5xx, minimum, set i | 0 <= i < |log| && log[i].minute >= minimum && log[i].business && log[i].status >= 500);
    CountedBy(log, Le100, minimum, set i | 0 <= i < |log| && log[i].minute >= minimum && log[i].duration <= 100.0);
    CountedBy(log, Le500, minimum, set i | 0 <= i < |log| && log[i].minute >= minimum && log[i].duration <= 500.0);
    CountedBy(log, Le2000, minimum, set i | 0 <= i < |log| && log[i].minute >= minimum && log[i].duration <= 2000.0);
  }

  ghost predicate Ascending(buckets: seq<Bucket>) {
    forall i, j :: 0 <= i < j < |buckets| ==> buckets[i].minute < buckets[j].minute
  }

  /** The buckets answer for the log on a window that starts no earlier than the oldest bucket, once the deque is full. */
  ghost predicate Answers(buckets: seq<Bucket>, log: seq<Call>) {
    forall m, minimum :: |buckets| < BUCKETS || buckets[0].minute <= minimum ==> WindowTotal(buckets, m, minimum) == LogTotal(log, m, minimum)
  }

  lemma {:induction false} AscendingSpan(buckets: seq<Bucket>)
    requires Ascending(buckets) && buckets != []
    ensures buckets[|buckets| - 1].minute >= buckets[0].minute + |buckets| - 1
  {
    if |buckets| > 1 {
      assert buckets[..|buckets| - 1][0] == buckets[0];
      AscendingSpan(buckets[..|buckets| - 1]);
    }
  }

  /** Dropping the oldest bucket changes no window that starts after it. */
  lemma {:induction false} DropOldest(buckets: seq<Bucket>, m: Metric, minimum: int)
    requires buckets != [] && buckets[0].minute < minimum
    ensures WindowTotal(buckets[1..], m, minimum) == WindowTotal(buckets, m, minimum)
  {
    var early := buckets[..|buckets| - 1];
    if |buckets| > 1 {
      assert early[1..] == buckets[1..][..|buckets| - 2];
      DropOldest(early, m, minimum);
    } else {
      assert early == [];
    }
  }

  lemma WindowAppend(buckets: seq<Bucket>, b: Bucket, m: Metric, minimum: int)
    ensures WindowTotal(buckets + [b], m, minimum) == WindowTotal(buckets, m, minimum) + if b.minute >= minimum then At(b.counts, m) else 0.0
  {
    assert (buckets + [b])[..|buckets|] == buckets;
  }

  lemma LogAppend(log: seq<Call>, c: Call, m: Metric, minimum: int)
    ensures LogTotal(log + [c], m, minimum) == LogTotal(log, m, minimum) + if c.minute >= minimum then Share(c, m) else 0.0
  {
    assert (log + [c])[..|log|] == log;
  }

  /** The deque with an empty bucket for a new minute at its end; a full deque loses its oldest. */
  function WithBucket(buckets: seq<Bucket>, minute: int): seq<Bucket> {
    (if |buckets| == BUCKETS then buckets[1..] else buckets) + [Bucket(minute, map[])]
  }

  lemma WithBucketAscends(buckets: seq<Bucket>, minute: int)
    requires Ascending(buckets) && |buckets| <= BUCKETS && (buckets != [] ==> buckets[|buckets| - 1].minute < minute)
    ensures Ascending(WithBucket(buckets, minute)) && 0 < |WithBucket(buckets, minute)| <= BUCKETS
  {
    forall i | 0 <= i < |buckets| ensures buckets[i].minute < minute {
      if i < |buckets| - 1 { assert buckets[i].minute < buckets[|buckets| - 1].minute; }
    }
  }

  lemma WithBucketAnswers(buckets: seq<Bucket>, log: seq<Call>, minute: int)
    requires Ascending(buckets) && |buckets| <= BUCKETS && Answers(buckets, log)
    ensures Answers(WithBucket(buckets, minute), log)
  {
    var u := WithBucket(buckets, minute);
    forall m, minimum | |u| < BUCKETS || u[0].minute <= minimum ensures WindowTotal(u, m, minimum) == LogTotal(log, m, minimum) {
      if |buckets| == BUCKETS {
        assert u[0] == buckets[1] && buckets[0].minute < buckets[1].minute;
        WindowAppend(buckets[1..], Bucket(minute, map[]), m, minimum);
        DropOldest(buckets, m, minimum);
      } else {
        WindowAppend(buckets, Bucket(minute, map[]), m, minimum);
      }
    }
  }

  lemma CountedAnswers(buckets: seq<Bucket>, log: seq<Call>, c: Call, counts: Counter)
    requires buckets != [] && Ascending(buckets) && Answers(buckets, log) && buckets[|buckets| - 1].minute == c.minute
    requires forall m :: At(counts, m) == At(buckets[|buckets| - 1].counts, m) + Share(c, m)
    ensures var u := buckets[..|buckets| - 1] + [Bucket(c.minute, counts)]; Ascending(u) && Answers(u, log + [c])
  {
    var early, last := buckets[..|buckets| - 1], buckets[|buckets| - 1];
    var u := early + [Bucket(c.minute, counts)];
    assert buckets == early + [last];
    forall m, minimum | |u| < BUCKETS || u[0].minute <= minimum ensures WindowTotal(u, m, minimum) == LogTotal(log + [c], m, minimum) {
      assert u[0].minute == buckets[0].minute;
      WindowAppend(early, Bucket(c.minute, counts), m, minimum);
      WindowAppend(early, last, m, minimum);
      LogAppend(log, c, m, minimum);
      assert WindowTotal(buckets, m, minimum) == LogTotal(log, m, minimum);
    }
  }

  lemma MinutesAscend(a: real, b: real)
    requires a <= b
    ensures MinuteOf(a) <= MinuteOf(b)
  {}

  /** How many requests, and of what, one request counts as: the first three counters, then the two of the API. */
  method CountCall(counts: Counter, c: Call) returns (r: Counter)
    ensures forall m :: At(r, m) == At(counts, m) + Share(c, m)
  {
    r := Add(counts, Requests, 1.0);
    r := Add(r, DurationMs, if c.duration > 0.0 then c.duration else 0.0);
    if c.business {
      r := Add(r, ApiRequests, 1.0);
      r := Add(r, Api5xx, One(c.status >= 500));
    }
    ghost var before := r;
    assert forall m :: m !in {Le100, Le500, Le2000} ==> At(before, m) == At(counts, m) + Share(c, m);
    assert forall m :: m in {Le100, Le500, Le2000} ==> At(before, m) == At(counts, m);
    r := CountLimits(r, c);
  }

  method CountLimits(counts: Counter, c: Call) returns (r: Counter)
    ensures forall m :: m in {Le100, Le500, Le2000} ==> At(r, m) == At(counts, m) + Share(c, m)
    ensures forall m :: m !in {Le100, Le500, Le2000} ==> At(r, m) == At(counts, m)
  {
    r := Add(counts, Le100, One(c.duration <= 100.0));
    r := Add(r, Le500, One(c.duration <= 500.0));
    r := Add(r, Le2000, One(c.duration <= 2000.0));
  }

  class Monitor {
    var buckets: seq<Bucket>
    ghost var log: seq<Call>       // every request ever recorded
    ghost var latest: real         // the last clock reading

    ghost predicate Valid()
      reads this
    {
      && Ascending(buckets) && |buckets| <= 15 && Answers(buckets, log)
      && (buckets != [] ==> buckets[|buckets| - 1].minute <= MinuteOf(latest))
    }

    constructor ()
      ensures Valid() && log == [] && latest == 0.0
    {
      buckets, log, latest := [], [], 0.0;
    }

    /** Opens the bucket of a minute, if it is new. */
    method OpenBucket(minute: int)
      requires Ascending(buckets) && |buckets| <= BUCKETS && Answers(buckets, log)
      requires buckets != [] ==> buckets[|buckets| - 1].minute <= minute
      modifies this`buckets
      ensures Ascending(buckets) && 0 < |buckets| <= BUCKETS && Answers(buckets, log) && buckets[|buckets| - 1].minute == minute
    {
      if buckets == [] || buckets[|buckets| - 1].minute != minute {
        WithBucketAscends(buckets, minute);
        WithBucketAnswers(buckets, log, minute);
        buckets := WithBucket(buckets, minute);
      }
    }

    /** Counts a request in the last bucket, that of its minute. */
    method CountLast(call: Call)
      requires Ascending(buckets) && 0 < |buckets| <= BUCKETS && Answers(buckets, log) && buckets[|buckets| - 1].minute == call.minute
      modifies this`buckets
      ensures Ascending(buckets) && |buckets| == old(|buckets|) && Answers(buckets, log + [call]) && buckets[|buckets| - 1].minute == call.minute
    {
      var n := |buckets| - 1;
      var counts := CountCall(buckets[n].counts, call);
      CountedAnswers(buckets, log, call, counts);
      buckets := buckets[..n] + [Bucket(call.minute, counts)];
    }

    /** `request`, on a monotonic clock. */
    method Request(now: real, status: int, duration: real, business: bool)
      requires Valid() && latest <= now
      modifies this
      ensures Valid() && latest == now
      ensures log == old(log) + [Call((now / 60.0).Floor, status, duration, business)]
    {
      MinutesAscend(latest, now);
      var call := Call(MinuteOf(now), status, duration, business);
      OpenBucket(call.minute);
      CountLast(call);
      log, latest := log + [call], now;
    }

    /** `snapshot`: the buckets tell the totals of the whole log over the last fifteen minutes, and the counters are nested. */
    method Snapshot(now: real) returns (counts: Counter)
      requires Valid() && latest <= now
      ensures forall m :: At(counts, m) == LogTotal(log, m, MinuteOf(now) - 14)
      ensures var minimum := (now / 60.0).Floor - 14;
        && At(counts, Requests) == |set i | 0 <= i < |log| && log[i].minute >= minimum| as real
        && At(counts, ApiRequests) == |set i | 0 <= i < |log| && log[i].minute >= minimum && log[i].business| as real
        && At(counts, Api5xx) == |set i | 0 <= i < |log| && log[i].minute >= minimum && log[i].business && log[i].status >= 500| as real
        && At(counts, Le100) == |set i | 0 <= i < |log| && log[i].minute >= minimum && log[i].duration <= 100.0| as real
        && At(counts, Le500) == |set i | 0 <= i < |log| && log[i].minute >= minimum && log[i].duration <= 500.0| as real
        && At(counts, Le2000) == |set i | 0 <= i < |log| && log[i].minute >= minimum && log[i].duration <= 2000.0| as real
        && At(counts, DurationMs) == Durations(log, minimum)
      ensures At(counts, Api5xx) <= At(counts, ApiRequests) <= At(counts, Requests)
      ensures At(counts, Le100) <= At(counts, Le500) <= At(counts, Le2000) <= At(counts, Requests)
    {
      var minimum := MinuteOf(now) - 14;
      counts := map[];
      var i := 0;
      while i < |buckets|
        invariant 0 <= i <= |buckets|
        invariant forall m :: At(counts, m) == WindowTotal(buckets[..i], m, minimum)
      {
        forall m ensures WindowTotal(buckets[..i + 1], m, minimum)
          == WindowTotal(buckets[..i], m, minimum) + if buckets[i].minute >= minimum then At(buckets[i].counts, m) else 0.0
        {
          assert buckets[..i + 1] == buckets[..i] + [buckets[i]];
          WindowAppend(buckets[..i], buckets[i], m, minimum);
        }
        if buckets[i].minute >= minimum { counts := Merge(counts, buckets[i].counts); }
        i := i + 1;
      }
      assert buckets[..i] == buckets;
      MinutesAscend(latest, now);
      WindowCovered(buckets, log, MinuteOf(now), minimum);
      TotalsCount(log, minimum);
      DurationsSummed(log, minimum);
      LogOrdered(log, Api5xx, ApiRequests, minimum);
      LogOrdered(log, ApiRequests, Requests, minimum);
      LogOrdered(log, Le100, Le500, minimum);
      LogOrdered(log, Le500, Le2000, minimum);
      LogOrdered(log, Le2000, Requests, minimum);
    }
  }

  /** No bucket that the last fifteen minutes need has been evicted. */
  lemma WindowCovered(buckets: seq<Bucket>, log: seq<Call>, minute: int, minimum: int)
    requires Ascending(buckets) && |buckets| <= BUCKETS && Answers(buckets, log) && minimum == minute - 14
    requires buckets != [] ==> buckets[|buckets| - 1].minute <= minute
    ensures forall m :: WindowTotal(buckets, m, minimum) == LogTotal(log, m, minimum)
  {
    if |buckets| == BUCKETS { AscendingSpan(buckets); }
  }
}
