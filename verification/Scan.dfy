/** The two historical scans: a whole confirmed range read in batches under retries, budgets and a deadline. */
module Scan {
  import opened Prelude
  import opened Chains
  import opened Nodes
  import opened IndexerPolls
  import opened Indexer

  /** The monotonic clock: it may advance by any amount before each reading, and by a pause exactly. */
  class Clock {
    const elapsed: nat -> nat
    var now: nat
    var readings: nat

    constructor (elapsed: nat -> nat)
      ensures this.elapsed == elapsed && now == 0 && readings == 0
    {
      this.elapsed, now, readings := elapsed, 0, 0;
    }

    method Read() returns (t: nat)
      modifies this
      ensures t == now && now == old(now) + elapsed(old(readings))
    {
      now, readings := now + elapsed(readings), readings + 1;
      t := now;
    }

    method Sleep(delay: nat)
      modifies this
      ensures now == old(now) + delay
    {
      now := now + delay;
    }
  }

  /** No time passes by itself and the deadline is still ahead. */
  ghost predicate Idle(clock: Clock, deadline: nat)
    reads clock
  {
    clock.now < deadline && forall k :: clock.elapsed(k) == 0
  }

  function Power(n: nat): nat {
    if n == 0 then 1 else 2 * Power(n - 1)
  }

  function Delay(failures: nat): nat
    requires failures >= 1
  {
    if Power(failures - 1) < 8 then Power(failures - 1) else 8
  }

  /** All the pauses of a retry budget. */
  function Pauses(failures: nat): nat {
    if failures == 0 then 0 else Pauses(failures - 1) + Delay(failures)
  }

  lemma PauseBudget()
    ensures Pauses(4) == 15
  {
    assert Power(0) == 1 && Power(1) == 2 && Power(2) == 4 && Power(3) == 8;
    assert Pauses(1) == 1 && Pauses(2) == 3 && Pauses(3) == 7;
  }

  /** One second, two, four, and eight from then on. */
  lemma DelayExactly(failures: nat)
    requires failures >= 1
    ensures Delay(failures) == if failures == 1 then 1 else if failures == 2 then 2 else if failures == 3 then 4 else 8
  {
    assert Power(0) == 1 && Power(1) == 2 && Power(2) == 4;
    if failures >= 4 { PowerFromEight(failures - 1); }
  }

  lemma {:induction false} PowerFromEight(n: nat)
    requires n >= 3
    ensures Power(n) >= 8
  {
    if n > 3 { PowerFromEight(n - 1); } else { assert Power(1) == 2 && Power(2) == 4; }
  }

  /** `retry_pause`: a pause that would reach the deadline is not begun. */
  method RetryPause(failures: nat, clock: Clock, deadline: nat) returns (ok: bool)
    requires failures >= 1
    modifies clock
    ensures clock.now >= old(clock.now)
    ensures ok ==> clock.now < deadline && clock.now >= old(clock.now) + Delay(failures)
    ensures !ok ==> clock.now + Delay(failures) >= deadline
  {
    var delay := Delay(failures);
    var t := clock.Read();
    if t + delay >= deadline { return false; }
    clock.Sleep(delay);
    ok := true;
  }

  const ATTEMPTS := 5

  /** One attempt: nothing is asked at the deadline, and an answer after it is none. */
  method HeaderInTime(node: Node, number: nat, clock: Clock, deadline: nat) returns (asked: bool, late: bool, hash: Option<Hash>)
    modifies node`clock, clock
    ensures clock.now >= old(clock.now) && node.clock == old(node.clock) + if asked then 1 else 0
    ensures !asked ==> !late && hash.None? && clock.now >= deadline
    ensures late ==> asked && hash.None? && clock.now > deadline
    ensures hash.Some? ==> asked && clock.now <= deadline && !node.fails(old(node.clock)) && Shows(node.view(old(node.clock)), number, hash.value)
    ensures asked && !late && hash.None? ==> node.fails(old(node.clock)) || number >= |node.view(old(node.clock))|
    ensures old(Idle(clock, deadline)) ==> asked && !late && Idle(clock, deadline)
  {
    asked, late, hash := false, false, None;
    var t := clock.Read();
    if t >= deadline { return; }
    asked := true;
    hash := node.Header(number);
    if hash.Some? {
      t := clock.Read();
      if t > deadline { late, hash := true, None; }
    }
  }

  /** `read_rpc` on a header: at most five calls, only after retryable failures, and an answer only before the deadline. */
  method ReadHeader(node: Node, number: nat, clock: Clock, deadline: nat, retryable: nat -> bool)
    returns (hash: Option<Hash>, ghost attempts: nat)
    modifies node`clock, clock
    ensures attempts <= 5 && node.clock == old(node.clock) + attempts && clock.now >= old(clock.now)
    ensures hash.Some? ==> attempts >= 1 && clock.now <= deadline && !node.fails(node.clock - 1) && Shows(node.view(node.clock - 1), number, hash.value)
    ensures forall t :: old(node.clock) <= t < node.clock - 1 ==>
      (node.fails(t) || number >= |node.view(t)|) && retryable(t)
    ensures attempts >= 1 ==> clock.now >= old(clock.now) + Pauses(attempts - 1)
    ensures hash.None? ==> attempts == 5 || (attempts >= 1 && !retryable(node.clock - 1)) || clock.now + 8 >= deadline
    ensures node.Quiet(old(node.clock)) && number < |node.view(old(node.clock))| && old(Idle(clock, deadline)) ==>
      hash == Some(node.view(old(node.clock))[number].hash) && Idle(clock, deadline)
  {
    hash, attempts := None, 0;
    var attempt := 1;
    ghost var calm := node.Quiet(node.clock) && number < |node.view(node.clock)| && Idle(clock, deadline);
    while attempt <= ATTEMPTS
      invariant calm ==> attempt == 1 && node.clock == old(node.clock) && Idle(clock, deadline)
      invariant 1 <= attempt <= ATTEMPTS && attempts == attempt - 1 && hash.None?
      invariant node.clock == old(node.clock) + attempts && clock.now >= old(clock.now) + Pauses(attempts)
      invariant forall t :: old(node.clock) <= t < node.clock ==> (node.fails(t) || number >= |node.view(t)|) && retryable(t)
      decreases ATTEMPTS - attempt
    {
      var at := node.clock;
      var asked, late;
      asked, late, hash := HeaderInTime(node, number, clock, deadline);
      attempts := attempts + if asked then 1 else 0;
      if !asked || late || hash.Some? || attempt == ATTEMPTS || !retryable(at) { return; }
      DelayExactly(attempt);
      var ok := RetryPause(attempt, clock, deadline);
      if !ok { return; }
      attempt := attempt + 1;
    }
  }

  /** A block range read in one request. */
  datatype Range = Range(first: nat, last: nat)

  /** The ranges follow each other without gap or overlap from `first` to `last`. */
  ghost predicate Contiguous(ranges: seq<Range>, first: nat, last: nat) {
    if ranges == [] then last + 1 == first
    else
      var r := ranges[|ranges| - 1];
      r.last == last && r.first <= r.last && r.first >= 1 && Contiguous(ranges[..|ranges| - 1], first, r.first - 1)
  }

  /** Every block of the interval is read by exactly one range. */
  lemma {:induction false} ReadOnce(ranges: seq<Range>, first: nat, last: nat, n: nat)
    requires Contiguous(ranges, first, last) && first >= 1
    ensures first <= n <= last <==> exists i :: 0 <= i < |ranges| && ranges[i].first <= n <= ranges[i].last
    ensures forall i, j :: 0 <= i < j < |ranges| ==> ranges[i].last < ranges[j].first
    ensures forall i :: 0 <= i < |ranges| ==> ranges[i].last <= last && first <= ranges[i].first <= ranges[i].last
    ensures first <= last + 1
  {
    if ranges != [] {
      var early, r := ranges[..|ranges| - 1], ranges[|ranges| - 1];
      ReadOnce(early, first, r.first - 1, n);
      assert forall i :: 0 <= i < |early| ==> ranges[i] == early[i];
      if first <= n <= last && n < r.first {
        var i :| 0 <= i < |early| && early[i].first <= n <= early[i].last;
        assert ranges[i].first <= n <= ranges[i].last;
      }
    }
  }

  lemma AgreeBelow(a: View, b: View, n: nat, m: nat)
    requires AgreeUpTo(a, b, n) && m <= n
    ensures AgreeUpTo(a, b, m)
  {
    assert a[..m + 1] == a[..n + 1][..m + 1] == b[..n + 1][..m + 1] == b[..m + 1];
  }

  lemma ReadOn(node: Node, v: View, from: nat, mid: nat, to: nat, target: nat, events: seq<Event>, batch: seq<Event>, low: nat, start: nat, end: nat)
    requires from <= mid <= to && low < start <= end <= target
    requires ReadSoFar(node, v, from, mid, target, events, low, start - 1)
    requires ReadSoFar(node, v, mid, to, end, batch, start - 1, end)
    ensures ReadSoFar(node, v, from, to, target, events + batch, low, end)
  {
    if Steady(node, v, from, to, target) {
      assert Steady(node, v, from, mid, target);
      forall t | mid <= t < to ensures AgreeUpTo(node.view(t), v, end) {
        AgreeBelow(node.view(t), v, target, end);
      }
      assert Steady(node, v, mid, to, end);
      EventsInSplit(v, low, start - 1, end);
    }
  }

  /** The same target hash before and after means one chain in between, if the node does not leave the target block and return. */
  lemma OneTarget(branches: Hash -> View, node: Node, start: nat, from: nat, to: nat, target: nat, hash: Hash)
    requires node.Honest(branches) && node.KeepsBlock(start, target) && start <= from <= to
    requires !node.fails(from) && Shows(node.view(from), target, hash) && !node.fails(to) && Shows(node.view(to), target, hash)
    ensures forall t :: from <= t <= to ==> AgreeUpTo(node.view(t), node.view(from), target)
  {
    forall t | from <= t <= to ensures AgreeUpTo(node.view(t), node.view(from), target) {
      Held(node, start, from, t, to, target, hash);
      SharedHashSharedPrefix(branches, node.view(t), node.view(from), target, hash);
    }
  }

  /** The events are those of a chain the node showed, in full, up to the block with the target hash. */
  ghost predicate IsHistory(node: Node, before: nat, low: nat, target: nat, hash: Hash, events: seq<Event>) {
    exists t: nat :: t < before && Shows(node.view(t), target, hash) && events == EventsIn(node.view(t), low, target)
  }

  lemma ScanClosed(branches: Hash -> View, node: Node, start: nat, seen: nat, from: nat, closing: nat, last: nat, low: nat, target: nat, hash: Hash,
                   events: seq<Event>)
    requires node.Honest(branches) && node.KeepsBlock(start, target) && start <= seen < from <= closing <= last
    requires !node.fails(seen) && Shows(node.view(seen), target, hash) && !node.fails(last) && Shows(node.view(last), target, hash)
    requires ReadSoFar(node, node.view(seen), from, closing, target, events, low, target)
    ensures IsHistory(node, last + 1, low, target, hash, events)
  {
    OneTarget(branches, node, start, seen, last, target, hash);
    assert Genuine(branches, node.view(seen));
    assert Steady(node, node.view(seen), from, closing, target);
  }

  lemma ScanBegins(node: Node, v: View, from: nat, to: nat, target: nat, low: nat)
    ensures ReadSoFar(node, v, from, to, target, [], low, low)
  {}

  ghost predicate Narrow(ranges: seq<Range>, most: nat) {
    forall i :: 0 <= i < |ranges| ==> ranges[i].last - ranges[i].first < most
  }

  /** The ranges cover the blocks from first to last, each once, and none is wider than the batch allows. */
  ghost predicate Covering(ranges: seq<Range>, first: nat, last: nat, most: nat) {
    forall w {:trigger Narrow(w, most)} :: w == ranges ==> Contiguous(w, first, last) && Narrow(w, most)
  }

  lemma NothingCovered(first: nat, most: nat)
    requires first >= 1
    ensures Covering([], first, first - 1, most)
  {}

  lemma RangeAppended(ranges: seq<Range>, first: nat, start: nat, end: nat, most: nat)
    requires 1 <= start <= end && end - start < most && Covering(ranges, first, start - 1, most)
    ensures Covering(ranges + [Range(start, end)], first, end, most)
  {
    assert Narrow(ranges, most);
    assert (ranges + [Range(start, end)])[..|ranges|] == ranges;
  }

  function RangeEnd(start: nat, batch: nat, target: nat): (end: nat)
    requires batch >= 1 && start <= target
    ensures start <= end <= target && end - start < batch && (end == target || end == start + batch - 1)
  {
    if target < start + batch - 1 then target else start + batch - 1
  }

  function Doubled(batch: nat, most: nat): (r: nat)
    requires 1 <= batch <= most
    ensures batch <= r <= most && (r == most || r == 2 * batch)
  {
    if batch * 2 < most then batch * 2 else most
  }

  /** What a calm node answered is on its chain, and the node is still quiet. */
  lemma CalmBatch(node: Node, from: nat, to: nat, v: View, n: nat, batch: seq<Event>, low: nat)
    requires from <= to && ReadSoFar(node, v, from, to, n, batch, low, n)
    ensures Calm(node, from, v, n) ==> node.Quiet(to) && node.view(to) == v && OnView(v, batch)
  {
    CalmReads(node, from, to, v, n, batch, low);
    CalmIsQuiet(node, from, v, n);
    if node.Quiet(from) { StaysQuiet(node, from, to); }
    EventsOnView(v, low, n);
  }

  /** There is time, and the headers read so far are on v. */
  ghost predicate Untroubled(clock: Clock, deadline: nat, v: View, headers: map<nat, Hash>)
    reads clock
  {
    forall w {:trigger HeadersShown(w, headers)} :: w == v ==> HeadersShown(w, headers) && Idle(clock, deadline)
  }

  /** One range: fetched, then checked against the headers. */
  method ReadRange(worker: EventIndexer, node: Node, start: nat, end: nat, known: map<nat, Hash>, clock: Clock, deadline: nat,
                   retryable: nat -> bool, ghost v: View) returns (timely: bool, fetched: bool, ok: bool, batch: seq<Event>, headers: map<nat, Hash>)
    requires 1 <= start <= end && worker.batchSize >= 1
    modifies worker`batchSize, node`clock, clock
    ensures node.clock >= old(node.clock) && (ok ==> fetched) && (fetched ==> timely)
    ensures !timely ==> clock.now >= deadline
    ensures timely && !fetched ==> CallFailed(node, old(node.clock), node.clock)
    ensures fetched ==> (ok <==> Checked(batch, headers)) && ReadSoFar(node, v, old(node.clock), node.clock, end, batch, start - 1, end)
    ensures 1 <= worker.batchSize <= old(worker.batchSize)
    ensures ok ==> ReadSoFar(node, v, old(node.clock), node.clock, end, batch, start - 1, end)
    ensures ok ==> Checked(batch, headers)
    ensures Calm(node, old(node.clock), v, end) && old(Untroubled(clock, deadline, v, known)) ==> ok && Untroubled(clock, deadline, v, headers)
  {
    timely, fetched, ok, batch, headers := false, false, false, [], known;
    assert Untroubled(clock, deadline, v, known) ==> HeadersShown(v, known);
    var t := clock.Read();
    if t >= deadline { return; }
    timely := true;
    CalmIsQuiet(node, node.clock, v, end);
    var read := worker.FetchEvents(node, start, end, v);
    if read.None? { return; }
    fetched, batch := true, read.value;
    ghost var mid := node.clock;
    CalmBatch(node, old(node.clock), mid, v, end, batch, start - 1);
    ok, headers := CheckHeaders(node, batch, known, clock, deadline, retryable);
    ReadLonger(node, v, old(node.clock), mid, node.clock, end, batch, start - 1, end);
  }

  predicate Checked(batch: seq<Event>, headers: map<nat, Hash>) {
    forall e :: e in batch ==> e.number in headers && headers[e.number] == e.blockHash
  }

  /** The header of an event's block, read once per block, must be the block hash the log carries. */
  method NextHeader(node: Node, e: Event, known: map<nat, Hash>, clock: Clock, deadline: nat, retryable: nat -> bool)
    returns (ok: bool, headers: map<nat, Hash>)
    modifies node`clock, clock
    ensures node.clock >= old(node.clock)
    ensures ok <==> e.number in headers && headers[e.number] == e.blockHash
    ensures headers == known || (&& e.number !in known && e.number in headers && headers == known[e.number := headers[e.number]]
                                 && HeaderSeen(node, old(node.clock), node.clock, e.number, headers[e.number]))
    ensures var v := node.view(old(node.clock));
      node.Quiet(old(node.clock)) && old(Idle(clock, deadline)) && Shows(v, e.number, e.blockHash) && HeadersShown(v, known) ==>
        ok && Idle(clock, deadline) && HeadersShown(v, headers)
  {
    headers := known;
    if e.number !in headers {
      var hash;
      ghost var attempts;
      hash, attempts := ReadHeader(node, e.number, clock, deadline, retryable);
      if hash.None? { return false, headers; }
      headers := headers[e.number := hash.value];
    }
    ok := headers[e.number] == e.blockHash;
  }

  /** Checks a batch against the headers, each block's header read once. */
  method CheckHeaders(node: Node, batch: seq<Event>, known: map<nat, Hash>, clock: Clock, deadline: nat, retryable: nat -> bool)
    returns (ok: bool, headers: map<nat, Hash>)
    modifies node`clock, clock
    ensures node.clock >= old(node.clock)
    ensures ok <==> Checked(batch, headers)
    ensures forall n :: n in headers && n !in known ==> HeaderSeen(node, old(node.clock), node.clock, n, headers[n])
    ensures var v := node.view(old(node.clock));
      node.Quiet(old(node.clock)) && old(Idle(clock, deadline)) && OnView(v, batch) && HeadersShown(v, known) ==>
        ok && Idle(clock, deadline) && HeadersShown(v, headers)
    ensures forall n :: n in known ==> n in headers && headers[n] == known[n]
  {
    headers := known;
    var i := 0;
    ghost var from, v := node.clock, node.view(node.clock);
    ghost var calm := node.Quiet(from) && Idle(clock, deadline) && OnView(v, batch) && HeadersShown(v, known);
    while i < |batch|
      invariant calm ==> Idle(clock, deadline) && HeadersShown(v, headers)
      invariant 0 <= i <= |batch| && node.clock >= old(node.clock)
      invariant forall n :: n in known ==> n in headers && headers[n] == known[n]
      invariant forall n :: n in headers && n !in known ==> HeaderSeen(node, from, node.clock, n, headers[n])
      invariant forall j :: 0 <= j < i ==> batch[j].number in headers && headers[batch[j].number] == batch[j].blockHash
    {
      if node.Quiet(from) { StaysQuiet(node, from, node.clock); }
      ok, headers := NextHeader(node, batch[i], headers, clock, deadline, retryable);
      if !ok {
        assert batch[i] in batch;
        return;
      }
      i := i + 1;
    }
    ok := true;
  }

  const EVENT_BUDGET := 100000

  /** The node is calm from here on, and the whole history fits the budget. */
  ghost predicate Affordable(node: Node, from: nat, v: View, low: nat, target: nat) {
    forall w {:trigger Calm(node, from, w, target)} :: w == v ==> Calm(node, from, w, target) && |EventsIn(w, low, target)| <= EVENT_BUDGET
  }

  /** The node stays on a chain with the target hash, whose history fits the budget. */
  ghost predicate Readable(node: Node, from: nat, low: nat, target: nat, hash: Hash) {
    && node.Quiet(from) && low <= target && Shows(node.view(from), target, hash)
    && |EventsIn(node.view(from), low, target)| <= 100000
  }

  lemma ReadableFrom(branches: Hash -> View, node: Node, start: nat, from: nat, low: nat, target: nat, hash: Hash, clock: Clock, deadline: nat)
    requires node.Honest(branches) && start < from
    ensures Readable(node, start, low, target, hash) ==>
      Affordable(node, from, node.view(from - 1), low, target) && node.view(from - 1) == node.view(start)
    ensures Idle(clock, deadline) ==> Untroubled(clock, deadline, node.view(from - 1), map[])
  {
    ViewWellFormed(branches, node, start);
    if node.Quiet(start) {
      StaysQuiet(node, start, from);
      StaysQuiet(node, start, from - 1);
    }
    CalmFacts(node, from, node.view(from - 1), target);
  }

  lemma AffordableNow(node: Node, from: nat, now: nat, v: View, low: nat, target: nat, end: nat)
    requires from <= now && end <= target
    ensures Affordable(node, from, v, low, target) ==> Calm(node, now, v, end)
  {
    if Affordable(node, from, v, low, target) {
      assert Calm(node, from, v, target);
      StaysCalm(node, from, now, v, target, end);
    }
  }

  lemma AffordableSoFar(node: Node, from: nat, now: nat, v: View, low: nat, target: nat, all: seq<Event>, end: nat)
    requires from <= now && low <= end <= target && ReadSoFar(node, v, from, now, target, all, low, end)
    ensures Affordable(node, from, v, low, target) ==> |all| <= EVENT_BUDGET
  {
    if Affordable(node, from, v, low, target) {
      assert Calm(node, from, v, target);
      CalmIsSteady(node, from, now, v, target);
      EventsInSplit(v, low, end, target);
    }
  }

  /** One more range: the events read so far grow by it, and so do the ranges. */
  lemma RangeRead(node: Node, v: View, from: nat, mid: nat, to: nat, target: nat, all: seq<Event>, batch: seq<Event>,
                  low: nat, start: nat, end: nat, ranges: seq<Range>, most: nat)
    requires from <= mid <= to && low < start <= end <= target && end - start < most
    requires ReadSoFar(node, v, from, mid, target, all, low, start - 1)
    requires ReadSoFar(node, v, mid, to, end, batch, start - 1, end)
    requires Covering(ranges, low + 1, start - 1, most)
    ensures ReadSoFar(node, v, from, to, target, all + batch, low, end)
    ensures Affordable(node, from, v, low, target) ==> |all + batch| <= EVENT_BUDGET
    ensures Covering(ranges + [Range(start, end)], low + 1, end, most)
  {
    ReadOn(node, v, from, mid, to, target, all, batch, low, start, end);
    AffordableSoFar(node, from, to, v, low, target, all + batch, end);
    RangeAppended(ranges, low + 1, start, end, most);
  }

  /** Why a scan ended. */
  datatype End = Complete | TimedOut | FetchesFailed | HeadersDiffer | OverBudget

  /** How many fetches failed since the last one that did not. */
  function Failures(tries: seq<bool>): nat {
    if tries == [] || tries[|tries| - 1] then 0 else Failures(tries[..|tries| - 1]) + 1
  }

  /** Nothing is fetched after five failures in a row, and only failed calls make a fetch fail. */
  ghost predicate Persevering(node: Node, from: nat, to: nat, tries: seq<bool>) {
    && (forall i :: 0 <= i < |tries| ==> Failures(tries[..i]) < 5)
    && (false in tries ==> CallFailed(node, from, to))
  }

  lemma TriedAgain(node: Node, from: nat, mid: nat, to: nat, tries: seq<bool>, fetched: bool)
    requires from <= mid <= to && Persevering(node, from, mid, tries) && Failures(tries) < 5
    requires !fetched ==> CallFailed(node, mid, to)
    ensures Persevering(node, from, to, tries + [fetched])
    ensures Failures(tries + [fetched]) == if fetched then 0 else Failures(tries) + 1
  {
    var all := tries + [fetched];
    assert all[..|tries|] == tries;
    forall i | 0 <= i < |all| ensures Failures(all[..i]) < 5 {
      assert all[..i] == tries[..i];
      assert tries[..|tries|] == tries;
    }
  }

  /** The scan ended for this reason: there was no time for another attempt, or five fetches in a row had failed. */
  ghost predicate EndedBy(why: End, now: nat, deadline: nat, tries: seq<bool>) {
    (why.TimedOut? ==> now + 8 >= deadline) && (why.FetchesFailed? ==> Failures(tries) == 5)
  }

  /** The loop of the scan. It ends because a range is completed or one of five failures is used up. */
  method ScanRanges(worker: EventIndexer, node: Node, target: nat, clock: Clock, deadline: nat, retryable: nat -> bool, ghost v: View)
    returns (events: Option<seq<Event>>, why: End, headers: map<nat, Hash>, ghost ranges: seq<Range>, ghost tries: seq<bool>)
    requires worker.batchSize >= 1 && worker.cfg.startBlock <= target
    modifies worker`batchSize, node`clock, clock
    ensures 1 <= worker.batchSize <= old(worker.batchSize) && node.clock >= old(node.clock)
    ensures why.Complete? <==> events.Some?
    ensures EndedBy(why, clock.now, deadline, tries) && Persevering(node, old(node.clock), node.clock, tries)
    ensures events.Some? ==> Covering(ranges, worker.cfg.startBlock + 1, target, old(worker.batchSize)) && |events.value| <= EVENT_BUDGET
    ensures events.Some? ==> ReadSoFar(node, v, old(node.clock), node.clock, target, events.value, worker.cfg.startBlock, target)
    ensures Affordable(node, old(node.clock), v, worker.cfg.startBlock, target) && old(Untroubled(clock, deadline, v, map[])) ==>
      events.Some? && Untroubled(clock, deadline, v, headers)
  {
    var low, maxBatch := worker.cfg.startBlock, worker.batchSize;
    var all: seq<Event>, start, failures := [], low + 1, 0;
    ghost var from := node.clock;
    ghost var serene := Affordable(node, from, v, low, target) && Untroubled(clock, deadline, v, map[]);
    events, why, headers, ranges, tries := None, TimedOut, map[], [], [];
    ScanBegins(node, v, from, node.clock, target, low);
    NothingCovered(low + 1, maxBatch);
    while start <= target
      invariant low + 1 <= start <= target + 1 && failures < ATTEMPTS && events.None?
      invariant Persevering(node, from, node.clock, tries) && failures == Failures(tries)
      invariant 1 <= worker.batchSize <= maxBatch && node.clock >= from && |all| <= EVENT_BUDGET
      invariant Covering(ranges, low + 1, start - 1, maxBatch)
      invariant ReadSoFar(node, v, from, node.clock, target, all, low, start - 1)
      invariant serene ==> Untroubled(clock, deadline, v, headers)
      decreases target + 1 - start, ATTEMPTS - failures
    {
      var end := RangeEnd(start, worker.batchSize, target);
      ghost var mid := node.clock;
      AffordableNow(node, from, mid, v, low, target, end);
      var timely, fetched, ok, batch;
      timely, fetched, ok, batch, headers := ReadRange(worker, node, start, end, headers, clock, deadline, retryable, v);
      why := TimedOut;
      if !timely { return; }
      TriedAgain(node, from, mid, node.clock, tries, fetched);
      tries := tries + [fetched];
      if !fetched {
        failures := failures + 1;
        if failures >= ATTEMPTS {
          why := FetchesFailed;
          return;
        }
        DelayExactly(failures);
        ok := RetryPause(failures, clock, deadline);
        if !ok { return; }
        ReadLonger(node, v, from, mid, node.clock, target, all, low, start - 1);
        continue;
      }
      why := HeadersDiffer;
      if !ok { return; }
      failures := 0;
      RangeRead(node, v, from, mid, node.clock, target, all, batch, low, start, end, ranges, maxBatch);
      all := all + batch;
      why := OverBudget;
      if |all| > EVENT_BUDGET { return; }
      ranges := ranges + [Range(start, end)];
      worker.batchSize := Doubled(worker.batchSize, maxBatch);
      start := end + 1;
    }
    events, why := Some(all), Complete;
  }

  /** `confirmed_events`: returns every event of (start block, target], once and in chain order, of the one chain that carries
      the target hash; or fails. */
  method ConfirmedEvents(worker: EventIndexer, node: Node, target: nat, targetHash: Hash, clock: Clock, deadline: nat, retryable: nat -> bool)
    returns (events: Option<seq<Event>>, ghost ranges: seq<Range>)
    requires worker.batchSize >= 1 && node.Honest(worker.branches) && node.KeepsBlock(node.clock, target)
    modifies worker`batchSize, node`clock, clock
    ensures 1 <= worker.batchSize <= old(worker.batchSize)
    ensures events.Some? ==> Contiguous(ranges, worker.cfg.startBlock + 1, target) && |events.value| <= 100000
    ensures events.Some? ==> Narrow(ranges, old(worker.batchSize))
    ensures events.Some? ==> IsHistory(node, node.clock, worker.cfg.startBlock, target, targetHash, events.value)
    ensures Readable(node, old(node.clock), worker.cfg.startBlock, target, targetHash) && old(Idle(clock, deadline)) ==> events.Some?
  {
    ghost var start := node.clock;
    events, ranges := None, [];
    if target < worker.cfg.startBlock { return; }
    var hash;
    ghost var attempts;
    hash, attempts := ReadHeader(node, target, clock, deadline, retryable);
    if hash != Some(targetHash) { return; }
    ghost var from, v := node.clock, node.view(node.clock - 1);
    assert start < from && !node.fails(from - 1) && Shows(v, target, targetHash);
    ReadableFrom(worker.branches, node, start, from, worker.cfg.startBlock, target, targetHash, clock, deadline);
    var all, headers, why;
    ghost var tries;
    all, why, headers, ranges, tries := ScanRanges(worker, node, target, clock, deadline, retryable, v);
    if all.None? { return; }
    ghost var closing := node.clock;
    if node.Quiet(start) { StaysQuiet(node, start, closing); }
    assert Untroubled(clock, deadline, v, headers) && HeadersShown(v, headers) ==> Idle(clock, deadline);
    var ok := Recheck(worker, node, target, targetHash, clock, deadline, retryable, start, from, all.value);
    if !ok { return; }
    assert Narrow(ranges, old(worker.batchSize));
    events := all;
  }

  /** The closing read of the target: if it has not changed, the events are the history of one chain. */
  method Recheck(worker: EventIndexer, node: Node, target: nat, targetHash: Hash, clock: Clock, deadline: nat, retryable: nat -> bool,
                 ghost start: nat, ghost from: nat, ghost all: seq<Event>) returns (ok: bool)
    requires node.Honest(worker.branches) && node.KeepsBlock(start, target) && start < from <= node.clock
    requires !node.fails(from - 1) && Shows(node.view(from - 1), target, targetHash)
    requires ReadSoFar(node, node.view(from - 1), from, node.clock, target, all, worker.cfg.startBlock, target)
    modifies node`clock, clock
    ensures ok ==> IsHistory(node, node.clock, worker.cfg.startBlock, target, targetHash, all)
    ensures node.Quiet(old(node.clock)) && Shows(node.view(old(node.clock)), target, targetHash) && old(Idle(clock, deadline)) ==> ok
  {
    ghost var closing := node.clock;
    var hash;
    ghost var attempts;
    hash, attempts := ReadHeader(node, target, clock, deadline, retryable);
    ok := hash == Some(targetHash);
    if ok {
      ScanClosed(worker.branches, node, start, from - 1, from, closing, node.clock - 1, worker.cfg.startBlock, target, targetHash, all);
    }
  }

  ghost predicate OnView(v: View, batch: seq<Event>) {
    forall e :: e in batch ==> Shows(v, e.number, e.blockHash)
  }

  lemma EventsOnView(v: View, low: nat, high: nat)
    ensures OnView(v, EventsIn(v, low, high))
  {
    forall e | e in EventsIn(v, low, high) ensures Shows(v, e.number, e.blockHash) {
      EventsInExact(v, low, high, e);
    }
  }

  /** Some header of the batch was not answered, or was another one. */
  ghost predicate Unconfirmed(node: Node, from: nat, to: nat, batch: seq<Event>) {
    exists e, t :: e in batch && from <= t < to && (node.fails(t) || !Shows(node.view(t), e.number, e.blockHash))
  }

  lemma UnconfirmedLonger(node: Node, from: nat, mid: nat, to: nat, batch: seq<Event>)
    requires from <= mid && Unconfirmed(node, mid, to, batch)
    ensures Unconfirmed(node, from, to, batch)
  {}

  /** Checks every event of a batch against a fresh header. */
  method CheckEach(node: Node, batch: seq<Event>) returns (ok: bool)
    modifies node`clock
    ensures node.clock >= old(node.clock)
    ensures ok ==> forall e :: e in batch ==> exists t :: old(node.clock) <= t < node.clock && Shows(node.view(t), e.number, e.blockHash)
    ensures !ok ==> Unconfirmed(node, old(node.clock), node.clock, batch)
    ensures node.Quiet(old(node.clock)) && OnView(node.view(old(node.clock)), batch) ==> ok
  {
    var i := 0;
    while i < |batch|
      invariant 0 <= i <= |batch| && node.clock >= old(node.clock)
      invariant forall j :: 0 <= j < i ==> exists t :: old(node.clock) <= t < node.clock && Shows(node.view(t), batch[j].number, batch[j].blockHash)
    {
      var hash := node.Header(batch[i].number);
      if hash != Some(batch[i].blockHash) {
        assert batch[i] in batch;
        return false;
      }
      i := i + 1;
    }
    ok := true;
  }

  /** One range of an operator scan: fetched, then every event checked against a fresh header. */
  method ReadRangeOnce(worker: EventIndexer, node: Node, start: nat, end: nat, ghost v: View) returns (fetched: bool, ok: bool, batch: seq<Event>)
    requires 1 <= start <= end && worker.batchSize >= 1
    modifies worker`batchSize, node`clock
    ensures node.clock >= old(node.clock) && (ok ==> fetched)
    ensures fetched ==> worker.batchSize == old(worker.batchSize)
    ensures !fetched ==> worker.batchSize == Halved(old(worker.batchSize))
    ensures fetched ==> ReadSoFar(node, v, old(node.clock), node.clock, end, batch, start - 1, end)
    ensures !fetched ==> CallFailed(node, old(node.clock), node.clock)
    ensures fetched && !ok ==> Unconfirmed(node, old(node.clock), node.clock, batch)
    ensures Calm(node, old(node.clock), v, end) ==> ok
  {
    fetched, ok, batch := false, false, [];
    CalmIsQuiet(node, node.clock, v, end);
    var read := worker.FetchEvents(node, start, end, v);
    if read.None? { return; }
    fetched, batch := true, read.value;
    ghost var mid := node.clock;
    CalmBatch(node, old(node.clock), mid, v, end, batch, start - 1);
    ok := CheckEach(node, batch);
    if !ok { UnconfirmedLonger(node, old(node.clock), mid, node.clock, batch); }
    ReadLonger(node, v, old(node.clock), mid, node.clock, end, batch, start - 1, end);
  }

  /** A single block could not be fetched, or a header did not confirm a batch. */
  ghost predicate GivenUp(node: Node, from: nat, to: nat, last: Range, batch: seq<Event>) {
    (last.first == last.last && CallFailed(node, from, to)) || Unconfirmed(node, from, to, batch)
  }

  lemma GivesUp(node: Node, from: nat, mid: nat, to: nat, last: Range, batch: seq<Event>, fetched: bool)
    requires from <= mid && if fetched then Unconfirmed(node, mid, to, batch) else last.first == last.last && CallFailed(node, mid, to)
    ensures GivenUp(node, from, to, last, batch)
  {
    if fetched { UnconfirmedLonger(node, from, mid, to, batch); }
  }

  /** The loop of an operator scan: a failed range is retried smaller until it is one block. */
  method ShrinkingScan(worker: EventIndexer, node: Node, target: nat, ghost v: View)
    returns (events: Option<seq<Event>>, ghost last: Range, ghost batch: seq<Event>)
    requires worker.batchSize >= 1 && worker.cfg.startBlock <= target
    modifies worker`batchSize, node`clock
    ensures 1 <= worker.batchSize <= old(worker.batchSize) && node.clock >= old(node.clock)
    ensures events.Some? ==> ReadSoFar(node, v, old(node.clock), node.clock, target, events.value, worker.cfg.startBlock, target)
    ensures Calm(node, old(node.clock), v, target) ==> events.Some?
    ensures events.None? ==> GivenUp(node, old(node.clock), node.clock, last, batch)
  {
    var low := worker.cfg.startBlock;
    var all: seq<Event>, start := [], low + 1;
    ghost var from := node.clock;
    events, last, batch := None, Range(start, start), [];
    ScanBegins(node, v, from, node.clock, target, low);
    while start <= target
      invariant low + 1 <= start <= target + 1 && 1 <= worker.batchSize <= old(worker.batchSize) && node.clock >= from && events.None?
      invariant ReadSoFar(node, v, from, node.clock, target, all, low, start - 1)
      decreases target + 1 - start, worker.batchSize
    {
      var end := RangeEnd(start, worker.batchSize, target);
      ghost var mid := node.clock;
      StaysCalm(node, from, mid, v, target, end);
      var fetched, ok, found := ReadRangeOnce(worker, node, start, end, v);
      last, batch := Range(start, end), found;
      if fetched {
        if !ok {
          GivesUp(node, from, mid, node.clock, last, batch, true);
          return;
        }
        ReadOn(node, v, from, mid, node.clock, target, all, found, low, start, end);
        all := all + found;
        start := end + 1;
      } else {
        if end == start {
          GivesUp(node, from, mid, node.clock, last, batch, false);
          return;
        }
        ReadLonger(node, v, from, mid, node.clock, target, all, low, start - 1);
      }
    }
    events := Some(all);
  }

  /** The scan of the two operator commands, closed by the same header it began with. */
  method OperatorScan(worker: EventIndexer, node: Node, target: nat) returns (events: Option<seq<Event>>, ghost endHash: Hash)
    requires worker.batchSize >= 1 && node.Honest(worker.branches) && node.KeepsBlock(node.clock, target)
    modifies worker`batchSize, node`clock
    ensures 1 <= worker.batchSize <= old(worker.batchSize)
    ensures events.Some? ==> worker.cfg.startBlock <= target && IsHistory(node, node.clock, worker.cfg.startBlock, target, endHash, events.value)
    ensures var v := node.view(old(node.clock));
      node.Quiet(old(node.clock)) && worker.cfg.startBlock <= target < |v| ==> events.Some? && endHash == v[target].hash
  {
    events, endHash := None, "";
    if target < worker.cfg.startBlock { return; }
    ghost var begun := node.clock;
    ghost var v := node.view(begun);
    ViewWellFormed(worker.branches, node, begun);
    CalmFacts(node, begun, v, target);
    var hash := node.Header(target);
    if hash.None? { return; }
    endHash := hash.value;
    StaysCalm(node, begun, begun + 1, v, target, target);
    var all;
    ghost var last, batch;
    all, last, batch := ShrinkingScan(worker, node, target, v);
    if all.None? { return; }
    ghost var closing := node.clock;
    StaysCalm(node, begun, closing, v, target, target);
    CalmIsQuiet(node, closing, v, target);
    var again := node.Header(target);
    if again != hash { return; }
    ScanClosed(worker.branches, node, begun, begun, begun + 1, closing, closing, worker.cfg.startBlock, target, endHash, all.value);
    events := all;
  }
}
