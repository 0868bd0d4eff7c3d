/** The chain as its nodes show it: views, the events on a view, and their replay order. */
module Chains {
  import opened Prelude

  type Hash = string
  type Key = string

  /** The tracker contract's status enumeration, numbered 0 to 3. */
  datatype Status = Created | InTransit | AtCheckpoint | Delivered

  datatype Payload =
    | ProductRegistered(name: string, manufacturer: string, registeredAt: nat, description: string, initialUri: string)
    | ProductMetadataUpdated(uri: string)
    | CheckpointRecorded(location: string, status: Status, handler: string, recordedAt: nat, notes: string)
    | CustodyTransferred(sender: string, recipient: string, transferredAt: nat)
    | DeliveryCompleted(deliveredBy: string, deliveredAt: nat)

  datatype Log = Log(address: string, tx: Hash, txIndex: nat, logIndex: nat,
                     product: Key, payload: Payload, removed: bool)

  datatype Block = Block(hash: Hash, logs: seq<Log>)

  /** What a node shows at one moment: the blocks from number 0 to its head. */
  type View = seq<Block>

  datatype Event = Event(number: nat, blockHash: Hash, log: Log)

  datatype EventId = EventId(address: string, tx: Hash, logIndex: nat)

  function IdOf(e: Event): EventId {
    EventId(Lower(e.log.address), e.log.tx, e.log.logIndex)
  }

  predicate LogBefore(a: Log, b: Log) {
    a.txIndex < b.txIndex || (a.txIndex == b.txIndex && a.logIndex < b.logIndex)
  }

  /** The replay order: block number, transaction index, log index. */
  predicate Before(a: Event, b: Event) {
    a.number < b.number || (a.number == b.number && LogBefore(a.log, b.log))
  }

  predicate On(v: View, e: Event) {
    e.number < |v| && e.blockHash == v[e.number].hash && e.log in v[e.number].logs
  }

  predicate Shows(v: View, number: nat, hash: Hash) {
    number < |v| && v[number].hash == hash
  }

  /** What the chain itself guarantees: logs of a block are listed in their order, an event id
      occurs once, and a transaction lies in one block. */
  ghost predicate WellFormed(v: View) {
    && (forall n :: 0 <= n < |v| ==> OrderedLogs(v[n].logs))
    && (forall a, b :: On(v, a) && On(v, b) && IdOf(a) == IdOf(b) ==> a == b)
    && (forall a, b :: On(v, a) && On(v, b) && a.log.tx == b.log.tx ==> a.number == b.number)
  }

  predicate OrderedLogs(logs: seq<Log>) {
    forall i, j :: 0 <= i < j < |logs| ==> LogBefore(logs[i], logs[j])
  }

  /** A block hash determines its whole prefix: `history` decodes every hash a node may show. */
  ghost predicate Genuine(history: Hash -> View, v: View) {
    WellFormed(v) && forall n :: 0 <= n < |v| ==> history(v[n].hash) == v[..n + 1]
  }

  /** An event seen on some branch: its block hash decodes to a branch carrying it at the tip. */
  ghost predicate Seen(history: Hash -> View, e: Event) {
    var p := history(e.blockHash);
    |p| == e.number + 1 && On(p, e) && WellFormed(p)
  }

  lemma PrefixWellFormed(v: View, n: nat)
    requires WellFormed(v) && n <= |v|
    ensures WellFormed(v[..n])
  {
    var p := v[..n];
    forall e | On(p, e) ensures On(v, e) {}
  }

  lemma GenuineBranch(history: Hash -> View, v: View, n: nat)
    requires Genuine(history, v) && n < |v|
    ensures history(v[n].hash) == v[..n + 1]
    ensures Genuine(history, v[..n + 1])
    ensures Shows(v[..n + 1], n, v[n].hash)
  {
    PrefixWellFormed(v, n + 1);
    var p := v[..n + 1];
    forall m | 0 <= m < |p| ensures history(p[m].hash) == p[..m + 1] {
      assert p[..m + 1] == v[..m + 1];
    }
  }

  /** Two genuine views that agree on one hash agree on everything below it. */
  lemma SharedHashSharedPrefix(history: Hash -> View, v: View, w: View, n: nat, hash: Hash)
    requires Genuine(history, v) && Genuine(history, w)
    requires Shows(v, n, hash) && Shows(w, n, hash)
    ensures v[..n + 1] == w[..n + 1]
  {}

  lemma SeenFromView(history: Hash -> View, v: View, e: Event)
    requires Genuine(history, v) && On(v, e)
    ensures Seen(history, e)
  {
    GenuineBranch(history, v, e.number);
  }

  /** The same id under the same block hash is the same event, whichever node reported it. */
  lemma OccurrenceDetermines(history: Hash -> View, a: Event, b: Event)
    requires Seen(history, a) && Seen(history, b)
    requires IdOf(a) == IdOf(b) && a.blockHash == b.blockHash
    ensures a == b
  {
    assert On(history(a.blockHash), b);
  }

  // ---- the events of a range of blocks ----

  function EventsOf(b: Block, number: nat): seq<Event> {
    seq(|b.logs|, i requires 0 <= i < |b.logs| => Event(number, b.hash, b.logs[i]))
  }

  /** The events on v in the blocks (low, high], in chain order. */
  function EventsIn(v: View, low: nat, high: nat): seq<Event>
    decreases high
  {
    if high <= low then []
    else EventsIn(v, low, high - 1) + if high < |v| then EventsOf(v[high], high) else []
  }

  lemma {:induction false} EventsInExact(v: View, low: nat, high: nat, e: Event)
    ensures e in EventsIn(v, low, high) <==> On(v, e) && low < e.number <= high
    decreases high
  {
    if low < high {
      EventsInExact(v, low, high - 1, e);
      if high < |v| {
        var here := EventsOf(v[high], high);
        if e in here {
          var i :| 0 <= i < |here| && here[i] == e;
          assert v[high].logs[i] == e.log;
        }
        if On(v, e) && e.number == high {
          var i :| 0 <= i < |v[high].logs| && v[high].logs[i] == e.log;
          assert here[i] == e;
        }
      }
    }
  }

  ghost predicate Strict(es: seq<Event>) {
    forall i, j :: 0 <= i < j < |es| ==> Before(es[i], es[j])
  }

  lemma StrictJoin(early: seq<Event>, here: seq<Event>, number: nat)
    requires Strict(early) && Strict(here)
    requires forall e :: e in early ==> e.number < number
    requires forall e :: e in here ==> e.number == number
    ensures Strict(early + here)
  {
    var all := early + here;
    forall i, j | 0 <= i < j < |all| ensures Before(all[i], all[j]) {
      if i < |early| <= j { assert all[i] in early && all[j] in here; }
    }
  }

  lemma BlockStrict(b: Block, number: nat)
    requires OrderedLogs(b.logs)
    ensures Strict(EventsOf(b, number))
  {}

  lemma EventsBelow(v: View, low: nat, high: nat)
    requires low < high
    ensures forall e :: e in EventsIn(v, low, high - 1) ==> e.number < high
  {
    forall e | e in EventsIn(v, low, high - 1) ensures e.number < high {
      EventsInExact(v, low, high - 1, e);
    }
  }

  lemma {:induction false} OrderedStrict(v: View, low: nat, high: nat)
    requires forall n :: 0 <= n < |v| ==> OrderedLogs(v[n].logs)
    ensures Strict(EventsIn(v, low, high))
    decreases high
  {
    if low < high {
      OrderedStrict(v, low, high - 1);
      EventsBelow(v, low, high);
      if high < |v| {
        BlockStrict(v[high], high);
        StrictJoin(EventsIn(v, low, high - 1), EventsOf(v[high], high), high);
      }
    }
  }

  lemma EventsInStrict(v: View, low: nat, high: nat)
    requires WellFormed(v)
    ensures Strict(EventsIn(v, low, high))
  {
    OrderedStrict(v, low, high);
  }

  lemma {:induction false} EventsInSplit(v: View, low: nat, mid: nat, high: nat)
    requires low <= mid <= high
    ensures EventsIn(v, low, high) == EventsIn(v, low, mid) + EventsIn(v, mid, high)
    decreases high
  {
    if mid < high {
      EventsInSplit(v, low, mid, high - 1);
    }
  }

  lemma {:induction false} EventsInPrefix(v: View, w: View, low: nat, high: nat)
    requires high < |v| && high < |w| && v[..high + 1] == w[..high + 1]
    ensures EventsIn(v, low, high) == EventsIn(w, low, high)
    decreases high
  {
    if low < high {
      assert v[high] == v[..high + 1][high] == w[..high + 1][high] == w[high];
      assert v[..high] == v[..high + 1][..high] == w[..high + 1][..high] == w[..high];
      EventsInPrefix(v, w, low, high - 1);
    }
  }

  lemma TailMembers(a: seq<Event>)
    requires Strict(a) && a != []
    ensures forall e :: e in a[1..] <==> e in a && e != a[0]
  {
    forall e | e in a && e != a[0] ensures e in a[1..] {
      var i :| 0 <= i < |a| && a[i] == e;
      assert a[1..][i - 1] == e;
    }
    forall e | e in a[1..] ensures e in a && e != a[0] {
      var i :| 0 <= i < |a[1..]| && a[1..][i] == e;
      assert a[i + 1] == e && Before(a[0], a[i + 1]);
    }
  }

  /** The replay order leaves one way to list a set of events. */
  lemma {:induction false} StrictUnique(a: seq<Event>, b: seq<Event>)
    requires Strict(a) && Strict(b)
    requires forall e :: e in a <==> e in b
    ensures a == b
  {
    assert a != [] ==> a[0] in b;
    assert b != [] ==> b[0] in a;
    if a != [] {
      assert a[0] == b[0];
      TailMembers(a);
      TailMembers(b);
      StrictUnique(a[1..], b[1..]);
    }
  }
}
