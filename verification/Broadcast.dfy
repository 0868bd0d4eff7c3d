/** Server-sent event queues: bounded, in order, and never silently incomplete. */
module Broadcast {
  import opened Prelude

  /** A queued message: the text published at this position, or the resync put in its place. */
  datatype Item = Item(position: nat, resync: bool, text: string)

  const CAPACITY := 64

  const RESYNC := "event: resync\ndata: {}\n\n"

  /** One subscriber: what was published to it, what its event loop has still to enqueue, its queue, and what it has received. */
  datatype Channel = Channel(published: seq<string>, pending: seq<string>, queue: seq<Item>, received: seq<Item>, lastLoss: Option<nat>)

  const FRESH := Channel([], [], [], [], None)

  /** How many published messages the event loop has processed. */
  function Processed(c: Channel): int {
    |c.published| - |c.pending|
  }

  function Seen(c: Channel): seq<Item> {
    c.received + c.queue
  }

  predicate Holds(c: Channel, position: nat, resync: bool) {
    exists i :: 0 <= i < |Seen(c)| && Seen(c)[i].position == position && Seen(c)[i].resync == resync
  }

  ghost predicate InOrder(items: seq<Item>) {
    forall i, j :: 0 <= i < j < |items| ==> items[i].position < items[j].position
  }

  /** What every interleaving keeps. */
  ghost predicate Sound(c: Channel) {
    && 0 <= Processed(c) && c.pending == c.published[Processed(c)..]
    && |c.queue| <= CAPACITY
    && InOrder(Seen(c))
    && (forall i :: 0 <= i < |Seen(c)| ==> Seen(c)[i].position < Processed(c))
    && (forall i :: 0 <= i < |Seen(c)| && !Seen(c)[i].resync ==> Seen(c)[i].text == c.published[Seen(c)[i].position])
    && (c.lastLoss.Some? ==> CAPACITY <= c.lastLoss.value < Processed(c) && Holds(c, c.lastLoss.value, true))
    && (forall n: nat :: n < Processed(c) ==> Holds(c, n, false) || (c.lastLoss.Some? && n <= c.lastLoss.value))
  }

  function Published(c: Channel, text: string): Channel {
    c.(published := c.published + [text], pending := c.pending + [text])
  }

  /** `_put`: a full queue loses its oldest message and the new one, and gains a resync. */
  function AfterPut(c: Channel): Channel
    requires c.pending != []
  {
    var n: nat := if Processed(c) < 0 then 0 else Processed(c);
    if |c.queue| < CAPACITY then
      c.(pending := c.pending[1..], queue := c.queue + [Item(n, false, c.pending[0])])
    else
      c.(pending := c.pending[1..], queue := c.queue[1..] + [Item(n, true, RESYNC)], lastLoss := Some(n))
  }

  function AfterGet(c: Channel): Channel
    requires c.queue != []
  {
    c.(queue := c.queue[1..], received := c.received + [c.queue[0]])
  }

  lemma PublishedSound(c: Channel, text: string)
    requires Sound(c)
    ensures Sound(Published(c, text))
  {
    var u := Published(c, text);
    assert Seen(u) == Seen(c);
    assert u.published[Processed(u)..] == c.published[Processed(c)..] + [text];
    forall n: nat | n < Processed(u) ensures Holds(u, n, false) || (u.lastLoss.Some? && n <= u.lastLoss.value) {
      assert Holds(c, n, false) ==> Holds(u, n, false);
    }
    assert c.lastLoss.Some? && Holds(c, c.lastLoss.value, true) ==> Holds(u, c.lastLoss.value, true);
  }

  lemma GetSound(c: Channel)
    requires Sound(c) && c.queue != []
    ensures Sound(AfterGet(c)) && Seen(AfterGet(c)) == Seen(c)
  {
    var u := AfterGet(c);
    assert Seen(u) == Seen(c);
    forall n: nat, r: bool ensures Holds(u, n, r) <==> Holds(c, n, r) {}
  }

  lemma StoredHolds(c: Channel, n: nat, r: bool)
    requires c.pending != [] && |c.queue| < CAPACITY && Holds(c, n, r)
    ensures Holds(AfterPut(c), n, r)
  {
    var i :| 0 <= i < |Seen(c)| && Seen(c)[i].position == n && Seen(c)[i].resync == r;
    assert Seen(AfterPut(c))[i] == Seen(c)[i];
  }

  lemma StoredHere(c: Channel)
    requires Sound(c) && c.pending != [] && |c.queue| < CAPACITY
    ensures Holds(AfterPut(c), Processed(c), false)
  {
    assert Seen(AfterPut(c))[|Seen(c)|] == Item(Processed(c), false, c.pending[0]);
  }

  lemma StoredSound(c: Channel)
    requires Sound(c) && c.pending != [] && |c.queue| < CAPACITY
    ensures Sound(AfterPut(c))
  {
    var u, p := AfterPut(c), Processed(c);
    assert Seen(u) == Seen(c) + [Item(p, false, c.pending[0])];
    assert u.pending == u.published[p + 1..];
    assert c.pending[0] == c.published[p];
    if c.lastLoss.Some? { StoredHolds(c, c.lastLoss.value, true); }
    forall n: nat | n < p + 1 ensures Holds(u, n, false) || (u.lastLoss.Some? && n <= u.lastLoss.value) {
      if n == p { StoredHere(c); }
      else if Holds(c, n, false) { StoredHolds(c, n, false); }
    }
  }

  lemma OverflowSound(c: Channel)
    requires Sound(c) && c.pending != [] && |c.queue| == CAPACITY
    ensures Sound(AfterPut(c))
  {
    var u, p := AfterPut(c), Processed(c);
    var kept, item := c.received + c.queue[1..], Item(p, true, RESYNC);
    assert Seen(u) == kept + [item];
    assert u.pending == u.published[Processed(u)..];
    forall i | 0 <= i < |kept| ensures exists j :: 0 <= j < |Seen(c)| && kept[i] == Seen(c)[j] && j == if i < |c.received| then i else i + 1 {
      var j := if i < |c.received| then i else i + 1;
      assert kept[i] == Seen(c)[j];
    }
    forall i, j | 0 <= i < j < |Seen(u)| ensures Seen(u)[i].position < Seen(u)[j].position {
      if j < |kept| {
        var k, l := if i < |c.received| then i else i + 1, if j < |c.received| then j else j + 1;
        assert Seen(u)[i] == Seen(c)[k] && Seen(u)[j] == Seen(c)[l];
      }
    }
    assert Seen(u)[|kept|] == item;
    assert Holds(u, p, true);
    AtLeast(Seen(c), |Seen(c)| - 1);
  }

  /** Whenever a message was discarded or displaced, a resync enqueued then or later is queued or already received. */
  lemma NoSilentLoss(c: Channel, n: nat)
    requires Sound(c) && n < Processed(c) && !Holds(c, n, false)
    ensures exists m: nat :: n <= m && Holds(c, m, true)
  {
    assert Holds(c, c.lastLoss.value, true);
  }

  /** What one step of the event loop does. With room in the queue the oldest pending message joins its end and nothing else changes.
      A queue of 64 loses its oldest message, the pending one is dropped for a resync at the end, and the other 63 stay. */
  lemma PutExactly(c: Channel, u: Channel)
    requires Sound(c) && c.pending != [] && u == AfterPut(c)
    ensures u.published == c.published && u.received == c.received && u.pending == c.pending[1..]
    ensures |c.queue| < 64 ==>
      |u.queue| == |c.queue| + 1 && u.queue[..|c.queue|] == c.queue
      && u.queue[|c.queue|] == Item(|c.published| - |c.pending|, false, c.pending[0]) && u.lastLoss == c.lastLoss
    ensures |c.queue| == 64 ==>
      |u.queue| == 64 && u.queue[..63] == c.queue[1..]
      && u.queue[63] == Item(|c.published| - |c.pending|, true, "event: resync\ndata: {}\n\n")
      && u.lastLoss == Some(|c.published| - |c.pending|)
    ensures |c.queue| <= 64
  {}

  /** Nothing is lost among the first 64 messages. */
  lemma NoEarlyLoss(c: Channel, n: nat)
    requires Sound(c) && n < Processed(c) <= 64
    ensures exists i :: 0 <= i < |c.received + c.queue| && (c.received + c.queue)[i] == Item(n, false, c.published[n])
  {
    CompleteUntilLoss(c);
    assert Seen(c)[n] == Item(n, false, c.published[n]);
  }

  /** Until something is lost, everything processed is queued or received, once and in publish order. */
  lemma CompleteUntilLoss(c: Channel)
    requires Sound(c) && c.lastLoss.None?
    ensures |Seen(c)| == Processed(c)
    ensures forall i :: 0 <= i < |Seen(c)| ==> Seen(c)[i] == Item(i, false, c.published[i])
  {
    forall n: nat | n < Processed(c) ensures n < |Seen(c)| && Seen(c)[n].position == n && !Seen(c)[n].resync {
      Positions(c, n);
    }
    if 0 < Processed(c) {
      Positions(c, Processed(c) - 1);
    }
    if |Seen(c)| > Processed(c) { AtLeast(Seen(c), Processed(c)); }
  }

  lemma {:induction false} AtLeast(items: seq<Item>, i: nat)
    requires InOrder(items) && i < |items|
    ensures items[i].position >= i
  {
    if i > 0 { AtLeast(items, i - 1); }
  }

  lemma {:induction false} Positions(c: Channel, n: nat)
    requires Sound(c) && c.lastLoss.None? && n < Processed(c)
    ensures n < |Seen(c)| && Seen(c)[n].position == n && !Seen(c)[n].resync
  {
    assert Holds(c, n, false);
    var k :| 0 <= k < |Seen(c)| && Seen(c)[k].position == n && Seen(c)[k].resync == false;
    AtLeast(Seen(c), k);
    if n > 0 {
      Positions(c, n - 1);
      assert k >= n;
    }
  }

  datatype Action = Subscribe | Unsubscribe(id: nat) | Publish(text: string, closedLoops: set<nat>, stopped: set<nat>) | RunPut(id: nat) | Receive(id: nat)

  /** The channels when all but `todo` have been told of a message. */
  function AfterPublish(channels: map<nat, Channel>, text: string, closedLoops: set<nat>, stopped: set<nat>, todo: set<nat>): map<nat, Channel> {
    map id | id in channels && (id in todo || id in closedLoops || id !in stopped) ::
      if id in todo || id in closedLoops then channels[id] else Published(channels[id], text)
  }

  lemma PublishStep(channels: map<nat, Channel>, text: string, closedLoops: set<nat>, stopped: set<nat>, todo: set<nat>, id: nat)
    requires id in todo && id in channels
    ensures var now, next := AfterPublish(channels, text, closedLoops, stopped, todo), AfterPublish(channels, text, closedLoops, stopped, todo - {id});
      && id in now && now[id] == channels[id]
      && next == if id in closedLoops then now else if id in stopped then now - {id} else now[id := Published(channels[id], text)]
  {}

  class EventBroadcaster {
    var channels: map<nat, Channel>
    var nextId: nat

    ghost predicate Valid()
      reads this
    {
      (forall id :: id in channels ==> Sound(channels[id])) && forall id :: id in channels ==> id < nextId
    }

    constructor ()
      ensures Valid() && channels == map[]
    {
      channels, nextId := map[], 0;
    }

    method Subscribe() returns (id: nat)
      requires Valid()
      modifies this
      ensures Valid() && id !in old(channels) && channels == old(channels)[id := FRESH] && channels[id] == Channel([], [], [], [], None)
    {
      id := nextId;
      channels, nextId := channels[id := FRESH], nextId + 1;
      assert Seen(FRESH) == [];
    }

    method Unsubscribe(id: nat)
      requires Valid()
      modifies this`channels
      ensures Valid() && channels == old(channels) - {id}
    {
      channels := channels - {id};
    }

    /** Hands the message to the event loop of every subscriber whose loop still runs; a loop that stopped in between is dropped. */
    method Publish(text: string, closedLoops: set<nat>, stopped: set<nat>)
      requires Valid()
      modifies this`channels
      ensures Valid() && channels == AfterPublish(old(channels), text, closedLoops, stopped, {})
      ensures forall id :: id in channels <==> id in old(channels) && (id in closedLoops || id !in stopped)
      ensures forall id :: id in channels ==>
        channels[id] == if id in closedLoops then old(channels)[id]
                        else old(channels)[id].(published := old(channels)[id].published + [text], pending := old(channels)[id].pending + [text])
    {
      var todo := channels.Keys;
      while todo != {}
        invariant todo <= old(channels).Keys && Valid()
        invariant channels == AfterPublish(old(channels), text, closedLoops, stopped, todo)
        decreases todo
      {
        var id :| id in todo;
        PublishStep(old(channels), text, closedLoops, stopped, todo, id);
        if id !in closedLoops && id in stopped {
          channels := channels - {id};
        } else if id !in closedLoops {
          PublishedSound(channels[id], text);
          channels := channels[id := Published(channels[id], text)];
        }
        todo := todo - {id};
      }
    }

    /** The event loop runs the next `_put`. */
    method RunPut(id: nat)
      requires Valid() && id in channels && channels[id].pending != []
      modifies this`channels
      ensures Valid() && channels == old(channels)[id := AfterPut(old(channels)[id])]
    {
      var c := channels[id];
      var n := |c.published| - |c.pending|;
      if |c.queue| == CAPACITY {
        OverflowSound(c);
        c := c.(queue := c.queue[1..] + [Item(n, true, RESYNC)], lastLoss := Some(n));
      } else {
        StoredSound(c);
        c := c.(queue := c.queue + [Item(n, false, c.pending[0])]);
      }
      channels := channels[id := c.(pending := c.pending[1..])];
    }

    method Receive(id: nat) returns (item: Item)
      requires Valid() && id in channels && channels[id].queue != []
      modifies this`channels
      ensures Valid() && item == old(channels)[id].queue[0] && channels == old(channels)[id := AfterGet(old(channels)[id])]
      ensures channels[id] == old(channels)[id].(queue := old(channels)[id].queue[1..], received := old(channels)[id].received + [item])
    {
      GetSound(channels[id]);
      item := channels[id].queue[0];
      channels := channels[id := AfterGet(channels[id])];
    }

    /** Any interleaving of subscriptions, publishes, loop steps and reads leaves every channel sound. */
    method Run(actions: seq<Action>)
      requires Valid()
      modifies this
      ensures Valid()
    {
      for i := 0 to |actions|
        invariant Valid()
      {
        match actions[i]
        case Subscribe => var _ := Subscribe();
        case Unsubscribe(id) => Unsubscribe(id);
        case Publish(text, closedLoops, stopped) => Publish(text, closedLoops, stopped);
        case RunPut(id) => if id in channels && channels[id].pending != [] { RunPut(id); }
        case Receive(id) => if id in channels && channels[id].queue != [] { var _ := Receive(id); }
      }
    }
  }
}
