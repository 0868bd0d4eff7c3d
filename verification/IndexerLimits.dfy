/** Reachable databases in which the indexer does less than its comments promise, on one small chain with a fork. */
module IndexerLimits {
  import opened Prelude
  import opened Chains
  import opened Projection
  import opened IndexerSpec
  import opened IndexerLaws
  import opened IndexerSync
  import opened IndexerInvariant
  import opened IndexerSteps
  import opened IndexerAcceptance
  import opened IndexerTheorems
  import opened IndexerPolls
  import ProductKeys

  /** The names on the chain: two products, six block hashes, and the transactions of its five logs. The second block has two
      branches, left and right, whose logs may share their transaction; the right one has two third blocks, top and other. */
  datatype World = World(a: Key, b: Key, genesis: Hash, first: Hash, left: Hash, right: Hash, top: Hash, other: Hash,
                         registersA: Hash, registersB: Hash, movesLeft: Hash, movesRight: Hash, movesTop: Hash)

  /** Names differ where the chain requires it, and the keys are product ids. */
  ghost predicate Good(w: World) {
    && w.a != w.b && ProductKeys.Canonical(w.a) == Some(w.a) && ProductKeys.Canonical(w.b) == Some(w.b)
    && w.first != w.genesis && w.left !in {w.genesis, w.first} && w.right !in {w.genesis, w.first, w.left}
    && w.top !in {w.genesis, w.first, w.left, w.right} && w.other !in {w.genesis, w.first, w.left, w.right, w.top}
    && w.registersB != w.registersA
    && w.movesLeft !in {w.registersA, w.registersB} && w.movesRight !in {w.registersA, w.registersB}
    && w.movesTop !in {w.registersA, w.registersB, w.movesLeft, w.movesRight}
  }

  function Settings(): Config {
    Config(0, 0, 10, 10, 1, "registry", "tracker", (id: string) => ProductKeys.Canonical(id))
  }

  function RegisterLog(k: Key, tx: Hash, index: nat): Log {
    Log("registry", tx, index, index, k, ProductRegistered("name", "maker", 1, "", ""), false)
  }

  function MoveLog(k: Key, tx: Hash): Log {
    Log("tracker", tx, 0, 0, k, CustodyTransferred("x", "y", 7), false)
  }

  function Trunk(w: World): View {
    [Block(w.genesis, []), Block(w.first, [RegisterLog(w.a, w.registersA, 0), RegisterLog(w.b, w.registersB, 1)])]
  }

  function Left(w: World): View {
    Trunk(w) + [Block(w.left, [MoveLog(w.a, w.movesLeft)])]
  }

  function Right(w: World): View {
    Trunk(w) + [Block(w.right, [MoveLog(w.b, w.movesRight)]), Block(w.top, [MoveLog(w.a, w.movesTop)])]
  }

  /** The right branch with another third block, an empty one. */
  function Other(w: World): View {
    Trunk(w) + [Block(w.right, [MoveLog(w.b, w.movesRight)]), Block(w.other, [])]
  }

  function Oracle(w: World): Hash -> View {
    (h: Hash) =>
      if h == w.genesis then Trunk(w)[..1] else if h == w.first then Trunk(w)
      else if h == w.left then Left(w) else if h == w.right then Right(w)[..3]
      else if h == w.top then Right(w) else if h == w.other then Other(w) else []
  }

  function RegistersA(w: World): Event { Event(1, w.first, RegisterLog(w.a, w.registersA, 0)) }
  function RegistersB(w: World): Event { Event(1, w.first, RegisterLog(w.b, w.registersB, 1)) }
  function MovesLeft(w: World): Event { Event(2, w.left, MoveLog(w.a, w.movesLeft)) }
  function MovesRight(w: World): Event { Event(2, w.right, MoveLog(w.b, w.movesRight)) }
  function MovesTop(w: World): Event { Event(3, w.top, MoveLog(w.a, w.movesTop)) }

  lemma OnLeft(w: World, e: Event)
    ensures On(Left(w), e) <==> e in {RegistersA(w), RegistersB(w), MovesLeft(w)}
  {
    var v := Left(w);
    assert v[1].logs[0] == RegisterLog(w.a, w.registersA, 0) && v[1].logs[1] == RegisterLog(w.b, w.registersB, 1);
    assert v[2].logs[0] == MoveLog(w.a, w.movesLeft);
  }

  lemma OnRight(w: World, e: Event)
    ensures On(Right(w), e) <==> e in {RegistersA(w), RegistersB(w), MovesRight(w), MovesTop(w)}
  {
    var v := Right(w);
    assert v[1].logs[0] == RegisterLog(w.a, w.registersA, 0) && v[1].logs[1] == RegisterLog(w.b, w.registersB, 1);
    assert v[2].logs[0] == MoveLog(w.b, w.movesRight) && v[3].logs[0] == MoveLog(w.a, w.movesTop);
  }

  lemma OnOther(w: World, e: Event)
    ensures On(Other(w), e) <==> e in {RegistersA(w), RegistersB(w), MovesRight(w)}
  {
    var v := Other(w);
    assert v[1].logs[0] == RegisterLog(w.a, w.registersA, 0) && v[1].logs[1] == RegisterLog(w.b, w.registersB, 1);
    assert v[2].logs[0] == MoveLog(w.b, w.movesRight);
  }

  lemma LeftWellFormed(w: World)
    requires Good(w)
    ensures WellFormed(Left(w))
  {
    var v := Left(w);
    forall n | 0 <= n < |v| ensures OrderedLogs(v[n].logs) {}
    forall e { OnLeft(w, e); }
  }

  lemma RightWellFormed(w: World)
    requires Good(w)
    ensures WellFormed(Right(w))
  {
    var v := Right(w);
    forall n | 0 <= n < |v| ensures OrderedLogs(v[n].logs) {}
    forall e { OnRight(w, e); }
  }

  lemma OtherWellFormed(w: World)
    requires Good(w)
    ensures WellFormed(Other(w))
  {
    var v := Other(w);
    forall n | 0 <= n < |v| ensures OrderedLogs(v[n].logs) {}
    forall e { OnOther(w, e); }
  }

  lemma LeftGenuine(w: World)
    requires Good(w)
    ensures Genuine(Oracle(w), Left(w))
  {
    var v := Left(w);
    LeftWellFormed(w);
    assert Trunk(w)[..1] == v[..1] && Trunk(w) == v[..2] && v[..3] == v;
    forall n | 0 <= n < |v| ensures Oracle(w)(v[n].hash) == v[..n + 1] {
      assert n == 0 || n == 1 || n == 2;
    }
  }

  lemma RightGenuine(w: World)
    requires Good(w)
    ensures Genuine(Oracle(w), Right(w))
  {
    var v := Right(w);
    RightWellFormed(w);
    assert Trunk(w)[..1] == v[..1] && Trunk(w) == v[..2] && v[..4] == v;
    forall n | 0 <= n < |v| ensures Oracle(w)(v[n].hash) == v[..n + 1] {
      assert n == 0 || n == 1 || n == 2 || n == 3;
    }
  }

  lemma OtherGenuine(w: World)
    requires Good(w)
    ensures Genuine(Oracle(w), Other(w))
  {
    var v := Other(w);
    OtherWellFormed(w);
    assert Trunk(w)[..1] == v[..1] && Trunk(w) == v[..2] && Right(w)[..3] == v[..3] && v[..4] == v;
    forall n | 0 <= n < |v| ensures Oracle(w)(v[n].hash) == v[..n + 1] {
      assert n == 0 || n == 1 || n == 2 || n == 3;
    }
  }

  lemma SeenProducts(w: World, e: Event)
    requires Seen(Oracle(w), e)
    ensures e.log.product == w.a || e.log.product == w.b
  {
    var p := Oracle(w)(e.blockHash);
    OnLeft(w, e);
    OnRight(w, e);
    OnOther(w, e);
    assert On(p, e);
    assert On(Left(w), e) || On(Right(w), e) || On(Other(w), e);
  }

  lemma KeysCanonical(w: World)
    requires Good(w)
    ensures CanonicalKeys(Settings(), Oracle(w))
  {
    forall e | Seen(Oracle(w), e) ensures Settings().canonical(e.log.product) in {None, Some(e.log.product)} {
      SeenProducts(w, e);
    }
  }

  // ---- following the chain ----

  predicate Branch(w: World, v: View) {
    v == Left(w) || v == Right(w) || v == Other(w)
  }

  lemma BranchGenuine(w: World, v: View)
    requires Good(w) && Branch(w, v)
    ensures Genuine(Oracle(w), v) && |v| >= 3 && v[..2] == Trunk(w)
  {
    LeftGenuine(w);
    RightGenuine(w);
    OtherGenuine(w);
  }

  lemma OnBranch(w: World, v: View, e: Event)
    requires Branch(w, v) && On(v, e)
    ensures e in {RegistersA(w), RegistersB(w), MovesLeft(w), MovesRight(w), MovesTop(w)}
  {
    OnLeft(w, e);
    OnRight(w, e);
    OnOther(w, e);
  }

  lemma RangeEvents(w: World, v: View, low: nat, high: nat)
    requires Branch(w, v)
    ensures forall e :: e in EventsIn(v, low, high) ==>
      e in {RegistersA(w), RegistersB(w), MovesLeft(w), MovesRight(w), MovesTop(w)} && low < e.number <= high
    ensures Completions(EventsIn(v, low, high)) == {} && DeliveredCheckpoints(EventsIn(v, low, high)) == {}
  {
    forall e | e in EventsIn(v, low, high)
      ensures e in {RegistersA(w), RegistersB(w), MovesLeft(w), MovesRight(w), MovesTop(w)} && low < e.number <= high
    {
      EventsInExact(v, low, high, e);
      OnBranch(w, v, e);
    }
  }

  lemma InRange(w: World, v: View, low: nat, high: nat)
    requires Branch(w, v)
    ensures low < 1 <= high ==> RegistersA(w) in EventsIn(v, low, high) && RegistersB(w) in EventsIn(v, low, high)
    ensures v == Left(w) && low < 2 <= high ==> MovesLeft(w) in EventsIn(v, low, high)
    ensures v == Right(w) && low < 2 <= high ==> MovesRight(w) in EventsIn(v, low, high)
    ensures v == Right(w) && low < 3 <= high ==> MovesTop(w) in EventsIn(v, low, high)
    ensures v == Other(w) && low < 2 <= high ==> MovesRight(w) in EventsIn(v, low, high)
  {
    OneInRange(w, v, low, high, RegistersA(w));
    OneInRange(w, v, low, high, RegistersB(w));
    OneInRange(w, v, low, high, MovesLeft(w));
    OneInRange(w, v, low, high, MovesRight(w));
    OneInRange(w, v, low, high, MovesTop(w));
  }

  lemma OneInRange(w: World, v: View, low: nat, high: nat, e: Event)
    requires Branch(w, v)
    ensures e in {RegistersA(w), RegistersB(w)} && low < 1 <= high ==> e in EventsIn(v, low, high)
    ensures v == Left(w) && e == MovesLeft(w) && low < 2 <= high ==> e in EventsIn(v, low, high)
    ensures v == Right(w) && e == MovesRight(w) && low < 2 <= high ==> e in EventsIn(v, low, high)
    ensures v == Right(w) && e == MovesTop(w) && low < 3 <= high ==> e in EventsIn(v, low, high)
    ensures v == Other(w) && e == MovesRight(w) && low < 2 <= high ==> e in EventsIn(v, low, high)
  {
    OnLeft(w, e);
    OnRight(w, e);
    OnOther(w, e);
    EventsInExact(v, low, high, e);
  }

  /** A database without untagged rows that is open to both products under their keys, whose tagged rows agree with the logs
      they carry the ids of. */
  ghost predicate Ready(w: World, init: Tables) {
    && NotStarted(init) && init.untagged == multiset{}
    && OpenTo(Settings(), init, RegistersA(w)) && OpenTo(Settings(), init, RegistersB(w))
    && Owner(Settings(), init, w.a) == w.a && Owner(Settings(), init, w.b) == w.b
    && RowAgrees(init.history, w.a, MovesLeft(w)) && RowAgrees(init.history, w.b, MovesRight(w)) && RowAgrees(init.history, w.a, MovesTop(w))
  }

  lemma AllProper(w: World, init: Tables, e: Event)
    requires Ready(w, init) && e in {RegistersA(w), RegistersB(w), MovesLeft(w), MovesRight(w), MovesTop(w)}
    ensures Proper(Settings(), init, e) && (e.log.payload.ProductRegistered? ==> OpenTo(Settings(), init, e))
  {}

  lemma Earlier(es: seq<Event>, p: nat, i: nat)
    requires Strict(es) && p < |es| && i < |es|
    ensures es[p].number < es[i].number ==> p < i
  {
    if i < p { assert Before(es[i], es[p]); }
  }

  lemma RegisteredEarlier(es: seq<Event>, e: Event, i: nat)
    requires Strict(es) && e in es && i < |es| && e.number < es[i].number && e.log.product == es[i].log.product
    ensures exists j :: 0 <= j < i && es[j].log.product == es[i].log.product
  {
    var p :| 0 <= p < |es| && es[p] == e;
    Earlier(es, p, i);
  }

  lemma AfterTrunkAt(w: World, es: seq<Event>, i: nat)
    requires Strict(es) && RegistersA(w) in es && RegistersB(w) in es && i < |es|
    requires es[i] in {RegistersA(w), RegistersB(w), MovesLeft(w), MovesRight(w), MovesTop(w)}
    ensures es[i].log.payload.ProductRegistered? || exists j :: 0 <= j < i && es[j].log.product == es[i].log.product
  {
    if !es[i].log.payload.ProductRegistered? {
      RegisteredEarlier(es, if es[i].log.product == w.a then RegistersA(w) else RegistersB(w), i);
    }
  }

  lemma AfterTrunk(w: World, init: Tables, v: View, high: nat, t: Tables)
    requires Good(w) && Ready(w, init) && Branch(w, v) && high >= 1
    ensures OpenedFirst(Settings(), init, t, EventsIn(v, 0, high))
  {
    BranchGenuine(w, v);
    EventsInStrict(v, 0, high);
    RangeEvents(w, v, 0, high);
    InRange(w, v, 0, high);
    AllAfterTrunk(w, init, EventsIn(v, 0, high), t);
  }

  lemma AllAfterTrunk(w: World, init: Tables, es: seq<Event>, t: Tables)
    requires Ready(w, init) && Strict(es) && RegistersA(w) in es && RegistersB(w) in es
    requires forall e :: e in es ==> e in {RegistersA(w), RegistersB(w), MovesLeft(w), MovesRight(w), MovesTop(w)}
    ensures OpenedFirst(Settings(), init, t, es)
  {
    forall i | 0 <= i < |es|
      ensures OpenTo(Settings(), init, es[i]) || exists j :: 0 <= j < i && es[j].log.product == es[i].log.product
    {
      assert es[i] in es;
      AfterTrunkAt(w, es, i);
      AllProper(w, init, es[i]);
    }
  }

  /** t follows a branch up to its cursor. */
  ghost predicate Follows(w: World, init: Tables, t: Tables, v: View, n: nat) {
    && Branch(w, v) && t.cursor == Some(Cursor(0, n, if n < |v| then v[n].hash else "")) && n < |v|
    && MirrorsTip(Settings(), Oracle(w), init, t)
    && (n >= 1 ==> w.a in t.bindings && w.b in t.bindings)
  }

  lemma OpenOn(w: World, init: Tables, v: View) returns (t: Tables)
    requires Good(w) && Ready(w, init) && Branch(w, v)
    ensures OpenStep(Settings(), init, v, t) && Follows(w, init, t, v, 0) && t.history == init.history && HistoryComplete(Oracle(w), t)
  {
    BranchGenuine(w, v);
    t := init.(cursor := Some(Cursor(0, 0, v[0].hash)), anchors := map[0 := v[0].hash]);
    OpenedMirrors(Settings(), Oracle(w), init, v, t);
  }

  lemma NextBatch(w: World, init: Tables, t: Tables, v: View, n: nat, u: View, end: nat)
    requires Good(w) && Ready(w, init) && Follows(w, init, t, v, n) && Branch(w, u) && n < end < |u| && v[..n + 1] == u[..n + 1]
    ensures var events := EventsIn(u, n, end);
      && Completions(events) == DeliveredCheckpoints(events)
      && (forall e :: e in events ==> Proper(Settings(), init, e)) && OpenedFirst(Settings(), init, t, events)
  {
    RangeEvents(w, u, n, end);
    forall e | e in EventsIn(u, n, end) ensures Proper(Settings(), init, e) { AllProper(w, init, e); }
    if n == 0 {
      AfterTrunk(w, init, u, end, t);
    } else {
      AllBound(w, init, t, EventsIn(u, n, end));
    }
  }

  lemma AllBound(w: World, init: Tables, t: Tables, es: seq<Event>)
    requires w.a in t.bindings && w.b in t.bindings
    requires forall e :: e in es ==> e in {RegistersA(w), RegistersB(w), MovesLeft(w), MovesRight(w), MovesTop(w)}
    ensures OpenedFirst(Settings(), init, t, es)
  {
    forall i | 0 <= i < |es| ensures es[i].log.product in t.bindings {
      assert es[i] in es;
    }
  }

  /** From the trunk either branch can be followed. */
  lemma FollowOn(w: World, init: Tables, t: Tables, v: View, n: nat, u: View, end: nat) returns (r: Tables)
    requires Good(w) && Ready(w, init) && Follows(w, init, t, v, n) && Branch(w, u) && n < end < |u| && v[..n + 1] == u[..n + 1]
    ensures ForwardStep(Settings(), t, u, end, r) && Follows(w, init, r, u, end)
    ensures JournalKept(t, r) && BindingsKept(t, r) && RowsKept(t.history, r.history) && Adds(t.history, EventsIn(u, n, end), r.history)
    ensures HistoryComplete(Oracle(w), t) ==> HistoryComplete(Oracle(w), r)
  {
    KeysCanonical(w);
    BranchGenuine(w, u);
    assert u[n] == u[..n + 1][n] == v[..n + 1][n] == v[n];
    TipMirrors(Settings(), Oracle(w), init, t);
    NextBatch(w, init, t, v, n, u, end);
    r := ProperForward(Settings(), Oracle(w), init, t, u, end);
    Advanced(w, init, t, u, end, r);
  }

  lemma Advanced(w: World, init: Tables, t: Tables, u: View, end: nat, r: Tables)
    requires Good(w) && Branch(w, u) && MirrorsTip(Settings(), Oracle(w), init, t) && t.cursor.value.start == 0
    requires ForwardStep(Settings(), t, u, end, r) && end >= 1
    ensures Follows(w, init, r, u, end)
    ensures JournalKept(t, r) && BindingsKept(t, r) && RowsKept(t.history, r.history)
    ensures Adds(t.history, EventsIn(u, t.cursor.value.last, end), r.history)
    ensures HistoryComplete(Oracle(w), t) ==> HistoryComplete(Oracle(w), r)
  {
    KeysCanonical(w);
    BranchGenuine(w, u);
    TipMirrors(Settings(), Oracle(w), init, t);
    ForwardMirrors(Settings(), Oracle(w), init, t, u, end, r);
    ForwardRows(Settings(), Oracle(w), init, t, u, end, r);
    ForwardAdds(Settings(), Oracle(w), init, t, u, end, r);
    BothBound(w, init, r, u, end);
  }

  lemma BothBound(w: World, init: Tables, t: Tables, v: View, n: nat)
    requires Good(w) && Branch(w, v) && 1 <= n < |v| && t.cursor == Some(Cursor(0, n, v[n].hash))
    requires MirrorsTip(Settings(), Oracle(w), init, t)
    ensures w.a in t.bindings && w.b in t.bindings
    ensures Indexed(Oracle(w), t) == EventsIn(v, 0, n)
    ensures forall e :: e in EventsIn(v, 0, n) ==> OccurrenceOf(e) in t.journal && t.journal[OccurrenceOf(e)] == JournalRow(e, true)
    ensures 1 in t.anchors && t.anchors[1] == v[1].hash
  {
    BranchGenuine(w, v);
    TipMirrors(Settings(), Oracle(w), init, t);
    assert ChainOf(Oracle(w), t) == v[..n + 1];
    EventsInPrefix(v, v[..n + 1], 0, n);
    InRange(w, v, 0, n);
    assert t.journal[OccurrenceOf(RegistersA(w))].event == RegistersA(w);
    assert t.journal[OccurrenceOf(RegistersB(w))].event == RegistersB(w);
  }

  /** The canonical rows are the branch's events. */
  lemma CanonicalOnBranch(w: World, init: Tables, t: Tables, v: View, n: nat, o: Occurrence)
    requires Good(w) && Follows(w, init, t, v, n) && n >= 1 && o in t.journal && t.journal[o].canonical
    ensures t.journal[o].event in EventsIn(v, 0, n) && OccurrenceOf(t.journal[o].event) == o
  {
    BothBound(w, init, t, v, n);
    TipMirrors(Settings(), Oracle(w), init, t);
  }

  /** The first product is served by the row named after its key, and no untagged row exists. */
  lemma FirstProduct(w: World, init: Tables, t: Tables, v: View, n: nat)
    requires Good(w) && Ready(w, init) && Follows(w, init, t, v, n) && n >= 1
    ensures w.a in t.bindings && t.bindings[w.a].productId == w.a && w.a in BoundIds(t) && t.untagged == multiset{}
  {
    TipMirrors(Settings(), Oracle(w), init, t);
    BoundToOwner(Settings(), init, t, w.a);
  }

  lemma EventAnchored(w: World, init: Tables, t: Tables, v: View, n: nat, e: Event)
    requires Good(w) && Follows(w, init, t, v, n) && n >= 1 && e in EventsIn(v, 0, n)
    ensures e.number in t.anchors
  {
    BothBound(w, init, t, v, n);
    TipMirrors(Settings(), Oracle(w), init, t);
  }

  /** Back to the trunk, which both branches share. */
  lemma Rewinds1(w: World, init: Tables, t: Tables, v: View, n: nat) returns (order: seq<Key>, u: Tables)
    requires Good(w) && Ready(w, init) && Follows(w, init, t, v, n) && 1 <= n
    ensures BackStep(Settings(), Oracle(w), t, 1, order, u) && Follows(w, init, u, v, 1)
    ensures JournalKept(t, u) && BindingsKept(t, u)
  {
    KeysCanonical(w);
    BothBound(w, init, t, v, n);
    TipMirrors(Settings(), Oracle(w), init, t);
    order := OrderOf(Affected(t.journal, 1));
    u := BackStepExists(Settings(), Oracle(w), init, t, 1, order);
    RewindMirrors(Settings(), Oracle(w), init, t, 1, order, u);
  }

  function WorldOf(a: Key, b: Key, names: seq<Hash>, shared: bool): World
    requires |names| == 6
  {
    World(a, b, names[0], names[1], names[2], names[3], names[4], names[5], names[0], names[1], names[2], if shared then names[2] else names[3], names[4])
  }

  lemma DistinctNames(names: seq<Hash>, i: nat, j: nat)
    requires i < |names| && j < |names| && |names[i]| != |names[j]|
    ensures names[i] != names[j]
  {}

  lemma WorldIsGood(a: Key, b: Key, names: seq<Hash>, shared: bool)
    requires a != b && ProductKeys.Canonical(a) == Some(a) && ProductKeys.Canonical(b) == Some(b)
    requires |names| == 6 && forall i, j :: 0 <= i < j < |names| ==> names[i] != names[j]
    ensures Good(WorldOf(a, b, names, shared))
    ensures WorldOf(a, b, names, shared).movesLeft == WorldOf(a, b, names, shared).movesRight <==> shared
  {}

  lemma SixNames() returns (names: seq<Hash>)
    ensures |names| == 6 && forall i, j :: 0 <= i < j < |names| ==> names[i] != names[j]
  {
    names := ["", "1", "22", "333", "4444", "55555"];
    forall i, j | 0 <= i < j < |names| ensures names[i] != names[j] {
      assert |names[i]| == i && |names[j]| == j;
      DistinctNames(names, i, j);
    }
  }

  /** Worlds of both kinds exist. */
  lemma SomeWorld(shared: bool) returns (w: World)
    ensures Good(w) && (w.movesLeft == w.movesRight <==> shared)
  {
    ProductKeys.KeyOfCanonical(1);
    ProductKeys.KeyOfCanonical(2);
    ProductKeys.KeysDiffer(1, 2);
    var names := SixNames();
    w := WorldOf(ProductKeys.KeyOf(1), ProductKeys.KeyOf(2), names, shared);
    WorldIsGood(ProductKeys.KeyOf(1), ProductKeys.KeyOf(2), names, shared);
  }

  function Empty(): Tables {
    Tables(None, map[], map[], map[], {}, map[], map[], multiset{}, map[])
  }

  function Draft(): Fields {
    Fields("name", None, None, "maker", None, None, 1, None, "unregistered", 0, "0x")
  }

  /** A start with a draft of the first product and one tagged row. */
  function Drafted(w: World, s: Slot, row: HistoryRow): Tables {
    Empty().(products := map[w.a := Product(Draft(), UNASSIGNED)], history := map[s := row])
  }

  lemma DraftedClaims(w: World, s: Slot, row: HistoryRow)
    requires Good(w)
    ensures Claimants(Settings(), Drafted(w, s, row).products, w.a) == {w.a} && Claimants(Settings(), Drafted(w, s, row).products, w.b) == {}
  {}

  lemma DraftedOpen(w: World, s: Slot, row: HistoryRow)
    requires Good(w)
    ensures OpenTo(Settings(), Drafted(w, s, row), RegistersA(w)) && OpenTo(Settings(), Drafted(w, s, row), RegistersB(w))
    ensures Owner(Settings(), Drafted(w, s, row), w.a) == w.a && Owner(Settings(), Drafted(w, s, row), w.b) == w.b
  {
    DraftedClaims(w, s, row);
    assert |{w.a}| == 1;
  }

  // ---- polls on the branches ----

  /** Every tagged row of the start that is still there carries the id of an indexed event. */
  ghost predicate StartNamed(w: World, init: Tables, t: Tables)
    requires t.cursor.Some?
  {
    forall s :: s in t.history && s in init.history ==> exists e :: e in Indexed(Oracle(w), t) && IdOf(e) == s.id
  }

  lemma CoveredAt(w: World, init: Tables, t: Tables)
    requires Consistent(Settings(), Oracle(w), init, t) && t.cursor.Some? && init.untagged == multiset{} && StartNamed(w, init, t)
    ensures Covered(t)
  {
    HistoryIsChain(Settings(), Oracle(w), init, t);
    RestIsUntouched(Settings(), Oracle(w), init, t);
    forall s | s in t.history ensures exists o :: o in t.journal && t.journal[o].canonical && o.id == s.id {
      var e :| e in Indexed(Oracle(w), t) && IdOf(e) == s.id;
      IndexedCanonical(w, init, t, e);
    }
  }

  lemma IndexedCanonical(w: World, init: Tables, t: Tables, e: Event)
    requires Consistent(Settings(), Oracle(w), init, t) && t.cursor.Some? && e in Indexed(Oracle(w), t)
    ensures OccurrenceOf(e) in t.journal && t.journal[OccurrenceOf(e)].canonical && OccurrenceOf(e).id == IdOf(e)
  {
    Mirrored(Settings(), Oracle(w), init, t);
  }

  /** Two branches are the same up to block a and differ in every block after it, up to n; u ends in block `top`. */
  ghost predicate Part(v: View, u: View, a: nat, n: nat, top: nat) {
    && a < n <= 3 && n < |v| && n <= top && |u| == top + 1 && v[..a + 1] == u[..a + 1]
    && forall m: nat :: a < m <= n ==> v[m].hash != u[m].hash
  }

  lemma HighestAt(w: World, t: Tables, v: View, n: nat, u: View, a: nat, top: nat)
    requires Part(v, u, a, n, top) && t.cursor == Some(Cursor(0, n, v[n].hash)) && a in t.anchors
    requires forall m :: m in t.anchors ==> m <= n && m < |v| && t.anchors[m] == v[m].hash
    ensures Highest(Settings(), t, u, a) && !Shows(u, n, v[n].hash)
  {
    assert u[a] == u[..a + 1][a] == v[..a + 1][a] == v[a];
  }

  /** The node turns from branch v to branch u, which part after block a: a is the highest anchor still on u. */
  lemma TurnsTo(w: World, init: Tables, t: Tables, v: View, n: nat, u: View, a: nat, top: nat)
    requires Good(w) && Follows(w, init, t, v, n) && Branch(w, u) && Part(v, u, a, n, top) && a in t.anchors
    ensures Highest(Settings(), t, u, a) && Recovers(Settings(), t, u, TargetOf(Settings(), u))
    ensures forall base :: Rewinds(Settings(), Oracle(w), t, a, base) ==> StartsFrom(Settings(), Oracle(w), t, u, base)
  {
    AnchorsOn(w, init, t, v, n);
    HighestAt(w, t, v, n, u, a, top);
    AlignsAt(Settings(), Oracle(w), t, u, a, TargetOf(Settings(), u));
  }

  lemma AlignsAt(cfg: Config, branches: Hash -> View, t: Tables, u: View, a: nat, target: nat)
    requires t.cursor.Some? && t.cursor.value.start == cfg.startBlock && t.cursor.value.last < |u|
    requires Highest(cfg, t, u, a) && !Shows(u, t.cursor.value.last, t.cursor.value.hash)
    ensures Recovers(cfg, t, u, target)
    ensures forall base :: Rewinds(cfg, branches, t, a, base) ==> StartsFrom(cfg, branches, t, u, base)
  {}

  lemma AnchorsShown(cfg: Config, history: Hash -> View, init: Tables, t: Tables)
    requires MirrorsTip(cfg, history, init, t)
    ensures t.cursor.Some? && forall m :: m in t.anchors ==> m <= t.cursor.value.last && Shows(ChainOf(history, t), m, t.anchors[m])
  {
    TipMirrors(cfg, history, init, t);
  }

  lemma TipChain(w: World, t: Tables, v: View, n: nat)
    requires Good(w) && Branch(w, v) && n < |v| && t.cursor == Some(Cursor(0, n, v[n].hash))
    ensures ChainOf(Oracle(w), t) == v[..n + 1]
  {
    BranchGenuine(w, v);
  }

  lemma AnchorsOn(w: World, init: Tables, t: Tables, v: View, n: nat)
    requires Good(w) && Follows(w, init, t, v, n)
    ensures forall m :: m in t.anchors ==> m <= n && m < |v| && t.anchors[m] == v[m].hash
  {
    AnchorsShown(Settings(), Oracle(w), init, t);
    TipChain(w, t, v, n);
  }

  /** The first poll, on any branch, up to block `end`. */
  lemma FirstPoll(w: World, init: Tables, v: View, batch: nat, end: nat) returns (base: Tables, t: Tables)
    requires Good(w) && Ready(w, init) && Branch(w, v) && NextEnd(0, |v| - 1, batch) == Some(end)
    requires end == |v| - 1 ==> forall s :: s in init.history ==> exists e :: e in EventsIn(v, 0, end) && IdOf(e) == s.id
    ensures PollsOn(Settings(), Oracle(w), init, v, batch, base, t)
    ensures OpenStep(Settings(), init, v, base) && Follows(w, init, t, v, end) && Consistent(Settings(), Oracle(w), init, t)
    ensures HistoryComplete(Oracle(w), t) && RowsKept(init.history, t.history) && Adds(init.history, EventsIn(v, 0, end), t.history)
  {
    base := OpenOn(w, init, v);
    t := FollowOn(w, init, base, v, 0, v, end);
    FollowsConsistent(w, init, t, v, end);
    if end == |v| - 1 { CoveredFirst(w, init, t, v, end); }
    PollTaken(Settings(), Oracle(w), init, v, batch, base, t, end);
  }

  lemma CoveredFirst(w: World, init: Tables, t: Tables, v: View, end: nat)
    requires Good(w) && Ready(w, init) && Follows(w, init, t, v, end) && end >= 1 && Consistent(Settings(), Oracle(w), init, t)
    requires forall s :: s in init.history ==> exists e :: e in EventsIn(v, 0, end) && IdOf(e) == s.id
    ensures Covered(t)
  {
    BothBound(w, init, t, v, end);
    CoveredAt(w, init, t);
  }

  /** The poll after a turn to branch u, from the rewound database on. */
  lemma TurnPoll(w: World, init: Tables, t: Tables, v: View, n: nat, u: View, a: nat, top: nat, base: Tables, batch: nat, end: nat) returns (r: Tables)
    requires Good(w) && Ready(w, init) && Follows(w, init, t, v, n) && Branch(w, u) && Part(v, u, a, n, top)
    requires a in t.anchors && Rewinds(Settings(), Oracle(w), t, a, base) && Follows(w, init, base, v, a)
    requires NextEnd(a, top, batch) == Some(end)
    requires end == top ==> init.history == map[] && (HistoryComplete(Oracle(w), base) || !OneProductPerId(base.journal))
    ensures PollsOn(Settings(), Oracle(w), t, u, batch, base, r)
    ensures Follows(w, init, r, u, end) && JournalKept(base, r) && BindingsKept(base, r) && RowsKept(base.history, r.history)
    ensures Adds(base.history, EventsIn(u, a, end), r.history)
    ensures HistoryComplete(Oracle(w), base) ==> HistoryComplete(Oracle(w), r)
  {
    TurnsTo(w, init, t, v, n, u, a, top);
    r := FollowOn(w, init, base, v, a, u, end);
    if end == top {
      StillIntact(w, init, base, u, end, r);
      CoveredAt(w, init, r);
    }
    PollTaken(Settings(), Oracle(w), t, u, batch, base, r, end);
  }

  lemma StillIntact(w: World, init: Tables, base: Tables, u: View, end: nat, r: Tables)
    requires Follows(w, init, r, u, end) && NotStarted(init) && JournalKept(base, r)
    requires HistoryComplete(Oracle(w), r) || !OneProductPerId(base.journal)
    ensures Consistent(Settings(), Oracle(w), init, r)
  {
    if OneProductPerId(r.journal) { OrphansIntact(base, r); }
  }

  // ---- a rewind that loses another product's row ----

  lemma TrunkKeepsNoRows(w: World, init: Tables, t: Tables, v: View, n: nat)
    requires Good(w) && Follows(w, init, t, v, n) && n >= 1
    ensures forall e :: e in Kept(Oracle(w), t, 1) ==> TableOf(e).None?
  {
    BothBound(w, init, t, v, n);
    UpToMembers(Indexed(Oracle(w), t), 1);
    RangeEvents(w, v, 0, n);
  }

  lemma LeftToRight(w: World)
    requires Good(w)
    ensures Part(Left(w), Right(w), 1, 2, 3)
  {
    assert Left(w)[..2] == Right(w)[..2];
  }

  /** Back to the trunk, with the history complete again. */
  lemma BackToTrunk(w: World, init: Tables, t: Tables) returns (base: Tables, order: seq<Key>)
    requires Good(w) && Ready(w, init) && Follows(w, init, t, Left(w), 2) && HistoryComplete(Oracle(w), t)
    ensures BackStep(Settings(), Oracle(w), t, 1, order, base) && Rewinds(Settings(), Oracle(w), t, 1, base) && 1 in t.anchors
    ensures Follows(w, init, base, Left(w), 1) && HistoryComplete(Oracle(w), base) && JournalKept(t, base) && BindingsKept(t, base)
  {
    order, base := Rewinds1(w, init, t, Left(w), 2);
    TrunkComplete(w, init, t, Left(w), 2, order, base);
    BothBound(w, init, t, Left(w), 2);
  }

  /** The poll that turns from the left branch to the right, from the trunk to `end`. */
  lemma Reorganized(w: World, init: Tables, t: Tables, batch: nat, end: nat) returns (base: Tables, r: Tables, order: seq<Key>)
    requires Good(w) && Ready(w, init) && Follows(w, init, t, Left(w), 2) && HistoryComplete(Oracle(w), t)
    requires NextEnd(1, 3, batch) == Some(end) && (end == 3 ==> init.history == map[])
    ensures PollsOn(Settings(), Oracle(w), t, Right(w), batch, base, r) && BackStep(Settings(), Oracle(w), t, 1, order, base)
    ensures Follows(w, init, r, Right(w), end) && HistoryComplete(Oracle(w), r) && Consistent(Settings(), Oracle(w), init, r)
    ensures JournalKept(t, r) && Adds(base.history, EventsIn(Right(w), 1, end), r.history)
  {
    base, order := BackToTrunk(w, init, t);
    LeftToRight(w);
    r := TurnPoll(w, init, t, Left(w), 2, Right(w), 1, 3, base, batch, end);
    KeptTransitive(t, base, r);
    FollowsConsistent(w, init, r, Right(w), end);
  }

  lemma FollowsConsistent(w: World, init: Tables, t: Tables, v: View, n: nat)
    requires Follows(w, init, t, v, n) && HistoryComplete(Oracle(w), t) && NotStarted(init)
    ensures Consistent(Settings(), Oracle(w), init, t)
  {}

  lemma Loses(cfg: Config, history: Hash -> View, init: Tables, t: Tables, a: nat, k: Key, e: Event) returns (order: seq<Key>, u: Tables)
    requires MirrorsTip(cfg, history, init, t) && CanonicalKeys(cfg, history) && HistoryComplete(history, t) && a in t.anchors
    requires k in Affected(t.journal, a) && e in Kept(history, t, a) && TableOf(e).Some? && Clashes(t.journal, k, e)
    ensures BackStep(cfg, history, t, a, order, u) && e.log.product in u.bindings && !HasRow(u, e.log.product, e)
  {
    TipMirrors(cfg, history, init, t);
    order, u := LosingRewind(cfg, history, init, t, a, k, e);
  }

  /** A run of three polls, each on a node that stays on one chain. The right branch carries the transaction and log index of
      the left one's transfer for another product. After the second poll the database is in order. The third poll finds
      the third block replaced, rewinds one block, and deletes the canonical row of the product that did not move there;
      it commits, and passes the coverage check at the target. */
  lemma RewindMayLoseRow(w: World) returns (t1: Tables, t2: Tables, t3: Tables, t4: Tables, t5: Tables, t6: Tables)
    requires Good(w) && w.movesLeft == w.movesRight
    ensures PollsOn(Settings(), Oracle(w), Empty(), Left(w), 10, t1, t2) && PollsOn(Settings(), Oracle(w), t2, Right(w), 10, t3, t4)
    ensures PollsOn(Settings(), Oracle(w), t4, Other(w), 10, t5, t6)
    ensures Consistent(Settings(), Oracle(w), Empty(), t4) && HistoryComplete(Oracle(w), t4)
    ensures Consistent(Settings(), Oracle(w), Empty(), t6) && Highest(Settings(), t4, Other(w), 2)
    ensures RowIn(w, t4, MovesRight(w)) && RowMissing(w, t6, MovesRight(w))
  {
    EmptyReady(w);
    t1, t2 := FirstPoll(w, Empty(), Left(w), 10, 2);
    var order;
    t3, t4, order := Reorganized(w, Empty(), t2, 10, 3);
    t5, t6 := LosingPoll(w, Empty(), t2, t4);
    IndexedOnRight(w, Empty(), t4);
    RowOfComplete(w, t4, MovesRight(w));
  }

  /** e is canonical, and has its row. */
  ghost predicate RowIn(w: World, t: Tables, e: Event) {
    t.cursor.Some? && e in Indexed(Oracle(w), t) && e.log.product in t.bindings && TableOf(e).Some? && HasRow(t, e.log.product, e)
  }

  /** e is canonical, and its row is gone. */
  ghost predicate RowMissing(w: World, t: Tables, e: Event) {
    t.cursor.Some? && e in Indexed(Oracle(w), t) && e.log.product in t.bindings && TableOf(e).Some? && !HasRow(t, e.log.product, e)
  }

  lemma IndexedOnRight(w: World, init: Tables, t: Tables)
    requires Good(w) && Follows(w, init, t, Right(w), 3)
    ensures MovesRight(w) in Indexed(Oracle(w), t)
  {
    BothBound(w, init, t, Right(w), 3);
    InRange(w, Right(w), 0, 3);
  }

  lemma RowOfComplete(w: World, t: Tables, e: Event)
    requires HistoryComplete(Oracle(w), t) && e in Indexed(Oracle(w), t) && TableOf(e).Some?
    ensures RowIn(w, t, e)
  {}

  lemma EmptyReady(w: World)
    requires Good(w)
    ensures Ready(w, Empty())
  {
    assert Claimants(Settings(), Empty().products, w.a) == {} && Claimants(Settings(), Empty().products, w.b) == {};
  }

  /** The rewind to block 2 that a turn to the other third block asks for. */
  lemma LosingStep(w: World, init: Tables, t2: Tables, t4: Tables, e: Event) returns (order: seq<Key>, u: Tables)
    requires Good(w) && w.movesLeft == w.movesRight && Follows(w, init, t2, Left(w), 2) && Follows(w, init, t4, Right(w), 3)
    requires JournalKept(t2, t4) && HistoryComplete(Oracle(w), t4) && e == MovesRight(w)
    ensures BackStep(Settings(), Oracle(w), t4, 2, order, u) && e.log.product in u.bindings && !HasRow(u, e.log.product, e)
    ensures 2 in t4.anchors && !OneProductPerId(u.journal) && Follows(w, init, u, Right(w), 2)
  {
    SecondRewind(w, init, t2, t4, e);
    KeysCanonical(w);
    order, u := Loses(Settings(), Oracle(w), init, t4, 2, w.a, e);
    RewindMirrors(Settings(), Oracle(w), init, t4, 2, order, u);
    AnchorsOn(w, init, t4, Right(w), 3);
    TwoProducts(w, init, t2, t4, u.journal);
  }

  lemma TwoProducts(w: World, init: Tables, t2: Tables, t4: Tables, journal: map<Occurrence, JournalRow>)
    requires Good(w) && w.movesLeft == w.movesRight && Follows(w, init, t2, Left(w), 2) && Follows(w, init, t4, Right(w), 3)
    requires JournalKept(t2, t4) && journal == Orphan(t4.journal, 2)
    ensures !OneProductPerId(journal)
  {
    BothBound(w, init, t2, Left(w), 2);
    BothBound(w, init, t4, Right(w), 3);
    InRange(w, Left(w), 0, 2);
    InRange(w, Right(w), 0, 3);
    assert journal[OccurrenceOf(MovesLeft(w))].event == MovesLeft(w) && journal[OccurrenceOf(MovesRight(w))].event == MovesRight(w);
    assert OccurrenceOf(MovesLeft(w)).id == OccurrenceOf(MovesRight(w)).id;
  }

  lemma LosingPoll(w: World, init: Tables, t2: Tables, t4: Tables) returns (base: Tables, u: Tables)
    requires Good(w) && w.movesLeft == w.movesRight && Ready(w, init) && init.history == map[]
    requires Follows(w, init, t2, Left(w), 2) && Follows(w, init, t4, Right(w), 3)
    requires JournalKept(t2, t4) && HistoryComplete(Oracle(w), t4)
    ensures PollsOn(Settings(), Oracle(w), t4, Other(w), 10, base, u) && Highest(Settings(), t4, Other(w), 2)
    ensures Consistent(Settings(), Oracle(w), init, u) && RowMissing(w, u, MovesRight(w))
  {
    var e := MovesRight(w);
    var order;
    order, base := LosingStep(w, init, t2, t4, e);
    RightToOther(w);
    TurnsTo(w, init, t4, Right(w), 3, Other(w), 2, 3);
    u := TurnPoll(w, init, t4, Right(w), 3, Other(w), 2, 3, base, 10, 3);
    StillIntact(w, init, base, Other(w), 3, u);
    StillMissing(w, init, base, u, e);
  }

  lemma RightToOther(w: World)
    requires Good(w)
    ensures Part(Right(w), Other(w), 2, 3, 3)
  {
    assert Right(w)[..3] == Other(w)[..3];
  }

  lemma NothingOnTop(w: World)
    ensures forall s :: !SlotIn(EventsIn(Other(w), 2, 3), s)
  {
    forall e ensures e !in EventsIn(Other(w), 2, 3) {
      EventsInExact(Other(w), 2, 3, e);
      OnOther(w, e);
    }
  }

  lemma StillMissing(w: World, init: Tables, base: Tables, u: Tables, e: Event)
    requires Good(w) && e == MovesRight(w) && Follows(w, init, u, Other(w), 3)
    requires BindingsKept(base, u) && RowsKept(base.history, u.history) && Adds(base.history, EventsIn(Other(w), 2, 3), u.history)
    requires e.log.product in base.bindings && !HasRow(base, e.log.product, e)
    ensures RowMissing(w, u, e)
  {
    BothBound(w, init, u, Other(w), 3);
    InRange(w, Other(w), 0, 3);
    NothingOnTop(w);
  }

  lemma TrunkComplete(w: World, init: Tables, t: Tables, v: View, n: nat, order: seq<Key>, u: Tables)
    requires Good(w) && Follows(w, init, t, v, n) && n >= 1 && HistoryComplete(Oracle(w), t)
    requires BackStep(Settings(), Oracle(w), t, 1, order, u)
    ensures HistoryComplete(Oracle(w), u)
  {
    KeysCanonical(w);
    TipMirrors(Settings(), Oracle(w), init, t);
    TrunkKeepsNoRows(w, init, t, v, n);
    SafeRewind(Settings(), Oracle(w), init, t, 1, order, u);
  }

  lemma TopAffected(w: World, init: Tables, t: Tables)
    requires Good(w) && Follows(w, init, t, Right(w), 3)
    ensures w.a in Affected(t.journal, 2)
  {
    BothBound(w, init, t, Right(w), 3);
    InRange(w, Right(w), 0, 3);
    assert Orphaned(t.journal[OccurrenceOf(MovesTop(w))], 2);
  }

  lemma RightKept(w: World, init: Tables, t: Tables, e: Event)
    requires Good(w) && Follows(w, init, t, Right(w), 3) && e == MovesRight(w)
    ensures e in Kept(Oracle(w), t, 2) && 2 in t.anchors
  {
    BothBound(w, init, t, Right(w), 3);
    InRange(w, Right(w), 0, 3);
    UpToMembers(Indexed(Oracle(w), t), 2);
    EventAnchored(w, init, t, Right(w), 3, e);
  }

  lemma LeftJournaled(w: World, init: Tables, t: Tables)
    requires Good(w) && Follows(w, init, t, Left(w), 2)
    ensures OccurrenceOf(MovesLeft(w)) in t.journal && t.journal[OccurrenceOf(MovesLeft(w))].event == MovesLeft(w)
  {
    BothBound(w, init, t, Left(w), 2);
    InRange(w, Left(w), 0, 2);
  }

  lemma ClashesWith(w: World, journal: map<Occurrence, JournalRow>, e: Event)
    requires Good(w) && w.movesLeft == w.movesRight && e == MovesRight(w)
    requires OccurrenceOf(MovesLeft(w)) in journal && journal[OccurrenceOf(MovesLeft(w))].event == MovesLeft(w)
    ensures TableOf(e).Some? && Clashes(journal, w.a, e)
  {
    assert IdOf(MovesLeft(w)) == IdOf(e);
  }

  /** The second rewind affects the first product and keeps the clashing event of the second. */
  lemma SecondRewind(w: World, init: Tables, t2: Tables, t4: Tables, e: Event)
    requires Good(w) && w.movesLeft == w.movesRight && Follows(w, init, t2, Left(w), 2) && Follows(w, init, t4, Right(w), 3)
    requires JournalKept(t2, t4) && e == MovesRight(w)
    ensures TableOf(e).Some? && Clashes(t4.journal, w.a, e)
    ensures w.a in Affected(t4.journal, 2) && e in Kept(Oracle(w), t4, 2) && 2 in t4.anchors
  {
    TopAffected(w, init, t4);
    RightKept(w, init, t4, e);
    LeftJournaled(w, init, t2);
    ClashesWith(w, t4.journal, e);
  }

  // ---- two runs that differ below the target ----

  lemma KeptSlotOnTrunk(w: World, init: Tables, t: Tables, v: View, n: nat, s: Slot)
    requires Good(w) && Follows(w, init, t, v, n) && n >= 1
    ensures !SlotIn(Kept(Oracle(w), t, 1), s)
  {
    TrunkKeepsNoRows(w, init, t, v, n);
  }

  lemma RightSlots(w: World, n: nat)
    requires w.movesLeft != w.movesRight && w.movesLeft != w.movesTop
    ensures !SlotIn(EventsIn(Right(w), n, 2), SlotOf(MovesLeft(w)))
  {
    RangeEvents(w, Right(w), n, 2);
    assert MovesLeft(w) !in EventsIn(Right(w), n, 2) by { EventsInExact(Right(w), n, 2, MovesLeft(w)); OnRight(w, MovesLeft(w)); }
  }

  /** A tagged row of the start survives on a path that never met its log, and is gone on a path that met it on a fork. One
      run polls the left branch and turns to the right, the other polls the right branch at once; the batch sizes are those
      failed reads leave behind, and both runs stop at one cursor below the target. */
  lemma RunsMayDiffer(w: World) returns (t1: Tables, t2: Tables, t3: Tables, long: Tables, s1: Tables, short: Tables)
    requires Good(w) && w.movesLeft != w.movesRight
    ensures var init := Drafted(w, SlotOf(MovesLeft(w)), RowOf(w.a, MovesLeft(w)));
      && PollsOn(Settings(), Oracle(w), init, Left(w), 10, t1, t2) && PollsOn(Settings(), Oracle(w), t2, Right(w), 1, t3, long)
      && PollsOn(Settings(), Oracle(w), init, Right(w), 2, s1, short)
      && Consistent(Settings(), Oracle(w), init, long) && Consistent(Settings(), Oracle(w), init, short)
    ensures long.cursor == short.cursor && short.cursor.Some? && short.cursor.value.last < TargetOf(Settings(), Right(w))
    ensures w.a in short.bindings && w.a in long.bindings
    ensures SlotOf(MovesLeft(w)) in short.history && SlotOf(MovesLeft(w)) !in long.history && !Covered(short)
  {
    var s := SlotOf(MovesLeft(w));
    var init := Drafted(w, s, RowOf(w.a, MovesLeft(w)));
    DraftReady(w, init);
    t1, t2 := FirstPoll(w, init, Left(w), 10, 2);
    var order;
    t3, long, order := Reorganized(w, init, t2, 1, 2);
    s1, short := FirstPoll(w, init, Right(w), 2, 2);
    RowRewound(w, init, t2, order, t3, s);
    RightSlots(w, 1);
    NotCovered(w, init, short, s);
  }

  lemma DraftReady(w: World, init: Tables)
    requires Good(w) && w.movesLeft != w.movesRight && init == Drafted(w, SlotOf(MovesLeft(w)), RowOf(w.a, MovesLeft(w)))
    ensures Ready(w, init)
    ensures forall s :: s in init.history ==> exists e :: e in EventsIn(Left(w), 0, 2) && IdOf(e) == s.id
  {
    DraftOpen(w, init);
    MovedOnLeft(w);
  }

  lemma DraftOpen(w: World, init: Tables)
    requires Good(w) && w.movesLeft != w.movesRight && init == Drafted(w, SlotOf(MovesLeft(w)), RowOf(w.a, MovesLeft(w)))
    ensures Ready(w, init)
  {
    DraftedOpen(w, SlotOf(MovesLeft(w)), RowOf(w.a, MovesLeft(w)));
  }

  lemma MovedOnLeft(w: World)
    ensures MovesLeft(w) in EventsIn(Left(w), 0, 2)
  {
    InRange(w, Left(w), 0, 2);
  }

  lemma RowRewound(w: World, init: Tables, t: Tables, order: seq<Key>, u: Tables, s: Slot)
    requires s == SlotOf(MovesLeft(w))
    requires Good(w) && Follows(w, init, t, Left(w), 2) && BackStep(Settings(), Oracle(w), t, 1, order, u)
    ensures s !in u.history
  {
    KeptSlotOnTrunk(w, init, t, Left(w), 2, s);
    LeftRewound(w, init, t, s.id);
    RemovedBy(w, init, t, 1, order, u, s, w.a);
  }

  lemma LeftRewound(w: World, init: Tables, t: Tables, id: EventId)
    requires Good(w) && Follows(w, init, t, Left(w), 2) && id == IdOf(MovesLeft(w))
    ensures w.a in Affected(t.journal, 1) && id in KeyIds(t.journal, w.a)
  {
    BothBound(w, init, t, Left(w), 2);
    InRange(w, Left(w), 0, 2);
    assert Orphaned(t.journal[OccurrenceOf(MovesLeft(w))], 1);
  }

  lemma RemovedBy(w: World, init: Tables, t: Tables, a: nat, order: seq<Key>, u: Tables, s: Slot, k: Key)
    requires MirrorsTip(Settings(), Oracle(w), init, t) && BackStep(Settings(), Oracle(w), t, a, order, u)
    requires !SlotIn(Kept(Oracle(w), t, a), s) && k in Affected(t.journal, a) && s.id in KeyIds(t.journal, k)
    ensures s !in u.history
  {
    TipMirrors(Settings(), Oracle(w), init, t);
    RewindRemoves(Settings(), Oracle(w), init, t, a, order, u, s);
  }

  lemma NotCovered(w: World, init: Tables, t: Tables, s: Slot)
    requires s == SlotOf(MovesLeft(w)) && s in t.history && t.history[s].productId == w.a
    requires Good(w) && w.movesLeft != w.movesRight && Ready(w, init) && Follows(w, init, t, Right(w), 2)
    ensures !Covered(t)
  {
    FirstProduct(w, init, t, Right(w), 2);
    forall o | o in t.journal && t.journal[o].canonical ensures o.id != s.id {
      CanonicalOnBranch(w, init, t, Right(w), 2, o);
      NotOnRight(w, t.journal[o].event);
    }
  }

  lemma NotOnRight(w: World, e: Event)
    requires Good(w) && w.movesLeft != w.movesRight && e in EventsIn(Right(w), 0, 2)
    ensures IdOf(e) != IdOf(MovesLeft(w))
  {
    EventsInExact(Right(w), 0, 2, e);
    OnRight(w, e);
    IdsOnRight(w, e);
  }

  lemma IdsOnRight(w: World, e: Event)
    requires Good(w) && w.movesLeft != w.movesRight && e in {RegistersA(w), RegistersB(w), MovesRight(w), MovesTop(w), MovesLeft(w)}
    ensures IdOf(e) == IdOf(MovesLeft(w)) <==> e == MovesLeft(w)
  {}

  // ---- a covered history with an unjustified row ----

  function StraySlot(w: World): Slot {
    Slot(Checkpoints, IdOf(RegistersA(w)))
  }

  function StrayRow(w: World): HistoryRow {
    CheckpointRow(w.a, "dock", "1", "x", None, 9, 1, w.registersA)
  }

  /** A checkpoint row of the start that carries the id of the registration passes the coverage check at the target, and stays. */
  lemma CoverageMayMissRow(w: World) returns (t1: Tables, t: Tables)
    requires Good(w)
    ensures PollsOn(Settings(), Oracle(w), Drafted(w, StraySlot(w), StrayRow(w)), Left(w), 10, t1, t)
    ensures Consistent(Settings(), Oracle(w), Drafted(w, StraySlot(w), StrayRow(w)), t)
    ensures t.cursor.Some? && t.cursor.value.last == TargetOf(Settings(), Left(w))
    ensures Covered(t) && !Justified(Oracle(w), t)
  {
    var init := Drafted(w, StraySlot(w), StrayRow(w));
    StrayReady(w, init);
    t1, t := FirstPoll(w, init, Left(w), 10, 2);
    StrayUnexplained(w, init, t);
  }

  lemma StrayReady(w: World, init: Tables)
    requires Good(w) && init == Drafted(w, StraySlot(w), StrayRow(w))
    ensures Ready(w, init)
    ensures forall s :: s in init.history ==> exists e :: e in EventsIn(Left(w), 0, 2) && IdOf(e) == s.id
  {
    StrayOpen(w, init);
    RegisteredOnLeft(w);
  }

  lemma StrayOpen(w: World, init: Tables)
    requires Good(w) && init == Drafted(w, StraySlot(w), StrayRow(w))
    ensures Ready(w, init)
  {
    DraftedOpen(w, StraySlot(w), StrayRow(w));
  }

  lemma RegisteredOnLeft(w: World)
    ensures RegistersA(w) in EventsIn(Left(w), 0, 2)
  {
    InRange(w, Left(w), 0, 2);
  }

  lemma NoCheckpoints(w: World, id: EventId)
    ensures !SlotIn(EventsIn(Left(w), 0, 2), Slot(Checkpoints, id))
  {
    RangeEvents(w, Left(w), 0, 2);
  }

  lemma NotJustified(w: World, t: Tables, es: seq<Event>, s: Slot)
    requires t.cursor.Some? && es == Indexed(Oracle(w), t) && OfBound(t, s) && !SlotIn(es, s)
    ensures !Justified(Oracle(w), t)
  {}

  lemma StrayUnexplained(w: World, init: Tables, t: Tables)
    requires Good(w) && init == Drafted(w, StraySlot(w), StrayRow(w)) && Ready(w, init) && Follows(w, init, t, Left(w), 2)
    requires RowsKept(init.history, t.history)
    ensures OfBound(t, StraySlot(w)) && !Justified(Oracle(w), t)
  {
    FirstProduct(w, init, t, Left(w), 2);
    BothBound(w, init, t, Left(w), 2);
    NoCheckpoints(w, IdOf(RegistersA(w)));
    NotJustified(w, t, EventsIn(Left(w), 0, 2), StraySlot(w));
  }
}
