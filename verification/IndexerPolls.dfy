/** What a poll may do to the database: its steps put together, and when a poll against an unchanging chain succeeds. */
module IndexerPolls {
  import opened Prelude
  import opened Chains
  import opened Nodes
  import opened Projection
  import opened IndexerSpec
  import opened IndexerLaws
  import opened IndexerSync
  import opened IndexerInvariant
  import opened IndexerSteps

  /** A failed fetch halves the batch, down to one block. */
  function Halved(batch: nat): (r: nat)
    ensures r >= 1 && (batch >= 1 ==> r <= batch) && (batch >= 2 ==> r < batch)
    ensures r == if batch >= 2 then batch / 2 else 1
  {
    if batch / 2 > 1 then batch / 2 else 1
  }

  /** What an attempt may do to the batch size: nothing if it succeeds, at most one halving if it fails. */
  predicate Shrinks(before: nat, after: nat, ok: bool) {
    1 <= after <= before && (after == before || (!ok && after == Halved(before)))
  }

  /** Every event of a batch, and its end, are under the hashes v shows. */
  ghost predicate BatchOn(v: View, events: seq<Event>, end: nat, endHash: Hash) {
    Shows(v, end, endHash) && forall e :: e in events ==> Shows(v, e.number, e.blockHash)
  }

  /** An answered call of the interval showed block n under the hash. */
  ghost predicate HeaderSeen(node: Node, from: nat, to: nat, n: nat, hash: Hash) {
    exists t :: from <= t < to && !node.fails(t) && Shows(node.view(t), n, hash)
  }

  /** Every header known beyond one block was read in the interval. */
  ghost predicate HeadersRead(node: Node, from: nat, to: nat, headers: map<nat, Hash>, end: nat) {
    forall n :: n in headers && n != end ==> HeaderSeen(node, from, to, n, headers[n])
  }

  ghost predicate HeadersSeen(node: Node, from: nat, to: nat, headers: map<nat, Hash>, end: nat) {
    forall w {:trigger HeadersRead(node, from, to, w, end)} :: w == headers ==> HeadersRead(node, from, to, w, end)
  }

  lemma OneHeader(node: Node, from: nat, to: nat, end: nat, endHash: Hash)
    ensures HeadersSeen(node, from, to, map[end := endHash], end)
  {}

  lemma HeadersSeenNext(node: Node, from: nat, mid: nat, to: nat, known: map<nat, Hash>, e: Event, end: nat)
    requires HeadersSeen(node, from, mid, known, end) && from <= mid <= to
    requires if e.number in known then known[e.number] == e.blockHash else HeaderSeen(node, mid, to, e.number, e.blockHash)
    ensures HeadersSeen(node, from, to, known[e.number := e.blockHash], end)
  {
    var headers := known[e.number := e.blockHash];
    assert HeadersRead(node, from, mid, known, end);
    forall n | n in headers && n != end ensures HeaderSeen(node, from, to, n, headers[n]) {
      assert n in known ==> HeaderSeen(node, from, mid, n, known[n]);
    }
  }

  ghost predicate HeadersShown(v: View, headers: map<nat, Hash>) {
    forall n :: n in headers ==> Shows(v, n, headers[n])
  }

  lemma HeadersOfSnoc(known: map<nat, Hash>, events: seq<Event>, i: nat, end: nat, endHash: Hash)
    requires i < |events| && HeadersOf(known, events[..i], end, endHash)
    requires events[i].number in known ==> known[events[i].number] == events[i].blockHash
    ensures HeadersOf(known[events[i].number := events[i].blockHash], events[..i + 1], end, endHash)
  {
    assert events[..i + 1] == events[..i] + [events[i]];
    var headers := known[events[i].number := events[i].blockHash];
    forall n | n in headers && n != end ensures exists e :: e in events[..i + 1] && e.number == n {
      if n == events[i].number {
        assert events[i] in events[..i + 1];
      } else {
        var e :| e in events[..i] && e.number == n;
        assert e in events[..i + 1];
      }
    }
  }

  lemma EventsOnChain(v: View, low: nat, end: nat)
    ensures end < |v| ==> BatchOn(v, EventsIn(v, low, end), end, v[end].hash)
  {
    forall e | e in EventsIn(v, low, end) ensures Shows(v, e.number, e.blockHash) {
      EventsInExact(v, low, end, e);
    }
  }

  lemma ViewWellFormed(branches: Hash -> View, node: Node, t: nat)
    requires node.Honest(branches)
    ensures WellFormed(node.view(t))
  {
    assert Genuine(branches, node.view(t));
  }

  /** The batch (low, end] of v was journaled on t, its headers are recorded, and u is the result. */
  ghost predicate BatchTaken(cfg: Config, t: Tables, v: View, low: nat, end: nat, endHash: Hash, headers: map<nat, Hash>, u: Tables) {
    forall events :: events == EventsIn(v, low, end) ==>
      && HeadersOf(headers, events, end, endHash)
      && Completions(events) == DeliveredCheckpoints(events)
      && JournalAll(cfg, t, events) == Ok(u)
  }

  /** If the node kept showing v between two calls, the batch taken is v's. */
  ghost predicate TakenIfSteady(node: Node, from: nat, to: nat, cfg: Config, t: Tables, v: View, low: nat, end: nat, endHash: Hash,
                                headers: map<nat, Hash>, u: Tables) {
    forall w {:trigger Steady(node, w, from, to, end)} :: w == v && Steady(node, w, from, to, end) ==>
      BatchTaken(cfg, t, w, low, end, endHash, headers, u)
  }

  /** The blocks (low, end] of v are a batch the database takes: deliveries are paired and every event projects. */
  ghost predicate Accepts(cfg: Config, t: Tables, v: View, low: nat, end: nat) {
    var events := EventsIn(v, low, end);
    Completions(events) == DeliveredCheckpoints(events) && JournalAll(cfg, t, events).Ok?
  }

  /** The batch was taken just when the database takes it. */
  ghost predicate AcceptedExactly(cfg: Config, t: Tables, v: View, low: nat, end: nat, ok: bool) {
    forall w {:trigger Accepts(cfg, t, w, low, end)} :: w == v ==> (ok <==> Accepts(cfg, t, w, low, end))
  }

  /** Where the next batch ends, if the target is ahead of the cursor. */
  function NextEnd(last: nat, target: nat, batch: nat): (r: Option<nat>)
    ensures r.None? <==> target <= last || batch == 0
    ensures r.Some? ==> last < r.value <= target && r.value <= last + batch && (r.value == target || r.value == last + batch)
  {
    var end := if target < last + batch then target else last + batch;
    if end <= last then None else Some(end)
  }

  // ---- steps in a row ----

  /** u mirrors a chain too, began at the same block, and keeps every journaled row and binding of t, and its history complete. */
  ghost predicate Grown(cfg: Config, branches: Hash -> View, init: Tables, t: Tables, u: Tables) {
    forall w {:trigger MirrorsTip(cfg, branches, init, w)} :: w == u ==>
      && MirrorsTip(cfg, branches, init, w)
      && t.cursor.Some? && w.cursor.value.start == t.cursor.value.start
      && JournalKept(t, w) && BindingsKept(t, w)
      && (Intact(branches, t) ==> Intact(branches, w))
  }

  lemma GrownFacts(cfg: Config, branches: Hash -> View, init: Tables, t: Tables, u: Tables)
    requires Grown(cfg, branches, init, t, u)
    ensures MirrorsTip(cfg, branches, init, u) && t.cursor.Some? && u.cursor.Some? && u.cursor.value.start == t.cursor.value.start
    ensures JournalKept(t, u) && BindingsKept(t, u) && (Intact(branches, t) ==> Intact(branches, u))
  {
    assert MirrorsTip(cfg, branches, init, u);
  }

  lemma GrownSame(cfg: Config, branches: Hash -> View, init: Tables, t: Tables)
    requires MirrorsTip(cfg, branches, init, t)
    ensures Grown(cfg, branches, init, t, t)
  {}

  /** t rewound to the anchor at block a, in some order of the affected products. */
  ghost predicate Rewinds(cfg: Config, branches: Hash -> View, t: Tables, a: nat, u: Tables) {
    exists order :: BackStep(cfg, branches, t, a, order, u)
  }

  lemma OrphansIntact(t: Tables, u: Tables)
    requires JournalKept(t, u) && OneProductPerId(u.journal)
    ensures OneProductPerId(t.journal)
  {}

  lemma RewindIntact(cfg: Config, branches: Hash -> View, init: Tables, t: Tables, a: nat, order: seq<Key>, u: Tables)
    requires t.cursor.Some? && Mirrors(cfg, branches, init, t, ChainOf(branches, t)) && CanonicalKeys(cfg, branches)
    requires BackStep(cfg, branches, t, a, order, u) && u.journal == Orphan(t.journal, a) && Intact(branches, t)
    ensures Intact(branches, u)
  {
    if OneProductPerId(u.journal) {
      OrphanKept(t, u, a);
      OrphansIntact(t, u);
      OneProductIsSafe(cfg, branches, init, t, a);
      SafeRewind(cfg, branches, init, t, a, order, u);
    }
  }

  lemma RewindMirrors(cfg: Config, branches: Hash -> View, init: Tables, t: Tables, a: nat, order: seq<Key>, u: Tables)
    requires MirrorsTip(cfg, branches, init, t) && CanonicalKeys(cfg, branches) && BackStep(cfg, branches, t, a, order, u)
    ensures MirrorsTip(cfg, branches, init, u) && u.journal == Orphan(t.journal, a) && BindingsKept(t, u) && JournalKept(t, u)
    ensures t.cursor.Some? && u.cursor.Some? && u.cursor.value.start == t.cursor.value.start
    ensures Intact(branches, t) ==> Intact(branches, u)
  {
    TipMirrors(cfg, branches, init, t);
    BackStepMirrors(cfg, branches, init, t, a, order, u);
    TipMirrors(cfg, branches, init, u);
    OrphanKept(t, u, a);
    if Intact(branches, t) { RewindIntact(cfg, branches, init, t, a, order, u); }
  }

  lemma RewindGrown(cfg: Config, branches: Hash -> View, init: Tables, t: Tables, a: nat, u: Tables)
    requires MirrorsTip(cfg, branches, init, t) && CanonicalKeys(cfg, branches) && Rewinds(cfg, branches, t, a, u)
    ensures Grown(cfg, branches, init, t, u) && u.journal == Orphan(t.journal, a)
  {
    var order :| BackStep(cfg, branches, t, a, order, u);
    RewindMirrors(cfg, branches, init, t, a, order, u);
  }

  /** Where the restoration of the affected products stands. */
  ghost predicate PartRestored(cfg: Config, branches: Hash -> View, init: Tables, t: Tables, es: seq<Event>, kept: seq<Event>,
                            affected: set<Key>, todo: set<Key>, order: seq<Key>, u: Tables) {
    && Rewinding(cfg, branches, init, u, es, kept, todo)
    && todo <= affected && Lists(order, affected - todo) && RestoreAll(cfg, t, kept, order) == Ok(u)
  }

  lemma RestoreBegins(cfg: Config, branches: Hash -> View, init: Tables, t: Tables, es: seq<Event>, kept: seq<Event>, affected: set<Key>)
    requires Rewinding(cfg, branches, init, t, es, kept, affected)
    ensures PartRestored(cfg, branches, init, t, es, kept, affected, affected, [], t)
  {}

  /** The replay of the next product succeeds, and the restoration is one product further. */
  lemma RestoredNext(cfg: Config, branches: Hash -> View, init: Tables, t: Tables, v: View, es: seq<Event>, kept: seq<Event>,
                    affected: set<Key>, todo: set<Key>, order: seq<Key>, u: Tables, k: Key, rows: seq<Event>)
    requires PartRestored(cfg, branches, init, t, es, kept, affected, todo, order, u) && k in todo
    requires CanonicalKeys(cfg, branches) && WellFormed(v) && (forall e :: e in kept ==> On(v, e))
    requires k in u.bindings && u.bindings[k].productId in u.products
    requires Strict(kept) && Strict(rows) && forall e :: e in rows <==> e in CanonicalOf(u, k)
    ensures ProjectAll(cfg, Reset(u, k), rows).Ok?
    ensures PartRestored(cfg, branches, init, t, es, kept, affected, todo - {k}, order + [k], ProjectAll(cfg, Reset(u, k), rows).value)
  {
    ReplayNeverFails(cfg, init, u, v, kept, k, rows);
    var w := ProjectAll(cfg, Reset(u, k), rows).value;
    Restored(cfg, branches, init, u, es, kept, todo, k, rows, w);
    ShareIsQuery(u, kept, k, rows);
    RestoredOne(cfg, branches, init, t, kept, order, u, k, rows, w);
    ListsOneMore(order, affected, todo, k);
  }

  /** With the journal cut, the restoration of the affected products can begin. */
  lemma RewindReady(cfg: Config, branches: Hash -> View, init: Tables, t: Tables, a: nat, j: Tables)
    requires MirrorsTip(cfg, branches, init, t) && j == t.(journal := Orphan(t.journal, a))
    ensures t.cursor.Some? && Rewinding(cfg, branches, init, j, Indexed(branches, t), Kept(branches, t, a), Affected(t.journal, a))
    ensures Strict(Kept(branches, t, a)) && WellFormed(ChainOf(branches, t)) && forall e :: e in Kept(branches, t, a) ==> On(ChainOf(branches, t), e)
  {
    TipMirrors(cfg, branches, init, t);
    RewindStarts(cfg, branches, init, t, Indexed(branches, t), a, j);
    IndexedKept(cfg, branches, init, t, a);
  }

  lemma RewindDone(cfg: Config, branches: Hash -> View, init: Tables, t: Tables, a: nat, order: seq<Key>, j: Tables, r: Tables, u: Tables)
    requires MirrorsTip(cfg, branches, init, t) && CanonicalKeys(cfg, branches) && t.cursor.Some? && a in t.anchors
    requires j == t.(journal := Orphan(t.journal, a)) && Lists(order, Affected(t.journal, a))
    requires RestoreAll(cfg, j, Kept(branches, t, a), order) == Ok(r)
    requires u == r.(anchors := Trimmed(t.anchors, a), cursor := Some(Cursor(t.cursor.value.start, a, t.anchors[a])))
    ensures Rewinds(cfg, branches, t, a, u) && Grown(cfg, branches, init, t, u) && u.journal == Orphan(t.journal, a)
  {
    assert BackStep(cfg, branches, t, a, order, u);
    RewindGrown(cfg, branches, init, t, a, u);
  }

  lemma ForwardMirrors(cfg: Config, branches: Hash -> View, init: Tables, t: Tables, v: View, end: nat, u: Tables)
    requires MirrorsTip(cfg, branches, init, t) && CanonicalKeys(cfg, branches) && Genuine(branches, v) && ForwardStep(cfg, t, v, end, u)
    ensures MirrorsTip(cfg, branches, init, u) && JournalKept(t, u) && BindingsKept(t, u)
  {
    var headers, w :| Batch(cfg, t, v, end, headers, w, u);
    TipMirrors(cfg, branches, init, t);
    BatchFrame(cfg, t, EventsIn(v, t.cursor.value.last, end), w);
    Advanced(cfg, branches, init, t, v, end, headers, w, u);
    TipMirrors(cfg, branches, init, u);
  }

  lemma ForwardGrown(cfg: Config, branches: Hash -> View, init: Tables, t: Tables, v: View, end: nat, u: Tables)
    requires MirrorsTip(cfg, branches, init, t) && CanonicalKeys(cfg, branches) && Genuine(branches, v) && ForwardStep(cfg, t, v, end, u)
    ensures Grown(cfg, branches, init, t, u) && RowsKept(t.history, u.history)
  {
    ForwardMirrors(cfg, branches, init, t, v, end, u);
    TipMirrors(cfg, branches, init, t);
    ForwardRows(cfg, branches, init, t, v, end, u);
    if Intact(branches, t) && OneProductPerId(u.journal) { OrphansIntact(t, u); }
  }

  /** mid is t, or t with its first cursor opened on a chain the node showed before the call `to`. */
  ghost predicate StartedAt(cfg: Config, node: Node, to: nat, t: Tables, mid: Tables) {
    if t.cursor.Some? then mid == t else exists when: nat :: when < to && OpenStep(cfg, t, node.view(when), mid)
  }

  /** base is t after the first half of a poll: its cursor open, and rewound if a reorganization was found. */
  ghost predicate Recovered(cfg: Config, branches: Hash -> View, node: Node, to: nat, t: Tables, reorg: Option<nat>, base: Tables) {
    exists mid :: StartedAt(cfg, node, to, t, mid) && RewoundIf(cfg, branches, mid, reorg, base)
  }

  ghost predicate RewoundIf(cfg: Config, branches: Hash -> View, mid: Tables, reorg: Option<nat>, base: Tables) {
    match reorg
    case None => base == mid
    case Some(a) =>
      && mid.cursor.Some? && mid.cursor.value.start <= a <= mid.cursor.value.last <= a + cfg.maxReorgDepth
      && Rewinds(cfg, branches, mid, a, base)
  }

  /** after is base, or base with one batch of a chain the node showed before the call `to`. */
  ghost predicate AdvancedIf(cfg: Config, node: Node, to: nat, base: Tables, indexed: Option<nat>, after: Tables) {
    match indexed
    case None => after == base
    case Some(end) => exists when: nat :: when < to && ForwardStep(cfg, base, node.view(when), end, after)
  }

  /** Everything a committed poll did, table by table. */
  ghost predicate Polled(cfg: Config, branches: Hash -> View, node: Node, to: nat, before: Tables, base: Tables, after: Tables, outcome: Outcome)
    requires outcome.Committed?
  {
    && Recovered(cfg, branches, node, to, before, outcome.reorgAncestor, base)
    && AdvancedIf(cfg, node, to, base, outcome.indexedBlock, after)
  }

  // ---- opening the cursor ----

  /** u is t, or t with its first cursor, and satisfies the invariant. */
  ghost predicate CursorOpen(cfg: Config, branches: Hash -> View, init: Tables, node: Node, to: nat, t: Tables, u: Tables) {
    forall w {:trigger MirrorsTip(cfg, branches, init, w)} :: w == u ==>
      && w.cursor.Some? && MirrorsTip(cfg, branches, init, w) && Intact(branches, w)
      && w.cursor.value.start == cfg.startBlock
      && StartedAt(cfg, node, to, t, w)
  }

  lemma CursorOpenFacts(cfg: Config, branches: Hash -> View, init: Tables, node: Node, to: nat, t: Tables, u: Tables)
    requires CursorOpen(cfg, branches, init, node, to, t, u)
    ensures u.cursor.Some? && MirrorsTip(cfg, branches, init, u) && Intact(branches, u) && u.cursor.value.start == cfg.startBlock
    ensures StartedAt(cfg, node, to, t, u)
  {
    assert MirrorsTip(cfg, branches, init, u);
  }

  lemma OpenedMirrors(cfg: Config, branches: Hash -> View, init: Tables, v: View, u: Tables)
    requires NotStarted(init) && Genuine(branches, v) && OpenStep(cfg, init, v, u)
    ensures MirrorsTip(cfg, branches, init, u) && Intact(branches, u)
  {
    FirstCursor(cfg, branches, init, u, v, cfg.startBlock);
    TipMirrors(cfg, branches, init, u);
    assert Indexed(branches, u) == [];
  }

  /** The cursor was opened on v just when it could be. */
  ghost predicate OpenedExactly(cfg: Config, t: Tables, v: View, target: nat, ok: bool, u: Tables) {
    && (ok <==> Opens(cfg, t.cursor, target))
    && (ok && t.cursor.None? ==> cfg.startBlock <= target && OpenStep(cfg, t, v, u))
  }

  /** u satisfies the invariant from the deployment block on, keeps every journaled row and binding of t, and is what recovery made of t. */
  ghost predicate Opened(cfg: Config, branches: Hash -> View, init: Tables, node: Node, to: nat, t: Tables, reorg: Option<nat>, u: Tables) {
    forall w {:trigger MirrorsTip(cfg, branches, init, w)} :: w == u ==>
      && MirrorsTip(cfg, branches, init, w) && Intact(branches, w)
      && w.cursor.Some? && w.cursor.value.start == cfg.startBlock
      && JournalKept(t, w) && BindingsKept(t, w)
      && Recovered(cfg, branches, node, to, t, reorg, w)
      && (reorg.None? ==> w.history == t.history && (t.cursor.Some? ==> w == t))
  }

  lemma OpenedFacts(cfg: Config, branches: Hash -> View, init: Tables, node: Node, to: nat, t: Tables, reorg: Option<nat>, u: Tables)
    requires Opened(cfg, branches, init, node, to, t, reorg, u)
    ensures MirrorsTip(cfg, branches, init, u) && Intact(branches, u)
    ensures u.cursor.Some? && u.cursor.value.start == cfg.startBlock
    ensures JournalKept(t, u) && BindingsKept(t, u)
    ensures Recovered(cfg, branches, node, to, t, reorg, u)
    ensures reorg.None? ==> u.history == t.history && (t.cursor.Some? ==> u == t)
  {
    assert MirrorsTip(cfg, branches, init, u);
  }

  // ---- when a poll can succeed ----

  /** The batch up to `end` is accepted and, at the target, leaves the history covered. */
  ghost predicate Takes(cfg: Config, t: Tables, v: View, end: nat, target: nat)
    requires t.cursor.Some?
  {
    var last := t.cursor.value.last;
    Accepts(cfg, t, v, last, end) && (end == target ==> Covered(JournalAll(cfg, t, EventsIn(v, last, end)).value))
  }

  /** The database moves forward on v: nothing is left to read, or the next batch is taken. */
  ghost predicate Advances(cfg: Config, t: Tables, v: View, target: nat, batch: nat)
    requires t.cursor.Some?
  {
    var end := NextEnd(t.cursor.value.last, target, batch);
    end.Some? ==> Takes(cfg, t, v, end.value, target)
  }

  function TargetOf(cfg: Config, v: View): nat {
    if |v| - 1 > cfg.confirmations then |v| - 1 - cfg.confirmations else 0
  }

  predicate Opens(cfg: Config, cursor: Option<Cursor>, target: nat) {
    match cursor
    case None => cfg.startBlock <= target
    case Some(c) => c.start == cfg.startBlock
  }

  /** The cursor's block, or some anchor of the window, is on v. */
  ghost predicate Alignable(cfg: Config, t: Tables, v: View)
    requires t.cursor.Some?
  {
    var c := t.cursor.value;
    c.last < |v| && (Shows(v, c.last, c.hash) || Reachable(cfg, c, t.anchors, v))
  }

  /** a is the highest anchor of the window that is on v. */
  ghost predicate Highest(cfg: Config, t: Tables, v: View, a: nat)
    requires t.cursor.Some?
  {
    var c := t.cursor.value;
    && a in t.anchors && Lowest(cfg, c) <= a <= c.last && Shows(v, a, t.anchors[a])
    && forall n :: n in t.anchors && a < n <= c.last ==> !Shows(v, n, t.anchors[n])
  }

  /** u is t brought onto v: t itself, or t rewound to the highest anchor still on v. */
  ghost predicate Aligned(cfg: Config, branches: Hash -> View, t: Tables, v: View, u: Tables)
    requires t.cursor.Some?
  {
    if Shows(v, t.cursor.value.last, t.cursor.value.hash) then u == t
    else exists a :: Highest(cfg, t, v, a) && Rewinds(cfg, branches, t, a, u)
  }

  /** t was brought onto v just when it could be, and u is the result. */
  ghost predicate AlignedExactly(cfg: Config, branches: Hash -> View, t: Tables, v: View, ok: bool, u: Tables) {
    t.cursor.Some? && forall w {:trigger Alignable(cfg, t, w)} :: w == v ==>
      (ok <==> Alignable(cfg, t, w)) && (ok ==> Aligned(cfg, branches, t, w, u))
  }

  /** The database can be brought onto v, opening its cursor on the first run. */
  ghost predicate Recovers(cfg: Config, t: Tables, v: View, target: nat) {
    Opens(cfg, t.cursor, target) && (t.cursor.Some? ==> Alignable(cfg, t, v))
  }

  /** u is t brought onto v. */
  ghost predicate StartsFrom(cfg: Config, branches: Hash -> View, t: Tables, v: View, u: Tables) {
    if t.cursor.None? then OpenStep(cfg, t, v, u) else Aligned(cfg, branches, t, v, u)
  }

  lemma AlignedStays(cfg: Config, branches: Hash -> View, t: Tables, v: View)
    requires t.cursor.Some? && Shows(v, t.cursor.value.last, t.cursor.value.hash)
    ensures AlignedExactly(cfg, branches, t, v, true, t)
  {}

  lemma AlignedBack(cfg: Config, branches: Hash -> View, t: Tables, v: View, a: nat, u: Tables)
    requires t.cursor.Some? && t.cursor.value.last < |v| && !Shows(v, t.cursor.value.last, t.cursor.value.hash)
    requires Highest(cfg, t, v, a) && Rewinds(cfg, branches, t, a, u)
    ensures AlignedExactly(cfg, branches, t, v, true, u)
  {
    assert Reachable(cfg, t.cursor.value, t.anchors, v);
  }

  lemma AlignedNever(cfg: Config, branches: Hash -> View, t: Tables, v: View, u: Tables)
    requires t.cursor.Some? && !Alignable(cfg, t, v)
    ensures AlignedExactly(cfg, branches, t, v, false, u)
  {}

  lemma AlignedShown(cfg: Config, branches: Hash -> View, t: Tables, v: View, u: Tables)
    requires t.cursor.Some? && Aligned(cfg, branches, t, v, u)
    ensures u.cursor.Some? && Shows(v, u.cursor.value.last, u.cursor.value.hash)
  {}

  lemma QuietMismatch(node: Node, from: nat, to: nat, t: Tables, a: nat)
    requires t.cursor.Some? && node.Quiet(from)
    requires forall n :: n in t.anchors && a < n <= t.cursor.value.last ==> MismatchSeen(node, from + 1, to, n, t.anchors[n])
    ensures forall n :: n in t.anchors && a < n <= t.cursor.value.last ==> !Shows(node.view(from), n, t.anchors[n])
  {
    forall n | n in t.anchors && a < n <= t.cursor.value.last ensures !Shows(node.view(from), n, t.anchors[n]) {
      assert MismatchSeen(node, from + 1, to, n, t.anchors[n]);
    }
  }

  /** Recovery onto v succeeded just when it could, and u is its result. */
  ghost predicate RecoveryExact(cfg: Config, branches: Hash -> View, committed: Tables, v: View, target: nat, ok: bool, u: Tables) {
    && (ok <==> Recovers(cfg, committed, v, target))
    && (ok ==> StartsFrom(cfg, branches, committed, v, u) && u.cursor.Some? && Shows(v, u.cursor.value.last, u.cursor.value.hash))
  }

  /** On the unchanging chain v a poll commits if and only if it can; `base` is what recovery makes of the database, whenever it can be recovered. */
  ghost predicate PollExact(cfg: Config, branches: Hash -> View, t: Tables, v: View, target: nat, batch: nat, base: Tables, commits: bool) {
    && (Recovers(cfg, t, v, target) ==> StartsFrom(cfg, branches, t, v, base) && base.cursor.Some?)
    && (commits <==> Recovers(cfg, t, v, target) && base.cursor.Some? && Advances(cfg, base, v, target, batch))
  }

  /** PollExact, closed. */
  ghost predicate Judged(cfg: Config, branches: Hash -> View, t: Tables, v: View, target: nat, batch: nat, base: Tables, commits: bool) {
    forall w {:trigger Recovers(cfg, t, w, target)} :: w == v ==> PollExact(cfg, branches, t, w, target, batch, base, commits)
  }

  lemma JudgedFacts(cfg: Config, branches: Hash -> View, t: Tables, v: View, target: nat, batch: nat, base: Tables, commits: bool)
    ensures Judged(cfg, branches, t, v, target, batch, base, commits) <==> PollExact(cfg, branches, t, v, target, batch, base, commits)
  {}

  /** The poll that takes t to base and on to u while the node stays on v: what PollExact demands of a poll that commits, and
      the batch it takes. */
  ghost predicate PollsOn(cfg: Config, branches: Hash -> View, t: Tables, v: View, batch: nat, base: Tables, u: Tables) {
    && PollExact(cfg, branches, t, v, TargetOf(cfg, v), batch, base, true)
    && match NextEnd(base.cursor.value.last, TargetOf(cfg, v), batch)
       case None => u == base
       case Some(end) => ForwardStep(cfg, base, v, end, u) && (end == TargetOf(cfg, v) ==> Covered(u))
  }

  lemma PollTaken(cfg: Config, branches: Hash -> View, t: Tables, v: View, batch: nat, base: Tables, u: Tables, end: nat)
    requires Recovers(cfg, t, v, TargetOf(cfg, v)) && StartsFrom(cfg, branches, t, v, base) && base.cursor.Some?
    requires NextEnd(base.cursor.value.last, TargetOf(cfg, v), batch) == Some(end) && ForwardStep(cfg, base, v, end, u)
    requires end == TargetOf(cfg, v) ==> Covered(u)
    ensures PollsOn(cfg, branches, t, v, batch, base, u)
  {
    var headers, w :| Batch(cfg, base, v, end, headers, w, u);
    assert end == TargetOf(cfg, v) ==> Covered(w);
  }

  lemma NotRecovered(cfg: Config, branches: Hash -> View, t: Tables, v: View, target: nat, batch: nat, u: Tables, base: Tables)
    requires RecoveryExact(cfg, branches, t, v, target, false, u)
    ensures Judged(cfg, branches, t, v, target, batch, base, false)
  {}

  lemma PollJudged(cfg: Config, branches: Hash -> View, t: Tables, v: View, target: nat, batch: nat, base: Tables, ok: bool)
    requires RecoveryExact(cfg, branches, t, v, target, true, base) && (ok <==> Advances(cfg, base, v, target, batch))
    ensures Judged(cfg, branches, t, v, target, batch, base, ok)
  {}

  /** What a run of polls keeps. */
  ghost predicate Ran(before: Tables, after: Tables, outcomes: seq<Outcome>) {
    && JournalKept(before, after) && BindingsKept(before, after)
    && ((forall i :: 0 <= i < |outcomes| ==> outcomes[i].Failed?) ==> after == before)
    && ((forall i :: 0 <= i < |outcomes| ==> NoReorg(outcomes[i])) ==> RowsKept(before.history, after.history))
  }

  lemma RanOn(cfg: Config, branches: Hash -> View, init: Tables, before: Tables, t: Tables, outcomes: seq<Outcome>, outcome: Outcome, after: Tables)
    requires Ran(before, t, outcomes)
    requires if outcome.Failed? then after == t else Moved(cfg, branches, init, t, after, outcome)
    ensures Ran(before, after, outcomes + [outcome])
  {
    var all := outcomes + [outcome];
    assert all[|outcomes|] == outcome;
    assert forall i :: 0 <= i < |outcomes| ==> all[i] == outcomes[i];
    KeptTransitive(before, t, after);
  }

  predicate NoReorg(outcome: Outcome) {
    outcome.Failed? || outcome.reorgAncestor.None?
  }

  /** A call of the interval was answered and showed the cursor's block. */
  ghost predicate SeenAt(node: Node, from: nat, seen: nat, to: nat, c: Cursor) {
    from <= seen < to && !node.fails(seen) && Shows(node.view(seen), c.last, c.hash)
  }

  /** The lowest block a rewind may go back to. */
  function Lowest(cfg: Config, c: Cursor): nat {
    var low: nat := if c.last > cfg.maxReorgDepth then c.last - cfg.maxReorgDepth else 0;
    if low < c.start then c.start else low
  }

  /** Some anchor inside the window is still on v. */
  ghost predicate Reachable(cfg: Config, c: Cursor, anchors: map<nat, Hash>, v: View) {
    exists n :: n in anchors && Lowest(cfg, c) <= n <= c.last && Shows(v, n, anchors[n])
  }

  /** Some call of the interval saw block n with another hash. */
  ghost predicate MismatchSeen(node: Node, from: nat, to: nat, n: nat, hash: Hash) {
    exists t :: from <= t < to && n < |node.view(t)| && !Shows(node.view(t), n, hash)
  }

  /** What a committed poll keeps, and where it left the cursor. */
  ghost predicate Moved(cfg: Config, branches: Hash -> View, init: Tables, before: Tables, after: Tables, outcome: Outcome)
    requires outcome.Committed?
  {
    && after.cursor.Some? && after.cursor.value.start == cfg.startBlock
    && MirrorsTip(cfg, branches, init, after) && Intact(branches, after)
    && JournalKept(before, after) && BindingsKept(before, after)
    && (outcome.indexedBlock.Some? ==> after.cursor.value.last == outcome.indexedBlock.value)
    && (outcome.reorgAncestor.None? ==> RowsKept(before.history, after.history))
    && (before.cursor.Some? && outcome.reorgAncestor.None? ==>
          after.cursor.value.last >= before.cursor.value.last && (outcome.indexedBlock.None? ==> after == before))
  }

  lemma MovedConsistent(cfg: Config, branches: Hash -> View, init: Tables, before: Tables, after: Tables, outcome: Outcome)
    requires outcome.Committed? && Moved(cfg, branches, init, before, after, outcome) && NotStarted(init)
    ensures Consistent(cfg, branches, init, after) && after.cursor.Some?
  {}

  /** Everything a committed poll guarantees. */
  ghost predicate PollDone(cfg: Config, branches: Hash -> View, init: Tables, node: Node, from: nat, to: nat, batch: nat,
                           before: Tables, base: Tables, after: Tables, outcome: Outcome) {
    outcome.Committed? ==>
      && node.view(from) != []
      && base.cursor.Some? && outcome.indexedBlock == NextEnd(base.cursor.value.last, TargetOf(cfg, node.view(from)), batch)
      && Moved(cfg, branches, init, before, after, outcome)
      && Polled(cfg, branches, node, to, before, base, after, outcome)
      && (outcome.indexedBlock == Some(TargetOf(cfg, node.view(from))) ==> Covered(after))
      && (before.cursor.None? ==> cfg.startBlock <= TargetOf(cfg, node.view(from)))
      && WasShown(node, to, after.cursor.value)
  }

  /** The cursor after recovery: opened at the deployment block, as it was, or back at an anchor of the window. */
  ghost predicate RecoveredCursor(cfg: Config, before: Tables, reorg: Option<nat>, cursor: Option<Cursor>) {
    match (before.cursor, reorg)
    case (None, None) => cursor.Some? && cursor.value.start == cursor.value.last == cfg.startBlock
    case (None, Some(a)) => cursor.Some? && cursor.value.start == cursor.value.last == a == cfg.startBlock
    case (Some(c), None) => cursor == Some(c)
    case (Some(c), Some(a)) =>
      && a in before.anchors && c.start <= a <= c.last <= a + cfg.maxReorgDepth
      && cursor == Some(Cursor(c.start, a, before.anchors[a]))
  }

  lemma RecoveryCursor(cfg: Config, branches: Hash -> View, node: Node, to: nat, before: Tables, reorg: Option<nat>, base: Tables)
    requires Recovered(cfg, branches, node, to, before, reorg, base)
    ensures RecoveredCursor(cfg, before, reorg, base.cursor)
  {
    var mid :| StartedAt(cfg, node, to, before, mid) && RewoundIf(cfg, branches, mid, reorg, base);
    StartCursor(cfg, node, to, before, mid);
    if reorg.Some? { RewindCursor(cfg, branches, mid, reorg.value, base); }
  }

  lemma StartCursor(cfg: Config, node: Node, to: nat, t: Tables, mid: Tables)
    requires StartedAt(cfg, node, to, t, mid)
    ensures if t.cursor.Some? then mid == t else mid.cursor.Some? && mid.cursor.value.start == mid.cursor.value.last == cfg.startBlock
  {}

  lemma RewindCursor(cfg: Config, branches: Hash -> View, t: Tables, a: nat, u: Tables)
    requires Rewinds(cfg, branches, t, a, u)
    ensures t.cursor.Some? && a in t.anchors && u.cursor == Some(Cursor(t.cursor.value.start, a, t.anchors[a]))
    ensures u.anchors == map n | n in t.anchors && n <= a :: t.anchors[n]
  {}

  lemma PollCursor(cfg: Config, branches: Hash -> View, init: Tables, node: Node, from: nat, to: nat, batch: nat,
                   before: Tables, base: Tables, after: Tables, outcome: Outcome)
    requires outcome.Committed? && PollDone(cfg, branches, init, node, from, to, batch, before, base, after, outcome)
    ensures RecoveredCursor(cfg, before, outcome.reorgAncestor, base.cursor)
  {
    RecoveryCursor(cfg, branches, node, to, before, outcome.reorgAncestor, base);
  }

  /** How far a committed poll goes: never past the confirmed blocks of the head it read, never further than one batch, and
      otherwise as far as it can. */
  lemma PollBounds(cfg: Config, branches: Hash -> View, init: Tables, node: Node, from: nat, to: nat, batch: nat,
                   before: Tables, base: Tables, after: Tables, outcome: Outcome)
    requires outcome.Committed? && PollDone(cfg, branches, init, node, from, to, batch, before, base, after, outcome) && batch >= 1
    ensures base.cursor.Some? && after.cursor.Some?
    ensures outcome.indexedBlock == if base.cursor.value.last < after.cursor.value.last then Some(after.cursor.value.last) else None
    ensures var head, last, end := |node.view(from)| - 1, base.cursor.value.last, after.cursor.value.last;
      && last <= end <= last + batch
      && (last < end ==> end + cfg.confirmations <= head)
      && (end < last + batch ==> head <= end + cfg.confirmations)
    ensures before.cursor.None? ==> cfg.startBlock == 0 || cfg.startBlock + cfg.confirmations <= |node.view(from)| - 1
  {
    AdvancedEnd(cfg, node, to, base, outcome.indexedBlock, after);
  }

  /** When the database can be brought onto the chain v: with no cursor yet, if the deployment block is confirmed; with one, if it began
      at the deployment block, is not ahead of v, and an anchor at most maxReorgDepth below it is on v. */
  lemma RecoversExactly(cfg: Config, branches: Hash -> View, init: Tables, t: Tables, v: View)
    requires v != [] && (t.cursor.Some? ==> MirrorsTip(cfg, branches, init, t))
    ensures Recovers(cfg, t, v, TargetOf(cfg, v)) <==>
      match t.cursor
      case None => cfg.startBlock == 0 || cfg.startBlock + cfg.confirmations <= |v| - 1
      case Some(c) =>
        && c.start == cfg.startBlock && c.last < |v|
        && exists n :: n in t.anchors && c.start <= n <= c.last && c.last <= n + cfg.maxReorgDepth
                       && v[n].hash == t.anchors[n]
  {
    if t.cursor.Some? { TipAnchored(cfg, branches, init, t); }
  }

  lemma TipAnchored(cfg: Config, branches: Hash -> View, init: Tables, t: Tables)
    requires t.cursor.Some? && MirrorsTip(cfg, branches, init, t)
    ensures var c := t.cursor.value; c.start <= c.last && c.last in t.anchors && t.anchors[c.last] == c.hash
  {
    TipMirrors(cfg, branches, init, t);
    assert Shows(ChainOf(branches, t), t.cursor.value.last, t.anchors[t.cursor.value.last]);
  }

  lemma HeadTarget(cfg: Config, v: View, target: nat)
    requires v != [] && target == if |v| - 1 > cfg.confirmations then |v| - 1 - cfg.confirmations else 0
    ensures target == TargetOf(cfg, v)
  {}

  /** What a committed attempt with a given target has done. */
  ghost predicate Attempted(cfg: Config, branches: Hash -> View, init: Tables, node: Node, to: nat, batch: nat, target: nat, when: nat,
                            before: Tables, base: Tables, after: Tables, outcome: Outcome) {
    outcome.Committed? ==>
      && Moved(cfg, branches, init, before, after, outcome) && Polled(cfg, branches, node, to, before, base, after, outcome)
      && (outcome.indexedBlock == Some(target) ==> Covered(after))
      && base.cursor.Some? && outcome.indexedBlock == NextEnd(base.cursor.value.last, target, batch)
      && when < to && Shows(node.view(when), after.cursor.value.last, after.cursor.value.hash)
      && (before.cursor.None? ==> cfg.startBlock <= target)
  }

  /** With the target of the head that was read this is what a committed poll guarantees. */
  lemma PollIsDone(cfg: Config, branches: Hash -> View, init: Tables, node: Node, from: nat, to: nat, batch: nat, target: nat, when: nat,
                   before: Tables, base: Tables, after: Tables, outcome: Outcome)
    requires node.view(from) != [] && target == TargetOf(cfg, node.view(from))
    requires Attempted(cfg, branches, init, node, to, batch, target, when, before, base, after, outcome)
    ensures PollDone(cfg, branches, init, node, from, to, batch, before, base, after, outcome)
  {}

  ghost predicate WasShown(node: Node, before: nat, c: Cursor) {
    exists when: nat :: when < before && Shows(node.view(when), c.last, c.hash)
  }

  ghost predicate StableFor(node: Node, from: nat, to: nat) {
    forall t :: from <= t < to ==> node.view(t) == node.view(from)
  }

  ghost predicate OnNode(v: View, e: Event) {
    Shows(v, e.number, e.blockHash)
  }

  /** If the node showed one chain throughout, the orphaned rows are exactly those whose block is not on it. */
  ghost predicate OrphansExactly(journal: map<Occurrence, JournalRow>, node: Node, from: nat, to: nat, ancestor: nat) {
    StableFor(node, from, to) ==>
      forall o :: o in journal && journal[o].canonical ==>
        (Orphaned(journal[o], ancestor) <==> !OnNode(node.view(from), journal[o].event))
  }

  lemma StableExact(cfg: Config, branches: Hash -> View, init: Tables, t: Tables, node: Node, from: nat, to: nat, a: nat, when: nat)
    requires t.cursor.Some? && MirrorsTip(cfg, branches, init, t) && node.Honest(branches)
    requires a in t.anchors && from <= when < to && Shows(node.view(when), a, t.anchors[a])
    requires forall n :: n in t.anchors && a < n <= t.cursor.value.last ==> MismatchSeen(node, from, to, n, t.anchors[n])
    ensures OrphansExactly(t.journal, node, from, to, a)
  {
    if StableFor(node, from, to) {
      RewindExact(cfg, branches, init, t, node.view(from), a);
    }
  }

  /** The highest matching anchor separates exactly: a canonical row lies above it if and only if its block left the chain. */
  lemma RewindExact(cfg: Config, branches: Hash -> View, init: Tables, t: Tables, v: View, a: nat)
    requires t.cursor.Some? && MirrorsTip(cfg, branches, init, t) && Genuine(branches, v)
    requires a in t.anchors && Shows(v, a, t.anchors[a])
    requires forall n :: n in t.anchors && a < n <= t.cursor.value.last ==> !Shows(v, n, t.anchors[n])
    ensures forall o :: o in t.journal && t.journal[o].canonical ==>
      (Orphaned(t.journal[o], a) <==> !OnNode(v, t.journal[o].event))
  {
    var c := t.cursor.value;
    var chain := branches(c.hash);
    assert Mirrors(cfg, branches, init, t, chain);
    SharedHashSharedPrefix(branches, chain, v, a, t.anchors[a]);
    forall o | o in t.journal && t.journal[o].canonical
      ensures Orphaned(t.journal[o], a) <==> !OnNode(v, t.journal[o].event)
    {
      var e := t.journal[o].event;
      EventsInExact(chain, c.start, c.last, e);
      assert e in EventsIn(chain, c.start, c.last);
      if e.number <= a {
        assert v[e.number] == v[..a + 1][e.number] == chain[..a + 1][e.number] == chain[e.number];
      }
    }
  }

  /** What a poll reports. A failed poll is any exception: the transaction is rolled back. */
  datatype Outcome = Failed | Committed(reorgAncestor: Option<nat>, indexedBlock: Option<nat>)

  lemma PollMoved(cfg: Config, branches: Hash -> View, init: Tables, node: Node, mid: nat, to: nat, before: Tables, base: Tables, after: Tables,
                  reorg: Option<nat>, indexed: Option<nat>)
    requires Opened(cfg, branches, init, node, mid, before, reorg, base) && mid <= to
    requires Grown(cfg, branches, init, base, after) && RowsKept(base.history, after.history)
    requires AdvancedIf(cfg, node, to, base, indexed, after)
    ensures Moved(cfg, branches, init, before, after, Committed(reorg, indexed))
    ensures Polled(cfg, branches, node, to, before, base, after, Committed(reorg, indexed))
  {
    OpenedFacts(cfg, branches, init, node, mid, before, reorg, base);
    GrownFacts(cfg, branches, init, base, after);
    KeptTransitive(before, base, after);
    RecoveredLater(cfg, branches, node, mid, to, before, reorg, base);
    AdvancedEnd(cfg, node, to, base, indexed, after);
  }

  lemma AdvancedGrown(cfg: Config, branches: Hash -> View, init: Tables, node: Node, to: nat, base: Tables, indexed: Option<nat>, after: Tables)
    requires MirrorsTip(cfg, branches, init, base) && CanonicalKeys(cfg, branches) && node.Honest(branches)
    requires AdvancedIf(cfg, node, to, base, indexed, after)
    ensures Grown(cfg, branches, init, base, after) && RowsKept(base.history, after.history)
  {
    match indexed {
      case None =>
        GrownSame(cfg, branches, init, base);
      case Some(end) =>
        var when: nat :| when < to && ForwardStep(cfg, base, node.view(when), end, after);
        assert Genuine(branches, node.view(when));
        ForwardGrown(cfg, branches, init, base, node.view(when), end, after);
    }
  }

  lemma AdvancedEnd(cfg: Config, node: Node, to: nat, base: Tables, indexed: Option<nat>, after: Tables)
    requires AdvancedIf(cfg, node, to, base, indexed, after) && base.cursor.Some?
    ensures match indexed
      case None => after == base
      case Some(end) => after.cursor.Some? && after.cursor.value.last == end > base.cursor.value.last
  {}

  lemma RecoveredLater(cfg: Config, branches: Hash -> View, node: Node, mid: nat, to: nat, t: Tables, reorg: Option<nat>, base: Tables)
    requires Recovered(cfg, branches, node, mid, t, reorg, base) && mid <= to
    ensures Recovered(cfg, branches, node, to, t, reorg, base)
  {
    var m :| StartedAt(cfg, node, mid, t, m) && RewoundIf(cfg, branches, m, reorg, base);
    assert StartedAt(cfg, node, to, t, m);
  }

  lemma NotOpened(cfg: Config, branches: Hash -> View, committed: Tables, v: View, target: nat, u: Tables)
    requires OpenedExactly(cfg, committed, v, target, false, u)
    ensures RecoveryExact(cfg, branches, committed, v, target, false, u)
  {}

  /** Once the cursor is open, recovery is judged by realigning it; a cursor just opened on v is aligned with it. */
  lemma RecoveryJudged(cfg: Config, branches: Hash -> View, committed: Tables, t: Tables, v: View, target: nat, ok: bool, u: Tables)
    requires OpenedExactly(cfg, committed, v, target, true, t) && t.cursor.Some? && (committed.cursor.Some? ==> t == committed)
    requires target < |v| && AlignedExactly(cfg, branches, t, v, ok, u)
    ensures RecoveryExact(cfg, branches, committed, v, target, ok, u)
  {
    assert Alignable(cfg, t, v) <==> ok;
    if ok { AlignedShown(cfg, branches, t, v, u); }
  }

  /** Opening the cursor, then realigning it. */
  lemma RecoveryDone(cfg: Config, branches: Hash -> View, init: Tables, node: Node, at: nat, to: nat, committed: Tables, t: Tables, u: Tables,
                     reorg: Option<nat>, v: View, target: nat, calm: bool, ok: bool)
    requires CursorOpen(cfg, branches, init, node, at, committed, t) && at <= to
    requires ok ==> u.cursor.Some? && Grown(cfg, branches, init, t, u) && RewoundIf(cfg, branches, t, reorg, u)
    requires calm ==> OpenedExactly(cfg, committed, v, target, true, t) && AlignedExactly(cfg, branches, t, v, ok, u) && target < |v|
    ensures ok ==> Opened(cfg, branches, init, node, to, committed, reorg, u)
    ensures calm ==> RecoveryExact(cfg, branches, committed, v, target, ok, u)
  {
    CursorOpenFacts(cfg, branches, init, node, at, committed, t);
    if ok { RecoveredFrom(cfg, branches, init, node, at, to, committed, t, reorg, u); }
    if calm { RecoveryJudged(cfg, branches, committed, t, v, target, ok, u); }
  }

  /** The database after recovery, from the one the cursor was opened on. */
  lemma RecoveredFrom(cfg: Config, branches: Hash -> View, init: Tables, node: Node, at: nat, to: nat, committed: Tables, t: Tables,
                      reorg: Option<nat>, u: Tables)
    requires Grown(cfg, branches, init, t, u) && t.cursor.Some? && t.cursor.value.start == cfg.startBlock && u.cursor.Some? && at <= to
    requires Intact(branches, t) && StartedAt(cfg, node, at, committed, t) && RewoundIf(cfg, branches, t, reorg, u)
    ensures Opened(cfg, branches, init, node, to, committed, reorg, u)
  {
    GrownFacts(cfg, branches, init, t, u);
    StartedKeeps(cfg, node, at, committed, t);
    KeptTransitive(committed, t, u);
    assert StartedAt(cfg, node, to, committed, t);
    assert Recovered(cfg, branches, node, to, committed, reorg, u);
  }

  lemma StartedKeeps(cfg: Config, node: Node, at: nat, t: Tables, mid: Tables)
    requires StartedAt(cfg, node, at, t, mid)
    ensures mid == t.(cursor := mid.cursor, anchors := mid.anchors) && (t.cursor.Some? ==> mid == t)
    ensures JournalKept(t, mid) && BindingsKept(t, mid)
  {}

  lemma OrphanKept(t: Tables, u: Tables, n: nat)
    requires u.journal == Orphan(t.journal, n)
    ensures JournalKept(t, u)
  {}

  lemma BatchFrame(cfg: Config, t: Tables, events: seq<Event>, w: Tables)
    requires JournalAll(cfg, t, events) == Ok(w)
    ensures w.anchors == t.anchors && w.cursor == t.cursor
  {
    JournalFrame(cfg, t, events);
  }

  lemma CoveredFrame(t: Tables, u: Tables)
    requires u == t.(cursor := u.cursor, anchors := u.anchors)
    ensures Covered(t) <==> Covered(u)
  {
    assert BoundIds(t) == BoundIds(u);
  }

  /** Four answered calls of one batch: one that showed the cursor's block, the opening read of the end, and the two closing reads. */
  ghost predicate ReadsAgree(node: Node, seen: nat, first: nat, closed: nat, c: Cursor, end: nat, endHash: Hash) {
    && seen <= first <= closed
    && !node.fails(seen) && !node.fails(first) && !node.fails(closed) && !node.fails(closed + 1)
    && Shows(node.view(first), end, endHash) && Shows(node.view(closed), end, endHash)
    && Shows(node.view(seen), c.last, c.hash) && Shows(node.view(closed + 1), c.last, c.hash)
  }

  /** Equal header reads before and after, and a node that does not leave those two blocks and return, mean one chain in between. */
  lemma OneChain(branches: Hash -> View, node: Node, start: nat, seen: nat, first: nat, closed: nat, c: Cursor, end: nat, endHash: Hash)
    requires node.Honest(branches) && start <= seen
    requires node.KeepsBlock(start, c.last) && node.KeepsBlock(start, end)
    requires ReadsAgree(node, seen, first, closed, c, end, endHash)
    ensures Shows(node.view(first), c.last, c.hash)
    ensures Steady(node, node.view(first), first + 1, closed, end)
  {
    Held(node, start, seen, first, closed + 1, c.last, c.hash);
    ViewWellFormed(branches, node, first);
    forall t | first <= t <= closed ensures AgreeUpTo(node.view(t), node.view(first), end) {
      Held(node, start, first, t, closed, end, endHash);
      SharedHashSharedPrefix(branches, node.view(t), node.view(first), end, endHash);
    }
  }

  lemma BatchHeld(branches: Hash -> View, node: Node, start: nat, seen: nat, first: nat, closed: nat, c: Cursor, target: nat,
                  cfg: Config, t: Tables, end: nat, endHash: Hash, headers: map<nat, Hash>, u: Tables)
    requires node.Honest(branches) && node.NoReturn(start, target) && start <= seen && c.last <= end <= target
    requires ReadsAgree(node, seen, first, closed, c, end, endHash)
    requires TakenIfSteady(node, first + 1, closed, cfg, t, node.view(first), c.last, end, endHash, headers, u)
    ensures Shows(node.view(first), c.last, c.hash)
    ensures BatchTaken(cfg, t, node.view(first), c.last, end, endHash, headers, u)
  {
    OneChain(branches, node, start, seen, first, closed, c, end, endHash);
  }

  lemma {:induction false} JournalFrame(cfg: Config, t: Tables, events: seq<Event>)
    requires JournalAll(cfg, t, events).Ok?
    ensures var u := JournalAll(cfg, t, events).value;
      u.anchors == t.anchors && u.cursor == t.cursor
  {
    if events != [] {
      JournalFrame(cfg, t, events[..|events| - 1]);
    }
  }

  /** Journaling the events one after the other leads from t to u. */
  ghost predicate JournalsTo(cfg: Config, t: Tables, events: seq<Event>, u: Tables) {
    forall w {:trigger JournalAll(cfg, t, w)} :: w == events ==> JournalAll(cfg, t, w) == Ok(u)
  }

  lemma JournalsNext(cfg: Config, t: Tables, events: seq<Event>, i: nat, w: Tables)
    requires i < |events| && JournalsTo(cfg, t, events[..i], w)
    ensures Journal(cfg, w, events[i]).Ok? ==> JournalsTo(cfg, t, events[..i + 1], Journal(cfg, w, events[i]).value)
    ensures Journal(cfg, w, events[i]).Err? ==> JournalAll(cfg, t, events).Err?
  {
    assert JournalAll(cfg, t, events[..i]) == Ok(w);
    assert events[..i + 1][..i] == events[..i];
    if Journal(cfg, w, events[i]).Err? { JournalAllStuck(cfg, t, events, i + 1); }
  }

  lemma JournalsDone(cfg: Config, t: Tables, events: seq<Event>, i: nat, u: Tables)
    requires i == |events| && JournalsTo(cfg, t, events[..i], u)
    ensures JournalAll(cfg, t, events) == Ok(u)
  {
    assert events[..i] == events;
    assert JournalAll(cfg, t, events[..i]) == Ok(u);
  }

  /** A prefix that does not project stops the whole list. */
  lemma {:induction false} ProjectAllStuck(cfg: Config, t: Tables, rows: seq<Event>, i: nat)
    requires i <= |rows| && ProjectAll(cfg, t, rows[..i]).Err?
    ensures ProjectAll(cfg, t, rows).Err?
    decreases |rows| - i
  {
    if i < |rows| {
      ProjectAllPast(cfg, t, rows, i);
      ProjectAllStuck(cfg, t, rows, i + 1);
    } else {
      assert rows[..i] == rows;
    }
  }

  /** An event that cannot be journaled stops the whole batch. */
  lemma {:induction false} JournalAllStuck(cfg: Config, t: Tables, events: seq<Event>, i: nat)
    requires i <= |events| && JournalAll(cfg, t, events[..i]).Err?
    ensures JournalAll(cfg, t, events).Err?
    decreases |events| - i
  {
    if i < |events| {
      JournalAllPast(cfg, t, events, i);
      JournalAllStuck(cfg, t, events, i + 1);
    } else {
      assert events[..i] == events;
    }
  }

  lemma JournalAllPast(cfg: Config, t: Tables, events: seq<Event>, i: nat)
    requires i < |events| && JournalAll(cfg, t, events[..i]).Err?
    ensures JournalAll(cfg, t, events[..i + 1]).Err?
  {
    assert events[..i + 1][..i] == events[..i];
  }

  lemma ProjectAllPast(cfg: Config, t: Tables, rows: seq<Event>, i: nat)
    requires i < |rows| && ProjectAll(cfg, t, rows[..i]).Err?
    ensures ProjectAll(cfg, t, rows[..i + 1]).Err?
  {
    assert rows[..i + 1][..i] == rows[..i];
  }

  lemma ProjectAllSnoc(cfg: Config, t: Tables, rows: seq<Event>, i: nat)
    requires i < |rows| && ProjectAll(cfg, t, rows[..i]).Ok?
    ensures ProjectAll(cfg, t, rows[..i + 1]) == Project(cfg, ProjectAll(cfg, t, rows[..i]).value, rows[i])
  {
    assert rows[..i + 1][..i] == rows[..i];
  }
}
