/** When a batch is taken: exactly when the starting database and the rows present let every event of it in. */
module IndexerAcceptance {
  import opened Prelude
  import opened Chains
  import opened Projection
  import opened IndexerSpec
  import opened IndexerLaws
  import opened IndexerSync
  import opened IndexerInvariant
  import opened IndexerSteps

  /** The row that serves a key whenever the key is bound: its one claimant in the starting database, or a new row. */
  function Owner(cfg: Config, init: Tables, k: Key): string {
    var found := Claimants(cfg, init.products, k);
    if |found| == 1 then TheOnly(found) else k
  }

  /** A row of the start may be adopted by the registration e: it is free, without untagged history, and neither its identity
      nor a registration it claims contradicts e. */
  ghost predicate Adoptable(cfg: Config, init: Tables, e: Event, id: string) {
    && id in init.products && id !in init.foreignBound
    && (forall r :: r in init.untagged ==> r.productId != id)
    && (init.products[id].identity == UNASSIGNED || Some(init.products[id].identity) == ScopeIdentity(cfg, e.log.product))
    && (init.products[id].fields.blockNumber == 0
        || (init.products[id].fields.blockNumber == e.number && Lower(init.products[id].fields.tx) == e.log.tx))
  }

  /** The starting database lets e be the first event of its product: it is a registration, and the one row that claims its
      key may be adopted, or no row claims the key and none is named by it. */
  ghost predicate OpenTo(cfg: Config, init: Tables, e: Event) {
    var k := e.log.product;
    var found := Claimants(cfg, init.products, k);
    && cfg.canonical(k) == Some(k) && e.log.payload.ProductRegistered?
    && ((|found| == 0 && k !in init.products) || (|found| == 1 && Adoptable(cfg, init, e, Owner(cfg, init, k))))
  }

  lemma OwnerOf(cfg: Config, init: Tables, k: Key, id: string, baseline: Fields)
    requires Dictated(cfg, init, k, id, baseline)
    ensures id == Owner(cfg, init, k)
  {
    var found := Claimants(cfg, init.products, k);
    if id in init.products { assert |{id}| == 1; }
  }

  lemma BoundToOwner(cfg: Config, init: Tables, t: Tables, k: Key)
    requires Linked(cfg, init, t) && k in t.bindings
    ensures t.bindings[k].productId == Owner(cfg, init, k)
  {
    assert ProperlyBound(cfg, init, t, k);
    OwnerOf(cfg, init, k, t.bindings[k].productId, t.bindings[k].baseline);
  }

  /** A row that an open registration would adopt, or the name it would take, serves no other key. */
  lemma OwnerFree(cfg: Config, init: Tables, t: Tables, e: Event)
    requires Linked(cfg, init, t) && e.log.product !in t.bindings && OpenTo(cfg, init, e)
    ensures Owner(cfg, init, e.log.product) !in BoundIds(t)
  {
    var k, id := e.log.product, Owner(cfg, init, e.log.product);
    forall m | m in t.bindings ensures t.bindings[m].productId != id {
      assert ProperlyBound(cfg, init, t, m);
    }
  }

  lemma UnboundRow(cfg: Config, init: Tables, t: Tables, id: string)
    requires Linked(cfg, init, t) && id !in BoundIds(t)
    ensures if id in init.products then id in t.products && t.products[id] == init.products[id] else id !in t.products
  {}

  lemma OpenBinds(cfg: Config, init: Tables, t: Tables, e: Event)
    requires Linked(cfg, init, t) && e.log.product !in t.bindings && OpenTo(cfg, init, e)
    ensures FirstBinding(cfg, t, e).Ok?
  {
    var k, id := e.log.product, Owner(cfg, init, e.log.product);
    OwnerFree(cfg, init, t, e);
    UnboundRow(cfg, init, t, id);
    ClaimantsStable(cfg, init, t, k);
    var found := Claimants(cfg, t.products, k);
    if |found| == 1 {
      assert TheOnly(found) == id;
    }
  }

  lemma BoundOpens(cfg: Config, init: Tables, t: Tables, e: Event)
    requires Linked(cfg, init, t) && e.log.product !in t.bindings && cfg.canonical(e.log.product) in {None, Some(e.log.product)}
    requires FirstBinding(cfg, t, e).Ok?
    ensures OpenTo(cfg, init, e)
  {
    var k := e.log.product;
    FirstBindingDictated(cfg, init, t, e);
    ClaimantsStable(cfg, init, t, k);
    var f := FirstBinding(cfg, t, e).value;
    OwnerOf(cfg, init, k, f.id, f.baseline);
    UnboundRow(cfg, init, t, f.id);
  }

  /** Whether a registration may bind its product is decided by the starting database, whatever has been indexed since. */
  lemma FirstBindingExactly(cfg: Config, init: Tables, t: Tables, e: Event)
    requires Linked(cfg, init, t) && e.log.product !in t.bindings && cfg.canonical(e.log.product) in {None, Some(e.log.product)}
    ensures FirstBinding(cfg, t, e).Ok? <==> OpenTo(cfg, init, e)
  {
    if FirstBinding(cfg, t, e).Ok? { BoundOpens(cfg, init, t, e); }
    if OpenTo(cfg, init, e) { OpenBinds(cfg, init, t, e); }
  }

  /** A row in the event's slot is the row the event projects to. */
  predicate RowAgrees(history: map<Slot, HistoryRow>, owner: string, e: Event) {
    TableOf(e).Some? && SlotOf(e) in history ==> SameRow(history[SlotOf(e)], RowOf(owner, e))
  }

  lemma RecordedExactly(history: map<Slot, HistoryRow>, owner: string, e: Event)
    ensures Recorded(history, owner, e).Ok? <==> RowAgrees(history, owner, e)
  {}

  lemma BoundProjects(cfg: Config, init: Tables, t: Tables, e: Event)
    requires Linked(cfg, init, t) && e.log.product in t.bindings
    ensures Project(cfg, t, e).Ok? <==> RowAgrees(t.history, Owner(cfg, init, e.log.product), e)
  {
    BoundToOwner(cfg, init, t, e.log.product);
    assert ProperlyBound(cfg, init, t, e.log.product);
    RecordedExactly(t.history, Owner(cfg, init, e.log.product), e);
  }

  lemma UnboundProjects(cfg: Config, init: Tables, t: Tables, e: Event)
    requires Linked(cfg, init, t) && e.log.product !in t.bindings && cfg.canonical(e.log.product) in {None, Some(e.log.product)}
    ensures Project(cfg, t, e).Ok? <==> OpenTo(cfg, init, e)
  {
    FirstBindingExactly(cfg, init, t, e);
  }

  /** An event is projected exactly when its product is bound or the start is open to it, and its row agrees with what is there. */
  lemma ProjectExactly(cfg: Config, init: Tables, t: Tables, e: Event)
    requires Linked(cfg, init, t) && cfg.canonical(e.log.product) in {None, Some(e.log.product)}
    ensures Project(cfg, t, e).Ok? <==>
      (e.log.product in t.bindings || OpenTo(cfg, init, e)) && RowAgrees(t.history, Owner(cfg, init, e.log.product), e)
  {
    if e.log.product in t.bindings {
      BoundProjects(cfg, init, t, e);
    } else {
      UnboundProjects(cfg, init, t, e);
    }
  }

  predicate Emitted(cfg: Config, e: Event) {
    ExpectedEmitter(cfg, e.log) && !e.log.removed
  }

  lemma JournalExactly(cfg: Config, history: Hash -> View, init: Tables, t: Tables, es: seq<Event>, e: Event)
    requires Synced(cfg, history, init, t, es) && CanonicalKeys(cfg, history) && Seen(history, e) && e !in es
    ensures Journal(cfg, t, e).Ok? <==>
      Emitted(cfg, e) && (e.log.product in t.bindings || OpenTo(cfg, init, e)) && RowAgrees(t.history, Owner(cfg, init, e.log.product), e)
  {
    StoredIsEvent(history, t, es, e);
    var j := t.(journal := t.journal[OccurrenceOf(e) := JournalRow(e, true)]);
    JournalUnlinked(cfg, init, t, j);
    ProjectExactly(cfg, init, j, e);
  }

  lemma JournalUnlinked(cfg: Config, init: Tables, t: Tables, j: Tables)
    requires Linked(cfg, init, t) && j == t.(journal := j.journal)
    ensures Linked(cfg, init, j)
  {
    assert BoundIds(j) == BoundIds(t);
    forall k | k in j.bindings ensures ProperlyBound(cfg, init, j, k) { assert ProperlyBound(cfg, init, t, k); }
  }

  lemma JournalKeys(cfg: Config, history: Hash -> View, init: Tables, t: Tables, es: seq<Event>, e: Event, u: Tables)
    requires Synced(cfg, history, init, t, es) && CanonicalKeys(cfg, history) && Seen(history, e) && e !in es
    requires Journal(cfg, t, e) == Ok(u)
    ensures u.bindings.Keys == t.bindings.Keys + {e.log.product}
  {
    var j := JournalParts(cfg, history, t, es, e, u);
    JournalIrrelevant(cfg, init, t, Shares(t.bindings.Keys, es), j);
    ProjectExtends(cfg, init, j, Shares(t.bindings.Keys, es), e, u);
  }

  // ---- a batch ----

  /** The i-th event of a batch is let in: the right contract emitted it, its product is bound, registers with it or had an
      earlier event in the batch, and its row agrees with what is there. */
  ghost predicate Fitting(cfg: Config, init: Tables, t: Tables, batch: seq<Event>, i: nat)
    requires i < |batch|
  {
    var e := batch[i];
    && Emitted(cfg, e) && RowAgrees(t.history, Owner(cfg, init, e.log.product), e)
    && (e.log.product in t.bindings || OpenTo(cfg, init, e) || exists j :: 0 <= j < i && batch[j].log.product == e.log.product)
  }

  ghost predicate Fits(cfg: Config, init: Tables, t: Tables, batch: seq<Event>) {
    forall i :: 0 <= i < |batch| ==> Fitting(cfg, init, t, batch, i)
  }

  function Products(batch: seq<Event>): set<Key> {
    set e | e in batch :: e.log.product
  }

  lemma LastIsLast(batch: seq<Event>)
    requires batch != []
    ensures batch[..|batch| - 1] + [batch[|batch| - 1]] == batch && batch[|batch| - 1] in batch
    ensures forall x :: x in batch[..|batch| - 1] ==> x in batch
  {}

  lemma ProductsOfLast(batch: seq<Event>)
    requires batch != []
    ensures Products(batch) == Products(batch[..|batch| - 1]) + {batch[|batch| - 1].log.product}
  {
    LastIsLast(batch);
  }

  lemma FitsInit(cfg: Config, init: Tables, t: Tables, batch: seq<Event>)
    requires batch != []
    ensures Fits(cfg, init, t, batch) <==> Fits(cfg, init, t, batch[..|batch| - 1]) && Fitting(cfg, init, t, batch, |batch| - 1)
  {
    var n := |batch| - 1;
    forall i: nat | i < n ensures Fitting(cfg, init, t, batch[..n], i) <==> Fitting(cfg, init, t, batch, i) {
      assert forall j :: 0 <= j < i ==> batch[..n][j] == batch[j];
    }
  }

  lemma InProducts(batch: seq<Event>, k: Key)
    requires batch != []
    ensures k in Products(batch[..|batch| - 1]) <==> exists j :: 0 <= j < |batch| - 1 && batch[j].log.product == k
  {
    var n := |batch| - 1;
    if j :| 0 <= j < n && batch[j].log.product == k { assert batch[..n][j] in batch[..n]; }
  }

  /** The slot of an event with a new id is as it was before the batch. */
  lemma SameSlot(before: map<Slot, HistoryRow>, early: seq<Event>, after: map<Slot, HistoryRow>, owner: string, e: Event)
    requires RowsKept(before, after) && Adds(before, early, after) && forall x :: x in early ==> IdOf(x) != IdOf(e)
    ensures RowAgrees(after, owner, e) <==> RowAgrees(before, owner, e)
  {
    if TableOf(e).Some? { assert !SlotIn(early, SlotOf(e)); }
  }

  /** The last event of a batch is let in by what the earlier ones left exactly when it fits. */
  lemma LastFits(cfg: Config, init: Tables, t: Tables, batch: seq<Event>, w: Tables)
    requires batch != [] && w.bindings.Keys == t.bindings.Keys + Products(batch[..|batch| - 1])
    requires RowsKept(t.history, w.history) && Adds(t.history, batch[..|batch| - 1], w.history)
    requires forall x :: x in batch[..|batch| - 1] ==> IdOf(x) != IdOf(batch[|batch| - 1])
    ensures var e := batch[|batch| - 1];
      Fitting(cfg, init, t, batch, |batch| - 1) <==>
      Emitted(cfg, e) && (e.log.product in w.bindings || OpenTo(cfg, init, e)) && RowAgrees(w.history, Owner(cfg, init, e.log.product), e)
  {
    var e := batch[|batch| - 1];
    InProducts(batch, e.log.product);
    SameSlot(t.history, batch[..|batch| - 1], w.history, Owner(cfg, init, e.log.product), e);
  }

  /** New events of the chain with new ids. */
  ghost predicate FreshBatch(history: Hash -> View, es: seq<Event>, batch: seq<Event>) {
    Strict(batch) && DistinctIds(es + batch) && forall e :: e in batch ==> Seen(history, e) && e !in es
  }

  lemma FreshInit(history: Hash -> View, es: seq<Event>, batch: seq<Event>)
    requires batch != [] && FreshBatch(history, es, batch)
    ensures FreshBatch(history, es, batch[..|batch| - 1])
    ensures batch[|batch| - 1] !in es + batch[..|batch| - 1] && Seen(history, batch[|batch| - 1])
    ensures forall x :: x in batch[..|batch| - 1] ==> IdOf(x) != IdOf(batch[|batch| - 1])
  {
    LastIsNew(batch);
    LastIsLast(batch);
    DistinctFrom(es, batch);
    forall x | x in batch[..|batch| - 1] ensures IdOf(x) != IdOf(batch[|batch| - 1]) { assert x in es + batch[..|batch| - 1]; }
  }

  /** A batch of new events is journaled to the end exactly when each of them is let in, and then binds exactly its products. */
  lemma {:induction false} BatchExactly(cfg: Config, history: Hash -> View, init: Tables, t: Tables, es: seq<Event>, batch: seq<Event>)
    requires Synced(cfg, history, init, t, es) && CanonicalKeys(cfg, history) && FreshBatch(history, es, batch)
    ensures JournalAll(cfg, t, batch).Ok? <==> Fits(cfg, init, t, batch)
    ensures JournalAll(cfg, t, batch).Ok? ==> JournalAll(cfg, t, batch).value.bindings.Keys == t.bindings.Keys + Products(batch)
    decreases |batch|
  {
    if batch != [] {
      FreshInit(history, es, batch);
      FitsInit(cfg, init, t, batch);
      BatchExactly(cfg, history, init, t, es, batch[..|batch| - 1]);
      if JournalAll(cfg, t, batch[..|batch| - 1]).Ok? {
        NextExactly(cfg, history, init, t, es, batch, JournalAll(cfg, t, batch[..|batch| - 1]).value);
      }
    }
  }

  lemma JournalAllLast(cfg: Config, t: Tables, batch: seq<Event>, w: Tables)
    requires batch != [] && JournalAll(cfg, t, batch[..|batch| - 1]) == Ok(w)
    ensures JournalAll(cfg, t, batch) == Journal(cfg, w, batch[|batch| - 1])
  {}

  lemma AfterEarlier(cfg: Config, history: Hash -> View, init: Tables, t: Tables, es: seq<Event>, batch: seq<Event>, early: seq<Event>, w: Tables)
    requires batch != [] && early == batch[..|batch| - 1] && FreshBatch(history, es, batch)
    requires Synced(cfg, history, init, t, es) && CanonicalKeys(cfg, history) && JournalAll(cfg, t, early) == Ok(w)
    ensures Synced(cfg, history, init, w, es + early) && RowsKept(t.history, w.history) && Adds(t.history, early, w.history)
  {
    FreshInit(history, es, batch);
    JournalAllSynced(cfg, history, init, t, es, early, w);
    JournalAllKeepsRows(cfg, t, early, w);
    JournalAllAdds(cfg, history, init, t, es, early, w);
  }

  lemma LastJudged(cfg: Config, history: Hash -> View, init: Tables, t: Tables, es: seq<Event>, batch: seq<Event>, w: Tables, e: Event)
    requires batch != [] && e == batch[|batch| - 1] && CanonicalKeys(cfg, history)
    requires Synced(cfg, history, init, w, es + batch[..|batch| - 1]) && FreshBatch(history, es, batch)
    requires RowsKept(t.history, w.history) && Adds(t.history, batch[..|batch| - 1], w.history)
    requires w.bindings.Keys == t.bindings.Keys + Products(batch[..|batch| - 1])
    ensures Journal(cfg, w, e).Ok? <==> Fitting(cfg, init, t, batch, |batch| - 1)
    ensures Journal(cfg, w, e).Ok? ==> Journal(cfg, w, e).value.bindings.Keys == w.bindings.Keys + {e.log.product}
  {
    FreshInit(history, es, batch);
    LastFits(cfg, init, t, batch, w);
    JournalExactly(cfg, history, init, w, es + batch[..|batch| - 1], e);
    if Journal(cfg, w, e).Ok? { JournalKeys(cfg, history, init, w, es + batch[..|batch| - 1], e, Journal(cfg, w, e).value); }
  }

  lemma NextJudged(cfg: Config, history: Hash -> View, init: Tables, t: Tables, es: seq<Event>, batch: seq<Event>, early: seq<Event>, w: Tables, e: Event)
    requires batch != [] && early == batch[..|batch| - 1] && e == batch[|batch| - 1] && FreshBatch(history, es, batch)
    requires Synced(cfg, history, init, t, es) && CanonicalKeys(cfg, history)
    requires JournalAll(cfg, t, early) == Ok(w) && w.bindings.Keys == t.bindings.Keys + Products(early)
    ensures Journal(cfg, w, e).Ok? <==> Fitting(cfg, init, t, batch, |batch| - 1)
    ensures Journal(cfg, w, e).Ok? ==> Journal(cfg, w, e).value.bindings.Keys == w.bindings.Keys + {e.log.product}
  {
    AfterEarlier(cfg, history, init, t, es, batch, early, w);
    LastJudged(cfg, history, init, t, es, batch, w, e);
  }

  lemma NextExactly(cfg: Config, history: Hash -> View, init: Tables, t: Tables, es: seq<Event>, batch: seq<Event>, w: Tables)
    requires batch != [] && Synced(cfg, history, init, t, es) && CanonicalKeys(cfg, history) && FreshBatch(history, es, batch)
    requires JournalAll(cfg, t, batch[..|batch| - 1]) == Ok(w) && w.bindings.Keys == t.bindings.Keys + Products(batch[..|batch| - 1])
    ensures JournalAll(cfg, t, batch).Ok? <==> Fitting(cfg, init, t, batch, |batch| - 1)
    ensures JournalAll(cfg, t, batch).Ok? ==> JournalAll(cfg, t, batch).value.bindings.Keys == t.bindings.Keys + Products(batch)
  {
    NextJudged(cfg, history, init, t, es, batch, batch[..|batch| - 1], w, batch[|batch| - 1]);
    JournalAllLast(cfg, t, batch, w);
    ProductsOfLast(batch);
  }

  lemma DistinctFrom(es: seq<Event>, batch: seq<Event>)
    requires batch != [] && DistinctIds(es + batch)
    ensures DistinctIds(es + batch[..|batch| - 1])
    ensures forall x :: x in es + batch[..|batch| - 1] ==> IdOf(x) != IdOf(batch[|batch| - 1])
  {
    var all, n := es + batch, |es| + |batch| - 1;
    assert es + batch[..|batch| - 1] == all[..n] && batch[|batch| - 1] == all[n];
    forall x | x in all[..n] ensures IdOf(x) != IdOf(all[n]) {
      var i :| 0 <= i < n && all[i] == x;
    }
  }

  /** The headers of a batch, as its chain has them. */
  lemma ChainHeaders(v: View, low: nat, end: nat) returns (headers: map<nat, Hash>)
    requires end < |v|
    ensures HeadersOf(headers, EventsIn(v, low, end), end, v[end].hash)
  {
    var events := EventsIn(v, low, end);
    forall e | e in events ensures e.number < |v| && v[e.number].hash == e.blockHash {
      EventsInExact(v, low, end, e);
    }
    headers := map n | n in {end} + (set e | e in events :: e.number) :: v[n].hash;
  }

  /** The next blocks of a chain that extends the mirrored one can be taken exactly when their deliveries are paired and each of
      their events is let in. */
  lemma ForwardExactly(cfg: Config, history: Hash -> View, init: Tables, t: Tables, v: View, end: nat)
    requires t.cursor.Some? && Mirrors(cfg, history, init, t, ChainOf(history, t)) && CanonicalKeys(cfg, history)
    requires Genuine(history, v) && t.cursor.value.last < end < |v| && Shows(v, t.cursor.value.last, t.cursor.value.hash)
    ensures (exists u :: ForwardStep(cfg, t, v, end, u)) <==>
      var events := EventsIn(v, t.cursor.value.last, end);
      Completions(events) == DeliveredCheckpoints(events) && Fits(cfg, init, t, events)
  {
    var events := EventsIn(v, t.cursor.value.last, end);
    BatchFits(cfg, history, init, t, ChainOf(history, t), t.cursor.value, v, end);
    if Completions(events) == DeliveredCheckpoints(events) && Fits(cfg, init, t, events) {
      var u := ForwardExists(cfg, t, v, end);
    }
    if u :| ForwardStep(cfg, t, v, end, u) {
      var headers, w :| Batch(cfg, t, v, end, headers, w, u);
    }
  }

  lemma ForwardExists(cfg: Config, t: Tables, v: View, end: nat) returns (u: Tables)
    requires t.cursor.Some? && t.cursor.value.last < end < |v| && Shows(v, t.cursor.value.last, t.cursor.value.hash)
    requires var events := EventsIn(v, t.cursor.value.last, end);
      Completions(events) == DeliveredCheckpoints(events) && JournalAll(cfg, t, events).Ok?
    ensures ForwardStep(cfg, t, v, end, u)
  {
    var c, events := t.cursor.value, EventsIn(v, t.cursor.value.last, end);
    var headers := ChainHeaders(v, c.last, end);
    var w := JournalAll(cfg, t, events).value;
    u := w.(anchors := t.anchors + headers, cursor := Some(Cursor(c.start, end, v[end].hash)));
    assert Batch(cfg, t, v, end, headers, w, u);
  }

  lemma BatchFits(cfg: Config, history: Hash -> View, init: Tables, t: Tables, chain: View, c: Cursor, v: View, end: nat)
    requires Synced(cfg, history, init, t, EventsIn(chain, c.start, c.last)) && AtTip(history, chain, c) && CanonicalKeys(cfg, history)
    requires Genuine(history, v) && c.last < end < |v| && Shows(v, c.last, c.hash)
    ensures JournalAll(cfg, t, EventsIn(v, c.last, end)).Ok? <==> Fits(cfg, init, t, EventsIn(v, c.last, end))
  {
    NextIsFresh(history, chain, c, v, end);
    BatchExactly(cfg, history, init, t, EventsIn(chain, c.start, c.last), EventsIn(v, c.last, end));
  }

  lemma NextIsFresh(history: Hash -> View, chain: View, c: Cursor, v: View, end: nat)
    requires AtTip(history, chain, c) && Shows(v, c.last, c.hash) && Genuine(history, v) && c.last < end < |v|
    ensures FreshBatch(history, EventsIn(chain, c.start, c.last), EventsIn(v, c.last, end))
  {
    NextIsNew(history, chain, c, v, end);
    RangeDistinct(v, c.start, end);
    EventsInPrefix(v, v[..end + 1], c.start, end);
  }

  lemma RangeDistinct(v: View, low: nat, high: nat)
    requires WellFormed(v)
    ensures DistinctIds(EventsIn(v, low, high))
  {
    EventsInStrict(v, low, high);
    forall e | e in EventsIn(v, low, high) ensures On(v, e) {
      EventsInExact(v, low, high, e);
    }
    ChainDistinct(v, EventsIn(v, low, high));
  }

  // ---- starts that let a whole chain in ----

  /** A row of the start under the event's id in the event's table is the event's row. */
  ghost predicate Proper(cfg: Config, init: Tables, e: Event) {
    Emitted(cfg, e) && RowAgrees(init.history, Owner(cfg, init, e.log.product), e)
  }

  /** Every product of the batch is bound already, or has its first event let in by the start. */
  ghost predicate OpenedFirst(cfg: Config, init: Tables, t: Tables, batch: seq<Event>) {
    forall i :: 0 <= i < |batch| ==>
      batch[i].log.product in t.bindings || OpenTo(cfg, init, batch[i]) || exists j :: 0 <= j < i && batch[j].log.product == batch[i].log.product
  }

  /** A new event of the chain finds its slot free, or a row of the start. */
  lemma SlotFree(cfg: Config, init: Tables, t: Tables, es: seq<Event>, e: Event, owner: string)
    requires Sound(init, t, Shares(t.bindings.Keys, es)) && RowAgrees(init.history, owner, e)
    requires forall x :: x in es ==> IdOf(x) != IdOf(e)
    ensures RowAgrees(t.history, owner, e)
  {
    if TableOf(e).Some? && SlotOf(e) in t.history {
      forall k, x | Explains(Shares(t.bindings.Keys, es), k, x, SlotOf(e)) ensures false {
        OfMembers(es, k);
      }
    }
  }

  /** Where the rows of the start agree with the chain, the rows present do. */
  lemma ProperFits(cfg: Config, history: Hash -> View, init: Tables, t: Tables, es: seq<Event>, batch: seq<Event>)
    requires Synced(cfg, history, init, t, es) && FreshBatch(history, es, batch)
    requires (forall e :: e in batch ==> Proper(cfg, init, e)) && OpenedFirst(cfg, init, t, batch)
    ensures Fits(cfg, init, t, batch)
  {
    forall i | 0 <= i < |batch| ensures Fitting(cfg, init, t, batch, i) {
      var e := batch[i];
      assert Proper(cfg, init, e);
      forall x | x in es ensures IdOf(x) != IdOf(e) { IdsApart(es, batch, x, i); }
      SlotFree(cfg, init, t, es, e, Owner(cfg, init, e.log.product));
    }
  }

  lemma IdsApart(es: seq<Event>, batch: seq<Event>, x: Event, i: nat)
    requires DistinctIds(es + batch) && x in es && i < |batch|
    ensures IdOf(x) != IdOf(batch[i])
  {
    var p :| 0 <= p < |es| && es[p] == x;
    assert (es + batch)[p] == x && (es + batch)[|es| + i] == batch[i];
  }

  /** A chain whose events agree with the start, and whose products the start is open to, can always be followed. */
  lemma ProperForward(cfg: Config, history: Hash -> View, init: Tables, t: Tables, v: View, end: nat) returns (u: Tables)
    requires t.cursor.Some? && Mirrors(cfg, history, init, t, ChainOf(history, t)) && CanonicalKeys(cfg, history)
    requires Genuine(history, v) && t.cursor.value.last < end < |v| && Shows(v, t.cursor.value.last, t.cursor.value.hash)
    requires var events := EventsIn(v, t.cursor.value.last, end);
      && Completions(events) == DeliveredCheckpoints(events)
      && (forall e :: e in events ==> Proper(cfg, init, e)) && OpenedFirst(cfg, init, t, events)
    ensures ForwardStep(cfg, t, v, end, u)
  {
    var c, chain := t.cursor.value, ChainOf(history, t);
    NextIsFresh(history, chain, c, v, end);
    ProperFits(cfg, history, init, t, EventsIn(chain, c.start, c.last), EventsIn(v, c.last, end));
    BatchFits(cfg, history, init, t, chain, c, v, end);
    u := ForwardExists(cfg, t, v, end);
  }
}
