/** What the invariant gives a reader of the database, whatever forks, failures and batches led to it. */
module IndexerTheorems {
  import opened Prelude
  import opened Chains
  import opened Projection
  import opened IndexerSpec
  import opened IndexerLaws
  import opened IndexerSync
  import opened IndexerInvariant
  import opened IndexerSteps

  predicate Canonical(t: Tables, e: Event) {
    OccurrenceOf(e) in t.journal && t.journal[OccurrenceOf(e)] == JournalRow(e, true)
  }

  lemma Mirrored(cfg: Config, history: Hash -> View, init: Tables, t: Tables)
    requires Consistent(cfg, history, init, t) && t.cursor.Some?
    ensures Mirrors(cfg, history, init, t, ChainOf(history, t))
  {}

  // ---- the journal ----

  /** The canonical rows are exactly the chain's events in (start, last]. */
  lemma JournalIsChain(cfg: Config, history: Hash -> View, init: Tables, t: Tables, e: Event)
    requires Consistent(cfg, history, init, t) && t.cursor.Some?
    ensures Canonical(t, e) <==> On(ChainOf(history, t), e) && t.cursor.value.start < e.number <= t.cursor.value.last
  {
    Mirrored(cfg, history, init, t);
    EventsInExact(ChainOf(history, t), t.cursor.value.start, t.cursor.value.last, e);
  }

  lemma CanonicalRow(cfg: Config, history: Hash -> View, init: Tables, t: Tables, o: Occurrence)
    requires Consistent(cfg, history, init, t) && t.cursor.Some? && o in t.journal && t.journal[o].canonical
    ensures Canonical(t, t.journal[o].event) && OccurrenceOf(t.journal[o].event) == o
    ensures t.journal[o].event in Indexed(history, t)
  {
    Mirrored(cfg, history, init, t);
  }

  /** One canonical occurrence per event id, inside the indexed range, under an anchored block hash. */
  lemma JournalSafety(cfg: Config, history: Hash -> View, init: Tables, t: Tables, o: Occurrence, p: Occurrence)
    requires Consistent(cfg, history, init, t) && t.cursor.Some?
    requires o in t.journal && t.journal[o].canonical && p in t.journal && t.journal[p].canonical
    ensures o.id == p.id ==> o == p
    ensures t.cursor.value.start < t.journal[o].event.number <= t.cursor.value.last
    ensures t.journal[o].event.number in t.anchors && t.anchors[t.journal[o].event.number] == o.blockHash
  {
    Mirrored(cfg, history, init, t);
    CanonicalRow(cfg, history, init, t, o);
    CanonicalRow(cfg, history, init, t, p);
    JournalIsChain(cfg, history, init, t, t.journal[o].event);
    JournalIsChain(cfg, history, init, t, t.journal[p].event);
    assert Shows(ChainOf(history, t), t.journal[o].event.number, t.anchors[t.journal[o].event.number]);
  }

  /** Canonical deliveries and canonical delivered checkpoints name the same transactions and products. */
  lemma DeliveriesPaired(cfg: Config, history: Hash -> View, init: Tables, t: Tables)
    requires Consistent(cfg, history, init, t) && t.cursor.Some?
    ensures Completions(Indexed(history, t)) == DeliveredCheckpoints(Indexed(history, t))
  {
    Mirrored(cfg, history, init, t);
    RangePaired(ChainOf(history, t), t.cursor.value.start, t.cursor.value.last);
  }

  ghost predicate SamePairs(es: seq<Event>) {
    forall p :: p in Completions(es) <==> p in DeliveredCheckpoints(es)
  }

  lemma {:induction false} RangePaired(chain: View, low: nat, high: nat)
    requires Paired(chain, low, high)
    ensures SamePairs(EventsIn(chain, low, high))
    decreases high
  {
    var all := EventsIn(chain, low, high);
    if low < high {
      var early, last := EventsIn(chain, low, high - 1), EventsIn(chain, high - 1, high);
      RangePaired(chain, low, high - 1);
      LastBlockPaired(chain, low, high, last);
      EventsInSplit(chain, low, high - 1, high);
      PairsJoin(early, last, all);
    } else {
      NoPairs(all);
    }
  }

  lemma NoPairs(es: seq<Event>)
    requires es == []
    ensures SamePairs(es)
  {}

  lemma LastBlockPaired(chain: View, low: nat, high: nat, last: seq<Event>)
    requires Paired(chain, low, high) && low < high && last == EventsIn(chain, high - 1, high)
    ensures SamePairs(last)
  {
    assert PairedBlock(chain, high);
  }

  lemma PairsJoin(a: seq<Event>, b: seq<Event>, c: seq<Event>)
    requires SamePairs(a) && SamePairs(b) && c == a + b
    ensures SamePairs(c)
  {
    forall p ensures p in Completions(a + b) <==> p in Completions(a) + Completions(b) {}
    forall p ensures p in DeliveredCheckpoints(a + b) <==> p in DeliveredCheckpoints(a) + DeliveredCheckpoints(b) {}
  }

  // ---- the projections ----

  /** The fast form equals the simple form: a bound product is the fold, from its baseline, of its canonical events in chain order. */
  lemma ProductIsFold(cfg: Config, history: Hash -> View, init: Tables, t: Tables, k: Key)
    requires Consistent(cfg, history, init, t) && t.cursor.Some? && k in t.bindings
    ensures t.bindings[k].productId in t.products
    ensures StateOf(t, k) == Fold(Start(t.bindings[k].baseline), Of(Indexed(history, t), k))
    ensures Some(t.products[t.bindings[k].productId].identity) == ScopeIdentity(cfg, k)
    ensures Dictated(cfg, init, k, t.bindings[k].productId, t.bindings[k].baseline)
  {
    Mirrored(cfg, history, init, t);
    assert FoldedAt(t, k, Shares(t.bindings.Keys, Indexed(history, t))[k]);
    assert ProperlyBound(cfg, init, t, k);
  }

  /** Every tagged row belongs to a canonical event or stands as at the start; and unless the journal holds an id of two
      products, every canonical checkpoint and transfer has its row. */
  lemma HistoryIsChain(cfg: Config, history: Hash -> View, init: Tables, t: Tables)
    requires Consistent(cfg, history, init, t) && t.cursor.Some?
    ensures forall e :: e in Indexed(history, t) ==> e.log.product in t.bindings
    ensures OneProductPerId(t.journal) ==> forall e :: e in Indexed(history, t) ==> e.log.product in t.bindings && HasRow(t, e.log.product, e)
    ensures forall s :: s in t.history ==>
      OfEvent(history, t, s) || (s in init.history && init.history[s] == t.history[s])
  {
    Mirrored(cfg, history, init, t);
    var es := Indexed(history, t);
    forall e | e in es ensures e.log.product in t.bindings {
      assert t.journal[OccurrenceOf(e)].event == e;
    }
    forall s | s in t.history && !(s in init.history && init.history[s] == t.history[s]) ensures OfEvent(history, t, s) {
      var k, e :| Explains(Shares(t.bindings.Keys, es), k, e, s);
      OfMembers(es, k);
    }
  }

  /** The slot is that of a checkpoint or transfer on the indexed chain. */
  ghost predicate OfEvent(history: Hash -> View, t: Tables, s: Slot)
    requires t.cursor.Some?
  {
    SlotIn(Indexed(history, t), s)
  }

  lemma UniqueId(cfg: Config, history: Hash -> View, init: Tables, t: Tables, a: Event, b: Event)
    requires Consistent(cfg, history, init, t) && t.cursor.Some?
    requires a in Indexed(history, t) && b in Indexed(history, t) && IdOf(a) == IdOf(b)
    ensures a == b
  {
    Mirrored(cfg, history, init, t);
    EventsInExact(ChainOf(history, t), t.cursor.value.start, t.cursor.value.last, a);
    EventsInExact(ChainOf(history, t), t.cursor.value.start, t.cursor.value.last, b);
  }

  // ---- at the target: covered histories ----

  predicate OfBound(t: Tables, s: Slot) {
    s in t.history && t.history[s].productId in BoundIds(t)
  }

  /** A row of the start of a bound product stands in one table under the id of an indexed event of another kind. */
  ghost predicate Misplaced(history: Hash -> View, init: Tables, t: Tables, s: Slot, e: Event)
    requires t.cursor.Some?
  {
    && s in init.history && init.history[s].productId in BoundIds(t)
    && e in Indexed(history, t) && IdOf(e) == s.id && TableOf(e) != Some(s.table)
  }

  /** The start holds no such row. */
  ghost predicate StartClear(history: Hash -> View, init: Tables, t: Tables)
    requires t.cursor.Some?
  {
    forall s, e :: !Misplaced(history, init, t, s, e)
  }

  /** No such row is left; a rewind may have removed some. */
  ghost predicate KindsClear(history: Hash -> View, init: Tables, t: Tables)
    requires t.cursor.Some?
  {
    forall s, e :: Misplaced(history, init, t, s, e) ==> !(s in t.history && t.history[s] == init.history[s])
  }

  /** Every tagged row of a bound product is the row of an indexed event. */
  ghost predicate Justified(history: Hash -> View, t: Tables)
    requires t.cursor.Some?
  {
    forall s :: OfBound(t, s) ==> OfEvent(history, t, s)
  }

  lemma CoveredSlot(cfg: Config, history: Hash -> View, init: Tables, t: Tables, s: Slot) returns (e: Event)
    requires Consistent(cfg, history, init, t) && t.cursor.Some? && Covered(t) && OfBound(t, s)
    ensures e in Indexed(history, t) && IdOf(e) == s.id
  {
    var o :| o in t.journal && t.journal[o].canonical && o.id == s.id;
    CanonicalRow(cfg, history, init, t, o);
    e := t.journal[o].event;
  }

  lemma ClearJustifies(cfg: Config, history: Hash -> View, init: Tables, t: Tables, s: Slot)
    requires Consistent(cfg, history, init, t) && t.cursor.Some? && Covered(t) && KindsClear(history, init, t) && OfBound(t, s)
    ensures OfEvent(history, t, s)
  {
    HistoryIsChain(cfg, history, init, t);
    var e := CoveredSlot(cfg, history, init, t, s);
    if s in init.history && init.history[s] == t.history[s] {
      assert !Misplaced(history, init, t, s, e);
    }
  }

  lemma JustifiedClears(cfg: Config, history: Hash -> View, init: Tables, t: Tables, s: Slot, e: Event)
    requires Consistent(cfg, history, init, t) && t.cursor.Some? && Justified(history, t)
    requires Misplaced(history, init, t, s, e)
    ensures !(s in t.history && t.history[s] == init.history[s])
  {
    if s in t.history && t.history[s] == init.history[s] {
      assert OfBound(t, s);
      var x :| x in Indexed(history, t) && TableOf(x).Some? && SlotOf(x) == s;
      UniqueId(cfg, history, init, t, x, e);
      assert false;
    }
  }

  /** The coverage check compares ids only. A covered history is justified row by row exactly when no row is left from the start
      under the id of an event of another kind. */
  lemma CoverageExact(cfg: Config, history: Hash -> View, init: Tables, t: Tables)
    requires Consistent(cfg, history, init, t) && t.cursor.Some? && Covered(t)
    ensures Justified(history, t) <==> KindsClear(history, init, t)
  {
    if KindsClear(history, init, t) {
      forall s | OfBound(t, s) ensures OfEvent(history, t, s) { ClearJustifies(cfg, history, init, t, s); }
    }
    if Justified(history, t) {
      forall s, e | Misplaced(history, init, t, s, e) ensures !(s in t.history && t.history[s] == init.history[s]) {
        JustifiedClears(cfg, history, init, t, s, e);
      }
    }
  }

  /** So it is if the start held none. */
  lemma CoverageSuffices(cfg: Config, history: Hash -> View, init: Tables, t: Tables)
    requires Consistent(cfg, history, init, t) && t.cursor.Some? && Covered(t) && StartClear(history, init, t)
    ensures Justified(history, t)
  {
    CoverageExact(cfg, history, init, t);
  }

  /** At the target the tagged rows of the bound products are exactly the rows of the chain's checkpoints and transfers. */
  lemma CoveredHistoryIsChain(cfg: Config, history: Hash -> View, init: Tables, t: Tables, s: Slot)
    requires Consistent(cfg, history, init, t) && t.cursor.Some? && Covered(t)
    requires OneProductPerId(t.journal) && KindsClear(history, init, t)
    ensures OfBound(t, s) <==> OfEvent(history, t, s)
    ensures forall e :: e in Indexed(history, t) && TableOf(e).Some? && SlotOf(e) == s ==>
      e.log.product in t.bindings && SameRow(t.history[s], RowOf(t.bindings[e.log.product].productId, e))
    ensures forall r :: r in t.untagged ==> r.productId !in BoundIds(t)
  {
    HistoryIsChain(cfg, history, init, t);
    CoverageExact(cfg, history, init, t);
    forall e | e in Indexed(history, t) && TableOf(e).Some? && SlotOf(e) == s ensures OfBound(t, s) {
      assert HasRow(t, e.log.product, e);
      assert t.bindings[e.log.product].productId in BoundIds(t);
    }
  }

  /** Shipments keep their plan; those of a bound product carry its status, all others and all unbound products are untouched. */
  lemma RestIsUntouched(cfg: Config, history: Hash -> View, init: Tables, t: Tables)
    requires Consistent(cfg, history, init, t) && t.cursor.Some?
    ensures Shipped(init, t) && Untouched(init, t)
  {
    Mirrored(cfg, history, init, t);
  }

  /** A binding survives the orphaning of its registration: the product is back at its baseline, undelivered, without rows of its own. */
  lemma OrphanedProduct(cfg: Config, history: Hash -> View, init: Tables, t: Tables, k: Key)
    requires Consistent(cfg, history, init, t) && t.cursor.Some? && k in t.bindings
    requires forall e :: e in Indexed(history, t) ==> e.log.product != k
    ensures t.bindings[k].productId in t.products
    ensures t.products[t.bindings[k].productId].fields == t.bindings[k].baseline
    ensures t.bindings[k].status == "0" && t.bindings[k].handler == None
  {
    ProductIsFold(cfg, history, init, t, k);
    var share := Of(Indexed(history, t), k);
    OfMembers(Indexed(history, t), k);
    FirstMember(share);
  }

  // ---- path independence ----

  /** Two histories of forks and batches that start alike and end at the same cursor agree on the journal's canonical rows. */
  lemma SameJournal(cfg: Config, history: Hash -> View, init: Tables, t: Tables, u: Tables, e: Event)
    requires Consistent(cfg, history, init, t) && Consistent(cfg, history, init, u)
    requires t.cursor.Some? && t.cursor == u.cursor
    ensures Canonical(t, e) <==> Canonical(u, e)
  {
    JournalIsChain(cfg, history, init, t, e);
    JournalIsChain(cfg, history, init, u, e);
  }

  /** A product with canonical events is bound on both paths to the same row, with the same status and handler; if the chain
      registers it, or the row was there at the start, the row is the same in every column. */
  lemma PathIndependence(cfg: Config, history: Hash -> View, init: Tables, t: Tables, u: Tables, k: Key)
    requires Consistent(cfg, history, init, t) && Consistent(cfg, history, init, u)
    requires t.cursor.Some? && t.cursor == u.cursor
    requires k in t.bindings && k in u.bindings
    ensures t.bindings[k].productId == u.bindings[k].productId
    ensures t.bindings[k].status == u.bindings[k].status && t.bindings[k].handler == u.bindings[k].handler
    ensures t.bindings[k].productId in t.products && u.bindings[k].productId in u.products
    ensures Registers(Of(Indexed(history, t), k)) || t.bindings[k].productId in init.products ==>
      t.products[t.bindings[k].productId] == u.products[u.bindings[k].productId]
  {
    ProductIsFold(cfg, history, init, t, k);
    ProductIsFold(cfg, history, init, u, k);
    DictatedOnce(cfg, init, k, t.bindings[k], u.bindings[k]);
    FoldForgetsBaseline(t.bindings[k].baseline, u.bindings[k].baseline, Of(Indexed(history, t), k));
  }

  lemma DictatedOnce(cfg: Config, init: Tables, k: Key, a: Binding, b: Binding)
    requires Dictated(cfg, init, k, a.productId, a.baseline) && Dictated(cfg, init, k, b.productId, b.baseline)
    ensures a.productId == b.productId
    ensures a.productId in init.products ==> a.baseline == b.baseline
  {
    var found := Claimants(cfg, init.products, k);
    if a.productId in init.products {
      assert a.productId in found;
      assert b.productId in init.products;
      assert b.productId in {a.productId};
    }
  }

  lemma SameRowBoth(a: HistoryRow, b: HistoryRow, c: HistoryRow)
    requires SameRow(a, c) && SameRow(b, c)
    ensures SameRow(a, b)
  {}

  /** Both paths bind every product of the chain and hold the same history row for each of its events. */
  lemma SameHistory(cfg: Config, history: Hash -> View, init: Tables, t: Tables, u: Tables, e: Event)
    requires Consistent(cfg, history, init, t) && Consistent(cfg, history, init, u)
    requires t.cursor.Some? && t.cursor == u.cursor && e in Indexed(history, t)
    requires OneProductPerId(t.journal) && OneProductPerId(u.journal)
    ensures e.log.product in t.bindings && e.log.product in u.bindings
    ensures TableOf(e).Some? ==>
      SlotOf(e) in t.history && SlotOf(e) in u.history && SameRow(t.history[SlotOf(e)], u.history[SlotOf(e)])
  {
    HistoryIsChain(cfg, history, init, t);
    HistoryIsChain(cfg, history, init, u);
    PathIndependence(cfg, history, init, t, u, e.log.product);
    if TableOf(e).Some? {
      assert HasRow(t, e.log.product, e) && HasRow(u, e.log.product, e);
      SameRowBoth(t.history[SlotOf(e)], u.history[SlotOf(e)], RowOf(t.bindings[e.log.product].productId, e));
    }
  }

  /** A product's tagged rows, by slot. */
  predicate RowOfProduct(t: Tables, productId: string, s: Slot) {
    s in t.history && t.history[s].productId == productId
  }

  /** Two paths that end covered at one cursor hold the same tagged rows for every product bound on both, no more and no fewer. */
  lemma SameCoveredHistory(cfg: Config, history: Hash -> View, init: Tables, t: Tables, u: Tables, k: Key, s: Slot)
    requires Consistent(cfg, history, init, t) && Consistent(cfg, history, init, u)
    requires t.cursor.Some? && t.cursor == u.cursor && k in t.bindings && k in u.bindings
    requires Covered(t) && OneProductPerId(t.journal) && KindsClear(history, init, t)
    requires Covered(u) && OneProductPerId(u.journal) && KindsClear(history, init, u)
    ensures t.bindings[k].productId == u.bindings[k].productId
    ensures RowOfProduct(t, t.bindings[k].productId, s) <==> RowOfProduct(u, u.bindings[k].productId, s)
    ensures RowOfProduct(t, t.bindings[k].productId, s) ==> SameRow(t.history[s], u.history[s])
  {
    PathIndependence(cfg, history, init, t, u, k);
    if RowOfProduct(t, t.bindings[k].productId, s) { CoveredRowOnBoth(cfg, history, init, t, u, k, s); }
    if RowOfProduct(u, u.bindings[k].productId, s) { CoveredRowOnBoth(cfg, history, init, u, t, k, s); }
  }

  lemma CoveredRowOnBoth(cfg: Config, history: Hash -> View, init: Tables, t: Tables, u: Tables, k: Key, s: Slot)
    requires Consistent(cfg, history, init, t) && Consistent(cfg, history, init, u)
    requires t.cursor.Some? && t.cursor == u.cursor && k in t.bindings && RowOfProduct(t, t.bindings[k].productId, s)
    requires Covered(t) && OneProductPerId(t.journal) && KindsClear(history, init, t) && OneProductPerId(u.journal)
    ensures s in u.history && SameRow(t.history[s], u.history[s]) && u.history[s].productId == t.history[s].productId
  {
    assert t.bindings[k].productId in BoundIds(t);
    CoveredHistoryIsChain(cfg, history, init, t, s);
    var e :| e in Indexed(history, t) && TableOf(e).Some? && SlotOf(e) == s;
    SameHistory(cfg, history, init, t, u, e);
  }

  /** The shipments of a product bound on both paths end up equal. */
  lemma SameShipments(cfg: Config, history: Hash -> View, init: Tables, t: Tables, u: Tables, k: Key, s: string)
    requires Consistent(cfg, history, init, t) && Consistent(cfg, history, init, u)
    requires t.cursor.Some? && t.cursor == u.cursor && k in t.bindings && k in u.bindings
    requires s in init.shipments && init.shipments[s].productId == t.bindings[k].productId
    ensures s in t.shipments && s in u.shipments && t.shipments[s] == u.shipments[s]
  {
    RestIsUntouched(cfg, history, init, t);
    RestIsUntouched(cfg, history, init, u);
    PathIndependence(cfg, history, init, t, u, k);
    assert Follows(init, t, s) && Follows(init, u, s);
  }

}
