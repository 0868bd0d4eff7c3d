/** The journal beside the projections: the canonical rows are a list of chain events, and every bound
    product is the fold of its share of that list. Journaling extends the list, rewinding cuts it. */
module IndexerSync {
  import opened Prelude
  import opened Chains
  import opened Projection
  import opened IndexerSpec
  import opened IndexerLaws

  /** The events of one product. */
  function Of(es: seq<Event>, k: Key): seq<Event> {
    if es == [] then []
    else Of(es[..|es| - 1], k) + if es[|es| - 1].log.product == k then [es[|es| - 1]] else []
  }

  lemma {:induction false} OfMembers(es: seq<Event>, k: Key)
    ensures forall e :: e in Of(es, k) <==> e in es && e.log.product == k
  {
    if es != [] {
      OfMembers(es[..|es| - 1], k);
      assert es == es[..|es| - 1] + [es[|es| - 1]];
    }
  }

  lemma OfSnoc(es: seq<Event>, e: Event, k: Key)
    ensures Of(es + [e], k) == if e.log.product == k then Of(es, k) + [e] else Of(es, k)
  {
    assert (es + [e])[..|es|] == es;
  }

  lemma {:induction false} OfStrict(es: seq<Event>, k: Key)
    requires Strict(es)
    ensures Strict(Of(es, k))
  {
    if es != [] {
      var early, last := es[..|es| - 1], es[|es| - 1];
      OfStrict(early, k);
      OfMembers(early, k);
      var part := Of(early, k);
      forall i, j | 0 <= i < j < |Of(es, k)| ensures Before(Of(es, k)[i], Of(es, k)[j]) {
        if j == |part| {
          assert part[i] in part;
          var n :| 0 <= n < |early| && early[n] == part[i];
          assert Before(es[n], es[|es| - 1]);
        }
      }
    }
  }

  function Shares(keys: set<Key>, es: seq<Event>): Applied {
    map k | k in keys :: Of(es, k)
  }

  ghost predicate GenuineJournal(history: Hash -> View, t: Tables) {
    forall o :: o in t.journal ==> OccurrenceOf(t.journal[o].event) == o && Seen(history, t.journal[o].event)
  }

  /** Every product ever journaled is bound: a binding outlives the orphaning of its registration. */
  ghost predicate JournaledBound(t: Tables) {
    forall o :: o in t.journal ==> t.journal[o].event.log.product in t.bindings
  }

  /** The canonical rows are exactly the events of the list. */
  ghost predicate CanonicalIs(t: Tables, es: seq<Event>) {
    && (forall e :: e in es ==> OccurrenceOf(e) in t.journal && t.journal[OccurrenceOf(e)] == JournalRow(e, true))
    && (forall o :: o in t.journal && t.journal[o].canonical ==> t.journal[o].event in es)
  }

  ghost predicate Synced(cfg: Config, history: Hash -> View, init: Tables, t: Tables, es: seq<Event>) {
    && GenuineJournal(history, t)
    && JournaledBound(t)
    && CanonicalIs(t, es)
    && Tracks(cfg, init, t, Shares(t.bindings.Keys, es))
  }

  /** A product that is not bound has no event on the list. */
  lemma UnboundUnlisted(t: Tables, es: seq<Event>, k: Key)
    requires JournaledBound(t) && CanonicalIs(t, es) && k !in t.bindings
    ensures Of(es, k) == []
  {
    OfMembers(es, k);
    forall x | x in es ensures x.log.product != k {
      assert t.journal[OccurrenceOf(x)].event == x;
    }
    FirstMember(Of(es, k));
  }

  lemma FirstMember(es: seq<Event>)
    ensures es != [] ==> exists e :: e in es
  {
    if es != [] { assert es[0] in es; }
  }

  lemma SharesSnoc(t: Tables, es: seq<Event>, e: Event)
    requires JournaledBound(t) && CanonicalIs(t, es)
    ensures Shares(t.bindings.Keys, es)[e.log.product := AppliedTo(Shares(t.bindings.Keys, es), e.log.product) + [e]]
         == Shares(t.bindings.Keys + {e.log.product}, es + [e])
  {
    if e.log.product !in t.bindings { UnboundUnlisted(t, es, e.log.product); }
    SharesPut(t.bindings.Keys, es, e);
  }

  lemma SharesPut(keys: set<Key>, es: seq<Event>, e: Event)
    requires e.log.product !in keys ==> Of(es, e.log.product) == []
    ensures Shares(keys, es)[e.log.product := AppliedTo(Shares(keys, es), e.log.product) + [e]] == Shares(keys + {e.log.product}, es + [e])
  {
    var k := e.log.product;
    forall m ensures Of(es + [e], m) == if m == k then Of(es, m) + [e] else Of(es, m) {
      OfSnoc(es, e, m);
    }
  }

  lemma JournalIrrelevant(cfg: Config, init: Tables, t: Tables, f: Applied, u: Tables)
    requires Tracks(cfg, init, t, f)
    requires u == t.(journal := u.journal, anchors := u.anchors, cursor := u.cursor)
    ensures Tracks(cfg, init, u, f)
  {
    assert BoundIds(u) == BoundIds(t);
    forall k | k in u.bindings ensures ProperlyBound(cfg, init, u, k) { assert k in t.bindings; }
    forall k | k in u.bindings ensures FoldedAt(u, k, f[k]) { assert FoldedAt(t, k, f[k]); }
    forall s | s in u.shipments ensures Follows(init, u, s) { assert Follows(init, t, s); }
  }

  // ---- journaling ----

  /** Every checkpoint and transfer of the list has its row. */
  ghost predicate AllRows(t: Tables, es: seq<Event>) {
    forall e :: e in es ==> e.log.product in t.bindings && HasRow(t, e.log.product, e)
  }

  /** No row is removed or changed. */
  ghost predicate RowsKept(before: map<Slot, HistoryRow>, after: map<Slot, HistoryRow>) {
    forall s :: s in before ==> s in after && after[s] == before[s]
  }

  /** The ids in the journal name one product each, over all branches ever journaled. */
  ghost predicate OneProductPerId(journal: map<Occurrence, JournalRow>) {
    forall o, p :: o in journal && p in journal && o.id == p.id ==> journal[o].event.log.product == journal[p].event.log.product
  }

  /** Occurrences are never deleted and their stored event never changes; only the canonical flag may. */
  ghost predicate JournalKept(t: Tables, u: Tables) {
    forall o :: o in t.journal ==> o in u.journal && u.journal[o].event == t.journal[o].event
  }

  /** Product keys on the chain are their own canonical form, unless the encoding rejects them. */
  ghost predicate CanonicalKeys(cfg: Config, history: Hash -> View) {
    forall e :: Seen(history, e) ==> cfg.canonical(e.log.product) in {None, Some(e.log.product)}
  }

  lemma StoredIsEvent(history: Hash -> View, t: Tables, es: seq<Event>, e: Event)
    requires GenuineJournal(history, t) && CanonicalIs(t, es) && Seen(history, e) && e !in es
    ensures OccurrenceOf(e) in t.journal ==> t.journal[OccurrenceOf(e)] == JournalRow(e, false)
  {
    var o := OccurrenceOf(e);
    if o in t.journal {
      OccurrenceDetermines(history, t.journal[o].event, e);
    }
  }

  lemma JournalGrows(history: Hash -> View, t: Tables, e: Event, u: Tables)
    requires GenuineJournal(history, t) && JournaledBound(t) && Seen(history, e)
    requires u.journal == t.journal[OccurrenceOf(e) := JournalRow(e, true)]
    requires u.bindings.Keys == t.bindings.Keys + {e.log.product}
    ensures GenuineJournal(history, u) && JournaledBound(u)
  {}

  lemma CanonicalGrows(history: Hash -> View, t: Tables, es: seq<Event>, e: Event, u: Tables)
    requires GenuineJournal(history, t) && CanonicalIs(t, es)
    requires Seen(history, e) && e !in es
    requires u.journal == t.journal[OccurrenceOf(e) := JournalRow(e, true)]
    ensures CanonicalIs(u, es + [e])
  {
    StoredIsEvent(history, t, es, e);
  }

  lemma ExtendsSynced(cfg: Config, history: Hash -> View, init: Tables, t: Tables, es: seq<Event>, e: Event, j: Tables, u: Tables)
    requires Synced(cfg, history, init, t, es) && Seen(history, e) && e !in es
    requires j == t.(journal := t.journal[OccurrenceOf(e) := JournalRow(e, true)])
    requires Extends(cfg, init, j, e, u)
    ensures Synced(cfg, history, init, u, es + [e])
    ensures BindingsKept(t, u) && u.cursor == t.cursor && u.anchors == t.anchors && u.journal == j.journal
  {
    var f := Shares(t.bindings.Keys, es);
    SharesSnoc(t, es, e);
    JournalIrrelevant(cfg, init, t, f, j);
    JournalGrows(history, t, e, u);
    CanonicalGrows(history, t, es, e, u);
    assert Shares(u.bindings.Keys, es + [e]) == f[e.log.product := AppliedTo(f, e.log.product) + [e]];
  }

  /** Journaling an event that is not on the list yet appends it: a revived orphan row is that same event. */
  lemma JournalSynced(cfg: Config, history: Hash -> View, init: Tables, t: Tables, es: seq<Event>, e: Event, u: Tables)
    requires Synced(cfg, history, init, t, es) && Journal(cfg, t, e) == Ok(u)
    requires Seen(history, e) && e !in es && CanonicalKeys(cfg, history)
    ensures Synced(cfg, history, init, u, es + [e])
    ensures JournalKept(t, u) && BindingsKept(t, u)
    ensures u.cursor == t.cursor && u.anchors == t.anchors
  {
    var j := JournalParts(cfg, history, t, es, e, u);
    RowExtends(cfg, init, t, Shares(t.bindings.Keys, es), e, j, u);
    ExtendsSynced(cfg, history, init, t, es, e, j, u);
    JournalPutKept(history, t, es, e);
  }

  lemma RowExtends(cfg: Config, init: Tables, t: Tables, f: Applied, e: Event, j: Tables, u: Tables)
    requires Tracks(cfg, init, t, f) && j == t.(journal := j.journal) && Project(cfg, j, e) == Ok(u)
    requires cfg.canonical(e.log.product) in {None, Some(e.log.product)}
    ensures Extends(cfg, init, j, e, u)
  {
    JournalIrrelevant(cfg, init, t, f, j);
    ProjectExtends(cfg, init, j, f, e, u);
  }

  lemma JournalPutKept(history: Hash -> View, t: Tables, es: seq<Event>, e: Event)
    requires GenuineJournal(history, t) && CanonicalIs(t, es) && Seen(history, e) && e !in es
    ensures JournalKept(t, t.(journal := t.journal[OccurrenceOf(e) := JournalRow(e, true)]))
  {
    StoredIsEvent(history, t, es, e);
  }

  lemma JournalParts(cfg: Config, history: Hash -> View, t: Tables, es: seq<Event>, e: Event, u: Tables) returns (j: Tables)
    requires GenuineJournal(history, t) && CanonicalIs(t, es) && Seen(history, e) && e !in es
    requires Journal(cfg, t, e) == Ok(u)
    ensures j == t.(journal := t.journal[OccurrenceOf(e) := JournalRow(e, true)])
    ensures Project(cfg, j, e) == Ok(u)
  {
    j := t.(journal := t.journal[OccurrenceOf(e) := JournalRow(e, true)]);
    StoredIsEvent(history, t, es, e);
  }

  // ---- rewinding ----

  /** The applied events are journaled rows of their product. */
  ghost predicate AppliedJournaled(t: Tables, f: Applied) {
    forall k, e :: k in f && e in f[k] ==>
      e.log.product == k && OccurrenceOf(e) in t.journal && t.journal[OccurrenceOf(e)].event == e
  }

  lemma ResetSound(init: Tables, t: Tables, f: Applied, k: Key)
    requires Sound(init, t, f) && AppliedJournaled(t, f) && k in f
    requires k in t.bindings && t.bindings[k].productId in t.products
    ensures Sound(init, Reset(t, k), f[k := []])
  {
    var u := Reset(t, k);
    var g := f[k := []];
    forall s | s in u.history && !(s in init.history && init.history[s] == u.history[s])
      ensures exists m, e :: Explains(g, m, e, s)
    {
      var m, e :| Explains(f, m, e, s);
      assert OccurrenceOf(e) in t.journal;
      assert m != k;
      assert Explains(g, m, e, s);
    }
  }

  lemma ResetTracks(cfg: Config, init: Tables, t: Tables, f: Applied, k: Key)
    requires Tracks(cfg, init, t, f) && AppliedJournaled(t, f)
    requires k in t.bindings
    ensures t.bindings[k].productId in t.products
    ensures Tracks(cfg, init, Reset(t, k), f[k := []])
  {
    assert FoldedAt(t, k, f[k]);
    var base := Start(t.bindings[k].baseline);
    var s := WithState(t, k, base);
    ResetLinked(cfg, init, t, k);
    WithStateFolds(t, k, base, f, []);
    ResetShipped(init, t, k);
    ResetSound(init, t, f, k);
    var u := Reset(t, k);
    forall m | m in u.bindings ensures FoldedAt(u, m, f[k := []][m]) {
      assert FoldedAt(s, m, f[k := []][m]);
    }
  }

  lemma ResetLinked(cfg: Config, init: Tables, t: Tables, k: Key)
    requires Linked(cfg, init, t) && k in t.bindings && t.bindings[k].productId in t.products
    ensures Linked(cfg, init, Reset(t, k))
  {
    assert ProperlyBound(cfg, init, t, k);
    var s := WithState(t, k, Start(t.bindings[k].baseline));
    WithStateLinked(cfg, init, t, k, Start(t.bindings[k].baseline));
    HistoryIrrelevant(cfg, init, s, Reset(t, k));
  }

  lemma ResetShipped(init: Tables, t: Tables, k: Key)
    requires Shipped(init, t) && Apart(t) && k in t.bindings && t.bindings[k].productId in t.products
    ensures Shipped(init, Reset(t, k))
  {
    var base := Start(t.bindings[k].baseline);
    var s := WithState(t, k, base);
    forall n | n in t.shipments ensures t.shipments[n].(status := init.shipments[n].status) == init.shipments[n] {
      assert Follows(init, t, n);
    }
    WithStateShipped(init, t, k, base);
    assert BoundIds(s) == BoundIds(Reset(t, k));
    forall n | n in s.shipments ensures Follows(init, Reset(t, k), n) {
      assert Follows(init, s, n);
    }
  }

  // ---- cutting the list ----

  function UpTo(es: seq<Event>, n: nat): seq<Event> {
    if es == [] then []
    else UpTo(es[..|es| - 1], n) + if es[|es| - 1].number <= n then [es[|es| - 1]] else []
  }

  lemma {:induction false} UpToMembers(es: seq<Event>, n: nat)
    ensures forall e :: e in UpTo(es, n) <==> e in es && e.number <= n
  {
    if es != [] {
      UpToMembers(es[..|es| - 1], n);
      assert es == es[..|es| - 1] + [es[|es| - 1]];
    }
  }

  /** A product without orphaned events keeps its share. */
  lemma {:induction false} UpToKeeps(es: seq<Event>, n: nat, k: Key)
    requires forall e :: e in es && e.log.product == k ==> e.number <= n
    ensures Of(UpTo(es, n), k) == Of(es, k)
  {
    if es != [] {
      var early, last := es[..|es| - 1], es[|es| - 1];
      UpToKeeps(early, n, k);
      OfSnoc(UpTo(early, n), last, k);
      assert UpTo(early, n) + [] == UpTo(early, n);
    }
  }

  lemma OrphanCuts(t: Tables, es: seq<Event>, n: nat, u: Tables)
    requires CanonicalIs(t, es)
    requires u == t.(journal := Orphan(t.journal, n))
    ensures CanonicalIs(u, UpTo(es, n))
  {
    UpToMembers(es, n);
  }

  lemma OrphanKeeps(history: Hash -> View, t: Tables, n: nat, u: Tables)
    requires GenuineJournal(history, t) && JournaledBound(t)
    requires u == t.(journal := Orphan(t.journal, n))
    ensures GenuineJournal(history, u) && JournaledBound(u)
  {}

  lemma AffectedKeys(t: Tables, es: seq<Event>, n: nat, k: Key)
    requires CanonicalIs(t, es) && k !in Affected(t.journal, n)
    ensures Of(UpTo(es, n), k) == Of(es, k)
  {
    forall e | e in es && e.log.product == k ensures e.number <= n {
      var o := OccurrenceOf(e);
      assert t.journal[o] == JournalRow(e, true);
      if e.number > n { assert Orphaned(t.journal[o], n); }
    }
    UpToKeeps(es, n, k);
  }

  // ---- whole batches ----

  lemma AppendLast(es: seq<Event>, batch: seq<Event>)
    requires batch != []
    ensures es + batch[..|batch| - 1] + [batch[|batch| - 1]] == es + batch
  {}

  lemma LastIsNew(batch: seq<Event>)
    requires Strict(batch) && batch != []
    ensures Strict(batch[..|batch| - 1])
    ensures batch[|batch| - 1] !in batch[..|batch| - 1]
    ensures forall e :: e in batch[..|batch| - 1] ==> e in batch
  {
    var last := batch[|batch| - 1];
    forall i | 0 <= i < |batch| - 1 ensures batch[i] != last {
      assert Before(batch[i], last);
    }
  }

  lemma KeptTransitive(t: Tables, u: Tables, w: Tables)
    requires JournalKept(t, u) && JournalKept(u, w) && BindingsKept(t, u) && BindingsKept(u, w)
    ensures JournalKept(t, w) && BindingsKept(t, w)
  {}

  /** A batch of new chain events, journaled one by one, is appended to the list as a whole. */
  lemma {:induction false} JournalAllSynced(
      cfg: Config, history: Hash -> View, init: Tables, t: Tables, es: seq<Event>, batch: seq<Event>, u: Tables)
    requires Synced(cfg, history, init, t, es) && JournalAll(cfg, t, batch) == Ok(u)
    requires CanonicalKeys(cfg, history) && Strict(batch)
    requires forall e :: e in batch ==> Seen(history, e) && e !in es
    ensures Synced(cfg, history, init, u, es + batch)
    ensures u.cursor == t.cursor && u.anchors == t.anchors
    ensures JournalKept(t, u) && BindingsKept(t, u)
  {
    if batch == [] {
      assert es + batch == es;
    } else {
      var early, e := batch[..|batch| - 1], batch[|batch| - 1];
      var w := JournalAll(cfg, t, early).value;
      LastIsNew(batch);
      JournalAllSynced(cfg, history, init, t, es, early, w);
      JournalSynced(cfg, history, init, w, es + early, e, u);
      AppendLast(es, batch);
      KeptTransitive(t, w, u);
    }
  }
}
