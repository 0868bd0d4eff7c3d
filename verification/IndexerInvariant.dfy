/** The invariant every committed database satisfies, and how a rewind and a forward batch keep it. */
module IndexerInvariant {
  import opened Prelude
  import opened Chains
  import opened Projection
  import opened IndexerSpec
  import opened IndexerLaws
  import opened IndexerSync

  /** Nothing of this configuration has been indexed yet. */
  ghost predicate NotStarted(t: Tables) {
    t.cursor.None? && t.anchors == map[] && t.journal == map[] && t.bindings == map[]
  }

  /** Anchors hold the hashes of the chain, at the start, at the cursor and at every block with events. */
  ghost predicate Anchored(t: Tables, chain: View, low: nat, high: nat) {
    && (forall n :: n in t.anchors ==> low <= n <= high && Shows(chain, n, t.anchors[n]))
    && low in t.anchors && high in t.anchors
    && (forall e :: e in EventsIn(chain, low, high) ==> e.number in t.anchors)
  }

  ghost predicate PairedBlock(chain: View, n: nat)
    requires n > 0
  {
    Completions(EventsIn(chain, n - 1, n)) == DeliveredCheckpoints(EventsIn(chain, n - 1, n))
  }

  /** Block by block, completed deliveries and delivered checkpoints name the same transactions and products. */
  ghost predicate Paired(chain: View, low: nat, high: nat) {
    forall n :: low < n <= high ==> PairedBlock(chain, n)
  }

  ghost predicate AtTip(history: Hash -> View, chain: View, c: Cursor) {
    Genuine(history, chain) && |chain| == c.last + 1 && c.start <= c.last && chain[c.last].hash == c.hash
  }

  /** The database mirrors the chain whose tip is its cursor. */
  ghost predicate Mirrors(cfg: Config, history: Hash -> View, init: Tables, t: Tables, chain: View) {
    && t.cursor.Some?
    && AtTip(history, chain, t.cursor.value)
    && Anchored(t, chain, t.cursor.value.start, t.cursor.value.last)
    && Paired(chain, t.cursor.value.start, t.cursor.value.last)
    && Synced(cfg, history, init, t, EventsIn(chain, t.cursor.value.start, t.cursor.value.last))
  }

  /** The database mirrors the chain its cursor names. */
  ghost predicate MirrorsTip(cfg: Config, history: Hash -> View, init: Tables, t: Tables) {
    t.cursor.Some? && forall chain :: chain == history(t.cursor.value.hash) ==> Mirrors(cfg, history, init, t, chain)
  }

  /** The chain the cursor names, and its events past the deployment block. */
  function ChainOf(history: Hash -> View, t: Tables): View
    requires t.cursor.Some?
  {
    history(t.cursor.value.hash)
  }

  function Indexed(history: Hash -> View, t: Tables): seq<Event>
    requires t.cursor.Some?
  {
    EventsIn(ChainOf(history, t), t.cursor.value.start, t.cursor.value.last)
  }

  /** No canonical event has lost its row. */
  ghost predicate HistoryComplete(history: Hash -> View, t: Tables) {
    t.cursor.Some? && AllRows(t, Indexed(history, t))
  }

  /** A rewind can lose a row only once the journal holds an id of two products. */
  ghost predicate Intact(history: Hash -> View, t: Tables) {
    OneProductPerId(t.journal) ==> HistoryComplete(history, t)
  }

  /** What every committed database satisfies. */
  ghost predicate Consistent(cfg: Config, history: Hash -> View, init: Tables, t: Tables) {
    NotStarted(init) && if t.cursor.None? then t == init else MirrorsTip(cfg, history, init, t) && Intact(history, t)
  }

  lemma TipMirrors(cfg: Config, history: Hash -> View, init: Tables, t: Tables)
    ensures MirrorsTip(cfg, history, init, t) <==> t.cursor.Some? && Mirrors(cfg, history, init, t, ChainOf(history, t))
  {}

  // ---- the first cursor ----

  lemma FreshTracks(cfg: Config, init: Tables, t: Tables)
    requires NotStarted(init) && t == init.(cursor := t.cursor, anchors := t.anchors)
    ensures Tracks(cfg, init, t, map[])
  {
    assert BoundIds(t) == {};
  }

  lemma FirstCursor(cfg: Config, history: Hash -> View, init: Tables, t: Tables, v: View, n: nat)
    requires NotStarted(init) && Genuine(history, v) && n < |v|
    requires t == init.(cursor := Some(Cursor(n, n, v[n].hash)), anchors := map[n := v[n].hash])
    ensures Mirrors(cfg, history, init, t, history(v[n].hash))
  {
    GenuineBranch(history, v, n);
    var chain := history(v[n].hash);
    assert EventsIn(chain, n, n) == [];
    FreshTracks(cfg, init, t);
    assert Shares(t.bindings.Keys, []) == map[];
  }

  // ---- rewinding ----

  lemma UpToEvents(chain: View, low: nat, mid: nat, high: nat)
    requires WellFormed(chain) && low <= mid <= high < |chain|
    ensures UpTo(EventsIn(chain, low, high), mid) == EventsIn(chain[..mid + 1], low, mid)
  {
    var all := EventsIn(chain, low, high);
    var cut := UpTo(all, mid);
    EventsInPrefix(chain, chain[..mid + 1], low, mid);
    EventsInStrict(chain, low, high);
    EventsInStrict(chain, low, mid);
    UpToStrict(all, mid);
    UpToMembers(all, mid);
    forall e ensures e in cut <==> e in EventsIn(chain, low, mid) {
      EventsInExact(chain, low, high, e);
      EventsInExact(chain, low, mid, e);
    }
    StrictUnique(cut, EventsIn(chain, low, mid));
  }

  lemma {:induction false} UpToStrict(es: seq<Event>, n: nat)
    requires Strict(es)
    ensures Strict(UpTo(es, n))
  {
    if es != [] {
      var early, last := es[..|es| - 1], es[|es| - 1];
      UpToStrict(early, n);
      UpToMembers(early, n);
      var cut := UpTo(early, n);
      forall i | 0 <= i < |cut| ensures Before(cut[i], last) {
        assert cut[i] in early;
        var m :| 0 <= m < |early| && early[m] == cut[i];
        assert Before(es[m], es[|es| - 1]);
      }
    }
  }

  /** While products are being restored: those still to do hold their share of the old list, the others of the new. */
  function Mixed(keys: set<Key>, es: seq<Event>, kept: seq<Event>, todo: set<Key>): Applied {
    map k | k in keys :: if k in todo then Of(es, k) else Of(kept, k)
  }

  ghost predicate RewoundJournal(history: Hash -> View, t: Tables, es: seq<Event>, kept: seq<Event>) {
    && GenuineJournal(history, t) && JournaledBound(t) && CanonicalIs(t, kept)
    && (forall e :: e in es ==> OccurrenceOf(e) in t.journal && t.journal[OccurrenceOf(e)].event == e)
  }

  ghost predicate Rewinding(
      cfg: Config, history: Hash -> View, init: Tables, t: Tables, es: seq<Event>, kept: seq<Event>, todo: set<Key>)
  {
    && RewoundJournal(history, t, es, kept)
    && todo <= t.bindings.Keys
    && Tracks(cfg, init, t, Mixed(t.bindings.Keys, es, kept, todo))
  }

  lemma RewindStarts(cfg: Config, history: Hash -> View, init: Tables, t: Tables, es: seq<Event>, n: nat, u: Tables)
    requires Synced(cfg, history, init, t, es)
    requires u == t.(journal := Orphan(t.journal, n))
    ensures Rewinding(cfg, history, init, u, es, UpTo(es, n), Affected(t.journal, n))
  {
    OrphanCuts(t, es, n, u);
    OrphanKeeps(history, t, n, u);
    MixedAtStart(t, es, n);
    JournalIrrelevant(cfg, init, t, Shares(t.bindings.Keys, es), u);
    AffectedBound(t, n);
  }

  lemma MixedAtStart(t: Tables, es: seq<Event>, n: nat)
    requires CanonicalIs(t, es)
    ensures Mixed(t.bindings.Keys, es, UpTo(es, n), Affected(t.journal, n)) == Shares(t.bindings.Keys, es)
  {
    var todo := Affected(t.journal, n);
    forall k | k !in todo ensures Of(UpTo(es, n), k) == Of(es, k) {
      AffectedKeys(t, es, n, k);
    }
  }

  lemma AffectedBound(t: Tables, n: nat)
    requires JournaledBound(t)
    ensures Affected(t.journal, n) <= t.bindings.Keys
  {}

  lemma RewindEnds(cfg: Config, history: Hash -> View, init: Tables, t: Tables, es: seq<Event>, kept: seq<Event>)
    requires Rewinding(cfg, history, init, t, es, kept, {})
    ensures Synced(cfg, history, init, t, kept)
  {
    assert Mixed(t.bindings.Keys, es, kept, {}) == Shares(t.bindings.Keys, kept);
  }

  lemma MixedJournaled(history: Hash -> View, t: Tables, es: seq<Event>, kept: seq<Event>, todo: set<Key>)
    requires RewoundJournal(history, t, es, kept)
    ensures AppliedJournaled(t, Mixed(t.bindings.Keys, es, kept, todo))
  {
    var f := Mixed(t.bindings.Keys, es, kept, todo);
    forall k: Key, e: Event | k in f && e in f[k]
      ensures e.log.product == k && OccurrenceOf(e) in t.journal && t.journal[OccurrenceOf(e)].event == e
    {
      OfMembers(es, k);
      OfMembers(kept, k);
    }
  }

  /** Resetting a product still to do leaves it with nothing applied and every other product as it was. */
  lemma RestoreStarts(cfg: Config, history: Hash -> View, init: Tables, t: Tables, es: seq<Event>, kept: seq<Event>, todo: set<Key>, k: Key)
    requires Rewinding(cfg, history, init, t, es, kept, todo) && k in todo
    ensures t.bindings[k].productId in t.products
    ensures Tracks(cfg, init, Reset(t, k), Mixed(t.bindings.Keys, es, kept, todo)[k := []])
  {
    MixedJournaled(history, t, es, kept, todo);
    ResetTracks(cfg, init, t, Mixed(t.bindings.Keys, es, kept, todo), k);
  }

  lemma MixedStep(keys: set<Key>, es: seq<Event>, kept: seq<Event>, todo: set<Key>, k: Key)
    requires k in keys
    ensures Mixed(keys, es, kept, todo - {k}) == Mixed(keys, es, kept, todo)[k := Of(kept, k)]
  {}

  lemma RestoreEnds(cfg: Config, history: Hash -> View, init: Tables, u: Tables, es: seq<Event>, kept: seq<Event>, todo: set<Key>, k: Key, g: Applied)
    requires RewoundJournal(history, u, es, kept) && k in todo && todo <= u.bindings.Keys
    requires g == Mixed(u.bindings.Keys, es, kept, todo)[k := Of(kept, k)]
    requires Tracks(cfg, init, u, g)
    ensures Rewinding(cfg, history, init, u, es, kept, todo - {k})
  {
    MixedStep(u.bindings.Keys, es, kept, todo, k);
  }

  lemma ShareComparable(t: Tables, kept: seq<Event>, k: Key)
    requires CanonicalIs(t, kept) && Strict(kept)
    ensures forall a, b :: a in CanonicalOf(t, k) && b in CanonicalOf(t, k) ==> a == b || Before(a, b) || Before(b, a)
  {
    forall a, b | a in CanonicalOf(t, k) && b in CanonicalOf(t, k) ensures a == b || Before(a, b) || Before(b, a) {
      var i :| 0 <= i < |kept| && kept[i] == a;
      var j :| 0 <= j < |kept| && kept[j] == b;
    }
  }

  /** The query returns the product's share of the list. */
  lemma ShareIsQuery(t: Tables, kept: seq<Event>, k: Key, rows: seq<Event>)
    requires CanonicalIs(t, kept) && Strict(kept) && Strict(rows)
    requires forall e :: e in rows <==> e in CanonicalOf(t, k)
    ensures rows == Of(kept, k)
  {
    OfMembers(kept, k);
    OfStrict(kept, k);
    forall e ensures e in rows <==> e in Of(kept, k) {
      if e in Of(kept, k) {
        assert t.journal[OccurrenceOf(e)] == JournalRow(e, true);
      }
    }
    StrictUnique(rows, Of(kept, k));
  }

  lemma ShareKeys(cfg: Config, history: Hash -> View, t: Tables, kept: seq<Event>, k: Key)
    requires CanonicalIs(t, kept) && GenuineJournal(history, t) && CanonicalKeys(cfg, history)
    ensures forall e :: e in Of(kept, k) ==> e.log.product == k && cfg.canonical(k) in {None, Some(k)}
  {
    OfMembers(kept, k);
    forall e | e in Of(kept, k) ensures cfg.canonical(k) in {None, Some(k)} {
      assert t.journal[OccurrenceOf(e)].event == e;
    }
  }

  lemma RestoreReady(cfg: Config, history: Hash -> View, init: Tables, t: Tables, es: seq<Event>, kept: seq<Event>, todo: set<Key>, k: Key)
    requires Rewinding(cfg, history, init, t, es, kept, todo) && k in todo && Strict(kept)
    ensures k in t.bindings && t.bindings[k].productId in t.products
    ensures forall a, b :: a in CanonicalOf(t, k) && b in CanonicalOf(t, k) ==> a == b || Before(a, b) || Before(b, a)
  {
    ShareComparable(t, kept, k);
    assert FoldedAt(t, k, Mixed(t.bindings.Keys, es, kept, todo)[k]);
  }

  /** u is t with the events of k applied on top of nothing. */
  ghost predicate Replays(cfg: Config, init: Tables, t: Tables, k: Key, rows: seq<Event>, u: Tables) {
    && BindingsKept(t, u) && u.bindings.Keys == t.bindings.Keys && u.journal == t.journal
    && forall f :: k in f && f[k] == [] && Tracks(cfg, init, t, f) ==> Tracks(cfg, init, u, f[k := rows])
  }

  lemma PutTwice(f: Applied, k: Key, a: seq<Event>, b: seq<Event>)
    ensures f[k := a][k := b] == f[k := b]
  {}

  lemma PutSame(f: Applied, k: Key)
    requires k in f && f[k] == []
    ensures f[k := []] == f
  {}

  lemma Retold(cfg: Config, init: Tables, w: Tables, g: Applied, e: Event, u: Tables, h: Applied)
    requires Tracks(cfg, init, w, g) && Extends(cfg, init, w, e, u)
    requires h == g[e.log.product := AppliedTo(g, e.log.product) + [e]]
    ensures Tracks(cfg, init, u, h)
  {}

  lemma ReplaysSnoc(cfg: Config, init: Tables, t: Tables, k: Key, rows: seq<Event>, w: Tables, e: Event, u: Tables)
    requires Replays(cfg, init, t, k, rows, w) && Extends(cfg, init, w, e, u)
    requires e.log.product == k && k in t.bindings
    ensures Replays(cfg, init, t, k, rows + [e], u)
  {
    forall f | k in f && f[k] == [] && Tracks(cfg, init, t, f) ensures Tracks(cfg, init, u, f[k := rows + [e]]) {
      PutTwice(f, k, rows, rows + [e]);
      Retold(cfg, init, w, f[k := rows], e, u, f[k := rows + [e]]);
    }
  }

  /** Replaying a product's events after a reset rebuilds its share, one event at a time. */
  lemma {:induction false} ReplayTracks(cfg: Config, init: Tables, t: Tables, f: Applied, k: Key, rows: seq<Event>, u: Tables)
    requires k in f && f[k] == [] && Tracks(cfg, init, t, f) && ProjectAll(cfg, t, rows) == Ok(u)
    requires forall e :: e in rows ==> e.log.product == k && cfg.canonical(k) in {None, Some(k)}
    ensures Replays(cfg, init, t, k, rows, u)
  {
    if rows == [] {
      ReplaysNothing(cfg, init, t, k);
    } else {
      var early, e := rows[..|rows| - 1], rows[|rows| - 1];
      var w := ProjectAll(cfg, t, early).value;
      SnocLast(rows);
      ReplayTracks(cfg, init, t, f, k, early, w);
      ReplayExtends(cfg, init, t, f, k, early, w, e, u);
      ReplaysSnoc(cfg, init, t, k, early, w, e, u);
    }
  }

  lemma SnocLast(rows: seq<Event>)
    requires rows != []
    ensures rows[..|rows| - 1] + [rows[|rows| - 1]] == rows
    ensures forall x :: x in rows[..|rows| - 1] ==> x in rows
  {}

  lemma ReplaysNothing(cfg: Config, init: Tables, t: Tables, k: Key)
    ensures Replays(cfg, init, t, k, [], t)
  {
    forall f: Applied | k in f && f[k] == [] ensures f[k := []] == f { PutSame(f, k); }
  }

  lemma ReplayExtends(cfg: Config, init: Tables, t: Tables, f: Applied, k: Key, early: seq<Event>, w: Tables, e: Event, u: Tables)
    requires k in f && f[k] == [] && Tracks(cfg, init, t, f) && Replays(cfg, init, t, k, early, w)
    requires e.log.product == k && cfg.canonical(k) in {None, Some(k)} && Project(cfg, w, e) == Ok(u)
    ensures Extends(cfg, init, w, e, u)
  {
    ProjectExtends(cfg, init, w, f[k := early], e, u);
  }

  lemma ResetKept(t: Tables, k: Key)
    requires k in t.bindings && t.bindings[k].productId in t.products
    ensures BindingsKept(t, Reset(t, k)) && Reset(t, k).bindings.Keys == t.bindings.Keys
    ensures Reset(t, k).journal == t.journal
  {}

  lemma Replayed(cfg: Config, init: Tables, t: Tables, f: Applied, k: Key, rows: seq<Event>, u: Tables)
    requires Replays(cfg, init, t, k, rows, u) && k in f && f[k] == [] && Tracks(cfg, init, t, f)
    ensures Tracks(cfg, init, u, f[k := rows])
  {}

  lemma RewoundFrame(history: Hash -> View, t: Tables, es: seq<Event>, kept: seq<Event>, u: Tables)
    requires RewoundJournal(history, t, es, kept) && u.journal == t.journal && u.bindings.Keys == t.bindings.Keys
    ensures RewoundJournal(history, u, es, kept)
  {}

  lemma KeptThrough(t: Tables, r: Tables, u: Tables)
    requires BindingsKept(t, r) && BindingsKept(r, u)
    ensures BindingsKept(t, u)
  {}

  /** Replaying the share of k on r, where nothing of k is applied, leaves only the other products to do. */
  lemma RestoredFrom(cfg: Config, history: Hash -> View, init: Tables, t: Tables, es: seq<Event>, kept: seq<Event>, todo: set<Key>, k: Key,
                     r: Tables, u: Tables)
    requires RewoundJournal(history, t, es, kept) && todo <= t.bindings.Keys && k in todo
    requires r.journal == t.journal && r.bindings.Keys == t.bindings.Keys && BindingsKept(t, r)
    requires Tracks(cfg, init, r, Mixed(t.bindings.Keys, es, kept, todo)[k := []])
    requires Replays(cfg, init, r, k, Of(kept, k), u)
    ensures Rewinding(cfg, history, init, u, es, kept, todo - {k})
    ensures BindingsKept(t, u) && u.journal == t.journal
  {
    var mixed := Mixed(t.bindings.Keys, es, kept, todo);
    PutTwice(mixed, k, [], Of(kept, k));
    Replayed(cfg, init, r, mixed[k := []], k, Of(kept, k), u);
    KeptThrough(t, r, u);
    RewoundFrame(history, t, es, kept, u);
    RestoreEnds(cfg, history, init, u, es, kept, todo, k, mixed[k := []][k := Of(kept, k)]);
  }

  /** Restoring one product: reset, then its canonical events in order, moves it from the old list to the new one. */
  lemma Restored(cfg: Config, history: Hash -> View, init: Tables, t: Tables, es: seq<Event>, kept: seq<Event>, todo: set<Key>, k: Key,
                 rows: seq<Event>, u: Tables)
    requires Rewinding(cfg, history, init, t, es, kept, todo) && k in todo
    requires CanonicalKeys(cfg, history)
    requires Strict(kept) && Strict(rows) && forall e :: e in rows <==> e in CanonicalOf(t, k)
    requires t.bindings[k].productId in t.products && ProjectAll(cfg, Reset(t, k), rows) == Ok(u)
    ensures Rewinding(cfg, history, init, u, es, kept, todo - {k})
    ensures BindingsKept(t, u) && u.journal == t.journal
  {
    ShareIsQuery(t, kept, k, rows);
    ShareKeys(cfg, history, t, kept, k);
    RestoredShare(cfg, history, init, t, es, kept, todo, k, u);
  }

  lemma RestoredShare(cfg: Config, history: Hash -> View, init: Tables, t: Tables, es: seq<Event>, kept: seq<Event>, todo: set<Key>, k: Key,
                      u: Tables)
    requires Rewinding(cfg, history, init, t, es, kept, todo) && k in todo
    requires t.bindings[k].productId in t.products && ProjectAll(cfg, Reset(t, k), Of(kept, k)) == Ok(u)
    requires forall e :: e in Of(kept, k) ==> e.log.product == k && cfg.canonical(k) in {None, Some(k)}
    ensures Rewinding(cfg, history, init, u, es, kept, todo - {k})
    ensures BindingsKept(t, u) && u.journal == t.journal
  {
    var r := Reset(t, k);
    ResetKept(t, k);
    RestoreStarts(cfg, history, init, t, es, kept, todo, k);
    ReplayTracks(cfg, init, r, Mixed(t.bindings.Keys, es, kept, todo)[k := []], k, Of(kept, k), u);
    RestoredFrom(cfg, history, init, t, es, kept, todo, k, r, u);
  }

  // ---- a replay cannot fail ----

  ghost predicate Ready(cfg: Config, t: Tables, k: Key) {
    && k in t.bindings && t.bindings[k].productId in t.products
    && Some(t.products[t.bindings[k].productId].identity) == ScopeIdentity(cfg, k)
  }

  lemma ReadyWhenBound(cfg: Config, init: Tables, t: Tables, k: Key)
    requires AllBound(cfg, init, t) && k in t.bindings
    ensures Ready(cfg, t, k)
  {
    assert ProperlyBound(cfg, init, t, k);
  }

  lemma ReadyReset(cfg: Config, t: Tables, k: Key)
    requires Ready(cfg, t, k)
    ensures Ready(cfg, Reset(t, k), k)
  {}

  /** An event of a bound product whose row is not there yet always projects. */
  lemma ReadyProjects(cfg: Config, t: Tables, e: Event)
    requires Ready(cfg, t, e.log.product) && (TableOf(e).Some? ==> SlotOf(e) !in t.history)
    ensures Project(cfg, t, e).Ok?
    ensures var u := Project(cfg, t, e).value;
      Ready(cfg, u, e.log.product) && u.history.Keys <= t.history.Keys + (if TableOf(e).Some? then {SlotOf(e)} else {})
  {
    var k := e.log.product;
    var id := t.bindings[k].productId;
    assert AssignScope(cfg, t.products[id], k) == Ok(t.products[id]);
    assert t.products[id := t.products[id]] == t.products;
  }

  ghost predicate DistinctIds(es: seq<Event>) {
    forall i, j :: 0 <= i < j < |es| ==> IdOf(es[i]) != IdOf(es[j])
  }

  ghost predicate NoRows(history: map<Slot, HistoryRow>, es: seq<Event>) {
    forall e :: e in es && TableOf(e).Some? ==> SlotOf(e) !in history
  }

  /** Every row that is new carries the id of one of the events. */
  ghost predicate OnlyAdded(before: map<Slot, HistoryRow>, es: seq<Event>, after: map<Slot, HistoryRow>) {
    forall s :: s in after && s !in before ==> exists e :: e in es && IdOf(e) == s.id
  }

  lemma LastSlotFree(t: Tables, rows: seq<Event>, w: Tables)
    requires rows != [] && DistinctIds(rows) && NoRows(t.history, rows)
    requires OnlyAdded(t.history, rows[..|rows| - 1], w.history)
    ensures TableOf(rows[|rows| - 1]).Some? ==> SlotOf(rows[|rows| - 1]) !in w.history
  {
    var n := |rows| - 1;
    assert rows[n] in rows;
    forall x | x in rows[..n] ensures IdOf(x) != IdOf(rows[n]) {
      var i :| 0 <= i < n && rows[i] == x;
    }
  }

  lemma OneMoreAdded(before: map<Slot, HistoryRow>, rows: seq<Event>, w: map<Slot, HistoryRow>, u: map<Slot, HistoryRow>)
    requires rows != [] && OnlyAdded(before, rows[..|rows| - 1], w)
    requires u.Keys <= w.Keys + (if TableOf(rows[|rows| - 1]).Some? then {SlotOf(rows[|rows| - 1])} else {})
    ensures OnlyAdded(before, rows, u)
  {
    assert rows[|rows| - 1] in rows;
    forall s | s in u && s !in before ensures exists e :: e in rows && IdOf(e) == s.id {
      if s in w {
        var e :| e in rows[..|rows| - 1] && IdOf(e) == s.id;
        assert e in rows;
      }
    }
  }

  lemma DistinctInit(rows: seq<Event>, history: map<Slot, HistoryRow>)
    requires rows != [] && DistinctIds(rows) && NoRows(history, rows)
    ensures DistinctIds(rows[..|rows| - 1]) && NoRows(history, rows[..|rows| - 1])
  {}

  lemma {:induction false} ReplaySucceeds(cfg: Config, t: Tables, k: Key, rows: seq<Event>)
    requires Ready(cfg, t, k) && DistinctIds(rows) && NoRows(t.history, rows)
    requires forall e :: e in rows ==> e.log.product == k
    ensures ProjectAll(cfg, t, rows).Ok?
    ensures Ready(cfg, ProjectAll(cfg, t, rows).value, k)
    ensures OnlyAdded(t.history, rows, ProjectAll(cfg, t, rows).value.history)
  {
    if rows != [] {
      var early, e := rows[..|rows| - 1], rows[|rows| - 1];
      SnocLast(rows);
      DistinctInit(rows, t.history);
      ReplaySucceeds(cfg, t, k, early);
      var w := ProjectAll(cfg, t, early).value;
      assert e in rows;
      LastSlotFree(t, rows, w);
      ReadyProjects(cfg, w, e);
      OneMoreAdded(t.history, rows, w.history, Project(cfg, w, e).value.history);
    }
  }

  lemma ResetHasNoRows(t: Tables, k: Key, rows: seq<Event>)
    requires k in t.bindings && t.bindings[k].productId in t.products
    requires forall e :: e in rows ==> e in CanonicalOf(t, k)
    ensures NoRows(Reset(t, k).history, rows)
  {
    forall e | e in rows ensures IdOf(e) in KeyIds(t.journal, k) {
      var o :| o in t.journal && t.journal[o].canonical && t.journal[o].event.log.product == k && t.journal[o].event == e;
    }
  }

  /** No two events of one chain share an id. */
  lemma ChainDistinct(v: View, es: seq<Event>)
    requires WellFormed(v) && Strict(es) && forall e :: e in es ==> On(v, e)
    ensures DistinctIds(es)
  {
    forall i, j | 0 <= i < j < |es| ensures IdOf(es[i]) != IdOf(es[j]) {
      assert es[i] in es && es[j] in es;
      assert Before(es[i], es[j]);
    }
  }

  /** Once a product is reset, replaying its canonical events cannot fail: each of them finds its row gone. */
  lemma ReplayNeverFails(cfg: Config, init: Tables, t: Tables, v: View, kept: seq<Event>, k: Key, rows: seq<Event>)
    requires Linked(cfg, init, t) && CanonicalIs(t, kept) && WellFormed(v) && (forall e :: e in kept ==> On(v, e))
    requires k in t.bindings && t.bindings[k].productId in t.products
    requires Strict(rows) && forall e :: e in rows <==> e in CanonicalOf(t, k)
    ensures ProjectAll(cfg, Reset(t, k), rows).Ok?
  {
    ReadyWhenBound(cfg, init, t, k);
    ReadyReset(cfg, t, k);
    ResetHasNoRows(t, k, rows);
    ChainDistinct(v, rows);
    ReplaySucceeds(cfg, Reset(t, k), k, rows);
  }

  lemma PairedPrefix(chain: View, low: nat, mid: nat, high: nat)
    requires low <= mid <= high < |chain| && Paired(chain, low, high)
    ensures Paired(chain[..mid + 1], low, mid)
  {
    var p := chain[..mid + 1];
    forall n | low < n <= mid ensures PairedBlock(p, n) {
      assert PairedBlock(chain, n);
      assert p[..n + 1] == chain[..n + 1];
      EventsInPrefix(chain, p, n - 1, n);
    }
  }

  lemma AnchoredPrefix(t: Tables, chain: View, low: nat, mid: nat, high: nat, u: Tables)
    requires low <= mid <= high < |chain| && Anchored(t, chain, low, high) && mid in t.anchors
    requires u.anchors == Trimmed(t.anchors, mid)
    ensures Anchored(u, chain[..mid + 1], low, mid)
  {
    forall e | e in EventsIn(chain[..mid + 1], low, mid) ensures e.number in u.anchors {
      EventsInExact(chain[..mid + 1], low, mid, e);
      EventsInExact(chain, low, high, e);
    }
  }

  /** After a rewind the database mirrors the chain up to the ancestor, which the old and the new branch share. */
  lemma Rewound(cfg: Config, history: Hash -> View, init: Tables, t: Tables, ancestor: nat, w: Tables, u: Tables)
    requires t.cursor.Some? && Mirrors(cfg, history, init, t, history(t.cursor.value.hash))
    requires ancestor in t.anchors
    requires Synced(cfg, history, init, w,
               UpTo(EventsIn(history(t.cursor.value.hash), t.cursor.value.start, t.cursor.value.last), ancestor))
    requires u == w.(anchors := Trimmed(t.anchors, ancestor),
                     cursor := Some(Cursor(t.cursor.value.start, ancestor, t.anchors[ancestor])))
    ensures Mirrors(cfg, history, init, u, history(t.anchors[ancestor]))
    ensures history(t.anchors[ancestor]) == history(t.cursor.value.hash)[..ancestor + 1]
  {
    var c := t.cursor.value;
    var chain := history(c.hash);
    GenuineBranch(history, chain, ancestor);
    UpToEvents(chain, c.start, ancestor, c.last);
    PairedPrefix(chain, c.start, ancestor, c.last);
    AnchoredPrefix(t, chain, c.start, ancestor, c.last, u);
    SyncedFrame(cfg, history, init, w, EventsIn(chain[..ancestor + 1], c.start, ancestor), u);
  }

  lemma SyncedFrame(cfg: Config, history: Hash -> View, init: Tables, t: Tables, es: seq<Event>, u: Tables)
    requires Synced(cfg, history, init, t, es)
    requires u == t.(anchors := u.anchors, cursor := u.cursor)
    ensures Synced(cfg, history, init, u, es)
  {
    JournalIrrelevant(cfg, init, t, Shares(t.bindings.Keys, es), u);
  }

  // ---- a forward batch ----

  lemma BatchPaired(v: View, low: nat, high: nat)
    requires WellFormed(v) && low <= high
    requires Completions(EventsIn(v, low, high)) == DeliveredCheckpoints(EventsIn(v, low, high))
    ensures Paired(v, low, high)
  {
    forall n | low < n <= high ensures PairedBlock(v, n) {
      BlockPaired(v, low, high, n);
    }
  }

  /** `here` are the events of `all` in block n, and a transaction lies in one block. */
  ghost predicate BlockOf(all: seq<Event>, here: seq<Event>, n: nat) {
    && (forall e :: e in here <==> e in all && e.number == n)
    && (forall a, b :: a in all && b in all && a.log.tx == b.log.tx ==> a.number == b.number)
  }

  lemma BlockOfRange(v: View, low: nat, high: nat, n: nat)
    requires WellFormed(v) && low < n <= high
    ensures BlockOf(EventsIn(v, low, high), EventsIn(v, n - 1, n), n)
  {
    forall e ensures e in EventsIn(v, n - 1, n) <==> e in EventsIn(v, low, high) && e.number == n {
      EventsInExact(v, low, high, e);
      EventsInExact(v, n - 1, n, e);
    }
    OneBlockEach(v, low, high);
  }

  lemma OneBlockEach(v: View, low: nat, high: nat)
    requires WellFormed(v)
    ensures forall a, b :: a in EventsIn(v, low, high) && b in EventsIn(v, low, high) && a.log.tx == b.log.tx ==> a.number == b.number
  {
    forall e | e in EventsIn(v, low, high) ensures On(v, e) {
      EventsInExact(v, low, high, e);
    }
  }

  lemma CompletionHere(all: seq<Event>, here: seq<Event>, n: nat, p: (Hash, Key))
    requires BlockOf(all, here, n) && p in Completions(here) && p in DeliveredCheckpoints(all)
    ensures p in DeliveredCheckpoints(here)
  {
    var e :| e in here && e.log.payload.DeliveryCompleted? && p == (e.log.tx, e.log.product);
    var d :| d in all && d.log.payload.CheckpointRecorded? && d.log.payload.status.Delivered? && p == (d.log.tx, d.log.product);
    assert d in here;
  }

  lemma CheckpointHere(all: seq<Event>, here: seq<Event>, n: nat, p: (Hash, Key))
    requires BlockOf(all, here, n) && p in DeliveredCheckpoints(here) && p in Completions(all)
    ensures p in Completions(here)
  {
    var d :| d in here && d.log.payload.CheckpointRecorded? && d.log.payload.status.Delivered? && p == (d.log.tx, d.log.product);
    var e :| e in all && e.log.payload.DeliveryCompleted? && p == (e.log.tx, e.log.product);
    assert e in here;
  }

  lemma BlockPairs(all: seq<Event>, here: seq<Event>, n: nat)
    requires BlockOf(all, here, n)
    ensures Completions(here) <= Completions(all) && DeliveredCheckpoints(here) <= DeliveredCheckpoints(all)
  {}

  /** A transaction lies in one block, so pairs that match over the range match inside each block. */
  lemma BlockPaired(v: View, low: nat, high: nat, n: nat)
    requires WellFormed(v) && low < n <= high
    requires Completions(EventsIn(v, low, high)) == DeliveredCheckpoints(EventsIn(v, low, high))
    ensures PairedBlock(v, n)
  {
    var all, here := EventsIn(v, low, high), EventsIn(v, n - 1, n);
    BlockOfRange(v, low, high, n);
    BlockPairs(all, here, n);
    forall p ensures p in Completions(here) <==> p in DeliveredCheckpoints(here) {
      if p in Completions(here) { CompletionHere(all, here, n, p); }
      if p in DeliveredCheckpoints(here) { CheckpointHere(all, here, n, p); }
    }
  }

  lemma PairedJoin(chain: View, v: View, low: nat, mid: nat, high: nat)
    requires low <= mid <= high < |v| && chain == v[..mid + 1]
    requires Paired(chain, low, mid) && Paired(v, mid, high)
    ensures Paired(v[..high + 1], low, high)
  {
    var w := v[..high + 1];
    forall n | low < n <= high ensures PairedBlock(w, n) {
      assert w[..n + 1] == v[..n + 1];
      EventsInPrefix(v, w, n - 1, n);
      if n <= mid {
        assert PairedBlock(chain, n);
        assert chain[..n + 1] == v[..n + 1];
        EventsInPrefix(v, chain, n - 1, n);
      } else {
        assert PairedBlock(v, n);
      }
    }
  }

  /** The headers a batch collected: the end of the range and every block it found events in. */
  ghost predicate HeadersOf(headers: map<nat, Hash>, events: seq<Event>, end: nat, endHash: Hash) {
    && end in headers && headers[end] == endHash
    && (forall e :: e in events ==> e.number in headers && headers[e.number] == e.blockHash)
    && (forall n :: n in headers ==> n == end || exists e :: e in events && e.number == n)
  }

  lemma HeadersOnChain(v: View, mid: nat, high: nat, headers: map<nat, Hash>, n: nat)
    requires mid < high < |v| && n in headers
    requires HeadersOf(headers, EventsIn(v, mid, high), high, v[high].hash)
    ensures mid < n <= high && Shows(v, n, headers[n])
  {
    if n != high {
      var e :| e in EventsIn(v, mid, high) && e.number == n;
      EventsInExact(v, mid, high, e);
    }
  }

  lemma EventInHalf(chain: View, v: View, low: nat, mid: nat, high: nat, e: Event)
    requires low <= mid <= high < |v| && chain == v[..mid + 1]
    requires e in EventsIn(v[..high + 1], low, high)
    ensures e in EventsIn(chain, low, mid) || e in EventsIn(v, mid, high)
  {
    EventsInExact(v[..high + 1], low, high, e);
    EventsInExact(chain, low, mid, e);
    EventsInExact(v, mid, high, e);
  }

  lemma AnchorsJoin(anchors: map<nat, Hash>, headers: map<nat, Hash>, chain: View, v: View, low: nat, mid: nat, high: nat)
    requires low <= mid < high < |v| && chain == v[..mid + 1]
    requires forall n :: n in anchors ==> low <= n <= mid && Shows(chain, n, anchors[n])
    requires HeadersOf(headers, EventsIn(v, mid, high), high, v[high].hash)
    ensures forall n :: n in anchors + headers ==> low <= n <= high && Shows(v[..high + 1], n, (anchors + headers)[n])
  {
    forall n | n in headers ensures mid < n <= high && Shows(v[..high + 1], n, headers[n]) {
      HeadersOnChain(v, mid, high, headers, n);
    }
  }

  lemma AnchoredJoin(t: Tables, chain: View, v: View, low: nat, mid: nat, high: nat, headers: map<nat, Hash>, u: Tables)
    requires low <= mid < high < |v| && chain == v[..mid + 1]
    requires Anchored(t, chain, low, mid)
    requires HeadersOf(headers, EventsIn(v, mid, high), high, v[high].hash)
    requires u.anchors == t.anchors + headers
    ensures Anchored(u, v[..high + 1], low, high)
  {
    AnchorsJoin(t.anchors, headers, chain, v, low, mid, high);
    forall e | e in EventsIn(v[..high + 1], low, high) ensures e.number in u.anchors {
      EventInHalf(chain, v, low, mid, high, e);
    }
  }

  /** The events of a batch are on the node's chain and none of them is on the list yet. */
  lemma BatchIsNew(history: Hash -> View, chain: View, v: View, low: nat, mid: nat, high: nat)
    requires Genuine(history, v) && low <= mid <= high < |v| && chain == v[..mid + 1]
    ensures Strict(EventsIn(v, mid, high))
    ensures forall e :: e in EventsIn(v, mid, high) ==> Seen(history, e) && e !in EventsIn(chain, low, mid)
    ensures EventsIn(chain, low, mid) + EventsIn(v, mid, high) == EventsIn(v[..high + 1], low, high)
  {
    EventsInStrict(v, mid, high);
    forall e | e in EventsIn(v, mid, high) ensures Seen(history, e) && e !in EventsIn(chain, low, mid) {
      EventsInExact(v, mid, high, e);
      EventsInExact(chain, low, mid, e);
      SeenFromView(history, v, e);
    }
    EventsInPrefix(v, chain, low, mid);
    EventsInPrefix(v, v[..high + 1], low, high);
    EventsInSplit(v, low, mid, high);
  }

  ghost predicate BatchRead(c: Cursor, v: View, end: nat, headers: map<nat, Hash>) {
    && c.last < end < |v| && Shows(v, c.last, c.hash)
    && Completions(EventsIn(v, c.last, end)) == DeliveredCheckpoints(EventsIn(v, c.last, end))
    && HeadersOf(headers, EventsIn(v, c.last, end), end, v[end].hash)
  }

  lemma AdvancedChain(history: Hash -> View, t: Tables, chain: View, c: Cursor, v: View, end: nat, headers: map<nat, Hash>, u: Tables)
    requires AtTip(history, chain, c) && Genuine(history, v) && BatchRead(c, v, end, headers)
    requires Anchored(t, chain, c.start, c.last) && Paired(chain, c.start, c.last)
    requires u.anchors == t.anchors + headers
    ensures chain == v[..c.last + 1]
    ensures AtTip(history, v[..end + 1], Cursor(c.start, end, v[end].hash))
    ensures Anchored(u, v[..end + 1], c.start, end) && Paired(v[..end + 1], c.start, end)
  {
    assert history(c.hash) == v[..c.last + 1] == chain;
    GenuineBranch(history, v, end);
    BatchPaired(v, c.last, end);
    PairedJoin(chain, v, c.start, c.last, end);
    AnchoredJoin(t, chain, v, c.start, c.last, end, headers, u);
  }

  lemma AdvancedSynced(cfg: Config, history: Hash -> View, init: Tables, t: Tables, chain: View, c: Cursor, v: View, end: nat, w: Tables, u: Tables)
    requires Synced(cfg, history, init, t, EventsIn(chain, c.start, c.last))
    requires Genuine(history, v) && CanonicalKeys(cfg, history)
    requires c.start <= c.last < end < |v| && chain == v[..c.last + 1]
    requires JournalAll(cfg, t, EventsIn(v, c.last, end)) == Ok(w)
    requires u == w.(anchors := u.anchors, cursor := u.cursor)
    ensures Synced(cfg, history, init, u, EventsIn(v[..end + 1], c.start, end))
    ensures JournalKept(t, u) && BindingsKept(t, u)
  {
    BatchIsNew(history, chain, v, c.start, c.last, end);
    JournalAllSynced(cfg, history, init, t, EventsIn(chain, c.start, c.last), EventsIn(v, c.last, end), w);
    SyncedFrame(cfg, history, init, w, EventsIn(v[..end + 1], c.start, end), u);
  }

  /** A batch read from one chain that extends the mirrored one leaves the database mirroring that chain. */
  lemma Advanced(cfg: Config, history: Hash -> View, init: Tables, t: Tables, v: View, end: nat,
                 headers: map<nat, Hash>, w: Tables, u: Tables)
    requires t.cursor.Some? && Mirrors(cfg, history, init, t, history(t.cursor.value.hash))
    requires Genuine(history, v) && CanonicalKeys(cfg, history)
    requires BatchRead(t.cursor.value, v, end, headers)
    requires JournalAll(cfg, t, EventsIn(v, t.cursor.value.last, end)) == Ok(w)
    requires u == w.(anchors := t.anchors + headers, cursor := Some(Cursor(t.cursor.value.start, end, v[end].hash)))
    ensures Mirrors(cfg, history, init, u, history(v[end].hash))
    ensures JournalKept(t, u) && BindingsKept(t, u)
  {
    var c := t.cursor.value;
    var chain := history(c.hash);
    AdvancedChain(history, t, chain, c, v, end, headers, u);
    AdvancedSynced(cfg, history, init, t, chain, c, v, end, w, u);
  }
}
