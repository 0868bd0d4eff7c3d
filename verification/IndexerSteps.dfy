/** The three steps a poll is made of, as relations between databases, and what each does to the history rows. */
module IndexerSteps {
  import opened Prelude
  import opened Chains
  import opened Projection
  import opened IndexerSpec
  import opened IndexerLaws
  import opened IndexerSync
  import opened IndexerInvariant

  /** The first cursor, at the deployment block. */
  ghost predicate OpenStep(cfg: Config, t: Tables, v: View, u: Tables) {
    && t.cursor.None? && cfg.startBlock < |v|
    && u == t.(cursor := Some(Cursor(cfg.startBlock, cfg.startBlock, v[cfg.startBlock].hash)),
               anchors := map[cfg.startBlock := v[cfg.startBlock].hash])
  }

  /** The blocks up to `end` of v, journaled onto t, with the headers read for them. */
  ghost predicate Batch(cfg: Config, t: Tables, v: View, end: nat, headers: map<nat, Hash>, w: Tables, u: Tables)
    requires t.cursor.Some? && end < |v|
  {
    var c, events := t.cursor.value, EventsIn(v, t.cursor.value.last, end);
    && HeadersOf(headers, events, end, v[end].hash)
    && Completions(events) == DeliveredCheckpoints(events)
    && JournalAll(cfg, t, events) == Ok(w)
    && u == w.(anchors := t.anchors + headers, cursor := Some(Cursor(c.start, end, v[end].hash)))
  }

  /** One batch of v on top of t, whose cursor is on v. */
  ghost predicate ForwardStep(cfg: Config, t: Tables, v: View, end: nat, u: Tables) {
    && t.cursor.Some? && t.cursor.value.last < end < |v| && Shows(v, t.cursor.value.last, t.cursor.value.hash)
    && exists headers, w :: Batch(cfg, t, v, end, headers, w, u)
  }

  /** The products of an order restored one after the other, each from the events kept. */
  function RestoreAll(cfg: Config, t: Tables, kept: seq<Event>, order: seq<Key>): Result<Tables> {
    if order == [] then Ok(t) else
    match RestoreAll(cfg, t, kept, order[..|order| - 1])
    case Err(reason) => Err(reason)
    case Ok(w) =>
      var k := order[|order| - 1];
      if k in w.bindings && w.bindings[k].productId in w.products then ProjectAll(cfg, Reset(w, k), Of(kept, k))
      else Err("binding or product is missing")
  }

  /** An order in which a set can be worked off. */
  ghost predicate Lists(order: seq<Key>, keys: set<Key>) {
    (forall k :: k in order <==> k in keys) && forall i, j :: 0 <= i < j < |order| ==> order[i] != order[j]
  }

  /** What a rewind to block a keeps of the indexed events. */
  function Kept(history: Hash -> View, t: Tables, a: nat): seq<Event>
    requires t.cursor.Some?
  {
    UpTo(Indexed(history, t), a)
  }

  /** A rewind to the anchor at block a that restores the affected products in the given order. */
  ghost predicate BackStep(cfg: Config, history: Hash -> View, t: Tables, a: nat, order: seq<Key>, u: Tables) {
    && t.cursor.Some? && a in t.anchors && Lists(order, Affected(t.journal, a))
    && var r := RestoreAll(cfg, t.(journal := Orphan(t.journal, a)), Kept(history, t, a), order);
       r.Ok? && u == r.value.(anchors := Trimmed(t.anchors, a), cursor := Some(Cursor(t.cursor.value.start, a, t.anchors[a])))
  }

  // ---- what a projection does to the rows ----

  /** The row of e is added for the product id, unless a row stands in its slot already. */
  ghost predicate RowAdded(before: map<Slot, HistoryRow>, productId: string, e: Event, after: map<Slot, HistoryRow>) {
    after == if TableOf(e).None? || SlotOf(e) in before then before else before[SlotOf(e) := RowOf(productId, e)]
  }

  lemma RecordedRow(before: map<Slot, HistoryRow>, productId: string, e: Event, after: map<Slot, HistoryRow>)
    requires Recorded(before, productId, e) == Ok(after)
    ensures RowAdded(before, productId, e, after) && RowsKept(before, after)
    ensures TableOf(e).Some? ==> SlotOf(e) in after && SameRow(after[SlotOf(e)], RowOf(productId, e))
  {}

  lemma BindKeeps(cfg: Config, t: Tables, e: Event, b: Tables)
    requires Bind(cfg, t, e) == Ok(b)
    ensures BindingsKept(t, b) && b.history == t.history && b.journal == t.journal
  {}

  lemma StepRow(e: Event, b: Tables, c: Tables, u: Tables)
    requires Steps(e, b, c, u)
    ensures e.log.product in u.bindings && BindingsKept(b, u) && u.journal == b.journal && u.history == c.history
    ensures RowAdded(b.history, u.bindings[e.log.product].productId, e, u.history) && RowsKept(b.history, u.history)
    ensures HasRow(u, e.log.product, e)
  {
    RecordedRow(b.history, b.bindings[e.log.product].productId, e, c.history);
  }

  /** A projected event adds its row, unless a row stands in its slot already, and touches no other. */
  lemma ProjectHistory(cfg: Config, t: Tables, e: Event, u: Tables)
    requires Project(cfg, t, e) == Ok(u)
    ensures e.log.product in u.bindings && BindingsKept(t, u) && u.journal == t.journal
    ensures RowAdded(t.history, u.bindings[e.log.product].productId, e, u.history) && RowsKept(t.history, u.history)
    ensures HasRow(u, e.log.product, e)
  {
    var b, c := ProjectParts(cfg, t, e, u);
    BindKeeps(cfg, t, e, b);
    StepRow(e, b, c, u);
  }

  lemma ProjectRows(cfg: Config, t: Tables, e: Event, u: Tables, m: Key, x: Event)
    requires Project(cfg, t, e) == Ok(u) && m in t.bindings && HasRow(t, m, x)
    ensures m in u.bindings && HasRow(u, m, x)
  {
    ProjectHistory(cfg, t, e, u);
  }

  lemma ProjectAllRows(cfg: Config, t: Tables, es: seq<Event>, e: Event, u: Tables)
    requires AllRows(t, es) && Project(cfg, t, e) == Ok(u)
    ensures AllRows(u, es + [e])
  {
    ProjectHistory(cfg, t, e, u);
    forall x | x in es ensures x.log.product in u.bindings && HasRow(u, x.log.product, x) {
      assert HasRow(t, x.log.product, x);
      ProjectRows(cfg, t, e, u, x.log.product, x);
    }
  }

  lemma KeptRows(a: map<Slot, HistoryRow>, b: map<Slot, HistoryRow>, c: map<Slot, HistoryRow>)
    requires RowsKept(a, b) && RowsKept(b, c)
    ensures RowsKept(a, c)
  {}

  /** Journaling keeps every row that was there. */
  lemma {:induction false} JournalAllKeepsRows(cfg: Config, t: Tables, batch: seq<Event>, u: Tables)
    requires JournalAll(cfg, t, batch) == Ok(u)
    ensures RowsKept(t.history, u.history)
  {
    if batch != [] {
      var e, w := batch[|batch| - 1], JournalAll(cfg, t, batch[..|batch| - 1]).value;
      JournalAllKeepsRows(cfg, t, batch[..|batch| - 1], w);
      JournalKeepsRows(cfg, w, e, u);
    }
  }

  lemma JournalKeepsRows(cfg: Config, t: Tables, e: Event, u: Tables)
    requires Journal(cfg, t, e) == Ok(u)
    ensures RowsKept(t.history, u.history)
  {
    var o := OccurrenceOf(e);
    if !(o in t.journal && t.journal[o].canonical) {
      var stored := if o in t.journal then t.journal[o].event else e;
      var j := t.(journal := t.journal[o := JournalRow(stored, true)]);
      assert Project(cfg, j, stored) == Ok(u) && j.history == t.history;
      ProjectHistory(cfg, j, stored, u);
    }
  }

  /** Journaling a new event gives it its row. */
  lemma JournalRows(cfg: Config, history: Hash -> View, t: Tables, es: seq<Event>, e: Event, u: Tables)
    requires GenuineJournal(history, t) && CanonicalIs(t, es) && Seen(history, e) && e !in es
    requires Journal(cfg, t, e) == Ok(u) && AllRows(t, es)
    ensures AllRows(u, es + [e])
  {
    var j := JournalParts(cfg, history, t, es, e, u);
    assert j.history == t.history && j.bindings == t.bindings;
    SameRows(t, j, es);
    ProjectAllRows(cfg, j, es, e, u);
  }

  lemma {:induction false} JournalAllRows(
      cfg: Config, history: Hash -> View, init: Tables, t: Tables, es: seq<Event>, batch: seq<Event>, u: Tables)
    requires Synced(cfg, history, init, t, es) && JournalAll(cfg, t, batch) == Ok(u)
    requires CanonicalKeys(cfg, history) && Strict(batch)
    requires forall e :: e in batch ==> Seen(history, e) && e !in es
    requires AllRows(t, es)
    ensures AllRows(u, es + batch)
  {
    if batch == [] {
      assert es + batch == es;
    } else {
      var early, e := batch[..|batch| - 1], batch[|batch| - 1];
      var w := JournalAll(cfg, t, early).value;
      LastIsNew(batch);
      JournalAllSynced(cfg, history, init, t, es, early, w);
      JournalAllRows(cfg, history, init, t, es, early, w);
      JournalRows(cfg, history, w, es + early, e, u);
      AppendLast(es, batch);
    }
  }

  /** The slot is that of one of the checkpoints and transfers of a list. */
  ghost predicate SlotIn(es: seq<Event>, s: Slot) {
    exists e :: e in es && TableOf(e).Some? && SlotOf(e) == s
  }

  ghost predicate Adds(before: map<Slot, HistoryRow>, es: seq<Event>, after: map<Slot, HistoryRow>) {
    forall s :: s in after ==> s in before || SlotIn(es, s)
  }

  lemma AddsOn(a: map<Slot, HistoryRow>, batch: seq<Event>, b: map<Slot, HistoryRow>, c: map<Slot, HistoryRow>)
    requires batch != [] && Adds(a, batch[..|batch| - 1], b)
    requires forall s :: s in c ==> s in b || (TableOf(batch[|batch| - 1]).Some? && SlotOf(batch[|batch| - 1]) == s)
    ensures Adds(a, batch, c)
  {
    assert batch[|batch| - 1] in batch;
    forall s | s in c && s !in a ensures SlotIn(batch, s) {
      if s in b {
        var e :| e in batch[..|batch| - 1] && TableOf(e).Some? && SlotOf(e) == s;
        assert e in batch;
      }
    }
  }

  /** The only rows a batch adds are those of its events. */
  lemma {:induction false} JournalAllAdds(
      cfg: Config, history: Hash -> View, init: Tables, t: Tables, es: seq<Event>, batch: seq<Event>, u: Tables)
    requires Synced(cfg, history, init, t, es) && JournalAll(cfg, t, batch) == Ok(u)
    requires CanonicalKeys(cfg, history) && Strict(batch)
    requires forall e :: e in batch ==> Seen(history, e) && e !in es
    ensures Adds(t.history, batch, u.history)
    decreases |batch|
  {
    if batch != [] {
      var early, e := batch[..|batch| - 1], batch[|batch| - 1];
      var w := JournalAll(cfg, t, early).value;
      LastIsNew(batch);
      JournalAllSynced(cfg, history, init, t, es, early, w);
      JournalAdds(cfg, history, w, es + early, e, u);
      JournalAllAdds(cfg, history, init, t, es, early, w);
      AddsOn(t.history, batch, w.history, u.history);
    }
  }

  lemma JournalAdds(cfg: Config, history: Hash -> View, t: Tables, es: seq<Event>, e: Event, u: Tables)
    requires GenuineJournal(history, t) && CanonicalIs(t, es) && Seen(history, e) && e !in es
    requires Journal(cfg, t, e) == Ok(u)
    ensures forall s :: s in u.history ==> s in t.history || (TableOf(e).Some? && SlotOf(e) == s)
  {
    var j := JournalParts(cfg, history, t, es, e, u);
    ProjectHistory(cfg, j, e, u);
  }

  /** A forward step keeps every row and completes those of its batch. */
  lemma ForwardRows(cfg: Config, history: Hash -> View, init: Tables, t: Tables, v: View, end: nat, u: Tables)
    requires t.cursor.Some? && Mirrors(cfg, history, init, t, history(t.cursor.value.hash))
    requires Genuine(history, v) && CanonicalKeys(cfg, history) && ForwardStep(cfg, t, v, end, u)
    ensures RowsKept(t.history, u.history)
    ensures HistoryComplete(history, t) ==> HistoryComplete(history, u)
  {
    var headers, w :| Batch(cfg, t, v, end, headers, w, u);
    JournalAllKeepsRows(cfg, t, EventsIn(v, t.cursor.value.last, end), w);
    if HistoryComplete(history, t) {
      BatchRows(cfg, history, init, t, history(t.cursor.value.hash), t.cursor.value, v, end, w);
      GenuineBranch(history, v, end);
      SameRows(w, u, EventsIn(v[..end + 1], t.cursor.value.start, end));
    }
  }

  lemma BatchRows(cfg: Config, history: Hash -> View, init: Tables, t: Tables, chain: View, c: Cursor, v: View, end: nat, w: Tables)
    requires Synced(cfg, history, init, t, EventsIn(chain, c.start, c.last)) && AllRows(t, EventsIn(chain, c.start, c.last))
    requires AtTip(history, chain, c) && Shows(v, c.last, c.hash)
    requires Genuine(history, v) && CanonicalKeys(cfg, history) && c.last < end < |v|
    requires JournalAll(cfg, t, EventsIn(v, c.last, end)) == Ok(w)
    ensures AllRows(w, EventsIn(v[..end + 1], c.start, end))
  {
    NextIsNew(history, chain, c, v, end);
    JournalAllRows(cfg, history, init, t, EventsIn(chain, c.start, c.last), EventsIn(v, c.last, end), w);
  }

  lemma ForwardAdds(cfg: Config, history: Hash -> View, init: Tables, t: Tables, v: View, end: nat, u: Tables)
    requires t.cursor.Some? && Mirrors(cfg, history, init, t, history(t.cursor.value.hash))
    requires Genuine(history, v) && CanonicalKeys(cfg, history) && ForwardStep(cfg, t, v, end, u)
    ensures Adds(t.history, EventsIn(v, t.cursor.value.last, end), u.history)
  {
    var c := t.cursor.value;
    var headers, w :| Batch(cfg, t, v, end, headers, w, u);
    BatchAdds(cfg, history, init, t, history(c.hash), c, v, end, w);
  }

  /** The next batch of a chain that extends the mirrored one is new. */
  lemma NextIsNew(history: Hash -> View, chain: View, c: Cursor, v: View, end: nat)
    requires AtTip(history, chain, c) && Shows(v, c.last, c.hash) && Genuine(history, v) && c.last < end < |v|
    ensures Strict(EventsIn(v, c.last, end))
    ensures forall e :: e in EventsIn(v, c.last, end) ==> Seen(history, e) && e !in EventsIn(chain, c.start, c.last)
    ensures EventsIn(chain, c.start, c.last) + EventsIn(v, c.last, end) == EventsIn(v[..end + 1], c.start, end)
  {
    assert chain == v[..c.last + 1];
    BatchIsNew(history, chain, v, c.start, c.last, end);
  }

  lemma BatchAdds(cfg: Config, history: Hash -> View, init: Tables, t: Tables, chain: View, c: Cursor, v: View, end: nat, w: Tables)
    requires Synced(cfg, history, init, t, EventsIn(chain, c.start, c.last))
    requires AtTip(history, chain, c) && Shows(v, c.last, c.hash)
    requires Genuine(history, v) && CanonicalKeys(cfg, history) && c.last < end < |v|
    requires JournalAll(cfg, t, EventsIn(v, c.last, end)) == Ok(w)
    ensures Adds(t.history, EventsIn(v, c.last, end), w.history)
  {
    var es, batch := EventsIn(chain, c.start, c.last), EventsIn(v, c.last, end);
    NextIsNew(history, chain, c, v, end);
    JournalAllAdds(cfg, history, init, t, es, batch, w);
  }

  lemma SameRows(t: Tables, u: Tables, es: seq<Event>)
    requires AllRows(t, es) && u.bindings == t.bindings && u.history == t.history
    ensures AllRows(u, es)
  {
    forall e | e in es ensures HasRow(u, e.log.product, e) {
      assert HasRow(t, e.log.product, e);
    }
  }

  // ---- what restoring a product does to the rows ----

  /** The rows of a product's events. */
  function RowsOf(productId: string, es: seq<Event>): map<Slot, HistoryRow> {
    if es == [] then map[]
    else
      var last := es[|es| - 1];
      RowsOf(productId, es[..|es| - 1]) + if TableOf(last).Some? then map[SlotOf(last) := RowOf(productId, last)] else map[]
  }

  lemma {:induction false} RowsOfSlots(productId: string, es: seq<Event>, s: Slot)
    ensures s in RowsOf(productId, es) ==> exists e :: e in es && TableOf(e).Some? && SlotOf(e) == s
  {
    if es != [] {
      SnocLast(es);
      RowsOfSlots(productId, es[..|es| - 1], s);
      assert es[|es| - 1] in es;
    }
  }

  lemma {:induction false} RowsOfEvents(productId: string, es: seq<Event>, e: Event)
    requires DistinctIds(es) && e in es && TableOf(e).Some?
    ensures SlotOf(e) in RowsOf(productId, es) && RowsOf(productId, es)[SlotOf(e)] == RowOf(productId, e)
  {
    var early, last := es[..|es| - 1], es[|es| - 1];
    if e != last {
      SnocLast(es);
      var i :| 0 <= i < |es| && es[i] == e;
      assert early[i] == e;
      DistinctInit(es, map[]);
      RowsOfEvents(productId, early, e);
      assert IdOf(es[i]) != IdOf(last);
    }
  }

  lemma LastSlotNew(id: string, rows: seq<Event>)
    requires rows != [] && DistinctIds(rows) && TableOf(rows[|rows| - 1]).Some?
    ensures SlotOf(rows[|rows| - 1]) !in RowsOf(id, rows[..|rows| - 1])
  {
    var n := |rows| - 1;
    RowsOfSlots(id, rows[..n], SlotOf(rows[n]));
    forall x | x in rows[..n] ensures IdOf(x) != IdOf(rows[n]) {
      var i :| 0 <= i < n && rows[i] == x;
    }
  }

  lemma AddedLast(before: map<Slot, HistoryRow>, id: string, rows: seq<Event>, w: map<Slot, HistoryRow>, u: map<Slot, HistoryRow>)
    requires rows != [] && DistinctIds(rows) && NoRows(before, rows)
    requires w == before + RowsOf(id, rows[..|rows| - 1]) && RowAdded(w, id, rows[|rows| - 1], u)
    ensures u == before + RowsOf(id, rows)
  {
    var e := rows[|rows| - 1];
    if TableOf(e).Some? {
      assert e in rows;
      LastSlotNew(id, rows);
      Appended(before, RowsOf(id, rows[..|rows| - 1]), SlotOf(e), RowOf(id, e));
    }
  }

  lemma Appended(a: map<Slot, HistoryRow>, b: map<Slot, HistoryRow>, s: Slot, row: HistoryRow)
    ensures (a + b)[s := row] == a + (b + map[s := row])
  {}

  /** Replaying events whose rows are not there adds exactly their rows. */
  lemma {:induction false} ReplayHistory(cfg: Config, t: Tables, k: Key, rows: seq<Event>, u: Tables)
    requires k in t.bindings && ProjectAll(cfg, t, rows) == Ok(u)
    requires DistinctIds(rows) && NoRows(t.history, rows) && forall e :: e in rows ==> e.log.product == k
    ensures BindingsKept(t, u) && u.journal == t.journal
    ensures u.history == t.history + RowsOf(t.bindings[k].productId, rows)
  {
    if rows == [] {
      assert t.history + map[] == t.history;
    } else {
      var early, e := rows[..|rows| - 1], rows[|rows| - 1];
      var w := ProjectAll(cfg, t, early).value;
      SnocLast(rows);
      DistinctInit(rows, t.history);
      ReplayHistory(cfg, t, k, early, w);
      ProjectHistory(cfg, w, e, u);
      assert e in rows;
      AddedLast(t.history, t.bindings[k].productId, rows, w.history, u.history);
    }
  }

  lemma ResetHistory(t: Tables, k: Key, rows: seq<Event>)
    requires k in t.bindings && t.bindings[k].productId in t.products
    requires forall e :: e in rows ==> IdOf(e) in KeyIds(t.journal, k)
    ensures var r := Reset(t, k);
      r.history == WithoutIds(t.history, KeyIds(t.journal, k)) && NoRows(r.history, rows)
      && BindingsKept(t, r) && r.journal == t.journal && r.bindings.Keys == t.bindings.Keys
  {}

  /** Restoring a product removes every row under an id of its journal and puts back the rows of the events it keeps. */
  lemma RestoredHistory(cfg: Config, t: Tables, k: Key, rows: seq<Event>, u: Tables)
    requires k in t.bindings && t.bindings[k].productId in t.products && ProjectAll(cfg, Reset(t, k), rows) == Ok(u)
    requires DistinctIds(rows) && forall e :: e in rows ==> e.log.product == k && IdOf(e) in KeyIds(t.journal, k)
    ensures BindingsKept(t, u) && u.journal == t.journal
    ensures u.history == WithoutIds(t.history, KeyIds(t.journal, k)) + RowsOf(t.bindings[k].productId, rows)
  {
    ResetHistory(t, k, rows);
    var r := Reset(t, k);
    ReplayHistory(cfg, r, k, rows, u);
  }

  // ---- restoring the affected products in some order ----

  function KeysOf(order: seq<Key>): set<Key> {
    set k | k in order
  }

  lemma ShareIsCanonical(t: Tables, kept: seq<Event>, k: Key)
    requires CanonicalIs(t, kept)
    ensures forall e :: e in Of(kept, k) <==> e in CanonicalOf(t, k)
  {
    OfMembers(kept, k);
    forall e | e in Of(kept, k) ensures e in CanonicalOf(t, k) {
      assert t.journal[OccurrenceOf(e)] == JournalRow(e, true);
    }
  }

  /** The next product can always be restored, whatever was restored before. */
  lemma RestoreNext(cfg: Config, history: Hash -> View, init: Tables, t: Tables, v: View, es: seq<Event>, kept: seq<Event>, todo: set<Key>, k: Key)
    requires Rewinding(cfg, history, init, t, es, kept, todo) && k in todo && CanonicalKeys(cfg, history)
    requires Strict(kept) && WellFormed(v) && forall e :: e in kept ==> On(v, e)
    ensures k in t.bindings && t.bindings[k].productId in t.products
    ensures var r := ProjectAll(cfg, Reset(t, k), Of(kept, k));
      r.Ok? && Rewinding(cfg, history, init, r.value, es, kept, todo - {k}) && BindingsKept(t, r.value) && r.value.journal == t.journal
  {
    RestoreReady(cfg, history, init, t, es, kept, todo, k);
    ShareIsCanonical(t, kept, k);
    OfStrict(kept, k);
    ReplayNeverFails(cfg, init, t, v, kept, k, Of(kept, k));
    Restored(cfg, history, init, t, es, kept, todo, k, Of(kept, k), ProjectAll(cfg, Reset(t, k), Of(kept, k)).value);
  }

  lemma RestoredOne(cfg: Config, history: Hash -> View, init: Tables, t: Tables, kept: seq<Event>, order: seq<Key>,
                    w: Tables, k: Key, rows: seq<Event>, u: Tables)
    requires RestoreAll(cfg, t, kept, order) == Ok(w) && rows == Of(kept, k)
    requires k in w.bindings && w.bindings[k].productId in w.products && ProjectAll(cfg, Reset(w, k), rows) == Ok(u)
    ensures RestoreAll(cfg, t, kept, order + [k]) == Ok(u)
  {
    assert (order + [k])[..|order|] == order;
  }

  lemma ListsOneMore(order: seq<Key>, keys: set<Key>, todo: set<Key>, k: Key)
    requires Lists(order, keys - todo) && k in todo && todo <= keys
    ensures Lists(order + [k], keys - (todo - {k}))
  {}

  /** Distinct keys of the set. */
  ghost predicate Within(order: seq<Key>, keys: set<Key>) {
    (forall k :: k in order ==> k in keys) && forall i, j :: 0 <= i < j < |order| ==> order[i] != order[j]
  }

  lemma NoneDone(order: seq<Key>, keys: set<Key>)
    requires order == []
    ensures keys - KeysOf(order) == keys
  {}

  lemma WithinInit(order: seq<Key>, keys: set<Key>)
    requires order != [] && Within(order, keys)
    ensures Within(order[..|order| - 1], keys)
    ensures order[|order| - 1] in keys - KeysOf(order[..|order| - 1])
    ensures keys - KeysOf(order) == keys - KeysOf(order[..|order| - 1]) - {order[|order| - 1]}
  {
    var n := |order| - 1;
    assert order == order[..n] + [order[n]];
    assert order[n] in order;
  }

  /** A restoration got through and left `todo` to do. */
  ghost predicate Restoring(cfg: Config, history: Hash -> View, init: Tables, t: Tables, es: seq<Event>, kept: seq<Event>, todo: set<Key>,
                            r: Result<Tables>) {
    r.Ok? && Rewinding(cfg, history, init, r.value, es, kept, todo) && BindingsKept(t, r.value) && r.value.journal == t.journal
  }

  lemma RestoreAllSnoc(cfg: Config, t: Tables, kept: seq<Event>, order: seq<Key>, w: Tables)
    requires order != [] && RestoreAll(cfg, t, kept, order[..|order| - 1]) == Ok(w)
    requires order[|order| - 1] in w.bindings && w.bindings[order[|order| - 1]].productId in w.products
    ensures RestoreAll(cfg, t, kept, order) == ProjectAll(cfg, Reset(w, order[|order| - 1]), Of(kept, order[|order| - 1]))
  {}

  lemma RestoringNext(cfg: Config, history: Hash -> View, init: Tables, t: Tables, v: View, es: seq<Event>, kept: seq<Event>, todo: set<Key>,
                      w: Tables, k: Key)
    requires Restoring(cfg, history, init, t, es, kept, todo, Ok(w)) && k in todo && CanonicalKeys(cfg, history)
    requires Strict(kept) && WellFormed(v) && forall e :: e in kept ==> On(v, e)
    ensures k in w.bindings && w.bindings[k].productId in w.products
    ensures Restoring(cfg, history, init, t, es, kept, todo - {k}, ProjectAll(cfg, Reset(w, k), Of(kept, k)))
  {
    RestoreNext(cfg, history, init, w, v, es, kept, todo, k);
    KeptThrough(t, w, ProjectAll(cfg, Reset(w, k), Of(kept, k)).value);
  }

  lemma RestoringNothing(cfg: Config, history: Hash -> View, init: Tables, t: Tables, es: seq<Event>, kept: seq<Event>, todo: set<Key>)
    requires Rewinding(cfg, history, init, t, es, kept, todo)
    ensures Restoring(cfg, history, init, t, es, kept, todo, RestoreAll(cfg, t, kept, []))
  {}

  lemma RestoringStep(cfg: Config, history: Hash -> View, init: Tables, t: Tables, v: View, es: seq<Event>, kept: seq<Event>, todo: set<Key>,
                      order: seq<Key>)
    requires order != [] && Restoring(cfg, history, init, t, es, kept, todo, RestoreAll(cfg, t, kept, order[..|order| - 1]))
    requires order[|order| - 1] in todo && CanonicalKeys(cfg, history)
    requires Strict(kept) && WellFormed(v) && forall e :: e in kept ==> On(v, e)
    ensures Restoring(cfg, history, init, t, es, kept, todo - {order[|order| - 1]}, RestoreAll(cfg, t, kept, order))
  {
    var w := RestoreAll(cfg, t, kept, order[..|order| - 1]).value;
    RestoringNext(cfg, history, init, t, v, es, kept, todo, w, order[|order| - 1]);
    RestoreAllSnoc(cfg, t, kept, order, w);
  }

  /** Restoring products in any order succeeds and leaves the others to do. */
  lemma {:induction false} RestoreAllRewinds(cfg: Config, history: Hash -> View, init: Tables, t: Tables, v: View, es: seq<Event>, kept: seq<Event>,
                                             todo: set<Key>, order: seq<Key>, rest: set<Key>)
    requires Rewinding(cfg, history, init, t, es, kept, todo) && Within(order, todo) && CanonicalKeys(cfg, history)
    requires Strict(kept) && WellFormed(v) && forall e :: e in kept ==> On(v, e)
    requires rest == todo - KeysOf(order)
    ensures Restoring(cfg, history, init, t, es, kept, rest, RestoreAll(cfg, t, kept, order))
    decreases |order|
  {
    if order == [] {
      NoneDone(order, todo);
      RestoringNothing(cfg, history, init, t, es, kept, todo);
    } else {
      var before := todo - KeysOf(order[..|order| - 1]);
      WithinInit(order, todo);
      RestoreAllRewinds(cfg, history, init, t, v, es, kept, todo, order[..|order| - 1], before);
      RestoringStep(cfg, history, init, t, v, es, kept, before, order);
    }
  }

  // ---- which rows a rewind loses ----

  /** Restoring product k deletes what is stored under an id of another product's event. */
  predicate Clashes(journal: map<Occurrence, JournalRow>, k: Key, e: Event) {
    k != e.log.product && IdOf(e) in KeyIds(journal, k)
  }

  /** A product restored in the order takes the row of e with it, and the product of e is not restored after that. */
  ghost predicate Clobbered(journal: map<Occurrence, JournalRow>, order: seq<Key>, e: Event) {
    exists i :: 0 <= i < |order| && Clashes(journal, order[i], e) && e.log.product !in order[i..]
  }

  /** The check that can be made on the journal before a rewind: no affected product shares an id with a kept row of another. */
  ghost predicate RewindSafe(journal: map<Occurrence, JournalRow>, affected: set<Key>, kept: seq<Event>) {
    forall k, e :: k in affected && e in kept && TableOf(e).Some? ==> !Clashes(journal, k, e)
  }

  lemma ClobberedSnoc(journal: map<Occurrence, JournalRow>, order: seq<Key>, k: Key, e: Event)
    ensures Clobbered(journal, order + [k], e) <==> k != e.log.product && (Clashes(journal, k, e) || Clobbered(journal, order, e))
  {
    var all := order + [k];
    if k != e.log.product {
      if Clashes(journal, k, e) {
        assert all[|order|..] == [k];
        assert Clashes(journal, all[|order|], e);
      }
      if Clobbered(journal, order, e) {
        var i :| 0 <= i < |order| && Clashes(journal, order[i], e) && e.log.product !in order[i..];
        assert all[i..] == order[i..] + [k] && all[i] == order[i];
      }
      if Clobbered(journal, all, e) {
        var i :| 0 <= i < |all| && Clashes(journal, all[i], e) && e.log.product !in all[i..];
        if i < |order| {
          assert all[i..] == order[i..] + [k] && all[i] == order[i];
        }
      }
    } else {
      forall i | 0 <= i < |all| ensures e.log.product in all[i..] {
        assert all[i..][|order| - i] == k;
      }
    }
  }

  lemma ClobberedLast(journal: map<Occurrence, JournalRow>, order: seq<Key>, e: Event)
    requires order != []
    ensures var k := order[|order| - 1];
      Clobbered(journal, order, e) <==> k != e.log.product && (Clashes(journal, k, e) || Clobbered(journal, order[..|order| - 1], e))
  {
    assert order[..|order| - 1] + [order[|order| - 1]] == order;
    ClobberedSnoc(journal, order[..|order| - 1], order[|order| - 1], e);
  }

  /** The events kept are journaled, one per id. */
  ghost predicate KeptJournaled(journal: map<Occurrence, JournalRow>, kept: seq<Event>) {
    DistinctIds(kept) && forall e :: e in kept ==> IdOf(e) in KeyIds(journal, e.log.product)
  }

  lemma ShareDistinct(kept: seq<Event>, k: Key)
    requires DistinctIds(kept) && Strict(kept)
    ensures DistinctIds(Of(kept, k))
  {
    OfMembers(kept, k);
    OfStrict(kept, k);
    var share := Of(kept, k);
    forall i, j | 0 <= i < j < |share| ensures IdOf(share[i]) != IdOf(share[j]) {
      assert share[i] in share && share[j] in share && Before(share[i], share[j]);
      SameIdSame(kept, share[i], share[j]);
    }
  }

  lemma SameIdSame(es: seq<Event>, a: Event, b: Event)
    requires DistinctIds(es) && a in es && b in es
    ensures IdOf(a) == IdOf(b) ==> a == b
  {
    var i :| 0 <= i < |es| && es[i] == a;
    var j :| 0 <= j < |es| && es[j] == b;
  }

  /** The slot of another product's event is not among the rows of a product's share. */
  lemma ForeignSlot(id: string, kept: seq<Event>, k: Key, e: Event)
    requires DistinctIds(kept) && e in kept && TableOf(e).Some? && k != e.log.product
    ensures SlotOf(e) !in RowsOf(id, Of(kept, k))
  {
    OfMembers(kept, k);
    RowsOfSlots(id, Of(kept, k), SlotOf(e));
    forall x | x in Of(kept, k) ensures IdOf(x) != IdOf(e) {
      SameIdSame(kept, x, e);
    }
  }

  /** The row of e after one product is restored. */
  lemma RowFate(t: Tables, kept: seq<Event>, k: Key, e: Event, u: Tables)
    requires DistinctIds(kept) && Strict(kept) && e in kept && TableOf(e).Some?
    requires k in t.bindings && e.log.product in t.bindings && BindingsKept(t, u)
    requires u.history == WithoutIds(t.history, KeyIds(t.journal, k)) + RowsOf(t.bindings[k].productId, Of(kept, k))
    ensures HasRow(u, e.log.product, e) <==> k == e.log.product || (HasRow(t, e.log.product, e) && !Clashes(t.journal, k, e))
  {
    if k == e.log.product {
      OfMembers(kept, k);
      ShareDistinct(kept, k);
      RowsOfEvents(t.bindings[k].productId, Of(kept, k), e);
    } else {
      ForeignSlot(t.bindings[k].productId, kept, k, e);
    }
  }

  lemma RestoredShareHistory(cfg: Config, t: Tables, kept: seq<Event>, k: Key, u: Tables)
    requires KeptJournaled(t.journal, kept) && Strict(kept)
    requires k in t.bindings && t.bindings[k].productId in t.products && ProjectAll(cfg, Reset(t, k), Of(kept, k)) == Ok(u)
    ensures BindingsKept(t, u) && u.journal == t.journal
    ensures u.history == WithoutIds(t.history, KeyIds(t.journal, k)) + RowsOf(t.bindings[k].productId, Of(kept, k))
  {
    OfMembers(kept, k);
    ShareDistinct(kept, k);
    RestoredHistory(cfg, t, k, Of(kept, k), u);
  }

  /** t became u and the row of e is there exactly when the order did not clobber it. */
  ghost predicate FateIs(t: Tables, order: seq<Key>, u: Tables, e: Event) {
    && BindingsKept(t, u) && u.journal == t.journal && e.log.product in u.bindings
    && (HasRow(u, e.log.product, e) <==> !Clobbered(t.journal, order, e))
  }

  lemma FateNothing(cfg: Config, t: Tables, kept: seq<Event>, u: Tables, e: Event)
    requires RestoreAll(cfg, t, kept, []) == Ok(u) && e.log.product in t.bindings && HasRow(t, e.log.product, e)
    ensures FateIs(t, [], u, e)
  {}

  lemma LastRestored(cfg: Config, t: Tables, kept: seq<Event>, order: seq<Key>, u: Tables) returns (w: Tables)
    requires order != [] && RestoreAll(cfg, t, kept, order) == Ok(u)
    ensures RestoreAll(cfg, t, kept, order[..|order| - 1]) == Ok(w)
    ensures var k := order[|order| - 1];
      k in w.bindings && w.bindings[k].productId in w.products && ProjectAll(cfg, Reset(w, k), Of(kept, k)) == Ok(u)
  {
    w := RestoreAll(cfg, t, kept, order[..|order| - 1]).value;
  }

  lemma FateNext(cfg: Config, t: Tables, w: Tables, kept: seq<Event>, order: seq<Key>, k: Key, u: Tables, e: Event)
    requires KeptJournaled(t.journal, kept) && Strict(kept) && e in kept && TableOf(e).Some?
    requires order != [] && k == order[|order| - 1] && FateIs(t, order[..|order| - 1], w, e)
    requires k in w.bindings && w.bindings[k].productId in w.products && ProjectAll(cfg, Reset(w, k), Of(kept, k)) == Ok(u)
    ensures FateIs(t, order, u, e)
  {
    RestoredShareHistory(cfg, w, kept, k, u);
    RowFate(w, kept, k, e, u);
    ClobberedLast(t.journal, order, e);
    KeptThrough(t, w, u);
  }

  /** After restoring products in some order a row is there exactly when it was not clobbered on the way. */
  lemma {:induction false} RestoreAllRows(cfg: Config, t: Tables, kept: seq<Event>, order: seq<Key>, u: Tables, e: Event)
    requires KeptJournaled(t.journal, kept) && Strict(kept) && e in kept && TableOf(e).Some?
    requires RestoreAll(cfg, t, kept, order) == Ok(u)
    requires e.log.product in t.bindings && HasRow(t, e.log.product, e)
    ensures FateIs(t, order, u, e)
    decreases |order|
  {
    if order == [] {
      assert order == [];
      FateNothing(cfg, t, kept, u, e);
    } else {
      var w := LastRestored(cfg, t, kept, order, u);
      RestoreAllRows(cfg, t, kept, order[..|order| - 1], w, e);
      FateNext(cfg, t, w, kept, order, order[|order| - 1], u, e);
    }
  }

  // ---- rewinds ----

  lemma Safe(journal: map<Occurrence, JournalRow>, affected: set<Key>, kept: seq<Event>, order: seq<Key>, e: Event)
    requires RewindSafe(journal, affected, kept) && Within(order, affected) && e in kept && TableOf(e).Some?
    ensures !Clobbered(journal, order, e)
  {}

  /** Some order of the set ends with a given product. */
  lemma OrderEndingIn(keys: set<Key>, k: Key) returns (order: seq<Key>)
    requires k in keys
    ensures Lists(order, keys) && order[|order| - 1] == k
  {
    order := OrderOf(keys - {k});
    order := order + [k];
  }

  lemma OrderOf(keys: set<Key>) returns (order: seq<Key>)
    ensures Lists(order, keys)
    decreases keys
  {
    if keys == {} {
      order := [];
    } else {
      var k :| k in keys;
      order := OrderOf(keys - {k});
      order := order + [k];
    }
  }

  lemma KeptStrict(history: Hash -> View, t: Tables, a: nat)
    requires t.cursor.Some? && WellFormed(ChainOf(history, t))
    ensures Strict(Indexed(history, t)) && Strict(Kept(history, t, a))
    ensures forall e :: e in Kept(history, t, a) ==> e in Indexed(history, t) && On(ChainOf(history, t), e)
    ensures DistinctIds(Kept(history, t, a))
  {
    var es, kept, chain := Indexed(history, t), Kept(history, t, a), ChainOf(history, t);
    EventsInStrict(chain, t.cursor.value.start, t.cursor.value.last);
    UpToStrict(es, a);
    KeptOnChain(chain, t.cursor.value.start, t.cursor.value.last, a);
    UpToMembers(es, a);
    ChainDistinct(chain, kept);
  }

  lemma KeptOnChain(chain: View, low: nat, high: nat, n: nat)
    ensures forall e :: e in UpTo(EventsIn(chain, low, high), n) ==> On(chain, e)
  {
    var es := EventsIn(chain, low, high);
    UpToMembers(es, n);
    forall e | e in es ensures On(chain, e) {
      EventsInExact(chain, low, high, e);
    }
  }

  lemma CanonicalJournaled(t: Tables, es: seq<Event>, e: Event)
    requires CanonicalIs(t, es) && e in es
    ensures IdOf(e) in KeyIds(t.journal, e.log.product)
  {
    assert t.journal[OccurrenceOf(e)].event == e;
  }

  lemma OrphanIds(journal: map<Occurrence, JournalRow>, a: nat, k: Key)
    ensures KeyIds(Orphan(journal, a), k) == KeyIds(journal, k)
  {
    var u := Orphan(journal, a);
    forall id ensures id in KeyIds(u, k) <==> id in KeyIds(journal, k) {
      if id in KeyIds(journal, k) {
        var o :| o in journal && journal[o].event.log.product == k && id == IdOf(journal[o].event);
        assert u[o].event == journal[o].event;
      }
      if id in KeyIds(u, k) {
        var o :| o in u && u[o].event.log.product == k && id == IdOf(u[o].event);
        assert u[o].event == journal[o].event;
      }
    }
  }

  lemma IndexedKept(cfg: Config, history: Hash -> View, init: Tables, t: Tables, a: nat)
    requires t.cursor.Some? && Mirrors(cfg, history, init, t, ChainOf(history, t))
    ensures Strict(Indexed(history, t)) && Strict(Kept(history, t, a))
    ensures forall e :: e in Kept(history, t, a) ==> On(ChainOf(history, t), e) && e in Indexed(history, t)
    ensures KeptJournaled(t.journal, Kept(history, t, a)) && WellFormed(ChainOf(history, t))
  {
    KeptStrict(history, t, a);
    forall e | e in Kept(history, t, a) ensures IdOf(e) in KeyIds(t.journal, e.log.product) {
      CanonicalJournaled(t, Indexed(history, t), e);
    }
  }

  lemma OrphanJournaled(journal: map<Occurrence, JournalRow>, a: nat, kept: seq<Event>)
    requires KeptJournaled(journal, kept)
    ensures KeptJournaled(Orphan(journal, a), kept)
  {
    forall k { OrphanIds(journal, a, k); }
  }

  /** The restoration of a rewind succeeds in any order. */
  lemma RewindRestores(cfg: Config, history: Hash -> View, init: Tables, t: Tables, a: nat, order: seq<Key>) returns (w: Tables)
    requires t.cursor.Some? && Mirrors(cfg, history, init, t, ChainOf(history, t)) && CanonicalKeys(cfg, history)
    requires Lists(order, Affected(t.journal, a))
    ensures RestoreAll(cfg, t.(journal := Orphan(t.journal, a)), Kept(history, t, a), order) == Ok(w)
    ensures Synced(cfg, history, init, w, Kept(history, t, a)) && w.journal == Orphan(t.journal, a) && BindingsKept(t, w)
  {
    var j := t.(journal := Orphan(t.journal, a));
    IndexedKept(cfg, history, init, t, a);
    RewindStarts(cfg, history, init, t, Indexed(history, t), a, j);
    w := RestoresFrom(cfg, history, init, j, ChainOf(history, t), Indexed(history, t), Kept(history, t, a), Affected(t.journal, a), order);
  }

  lemma RestoresFrom(cfg: Config, history: Hash -> View, init: Tables, j: Tables, v: View, es: seq<Event>, kept: seq<Event>,
                     todo: set<Key>, order: seq<Key>) returns (w: Tables)
    requires Rewinding(cfg, history, init, j, es, kept, todo) && Lists(order, todo) && CanonicalKeys(cfg, history)
    requires Strict(kept) && WellFormed(v) && forall e :: e in kept ==> On(v, e)
    ensures RestoreAll(cfg, j, kept, order) == Ok(w)
    ensures Synced(cfg, history, init, w, kept) && w.journal == j.journal && BindingsKept(j, w)
  {
    AllListed(order, todo);
    RestoreAllRewinds(cfg, history, init, j, v, es, kept, todo, order, {});
    w := RestoreAll(cfg, j, kept, order).value;
    RewindEnds(cfg, history, init, w, es, kept);
  }

  /** A rewind to any anchor succeeds in any order. */
  lemma BackStepExists(cfg: Config, history: Hash -> View, init: Tables, t: Tables, a: nat, order: seq<Key>) returns (u: Tables)
    requires t.cursor.Some? && Mirrors(cfg, history, init, t, ChainOf(history, t)) && CanonicalKeys(cfg, history)
    requires a in t.anchors && Lists(order, Affected(t.journal, a))
    ensures BackStep(cfg, history, t, a, order, u)
  {
    var w := RewindRestores(cfg, history, init, t, a, order);
    u := w.(anchors := Trimmed(t.anchors, a), cursor := Some(Cursor(t.cursor.value.start, a, t.anchors[a])));
  }

  /** After a rewind the database mirrors the chain up to the anchor. */
  lemma BackStepMirrors(cfg: Config, history: Hash -> View, init: Tables, t: Tables, a: nat, order: seq<Key>, u: Tables)
    requires t.cursor.Some? && Mirrors(cfg, history, init, t, ChainOf(history, t)) && CanonicalKeys(cfg, history)
    requires BackStep(cfg, history, t, a, order, u)
    ensures u.cursor.Some? && Mirrors(cfg, history, init, u, ChainOf(history, u)) && Indexed(history, u) == Kept(history, t, a)
    ensures u.journal == Orphan(t.journal, a) && BindingsKept(t, u)
  {
    var w := RewindRestores(cfg, history, init, t, a, order);
    RewoundAt(cfg, history, init, t, a, w, u);
  }

  lemma RewoundAt(cfg: Config, history: Hash -> View, init: Tables, t: Tables, a: nat, w: Tables, u: Tables)
    requires t.cursor.Some? && Mirrors(cfg, history, init, t, ChainOf(history, t)) && a in t.anchors
    requires Synced(cfg, history, init, w, Kept(history, t, a))
    requires u == w.(anchors := Trimmed(t.anchors, a), cursor := Some(Cursor(t.cursor.value.start, a, t.anchors[a])))
    ensures Mirrors(cfg, history, init, u, ChainOf(history, u)) && Indexed(history, u) == Kept(history, t, a)
  {
    Rewound(cfg, history, init, t, a, w, u);
    GenuineBranch(history, ChainOf(history, t), a);
    UpToEvents(ChainOf(history, t), t.cursor.value.start, a, t.cursor.value.last);
  }

  lemma AllListed(order: seq<Key>, keys: set<Key>)
    requires Lists(order, keys)
    ensures Within(order, keys) && {} == keys - KeysOf(order)
  {}

  lemma BackParts(cfg: Config, history: Hash -> View, t: Tables, a: nat, order: seq<Key>, u: Tables) returns (j: Tables, w: Tables)
    requires BackStep(cfg, history, t, a, order, u)
    ensures j == t.(journal := Orphan(t.journal, a)) && RestoreAll(cfg, j, Kept(history, t, a), order) == Ok(w)
    ensures u.bindings == w.bindings && u.history == w.history && u.journal == w.journal
  {
    j := t.(journal := Orphan(t.journal, a));
    w := RestoreAll(cfg, j, Kept(history, t, a), order).value;
  }

  /** What a rewind does to the row of a kept event. */
  lemma RewindRow(cfg: Config, history: Hash -> View, init: Tables, t: Tables, a: nat, order: seq<Key>, u: Tables, e: Event)
    requires t.cursor.Some? && Mirrors(cfg, history, init, t, ChainOf(history, t)) && HistoryComplete(history, t)
    requires BackStep(cfg, history, t, a, order, u) && e in Kept(history, t, a)
    ensures e.log.product in u.bindings
    ensures HasRow(u, e.log.product, e) <==> TableOf(e).None? || !Clobbered(t.journal, order, e)
  {
    var j, w := BackParts(cfg, history, t, a, order, u);
    IndexedKept(cfg, history, init, t, a);
    OrphanJournaled(t.journal, a, Kept(history, t, a));
    SameClobbered(t.journal, a, order, e);
    RestoredRow(cfg, t, j, Kept(history, t, a), order, w, e);
  }

  lemma RestoredRow(cfg: Config, t: Tables, j: Tables, kept: seq<Event>, order: seq<Key>, w: Tables, e: Event)
    requires j == t.(journal := j.journal) && KeptJournaled(j.journal, kept) && Strict(kept) && e in kept
    requires e.log.product in t.bindings && HasRow(t, e.log.product, e) && RestoreAll(cfg, j, kept, order) == Ok(w)
    ensures e.log.product in w.bindings
    ensures HasRow(w, e.log.product, e) <==> TableOf(e).None? || !Clobbered(j.journal, order, e)
  {
    if TableOf(e).Some? {
      RestoreAllRows(cfg, j, kept, order, w, e);
    } else {
      RestoreAllBinds(cfg, j, kept, order, w);
    }
  }

  lemma SameClobbered(journal: map<Occurrence, JournalRow>, a: nat, order: seq<Key>, e: Event)
    ensures Clobbered(Orphan(journal, a), order, e) <==> Clobbered(journal, order, e)
  {
    forall k ensures Clashes(Orphan(journal, a), k, e) <==> Clashes(journal, k, e) {
      OrphanIds(journal, a, k);
    }
  }

  /** A rewind keeps the history complete in whatever order it restores, if and only if the journal passes the check beforehand. */
  lemma RewindKeepsRowsExactly(cfg: Config, history: Hash -> View, init: Tables, t: Tables, a: nat)
    requires t.cursor.Some? && Mirrors(cfg, history, init, t, ChainOf(history, t)) && CanonicalKeys(cfg, history)
    requires HistoryComplete(history, t) && a in t.anchors
    ensures RewindSafe(t.journal, Affected(t.journal, a), Kept(history, t, a)) <==>
      forall order, u :: BackStep(cfg, history, t, a, order, u) ==> HistoryComplete(history, u)
  {
    var affected, kept := Affected(t.journal, a), Kept(history, t, a);
    if RewindSafe(t.journal, affected, kept) {
      forall order, u | BackStep(cfg, history, t, a, order, u) ensures HistoryComplete(history, u) {
        SafeRewind(cfg, history, init, t, a, order, u);
      }
    } else {
      var k, e :| k in affected && e in kept && TableOf(e).Some? && Clashes(t.journal, k, e);
      var order, u := LosingRewind(cfg, history, init, t, a, k, e);
    }
  }

  lemma SafeRewind(cfg: Config, history: Hash -> View, init: Tables, t: Tables, a: nat, order: seq<Key>, u: Tables)
    requires t.cursor.Some? && Mirrors(cfg, history, init, t, ChainOf(history, t)) && CanonicalKeys(cfg, history)
    requires HistoryComplete(history, t) && BackStep(cfg, history, t, a, order, u)
    requires RewindSafe(t.journal, Affected(t.journal, a), Kept(history, t, a))
    ensures HistoryComplete(history, u)
  {
    BackStepMirrors(cfg, history, init, t, a, order, u);
    SafeRows(cfg, history, init, t, a, order, u, Kept(history, t, a));
  }

  lemma SafeRows(cfg: Config, history: Hash -> View, init: Tables, t: Tables, a: nat, order: seq<Key>, u: Tables, kept: seq<Event>)
    requires t.cursor.Some? && Mirrors(cfg, history, init, t, ChainOf(history, t)) && HistoryComplete(history, t)
    requires BackStep(cfg, history, t, a, order, u) && kept == Kept(history, t, a)
    requires RewindSafe(t.journal, Affected(t.journal, a), kept)
    ensures AllRows(u, kept)
  {
    AllListed(order, Affected(t.journal, a));
    forall e | e in kept ensures e.log.product in u.bindings && HasRow(u, e.log.product, e) {
      RewindRow(cfg, history, init, t, a, order, u, e);
      if TableOf(e).Some? { Safe(t.journal, Affected(t.journal, a), kept, order, e); }
    }
  }

  /** Restoring the clashing product last deletes the row for good. */
  lemma LosingRewind(cfg: Config, history: Hash -> View, init: Tables, t: Tables, a: nat, k: Key, e: Event) returns (order: seq<Key>, u: Tables)
    requires t.cursor.Some? && Mirrors(cfg, history, init, t, ChainOf(history, t)) && CanonicalKeys(cfg, history)
    requires HistoryComplete(history, t) && a in t.anchors
    requires k in Affected(t.journal, a) && e in Kept(history, t, a) && TableOf(e).Some? && Clashes(t.journal, k, e)
    ensures BackStep(cfg, history, t, a, order, u) && !HistoryComplete(history, u)
    ensures e.log.product in u.bindings && !HasRow(u, e.log.product, e)
  {
    order := OrderEndingIn(Affected(t.journal, a), k);
    u := BackStepExists(cfg, history, init, t, a, order);
    BackStepMirrors(cfg, history, init, t, a, order, u);
    ClobberedLast(t.journal, order, e);
    RewindRow(cfg, history, init, t, a, order, u, e);
    assert e in Indexed(history, u);
  }

  /** A journal with one product per id passes the check. */
  lemma OneProductIsSafe(cfg: Config, history: Hash -> View, init: Tables, t: Tables, a: nat)
    requires t.cursor.Some? && Mirrors(cfg, history, init, t, ChainOf(history, t)) && OneProductPerId(t.journal)
    ensures RewindSafe(t.journal, Affected(t.journal, a), Kept(history, t, a))
  {
    IndexedKept(cfg, history, init, t, a);
    forall k, e | k in Affected(t.journal, a) && e in Kept(history, t, a) ensures !Clashes(t.journal, k, e) {
      assert t.journal[OccurrenceOf(e)] == JournalRow(e, true);
      OneProductNoClash(t.journal, k, e);
    }
  }

  lemma OneProductNoClash(journal: map<Occurrence, JournalRow>, k: Key, e: Event)
    requires OneProductPerId(journal) && OccurrenceOf(e) in journal && journal[OccurrenceOf(e)].event == e
    requires forall o :: o in journal ==> OccurrenceOf(journal[o].event) == o
    ensures !Clashes(journal, k, e)
  {
    if IdOf(e) in KeyIds(journal, k) {
      var o :| o in journal && journal[o].event.log.product == k && IdOf(journal[o].event) == IdOf(e);
      assert o.id == OccurrenceOf(e).id;
    }
  }

  lemma {:induction false} RestoreAllBinds(cfg: Config, t: Tables, kept: seq<Event>, order: seq<Key>, u: Tables)
    requires RestoreAll(cfg, t, kept, order) == Ok(u)
    ensures BindingsKept(t, u)
    decreases |order|
  {
    if order == [] {
      assert order == [];
    } else {
      var w := LastRestored(cfg, t, kept, order, u);
      var k := order[|order| - 1];
      RestoreAllBinds(cfg, t, kept, order[..|order| - 1], w);
      ResetKept(w, k);
      ProjectAllBinds(cfg, Reset(w, k), Of(kept, k), u);
      KeptThrough(w, Reset(w, k), u);
      KeptThrough(t, w, u);
    }
  }

  lemma {:induction false} ProjectAllBinds(cfg: Config, t: Tables, es: seq<Event>, u: Tables)
    requires ProjectAll(cfg, t, es) == Ok(u)
    ensures BindingsKept(t, u)
  {
    if es != [] {
      var w := ProjectAll(cfg, t, es[..|es| - 1]).value;
      ProjectAllBinds(cfg, t, es[..|es| - 1], w);
      ProjectHistory(cfg, w, es[|es| - 1], u);
      KeptThrough(t, w, u);
    }
  }

  /** Restoring products removes every row under an id of their journals, except the rows of kept events. */
  lemma {:induction false} RestoreRemoves(cfg: Config, t: Tables, kept: seq<Event>, order: seq<Key>, u: Tables, s: Slot)
    requires KeptJournaled(t.journal, kept) && Strict(kept) && RestoreAll(cfg, t, kept, order) == Ok(u) && !SlotIn(kept, s)
    ensures u.journal == t.journal
    ensures s in u.history <==> s in t.history && forall k :: k in order ==> s.id !in KeyIds(t.journal, k)
    decreases |order|
  {
    if order == [] {
      assert order == [];
    } else {
      var w := LastRestored(cfg, t, kept, order, u);
      var k := order[|order| - 1];
      RestoreRemoves(cfg, t, kept, order[..|order| - 1], w, s);
      RestoredShareHistory(cfg, w, kept, k, u);
      NotInShare(w.bindings[k].productId, kept, k, s);
      assert order == order[..|order| - 1] + [k];
    }
  }

  lemma NotInShare(id: string, kept: seq<Event>, k: Key, s: Slot)
    requires !SlotIn(kept, s)
    ensures s !in RowsOf(id, Of(kept, k))
  {
    OfMembers(kept, k);
    RowsOfSlots(id, Of(kept, k), s);
  }

  /** Of the rows that no kept event explains, a rewind removes exactly those under an id of an affected product's journal. */
  lemma RewindRemoves(cfg: Config, history: Hash -> View, init: Tables, t: Tables, a: nat, order: seq<Key>, u: Tables, s: Slot)
    requires t.cursor.Some? && Mirrors(cfg, history, init, t, ChainOf(history, t))
    requires BackStep(cfg, history, t, a, order, u) && !SlotIn(Kept(history, t, a), s)
    ensures s in u.history <==> s in t.history && forall k :: k in Affected(t.journal, a) ==> s.id !in KeyIds(t.journal, k)
  {
    var j, w := BackParts(cfg, history, t, a, order, u);
    IndexedKept(cfg, history, init, t, a);
    OrphanJournaled(t.journal, a, Kept(history, t, a));
    RestoreRemoves(cfg, j, Kept(history, t, a), order, w, s);
    forall k { OrphanIds(t.journal, a, k); }
  }
}
