/** Attribution of untagged history rows to the one log that explains each of them. */
module LegacyHistory {
  import opened Prelude
  import opened Chains
  import opened Projection
  import opened IndexerSpec
  import opened IdentitySpec
  import opened IdentityMerge

  /** A history row is the projection of a log, up to the spelling of its product id and of empty notes. */
  predicate Explains(cfg: Config, id: RefId, r: Ref, e: Event) {
    && cfg.canonical(r.productId) == Some(e.log.product)
    && match (id.table, r.columns, e.log.payload)
       case (CheckpointRef, CheckpointColumns(location, status, handler, notes, at, number, tx), CheckpointRecorded(l, s, h, t, n)) =>
         && Lower(tx) == e.log.tx && number == e.number && at == t
         && location == l && status == StatusText(s) && Lower(handler) == Lower(h)
         && (if notes.Some? then notes.value else "") == n
       case (TransferRef, TransferColumns(sender, recipient, at, number, tx), CustodyTransferred(f, r', t)) =>
         && Lower(tx) == e.log.tx && number == e.number && at == t
         && Lower(sender) == Lower(f) && Lower(recipient) == Lower(r')
       case _ => false
  }

  /** The ids of the logs that explain a row, in log order. */
  function Found(cfg: Config, id: RefId, r: Ref, events: seq<Event>): seq<EventId> {
    if events == [] then []
    else
      var last := events[|events| - 1];
      Found(cfg, id, r, events[..|events| - 1]) + if Explains(cfg, id, r, last) then [IdOf(last)] else []
  }

  predicate Untagged(refs: map<RefId, Ref>, id: RefId) {
    id in refs && !id.table.ShipmentRef? && refs[id].source.None?
  }

  /** Some row of the table already carries the id. */
  predicate Taken(refs: map<RefId, Ref>, table: RefTable, source: EventId) {
    exists id :: id in refs && id.table == table && refs[id].source == Some(source)
  }

  predicate Attributable(cfg: Config, refs: map<RefId, Ref>, events: seq<Event>, id: RefId)
    requires id in refs
  {
    var found := Found(cfg, id, refs[id], events);
    |found| == 1 && !Taken(refs, id.table, found[0])
  }

  /** The log of an attributable row. */
  function SourceOf(cfg: Config, refs: map<RefId, Ref>, events: seq<Event>, id: RefId): EventId
    requires id in refs && Attributable(cfg, refs, events, id)
  {
    Found(cfg, id, refs[id], events)[0]
  }

  ghost predicate AllAttributable(cfg: Config, refs: map<RefId, Ref>, events: seq<Event>) {
    forall id :: Untagged(refs, id) ==> Attributable(cfg, refs, events, id)
  }

  ghost predicate NoSharedLog(cfg: Config, refs: map<RefId, Ref>, events: seq<Event>) {
    forall a, b :: Untagged(refs, a) && Untagged(refs, b) && a != b
      && Attributable(cfg, refs, events, a) && Attributable(cfg, refs, events, b)
      ==> SourceOf(cfg, refs, events, a) != SourceOf(cfg, refs, events, b)
  }

  /** Every untagged row tagged with its log. */
  function Attributed(cfg: Config, refs: map<RefId, Ref>, events: seq<Event>): map<RefId, Ref> {
    map id | id in refs ::
      if Untagged(refs, id) && Attributable(cfg, refs, events, id) then refs[id].(source := Some(SourceOf(cfg, refs, events, id)))
      else refs[id]
  }

  ghost predicate Clean(cfg: Config, refs: map<RefId, Ref>, events: seq<Event>) {
    AllAttributable(cfg, refs, events) && NoSharedLog(cfg, refs, events)
  }

  // ---- laws ----

  lemma {:induction false} FoundExact(cfg: Config, id: RefId, r: Ref, events: seq<Event>, source: EventId)
    ensures source in Found(cfg, id, r, events) <==> exists e :: e in events && Explains(cfg, id, r, e) && IdOf(e) == source
  {
    if events != [] {
      var early, last := events[..|events| - 1], events[|events| - 1];
      FoundExact(cfg, id, r, early, source);
      assert events == early + [last];
    }
  }

  lemma {:induction false} FoundNone(cfg: Config, id: RefId, r: Ref, events: seq<Event>)
    ensures Found(cfg, id, r, events) == [] <==> forall e :: e in events ==> !Explains(cfg, id, r, e)
  {
    if events != [] {
      FoundNone(cfg, id, r, events[..|events| - 1]);
      assert events == events[..|events| - 1] + [events[|events| - 1]];
    }
  }

  /** Only the i-th log of the list explains the row. */
  predicate OnlyLog(cfg: Config, id: RefId, r: Ref, events: seq<Event>, i: nat) {
    i < |events| && Explains(cfg, id, r, events[i]) && forall j :: 0 <= j < |events| && j != i ==> !Explains(cfg, id, r, events[j])
  }

  lemma {:induction false} FoundOne(cfg: Config, id: RefId, r: Ref, events: seq<Event>, source: EventId)
    ensures Found(cfg, id, r, events) == [source] <==> exists i: nat :: OnlyLog(cfg, id, r, events, i) && IdOf(events[i]) == source
  {
    if events != [] {
      var n := |events| - 1;
      var early := events[..n];
      FoundOne(cfg, id, r, early, source);
      FoundNone(cfg, id, r, early);
      var all := Found(cfg, id, r, events);
      if Explains(cfg, id, r, events[n]) {
        assert all == Found(cfg, id, r, early) + [IdOf(events[n])];
        assert all == [source] <==> Found(cfg, id, r, early) == [] && IdOf(events[n]) == source by { assert all[|all| - 1] == IdOf(events[n]); }
        if Found(cfg, id, r, early) == [] {
          forall j | 0 <= j < n ensures !Explains(cfg, id, r, events[j]) { assert early[j] in early; }
          assert OnlyLog(cfg, id, r, events, n);
          forall i: nat ensures OnlyLog(cfg, id, r, events, i) <==> i == n {}
        } else {
          var e :| e in early && Explains(cfg, id, r, e);
          var k :| 0 <= k < n && early[k] == e;
          assert Explains(cfg, id, r, events[k]);
          forall i: nat ensures !OnlyLog(cfg, id, r, events, i) {}
        }
      } else {
        assert all == Found(cfg, id, r, early);
        forall i: nat ensures OnlyLog(cfg, id, r, events, i) <==> OnlyLog(cfg, id, r, early, i) {
          assert forall j :: 0 <= j < n ==> early[j] == events[j];
        }
      }
    }
  }

  /** An untagged row can be tagged exactly when one log of the list explains it, no other does, and no row of its table carries that
      log's id; and then that is its tag. */
  lemma AttributableExactly(cfg: Config, refs: map<RefId, Ref>, events: seq<Event>, id: RefId, source: EventId)
    requires id in refs
    ensures Attributable(cfg, refs, events, id) && SourceOf(cfg, refs, events, id) == source <==>
      && (exists i: nat :: OnlyLog(cfg, id, refs[id], events, i) && IdOf(events[i]) == source)
      && (forall x :: x in refs && x.table == id.table ==> refs[x].source != Some(source))
  {
    FoundOne(cfg, id, refs[id], events, source);
    var found := Found(cfg, id, refs[id], events);
    assert |found| == 1 && found[0] == source <==> found == [source];
  }

  /** A clean attribution leaves no untagged row, gives each row a log that explains it, never reuses an id the table
      already holds, and never gives one log to two rows. */
  lemma AttributionSound(cfg: Config, refs: map<RefId, Ref>, events: seq<Event>, a: RefId)
    requires Clean(cfg, refs, events) && Untagged(refs, a)
    ensures var after := Attributed(cfg, refs, events);
      && after.Keys == refs.Keys && after[a].source.Some? && after[a] == refs[a].(source := after[a].source)
      && (exists e :: e in events && Explains(cfg, a, refs[a], e) && after[a].source == Some(IdOf(e)))
      && (forall b :: b in refs && b != a && (b.table == a.table || Untagged(refs, b)) ==> after[b].source != after[a].source)
  {
    var source := SourceOf(cfg, refs, events, a);
    assert source in Found(cfg, a, refs[a], events);
    FoundExact(cfg, a, refs[a], events, source);
  }

  /** Every checkpoint and transfer has a tag afterwards; shipments and rows that had one stay, and of the others only the tag is new. */
  lemma AttributedRow(cfg: Config, refs: map<RefId, Ref>, events: seq<Event>, id: RefId)
    requires Clean(cfg, refs, events)
    ensures id in Attributed(cfg, refs, events) <==> id in refs
    ensures id in refs ==>
      var was, now := refs[id], Attributed(cfg, refs, events)[id];
      && (id.table == ShipmentRef || was.source.Some? ==> now == was)
      && (id.table != ShipmentRef ==> now.source.Some? && now.productId == was.productId && now.columns == was.columns)
  {
    if Untagged(refs, id) { assert Attributable(cfg, refs, events, id); }
  }

  /** A second run finds nothing to do. */
  lemma AttributionIdempotent(cfg: Config, refs: map<RefId, Ref>, events: seq<Event>)
    requires Clean(cfg, refs, events)
    ensures Clean(cfg, Attributed(cfg, refs, events), events)
    ensures forall id :: !Untagged(Attributed(cfg, refs, events), id)
    ensures Attributed(cfg, Attributed(cfg, refs, events), events) == Attributed(cfg, refs, events)
  {
    forall id ensures !Untagged(Attributed(cfg, refs, events), id) {
      assert Untagged(refs, id) ==> Attributable(cfg, refs, events, id);
    }
  }

  // ---- what decides a tag ----

  /** A row's columns as the matcher reads them: addresses and hashes without case, missing notes as empty ones. */
  function AsRead(c: Columns): Columns {
    match c
    case CheckpointColumns(location, status, handler, notes, at, number, tx) =>
      CheckpointColumns(location, status, Lower(handler), Some(if notes.Some? then notes.value else ""), at, number, Lower(tx))
    case TransferColumns(sender, recipient, at, number, tx) =>
      TransferColumns(Lower(sender), Lower(recipient), at, number, Lower(tx))
    case ShipmentColumns(_) => c
  }

  /** Two rows the matcher cannot tell apart. */
  predicate ReadAlike(cfg: Config, r: Ref, s: Ref) {
    cfg.canonical(r.productId) == cfg.canonical(s.productId) && AsRead(r.columns) == AsRead(s.columns)
  }

  lemma {:induction false} FoundAlike(cfg: Config, id: RefId, r: Ref, s: Ref, events: seq<Event>)
    requires ReadAlike(cfg, r, s)
    ensures Found(cfg, id, r, events) == Found(cfg, id, s, events)
  {
    if events != [] {
      FoundAlike(cfg, id, r, s, events[..|events| - 1]);
    }
  }

  /** The log that explains a row fixes every column the matcher reads. */
  lemma OneLogReadAlike(cfg: Config, id: RefId, r: Ref, s: Ref, e: Event)
    requires Explains(cfg, id, r, e) && Explains(cfg, id, s, e)
    ensures ReadAlike(cfg, r, s)
  {}

  ghost predicate OneEventPerId(events: seq<Event>) {
    forall e, f :: e in events && f in events && IdOf(e) == IdOf(f) ==> e == f
  }

  /** The confirmed events of a chain are such a list. */
  lemma ChainEventsOnce(v: View, low: nat, high: nat)
    requires WellFormed(v)
    ensures OneEventPerId(EventsIn(v, low, high))
  {
    forall e, f | e in EventsIn(v, low, high) && f in EventsIn(v, low, high) && IdOf(e) == IdOf(f) ensures e == f {
      EventsInExact(v, low, high, e);
      EventsInExact(v, low, high, f);
    }
  }

  /** Two clean databases give one row the same tag exactly when the matcher cannot tell the two rows apart. */
  lemma SameTagExactly(cfg: Config, a: map<RefId, Ref>, b: map<RefId, Ref>, events: seq<Event>, id: RefId)
    requires Clean(cfg, a, events) && Clean(cfg, b, events) && OneEventPerId(events)
    requires Untagged(a, id) && Untagged(b, id)
    ensures Attributed(cfg, a, events)[id].source == Attributed(cfg, b, events)[id].source <==> ReadAlike(cfg, a[id], b[id])
  {
    AttributionSound(cfg, a, events, id);
    AttributionSound(cfg, b, events, id);
    var e :| e in events && Explains(cfg, id, a[id], e) && Attributed(cfg, a, events)[id].source == Some(IdOf(e));
    var f :| f in events && Explains(cfg, id, b[id], f) && Attributed(cfg, b, events)[id].source == Some(IdOf(f));
    if e == f { OneLogReadAlike(cfg, id, a[id], b[id], e); }
    if ReadAlike(cfg, a[id], b[id]) { FoundAlike(cfg, id, a[id], b[id], events); }
  }

  // ---- the projector on attributed rows ----

  /** The row the projector compares, once the reference points to a product row. */
  function AsRow(r: Ref, productId: string): Option<HistoryRow> {
    match r.columns
    case CheckpointColumns(location, status, handler, notes, at, number, tx) =>
      Some(CheckpointRow(productId, location, status, handler, notes, at, number, tx))
    case TransferColumns(sender, recipient, at, number, tx) =>
      Some(TransferRow(productId, sender, recipient, at, number, tx))
    case ShipmentColumns(_) => None
  }

  /** The one thing the matcher forgives and the projector does not: an empty note stored as an empty string. */
  predicate EmptyNote(r: Ref) {
    r.columns.CheckpointColumns? && r.columns.notes == Some("")
  }

  lemma LowerTwice(s: string)
    ensures Lower(Lower(s)) == Lower(s)
  {}

  /** The projector accepts an attributed row exactly when it does not store its empty notes as an empty string. */
  lemma AcceptedByProjector(cfg: Config, id: RefId, r: Ref, e: Event, productId: string)
    requires Explains(cfg, id, r, e)
    ensures TableOf(e).Some? && AsRow(r, productId).Some?
    ensures SameRow(AsRow(r, productId).value, RowOf(productId, e)) <==> !EmptyNote(r)
  {
    LowerTwice(r.columns.tx);
  }

  /** A missing note in the spelling the projector uses. */
  function Unnoted(r: Ref): Ref {
    if EmptyNote(r) then r.(columns := r.columns.(notes := None)) else r
  }

  /** So a log explains a row exactly when the row's product id has the log's key, the log is of the row's table, and projecting the
      log would accept the row, once its empty note is spelled as none. */
  lemma ExplainedExactly(cfg: Config, id: RefId, r: Ref, e: Event, productId: string)
    requires Lower(e.log.tx) == e.log.tx
    ensures Explains(cfg, id, r, e) <==>
      && cfg.canonical(r.productId) == Some(e.log.product)
      && SlotTable(id.table).Some? && SlotTable(id.table) == TableOf(e) && (r.columns.CheckpointColumns? <==> id.table == CheckpointRef)
      && AsRow(Unnoted(r), productId).Some?
      && SameRow(AsRow(Unnoted(r), productId).value, RowOf(productId, e))
  {}

  /** The table that holds a row the projector looks up; shipments are none of them. */
  function SlotTable(table: RefTable): Option<Table> {
    match table
    case CheckpointRef => Some(Checkpoints)
    case TransferRef => Some(Transfers)
    case ShipmentRef => None
  }

  /** The tagged rows as the projector finds them: by table and source event id. */
  ghost predicate Holds(refs: map<RefId, Ref>, history: map<Slot, HistoryRow>) {
    forall id :: id in refs && SlotTable(id.table).Some? && refs[id].source.Some? ==>
      && Slot(SlotTable(id.table).value, refs[id].source.value) in history
      && AsRow(refs[id], refs[id].productId) == Some(history[Slot(SlotTable(id.table).value, refs[id].source.value)])
  }

  /** Projecting the log a row was tagged with finds that row, and accepts it exactly when its notes are no empty string. */
  lemma ProjectedOverTag(cfg: Config, id: RefId, r: Ref, refs: map<RefId, Ref>, history: map<Slot, HistoryRow>, e: Event)
    requires Explains(cfg, id, r, e) && Holds(refs, history)
    requires id in refs && refs[id] == r.(productId := refs[id].productId, source := Some(IdOf(e)))
    ensures Recorded(history, refs[id].productId, e) == if EmptyNote(r) then Err(DIFFERS) else Ok(history)
  {
    AcceptedByProjector(cfg, id, r, e, refs[id].productId);
  }

  // ---- the run ----

  datatype HistoryReport = HistoryReport(matched: nat, conflicts: set<RefId>, shared: bool, applied: bool)

  function UntaggedRows(refs: map<RefId, Ref>): set<RefId> {
    set id | id in refs && Untagged(refs, id)
  }

  function MatchedRows(cfg: Config, refs: map<RefId, Ref>, events: seq<Event>): set<RefId> {
    set id | id in UntaggedRows(refs) && Attributable(cfg, refs, events, id)
  }

  ghost predicate Reviews(cfg: Config, refs: map<RefId, Ref>, events: seq<Event>, report: HistoryReport) {
    && (forall id :: id in report.conflicts <==> Untagged(refs, id) && !Attributable(cfg, refs, events, id))
    && (report.shared <==> !NoSharedLog(cfg, refs, events))
    && report.matched == |MatchedRows(cfg, refs, events)|
  }

  /** The logs that explain one row. */
  method FindLogs(cfg: Config, id: RefId, r: Ref, events: seq<Event>) returns (found: seq<EventId>)
    ensures found == Found(cfg, id, r, events)
  {
    found := [];
    var i := 0;
    while i < |events|
      invariant 0 <= i <= |events| && found == Found(cfg, id, r, events[..i])
    {
      if Explains(cfg, id, r, events[i]) { found := found + [IdOf(events[i])]; }
      assert events[..i + 1][..i] == events[..i];
      i := i + 1;
    }
    assert events[..i] == events;
  }

  ghost predicate MatchesOf(cfg: Config, refs: map<RefId, Ref>, events: seq<Event>, matches: map<RefId, EventId>) {
    && (forall id :: id in matches <==> Untagged(refs, id) && Attributable(cfg, refs, events, id))
    && (forall id :: id in matches ==> matches[id] == SourceOf(cfg, refs, events, id))
  }

  /** The match or conflict of every untagged row. */
  method MatchRows(cfg: Config, refs: map<RefId, Ref>, events: seq<Event>)
    returns (matches: map<RefId, EventId>, conflicts: set<RefId>)
    ensures MatchesOf(cfg, refs, events, matches)
    ensures forall id :: id in conflicts <==> Untagged(refs, id) && !Attributable(cfg, refs, events, id)
  {
    matches, conflicts := map[], {};
    var todo := UntaggedRows(refs);
    while todo != {}
      invariant todo <= UntaggedRows(refs)
      invariant forall id :: id in matches <==> id in UntaggedRows(refs) - todo && Attributable(cfg, refs, events, id)
      invariant forall id :: id in matches ==> matches[id] == SourceOf(cfg, refs, events, id)
      invariant forall id :: id in conflicts <==> id in UntaggedRows(refs) - todo && !Attributable(cfg, refs, events, id)
      decreases todo
    {
      var id :| id in todo;
      var found := FindLogs(cfg, id, refs[id], events);
      if |found| != 1 || Taken(refs, id.table, found[0]) {
        conflicts := conflicts + {id};
      } else {
        matches := matches[id := found[0]];
      }
      todo := todo - {id};
    }
  }

  predicate Shared(matches: map<RefId, EventId>) {
    exists a, b :: a in matches && b in matches && a != b && matches[a] == matches[b]
  }

  lemma SharedExactly(cfg: Config, refs: map<RefId, Ref>, events: seq<Event>, matches: map<RefId, EventId>)
    requires MatchesOf(cfg, refs, events, matches)
    ensures Shared(matches) <==> !NoSharedLog(cfg, refs, events)
  {}

  lemma CountMatched(cfg: Config, refs: map<RefId, Ref>, events: seq<Event>, matches: map<RefId, EventId>, conflicts: set<RefId>)
    requires MatchesOf(cfg, refs, events, matches)
    requires forall id :: id in conflicts <==> Untagged(refs, id) && !Attributable(cfg, refs, events, id)
    ensures |matches| == |MatchedRows(cfg, refs, events)|
    ensures |matches| == 0 && conflicts == {} <==> forall id :: !Untagged(refs, id)
  {
    assert matches.Keys == MatchedRows(cfg, refs, events);
    if |matches| == 0 {
      assert matches.Keys == {};
      assert forall id :: id !in matches;
    }
    if forall id :: !Untagged(refs, id) {
      assert matches.Keys == {};
    }
  }

  lemma TagsAreAttributed(cfg: Config, refs: map<RefId, Ref>, events: seq<Event>, matches: map<RefId, EventId>)
    requires MatchesOf(cfg, refs, events, matches)
    ensures (map id | id in refs :: if id in matches then refs[id].(source := Some(matches[id])) else refs[id]) == Attributed(cfg, refs, events)
  {}

  /** `reconcile`: the matches and conflicts of every untagged row; with `apply`, tags them all or raises and tags none. */
  method ReconcileHistory(store: Store, events: seq<Event>, apply: bool) returns (r: Result<HistoryReport>)
    modifies store`refs
    ensures r.Ok? <==> (apply ==> Clean(store.cfg, old(store.refs), events))
    ensures r.Ok? ==> Reviews(store.cfg, old(store.refs), events, r.value) && r.value.applied == apply
    ensures r.Ok? ==> (r.value.matched == 0 && r.value.conflicts == {} <==> forall id :: !Untagged(old(store.refs), id))
    ensures store.refs == if r.Ok? && apply then Attributed(store.cfg, old(store.refs), events) else old(store.refs)
  {
    var refs := store.refs;
    var matches, conflicts := MatchRows(store.cfg, refs, events);
    SharedExactly(store.cfg, refs, events, matches);
    CountMatched(store.cfg, refs, events, matches, conflicts);
    TagsAreAttributed(store.cfg, refs, events, matches);
    if apply {
      if conflicts != {} || Shared(matches) {
        assert conflicts != {} ==> exists id :: id in conflicts;
        return Err("legacy history has conflicts");
      }
      store.refs := map id | id in refs :: if id in matches then refs[id].(source := Some(matches[id])) else refs[id];
    }
    r := Ok(HistoryReport(|matches|, conflicts, Shared(matches), apply));
  }
}
