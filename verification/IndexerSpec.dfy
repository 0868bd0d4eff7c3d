/** What each step of the indexer computes, as functions on the tables. */
module IndexerSpec {
  import opened Prelude
  import opened Chains
  import opened Projection

  function WithStatus(shipments: map<string, Shipment>, productId: string, status: string): map<string, Shipment> {
    map s | s in shipments ::
      if shipments[s].productId == productId then shipments[s].(status := status) else shipments[s]
  }

  /** A product row taking its identity, and the binding that will point to it. */
  datatype Fresh = Fresh(id: string, product: Product, baseline: Fields)

  function WithBinding(t: Tables, k: Key, f: Fresh): Tables {
    t.(products := t.products[f.id := f.product],
       bindings := t.bindings[k := Binding(f.id, f.baseline, "0", None)])
  }

  function FirstBinding(cfg: Config, t: Tables, e: Event): (r: Result<Fresh>)
    ensures r.Ok? ==> Some(r.value.product.identity) == ScopeIdentity(cfg, e.log.product)
  {
    var k := e.log.product;
    if !e.log.payload.ProductRegistered? then Err("registration missing before product history") else
    match BindTarget(cfg, t, e)
    case Err(reason) => Err(reason)
    case Ok(Some(id)) =>
      (match AssignScope(cfg, t.products[id], k)
       case Err(reason) => Err(reason)
       case Ok(p) => Ok(Fresh(id, p, Baseline(p.fields))))
    case Ok(None) =>
      var r := e.log.payload;
      var base := Placeholder(r.name, r.manufacturer, r.registeredAt);
      if k in t.products then Err("duplicate product id") else
      match AssignScope(cfg, Product(base, UNASSIGNED), k)
      case Err(reason) => Err(reason)
      case Ok(p) => Ok(Fresh(k, p, base))
  }

  /** `_binding`: the tables with the event's product bound and its identity columns set. */
  function Bind(cfg: Config, t: Tables, e: Event): (r: Result<Tables>)
    ensures r.Ok? ==>
      && e.log.product in r.value.bindings
      && r.value.bindings[e.log.product].productId in r.value.products
      && Some(r.value.products[r.value.bindings[e.log.product].productId].identity) == ScopeIdentity(cfg, e.log.product)
  {
    var k := e.log.product;
    if k in t.bindings then
      var id := t.bindings[k].productId;
      if id !in t.products then Err("bound product is missing") else
      match AssignScope(cfg, t.products[id], k)
      case Err(reason) => Err(reason)
      case Ok(p) => Ok(t.(products := t.products[id := p]))
    else
      match FirstBinding(cfg, t, e)
      case Err(reason) => Err(reason)
      case Ok(first) => Ok(WithBinding(t, k, first))
  }

  const DIFFERS := "existing event projection conflicts with canonical log"

  /** The history table after an event: its row is added, or an existing row must agree with it. */
  function Recorded(history: map<Slot, HistoryRow>, productId: string, e: Event): Result<map<Slot, HistoryRow>> {
    if TableOf(e).None? then Ok(history)
    else if SlotOf(e) !in history then Ok(history[SlotOf(e) := RowOf(productId, e)])
    else if SameRow(history[SlotOf(e)], RowOf(productId, e)) then Ok(history)
    else Err(DIFFERS)
  }

  function StateOf(t: Tables, k: Key): State
    requires k in t.bindings && t.bindings[k].productId in t.products
  {
    State(t.products[t.bindings[k].productId].fields, t.bindings[k].status, t.bindings[k].handler)
  }

  function WithState(t: Tables, k: Key, s: State): Tables
    requires k in t.bindings && t.bindings[k].productId in t.products
  {
    var id := t.bindings[k].productId;
    t.(products := t.products[id := t.products[id].(fields := s.fields)],
       bindings := t.bindings[k := t.bindings[k].(status := s.status, handler := s.handler)],
       shipments := WithStatus(t.shipments, id, s.status))
  }

  /** `_project`. */
  function Project(cfg: Config, t: Tables, e: Event): Result<Tables> {
    match Bind(cfg, t, e)
    case Err(reason) => Err(reason)
    case Ok(u) =>
      var k := e.log.product;
      match Recorded(u.history, u.bindings[k].productId, e)
      case Err(reason) => Err(reason)
      case Ok(history) => Ok(WithState(u.(history := history), k, Apply(StateOf(u, k), e)))
  }

  function ProjectAll(cfg: Config, t: Tables, es: seq<Event>): Result<Tables> {
    if es == [] then Ok(t) else
    match ProjectAll(cfg, t, es[..|es| - 1])
    case Err(reason) => Err(reason)
    case Ok(u) => Project(cfg, u, es[|es| - 1])
  }

  predicate ExpectedEmitter(cfg: Config, log: Log) {
    Lower(log.address) ==
    if log.payload.ProductRegistered? || log.payload.ProductMetadataUpdated? then Lower(cfg.registry) else Lower(cfg.tracker)
  }

  /** `_journal`: an occurrence already canonical is skipped; a known orphan is revived from its stored row. */
  function Journal(cfg: Config, t: Tables, e: Event): Result<Tables> {
    var o := OccurrenceOf(e);
    if !ExpectedEmitter(cfg, e.log) || e.log.removed then Err("unexpected emitter or removed log")
    else if o in t.journal && t.journal[o].canonical then Ok(t)
    else
      var stored := if o in t.journal then t.journal[o].event else e;
      Project(cfg, t.(journal := t.journal[o := JournalRow(stored, true)]), stored)
  }

  function JournalAll(cfg: Config, t: Tables, es: seq<Event>): Result<Tables> {
    if es == [] then Ok(t) else
    match JournalAll(cfg, t, es[..|es| - 1])
    case Err(reason) => Err(reason)
    case Ok(u) => Journal(cfg, u, es[|es| - 1])
  }

  // ---- rewinding ----

  predicate Orphaned(row: JournalRow, ancestor: nat) {
    row.canonical && row.event.number > ancestor
  }

  function Orphan(journal: map<Occurrence, JournalRow>, ancestor: nat): map<Occurrence, JournalRow> {
    map o | o in journal :: if Orphaned(journal[o], ancestor) then journal[o].(canonical := false) else journal[o]
  }

  function Affected(journal: map<Occurrence, JournalRow>, ancestor: nat): set<Key> {
    set o | o in journal && Orphaned(journal[o], ancestor) :: journal[o].event.log.product
  }

  /** The event ids ever journaled for a product, canonical or not. */
  function KeyIds(journal: map<Occurrence, JournalRow>, k: Key): set<EventId> {
    set o | o in journal && journal[o].event.log.product == k :: IdOf(journal[o].event)
  }

  function WithoutIds(history: map<Slot, HistoryRow>, ids: set<EventId>): map<Slot, HistoryRow> {
    map s | s in history && s.id !in ids :: history[s]
  }

  /** A product put back to its baseline, with the history rows of its journal removed. */
  function Reset(t: Tables, k: Key): Tables
    requires k in t.bindings && t.bindings[k].productId in t.products
  {
    WithState(t, k, Start(t.bindings[k].baseline)).(history := WithoutIds(t.history, KeyIds(t.journal, k)))
  }

  function CanonicalOf(t: Tables, k: Key): set<Event> {
    set o | o in t.journal && t.journal[o].canonical && t.journal[o].event.log.product == k :: t.journal[o].event
  }

  function Trimmed(anchors: map<nat, Hash>, ancestor: nat): map<nat, Hash> {
    map n | n in anchors && n <= ancestor :: anchors[n]
  }

  // ---- batches ----

  function Completions(es: seq<Event>): set<(Hash, Key)> {
    set e | e in es && e.log.payload.DeliveryCompleted? :: (e.log.tx, e.log.product)
  }

  function DeliveredCheckpoints(es: seq<Event>): set<(Hash, Key)> {
    set e | e in es && e.log.payload.CheckpointRecorded? && e.log.payload.status.Delivered? :: (e.log.tx, e.log.product)
  }

  /** `_validate_history_coverage`. */
  predicate Covered(t: Tables) {
    && (forall r :: r in t.untagged ==> r.productId !in BoundIds(t))
    && (forall s :: s in t.history && t.history[s].productId in BoundIds(t) ==>
          exists o :: o in t.journal && t.journal[o].canonical && o.id == s.id)
  }
}
