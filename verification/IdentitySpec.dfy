/** What identity reconciliation decides about each group of product rows, and what an applied plan makes of the tables. */
module IdentitySpec {
  import opened Prelude
  import opened Chains
  import opened Projection

  datatype RefTable = CheckpointRef | TransferRef | ShipmentRef

  datatype RefId = RefId(table: RefTable, row: nat)

  datatype Columns =
    | CheckpointColumns(location: string, status: string, handler: string, notes: Option<string>, timestamp: nat, blockNumber: nat, tx: string)
    | TransferColumns(sender: string, recipient: string, timestamp: nat, blockNumber: nat, tx: string)
    | ShipmentColumns(plan: string)

  /** A row that references a product: a checkpoint or a transfer, possibly tagged with its source event, or a shipment. */
  datatype Ref = Ref(productId: string, source: Option<EventId>, columns: Columns)

  /** Bindings of every configuration, by scope and product key. */
  datatype BindingId = BindingId(scope: string, key: Key)

  datatype Db = Db(products: map<string, Product>, aliases: map<string, string>,
                   bindings: map<BindingId, Binding>, refs: map<RefId, Ref>)

  predicate Live(p: Product) {
    p.fields.registrationStatus != "superseded"
  }

  /** Rows reconciliation looks at: live ones that no other chain or registry has claimed. */
  predicate Eligible(cfg: Config, p: Product) {
    Live(p) && (p.identity.chainId.Some? ==> p.identity.chainId == Some(cfg.chainId) && p.identity.registry == Some(Lower(cfg.registry)))
  }

  /** The columns a canonical row carries for a key. */
  function Values(cfg: Config, key: Key): Identity {
    Identity(Some(key), Some(cfg.chainId), Some(Lower(cfg.registry)), Some(Lower(cfg.tracker)))
  }

  /** An eligible row that cannot be grouped: its id encodes to nothing, or its stored identity disagrees. */
  predicate Disagrees(cfg: Config, id: string, p: Product) {
    cfg.canonical(id).None? || (p.identity != UNASSIGNED && p.identity != Values(cfg, cfg.canonical(id).value))
  }

  predicate InGroup(cfg: Config, db: Db, key: Key, id: string) {
    && id in db.products && Eligible(cfg, db.products[id]) && !Disagrees(cfg, id, db.products[id])
    && cfg.canonical(id) == Some(key)
  }

  function Group(cfg: Config, db: Db, key: Key): set<string> {
    set id | id in db.products && InGroup(cfg, db, key, id)
  }

  function RowConflicts(cfg: Config, db: Db): set<string> {
    set id | id in db.products && Eligible(cfg, db.products[id]) && Disagrees(cfg, id, db.products[id])
  }

  /** The keys of all groups. */
  function Keys(cfg: Config, db: Db): set<Key> {
    set id | id in db.products && Eligible(cfg, db.products[id]) && !Disagrees(cfg, id, db.products[id]) :: cfg.canonical(id).value
  }

  /** The registration logs of a key. */
  function Evidence(events: seq<Event>, key: Key): seq<Event> {
    if events == [] then []
    else
      var last := events[|events| - 1];
      Evidence(events[..|events| - 1], key) + if last.log.payload.ProductRegistered? && last.log.product == key then [last] else []
  }

  predicate WrongEmitter(cfg: Config, e: Event) {
    e.log.payload.ProductRegistered? && (Lower(e.log.address) != Lower(cfg.registry) || e.log.removed)
  }

  function BindingsOf(db: Db, rows: set<string>): set<BindingId> {
    set b | b in db.bindings && db.bindings[b].productId in rows
  }

  function RefsOf(db: Db, rows: set<string>, table: RefTable): set<RefId> {
    set r | r in db.refs && r.table == table && db.refs[r].productId in rows
  }

  predicate Unattributed(db: Db, rows: set<string>) {
    exists r :: r in db.refs && !r.table.ShipmentRef? && db.refs[r].source.None? && db.refs[r].productId in rows
  }

  /** A row's stored columns contradict the registration log of its key. */
  predicate Contradicts(f: Fields, e: Event)
    requires e.log.payload.ProductRegistered?
  {
    || Lower(f.manufacturer) != Lower(e.log.payload.manufacturer) || f.name != e.log.payload.name
    || (f.blockNumber > 0 && (f.blockNumber != e.number || Lower(f.tx) != e.log.tx))
    || (f.owner.Some? && f.owner.value != "" &&
        (f.ownershipSource !in {Some("signed_draft"), Some("chain_event")} || Lower(f.owner.value) != Lower(e.log.payload.manufacturer)))
  }

  /** A row claims a registration that no confirmed log supports. */
  predicate Unsupported(f: Fields) {
    f.blockNumber > 0 || f.ownershipSource == Some("chain_event")
  }

  predicate BadRow(db: Db, id: string, evidence: seq<Event>)
    requires id in db.products && forall e :: e in evidence ==> e.log.payload.ProductRegistered?
  {
    || id in db.aliases
    || (if evidence != [] then Contradicts(db.products[id].fields, evidence[0]) else Unsupported(db.products[id].fields))
  }

  // ---- the winner of a group ----

  predicate IsHex(id: string) {
    |id| >= 2 && Lower(id[..2]) == "0x"
  }

  /** Code point order, as the source compares strings. */
  predicate Less(a: string, b: string) {
    b != [] && (a == [] || a[0] < b[0] || (a[0] == b[0] && Less(a[1..], b[1..])))
  }

  /** Human ids come before hexadecimal ones, then code point order. */
  predicate Precedes(a: string, b: string) {
    (!IsHex(a) && IsHex(b)) || (IsHex(a) == IsHex(b) && Less(a, b))
  }

  predicate Winner(rows: set<string>, w: string) {
    w in rows && forall id :: id in rows && id != w ==> Precedes(w, id)
  }

  lemma {:induction false} LessTotal(a: string, b: string)
    ensures a == b || Less(a, b) || Less(b, a)
  {
    if a != [] && b != [] && a[0] == b[0] {
      LessTotal(a[1..], b[1..]);
      assert a == [a[0]] + a[1..] && b == [b[0]] + b[1..];
    }
  }

  lemma {:induction false} LessAsymmetric(a: string, b: string)
    ensures !(Less(a, b) && Less(b, a)) && !Less(a, a)
  {
    if a != [] {
      LessAsymmetric(a[1..], if b == [] then [] else b[1..]);
    }
  }

  lemma {:induction false} LessTransitive(a: string, b: string, c: string)
    requires Less(a, b) && Less(b, c)
    ensures Less(a, c)
  {
    if a != [] && a[0] == b[0] == c[0] {
      LessTransitive(a[1..], b[1..], c[1..]);
    }
  }

  lemma WinnerUnique(rows: set<string>, v: string, w: string)
    requires Winner(rows, v) && Winner(rows, w)
    ensures v == w
  {
    LessAsymmetric(v, w);
  }

  // ---- the verdict on a group ----

  ghost predicate Registrations(evidence: seq<Event>) {
    forall e :: e in evidence ==> e.log.payload.ProductRegistered?
  }

  /** The checks that stop a group. */
  predicate Conflicting(scope: string, db: Db, key: Key, rows: set<string>, evidence: seq<Event>)
    requires Registrations(evidence) && rows <= db.products.Keys
  {
    || |evidence| > 1
    || (exists b :: b in BindingsOf(db, rows) && b != BindingId(scope, key))
    || (|rows| > 1 && evidence == [])
    || (exists id :: id in rows && BadRow(db, id, evidence))
  }

  /** Rows without a registration log that no signed draft explains stay unknown. */
  predicate Unknown(db: Db, rows: set<string>, evidence: seq<Event>)
    requires rows <= db.products.Keys
  {
    evidence == [] && exists id :: id in rows && db.products[id].fields.ownershipSource != Some("signed_draft")
  }

  /** Several rows merge only with one shipment between them and history tagged with its logs. */
  predicate Unmergeable(db: Db, rows: set<string>) {
    |rows| > 1 && (|RefsOf(db, rows, ShipmentRef)| > 1 || Unattributed(db, rows))
  }

  /** A single row that already carries its canonical columns. */
  predicate InPlace(cfg: Config, db: Db, key: Key, rows: set<string>)
    requires rows <= db.products.Keys
  {
    exists id :: id in rows && rows == {id} && db.products[id].identity == Values(cfg, key)
  }

  ghost predicate Conflicted(cfg: Config, scope: string, db: Db, events: seq<Event>, key: Key) {
    var rows, evidence := Group(cfg, db, key), Evidence(events, key);
    EvidenceRegisters(events, key);
    Conflicting(scope, db, key, rows, evidence) || (!Unknown(db, rows, evidence) && Unmergeable(db, rows))
  }

  ghost predicate Changes(cfg: Config, scope: string, db: Db, events: seq<Event>, key: Key) {
    var rows := Group(cfg, db, key);
    && !Conflicted(cfg, scope, db, events, key)
    && !Unknown(db, rows, Evidence(events, key))
    && !InPlace(cfg, db, key, rows)
  }

  lemma {:induction false} EvidenceRegisters(events: seq<Event>, key: Key)
    ensures Registrations(Evidence(events, key))
    ensures forall e :: e in Evidence(events, key) ==> e.log.product == key && e in events
  {
    if events != [] {
      EvidenceRegisters(events[..|events| - 1], key);
    }
  }

  // ---- the plan ----

  datatype Merge = Merge(winner: string, losers: set<string>, source: Option<string>, values: Identity)

  /** The product the group's binding points to, if it has one. */
  function SourceOf(db: Db, scope: string, key: Key, rows: set<string>): Option<string> {
    var b := BindingId(scope, key);
    if b in db.bindings && db.bindings[b].productId in rows then Some(db.bindings[b].productId) else None
  }

  ghost predicate MergeFor(cfg: Config, scope: string, db: Db, key: Key, m: Merge) {
    var rows := Group(cfg, db, key);
    && Winner(rows, m.winner) && m.losers == rows - {m.winner}
    && m.source == SourceOf(db, scope, key, rows) && m.values == Values(cfg, key)
  }

  /** A plan holds one merge for every key that changes, and nothing else. */
  ghost predicate PlanFor(cfg: Config, scope: string, db: Db, events: seq<Event>, plan: map<Key, Merge>) {
    && (forall k :: k in plan <==> k in Keys(cfg, db) && Changes(cfg, scope, db, events, k))
    && (forall k :: k in plan ==> MergeFor(cfg, scope, db, k, plan[k]))
  }

  lemma PlanUnique(cfg: Config, scope: string, db: Db, events: seq<Event>, p: map<Key, Merge>, q: map<Key, Merge>)
    requires PlanFor(cfg, scope, db, events, p) && PlanFor(cfg, scope, db, events, q)
    ensures p == q
  {
    forall k | k in p ensures k in q && p[k] == q[k] {
      WinnerUnique(Group(cfg, db, k), p[k].winner, q[k].winner);
    }
  }

  // ---- what applying a plan leaves ----

  /** The merges of a plan, as the redirection of each superseded row and the rewriting of each winner. */
  datatype Rewrite = Rewrite(moves: map<string, string>, merges: map<string, Merge>)

  function MovesOf(m: Merge): map<string, string> {
    map l | l in m.losers :: m.winner
  }

  function Redirect(moves: map<string, string>, id: string): string {
    if id in moves then moves[id] else id
  }

  function RefsAfter(refs: map<RefId, Ref>, moves: map<string, string>): map<RefId, Ref> {
    map r | r in refs :: refs[r].(productId := Redirect(moves, refs[r].productId))
  }

  function AliasesAfter(aliases: map<string, string>, moves: map<string, string>): map<string, string> {
    map a | a in aliases.Keys + moves.Keys :: if a in moves then moves[a] else Redirect(moves, aliases[a])
  }

  function Archived(p: Product): Product {
    Product(p.fields.(registrationStatus := "superseded"), UNASSIGNED)
  }

  /** A product whose columns were taken over from the indexed duplicate. */
  function Promoted(f: Fields): Fields {
    f.(registrationStatus := if f.chainRegisteredAt.Some? then "indexed" else "unregistered")
  }

  function Merged(products: map<string, Product>, m: Merge): Product
    requires m.winner in products
  {
    var fields := if m.source.Some? && m.source.value != m.winner && m.source.value in products
                  then Promoted(products[m.source.value].fields) else products[m.winner].fields;
    Product(fields, m.values)
  }

  function ProductsAfter(products: map<string, Product>, w: Rewrite): map<string, Product> {
    map id | id in products ::
      if id in w.moves then Archived(products[id])
      else if id in w.merges && w.merges[id].winner == id then Merged(products, w.merges[id])
      else products[id]
  }

  predicate SignedDraft(f: Fields) {
    f.ownershipSource == Some("signed_draft") && f.blockNumber == 0
  }

  /** A binding follows its product; a winner that was still a draft becomes what a later rewind restores. */
  function Rebound(products: map<string, Product>, moves: map<string, string>, b: Binding): Binding {
    if b.productId !in moves then b
    else
      var w := moves[b.productId];
      Binding(w, if w in products && SignedDraft(products[w].fields) then products[w].fields else b.baseline, b.status, b.handler)
  }

  function After(db: Db, w: Rewrite): Db {
    Db(ProductsAfter(db.products, w), AliasesAfter(db.aliases, w.moves),
       map b | b in db.bindings :: Rebound(db.products, w.moves, db.bindings[b]),
       RefsAfter(db.refs, w.moves))
  }

  /** The rewriting a set of merges amounts to. */
  ghost predicate RewriteOf(plan: map<Key, Merge>, w: Rewrite) {
    && (forall k :: k in plan ==> plan[k].winner in w.merges && w.merges[plan[k].winner] == plan[k])
    && (forall id :: id in w.merges ==> exists k :: k in plan && plan[k].winner == id)
    && (forall k, l :: k in plan && l in plan[k].losers ==> l in w.moves && w.moves[l] == plan[k].winner)
    && (forall l :: l in w.moves ==> exists k :: k in plan && l in plan[k].losers)
  }
}
