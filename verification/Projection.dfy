/** The tables of the indexer and the step that applies one canonical event to them. */
module Projection {
  import opened Prelude
  import opened Chains

  /** The columns an event or a baseline can write. */
  datatype Fields = Fields(
    name: string,
    description: Option<string>,
    metadataUri: Option<string>,
    manufacturer: string,
    owner: Option<string>,
    ownershipSource: Option<string>,
    registeredAt: nat,
    chainRegisteredAt: Option<nat>,
    registrationStatus: string,
    blockNumber: nat,
    tx: string)

  /** The four identity columns of a product; each may be empty. */
  datatype Identity = Identity(key: Option<Key>, chainId: Option<nat>, registry: Option<string>, tracker: Option<string>)

  const UNASSIGNED := Identity(None, None, None, None)

  datatype Product = Product(fields: Fields, identity: Identity)

  datatype Binding = Binding(productId: string, baseline: Fields, status: string, handler: Option<string>)

  datatype Table = Checkpoints | Transfers

  /** A tagged history row is found by its table and its source event id. */
  datatype Slot = Slot(table: Table, id: EventId)

  datatype HistoryRow =
    | CheckpointRow(productId: string, location: string, status: string, handler: string,
                    notes: Option<string>, timestamp: nat, blockNumber: nat, tx: string)
    | TransferRow(productId: string, sender: string, recipient: string,
                  timestamp: nat, blockNumber: nat, tx: string)

  datatype Occurrence = Occurrence(id: EventId, blockHash: Hash)

  datatype JournalRow = JournalRow(event: Event, canonical: bool)

  datatype Cursor = Cursor(start: nat, last: nat, hash: Hash)

  datatype Shipment = Shipment(productId: string, status: string, origin: string, destination: string, notes: string)

  datatype Tables = Tables(
    cursor: Option<Cursor>,
    anchors: map<nat, Hash>,
    journal: map<Occurrence, JournalRow>,
    bindings: map<Key, Binding>,
    foreignBound: set<string>,                     // products bound by other configurations
    products: map<string, Product>,
    history: map<Slot, HistoryRow>,                // rows with a source event id
    untagged: multiset<HistoryRow>,                // rows without one
    shipments: map<string, Shipment>)

  /** Deployment settings. `canonical` is the product id encoding of module ProductIds. */
  datatype Config = Config(
    startBlock: nat, confirmations: nat, batchSize: nat, maxReorgDepth: nat,
    chainId: nat, registry: string, tracker: string,
    canonical: string -> Option<Key>)

  function OccurrenceOf(e: Event): Occurrence {
    Occurrence(IdOf(e), e.blockHash)
  }

  function OrNone(s: string): Option<string> {
    if s == "" then None else Some(s)
  }

  function StatusText(status: Status): string {
    match status
    case Created => "0"
    case InTransit => "1"
    case AtCheckpoint => "2"
    case Delivered => "3"
  }

  // ---- the product columns ----

  datatype State = State(fields: Fields, status: string, handler: Option<string>)

  function Apply(s: State, e: Event): State {
    match e.log.payload
    case ProductRegistered(name, manufacturer, registeredAt, description, uri) =>
      s.(fields := Fields(name, OrNone(description), OrNone(uri), manufacturer,
                          Some(Lower(manufacturer)), Some("chain_event"),
                          registeredAt, Some(registeredAt), "indexed", e.number, e.log.tx))
    case ProductMetadataUpdated(uri) =>
      s.(fields := s.fields.(metadataUri := OrNone(uri)))
    case CheckpointRecorded(_, status, handler, _, _) =>
      s.(status := StatusText(status), handler := Some(handler))
    case CustodyTransferred(_, recipient, _) =>
      s.(handler := Some(recipient))
    case DeliveryCompleted(handler, _) =>
      s.(status := "3", handler := Some(handler))
  }

  /** The simple form: apply the canonical events of a product, in order, to its baseline. */
  function Fold(s: State, es: seq<Event>): State {
    if es == [] then s else Apply(Fold(s, es[..|es| - 1]), es[|es| - 1])
  }

  function Start(b: Fields): State {
    State(b, "0", None)
  }

  predicate Registers(es: seq<Event>) {
    exists e :: e in es && e.log.payload.ProductRegistered?
  }

  lemma FoldSnoc(s: State, es: seq<Event>, e: Event)
    ensures Fold(s, es + [e]) == Apply(Fold(s, es), e)
  {
    assert (es + [e])[..|es|] == es;
  }

  /** A registration overwrites every column a baseline holds, so nothing of the baseline is left. */
  lemma {:induction false} FoldForgetsBaseline(a: Fields, b: Fields, es: seq<Event>)
    ensures Fold(Start(a), es).status == Fold(Start(b), es).status
    ensures Fold(Start(a), es).handler == Fold(Start(b), es).handler
    ensures Registers(es) ==> Fold(Start(a), es) == Fold(Start(b), es)
  {
    if es != [] {
      var init, last := es[..|es| - 1], es[|es| - 1];
      FoldForgetsBaseline(a, b, init);
      assert es == init + [last];
      if Registers(es) && !last.log.payload.ProductRegistered? {
        assert Registers(init);
      }
    }
  }

  // ---- the history row of an event ----

  function TableOf(e: Event): Option<Table> {
    match e.log.payload
    case CheckpointRecorded(_, _, _, _, _) => Some(Checkpoints)
    case CustodyTransferred(_, _, _) => Some(Transfers)
    case _ => None
  }

  function RowOf(productId: string, e: Event): HistoryRow
    requires TableOf(e).Some?
  {
    match e.log.payload
    case CheckpointRecorded(location, status, handler, at, notes) =>
      CheckpointRow(productId, location, StatusText(status), handler, OrNone(notes), at, e.number, e.log.tx)
    case CustodyTransferred(sender, recipient, at) =>
      TransferRow(productId, sender, recipient, at, e.number, e.log.tx)
  }

  function SlotOf(e: Event): Slot
    requires TableOf(e).Some?
  {
    Slot(TableOf(e).value, IdOf(e))
  }

  /** Addresses and transaction hashes are compared without case, everything else exactly. */
  predicate SameRow(a: HistoryRow, b: HistoryRow) {
    match (a, b)
    case (CheckpointRow(p, l, s, h, n, t, k, x), CheckpointRow(p', l', s', h', n', t', k', x')) =>
      p == p' && l == l' && s == s' && Lower(h) == Lower(h') && n == n' && t == t' && k == k' && Lower(x) == Lower(x')
    case (TransferRow(p, f, r, t, k, x), TransferRow(p', f', r', t', k', x')) =>
      p == p' && Lower(f) == Lower(f') && Lower(r) == Lower(r') && t == t' && k == k' && Lower(x) == Lower(x')
    case _ => false
  }

  // ---- binding a product key to a product row ----

  function ScopeIdentity(cfg: Config, key: Key): Option<Identity> {
    match cfg.canonical(key)
    case None => None
    case Some(encoded) => Some(Identity(Some(encoded), Some(cfg.chainId), Some(Lower(cfg.registry)), Some(Lower(cfg.tracker))))
  }

  /** assign_identity: fills four empty columns, or checks that they already hold these values. */
  function AssignScope(cfg: Config, p: Product, key: Key): Result<Product> {
    match ScopeIdentity(cfg, key)
    case None => Err("identity")
    case Some(identity) =>
      if p.identity != UNASSIGNED && p.identity != identity then Err("identity")
      else Ok(p.(identity := identity))
  }

  /** The rows find_canonical_product may return for an encoded key. */
  predicate Claims(cfg: Config, id: string, p: Product, encoded: Key) {
    && p.fields.registrationStatus != "superseded"
    && (|| (&& p.identity.chainId == Some(cfg.chainId)
            && p.identity.registry == Some(Lower(cfg.registry)) && p.identity.key == Some(encoded))
        || cfg.canonical(id) == Some(encoded))
  }

  function Claimants(cfg: Config, products: map<string, Product>, encoded: Key): set<string> {
    set id | id in products && Claims(cfg, id, products[id], encoded)
  }

  function Baseline(f: Fields): Fields {
    if f.blockNumber > 0 then
      f.(blockNumber := 0, tx := "0x", owner := None, ownershipSource := None, description := None,
         metadataUri := None, chainRegisteredAt := None, registrationStatus := "legacy_unreconciled")
    else f
  }

  function Placeholder(name: string, manufacturer: string, at: nat): Fields {
    Fields(name, None, None, manufacturer, None, None, at, None, "unregistered", 0, "0x")
  }

  function BoundIds(t: Tables): set<string> {
    set k | k in t.bindings :: t.bindings[k].productId
  }

  /** The id a first binding may use for a key, if it may bind at all. */
  function BindTarget(cfg: Config, t: Tables, e: Event): (r: Result<Option<string>>)
    ensures r.Ok? && r.value.Some? ==> r.value.value in t.products
  {
    match cfg.canonical(e.log.product)
    case None => Err("key")
    case Some(encoded) =>
      var found := Claimants(cfg, t.products, encoded);
      if |found| > 1 then Err("conflicting product identities")
      else if |found| == 0 then Ok(None)
      else
        var id := TheOnly(found);
        var f := t.products[id].fields;
        if id in BoundIds(t) + t.foreignBound then Err("bound to another configuration")
        else if exists r :: r in t.untagged && r.productId == id then Err("untagged history")
        else if f.blockNumber > 0 && (f.blockNumber != e.number || Lower(f.tx) != e.log.tx) then Err("legacy registration")
        else Ok(Some(id))
  }

  /** A live row claims an encoded key by its identity columns, or by an id with that encoding. A first binding adopts a row exactly
      when it alone claims the key, nothing is bound to it, it has no untagged history, and it holds no other registration; it
      creates a row exactly when no row claims the key; and it is refused otherwise. */
  lemma BindTargetExactly(cfg: Config, t: Tables, e: Event, encoded: Key, id: string)
    requires cfg.canonical(e.log.product) == Some(encoded)
    ensures BindTarget(cfg, t, e) == Ok(Some(id)) <==>
      && id in t.products
      && (forall x :: x in t.products ==>
            (x == id <==>
              && t.products[x].fields.registrationStatus != "superseded"
              && (|| (&& t.products[x].identity.key == Some(encoded) && t.products[x].identity.chainId == Some(cfg.chainId)
                      && t.products[x].identity.registry == Some(Lower(cfg.registry)))
                  || cfg.canonical(x) == Some(encoded))))
      && (forall k :: k in t.bindings ==> t.bindings[k].productId != id) && id !in t.foreignBound
      && (forall r :: r in t.untagged ==> r.productId != id)
      && (t.products[id].fields.blockNumber == 0
          || (t.products[id].fields.blockNumber == e.number && Lower(t.products[id].fields.tx) == e.log.tx))
    ensures BindTarget(cfg, t, e) == Ok(None) <==>
      forall x :: x in t.products ==>
        (|| t.products[x].fields.registrationStatus == "superseded"
         || (&& !(&& t.products[x].identity.key == Some(encoded) && t.products[x].identity.chainId == Some(cfg.chainId)
                  && t.products[x].identity.registry == Some(Lower(cfg.registry)))
             && cfg.canonical(x) != Some(encoded)))
  {
    var found := Claimants(cfg, t.products, encoded);
    ClaimsOnly(cfg, t.products, encoded, id);
    if found == {id} { assert |found| == 1 && TheOnly(found) == id; }
    assert id in BoundIds(t) <==> exists k :: k in t.bindings && t.bindings[k].productId == id;
  }

  lemma ClaimsOnly(cfg: Config, products: map<string, Product>, encoded: Key, id: string)
    ensures Claimants(cfg, products, encoded) == {id} <==>
      id in products && forall x :: x in products ==> (x == id <==> Claims(cfg, x, products[x], encoded))
    ensures Claimants(cfg, products, encoded) == {} <==> forall x :: x in products ==> !Claims(cfg, x, products[x], encoded)
  {
    var found := Claimants(cfg, products, encoded);
    assert forall x :: x in found <==> x in products && Claims(cfg, x, products[x], encoded);
    if id in products && forall x :: x in products ==> (x == id <==> Claims(cfg, x, products[x], encoded)) {
      assert forall x :: x in found <==> x == id;
    }
  }

  function TheOnly(s: set<string>): (id: string)
    requires |s| == 1
    ensures s == {id}
  {
    Singleton(s);
    var id :| id in s;
    id
  }

  lemma Singleton(s: set<string>)
    requires |s| == 1
    ensures forall a, b :: a in s && b in s ==> a == b
  {
    var x :| x in s;
    assert |s - {x}| == 0;
    assert s == {x};
  }
}
