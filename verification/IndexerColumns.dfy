/** What the indexed chain puts into every column, said of the events themselves: which event a column comes from, and what it holds
    when there is none. */
module IndexerColumns {
  import opened Prelude
  import opened Chains
  import opened Projection
  import opened IndexerSpec
  import opened IndexerLaws
  import opened IndexerSync
  import opened IndexerInvariant
  import opened IndexerAcceptance
  import opened IndexerTheorems

  // ---- the last event of a kind in a fold ----

  lemma {:induction false} FoldHandler(s: State, es: seq<Event>) returns (i: int)
    ensures -1 <= i < |es|
    ensures forall j :: i < j < |es| ==> es[j].log.payload.ProductRegistered? || es[j].log.payload.ProductMetadataUpdated?
    ensures i == -1 ==> Fold(s, es).handler == s.handler
    ensures i >= 0 ==>
      match es[i].log.payload
      case CustodyTransferred(_, recipient, _) => Fold(s, es).handler == Some(recipient)
      case CheckpointRecorded(_, _, handler, _, _) => Fold(s, es).handler == Some(handler)
      case DeliveryCompleted(deliveredBy, _) => Fold(s, es).handler == Some(deliveredBy)
      case _ => false
  {
    i := -1;
    if es != [] {
      var last := es[|es| - 1].log.payload;
      if last.ProductRegistered? || last.ProductMetadataUpdated? {
        i := FoldHandler(s, es[..|es| - 1]);
      } else {
        i := |es| - 1;
      }
    }
  }

  lemma {:induction false} FoldStatus(s: State, es: seq<Event>) returns (i: int)
    ensures -1 <= i < |es|
    ensures forall j :: i < j < |es| ==> !es[j].log.payload.CheckpointRecorded? && !es[j].log.payload.DeliveryCompleted?
    ensures i == -1 ==> Fold(s, es).status == s.status
    ensures i >= 0 ==>
      match es[i].log.payload
      case CheckpointRecorded(_, Created, _, _, _) => Fold(s, es).status == "0"
      case CheckpointRecorded(_, InTransit, _, _, _) => Fold(s, es).status == "1"
      case CheckpointRecorded(_, AtCheckpoint, _, _, _) => Fold(s, es).status == "2"
      case CheckpointRecorded(_, Delivered, _, _, _) => Fold(s, es).status == "3"
      case DeliveryCompleted(_, _) => Fold(s, es).status == "3"
      case _ => false
  {
    i := -1;
    if es != [] {
      var last := es[|es| - 1].log.payload;
      if last.CheckpointRecorded? || last.DeliveryCompleted? {
        i := |es| - 1;
      } else {
        i := FoldStatus(s, es[..|es| - 1]);
      }
    }
  }

  /** The columns a registration writes, but for the metadata address, which an update may have changed since. */
  ghost predicate RegisteredBy(f: Fields, e: Event) {
    match e.log.payload
    case ProductRegistered(name, manufacturer, registeredAt, description, _) =>
      && f.name == name && f.manufacturer == manufacturer
      && f.description == (if description == "" then None else Some(description))
      && f.owner == Some(Lower(manufacturer)) && f.ownershipSource == Some("chain_event")
      && f.registeredAt == registeredAt && f.chainRegisteredAt == Some(registeredAt) && f.registrationStatus == "indexed"
      && f.blockNumber == e.number && f.tx == e.log.tx
    case _ => false
  }

  lemma {:induction false} FoldRegistration(s: State, es: seq<Event>) returns (i: int)
    ensures -1 <= i < |es|
    ensures forall j :: i < j < |es| ==> !es[j].log.payload.ProductRegistered?
    ensures i == -1 ==> Fold(s, es).fields == s.fields.(metadataUri := Fold(s, es).fields.metadataUri)
    ensures i >= 0 ==> RegisteredBy(Fold(s, es).fields, es[i])
  {
    i := -1;
    if es != [] {
      if es[|es| - 1].log.payload.ProductRegistered? {
        i := |es| - 1;
      } else {
        i := FoldRegistration(s, es[..|es| - 1]);
      }
    }
  }

  lemma {:induction false} FoldUri(s: State, es: seq<Event>) returns (i: int)
    ensures -1 <= i < |es|
    ensures forall j :: i < j < |es| ==> !es[j].log.payload.ProductRegistered? && !es[j].log.payload.ProductMetadataUpdated?
    ensures i == -1 ==> Fold(s, es).fields.metadataUri == s.fields.metadataUri
    ensures i >= 0 ==>
      match es[i].log.payload
      case ProductRegistered(_, _, _, _, uri) => Fold(s, es).fields.metadataUri == (if uri == "" then None else Some(uri))
      case ProductMetadataUpdated(uri) => Fold(s, es).fields.metadataUri == (if uri == "" then None else Some(uri))
      case _ => false
  {
    i := -1;
    if es != [] {
      var last := es[|es| - 1].log.payload;
      if last.ProductRegistered? || last.ProductMetadataUpdated? {
        i := |es| - 1;
      } else {
        i := FoldUri(s, es[..|es| - 1]);
      }
    }
  }

  // ---- from the share of a product to the chain ----

  /** x is an indexed event of the product, after e if e is given. */
  ghost predicate Later(history: Hash -> View, t: Tables, k: Key, e: Option<Event>, x: Event)
    requires t.cursor.Some?
  {
    && x in Indexed(history, t) && x.log.product == k
    && (e.Some? ==>
          || e.value.number < x.number
          || (e.value.number == x.number && e.value.log.txIndex < x.log.txIndex)
          || (e.value.number == x.number && e.value.log.txIndex == x.log.txIndex && e.value.log.logIndex < x.log.logIndex))
  }

  ghost predicate IndexedOf(history: Hash -> View, t: Tables, k: Key, e: Event)
    requires t.cursor.Some?
  {
    e in Indexed(history, t) && e.log.product == k
  }

  /** The i-th event of a product's share, and those after it. */
  lemma ShareAt(cfg: Config, history: Hash -> View, init: Tables, t: Tables, k: Key, es: seq<Event>, i: int) returns (e: Option<Event>)
    requires Consistent(cfg, history, init, t) && t.cursor.Some? && es == Of(Indexed(history, t), k) && -1 <= i < |es|
    ensures e == if i == -1 then None else Some(es[i])
    ensures e.Some? ==> IndexedOf(history, t, k, e.value)
    ensures forall x :: Later(history, t, k, e, x) ==> exists j :: i < j < |es| && es[j] == x
  {
    e := if i == -1 then None else Some(es[i]);
    IndexedStrict(cfg, history, init, t);
    OfMembers(Indexed(history, t), k);
    OfStrict(Indexed(history, t), k);
    if i >= 0 { assert es[i] in es; }
    forall x | Later(history, t, k, e, x) ensures exists j :: i < j < |es| && es[j] == x {
      PlaceAfter(es, i, x);
    }
  }

  lemma IndexedStrict(cfg: Config, history: Hash -> View, init: Tables, t: Tables)
    requires Consistent(cfg, history, init, t) && t.cursor.Some?
    ensures Strict(Indexed(history, t))
  {
    Mirrored(cfg, history, init, t);
    EventsInStrict(ChainOf(history, t), t.cursor.value.start, t.cursor.value.last);
  }

  lemma PlaceAfter(es: seq<Event>, i: int, x: Event)
    requires Strict(es) && x in es && -1 <= i < |es| && (i >= 0 ==> Before(es[i], x))
    ensures exists j :: i < j < |es| && es[j] == x
  {
    var j :| 0 <= j < |es| && es[j] == x;
    assert forall m :: 0 <= m < i ==> Before(es[m], es[i]);
  }

  /** The holder of a bound product is the recipient of its last transfer, or the handler of its last checkpoint or delivery,
      whichever came last on the indexed chain; with none of these there is no holder. */
  lemma HandlerIsLatest(cfg: Config, history: Hash -> View, init: Tables, t: Tables, k: Key) returns (e: Option<Event>)
    requires Consistent(cfg, history, init, t) && t.cursor.Some? && k in t.bindings
    ensures e.Some? ==> IndexedOf(history, t, k, e.value)
    ensures forall x :: Later(history, t, k, e, x) ==> x.log.payload.ProductRegistered? || x.log.payload.ProductMetadataUpdated?
    ensures match e
      case None => t.bindings[k].handler == None
      case Some(last) =>
        match last.log.payload
        case CustodyTransferred(_, recipient, _) => t.bindings[k].handler == Some(recipient)
        case CheckpointRecorded(_, _, handler, _, _) => t.bindings[k].handler == Some(handler)
        case DeliveryCompleted(deliveredBy, _) => t.bindings[k].handler == Some(deliveredBy)
        case _ => false
  {
    ProductIsFold(cfg, history, init, t, k);
    var es := Of(Indexed(history, t), k);
    var i := FoldHandler(Start(t.bindings[k].baseline), es);
    e := ShareAt(cfg, history, init, t, k, es, i);
  }

  /** Its status is that of its last checkpoint or delivery, "0" before the first; its shipments carry the same one. */
  lemma StatusIsLatest(cfg: Config, history: Hash -> View, init: Tables, t: Tables, k: Key) returns (e: Option<Event>)
    requires Consistent(cfg, history, init, t) && t.cursor.Some? && k in t.bindings
    ensures e.Some? ==> IndexedOf(history, t, k, e.value)
    ensures forall x :: Later(history, t, k, e, x) ==> !x.log.payload.CheckpointRecorded? && !x.log.payload.DeliveryCompleted?
    ensures match e
      case None => t.bindings[k].status == "0"
      case Some(last) =>
        match last.log.payload
        case CheckpointRecorded(_, Created, _, _, _) => t.bindings[k].status == "0"
        case CheckpointRecorded(_, InTransit, _, _, _) => t.bindings[k].status == "1"
        case CheckpointRecorded(_, AtCheckpoint, _, _, _) => t.bindings[k].status == "2"
        case CheckpointRecorded(_, Delivered, _, _, _) => t.bindings[k].status == "3"
        case DeliveryCompleted(_, _) => t.bindings[k].status == "3"
        case _ => false
    ensures forall s :: s in t.shipments && t.shipments[s].productId == t.bindings[k].productId ==> t.shipments[s].status == t.bindings[k].status
  {
    ProductIsFold(cfg, history, init, t, k);
    var es := Of(Indexed(history, t), k);
    var i := FoldStatus(Start(t.bindings[k].baseline), es);
    e := ShareAt(cfg, history, init, t, k, es, i);
    ShipmentsFollow(cfg, history, init, t, k);
  }

  lemma ShipmentsFollow(cfg: Config, history: Hash -> View, init: Tables, t: Tables, k: Key)
    requires Consistent(cfg, history, init, t) && t.cursor.Some? && k in t.bindings
    ensures forall s :: s in t.shipments && t.shipments[s].productId == t.bindings[k].productId ==> t.shipments[s].status == t.bindings[k].status
  {
    RestIsUntouched(cfg, history, init, t);
    forall s | s in t.shipments && t.shipments[s].productId == t.bindings[k].productId ensures t.shipments[s].status == t.bindings[k].status {
      assert Follows(init, t, s);
    }
  }

  /** Its other columns are those of its last registration, or of the baseline if the indexed chain has none. */
  lemma ColumnsAreRegistered(cfg: Config, history: Hash -> View, init: Tables, t: Tables, k: Key) returns (e: Option<Event>)
    requires Consistent(cfg, history, init, t) && t.cursor.Some? && k in t.bindings
    ensures t.bindings[k].productId in t.products
    ensures e.Some? ==> IndexedOf(history, t, k, e.value)
    ensures forall x :: Later(history, t, k, e, x) ==> !x.log.payload.ProductRegistered?
    ensures var f := t.products[t.bindings[k].productId].fields;
      match e
      case None => f == t.bindings[k].baseline.(metadataUri := f.metadataUri)
      case Some(last) =>
        match last.log.payload
        case ProductRegistered(name, manufacturer, registeredAt, description, _) =>
          && f.name == name && f.manufacturer == manufacturer
          && f.description == (if description == "" then None else Some(description))
          && f.owner == Some(Lower(manufacturer)) && f.ownershipSource == Some("chain_event")
          && f.registeredAt == registeredAt && f.chainRegisteredAt == Some(registeredAt) && f.registrationStatus == "indexed"
          && f.blockNumber == last.number && f.tx == last.log.tx
        case _ => false
  {
    ProductIsFold(cfg, history, init, t, k);
    var es := Of(Indexed(history, t), k);
    var i := FoldRegistration(Start(t.bindings[k].baseline), es);
    e := ShareAt(cfg, history, init, t, k, es, i);
  }

  /** The metadata address is that of the last registration or update, and empty text is no address. */
  lemma UriIsLatest(cfg: Config, history: Hash -> View, init: Tables, t: Tables, k: Key) returns (e: Option<Event>)
    requires Consistent(cfg, history, init, t) && t.cursor.Some? && k in t.bindings
    ensures t.bindings[k].productId in t.products
    ensures e.Some? ==> IndexedOf(history, t, k, e.value)
    ensures forall x :: Later(history, t, k, e, x) ==> !x.log.payload.ProductRegistered? && !x.log.payload.ProductMetadataUpdated?
    ensures var f := t.products[t.bindings[k].productId].fields;
      match e
      case None => f.metadataUri == t.bindings[k].baseline.metadataUri
      case Some(last) =>
        match last.log.payload
        case ProductRegistered(_, _, _, _, uri) => f.metadataUri == (if uri == "" then None else Some(uri))
        case ProductMetadataUpdated(uri) => f.metadataUri == (if uri == "" then None else Some(uri))
        case _ => false
  {
    ProductIsFold(cfg, history, init, t, k);
    var es := Of(Indexed(history, t), k);
    var i := FoldUri(Start(t.bindings[k].baseline), es);
    e := ShareAt(cfg, history, init, t, k, es, i);
  }

  // ---- identity, baseline, first binding ----

  /** A bound product carries its key and the deployment's chain id and contract addresses. */
  lemma IdentityColumns(cfg: Config, history: Hash -> View, init: Tables, t: Tables, k: Key)
    requires Consistent(cfg, history, init, t) && t.cursor.Some? && k in t.bindings
    ensures cfg.canonical(k) == Some(k) && t.bindings[k].productId in t.products
    ensures t.products[t.bindings[k].productId].identity
         == Identity(Some(k), Some(cfg.chainId), Some(Lower(cfg.registry)), Some(Lower(cfg.tracker)))
    ensures t.products[t.bindings[k].productId].fields.registrationStatus != "superseded"
  {
    Mirrored(cfg, history, init, t);
    assert ProperlyBound(cfg, init, t, k);
  }

  /** What a rewind leaves of a product whose registration is off the chain. A row adopted with a registration of its own keeps its name,
      manufacturer and date and loses everything the chain had vouched for; a row adopted without one is as it was at the start;
      a row the indexer created is a bare placeholder named by the key. */
  lemma OrphanedColumns(cfg: Config, history: Hash -> View, init: Tables, t: Tables, k: Key)
    requires Consistent(cfg, history, init, t) && t.cursor.Some? && k in t.bindings
    requires forall e :: e in Indexed(history, t) && e.log.product == k ==>
      !e.log.payload.ProductRegistered? && !e.log.payload.ProductMetadataUpdated?
    ensures t.bindings[k].productId in t.products
    ensures var id, f := t.bindings[k].productId, t.products[t.bindings[k].productId].fields;
      if id in init.products && init.products[id].fields.blockNumber > 0 then
        && f.name == init.products[id].fields.name && f.manufacturer == init.products[id].fields.manufacturer
        && f.registeredAt == init.products[id].fields.registeredAt
        && f.owner == None && f.ownershipSource == None && f.description == None && f.metadataUri == None
        && f.chainRegisteredAt == None && f.registrationStatus == "legacy_unreconciled" && f.blockNumber == 0 && f.tx == "0x"
      else if id in init.products then f == init.products[id].fields
      else
        && id == k
        && f.owner == None && f.ownershipSource == None && f.description == None && f.metadataUri == None
        && f.chainRegisteredAt == None && f.registrationStatus == "unregistered" && f.blockNumber == 0 && f.tx == "0x"
  {
    ProductIsFold(cfg, history, init, t, k);
    var registered := ColumnsAreRegistered(cfg, history, init, t, k);
    var located := UriIsLatest(cfg, history, init, t, k);
  }

  /** What a first binding writes: a row that is there only takes the identity columns, a new one takes the name, manufacturer and
      date of the registration; the binding starts undelivered and without a holder. */
  lemma FirstBindingColumns(cfg: Config, t: Tables, e: Event, encoded: Key, u: Tables)
    requires e.log.product !in t.bindings && Bind(cfg, t, e) == Ok(u) && cfg.canonical(e.log.product) == Some(encoded)
    ensures e.log.payload.ProductRegistered? && e.log.product in u.bindings
    ensures var b := u.bindings[e.log.product];
      && u == t.(products := u.products, bindings := t.bindings[e.log.product := b])
      && b.productId in u.products && b.status == "0" && b.handler == None
      && u.products == t.products[b.productId := u.products[b.productId]]
      && u.products[b.productId].identity == Identity(Some(encoded), Some(cfg.chainId), Some(Lower(cfg.registry)), Some(Lower(cfg.tracker)))
      && if b.productId in t.products then
           && u.products[b.productId].fields == t.products[b.productId].fields
           && t.products[b.productId].identity in {Identity(None, None, None, None), u.products[b.productId].identity}
         else
           && b.productId == e.log.product && b.baseline == u.products[b.productId].fields
           && b.baseline.name == e.log.payload.name && b.baseline.manufacturer == e.log.payload.manufacturer
           && b.baseline.registeredAt == e.log.payload.registeredAt
  {
    if BindTarget(cfg, t, e) == Ok(None) { assert e.log.product !in t.products; }
  }

  // ---- history rows ----

  /** A canonical checkpoint or transfer has its row under its event id, column by column what the chain says; addresses and
      transaction hashes may differ in case from a row that was there before. */
  lemma RowColumns(cfg: Config, history: Hash -> View, init: Tables, t: Tables, e: Event)
    requires Consistent(cfg, history, init, t) && t.cursor.Some? && OneProductPerId(t.journal) && e in Indexed(history, t)
    ensures e.log.product in t.bindings
    ensures var id := EventId(Lower(e.log.address), e.log.tx, e.log.logIndex);
      match e.log.payload
      case CheckpointRecorded(location, status, handler, recordedAt, notes) =>
        && Slot(Checkpoints, id) in t.history && t.history[Slot(Checkpoints, id)].CheckpointRow?
        && var r := t.history[Slot(Checkpoints, id)];
           && r.productId == t.bindings[e.log.product].productId && r.location == location
           && r.status == (match status case Created => "0" case InTransit => "1" case AtCheckpoint => "2" case Delivered => "3")
           && Lower(r.handler) == Lower(handler) && r.notes == (if notes == "" then None else Some(notes))
           && r.timestamp == recordedAt && r.blockNumber == e.number && Lower(r.tx) == Lower(e.log.tx)
      case CustodyTransferred(sender, recipient, transferredAt) =>
        && Slot(Transfers, id) in t.history && t.history[Slot(Transfers, id)].TransferRow?
        && var r := t.history[Slot(Transfers, id)];
           && r.productId == t.bindings[e.log.product].productId
           && Lower(r.sender) == Lower(sender) && Lower(r.recipient) == Lower(recipient)
           && r.timestamp == transferredAt && r.blockNumber == e.number && Lower(r.tx) == Lower(e.log.tx)
      case _ => true
  {
    HistoryIsChain(cfg, history, init, t);
    assert HasRow(t, e.log.product, e);
  }

  /** A row the projector adds holds the event's own text; a row that is there is never rewritten. */
  lemma RecordedColumns(before: map<Slot, HistoryRow>, productId: string, e: Event, after: map<Slot, HistoryRow>)
    requires Recorded(before, productId, e) == Ok(after)
    ensures var id := EventId(Lower(e.log.address), e.log.tx, e.log.logIndex);
      match e.log.payload
      case CheckpointRecorded(location, status, handler, recordedAt, notes) =>
        var digit := match status case Created => "0" case InTransit => "1" case AtCheckpoint => "2" case Delivered => "3";
        var note := if notes == "" then None else Some(notes);
        after == if Slot(Checkpoints, id) in before then before
          else before[Slot(Checkpoints, id) := CheckpointRow(productId, location, digit, handler, note, recordedAt, e.number, e.log.tx)]
      case CustodyTransferred(sender, recipient, transferredAt) =>
        after == if Slot(Transfers, id) in before then before
          else before[Slot(Transfers, id) := TransferRow(productId, sender, recipient, transferredAt, e.number, e.log.tx)]
      case _ => after == before
  {}

  /** A projection fails on a row exactly when one stands under the event's id and differs from it in some column. */
  lemma RowRefusedExactly(before: map<Slot, HistoryRow>, productId: string, e: Event)
    ensures var id := EventId(Lower(e.log.address), e.log.tx, e.log.logIndex);
      Recorded(before, productId, e).Err? <==>
      match e.log.payload
      case CheckpointRecorded(location, status, handler, recordedAt, notes) =>
        && Slot(Checkpoints, id) in before
        && (match before[Slot(Checkpoints, id)]
            case CheckpointRow(p, l, s, h, n, at, number, tx) =>
              || p != productId || l != location || Lower(h) != Lower(handler) || at != recordedAt || number != e.number
              || s != (match status case Created => "0" case InTransit => "1" case AtCheckpoint => "2" case Delivered => "3")
              || n != (if notes == "" then None else Some(notes)) || Lower(tx) != Lower(e.log.tx)
            case _ => true)
      case CustodyTransferred(sender, recipient, transferredAt) =>
        && Slot(Transfers, id) in before
        && (match before[Slot(Transfers, id)]
            case TransferRow(p, f, r, at, number, tx) =>
              || p != productId || Lower(f) != Lower(sender) || Lower(r) != Lower(recipient) || at != transferredAt
              || number != e.number || Lower(tx) != Lower(e.log.tx)
            case _ => true)
      case _ => false
  {}

  // ---- the events taken ----

  /** Every event of a batch that was taken is a log still in place, emitted by the contract of its kind. */
  lemma TakenFromContracts(cfg: Config, t: Tables, batch: seq<Event>)
    requires JournalAll(cfg, t, batch).Ok?
    ensures forall e :: e in batch ==> !e.log.removed
    ensures forall e :: e in batch && (e.log.payload.ProductRegistered? || e.log.payload.ProductMetadataUpdated?) ==>
      Lower(e.log.address) == Lower(cfg.registry)
    ensures forall e :: e in batch && (e.log.payload.CheckpointRecorded? || e.log.payload.CustodyTransferred? || e.log.payload.DeliveryCompleted?) ==>
      Lower(e.log.address) == Lower(cfg.tracker)
  {
    AllEmitted(cfg, t, batch);
    assert forall e :: e in batch ==> Emitted(cfg, e);
  }

  ghost predicate Taken(cfg: Config, t: Tables, batch: seq<Event>) {
    forall w {:trigger JournalAll(cfg, t, w)} :: w == batch ==> JournalAll(cfg, t, w).Ok?
  }

  lemma LastEmitted(cfg: Config, t: Tables, batch: seq<Event>)
    requires batch != [] && Taken(cfg, t, batch)
    ensures Taken(cfg, t, batch[..|batch| - 1]) && Emitted(cfg, batch[|batch| - 1])
  {
    assert JournalAll(cfg, t, batch).Ok?;
  }

  lemma {:induction false} AllEmitted(cfg: Config, t: Tables, batch: seq<Event>)
    requires Taken(cfg, t, batch)
    ensures forall e :: e in batch ==> Emitted(cfg, e)
  {
    if batch != [] {
      var early, last := batch[..|batch| - 1], batch[|batch| - 1];
      LastEmitted(cfg, t, batch);
      AllEmitted(cfg, t, early);
      assert batch == early + [last];
    }
  }

  /** A log is let in exactly when it stands and the contract of its kind emitted it, whatever the case of the addresses. */
  lemma EmittedExactly(cfg: Config, e: Event)
    ensures Emitted(cfg, e) <==>
      !e.log.removed &&
      match e.log.payload
      case ProductRegistered(_, _, _, _, _) => Lower(e.log.address) == Lower(cfg.registry)
      case ProductMetadataUpdated(_) => Lower(e.log.address) == Lower(cfg.registry)
      case CheckpointRecorded(_, _, _, _, _) => Lower(e.log.address) == Lower(cfg.tracker)
      case CustodyTransferred(_, _, _) => Lower(e.log.address) == Lower(cfg.tracker)
      case DeliveryCompleted(_, _) => Lower(e.log.address) == Lower(cfg.tracker)
  {}

  /** A batch has its deliveries paired exactly when each of them has a delivered checkpoint of its transaction and product in the
      batch, and each delivered checkpoint a delivery. */
  lemma PairedExactly(es: seq<Event>)
    ensures Completions(es) == DeliveredCheckpoints(es) <==>
      && (forall e :: e in es && e.log.payload.DeliveryCompleted? ==>
            exists d :: d in es && d.log.payload.CheckpointRecorded? && d.log.payload.status == Delivered
                     && d.log.tx == e.log.tx && d.log.product == e.log.product)
      && (forall d :: d in es && d.log.payload.CheckpointRecorded? && d.log.payload.status == Delivered ==>
            exists e :: e in es && e.log.payload.DeliveryCompleted? && e.log.tx == d.log.tx && e.log.product == d.log.product)
  {
    forall e | e in es && e.log.payload.DeliveryCompleted? ensures (e.log.tx, e.log.product) in Completions(es) {}
    forall d | d in es && d.log.payload.CheckpointRecorded? && d.log.payload.status == Delivered
      ensures (d.log.tx, d.log.product) in DeliveredCheckpoints(es) {}
  }

  /** The check at the target passes exactly when no bound product has an untagged row, or a tagged one whose event id has no
      canonical journal row. */
  lemma CoveredExactly(t: Tables)
    ensures Covered(t) <==>
      && (forall r, k :: r in t.untagged && k in t.bindings ==> r.productId != t.bindings[k].productId)
      && (forall s, k :: s in t.history && k in t.bindings && t.history[s].productId == t.bindings[k].productId ==>
            exists o :: o in t.journal && t.journal[o].canonical && o.id == s.id)
  {
    forall id ensures id in BoundIds(t) <==> exists k :: k in t.bindings && t.bindings[k].productId == id {}
  }

  /** Each indexed delivery has a checkpoint with status delivered in its transaction for its product, and the other way round. */
  lemma DeliveriesHaveCheckpoints(cfg: Config, history: Hash -> View, init: Tables, t: Tables)
    requires Consistent(cfg, history, init, t) && t.cursor.Some?
    ensures forall e :: e in Indexed(history, t) && e.log.payload.DeliveryCompleted? ==>
      exists d :: d in Indexed(history, t) && d.log.payload.CheckpointRecorded? && d.log.payload.status == Delivered
               && d.log.tx == e.log.tx && d.log.product == e.log.product
    ensures forall d :: d in Indexed(history, t) && d.log.payload.CheckpointRecorded? && d.log.payload.status == Delivered ==>
      exists e :: e in Indexed(history, t) && e.log.payload.DeliveryCompleted? && e.log.tx == d.log.tx && e.log.product == d.log.product
  {
    DeliveriesPaired(cfg, history, init, t);
    var es := Indexed(history, t);
    forall e | e in es && e.log.payload.DeliveryCompleted?
      ensures exists d :: d in es && d.log.payload.CheckpointRecorded? && d.log.payload.status == Delivered
                       && d.log.tx == e.log.tx && d.log.product == e.log.product
    {
      assert (e.log.tx, e.log.product) in DeliveredCheckpoints(es);
    }
    forall d | d in es && d.log.payload.CheckpointRecorded? && d.log.payload.status == Delivered
      ensures exists e :: e in es && e.log.payload.DeliveryCompleted? && e.log.tx == d.log.tx && e.log.product == d.log.product
    {
      assert (d.log.tx, d.log.product) in Completions(es);
    }
  }
}
