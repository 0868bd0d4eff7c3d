/** The indexer itself: one poll is one transaction over a session that is committed whole or dropped. */
module Indexer {
  import opened Prelude
  import opened Chains
  import opened Nodes
  import opened Projection
  import opened IndexerSpec
  import opened IndexerLaws
  import opened IndexerSync
  import opened IndexerInvariant
  import opened IndexerSteps
  import opened IndexerPolls

  /** An open transaction: the tables as the current poll sees and changes them. */
  class Session {
    const cfg: Config
    var cursor: Option<Cursor>
    var anchors: map<nat, Hash>
    var journal: map<Occurrence, JournalRow>
    var bindings: map<Key, Binding>
    const foreignBound: set<string>
    var products: map<string, Product>
    var history: map<Slot, HistoryRow>
    const untagged: multiset<HistoryRow>
    var shipments: map<string, Shipment>

    function Rows(): Tables
      reads this
    {
      Tables(cursor, anchors, journal, bindings, foreignBound, products, history, untagged, shipments)
    }

    constructor (cfg: Config, t: Tables)
      ensures Rows() == t && this.cfg == cfg
    {
      this.cfg := cfg;
      cursor, anchors, journal, bindings := t.cursor, t.anchors, t.journal, t.bindings;
      foreignBound, products, history, untagged, shipments := t.foreignBound, t.products, t.history, t.untagged, t.shipments;
    }

    method AssignScopeTo(id: string, key: Key) returns (ok: bool)
      requires id in products
      modifies this`products
      ensures ok <==> AssignScope(cfg, old(products)[id], key).Ok?
      ensures ok ==> products == old(products)[id := AssignScope(cfg, old(products)[id], key).value]
    {
      match AssignScope(cfg, products[id], key)
      case Err(_) => ok := false;
      case Ok(p) => products := products[id := p]; ok := true;
    }

    /** `_binding`. */
    method BindProduct(e: Event) returns (ok: bool)
      modifies this`bindings, this`products
      ensures ok <==> Bind(cfg, old(Rows()), e).Ok?
      ensures ok ==> Bind(cfg, old(Rows()), e) == Ok(Rows())
    {
      var k := e.log.product;
      if k in bindings {
        if bindings[k].productId !in products { return false; }
        ok := AssignScopeTo(bindings[k].productId, k);
        return;
      }
      if !e.log.payload.ProductRegistered? { return false; }
      match BindTarget(cfg, Rows(), e) {
        case Err(_) => return false;
        case Ok(Some(id)) =>
          var baseline := Baseline(products[id].fields);
          ok := AssignScopeTo(id, k);
          if !ok { return; }
          bindings := bindings[k := Binding(id, baseline, "0", None)];
          assert FirstBinding(cfg, old(Rows()), e) == Ok(Fresh(id, products[id], baseline));
          assert Rows() == WithBinding(old(Rows()), k, Fresh(id, products[id], baseline));
        case Ok(None) =>
          if k in products { return false; }
          var r := e.log.payload;
          var baseline := Placeholder(r.name, r.manufacturer, r.registeredAt);
          products := products[k := Product(baseline, UNASSIGNED)];
          ok := AssignScopeTo(k, k);
          if !ok { return; }
          bindings := bindings[k := Binding(k, baseline, "0", None)];
          assert products == old(products)[k := products[k]];
          assert FirstBinding(cfg, old(Rows()), e) == Ok(Fresh(k, products[k], baseline));
          assert Rows() == WithBinding(old(Rows()), k, Fresh(k, products[k], baseline));
      }
    }

    method WriteColumns(k: Key, id: string, e: Event)
      requires k in bindings && bindings[k].productId == id && id in products
      modifies this`bindings, this`products
      ensures var s := Apply(State(old(products)[id].fields, old(bindings)[k].status, old(bindings)[k].handler), e);
        && products == old(products)[id := old(products)[id].(fields := s.fields)]
        && bindings == old(bindings)[k := old(bindings)[k].(status := s.status, handler := s.handler)]
    {
      match e.log.payload {
        case ProductRegistered(name, manufacturer, at, description, uri) =>
          products := products[id := products[id].(fields :=
            Fields(name, OrNone(description), OrNone(uri), manufacturer, Some(Lower(manufacturer)),
                   Some("chain_event"), at, Some(at), "indexed", e.number, e.log.tx))];
        case ProductMetadataUpdated(uri) =>
          products := products[id := products[id].(fields := products[id].fields.(metadataUri := OrNone(uri)))];
        case CheckpointRecorded(_, status, handler, _, _) =>
          bindings := bindings[k := bindings[k].(status := StatusText(status), handler := Some(handler))];
        case CustodyTransferred(_, recipient, _) =>
          bindings := bindings[k := bindings[k].(handler := Some(recipient))];
        case DeliveryCompleted(handler, _) =>
          bindings := bindings[k := bindings[k].(status := "3", handler := Some(handler))];
      }
    }

    method RecordHistory(id: string, e: Event) returns (ok: bool)
      modifies this`history
      ensures ok <==> Recorded(old(history), id, e).Ok?
      ensures ok ==> Recorded(old(history), id, e) == Ok(history)
    {
      if TableOf(e).None? { return true; }
      var slot, row := SlotOf(e), RowOf(id, e);
      if slot in history { return SameRow(history[slot], row); }
      history := history[slot := row];
      ok := true;
    }

    /** `_project`: the product's columns, its binding, its history row and its shipments. */
    method ProjectEvent(e: Event) returns (ok: bool)
      modifies this`bindings, this`products, this`history, this`shipments
      ensures ok <==> Project(cfg, old(Rows()), e).Ok?
      ensures ok ==> Project(cfg, old(Rows()), e) == Ok(Rows())
    {
      ok := BindProduct(e);
      if !ok { return; }
      ghost var bound := Rows();
      var k := e.log.product;
      var id := bindings[k].productId;
      WriteColumns(k, id, e);
      ok := RecordHistory(id, e);
      if !ok { return; }
      shipments := WithStatus(shipments, id, bindings[k].status);
      assert Rows() == WithState(bound.(history := history), k, Apply(StateOf(bound, k), e));
    }

    /** `_journal`. */
    method JournalEvent(e: Event) returns (ok: bool)
      modifies this`journal, this`bindings, this`products, this`history, this`shipments
      ensures ok <==> Journal(cfg, old(Rows()), e).Ok?
      ensures ok ==> Journal(cfg, old(Rows()), e) == Ok(Rows())
    {
      if !ExpectedEmitter(cfg, e.log) || e.log.removed { return false; }
      var o := OccurrenceOf(e);
      if o in journal && journal[o].canonical { return true; }
      var stored := if o in journal then journal[o].event else e;
      journal := journal[o := JournalRow(stored, true)];
      ok := ProjectEvent(stored);
    }

    /** The canonical rows of a product in replay order. */
    method QueryCanonical(k: Key) returns (rows: seq<Event>)
      requires forall a, b :: a in CanonicalOf(Rows(), k) && b in CanonicalOf(Rows(), k) ==> a == b || Before(a, b) || Before(b, a)
      ensures Strict(rows)
      ensures forall e :: e in rows <==> e in CanonicalOf(Rows(), k)
    {
      var found := CanonicalOf(Rows(), k);
      var left := found;
      rows := [];
      while left != {}
        invariant left <= found
        invariant Strict(rows)
        invariant forall e :: e in rows <==> e in found && e !in left
      {
        var e :| e in left;
        ghost var before := rows;
        rows := Place(e, rows, found);
        left := left - {e};
      }
    }

    method Place(e: Event, rows: seq<Event>, ghost found: set<Event>) returns (placed: seq<Event>)
      requires forall a, b :: a in found && b in found ==> a == b || Before(a, b) || Before(b, a)
      requires Strict(rows) && e in found && e !in rows && forall x :: x in rows ==> x in found
      ensures Strict(placed) && forall x :: x in placed <==> x in rows || x == e
    {
      var i := 0;
      while i < |rows| && Before(rows[i], e)
        invariant 0 <= i <= |rows|
        invariant forall j :: 0 <= j < i ==> Before(rows[j], e)
      {
        i := i + 1;
      }
      placed := rows[..i] + [e] + rows[i..];
      assert i < |rows| ==> rows[i] in found && Before(e, rows[i]);
      forall j | i < j < |rows| ensures Before(e, rows[j]) {
        assert Before(rows[i], rows[j]);
      }
    }

    method ResetProduct(k: Key)
      requires k in bindings && bindings[k].productId in products
      modifies this`bindings, this`products, this`history, this`shipments
      ensures Rows() == Reset(old(Rows()), k)
    {
      var id, baseline := bindings[k].productId, bindings[k].baseline;
      products := products[id := products[id].(fields := baseline)];
      bindings := bindings[k := bindings[k].(status := "0", handler := None)];
      history := WithoutIds(history, KeyIds(journal, k));
      shipments := WithStatus(shipments, id, "0");
    }

    method ReplayEvents(rows: seq<Event>) returns (ok: bool)
      modifies this`bindings, this`products, this`history, this`shipments
      ensures ok <==> ProjectAll(cfg, old(Rows()), rows).Ok?
      ensures ok ==> ProjectAll(cfg, old(Rows()), rows) == Ok(Rows())
    {
      var i := 0;
      while i < |rows|
        invariant 0 <= i <= |rows|
        invariant ProjectAll(cfg, old(Rows()), rows[..i]) == Ok(Rows())
      {
        ProjectAllSnoc(cfg, old(Rows()), rows, i);
        ok := ProjectEvent(rows[i]);
        if !ok {
          ProjectAllStuck(cfg, old(Rows()), rows, i + 1);
          return;
        }
        i := i + 1;
      }
      assert rows[..i] == rows;
      ok := true;
    }

    /** One affected product of a rewind: back to its baseline, its journaled rows removed, its canonical events replayed. */
    method RestoreProduct(k: Key) returns (ok: bool, ghost rows: seq<Event>)
      requires k in bindings && bindings[k].productId in products
      requires forall a, b :: a in CanonicalOf(Rows(), k) && b in CanonicalOf(Rows(), k) ==> a == b || Before(a, b) || Before(b, a)
      modifies this`bindings, this`products, this`history, this`shipments
      ensures Strict(rows) && forall e :: e in rows <==> e in CanonicalOf(old(Rows()), k)
      ensures ok <==> ProjectAll(cfg, Reset(old(Rows()), k), rows).Ok?
      ensures ok ==> ProjectAll(cfg, Reset(old(Rows()), k), rows) == Ok(Rows())
    {
      ResetProduct(k);
      var found := QueryCanonical(k);
      rows := found;
      ok := ReplayEvents(found);
    }

    /** The highest anchor inside the window whose hash the node still shows; `when` is the call that matched. */
    method FindAncestor(node: Node) returns (ancestor: Option<nat>, ghost when: nat)
      requires cursor.Some?
      modifies node`clock
      ensures node.clock >= old(node.clock)
      ensures ancestor.Some? ==>
        && ancestor.value in anchors && Lowest(cfg, cursor.value) <= ancestor.value <= cursor.value.last
        && old(node.clock) <= when < node.clock && !node.fails(when)
        && Shows(node.view(when), ancestor.value, anchors[ancestor.value])
        && forall n :: n in anchors && ancestor.value < n <= cursor.value.last ==>
             MismatchSeen(node, old(node.clock), node.clock, n, anchors[n])
      ensures node.Quiet(old(node.clock)) && cursor.value.last < |node.view(old(node.clock))| ==>
        (ancestor.Some? <==> Reachable(cfg, cursor.value, anchors, node.view(old(node.clock))))
    {
      ancestor, when := None, 0;
      var c := cursor.value;
      ghost var v := node.view(node.clock);
      var low := if c.last > cfg.maxReorgDepth then c.last - cfg.maxReorgDepth else 0;
      if low < c.start { low := c.start; }
      assert low == Lowest(cfg, c);
      var n: int := c.last;
      while n >= low
        invariant low - 1 <= n <= c.last || n == c.last
        invariant node.clock >= old(node.clock)
        invariant forall m :: m in anchors && n < m <= c.last ==> MismatchSeen(node, old(node.clock), node.clock, m, anchors[m])
        invariant node.Quiet(old(node.clock)) ==> forall m :: m in anchors && n < m <= c.last ==> !Shows(v, m, anchors[m])
        decreases n - low + 1
      {
        if n in anchors {
          when := node.clock;
          var hash := node.Header(n);
          if hash.None? { return None, 0; }
          if hash.value == anchors[n] { return Some(n), when; }
          assert n < |node.view(when)| && !Shows(node.view(when), n, anchors[n]);
        }
        n := n - 1;
      }
    }

    /** Restores every affected product, in whatever order the set yields them. No replay can fail. */
    method RestoreProducts(affected: set<Key>, ghost branches: Hash -> View, ghost init: Tables, ghost v: View,
                           ghost es: seq<Event>, ghost kept: seq<Event>) returns (ghost order: seq<Key>)
      requires Rewinding(cfg, branches, init, Rows(), es, kept, affected)
      requires Strict(kept) && CanonicalKeys(cfg, branches)
      requires WellFormed(v) && forall e :: e in kept ==> On(v, e)
      modifies this`bindings, this`products, this`history, this`shipments
      ensures Lists(order, affected) && RestoreAll(cfg, old(Rows()), kept, order) == Ok(Rows())
    {
      var todo := affected;
      order := [];
      ghost var t := Rows();
      RestoreBegins(cfg, branches, init, t, es, kept, affected);
      while todo != {}
        invariant PartRestored(cfg, branches, init, t, es, kept, affected, todo, order, Rows())
        decreases todo
      {
        ghost var before := Rows();
        var k :| k in todo;
        RestoreReady(cfg, branches, init, before, es, kept, todo, k);
        var ok;
        ghost var rows;
        ok, rows := RestoreProduct(k);
        RestoredNext(cfg, branches, init, t, v, es, kept, affected, todo, order, before, k, rows);
        order := order + [k];
        todo := todo - {k};
      }
      assert affected - todo == affected;
    }

    /** The writes of a rewind to the anchor at block a. */
    method RewindTo(a: nat, ghost branches: Hash -> View, ghost init: Tables)
      requires cursor.Some? && a in anchors && MirrorsTip(cfg, branches, init, Rows()) && CanonicalKeys(cfg, branches)
      modifies this`cursor, this`anchors, this`journal, this`bindings, this`products, this`history, this`shipments
      ensures cursor == Some(Cursor(old(cursor.value.start), a, old(anchors)[a]))
      ensures journal == Orphan(old(journal), a) && anchors == Trimmed(old(anchors), a)
      ensures Rewinds(cfg, branches, old(Rows()), a, Rows()) && Grown(cfg, branches, init, old(Rows()), Rows())
    {
      ghost var t := Rows();
      var todo := Affected(journal, a);
      journal := Orphan(journal, a);
      ghost var j := Rows();
      RewindReady(cfg, branches, init, t, a, j);
      ghost var order := RestoreProducts(todo, branches, init, ChainOf(branches, t), Indexed(branches, t), Kept(branches, t, a));
      ghost var r := Rows();
      cursor := Some(Cursor(cursor.value.start, a, anchors[a]));
      anchors := Trimmed(anchors, a);
      RewindDone(cfg, branches, init, t, a, order, j, r, Rows());
    }

    /** `_rewind`: back to the highest anchor the node still shows, or failure if the window holds none. */
    method Rewind(node: Node, ghost branches: Hash -> View, ghost init: Tables) returns (ancestor: Option<nat>, ghost when: nat)
      requires cursor.Some? && MirrorsTip(cfg, branches, init, Rows())
      requires CanonicalKeys(cfg, branches) && node.Honest(branches)
      modifies this`cursor, this`anchors, this`journal, this`bindings, this`products, this`history, this`shipments, node`clock
      ensures node.clock >= old(node.clock)
      ensures ancestor.Some? ==>
        && ancestor.value in old(anchors)
        && cursor == Some(Cursor(old(cursor.value.start), ancestor.value, old(anchors)[ancestor.value]))
        && journal == Orphan(old(journal), ancestor.value)
        && anchors == Trimmed(old(anchors), ancestor.value)
        && Rewinds(cfg, branches, old(Rows()), ancestor.value, Rows())
        && Grown(cfg, branches, init, old(Rows()), Rows())
      ensures ancestor.Some? ==>
        && old(node.clock) <= when < node.clock && !node.fails(when) && Shows(node.view(when), ancestor.value, cursor.value.hash)
        && Lowest(cfg, old(cursor.value)) <= ancestor.value <= old(cursor.value.last)
        && forall n :: n in old(anchors) && ancestor.value < n <= old(cursor.value.last) ==>
             MismatchSeen(node, old(node.clock), node.clock, n, old(anchors)[n])
      ensures ancestor.Some? ==> OrphansExactly(old(journal), node, old(node.clock), node.clock, ancestor.value)
      ensures node.Quiet(old(node.clock)) && old(cursor.value.last) < |node.view(old(node.clock))| ==>
        (ancestor.Some? <==> Reachable(cfg, old(cursor.value), old(anchors), node.view(old(node.clock))))
    {
      ancestor, when := FindAncestor(node);
      if ancestor.None? { return; }
      StableExact(cfg, branches, init, Rows(), node, old(node.clock), node.clock, ancestor.value, when);
      RewindTo(ancestor.value, branches, init);
    }
  }

  class EventIndexer {
    const cfg: Config
    ghost const branches: Hash -> View
    ghost const init: Tables
    var committed: Tables
    var batchSize: nat
    var lastProcessedBlock: Option<nat>
    var lastReorgAncestor: Option<nat>

    /** The committed database is the starting one, or mirrors the chain whose tip is its cursor. */
    ghost predicate Valid()
      reads this
    {
      && 1 <= batchSize <= cfg.batchSize
      && CanonicalKeys(cfg, branches)
      && Consistent(cfg, branches, init, committed)
    }

    constructor (cfg: Config, ghost branches: Hash -> View, start: Tables)
      requires cfg.batchSize >= 1 && CanonicalKeys(cfg, branches) && NotStarted(start)
      ensures Valid() && committed == start && init == start && this.cfg == cfg && this.branches == branches
    {
      this.cfg, this.branches, this.init := cfg, branches, start;
      committed, batchSize, lastProcessedBlock, lastReorgAncestor := start, cfg.batchSize, None, None;
    }

    /** One log filter, with a historical read for each registration it returns. */
    method FetchKind(node: Node, kind: Kind, low: nat, end: nat) returns (logs: Option<seq<Event>>)
      modifies node`clock
      ensures node.clock > old(node.clock)
      ensures logs.Some? ==> logs.value == OfKind(EventsIn(node.view(old(node.clock)), low, end), kind)
      ensures logs.Some? ==> node.clock == old(node.clock) + 1 + (if kind == Registered then |logs.value| else 0)
      ensures logs.Some? <==> !CallFailed(node, old(node.clock), node.clock)
      ensures node.Quiet(old(node.clock)) ==> logs.Some?
    {
      ghost var from := node.clock;
      logs := node.Logs(kind, low, end);
      if logs.Some? && kind == Registered {
        if node.Quiet(from) { StaysQuiet(node, from, node.clock); }
        var ok := ReadRegistrations(node, |logs.value|);
        if !ok { logs := None; }
      }
    }

    /** The answers of the five filters, one after the other. */
    method GatherLogs(node: Node, low: nat, end: nat, ghost v: View) returns (result: Option<seq<Event>>)
      modifies node`clock
      ensures node.clock >= old(node.clock)
      ensures result.Some? ==> GatheredSoFar(node, v, old(node.clock), node.clock, low, end, result.value, |KINDS|)
      ensures result.None? ==> CallFailed(node, old(node.clock), node.clock)
      ensures node.Quiet(old(node.clock)) ==> result.Some?
    {
      var gathered: seq<Event>, i := [], 0;
      ghost var from := node.clock;
      while i < |KINDS|
        invariant 0 <= i <= |KINDS| && node.clock >= from
        invariant GatheredSoFar(node, v, from, node.clock, low, end, gathered, i)
      {
        ghost var at := node.clock;
        if node.Quiet(from) { StaysQuiet(node, from, at); }
        var logs := FetchKind(node, KINDS[i], low, end);
        if logs.None? { return None; }
        GatherNext(node, v, from, at, node.clock, low, end, gathered, i);
        gathered := gathered + logs.value;
        i := i + 1;
      }
      result := Some(gathered);
    }

    /** `_fetch_events`: five log queries, one historical read per registration, one sort. If the node kept showing
        the chain v up to `end`, the result is exactly that chain's events of the range, in chain order. */
    method FetchEvents(node: Node, start: nat, end: nat, ghost v: View) returns (events: Option<seq<Event>>)
      requires 1 <= start <= end && 1 <= batchSize
      modifies node`clock, this`batchSize
      ensures node.clock >= old(node.clock)
      ensures events.Some? ==> batchSize == old(batchSize)
      ensures events.None? ==> batchSize == Halved(old(batchSize))
      ensures events.Some? ==> ReadSoFar(node, v, old(node.clock), node.clock, end, events.value, start - 1, end)
      ensures events.None? ==> CallFailed(node, old(node.clock), node.clock)
      ensures node.Quiet(old(node.clock)) ==> events.Some?
    {
      var result := GatherLogs(node, start - 1, end, v);
      if result.None? {
        batchSize := Halved(batchSize);
        return None;
      }
      GatherDone(node, v, old(node.clock), node.clock, start - 1, end, result.value);
      events := Some(SortEvents(result.value));
    }

    method ReadRegistrations(node: Node, count: nat) returns (ok: bool)
      modifies node`clock
      ensures node.clock >= old(node.clock) && (ok ==> node.clock == old(node.clock) + count)
      ensures ok <==> !CallFailed(node, old(node.clock), node.clock)
      ensures node.Quiet(old(node.clock)) ==> ok
    {
      var i := 0;
      while i < count
        invariant i <= count && node.clock == old(node.clock) + i
        invariant !CallFailed(node, old(node.clock), node.clock)
      {
        ok := node.Details();
        if !ok { return; }
        i := i + 1;
      }
      ok := true;
    }

    /** The header of an event's block, read once per block, must be the block hash the log carries. */
    method CheckHeader(node: Node, known: map<nat, Hash>, e: Event) returns (ok: bool, headers: map<nat, Hash>)
      modifies node`clock
      ensures node.clock >= old(node.clock)
      ensures ok ==> headers == known[e.number := e.blockHash] && (e.number in known ==> known[e.number] == e.blockHash)
      ensures e.number in known ==> node.clock == old(node.clock)
      ensures e.number !in known ==>
        node.clock == old(node.clock) + 1
        && (ok <==> !node.fails(old(node.clock)) && Shows(node.view(old(node.clock)), e.number, e.blockHash))
      ensures var v := node.view(old(node.clock));
        node.Quiet(old(node.clock)) && HeadersShown(v, known) && Shows(v, e.number, e.blockHash) ==> ok && HeadersShown(v, headers)
    {
      headers := known;
      if e.number !in headers {
        var hash := node.Header(e.number);
        if hash.None? { return false, headers; }
        headers := headers[e.number := hash.value];
      }
      ok := e.blockHash == headers[e.number];
    }

    /** One event of a batch: its block hash is checked, then it is journaled. */
    method JournalNext(session: Session, node: Node, e: Event, known: map<nat, Hash>) returns (ok: bool, headers: map<nat, Hash>)
      requires session.cfg == cfg
      modifies node`clock, session`journal, session`bindings, session`products, session`history, session`shipments
      ensures node.clock >= old(node.clock)
      ensures ok ==> Journal(cfg, old(session.Rows()), e) == Ok(session.Rows())
      ensures ok ==> headers == known[e.number := e.blockHash] && (e.number in known ==> known[e.number] == e.blockHash)
      ensures ok && e.number !in known ==> HeaderSeen(node, old(node.clock), node.clock, e.number, e.blockHash)
      ensures var v := node.view(old(node.clock));
        node.Quiet(old(node.clock)) && HeadersShown(v, known) && Shows(v, e.number, e.blockHash) ==>
          (ok <==> Journal(cfg, old(session.Rows()), e).Ok?) && HeadersShown(v, headers)
    {
      ok, headers := CheckHeader(node, known, e);
      if !ok { return; }
      ok := session.JournalEvent(e);
    }

    /** Journals a fetched batch, checking every event's block hash against a header read once per block. */
    method JournalBatch(session: Session, node: Node, events: seq<Event>, end: nat, endHash: Hash)
      returns (ok: bool, headers: map<nat, Hash>)
      requires session.cfg == cfg
      modifies node`clock, session`journal, session`bindings, session`products, session`history, session`shipments
      ensures node.clock >= old(node.clock)
      ensures ok ==> JournalAll(cfg, old(session.Rows()), events) == Ok(session.Rows())
      ensures ok ==> HeadersOf(headers, events, end, endHash) && HeadersSeen(node, old(node.clock), node.clock, headers, end)
      ensures node.Quiet(old(node.clock)) && BatchOn(node.view(old(node.clock)), events, end, endHash) ==>
        (ok <==> JournalAll(cfg, old(session.Rows()), events).Ok?)
    {
      headers := map[end := endHash];
      var i := 0;
      ghost var from, t := node.clock, session.Rows();
      ghost var v := node.view(from);
      ghost var calm := node.Quiet(from) && BatchOn(v, events, end, endHash);
      OneHeader(node, from, from, end, endHash);
      while i < |events|
        invariant 0 <= i <= |events| && node.clock >= from
        invariant JournalsTo(cfg, t, events[..i], session.Rows())
        invariant HeadersOf(headers, events[..i], end, endHash) && HeadersSeen(node, from, node.clock, headers, end)
        invariant calm ==> HeadersShown(v, headers)
      {
        var e := events[i];
        ghost var before, at := headers, node.clock;
        if calm { StaysQuiet(node, from, node.clock); }
        JournalsNext(cfg, t, events, i, session.Rows());
        ok, headers := JournalNext(session, node, e, headers);
        if !ok { return; }
        HeadersOfSnoc(before, events, i, end, endHash);
        HeadersSeenNext(node, from, at, node.clock, before, e, end);
        i := i + 1;
      }
      JournalsDone(cfg, t, events, i, session.Rows());
      assert events[..i] == events;
      ok := true;
    }

    /** Fetches and journals the blocks (low, end]. If the node kept showing v, the batch is v's own; on a quiet node it is
        taken exactly when it is acceptable. */
    method FetchAndJournal(session: Session, node: Node, low: nat, end: nat, endHash: Hash, ghost v: View) returns (ok: bool, headers: map<nat, Hash>)
      requires session.cfg == cfg && 1 <= batchSize && low < end && node.Honest(branches)
      modifies this`batchSize, node`clock
      modifies session`journal, session`bindings, session`products, session`history, session`shipments
      ensures node.clock >= old(node.clock) && Shrinks(old(batchSize), batchSize, ok)
      ensures ok ==> TakenIfSteady(node, old(node.clock), node.clock, cfg, old(session.Rows()), v, low, end, endHash, headers, session.Rows())
      ensures Calm(node, old(node.clock), v, end) && Shows(v, end, endHash) ==>
        AcceptedExactly(cfg, old(session.Rows()), v, low, end, ok)
    {
      ghost var from := node.clock;
      headers := map[];
      CalmIsQuiet(node, from, v, end);
      EventsOnChain(v, low, end);
      var events := FetchEvents(node, low + 1, end, v);
      CalmIsSteady(node, from, node.clock, v, end);
      if events.None? || Completions(events.value) != DeliveredCheckpoints(events.value) { return false, headers; }
      ghost var mid := node.clock;
      if node.Quiet(from) { StaysQuiet(node, from, node.clock); }
      ok, headers := JournalBatch(session, node, events.value, end, endHash);
      ReadLonger(node, v, from, mid, node.clock, end, events.value, low, end);
    }

    /** Reads and journals the blocks (c.last, end]. `seen` is a call that showed the cursor's block; the closing header
        reads must show it and the end of the range again, so a chain that switched in between aborts the poll. */
    method ReadBatch(session: Session, node: Node, c: Cursor, end: nat, target: nat, ghost start: nat, ghost seen: nat)
      returns (ok: bool, endHash: Hash, headers: map<nat, Hash>, ghost first: nat)
      requires session.cfg == cfg && 1 <= batchSize && c.last < end <= target
      requires node.Honest(branches) && node.NoReturn(start, target) && SeenAt(node, start, seen, node.clock, c)
      modifies this`batchSize, node`clock
      modifies session`journal, session`bindings, session`products, session`history, session`shipments
      ensures Shrinks(old(batchSize), batchSize, ok) && node.clock >= old(node.clock)
      ensures ok ==> first == old(node.clock) < node.clock
      ensures ok ==> Shows(node.view(first), c.last, c.hash) && Shows(node.view(first), end, endHash)
      ensures ok ==> BatchTaken(cfg, old(session.Rows()), node.view(first), c.last, end, endHash, headers, session.Rows())
      ensures var v := node.view(old(node.clock));
        Calm(node, old(node.clock), v, end) && Shows(v, c.last, c.hash) ==>
          AcceptedExactly(cfg, old(session.Rows()), v, c.last, end, ok)
    {
      endHash, headers, first := "", map[], node.clock;
      ghost var v := node.view(first);
      CalmIsQuiet(node, first, v, end);
      var atEnd := node.Header(end);
      if atEnd.None? { return false, endHash, headers, 0; }
      endHash := atEnd.value;
      StaysCalm(node, first, node.clock, v, end, end);
      ok, headers := FetchAndJournal(session, node, c.last, end, endHash, v);
      if !ok { return; }
      StaysCalm(node, first, node.clock, v, end, end);
      ok := ConfirmBatch(node, c, end, endHash, headers, v, start, seen, first, target, old(session.Rows()), session.Rows());
    }

    /** If the closing reads match, the batch that led from t to u is the batch of the chain shown when it began. */
    method ConfirmBatch(node: Node, c: Cursor, end: nat, endHash: Hash, ghost headers: map<nat, Hash>, ghost v: View,
                        ghost start: nat, ghost seen: nat, ghost first: nat, ghost target: nat, ghost t: Tables, ghost u: Tables) returns (ok: bool)
      requires c.last < end <= target && node.Honest(branches) && node.NoReturn(start, target)
      requires SeenAt(node, start, seen, first, c) && first < node.clock && !node.fails(first) && Shows(node.view(first), end, endHash)
      requires TakenIfSteady(node, first + 1, node.clock, cfg, t, node.view(first), c.last, end, endHash, headers, u)
      modifies node`clock
      ensures node.clock >= old(node.clock)
      ensures ok ==> Shows(node.view(first), c.last, c.hash)
      ensures ok ==> BatchTaken(cfg, t, node.view(first), c.last, end, endHash, headers, u)
      ensures Calm(node, old(node.clock), v, end) && Shows(v, end, endHash) && Shows(v, c.last, c.hash) ==> ok
    {
      ghost var closed := node.clock;
      ok := Confirm(node, c, end, endHash, v);
      if ok {
        BatchHeld(branches, node, start, seen, first, closed, c, target, cfg, t, end, endHash, headers, u);
      }
    }

    /** The closing header reads: the end of the range, then the cursor's block. */
    method Confirm(node: Node, c: Cursor, end: nat, endHash: Hash, ghost v: View) returns (ok: bool)
      modifies node`clock
      ensures node.clock >= old(node.clock) && (ok ==> node.clock == old(node.clock) + 2)
      ensures ok ==> !node.fails(old(node.clock)) && Shows(node.view(old(node.clock)), end, endHash)
      ensures ok ==> !node.fails(old(node.clock) + 1) && Shows(node.view(old(node.clock) + 1), c.last, c.hash)
      ensures Calm(node, old(node.clock), v, end) && Shows(v, end, endHash) && Shows(v, c.last, c.hash) ==> ok
    {
      CalmIsQuiet(node, node.clock, v, end);
      var atEnd := node.Header(end);
      if atEnd != Some(endHash) { return false; }
      var atCursor := node.Header(c.last);
      ok := atCursor == Some(c.hash);
    }

    /** Writes the anchors and the cursor of a journaled batch; a batch that reaches the target must leave the history covered. */
    method CloseBatch(session: Session, end: nat, endHash: Hash, headers: map<nat, Hash>, target: nat, ghost t: Tables, ghost v: View)
      returns (ok: bool)
      requires session.cfg == cfg && t.cursor.Some?
      requires t.cursor.value.last < end && Shows(v, t.cursor.value.last, t.cursor.value.hash) && Shows(v, end, endHash)
      requires end < |v| && BatchTaken(cfg, t, v, t.cursor.value.last, end, endHash, headers, session.Rows())
      modifies session`cursor, session`anchors
      ensures ok <==> (end == target ==> Covered(old(session.Rows())))
      ensures ok ==>
        && session.cursor == Some(Cursor(t.cursor.value.start, end, endHash))
        && ForwardStep(cfg, t, v, end, session.Rows())
        && (end == target ==> Covered(session.Rows()))
    {
      ghost var w := session.Rows();
      assert HeadersOf(headers, EventsIn(v, t.cursor.value.last, end), end, endHash);
      BatchFrame(cfg, t, EventsIn(v, t.cursor.value.last, end), w);
      session.anchors := session.anchors + headers;
      CoveredFrame(w, session.Rows());
      if end == target && !Covered(session.Rows()) { return false; }
      session.cursor := Some(Cursor(session.cursor.value.start, end, endHash));
      assert Batch(cfg, t, v, end, headers, w, session.Rows());
      CoveredFrame(w, session.Rows());
      ok := true;
    }

    /** Reads, journals and closes the batch (cursor, end]. On a quiet node it succeeds exactly when the node's batch is taken. */
    method TakeBatch(session: Session, node: Node, end: nat, target: nat, ghost start: nat, ghost seen: nat) returns (ok: bool, ghost when: nat)
      requires session.cfg == cfg && 1 <= batchSize
      requires session.cursor.Some? && session.cursor.value.last < end <= target
      requires node.Honest(branches) && node.NoReturn(start, target) && SeenAt(node, start, seen, node.clock, session.cursor.value)
      modifies this`batchSize, node`clock
      modifies session`cursor, session`anchors, session`journal, session`bindings, session`products, session`history, session`shipments
      ensures Shrinks(old(batchSize), batchSize, ok) && node.clock >= old(node.clock)
      ensures ok ==>
        && session.cursor.Some? && session.cursor.value.last == end
        && when < node.clock && ForwardStep(cfg, old(session.Rows()), node.view(when), end, session.Rows())
        && (end == target ==> Covered(session.Rows()))
        && Shows(node.view(when), end, session.cursor.value.hash)
      ensures var v := node.view(old(node.clock));
        node.Quiet(old(node.clock)) && end < |v| && Shows(v, old(session.cursor.value.last), old(session.cursor.value.hash)) ==>
          (ok <==> Takes(cfg, old(session.Rows()), v, end, target))
    {
      var c := session.cursor.value;
      ghost var t := session.Rows();
      var endHash, headers;
      ViewWellFormed(branches, node, node.clock);
      CalmFacts(node, node.clock, node.view(node.clock), end);
      ok, endHash, headers, when := ReadBatch(session, node, c, end, target, start, seen);
      if !ok { return; }
      ok := CloseBatch(session, end, endHash, headers, target, t, node.view(when));
    }

    /** The forward half of a poll. */
    method Advance(session: Session, node: Node, target: nat, ghost start: nat, ghost seen: nat) returns (ok: bool, indexed: Option<nat>, ghost when: nat)
      requires session.cfg == cfg && 1 <= batchSize && session.cursor.Some?
      requires node.Honest(branches) && node.NoReturn(start, target) && SeenAt(node, start, seen, node.clock, session.cursor.value)
      modifies this`batchSize, node`clock
      modifies session`cursor, session`anchors, session`journal, session`bindings, session`products, session`history, session`shipments
      ensures node.clock >= old(node.clock)
      ensures Shrinks(old(batchSize), batchSize, ok)
      ensures ok ==>
        && session.cursor.Some? && when < node.clock && Shows(node.view(when), session.cursor.value.last, session.cursor.value.hash)
        && AdvancedIf(cfg, node, node.clock, old(session.Rows()), indexed, session.Rows())
        && indexed == NextEnd(old(session.cursor.value.last), target, old(batchSize))
        && (indexed == Some(target) ==> Covered(session.Rows()))
      ensures var v := node.view(old(node.clock));
        node.Quiet(old(node.clock)) && target < |v| && Shows(v, old(session.cursor.value.last), old(session.cursor.value.hash)) ==>
          (ok <==> Advances(cfg, old(session.Rows()), v, target, old(batchSize)))
    {
      indexed := NextEnd(session.cursor.value.last, target, batchSize);
      if indexed.None? { return true, None, seen; }
      ok, when := TakeBatch(session, node, indexed.value, target, start, seen);
    }

    /** The first poll anchors the cursor at the deployment block. */
    method OpenCursor(session: Session, node: Node, target: nat) returns (ok: bool)
      requires session.cfg == cfg && Consistent(cfg, branches, init, session.Rows()) && node.Honest(branches)
      modifies node`clock, session`cursor, session`anchors
      ensures node.clock >= old(node.clock)
      ensures ok ==> CursorOpen(cfg, branches, init, node, node.clock, old(session.Rows()), session.Rows())
      ensures ok && old(session.cursor).None? ==> cfg.startBlock <= target
      ensures var v := node.view(old(node.clock));
        node.Quiet(old(node.clock)) && target < |v| ==> OpenedExactly(cfg, old(session.Rows()), v, target, ok, session.Rows())
    {
      if session.cursor.None? {
        if cfg.startBlock > target { return false; }
        ghost var at := node.clock;
        var hash := node.Header(cfg.startBlock);
        if hash.None? { return false; }
        session.cursor := Some(Cursor(cfg.startBlock, cfg.startBlock, hash.value));
        session.anchors := map[cfg.startBlock := hash.value];
        assert OpenStep(cfg, init, node.view(at), session.Rows());
        OpenedMirrors(cfg, branches, init, node.view(at), session.Rows());
      }
      ok := session.cursor.value.start == cfg.startBlock;
    }

    /** The cursor's block is still on the node's chain, or the database is rewound until it is. */
    method Realign(session: Session, node: Node, head: nat) returns (ok: bool, reorg: Option<nat>, ghost seen: nat)
      requires session.cfg == cfg && CanonicalKeys(cfg, branches) && node.Honest(branches)
      requires session.cursor.Some? && MirrorsTip(cfg, branches, init, session.Rows())
      modifies node`clock
      modifies session`cursor, session`anchors, session`journal, session`bindings, session`products, session`history, session`shipments
      ensures node.clock >= old(node.clock)
      ensures ok ==>
        && session.cursor.Some? && Grown(cfg, branches, init, old(session.Rows()), session.Rows())
        && RewoundIf(cfg, branches, old(session.Rows()), reorg, session.Rows())
        && SeenAt(node, old(node.clock), seen, node.clock, session.cursor.value)
      ensures var v := node.view(old(node.clock));
        node.Quiet(old(node.clock)) && |v| == head + 1 ==> AlignedExactly(cfg, branches, old(session.Rows()), v, ok, session.Rows())
    {
      reorg := None;
      ghost var from, t := node.clock, session.Rows();
      ghost var v := node.view(from);
      ghost var calm := node.Quiet(from) && |v| == head + 1;
      if head < session.cursor.value.last {
        if calm { AlignedNever(cfg, branches, t, v, t); }
        return false, None, 0;
      }
      seen := node.clock;
      var tip := node.Header(session.cursor.value.last);
      if tip.None? { return false, None, 0; }
      if tip.value == session.cursor.value.hash {
        GrownSame(cfg, branches, init, session.Rows());
        AlignedStays(cfg, branches, t, node.view(from));
        return true, None, seen;
      }
      if calm { StaysQuiet(node, from, node.clock); }
      reorg, seen := session.Rewind(node, branches, init);
      if reorg.None? {
        if calm { AlignedNever(cfg, branches, t, v, session.Rows()); }
        return false, None, 0;
      }
      if calm {
        QuietMismatch(node, from, node.clock, t, reorg.value);
        AlignedBack(cfg, branches, t, v, reorg.value, session.Rows());
      }
      ok := true;
    }

    /** The first half of a poll: open the cursor on the first run, then realign it with the node's chain. */
    method Recover(session: Session, node: Node, head: nat, target: nat) returns (ok: bool, reorg: Option<nat>, ghost seen: nat)
      requires Valid() && session.cfg == cfg && session.Rows() == committed && node.Honest(branches)
      modifies node`clock
      modifies session`cursor, session`anchors, session`journal, session`bindings, session`products, session`history, session`shipments
      ensures node.clock >= old(node.clock)
      ensures ok ==>
        && session.cursor.Some? && Opened(cfg, branches, init, node, node.clock, committed, reorg, session.Rows())
        && SeenAt(node, old(node.clock), seen, node.clock, session.cursor.value)
        && (committed.cursor.None? ==> cfg.startBlock <= target)
      ensures var v := node.view(old(node.clock));
        node.Quiet(old(node.clock)) && |v| == head + 1 && target <= head ==> RecoveryExact(cfg, branches, committed, v, target, ok, session.Rows())
    {
      reorg, seen := None, 0;
      ghost var from := node.clock;
      ghost var v := node.view(from);
      ghost var calm := node.Quiet(from) && |v| == head + 1 && target <= head;
      ok := OpenCursor(session, node, target);
      ghost var t := session.Rows();
      if !ok {
        if calm { NotOpened(cfg, branches, committed, v, target, t); }
        return;
      }
      ghost var at := node.clock;
      CursorOpenFacts(cfg, branches, init, node, at, committed, t);
      if node.Quiet(from) { StaysQuiet(node, from, node.clock); }
      ok, reorg, seen := Realign(session, node, head);
      RecoveryDone(cfg, branches, init, node, at, node.clock, committed, t, session.Rows(), reorg, v, target, calm, ok);
    }

    /** Recovery, then the forward half. */
    method Attempt(session: Session, node: Node, head: nat, target: nat, ghost start: nat) returns (outcome: Outcome, ghost when: nat, ghost base: Tables)
      requires Valid() && session.cfg == cfg && session.Rows() == committed && target <= head
      requires node.Honest(branches) && node.NoReturn(start, target) && start <= node.clock
      modifies this`batchSize, node`clock
      modifies session`cursor, session`anchors, session`journal, session`bindings, session`products, session`history, session`shipments
      ensures Shrinks(old(batchSize), batchSize, outcome.Committed?)
      ensures Attempted(cfg, branches, init, node, node.clock, old(batchSize), target, when, committed, base, session.Rows(), outcome)
      ensures var v := node.view(old(node.clock));
        node.Quiet(old(node.clock)) && |v| == head + 1 ==>
          Judged(cfg, branches, committed, v, target, old(batchSize), base, outcome.Committed?)
    {
      ghost var from, v := node.clock, node.view(node.clock);
      when, base := 0, session.Rows();
      var ok, reorg;
      ghost var seen;
      ok, reorg, seen := Recover(session, node, head, target);
      ghost var calm := node.Quiet(from) && |v| == head + 1;
      if !ok {
        if calm { NotRecovered(cfg, branches, committed, v, target, batchSize, session.Rows(), base); }
        return Failed, 0, base;
      }
      base := session.Rows();
      ghost var at := node.clock;
      OpenedFacts(cfg, branches, init, node, at, committed, reorg, base);
      if node.Quiet(from) { StaysQuiet(node, from, node.clock); }
      var indexed;
      ok, indexed, when := Advance(session, node, target, start, seen);
      if calm { PollJudged(cfg, branches, committed, v, target, old(batchSize), base, ok); }
      if !ok { return Failed, 0, base; }
      outcome := Committed(reorg, indexed);
      AdvancedGrown(cfg, branches, init, node, node.clock, base, indexed, session.Rows());
      PollMoved(cfg, branches, init, node, at, node.clock, committed, base, session.Rows(), reorg, indexed);
    }

    /** The body of a poll's transaction. */
    method Transact(session: Session, node: Node) returns (outcome: Outcome, ghost base: Tables)
      requires Valid() && session.cfg == cfg && session.Rows() == committed
      requires node.Honest(branches) && node.NoReturn(node.clock, TargetOf(cfg, node.view(node.clock)))
      modifies this`batchSize, node`clock
      modifies session`cursor, session`anchors, session`journal, session`bindings, session`products, session`history, session`shipments
      ensures Shrinks(old(batchSize), batchSize, outcome.Committed?)
      ensures PollDone(cfg, branches, init, node, old(node.clock), node.clock, old(batchSize), committed, base, session.Rows(), outcome)
      ensures var v := node.view(old(node.clock));
        node.Quiet(old(node.clock)) && v != [] ==>
          Judged(cfg, branches, committed, v, TargetOf(cfg, v), old(batchSize), base, outcome.Committed?)
    {
      ghost var from, v, batch := node.clock, node.view(node.clock), batchSize;
      var head := node.Head();
      if head.None? { return Failed, session.Rows(); }
      var target := if head.value > cfg.confirmations then head.value - cfg.confirmations else 0;
      HeadTarget(cfg, v, target);
      if node.Quiet(from) { StaysQuiet(node, from, node.clock); }
      ghost var when;
      outcome, when, base := Attempt(session, node, head.value, target, from);
      PollIsDone(cfg, branches, init, node, from, node.clock, batch, target, when, committed, base, session.Rows(), outcome);
    }

    /** One atomic poll. `commits` is false when the final commit itself fails. `base` is the database between the two halves. */
    method PollOnce(node: Node, commits: bool) returns (outcome: Outcome, ghost base: Tables)
      requires Valid() && node.Honest(branches) && node.NoReturn(node.clock, TargetOf(cfg, node.view(node.clock)))
      modifies this, node`clock
      ensures Valid()
      ensures outcome.Failed? ==>
        && committed == old(committed) && lastProcessedBlock == old(lastProcessedBlock) && lastReorgAncestor == old(lastReorgAncestor)
        && (batchSize == old(batchSize) || batchSize == if old(batchSize) >= 2 then old(batchSize) / 2 else 1)
      ensures PollDone(cfg, branches, init, node, old(node.clock), node.clock, old(batchSize), old(committed), base, committed, outcome)
      ensures outcome.Committed? ==> commits && committed.cursor.Some? && lastProcessedBlock == Some(committed.cursor.value.last)
      ensures outcome.Committed? ==>
        && lastReorgAncestor == (if outcome.reorgAncestor.Some? then outcome.reorgAncestor else old(lastReorgAncestor))
        && batchSize == (if old(batchSize) * 2 < cfg.batchSize then old(batchSize) * 2 else cfg.batchSize)
      // Where the poll starts and ends, told from the head it read; PollBounds tells where recovery left the cursor of base.
      ensures outcome.Committed? && old(committed.cursor).None? ==>
        cfg.startBlock == 0 || cfg.startBlock + cfg.confirmations <= |node.view(old(node.clock))| - 1
      ensures outcome.Committed? ==> base.cursor.Some?
      ensures outcome.Committed? ==>
        outcome.indexedBlock == (if base.cursor.value.last < committed.cursor.value.last then Some(committed.cursor.value.last) else None)
      ensures outcome.Committed? ==>
        var head, last, end := |node.view(old(node.clock))| - 1, base.cursor.value.last, committed.cursor.value.last;
        && last <= end <= last + old(batchSize)
        && (last < end ==> end + cfg.confirmations <= head)
        && (end < last + old(batchSize) ==> head <= end + cfg.confirmations)
      ensures var v := node.view(old(node.clock));
        node.Quiet(old(node.clock)) && v != [] && commits ==>
          Judged(cfg, branches, old(committed), v, TargetOf(cfg, v), old(batchSize), base, outcome.Committed?)
    {
      var session := new Session(cfg, committed);
      ghost var from, before, batch := node.clock, committed, batchSize;
      outcome, base := Transact(session, node);
      if outcome.Failed? || !commits { return Failed, base; }
      ghost var after := session.Rows();
      MovedConsistent(cfg, branches, init, before, after, outcome);
      PollBounds(cfg, branches, init, node, from, node.clock, batch, before, base, after, outcome);
      Publish(session.Rows(), outcome.reorgAncestor);
    }

    /** What follows a commit: the tables are the session's, the counters follow, and the batch size recovers. */
    method Publish(tables: Tables, reorgAncestor: Option<nat>)
      requires 1 <= batchSize <= cfg.batchSize && tables.cursor.Some?
      modifies this
      ensures committed == tables && lastProcessedBlock == Some(tables.cursor.value.last)
      ensures lastReorgAncestor == if reorgAncestor.Some? then reorgAncestor else old(lastReorgAncestor)
      ensures batchSize == if old(batchSize) * 2 < cfg.batchSize then old(batchSize) * 2 else cfg.batchSize
    {
      committed := tables;
      lastProcessedBlock := Some(tables.cursor.value.last);
      if reorgAncestor.Some? {
        lastReorgAncestor := reorgAncestor;
      }
      batchSize := if batchSize * 2 < cfg.batchSize then batchSize * 2 else cfg.batchSize;
    }

    /** The worker loop: whatever the nodes do, every poll leaves a consistent database. Each poll sees its own node object. */
    method Run(nodes: seq<Node>, commits: seq<bool>) returns (outcomes: seq<Outcome>)
      requires Valid() && |commits| == |nodes|
      requires forall i, j :: 0 <= i < j < |nodes| ==> nodes[i] != nodes[j]
      requires forall i :: 0 <= i < |nodes| ==>
        nodes[i].Honest(branches) && nodes[i].NoReturn(nodes[i].clock, TargetOf(cfg, nodes[i].view(nodes[i].clock)))
      modifies this, set i | 0 <= i < |nodes| :: nodes[i]
      ensures Valid() && |outcomes| == |nodes|
      ensures Ran(old(committed), committed, outcomes)
    {
      outcomes := [];
      while |outcomes| < |nodes|
        invariant |outcomes| <= |nodes| && Valid()
        invariant forall i :: |outcomes| <= i < |nodes| ==> nodes[i].clock == old(nodes[i].clock)
        invariant Ran(old(committed), committed, outcomes)
      {
        ghost var before := committed;
        var n := |outcomes|;
        var outcome;
        ghost var base;
        outcome, base := PollOnce(nodes[n], commits[n]);
        RanOn(cfg, branches, init, old(committed), before, outcomes, outcome, committed);
        outcomes := outcomes + [outcome];
      }
    }
  }
}
