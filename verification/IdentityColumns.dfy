/** What identity reconciliation decides and writes, said of the rows themselves: who is in a group, what stops it, who wins, and
    what every column holds afterwards. */
module IdentityColumns {
  import opened Prelude
  import opened Chains
  import opened Projection
  import opened IdentitySpec
  import opened IdentityLaws

  // ---- groups and winners ----

  /** A group holds the live rows of this chain and registry whose id has its key, unless their identity columns say otherwise. */
  lemma GroupExactly(cfg: Config, db: Db, key: Key, id: string)
    ensures id in Group(cfg, db, key) <==>
      && id in db.products && cfg.canonical(id) == Some(key)
      && var p := db.products[id];
         && p.fields.registrationStatus != "superseded"
         && (p.identity == Identity(None, None, None, None)
             || p.identity == Identity(Some(key), Some(cfg.chainId), Some(Lower(cfg.registry)), Some(Lower(cfg.tracker))))
  {}

  /** A live row fits no group exactly when its id has no key or its identity columns hold something else, and no other chain or
      registry has claimed it. */
  lemma RowConflictsExactly(cfg: Config, db: Db, id: string)
    ensures id in RowConflicts(cfg, db) <==>
      && id in db.products && db.products[id].fields.registrationStatus != "superseded"
      && var held := db.products[id].identity;
         && (held.chainId == None || (held.chainId == Some(cfg.chainId) && held.registry == Some(Lower(cfg.registry))))
         && (cfg.canonical(id) == None
             || (held != Identity(None, None, None, None)
                 && held != Identity(cfg.canonical(id), Some(cfg.chainId), Some(Lower(cfg.registry)), Some(Lower(cfg.tracker)))))
  {}

  /** Code point order: a proper prefix comes first, and otherwise the first difference decides. */
  lemma {:induction false} LessExactly(a: string, b: string)
    ensures Less(a, b) <==>
      exists i :: 0 <= i <= |a| && i < |b| && a[..i] == b[..i] && (i == |a| || a[i] < b[i])
  {
    if Less(a, b) {
      var i := FirstDifference(a, b);
    }
    if i :| 0 <= i <= |a| && i < |b| && a[..i] == b[..i] && (i == |a| || a[i] < b[i]) {
      DifferenceDecides(a, b, i);
    }
  }

  lemma {:induction false} FirstDifference(a: string, b: string) returns (i: nat)
    requires Less(a, b)
    ensures i <= |a| && i < |b| && a[..i] == b[..i] && (i == |a| || a[i] < b[i])
  {
    if a == [] || a[0] < b[0] {
      i := 0;
    } else {
      var j := FirstDifference(a[1..], b[1..]);
      i := j + 1;
      assert a[..i] == [a[0]] + a[1..][..j] && b[..i] == [b[0]] + b[1..][..j];
    }
  }

  lemma {:induction false} DifferenceDecides(a: string, b: string, i: nat)
    requires i <= |a| && i < |b| && a[..i] == b[..i] && (i == |a| || a[i] < b[i])
    ensures Less(a, b)
  {
    if i > 0 {
      assert a[0] == a[..i][0] == b[..i][0] == b[0];
      assert a[1..][..i - 1] == a[..i][1..] && b[1..][..i - 1] == b[..i][1..];
      DifferenceDecides(a[1..], b[1..], i - 1);
    }
  }

  /** The id reads as hexadecimal. */
  predicate HexPrefixed(id: string) {
    |id| >= 2 && id[0] == '0' && (id[1] == 'x' || id[1] == 'X')
  }

  /** A group that changes keeps its first row: a human id if it has one, and among ids of one sort the first in code point order. */
  lemma WinnerIsFirst(cfg: Config, scope: string, db: Db, events: seq<Event>, plan: map<Key, Merge>, key: Key, id: string)
    requires PlanFor(cfg, scope, db, events, plan) && key in plan && id in Group(cfg, db, key)
    ensures plan[key].winner in Group(cfg, db, key)
    ensures HexPrefixed(plan[key].winner) ==> HexPrefixed(id)
    ensures HexPrefixed(plan[key].winner) == HexPrefixed(id) && id != plan[key].winner ==>
      exists i :: 0 <= i <= |plan[key].winner| && i < |id| && plan[key].winner[..i] == id[..i]
               && (i == |plan[key].winner| || plan[key].winner[i] < id[i])
  {
    var w := plan[key].winner;
    assert MergeFor(cfg, scope, db, key, plan[key]);
    HexIsPrefix(w);
    HexIsPrefix(id);
    LessExactly(w, id);
  }

  lemma HexIsPrefix(id: string)
    ensures IsHex(id) <==> HexPrefixed(id)
  {
    if |id| >= 2 {
      var low := Lower(id[..2]);
      assert low[0] == LowerChar(id[0]) && low[1] == LowerChar(id[1]);
    }
  }

  // ---- the verdict ----

  /** Nothing is reconciled against a registration that was removed or that another contract emitted. */
  lemma WrongEmitterExactly(cfg: Config, events: seq<Event>)
    ensures (forall e :: e in events ==> !WrongEmitter(cfg, e)) <==>
      forall e :: e in events && e.log.payload.ProductRegistered? ==> Lower(e.log.address) == Lower(cfg.registry) && !e.log.removed
  {}

  predicate RegistersKey(e: Event, key: Key) {
    e.log.payload.ProductRegistered? && e.log.product == key
  }

  lemma {:induction false} EvidenceMembers(events: seq<Event>, key: Key)
    ensures forall e :: e in Evidence(events, key) <==> e in events && RegistersKey(e, key)
  {
    if events != [] {
      EvidenceMembers(events[..|events| - 1], key);
      assert events == events[..|events| - 1] + [events[|events| - 1]];
    }
  }

  /** Two different positions of the list register the key. */
  ghost predicate RegisteredTwice(events: seq<Event>, key: Key) {
    exists i, j :: 0 <= i < j < |events| && RegistersKey(events[i], key) && RegistersKey(events[j], key)
  }

  lemma {:induction false} EvidenceTwice(events: seq<Event>, key: Key)
    ensures |Evidence(events, key)| > 1 <==> RegisteredTwice(events, key)
  {
    if events != [] {
      var n := |events| - 1;
      EvidenceTwice(events[..n], key);
      EvidenceMembers(events[..n], key);
      TwiceSnoc(events, key);
      if Evidence(events[..n], key) != [] { assert Evidence(events[..n], key)[0] in events[..n]; }
    }
  }

  lemma TwiceSnoc(events: seq<Event>, key: Key)
    requires events != []
    ensures var n := |events| - 1;
      RegisteredTwice(events, key) <==>
        RegisteredTwice(events[..n], key) || (RegistersKey(events[n], key) && exists e :: e in events[..n] && RegistersKey(e, key))
  {
    var n := |events| - 1;
    var early := events[..n];
    if RegisteredTwice(early, key) {
      var i, j :| 0 <= i < j < |early| && RegistersKey(early[i], key) && RegistersKey(early[j], key);
      assert RegistersKey(events[i], key) && RegistersKey(events[j], key);
    }
    if RegistersKey(events[n], key) && exists e :: e in early && RegistersKey(e, key) {
      var i :| 0 <= i < n && RegistersKey(early[i], key);
      assert RegistersKey(events[i], key);
    }
    if RegisteredTwice(events, key) {
      var i, j :| 0 <= i < j < |events| && RegistersKey(events[i], key) && RegistersKey(events[j], key);
      assert RegistersKey(early[i], key);
      assert j < n ==> RegistersKey(early[j], key);
    }
  }

  /** Something about the row's columns is at odds with the registration e of its key. */
  predicate AtOdds(f: Fields, e: Event)
    requires e.log.payload.ProductRegistered?
  {
    || Lower(f.manufacturer) != Lower(e.log.payload.manufacturer) || f.name != e.log.payload.name
    || (f.blockNumber > 0 && (f.blockNumber != e.number || Lower(f.tx) != e.log.tx))
    || (f.owner != None && f.owner != Some("")
        && ((f.ownershipSource != Some("signed_draft") && f.ownershipSource != Some("chain_event"))
            || Lower(f.owner.value) != Lower(e.log.payload.manufacturer)))
  }

  /** What stops a group, told from the tables and the logs: two registrations; a binding of another scope or key; a row that is
      an alias, or at odds with the registration; without a registration, several rows or a row that claims one; and several rows
      with two shipments between them or with untagged history. */
  ghost predicate StoppedRows(scope: string, db: Db, rows: set<string>, events: seq<Event>, key: Key)
    requires rows <= db.products.Keys
  {
    || RegisteredTwice(events, key)
    || (exists b :: b in db.bindings && db.bindings[b].productId in rows && !(b.scope == scope && b.key == key))
    || (exists id :: id in rows && id in db.aliases)
    || (exists e, id :: e in events && RegistersKey(e, key) && id in rows && AtOdds(db.products[id].fields, e))
    || ((forall e :: e in events ==> !RegistersKey(e, key))
        && ((exists a, b :: a in rows && b in rows && a != b)
            || (exists id :: id in rows
                  && (db.products[id].fields.blockNumber > 0 || db.products[id].fields.ownershipSource == Some("chain_event")))))
    || ((exists a, b :: a in rows && b in rows && a != b)
        && ((exists r, s :: r in db.refs && s in db.refs && r != s && r.table == ShipmentRef && s.table == ShipmentRef
                   && db.refs[r].productId in rows && db.refs[s].productId in rows)
            || (exists r :: r in db.refs && r.table != ShipmentRef && db.refs[r].source == None && db.refs[r].productId in rows)))
  }

  lemma SeveralMembers<T>(rows: set<T>)
    ensures |rows| > 1 <==> exists a, b :: a in rows && b in rows && a != b
  {
    if |rows| > 1 {
      var a :| a in rows;
      assert |rows - {a}| >= 1;
      var b :| b in rows - {a};
      assert a in rows && b in rows && a != b;
    }
    if a, b :| a in rows && b in rows && a != b { TwoMembers(rows, a, b); }
  }

  lemma RowStops(db: Db, rows: set<string>, events: seq<Event>, key: Key)
    requires rows <= db.products.Keys && |Evidence(events, key)| <= 1
    ensures Registrations(Evidence(events, key))
    ensures (exists id :: id in rows && BadRow(db, id, Evidence(events, key))) <==>
      || (exists id :: id in rows && id in db.aliases)
      || (exists e, id :: e in events && RegistersKey(e, key) && id in rows && AtOdds(db.products[id].fields, e))
      || ((forall e :: e in events ==> !RegistersKey(e, key))
          && exists id :: id in rows
               && (db.products[id].fields.blockNumber > 0 || db.products[id].fields.ownershipSource == Some("chain_event")))
  {
    EvidenceRegisters(events, key);
    EvidenceMembers(events, key);
    var evidence := Evidence(events, key);
    if evidence == [] {
      forall e | e in events ensures !RegistersKey(e, key) { assert e !in evidence; }
    } else {
      assert evidence[0] in evidence;
      forall e | e in events && RegistersKey(e, key) ensures e == evidence[0] { assert e in evidence; }
    }
  }

  lemma BindingStops(scope: string, db: Db, rows: set<string>, key: Key)
    ensures (exists b :: b in BindingsOf(db, rows) && b != BindingId(scope, key)) <==>
      exists b :: b in db.bindings && db.bindings[b].productId in rows && !(b.scope == scope && b.key == key)
  {
    assert forall b :: b in BindingsOf(db, rows) <==> b in db.bindings && db.bindings[b].productId in rows;
    if b :| b in db.bindings && db.bindings[b].productId in rows && !(b.scope == scope && b.key == key) {
      assert b in BindingsOf(db, rows) && b != BindingId(scope, key);
    }
  }

  lemma MergeStops(db: Db, rows: set<string>)
    ensures Unmergeable(db, rows) <==>
      && (exists a, b :: a in rows && b in rows && a != b)
      && (|| (exists r, s :: r in db.refs && s in db.refs && r != s && r.table == ShipmentRef && s.table == ShipmentRef
                && db.refs[r].productId in rows && db.refs[s].productId in rows)
          || (exists r :: r in db.refs && r.table != ShipmentRef && db.refs[r].source == None && db.refs[r].productId in rows))
  {
    SeveralMembers(rows);
    var shipments := RefsOf(db, rows, ShipmentRef);
    SeveralMembers(shipments);
    assert forall r :: r in shipments <==> r in db.refs && r.table == ShipmentRef && db.refs[r].productId in rows;
    if r, s :| r in db.refs && s in db.refs && r != s && r.table == ShipmentRef && s.table == ShipmentRef
               && db.refs[r].productId in rows && db.refs[s].productId in rows {
      assert r in shipments && s in shipments;
    }
  }

  /** The verdict on a group is exactly that. */
  lemma ConflictedExactly(cfg: Config, scope: string, db: Db, events: seq<Event>, key: Key)
    ensures Conflicted(cfg, scope, db, events, key) <==> StoppedRows(scope, db, Group(cfg, db, key), events, key)
  {
    RowsStopped(scope, db, Group(cfg, db, key), events, key);
  }

  lemma NoEvidence(events: seq<Event>, key: Key)
    ensures Evidence(events, key) == [] <==> forall e :: e in events ==> !RegistersKey(e, key)
  {
    EvidenceMembers(events, key);
    if Evidence(events, key) != [] { assert Evidence(events, key)[0] in Evidence(events, key); }
  }

  lemma RowsStopped(scope: string, db: Db, rows: set<string>, events: seq<Event>, key: Key)
    requires rows <= db.products.Keys
    ensures Registrations(Evidence(events, key))
    ensures (Conflicting(scope, db, key, rows, Evidence(events, key))
             || (!Unknown(db, rows, Evidence(events, key)) && Unmergeable(db, rows)))
        <==> StoppedRows(scope, db, rows, events, key)
  {
    EvidenceRegisters(events, key);
    EvidenceTwice(events, key);
    NoEvidence(events, key);
    SeveralMembers(rows);
    BindingStops(scope, db, rows, key);
    MergeStops(db, rows);
    if |Evidence(events, key)| <= 1 { RowStops(db, rows, events, key); }
  }

  /** A group that nothing stops changes unless it stays unknown, for want of a registration or a signed draft, or is a single row
      that holds its identity columns already. */
  lemma ChangesExactly(cfg: Config, scope: string, db: Db, events: seq<Event>, key: Key)
    ensures Changes(cfg, scope, db, events, key) <==>
      && !StoppedRows(scope, db, Group(cfg, db, key), events, key)
      && ((exists e :: e in events && RegistersKey(e, key))
          || forall id :: id in Group(cfg, db, key) ==> db.products[id].fields.ownershipSource == Some("signed_draft"))
      && !(exists id :: Group(cfg, db, key) == {id}
             && db.products[id].identity == Identity(Some(key), Some(cfg.chainId), Some(Lower(cfg.registry)), Some(Lower(cfg.tracker))))
  {
    ConflictedExactly(cfg, scope, db, events, key);
    EvidenceMembers(events, key);
    var evidence := Evidence(events, key);
    if evidence != [] { assert evidence[0] in evidence; }
  }

  // ---- what is written ----

  /** The winner of a changed group takes the identity columns of its key. If the group's binding was on another of its rows, it takes
      that row's columns, and is indexed exactly if they hold a registration from the chain; otherwise it keeps its own. */
  lemma WinnerColumns(cfg: Config, scope: string, db: Db, events: seq<Event>, plan: map<Key, Merge>, w: Rewrite, key: Key)
    requires Planned(cfg, scope, db, events, plan, w) && key in plan
    ensures plan[key].winner in db.products && plan[key].winner in After(db, w).products
    ensures var now := After(db, w).products[plan[key].winner];
      now.identity == Identity(Some(key), Some(cfg.chainId), Some(Lower(cfg.registry)), Some(Lower(cfg.tracker)))
    ensures var now, b := After(db, w).products[plan[key].winner].fields, BindingId(scope, key);
      if b in db.bindings && db.bindings[b].productId in Group(cfg, db, key) && db.bindings[b].productId != plan[key].winner then
        var was := db.products[db.bindings[b].productId].fields;
        && now.name == was.name && now.description == was.description && now.metadataUri == was.metadataUri
        && now.manufacturer == was.manufacturer && now.owner == was.owner && now.ownershipSource == was.ownershipSource
        && now.registeredAt == was.registeredAt && now.chainRegisteredAt == was.chainRegisteredAt
        && now.blockNumber == was.blockNumber && now.tx == was.tx
        && (now.registrationStatus == "indexed" <==> was.chainRegisteredAt.Some?)
        && (now.registrationStatus == "unregistered" <==> was.chainRegisteredAt.None?)
      else now == db.products[plan[key].winner].fields
  {
    PlannedRoles(cfg, scope, db, events, plan, w);
    assert MergeFor(cfg, scope, db, key, plan[key]);
    assert Wins(cfg, db, plan, w, plan[key].winner);
    MergedColumns(db, scope, key, Group(cfg, db, key), plan[key], w);
  }

  lemma MergedColumns(db: Db, scope: string, key: Key, rows: set<string>, m: Merge, w: Rewrite)
    requires rows <= db.products.Keys && m.winner in rows && m.source == SourceOf(db, scope, key, rows)
    requires m.winner in w.merges && w.merges[m.winner] == m && m.winner !in w.moves
    ensures m.winner in After(db, w).products && After(db, w).products[m.winner].identity == m.values
    ensures var now, b := After(db, w).products[m.winner].fields, BindingId(scope, key);
      if b in db.bindings && db.bindings[b].productId in rows && db.bindings[b].productId != m.winner then
        var was := db.products[db.bindings[b].productId].fields;
        now == was.(registrationStatus := if was.chainRegisteredAt.Some? then "indexed" else "unregistered")
      else now == db.products[m.winner].fields
  {}

  /** Every other row of the group is superseded and gives its identity columns up; the rest of its columns stay. Rows outside the
      changed groups stay as they are, and no row comes or goes. */
  lemma OtherColumns(cfg: Config, scope: string, db: Db, events: seq<Event>, plan: map<Key, Merge>, w: Rewrite, id: string)
    requires Planned(cfg, scope, db, events, plan, w)
    ensures id in After(db, w).products <==> id in db.products
    ensures forall k :: k in plan && id in Group(cfg, db, k) && id != plan[k].winner ==>
      After(db, w).products[id] == Product(db.products[id].fields.(registrationStatus := "superseded"), Identity(None, None, None, None))
    ensures id in db.products && (forall k :: k in plan ==> id !in Group(cfg, db, k)) ==> After(db, w).products[id] == db.products[id]
  {
    PlannedRoles(cfg, scope, db, events, plan, w);
    forall k | k in plan && id in Group(cfg, db, k) && id != plan[k].winner ensures id in w.moves {
      assert InGroup(cfg, db, k, id);
    }
    if id in w.moves { assert Moved(cfg, db, plan, w, id); assert id in Group(cfg, db, cfg.canonical(id).value); }
    if id in w.merges { assert Wins(cfg, db, plan, w, id); assert id in Group(cfg, db, cfg.canonical(id).value); }
  }

  /** A row's id leads to the winner of its group if the group changed, and to itself otherwise. */
  ghost predicate LeadsTo(cfg: Config, db: Db, plan: map<Key, Merge>, id: string, target: string) {
    && (forall k :: k in plan && id in Group(cfg, db, k) ==> target == plan[k].winner)
    && ((forall k :: k in plan ==> id !in Group(cfg, db, k)) ==> target == id)
  }

  lemma RedirectLeads(cfg: Config, db: Db, plan: map<Key, Merge>, w: Rewrite, id: string)
    requires Roles(cfg, db, plan, w)
    ensures LeadsTo(cfg, db, plan, id, Redirect(w.moves, id))
    ensures id in w.moves <==> exists k :: k in plan && id in Group(cfg, db, k) && id != plan[k].winner
  {
    forall k | k in plan && id in Group(cfg, db, k) ensures Redirect(w.moves, id) == plan[k].winner && (id != plan[k].winner ==> id in w.moves) {
      MemberExists(cfg, db, k, id);
      RedirectGroup(cfg, db, plan, w, k, id);
    }
    if id in w.moves {
      assert Moved(cfg, db, plan, w, id);
      assert id in Group(cfg, db, cfg.canonical(id).value);
    }
  }

  /** A row that lost its place to the winner of its group. */
  ghost predicate Superseded(cfg: Config, db: Db, plan: map<Key, Merge>, id: string) {
    exists k :: k in plan && id in Group(cfg, db, k) && id != plan[k].winner
  }

  ghost predicate Leading(cfg: Config, db: Db, plan: map<Key, Merge>, moves: map<string, string>) {
    forall id :: LeadsTo(cfg, db, plan, id, Redirect(moves, id)) && (id in moves <==> Superseded(cfg, db, plan, id))
  }

  lemma PlannedLeads(cfg: Config, scope: string, db: Db, events: seq<Event>, plan: map<Key, Merge>, w: Rewrite)
    requires Planned(cfg, scope, db, events, plan, w)
    ensures Leading(cfg, db, plan, w.moves)
  {
    PlannedRoles(cfg, scope, db, events, plan, w);
    forall id ensures LeadsTo(cfg, db, plan, id, Redirect(w.moves, id)) && (id in w.moves <==> Superseded(cfg, db, plan, id)) {
      RedirectLeads(cfg, db, plan, w, id);
    }
  }

  /** References follow their product. */
  lemma ReferencesFollow(cfg: Config, scope: string, db: Db, events: seq<Event>, plan: map<Key, Merge>, w: Rewrite, r: RefId)
    requires Planned(cfg, scope, db, events, plan, w)
    ensures r in After(db, w).refs <==> r in db.refs
    ensures r in db.refs ==>
      && LeadsTo(cfg, db, plan, db.refs[r].productId, After(db, w).refs[r].productId)
      && After(db, w).refs[r].source == db.refs[r].source && After(db, w).refs[r].columns == db.refs[r].columns
  {
    PlannedLeads(cfg, scope, db, events, plan, w);
    assert r in db.refs ==> After(db, w).refs[r] == db.refs[r].(productId := Redirect(w.moves, db.refs[r].productId));
  }

  /** So do aliases, and every superseded id becomes one. */
  lemma AliasesFollow(cfg: Config, scope: string, db: Db, events: seq<Event>, plan: map<Key, Merge>, w: Rewrite, a: string)
    requires Planned(cfg, scope, db, events, plan, w)
    ensures a in After(db, w).aliases <==> a in db.aliases || Superseded(cfg, db, plan, a)
    ensures Superseded(cfg, db, plan, a) ==> LeadsTo(cfg, db, plan, a, After(db, w).aliases[a])
    ensures a in db.aliases && !Superseded(cfg, db, plan, a) ==> LeadsTo(cfg, db, plan, db.aliases[a], After(db, w).aliases[a])
  {
    PlannedLeads(cfg, scope, db, events, plan, w);
    assert a in w.moves ==> After(db, w).aliases[a] == Redirect(w.moves, a);
    assert a in db.aliases && a !in w.moves ==> After(db, w).aliases[a] == Redirect(w.moves, db.aliases[a]);
  }

  /** A binding follows its product and keeps its status and holder. Its baseline stays, unless it moves onto a winner that was still
      a signed draft: then a later rewind restores the draft. */
  lemma BindingColumns(cfg: Config, scope: string, db: Db, events: seq<Event>, plan: map<Key, Merge>, w: Rewrite, b: BindingId)
    requires Planned(cfg, scope, db, events, plan, w)
    ensures b in After(db, w).bindings <==> b in db.bindings
    ensures b in db.bindings ==>
      var was, now := db.bindings[b], After(db, w).bindings[b];
      && LeadsTo(cfg, db, plan, was.productId, now.productId) && now.status == was.status && now.handler == was.handler
      && now.baseline ==
           if now.productId != was.productId && now.productId in db.products
              && db.products[now.productId].fields.ownershipSource == Some("signed_draft")
              && db.products[now.productId].fields.blockNumber == 0
           then db.products[now.productId].fields else was.baseline
  {
    PlannedRoles(cfg, scope, db, events, plan, w);
    if b in db.bindings {
      RedirectLeads(cfg, db, plan, w, db.bindings[b].productId);
      if db.bindings[b].productId in w.moves { assert Moved(cfg, db, plan, w, db.bindings[b].productId); }
    }
  }
}
