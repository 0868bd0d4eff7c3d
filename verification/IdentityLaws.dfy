/** What an applied identity plan conserves, and why a second run finds nothing to do. */
module IdentityLaws {
  import opened Prelude
  import opened Chains
  import opened Projection
  import opened IdentitySpec

  ghost predicate ConflictFree(cfg: Config, scope: string, db: Db, events: seq<Event>) {
    RowConflicts(cfg, db) == {} && forall k :: k in Keys(cfg, db) ==> !Conflicted(cfg, scope, db, events, k)
  }

  /** The plan of this database and its rewriting. */
  ghost predicate Planned(cfg: Config, scope: string, db: Db, events: seq<Event>, plan: map<Key, Merge>, w: Rewrite) {
    PlanFor(cfg, scope, db, events, plan) && RewriteOf(plan, w)
  }

  // ---- who is moved, who is rewritten ----

  /** A superseded row: its key changes, and it is sent to that key's winner. */
  ghost predicate Moved(cfg: Config, db: Db, plan: map<Key, Merge>, w: Rewrite, id: string) {
    && cfg.canonical(id).Some? && cfg.canonical(id).value in plan
    && InGroup(cfg, db, cfg.canonical(id).value, id)
    && id in w.moves && w.moves[id] == plan[cfg.canonical(id).value].winner
    && id != w.moves[id] && w.moves[id] !in w.moves
  }

  /** A winning row: it keeps its place and takes its key's canonical columns. */
  ghost predicate Wins(cfg: Config, db: Db, plan: map<Key, Merge>, w: Rewrite, id: string) {
    && cfg.canonical(id).Some? && cfg.canonical(id).value in plan
    && id in w.merges && w.merges[id] == plan[cfg.canonical(id).value] && w.merges[id].winner == id && id !in w.moves
    && InGroup(cfg, db, cfg.canonical(id).value, id)
    && w.merges[id].values == Values(cfg, cfg.canonical(id).value)
  }

  /** Every row of a changing group is either its winner or moved; nothing else is either. */
  ghost predicate Roles(cfg: Config, db: Db, plan: map<Key, Merge>, w: Rewrite) {
    && (forall id :: id in w.moves ==> Moved(cfg, db, plan, w, id))
    && (forall id :: id in w.merges ==> Wins(cfg, db, plan, w, id))
    && (forall k, id :: k in plan && InGroup(cfg, db, k, id) ==> if id == plan[k].winner then id in w.merges else id in w.moves)
    && (forall k :: k in plan ==> Wins(cfg, db, plan, w, plan[k].winner) && cfg.canonical(plan[k].winner) == Some(k))
  }

  ghost predicate MergesFor(cfg: Config, scope: string, db: Db, plan: map<Key, Merge>) {
    forall k :: k in plan ==> MergeFor(cfg, scope, db, k, plan[k])
  }

  lemma WinnerIn(cfg: Config, scope: string, db: Db, k: Key, m: Merge)
    requires MergeFor(cfg, scope, db, k, m)
    ensures InGroup(cfg, db, k, m.winner) && m.values == Values(cfg, k)
    ensures forall id :: id in m.losers <==> InGroup(cfg, db, k, id) && id != m.winner
  {}

  ghost predicate Shares(cfg: Config, db: Db, plan: map<Key, Merge>) {
    forall k :: k in plan ==>
      && InGroup(cfg, db, k, plan[k].winner) && plan[k].values == Values(cfg, k)
      && forall id :: id in plan[k].losers <==> InGroup(cfg, db, k, id) && id != plan[k].winner
  }

  lemma PlannedShares(cfg: Config, scope: string, db: Db, plan: map<Key, Merge>)
    requires MergesFor(cfg, scope, db, plan)
    ensures Shares(cfg, db, plan)
  {
    forall k | k in plan
      ensures InGroup(cfg, db, k, plan[k].winner) && plan[k].values == Values(cfg, k)
      ensures forall id :: id in plan[k].losers <==> InGroup(cfg, db, k, id) && id != plan[k].winner
    {
      WinnerIn(cfg, scope, db, k, plan[k]);
    }
  }

  lemma NotBoth(cfg: Config, db: Db, plan: map<Key, Merge>, w: Rewrite, id: string)
    requires Shares(cfg, db, plan) && RewriteOf(plan, w)
    ensures !(id in w.moves && id in w.merges)
  {
    if id in w.moves {
      var k :| k in plan && id in plan[k].losers;
      forall j | j in plan ensures plan[j].winner != id {
        assert InGroup(cfg, db, j, plan[j].winner);
      }
    }
  }

  lemma SharesGiveRoles(cfg: Config, db: Db, plan: map<Key, Merge>, w: Rewrite)
    requires Shares(cfg, db, plan) && RewriteOf(plan, w)
    ensures Roles(cfg, db, plan, w)
  {
    forall id ensures !(id in w.moves && id in w.merges) {
      NotBoth(cfg, db, plan, w, id);
    }
    forall id | id in w.moves ensures Moved(cfg, db, plan, w, id) {
      var k :| k in plan && id in plan[k].losers;
      assert plan[k].winner in w.merges;
    }
    forall k | k in plan ensures Wins(cfg, db, plan, w, plan[k].winner) && cfg.canonical(plan[k].winner) == Some(k) {}
    forall id | id in w.merges ensures Wins(cfg, db, plan, w, id) {
      var k :| k in plan && plan[k].winner == id;
    }
  }

  lemma PlannedRoles(cfg: Config, scope: string, db: Db, events: seq<Event>, plan: map<Key, Merge>, w: Rewrite)
    requires Planned(cfg, scope, db, events, plan, w)
    ensures Roles(cfg, db, plan, w)
  {
    PlannedShares(cfg, scope, db, plan);
    SharesGiveRoles(cfg, db, plan, w);
  }

  lemma KeyOfMember(cfg: Config, db: Db, key: Key, id: string)
    requires InGroup(cfg, db, key, id)
    ensures key in Keys(cfg, db)
  {}

  lemma MemberOfKey(cfg: Config, db: Db, key: Key) returns (id: string)
    requires key in Keys(cfg, db)
    ensures InGroup(cfg, db, key, id)
  {
    id :| id in db.products && Eligible(cfg, db.products[id]) && !Disagrees(cfg, id, db.products[id]) && cfg.canonical(id).value == key;
  }

  // ---- the groups afterwards ----

  lemma MergedStands(cfg: Config, db: Db, plan: map<Key, Merge>, w: Rewrite, id: string)
    requires Wins(cfg, db, plan, w, id)
    ensures var p := Merged(db.products, w.merges[id]);
      Eligible(cfg, p) && p.identity == Values(cfg, cfg.canonical(id).value)
  {}

  /** A live row afterwards was live before, and is its key's winner if that key changed. */
  lemma MemberAfter(cfg: Config, db: Db, plan: map<Key, Merge>, w: Rewrite, k: Key, id: string)
    requires Roles(cfg, db, plan, w)
    ensures InGroup(cfg, After(db, w), k, id) <==> InGroup(cfg, db, k, id) && (k in plan ==> id == plan[k].winner)
  {
    if id in db.products {
      if id in w.moves {
        assert Moved(cfg, db, plan, w, id);
      } else if id in w.merges {
        assert Wins(cfg, db, plan, w, id);
        MergedStands(cfg, db, plan, w, id);
      }
    }
  }

  /** Every changed group is left with its winner alone, every other group as it was. */
  lemma GroupAfter(cfg: Config, db: Db, plan: map<Key, Merge>, w: Rewrite, k: Key)
    requires Roles(cfg, db, plan, w)
    ensures Group(cfg, After(db, w), k) == if k in plan then {plan[k].winner} else Group(cfg, db, k)
  {
    assert k in plan ==> Wins(cfg, db, plan, w, plan[k].winner);
    forall id ensures id in Group(cfg, After(db, w), k) <==> id in (if k in plan then {plan[k].winner} else Group(cfg, db, k)) {
      MemberAfter(cfg, db, plan, w, k, id);
    }
  }

  lemma KeysAfter(cfg: Config, db: Db, plan: map<Key, Merge>, w: Rewrite)
    requires Roles(cfg, db, plan, w)
    ensures Keys(cfg, After(db, w)) == Keys(cfg, db)
  {
    forall k | k in Keys(cfg, db) ensures k in Keys(cfg, After(db, w)) {
      var id := MemberOfKey(cfg, db, k);
      var rep := if k in plan then plan[k].winner else id;
      assert k in plan ==> Wins(cfg, db, plan, w, plan[k].winner);
      MemberAfter(cfg, db, plan, w, k, rep);
      KeyOfMember(cfg, After(db, w), k, rep);
    }
    forall k | k in Keys(cfg, After(db, w)) ensures k in Keys(cfg, db) {
      var id := MemberOfKey(cfg, After(db, w), k);
      MemberAfter(cfg, db, plan, w, k, id);
      KeyOfMember(cfg, db, k, id);
    }
  }

  /** A group without conflict and without change has one row. */
  lemma UnchangedSingle(cfg: Config, scope: string, db: Db, events: seq<Event>, k: Key)
    requires !Conflicted(cfg, scope, db, events, k) && !Changes(cfg, scope, db, events, k)
    ensures |Group(cfg, db, k)| <= 1
  {}

  lemma CardinalityMonotone<T>(a: set<T>, b: set<T>)
    requires a <= b
    ensures |a| <= |b|
  {
    if a != {} {
      var x :| x in a;
      CardinalityMonotone(a - {x}, b - {x});
    }
  }

  lemma TwoMembers<T>(rows: set<T>, a: T, b: T)
    requires a in rows && b in rows
    ensures a != b ==> |rows| > 1
  {
    CardinalityMonotone({a, b}, rows);
    assert a != b ==> |{a, b}| == 2;
  }

  /** After an applied plan at most one live row of this chain and registry claims a key. */
  lemma OneLiveClaimant(cfg: Config, scope: string, db: Db, events: seq<Event>, plan: map<Key, Merge>, w: Rewrite, k: Key, a: string, b: string)
    requires Planned(cfg, scope, db, events, plan, w) && ConflictFree(cfg, scope, db, events)
    requires InGroup(cfg, After(db, w), k, a) && InGroup(cfg, After(db, w), k, b)
    ensures a == b
  {
    PlannedRoles(cfg, scope, db, events, plan, w);
    MemberAfter(cfg, db, plan, w, k, a);
    MemberAfter(cfg, db, plan, w, k, b);
    if k !in plan {
      KeyOfMember(cfg, db, k, a);
      UnchangedSingle(cfg, scope, db, events, k);
      TwoMembers(Group(cfg, db, k), a, b);
    }
  }

  // ---- conservation ----

  /** A row is redirected to the winner of its group, and to no other winner. */
  lemma RedirectGroup(cfg: Config, db: Db, plan: map<Key, Merge>, w: Rewrite, k: Key, id: string)
    requires Roles(cfg, db, plan, w) && k in plan
    ensures Redirect(w.moves, id) == plan[k].winner <==> InGroup(cfg, db, k, id)
    ensures Redirect(w.moves, id) !in w.moves
  {
    assert Wins(cfg, db, plan, w, plan[k].winner);
    if id in w.moves {
      assert Moved(cfg, db, plan, w, id);
      var j := cfg.canonical(id).value;
      assert Wins(cfg, db, plan, w, plan[j].winner);
    }
  }

  /** No reference is lost, none changes its columns or its tag, and each goes on pointing to a row of the same key. */
  lemma ReferencesKept(cfg: Config, db: Db, plan: map<Key, Merge>, w: Rewrite)
    requires Roles(cfg, db, plan, w)
    ensures After(db, w).refs.Keys == db.refs.Keys
    ensures forall r :: r in db.refs ==> var was, now := db.refs[r], After(db, w).refs[r];
      now.source == was.source && now.columns == was.columns && cfg.canonical(now.productId) == cfg.canonical(was.productId)
  {
    forall id ensures cfg.canonical(Redirect(w.moves, id)) == cfg.canonical(id) {
      if id in w.moves {
        assert Moved(cfg, db, plan, w, id);
        assert Wins(cfg, db, plan, w, w.moves[id]);
      }
    }
  }

  /** The winner of a group ends up with exactly the references of the whole group. */
  lemma ReferencesGathered(cfg: Config, db: Db, plan: map<Key, Merge>, w: Rewrite, k: Key, table: RefTable)
    requires Roles(cfg, db, plan, w) && k in plan
    ensures RefsOf(After(db, w), {plan[k].winner}, table) == RefsOf(db, Group(cfg, db, k), table)
  {
    forall r | r in db.refs
      ensures Redirect(w.moves, db.refs[r].productId) == plan[k].winner <==> db.refs[r].productId in Group(cfg, db, k)
    {
      RedirectGroup(cfg, db, plan, w, k, db.refs[r].productId);
      MemberExists(cfg, db, k, db.refs[r].productId);
    }
    RefsGathered(db, w, plan[k].winner, Group(cfg, db, k), table);
  }

  lemma MemberExists(cfg: Config, db: Db, k: Key, id: string)
    ensures InGroup(cfg, db, k, id) <==> id in Group(cfg, db, k)
  {}

  lemma RefsGathered(db: Db, w: Rewrite, winner: string, rows: set<string>, table: RefTable)
    requires forall r :: r in db.refs ==> (Redirect(w.moves, db.refs[r].productId) == winner <==> db.refs[r].productId in rows)
    ensures RefsOf(After(db, w), {winner}, table) == RefsOf(db, rows, table)
  {}

  /** Nothing is left on a superseded row, and its old id is an alias of its winner. */
  lemma NothingLeftBehind(cfg: Config, db: Db, plan: map<Key, Merge>, w: Rewrite, id: string)
    requires Roles(cfg, db, plan, w) && id in w.moves
    ensures forall r :: r in After(db, w).refs ==> After(db, w).refs[r].productId != id
    ensures forall b :: b in After(db, w).bindings ==> After(db, w).bindings[b].productId != id
    ensures forall a :: a in After(db, w).aliases ==> After(db, w).aliases[a] != id
    ensures id in After(db, w).aliases && After(db, w).aliases[id] == w.moves[id]
  {
    forall x ensures Redirect(w.moves, x) != id {
      if x in w.moves { assert Moved(cfg, db, plan, w, x); }
    }
    LeftBehind(db, w, id);
  }

  lemma LeftBehind(db: Db, w: Rewrite, id: string)
    requires forall x :: Redirect(w.moves, x) != id
    ensures forall r :: r in After(db, w).refs ==> After(db, w).refs[r].productId != id
    ensures forall b :: b in After(db, w).bindings ==> After(db, w).bindings[b].productId != id
    ensures forall a :: a in After(db, w).aliases ==> After(db, w).aliases[a] != id
  {
    forall b | b in db.bindings ensures Rebound(db.products, w.moves, db.bindings[b]).productId == Redirect(w.moves, db.bindings[b].productId) {}
    forall a | a in w.moves ensures w.moves[a] == Redirect(w.moves, a) {}
  }

  ghost predicate OneShipmentEach(db: Db) {
    forall r, s :: r in db.refs && s in db.refs && r.table.ShipmentRef? && s.table.ShipmentRef? && db.refs[r].productId == db.refs[s].productId ==> r == s
  }

  /** Two shipments in a group of several rows are a conflict, so such a group does not change. */
  lemma TwoShipments(cfg: Config, scope: string, db: Db, events: seq<Event>, k: Key, a: string, b: string, r: RefId, s: RefId)
    requires a in Group(cfg, db, k) && b in Group(cfg, db, k) && a != b && Changes(cfg, scope, db, events, k)
    requires r in RefsOf(db, Group(cfg, db, k), ShipmentRef) && s in RefsOf(db, Group(cfg, db, k), ShipmentRef)
    ensures r == s
  {
    TwoMembers(Group(cfg, db, k), a, b);
    TwoMembers(RefsOf(db, Group(cfg, db, k), ShipmentRef), r, s);
  }

  /** Rows that meet on one product were on rows of one group. */
  lemma MetInGroup(cfg: Config, db: Db, plan: map<Key, Merge>, w: Rewrite, a: string, b: string) returns (k: Key)
    requires Roles(cfg, db, plan, w) && a != b && Redirect(w.moves, a) == Redirect(w.moves, b)
    ensures k in plan && InGroup(cfg, db, k, a) && InGroup(cfg, db, k, b)
  {
    var x := if a in w.moves then a else b;
    assert Moved(cfg, db, plan, w, x);
    k := cfg.canonical(x).value;
    RedirectGroup(cfg, db, plan, w, k, a);
    RedirectGroup(cfg, db, plan, w, k, b);
  }

  /** One shipment per product stays one shipment per product. */
  lemma OneShipmentKept(cfg: Config, scope: string, db: Db, events: seq<Event>, plan: map<Key, Merge>, w: Rewrite)
    requires Planned(cfg, scope, db, events, plan, w) && OneShipmentEach(db)
    ensures OneShipmentEach(After(db, w))
  {
    PlannedRoles(cfg, scope, db, events, plan, w);
    forall r, s | r in db.refs && s in db.refs && r.table.ShipmentRef? && s.table.ShipmentRef?
        && After(db, w).refs[r].productId == After(db, w).refs[s].productId
      ensures r == s
    {
      var a, b := db.refs[r].productId, db.refs[s].productId;
      if a != b {
        var k := MetInGroup(cfg, db, plan, w, a, b);
        TwoShipments(cfg, scope, db, events, k, a, b, r, s);
      }
    }
  }
}
