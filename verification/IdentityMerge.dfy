/** Identity reconciliation as it runs: group, check, plan, and apply the whole plan or nothing. */
module IdentityMerge {
  import opened Prelude
  import opened Chains
  import opened Projection
  import opened IdentitySpec
  import opened IdentityLaws
  import opened IdentityRuns

  datatype Report = Report(applied: bool, changes: map<Key, Merge>, rowConflicts: set<string>, conflicts: set<Key>)

  ghost predicate Reports(cfg: Config, scope: string, db: Db, events: seq<Event>, r: Report) {
    && PlanFor(cfg, scope, db, events, r.changes)
    && r.rowConflicts == RowConflicts(cfg, db)
    && (forall k :: k in r.conflicts <==> k in Keys(cfg, db) && Conflicted(cfg, scope, db, events, k))
  }

  class Store {
    const cfg: Config
    const scope: string
    var products: map<string, Product>
    var aliases: map<string, string>
    var bindings: map<BindingId, Binding>
    var refs: map<RefId, Ref>

    function Rows(): Db
      reads this
    {
      Db(products, aliases, bindings, refs)
    }

    constructor (cfg: Config, scope: string, db: Db)
      ensures Rows() == db && this.cfg == cfg && this.scope == scope
    {
      this.cfg, this.scope := cfg, scope;
      products, aliases, bindings, refs := db.products, db.aliases, db.bindings, db.refs;
    }

    /** The rows by key, and the rows that fit no key. */
    method GroupRows() returns (groups: map<Key, set<string>>, conflicts: set<string>)
      ensures groups.Keys == Keys(cfg, Rows()) && conflicts == RowConflicts(cfg, Rows())
      ensures forall k :: k in groups ==> groups[k] == Group(cfg, Rows(), k)
    {
      groups, conflicts := map[], {};
      var todo := products.Keys;
      while todo != {}
        invariant todo <= products.Keys
        invariant forall k :: k in groups <==> exists id :: id !in todo && InGroup(cfg, Rows(), k, id)
        invariant forall k, id :: k in groups ==> (id in groups[k] <==> id !in todo && InGroup(cfg, Rows(), k, id))
        invariant conflicts == set id | id in RowConflicts(cfg, Rows()) && id !in todo
        decreases todo
      {
        var id :| id in todo;
        ghost var before, was := todo, groups;
        todo := todo - {id};
        if Eligible(cfg, products[id]) {
          if Disagrees(cfg, id, products[id]) {
            conflicts := conflicts + {id};
          } else {
            var k := cfg.canonical(id).value;
            groups := groups[k := (if k in groups then groups[k] else {}) + {id}];
            assert InGroup(cfg, Rows(), k, id);
          }
        }
        forall k | k in groups ensures exists x :: x !in todo && InGroup(cfg, Rows(), k, x) {
          if k in was {
            var x :| x !in before && InGroup(cfg, Rows(), k, x);
          }
        }
      }
      KeysOfGroups(cfg, Rows(), groups);
    }

    /** The first row of a group: human ids before hexadecimal ones, then code point order. */
    method ChooseWinner(rows: set<string>) returns (w: string)
      requires rows != {}
      ensures Winner(rows, w)
    {
      w :| w in rows;
      var todo := rows - {w};
      while todo != {}
        invariant todo <= rows && w in rows && w !in todo
        invariant forall id :: id in rows && id !in todo && id != w ==> Precedes(w, id)
        decreases todo
      {
        var id :| id in todo;
        PrecedesOrder(w, id);
        if Precedes(id, w) {
          forall x | x in rows && x !in todo && x != w ensures Precedes(id, x) {
            PrecedesTransitive(id, w, x);
          }
          w := id;
        }
        todo := todo - {id};
      }
    }

    /** Archives the losers of a group. */
    method Archive(losers: set<string>)
      requires losers <= products.Keys
      modifies this`products
      ensures products == map id | id in old(products) :: if id in losers then Archived(old(products)[id]) else old(products)[id]
    {
      var todo := losers;
      while todo != {}
        invariant todo <= losers
        invariant products == map id | id in old(products) ::
          if id in losers && id !in todo then Archived(old(products)[id]) else old(products)[id]
        decreases todo
      {
        var id :| id in todo;
        products := products[id := Archived(products[id])];
        todo := todo - {id};
      }
    }

    /** Moves the references and aliases of the losers to the winner and leaves an alias for each old id. */
    method MoveReferences(losers: set<string>, winner: string)
      requires winner !in losers && forall l :: l in losers ==> l !in aliases
      modifies this`refs, this`aliases
      ensures refs == RefsAfter(old(refs), map l | l in losers :: winner)
      ensures aliases == AliasesAfter(old(aliases), map l | l in losers :: winner)
    {
      var todo := losers;
      ghost var done: map<string, string> := map[];
      MovedNone(refs, aliases);
      while todo != {}
        invariant todo <= losers
        invariant done.Keys == losers - todo && forall l :: l in done ==> done[l] == winner
        invariant refs == RefsAfter(old(refs), done) && aliases == AliasesAfter(old(aliases), done)
        decreases todo
      {
        var loser :| loser in todo;
        MovedOneRef(old(refs), done, loser, winner);
        MovedOneAlias(old(aliases), done, loser, winner);
        refs := MoveRefs(refs, loser, winner);
        aliases := MoveAliases(aliases, loser, winner);
        todo := todo - {loser};
        done := done[loser := winner];
      }
      assert done == map l | l in losers :: winner;
    }

    /** Archives the losers, gives the winner the canonical columns, and takes over the columns of an indexed duplicate. */
    method RewriteProducts(m: Merge)
      requires m.winner in products && m.losers <= products.Keys && m.winner !in m.losers
      requires m.source.Some? ==> m.source.value in m.losers + {m.winner}
      modifies this`products
      ensures products == ProductsAfter(old(products), Rewrite(MovesOf(m), map[m.winner := m]))
    {
      var draft := products[m.winner].fields;
      Archive(m.losers);
      products := products[m.winner := Product(draft, m.values)];
      if m.source.Some? && m.source.value != m.winner {
        products := products[m.winner := products[m.winner].(fields := Promoted(products[m.source.value].fields))];
      }
    }

    /** The group's binding follows its product. */
    method Rebind(m: Merge, b: BindingId, ghost before: map<string, Product>, draft: Fields)
      requires m.winner in before && draft == before[m.winner].fields && m.winner !in m.losers
      requires forall c :: c in bindings && bindings[c].productId in m.losers ==> c == b
      requires m.source.Some? ==> b in bindings && m.source.value == bindings[b].productId && m.source.value in m.losers + {m.winner}
      requires m.source.None? && b in bindings ==> bindings[b].productId !in m.losers
      modifies this`bindings
      ensures bindings == map c | c in old(bindings) :: Rebound(before, MovesOf(m), old(bindings)[c])
    {
      if m.source.Some? && m.source.value != m.winner {
        bindings := bindings[b := Binding(m.winner, if SignedDraft(draft) then draft else bindings[b].baseline,
                                          bindings[b].status, bindings[b].handler)];
      }
    }

    /** One merge. */
    method ApplyMerge(m: Merge, key: Key)
      requires Applicable(Rows(), scope, key, m)
      modifies this`products, this`aliases, this`bindings, this`refs
      ensures Rows() == After(old(Rows()), Rewrite(MovesOf(m), map[m.winner := m]))
    {
      var draft := products[m.winner].fields;
      ghost var before := products;
      RewriteProducts(m);
      MoveReferences(m.losers, m.winner);
      Rebind(m, BindingId(scope, key), before, draft);
    }

    /** The merge of a group that changes. */
    method PlanGroup(k: Key, rows: set<string>) returns (m: Merge)
      requires rows == Group(cfg, Rows(), k) && rows != {}
      ensures MergeFor(cfg, scope, Rows(), k, m)
    {
      var w := ChooseWinner(rows);
      m := Merge(w, rows - {w}, SourceOf(Rows(), scope, k, rows), Values(cfg, k));
    }

    /** Judges one group: a conflict, no change, or a merge. */
    method JudgeGroup(k: Key, rows: set<string>, events: seq<Event>) returns (conflict: bool, change: Option<Merge>)
      requires rows == Group(cfg, Rows(), k) && rows != {}
      ensures conflict <==> Conflicted(cfg, scope, Rows(), events, k)
      ensures change.Some? <==> Changes(cfg, scope, Rows(), events, k)
      ensures change.Some? ==> MergeFor(cfg, scope, Rows(), k, change.value)
    {
      var evidence := Evidence(events, k);
      EvidenceRegisters(events, k);
      if Conflicting(scope, Rows(), k, rows, evidence) { return true, None; }
      if Unknown(Rows(), rows, evidence) { return false, None; }
      if Unmergeable(Rows(), rows) { return true, None; }
      conflict := false;
      if InPlace(cfg, Rows(), k, rows) { return false, None; }
      var m := PlanGroup(k, rows);
      change := Some(m);
    }

    /** The report: every conflict and every merge, nothing written. */
    method Review(events: seq<Event>) returns (report: Report)
      ensures Reports(cfg, scope, Rows(), events, report) && !report.applied
    {
      var groups, rowConflicts := GroupRows();
      var plan: map<Key, Merge> := map[];
      var conflicts: set<Key> := {};
      var todo := groups.Keys;
      while todo != {}
        invariant todo <= groups.Keys && plan.Keys !! todo && conflicts !! todo
        invariant forall k :: k in plan <==> k in groups.Keys - todo && Changes(cfg, scope, Rows(), events, k)
        invariant forall k :: k in plan ==> MergeFor(cfg, scope, Rows(), k, plan[k])
        invariant forall k :: k in conflicts <==> k in groups.Keys - todo && Conflicted(cfg, scope, Rows(), events, k)
        decreases todo
      {
        var k :| k in todo;
        ghost var some := MemberOfKey(cfg, Rows(), k);
        assert some in groups[k];
        var conflict, change := JudgeGroup(k, groups[k], events);
        if conflict { conflicts := conflicts + {k}; }
        if change.Some? { plan := plan[k := change.value]; }
        todo := todo - {k};
      }
      report := Report(false, plan, rowConflicts, conflicts);
    }

    /** Applies a whole plan, merge by merge. */
    method ApplyPlan(plan: map<Key, Merge>, ghost events: seq<Event>) returns (ghost w: Rewrite)
      requires PlanFor(cfg, scope, Rows(), events, plan)
      modifies this`products, this`aliases, this`bindings, this`refs
      ensures RewriteOf(plan, w) && Rows() == After(old(Rows()), w)
    {
      ghost var db := Rows();
      w := Rewrite(map[], map[]);
      var todo := plan.Keys;
      StageBegins(cfg, scope, db, events, plan, todo);
      while todo != {}
        invariant todo <= plan.Keys
        invariant Stage(cfg, scope, db, plan, todo, w) && Rows() == After(db, w)
        decreases todo
      {
        var k :| k in todo;
        NextMerge(cfg, scope, db, plan, todo, w, k);
        ApplyMerge(plan[k], k);
        w := With(w, plan[k]);
        todo := todo - {k};
      }
      StageEnds(cfg, scope, db, plan, w);
    }

    /** `reconcile`: reports by default; with `apply`, applies the whole plan if nothing conflicts, and otherwise nothing. */
    method Reconcile(events: seq<Event>, apply: bool) returns (r: Result<Report>, ghost w: Rewrite)
      modifies this`products, this`aliases, this`bindings, this`refs
      ensures r.Ok? && r.value.applied ==>
        && apply && ConflictFree(cfg, scope, old(Rows()), events)
        && Planned(cfg, scope, old(Rows()), events, r.value.changes, w) && Rows() == After(old(Rows()), w)
      ensures !(r.Ok? && r.value.applied) ==> Rows() == old(Rows())
      ensures r.Ok? ==> Reports(cfg, scope, old(Rows()), events, r.value)
      ensures r.Ok? <==>
        && (forall e :: e in events ==> !WrongEmitter(cfg, e))
        && (apply ==> ConflictFree(cfg, scope, old(Rows()), events))
      ensures r.Ok? ==> r.value.applied == apply
    {
      w := Rewrite(map[], map[]);
      if exists e :: e in events && WrongEmitter(cfg, e) { return Err("unexpected registration emitter"), w; }
      var report := Review(events);
      if !apply { return Ok(report), w; }
      if report.rowConflicts != {} || report.conflicts != {} {
        assert report.conflicts != {} ==> exists k :: k in report.conflicts;
        return Err("conflicts require review"), w;
      }
      w := ApplyPlan(report.changes, events);
      r := Ok(report.(applied := true));
    }
  }

  // ---- one merge after another ----

  function Part(plan: map<Key, Merge>, todo: set<Key>): map<Key, Merge> {
    map k | k in plan && k !in todo :: plan[k]
  }

  function With(w: Rewrite, m: Merge): Rewrite {
    Rewrite(w.moves + MovesOf(m), w.merges[m.winner := m])
  }

  /** The merge concerns rows the rewriting has not touched. */
  ghost predicate Apart(w: Rewrite, m: Merge) {
    && m.winner !in m.losers && m.winner !in w.moves && m.winner !in w.merges
    && (forall l :: l in m.losers ==> l !in w.moves && l !in w.merges)
    && (forall a :: a in w.moves ==> w.moves[a] != m.winner && w.moves[a] !in m.losers)
  }

  lemma PartFollows(cfg: Config, db: Db, plan: map<Key, Merge>, todo: set<Key>, w: Rewrite, k: Key)
    requires Shares(cfg, db, plan) && k in plan && k in todo && RewriteOf(Part(plan, todo), w)
    ensures Apart(w, plan[k])
  {
    var m := plan[k];
    assert forall id :: id == m.winner || id in m.losers ==> InGroup(cfg, db, k, id);
    forall id | InGroup(cfg, db, k, id) ensures id !in w.moves && id !in w.merges {}
    forall a | a in w.moves ensures !InGroup(cfg, db, k, w.moves[a]) {
      var j :| j in Part(plan, todo) && a in plan[j].losers;
      assert InGroup(cfg, db, j, plan[j].winner);
    }
  }

  lemma PartGrows(plan: map<Key, Merge>, todo: set<Key>, w: Rewrite, k: Key)
    requires RewriteOf(Part(plan, todo), w) && k in plan && k in todo && Apart(w, plan[k])
    ensures RewriteOf(Part(plan, todo - {k}), With(w, plan[k]))
  {
    MergesGrow(plan, todo, w, k);
    MovesCover(plan, todo, w, k);
    MovesCovered(plan, todo, w, k);
  }

  lemma MergesGrow(plan: map<Key, Merge>, todo: set<Key>, w: Rewrite, k: Key)
    requires RewriteOf(Part(plan, todo), w) && k in plan && k in todo && Apart(w, plan[k])
    ensures var q, v := Part(plan, todo - {k}), With(w, plan[k]);
      && (forall j :: j in q ==> q[j].winner in v.merges && v.merges[q[j].winner] == q[j])
      && (forall id :: id in v.merges ==> exists j :: j in q && q[j].winner == id)
  {
    var p, q, v := Part(plan, todo), Part(plan, todo - {k}), With(w, plan[k]);
    assert k in q && q[k] == plan[k];
    forall j | j in q && j != k ensures q[j].winner in v.merges && v.merges[q[j].winner] == q[j] {
      assert j in p && p[j].winner in w.merges;
    }
    forall id | id in v.merges && id != plan[k].winner ensures exists j :: j in q && q[j].winner == id {
      var j :| j in p && p[j].winner == id;
      assert j in q;
    }
  }

  lemma MovesCover(plan: map<Key, Merge>, todo: set<Key>, w: Rewrite, k: Key)
    requires RewriteOf(Part(plan, todo), w) && k in plan && k in todo && Apart(w, plan[k])
    ensures var q, v := Part(plan, todo - {k}), With(w, plan[k]);
      forall j, l :: j in q && l in q[j].losers ==> l in v.moves && v.moves[l] == q[j].winner
  {
    var p, q, v := Part(plan, todo), Part(plan, todo - {k}), With(w, plan[k]);
    forall j, l | j in q && l in q[j].losers ensures l in v.moves && v.moves[l] == q[j].winner {
      if j != k { assert j in p && l in w.moves; }
    }
  }

  lemma MovesCovered(plan: map<Key, Merge>, todo: set<Key>, w: Rewrite, k: Key)
    requires RewriteOf(Part(plan, todo), w) && k in plan && k in todo
    ensures var q, v := Part(plan, todo - {k}), With(w, plan[k]);
      forall l :: l in v.moves ==> exists j :: j in q && l in q[j].losers
  {
    var p, q, v := Part(plan, todo), Part(plan, todo - {k}), With(w, plan[k]);
    assert k in q && q[k] == plan[k];
    forall l | l in v.moves && l !in plan[k].losers ensures exists j :: j in q && l in q[j].losers {
      var j :| j in p && l in p[j].losers;
      assert j in q;
    }
  }

  lemma AfterNothing(db: Db)
    ensures After(db, Rewrite(map[], map[])) == db
  {}

  ghost predicate AllApplicable(scope: string, db: Db, plan: map<Key, Merge>) {
    forall k :: k in plan ==> Applicable(db, scope, k, plan[k])
  }

  /** Every merge of a plan fits the tables it was made from. */
  lemma PlanReady(cfg: Config, scope: string, db: Db, events: seq<Event>, plan: map<Key, Merge>)
    requires PlanFor(cfg, scope, db, events, plan)
    ensures Shares(cfg, db, plan) && AllApplicable(scope, db, plan)
  {
    PlannedShares(cfg, scope, db, plan);
    forall k | k in plan ensures Applicable(db, scope, k, plan[k]) {
      MergeReady(cfg, scope, db, events, plan, k);
    }
  }

  lemma MergeReady(cfg: Config, scope: string, db: Db, events: seq<Event>, plan: map<Key, Merge>, k: Key)
    requires PlanFor(cfg, scope, db, events, plan) && k in plan
    ensures Applicable(db, scope, k, plan[k])
  {
    var m := plan[k];
    WinnerIn(cfg, scope, db, k, m);
    EvidenceRegisters(events, k);
    FewAndOurs(cfg, scope, db, events, k);
    forall l | l in m.losers ensures l in db.products && l !in db.aliases {
      NotBad(cfg, scope, db, events, plan, k, l);
    }
    assert Group(cfg, db, k) == m.losers + {m.winner};
    OursOnly(db, scope, k, Group(cfg, db, k), m);
  }

  lemma OursOnly(db: Db, scope: string, k: Key, rows: set<string>, m: Merge)
    requires rows == m.losers + {m.winner} && forall b :: b in BindingsOf(db, rows) ==> b == BindingId(scope, k)
    ensures forall b :: b in db.bindings && db.bindings[b].productId in m.losers ==> b == BindingId(scope, k)
  {
    forall b | b in db.bindings && db.bindings[b].productId in m.losers ensures b == BindingId(scope, k) {
      assert b in BindingsOf(db, rows);
    }
  }

  /** Merges of other groups leave a merge applicable. */
  lemma StillApplicable(db: Db, scope: string, w: Rewrite, k: Key, m: Merge)
    requires Applicable(db, scope, k, m) && Apart(w, m)
    ensures Applicable(After(db, w), scope, k, m)
  {
    BindingsUntouched(db, w, m);
  }

  /** The plan fits the starting tables, and w is what its merges outside `todo` amount to. */
  ghost predicate Stage(cfg: Config, scope: string, db: Db, plan: map<Key, Merge>, todo: set<Key>, w: Rewrite) {
    forall p :: p == plan ==> Shares(cfg, db, p) && AllApplicable(scope, db, p) && RewriteOf(Part(p, todo), w)
  }

  lemma StageBegins(cfg: Config, scope: string, db: Db, events: seq<Event>, plan: map<Key, Merge>, todo: set<Key>)
    requires PlanFor(cfg, scope, db, events, plan) && todo == plan.Keys
    ensures Stage(cfg, scope, db, plan, todo, Rewrite(map[], map[]))
    ensures After(db, Rewrite(map[], map[])) == db
  {
    PlanReady(cfg, scope, db, events, plan);
    AfterNothing(db);
  }

  lemma StageEnds(cfg: Config, scope: string, db: Db, plan: map<Key, Merge>, w: Rewrite)
    requires Stage(cfg, scope, db, plan, {}, w)
    ensures RewriteOf(plan, w)
  {
    assert Shares(cfg, db, plan);
    assert Part(plan, {}) == plan;
  }

  lemma NextMerge(cfg: Config, scope: string, db: Db, plan: map<Key, Merge>, todo: set<Key>, w: Rewrite, k: Key)
    requires Stage(cfg, scope, db, plan, todo, w) && k in plan && k in todo
    ensures Applicable(After(db, w), scope, k, plan[k])
    ensures After(After(db, w), Rewrite(MovesOf(plan[k]), map[plan[k].winner := plan[k]])) == After(db, With(w, plan[k]))
    ensures Stage(cfg, scope, db, plan, todo - {k}, With(w, plan[k]))
  {
    assert Shares(cfg, db, plan);
    assert Applicable(db, scope, k, plan[k]);
    PartFollows(cfg, db, plan, todo, w, k);
    StillApplicable(db, scope, w, k, plan[k]);
    AfterTwice(db, w, plan[k]);
    PartGrows(plan, todo, w, k);
  }

  /** The bindings of a group are as they were until its own merge. */
  lemma BindingsUntouched(db: Db, w: Rewrite, m: Merge)
    requires Apart(w, m)
    ensures forall b :: b in db.bindings ==>
      (After(db, w).bindings[b].productId in m.losers + {m.winner} <==> db.bindings[b].productId in m.losers + {m.winner})
    ensures forall b :: b in db.bindings && db.bindings[b].productId in m.losers + {m.winner} ==> After(db, w).bindings[b] == db.bindings[b]
  {}

  function ReboundAll(products: map<string, Product>, bindings: map<BindingId, Binding>, moves: map<string, string>): map<BindingId, Binding> {
    map b | b in bindings :: Rebound(products, moves, bindings[b])
  }

  lemma BindingsTwice(products: map<string, Product>, bindings: map<BindingId, Binding>, w: Rewrite, m: Merge)
    requires Apart(w, m) && m.winner in products && m.losers <= products.Keys
    requires m.source.Some? ==> m.source.value in m.losers + {m.winner}
    ensures ReboundAll(ProductsAfter(products, w), ReboundAll(products, bindings, w.moves), MovesOf(m)) == ReboundAll(products, bindings, With(w, m).moves)
  {
    forall b | b in bindings
      ensures Rebound(ProductsAfter(products, w), MovesOf(m), Rebound(products, w.moves, bindings[b])) == Rebound(products, With(w, m).moves, bindings[b])
    {
      ReboundTwice(products, w, m, bindings[b]);
    }
  }

  lemma AfterTwice(db: Db, w: Rewrite, m: Merge)
    requires Apart(w, m) && m.winner in db.products && m.losers <= db.products.Keys
    requires m.source.Some? ==> m.source.value in m.losers + {m.winner}
    ensures After(After(db, w), Rewrite(MovesOf(m), map[m.winner := m])) == After(db, With(w, m))
  {
    ProductsTwice(db.products, w, m);
    AliasesTwice(db.aliases, w, m);
    RefsTwice(db.refs, w, m);
    BindingsTwice(db.products, db.bindings, w, m);
  }

  lemma ProductsTwice(products: map<string, Product>, w: Rewrite, m: Merge)
    requires Apart(w, m) && m.winner in products && m.losers <= products.Keys
    requires m.source.Some? ==> m.source.value in m.losers + {m.winner}
    ensures ProductsAfter(ProductsAfter(products, w), Rewrite(MovesOf(m), map[m.winner := m])) == ProductsAfter(products, With(w, m))
  {}

  /** The second set of moves touches neither the rows nor the targets of the first. */
  ghost predicate Disjoint(moves: map<string, string>, more: map<string, string>) {
    forall a :: a in moves ==> a !in more && moves[a] !in more
  }

  lemma RedirectTwice(moves: map<string, string>, more: map<string, string>, id: string)
    requires Disjoint(moves, more)
    ensures Redirect(more, Redirect(moves, id)) == Redirect(moves + more, id)
  {}

  lemma AliasesComposed(aliases: map<string, string>, moves: map<string, string>, more: map<string, string>)
    requires Disjoint(moves, more)
    ensures AliasesAfter(AliasesAfter(aliases, moves), more) == AliasesAfter(aliases, moves + more)
  {
    var twice, both := AliasesAfter(AliasesAfter(aliases, moves), more), AliasesAfter(aliases, moves + more);
    assert twice.Keys == both.Keys;
    forall a | a in both ensures twice[a] == both[a] {
      if a in aliases { RedirectTwice(moves, more, aliases[a]); }
    }
  }

  lemma AliasesTwice(aliases: map<string, string>, w: Rewrite, m: Merge)
    requires Apart(w, m)
    ensures AliasesAfter(AliasesAfter(aliases, w.moves), MovesOf(m)) == AliasesAfter(aliases, With(w, m).moves)
  {
    AliasesComposed(aliases, w.moves, MovesOf(m));
  }

  lemma RefsTwice(refs: map<RefId, Ref>, w: Rewrite, m: Merge)
    requires Apart(w, m)
    ensures RefsAfter(RefsAfter(refs, w.moves), MovesOf(m)) == RefsAfter(refs, With(w, m).moves)
  {}

  lemma ReboundTwice(products: map<string, Product>, w: Rewrite, m: Merge, b: Binding)
    requires Apart(w, m) && m.winner in products
    ensures Rebound(ProductsAfter(products, w), MovesOf(m), Rebound(products, w.moves, b)) == Rebound(products, With(w, m).moves, b)
  {}

  lemma KeysOfGroups(cfg: Config, db: Db, groups: map<Key, set<string>>)
    requires forall k :: k in groups <==> exists id :: InGroup(cfg, db, k, id)
    ensures groups.Keys == Keys(cfg, db)
  {
    forall k | k in groups ensures k in Keys(cfg, db) {
      var id :| InGroup(cfg, db, k, id);
      KeyOfMember(cfg, db, k, id);
    }
    forall k | k in Keys(cfg, db) ensures k in groups {
      var id := MemberOfKey(cfg, db, k);
    }
  }

  lemma PrecedesOrder(a: string, b: string)
    ensures a == b || Precedes(a, b) || Precedes(b, a)
  {
    LessTotal(a, b);
  }

  lemma PrecedesTransitive(a: string, b: string, c: string)
    requires Precedes(a, b) && Precedes(b, c)
    ensures Precedes(a, c)
  {
    if Less(a, b) && Less(b, c) { LessTransitive(a, b, c); }
  }

  function MoveRefs(refs: map<RefId, Ref>, loser: string, winner: string): map<RefId, Ref> {
    map r | r in refs :: if refs[r].productId == loser then refs[r].(productId := winner) else refs[r]
  }

  function MoveAliases(aliases: map<string, string>, loser: string, winner: string): map<string, string> {
    (map a | a in aliases :: if aliases[a] == loser then winner else aliases[a])[loser := winner]
  }

  lemma MovedNone(refs: map<RefId, Ref>, aliases: map<string, string>)
    ensures RefsAfter(refs, map[]) == refs && AliasesAfter(aliases, map[]) == aliases
  {}

  lemma MovedOneRef(refs: map<RefId, Ref>, done: map<string, string>, loser: string, winner: string)
    requires loser !in done && winner !in done && forall l :: l in done ==> done[l] != loser
    ensures MoveRefs(RefsAfter(refs, done), loser, winner) == RefsAfter(refs, done[loser := winner])
  {}

  lemma MovedOneAlias(aliases: map<string, string>, done: map<string, string>, loser: string, winner: string)
    requires loser !in done && winner !in done && loser !in aliases && forall l :: l in done ==> done[l] != loser
    ensures MoveAliases(AliasesAfter(aliases, done), loser, winner) == AliasesAfter(aliases, done[loser := winner])
  {}

  /** What a planned merge finds in the tables when its turn comes. */
  ghost predicate Applicable(db: Db, scope: string, key: Key, m: Merge) {
    && m.winner in db.products && m.losers <= db.products.Keys && m.winner !in m.losers
    && (forall l :: l in m.losers ==> l !in db.aliases)
    && (forall b :: b in db.bindings && db.bindings[b].productId in m.losers ==> b == BindingId(scope, key))
    && m.source == SourceOf(db, scope, key, m.losers + {m.winner})
  }
}
