/** Aliases and repeated runs: old ids keep resolving, and reconciling twice changes nothing. */
module IdentityRuns {
  import opened Prelude
  import opened Chains
  import opened Projection
  import opened IdentitySpec
  import opened IdentityLaws

  // ---- aliases ----

  /** Every alias targets a live product, and no live product is an alias. */
  ghost predicate AliasSound(db: Db) {
    forall a :: a in db.aliases ==>
      && db.aliases[a] in db.products && Live(db.products[db.aliases[a]])
      && (a in db.products ==> !Live(db.products[a]))
  }

  lemma StillLive(cfg: Config, db: Db, plan: map<Key, Merge>, w: Rewrite, id: string)
    requires Roles(cfg, db, plan, w) && id in db.products
    ensures Live(After(db, w).products[id]) <==> Live(db.products[id]) && id !in w.moves
  {
    if id in w.merges {
      assert Wins(cfg, db, plan, w, id);
      MergedStands(cfg, db, plan, w, id);
    }
  }

  /** An applied plan keeps aliases sound. */
  lemma AliasSoundKept(cfg: Config, db: Db, plan: map<Key, Merge>, w: Rewrite)
    requires Roles(cfg, db, plan, w) && AliasSound(db)
    ensures AliasSound(After(db, w))
  {
    var u := After(db, w);
    forall a | a in u.aliases
      ensures u.aliases[a] in u.products && Live(u.products[u.aliases[a]]) && (a in u.products ==> !Live(u.products[a]))
    {
      var from := if a in w.moves then a else db.aliases[a];
      if from in w.moves {
        assert Moved(cfg, db, plan, w, from);
        assert Wins(cfg, db, plan, w, w.moves[from]);
      }
      StillLive(cfg, db, plan, w, u.aliases[a]);
      if a in db.products { StillLive(cfg, db, plan, w, a); }
    }
  }

  /** Following aliases from a public id, at most n steps. */
  function Resolve(aliases: map<string, string>, products: map<string, Product>, id: string, n: nat): Result<Option<string>>
    decreases n
  {
    if n == 0 then Err("alias")
    else if id in aliases then Resolve(aliases, products, aliases[id], n - 1)
    else if id !in products then Ok(None)
    else if Live(products[id]) then Ok(Some(id)) else Err("alias")
  }

  /** Whatever the aliases, what is resolved is a live product that is not itself an alias. */
  lemma {:induction false} ResolvedIsLive(aliases: map<string, string>, products: map<string, Product>, id: string, n: nat)
    ensures match Resolve(aliases, products, id, n)
      case Ok(Some(found)) => found in products && Live(products[found]) && found !in aliases
      case _ => true
    decreases n
  {
    if n > 0 && id in aliases {
      ResolvedIsLive(aliases, products, aliases[id], n - 1);
    }
  }

  /** With sound aliases one hop is enough. */
  lemma OneHop(db: Db, id: string, n: nat)
    requires AliasSound(db) && n >= 2
    ensures Resolve(db.aliases, db.products, id, n) ==
      if id in db.aliases then Ok(Some(db.aliases[id]))
      else if id !in db.products then Ok(None)
      else if Live(db.products[id]) then Ok(Some(id)) else Err("alias")
  {}

  /** Old public ids keep resolving: to the same product, or to the winner it was merged into. */
  lemma OldIdsResolve(cfg: Config, db: Db, plan: map<Key, Merge>, w: Rewrite, id: string, n: nat)
    requires Roles(cfg, db, plan, w) && AliasSound(db) && n >= 2
    requires Resolve(db.aliases, db.products, id, n).Ok?
    ensures Resolve(After(db, w).aliases, After(db, w).products, id, n) ==
      match Resolve(db.aliases, db.products, id, n).value
      case Some(found) => Ok(Some(Redirect(w.moves, found)))
      case None => Ok(None)
  {
    AliasSoundKept(cfg, db, plan, w);
    OneHop(db, id, n);
    OneHop(After(db, w), id, n);
    if id in db.products { StillLive(cfg, db, plan, w, id); }
    if id in w.moves { assert Moved(cfg, db, plan, w, id); }
  }

  // ---- the loop of resolve_product ----

  function Hop(aliases: map<string, string>, id: string, n: nat): string {
    if n == 0 then id
    else
      var before := Hop(aliases, id, n - 1);
      if before in aliases then aliases[before] else before
  }

  lemma {:induction false} HopInside(aliases: map<string, string>, id: string, n: nat)
    requires id in aliases
    ensures Hop(aliases, aliases[id], n) == Hop(aliases, id, n + 1)
  {
    if n > 0 { HopInside(aliases, id, n - 1); }
  }

  /** Once an id comes back, every later hop is on the same cycle. */
  lemma {:induction false} Cycles(aliases: map<string, string>, id: string, i: nat, n: nat, m: nat)
    requires i < n && Hop(aliases, id, i) == Hop(aliases, id, n)
    requires forall j: nat :: j < n ==> Hop(aliases, id, j) in aliases
    ensures Hop(aliases, id, m) in aliases
    decreases m
  {
    if m >= n {
      Shifted(aliases, id, i, n, m - n);
      Cycles(aliases, id, i, n, m - (n - i));
    }
  }

  lemma {:induction false} Shifted(aliases: map<string, string>, id: string, i: nat, n: nat, t: nat)
    requires Hop(aliases, id, i) == Hop(aliases, id, n)
    ensures Hop(aliases, id, i + t) == Hop(aliases, id, n + t)
  {
    if t > 0 { Shifted(aliases, id, i, n, t - 1); }
  }

  /** An alias chain that never leaves the aliases never resolves. */
  lemma {:induction false} Endless(aliases: map<string, string>, products: map<string, Product>, id: string, n: nat)
    requires forall j: nat :: j < n ==> Hop(aliases, id, j) in aliases
    ensures Resolve(aliases, products, id, n) == Err("alias")
    decreases n
  {
    if n > 0 {
      assert Hop(aliases, id, 0) in aliases;
      forall j: nat | j < n - 1 ensures Hop(aliases, aliases[id], j) in aliases {
        HopInside(aliases, id, j);
        assert Hop(aliases, id, j + 1) in aliases;
      }
      Endless(aliases, products, aliases[id], n - 1);
    }
  }

  lemma {:induction false} ResolveAfterHops(aliases: map<string, string>, products: map<string, Product>, id: string, k: nat, n: nat)
    requires k <= n && forall j: nat :: j < k ==> Hop(aliases, id, j) in aliases
    ensures Resolve(aliases, products, id, n) == Resolve(aliases, products, Hop(aliases, id, k), n - k)
    decreases k
  {
    if k > 0 {
      assert Hop(aliases, id, 0) in aliases;
      forall j: nat | j < k - 1 ensures Hop(aliases, aliases[id], j) in aliases {
        HopInside(aliases, id, j);
        assert Hop(aliases, id, j + 1) in aliases;
      }
      ResolveAfterHops(aliases, products, aliases[id], k - 1, n - 1);
      HopInside(aliases, id, k - 1);
    }
  }

  const LIMIT := 32

  /** `resolve_product`: giving up on the first repeated id answers exactly what following 32 aliases would. */
  method ResolveProduct(aliases: map<string, string>, products: map<string, Product>, publicId: string) returns (r: Result<Option<string>>)
    ensures r == Resolve(aliases, products, publicId, 32)
  {
    var seen: set<string> := {};
    var id, n := publicId, 0;
    while n < LIMIT
      invariant 0 <= n <= LIMIT && id == Hop(aliases, publicId, n)
      invariant forall j: nat :: j < n ==> Hop(aliases, publicId, j) in aliases
      invariant seen == set j: nat | j < n :: Hop(aliases, publicId, j)
    {
      if id in seen {
        var i: nat :| i < n && Hop(aliases, publicId, i) == id;
        forall m: nat ensures Hop(aliases, publicId, m) in aliases { Cycles(aliases, publicId, i, n, m); }
        Endless(aliases, products, publicId, LIMIT);
        return Err("alias");
      }
      seen := seen + {id};
      if id !in aliases {
        ResolveAfterHops(aliases, products, publicId, n, LIMIT);
        if id in products && !Live(products[id]) { return Err("alias"); }
        return Ok(if id in products then Some(id) else None);
      }
      id := aliases[id];
      n := n + 1;
    }
    Endless(aliases, products, publicId, LIMIT);
    r := Err("alias");
  }

  // ---- a second run ----

  lemma BindingsAfter(cfg: Config, db: Db, plan: map<Key, Merge>, w: Rewrite, k: Key)
    requires Roles(cfg, db, plan, w)
    ensures BindingsOf(After(db, w), Group(cfg, After(db, w), k)) == BindingsOf(db, Group(cfg, db, k))
  {
    GroupAfter(cfg, db, plan, w, k);
    forall x ensures Redirect(w.moves, x) in Group(cfg, After(db, w), k) <==> x in Group(cfg, db, k) {
      MemberExists(cfg, db, k, x);
      if k in plan {
        RedirectGroup(cfg, db, plan, w, k, x);
      } else if x in w.moves {
        assert Moved(cfg, db, plan, w, x);
        assert Wins(cfg, db, plan, w, w.moves[x]);
        MemberExists(cfg, db, k, w.moves[x]);
      }
    }
    BindingsFollow(db, w, Group(cfg, db, k), Group(cfg, After(db, w), k));
  }

  lemma BindingsFollow(db: Db, w: Rewrite, rows: set<string>, kept: set<string>)
    requires forall x :: Redirect(w.moves, x) in kept <==> x in rows
    ensures BindingsOf(After(db, w), kept) == BindingsOf(db, rows)
  {
    forall b | b in db.bindings ensures After(db, w).bindings[b].productId == Redirect(w.moves, db.bindings[b].productId) {}
  }

  lemma StatusIrrelevant(f: Fields, status: string, e: Event)
    requires e.log.payload.ProductRegistered?
    ensures Contradicts(f.(registrationStatus := status), e) <==> Contradicts(f, e)
  {}

  /** The columns a merged row ends up with pass the checks its group passed. */
  lemma MergedFieldsGood(cfg: Config, scope: string, db: Db, events: seq<Event>, plan: map<Key, Merge>, k: Key)
    requires PlanFor(cfg, scope, db, events, plan) && k in plan && Registrations(Evidence(events, k))
    ensures plan[k].winner in db.products && plan[k].winner !in db.aliases
    ensures var f, evidence := Merged(db.products, plan[k]).fields, Evidence(events, k);
      if evidence != [] then !Contradicts(f, evidence[0]) else !Unsupported(f)
  {
    var m := plan[k];
    NotBad(cfg, scope, db, events, plan, k, m.winner);
    if m.source.Some? && m.source.value != m.winner {
      var id := m.source.value;
      NotBad(cfg, scope, db, events, plan, k, id);
      TwoMembers(Group(cfg, db, k), m.winner, id);
      ManyHaveEvidence(cfg, scope, db, events, k);
      StatusIrrelevant(db.products[id].fields, Promoted(db.products[id].fields).registrationStatus, Evidence(events, k)[0]);
    }
  }

  lemma WinnerStillGood(cfg: Config, scope: string, db: Db, events: seq<Event>, plan: map<Key, Merge>, w: Rewrite, k: Key)
    requires PlanFor(cfg, scope, db, events, plan) && Roles(cfg, db, plan, w) && k in plan
    requires Registrations(Evidence(events, k))
    ensures plan[k].winner in After(db, w).products && !BadRow(After(db, w), plan[k].winner, Evidence(events, k))
  {
    var id := plan[k].winner;
    MergedFieldsGood(cfg, scope, db, events, plan, k);
    WinnerRow(cfg, db, plan, w, k);
  }

  lemma WinnerRow(cfg: Config, db: Db, plan: map<Key, Merge>, w: Rewrite, k: Key)
    requires Roles(cfg, db, plan, w) && k in plan
    ensures var id := plan[k].winner;
      && id in After(db, w).products && After(db, w).products[id] == Merged(db.products, plan[k])
      && After(db, w).products[id].identity == Values(cfg, k)
      && (id in After(db, w).aliases <==> id in db.aliases)
  {
    var id := plan[k].winner;
    assert Wins(cfg, db, plan, w, id);
    MergedStands(cfg, db, plan, w, id);
  }

  lemma NotBad(cfg: Config, scope: string, db: Db, events: seq<Event>, plan: map<Key, Merge>, k: Key, id: string)
    requires PlanFor(cfg, scope, db, events, plan) && k in plan && id in Group(cfg, db, k) && Registrations(Evidence(events, k))
    ensures id in db.products && !BadRow(db, id, Evidence(events, k))
  {
    assert Changes(cfg, scope, db, events, k);
  }

  lemma ManyHaveEvidence(cfg: Config, scope: string, db: Db, events: seq<Event>, k: Key)
    requires Changes(cfg, scope, db, events, k) && |Group(cfg, db, k)| > 1
    ensures Evidence(events, k) != []
  {}

  /** A group of one good row with its canonical columns is neither a conflict nor a change. */
  lemma GoodSingle(cfg: Config, scope: string, db: Db, events: seq<Event>, k: Key, id: string)
    requires Group(cfg, db, k) == {id} && Registrations(Evidence(events, k)) && |Evidence(events, k)| <= 1
    requires forall b :: b in BindingsOf(db, {id}) ==> b == BindingId(scope, k)
    requires id in db.products && !BadRow(db, id, Evidence(events, k))
    requires db.products[id].identity == Values(cfg, k)
    ensures !Conflicted(cfg, scope, db, events, k) && !Changes(cfg, scope, db, events, k)
  {
    assert InPlace(cfg, db, k, {id});
  }

  lemma FewAndOurs(cfg: Config, scope: string, db: Db, events: seq<Event>, k: Key)
    requires Changes(cfg, scope, db, events, k)
    ensures |Evidence(events, k)| <= 1
    ensures forall b :: b in BindingsOf(db, Group(cfg, db, k)) ==> b == BindingId(scope, k)
  {}

  /** A changed group meets no conflict again, and is in place. */
  lemma ChangedSettles(cfg: Config, scope: string, db: Db, events: seq<Event>, plan: map<Key, Merge>, w: Rewrite, k: Key)
    requires PlanFor(cfg, scope, db, events, plan) && Roles(cfg, db, plan, w) && k in plan
    ensures !Conflicted(cfg, scope, After(db, w), events, k) && !Changes(cfg, scope, After(db, w), events, k)
  {
    EvidenceRegisters(events, k);
    FewAndOurs(cfg, scope, db, events, k);
    GroupAfter(cfg, db, plan, w, k);
    BindingsAfter(cfg, db, plan, w, k);
    WinnerStillGood(cfg, scope, db, events, plan, w, k);
    WinnerRow(cfg, db, plan, w, k);
    GoodSingle(cfg, scope, After(db, w), events, k, plan[k].winner);
  }

  lemma SameRows(cfg: Config, db: Db, plan: map<Key, Merge>, w: Rewrite, k: Key)
    requires Roles(cfg, db, plan, w) && k !in plan
    ensures Group(cfg, After(db, w), k) == Group(cfg, db, k)
    ensures forall id :: id in Group(cfg, db, k) ==>
      After(db, w).products[id] == db.products[id] && (id in After(db, w).aliases <==> id in db.aliases)
  {
    GroupAfter(cfg, db, plan, w, k);
    forall id | id in Group(cfg, db, k)
      ensures After(db, w).products[id] == db.products[id] && (id in After(db, w).aliases <==> id in db.aliases)
    {
      assert InGroup(cfg, db, k, id);
    }
  }

  lemma UnchangedSettles(cfg: Config, scope: string, db: Db, events: seq<Event>, plan: map<Key, Merge>, w: Rewrite, k: Key)
    requires Planned(cfg, scope, db, events, plan, w) && Roles(cfg, db, plan, w) && k !in plan
    requires k in Keys(cfg, db) && !Conflicted(cfg, scope, db, events, k)
    ensures !Conflicted(cfg, scope, After(db, w), events, k) && !Changes(cfg, scope, After(db, w), events, k)
  {
    var u := After(db, w);
    EvidenceRegisters(events, k);
    SameRows(cfg, db, plan, w, k);
    BindingsAfter(cfg, db, plan, w, k);
    assert !Changes(cfg, scope, db, events, k);
    UnchangedSingle(cfg, scope, db, events, k);
  }

  lemma NoRowConflicts(cfg: Config, db: Db, plan: map<Key, Merge>, w: Rewrite)
    requires Roles(cfg, db, plan, w) && RowConflicts(cfg, db) == {}
    ensures RowConflicts(cfg, After(db, w)) == {}
  {
    forall id | id in db.products && Eligible(cfg, After(db, w).products[id]) ensures !Disagrees(cfg, id, After(db, w).products[id]) {
      StillLive(cfg, db, plan, w, id);
      if id in w.merges {
        assert Wins(cfg, db, plan, w, id);
        MergedStands(cfg, db, plan, w, id);
      } else {
        assert id !in RowConflicts(cfg, db);
      }
    }
  }

  /** Reconciling again with the same events reports no conflict and plans no change. */
  lemma SecondRun(cfg: Config, scope: string, db: Db, events: seq<Event>, plan: map<Key, Merge>, w: Rewrite)
    requires Planned(cfg, scope, db, events, plan, w) && ConflictFree(cfg, scope, db, events)
    ensures ConflictFree(cfg, scope, After(db, w), events)
    ensures PlanFor(cfg, scope, After(db, w), events, map[])
  {
    PlannedRoles(cfg, scope, db, events, plan, w);
    NoRowConflicts(cfg, db, plan, w);
    KeysAfter(cfg, db, plan, w);
    forall k | k in Keys(cfg, db)
      ensures !Conflicted(cfg, scope, After(db, w), events, k) && !Changes(cfg, scope, After(db, w), events, k)
    {
      if k in plan {
        ChangedSettles(cfg, scope, db, events, plan, w, k);
      } else {
        UnchangedSettles(cfg, scope, db, events, plan, w, k);
      }
    }
  }

  // ---- the indexer's lookup afterwards ----

  /** A live row another chain or registry has claimed. */
  predicate PassedOver(cfg: Config, p: Product) {
    Live(p) && !Eligible(cfg, p)
  }

  /** Such rows whose public id encodes to the key: reconciliation passes them over, the lookup does not. */
  function Foreign(cfg: Config, db: Db, k: Key): set<string> {
    set id | id in db.products && PassedOver(cfg, db.products[id]) && cfg.canonical(id) == Some(k)
  }

  /** With no row conflict the claimants of a key are its group and the rows reconciliation passes over. */
  lemma ClaimantsSplit(cfg: Config, db: Db, k: Key)
    requires RowConflicts(cfg, db) == {}
    ensures Claimants(cfg, db.products, k) == Group(cfg, db, k) + Foreign(cfg, db, k)
    ensures Group(cfg, db, k) * Foreign(cfg, db, k) == {}
  {
    forall id ensures id in Claimants(cfg, db.products, k) <==> id in Group(cfg, db, k) + Foreign(cfg, db, k) {
      if id in db.products && Eligible(cfg, db.products[id]) { assert id !in RowConflicts(cfg, db); }
    }
  }

  lemma PassedOverStays(cfg: Config, db: Db, plan: map<Key, Merge>, w: Rewrite, id: string)
    requires Roles(cfg, db, plan, w) && id in db.products
    ensures PassedOver(cfg, After(db, w).products[id]) <==> PassedOver(cfg, db.products[id])
  {
    if id in w.moves {
      assert Moved(cfg, db, plan, w, id);
    } else if id in w.merges {
      assert Wins(cfg, db, plan, w, id);
      MergedStands(cfg, db, plan, w, id);
    }
  }

  lemma ForeignAfter(cfg: Config, db: Db, plan: map<Key, Merge>, w: Rewrite, k: Key)
    requires Roles(cfg, db, plan, w)
    ensures Foreign(cfg, After(db, w), k) == Foreign(cfg, db, k)
  {
    forall id | id in db.products
      ensures PassedOver(cfg, After(db, w).products[id]) <==> PassedOver(cfg, db.products[id])
    {
      PassedOverStays(cfg, db, plan, w, id);
    }
  }

  /** A clean run leaves every group of the starting database with one row. */
  lemma GroupsSettled(cfg: Config, scope: string, db: Db, events: seq<Event>, plan: map<Key, Merge>, w: Rewrite, k: Key)
    requires Planned(cfg, scope, db, events, plan, w) && ConflictFree(cfg, scope, db, events)
    ensures |Group(cfg, After(db, w), k)| == if k in Keys(cfg, db) then 1 else 0
  {
    PlannedRoles(cfg, scope, db, events, plan, w);
    GroupAfter(cfg, db, plan, w, k);
    if k in Keys(cfg, db) {
      var id := MemberOfKey(cfg, db, k);
      if k !in plan { UnchangedSingle(cfg, scope, db, events, k); }
      assert k !in plan ==> id in Group(cfg, db, k);
    } else {
      forall id ensures id !in Group(cfg, db, k) {
        if id in Group(cfg, db, k) { KeyOfMember(cfg, db, k, id); }
      }
    }
  }

  lemma AtMostOne<T>(rows: set<T>, others: set<T>)
    requires rows * others == {}
    ensures |rows + others| == |rows| + |others|
  {}

  /** After a clean run the lookup of a key finds its one row and the rows reconciliation passed over, so it is ambiguous
      exactly when the starting database holds such a row beside a row of its own or beside another such row. */
  lemma LookupExactly(cfg: Config, scope: string, db: Db, events: seq<Event>, plan: map<Key, Merge>, w: Rewrite, k: Key)
    requires Planned(cfg, scope, db, events, plan, w) && ConflictFree(cfg, scope, db, events)
    ensures Claimants(cfg, After(db, w).products, k) == Group(cfg, After(db, w), k) + Foreign(cfg, db, k)
    ensures |Claimants(cfg, After(db, w).products, k)| > 1 <==>
      (if k in Keys(cfg, db) then Foreign(cfg, db, k) != {} else |Foreign(cfg, db, k)| > 1)
  {
    PlannedRoles(cfg, scope, db, events, plan, w);
    NoRowConflicts(cfg, db, plan, w);
    ClaimantsSplit(cfg, After(db, w), k);
    ForeignAfter(cfg, db, plan, w, k);
    GroupsSettled(cfg, scope, db, events, plan, w, k);
    AtMostOne(Group(cfg, After(db, w), k), Foreign(cfg, db, k));
  }
}
