/** What every projection step keeps: bindings are never guessed, each bound product equals the fold of
    the events applied to it, history rows belong to those events, shipments follow their product. */
module IndexerLaws {
  import opened Prelude
  import opened Chains
  import opened Projection
  import opened IndexerSpec

  /** The events applied so far to each bound product, in order. */
  type Applied = map<Key, seq<Event>>

  // ---- bindings ----

  /** The binding of k is the one the starting database dictates: its only claimant, or a fresh row named k. */
  ghost predicate Dictated(cfg: Config, init: Tables, k: Key, id: string, baseline: Fields) {
    && baseline.registrationStatus != "superseded"
    && if id in init.products then
         && Claimants(cfg, init.products, k) == {id}
         && baseline == Baseline(init.products[id].fields)
         && (init.products[id].identity == UNASSIGNED || Some(init.products[id].identity) == ScopeIdentity(cfg, k))
       else
         && Claimants(cfg, init.products, k) == {}
         && id == k
         && baseline == Placeholder(baseline.name, baseline.manufacturer, baseline.registeredAt)
  }

  ghost predicate ProperlyBound(cfg: Config, init: Tables, t: Tables, k: Key)
    requires k in t.bindings
  {
    var b := t.bindings[k];
    && b.productId in t.products
    && cfg.canonical(k) == Some(k)
    && Some(t.products[b.productId].identity) == ScopeIdentity(cfg, k)
    && t.products[b.productId].fields.registrationStatus != "superseded"
    && Dictated(cfg, init, k, b.productId, b.baseline)
  }

  ghost predicate AllBound(cfg: Config, init: Tables, t: Tables) {
    forall k :: k in t.bindings ==> ProperlyBound(cfg, init, t, k)
  }

  /** No product row serves two keys. */
  ghost predicate Apart(t: Tables) {
    forall k, m :: k in t.bindings && m in t.bindings && t.bindings[k].productId == t.bindings[m].productId ==> k == m
  }

  /** Everything the indexer is not bound to is as it was at the start. */
  ghost predicate Untouched(init: Tables, t: Tables) {
    && t.foreignBound == init.foreignBound
    && t.untagged == init.untagged
    && init.products.Keys <= t.products.Keys
    && (forall id :: id in t.products && id !in BoundIds(t) ==> id in init.products && t.products[id] == init.products[id])
  }

  ghost predicate Linked(cfg: Config, init: Tables, t: Tables) {
    AllBound(cfg, init, t) && Apart(t) && Untouched(init, t)
  }

  lemma BoundExist(cfg: Config, init: Tables, t: Tables)
    requires Linked(cfg, init, t)
    ensures BoundIds(t) <= t.products.Keys
  {
    forall k | k in t.bindings ensures t.bindings[k].productId in t.products {
      assert ProperlyBound(cfg, init, t, k);
    }
  }

  lemma ClaimStable(cfg: Config, init: Tables, t: Tables, k: Key, id: string)
    requires Linked(cfg, init, t) && k !in t.bindings && cfg.canonical(k) == Some(k)
    ensures id in Claimants(cfg, t.products, k) <==> id in Claimants(cfg, init.products, k)
  {
    if id in t.products && id in BoundIds(t) {
      var m :| m in t.bindings && t.bindings[m].productId == id;
      assert ProperlyBound(cfg, init, t, m);
    }
  }

  /** Binding and projecting other products never changes who claims a key. */
  lemma ClaimantsStable(cfg: Config, init: Tables, t: Tables, k: Key)
    requires Linked(cfg, init, t) && k !in t.bindings && cfg.canonical(k) == Some(k)
    ensures Claimants(cfg, t.products, k) == Claimants(cfg, init.products, k)
  {
    forall id ensures id in Claimants(cfg, t.products, k) <==> id in Claimants(cfg, init.products, k) {
      ClaimStable(cfg, init, t, k, id);
    }
  }

  /** A first binding takes the row the starting database dictates, and one that nothing else is bound to. */
  lemma FirstBindingDictated(cfg: Config, init: Tables, t: Tables, e: Event)
    requires Linked(cfg, init, t) && e.log.product !in t.bindings
    requires cfg.canonical(e.log.product) in {None, Some(e.log.product)}
    requires FirstBinding(cfg, t, e).Ok?
    ensures cfg.canonical(e.log.product) == Some(e.log.product)
    ensures var f := FirstBinding(cfg, t, e).value;
      && f.id !in BoundIds(t)
      && f.product.fields.registrationStatus != "superseded"
      && Dictated(cfg, init, e.log.product, f.id, f.baseline)
  {
    var k := e.log.product;
    BoundExist(cfg, init, t);
    ClaimantsStable(cfg, init, t, k);
    var f := FirstBinding(cfg, t, e).value;
    var found := Claimants(cfg, t.products, k);
    if |found| == 0 {
      assert found == {};
      assert f.id == k && k !in t.products;
    } else {
      assert found == {f.id};
    }
  }

  lemma WithBindingIds(t: Tables, k: Key, f: Fresh)
    requires k !in t.bindings
    ensures BoundIds(WithBinding(t, k, f)) == BoundIds(t) + {f.id}
  {
    var u := WithBinding(t, k, f);
    forall id ensures id in BoundIds(u) <==> id in BoundIds(t) + {f.id} {
      if id in BoundIds(t) {
        var m :| m in t.bindings && t.bindings[m].productId == id;
        assert m in u.bindings && u.bindings[m].productId == id;
      }
      if id == f.id {
        assert k in u.bindings && u.bindings[k].productId == id;
      }
    }
  }

  lemma WithBindingAllBound(cfg: Config, init: Tables, t: Tables, k: Key, f: Fresh)
    requires AllBound(cfg, init, t) && k !in t.bindings
    requires f.id !in BoundIds(t) && cfg.canonical(k) == Some(k)
    requires Some(f.product.identity) == ScopeIdentity(cfg, k)
    requires f.product.fields.registrationStatus != "superseded"
    requires Dictated(cfg, init, k, f.id, f.baseline)
    ensures AllBound(cfg, init, WithBinding(t, k, f))
  {
    forall m | m in t.bindings ensures t.bindings[m].productId != f.id {
      assert t.bindings[m].productId in BoundIds(t);
    }
  }

  lemma WithBindingLinked(cfg: Config, init: Tables, t: Tables, k: Key, f: Fresh)
    requires Linked(cfg, init, t) && k !in t.bindings
    requires f.id !in BoundIds(t) && cfg.canonical(k) == Some(k)
    requires Some(f.product.identity) == ScopeIdentity(cfg, k)
    requires f.product.fields.registrationStatus != "superseded"
    requires Dictated(cfg, init, k, f.id, f.baseline)
    ensures Linked(cfg, init, WithBinding(t, k, f))
  {
    WithBindingAllBound(cfg, init, t, k, f);
    WithBindingIds(t, k, f);
    forall m | m in t.bindings ensures t.bindings[m].productId != f.id {
      assert t.bindings[m].productId in BoundIds(t);
    }
  }

  lemma BindAgain(cfg: Config, init: Tables, t: Tables, e: Event, u: Tables)
    requires Linked(cfg, init, t) && Bind(cfg, t, e) == Ok(u) && e.log.product in t.bindings
    ensures u == t
  {
    assert ProperlyBound(cfg, init, t, e.log.product);
    assert u.products == t.products;
  }

  lemma BindFirst(cfg: Config, init: Tables, t: Tables, e: Event, u: Tables)
    requires Linked(cfg, init, t) && Bind(cfg, t, e) == Ok(u) && e.log.product !in t.bindings
    requires cfg.canonical(e.log.product) in {None, Some(e.log.product)}
    ensures e.log.payload.ProductRegistered? && FirstBinding(cfg, t, e).Ok? && FirstBinding(cfg, t, e).value.id !in BoundIds(t)
    ensures u == WithBinding(t, e.log.product, FirstBinding(cfg, t, e).value) && Linked(cfg, init, u)
  {
    FirstBindingDictated(cfg, init, t, e);
    WithBindingLinked(cfg, init, t, e.log.product, FirstBinding(cfg, t, e).value);
  }

  lemma BindKeepsLinks(cfg: Config, init: Tables, t: Tables, e: Event, u: Tables)
    requires Linked(cfg, init, t) && Bind(cfg, t, e) == Ok(u)
    requires cfg.canonical(e.log.product) in {None, Some(e.log.product)}
    ensures Linked(cfg, init, u)
    ensures e.log.product in t.bindings ==> u == t
    ensures e.log.product !in t.bindings ==>
      && e.log.payload.ProductRegistered?
      && FirstBinding(cfg, t, e).Ok?
      && FirstBinding(cfg, t, e).value.id !in BoundIds(t)
      && u == WithBinding(t, e.log.product, FirstBinding(cfg, t, e).value)
  {
    if e.log.product in t.bindings { BindAgain(cfg, init, t, e, u); } else { BindFirst(cfg, init, t, e, u); }
  }

  // ---- projections ----

  ghost predicate Folded(t: Tables, f: Applied) {
    f.Keys == t.bindings.Keys &&
    forall k :: k in t.bindings ==> FoldedAt(t, k, f[k])
  }

  ghost predicate FoldedAt(t: Tables, k: Key, es: seq<Event>)
    requires k in t.bindings
  {
    t.bindings[k].productId in t.products && StateOf(t, k) == Fold(Start(t.bindings[k].baseline), es)
  }

  /** The shipments of the starting database keep their plan; only those of bound products change, to the product's status. */
  ghost predicate Follows(init: Tables, t: Tables, s: string)
    requires s in t.shipments && s in init.shipments
  {
    && t.shipments[s].(status := init.shipments[s].status) == init.shipments[s]
    && (t.shipments[s].productId !in BoundIds(t) ==> t.shipments[s] == init.shipments[s])
    && (forall k :: k in t.bindings && t.bindings[k].productId == t.shipments[s].productId ==>
          t.shipments[s].status == t.bindings[k].status)
  }

  ghost predicate Shipped(init: Tables, t: Tables) {
    t.shipments.Keys == init.shipments.Keys && forall s :: s in t.shipments ==> Follows(init, t, s)
  }

  ghost predicate HasRow(t: Tables, k: Key, e: Event)
    requires k in t.bindings
  {
    TableOf(e).Some? ==> SlotOf(e) in t.history && SameRow(t.history[SlotOf(e)], RowOf(t.bindings[k].productId, e))
  }

  ghost predicate Explains(f: Applied, k: Key, e: Event, s: Slot) {
    k in f && e in f[k] && TableOf(e).Some? && SlotOf(e) == s
  }

  /** Every tagged row belongs to an applied event or stands untouched since the start. */
  ghost predicate Sound(init: Tables, t: Tables, f: Applied) {
    forall s :: s in t.history ==>
      (exists k, e :: Explains(f, k, e, s)) || (s in init.history && init.history[s] == t.history[s])
  }

  ghost predicate Tracks(cfg: Config, init: Tables, t: Tables, f: Applied) {
    Linked(cfg, init, t) && Folded(t, f) && Shipped(init, t) && Sound(init, t, f)
  }

  // ---- one projected event ----

  function AppliedTo(f: Applied, k: Key): seq<Event> {
    if k in f then f[k] else []
  }

  lemma WithStateIds(t: Tables, k: Key, s: State)
    requires k in t.bindings && t.bindings[k].productId in t.products
    ensures var u := WithState(t, k, s);
      && u.bindings.Keys == t.bindings.Keys
      && (forall m :: m in t.bindings ==> u.bindings[m].productId == t.bindings[m].productId && u.bindings[m].baseline == t.bindings[m].baseline)
      && BoundIds(u) == BoundIds(t)
  {
    var u := WithState(t, k, s);
    assert forall m :: m in t.bindings ==> u.bindings[m].productId == t.bindings[m].productId;
    forall id ensures id in BoundIds(t) <==> id in BoundIds(u) {
      if id in BoundIds(t) {
        var m :| m in t.bindings && t.bindings[m].productId == id;
        assert m in u.bindings && u.bindings[m].productId == id;
      }
      if id in BoundIds(u) {
        var m :| m in u.bindings && u.bindings[m].productId == id;
        assert m in t.bindings && t.bindings[m].productId == id;
      }
    }
  }

  lemma WithStateAllBound(cfg: Config, init: Tables, t: Tables, k: Key, s: State)
    requires AllBound(cfg, init, t) && k in t.bindings && t.bindings[k].productId in t.products
    requires s.fields.registrationStatus != "superseded"
    ensures AllBound(cfg, init, WithState(t, k, s))
  {}

  lemma WithStateUntouched(init: Tables, t: Tables, k: Key, s: State)
    requires Untouched(init, t) && k in t.bindings && t.bindings[k].productId in t.products
    ensures Untouched(init, WithState(t, k, s))
  {
    WithStateIds(t, k, s);
    assert t.bindings[k].productId in BoundIds(t);
  }

  lemma WithStateLinked(cfg: Config, init: Tables, t: Tables, k: Key, s: State)
    requires Linked(cfg, init, t) && k in t.bindings && t.bindings[k].productId in t.products
    requires s.fields.registrationStatus != "superseded"
    ensures Linked(cfg, init, WithState(t, k, s))
  {
    WithStateAllBound(cfg, init, t, k, s);
    WithStateUntouched(init, t, k, s);
  }

  lemma WithStateShipped(init: Tables, t: Tables, k: Key, s: State)
    requires Apart(t) && k in t.bindings && t.bindings[k].productId in t.products
    requires t.shipments.Keys == init.shipments.Keys
    requires forall n :: n in t.shipments && t.shipments[n].productId != t.bindings[k].productId ==> Follows(init, t, n)
    requires forall n :: n in t.shipments ==> t.shipments[n].(status := init.shipments[n].status) == init.shipments[n]
    ensures Shipped(init, WithState(t, k, s))
  {
    var u := WithState(t, k, s);
    forall n | n in u.shipments ensures Follows(init, u, n) {
      if t.shipments[n].productId == t.bindings[k].productId {
        assert u.bindings[k].productId in BoundIds(u);
      } else {
        assert Follows(init, t, n);
        if t.shipments[n].productId in BoundIds(t) {
          var m :| m in t.bindings && t.bindings[m].productId == t.shipments[n].productId;
          assert u.bindings[m].productId in BoundIds(u);
        }
      }
    }
  }

  /** The tables a projection leaves alone. */
  ghost predicate OnlyProjections(t: Tables, u: Tables) {
    u == t.(products := u.products, bindings := u.bindings, history := u.history, shipments := u.shipments)
  }

  /** Bindings are only added, and what an old one points to and restores never changes. */
  ghost predicate BindingsKept(t: Tables, u: Tables) {
    forall m :: m in t.bindings ==>
      m in u.bindings && u.bindings[m].productId == t.bindings[m].productId && u.bindings[m].baseline == t.bindings[m].baseline
  }

  /** b is t with k bound: t itself, or t with a first binding for a registration. */
  ghost predicate Bound(t: Tables, e: Event, b: Tables, first: Fresh) {
    var k := e.log.product;
    if k in t.bindings then b == t
    else
      && e.log.payload.ProductRegistered?
      && first.id !in BoundIds(t)
      && b == WithBinding(t, k, first)
  }

  lemma BindBound(cfg: Config, init: Tables, t: Tables, e: Event, b: Tables) returns (first: Fresh)
    requires Linked(cfg, init, t) && Bind(cfg, t, e) == Ok(b)
    requires cfg.canonical(e.log.product) in {None, Some(e.log.product)}
    ensures Bound(t, e, b, first) && Linked(cfg, init, b)
  {
    BindKeepsLinks(cfg, init, t, e, b);
    first := Fresh("", Product(Placeholder("", "", 0), UNASSIGNED), Placeholder("", "", 0));
    if e.log.product !in t.bindings {
      first := FirstBinding(cfg, t, e).value;
    }
  }

  lemma BoundFolds(t: Tables, f: Applied, e: Event, b: Tables, first: Fresh)
    requires Folded(t, f) && Bound(t, e, b, first)
    ensures var k := e.log.product;
      && k in b.bindings && b.bindings[k].productId in b.products
      && Apply(StateOf(b, k), e) == Fold(Start(b.bindings[k].baseline), AppliedTo(f, k) + [e])
  {
    var k := e.log.product;
    FoldSnoc(Start(b.bindings[k].baseline), AppliedTo(f, k), e);
    if k in t.bindings {
      assert FoldedAt(t, k, f[k]);
    }
  }

  lemma BoundFoldsOthers(t: Tables, f: Applied, e: Event, b: Tables, first: Fresh)
    requires Folded(t, f) && Bound(t, e, b, first)
    ensures BindingsKept(t, b)
    ensures forall m :: m in t.bindings && m != e.log.product ==> m in b.bindings && FoldedAt(b, m, f[m])
  {
    if e.log.product !in t.bindings {
      forall m | m in t.bindings ensures b.bindings[m] == t.bindings[m] && FoldedAt(b, m, f[m]) {
        assert FoldedAt(t, m, f[m]);
        assert t.bindings[m].productId in BoundIds(t);
      }
    }
  }

  lemma BoundFollows(init: Tables, t: Tables, e: Event, b: Tables, first: Fresh)
    requires Shipped(init, t) && Bound(t, e, b, first)
    ensures b.shipments == t.shipments && e.log.product in b.bindings
    ensures forall n :: n in b.shipments && b.shipments[n].productId != b.bindings[e.log.product].productId ==> Follows(init, b, n)
    ensures forall n :: n in b.shipments ==> n in init.shipments && b.shipments[n].(status := init.shipments[n].status) == init.shipments[n]
  {
    var k := e.log.product;
    forall n | n in b.shipments
      ensures b.shipments[n].(status := init.shipments[n].status) == init.shipments[n]
      ensures b.shipments[n].productId != b.bindings[k].productId ==> Follows(init, b, n)
    {
      assert Follows(init, t, n);
      if k !in t.bindings {
        WithBindingIds(t, k, first);
      }
    }
  }

  lemma WithStateFolds(t: Tables, k: Key, s: State, f: Applied, es: seq<Event>)
    requires Apart(t) && k in t.bindings && t.bindings[k].productId in t.products
    requires s == Fold(Start(t.bindings[k].baseline), es)
    requires f.Keys == t.bindings.Keys - {k} || f.Keys == t.bindings.Keys
    requires forall m :: m in t.bindings && m != k ==> FoldedAt(t, m, f[m])
    ensures Folded(WithState(t, k, s), f[k := es])
  {
    var u := WithState(t, k, s);
    forall m | m in u.bindings ensures FoldedAt(u, m, f[k := es][m]) {
      if m != k { assert FoldedAt(t, m, f[m]); }
    }
  }

  lemma RecordedSound(init: Tables, t: Tables, f: Applied, productId: string, e: Event, u: Tables)
    requires Sound(init, t, f) && Recorded(t.history, productId, e) == Ok(u.history)
    ensures Sound(init, u, f[e.log.product := AppliedTo(f, e.log.product) + [e]])
  {
    var k := e.log.product;
    var g := f[k := AppliedTo(f, k) + [e]];
    forall s | s in u.history && !(s in init.history && init.history[s] == u.history[s])
      ensures exists m, x :: Explains(g, m, x, s)
    {
      if TableOf(e).Some? && SlotOf(e) == s {
        assert Explains(g, k, e, s);
      } else {
        var m, x :| Explains(f, m, x, s);
        assert Explains(g, m, x, s);
      }
    }
  }

  /** u is b with the event's row recorded in c and its state written. */
  ghost predicate Steps(e: Event, b: Tables, c: Tables, u: Tables) {
    var k := e.log.product;
    && k in b.bindings && b.bindings[k].productId in b.products
    && c == b.(history := c.history)
    && Recorded(b.history, b.bindings[k].productId, e) == Ok(c.history)
    && u == WithState(c, k, Apply(StateOf(b, k), e))
  }

  lemma StepLinked(cfg: Config, init: Tables, e: Event, b: Tables, c: Tables, u: Tables)
    requires Linked(cfg, init, b) && Steps(e, b, c, u)
    ensures Linked(cfg, init, u)
  {
    NeverSuperseded(cfg, init, b, e.log.product, e);
    HistoryIrrelevant(cfg, init, b, c);
    WithStateLinked(cfg, init, c, e.log.product, Apply(StateOf(b, e.log.product), e));
  }

  /** Recording a row leaves the other products folded. */
  lemma OthersFolded(t: Tables, f: Applied, e: Event, b: Tables, first: Fresh, c: Tables)
    requires Folded(t, f) && Bound(t, e, b, first) && c == b.(history := c.history)
    ensures e.log.product in c.bindings && f.Keys == t.bindings.Keys && c.bindings.Keys == t.bindings.Keys + {e.log.product}
    ensures forall m :: m in c.bindings && m != e.log.product ==> FoldedAt(c, m, f[m])
  {
    BoundFoldsOthers(t, f, e, b, first);
    forall m | m in t.bindings && m != e.log.product ensures FoldedAt(c, m, f[m]) {
      assert FoldedAt(b, m, f[m]);
    }
  }

  lemma StateWritten(f: Applied, k: Key, s: State, es: seq<Event>, c: Tables)
    requires Apart(c) && k in c.bindings && c.bindings[k].productId in c.products && s == Fold(Start(c.bindings[k].baseline), es)
    requires c.bindings.Keys == f.Keys + {k}
    requires forall m :: m in c.bindings && m != k ==> FoldedAt(c, m, f[m])
    ensures Folded(WithState(c, k, s), f[k := es])
  {
    WithStateFolds(c, k, s, f, es);
  }

  lemma StepFolded(t: Tables, f: Applied, e: Event, b: Tables, first: Fresh, c: Tables, u: Tables)
    requires Folded(t, f) && Bound(t, e, b, first) && Apart(b) && Steps(e, b, c, u)
    ensures Folded(u, f[e.log.product := AppliedTo(f, e.log.product) + [e]])
  {
    BoundFolds(t, f, e, b, first);
    OthersFolded(t, f, e, b, first, c);
    StateWritten(f, e.log.product, Apply(StateOf(b, e.log.product), e), AppliedTo(f, e.log.product) + [e], c);
  }

  lemma StepShipped(init: Tables, t: Tables, e: Event, b: Tables, first: Fresh, c: Tables, u: Tables)
    requires Shipped(init, t) && Bound(t, e, b, first) && Apart(b) && Steps(e, b, c, u)
    ensures Shipped(init, u)
  {
    BoundFollows(init, t, e, b, first);
    assert BoundIds(b) == BoundIds(c);
    forall n | n in c.shipments && c.shipments[n].productId != c.bindings[e.log.product].productId ensures Follows(init, c, n) {
      assert Follows(init, b, n);
    }
    WithStateShipped(init, c, e.log.product, Apply(StateOf(b, e.log.product), e));
  }

  lemma StepKept(t: Tables, f: Applied, e: Event, b: Tables, first: Fresh, c: Tables, u: Tables)
    requires Folded(t, f) && Bound(t, e, b, first) && Steps(e, b, c, u)
    ensures OnlyProjections(t, u) && BindingsKept(t, u) && BindingsKept(b, u)
    ensures u.bindings.Keys == t.bindings.Keys + {e.log.product}
    ensures u.history == c.history && b.history == t.history
  {
    BoundFoldsOthers(t, f, e, b, first);
    WithStateIds(c, e.log.product, Apply(StateOf(b, e.log.product), e));
  }

  lemma StepTracks(cfg: Config, init: Tables, t: Tables, f: Applied, e: Event, b: Tables, first: Fresh, c: Tables, u: Tables)
    requires Tracks(cfg, init, t, f) && Bound(t, e, b, first) && Linked(cfg, init, b) && Steps(e, b, c, u)
    ensures Tracks(cfg, init, u, f[e.log.product := AppliedTo(f, e.log.product) + [e]])
  {
    StepLinked(cfg, init, e, b, c, u);
    StepFolded(t, f, e, b, first, c, u);
    StepShipped(init, t, e, b, first, c, u);
    StepKept(t, f, e, b, first, c, u);
    RecordedSound(init, t, f, b.bindings[e.log.product].productId, e, u);
  }

  lemma NeverSuperseded(cfg: Config, init: Tables, b: Tables, k: Key, e: Event)
    requires AllBound(cfg, init, b) && k in b.bindings && b.bindings[k].productId in b.products
    ensures Apply(StateOf(b, k), e).fields.registrationStatus != "superseded"
  {}

  lemma HistoryIrrelevant(cfg: Config, init: Tables, b: Tables, c: Tables)
    requires Linked(cfg, init, b) && c == b.(history := c.history)
    ensures Linked(cfg, init, c)
  {
    assert BoundIds(b) == BoundIds(c);
  }

  lemma ProjectParts(cfg: Config, t: Tables, e: Event, u: Tables) returns (b: Tables, c: Tables)
    requires Project(cfg, t, e) == Ok(u)
    ensures Bind(cfg, t, e) == Ok(b) && Steps(e, b, c, u)
  {
    b := Bind(cfg, t, e).value;
    c := b.(history := Recorded(b.history, b.bindings[e.log.product].productId, e).value);
  }

  /** u tracks whatever t tracked and then e. */
  ghost predicate Extends(cfg: Config, init: Tables, t: Tables, e: Event, u: Tables) {
    && OnlyProjections(t, u)
    && BindingsKept(t, u)
    && u.bindings.Keys == t.bindings.Keys + {e.log.product}
    && forall f :: Tracks(cfg, init, t, f) ==> Tracks(cfg, init, u, f[e.log.product := AppliedTo(f, e.log.product) + [e]])
  }

  lemma StepExtends(cfg: Config, init: Tables, t: Tables, f: Applied, e: Event, b: Tables, first: Fresh, c: Tables, u: Tables)
    requires Tracks(cfg, init, t, f) && Bound(t, e, b, first) && Linked(cfg, init, b) && Steps(e, b, c, u)
    ensures Extends(cfg, init, t, e, u)
  {
    forall g | Tracks(cfg, init, t, g) {
      StepTracks(cfg, init, t, g, e, b, first, c, u);
    }
    StepKept(t, f, e, b, first, c, u);
  }

  /** Projecting one more event extends what is tracked by exactly that event. */
  lemma ProjectExtends(cfg: Config, init: Tables, t: Tables, f: Applied, e: Event, u: Tables)
    requires Tracks(cfg, init, t, f) && Project(cfg, t, e) == Ok(u)
    requires cfg.canonical(e.log.product) in {None, Some(e.log.product)}
    ensures Extends(cfg, init, t, e, u)
  {
    var b, c := ProjectParts(cfg, t, e, u);
    var first := BindBound(cfg, init, t, e, b);
    StepExtends(cfg, init, t, f, e, b, first, c, u);
  }
}
