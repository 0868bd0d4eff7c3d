/** Databases in which reconciliation does less than its comments promise, under the deployed product id encoding. */
module RestoreLimits {
  import opened Prelude
  import opened Chains
  import opened Projection
  import opened IndexerSpec
  import opened IdentitySpec
  import opened IdentityLaws
  import opened IdentityRuns
  import opened IdentityMerge
  import opened LegacyHistory
  import opened PrivateRestore
  import opened ProductIds
  import ProductKeys

  function Settings(): Config {
    Config(0, 0, 1, 0, 1, "registry", "tracker", (id: string) => ProductKeys.Canonical(id))
  }

  predicate IsKey(k: Key) {
    ProductKeys.Canonical(k) == Some(k)
  }

  /** There are such keys. */
  lemma SomeKey() returns (k: Key)
    ensures IsKey(k)
  {
    k := ProductKeys.KeyOf(1);
    ProductKeys.KeyOfCanonical(1);
  }

  // ---- a digest that two tagging plans share ----

  function RegisterLog(k: Key): Event {
    Event(4, "g", Log("registry", "0xaa", 0, 0, k, ProductRegistered("name", "maker", 1, "", ""), false))
  }

  function TransferLog(tx: Hash, k: Key, at: nat): Log {
    Log("tracker", tx, 0, 0, k, CustodyTransferred("x", "y", at), false)
  }

  /** The history of one product: its registration and two transfers. */
  function ThreeLogs(k: Key): seq<Event> {
    [RegisterLog(k), Event(5, "h", TransferLog("0xab", k, 7)), Event(6, "i", TransferLog("0xcd", k, 8))]
  }

  /** The product as its registration left it, with the identity of this deployment. */
  function Registered(k: Key): Product {
    Product(Fields("name", None, None, "maker", Some("maker"), Some("chain_event"), 1, Some(1), "indexed", 4, "0xaa"), Values(Settings(), k))
  }

  const ROW := RefId(TransferRef, 0)

  /** The registered product, and one transfer of it that carries no event id yet. */
  function OneUntagged(k: Key, tx: string, number: nat, at: nat): Db {
    Db(map[k := Registered(k)], map[], map[], map[ROW := Ref(k, None, TransferColumns("x", "y", at, number, tx))])
  }

  function OneMatch(context: Context): Plan {
    Plan(context, HistoryReport(1, {}, false, false), map[], {}, {})
  }

  predicate EitherLog(tx: string, n: nat, at: nat) {
    (tx == "0xab" && n == 5 && at == 7) || (tx == "0xcd" && n == 6 && at == 8)
  }

  lemma FoundLast(cfg: Config, id: RefId, r: Ref, events: seq<Event>, e: Event)
    ensures Found(cfg, id, r, events + [e]) == Found(cfg, id, r, events) + if Explains(cfg, id, r, e) then [IdOf(e)] else []
  {
    assert (events + [e])[..|events|] == events;
  }

  function IdIf(cfg: Config, id: RefId, r: Ref, e: Event): seq<EventId> {
    if Explains(cfg, id, r, e) then [IdOf(e)] else []
  }

  lemma FoundNext(cfg: Config, id: RefId, r: Ref, events: seq<Event>, e: Event, all: seq<Event>, found: seq<EventId>)
    requires all == events + [e] && found == Found(cfg, id, r, events)
    ensures Found(cfg, id, r, all) == found + IdIf(cfg, id, r, e)
  {
    FoundLast(cfg, id, r, events, e);
  }

  lemma FoundInThree(cfg: Config, id: RefId, r: Ref, a: Event, b: Event, c: Event)
    ensures Found(cfg, id, r, [a, b, c]) == IdIf(cfg, id, r, a) + IdIf(cfg, id, r, b) + IdIf(cfg, id, r, c)
  {
    FoundNext(cfg, id, r, [], a, [a], []);
    FoundNext(cfg, id, r, [a], b, [a, b], IdIf(cfg, id, r, a));
    FoundNext(cfg, id, r, [a, b], c, [a, b, c], IdIf(cfg, id, r, a) + IdIf(cfg, id, r, b));
  }

  lemma FindsOne(k: Key, tx: string, n: nat, at: nat)
    requires IsKey(k) && EitherLog(tx, n, at)
    ensures Found(Settings(), ROW, OneUntagged(k, tx, n, at).refs[ROW], ThreeLogs(k)) == [EventId("tracker", tx, 0)]
  {
    var r := OneUntagged(k, tx, n, at).refs[ROW];
    FoundInThree(Settings(), ROW, r, ThreeLogs(k)[0], ThreeLogs(k)[1], ThreeLogs(k)[2]);
    assert Lower("0xab") == "0xab" && Lower("0xcd") == "0xcd" && Lower("tracker") == "tracker";
    assert "0xab"[2] != "0xcd"[2];
  }

  lemma OneAttributable(cfg: Config, refs: map<RefId, Ref>, events: seq<Event>, found: EventId)
    requires refs.Keys == {ROW} && refs[ROW].source.None? && Found(cfg, ROW, refs[ROW], events) == [found]
    ensures Reviews(cfg, refs, events, HistoryReport(1, {}, false, false)) && Clean(cfg, refs, events)
    ensures ROW in Attributed(cfg, refs, events) && Attributed(cfg, refs, events)[ROW].source == Some(found)
  {
    assert !Taken(refs, TransferRef, found);
    assert Attributable(cfg, refs, events, ROW);
    assert MatchedRows(cfg, refs, events) == {ROW};
  }

  lemma OneEvidence(k: Key)
    ensures Evidence(ThreeLogs(k), k) == [RegisterLog(k)]
  {
    var es := ThreeLogs(k);
    assert es[..2] == [es[0], es[1]] && [es[0], es[1]][..1] == [es[0]] && [es[0]][..0] == [];
    assert Evidence([], k) == [] && Evidence([es[0]], k) == [es[0]] && Evidence([es[0], es[1]], k) == [es[0]];
  }

  lemma RegisteredAlone(k: Key, db: Db)
    requires IsKey(k) && db.products == map[k := Registered(k)]
    ensures Group(Settings(), db, k) == {k} && Keys(Settings(), db) == {k} && RowConflicts(Settings(), db) == {}
    ensures InPlace(Settings(), db, k, {k})
  {
    assert Lower("registry") == "registry";
  }

  lemma NoContradiction(k: Key, db: Db)
    requires db.products == map[k := Registered(k)] && db.aliases == map[] && db.bindings == map[]
    ensures !BadRow(db, k, [RegisterLog(k)]) && BindingsOf(db, {k}) == {}
  {
    assert Lower("0xaa") == "0xaa";
  }

  /** A group of one row in place that its one registration log supports is left alone. */
  lemma SupportedAlone(cfg: Config, scope: string, db: Db, events: seq<Event>, k: Key, e: Event)
    requires Group(cfg, db, k) == {k} && Evidence(events, k) == [e] && e.log.payload.ProductRegistered? && k in db.products
    requires !BadRow(db, k, [e]) && BindingsOf(db, {k}) == {} && InPlace(cfg, db, k, {k})
    ensures !Conflicted(cfg, scope, db, events, k) && !Changes(cfg, scope, db, events, k)
  {}

  lemma NothingToMerge(k: Key, scope: string, db: Db)
    requires IsKey(k) && db.products == map[k := Registered(k)] && db.aliases == map[] && db.bindings == map[]
    ensures Reports(Settings(), scope, db, ThreeLogs(k), Report(false, map[], {}, {}))
    ensures ConflictFree(Settings(), scope, db, ThreeLogs(k))
  {
    OneEvidence(k);
    RegisteredAlone(k, db);
    NoContradiction(k, db);
    SupportedAlone(Settings(), scope, db, ThreeLogs(k), k, RegisterLog(k));
  }

  lemma OurEmitters(k: Key)
    ensures forall e :: e in ThreeLogs(k) ==> !WrongEmitter(Settings(), e)
  {}

  /** The plan is one match; nothing conflicts, and there is something to apply. */
  lemma PlansOneMatch(k: Key, db: Db, context: Context, found: EventId)
    requires IsKey(k) && db.products == map[k := Registered(k)] && db.aliases == map[] && db.bindings == map[]
    requires db.refs.Keys == {ROW} && db.refs[ROW].source.None? && Found(Settings(), ROW, db.refs[ROW], ThreeLogs(k)) == [found]
    ensures PlanOf(Settings(), "s", db, ThreeLogs(k), context, OneMatch(context))
    ensures Acceptable(Settings(), "s", db, ThreeLogs(k)) && Due(Settings(), "s", db, ThreeLogs(k))
    ensures Attributed(Settings(), db.refs, ThreeLogs(k))[ROW].source == Some(found)
  {
    OneAttributable(Settings(), db.refs, ThreeLogs(k), found);
    NothingToMerge(k, "s", WithHistory(Settings(), db, ThreeLogs(k)));
    OurEmitters(k);
    assert Publishes(Settings(), "s", WithHistory(Settings(), db, ThreeLogs(k)), ThreeLogs(k), Report(false, map[], {}, {}), OneMatch(context));
    assert Untagged(db.refs, ROW);
  }

  /** Two databases of a registered product whose one transfer is tagged with different logs have the same plan, and either
      would be applied: approving the digest of one approves the other's. */
  lemma DigestCountsOnly(k: Key, context: Context)
    requires IsKey(k)
    ensures var a, b, events := OneUntagged(k, "0xab", 5, 7), OneUntagged(k, "0xcd", 6, 8), ThreeLogs(k);
      && PlanOf(Settings(), "s", a, events, context, OneMatch(context)) && PlanOf(Settings(), "s", b, events, context, OneMatch(context))
      && Acceptable(Settings(), "s", a, events) && Due(Settings(), "s", a, events)
      && Acceptable(Settings(), "s", b, events) && Due(Settings(), "s", b, events)
      && Attributed(Settings(), a.refs, events)[ROW].source != Attributed(Settings(), b.refs, events)[ROW].source
  {
    FindsOne(k, "0xab", 5, 7);
    FindsOne(k, "0xcd", 6, 8);
    PlansOneMatch(k, OneUntagged(k, "0xab", 5, 7), context, EventId("tracker", "0xab", 0));
    PlansOneMatch(k, OneUntagged(k, "0xcd", 6, 8), context, EventId("tracker", "0xcd", 0));
    assert "0xab"[2] != "0xcd"[2];
  }

  // ---- an empty note ----

  function NoteLog(k: Key): Event {
    Event(5, "h", Log("tracker", "0xab", 0, 0, k, CheckpointRecorded("dock", InTransit, "x", 7, ""), false))
  }

  const NOTED := RefId(CheckpointRef, 0)

  function EmptyNoted(k: Key): map<RefId, Ref> {
    map[NOTED := Ref(k, None, CheckpointColumns("dock", "1", "x", Some(""), 7, 5, "0xab"))]
  }

  lemma NoteExplained(k: Key)
    requires IsKey(k)
    ensures Explains(Settings(), NOTED, EmptyNoted(k)[NOTED], NoteLog(k))
  {
    assert Lower("0xab") == "0xab";
  }

  lemma CleanSingle(cfg: Config, refs: map<RefId, Ref>, e: Event)
    requires refs.Keys == {NOTED} && refs[NOTED].source.None? && Explains(cfg, NOTED, refs[NOTED], e)
    ensures Clean(cfg, refs, [e]) && Attributed(cfg, refs, [e])[NOTED] == refs[NOTED].(source := Some(IdOf(e)))
  {
    assert [e][..0] == [] && Found(cfg, NOTED, refs[NOTED], [e][..0]) == [];
    assert Attributable(cfg, refs, [e], NOTED);
  }

  /** Attribution tags a checkpoint stored with an empty note without complaint, and every later projection of its log
      fails. */
  lemma EmptyNoteRejected(k: Key, history: map<Slot, HistoryRow>)
    requires IsKey(k) && Holds(Attributed(Settings(), EmptyNoted(k), [NoteLog(k)]), history)
    ensures Clean(Settings(), EmptyNoted(k), [NoteLog(k)]) && Recorded(history, k, NoteLog(k)) == Err(DIFFERS)
  {
    var cfg, refs := Settings(), EmptyNoted(k);
    NoteExplained(k);
    CleanSingle(cfg, refs, NoteLog(k));
    ProjectedOverTag(cfg, NOTED, refs[NOTED], Attributed(cfg, refs, [NoteLog(k)]), history, NoteLog(k));
  }

  // ---- an ambiguous lookup ----

  /** A key written with an upper-case prefix: another spelling of the same id. */
  function Shouted(k: Key): string
    requires |k| >= 2
  {
    [k[0], 'X'] + k[2..]
  }

  lemma ShoutedCanonical(k: Key)
    requires IsKey(k)
    ensures |k| >= 2 && Shouted(k) != k && ProductKeys.Canonical(Shouted(k)) == Some(k)
  {
    ProductKeys.CanonicalTwice(k);
    var codes, shouted := ProductKeys.CodesOf(k), ProductKeys.CodesOf(Shouted(k));
    assert LowerCode(codes[1]) == codes[1];
    assert shouted[2..] == codes[2..];
    SameDigitsSameId(codes, shouted);
  }

  /** The case of the prefix does not matter. */
  lemma SameDigitsSameId(codes: seq<Code>, shouted: seq<Code>)
    requires HexId(codes) && |shouted| == |codes| && shouted[0] == codes[0] && shouted[1] == X_UPPER && shouted[2..] == codes[2..]
    ensures CanonicalHex(shouted) == CanonicalHex(codes)
  {
    assert HexId(shouted);
  }

  function Unregistered(identity: Identity): Product {
    Product(Fields("name", None, None, "maker", None, None, 0, None, "unregistered", 0, "0x"), identity)
  }

  /** One row of this deployment, and one that another chain has claimed under the other spelling. */
  function TwoSpellings(k: Key): Db
    requires |k| >= 2
  {
    Db(map[k := Unregistered(UNASSIGNED), Shouted(k) := Unregistered(Identity(Some(k), Some(2), Some("registry"), Some("tracker")))], map[], map[], map[])
  }

  lemma TwoSpellingsRows(k: Key)
    requires IsKey(k) && |k| >= 2 && Shouted(k) != k && ProductKeys.Canonical(Shouted(k)) == Some(k)
    ensures Group(Settings(), TwoSpellings(k), k) == {k} && Keys(Settings(), TwoSpellings(k)) == {k}
    ensures Foreign(Settings(), TwoSpellings(k), k) == {Shouted(k)} && RowConflicts(Settings(), TwoSpellings(k)) == {}
  {
    assert Lower("registry") == "registry";
  }

  /** A group of one unregistered row without bindings or logs is left alone. */
  lemma LeftAlone(cfg: Config, scope: string, db: Db, k: Key)
    requires Group(cfg, db, k) == {k} && k in db.products && k !in db.aliases && db.bindings == map[]
    requires !Unsupported(db.products[k].fields) && db.products[k].fields.ownershipSource.None?
    ensures !Conflicted(cfg, scope, db, [], k) && !Changes(cfg, scope, db, [], k)
  {
    assert BindingsOf(db, {k}) == {};
    assert Unknown(db, {k}, Evidence([], k));
  }

  lemma NothingPlanned(cfg: Config, scope: string, db: Db, k: Key)
    requires Keys(cfg, db) == {k} && RowConflicts(cfg, db) == {}
    requires !Conflicted(cfg, scope, db, [], k) && !Changes(cfg, scope, db, [], k)
    ensures ConflictFree(cfg, scope, db, []) && Planned(cfg, scope, db, [], map[], Rewrite(map[], map[]))
  {}

  lemma TwoClaimants(cfg: Config, scope: string, db: Db, k: Key, other: string)
    requires ConflictFree(cfg, scope, db, []) && Planned(cfg, scope, db, [], map[], Rewrite(map[], map[]))
    requires Group(cfg, db, k) == {k} && Foreign(cfg, db, k) == {other} && other != k
    ensures Claimants(cfg, After(db, Rewrite(map[], map[])).products, k) == {k, other}
    ensures |Claimants(cfg, After(db, Rewrite(map[], map[])).products, k)| == 2
  {
    LookupExactly(cfg, scope, db, [], map[], Rewrite(map[], map[]), k);
    PlannedRoles(cfg, scope, db, [], map[], Rewrite(map[], map[]));
    GroupAfter(cfg, db, map[], Rewrite(map[], map[]), k);
    assert {k} + {other} == {k, other};
  }

  /** A run that reports no conflict and plans no change leaves the indexer's lookup of the key ambiguous, so a
      registration of that key is refused. */
  lemma LookupMayStayAmbiguous(k: Key)
    requires IsKey(k)
    ensures |k| >= 2 && ConflictFree(Settings(), "s", TwoSpellings(k), [])
    ensures Planned(Settings(), "s", TwoSpellings(k), [], map[], Rewrite(map[], map[]))
    ensures Claimants(Settings(), After(TwoSpellings(k), Rewrite(map[], map[])).products, k) == {k, Shouted(k)}
    ensures |Claimants(Settings(), After(TwoSpellings(k), Rewrite(map[], map[])).products, k)| == 2
  {
    ShoutedCanonical(k);
    TwoSpellingsRows(k);
    LeftAlone(Settings(), "s", TwoSpellings(k), k);
    NothingPlanned(Settings(), "s", TwoSpellings(k), k);
    TwoClaimants(Settings(), "s", TwoSpellings(k), k, Shouted(k));
  }
}
