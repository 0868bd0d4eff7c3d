/** The private recovery step: history attribution and identity merge, applied only as the plan that was reviewed. */
module PrivateRestore {
  import opened Prelude
  import opened Chains
  import opened Projection
  import opened IndexerSpec
  import opened IdentitySpec
  import opened IdentityLaws
  import opened IdentityRuns
  import opened IdentityMerge
  import opened LegacyHistory

  datatype Context = Context(candidate: string, chainId: nat, registry: string, tracker: string,
                             targetBlock: nat, targetHash: Hash, schemaRevision: string)

  /** What the identity report publishes of a merge. */
  datatype Published = Published(winner: string, aliases: set<string>)

  function PublishedChanges(plan: map<Key, Merge>): map<Key, Published> {
    map k | k in plan :: Published(plan[k].winner, plan[k].losers)
  }

  /** The digested document; its digest stands for itself, the hash being taken to be injective. */
  datatype Plan = Plan(context: Context, history: HistoryReport, changes: map<Key, Published>, rowConflicts: set<string>, conflicts: set<Key>)

  datatype Result = Blocked(state: string) | ReviewRequired(digest: Plan) | Reviewed(digest: Plan, applied: bool)

  function WithHistory(cfg: Config, db: Db, events: seq<Event>): Db {
    db.(refs := Attributed(cfg, db.refs, events))
  }

  /** The plan this database and these events give rise to. */
  ghost predicate PlanOf(cfg: Config, scope: string, db: Db, events: seq<Event>, context: Context, plan: Plan) {
    && plan.context == context && Reviews(cfg, db.refs, events, plan.history) && !plan.history.applied
    && exists report :: Publishes(cfg, scope, WithHistory(cfg, db, events), events, report, plan)
  }

  ghost predicate Publishes(cfg: Config, scope: string, db: Db, events: seq<Event>, report: Report, plan: Plan) {
    && Reports(cfg, scope, db, events, report)
    && plan.changes == PublishedChanges(report.changes) && plan.rowConflicts == report.rowConflicts && plan.conflicts == report.conflicts
  }

  /** Nothing stands in the way of either half. */
  ghost predicate Acceptable(cfg: Config, scope: string, db: Db, events: seq<Event>) {
    && Clean(cfg, db.refs, events)
    && (forall e :: e in events ==> !WrongEmitter(cfg, e))
    && ConflictFree(cfg, scope, WithHistory(cfg, db, events), events)
  }

  /** There is something to apply: an untagged row, or a group that changes once the history is tagged. */
  ghost predicate Due(cfg: Config, scope: string, db: Db, events: seq<Event>) {
    || (exists id :: Untagged(db.refs, id))
    || (exists k :: k in Keys(cfg, db) && Changes(cfg, scope, WithHistory(cfg, db, events), events, k))
  }

  /** Both halves applied, in order. */
  ghost predicate Restored(cfg: Config, scope: string, db: Db, events: seq<Event>, merges: map<Key, Merge>, w: Rewrite, after: Db) {
    var tagged := WithHistory(cfg, db, events);
    Planned(cfg, scope, tagged, events, merges, w) && after == After(tagged, w)
  }

  /** The answer to one invocation. A plan that is returned is the plan of the database. Blocked means that something
      conflicts or the target block is gone; review is asked for just when something is to be applied and another digest
      was approved; an applied plan is the approved one, on a target block that is still canonical. */
  ghost predicate Answers(cfg: Config, scope: string, db: Db, events: seq<Event>, context: Context,
                          approved: Option<Plan>, header: Option<Hash>, r: Result) {
    match r
    case Blocked(_) => !Acceptable(cfg, scope, db, events) || (Due(cfg, scope, db, events) && header != Some(context.targetHash))
    case ReviewRequired(digest) =>
      PlanOf(cfg, scope, db, events, context, digest) && Acceptable(cfg, scope, db, events)
      && Due(cfg, scope, db, events) && approved != Some(digest)
    case Reviewed(digest, applied) =>
      PlanOf(cfg, scope, db, events, context, digest) && Acceptable(cfg, scope, db, events)
      && (applied <==> Due(cfg, scope, db, events))
      && (applied ==> approved == Some(digest) && header == Some(context.targetHash))
  }

  /** The two reports of a preview that met no conflict in the history. */
  ghost predicate Reviewable(cfg: Config, scope: string, db: Db, events: seq<Event>, history: HistoryReport, report: Report) {
    && Reviews(cfg, db.refs, events, history) && !history.applied && history.conflicts == {} && !history.shared
    && (history.matched == 0 <==> forall id :: !Untagged(db.refs, id))
    && (forall e :: e in events ==> !WrongEmitter(cfg, e))
    && Reports(cfg, scope, WithHistory(cfg, db, events), events, report)
  }

  class Restore {
    const cfg: Config
    const scope: string
    var committed: Db

    constructor (cfg: Config, scope: string, db: Db)
      ensures this.cfg == cfg && this.scope == scope && committed == db
    {
      this.cfg, this.scope, this.committed := cfg, scope, db;
    }

    /** The history tagged and the identity plan previewed in one uncommitted session, or the conflict that stops it. */
    method Preview(session: Store, events: seq<Event>) returns (blocked: Option<string>, history: HistoryReport, report: Report)
      requires session.cfg == cfg && session.scope == scope
      modifies session
      ensures blocked.Some? ==> !Acceptable(cfg, scope, old(session.Rows()), events)
      ensures blocked.Some? ==>
        blocked.value == if Clean(cfg, old(session.refs), events) then "unexpected registration emitter" else "reconciliation_conflicts"
      ensures blocked.Some? && Clean(cfg, old(session.refs), events) ==> exists e :: e in events && WrongEmitter(cfg, e)
      ensures blocked.None? ==>
        && session.Rows() == WithHistory(cfg, old(session.Rows()), events)
        && Reviewable(cfg, scope, old(session.Rows()), events, history, report)
    {
      report := Report(false, map[], {}, {});
      var reviewed := ReconcileHistory(session, events, false);
      history := reviewed.value;
      if history.conflicts != {} || history.shared {
        NotClean(cfg, session.refs, events, history);
        return Some("reconciliation_conflicts"), history, report;
      }
      var tagged := ReconcileHistory(session, events, true);
      if tagged.Err? { return Some("reconciliation_conflicts"), history, report; }
      var identity;
      ghost var w;
      identity, w := session.Reconcile(events, false);
      if identity.Err? { return Some("unexpected registration emitter"), history, report; }
      report := identity.value;
      blocked := None;
    }

    /** `reconcile_private`. `header` is the final read of the target block, None when its retries ran out. The database
        ends as it was, or with exactly the reviewed plan applied; the latter just when nothing conflicts, there is
        something to apply, the approved digest is this plan's, and the target block is still canonical. */
    method ReconcilePrivate(events: seq<Event>, context: Context, approved: Option<Plan>, header: Option<Hash>)
      returns (r: Result, ghost merges: map<Key, Merge>, ghost w: Rewrite)
      modifies this
      ensures !(r.Reviewed? && r.applied) ==> committed == old(committed)
      ensures r.Reviewed? && r.applied ==> Restored(cfg, scope, old(committed), events, merges, w, committed)
      ensures Answers(cfg, scope, old(committed), events, context, approved, header, r)
      ensures r.Blocked? && Acceptable(cfg, scope, old(committed), events) ==>
        r.state == if header.None? then "reconciliation_rpc_failed" else "canonical_target_mismatch"
      ensures r.Blocked? && !Acceptable(cfg, scope, old(committed), events) ==>
        r.state == if Clean(cfg, old(committed).refs, events) && exists e :: e in events && WrongEmitter(cfg, e)
                   then "unexpected registration emitter" else "reconciliation_conflicts"
    {
      merges, w := map[], Rewrite(map[], map[]);
      var session := new Store(cfg, scope, committed);
      var blocked, history, report := Preview(session, events);
      if blocked.Some? { return Blocked(blocked.value), merges, w; }
      var plan := Plan(context, history, PublishedChanges(report.changes), report.rowConflicts, report.conflicts);
      PlanReported(cfg, scope, committed, events, context, history, report, plan);
      if report.rowConflicts != {} || report.conflicts != {} {
        Conflicts(cfg, scope, session.Rows(), events, report);
        return Blocked("reconciliation_conflicts"), merges, w;
      }
      var due := history.matched > 0 || report.changes != map[];
      NothingInTheWay(cfg, scope, committed, events, history, report);
      if due && approved != Some(plan) { return ReviewRequired(plan), merges, w; }
      if due {
        var identity;
        identity, w := session.Reconcile(events, true);
        if header.None? { return Blocked("reconciliation_rpc_failed"), merges, w; }
        if header != Some(context.targetHash) { return Blocked("canonical_target_mismatch"), merges, w; }
        merges := identity.value.changes;
        committed := session.Rows();
      }
      r := Reviewed(plan, due);
    }
  }

  lemma PlanReported(cfg: Config, scope: string, db: Db, events: seq<Event>, context: Context, history: HistoryReport, report: Report, plan: Plan)
    requires Reviewable(cfg, scope, db, events, history, report)
    requires plan == Plan(context, history, PublishedChanges(report.changes), report.rowConflicts, report.conflicts)
    ensures PlanOf(cfg, scope, db, events, context, plan)
  {
    assert Publishes(cfg, scope, WithHistory(cfg, db, events), events, report, plan);
  }

  lemma NothingInTheWay(cfg: Config, scope: string, db: Db, events: seq<Event>, history: HistoryReport, report: Report)
    requires Reviewable(cfg, scope, db, events, history, report) && report.rowConflicts == {} && report.conflicts == {}
    ensures Acceptable(cfg, scope, db, events)
    ensures history.matched > 0 || report.changes != map[] <==> Due(cfg, scope, db, events)
  {
    CleanPlan(cfg, db.refs, events, history);
    NoConflicts(cfg, scope, WithHistory(cfg, db, events), events, report);
    DueExactly(cfg, scope, db, events, history, report);
  }

  lemma NotClean(cfg: Config, refs: map<RefId, Ref>, events: seq<Event>, report: HistoryReport)
    requires Reviews(cfg, refs, events, report) && (report.conflicts != {} || report.shared)
    ensures !Clean(cfg, refs, events)
  {
    assert report.conflicts != {} ==> exists id :: id in report.conflicts;
  }

  lemma KeysTagged(cfg: Config, db: Db, events: seq<Event>)
    ensures Keys(cfg, WithHistory(cfg, db, events)) == Keys(cfg, db)
  {}

  lemma Conflicts(cfg: Config, scope: string, db: Db, events: seq<Event>, report: Report)
    requires Reports(cfg, scope, db, events, report) && (report.rowConflicts != {} || report.conflicts != {})
    ensures !ConflictFree(cfg, scope, db, events)
  {
    assert report.conflicts != {} ==> exists k :: k in report.conflicts;
  }

  lemma NoConflicts(cfg: Config, scope: string, db: Db, events: seq<Event>, report: Report)
    requires Reports(cfg, scope, db, events, report) && report.rowConflicts == {} && report.conflicts == {}
    ensures ConflictFree(cfg, scope, db, events)
  {}

  lemma DueExactly(cfg: Config, scope: string, db: Db, events: seq<Event>, history: HistoryReport, report: Report)
    requires Reports(cfg, scope, WithHistory(cfg, db, events), events, report)
    requires history.conflicts == {} && (history.matched == 0 && history.conflicts == {} <==> forall id :: !Untagged(db.refs, id))
    ensures history.matched > 0 || report.changes != map[] <==> Due(cfg, scope, db, events)
  {
    KeysTagged(cfg, db, events);
    assert report.changes != map[] ==> exists k :: k in report.changes;
  }

  // ---- the plan is determined ----

  lemma OneReport(cfg: Config, scope: string, db: Db, events: seq<Event>, r: Report, t: Report)
    requires Reports(cfg, scope, db, events, r) && Reports(cfg, scope, db, events, t)
    ensures r.changes == t.changes && r.rowConflicts == t.rowConflicts && r.conflicts == t.conflicts
  {
    PlanUnique(cfg, scope, db, events, r.changes, t.changes);
    assert forall k :: k in r.conflicts <==> k in t.conflicts;
  }

  lemma OneReview(cfg: Config, refs: map<RefId, Ref>, events: seq<Event>, r: HistoryReport, t: HistoryReport)
    requires Reviews(cfg, refs, events, r) && Reviews(cfg, refs, events, t) && r.applied == t.applied
    ensures r == t
  {
    assert forall id :: id in r.conflicts <==> id in t.conflicts;
  }

  /** A database, events and context have one plan, so one digest can be approved. */
  lemma OnePlan(cfg: Config, scope: string, db: Db, events: seq<Event>, context: Context, p: Plan, q: Plan)
    requires PlanOf(cfg, scope, db, events, context, p) && PlanOf(cfg, scope, db, events, context, q)
    ensures p == q
  {
    OneReview(cfg, db.refs, events, p.history, q.history);
    var tagged := WithHistory(cfg, db, events);
    var r :| Publishes(cfg, scope, tagged, events, r, p);
    var t :| Publishes(cfg, scope, tagged, events, t, q);
    OneReport(cfg, scope, tagged, events, r, t);
  }

  /** Approving the digest that a review returned applies that plan, if the target block is still canonical; no other
      approval does. */
  lemma ApprovalApplies(cfg: Config, scope: string, db: Db, events: seq<Event>, context: Context,
                        before: Option<Plan>, seen: Option<Hash>, review: Result, approved: Option<Plan>, answer: Result)
    requires Answers(cfg, scope, db, events, context, before, seen, review) && review.ReviewRequired?
    requires Answers(cfg, scope, db, events, context, approved, Some(context.targetHash), answer)
    ensures answer == if approved == Some(review.digest) then Reviewed(review.digest, true) else ReviewRequired(review.digest)
  {
    if answer.Reviewed? || answer.ReviewRequired? {
      OnePlan(cfg, scope, db, events, context, review.digest, answer.digest);
    }
  }

  // ---- what the digest tells about the history ----

  /** A plan without history conflicts counts every untagged row as a match. */
  lemma CleanPlan(cfg: Config, refs: map<RefId, Ref>, events: seq<Event>, report: HistoryReport)
    requires Reviews(cfg, refs, events, report) && report.conflicts == {} && !report.shared
    ensures Clean(cfg, refs, events) && report.matched == |UntaggedRows(refs)|
  {
    forall id | Untagged(refs, id) ensures Attributable(cfg, refs, events, id) {
      assert id !in report.conflicts;
    }
    assert MatchedRows(cfg, refs, events) == UntaggedRows(refs);
  }

  /** Two databases with one digest and the same untagged ids are tagged alike exactly when each untagged row reads alike
      in both: the digest fixes how many rows are tagged, not with which logs. */
  lemma DigestExactly(cfg: Config, scope: string, a: Db, b: Db, events: seq<Event>, context: Context, plan: Plan)
    requires PlanOf(cfg, scope, a, events, context, plan) && PlanOf(cfg, scope, b, events, context, plan)
    requires plan.history.conflicts == {} && !plan.history.shared && OneEventPerId(events)
    ensures |UntaggedRows(a.refs)| == |UntaggedRows(b.refs)| == plan.history.matched
    ensures UntaggedRows(a.refs) == UntaggedRows(b.refs) ==>
      ((forall id :: id in UntaggedRows(a.refs) ==> Attributed(cfg, a.refs, events)[id].source == Attributed(cfg, b.refs, events)[id].source) <==>
       (forall id :: id in UntaggedRows(a.refs) ==> ReadAlike(cfg, a.refs[id], b.refs[id])))
  {
    CleanPlan(cfg, a.refs, events, plan.history);
    CleanPlan(cfg, b.refs, events, plan.history);
    forall id | id in UntaggedRows(a.refs) && id in UntaggedRows(b.refs)
      ensures Attributed(cfg, a.refs, events)[id].source == Attributed(cfg, b.refs, events)[id].source <==> ReadAlike(cfg, a.refs[id], b.refs[id])
    {
      SameTagExactly(cfg, a.refs, b.refs, events, id);
    }
  }

  // ---- the projector after a restore ----

  lemma SameGroups(cfg: Config, db: Db, events: seq<Event>, k: Key)
    ensures Group(cfg, WithHistory(cfg, db, events), k) == Group(cfg, db, k)
    ensures Foreign(cfg, WithHistory(cfg, db, events), k) == Foreign(cfg, db, k)
  {}

  lemma UnmovedOwner(cfg: Config, scope: string, db: Db, events: seq<Event>, w: Rewrite, plan: map<Key, Merge>, k: Key, id: string)
    requires Roles(cfg, db, plan, w) && InGroup(cfg, db, k, id) && k !in plan
    requires !Conflicted(cfg, scope, db, events, k) && !Changes(cfg, scope, db, events, k)
    ensures Group(cfg, db, k) == {id} && Redirect(w.moves, id) == id
  {
    assert id in w.moves ==> Moved(cfg, db, plan, w, id);
    UnchangedSingle(cfg, scope, db, events, k);
    forall x | x in Group(cfg, db, k) ensures x == id { TwoMembers(Group(cfg, db, k), x, id); }
  }

  /** After a clean run a row of the group points to the one row its group is left with. */
  lemma PointsToOwner(cfg: Config, scope: string, db: Db, events: seq<Event>, plan: map<Key, Merge>, w: Rewrite, k: Key, id: string)
    requires Planned(cfg, scope, db, events, plan, w) && ConflictFree(cfg, scope, db, events)
    requires InGroup(cfg, db, k, id)
    ensures Group(cfg, After(db, w), k) == {Redirect(w.moves, id)}
  {
    PlannedRoles(cfg, scope, db, events, plan, w);
    GroupAfter(cfg, db, plan, w, k);
    if k in plan {
      RedirectGroup(cfg, db, plan, w, k, id);
    } else {
      KeyOfMember(cfg, db, k, id);
      UnmovedOwner(cfg, scope, db, events, w, plan, k, id);
    }
  }

  lemma OwnerFound(cfg: Config, scope: string, db: Db, events: seq<Event>, plan: map<Key, Merge>, w: Rewrite, k: Key, id: string)
    requires Planned(cfg, scope, db, events, plan, w) && ConflictFree(cfg, scope, db, events)
    requires InGroup(cfg, db, k, id)
    ensures Claimants(cfg, After(db, w).products, k) == {Redirect(w.moves, id)} + Foreign(cfg, db, k)
  {
    LookupExactly(cfg, scope, db, events, plan, w, k);
    PointsToOwner(cfg, scope, db, events, plan, w, k, id);
  }

  /** The log the row `after` was tagged with, and what projecting it makes of the history. */
  ghost predicate ProjectsOver(before: Ref, after: Ref, history: map<Slot, HistoryRow>, k: Key, e: Event) {
    && e.log.product == k && after.source == Some(IdOf(e))
    && Recorded(history, after.productId, e) == if EmptyNote(before) then Err(DIFFERS) else Ok(history)
  }

  lemma TaggedOver(cfg: Config, before: map<RefId, Ref>, refs: map<RefId, Ref>, events: seq<Event>, moves: map<string, string>,
                   history: map<Slot, HistoryRow>, id: RefId) returns (e: Event)
    requires Clean(cfg, before, events) && Untagged(before, id)
    requires refs == RefsAfter(Attributed(cfg, before, events), moves) && Holds(refs, history)
    ensures e in events && id in refs && Explains(cfg, id, before[id], e) && ProjectsOver(before[id], refs[id], history, e.log.product, e)
  {
    AttributionSound(cfg, before, events, id);
    e :| e in events && Explains(cfg, id, before[id], e) && Attributed(cfg, before, events)[id].source == Some(IdOf(e));
    ProjectedOverTag(cfg, id, before[id], refs, history, e);
  }

  /** After a restore, the product the indexer's lookup gives for the log of a newly tagged row is the product that row
      points to, unless another chain's row claims the key too; and projecting the log over the restored history accepts
      the row, exactly when its notes were not stored as an empty string. */
  lemma RestoredRowsAccepted(cfg: Config, scope: string, db: Db, events: seq<Event>, merges: map<Key, Merge>, w: Rewrite, after: Db,
                             history: map<Slot, HistoryRow>, id: RefId, k: Key)
    requires Acceptable(cfg, scope, db, events) && Restored(cfg, scope, db, events, merges, w, after)
    requires Untagged(db.refs, id) && InGroup(cfg, db, k, db.refs[id].productId) && Holds(after.refs, history)
    ensures id in after.refs && Claimants(cfg, after.products, k) == {after.refs[id].productId} + Foreign(cfg, db, k)
    ensures exists e :: e in events && ProjectsOver(db.refs[id], after.refs[id], history, k, e)
  {
    SameGroups(cfg, db, events, k);
    OwnerFound(cfg, scope, WithHistory(cfg, db, events), events, merges, w, k, db.refs[id].productId);
    var e := TaggedOver(cfg, db.refs, after.refs, events, w.moves, history, id);
    assert ProjectsOver(db.refs[id], after.refs[id], history, k, e);
  }
}
