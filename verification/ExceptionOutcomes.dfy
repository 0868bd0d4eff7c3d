/** What a condition holds and what an evaluation writes on every row, column by column, said of the records and their events. */
module ExceptionOutcomes {
  import opened Prelude
  import opened ExceptionRules
  import opened ExceptionEpisodes
  import opened ExceptionWorker

  // ---- the content of a condition ----

  /** Nothing is reported of a shipment outside the scope or without a registration, nor, once its events are clear, of one that
      was delivered. */
  lemma SilentShipment(r: Record, policy: Policy, scope: string, now: Time)
    ensures !r.shipment.inScope || (forall e :: e in r.events && e.detail == Registered ==> e.scope != scope) ==>
      Conditions(r, policy, scope, now) == Some(map[])
    ensures
      && (forall e :: e in r.events && (e.detail.Checkpoint? || e.detail.Transfer? || e.detail.Delivery?) ==> e.time.Some? && e.time.value <= now)
      && (exists e :: e in r.events && (e.detail.Delivery? || (e.detail.Checkpoint? && e.detail.status == "3")))
      ==> Conditions(r, policy, scope, now) == Some(map[])
  {
    FirstTimeExact(r.events, Delivers);
    if e :| e in r.events && (e.detail.Delivery? || (e.detail.Checkpoint? && e.detail.status == "3")) { assert Delivers(e); }
  }

  /** The event is of a kind whose time the rules read. */
  predicate Read(e: Event) {
    e.detail.Checkpoint? || e.detail.Transfer? || e.detail.Delivery?
  }

  /** The last event of its kind in a list. */
  predicate Last(events: seq<Event>, i: nat, transfer: bool) {
    && i < |events| && (if transfer then events[i].detail.Transfer? else events[i].detail.Checkpoint?)
    && forall j :: i < j < |events| ==> if transfer then !events[j].detail.Transfer? else !events[j].detail.Checkpoint?
  }

  /** Evidence is uncertain exactly when a registered shipment in scope has an event without a readable time or from the future, or is
      undelivered, its custody is followed up, and its last transfer went to nobody. */
  lemma UncertainPlainly(r: Record, policy: Policy, scope: string, now: Time)
    ensures Conditions(r, policy, scope, now).None? <==>
      && r.shipment.inScope && (exists e :: e in r.events && e.detail == Registered && e.scope == scope)
      && (|| (exists e :: e in r.events && Read(e) && (e.time.None? || e.time.value > now))
          || (&& (forall e :: e in r.events ==> !e.detail.Delivery? && !(e.detail.Checkpoint? && e.detail.status == "3"))
              && policy.custodyHours.Some?
              && exists i: nat :: Last(r.events, i, true)
                   && Lower(r.events[i].detail.recipient) in {"", "0x0000000000000000000000000000000000000000"}))
  {
    UncertainExactly(r, policy, scope, now);
    assert Established(r, scope) <==> r.shipment.inScope && exists e :: e in r.events && e.detail == Registered && e.scope == scope;
    assert (exists e :: e in r.events && Unclear(e, now)) <==> exists e :: e in r.events && Read(e) && (e.time.None? || e.time.value > now);
    forall i: nat ensures Last(r.events, i, true) <==> LatestTransfer(r, i) {}
    if forall e :: e in r.events && Read(e) ==> e.time.Some? {
      assert forall e :: e in r.events && Delivers(e) ==> Read(e);
    }
  }

  /** What is due for a registered, undelivered shipment in scope: a planned arrival, recorded by the departure, that has passed; a stop
      that lasted its interval; an interval without a checkpoint after the departure; an interval in which the recipient of the last
      transfer recorded no checkpoint. */
  lemma DuePlainly(r: Record, policy: Policy, scope: string, now: Time, m: map<Kind, Condition>)
    requires Conditions(r, policy, scope, now) == Some(m) && r.shipment.inScope
    requires exists e :: e in r.events && e.detail == Registered && e.scope == scope
    requires forall e :: e in r.events ==> !e.detail.Delivery? && !(e.detail.Checkpoint? && e.detail.status == "3")
    ensures ArrivalOverdue in m <==>
      && policy.arrivalEnabled && r.shipment.plannedArrival.Some? && r.shipment.planRecorded.Some? && r.shipment.plannedArrival.value <= now
      && exists i: nat :: i < |r.events| && r.events[i].detail.Checkpoint? && r.events[i].detail.status == "1"
           && (forall j :: 0 <= j < i ==> !(r.events[j].detail.Checkpoint? && r.events[j].detail.status == "1"))
           && r.events[i].time.Some? && r.shipment.planRecorded.value <= r.events[i].time.value
    ensures CheckpointWait in m <==>
      && policy.checkpointHours.Some?
      && exists i: nat :: Last(r.events, i, false) && r.events[i].detail.status == "2"
           && r.events[i].time.Some? && r.events[i].time.value + policy.checkpointHours.value * 3600.0 <= now
    ensures CheckpointInactivity in m <==>
      && policy.inactivityHours.Some? && (exists e :: e in r.events && e.detail.Checkpoint? && e.detail.status == "1")
      && exists i: nat :: Last(r.events, i, false) && r.events[i].detail.status != "2"
           && r.events[i].time.Some? && r.events[i].time.value + policy.inactivityHours.value * 3600.0 <= now
    ensures CustodyFollowup in m <==>
      && policy.custodyHours.Some?
      && exists i: nat :: Last(r.events, i, true)
           && r.events[i].time.Some? && r.events[i].time.value + policy.custodyHours.value * 3600.0 <= now
           && forall j :: i < j < |r.events| && r.events[j].detail.Checkpoint? ==>
                Lower(r.events[j].detail.handler) != Lower(r.events[i].detail.recipient)
  {
    assert Established(r, scope);
    FirstTimeExact(r.events, Delivers);
    ArrivalOverdueExactly(r, policy, scope, now, m);
    WaitOverdueExactly(r, policy, scope, now, m);
    InactivityOverdueExactly(r, policy, scope, now, m);
    CustodyOverdueExactly(r, policy, scope, now, m);
    forall i: nat ensures Last(r.events, i, true) <==> LatestTransfer(r, i) {}
    forall i: nat ensures Last(r.events, i, false) <==> LatestCheckpoint(r, i) {}
    forall i: nat ensures FirstDeparture(r, i) <==>
      && i < |r.events| && r.events[i].detail.Checkpoint? && r.events[i].detail.status == "1"
      && forall j :: 0 <= j < i ==> !(r.events[j].detail.Checkpoint? && r.events[j].detail.status == "1") {}
    assert (exists e :: e in r.events && Departs(e)) <==> exists e :: e in r.events && e.detail.Checkpoint? && e.detail.status == "1";
  }

  /** An overdue arrival is dated by the plan and anchored in the first departure; no threshold enters it. */
  lemma ArrivalContent(r: Record, policy: Policy, scope: string, now: Time, m: map<Kind, Condition>)
    requires Conditions(r, policy, scope, now) == Some(m) && ArrivalOverdue in m
    ensures r.shipment.plannedArrival.Some?
    ensures exists i: nat ::
      && FirstDeparture(r, i)
      && var e, due := r.events[i], r.shipment.plannedArrival.value;
         m[ArrivalOverdue] == Condition(Fingerprint(ArrivalOverdue, e.occurrence, None, due), due,
                                        Proof(r.shipment.productId, e.id, e.occurrence, None, policy.revision, None, None))
  {
    CheckpointPersists(r, policy, now, now);
    CustodyPersists(r, policy, now, now);
    assert FirstDeparture(r, FirstIndex(r.events, Departs).value);
  }

  /** A wait at a checkpoint and a journey without activity are dated from the latest checkpoint by their own interval, and name
      its location. */
  lemma CheckpointContent(r: Record, policy: Policy, scope: string, now: Time, m: map<Kind, Condition>, k: Kind)
    requires Conditions(r, policy, scope, now) == Some(m) && k in m && k in {CheckpointWait, CheckpointInactivity}
    ensures (if k == CheckpointWait then policy.checkpointHours else policy.inactivityHours).Some?
    ensures exists i: nat ::
      && LatestCheckpoint(r, i) && r.events[i].time.Some?
      && var e, hours := r.events[i], if k == CheckpointWait then policy.checkpointHours else policy.inactivityHours;
         var due := e.time.value + hours.value * 3600.0;
         && (e.detail.status == "2" <==> k == CheckpointWait)
         && m[k] == Condition(Fingerprint(k, e.occurrence, hours, due), due,
                              Proof(r.shipment.productId, e.id, e.occurrence, hours, policy.revision, Some(e.detail.location), None))
  {
    CustodyPersists(r, policy, now, now);
    ArrivalPersists(r, policy, now, now);
    LatestCheckpointKnown(r, now);
    assert LatestCheckpoint(r, LastIndex(r.events, IsCheckpoint).value);
  }

  /** A missing follow-up is dated from the latest transfer by the custody interval, and names the recipient. */
  lemma CustodyContent(r: Record, policy: Policy, scope: string, now: Time, m: map<Kind, Condition>)
    requires Conditions(r, policy, scope, now) == Some(m) && CustodyFollowup in m
    ensures policy.custodyHours.Some?
    ensures exists i: nat ::
      && LatestTransfer(r, i) && r.events[i].time.Some?
      && var e := r.events[i];
         var due := e.time.value + policy.custodyHours.value * 3600.0;
         m[CustodyFollowup] == Condition(Fingerprint(CustodyFollowup, e.occurrence, policy.custodyHours, due), due,
                                         Proof(r.shipment.productId, e.id, e.occurrence, policy.custodyHours, policy.revision, None,
                                               Some(Lower(e.detail.recipient))))
  {
    CheckpointPersists(r, policy, now, now);
    ArrivalPersists(r, policy, now, now);
    var i := LastIndex(r.events, IsTransfer).value;
    assert r.events[i] in r.events && !Unclear(r.events[i], now);
    assert LatestTransfer(r, i);
  }

  /** A shipment without a policy of its own is judged after a day in transit, a day at a checkpoint and six hours in new hands. */
  lemma DefaultPolicy(w: World, r: Record)
    ensures ConditionsOf(w, r) ==
      Conditions(r, if r.shipment.id in w.policies then w.policies[r.shipment.id] else Policy(true, Some(24.0), Some(24.0), Some(6.0), 0),
                 w.scope, w.now)
  {}

  // ---- the rows of the table ----

  /** What becomes of a row whose shipment has a record. A resolved row stays. An open one stays while the evidence is uncertain; it is
      observed again while its condition holds; it is resolved as replaced if the condition has another fingerprint now, and if there
      is no condition, as cleared when its anchor is still among the events, as withdrawn when it is not. */
  lemma RowOutcome(rows: seq<Row>, w: World, i: nat, r: Record)
    requires Distinct(w.records) && i < |rows| && r in w.records && r.shipment.id == rows[i].shipment
    ensures i < |Evaluated(rows, w)|
    ensures var was, now := rows[i], Evaluated(rows, w)[i];
      match ConditionsOf(w, r)
      case None => now == was
      case Some(conds) =>
        if was.resolvedAt.Some? then now == was
        else if was.kind in conds && conds[was.kind].fingerprint == was.fingerprint then
          now == was.(lastObserved := w.now, proof := conds[was.kind].proof)
        else if was.kind in conds then now == was.(resolvedAt := Some(w.now), resolution := Some(ConditionReplaced))
        else if exists e :: e in r.events && e.occurrence == was.proof.occurrence then
          now == was.(resolvedAt := Some(w.now), resolution := Some(ConditionCleared))
        else now == was.(resolvedAt := Some(w.now), resolution := Some(EvidenceWithdrawn))
  {
    RecordLookup(w, r, rows[i].kind);
    if ConditionsOf(w, r).Some? { CertainIsCertain(w, r); }
    OneRecord(w, r);
  }

  lemma OneRecord(w: World, r: Record)
    requires Distinct(w.records) && r in w.records
    ensures forall x :: x in w.records && x.shipment.id == r.shipment.id ==> x == r
  {}

  /** An open row whose shipment left the dataset is resolved as withdrawn. */
  lemma AbsentOutcome(rows: seq<Row>, w: World, i: nat)
    requires Distinct(w.records) && i < |rows| && forall r :: r in w.records ==> r.shipment.id != rows[i].shipment
    ensures i < |Evaluated(rows, w)|
    ensures var was, now := rows[i], Evaluated(rows, w)[i];
      now == if was.resolvedAt.Some? then was else was.(resolvedAt := Some(w.now), resolution := Some(EvidenceWithdrawn))
  {
    ForeignLookup(w, SlotOf(rows[i]));
  }

  /** So every row closed by an evaluation carries its time, and the resolution says why. */
  lemma ClosedExactly(rows: seq<Row>, w: World, i: nat)
    requires Distinct(w.records) && i < |rows| && rows[i].resolvedAt.None?
    requires i < |Evaluated(rows, w)| && Evaluated(rows, w)[i].resolvedAt.Some?
    ensures var was, now := rows[i], Evaluated(rows, w)[i];
      && now.resolvedAt == Some(w.now)
      && (now.resolution == Some(ConditionReplaced) <==>
            exists r :: r in w.records && r.shipment.id == was.shipment && ConditionsOf(w, r).Some?
                     && was.kind in ConditionsOf(w, r).value && ConditionsOf(w, r).value[was.kind].fingerprint != was.fingerprint)
      && (now.resolution == Some(ConditionCleared) <==>
            exists r, e :: r in w.records && r.shipment.id == was.shipment && ConditionsOf(w, r).Some?
                        && was.kind !in ConditionsOf(w, r).value && e in r.events && e.occurrence == was.proof.occurrence)
      && (now.resolution == Some(EvidenceWithdrawn) <==>
            forall r :: r in w.records && r.shipment.id == was.shipment ==>
              ConditionsOf(w, r).Some? && was.kind !in ConditionsOf(w, r).value
              && forall e :: e in r.events ==> e.occurrence != was.proof.occurrence)
  {
    if r :| r in w.records && r.shipment.id == rows[i].shipment {
      RowOutcome(rows, w, i, r);
      OneRecord(w, r);
    } else {
      AbsentOutcome(rows, w, i);
    }
  }

  /** A row that an evaluation opens starts an episode of a condition of some record, first and last observed now, which no open row
      of its slot had been following. */
  lemma OpenedExactly(rows: seq<Row>, w: World, i: nat)
    requires Distinct(w.records) && |rows| <= i < |Evaluated(rows, w)|
    ensures exists r ::
      && r in w.records && ConditionsOf(w, r).Some?
      && var row, conds := Evaluated(rows, w)[i], ConditionsOf(w, r).value;
         && row.shipment == r.shipment.id && row.kind in conds
         && row == Row(row.shipment, row.kind, conds[row.kind].fingerprint, conds[row.kind].triggeredAt, w.now, w.now, None, None, None,
                       conds[row.kind].proof)
         && forall j :: 0 <= j < |rows| && rows[j].resolvedAt.None? && rows[j].shipment == row.shipment && rows[j].kind == row.kind ==>
              rows[j].fingerprint != row.fingerprint
  {
    var list, row := Expected(w, |w.records|), Evaluated(rows, w)[i];
    assert row in Opened(rows, list, w.now);
    OpenedExact(rows, list, w.now, row);
    var e :| e in list && !Continues(rows, e) && row == Started(e, w.now);
    ExpectedExact(w, |w.records|, e);
    var n: nat :| n < |w.records| && FromRecord(w, n, e);
    var r := w.records[n];
    assert r in w.records;
    assert forall j :: 0 <= j < |rows| && rows[j].resolvedAt.None? && rows[j].shipment == row.shipment && rows[j].kind == row.kind ==>
      SlotOf(rows[j]) == e.slot && rows[j].Open();
  }
}
