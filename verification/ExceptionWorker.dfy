/** The evaluation as the worker runs it, and what its rows satisfy over every run. */
module ExceptionWorker {
  import opened Prelude
  import opened ExceptionRules
  import opened ExceptionEpisodes

  // ---- laws of one evaluation ----

  lemma {:induction false} OpenedExact(rows: seq<Row>, list: seq<Entry>, now: Time, row: Row)
    ensures row in Opened(rows, list, now) <==> exists e :: e in list && !Continues(rows, e) && row == Started(e, now)
  {
    if list != [] {
      var early, last := list[..|list| - 1], list[|list| - 1];
      OpenedExact(rows, early, now, row);
      assert list == early + [last];
    }
  }

  lemma {:induction false} OpenedDistinct(rows: seq<Row>, list: seq<Entry>, now: Time)
    requires DistinctSlots(list)
    ensures OneOpen(Opened(rows, list, now))
  {
    if list != [] {
      var early, last := list[..|list| - 1], list[|list| - 1];
      OpenedDistinct(rows, early, now);
      assert list == early + [last];
      var started := Opened(rows, early, now);
      forall i | 0 <= i < |started| ensures SlotOf(started[i]) != last.slot {
        assert started[i] in started;
        OpenedExact(rows, early, now, started[i]);
        var e :| e in early && !Continues(rows, e) && started[i] == Started(e, now);
        var j :| 0 <= j < |early| && early[j] == e;
        assert list[j].slot != list[|list| - 1].slot;
      }
    }
  }

  /** An open row that stays open still meets a condition with its fingerprint, or its shipment is uncertain. */
  lemma StillOpen(row: Row, list: seq<Entry>, w: World)
    requires Settled(row, list, w).Open()
    ensures row.Open() && SlotOf(Settled(row, list, w)) == SlotOf(row)
    ensures match Lookup(list, SlotOf(row))
      case Some(c) => row.fingerprint == c.fingerprint
      case None => row.shipment in Uncertain(w)
  {}

  /** At most one open row per shipment and kind, again. */
  lemma EvaluatedOneOpen(rows: seq<Row>, w: World)
    requires OneOpen(rows) && Distinct(w.records)
    ensures OneOpen(Evaluated(rows, w))
  {
    var list := Expected(w, |w.records|);
    var all, started := Evaluated(rows, w), Opened(rows, list, w.now);
    ExpectedDistinct(w, |w.records|);
    OpenedDistinct(rows, list, w.now);
    forall i, j | 0 <= i < j < |all| && all[i].Open() && all[j].Open() ensures SlotOf(all[i]) != SlotOf(all[j]) {
      if j < |rows| {
        StillOpen(rows[i], list, w);
        StillOpen(rows[j], list, w);
      } else if i < |rows| {
        StillOpen(rows[i], list, w);
        OldAndNewApart(rows, list, w, i, started[j - |rows|]);
      } else {
        assert all[i] == started[i - |rows|] && all[j] == started[j - |rows|];
      }
    }
  }

  lemma OldAndNewApart(rows: seq<Row>, list: seq<Entry>, w: World, i: nat, row: Row)
    requires i < |rows| && Settled(rows[i], list, w).Open() && DistinctSlots(list)
    requires row in Opened(rows, list, w.now)
    ensures SlotOf(rows[i]) != SlotOf(row)
  {
    StillOpen(rows[i], list, w);
    OpenedExact(rows, list, w.now, row);
    var e :| e in list && !Continues(rows, e) && row == Started(e, w.now);
    LookupExact(list, e.slot, e.condition);
  }

  /** Rows stay in time order, and none is written later than the evaluation. */
  lemma EvaluatedTimely(rows: seq<Row>, w: World, evaluation: Option<Evaluation>, next: Evaluation)
    requires Timely(rows, evaluation) && Distinct(w.records) && next.at == w.now && (evaluation.Some? ==> evaluation.value.at <= w.now)
    ensures Timely(Evaluated(rows, w), Some(next))
  {
    var list := Expected(w, |w.records|);
    var all := Evaluated(rows, w);
    forall i | 0 <= i < |all|
      ensures InOrder(all[i]) && all[i].lastObserved <= next.at && (all[i].resolvedAt.Some? ==> all[i].resolvedAt.value <= next.at)
    {
      if i < |rows| {
        assert all[i] == Settled(rows[i], list, w);
      } else {
        assert all[i] in Opened(rows, list, w.now);
        OpenedExact(rows, list, w.now, all[i]);
        var e :| e in list && !Continues(rows, e) && all[i] == Started(e, w.now);
        EntryDue(w, e);
      }
    }
  }

  lemma EntryDue(w: World, e: Entry)
    requires e in Expected(w, |w.records|)
    ensures e.condition.triggeredAt <= w.now
  {
    ExpectedExact(w, |w.records|, e);
    var i: nat :| i < |w.records| && FromRecord(w, i, e);
    Grounded(w.records[i], PolicyOf(w.policies, w.records[i].shipment.id), w.scope, w.now);
  }

  predicate OpenAt(rows: seq<Row>, i: nat, slot: Slot) {
    i < |rows| && rows[i].Open() && SlotOf(rows[i]) == slot
  }

  /** After an evaluation the open rows of a certain shipment are exactly its conditions, fingerprint for fingerprint. */
  lemma Agreement(rows: seq<Row>, w: World, r: Record, k: Kind)
    requires OneOpen(rows) && Distinct(w.records) && r in w.records && ConditionsOf(w, r).Some?
    ensures var slot, conds := Slot(r.shipment.id, k), ConditionsOf(w, r).value;
      && (k in conds <==> exists i: nat :: OpenAt(Evaluated(rows, w), i, slot))
      && forall i: nat :: OpenAt(Evaluated(rows, w), i, slot) ==>
           k in conds && Evaluated(rows, w)[i].fingerprint == conds[k].fingerprint
           && Evaluated(rows, w)[i].proof == conds[k].proof && Evaluated(rows, w)[i].lastObserved == w.now
  {
    var all, list, slot := Evaluated(rows, w), Expected(w, |w.records|), Slot(r.shipment.id, k);
    var conds := ConditionsOf(w, r).value;
    RecordLookup(w, r, k);
    CertainIsCertain(w, r);
    forall i: nat | OpenAt(all, i, slot)
      ensures k in conds && all[i].fingerprint == conds[k].fingerprint && all[i].proof == conds[k].proof && all[i].lastObserved == w.now
    {
      if i < |rows| {
        StillOpen(rows[i], list, w);
      } else {
        OpenedFrom(rows, w, i);
      }
    }
    if k in conds {
      SomeoneOpen(rows, w, Entry(slot, conds[k]));
    }
  }

  lemma CertainIsCertain(w: World, r: Record)
    requires Distinct(w.records) && r in w.records && ConditionsOf(w, r).Some?
    ensures r.shipment.id !in Uncertain(w)
  {}

  /** A row opened by an evaluation is the start of the episode its slot's condition describes. */
  lemma OpenedFrom(rows: seq<Row>, w: World, i: nat)
    requires Distinct(w.records) && |rows| <= i < |Evaluated(rows, w)|
    ensures var row := Evaluated(rows, w)[i];
      var found := Lookup(Expected(w, |w.records|), SlotOf(row));
      found.Some? && row == Started(Entry(SlotOf(row), found.value), w.now)
  {
    var list, row := Expected(w, |w.records|), Evaluated(rows, w)[i];
    assert row in Opened(rows, list, w.now);
    OpenedExact(rows, list, w.now, row);
    var e :| e in list && !Continues(rows, e) && row == Started(e, w.now);
    ExpectedDistinct(w, |w.records|);
    LookupExact(list, e.slot, e.condition);
  }

  lemma SomeoneOpen(rows: seq<Row>, w: World, e: Entry)
    requires Lookup(Expected(w, |w.records|), e.slot) == Some(e.condition) && Distinct(w.records)
    ensures exists i: nat :: OpenAt(Evaluated(rows, w), i, e.slot)
  {
    var all, list := Evaluated(rows, w), Expected(w, |w.records|);
    if Continues(rows, e) {
      var i :| 0 <= i < |rows| && rows[i].Open() && SlotOf(rows[i]) == e.slot && rows[i].fingerprint == e.condition.fingerprint;
      assert OpenAt(all, i, e.slot);
    } else {
      var started := Opened(rows, list, w.now);
      ExpectedDistinct(w, |w.records|);
      LookupExact(list, e.slot, e.condition);
      OpenedExact(rows, list, w.now, Started(e, w.now));
      var j :| 0 <= j < |started| && started[j] == Started(e, w.now);
      assert OpenAt(all, |rows| + j, e.slot);
    }
  }

  /** Uncertain evidence freezes a shipment: its open rows are untouched and none is added. */
  lemma UncertainFrozen(rows: seq<Row>, w: World, r: Record, i: nat)
    requires Distinct(w.records) && r in w.records && ConditionsOf(w, r).None? && i < |Evaluated(rows, w)|
    requires Evaluated(rows, w)[i].shipment == r.shipment.id
    ensures i < |rows| && Evaluated(rows, w)[i] == rows[i]
  {
    var row := Evaluated(rows, w)[i];
    RecordLookup(w, r, row.kind);
    if i >= |rows| {
      OpenedFrom(rows, w, i);
    }
  }

  /** A shipment that left the dataset has no open row. */
  lemma AbsentClosed(rows: seq<Row>, w: World, i: nat)
    requires Distinct(w.records) && i < |Evaluated(rows, w)|
    requires forall r :: r in w.records ==> r.shipment.id != Evaluated(rows, w)[i].shipment
    ensures !Evaluated(rows, w)[i].Open()
  {
    ForeignLookup(w, SlotOf(Evaluated(rows, w)[i]));
    if i >= |rows| {
      OpenedFrom(rows, w, i);
    }
  }

  /** No row is removed, a resolved row never changes, and a row keeps its episode, first observation and acknowledgement. */
  lemma HistoryKept(rows: seq<Row>, w: World, i: nat)
    requires i < |rows|
    ensures i < |Evaluated(rows, w)|
    ensures var was, row := rows[i], Evaluated(rows, w)[i];
      && (!was.Open() ==> row == was)
      && SlotOf(row) == SlotOf(was) && row.fingerprint == was.fingerprint && row.triggeredAt == was.triggeredAt
      && row.firstObserved == was.firstObserved && row.acknowledged == was.acknowledged
  {}

  /** Re-evaluating the same events and policy later never replaces or resolves the rows of a shipment that was certain:
      they are only observed again. */
  lemma EpisodesStable(rows: seq<Row>, w: World, later: Time, r: Record, i: nat)
    requires OneOpen(rows) && Distinct(w.records) && w.now <= later && r in w.records && ConditionsOf(w, r).Some?
    requires i < |Evaluated(rows, w)| && Evaluated(rows, w)[i].Open() && Evaluated(rows, w)[i].shipment == r.shipment.id
    ensures Evaluated(Evaluated(rows, w), w.(now := later))[i] == Evaluated(rows, w)[i].(lastObserved := later)
  {
    var once, again := Evaluated(rows, w), w.(now := later);
    var row := once[i];
    Agreement(rows, w, r, row.kind);
    assert OpenAt(once, i, Slot(r.shipment.id, row.kind));
    Persistent(r, PolicyOf(w.policies, r.shipment.id), w.scope, w.now, later);
    RecordLookup(again, r, row.kind);
  }

  // ---- the evaluation ----

  class Evaluator {
    var rows: seq<Row>
    var evaluation: Option<Evaluation>

    ghost predicate Valid()
      reads this
    {
      OneOpen(rows) && Timely(rows, evaluation)
    }

    constructor ()
      ensures Valid() && rows == [] && evaluation == None
    {
      rows, evaluation := [], None;
    }

    /** The open rows by shipment and kind. */
    method Active() returns (active: map<Slot, nat>)
      requires OneOpen(rows)
      ensures forall slot :: slot in active ==> OpenAt(rows, active[slot], slot)
      ensures forall i :: 0 <= i < |rows| && rows[i].Open() ==> SlotOf(rows[i]) in active && active[SlotOf(rows[i])] == i
    {
      active := map[];
      var i := 0;
      while i < |rows|
        invariant 0 <= i <= |rows|
        invariant forall slot :: slot in active ==> active[slot] < i && OpenAt(rows, active[slot], slot)
        invariant forall j :: 0 <= j < i && rows[j].Open() ==> SlotOf(rows[j]) in active && active[SlotOf(rows[j])] == j
      {
        if rows[i].Open() { active := active[SlotOf(rows[i]) := i]; }
        i := i + 1;
      }
    }

    /** One expected condition: observe its open row again, or resolve the row it replaces and open a new one. */
    method Observe(entry: Entry, now: Time, active: map<Slot, nat>, ghost was: seq<Row>, ghost list: seq<Entry>)
      requires Indexed(was, active) && Lookup(list, entry.slot).None?
      requires rows == FirstPass(was, list, now)
      modifies this`rows
      ensures rows == FirstPass(was, list + [entry], now)
    {
      FirstPassSnoc(was, list, entry, now);
      var slot, c := entry.slot, entry.condition;
      if slot in active && rows[active[slot]].fingerprint == c.fingerprint {
        var i := active[slot];
        assert Continues(was, entry);
        rows := rows[i := rows[i].(lastObserved := now, proof := c.proof)];
      } else {
        if slot in active {
          var i := active[slot];
          rows := rows[i := rows[i].(resolvedAt := Some(now), resolution := Some(ConditionReplaced))];
        }
        assert !Continues(was, entry);
        rows := rows + [Started(entry, now)];
      }
    }

    /** The conditions of one record, in the order of the rules. */
    method ObserveAll(shipment: string, conds: map<Kind, Condition>, now: Time, active: map<Slot, nat>, seen: set<Slot>,
                      ghost was: seq<Row>, ghost list: seq<Entry>) returns (found: set<Slot>)
      requires Indexed(was, active) && rows == FirstPass(was, list, now)
      requires forall k :: Lookup(list, Slot(shipment, k)).None?
      requires forall slot :: slot in seen <==> Lookup(list, slot).Some?
      modifies this`rows
      ensures rows == FirstPass(was, list + EntriesOf(shipment, conds, |KINDS|), now)
      ensures forall slot :: slot in found <==> Lookup(list + EntriesOf(shipment, conds, |KINDS|), slot).Some?
    {
      found := seen;
      var n := 0;
      assert list + EntriesOf(shipment, conds, 0) == list;
      while n < |KINDS|
        invariant 0 <= n <= |KINDS|
        invariant rows == FirstPass(was, list + EntriesOf(shipment, conds, n), now)
        invariant forall slot :: slot in found <==> Lookup(list + EntriesOf(shipment, conds, n), slot).Some?
      {
        ghost var sofar := list + EntriesOf(shipment, conds, n);
        if KINDS[n] in conds {
          var entry := Entry(Slot(shipment, KINDS[n]), conds[KINDS[n]]);
          NotYet(list, shipment, conds, n);
          Observe(entry, now, active, was, sofar);
          FoundOneMore(sofar, entry, found);
          found := found + {entry.slot};
        }
        EntriesNext(list, shipment, conds, n);
        n := n + 1;
      }
    }

    /** One record: its conditions, or one more uncertain shipment. */
    method ObserveRecord(shipment: string, conds: Option<map<Kind, Condition>>, now: Time, active: map<Slot, nat>, seen: set<Slot>,
                         uncertain: set<string>, ghost was: seq<Row>, ghost list: seq<Entry>) returns (found: set<Slot>, unknown: set<string>)
      requires Indexed(was, active) && rows == FirstPass(was, list, now)
      requires forall k :: Lookup(list, Slot(shipment, k)).None?
      requires forall slot :: slot in seen <==> Lookup(list, slot).Some?
      modifies this`rows
      ensures rows == FirstPass(was, list + EntriesFor(shipment, conds), now)
      ensures forall slot :: slot in found <==> Lookup(list + EntriesFor(shipment, conds), slot).Some?
      ensures unknown == uncertain + if conds.None? then {shipment} else {}
    {
      found, unknown := seen, uncertain;
      match conds {
        case None =>
          unknown := unknown + {shipment};
          assert list + [] == list;
        case Some(c) =>
          found := ObserveAll(shipment, c, now, active, seen, was, list);
      }
    }

    /** The first pass over the dataset. */
    method ObserveRecords(w: World, active: map<Slot, nat>, ghost was: seq<Row>) returns (seen: set<Slot>, uncertain: set<string>)
      requires rows == was && Indexed(was, active) && Distinct(w.records)
      modifies this`rows
      ensures rows == FirstPass(was, Expected(w, |w.records|), w.now)
      ensures forall slot :: slot in seen <==> Lookup(Expected(w, |w.records|), slot).Some?
      ensures uncertain == Uncertain(w)
    {
      seen, uncertain := {}, {};
      var n := 0;
      assert FirstPass(was, [], w.now) == was;
      while n < |w.records|
        invariant 0 <= n <= |w.records|
        invariant rows == FirstPass(was, Expected(w, n), w.now)
        invariant forall slot :: slot in seen <==> Lookup(Expected(w, n), slot).Some?
        invariant uncertain == UncertainUpTo(w, n)
      {
        var r := w.records[n];
        var conds := ConditionsOf(w, r);
        NotSeenYet(w, n);
        ExpectedNext(w, n, conds);
        UncertainNext(w, n, conds);
        seen, uncertain := ObserveRecord(r.shipment.id, conds, w.now, active, seen, uncertain, was, Expected(w, n));
        n := n + 1;
      }
      AllUncertain(w);
    }

    /** The second pass: whatever was not seen and is not uncertain is resolved. */
    method CloseRest(w: World, active: map<Slot, nat>, seen: set<Slot>, uncertain: set<string>, ghost was: seq<Row>)
      requires rows == FirstPass(was, Expected(w, |w.records|), w.now) && Indexed(was, active)
      requires forall slot :: slot in seen <==> Lookup(Expected(w, |w.records|), slot).Some?
      requires uncertain == Uncertain(w)
      modifies this`rows
      ensures rows == Evaluated(was, w)
    {
      ghost var list := Expected(w, |w.records|);
      ghost var added := rows[|was|..];
      var todo := active.Keys;
      while todo != {}
        invariant todo <= active.Keys && rows == HalfClosed(was, list, w, todo) + added
        decreases todo
      {
        var slot :| slot in todo;
        var i := active[slot];
        HalfClosedStep(was, list, w, active, todo, slot);
        assert rows[i] == Observed(was[i], list, w.now);
        if slot !in seen && slot.shipment !in uncertain {
          assert rows[i] == was[i];
          rows := rows[i := rows[i].(resolvedAt := Some(w.now),
                                     resolution := Some(if AnchorKnown(w, rows[i]) then ConditionCleared else EvidenceWithdrawn))];
        }
        todo := todo - {slot};
      }
    }

    /** `evaluate`: commits the whole evaluation, or nothing and a reason. */
    method Evaluate(w: World, cursor: Option<Progress>, anchors: map<nat, string>, before: Health, after: Health)
      returns (reason: Option<string>)
      requires Valid() && Distinct(w.records)
      modifies this
      ensures Valid()
      ensures reason == Refusal(before, cursor, anchors, old(evaluation), w.now, after)
      ensures reason.Some? ==> rows == old(rows) && evaluation == old(evaluation)
      ensures reason.None? ==> rows == Evaluated(old(rows), w)
      ensures reason.None? ==> evaluation == Some(Evaluation(w.now, cursor.value.last, cursor.value.hash, |Uncertain(w)|))
    {
      reason := PauseReason(before);
      if reason.Some? { return; }
      if cursor.None? || Some(cursor.value.last) != before.last { return Some("cursor_changed"); }
      var at := cursor.value;
      if at.last !in anchors || anchors[at.last] != at.hash { return Some("cursor_unavailable"); }
      if evaluation.Some? && evaluation.value.at > w.now { return Some("clock_regressed"); }
      var saved := rows;
      var active := Active();
      var seen, uncertain := ObserveRecords(w, active, saved);
      CloseRest(w, active, seen, uncertain, saved);
      if PauseReason(after).Some? || after.last != before.last {
        rows := saved;
        return Some("indexer_changed");
      }
      EvaluatedOneOpen(saved, w);
      EvaluatedTimely(saved, w, evaluation, Evaluation(w.now, at.last, at.hash, |uncertain|));
      evaluation := Some(Evaluation(w.now, at.last, at.hash, |uncertain|));
    }

    /** An acknowledgement is written once, on an open row; a resolved row refuses it. */
    method Acknowledge(i: nat, ack: Acknowledgement) returns (ok: bool)
      requires Valid() && i < |rows|
      modifies this`rows
      ensures Valid() && ok == old(rows)[i].Open()
      ensures rows == if ok && old(rows)[i].acknowledged.None? then old(rows)[i := old(rows)[i].(acknowledged := Some(ack))] else old(rows)
    {
      if !rows[i].Open() { return false; }
      if rows[i].acknowledged.None? {
        rows := rows[i := rows[i].(acknowledged := Some(ack))];
      }
      ok := true;
    }

    /** Any run of evaluations and acknowledgements keeps every row and what is settled about it; the clock of the assessment
        never goes back. */
    method Run(actions: seq<Action>)
      requires Valid() && forall i :: 0 <= i < |actions| && actions[i].Evaluates? ==> Distinct(actions[i].world.records)
      modifies this
      ensures Valid() && AllKept(old(rows), rows)
      ensures old(evaluation).Some? ==> evaluation.Some? && old(evaluation).value.at <= evaluation.value.at
    {
      var n := 0;
      while n < |actions|
        invariant 0 <= n <= |actions| && Valid() && AllKept(old(rows), rows)
        invariant old(evaluation).Some? ==> evaluation.Some? && old(evaluation).value.at <= evaluation.value.at
      {
        ghost var was := rows;
        match actions[n] {
          case Evaluates(world, cursor, anchors, before, after) =>
            var reason := Evaluate(world, cursor, anchors, before, after);
            if reason.None? { EvaluationKeeps(was, world); }
          case Acknowledges(i, ack) =>
            if i < |rows| { var ok := Acknowledge(i, ack); }
        }
        assert AllKept(was, rows);
        n := n + 1;
      }
    }
  }

  datatype Action =
    | Evaluates(world: World, cursor: Option<Progress>, anchors: map<nat, string>, before: Health, after: Health)
    | Acknowledges(row: nat, ack: Acknowledgement)

  /** What never changes about a row: which episode it is, everything once it is resolved, and a written acknowledgement. */
  predicate Kept(a: Row, b: Row) {
    && b.shipment == a.shipment && b.kind == a.kind && b.fingerprint == a.fingerprint
    && b.triggeredAt == a.triggeredAt && b.firstObserved == a.firstObserved
    && (!a.Open() ==> b == a)
    && (a.acknowledged.Some? ==> b.acknowledged == a.acknowledged)
  }

  ghost predicate AllKept(before: seq<Row>, after: seq<Row>) {
    |before| <= |after| && forall i :: 0 <= i < |before| ==> Kept(before[i], after[i])
  }

  lemma EvaluationKeeps(rows: seq<Row>, w: World)
    ensures AllKept(rows, Evaluated(rows, w))
  {
    forall i | 0 <= i < |rows| ensures i < |Evaluated(rows, w)| && Kept(rows[i], Evaluated(rows, w)[i]) {
      HistoryKept(rows, w, i);
    }
  }

  ghost predicate Indexed(was: seq<Row>, active: map<Slot, nat>) {
    && (forall slot :: slot in active ==> OpenAt(was, active[slot], slot))
    && (forall i :: 0 <= i < |was| && was[i].Open() ==> SlotOf(was[i]) in active && active[SlotOf(was[i])] == i)
  }

  /** The old rows in the middle of the second pass. */
  function HalfClosed(was: seq<Row>, list: seq<Entry>, w: World, todo: set<Slot>): seq<Row> {
    seq(|was|, i requires 0 <= i < |was| =>
      if was[i].Open() && SlotOf(was[i]) in todo then Observed(was[i], list, w.now) else Settled(was[i], list, w))
  }

  lemma HalfClosedStep(was: seq<Row>, list: seq<Entry>, w: World, active: map<Slot, nat>, todo: set<Slot>, slot: Slot)
    requires Indexed(was, active) && slot in todo && todo <= active.Keys
    ensures var i := active[slot];
      && HalfClosed(was, list, w, todo)[i] == Observed(was[i], list, w.now)
      && HalfClosed(was, list, w, todo - {slot}) == HalfClosed(was, list, w, todo)[i := Settled(was[i], list, w)]
  {}

  /** The table after the first pass over some entries. */
  function FirstPass(was: seq<Row>, list: seq<Entry>, now: Time): seq<Row> {
    seq(|was|, i requires 0 <= i < |was| => Observed(was[i], list, now)) + Opened(was, list, now)
  }

  lemma FirstPassSnoc(was: seq<Row>, list: seq<Entry>, e: Entry, now: Time)
    ensures var next := FirstPass(was, list + [e], now);
      && |next| == |FirstPass(was, list, now)| + (if Continues(was, e) then 0 else 1)
      && (forall i :: 0 <= i < |was| ==> next[i] == Observed(was[i], list + [e], now))
      && (forall i :: 0 <= i < |was| && SlotOf(was[i]) != e.slot ==> next[i] == FirstPass(was, list, now)[i])
      && (forall i :: |was| <= i < |FirstPass(was, list, now)| ==> next[i] == FirstPass(was, list, now)[i])
      && (!Continues(was, e) ==> next[|next| - 1] == Started(e, now))
    ensures forall slot :: Lookup(list + [e], slot) == if e.slot == slot then Some(e.condition) else Lookup(list, slot)
  {
    OpenedSnoc(was, list, e, now);
    forall slot ensures Lookup(list + [e], slot) == if e.slot == slot then Some(e.condition) else Lookup(list, slot) {
      LookupSnoc(list, e, slot);
    }
  }

  lemma {:induction false} LookupJoin(list: seq<Entry>, more: seq<Entry>, slot: Slot)
    requires forall e :: e in more ==> e.slot != slot
    ensures Lookup(list + more, slot) == Lookup(list, slot)
  {
    if more != [] {
      assert list + more == (list + more[..|more| - 1]) + [more[|more| - 1]];
      LookupSnoc(list + more[..|more| - 1], more[|more| - 1], slot);
      LookupJoin(list, more[..|more| - 1], slot);
    } else {
      assert list + more == list;
    }
  }

  lemma NotYet(list: seq<Entry>, shipment: string, conds: map<Kind, Condition>, n: nat)
    requires n < |KINDS| && Lookup(list, Slot(shipment, KINDS[n])).None?
    ensures Lookup(list + EntriesOf(shipment, conds, n), Slot(shipment, KINDS[n])).None?
  {
    EntriesOfExact(shipment, conds, n);
    LookupJoin(list, EntriesOf(shipment, conds, n), Slot(shipment, KINDS[n]));
  }

  lemma FoundOneMore(list: seq<Entry>, entry: Entry, found: set<Slot>)
    requires forall slot :: slot in found <==> Lookup(list, slot).Some?
    ensures forall slot :: slot in found + {entry.slot} <==> Lookup(list + [entry], slot).Some?
  {
    forall slot ensures Lookup(list + [entry], slot).Some? <==> entry.slot == slot || Lookup(list, slot).Some? {
      LookupSnoc(list, entry, slot);
    }
  }

  lemma EntriesNext(list: seq<Entry>, shipment: string, conds: map<Kind, Condition>, n: nat)
    requires n < |KINDS|
    ensures list + EntriesOf(shipment, conds, n + 1) ==
      if KINDS[n] in conds then (list + EntriesOf(shipment, conds, n)) + [Entry(Slot(shipment, KINDS[n]), conds[KINDS[n]])]
      else list + EntriesOf(shipment, conds, n)
  {}

  lemma NotSeenYet(w: World, n: nat)
    requires n < |w.records| && Distinct(w.records)
    ensures forall k :: Lookup(Expected(w, n), Slot(w.records[n].shipment.id, k)).None?
  {
    forall k ensures Lookup(Expected(w, n), Slot(w.records[n].shipment.id, k)).None? {
      var slot := Slot(w.records[n].shipment.id, k);
      forall e | e in Expected(w, n) ensures e.slot != slot {
        ExpectedExact(w, n, e);
      }
      LookupJoin([], Expected(w, n), slot);
      assert [] + Expected(w, n) == Expected(w, n);
    }
  }
}
