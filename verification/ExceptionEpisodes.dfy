/** Open and resolved exception rows, and the evaluation that keeps them in step with the rules. */
module ExceptionEpisodes {
  import opened Prelude
  import opened ExceptionRules

  datatype Resolution = ConditionReplaced | ConditionCleared | EvidenceWithdrawn

  datatype Acknowledgement = Acknowledgement(at: Time, author: string, note: Option<string>)

  /** One stored episode. Its position in the table is its identity. */
  datatype Row = Row(shipment: string, kind: Kind, fingerprint: Fingerprint, triggeredAt: Time,
                     firstObserved: Time, lastObserved: Time, resolvedAt: Option<Time>, resolution: Option<Resolution>,
                     acknowledged: Option<Acknowledgement>, proof: Proof)
  {
    predicate Open() { resolvedAt.None? }
  }

  datatype Slot = Slot(shipment: string, kind: Kind)

  datatype Entry = Entry(slot: Slot, condition: Condition)

  datatype Evaluation = Evaluation(at: Time, block: nat, hash: string, uncertain: nat)

  function SlotOf(row: Row): Slot {
    Slot(row.shipment, row.kind)
  }

  /** At most one open row per shipment and kind. */
  ghost predicate OneOpen(rows: seq<Row>) {
    forall i, j :: 0 <= i < j < |rows| && rows[i].Open() && rows[j].Open() ==> SlotOf(rows[i]) != SlotOf(rows[j])
  }

  predicate InOrder(row: Row) {
    && row.triggeredAt <= row.firstObserved <= row.lastObserved
    && (row.resolvedAt.Some? ==> row.lastObserved <= row.resolvedAt.value)
  }

  /** Every row is in time order and was last written no later than the stored evaluation. */
  ghost predicate Timely(rows: seq<Row>, evaluation: Option<Evaluation>) {
    forall i :: 0 <= i < |rows| ==>
      && InOrder(rows[i]) && evaluation.Some?
      && rows[i].lastObserved <= evaluation.value.at
      && (rows[i].resolvedAt.Some? ==> rows[i].resolvedAt.value <= evaluation.value.at)
  }

  // ---- what one dataset expects ----

  const KINDS := [ArrivalOverdue, CheckpointInactivity, CheckpointWait, CustodyFollowup]

  /** The policy of a shipment, or the defaults. */
  function PolicyOf(policies: map<string, Policy>, shipment: string): Policy {
    if shipment in policies then policies[shipment] else Policy(true, Some(24.0), Some(24.0), Some(6.0), 0)
  }

  /** The entries of one shipment for the first n kinds. */
  function EntriesOf(shipment: string, conds: map<Kind, Condition>, n: nat): seq<Entry>
    requires n <= |KINDS|
  {
    if n == 0 then []
    else
      EntriesOf(shipment, conds, n - 1) +
      if KINDS[n - 1] in conds then [Entry(Slot(shipment, KINDS[n - 1]), conds[KINDS[n - 1]])] else []
  }

  datatype World = World(records: seq<Record>, policies: map<string, Policy>, scope: string, now: Time)

  function ConditionsOf(w: World, r: Record): Option<map<Kind, Condition>> {
    Conditions(r, PolicyOf(w.policies, r.shipment.id), w.scope, w.now)
  }

  /** The entries of the first n records, in their order. */
  function Expected(w: World, n: nat): seq<Entry>
    requires n <= |w.records|
  {
    if n == 0 then []
    else
      var r := w.records[n - 1];
      Expected(w, n - 1) + match ConditionsOf(w, r)
        case None => []
        case Some(conds) => EntriesOf(r.shipment.id, conds, |KINDS|)
  }

  function Uncertain(w: World): set<string> {
    set r | r in w.records && ConditionsOf(w, r).None? :: r.shipment.id
  }

  /** The uncertain shipments among the first n records. */
  function UncertainUpTo(w: World, n: nat): set<string>
    requires n <= |w.records|
  {
    if n == 0 then {}
    else UncertainUpTo(w, n - 1) + if ConditionsOf(w, w.records[n - 1]).None? then {w.records[n - 1].shipment.id} else {}
  }

  lemma {:induction false} UncertainUpToExact(w: World, n: nat, id: string)
    requires n <= |w.records|
    ensures id in UncertainUpTo(w, n) <==> exists i :: 0 <= i < n && ConditionsOf(w, w.records[i]).None? && w.records[i].shipment.id == id
  {
    if n > 0 { UncertainUpToExact(w, n - 1, id); }
  }

  lemma UncertainNext(w: World, n: nat, conds: Option<map<Kind, Condition>>)
    requires n < |w.records| && conds == ConditionsOf(w, w.records[n])
    ensures UncertainUpTo(w, n + 1) == UncertainUpTo(w, n) + if conds.None? then {w.records[n].shipment.id} else {}
  {}

  lemma AllUncertain(w: World)
    ensures UncertainUpTo(w, |w.records|) == Uncertain(w)
  {
    forall id ensures id in UncertainUpTo(w, |w.records|) <==> id in Uncertain(w) {
      UncertainUpToExact(w, |w.records|, id);
    }
  }

  predicate AnchorKnown(w: World, row: Row) {
    exists r :: r in w.records && r.shipment.id == row.shipment && exists e :: e in r.events && e.occurrence == row.proof.occurrence
  }

  /** The dataset has one record per shipment. */
  ghost predicate Distinct(records: seq<Record>) {
    forall i, j :: 0 <= i < j < |records| ==> records[i].shipment.id != records[j].shipment.id
  }

  /** The entries of one record. */
  function EntriesFor(shipment: string, conds: Option<map<Kind, Condition>>): seq<Entry> {
    match conds
    case None => []
    case Some(c) => EntriesOf(shipment, c, |KINDS|)
  }

  lemma ExpectedNext(w: World, n: nat, conds: Option<map<Kind, Condition>>)
    requires n < |w.records| && conds == ConditionsOf(w, w.records[n])
    ensures Expected(w, n + 1) == Expected(w, n) + EntriesFor(w.records[n].shipment.id, conds)
  {}

  /** The condition the entries hold for a slot. */
  function Lookup(list: seq<Entry>, slot: Slot): Option<Condition> {
    if list == [] then None
    else if list[|list| - 1].slot == slot then Some(list[|list| - 1].condition)
    else Lookup(list[..|list| - 1], slot)
  }

  // ---- the effect of an evaluation on the rows ----

  /** First pass: an open row whose condition still holds is observed again, or replaced if its fingerprint changed. */
  function Observed(row: Row, list: seq<Entry>, now: Time): Row {
    match Lookup(list, SlotOf(row))
    case None => row
    case Some(c) =>
      if !row.Open() then row
      else if row.fingerprint == c.fingerprint then row.(lastObserved := now, proof := c.proof)
      else row.(resolvedAt := Some(now), resolution := Some(ConditionReplaced))
  }

  function Started(entry: Entry, now: Time): Row {
    var c := entry.condition;
    Row(entry.slot.shipment, entry.slot.kind, c.fingerprint, c.triggeredAt, now, now, None, None, None, c.proof)
  }

  predicate Continues(rows: seq<Row>, entry: Entry) {
    exists i :: 0 <= i < |rows| && rows[i].Open() && SlotOf(rows[i]) == entry.slot && rows[i].fingerprint == entry.condition.fingerprint
  }

  /** The rows opened for the entries that no open row continues. */
  function Opened(rows: seq<Row>, list: seq<Entry>, now: Time): seq<Row> {
    if list == [] then []
    else
      var last := list[|list| - 1];
      Opened(rows, list[..|list| - 1], now) + if Continues(rows, last) then [] else [Started(last, now)]
  }

  /** Second pass: an open row whose condition is gone is resolved, unless its shipment is uncertain. */
  function Settled(row: Row, list: seq<Entry>, w: World): Row {
    if Lookup(list, SlotOf(row)).Some? || !row.Open() || row.shipment in Uncertain(w) then Observed(row, list, w.now)
    else row.(resolvedAt := Some(w.now), resolution := Some(if AnchorKnown(w, row) then ConditionCleared else EvidenceWithdrawn))
  }

  function Evaluated(rows: seq<Row>, w: World): seq<Row> {
    var list := Expected(w, |w.records|);
    seq(|rows|, i requires 0 <= i < |rows| => Settled(rows[i], list, w)) + Opened(rows, list, w.now)
  }

  // ---- health ----

  datatype Health = Health(enabled: bool, ready: bool, status: string, lag: Option<int>, gap: Option<int>, last: Option<nat>)

  function PauseReason(h: Health): Option<string> {
    if !h.enabled then Some("indexing_disabled")
    else if !h.ready || h.status != "current" then Some("indexer_not_current")
    else if h.lag != Some(0) || h.gap != Some(0) then Some("indexer_not_current")
    else if h.last.None? then Some("cursor_unavailable")
    else None
  }

  datatype Progress = Progress(last: nat, hash: string)

  /** Why an evaluation writes nothing, or None. */
  function Refusal(before: Health, cursor: Option<Progress>, anchors: map<nat, string>, evaluation: Option<Evaluation>,
                   now: Time, after: Health): Option<string> {
    if PauseReason(before).Some? then PauseReason(before)
    else if cursor.None? || Some(cursor.value.last) != before.last then Some("cursor_changed")
    else if cursor.value.last !in anchors || anchors[cursor.value.last] != cursor.value.hash then Some("cursor_unavailable")
    else if evaluation.Some? && evaluation.value.at > now then Some("clock_regressed")
    else if PauseReason(after).Some? || after.last != before.last then Some("indexer_changed")
    else None
  }

  /** An evaluation runs only on a current indexer at the anchored cursor, that stayed there, and never back in time. */
  lemma RefusalExactly(before: Health, cursor: Option<Progress>, anchors: map<nat, string>, evaluation: Option<Evaluation>, now: Time, after: Health)
    ensures Refusal(before, cursor, anchors, evaluation, now, after).None? <==>
      && before.enabled && before.ready && before.status == "current" && before.lag == Some(0) && before.gap == Some(0)
      && after.enabled && after.ready && after.status == "current" && after.lag == Some(0) && after.gap == Some(0)
      && cursor.Some? && before.last == Some(cursor.value.last) == after.last
      && cursor.value.last in anchors && anchors[cursor.value.last] == cursor.value.hash
      && (evaluation.Some? ==> evaluation.value.at <= now)
    // Otherwise the first of these that applies is the reason.
    ensures Refusal(before, cursor, anchors, evaluation, now, after).Some? ==>
      Refusal(before, cursor, anchors, evaluation, now, after).value ==
        if !before.enabled then "indexing_disabled"
        else if !before.ready || before.status != "current" || before.lag != Some(0) || before.gap != Some(0) then "indexer_not_current"
        else if before.last.None? then "cursor_unavailable"
        else if cursor.None? || cursor.value.last != before.last.value then "cursor_changed"
        else if cursor.value.last !in anchors || anchors[cursor.value.last] != cursor.value.hash then "cursor_unavailable"
        else if evaluation.Some? && evaluation.value.at > now then "clock_regressed"
        else "indexer_changed"
  {}

  // ---- the entries ----

  lemma {:induction false} EntriesOfExact(shipment: string, conds: map<Kind, Condition>, n: nat)
    requires n <= |KINDS|
    ensures forall e :: e in EntriesOf(shipment, conds, n) <==>
      e.slot.shipment == shipment && e.slot.kind in KINDS[..n] && e.slot.kind in conds && e.condition == conds[e.slot.kind]
    ensures forall i, j :: 0 <= i < j < |EntriesOf(shipment, conds, n)| ==> EntriesOf(shipment, conds, n)[i].slot != EntriesOf(shipment, conds, n)[j].slot
  {
    if n > 0 {
      EntriesOfExact(shipment, conds, n - 1);
      assert KINDS[..n] == KINDS[..n - 1] + [KINDS[n - 1]];
      var early := EntriesOf(shipment, conds, n - 1);
      forall i | 0 <= i < |early| ensures early[i].slot.kind != KINDS[n - 1] {
        assert early[i] in early;
      }
    }
  }

  lemma AllKinds(k: Kind)
    ensures k in KINDS[..|KINDS|]
  {
    assert KINDS[0] == ArrivalOverdue && KINDS[1] == CheckpointInactivity && KINDS[2] == CheckpointWait && KINDS[3] == CustodyFollowup;
  }

  ghost predicate FromRecord(w: World, i: nat, e: Entry)
    requires i < |w.records|
  {
    var r := w.records[i];
    && e.slot.shipment == r.shipment.id && ConditionsOf(w, r).Some?
    && e.slot.kind in ConditionsOf(w, r).value && e.condition == ConditionsOf(w, r).value[e.slot.kind]
  }

  ghost predicate DistinctSlots(list: seq<Entry>) {
    forall i, j :: 0 <= i < j < |list| ==> list[i].slot != list[j].slot
  }

  lemma RecordEntries(w: World, i: nat, e: Entry)
    requires i < |w.records| && ConditionsOf(w, w.records[i]).Some?
    ensures e in EntriesOf(w.records[i].shipment.id, ConditionsOf(w, w.records[i]).value, |KINDS|) <==> FromRecord(w, i, e)
  {
    EntriesOfExact(w.records[i].shipment.id, ConditionsOf(w, w.records[i]).value, |KINDS|);
    AllKinds(e.slot.kind);
  }

  lemma ExpectedStep(w: World, n: nat, e: Entry)
    requires 0 < n <= |w.records|
    ensures e in Expected(w, n) <==> e in Expected(w, n - 1) || FromRecord(w, n - 1, e)
  {
    if ConditionsOf(w, w.records[n - 1]).Some? {
      RecordEntries(w, n - 1, e);
    }
  }

  /** Some of the first n records yields the entry. */
  ghost predicate Stems(w: World, n: nat, e: Entry)
    requires n <= |w.records|
  {
    exists i: nat :: i < n && FromRecord(w, i, e)
  }

  lemma StemsStep(w: World, n: nat, e: Entry)
    requires 0 < n <= |w.records|
    ensures Stems(w, n, e) <==> Stems(w, n - 1, e) || FromRecord(w, n - 1, e)
  {}

  lemma {:induction false} ExpectedExact(w: World, n: nat, e: Entry)
    requires n <= |w.records|
    ensures e in Expected(w, n) <==> Stems(w, n, e)
  {
    if n > 0 {
      ExpectedExact(w, n - 1, e);
      ExpectedStep(w, n, e);
      StemsStep(w, n, e);
    }
  }

  lemma {:induction false} ExpectedDistinct(w: World, n: nat)
    requires n <= |w.records| && Distinct(w.records)
    ensures DistinctSlots(Expected(w, n))
  {
    if n > 0 {
      ExpectedDistinct(w, n - 1);
      var r := w.records[n - 1];
      var early := Expected(w, n - 1);
      if ConditionsOf(w, r).Some? {
        var here := EntriesOf(r.shipment.id, ConditionsOf(w, r).value, |KINDS|);
        EntriesOfExact(r.shipment.id, ConditionsOf(w, r).value, |KINDS|);
        forall i, j | 0 <= i < |early| && 0 <= j < |here| ensures early[i].slot != here[j].slot {
          assert early[i] in early && here[j] in here;
          ExpectedExact(w, n - 1, early[i]);
          var m: nat :| m < n - 1 && FromRecord(w, m, early[i]);
        }
      }
    }
  }

  lemma {:induction false} LookupExact(list: seq<Entry>, slot: Slot, c: Condition)
    requires DistinctSlots(list)
    ensures Lookup(list, slot) == Some(c) <==> Entry(slot, c) in list
  {
    if list != [] {
      var early, last := list[..|list| - 1], list[|list| - 1];
      LookupExact(early, slot, c);
      assert list == early + [last];
      forall i | 0 <= i < |early| ensures early[i].slot != last.slot {
        assert list[i].slot != list[|list| - 1].slot;
      }
    }
  }

  lemma LookupSnoc(list: seq<Entry>, e: Entry, slot: Slot)
    ensures Lookup(list + [e], slot) == if e.slot == slot then Some(e.condition) else Lookup(list, slot)
  {
    assert (list + [e])[..|list|] == list;
  }

  lemma OpenedSnoc(rows: seq<Row>, list: seq<Entry>, e: Entry, now: Time)
    ensures Opened(rows, list + [e], now) == Opened(rows, list, now) + if Continues(rows, e) then [] else [Started(e, now)]
  {
    assert (list + [e])[..|list|] == list;
  }

  /** What the entries say of a record's slots. */
  lemma RecordLookup(w: World, r: Record, k: Kind)
    requires Distinct(w.records) && r in w.records
    ensures var found := Lookup(Expected(w, |w.records|), Slot(r.shipment.id, k));
      found == if ConditionsOf(w, r).Some? && k in ConditionsOf(w, r).value then Some(ConditionsOf(w, r).value[k]) else None
  {
    var n := |w.records|;
    var slot := Slot(r.shipment.id, k);
    var found := Lookup(Expected(w, n), slot);
    ExpectedDistinct(w, n);
    var i :| 0 <= i < n && w.records[i] == r;
    if found.Some? {
      LookupExact(Expected(w, n), slot, found.value);
      ExpectedExact(w, n, Entry(slot, found.value));
      var j: nat :| j < n && FromRecord(w, j, Entry(slot, found.value));
      assert j == i;
    }
    if ConditionsOf(w, r).Some? && k in ConditionsOf(w, r).value {
      var c := ConditionsOf(w, r).value[k];
      assert FromRecord(w, i, Entry(slot, c));
      ExpectedExact(w, n, Entry(slot, c));
      LookupExact(Expected(w, n), slot, c);
    }
  }

  lemma ForeignLookup(w: World, slot: Slot)
    requires Distinct(w.records) && forall r :: r in w.records ==> r.shipment.id != slot.shipment
    ensures Lookup(Expected(w, |w.records|), slot).None?
  {
    var n := |w.records|;
    ExpectedDistinct(w, n);
    var found := Lookup(Expected(w, n), slot);
    forall j: nat | j < n ensures w.records[j].shipment.id != slot.shipment {
      assert w.records[j] in w.records;
    }
    if found.Some? {
      LookupExact(Expected(w, n), slot, found.value);
      ExpectedExact(w, n, Entry(slot, found.value));
    }
  }
}
