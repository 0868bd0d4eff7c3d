/** The rules that decide, from a shipment's canonical events, a policy and a clock, which exceptions are due. */
module ExceptionRules {
  import opened Prelude

  type Time = real

  datatype Detail =
    | Registered
    | MetadataUpdated
    | Checkpoint(status: string, location: string, handler: string)
    | Transfer(recipient: string)
    | Delivery

  /** A canonical event; `time` is its payload timestamp, or None when it is missing or malformed. */
  datatype Event = Event(detail: Detail, scope: string, id: string, occurrence: string, time: Option<Time>)

  /** `inScope` is the answer of require_current_scope. `planRecorded` is when the plan was written down. */
  datatype Shipment = Shipment(id: string, productId: string, inScope: bool, plannedArrival: Option<Time>, planRecorded: Option<Time>)

  /** One row of the dataset: a shipment with its product's canonical events in chain order. */
  datatype Record = Record(shipment: Shipment, events: seq<Event>)

  datatype Policy = Policy(arrivalEnabled: bool, inactivityHours: Option<real>, checkpointHours: Option<real>,
                           custodyHours: Option<real>, revision: nat)

  datatype Kind = ArrivalOverdue | CheckpointInactivity | CheckpointWait | CustodyFollowup

  datatype Proof = Proof(productId: string, eventId: string, occurrence: string, threshold: Option<real>, revision: nat,
                         location: Option<string>, receivingHandler: Option<string>)

  /** The hashed identity of an episode; the hash is taken to be injective. */
  datatype Fingerprint = Fingerprint(kind: Kind, occurrence: string, threshold: Option<real>, due: Time)

  datatype Condition = Condition(fingerprint: Fingerprint, triggeredAt: Time, proof: Proof)

  const ZERO_ADDRESS := "0x0000000000000000000000000000000000000000"

  predicate Departs(e: Event) {
    e.detail.Checkpoint? && e.detail.status == "1"
  }

  predicate Delivers(e: Event) {
    e.detail.Delivery? || (e.detail.Checkpoint? && e.detail.status == "3")
  }

  predicate IsCheckpoint(e: Event) {
    e.detail.Checkpoint?
  }

  predicate IsTransfer(e: Event) {
    e.detail.Transfer?
  }

  predicate Timed(e: Event) {
    e.detail.Checkpoint? || e.detail.Transfer? || e.detail.Delivery?
  }

  // ---- the lifecycle columns of the dataset ----

  /** The time of the first timed event satisfying p. */
  function FirstTime(events: seq<Event>, p: Event -> bool): Option<Time> {
    if events == [] then None
    else match FirstTime(events[..|events| - 1], p)
      case Some(t) => Some(t)
      case None => if p(events[|events| - 1]) then events[|events| - 1].time else None
  }

  method Lifecycle(events: seq<Event>) returns (departed: Option<Time>, delivered: Option<Time>)
    ensures departed == FirstTime(events, Departs) && delivered == FirstTime(events, Delivers)
  {
    departed, delivered := None, None;
    var i := 0;
    while i < |events|
      invariant 0 <= i <= |events|
      invariant departed == FirstTime(events[..i], Departs) && delivered == FirstTime(events[..i], Delivers)
    {
      var e := events[i];
      if e.time.Some? {
        if Departs(e) && departed.None? { departed := e.time; }
        if Delivers(e) && delivered.None? { delivered := e.time; }
      }
      assert events[..i + 1][..i] == events[..i];
      i := i + 1;
    }
    assert events[..i] == events;
  }

  lemma {:induction false} FirstTimeExact(events: seq<Event>, p: Event -> bool)
    ensures FirstTime(events, p).None? <==> forall e :: e in events && p(e) ==> e.time.None?
    ensures FirstTime(events, p).Some? ==> exists i :: 0 <= i < |events| && FirstTimedAt(events, p, i) && events[i].time == FirstTime(events, p)
  {
    if events != [] {
      var early, last := events[..|events| - 1], events[|events| - 1];
      FirstTimeExact(early, p);
      assert events == early + [last];
      if FirstTime(early, p).Some? {
        var i :| 0 <= i < |early| && FirstTimedAt(early, p, i) && early[i].time == FirstTime(early, p);
        assert FirstTimedAt(events, p, i);
      } else if p(last) && last.time.Some? {
        assert FirstTimedAt(events, p, |early|);
      }
    }
  }

  predicate FirstTimedAt(events: seq<Event>, p: Event -> bool, i: nat)
    requires i < |events|
  {
    p(events[i]) && events[i].time.Some? && forall j :: 0 <= j < i && p(events[j]) ==> events[j].time.None?
  }

  // ---- positions ----

  function FirstIndex(events: seq<Event>, p: Event -> bool): (r: Option<nat>)
    ensures r.Some? ==> r.value < |events| && p(events[r.value]) && forall j :: 0 <= j < r.value ==> !p(events[j])
    ensures r.None? ==> forall e :: e in events ==> !p(e)
  {
    if events == [] then None
    else match FirstIndex(events[..|events| - 1], p)
      case Some(i) => Some(i)
      case None => if p(events[|events| - 1]) then Some(|events| - 1) else None
  }

  function LastIndex(events: seq<Event>, p: Event -> bool): (r: Option<nat>)
    ensures r.Some? ==> r.value < |events| && p(events[r.value]) && forall j :: r.value < j < |events| ==> !p(events[j])
    ensures r.None? ==> forall e :: e in events ==> !p(e)
  {
    if events == [] then None
    else if p(events[|events| - 1]) then Some(|events| - 1)
    else LastIndex(events[..|events| - 1], p)
  }

  lemma LastIsThat(events: seq<Event>, p: Event -> bool, i: nat)
    requires i < |events| && p(events[i]) && forall j :: i < j < |events| ==> !p(events[j])
    ensures LastIndex(events, p) == Some(i)
  {
    assert events[i] in events;
  }

  lemma FirstIsThat(events: seq<Event>, p: Event -> bool, i: nat)
    requires i < |events| && p(events[i]) && forall j :: 0 <= j < i ==> !p(events[j])
    ensures FirstIndex(events, p) == Some(i)
  {
    assert events[i] in events;
  }

  // ---- the rules ----

  /** An exception is due from its threshold on, not before. */
  function Raise(kind: Kind, anchor: Event, due: Time, threshold: Option<real>, now: Time, proof: Proof): map<Kind, Condition> {
    if now < due then map[]
    else map[kind := Condition(Fingerprint(kind, anchor.occurrence, threshold, due), due, proof)]
  }

  function ProofOf(r: Record, policy: Policy, anchor: Event, threshold: Option<real>, location: Option<string>, handler: Option<string>): Proof {
    Proof(r.shipment.productId, anchor.id, anchor.occurrence, threshold, policy.revision, location, handler)
  }

  function ArrivalRule(r: Record, policy: Policy, now: Time): map<Kind, Condition> {
    var departure, first := FirstTime(r.events, Departs), FirstIndex(r.events, Departs);
    if !policy.arrivalEnabled || departure.None? || r.shipment.plannedArrival.None? || r.shipment.planRecorded.None? then map[]
    else if r.shipment.planRecorded.value > departure.value || first.None? then map[]
    else
      var anchor := r.events[first.value];
      Raise(ArrivalOverdue, anchor, r.shipment.plannedArrival.value, None, now, ProofOf(r, policy, anchor, None, None, None))
  }

  function TimeOf(e: Event): Time {
    if e.time.Some? then e.time.value else 0.0
  }

  function CheckpointRule(r: Record, policy: Policy, now: Time): map<Kind, Condition> {
    match LastIndex(r.events, IsCheckpoint)
    case None => map[]
    case Some(i) =>
      var latest := r.events[i];
      var waiting := latest.detail.status == "2";
      var hours := if waiting then policy.checkpointHours else policy.inactivityHours;
      if hours.None? || (FirstTime(r.events, Departs).None? && !waiting) then map[]
      else Raise(if waiting then CheckpointWait else CheckpointInactivity, latest, TimeOf(latest) + hours.value * 3600.0, hours, now,
                 ProofOf(r, policy, latest, hours, Some(latest.detail.location), None))
  }

  predicate KnownRecipient(recipient: string) {
    recipient != "" && recipient != ZERO_ADDRESS
  }

  predicate FollowedUp(events: seq<Event>, position: nat, recipient: string) {
    exists j :: position < j < |events| && events[j].detail.Checkpoint? && Lower(events[j].detail.handler) == recipient
  }

  /** None: the receiving handler of the latest transfer is unknown. */
  function CustodyRule(r: Record, policy: Policy, now: Time): Option<map<Kind, Condition>> {
    match LastIndex(r.events, IsTransfer)
    case None => Some(map[])
    case Some(i) =>
      if policy.custodyHours.None? then Some(map[])
      else
        var transfer := r.events[i];
        var recipient := Lower(transfer.detail.recipient);
        if !KnownRecipient(recipient) then None
        else if FollowedUp(r.events, i, recipient) then Some(map[])
        else Some(Raise(CustodyFollowup, transfer, TimeOf(transfer) + policy.custodyHours.value * 3600.0, policy.custodyHours, now,
                        ProofOf(r, policy, transfer, policy.custodyHours, None, Some(recipient))))
  }

  predicate Established(r: Record, scope: string) {
    r.shipment.inScope && exists e :: e in r.events && e.detail.Registered? && e.scope == scope
  }

  predicate Unclear(e: Event, now: Time) {
    Timed(e) && (e.time.None? || e.time.value > now)
  }

  /** `conditions`: None means uncertain evidence, which retains existing observations. */
  function Conditions(r: Record, policy: Policy, scope: string, now: Time): Option<map<Kind, Condition>> {
    if !Established(r, scope) then Some(map[])
    else if exists e :: e in r.events && Unclear(e, now) then None
    else if FirstTime(r.events, Delivers).Some? then Some(map[])
    else match CustodyRule(r, policy, now)
      case None => None
      case Some(custody) => Some(ArrivalRule(r, policy, now) + CheckpointRule(r, policy, now) + custody)
  }

  // ---- what the rules mean ----

  /** The departure column and the arrival rule's anchor are the same event, so the anchor always exists. */
  lemma ArrivalAnchor(r: Record, scope: string, now: Time)
    requires FirstTime(r.events, Departs).Some? && !exists e :: e in r.events && Unclear(e, now)
    ensures FirstIndex(r.events, Departs).Some?
    ensures r.events[FirstIndex(r.events, Departs).value].time == FirstTime(r.events, Departs)
  {
    FirstTimeExact(r.events, Departs);
    var i :| 0 <= i < |r.events| && FirstTimedAt(r.events, Departs, i) && r.events[i].time == FirstTime(r.events, Departs);
    assert r.events[i] in r.events;
    var j := FirstIndex(r.events, Departs).value;
    assert r.events[j] in r.events && !Unclear(r.events[j], now);
    assert j == i;
  }

  /** Nothing is said about a shipment outside its scope, without registration, or delivered; else only a future or unreadable
      event, or a transfer to nobody under an enabled rule, makes it uncertain. */
  lemma UncertainExactly(r: Record, policy: Policy, scope: string, now: Time)
    ensures Conditions(r, policy, scope, now).None? <==>
      && Established(r, scope)
      && (|| (exists e :: e in r.events && Unclear(e, now))
          || (&& (forall e :: e in r.events && Delivers(e) ==> e.time.None?)
              && policy.custodyHours.Some?
              && exists i: nat :: LatestTransfer(r, i) && !KnownRecipient(Lower(r.events[i].detail.recipient))))
  {
    FirstTimeExact(r.events, Delivers);
    forall i: nat | LatestTransfer(r, i) ensures LastIndex(r.events, IsTransfer) == Some(i) {
      LastIsThat(r.events, IsTransfer, i);
    }
    var last := LastIndex(r.events, IsTransfer);
    if last.Some? {
      assert LatestTransfer(r, last.value);
    }
  }

  predicate LatestTransfer(r: Record, i: nat) {
    i < |r.events| && r.events[i].detail.Transfer? && forall j :: i < j < |r.events| ==> !r.events[j].detail.Transfer?
  }

  predicate LatestCheckpoint(r: Record, i: nat) {
    i < |r.events| && r.events[i].detail.Checkpoint? && forall j :: i < j < |r.events| ==> !r.events[j].detail.Checkpoint?
  }

  predicate FirstDeparture(r: Record, i: nat) {
    i < |r.events| && Departs(r.events[i]) && forall j :: 0 <= j < i ==> !Departs(r.events[j])
  }

  /** A receiving handler's follow-up is overdue exactly when no later checkpoint is theirs and the interval has passed. */
  lemma CustodyOverdueExactly(r: Record, policy: Policy, scope: string, now: Time, m: map<Kind, Condition>)
    requires Established(r, scope) && FirstTime(r.events, Delivers).None? && Conditions(r, policy, scope, now) == Some(m)
    ensures CustodyFollowup in m <==>
      policy.custodyHours.Some? && exists i: nat ::
        && LatestTransfer(r, i)
        && r.events[i].time.Some? && r.events[i].time.value + policy.custodyHours.value * 3600.0 <= now
        && forall j :: i < j < |r.events| && r.events[j].detail.Checkpoint? ==>
             Lower(r.events[j].detail.handler) != Lower(r.events[i].detail.recipient)
  {
    forall i: nat | LatestTransfer(r, i) ensures LastIndex(r.events, IsTransfer) == Some(i) {
      LastIsThat(r.events, IsTransfer, i);
    }
    var last := LastIndex(r.events, IsTransfer);
    if last.Some? {
      assert r.events[last.value] in r.events && !Unclear(r.events[last.value], now);
      assert LatestTransfer(r, last.value);
    }
  }

  lemma LatestCheckpointKnown(r: Record, now: Time)
    requires !exists e :: e in r.events && Unclear(e, now)
    ensures forall i: nat :: LatestCheckpoint(r, i) ==> LastIndex(r.events, IsCheckpoint) == Some(i)
    ensures LastIndex(r.events, IsCheckpoint).Some? ==>
      LatestCheckpoint(r, LastIndex(r.events, IsCheckpoint).value) && r.events[LastIndex(r.events, IsCheckpoint).value].time.Some?
  {
    forall i: nat | LatestCheckpoint(r, i) ensures LastIndex(r.events, IsCheckpoint) == Some(i) {
      LastIsThat(r.events, IsCheckpoint, i);
    }
    var last := LastIndex(r.events, IsCheckpoint);
    if last.Some? {
      assert r.events[last.value] in r.events && !Unclear(r.events[last.value], now);
    }
  }

  /** A follow-up at a checkpoint is overdue exactly when the latest checkpoint is a stop and its interval has passed. */
  lemma WaitOverdueExactly(r: Record, policy: Policy, scope: string, now: Time, m: map<Kind, Condition>)
    requires Established(r, scope) && FirstTime(r.events, Delivers).None? && Conditions(r, policy, scope, now) == Some(m)
    ensures CheckpointWait in m <==>
      policy.checkpointHours.Some? && exists i: nat ::
        && LatestCheckpoint(r, i) && r.events[i].detail.status == "2"
        && r.events[i].time.Some? && r.events[i].time.value + policy.checkpointHours.value * 3600.0 <= now
  {
    LatestCheckpointKnown(r, now);
  }

  /** Activity is overdue exactly when the journey has departed, the latest checkpoint is no stop and the interval has passed. */
  lemma InactivityOverdueExactly(r: Record, policy: Policy, scope: string, now: Time, m: map<Kind, Condition>)
    requires Established(r, scope) && FirstTime(r.events, Delivers).None? && Conditions(r, policy, scope, now) == Some(m)
    ensures CheckpointInactivity in m <==>
      policy.inactivityHours.Some? && (exists e :: e in r.events && Departs(e)) && exists i: nat ::
        && LatestCheckpoint(r, i) && r.events[i].detail.status != "2"
        && r.events[i].time.Some? && r.events[i].time.value + policy.inactivityHours.value * 3600.0 <= now
  {
    FirstTimeExact(r.events, Departs);
    assert forall e :: e in r.events && Departs(e) ==> !Unclear(e, now);
    LatestCheckpointKnown(r, now);
  }

  /** A planned arrival is overdue exactly when it has passed and was recorded no later than the departure. */
  lemma ArrivalOverdueExactly(r: Record, policy: Policy, scope: string, now: Time, m: map<Kind, Condition>)
    requires Established(r, scope) && FirstTime(r.events, Delivers).None? && Conditions(r, policy, scope, now) == Some(m)
    ensures ArrivalOverdue in m <==>
      && policy.arrivalEnabled && r.shipment.plannedArrival.Some? && r.shipment.planRecorded.Some?
      && r.shipment.plannedArrival.value <= now
      && exists i: nat :: FirstDeparture(r, i) && r.events[i].time.Some? && r.shipment.planRecorded.value <= r.events[i].time.value
  {
    FirstTimeExact(r.events, Departs);
    forall i: nat | FirstDeparture(r, i) ensures FirstIndex(r.events, Departs) == Some(i) {
      FirstIsThat(r.events, Departs, i);
    }
    if FirstTime(r.events, Departs).Some? {
      ArrivalAnchor(r, scope, now);
      assert FirstDeparture(r, FirstIndex(r.events, Departs).value);
    }
  }

  predicate Sound(r: Record, now: Time, m: map<Kind, Condition>) {
    forall k :: k in m ==>
      && m[k].fingerprint.kind == k && m[k].fingerprint.due == m[k].triggeredAt <= now
      && m[k].proof.occurrence == m[k].fingerprint.occurrence
      && exists e :: e in r.events && e.occurrence == m[k].proof.occurrence
  }

  lemma RaiseSound(r: Record, kind: Kind, i: nat, due: Time, threshold: Option<real>, now: Time, proof: Proof)
    requires i < |r.events| && proof.occurrence == r.events[i].occurrence
    ensures Sound(r, now, Raise(kind, r.events[i], due, threshold, now, proof))
  {
    assert r.events[i] in r.events;
  }

  lemma RulesSound(r: Record, policy: Policy, now: Time)
    ensures Sound(r, now, ArrivalRule(r, policy, now)) && Sound(r, now, CheckpointRule(r, policy, now))
    ensures CustodyRule(r, policy, now).Some? ==> Sound(r, now, CustodyRule(r, policy, now).value)
  {
    forall k: Kind, i: nat, due: Time, h: Option<real>, p: Proof | i < |r.events| && p.occurrence == r.events[i].occurrence
      ensures Sound(r, now, Raise(k, r.events[i], due, h, now, p))
    {
      RaiseSound(r, k, i, due, h, now, p);
    }
  }

  lemma SoundTogether(r: Record, now: Time, a: map<Kind, Condition>, b: map<Kind, Condition>, c: map<Kind, Condition>)
    requires Sound(r, now, a) && Sound(r, now, b) && Sound(r, now, c)
    ensures Sound(r, now, a + b + c)
  {
    forall k | k in a + b + c ensures (a + b + c)[k] == if k in c then c[k] else if k in b then b[k] else a[k] {}
  }

  /** Each condition carries its own kind, is anchored in one of the events, and is due. */
  lemma Grounded(r: Record, policy: Policy, scope: string, now: Time)
    ensures Conditions(r, policy, scope, now).Some? ==> Sound(r, now, Conditions(r, policy, scope, now).value)
  {
    RulesSound(r, policy, now);
    if CustodyRule(r, policy, now).Some? {
      SoundTogether(r, now, ArrivalRule(r, policy, now), CheckpointRule(r, policy, now), CustodyRule(r, policy, now).value);
    }
  }

  // ---- stability ----

  predicate Persists(a: map<Kind, Condition>, b: map<Kind, Condition>) {
    forall k :: k in a ==> k in b && b[k] == a[k]
  }

  lemma ArrivalPersists(r: Record, policy: Policy, now: Time, later: Time)
    requires now <= later
    ensures Persists(ArrivalRule(r, policy, now), ArrivalRule(r, policy, later))
    ensures ArrivalRule(r, policy, later).Keys <= {ArrivalOverdue}
  {}

  lemma CheckpointPersists(r: Record, policy: Policy, now: Time, later: Time)
    requires now <= later
    ensures Persists(CheckpointRule(r, policy, now), CheckpointRule(r, policy, later))
    ensures CheckpointRule(r, policy, later).Keys <= {CheckpointWait, CheckpointInactivity}
  {}

  lemma CustodyPersists(r: Record, policy: Policy, now: Time, later: Time)
    requires now <= later
    ensures CustodyRule(r, policy, now).None? <==> CustodyRule(r, policy, later).None?
    ensures CustodyRule(r, policy, now).Some? ==>
      && Persists(CustodyRule(r, policy, now).value, CustodyRule(r, policy, later).value)
      && CustodyRule(r, policy, later).value.Keys <= {CustodyFollowup}
  {}

  lemma PersistTogether(a: map<Kind, Condition>, b: map<Kind, Condition>, c: map<Kind, Condition>,
                        x: map<Kind, Condition>, y: map<Kind, Condition>, z: map<Kind, Condition>)
    requires Persists(a, x) && Persists(b, y) && Persists(c, z)
    requires x.Keys <= {ArrivalOverdue} && y.Keys <= {CheckpointWait, CheckpointInactivity} && z.Keys <= {CustodyFollowup}
    ensures Persists(a + b + c, x + y + z)
  {}

  /** Time alone never withdraws or changes a condition: with the same events and policy it is still there later. */
  lemma Persistent(r: Record, policy: Policy, scope: string, now: Time, later: Time)
    requires now <= later && Conditions(r, policy, scope, now).Some?
    ensures Conditions(r, policy, scope, later).Some?
    ensures Persists(Conditions(r, policy, scope, now).value, Conditions(r, policy, scope, later).value)
  {
    forall e | e in r.events && Established(r, scope) ensures !Unclear(e, later) {
      assert !Unclear(e, now);
    }
    ArrivalPersists(r, policy, now, later);
    CheckpointPersists(r, policy, now, later);
    CustodyPersists(r, policy, now, later);
    if CustodyRule(r, policy, now).Some? {
      PersistTogether(ArrivalRule(r, policy, now), CheckpointRule(r, policy, now), CustodyRule(r, policy, now).value,
                      ArrivalRule(r, policy, later), CheckpointRule(r, policy, later), CustodyRule(r, policy, later).value);
    }
  }

  predicate SameEpisodes(a: map<Kind, Condition>, b: map<Kind, Condition>) {
    a.Keys == b.Keys && forall k :: k in a ==> b[k].fingerprint == a[k].fingerprint
  }

  /** A new policy revision with the same rules changes no fingerprint, so no episode is replaced by it. */
  lemma RevisionKeepsEpisodes(r: Record, policy: Policy, revised: Policy, scope: string, now: Time)
    requires revised == policy.(revision := revised.revision) && Conditions(r, policy, scope, now).Some?
    ensures Conditions(r, revised, scope, now).Some?
    ensures SameEpisodes(Conditions(r, policy, scope, now).value, Conditions(r, revised, scope, now).value)
  {
    assert SameEpisodes(ArrivalRule(r, policy, now), ArrivalRule(r, revised, now));
    assert SameEpisodes(CheckpointRule(r, policy, now), CheckpointRule(r, revised, now));
    RevisionKeepsCustody(r, policy, revised, now);
  }

  lemma RevisionKeepsCustody(r: Record, policy: Policy, revised: Policy, now: Time)
    requires revised == policy.(revision := revised.revision)
    ensures CustodyRule(r, policy, now).None? <==> CustodyRule(r, revised, now).None?
    ensures CustodyRule(r, policy, now).Some? ==> SameEpisodes(CustodyRule(r, policy, now).value, CustodyRule(r, revised, now).value)
  {}
}
