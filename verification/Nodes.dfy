/** The RPC provider as an adversary: any call may fail, and the chain it answers from may change between calls. */
module Nodes {
  import opened Prelude
  import opened Chains

  datatype Kind = Registered | MetadataUpdated | Checkpoint | Custody | Delivery

  function KindOf(e: Event): Kind {
    match e.log.payload
    case ProductRegistered(_, _, _, _, _) => Registered
    case ProductMetadataUpdated(_) => MetadataUpdated
    case CheckpointRecorded(_, _, _, _, _) => Checkpoint
    case CustodyTransferred(_, _, _) => Custody
    case DeliveryCompleted(_, _) => Delivery
  }

  /** The order in which the log filters are queried. */
  const KINDS := [Registered, MetadataUpdated, Checkpoint, Custody, Delivery]

  function OfKind(es: seq<Event>, kind: Kind): seq<Event> {
    if es == [] then [] else (if KindOf(es[0]) == kind then [es[0]] else []) + OfKind(es[1..], kind)
  }

  predicate AgreeUpTo(a: View, b: View, n: nat) {
    n < |a| && n < |b| && a[..n + 1] == b[..n + 1]
  }

  class Node {
    const view: nat -> View
    const fails: nat -> bool
    var clock: nat

    constructor (view: nat -> View, fails: nat -> bool)
      ensures this.view == view && this.fails == fails && clock == 0
    {
      this.view, this.fails, clock := view, fails, 0;
    }

    /** Only genuine chains are ever shown. */
    ghost predicate Honest(history: Hash -> View) {
      forall t {:trigger Genuine(history, view(t))} :: Genuine(history, view(t))
    }

    /** From the given call on, the node does not leave a block up to `target` and come back to it. */
    ghost predicate NoReturn(from: nat, target: nat) {
      forall n: nat :: n <= target ==> KeepsBlock(from, n)
    }

    ghost predicate KeepsBlock(from: nat, n: nat) {
      forall h :: Uninterrupted(from, n, h)
    }

    /** Between two answered calls that show block n under hash h, every call shows it. Calls that fail show nothing, so
        a schedule whose calls all fail after some point is restricted up to that point only. */
    ghost predicate Uninterrupted(from: nat, n: nat, h: Hash) {
      forall i, j, k :: from <= i <= j <= k && !fails(i) && !fails(k) && Shows(view(i), n, h) && Shows(view(k), n, h) ==>
        Shows(view(j), n, h)
    }

    /** From this call on no call fails and the chain does not change. */
    ghost predicate Quiet(from: nat) {
      forall t :: from <= t ==> !fails(t) && view(t) == view(from)
    }

    method Head() returns (head: Option<nat>)
      modifies this`clock
      ensures clock == old(clock) + 1
      ensures head == if fails(old(clock)) || view(old(clock)) == [] then None else Some(|view(old(clock))| - 1)
    {
      head := if fails(clock) || view(clock) == [] then None else Some(|view(clock)| - 1);
      clock := clock + 1;
    }

    method Header(n: nat) returns (hash: Option<Hash>)
      modifies this`clock
      ensures clock == old(clock) + 1
      ensures hash.Some? ==> Shows(view(old(clock)), n, hash.value)
      ensures hash.None? <==> fails(old(clock)) || n >= |view(old(clock))|
    {
      hash := if fails(clock) || n >= |view(clock)| then None else Some(view(clock)[n].hash);
      clock := clock + 1;
    }

    /** One log filter over the blocks (low, high] of whatever chain the node shows at that moment. */
    method Logs(kind: Kind, low: nat, high: nat) returns (logs: Option<seq<Event>>)
      modifies this`clock
      ensures clock == old(clock) + 1
      ensures logs == if fails(old(clock)) then None else Some(OfKind(EventsIn(view(old(clock)), low, high), kind))
    {
      logs := if fails(clock) then None else Some(OfKind(EventsIn(view(clock), low, high), kind));
      clock := clock + 1;
    }

    /** The historical read behind one registration; its answer is part of the event's payload. */
    method Details() returns (ok: bool)
      modifies this`clock
      ensures clock == old(clock) + 1
      ensures ok == !fails(old(clock))
    {
      ok := !fails(clock);
      clock := clock + 1;
    }
  }

  ghost predicate CallFailed(node: Node, from: nat, to: nat) {
    exists t :: from <= t < to && node.fails(t)
  }

  /** Between two calls the node's chain agreed with v up to block n. */
  ghost predicate Steady(node: Node, v: View, from: nat, to: nat, n: nat) {
    WellFormed(v) && forall t :: from <= t < to ==> AgreeUpTo(node.view(t), v, n)
  }

  // A predicate written `forall w :: w == v ==> P(w)` says P(v) and no more. The one-point quantifier keeps P closed where the
  // predicate is only passed on, as a loop invariant is; a proof that needs P(v) names it, or calls the lemma beside the
  // predicate. Predicates of this form stand here and in IndexerInvariant, IndexerPolls, IdentityMerge and Scan.

  /** While the node's chain agrees with v up to the target, what was read so far is v's own events. */
  ghost predicate ReadSoFar(node: Node, v: View, from: nat, to: nat, target: nat, events: seq<Event>, low: nat, high: nat) {
    forall w {:trigger Steady(node, w, from, to, target)} ::
      w == v && Steady(node, w, from, to, target) ==> events == EventsIn(w, low, high)
  }

  lemma StaysQuiet(node: Node, from: nat, later: nat)
    requires node.Quiet(from) && from <= later
    ensures node.Quiet(later) && node.view(later) == node.view(from) && !node.fails(later)
  {}

  /** From here on the node neither fails nor changes, and shows the well-formed chain v up to block n. */
  ghost predicate Calm(node: Node, from: nat, v: View, n: nat) {
    forall w {:trigger WellFormed(w)} :: w == v ==> WellFormed(w) && node.Quiet(from) && node.view(from) == w && n < |w|
  }

  lemma CalmFacts(node: Node, from: nat, v: View, n: nat)
    ensures Calm(node, from, v, n) <==> WellFormed(v) && node.Quiet(from) && node.view(from) == v && n < |v|
  {}

  lemma StaysCalm(node: Node, from: nat, later: nat, v: View, n: nat, m: nat)
    requires from <= later && m <= n
    ensures Calm(node, from, v, n) ==> Calm(node, later, v, m)
  {
    CalmFacts(node, from, v, n);
    CalmFacts(node, later, v, m);
    if node.Quiet(from) { StaysQuiet(node, from, later); }
  }

  lemma CalmIsQuiet(node: Node, from: nat, v: View, n: nat)
    ensures Calm(node, from, v, n) ==> node.Quiet(from) && node.view(from) == v && n < |v|
  {
    CalmFacts(node, from, v, n);
  }

  lemma CalmIsSteady(node: Node, from: nat, to: nat, v: View, n: nat)
    ensures Calm(node, from, v, n) ==> Steady(node, v, from, to, n)
  {
    CalmFacts(node, from, v, n);
  }

  /** What a calm node answered is its chain. */
  lemma CalmReads(node: Node, from: nat, to: nat, v: View, n: nat, events: seq<Event>, low: nat)
    requires ReadSoFar(node, v, from, to, n, events, low, n)
    ensures Calm(node, from, v, n) ==> events == EventsIn(v, low, n)
  {
    CalmIsSteady(node, from, to, v, n);
  }

  lemma ReadLonger(node: Node, v: View, from: nat, mid: nat, to: nat, target: nat, events: seq<Event>, low: nat, high: nat)
    requires mid <= to && ReadSoFar(node, v, from, mid, target, events, low, high)
    ensures ReadSoFar(node, v, from, to, target, events, low, high)
  {
    if Steady(node, v, from, to, target) {
      assert Steady(node, v, from, mid, target);
    }
  }

  lemma Held(node: Node, from: nat, i: nat, j: nat, k: nat, n: nat, h: Hash)
    requires node.KeepsBlock(from, n) && from <= i <= j <= k && !node.fails(i) && !node.fails(k)
    requires Shows(node.view(i), n, h) && Shows(node.view(k), n, h)
    ensures Shows(node.view(j), n, h)
  {
    assert node.Uninterrupted(from, n, h);
  }

  // ---- merging the five answers into replay order ----

  function Insert(e: Event, es: seq<Event>): seq<Event> {
    if es == [] then [e]
    else if Before(es[0], e) then [es[0]] + Insert(e, es[1..])
    else [e] + es
  }

  function SortEvents(es: seq<Event>): seq<Event> {
    if es == [] then [] else Insert(es[0], SortEvents(es[1..]))
  }

  ghost predicate Ordered(es: seq<Event>) {
    forall i, j :: 0 <= i < j < |es| ==> !Before(es[j], es[i])
  }

  lemma {:induction false} InsertKeeps(e: Event, es: seq<Event>)
    ensures multiset(Insert(e, es)) == multiset([e]) + multiset(es)
  {
    if es != [] {
      assert es == [es[0]] + es[1..];
      InsertKeeps(e, es[1..]);
    }
  }

  lemma InsertedMember(e: Event, es: seq<Event>, x: Event)
    requires x in Insert(e, es)
    ensures x == e || x in es
  {
    InsertKeeps(e, es);
    assert x in multiset(Insert(e, es));
  }

  lemma {:induction false} InsertCorrect(e: Event, es: seq<Event>)
    requires Ordered(es)
    ensures Ordered(Insert(e, es)) && multiset(Insert(e, es)) == multiset([e]) + multiset(es)
  {
    InsertKeeps(e, es);
    if es != [] && Before(es[0], e) {
      InsertCorrect(e, es[1..]);
      var rest := Insert(e, es[1..]);
      forall j | 0 <= j < |rest| ensures !Before(rest[j], es[0]) {
        InsertedMember(e, es[1..], rest[j]);
      }
    }
  }

  lemma {:induction false} SortCorrect(es: seq<Event>)
    ensures Ordered(SortEvents(es)) && multiset(SortEvents(es)) == multiset(es)
  {
    if es != [] {
      SortCorrect(es[1..]);
      InsertCorrect(es[0], SortEvents(es[1..]));
      assert es == [es[0]] + es[1..];
    }
  }

  lemma SameFirst(sorted: seq<Event>, all: seq<Event>)
    requires Ordered(sorted) && Strict(all) && multiset(sorted) == multiset(all) && all != []
    ensures sorted != [] && sorted[0] == all[0]
  {
    assert all[0] in multiset(all);
    var i :| 0 <= i < |sorted| && sorted[i] == all[0];
    assert sorted[0] in multiset(sorted);
    var j :| 0 <= j < |all| && all[j] == sorted[0];
  }

  lemma TailMultiset(s: seq<Event>)
    requires s != []
    ensures multiset(s[1..]) == multiset(s) - multiset{s[0]}
  {
    assert s == [s[0]] + s[1..];
  }

  /** An ordered arrangement of strictly ordered events is that strict order. */
  lemma {:induction false} OrderedIsStrict(sorted: seq<Event>, all: seq<Event>)
    requires Ordered(sorted) && Strict(all) && multiset(sorted) == multiset(all)
    ensures sorted == all
  {
    if all == [] {
      assert |multiset(sorted)| == 0;
    } else {
      SameFirst(sorted, all);
      TailMultiset(sorted);
      TailMultiset(all);
      OrderedIsStrict(sorted[1..], all[1..]);
      assert sorted == [sorted[0]] + sorted[1..] && all == [all[0]] + all[1..];
    }
  }

  /** The answers of the first n filters over the same events, one after the other. */
  function Gathered(all: seq<Event>, n: nat): seq<Event>
    requires n <= |KINDS|
  {
    if n == 0 then [] else Gathered(all, n - 1) + OfKind(all, KINDS[n - 1])
  }

  lemma {:induction false} KindsPartition(all: seq<Event>)
    ensures multiset(all) == multiset(OfKind(all, Registered)) + multiset(OfKind(all, MetadataUpdated))
                           + multiset(OfKind(all, Checkpoint)) + multiset(OfKind(all, Custody)) + multiset(OfKind(all, Delivery))
  {
    if all != [] {
      KindsPartition(all[1..]);
      assert all == [all[0]] + all[1..];
    }
  }

  /** Sorting the five answers restores exactly the chain's own order. */
  lemma GatheredSorted(all: seq<Event>)
    requires Strict(all)
    ensures SortEvents(Gathered(all, 5)) == all
  {
    var parts := Gathered(all, 5);
    assert parts == Gathered(all, 4) + OfKind(all, Delivery);
    assert Gathered(all, 4) == Gathered(all, 3) + OfKind(all, Custody);
    assert Gathered(all, 3) == Gathered(all, 2) + OfKind(all, Checkpoint);
    assert Gathered(all, 2) == Gathered(all, 1) + OfKind(all, MetadataUpdated);
    assert Gathered(all, 1) == Gathered(all, 0) + OfKind(all, Registered);
    KindsPartition(all);
    SortCorrect(parts);
    OrderedIsStrict(SortEvents(parts), all);
  }

  /** The answers of the first n filters, as far as the node kept showing v. */
  ghost predicate GatheredSoFar(node: Node, v: View, from: nat, to: nat, low: nat, end: nat, result: seq<Event>, n: nat) {
    n <= |KINDS| && forall w {:trigger Steady(node, w, from, to, end)} ::
      w == v && Steady(node, w, from, to, end) ==> result == Gathered(EventsIn(w, low, end), n)
  }

  lemma GatherNext(node: Node, v: View, from: nat, at: nat, to: nat, low: nat, end: nat, result: seq<Event>, n: nat)
    requires from <= at < to && n < |KINDS| && GatheredSoFar(node, v, from, at, low, end, result, n)
    ensures GatheredSoFar(node, v, from, to, low, end, result + OfKind(EventsIn(node.view(at), low, end), KINDS[n]), n + 1)
  {
    if Steady(node, v, from, to, end) {
      assert Steady(node, v, from, at, end);
      EventsInPrefix(node.view(at), v, low, end);
    }
  }

  lemma GatherDone(node: Node, v: View, from: nat, to: nat, low: nat, end: nat, result: seq<Event>)
    requires GatheredSoFar(node, v, from, to, low, end, result, |KINDS|)
    ensures ReadSoFar(node, v, from, to, end, SortEvents(result), low, end)
  {
    if Steady(node, v, from, to, end) {
      EventsInStrict(v, low, end);
      GatheredSorted(EventsIn(v, low, end));
    }
  }
}
