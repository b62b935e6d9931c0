/**
 * The kernel-path aggregator as a state machine on values, with a ledger of what became of every event.
 *
 * A path is represented here by the group of events it is (or would be) built from. The order in which the program's
 * hash map yields its keys is not determined by the program, so it appears as part of each operation.
 */
module PathLedger {
  import opened Prelude
  import opened PathModel

  type Group = seq<PathEvent>

  datatype Pending = Pending(events: Group, lastUpdate: nat)

  /** `ingested`, `handed`, `dropped` and `closed` are the ledger; the program stores the other three fields. */
  datatype State = State(
    pending: map<nat, Pending>,
    completed: seq<Group>,
    lastExpiry: nat,
    ingested: seq<PathEvent>,
    handed: seq<Group>,
    dropped: seq<Group>,
    closed: seq<Group>)

  const MAX_PENDING := 10_000
  const MAX_COMPLETED := 10_000
  const EVICTED := 5_000
  const SWEEP_MILLIS := 20
  const EXPIRY_MILLIS := 50

  datatype Op =
    | Ingest(events: seq<PathEvent>, now: nat, expired: seq<nat>, oldest: seq<nat>)
    | Drain
    | Extract(flow: Flow, choice: Option<nat>)
    | Flush(order: seq<nat>)

  /** The whole milliseconds between two times in nanoseconds, 0 if the earlier one is later. */
  function ElapsedMillis(now: nat, earlier: nat): (ms: nat) {
    SaturatingSub(now, earlier) / 1_000_000
  }

  function Start(now: nat): (s: State) {
    State(map[], [], now, [], [], [], [])
  }

  /** The buffer of `e` now belongs to another packet than that of the events `g`. */
  predicate IsReuse(g: Group, e: PathEvent) {
    g != [] && (g[0].flow.srcAddr != e.flow.srcAddr || g[0].flow.dstAddr != e.flow.dstAddr
                || g[0].flow.protocol != e.flow.protocol)
  }

  /** Finish the group `g`: it becomes a completed path unless it is empty. */
  function Complete(s: State, g: Group): (r: State) {
    if g == [] then s else s.(completed := s.completed + [g], closed := s.closed + [g])
  }

  function IngestOne(s: State, e: PathEvent, now: nat): (r: State) {
    var g := if e.skbPtr in s.pending then s.pending[e.skbPtr].events else [];
    var t := if IsReuse(g, e) then Complete(s, g) else s;
    var kept := if IsReuse(g, e) then [] else g;
    t.(pending := t.pending[e.skbPtr := Pending(kept + [e], now)], ingested := t.ingested + [e])
  }

  function IngestAll(s: State, events: seq<PathEvent>, now: nat): (r: State) {
    if events == [] then s
    else IngestOne(IngestAll(s, events[..|events| - 1], now), events[|events| - 1], now)
  }

  function Finish(s: State, key: nat): (r: State) {
    if key in s.pending then Complete(s.(pending := s.pending - {key}), s.pending[key].events) else s
  }

  function FinishAll(s: State, keys: seq<nat>): (r: State) {
    if keys == [] then s else Finish(FinishAll(s, keys[..|keys| - 1]), keys[|keys| - 1])
  }

  function CapPending(s: State, oldest: seq<nat>): (r: State) {
    if |s.pending| > MAX_PENDING && |oldest| >= EVICTED then FinishAll(s, oldest[..EVICTED]) else s
  }

  function CapCompleted(s: State): (r: State) {
    if |s.completed| > MAX_COMPLETED then
      s.(completed := s.completed[EVICTED..], dropped := s.dropped + s.completed[..EVICTED])
    else s
  }

  function Expire(s: State, expired: seq<nat>, oldest: seq<nat>): (r: State) {
    CapCompleted(CapPending(FinishAll(s, expired), oldest))
  }

  predicate SweepDue(s: State, now: nat) {
    ElapsedMillis(now, s.lastExpiry) >= SWEEP_MILLIS
  }

  predicate HasFlow(g: Group, flow: Flow) {
    g != [] && (g[0].flow == flow || g[0].flow == flow.Reverse())
  }

  function Apply(s: State, op: Op): (r: State) {
    match op
    case Ingest(events, now, expired, oldest) =>
      var t := IngestAll(s, events, now);
      if SweepDue(t, now) then Expire(t, expired, oldest).(lastExpiry := now) else t
    case Drain => s.(completed := [], handed := s.handed + s.completed)
    case Extract(_, choice) =>
      if choice.Some? && choice.value in s.pending then
        var g := s.pending[choice.value].events;
        s.(pending := s.pending - {choice.value}, handed := s.handed + [g], closed := s.closed + [g])
      else s
    case Flush(order) => FinishAll(s, order)
  }

  // ----- Which choices the program can make -----

  ghost predicate Enumerates(order: seq<nat>, keys: set<nat>) {
    && (forall k :: k in order <==> k in keys)
    && (forall i, j :: 0 <= i < j < |order| ==> order[i] != order[j])
  }

  ghost function StaleKeys(pending: map<nat, Pending>, now: nat): (keys: set<nat>) {
    set k | k in pending && ElapsedMillis(now, pending[k].lastUpdate) >= EXPIRY_MILLIS
  }

  ghost predicate OldestFirst(order: seq<nat>, pending: map<nat, Pending>) {
    && Enumerates(order, pending.Keys)
    && (forall i, j :: 0 <= i < j < |order| ==> pending[order[i]].lastUpdate <= pending[order[j]].lastUpdate)
  }

  /** The best match is a pending path of the flow, in either direction, with the most events. */
  ghost predicate IsBestMatch(pending: map<nat, Pending>, flow: Flow, choice: Option<nat>) {
    match choice
    case None => forall k :: k in pending ==> !HasFlow(pending[k].events, flow)
    case Some(best) =>
      && best in pending && HasFlow(pending[best].events, flow)
      && forall k :: k in pending && HasFlow(pending[k].events, flow) ==> |pending[k].events| <= |pending[best].events|
  }

  /** Which path is extracted does not depend on the direction in which the flow is asked for. */
  lemma ExtractionIgnoresDirection(pending: map<nat, Pending>, flow: Flow, choice: Option<nat>)
    ensures IsBestMatch(pending, flow, choice) <==> IsBestMatch(pending, flow.Reverse(), choice)
  {
    forall g: Group ensures HasFlow(g, flow) <==> HasFlow(g, flow.Reverse()) {
      ReverseTwice(flow);
    }
  }

  /** A group is of a flow if its first event has the flow's ends and protocol, in the same or the opposite direction. */
  lemma FlowIsFiveTuple(g: Group, f: Flow)
    ensures HasFlow(g, f) <==>
              && g != [] && g[0].flow.protocol == f.protocol
              && (|| (g[0].flow.srcAddr == f.srcAddr && g[0].flow.srcPort == f.srcPort
                      && g[0].flow.dstAddr == f.dstAddr && g[0].flow.dstPort == f.dstPort)
                  || (g[0].flow.srcAddr == f.dstAddr && g[0].flow.srcPort == f.dstPort
                      && g[0].flow.dstAddr == f.srcAddr && g[0].flow.dstPort == f.srcPort))
  {}

  ghost predicate Allowed(s: State, op: Op) {
    match op
    case Ingest(events, now, expired, oldest) =>
      var t := IngestAll(s, events, now);
      SweepDue(t, now) ==>
        && Enumerates(expired, StaleKeys(t.pending, now))
        && OldestFirst(oldest, FinishAll(t, expired).pending)
    case Drain => true
    case Extract(flow, choice) => IsBestMatch(s.pending, flow, choice)
    case Flush(order) => Enumerates(order, s.pending.Keys)
  }

  /** The state after a series of operations, each with whatever choices the hash map made. */
  function Run(s: State, ops: seq<Op>): (r: State) {
    if ops == [] then s else Apply(Run(s, ops[..|ops| - 1]), ops[|ops| - 1])
  }

  // ----- What every operation keeps -----

  /** The events of one buffer, in order. */
  ghost function OfBuffer(es: seq<PathEvent>, skb: nat): (r: seq<PathEvent>) {
    if es == [] then []
    else OfBuffer(es[..|es| - 1], skb) + if es[|es| - 1].skbPtr == skb then [es[|es| - 1]] else []
  }

  /** The events of all groups of one buffer, in order. */
  ghost function Joined(groups: seq<Group>, skb: nat): (r: seq<PathEvent>) {
    if groups == [] then []
    else
      var g := groups[|groups| - 1];
      Joined(groups[..|groups| - 1], skb) + if g != [] && g[0].skbPtr == skb then g else []
  }

  ghost predicate GoodGroup(g: Group) {
    g != [] && OneFlow(g)
  }

  ghost function PendingOf(s: State, skb: nat): (g: Group) {
    if skb in s.pending then s.pending[skb].events else []
  }

  /** For each buffer, its finished groups one after the other and then its pending events are its ingested events. */
  ghost predicate Balanced(s: State) {
    forall skb :: BalancedAt(s, skb)
  }

  ghost predicate BalancedAt(s: State, skb: nat) {
    Joined(s.closed, skb) + PendingOf(s, skb) == OfBuffer(s.ingested, skb)
  }

  ghost predicate GoodPending(pending: map<nat, Pending>) {
    forall k :: k in pending ==> GoodGroup(pending[k].events) && pending[k].events[0].skbPtr == k
  }

  ghost predicate Good(s: State) {
    && (forall g <- s.closed :: GoodGroup(g))
    && GoodPending(s.pending)
    && multiset(s.closed) == multiset(s.completed) + multiset(s.handed) + multiset(s.dropped)
    && Balanced(s)
  }

  lemma JoinedAppend(groups: seq<Group>, g: Group, skb: nat)
    ensures Joined(groups + [g], skb) == Joined(groups, skb) + if g != [] && g[0].skbPtr == skb then g else []
  {
    assert (groups + [g])[..|groups|] == groups;
  }

  lemma OfBufferAppend(es: seq<PathEvent>, e: PathEvent, skb: nat)
    ensures OfBuffer(es + [e], skb) == OfBuffer(es, skb) + if e.skbPtr == skb then [e] else []
  {
    assert (es + [e])[..|es|] == es;
  }

  /** Taking the pending path of `key` and closing its group. */
  lemma CloseKeepsBalance(s: State, key: nat, skb: nat)
    requires Good(s) && key in s.pending
    ensures BalancedAt(s.(pending := s.pending - {key}, closed := s.closed + [s.pending[key].events]), skb)
  {
    var g := s.pending[key].events;
    assert BalancedAt(s, skb);
    JoinedAppend(s.closed, g, skb);
    var joined := Joined(s.closed, skb);
    if skb == key {
      assert joined + g + [] == joined + g;
    } else {
      assert joined + [] == joined;
    }
  }

  lemma FinishKeepsGood(s: State, key: nat)
    requires Good(s)
    ensures Good(Finish(s, key))
  {
    if key in s.pending {
      var r := Finish(s, key);
      forall skb ensures BalancedAt(r, skb) {
        CloseKeepsBalance(s, key, skb);
        assert PendingOf(r, skb) == PendingOf(s.(pending := s.pending - {key}), skb);
      }
    }
  }

  lemma {:induction false} FinishAllKeepsGood(s: State, keys: seq<nat>)
    requires Good(s)
    ensures Good(FinishAll(s, keys))
  {
    if keys != [] {
      FinishAllKeepsGood(s, keys[..|keys| - 1]);
      FinishKeepsGood(FinishAll(s, keys[..|keys| - 1]), keys[|keys| - 1]);
    }
  }

  lemma ExtendGroup(g: Group, e: PathEvent)
    requires g == [] || (GoodGroup(g) && g[0].skbPtr == e.skbPtr && !IsReuse(g, e))
    ensures GoodGroup(g + [e]) && (g + [e])[0].skbPtr == e.skbPtr
  {
    forall x | x in g + [e] ensures SamePacket((g + [e])[0], x) {}
  }

  lemma AddKeepsBalance(s: State, e: PathEvent, now: nat, skb: nat)
    requires BalancedAt(s, skb) && !IsReuse(PendingOf(s, e.skbPtr), e)
    ensures BalancedAt(IngestOne(s, e, now), skb)
  {
    OfBufferAppend(s.ingested, e, skb);
    var joined, g := Joined(s.closed, skb), PendingOf(s, skb);
    assert joined + (g + [e]) == joined + g + [e];
    assert joined + g + [] == joined + g;
  }

  lemma AddKeepsGood(s: State, e: PathEvent, now: nat)
    requires Good(s) && !IsReuse(PendingOf(s, e.skbPtr), e)
    ensures Good(IngestOne(s, e, now))
  {
    ExtendGroup(PendingOf(s, e.skbPtr), e);
    forall skb ensures BalancedAt(IngestOne(s, e, now), skb) {
      assert BalancedAt(s, skb);
      AddKeepsBalance(s, e, now, skb);
    }
  }

  /** A reused buffer: the old path is finished, then the event starts a new one. */
  lemma ReuseIsFinishThenAdd(s: State, e: PathEvent, now: nat)
    requires e.skbPtr in s.pending && IsReuse(s.pending[e.skbPtr].events, e)
    ensures IngestOne(s, e, now) == IngestOne(Finish(s, e.skbPtr), e, now)
  {
    assert (s.pending - {e.skbPtr})[e.skbPtr := Pending([e], now)] == s.pending[e.skbPtr := Pending([e], now)];
    assert [] + [e] == [e];
  }

  lemma IngestOneKeepsGood(s: State, e: PathEvent, now: nat)
    requires Good(s)
    ensures Good(IngestOne(s, e, now))
  {
    if e.skbPtr in s.pending && IsReuse(s.pending[e.skbPtr].events, e) {
      ReuseIsFinishThenAdd(s, e, now);
      FinishKeepsGood(s, e.skbPtr);
      AddKeepsGood(Finish(s, e.skbPtr), e, now);
    } else {
      AddKeepsGood(s, e, now);
    }
  }

  lemma {:induction false} IngestAllKeepsGood(s: State, events: seq<PathEvent>, now: nat)
    requires Good(s)
    ensures Good(IngestAll(s, events, now))
    ensures IngestAll(s, events, now).ingested == s.ingested + events
  {
    if events != [] {
      IngestAllKeepsGood(s, events[..|events| - 1], now);
      IngestOneKeepsGood(IngestAll(s, events[..|events| - 1], now), events[|events| - 1], now);
      assert events == events[..|events| - 1] + [events[|events| - 1]];
    }
  }

  lemma CapCompletedKeepsGood(s: State)
    requires Good(s)
    ensures Good(CapCompleted(s))
  {
    if |s.completed| > MAX_COMPLETED {
      assert s.completed == s.completed[..EVICTED] + s.completed[EVICTED..];
      SameLedgerKeepsGood(s, CapCompleted(s));
    }
  }

  lemma ExpireKeepsGood(s: State, expired: seq<nat>, oldest: seq<nat>)
    requires Good(s)
    ensures Good(Expire(s, expired, oldest))
  {
    FinishAllKeepsGood(s, expired);
    var t := FinishAll(s, expired);
    if |oldest| >= EVICTED { FinishAllKeepsGood(t, oldest[..EVICTED]); }
    CapCompletedKeepsGood(CapPending(t, oldest));
  }

  /** Moves that leave pending paths, closed groups and ingested events alone. */
  lemma SameLedgerKeepsGood(s: State, r: State)
    requires Good(s) && r.pending == s.pending && r.closed == s.closed && r.ingested == s.ingested
    requires multiset(r.completed) + multiset(r.handed) + multiset(r.dropped) == multiset(s.closed)
    ensures Good(r)
  {
    forall skb ensures BalancedAt(r, skb) { assert BalancedAt(s, skb); }
  }

  lemma ExtractKeepsGood(s: State, flow: Flow, choice: Option<nat>)
    requires Good(s)
    ensures Good(Apply(s, Extract(flow, choice)))
  {
    if choice.Some? && choice.value in s.pending {
      var r := Apply(s, Extract(flow, choice));
      forall skb ensures BalancedAt(r, skb) { CloseKeepsBalance(s, choice.value, skb); }
    }
  }

  /** Every operation keeps the books, whatever the hash map's order. */
  lemma ApplyKeepsGood(s: State, op: Op)
    requires Good(s)
    ensures Good(Apply(s, op))
  {
    match op {
      case Ingest(events, now, expired, oldest) =>
        IngestAllKeepsGood(s, events, now);
        var t := IngestAll(s, events, now);
        ExpireKeepsGood(t, expired, oldest);
        SameLedgerKeepsGood(Expire(t, expired, oldest), Expire(t, expired, oldest).(lastExpiry := now));
      case Drain => SameLedgerKeepsGood(s, Apply(s, op));
      case Extract(flow, choice) => ExtractKeepsGood(s, flow, choice);
      case Flush(order) => FinishAllKeepsGood(s, order);
    }
  }

  lemma {:induction false} RunKeepsGood(now: nat, ops: seq<Op>)
    ensures Good(Run(Start(now), ops))
  {
    if ops != [] {
      RunKeepsGood(now, ops[..|ops| - 1]);
      ApplyKeepsGood(Run(Start(now), ops[..|ops| - 1]), ops[|ops| - 1]);
    }
  }
}
