/** Kernel path events and the packet paths built from them. */
module PathModel {
  import opened Prelude

  datatype Flow = Flow(srcAddr: nat, dstAddr: nat, srcPort: nat, dstPort: nat, protocol: nat) {
    function Reverse(): (r: Flow)
      ensures r == this <==> srcAddr == dstAddr && srcPort == dstPort
    {
      Flow(dstAddr, srcAddr, dstPort, srcPort, protocol)
    }
  }

  lemma ReverseTwice(f: Flow)
    ensures f.Reverse().Reverse() == f
  {}

  datatype PathEvent = PathEvent(skbPtr: nat, timestamp: nat, flow: Flow, funcId: nat)

  datatype PathHop = PathHop(funcId: nat, timestamp: nat, delta: nat)

  datatype PacketPath = PacketPath(hops: seq<PathHop>, firstSeen: nat, lastSeen: nat, flow: Flow) {
    function TotalNs(): (n: nat) {
      SaturatingSub(lastSeen, firstSeen)
    }
  }

  function SaturatingSub(a: nat, b: nat): (d: nat) {
    if a >= b then a - b else 0
  }

  /** Insert `e` behind every event that is not later than it. */
  function InsertByTime(es: seq<PathEvent>, e: PathEvent): (r: seq<PathEvent>) {
    if es == [] || es[|es| - 1].timestamp <= e.timestamp then es + [e]
    else InsertByTime(es[..|es| - 1], e) + [es[|es| - 1]]
  }

  /** The events ordered by time, those of one moment in the order they came in. */
  function SortByTime(es: seq<PathEvent>): (r: seq<PathEvent>) {
    if es == [] then [] else InsertByTime(SortByTime(es[..|es| - 1]), es[|es| - 1])
  }

  function HopsFrom(es: seq<PathEvent>, start: nat): (hops: seq<PathHop>)
    ensures |hops| == |es|
    ensures forall i :: 0 <= i < |es| ==>
              hops[i] == PathHop(es[i].funcId, es[i].timestamp, SaturatingSub(es[i].timestamp, start))
  {
    seq(|es|, i requires 0 <= i < |es| =>
      PathHop(es[i].funcId, es[i].timestamp, SaturatingSub(es[i].timestamp, start)))
  }

  function BuildPath(events: seq<PathEvent>): (p: Option<PacketPath>)
    ensures p.None? <==> events == []
  {
    if events == [] then None
    else
      SortKeepsEvents(events);
      var sorted := SortByTime(events);
      var first, last := sorted[0], sorted[|sorted| - 1];
      Some(PacketPath(HopsFrom(sorted, first.timestamp), first.timestamp, last.timestamp, first.flow))
  }

  // ----- Sorting -----

  ghost predicate TimeSorted(es: seq<PathEvent>) {
    forall i, j :: 0 <= i <= j < |es| ==> es[i].timestamp <= es[j].timestamp
  }

  /** The events at one moment, in order. */
  ghost function AtTime(es: seq<PathEvent>, t: nat): (r: seq<PathEvent>) {
    if es == [] then []
    else AtTime(es[..|es| - 1], t) + if es[|es| - 1].timestamp == t then [es[|es| - 1]] else []
  }

  lemma {:induction false} InsertKeepsEvents(es: seq<PathEvent>, e: PathEvent)
    ensures |InsertByTime(es, e)| == |es| + 1
    ensures multiset(InsertByTime(es, e)) == multiset(es) + multiset{e}
  {
    if es != [] && es[|es| - 1].timestamp > e.timestamp {
      InsertKeepsEvents(es[..|es| - 1], e);
      assert es == es[..|es| - 1] + [es[|es| - 1]];
    }
  }

  lemma {:induction false} SortKeepsEvents(es: seq<PathEvent>)
    ensures |SortByTime(es)| == |es|
    ensures multiset(SortByTime(es)) == multiset(es)
  {
    if es != [] {
      SortKeepsEvents(es[..|es| - 1]);
      InsertKeepsEvents(SortByTime(es[..|es| - 1]), es[|es| - 1]);
      assert es == es[..|es| - 1] + [es[|es| - 1]];
    }
  }

  lemma {:induction false} InsertSorts(es: seq<PathEvent>, e: PathEvent)
    requires TimeSorted(es)
    ensures TimeSorted(InsertByTime(es, e))
    ensures forall x <- InsertByTime(es, e) :: x == e || x in es
    decreases |es|
  {
    if es != [] && es[|es| - 1].timestamp > e.timestamp {
      var last := es[|es| - 1];
      InsertSorts(es[..|es| - 1], e);
      var r := InsertByTime(es[..|es| - 1], e);
      forall x | x in r ensures x.timestamp <= last.timestamp {
        if x != e { var i :| 0 <= i < |es| - 1 && es[i] == x; }
      }
    }
  }

  lemma {:induction false} SortSorts(es: seq<PathEvent>)
    ensures TimeSorted(SortByTime(es))
  {
    if es != [] {
      SortSorts(es[..|es| - 1]);
      InsertSorts(SortByTime(es[..|es| - 1]), es[|es| - 1]);
    }
  }

  lemma AtTimeAppend(es: seq<PathEvent>, e: PathEvent, t: nat)
    ensures AtTime(es + [e], t) == AtTime(es, t) + if e.timestamp == t then [e] else []
  {
    assert (es + [e])[..|es|] == es;
  }

  lemma {:induction false} InsertIsStable(es: seq<PathEvent>, e: PathEvent, t: nat)
    ensures AtTime(InsertByTime(es, e), t) == AtTime(es, t) + if e.timestamp == t then [e] else []
    decreases |es|
  {
    if es == [] || es[|es| - 1].timestamp <= e.timestamp {
      AtTimeAppend(es, e, t);
    } else {
      var last, init := es[|es| - 1], es[..|es| - 1];
      InsertIsStable(init, e, t);
      AtTimeAppend(InsertByTime(init, e), last, t);
    }
  }

  /** Events at the same moment keep their order. */
  lemma {:induction false} SortIsStable(es: seq<PathEvent>, t: nat)
    ensures AtTime(SortByTime(es), t) == AtTime(es, t)
  {
    if es != [] {
      SortIsStable(es[..|es| - 1], t);
      InsertIsStable(SortByTime(es[..|es| - 1]), es[|es| - 1], t);
    }
  }

  lemma {:induction false} LastAtTime(es: seq<PathEvent>, t: nat)
    requires TimeSorted(es)
    ensures es != [] && t > es[|es| - 1].timestamp ==> AtTime(es, t) == []
    ensures AtTime(es, t) == [] || AtTime(es, t)[|AtTime(es, t)| - 1] in es
    ensures forall x <- es :: x.timestamp == t ==> AtTime(es, t) != []
  {
    if es != [] {
      var init, last := es[..|es| - 1], es[|es| - 1];
      LastAtTime(init, t);
      assert forall x <- es :: x == last || x in init;
    }
  }

  lemma AtTimeLast(es: seq<PathEvent>, t: nat)
    requires es != []
    ensures AtTime(es, t) == AtTime(es[..|es| - 1], t) + if es[|es| - 1].timestamp == t then [es[|es| - 1]] else []
  {}

  lemma DropSameLast(a: seq<PathEvent>, b: seq<PathEvent>, t: nat)
    requires a != [] && b != [] && a[|a| - 1] == b[|b| - 1] && AtTime(a, t) == AtTime(b, t)
    ensures AtTime(a[..|a| - 1], t) == AtTime(b[..|b| - 1], t)
  {
    hide AtTime;
    var x, y := AtTime(a[..|a| - 1], t), AtTime(b[..|b| - 1], t);
    AtTimeLast(a, t);
    AtTimeLast(b, t);
    if a[|a| - 1].timestamp == t {
      assert x == AtTime(a, t)[..|x|] && y == AtTime(b, t)[..|y|];
    } else {
      assert x + [] == x && y + [] == y;
    }
  }

  lemma LastIsAtItsTime(es: seq<PathEvent>)
    requires es != []
    ensures var e := es[|es| - 1]; var r := AtTime(es, e.timestamp); r != [] && r[|r| - 1] == e
  {}

  lemma NothingAtTime(t: nat)
    ensures AtTime([], t) == []
  {}

  lemma SameLast(a: seq<PathEvent>, b: seq<PathEvent>)
    requires TimeSorted(a) && TimeSorted(b) && (forall t :: AtTime(a, t) == AtTime(b, t)) && a != []
    ensures b != [] && a[|a| - 1] == b[|b| - 1]
  {
    hide *;
    var e := a[|a| - 1];
    LastIsAtItsTime(a);
    NothingAtTime(e.timestamp);
    var f := b[|b| - 1];
    LastIsAtItsTime(b);
    LastAtTime(a, f.timestamp);
    LastAtTime(b, e.timestamp);
    assert AtTime(a, e.timestamp) == AtTime(b, e.timestamp) && AtTime(a, f.timestamp) == AtTime(b, f.timestamp);
  }

  /** There is one stable sort: sorted lists with the same events at every moment are equal. */
  lemma {:induction false} StableSortIsUnique(a: seq<PathEvent>, b: seq<PathEvent>)
    requires TimeSorted(a) && TimeSorted(b) && forall t :: AtTime(a, t) == AtTime(b, t)
    ensures a == b
  {
    if a != [] {
      SameLast(a, b);
      var a', b' := a[..|a| - 1], b[..|b| - 1];
      forall t ensures AtTime(a', t) == AtTime(b', t) {
        DropSameLast(a, b, t);
      }
      StableSortIsUnique(a', b');
      assert a == a' + [a[|a| - 1]] && b == b' + [a[|a| - 1]];
    } else if b != [] {
      SameLast(b, a);
    }
  }

  // ----- What a built path says -----

  /** The events of a path come from one buffer and agree on source, destination and protocol (ports may differ). */
  ghost predicate OneFlow(events: seq<PathEvent>) {
    forall e <- events :: SamePacket(events[0], e)
  }

  ghost predicate SamePacket(e: PathEvent, f: PathEvent) {
    && e.skbPtr == f.skbPtr
    && e.flow.srcAddr == f.flow.srcAddr && e.flow.dstAddr == f.flow.dstAddr && e.flow.protocol == f.flow.protocol
  }

  /**
   * A built path has one hop per event, in the order of the stable sort; deltas start at 0, never decrease and end
   * at the path's total time; and its flow is an event's, so its source, destination and protocol are all events'.
   */
  lemma PathTellsItsEvents(events: seq<PathEvent>)
    requires events != []
    ensures var p, sorted := BuildPath(events).value, SortByTime(events);
            && multiset(sorted) == multiset(events) && TimeSorted(sorted)
            && (forall t :: AtTime(sorted, t) == AtTime(events, t))
            && |p.hops| == |events|
            && (forall i :: 0 <= i < |p.hops| ==> p.hops[i].funcId == sorted[i].funcId
                                                  && p.hops[i].timestamp == sorted[i].timestamp
                                                  && p.hops[i].timestamp == p.firstSeen + p.hops[i].delta)
            && p.hops[0].delta == 0
            && (forall i, j :: 0 <= i <= j < |p.hops| ==> p.hops[i].delta <= p.hops[j].delta)
            && p.hops[|p.hops| - 1].delta == p.TotalNs()
            && p.lastSeen == p.hops[|p.hops| - 1].timestamp && p.flow == sorted[0].flow
    ensures var p := BuildPath(events).value;
            OneFlow(events) ==> forall e <- events ::
              p.flow.srcAddr == e.flow.srcAddr && p.flow.dstAddr == e.flow.dstAddr && p.flow.protocol == e.flow.protocol
  {
    var sorted := SortByTime(events);
    SortKeepsEvents(events);
    SortSorts(events);
    forall t ensures AtTime(sorted, t) == AtTime(events, t) { SortIsStable(events, t); }
    assert sorted[0] in multiset(sorted);
    assert sorted[0] in events;
    if OneFlow(events) { assert SamePacket(events[0], sorted[0]); }
  }
}
