/** How events are grouped into paths: as coarsely as the buffers allow, and no coarser. */
module PathGrouping {
  import opened PathModel
  import opened PathLedger

  // ----- One event -----

  /** An event that agrees with its buffer's pending events joins them, and finishes nothing. */
  lemma AgreeingEventJoins(s: State, e: PathEvent, now: nat)
    requires Good(s)
    requires PendingOf(s, e.skbPtr) == [] || SamePacket(PendingOf(s, e.skbPtr)[0], e)
    ensures var r := IngestAll(s, [e], now);
            && r.closed == s.closed && r.completed == s.completed && r.handed == s.handed && r.dropped == s.dropped
            && PendingOf(r, e.skbPtr) == PendingOf(s, e.skbPtr) + [e] && r.pending[e.skbPtr].lastUpdate == now
            && (forall k :: k != e.skbPtr ==> (k in r.pending <==> k in s.pending))
            && (forall k :: k != e.skbPtr && k in s.pending ==> r.pending[k] == s.pending[k])
            && r.ingested == s.ingested + [e]
  {
    OneEvent(s, e, now);
  }

  /** An event that disagrees in source, destination or protocol finishes exactly its buffer's path, and starts another. */
  lemma DisagreeingEventSplits(s: State, e: PathEvent, now: nat)
    requires Good(s)
    requires PendingOf(s, e.skbPtr) != [] && !SamePacket(PendingOf(s, e.skbPtr)[0], e)
    ensures var r := IngestAll(s, [e], now); var before := PendingOf(s, e.skbPtr);
            && r.closed == s.closed + [before] && r.completed == s.completed + [before]
            && r.handed == s.handed && r.dropped == s.dropped
            && PendingOf(r, e.skbPtr) == [e] && r.pending[e.skbPtr].lastUpdate == now
            && (forall k :: k != e.skbPtr ==> (k in r.pending <==> k in s.pending))
            && (forall k :: k != e.skbPtr && k in s.pending ==> r.pending[k] == s.pending[k])
            && r.ingested == s.ingested + [e]
  {
    OneEvent(s, e, now);
    assert PendingOf(s, e.skbPtr)[0].skbPtr == e.skbPtr;
  }

  lemma OneEvent(s: State, e: PathEvent, now: nat)
    ensures IngestAll(s, [e], now) == IngestOne(s, e, now)
  {
    assert [e][..0] == [] && IngestAll(s, [], now) == s;
  }

  // ----- Whole runs -----

  /** The groups of a buffer, one after the other: the finished ones, then the pending one. */
  ghost function GroupsOf(closed: seq<Group>, last: Group, skb: nat): (groups: seq<Group>) {
    Finished(closed, skb) + if last == [] then [] else [last]
  }

  ghost function Finished(closed: seq<Group>, skb: nat): (groups: seq<Group>) {
    if closed == [] then []
    else
      var g := closed[|closed| - 1];
      Finished(closed[..|closed| - 1], skb) + if g != [] && g[0].skbPtr == skb then [g] else []
  }

  ghost function Groups(s: State, skb: nat): (groups: seq<Group>) {
    GroupsOf(s.closed, PendingOf(s, skb), skb)
  }

  /** No two neighbouring groups could have been one. */
  ghost predicate Apart(groups: seq<Group>) {
    && (forall i :: 0 <= i < |groups| ==> groups[i] != [])
    && (forall i :: 0 <= i < |groups| - 1 ==> !SamePacket(groups[i][0], groups[i + 1][0]))
  }

  /** The groups of every buffer are apart, and a buffer with finished groups has a pending one. */
  ghost predicate Coarse(s: State) {
    forall skb :: Apart(Groups(s, skb)) && (Finished(s.closed, skb) != [] ==> PendingOf(s, skb) != [])
  }

  /** Only events have come in and finished paths been taken out: no sweep, extraction or flush. */
  ghost predicate Unswept(s: State, ops: seq<Op>) {
    forall i :: 0 <= i < |ops| ==>
      ops[i].Drain? || (ops[i].Ingest? && ElapsedMillis(ops[i].now, s.lastExpiry) < SWEEP_MILLIS)
  }

  lemma FinishedAppend(closed: seq<Group>, g: Group, skb: nat)
    ensures Finished(closed + [g], skb) == Finished(closed, skb) + if g != [] && g[0].skbPtr == skb then [g] else []
  {
    assert (closed + [g])[..|closed|] == closed;
  }

  lemma ApartGrows(groups: seq<Group>, g: Group, e: PathEvent)
    requires g != [] && Apart(groups + [g])
    ensures Apart(groups + [g + [e]])
    ensures !SamePacket(g[0], e) ==> Apart(groups + [g] + [[e]])
  {
    var was := groups + [g];
    var now := groups + [g + [e]];
    forall i | 0 <= i < |now| ensures now[i] != [] && now[i][0] == was[i][0] {
      if i < |groups| { assert now[i] == was[i]; } else { assert was[i] == g && now[i] == g + [e]; }
    }
    var more := was + [[e]];
    assert forall i :: 0 <= i < |was| ==> more[i] == was[i];
  }

  lemma JoinStaysCoarse(s: State, r: State, e: PathEvent, skb: nat)
    requires Apart(Groups(s, skb)) && (Finished(s.closed, skb) != [] ==> PendingOf(s, skb) != [])
    requires r.closed == s.closed
    requires PendingOf(r, skb) == PendingOf(s, skb) + if e.skbPtr == skb then [e] else []
    ensures Apart(Groups(r, skb)) && (Finished(r.closed, skb) != [] ==> PendingOf(r, skb) != [])
  {
    var g := PendingOf(s, skb);
    if e.skbPtr == skb {
      if g != [] {
        ApartGrows(Finished(s.closed, skb), g, e);
      } else {
        assert Groups(r, skb) == [[e]] by { assert [] + [e] == [e]; assert [] + [[e]] == [[e]]; }
      }
    } else {
      assert g + [] == g;
    }
  }

  lemma SplitStaysCoarse(s: State, r: State, e: PathEvent, skb: nat)
    requires Apart(Groups(s, skb)) && (Finished(s.closed, skb) != [] ==> PendingOf(s, skb) != [])
    requires var g := PendingOf(s, e.skbPtr);
             && g != [] && g[0].skbPtr == e.skbPtr && !SamePacket(g[0], e) && r.closed == s.closed + [g]
    requires PendingOf(r, skb) == if e.skbPtr == skb then [e] else PendingOf(s, skb)
    ensures Apart(Groups(r, skb)) && (Finished(r.closed, skb) != [] ==> PendingOf(r, skb) != [])
  {
    var g := PendingOf(s, e.skbPtr);
    FinishedAppend(s.closed, g, skb);
    var finished := Finished(s.closed, skb);
    if e.skbPtr == skb {
      ApartGrows(finished, g, e);
    } else {
      assert finished + [] == finished;
    }
  }

  lemma EventStaysCoarse(s: State, e: PathEvent, now: nat)
    requires Good(s) && Coarse(s)
    ensures Coarse(IngestAll(s, [e], now))
  {
    hide Good, Apart, Groups, Finished, IngestAll;
    var g, r := PendingOf(s, e.skbPtr), IngestAll(s, [e], now);
    PendingIsKeyed(s, e.skbPtr);
    if g == [] || SamePacket(g[0], e) {
      AgreeingEventJoins(s, e, now);
      forall skb ensures Apart(Groups(r, skb)) && (Finished(r.closed, skb) != [] ==> PendingOf(r, skb) != []) {
        assert PendingOf(s, skb) + [] == PendingOf(s, skb);
        JoinStaysCoarse(s, r, e, skb);
      }
    } else {
      DisagreeingEventSplits(s, e, now);
      forall skb ensures Apart(Groups(r, skb)) && (Finished(r.closed, skb) != [] ==> PendingOf(r, skb) != []) {
        SplitStaysCoarse(s, r, e, skb);
      }
    }
  }

  lemma PendingIsKeyed(s: State, skb: nat)
    requires Good(s)
    ensures PendingOf(s, skb) != [] ==> PendingOf(s, skb)[0].skbPtr == skb
  {}

  lemma {:induction false} EventsStayCoarse(s: State, events: seq<PathEvent>, now: nat)
    requires Good(s) && Coarse(s)
    ensures Coarse(IngestAll(s, events, now)) && IngestAll(s, events, now).lastExpiry == s.lastExpiry
  {
    hide Good, Coarse;
    if events != [] {
      var front, e := events[..|events| - 1], events[|events| - 1];
      EventsStayCoarse(s, front, now);
      IngestAllKeepsGood(s, front, now);
      EventStaysCoarse(IngestAll(s, front, now), e, now);
      OneEvent(IngestAll(s, front, now), e, now);
      SameExpiry(IngestAll(s, front, now), e, now);
    }
  }

  lemma SameExpiry(s: State, e: PathEvent, now: nat)
    ensures IngestOne(s, e, now).lastExpiry == s.lastExpiry
  {}

  lemma {:induction false} RunStaysCoarse(start: nat, ops: seq<Op>)
    requires Unswept(Start(start), ops)
    ensures Coarse(Run(Start(start), ops)) && Run(Start(start), ops).lastExpiry == start
  {
    hide Good, Coarse;
    if ops == [] {
      StartIsCoarse(start);
    } else {
      var front, op := ops[..|ops| - 1], ops[|ops| - 1];
      assert Unswept(Start(start), front) by { assert forall i :: 0 <= i < |front| ==> front[i] == ops[i]; }
      RunStaysCoarse(start, front);
      RunKeepsGood(start, front);
      var s := Run(Start(start), front);
      if op.Ingest? {
        EventsStayCoarse(s, op.events, op.now);
      } else {
        DrainStaysCoarse(s);
      }
    }
  }

  lemma StartIsCoarse(now: nat)
    ensures Coarse(Start(now))
  {}

  lemma DrainStaysCoarse(s: State)
    requires Coarse(s)
    ensures Coarse(Apply(s, Drain))
  {
    hide Apart, Finished;
    forall skb ensures Groups(Apply(s, Drain), skb) == Groups(s, skb) && PendingOf(Apply(s, Drain), skb) == PendingOf(s, skb) {}
  }

  /**
   * While nothing is swept, extracted or flushed, the groups of each buffer are the longest runs of its events that
   * agree in source, destination and protocol: they follow one another as the events came in, each agrees in itself,
   * and no two neighbours agree.
   */
  lemma GroupsAreLongestRuns(start: nat, ops: seq<Op>, skb: nat)
    requires Unswept(Start(start), ops)
    ensures var s := Run(Start(start), ops); var groups := Groups(s, skb);
            && Joined(groups, skb) == OfBuffer(s.ingested, skb)
            && (forall i :: 0 <= i < |groups| ==> GoodGroup(groups[i]) && groups[i][0].skbPtr == skb)
            && (forall i :: 0 <= i < |groups| - 1 ==> !SamePacket(groups[i][0], groups[i + 1][0]))
  {
    RunStaysCoarse(start, ops);
    RunKeepsGood(start, ops);
    var s := Run(Start(start), ops);
    assert BalancedAt(s, skb);
    hide Run;
    FinishedIsJoined(s.closed, skb);
    var finished, g := Finished(s.closed, skb), PendingOf(s, skb);
    if g != [] {
      JoinedAppend(finished, g, skb);
      assert GoodGroup(g) && g[0].skbPtr == skb;
    } else {
      assert finished + [] == finished;
      assert Joined(s.closed, skb) + [] == Joined(s.closed, skb);
    }
  }

  lemma {:induction false} FinishedIsJoined(closed: seq<Group>, skb: nat)
    requires forall g <- closed :: GoodGroup(g)
    ensures Joined(Finished(closed, skb), skb) == Joined(closed, skb)
    ensures forall i :: 0 <= i < |Finished(closed, skb)| ==>
              GoodGroup(Finished(closed, skb)[i]) && Finished(closed, skb)[i][0].skbPtr == skb
  {
    if closed != [] {
      var front, g := closed[..|closed| - 1], closed[|closed| - 1];
      FinishedIsJoined(front, skb);
      assert g in closed;
      hide GoodGroup;
      if g[0].skbPtr == skb {
        JoinedAppend(Finished(front, skb), g, skb);
      } else {
        assert Finished(front, skb) + [] == Finished(front, skb);
        assert Joined(front, skb) + [] == Joined(front, skb);
      }
    }
  }
}
