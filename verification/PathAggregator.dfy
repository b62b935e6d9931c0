/** The kernel-path aggregator: pending paths by buffer, completed paths, and matching paths to packets. */
module PathAggregator {
  import opened Prelude
  import opened PathModel
  import opened PathLedger
  import opened PathAccounts

  /** The paths built from groups of events. */
  function PathsOf(groups: seq<Group>): (paths: seq<PacketPath>) {
    if groups == [] then []
    else
      PathsOf(groups[..|groups| - 1]) +
      match BuildPath(groups[|groups| - 1])
      case Some(p) => [p]
      case None => []
  }

  lemma PathsOfAppend(groups: seq<Group>, g: Group)
    ensures PathsOf(groups + [g]) == PathsOf(groups) + match BuildPath(g) case Some(p) => [p] case None => []
  {
    assert (groups + [g])[..|groups|] == groups;
  }

  /** One path per group, in order. */
  lemma {:induction false} PathsOfMaps(groups: seq<Group>)
    requires forall g <- groups :: g != []
    ensures |PathsOf(groups)| == |groups|
    ensures forall i :: 0 <= i < |groups| ==> Some(PathsOf(groups)[i]) == BuildPath(groups[i])
  {
    hide *;
    if groups == [] {
      NoPaths();
    } else {
      var n := |groups| - 1;
      assert forall i :: 0 <= i < |groups| ==> groups[i] in groups;
      PathsOfMaps(groups[..n]);
      PathsOfLast(groups);
      forall i | 0 <= i < |groups| ensures Some(PathsOf(groups)[i]) == BuildPath(groups[i]) {
        if i < n { assert groups[..n][i] == groups[i]; }
      }
    }
  }

  lemma NoPaths()
    ensures PathsOf([]) == []
  {}

  lemma PathsOfLast(groups: seq<Group>)
    requires groups != [] && groups[|groups| - 1] != []
    ensures var path := BuildPath(groups[|groups| - 1]);
            path.Some? && PathsOf(groups) == PathsOf(groups[..|groups| - 1]) + [path.value]
  {
    hide BuildPath;
  }

  lemma PathsOfTail(groups: seq<Group>, n: nat)
    requires (forall g <- groups :: g != []) && n <= |groups|
    ensures |PathsOf(groups)| == |groups| && PathsOf(groups)[n..] == PathsOf(groups[n..])
  {
    PathsOfMaps(groups);
    PathsOfMaps(groups[n..]);
  }

  /** An enumeration of a set of keys, in an order the program does not determine. */
  method EnumerateKeys(keys: set<nat>) returns (order: seq<nat>)
    ensures Enumerates(order, keys)
  {
    order := [];
    var left := keys;
    while left != {}
      invariant left <= keys && Enumerates(order, keys - left)
      decreases left
    {
      var k :| k in left;
      order := order + [k];
      left := left - {k};
    }
  }

  function InsertByAge(order: seq<nat>, k: nat, pending: map<nat, Pending>): (r: seq<nat>)
    requires k in pending && forall j <- order :: j in pending
  {
    if order == [] || pending[order[|order| - 1]].lastUpdate <= pending[k].lastUpdate then order + [k]
    else InsertByAge(order[..|order| - 1], k, pending) + [order[|order| - 1]]
  }

  /** Distinct pending keys, least recently updated first. */
  ghost predicate AgeSorted(order: seq<nat>, pending: map<nat, Pending>) {
    && (forall i :: 0 <= i < |order| ==> order[i] in pending)
    && (forall i, j :: 0 <= i < j < |order| ==>
          order[i] != order[j] && pending[order[i]].lastUpdate <= pending[order[j]].lastUpdate)
  }

  lemma {:induction false} InsertByAgeSorts(order: seq<nat>, k: nat, pending: map<nat, Pending>)
    requires k in pending && k !in order && AgeSorted(order, pending)
    ensures AgeSorted(InsertByAge(order, k, pending), pending)
    ensures forall j :: j in InsertByAge(order, k, pending) <==> j in order || j == k
  {
    if order == [] || pending[order[|order| - 1]].lastUpdate <= pending[k].lastUpdate {
      AppendNewest(order, k, pending);
    } else {
      var init, last := order[..|order| - 1], order[|order| - 1];
      assert order == init + [last];
      InsertByAgeSorts(init, k, pending);
      var r := InsertByAge(init, k, pending);
      forall j | j in r ensures j != last && pending[j].lastUpdate <= pending[last].lastUpdate {
        if j != k { var i :| 0 <= i < |init| && init[i] == j; }
      }
      AppendNewest(r, last, pending);
    }
  }

  lemma AppendNewest(order: seq<nat>, k: nat, pending: map<nat, Pending>)
    requires k in pending && k !in order && AgeSorted(order, pending)
    requires order == [] || pending[order[|order| - 1]].lastUpdate <= pending[k].lastUpdate
             || forall j <- order :: pending[j].lastUpdate <= pending[k].lastUpdate
    ensures AgeSorted(order + [k], pending)
  {
    forall i | 0 <= i < |order| ensures pending[order[i]].lastUpdate <= pending[k].lastUpdate {
      if i < |order| - 1 { assert pending[order[i]].lastUpdate <= pending[order[|order| - 1]].lastUpdate; }
      assert order[i] in order;
    }
  }

  /** All pending keys, each once, those not updated for the longest time first. */
  method SortByAge(pending: map<nat, Pending>) returns (order: seq<nat>)
    ensures OldestFirst(order, pending)
  {
    order := [];
    var left := pending.Keys;
    while left != {}
      invariant left <= pending.Keys && AgeSorted(order, pending)
      invariant forall j :: j in order <==> j in pending.Keys - left
      decreases left
    {
      var k :| k in left;
      InsertByAgeSorts(order, k, pending);
      order := InsertByAge(order, k, pending);
      left := left - {k};
    }
  }

  class PathAggregator {
    var pending: map<nat, Pending>
    var completed: seq<PacketPath>
    var lastExpiry: nat
    /** The ledger: `ledger.pending` and `ledger.lastExpiry` are not used, the fields above are. */
    ghost var ledger: State

    ghost function Value(): (s: State)
      reads this
    {
      ledger.(pending := pending, lastExpiry := lastExpiry)
    }

    ghost predicate Valid()
      reads this
    {
      Good(Value()) && completed == PathsOf(ledger.completed)
    }

    constructor (now: nat)
      ensures Valid() && Value() == Start(now) && completed == []
    {
      pending, completed, lastExpiry, ledger := map[], [], now, Start(now);
    }

    /** Push the path of a finished group, if it has events. */
    method Push(events: Group)
      requires completed == PathsOf(ledger.completed)
      modifies this`completed, this`ledger
      ensures Value() == Complete(old(Value()), events) && completed == PathsOf(ledger.completed)
    {
      var path := BuildPath(events);
      if path.Some? {
        completed := completed + [path.value];
        PathsOfAppend(ledger.completed, events);
        ledger := ledger.(completed := ledger.completed + [events], closed := ledger.closed + [events]);
      }
    }

    method IngestEvent(e: PathEvent, now: nat)
      requires Valid()
      modifies this
      ensures Valid() && Value() == IngestOne(old(Value()), e, now)
    {
      IngestOneKeepsGood(Value(), e, now);
      var entry := if e.skbPtr in pending then pending[e.skbPtr] else Pending([], now);
      if entry.events != [] {
        var first := entry.events[0];
        if first.flow.srcAddr != e.flow.srcAddr || first.flow.dstAddr != e.flow.dstAddr
           || first.flow.protocol != e.flow.protocol {
          Push(entry.events);
          entry := Pending([], now);
        }
      }
      pending := pending[e.skbPtr := Pending(entry.events + [e], now)];
      ledger := ledger.(ingested := ledger.ingested + [e]);
    }

    /** The ghost results are the orders in which the hash map happened to yield the swept keys. */
    method IngestBatch(events: seq<PathEvent>, now: nat) returns (ghost expired: seq<nat>, ghost oldest: seq<nat>)
      requires Valid()
      modifies this
      ensures Valid()
      ensures Allowed(old(Value()), Ingest(events, now, expired, oldest))
      ensures Value() == Apply(old(Value()), Ingest(events, now, expired, oldest))
    {
      IngestEvents(events, now);
      expired, oldest := [], [];
      if ElapsedMillis(now, lastExpiry) >= SWEEP_MILLIS {
        expired, oldest := ExpirePaths(now);
        ghost var swept := Value();
        lastExpiry := now;
        SameLedgerKeepsGood(swept, Value());
      }
    }

    method IngestEvents(events: seq<PathEvent>, now: nat)
      requires Valid()
      modifies this
      ensures Valid() && Value() == IngestAll(old(Value()), events, now)
    {
      for i := 0 to |events|
        invariant Valid() && Value() == IngestAll(old(Value()), events[..i], now)
      {
        IngestEvent(events[i], now);
        assert events[..i + 1][..i] == events[..i];
      }
      assert events[..|events|] == events;
    }

    method FinishKey(key: nat)
      requires Valid()
      modifies this
      ensures Valid() && Value() == Finish(old(Value()), key)
    {
      FinishKeepsGood(Value(), key);
      if key in pending {
        var events := pending[key].events;
        pending := pending - {key};
        Push(events);
      }
    }

    method FinishKeys(keys: seq<nat>)
      requires Valid()
      modifies this
      ensures Valid() && Value() == FinishAll(old(Value()), keys)
    {
      for i := 0 to |keys|
        invariant Valid() && Value() == FinishAll(old(Value()), keys[..i])
      {
        FinishKey(keys[i]);
        assert keys[..i + 1][..i] == keys[..i];
      }
      assert keys[..|keys|] == keys;
    }

    method ExpirePaths(now: nat) returns (ghost expired: seq<nat>, ghost oldest: seq<nat>)
      requires Valid()
      modifies this
      ensures Valid()
      ensures Enumerates(expired, StaleKeys(old(pending), now))
      ensures OldestFirst(oldest, FinishAll(old(Value()), expired).pending)
      ensures Value() == Expire(old(Value()), expired, oldest)
    {
      var stale := set k | k in pending && ElapsedMillis(now, pending[k].lastUpdate) >= EXPIRY_MILLIS;
      var keys := EnumerateKeys(stale);
      expired := keys;
      FinishKeys(keys);

      var order := SortByAge(pending);
      oldest := order;
      if |pending| > MAX_PENDING {
        EnumerationSize(order, pending.Keys);
        FinishKeys(order[..EVICTED]);
      }

      DropFront();
    }

    method DropFront()
      requires Valid()
      modifies this`completed, this`ledger
      ensures Valid() && Value() == CapCompleted(old(Value()))
    {
      CapCompletedKeepsGood(Value());
      NoEmptyGroups(Value());
      PathsOfMaps(ledger.completed);
      if |completed| > MAX_COMPLETED {
        PathsOfTail(ledger.completed, EVICTED);
        completed := completed[EVICTED..];
        ledger := ledger.(completed := ledger.completed[EVICTED..],
                          dropped := ledger.dropped + ledger.completed[..EVICTED]);
      }
    }

    method DrainCompleted() returns (paths: seq<PacketPath>)
      requires Valid()
      modifies this
      ensures Valid() && Value() == Apply(old(Value()), Drain)
      ensures paths == PathsOf(old(ledger.completed)) && completed == []
    {
      paths := completed;
      completed := [];
      ApplyKeepsGood(Value(), Drain);
      ledger := ledger.(completed := [], handed := ledger.handed + ledger.completed);
    }

    /** The scan over the pending paths: a strictly longer match replaces the best one so far. */
    method FindBest(flow: Flow) returns (best: Option<nat>)
      ensures IsBestMatch(pending, flow, best)
    {
      var reverse := flow.Reverse();
      var bestHops := 0;
      best := None;
      var left := pending.Keys;
      while left != {}
        invariant left <= pending.Keys
        invariant best.None? ==> bestHops == 0
        invariant best.Some? ==> best.value in pending && HasFlow(pending[best.value].events, flow)
        invariant best.Some? ==> bestHops == |pending[best.value].events|
        invariant forall k :: k in pending && k !in left && HasFlow(pending[k].events, flow) ==>
                    best.Some? && |pending[k].events| <= bestHops
        decreases left
      {
        var k :| k in left;
        left := left - {k};
        var events := pending[k].events;
        if events != [] {
          var first := events[0];
          if first.flow == flow || first.flow == reverse {
            if |events| > bestHops {
              bestHops := |events|;
              best := Some(k);
            }
          }
        }
      }
    }

    /** Take out the pending path of the flow, in either direction, that has the most events. */
    method TryExtractPending(flow: Flow) returns (path: Option<PacketPath>, ghost choice: Option<nat>)
      requires Valid()
      modifies this
      ensures Valid()
      ensures Allowed(old(Value()), Extract(flow, choice)) && Value() == Apply(old(Value()), Extract(flow, choice))
      ensures path == match choice case None => None case Some(k) => BuildPath(old(pending)[k].events)
      ensures choice.Some? <==> path.Some?
    {
      hide Good, PathsOf, BuildPath;
      var best := FindBest(flow);
      choice := best;
      ExtractKeepsGood(Value(), flow, choice);
      if best.None? { return None, choice; }
      var events := pending[best.value].events;
      pending := pending - {best.value};
      path := BuildPath(events);
      ledger := ledger.(handed := ledger.handed + [events], closed := ledger.closed + [events]);
    }

    method FlushAll() returns (ghost order: seq<nat>)
      requires Valid()
      modifies this
      ensures Valid() && pending == map[]
      ensures Allowed(old(Value()), Flush(order)) && Value() == Apply(old(Value()), Flush(order))
    {
      var keys := EnumerateKeys(pending.Keys);
      order := keys;
      FlushFinishesAll(Value(), keys);
      FinishKeys(keys);
    }
  }

  lemma NoEmptyGroups(s: State)
    requires Good(s)
    ensures forall g <- s.completed :: g != []
  {
    forall g | g in s.completed ensures g != [] {
      assert g in multiset(s.completed);
      assert g in multiset(s.closed);
      assert g in s.closed;
      assert GoodGroup(g);
    }
  }

  // ----- Matching paths to packets -----

  /** The packet of the last entry whose flow, or whose reversed flow, is `flow`. */
  function LastWith(keys: seq<(nat, Flow)>, flow: Flow, reversed: bool): (r: Option<nat>) {
    if keys == [] then None
    else
      var (packet, key) := keys[|keys| - 1];
      if (if reversed then key.Reverse() else key) == flow then Some(packet)
      else LastWith(keys[..|keys| - 1], flow, reversed)
  }

  /** What the nested-loop search would find: the last packet of the same flow, else the last of the reversed flow. */
  function PacketFor(keys: seq<(nat, Flow)>, flow: Flow): (r: Option<nat>) {
    var same := LastWith(keys, flow, false);
    if same.Some? then same else LastWith(keys, flow, true)
  }

  function Matched(paths: seq<PacketPath>, keys: seq<(nat, Flow)>): (r: seq<(nat, PacketPath)>) {
    if paths == [] then []
    else
      var path := paths[|paths| - 1];
      Matched(paths[..|paths| - 1], keys) +
      match PacketFor(keys, path.flow)
      case Some(packet) => [(packet, path)]
      case None => []
  }

  /** `LastWith` is the last entry of the flow: some entry has it, and no later entry does. */
  lemma {:induction false} LastWithIsLast(keys: seq<(nat, Flow)>, flow: Flow, reversed: bool, packet: nat)
    ensures LastWith(keys, flow, reversed) == Some(packet)
            <==> exists i :: 0 <= i < |keys| && keys[i].0 == packet && FlowAt(keys, i, reversed) == flow
                             && forall j :: i < j < |keys| ==> FlowAt(keys, j, reversed) != flow
  {
    if keys != [] {
      var n := |keys| - 1;
      var init := keys[..n];
      LastWithIsLast(init, flow, reversed, packet);
      assert forall i :: 0 <= i < n ==> init[i] == keys[i] && FlowAt(init, i, reversed) == FlowAt(keys, i, reversed);
      if FlowAt(keys, n, reversed) == flow && keys[n].0 == packet {
        assert keys[n].0 == packet && FlowAt(keys, n, reversed) == flow;
      }
    }
  }

  function FlowAt(keys: seq<(nat, Flow)>, i: nat, reversed: bool): (f: Flow)
    requires i < |keys|
  {
    if reversed then keys[i].1.Reverse() else keys[i].1
  }

  method MatchToPackets(paths: seq<PacketPath>, keys: seq<(nat, Flow)>) returns (matches: seq<(nat, PacketPath)>)
    ensures matches == Matched(paths, keys)
  {
    if paths == [] || keys == [] {
      NoKeysNoMatches(paths, keys);
      return [];
    }
    var forwards: map<Flow, nat> := map[];
    var backwards: map<Flow, nat> := map[];
    for i := 0 to |keys|
      invariant forall f :: LastWith(keys[..i], f, false) == if f in forwards then Some(forwards[f]) else None
      invariant forall f :: LastWith(keys[..i], f, true) == if f in backwards then Some(backwards[f]) else None
    {
      var (packet, key) := keys[i];
      assert keys[..i + 1][..i] == keys[..i];
      forwards := forwards[key := packet];
      backwards := backwards[key.Reverse() := packet];
    }
    assert keys[..|keys|] == keys;

    matches := [];
    for i := 0 to |paths|
      invariant matches == Matched(paths[..i], keys)
    {
      assert paths[..i + 1][..i] == paths[..i];
      var flow := paths[i].flow;
      if flow in forwards {
        matches := matches + [(forwards[flow], paths[i])];
      } else if flow in backwards {
        matches := matches + [(backwards[flow], paths[i])];
      }
    }
    assert paths[..|paths|] == paths;
  }

  lemma {:induction false} NoKeysNoMatches(paths: seq<PacketPath>, keys: seq<(nat, Flow)>)
    requires paths == [] || keys == []
    ensures Matched(paths, keys) == []
  {
    if paths != [] { NoKeysNoMatches(paths[..|paths| - 1], keys); }
  }

  predicate SameEnds(a: Flow, b: Flow) {
    && a.srcAddr == b.srcAddr && a.dstAddr == b.dstAddr && a.srcPort == b.srcPort && a.dstPort == b.dstPort
    && a.protocol == b.protocol
  }

  predicate OppositeEnds(a: Flow, b: Flow) {
    && a.srcAddr == b.dstAddr && a.dstAddr == b.srcAddr && a.srcPort == b.dstPort && a.dstPort == b.srcPort
    && a.protocol == b.protocol
  }

  /** The packet of the last entry with the same ends; only if there is none, of the last one with the opposite ends. */
  ghost predicate Meant(keys: seq<(nat, Flow)>, flow: Flow, packet: nat) {
    || (exists i :: 0 <= i < |keys| && keys[i].0 == packet && SameEnds(keys[i].1, flow)
                    && forall j :: i < j < |keys| ==> !SameEnds(keys[j].1, flow))
    || ((forall j :: 0 <= j < |keys| ==> !SameEnds(keys[j].1, flow))
        && exists i :: 0 <= i < |keys| && keys[i].0 == packet && OppositeEnds(keys[i].1, flow)
                       && forall j :: i < j < |keys| ==> !OppositeEnds(keys[j].1, flow))
  }

  lemma PacketForIsMeant(keys: seq<(nat, Flow)>, flow: Flow, packet: nat)
    ensures PacketFor(keys, flow) == Some(packet) <==> Meant(keys, flow, packet)
  {
    hide LastWith;
    LastWithIsLast(keys, flow, false, packet);
    LastWithIsLast(keys, flow, true, packet);
    assert forall j :: 0 <= j < |keys| ==> (FlowAt(keys, j, false) == flow <==> SameEnds(keys[j].1, flow));
    assert forall j :: 0 <= j < |keys| ==> (FlowAt(keys, j, true) == flow <==> OppositeEnds(keys[j].1, flow));
    NoneIffNowhere(keys, flow, false);
  }

  lemma {:induction false} NoneIffNowhere(keys: seq<(nat, Flow)>, flow: Flow, reversed: bool)
    ensures LastWith(keys, flow, reversed).None? <==> forall j :: 0 <= j < |keys| ==> FlowAt(keys, j, reversed) != flow
  {
    if keys != [] {
      var n := |keys| - 1;
      NoneIffNowhere(keys[..n], flow, reversed);
      assert forall j :: 0 <= j < n ==> FlowAt(keys[..n], j, reversed) == FlowAt(keys, j, reversed);
      assert FlowAt(keys, n, reversed) == if reversed then keys[n].1.Reverse() else keys[n].1;
    }
  }

  /** The matches are the paths at the places `at`, in order, each with a packet meant; no other path has one. */
  ghost predicate Pairs(paths: seq<PacketPath>, keys: seq<(nat, Flow)>, matches: seq<(nat, PacketPath)>, at: seq<nat>) {
    && |at| == |matches| && (forall k, l :: 0 <= k < l < |at| ==> at[k] < at[l])
    && (forall k :: 0 <= k < |at| ==>
          at[k] < |paths| && matches[k].1 == paths[at[k]] && Meant(keys, paths[at[k]].flow, matches[k].0))
    && (forall i :: 0 <= i < |paths| && i !in at ==> IsUnmeant(keys, paths[i].flow))
  }

  ghost predicate IsUnmeant(keys: seq<(nat, Flow)>, flow: Flow) {
    forall packet :: !Meant(keys, flow, packet)
  }

  lemma PairsWith(paths: seq<PacketPath>, keys: seq<(nat, Flow)>, matches: seq<(nat, PacketPath)>, at: seq<nat>,
                  path: PacketPath, packet: nat)
    requires Pairs(paths, keys, matches, at) && Meant(keys, path.flow, packet)
    ensures Pairs(paths + [path], keys, matches + [(packet, path)], at + [|paths|])
  {
    hide Meant, IsUnmeant;
    var more := at + [|paths|];
    assert more[|at|] == |paths|;
    assert forall k :: 0 <= k < |at| ==> more[k] == at[k] && at[k] < |paths|;
    assert forall i :: i in at ==> i in more;
  }

  lemma PairsWithout(paths: seq<PacketPath>, keys: seq<(nat, Flow)>, matches: seq<(nat, PacketPath)>, at: seq<nat>,
                     path: PacketPath)
    requires Pairs(paths, keys, matches, at) && IsUnmeant(keys, path.flow)
    ensures Pairs(paths + [path], keys, matches, at)
  {
    hide Meant, IsUnmeant;
  }

  /** Matching pairs, in path order, exactly the paths for which a packet is meant with that packet. */
  lemma {:induction false} MatchedInOrder(paths: seq<PacketPath>, keys: seq<(nat, Flow)>) returns (at: seq<nat>)
    ensures Pairs(paths, keys, Matched(paths, keys), at)
  {
    hide Meant, PacketFor;
    at := [];
    if paths != [] {
      var front, path := paths[..|paths| - 1], paths[|paths| - 1];
      at := MatchedInOrder(front, keys);
      hide Pairs;
      assert front + [path] == paths;
      var p := PacketFor(keys, path.flow);
      if p.Some? {
        PacketForIsMeant(keys, path.flow, p.value);
        PairsWith(front, keys, Matched(front, keys), at, path, p.value);
        at := at + [|front|];
      } else {
        NothingMeant(keys, path.flow);
        PairsWithout(front, keys, Matched(front, keys), at, path);
        assert Matched(front, keys) + [] == Matched(front, keys);
      }
    }
  }

  lemma NothingMeant(keys: seq<(nat, Flow)>, flow: Flow)
    requires PacketFor(keys, flow).None?
    ensures IsUnmeant(keys, flow)
  {
    hide Meant, PacketFor;
    forall packet: nat ensures !Meant(keys, flow, packet) { PacketForIsMeant(keys, flow, packet); }
  }
}
