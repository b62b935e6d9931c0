/** What the aggregator's ledger says of whole runs: every event is accounted for, and only the cap loses anything. */
module PathAccounts {
  import opened PathModel
  import opened PathLedger

  // ----- Every event is in exactly one place -----

  /** How often `e` occurs in the groups. */
  ghost function Count(groups: seq<Group>, e: PathEvent): (n: nat) {
    if groups == [] then 0 else Count(groups[..|groups| - 1], e) + multiset(groups[|groups| - 1])[e]
  }

  lemma {:induction false} CountConcat(a: seq<Group>, b: seq<Group>, e: PathEvent)
    ensures Count(a + b, e) == Count(a, e) + Count(b, e)
  {
    if b == [] {
      assert a + b == a;
    } else {
      CountConcat(a, b[..|b| - 1], e);
      assert (a + b)[..|a + b| - 1] == a + b[..|b| - 1];
    }
  }

  lemma CountTakeOut(b: seq<Group>, i: nat, e: PathEvent)
    requires i < |b|
    ensures Count(b, e) == Count(b[..i] + b[i + 1..], e) + multiset(b[i])[e]
    ensures multiset(b[..i] + b[i + 1..]) == multiset(b) - multiset{b[i]}
  {
    var front, g, back := b[..i], b[i], b[i + 1..];
    assert b == front + [g] + back;
    CountConcat(front, back, e);
    CountConcat(front + [g], back, e);
    CountConcat(front, [g], e);
    assert [g][..0] == [];
  }

  lemma {:induction false} CountPermuted(a: seq<Group>, b: seq<Group>, e: PathEvent)
    requires multiset(a) == multiset(b)
    ensures Count(a, e) == Count(b, e)
  {
    if a == [] {
      assert |multiset(b)| == 0;
    } else {
      var n := |a| - 1;
      CountTakeOut(a, n, e);
      assert a[n] in multiset(b);
      var i :| 0 <= i < |b| && b[i] == a[n];
      CountTakeOut(b, i, e);
      CountPermuted(a[..n] + a[n + 1..], b[..i] + b[i + 1..], e);
    }
  }

  lemma {:induction false} OfBufferCounts(es: seq<PathEvent>, e: PathEvent)
    ensures multiset(OfBuffer(es, e.skbPtr))[e] == multiset(es)[e]
  {
    if es != [] {
      OfBufferCounts(es[..|es| - 1], e);
      assert es == es[..|es| - 1] + [es[|es| - 1]];
    }
  }

  lemma {:induction false} JoinedCounts(groups: seq<Group>, e: PathEvent)
    requires forall g <- groups :: GoodGroup(g)
    ensures multiset(Joined(groups, e.skbPtr))[e] == Count(groups, e)
  {
    if groups != [] {
      var g := groups[|groups| - 1];
      JoinedCounts(groups[..|groups| - 1], e);
      assert GoodGroup(g);
      assert e in g ==> SamePacket(g[0], e);
      assert multiset(g)[e] > 0 ==> e in g;
    }
  }

  /**
   * Conservation. After any run, every ingested event is found, as often as it was ingested, among the pending,
   * completed, handed-out and dropped paths together.
   */
  lemma EveryEventAccounted(now: nat, ops: seq<Op>, e: PathEvent)
    ensures var s := Run(Start(now), ops);
            multiset(s.ingested)[e]
            == multiset(PendingOf(s, e.skbPtr))[e] + Count(s.completed, e) + Count(s.handed, e) + Count(s.dropped, e)
  {
    var s := Run(Start(now), ops);
    RunKeepsGood(now, ops);
    assert BalancedAt(s, e.skbPtr);
    OfBufferCounts(s.ingested, e);
    JoinedCounts(s.closed, e);
    CountPermuted(s.closed, s.completed + s.handed + s.dropped, e);
    CountConcat(s.completed + s.handed, s.dropped, e);
    CountConcat(s.completed, s.handed, e);
  }

  /** Every pending, completed, handed-out or dropped path is of one buffer, source, destination and protocol. */
  lemma EveryPathIsOnePacket(now: nat, ops: seq<Op>)
    ensures var s := Run(Start(now), ops);
            && GoodPending(s.pending)
            && (forall g <- s.completed + s.handed + s.dropped :: GoodGroup(g))
  {
    var s := Run(Start(now), ops);
    RunKeepsGood(now, ops);
    forall g | g in s.completed + s.handed + s.dropped ensures GoodGroup(g) {
      assert g in multiset(s.completed) + multiset(s.handed) + multiset(s.dropped);
      assert g in s.closed;
    }
  }

  // ----- What is lost, and what is finished early -----

  ghost predicate OnlyFinishes(s: State, r: State) {
    && r.handed == s.handed && r.dropped == s.dropped && r.lastExpiry == s.lastExpiry
    && s.closed <= r.closed && r.completed == s.completed + r.closed[|s.closed|..]
  }

  lemma OnlyFinishesTransitive(s: State, t: State, r: State)
    requires OnlyFinishes(s, t) && OnlyFinishes(t, r)
    ensures OnlyFinishes(s, r)
  {
    var n := |s.closed|;
    assert r.closed[n..] == t.closed[n..] + r.closed[|t.closed|..];
  }

  lemma {:induction false} FinishAllFinishes(s: State, keys: seq<nat>)
    ensures OnlyFinishes(s, FinishAll(s, keys))
    ensures FinishAll(s, keys).pending == s.pending - (set k | k in keys)
  {
    if keys == [] {
      assert OnlyFinishes(s, s);
    } else {
      var front, last := keys[..|keys| - 1], keys[|keys| - 1];
      FinishAllFinishes(s, front);
      OnlyFinishesTransitive(s, FinishAll(s, front), FinishAll(s, keys));
      assert (set k | k in keys) == (set k | k in front) + {last};
    }
  }

  lemma {:induction false} IngestAllFinishes(s: State, events: seq<PathEvent>, now: nat)
    ensures OnlyFinishes(s, IngestAll(s, events, now))
  {
    if events == [] {
      assert OnlyFinishes(s, s);
    } else {
      var front := events[..|events| - 1];
      IngestAllFinishes(s, front, now);
      OnlyFinishesTransitive(s, IngestAll(s, front, now), IngestAll(s, events, now));
    }
  }

  /** The completed list before the cap is applied, in an ingest that sweeps. */
  ghost function BeforeCap(s: State, op: Op): (r: State)
    requires op.Ingest?
  {
    CapPending(FinishAll(IngestAll(s, op.events, op.now), op.expired), op.oldest)
  }

  lemma BeforeCapFinishes(s: State, op: Op)
    requires op.Ingest?
    ensures OnlyFinishes(s, BeforeCap(s, op))
  {
    var t := IngestAll(s, op.events, op.now);
    var u := FinishAll(t, op.expired);
    IngestAllFinishes(s, op.events, op.now);
    FinishAllFinishes(t, op.expired);
    OnlyFinishesTransitive(s, t, u);
    if |op.oldest| >= EVICTED {
      FinishAllFinishes(u, op.oldest[..EVICTED]);
      OnlyFinishesTransitive(s, u, FinishAll(u, op.oldest[..EVICTED]));
    }
  }

  /** `r` comes of `s` by finishing paths and then losing the front of the completed list, if anything. */
  ghost predicate FinishesThenLoses(s: State, r: State) {
    && r.handed == s.handed && s.closed <= r.closed
    && r.dropped + r.completed == s.dropped + s.completed + r.closed[|s.closed|..]
  }

  lemma FinishingLosesNothing(s: State, r: State)
    requires OnlyFinishes(s, r)
    ensures FinishesThenLoses(s, r)
  {
    assert r.dropped + r.completed == s.dropped + s.completed + r.closed[|s.closed|..];
  }

  lemma IngestLosesByTheCap(s: State, op: Op)
    requires op.Ingest?
    ensures var r := Apply(s, op);
            && FinishesThenLoses(s, r)
            && (r.dropped == s.dropped || (|r.dropped| == |s.dropped| + 5000 && |r.completed| > 5000))
            && (r.dropped != s.dropped
                <==> op.now >= s.lastExpiry + 20_000_000 && |s.completed| + |r.closed| - |s.closed| > 10_000)
  {
    var t, u := IngestAll(s, op.events, op.now), BeforeCap(s, op);
    IngestAllFinishes(s, op.events, op.now);
    BeforeCapFinishes(s, op);
    FinishingLosesNothing(s, t);
    FinishingLosesNothing(s, u);
    hide CapPending, FinishAll, IngestAll;
    if |u.completed| > MAX_COMPLETED {
      assert u.dropped + u.completed[..EVICTED] + u.completed[EVICTED..] == u.dropped + u.completed;
    }
  }

  /**
   * No operation but an ingest loses anything, and an ingest loses only the front 5000 of a completed list of more
   * than 10000, and does so exactly when it sweeps and the list has become that long. Read one after the other, the
   * dropped and the completed paths grow at the end by exactly the paths finished in the operation, in the order they
   * were finished.
   */
  lemma OnlyTheCapLoses(s: State, op: Op)
    ensures var r := Apply(s, op);
            match op
            case Drain => r.dropped == s.dropped && r.handed == s.handed + s.completed && r.completed == []
            case Extract(_, _) => r.dropped == s.dropped && r.completed == s.completed
            case Flush(_) => r.dropped == s.dropped && FinishesThenLoses(s, r)
            case Ingest(_, now, _, _) =>
              && FinishesThenLoses(s, r)
              && (r.dropped == s.dropped || (|r.dropped| == |s.dropped| + 5000 && |r.completed| > 5000))
              && (r.dropped != s.dropped
                  <==> now >= s.lastExpiry + 20_000_000 && |s.completed| + |r.closed| - |s.closed| > 10_000)
  {
    match op {
      case Drain =>
      case Extract(_, _) =>
      case Flush(order) =>
        FinishAllFinishes(s, order);
        FinishingLosesNothing(s, Apply(s, op));
      case Ingest(_, _, _, _) =>
        IngestLosesByTheCap(s, op);
        hide Apply;
    }
  }

  /** A sweep finishes exactly the pending paths that have been quiet for 50 milliseconds. */
  lemma SweepFinishesExactlyTheStale(s: State, now: nat, expired: seq<nat>)
    requires Enumerates(expired, StaleKeys(s.pending, now))
    ensures forall k :: k in FinishAll(s, expired).pending
              <==> k in s.pending && ElapsedMillis(now, s.pending[k].lastUpdate) < EXPIRY_MILLIS
    ensures forall k :: k in FinishAll(s, expired).pending ==> FinishAll(s, expired).pending[k] == s.pending[k]
  {
    FinishAllFinishes(s, expired);
  }

  /** An over-full pending map loses exactly 5000 paths, none updated later than any that stays. */
  lemma CapFinishesTheOldest(s: State, oldest: seq<nat>)
    requires OldestFirst(oldest, s.pending) && |s.pending| > 10_000
    ensures var r := CapPending(s, oldest).pending;
            && |r| == |s.pending| - 5_000
            && (forall k :: k in r ==> k in s.pending && r[k] == s.pending[k])
            && (forall k, l :: k in s.pending && k !in r && l in r ==> s.pending[k].lastUpdate <= s.pending[l].lastUpdate)
  {
    EnumerationSize(oldest, s.pending.Keys);
    assert |s.pending.Keys| == |s.pending|;
    var gone := oldest[..EVICTED];
    FinishAllFinishes(s, gone);
    var out := set k | k in gone;
    EnumerationSize(gone, out);
    var r := CapPending(s, oldest).pending;
    assert r.Keys == s.pending.Keys - out && out <= s.pending.Keys;
    assert |r| == |r.Keys|;
    forall k, l | k in s.pending && k !in r && l in r
      ensures s.pending[k].lastUpdate <= s.pending[l].lastUpdate
    {
      OlderThanSurvivor(s, oldest, k, l);
    }
  }

  lemma OlderThanSurvivor(s: State, oldest: seq<nat>, k: nat, l: nat)
    requires OldestFirst(oldest, s.pending) && |oldest| >= EVICTED
    requires k in oldest[..EVICTED] && l in s.pending && l !in oldest[..EVICTED]
    ensures s.pending[k].lastUpdate <= s.pending[l].lastUpdate
  {
    var gone := oldest[..EVICTED];
    var i :| 0 <= i < EVICTED && gone[i] == k;
    var j :| 0 <= j < |oldest| && oldest[j] == l;
    forall n | 0 <= n < EVICTED ensures oldest[n] in gone { assert gone[n] == oldest[n]; }
    assert oldest[i] == k;
  }

  lemma {:induction false} EnumerationSize(order: seq<nat>, keys: set<nat>)
    requires Enumerates(order, keys)
    ensures |order| == |keys|
  {
    if order == [] {
      assert keys == {};
    } else {
      var last := order[|order| - 1];
      assert order == order[..|order| - 1] + [last];
      EnumerationSize(order[..|order| - 1], keys - {last});
    }
  }

  /** After a flush nothing is pending. */
  lemma FlushFinishesAll(s: State, order: seq<nat>)
    requires Allowed(s, Flush(order))
    ensures Apply(s, Flush(order)).pending == map[]
  {
    FinishAllFinishes(s, order);
  }

  /** The pending paths that have not been quiet for 50 milliseconds. */
  ghost function Fresh(pending: map<nat, Pending>, now: nat): (keys: set<nat>) {
    set k | k in pending && now < pending[k].lastUpdate + 50_000_000
  }

  /** What a sweep at time `now` leaves of the pending paths of `t`. */
  ghost predicate Swept(t: State, now: nat, r: map<nat, Pending>) {
    var stay := Fresh(t.pending, now);
    && r.Keys <= stay
    && (forall k :: k in r ==> r[k] == t.pending[k])
    && |r| == (if |stay| > 10_000 then |stay| - 5_000 else |stay|)
    && (forall k, l :: k in stay && k !in r && l in r ==> t.pending[k].lastUpdate <= t.pending[l].lastUpdate)
  }

  lemma SweepLeaves(t: State, now: nat, expired: seq<nat>, oldest: seq<nat>)
    requires Enumerates(expired, StaleKeys(t.pending, now))
    requires OldestFirst(oldest, FinishAll(t, expired).pending)
    ensures Swept(t, now, CapPending(FinishAll(t, expired), oldest).pending)
  {
    var u := FinishAll(t, expired);
    SweepFinishesExactlyTheStale(t, now, expired);
    hide FinishAll, StaleKeys, OldestFirst;
    assert u.pending.Keys == Fresh(t.pending, now);
    assert |u.pending| == |u.pending.Keys|;
    if |u.pending| > 10_000 {
      CapFinishesTheOldest(u, oldest);
      hide CapPending;
    }
  }

  /**
   * A batch that comes 20 milliseconds or more after the last sweep is followed by one, which is remembered: the paths
   * that have not been quiet for 50 milliseconds stay pending, or, if these are more than 10000, all but 5000 of them,
   * none of which was updated later than any that stays. An earlier batch only brings in its events.
   */
  lemma BatchSweepsIff(s: State, op: Op)
    requires op.Ingest? && Allowed(s, op)
    ensures var r, t := Apply(s, op), IngestAll(s, op.events, op.now);
            if op.now >= s.lastExpiry + 20_000_000 then r.lastExpiry == op.now && Swept(t, op.now, r.pending)
            else r == t
  {
    var t := IngestAll(s, op.events, op.now);
    IngestAllFinishes(s, op.events, op.now);
    if SweepDue(t, op.now) { SweepLeaves(t, op.now, op.expired, op.oldest); }
    hide FinishAll, IngestAll, CapPending, Swept;
  }
}
