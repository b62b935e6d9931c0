/** Conversations: packets grouped by their two ends, with counts for each direction. */
module Conversations {
  import opened Prelude
  import opened FilterAst
  import opened FilterEval
  import opened FilterMeaning
  import opened PacketStore

  /** The two ends of a conversation, the lower one first. */
  datatype Key = Key(addrA: string, portA: Option<nat>, addrB: string, portB: Option<nat>, protocol: string)

  datatype Stats = Stats(
    key: Key, packetsAToB: nat, packetsBToA: nat, bytesAToB: nat, bytesBToA: nat, firstSeen: real, lastSeen: real)
  {
    function TotalPackets(): (n: nat) {
      packetsAToB + packetsBToA
    }
  }

  /** No port comes before every port. */
  predicate PortAtMost(a: Option<nat>, b: Option<nat>) {
    a.None? || (b.Some? && a.value <= b.value)
  }

  predicate AddrIsLower(os: Platform, a: string, aPort: Option<nat>, b: string, bPort: Option<nat>) {
    if os.parseIp(a).Some? && os.parseIp(b).Some? then
      var x, y := os.parseIp(a).value, os.parseIp(b).value;
      AddressLess(x, y) || (x == y && PortAtMost(aPort, bPort))
    else StrLess(a, b) || (a == b && PortAtMost(aPort, bPort))
  }

  /** A packet's conversation, and whether the packet goes from its first end to its second. */
  function MakeKey(os: Platform, p: Packet): (r: (Key, bool)) {
    if AddrIsLower(os, p.source, p.srcPort, p.destination, p.dstPort) then
      (Key(p.source, p.srcPort, p.destination, p.dstPort, p.protocol.display), true)
    else
      (Key(p.destination, p.dstPort, p.source, p.srcPort, p.protocol.display), false)
  }

  // ----- Which packets share a conversation -----

  function Reverse(p: Packet): (r: Packet) {
    p.(source := p.destination, destination := p.source, srcPort := p.dstPort, dstPort := p.srcPort)
  }

  predicate SameEnds(p: Packet) {
    p.source == p.destination && p.srcPort == p.dstPort
  }

  /** The two ends are one address spelled in two ways, at one port. */
  predicate TwoSpellings(os: Platform, p: Packet) {
    && p.source != p.destination && p.srcPort == p.dstPort
    && os.parseIp(p.source).Some? && os.parseIp(p.source) == os.parseIp(p.destination)
  }

  /**
   * A packet and its reverse belong to one conversation, in opposite directions unless both ends are equal; this fails
   * exactly if the ends are two spellings of one address at one port.
   */
  lemma ReverseSharesKeyIff(os: Platform, p: Packet)
    ensures var (k, forward) := MakeKey(os, p); var (k', forward') := MakeKey(os, Reverse(p));
            && (k == k' <==> !TwoSpellings(os, p))
            && (SameEnds(p) ==> forward && forward')
            && (!SameEnds(p) && !TwoSpellings(os, p) ==> forward != forward')
  {
    StrLessIsTotal(p.source, p.destination);
  }

  /** If the text is an address at all, it is the text that address is printed as. */
  ghost predicate CanonicalText(os: Platform, text: string) {
    os.parseIp(text).Some? ==> text == os.printIp(os.parseIp(text).value)
  }

  lemma PrintedIsCanonical(os: Platform, a: Address)
    requires os.Lawful()
    ensures CanonicalText(os, os.printIp(a))
  {}

  /** With canonical texts, as dissection writes them, a packet and its reverse always share a conversation. */
  lemma CanonicalEndsShareKey(os: Platform, p: Packet)
    requires CanonicalText(os, p.source) && CanonicalText(os, p.destination)
    ensures !TwoSpellings(os, p)
    ensures var (k, forward) := MakeKey(os, p); var (k', forward') := MakeKey(os, Reverse(p));
            k == k' && (forward != forward' <==> !SameEnds(p))
  {
    ReverseSharesKeyIff(os, p);
  }

  /**
   * Two packets belong to one conversation exactly if they have the same protocol and the same ends, in the same
   * direction, or in the other one unless the ends are two spellings of one address.
   */
  lemma SameKeyIffSameEnds(os: Platform, p: Packet, q: Packet)
    ensures MakeKey(os, p).0 == MakeKey(os, q).0
            <==> && p.protocol.display == q.protocol.display
                 && (var r := Reverse(p);
                     || (q.source == p.source && q.srcPort == p.srcPort
                         && q.destination == p.destination && q.dstPort == p.dstPort)
                     || (!TwoSpellings(os, p) && q.source == r.source && q.srcPort == r.srcPort
                         && q.destination == r.destination && q.dstPort == r.dstPort))
  {
    ReverseSharesKeyIff(os, p);
    ReverseSharesKeyIff(os, q);
  }

  /** The order of ends: by address rank if both are addresses, by text otherwise, and no port before every port. */
  ghost predicate EndAtMost(os: Platform, a: string, aPort: Option<nat>, b: string, bPort: Option<nat>) {
    var portsInOrder := match (aPort, bPort) case (None, _) => true case (Some(_), None) => false case (Some(m), Some(n)) => m <= n;
    match (os.parseIp(a), os.parseIp(b))
    case (Some(x), Some(y)) => AddressRank(x) < AddressRank(y) || (AddressRank(x) == AddressRank(y) && portsInOrder)
    case _ => TextBefore(a, b) || (a == b && portsInOrder)
  }

  /** A key names a packet's two ends, each with its own port, the lower one first, and the direction says which is which. */
  lemma KeyNamesTheEnds(os: Platform, p: Packet)
    ensures var (k, forward) := MakeKey(os, p);
            && k.protocol == p.protocol.display
            && (forward <==> EndAtMost(os, p.source, p.srcPort, p.destination, p.dstPort))
            && EndAtMost(os, k.addrA, k.portA, k.addrB, k.portB)
            && (if forward then k.addrA == p.source && k.portA == p.srcPort && k.addrB == p.destination && k.portB == p.dstPort
                else k.addrA == p.destination && k.portA == p.dstPort && k.addrB == p.source && k.portB == p.srcPort)
  {
    hide TextBefore;
    StrLessIsBefore(p.source, p.destination);
    StrLessIsBefore(p.destination, p.source);
    StrLessIsTotal(p.source, p.destination);
  }

  // ----- What the statistics of a conversation are -----

  datatype Measure = Packets | Bytes

  function Amount(m: Measure, p: Packet): (n: nat) {
    match m
    case Packets => 1
    case Bytes => p.originalLength
  }

  /** What the packets of one conversation and direction come to. */
  ghost function Weigh(os: Platform, packets: seq<Packet>, key: Key, forward: bool, m: Measure): (n: nat) {
    if packets == [] then 0
    else
      var last := packets[|packets| - 1];
      Weigh(os, packets[..|packets| - 1], key, forward, m) + if MakeKey(os, last) == (key, forward) then Amount(m, last) else 0
  }

  /** What all packets come to. */
  ghost function Total(packets: seq<Packet>, m: Measure): (n: nat) {
    if packets == [] then 0 else Total(packets[..|packets| - 1], m) + Amount(m, packets[|packets| - 1])
  }

  ghost predicate HasKey(os: Platform, packets: seq<Packet>, key: Key) {
    exists i :: 0 <= i < |packets| && MakeKey(os, packets[i]).0 == key
  }

  /** The conversation's packets were seen from `first` to `last`, and at these times themselves. */
  ghost predicate SeenBetween(os: Platform, packets: seq<Packet>, key: Key, first: real, last: real) {
    && (forall i :: 0 <= i < |packets| && MakeKey(os, packets[i]).0 == key ==> first <= packets[i].timestamp <= last)
    && (exists i :: 0 <= i < |packets| && MakeKey(os, packets[i]).0 == key && packets[i].timestamp == first)
    && (exists i :: 0 <= i < |packets| && MakeKey(os, packets[i]).0 == key && packets[i].timestamp == last)
  }

  ghost predicate Counts(os: Platform, packets: seq<Packet>, s: Stats) {
    && s.packetsAToB == Weigh(os, packets, s.key, true, Packets)
    && s.packetsBToA == Weigh(os, packets, s.key, false, Packets)
    && s.bytesAToB == Weigh(os, packets, s.key, true, Bytes)
    && s.bytesBToA == Weigh(os, packets, s.key, false, Bytes)
  }

  ghost predicate IsStatsOf(os: Platform, packets: seq<Packet>, s: Stats) {
    Counts(os, packets, s) && SeenBetween(os, packets, s.key, s.firstSeen, s.lastSeen)
  }

  ghost predicate DistinctKeys(r: seq<Stats>) {
    forall i, j :: 0 <= i < j < |r| ==> r[i].key != r[j].key
  }

  ghost predicate Descending(r: seq<Stats>) {
    forall i, j :: 0 <= i <= j < |r| ==> r[i].TotalPackets() >= r[j].TotalPackets()
  }

  ghost predicate Lists(r: seq<Stats>, key: Key) {
    exists i :: 0 <= i < |r| && r[i].key == key
  }

  /** One entry for every conversation of the packets, with its statistics. */
  ghost predicate Covers(os: Platform, packets: seq<Packet>, r: seq<Stats>) {
    && DistinctKeys(r)
    && (forall i :: 0 <= i < |r| ==> IsStatsOf(os, packets, r[i]))
    && (forall i :: 0 <= i < |packets| ==> Lists(r, MakeKey(os, packets[i]).0))
  }

  // ----- Computing them -----

  /** What the loop body does with the entry of the packet's conversation. */
  function Updated(entries: map<Key, Stats>, os: Platform, p: Packet): (s: Stats) {
    var (key, forward) := MakeKey(os, p);
    var e := if key in entries then entries[key] else Stats(key, 0, 0, 0, 0, p.timestamp, p.timestamp);
    var f := if forward then e.(packetsAToB := e.packetsAToB + 1, bytesAToB := e.bytesAToB + p.originalLength)
             else e.(packetsBToA := e.packetsBToA + 1, bytesBToA := e.bytesBToA + p.originalLength);
    f.(firstSeen := if p.timestamp < e.firstSeen then p.timestamp else e.firstSeen,
       lastSeen := if p.timestamp > e.lastSeen then p.timestamp else e.lastSeen)
  }

  ghost predicate Accounts(os: Platform, packets: seq<Packet>, entries: map<Key, Stats>) {
    && (forall k :: k in entries <==> HasKey(os, packets, k))
    && Keyed(entries)
    && (forall k :: k in entries ==> IsStatsOf(os, packets, entries[k]))
  }

  ghost predicate Keyed(entries: map<Key, Stats>) {
    forall k :: k in entries ==> entries[k].key == k
  }

  lemma AccountsAreKeyed(os: Platform, packets: seq<Packet>, entries: map<Key, Stats>)
    requires Accounts(os, packets, entries)
    ensures Keyed(entries)
  {}

  lemma {:induction false} NoKeyWeighsNothing(os: Platform, packets: seq<Packet>, key: Key, forward: bool, m: Measure)
    requires !HasKey(os, packets, key)
    ensures Weigh(os, packets, key, forward, m) == 0
  {
    if packets != [] {
      var n := |packets| - 1;
      assert MakeKey(os, packets[n]).0 != key;
      assert forall i :: 0 <= i < n ==> packets[..n][i] == packets[i];
      NoKeyWeighsNothing(os, packets[..n], key, forward, m);
    }
  }

  lemma WeighAppend(os: Platform, packets: seq<Packet>, p: Packet, key: Key, forward: bool, m: Measure)
    ensures Weigh(os, packets + [p], key, forward, m)
            == Weigh(os, packets, key, forward, m) + if MakeKey(os, p) == (key, forward) then Amount(m, p) else 0
  {
    assert (packets + [p])[..|packets|] == packets;
  }

  lemma HasKeyAppend(os: Platform, packets: seq<Packet>, p: Packet, key: Key)
    ensures HasKey(os, packets + [p], key) <==> HasKey(os, packets, key) || MakeKey(os, p).0 == key
  {
    var all := packets + [p];
    assert all[|packets|] == p;
    assert forall i :: 0 <= i < |packets| ==> all[i] == packets[i];
  }

  lemma CountsAppend(os: Platform, packets: seq<Packet>, p: Packet, s: Stats)
    requires Counts(os, packets, s)
    ensures var (key, forward) := MakeKey(os, p);
            Counts(os, packets + [p],
                   if key != s.key then s
                   else if forward then s.(packetsAToB := s.packetsAToB + 1, bytesAToB := s.bytesAToB + p.originalLength)
                   else s.(packetsBToA := s.packetsBToA + 1, bytesBToA := s.bytesBToA + p.originalLength))
  {
    hide Weigh, MakeKey;
    forall forward: bool, m
      ensures Weigh(os, packets + [p], s.key, forward, m)
              == Weigh(os, packets, s.key, forward, m) + if MakeKey(os, p) == (s.key, forward) then Amount(m, p) else 0
    {
      WeighAppend(os, packets, p, s.key, forward, m);
    }
  }

  lemma SeenAppend(os: Platform, packets: seq<Packet>, p: Packet, key: Key, first: real, last: real)
    requires SeenBetween(os, packets, key, first, last)
    ensures MakeKey(os, p).0 != key ==> SeenBetween(os, packets + [p], key, first, last)
    ensures MakeKey(os, p).0 == key ==>
              SeenBetween(os, packets + [p], key, if p.timestamp < first then p.timestamp else first,
                          if p.timestamp > last then p.timestamp else last)
  {
    hide MakeKey;
    var all := packets + [p];
    assert all[|packets|] == p;
    assert forall i :: 0 <= i < |packets| ==> all[i] == packets[i];
    var f :| 0 <= f < |packets| && MakeKey(os, packets[f]).0 == key && packets[f].timestamp == first;
    var l :| 0 <= l < |packets| && MakeKey(os, packets[l]).0 == key && packets[l].timestamp == last;
    assert MakeKey(os, all[f]).0 == key && MakeKey(os, all[l]).0 == key;
  }

  lemma SeenFirst(os: Platform, packets: seq<Packet>, p: Packet)
    requires !HasKey(os, packets, MakeKey(os, p).0)
    ensures SeenBetween(os, packets + [p], MakeKey(os, p).0, p.timestamp, p.timestamp)
  {
    hide MakeKey;
    var all := packets + [p];
    assert all[|packets|] == p;
    assert forall i :: 0 <= i < |packets| ==> all[i] == packets[i];
  }

  lemma UpdateIsStats(os: Platform, packets: seq<Packet>, entries: map<Key, Stats>, p: Packet)
    requires Accounts(os, packets, entries)
    ensures var s := Updated(entries, os, p);
            s.key == MakeKey(os, p).0 && IsStatsOf(os, packets + [p], s)
  {
    hide MakeKey, Weigh, SeenBetween, HasKey;
    var key := MakeKey(os, p).0;
    if key in entries {
      CountsAppend(os, packets, p, entries[key]);
      SeenAppend(os, packets, p, key, entries[key].firstSeen, entries[key].lastSeen);
    } else {
      forall forward: bool, m ensures Weigh(os, packets, key, forward, m) == 0 {
        NoKeyWeighsNothing(os, packets, key, forward, m);
      }
      CountsAppend(os, packets, p, Stats(key, 0, 0, 0, 0, p.timestamp, p.timestamp));
      SeenFirst(os, packets, p);
    }
  }

  lemma UpdateAccounts(os: Platform, packets: seq<Packet>, entries: map<Key, Stats>, p: Packet)
    requires Accounts(os, packets, entries)
    ensures Accounts(os, packets + [p], entries[MakeKey(os, p).0 := Updated(entries, os, p)])
  {
    hide MakeKey, Counts, SeenBetween, HasKey, Updated;
    var key := MakeKey(os, p).0;
    UpdateIsStats(os, packets, entries, p);
    forall k ensures HasKey(os, packets + [p], k) <==> HasKey(os, packets, k) || key == k {
      HasKeyAppend(os, packets, p, k);
    }
    forall k | k in entries && k != key ensures IsStatsOf(os, packets + [p], entries[k]) {
      CountsAppend(os, packets, p, entries[k]);
      SeenAppend(os, packets, p, k, entries[k].firstSeen, entries[k].lastSeen);
    }
  }

  function InsertDescending(r: seq<Stats>, s: Stats): (q: seq<Stats>) {
    if r == [] || r[0].TotalPackets() < s.TotalPackets() then [s] + r
    else [r[0]] + InsertDescending(r[1..], s)
  }

  /** The stable sort by descending packet counts. */
  function SortDescending(r: seq<Stats>): (q: seq<Stats>) {
    if r == [] then [] else InsertDescending(SortDescending(r[..|r| - 1]), r[|r| - 1])
  }

  method Compute(os: Platform, store: PacketStore, indices: Option<seq<nat>>) returns (result: seq<Stats>)
    ensures Covers(os, Visited(store.packets, indices), result) && Descending(result)
  {
    hide *;
    ghost var all := Visited(store.packets, indices);
    ghost var n := 0;
    var entries: map<Key, Stats> := map[];
    NothingAccounts(os);
    var it := new PacketIter(store, indices);
    assert all[..0] == [] && all[0..] == all;
    while true
      invariant it.Valid() && fresh(it) && it.store == store && store.packets == old(store.packets)
      invariant n <= |all| && it.Remaining() == all[n..]
      invariant Accounts(os, all[..n], entries)
      decreases |all| - n
    {
      var p := it.Next();
      if p.None? { break; }
      assert all[n] == p.value;
      assert all[..n + 1] == all[..n] + [p.value];
      UpdateAccounts(os, all[..n], entries, p.value);
      entries := entries[MakeKey(os, p.value).0 := Updated(entries, os, p.value)];
      n := n + 1;
    }
    assert all[..n] == all;
    AccountsAreKeyed(os, all, entries);
    var values := Values(entries);
    ValuesCover(os, all, entries, values);
    result := SortDescending(values);
    SortSorts(values);
    SortKeepsEntries(values);
    SortedCovers(os, all, values, result);
  }

  /** The values of the map, in any order. */
  method Values(entries: map<Key, Stats>) returns (values: seq<Stats>)
    requires Keyed(entries)
    ensures DistinctKeys(values) && forall s :: s in values <==> s.key in entries && entries[s.key] == s
  {
    values := [];
    var rest := entries;
    while rest != map[]
      invariant forall k :: k in rest ==> k in entries && rest[k] == entries[k]
      invariant DistinctKeys(values)
      invariant forall s :: s in values <==> s.key in entries && s.key !in rest && entries[s.key] == s
      decreases |rest|
    {
      var k :| k in rest;
      assert forall i :: 0 <= i < |values| ==> values[i] in values;
      values := values + [rest[k]];
      rest := rest - {k};
    }
  }

  lemma NothingAccounts(os: Platform)
    ensures Accounts(os, [], map[])
  {}

  lemma ValuesCover(os: Platform, packets: seq<Packet>, entries: map<Key, Stats>, values: seq<Stats>)
    requires Accounts(os, packets, entries) && DistinctKeys(values)
    requires forall s :: s in values <==> s.key in entries && entries[s.key] == s
    ensures Covers(os, packets, values)
  {
    hide MakeKey, IsStatsOf;
    forall i | 0 <= i < |packets| ensures Lists(values, MakeKey(os, packets[i]).0) {
      var k := MakeKey(os, packets[i]).0;
      assert HasKey(os, packets, k);
      assert entries[k] in values;
    }
    assert forall i :: 0 <= i < |values| ==> values[i] in values;
  }

  lemma {:induction false} InsertSorts(r: seq<Stats>, s: Stats)
    requires Descending(r)
    ensures Descending(InsertDescending(r, s))
    ensures forall x :: x in InsertDescending(r, s) <==> x in r || x == s
  {
    if r != [] && r[0].TotalPackets() >= s.TotalPackets() {
      InsertSorts(r[1..], s);
      var q := InsertDescending(r[1..], s);
      assert forall i :: 0 <= i < |q| ==> q[i] in q;
      assert forall x :: x in r ==> x == r[0] || x in r[1..];
    }
  }

  lemma {:induction false} SortSorts(r: seq<Stats>)
    ensures Descending(SortDescending(r))
  {
    if r != [] {
      SortSorts(r[..|r| - 1]);
      InsertSorts(SortDescending(r[..|r| - 1]), r[|r| - 1]);
    }
  }

  lemma {:induction false} InsertKeepsDistinct(r: seq<Stats>, s: Stats)
    requires DistinctKeys(r) && forall i :: 0 <= i < |r| ==> r[i].key != s.key
    ensures DistinctKeys(InsertDescending(r, s))
    ensures forall x :: x in InsertDescending(r, s) <==> x in r || x == s
  {
    if r != [] && r[0].TotalPackets() >= s.TotalPackets() {
      InsertKeepsDistinct(r[1..], s);
      var q := InsertDescending(r[1..], s);
      assert forall i :: 0 <= i < |q| ==> q[i] in q;
      assert forall x :: x in r ==> x == r[0] || x in r[1..];
    }
  }

  lemma {:induction false} SortKeepsEntries(r: seq<Stats>)
    requires DistinctKeys(r)
    ensures DistinctKeys(SortDescending(r)) && forall x :: x in SortDescending(r) <==> x in r
  {
    if r != [] {
      var n := |r| - 1;
      SortKeepsEntries(r[..n]);
      var q := SortDescending(r[..n]);
      forall i | 0 <= i < |q| ensures q[i].key != r[n].key {
        assert q[i] in r[..n];
      }
      InsertKeepsDistinct(q, r[n]);
      assert forall x :: x in r <==> x in r[..n] || x == r[n];
    }
  }

  lemma SortedCovers(os: Platform, packets: seq<Packet>, r: seq<Stats>, q: seq<Stats>)
    requires Covers(os, packets, r) && DistinctKeys(q) && forall x :: x in q <==> x in r
    ensures Covers(os, packets, q)
  {
    hide MakeKey, IsStatsOf, DistinctKeys;
    forall i | 0 <= i < |q| ensures IsStatsOf(os, packets, q[i]) {
      assert q[i] in r;
    }
    forall i | 0 <= i < |packets| ensures Lists(q, MakeKey(os, packets[i]).0) {
      var j :| 0 <= j < |r| && r[j].key == MakeKey(os, packets[i]).0;
      assert r[j] in q;
    }
  }

  // ----- Conservation -----

  ghost function SumOf(r: seq<Stats>, m: Measure): (n: nat) {
    if r == [] then 0
    else
      var last := r[|r| - 1];
      SumOf(r[..|r| - 1], m) + if m == Packets then last.TotalPackets() else last.bytesAToB + last.bytesBToA
  }

  ghost function KeysOf(r: seq<Stats>): (keys: set<Key>) {
    set i | 0 <= i < |r| :: r[i].key
  }

  /** What the packets of the given conversations come to. */
  ghost function TotalIn(os: Platform, packets: seq<Packet>, keys: set<Key>, m: Measure): (n: nat) {
    if packets == [] then 0
    else
      var last := packets[|packets| - 1];
      TotalIn(os, packets[..|packets| - 1], keys, m) + if MakeKey(os, last).0 in keys then Amount(m, last) else 0
  }

  lemma {:induction false} OneMoreKey(os: Platform, packets: seq<Packet>, keys: set<Key>, k: Key, m: Measure)
    requires k !in keys
    ensures TotalIn(os, packets, keys + {k}, m)
            == TotalIn(os, packets, keys, m) + Weigh(os, packets, k, true, m) + Weigh(os, packets, k, false, m)
  {
    hide MakeKey;
    if packets != [] {
      var (key, forward) := MakeKey(os, packets[|packets| - 1]);
      assert (key, forward) == (k, true) || (key, forward) == (k, false) || key != k;
      OneMoreKey(os, packets[..|packets| - 1], keys, k, m);
    }
  }

  lemma {:induction false} NoKeysNoTotal(os: Platform, packets: seq<Packet>, m: Measure)
    ensures TotalIn(os, packets, {}, m) == 0
  {
    if packets != [] { NoKeysNoTotal(os, packets[..|packets| - 1], m); }
  }

  lemma {:induction false} AllKeysAllTotal(os: Platform, packets: seq<Packet>, keys: set<Key>, m: Measure)
    requires forall i :: 0 <= i < |packets| ==> MakeKey(os, packets[i]).0 in keys
    ensures TotalIn(os, packets, keys, m) == Total(packets, m)
  {
    if packets != [] { AllKeysAllTotal(os, packets[..|packets| - 1], keys, m); }
  }

  lemma {:induction false} SumIsTotalIn(os: Platform, packets: seq<Packet>, r: seq<Stats>, m: Measure)
    requires DistinctKeys(r) && forall i :: 0 <= i < |r| ==> Counts(os, packets, r[i])
    ensures SumOf(r, m) == TotalIn(os, packets, KeysOf(r), m)
  {
    hide MakeKey, Weigh, TotalIn;
    if r == [] {
      assert KeysOf(r) == {};
      NoKeysNoTotal(os, packets, m);
    } else {
      var n := |r| - 1;
      SumIsTotalIn(os, packets, r[..n], m);
      assert KeysOf(r) == KeysOf(r[..n]) + {r[n].key};
      OneMoreKey(os, packets, KeysOf(r[..n]), r[n].key, m);
    }
  }

  lemma {:induction false} TotalPacketsIsLength(packets: seq<Packet>)
    ensures Total(packets, Packets) == |packets|
  {
    if packets != [] { TotalPacketsIsLength(packets[..|packets| - 1]); }
  }

  /** Nothing is lost or counted twice: packets and bytes of all conversations are those of the packets visited. */
  lemma TotalsAreConserved(os: Platform, packets: seq<Packet>, r: seq<Stats>)
    requires Covers(os, packets, r)
    ensures SumOf(r, Packets) == |packets| && SumOf(r, Bytes) == Total(packets, Bytes)
  {
    hide MakeKey, SeenBetween, Counts;
    forall m ensures SumOf(r, m) == Total(packets, m) {
      SumIsTotalIn(os, packets, r, m);
      AllKeysAllTotal(os, packets, KeysOf(r), m);
    }
    TotalPacketsIsLength(packets);
  }

  lemma StatsAreDetermined(os: Platform, packets: seq<Packet>, a: Stats, b: Stats)
    requires a.key == b.key && IsStatsOf(os, packets, a) && IsStatsOf(os, packets, b)
    ensures a == b
  {
    hide MakeKey, Weigh;
  }

  /** The order in which the map yields its values only matters between conversations with equal counts. */
  lemma ReportIsDetermined(os: Platform, packets: seq<Packet>, a: seq<Stats>, b: seq<Stats>)
    requires Covers(os, packets, a) && Covers(os, packets, b)
    ensures forall s :: s in a <==> s in b
  {
    ReportIsIncluded(os, packets, a, b);
    ReportIsIncluded(os, packets, b, a);
  }

  lemma ReportIsIncluded(os: Platform, packets: seq<Packet>, a: seq<Stats>, b: seq<Stats>)
    requires Covers(os, packets, a) && Covers(os, packets, b)
    ensures forall s :: s in a ==> s in b
  {
    hide MakeKey, Counts;
    forall s | s in a ensures s in b {
      var p :| 0 <= p < |packets| && MakeKey(os, packets[p]).0 == s.key;
      var j :| 0 <= j < |b| && b[j].key == s.key;
      StatsAreDetermined(os, packets, s, b[j]);
    }
  }
}
