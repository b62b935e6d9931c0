/** The LRU cache of AI explanations: a map of entries and a recency queue that must stay in step. */
module AiCache {
  import opened Prelude

  type FieldKey = (nat, Option<nat>)

  /** What can be asked about a packet: the whole packet, or one layer or field of it. */
  datatype Slot = Whole | Part(key: FieldKey)

  datatype Entry = Entry(whole: Option<string>, fields: map<FieldKey, string>)

  datatype Cache = Cache(entries: map<nat, Entry>, order: seq<nat>)

  datatype Op = Get(packet: nat, slot: Slot) | Insert(packet: nat, slot: Slot, text: string) | Clear

  const EMPTY := Cache(map[], [])
  const NEW_ENTRY := Entry(None, map[])

  function ReadSlot(e: Entry, slot: Slot): (r: Option<string>) {
    match slot
    case Whole => e.whole
    case Part(key) => if key in e.fields then Some(e.fields[key]) else None
  }

  function WriteSlot(e: Entry, slot: Slot, text: string): (r: Entry)
    ensures ReadSlot(r, slot) == Some(text)
    ensures forall other :: other != slot ==> ReadSlot(r, other) == ReadSlot(e, other)
  {
    match slot
    case Whole => e.(whole := Some(text))
    case Part(key) => e.(fields := e.fields[key := text])
  }

  /** The queue without the first occurrence of `k`. */
  function Without(order: seq<nat>, k: nat): (r: seq<nat>) {
    if order == [] then []
    else if order[0] == k then order[1..]
    else [order[0]] + Without(order[1..], k)
  }

  function Touch(order: seq<nat>, k: nat): (r: seq<nat>) {
    Without(order, k) + [k]
  }

  function EvictIfFull(c: Cache, capacity: nat): (r: Cache)
    decreases |c.order|
  {
    if |c.entries| >= capacity && c.order != [] then
      EvictIfFull(Cache(c.entries - {c.order[0]}, c.order[1..]), capacity)
    else c
  }

  /** Insert an empty entry for `k` if it has none, and use it. */
  function Admit(c: Cache, k: nat): (r: Cache)
    ensures k in r.entries
  {
    Cache(if k in c.entries then c.entries else c.entries[k := NEW_ENTRY], Touch(c.order, k))
  }

  function MakeRoom(c: Cache, capacity: nat, k: nat): (r: Cache) {
    if k in c.entries then c else EvictIfFull(c, capacity)
  }

  function EnsureEntry(c: Cache, capacity: nat, k: nat): (r: Cache)
    ensures k in r.entries
  {
    Admit(MakeRoom(c, capacity, k), k)
  }

  function Write(c: Cache, k: nat, slot: Slot, text: string): (r: Cache)
    requires k in c.entries
  {
    c.(entries := c.entries[k := WriteSlot(c.entries[k], slot, text)])
  }

  /** What a query answers, without its effect on the recency queue. */
  function Lookup(c: Cache, k: nat, slot: Slot): (r: Option<string>) {
    if k in c.entries then ReadSlot(c.entries[k], slot) else None
  }

  function Step(c: Cache, capacity: nat, op: Op): (r: Cache) {
    match op
    case Get(k, _) => if k in c.entries then c.(order := Touch(c.order, k)) else c
    case Insert(k, slot, text) => Write(EnsureEntry(c, capacity, k), k, slot, text)
    case Clear => EMPTY
  }

  /** The cache after a history of calls on a new one. */
  function Run(capacity: nat, ops: seq<Op>): (c: Cache) {
    if ops == [] then EMPTY else Step(Run(capacity, ops[..|ops| - 1]), capacity, ops[|ops| - 1])
  }

  lemma {:induction false} EvictionOnlyRemoves(c: Cache, capacity: nat)
    ensures EvictIfFull(c, capacity).entries.Keys <= c.entries.Keys
    decreases |c.order|
  {
    if |c.entries| >= capacity && c.order != [] {
      EvictionOnlyRemoves(Cache(c.entries - {c.order[0]}, c.order[1..]), capacity);
    }
  }

  // ----- The cache object -----

  class AiCache {
    var entries: map<nat, Entry>
    var order: seq<nat>
    const capacity: nat

    ghost function Value(): (c: Cache)
      reads this
    {
      Cache(entries, order)
    }

    constructor (capacity: nat)
      ensures Value() == EMPTY && this.capacity == if capacity < 1 then 1 else capacity
    {
      entries, order := map[], [];
      this.capacity := if capacity < 1 then 1 else capacity;
    }

    method Clear()
      modifies this
      ensures Value() == Step(old(Value()), capacity, Op.Clear)
    {
      entries := map[];
      order := [];
    }

    method TouchPacket(k: nat)
      modifies this`order
      ensures order == Touch(old(order), k)
    {
      var pos := 0;
      while pos < |order| && order[pos] != k
        invariant pos <= |order| && order == old(order)
        invariant Without(order, k) == order[..pos] + Without(order[pos..], k)
      {
        assert order[..pos + 1] + Without(order[pos + 1..], k) == order[..pos] + Without(order[pos..], k);
        pos := pos + 1;
      }
      if pos < |order| {
        order := order[..pos] + order[pos + 1..];
      }
      order := order + [k];
    }

    method EvictWhileFull()
      modifies this
      ensures Value() == EvictIfFull(old(Value()), capacity)
    {
      while |entries| >= capacity
        invariant EvictIfFull(Value(), capacity) == EvictIfFull(old(Value()), capacity)
        decreases |order|
      {
        if order == [] { break; }
        var oldest := order[0];
        order := order[1..];
        entries := entries - {oldest};
      }
    }

    method EnsureEntryFor(k: nat)
      modifies this
      ensures Value() == EnsureEntry(old(Value()), capacity, k)
    {
      if k !in entries {
        EvictWhileFull();
        EvictionOnlyRemoves(old(Value()), capacity);
        entries := entries[k := NEW_ENTRY];
      }
      TouchPacket(k);
    }

    method GetWhole(k: nat) returns (r: Option<string>)
      modifies this
      ensures r == Lookup(old(Value()), k, Whole)
      ensures Value() == Step(old(Value()), capacity, Get(k, Whole))
    {
      if k !in entries { return None; }
      TouchPacket(k);
      r := entries[k].whole;
    }

    method GetField(k: nat, layer: nat, field: Option<nat>) returns (r: Option<string>)
      modifies this
      ensures r == Lookup(old(Value()), k, Part((layer, field)))
      ensures Value() == Step(old(Value()), capacity, Get(k, Part((layer, field))))
    {
      if k !in entries { return None; }
      TouchPacket(k);
      var e := entries[k];
      r := if (layer, field) in e.fields then Some(e.fields[(layer, field)]) else None;
    }

    method InsertWhole(k: nat, text: string)
      modifies this
      ensures Value() == Step(old(Value()), capacity, Insert(k, Whole, text))
    {
      EnsureEntryFor(k);
      entries := entries[k := entries[k].(whole := Some(text))];
    }

    method InsertField(k: nat, layer: nat, field: Option<nat>, text: string)
      modifies this
      ensures Value() == Step(old(Value()), capacity, Insert(k, Part((layer, field)), text))
    {
      EnsureEntryFor(k);
      var e := entries[k];
      entries := entries[k := e.(fields := e.fields[(layer, field) := text])];
    }
  }

  // ----- Map and queue stay in step -----

  ghost function Elems(s: seq<nat>): (r: set<nat>) {
    set x | x in s
  }

  ghost predicate NoDup(s: seq<nat>) {
    forall i, j :: 0 <= i < j < |s| ==> s[i] != s[j]
  }

  ghost predicate InStep(c: Cache, capacity: nat) {
    && NoDup(c.order)
    && Elems(c.order) == c.entries.Keys
    && |c.order| <= capacity
  }

  lemma {:induction false} ElemsSize(s: seq<nat>)
    requires NoDup(s)
    ensures |Elems(s)| == |s|
  {
    if s != [] {
      var n := |s| - 1;
      ElemsSize(s[..n]);
      assert Elems(s) == Elems(s[..n]) + {s[n]};
    }
  }

  lemma TailElems(s: seq<nat>)
    requires NoDup(s) && s != []
    ensures NoDup(s[1..]) && Elems(s[1..]) == Elems(s) - {s[0]}
  {
    assert Elems(s) == {s[0]} + Elems(s[1..]);
    assert s[0] !in s[1..];
  }

  lemma {:induction false} WithoutRemoves(s: seq<nat>, k: nat)
    requires NoDup(s)
    ensures NoDup(Without(s, k)) && Elems(Without(s, k)) == Elems(s) - {k}
    ensures k !in s ==> Without(s, k) == s
    ensures k in s ==> |Without(s, k)| == |s| - 1
  {
    if s != [] {
      hide NoDup, Elems;
      TailElems(s);
      ElemsAre(s);
      if s[0] != k {
        WithoutRemoves(s[1..], k);
        ConsElems(s[0], Without(s[1..], k));
      }
    }
  }

  lemma ElemsAre(s: seq<nat>)
    ensures forall x :: x in Elems(s) <==> x in s
  {}

  lemma ConsElems(x: nat, t: seq<nat>)
    requires NoDup(t) && x !in Elems(t)
    ensures NoDup([x] + t) && Elems([x] + t) == {x} + Elems(t)
  {}

  lemma TouchMoves(s: seq<nat>, k: nat)
    requires NoDup(s)
    ensures NoDup(Touch(s, k)) && Elems(Touch(s, k)) == Elems(s) + {k}
    ensures |Touch(s, k)| == if k in s then |s| else |s| + 1
  {
    hide NoDup, Elems;
    WithoutRemoves(s, k);
    AppendElem(Without(s, k), k);
  }

  lemma AppendElem(s: seq<nat>, k: nat)
    requires NoDup(s) && k !in Elems(s)
    ensures NoDup(s + [k]) && Elems(s + [k]) == Elems(s) + {k}
  {
    assert forall x :: x in s ==> x in Elems(s);
  }

  /** In a cache that is in step, eviction removes the least recent packet if the cache is full, and nothing else. */
  lemma EvictsAtMostOne(c: Cache, capacity: nat)
    requires InStep(c, capacity) && capacity > 0
    ensures EvictIfFull(c, capacity)
            == if |c.order| == capacity then Cache(c.entries - {c.order[0]}, c.order[1..]) else c
    ensures InStep(EvictIfFull(c, capacity), capacity - 1)
  {
    hide NoDup, Elems;
    ElemsSize(c.order);
    if |c.order| == capacity {
      var d := Cache(c.entries - {c.order[0]}, c.order[1..]);
      TailElems(c.order);
      assert d.entries.Keys == c.entries.Keys - {c.order[0]};
      ElemsSize(d.order);
    }
  }

  lemma AdmitKeepsInStep(c: Cache, capacity: nat, k: nat)
    requires InStep(c, capacity) && (k in c.entries || |c.order| < capacity)
    ensures InStep(Admit(c, k), capacity)
  {
    assert k in c.order <==> k in Elems(c.order);
    TouchMoves(c.order, k);
    assert c.entries[k := NEW_ENTRY].Keys == c.entries.Keys + {k};
  }

  lemma EnsureKeepsInStep(c: Cache, capacity: nat, k: nat)
    requires InStep(c, capacity) && capacity > 0
    ensures InStep(EnsureEntry(c, capacity, k), capacity)
  {
    if k in c.entries {
      AdmitKeepsInStep(c, capacity, k);
    } else {
      EvictsAtMostOne(c, capacity);
      AdmitKeepsInStep(EvictIfFull(c, capacity), capacity, k);
    }
  }

  lemma StepKeepsInStep(c: Cache, capacity: nat, op: Op)
    requires InStep(c, capacity) && capacity > 0
    ensures InStep(Step(c, capacity, op), capacity)
  {
    match op {
      case Insert(k, _, _) =>
        EnsureKeepsInStep(c, capacity, k);
        assert Step(c, capacity, op).entries.Keys == EnsureEntry(c, capacity, k).entries.Keys;
      case Get(k, _) => if k in c.entries { AdmitKeepsInStep(c, capacity, k); }
      case Clear => assert Elems([]) == {};
    }
  }

  /** After any history, the queue lists exactly the cached packets, each once, and no more than the capacity. */
  lemma {:induction false} RunInStep(capacity: nat, ops: seq<Op>)
    requires capacity > 0
    ensures InStep(Run(capacity, ops), capacity)
  {
    if ops != [] {
      RunInStep(capacity, ops[..|ops| - 1]);
      StepKeepsInStep(Run(capacity, ops[..|ops| - 1]), capacity, ops[|ops| - 1]);
    }
  }

  // ----- The cache holds the most recently used packets, in order of use -----

  /** The packets used after the last use of `k`. */
  ghost function UsedSince(uses: seq<nat>, k: nat): (r: set<nat>) {
    if uses == [] || uses[|uses| - 1] == k then {}
    else UsedSince(uses[..|uses| - 1], k) + {uses[|uses| - 1]}
  }

  /** Fewer than `capacity` different packets have been used since `k` was. */
  ghost predicate RecentlyUsed(uses: seq<nat>, k: nat, capacity: nat) {
    k in uses && |UsedSince(uses, k)| < capacity
  }

  /** The uses a history makes: every insert, and every query for a packet that is recently used; `Clear` forgets all. */
  ghost function Uses(capacity: nat, ops: seq<Op>): (uses: seq<nat>) {
    if ops == [] then []
    else
      var before := Uses(capacity, ops[..|ops| - 1]);
      match ops[|ops| - 1]
      case Insert(k, _, _) => before + [k]
      case Get(k, _) => if RecentlyUsed(before, k, capacity) then before + [k] else before
      case Clear => []
  }

  /** The queue is the recency list of `uses`, cut off at `capacity`. */
  ghost predicate IsRecencyList(order: seq<nat>, uses: seq<nat>, capacity: nat) {
    && NoDup(order) && |order| <= capacity
    && (forall i :: 0 <= i < |order| ==> order[i] in uses && UsedSince(uses, order[i]) == Elems(order[i + 1..]))
    && (forall k :: k in uses && k !in order ==> Elems(order) <= UsedSince(uses, k) && |order| == capacity)
  }

  lemma ListedIffRecentlyUsed(order: seq<nat>, uses: seq<nat>, capacity: nat, k: nat)
    requires IsRecencyList(order, uses, capacity)
    ensures k in order <==> RecentlyUsed(uses, k, capacity)
  {
    ElemsSize(order);
    if k in order {
      var i :| 0 <= i < |order| && order[i] == k;
      ElemsSize(order[i + 1..]);
    } else if k in uses {
      SubsetSize(Elems(order), UsedSince(uses, k));
    }
  }

  lemma {:induction false} SubsetSize(a: set<nat>, b: set<nat>)
    requires a <= b
    ensures |a| <= |b|
  {
    if a != {} {
      var x :| x in a;
      SubsetSize(a - {x}, b - {x});
    }
  }

  lemma {:induction false} WithoutAt(s: seq<nat>, p: nat)
    requires NoDup(s) && p < |s|
    ensures Without(s, s[p]) == s[..p] + s[p + 1..]
  {
    if p > 0 {
      var t, k := s[1..], s[p];
      assert NoDup(t) && t[p - 1] == k;
      WithoutAt(t, p - 1);
      assert s[0] != k;
      assert [s[0]] + (t[..p - 1] + t[p..]) == s[..p] + s[p + 1..];
    }
  }

  lemma ElemsConcat(a: seq<nat>, b: seq<nat>)
    ensures Elems(a + b) == Elems(a) + Elems(b)
  {}

  /** What stands behind position `i` once position `p` has moved to the back. */
  lemma BehindAfterTouch(order: seq<nat>, p: nat, i: nat)
    requires NoDup(order) && p < |order| && i < |order| - 1
    ensures var now := Touch(order, order[p]); var was := if i < p then i else i + 1;
            && |now| == |order| && now[i] == order[was]
            && Elems(now[i + 1..]) == Elems(order[was + 1..]) + {order[p]}
  {
    var k := order[p];
    WithoutAt(order, p);
    var now := order[..p] + order[p + 1..] + [k];
    assert now == Touch(order, k);
    BehindMoved(order, p, i);
  }

  lemma BehindMoved(order: seq<nat>, p: nat, i: nat)
    requires p < |order| && i < |order| - 1
    ensures var now := order[..p] + order[p + 1..] + [order[p]]; var was := if i < p then i else i + 1;
            && now[i] == order[was] && Elems(now[i + 1..]) == Elems(order[was + 1..]) + {order[p]}
  {
    hide Elems;
    var k := order[p];
    var now := order[..p] + order[p + 1..] + [k];
    SingleElem(k);
    if i < p {
      var mid, end := order[i + 1..p], order[p + 1..];
      assert now[i + 1..] == mid + end + [k] && order[i + 1..] == mid + [k] + end;
      ElemsConcat(mid + end, [k]);
      ElemsConcat(mid, end);
      ElemsConcat(mid + [k], end);
      ElemsConcat(mid, [k]);
    } else {
      assert now[i + 1..] == order[i + 2..] + [k];
      ElemsConcat(order[i + 2..], [k]);
    }
  }

  lemma SingleElem(k: nat)
    ensures Elems([k]) == {k}
  {}

  lemma UsedSinceAppend(uses: seq<nat>, k: nat, x: nat)
    ensures UsedSince(uses + [k], x) == if x == k then {} else UsedSince(uses, x) + {k}
  {
    assert (uses + [k])[..|uses|] == uses;
  }

  lemma UseListed(order: seq<nat>, uses: seq<nat>, capacity: nat, k: nat)
    requires IsRecencyList(order, uses, capacity) && k in order
    ensures IsRecencyList(Touch(order, k), uses + [k], capacity)
  {
    var p :| 0 <= p < |order| && order[p] == k;
    var now, later := Touch(order, k), uses + [k];
    TouchMoves(order, k);
    forall i | 0 <= i < |now|
      ensures now[i] in later && UsedSince(later, now[i]) == Elems(now[i + 1..])
    {
      UsedSinceAppend(uses, k, now[i]);
      if i < |order| - 1 {
        BehindAfterTouch(order, p, i);
      } else {
        assert now[i + 1..] == [];
      }
    }
    forall x | x in later && x !in now
      ensures Elems(now) <= UsedSince(later, x) && |now| == capacity
    {
      assert k in Elems(now) && x !in Elems(now);
      assert x !in Elems(order);
      UsedSinceAppend(uses, k, x);
    }
  }

  /** Using a packet that is not listed: the least recent one makes room if the list is full. */
  lemma UseUnlisted(order: seq<nat>, uses: seq<nat>, capacity: nat, k: nat)
    requires IsRecencyList(order, uses, capacity) && k !in order && capacity > 0
    ensures IsRecencyList((if |order| == capacity then order[1..] else order) + [k], uses + [k], capacity)
  {
    var cut := if |order| == capacity then 1 else 0;
    var kept := order[cut..];
    var now, later := kept + [k], uses + [k];
    assert now == (if |order| == capacity then order[1..] else order) + [k];
    assert NoDup(now);
    hide NoDup, Elems, UsedSince;
    forall i | 0 <= i < |now|
      ensures now[i] in later && UsedSince(later, now[i]) == Elems(now[i + 1..])
    {
      UseUnlistedAt(order, uses, capacity, k, cut, i);
    }
    forall x | x in later && x !in now
      ensures Elems(now) <= UsedSince(later, x) && |now| == capacity
    {
      UnlistedStaysOut(order, uses, capacity, k, cut, x);
    }
  }

  lemma UseUnlistedAt(order: seq<nat>, uses: seq<nat>, capacity: nat, k: nat, cut: nat, i: nat)
    requires IsRecencyList(order, uses, capacity) && k !in order && cut <= 1 && cut <= |order|
    requires i <= |order| - cut
    ensures var now := order[cut..] + [k];
            now[i] in uses + [k] && UsedSince(uses + [k], now[i]) == Elems(now[i + 1..])
  {
    hide NoDup, UsedSince;
    var now := order[cut..] + [k];
    UsedSinceAppend(uses, k, now[i]);
    if i < |order| - cut {
      assert now[i] == order[i + cut];
      assert now[i + 1..] == order[i + cut + 1..] + [k];
      ElemsConcat(order[i + cut + 1..], [k]);
    } else {
      assert now[i + 1..] == [];
    }
  }

  lemma UnlistedStaysOut(order: seq<nat>, uses: seq<nat>, capacity: nat, k: nat, cut: nat, x: nat)
    requires IsRecencyList(order, uses, capacity) && cut == (if |order| == capacity then 1 else 0) <= |order|
    requires x in uses && x != k && x !in order[cut..]
    ensures Elems(order[cut..] + [k]) <= UsedSince(uses + [k], x) && |order| == capacity
  {
    var kept := order[cut..];
    UsedSinceAppend(uses, k, x);
    ElemsConcat(kept, [k]);
    assert order == order[..cut] + kept;
    ElemsConcat(order[..cut], kept);
    if x in order {
      assert x in order[..cut];
      assert x == order[0];
    }
  }

  lemma {:induction false} RunIsRecencyList(capacity: nat, ops: seq<Op>)
    requires capacity > 0
    ensures IsRecencyList(Run(capacity, ops).order, Uses(capacity, ops), capacity)
  {
    if ops != [] {
      var past, op := ops[..|ops| - 1], ops[|ops| - 1];
      var c, uses := Run(capacity, past), Uses(capacity, past);
      RunIsRecencyList(capacity, past);
      if op != Clear {
        RunInStep(capacity, past);
        assert op.packet in c.entries <==> op.packet in c.order;
        ListedIffRecentlyUsed(c.order, uses, capacity, op.packet);
        if op.packet in c.order {
          UseListed(c.order, uses, capacity, op.packet);
        } else if op.Insert? {
          EvictsAtMostOne(c, capacity);
          WithoutRemoves(EvictIfFull(c, capacity).order, op.packet);
          UseUnlisted(c.order, uses, capacity, op.packet);
        }
      }
    }
  }

  /**
   * The cache refines a recency list. A packet is cached exactly if fewer than `capacity` different packets have been
   * used since its own last use, and the queue has a packet before another exactly if it was used less recently.
   */
  lemma CachedIffRecentlyUsed(capacity: nat, ops: seq<Op>, k: nat)
    requires capacity > 0
    ensures k in Run(capacity, ops).entries <==> RecentlyUsed(Uses(capacity, ops), k, capacity)
    ensures forall i :: 0 <= i < |Run(capacity, ops).order| ==>
              UsedSince(Uses(capacity, ops), Run(capacity, ops).order[i]) == Elems(Run(capacity, ops).order[i + 1..])
  {
    RunInStep(capacity, ops);
    RunIsRecencyList(capacity, ops);
    ListedIffRecentlyUsed(Run(capacity, ops).order, Uses(capacity, ops), capacity, k);
    assert k in Run(capacity, ops).order <==> k in Elems(Run(capacity, ops).order);
  }

  // ----- A hit returns the text last inserted -----

  ghost predicate NotReplacedAfter(ops: seq<Op>, k: nat, slot: Slot, j: nat) {
    forall i :: j < i < |ops| ==> !(ops[i].Insert? && ops[i].packet == k && ops[i].slot == slot)
  }

  ghost predicate CachedAfter(capacity: nat, ops: seq<Op>, k: nat, j: nat) {
    forall i :: j < i <= |ops| ==> k in Run(capacity, ops[..i]).entries
  }

  /** Call `j` inserted `text` for the slot, nothing replaced it, and the packet has been cached ever since. */
  ghost predicate KeptSince(capacity: nat, ops: seq<Op>, k: nat, slot: Slot, text: string, j: nat) {
    && j < |ops| && ops[j] == Insert(k, slot, text)
    && NotReplacedAfter(ops, k, slot, j) && CachedAfter(capacity, ops, k, j)
  }

  lemma StepLookup(c: Cache, capacity: nat, op: Op, k: nat, slot: Slot)
    requires InStep(c, capacity) && capacity > 0
    ensures Lookup(Step(c, capacity, op), k, slot)
            == if op.Insert? && op.packet == k && op.slot == slot then Some(op.text)
               else if k in Step(c, capacity, op).entries then Lookup(c, k, slot)
               else None
  {
    if op.Insert? {
      EvictsAtMostOne(c, capacity);
    }
  }

  lemma CachedOneMore(capacity: nat, ops: seq<Op>, k: nat, j: nat)
    requires j < |ops|
    ensures CachedAfter(capacity, ops, k, j)
            <==> k in Run(capacity, ops).entries && CachedAfter(capacity, ops[..|ops| - 1], k, j)
  {
    hide Run;
    var n := |ops| - 1;
    var past := ops[..n];
    assert ops[..n + 1] == ops;
    assert forall i :: 0 <= i <= n ==> past[..i] == ops[..i];
  }

  /** How being kept goes on over one more call. */
  lemma KeptOneMore(capacity: nat, ops: seq<Op>, k: nat, slot: Slot, text: string, j: nat)
    requires ops != []
    ensures var n := |ops| - 1; var op := ops[n];
            KeptSince(capacity, ops, k, slot, text, j)
            <==> && k in Run(capacity, ops).entries
                 && (if j == n then op == Insert(k, slot, text)
                     else KeptSince(capacity, ops[..n], k, slot, text, j)
                          && !(op.Insert? && op.packet == k && op.slot == slot))
  {
    hide Run, CachedAfter;
    if j < |ops| {
      CachedOneMore(capacity, ops, k, j);
    }
    NoneAfter(capacity, ops[..|ops| - 1], k, |ops| - 1);
  }

  lemma NoneAfter(capacity: nat, ops: seq<Op>, k: nat, j: nat)
    requires j >= |ops|
    ensures CachedAfter(capacity, ops, k, j)
  {}

  /** A query answers with a text exactly if that text was inserted for the slot and has been kept since. */
  lemma {:induction false} HitIsLastInserted(capacity: nat, ops: seq<Op>, k: nat, slot: Slot, text: string)
    requires capacity > 0
    ensures Lookup(Run(capacity, ops), k, slot) == Some(text)
            <==> exists j: nat :: KeptSince(capacity, ops, k, slot, text, j)
  {
    if ops != [] {
      var n := |ops| - 1;
      var past, op := ops[..n], ops[n];
      RunInStep(capacity, past);
      StepLookup(Run(capacity, past), capacity, op, k, slot);
      HitIsLastInserted(capacity, past, k, slot, text);
      KeptOneMore(capacity, ops, k, slot, text, n);
      forall j: nat ensures KeptSince(capacity, past, k, slot, text, j) ==> j != n {}
      if exists j: nat :: KeptSince(capacity, past, k, slot, text, j) {
        var j: nat :| KeptSince(capacity, past, k, slot, text, j);
        KeptOneMore(capacity, ops, k, slot, text, j);
      }
      if exists j: nat :: KeptSince(capacity, ops, k, slot, text, j) {
        var j: nat :| KeptSince(capacity, ops, k, slot, text, j);
        KeptOneMore(capacity, ops, k, slot, text, j);
      }
    }
  }

  // ----- Inclusion: a smaller cache is contained in a larger one -----

  /** The elements of `s` that are in `keep`, in the order of `s`. */
  ghost function Restrict(s: seq<nat>, keep: set<nat>): (r: seq<nat>) {
    if s == [] then []
    else if s[0] in keep then [s[0]] + Restrict(s[1..], keep)
    else Restrict(s[1..], keep)
  }

  ghost predicate EntryWithin(small: Entry, large: Entry) {
    forall slot :: ReadSlot(small, slot).Some? ==> ReadSlot(large, slot) == ReadSlot(small, slot)
  }

  /** `small.order` is a subsequence of `large.order`, and what `small` answers `large` answers alike. */
  ghost predicate Within(small: Cache, large: Cache) {
    && small.order == Restrict(large.order, Elems(small.order))
    && (forall k :: k in small.entries ==> k in large.entries && EntryWithin(small.entries[k], large.entries[k]))
  }

  lemma {:induction false} RestrictAppend(s: seq<nat>, x: nat, keep: set<nat>)
    ensures Restrict(s + [x], keep) == Restrict(s, keep) + if x in keep then [x] else []
  {
    if s == [] {
      assert s + [x] == [x] && [x][1..] == [];
    } else {
      assert (s + [x])[1..] == s[1..] + [x];
      RestrictAppend(s[1..], x, keep);
    }
  }

  lemma RestrictCons(x: nat, s: seq<nat>, keep: set<nat>)
    ensures Restrict([x] + s, keep) == if x in keep then [x] + Restrict(s, keep) else Restrict(s, keep)
  {
    assert ([x] + s)[1..] == s;
  }

  lemma WithoutCons(x: nat, s: seq<nat>, k: nat)
    ensures Without([x] + s, k) == if x == k then s else [x] + Without(s, k)
  {
    assert ([x] + s)[1..] == s;
  }

  lemma {:induction false} RestrictWithout(s: seq<nat>, x: nat, keep: set<nat>)
    requires NoDup(s)
    ensures Restrict(Without(s, x), keep) == Restrict(s, keep - {x})
    ensures Restrict(s, keep - {x}) == Without(Restrict(s, keep), x)
  {
    if s != [] {
      var t := s[1..];
      RestrictWithout(t, x, keep);
      if s[0] == x {
        RestrictHeadOut(s, keep);
      } else {
        RestrictCons(s[0], Without(t, x), keep);
        WithoutCons(s[0], Restrict(t, keep), x);
      }
    }
  }

  lemma RestrictHeadOut(s: seq<nat>, keep: set<nat>)
    requires NoDup(s) && s != []
    ensures Restrict(s, keep - {s[0]}) == Restrict(s[1..], keep) == Without(Restrict(s, keep), s[0])
    ensures Restrict(s[1..], keep) == Restrict(s[1..], keep - {s[0]})
  {
    var x, t := s[0], s[1..];
    assert x !in t;
    RestrictOther(t, keep, keep - {x});
    RestrictIsSubset(t, keep);
    if x in keep {
      WithoutCons(x, Restrict(t, keep), x);
    } else {
      WithoutAbsent(Restrict(t, keep), x);
    }
  }

  lemma {:induction false} WithoutAbsent(s: seq<nat>, k: nat)
    ensures k !in s ==> Without(s, k) == s
  {
    if s != [] { WithoutAbsent(s[1..], k); }
  }

  lemma {:induction false} RestrictIsSubset(s: seq<nat>, keep: set<nat>)
    ensures forall x :: x in Restrict(s, keep) <==> x in s && x in keep
  {
    if s != [] { RestrictIsSubset(s[1..], keep); }
  }

  lemma {:induction false} RestrictOther(s: seq<nat>, a: set<nat>, b: set<nat>)
    requires forall x :: x in s ==> (x in a <==> x in b)
    ensures Restrict(s, a) == Restrict(s, b)
  {
    if s != [] { RestrictOther(s[1..], a, b); }
  }

  /** Using the same packet last in both queues keeps one a subsequence of the other. */
  lemma TouchBoth(small: seq<nat>, large: seq<nat>, k: nat)
    requires NoDup(small) && NoDup(large) && small == Restrict(large, Elems(small))
    ensures Touch(small, k) == Restrict(Touch(large, k), Elems(Touch(small, k)))
  {
    var keep := Elems(small);
    TouchMoves(small, k);
    RestrictAppend(Without(large, k), k, keep + {k});
    RestrictWithout(large, k, keep + {k});
    RestrictWithout(large, k, keep);
    assert keep + {k} - {k} == keep - {k};
  }

  /** Dropping the head of the larger queue is harmless once the smaller one does not hold it. */
  lemma DropHead(small: seq<nat>, large: seq<nat>)
    requires NoDup(large) && small == Restrict(large, Elems(small)) && large != [] && large[0] !in small
    ensures small == Restrict(large[1..], Elems(small))
  {
    assert large[0] !in Elems(small);
  }

  lemma DropOwnHead(small: seq<nat>, large: seq<nat>)
    requires NoDup(small) && NoDup(large) && small == Restrict(large, Elems(small)) && small != []
    ensures small[1..] == Restrict(large, Elems(small[1..]))
  {
    RestrictWithout(large, small[0], Elems(small));
    WithoutRemoves(small, small[0]);
    assert Elems(small[1..]) == Elems(small) - {small[0]};
  }

  /** Without its own head the smaller queue cannot hold the larger one's. */
  lemma HeadsDiffer(small: seq<nat>, large: seq<nat>)
    requires NoDup(small) && small == Restrict(large, Elems(small)) && small != [] && large != []
    ensures large[0] !in small[1..]
  {
    assert large[0] in small ==> large[0] in Elems(small) && small[0] == large[0];
  }

  /** Either the smaller cache is full, or it has lost nothing the larger one has. */
  ghost predicate FullOrComplete(small: Cache, large: Cache, capacity: nat) {
    |small.order| == capacity || Elems(small.order) == Elems(large.order)
  }

  ghost predicate Included(small: Cache, c1: nat, large: Cache, c2: nat) {
    && InStep(small, c1) && InStep(large, c2)
    && Within(small, large)
    && FullOrComplete(small, large, c1)
  }

  /** Making room in both caches keeps the smaller one within the larger. */
  lemma RoomIncluded(small: Cache, c1: nat, large: Cache, c2: nat, k: nat)
    requires 0 < c1 <= c2 && Included(small, c1, large, c2)
    ensures var s, l := MakeRoom(small, c1, k), MakeRoom(large, c2, k);
            && Within(s, l) && InStep(s, c1) && InStep(l, c2)
            && (|s.order| == (if k in s.entries then c1 else c1 - 1) || Elems(s.order) == Elems(l.order))
  {
    EvictsAtMostOne(small, c1);
    EvictsAtMostOne(large, c2);
    if k !in small.entries {
      ElemsSize(small.order);
      ElemsSize(large.order);
      if |small.order| == c1 {
        DropOwnHead(small.order, large.order);
        if k !in large.entries && |large.order| == c2 {
          HeadsDiffer(small.order, large.order);
          DropHead(small.order[1..], large.order);
        }
      }
    }
  }

  lemma WriteWithin(a: Entry, b: Entry, slot: Slot, text: string)
    requires EntryWithin(a, b)
    ensures EntryWithin(WriteSlot(a, slot, text), WriteSlot(b, slot, text))
  {}

  lemma AdmitWithin(small: Cache, large: Cache, k: nat)
    requires NoDup(small.order) && NoDup(large.order) && Within(small, large)
    ensures Within(Admit(small, k), Admit(large, k))
  {
    TouchBoth(small.order, large.order, k);
    assert forall e: Entry :: EntryWithin(NEW_ENTRY, e);
  }

  /** Making room for a packet and using it, in both caches. */
  lemma EnsureIncluded(small: Cache, c1: nat, large: Cache, c2: nat, k: nat)
    requires 0 < c1 <= c2 && Included(small, c1, large, c2)
    ensures Included(EnsureEntry(small, c1, k), c1, EnsureEntry(large, c2, k), c2)
  {
    EnsureKeepsInStep(small, c1, k);
    EnsureKeepsInStep(large, c2, k);
    RoomIncluded(small, c1, large, c2, k);
    AdmitWithin(MakeRoom(small, c1, k), MakeRoom(large, c2, k), k);
    AdmitFillsUp(MakeRoom(small, c1, k), MakeRoom(large, c2, k), c1, k);
  }

  lemma AdmitFillsUp(s: Cache, l: Cache, c1: nat, k: nat)
    requires InStep(s, c1) && NoDup(l.order)
    requires |s.order| == (if k in s.entries then c1 else c1 - 1) || Elems(s.order) == Elems(l.order)
    ensures FullOrComplete(Admit(s, k), Admit(l, k), c1)
  {
    assert k in s.order <==> k in Elems(s.order);
    TouchMoves(s.order, k);
    TouchMoves(l.order, k);
  }

  lemma InsertIncluded(small: Cache, c1: nat, large: Cache, c2: nat, k: nat, slot: Slot, text: string)
    requires 0 < c1 <= c2 && Included(small, c1, large, c2)
    ensures Included(Step(small, c1, Insert(k, slot, text)), c1, Step(large, c2, Insert(k, slot, text)), c2)
  {
    EnsureIncluded(small, c1, large, c2, k);
    var s, l := EnsureEntry(small, c1, k), EnsureEntry(large, c2, k);
    WriteKeepsIncluded(s, c1, l, c2, k, slot, text);
  }

  lemma WriteKeepsIncluded(s: Cache, c1: nat, l: Cache, c2: nat, k: nat, slot: Slot, text: string)
    requires Included(s, c1, l, c2) && k in s.entries
    ensures Included(Write(s, k, slot, text), c1, Write(l, k, slot, text), c2)
  {
    WriteWithin(s.entries[k], l.entries[k], slot, text);
    assert Write(s, k, slot, text).entries.Keys == s.entries.Keys;
    assert Write(l, k, slot, text).entries.Keys == l.entries.Keys;
  }

  lemma StepIncluded(small: Cache, c1: nat, large: Cache, c2: nat, op: Op)
    requires 0 < c1 <= c2 && Included(small, c1, large, c2)
    ensures Included(Step(small, c1, op), c1, Step(large, c2, op), c2)
  {
    match op {
      case Insert(k, slot, text) => InsertIncluded(small, c1, large, c2, k, slot, text);
      case Clear =>
      case Get(k, _) =>
        StepKeepsInStep(small, c1, op);
        StepKeepsInStep(large, c2, op);
        TouchMoves(small.order, k);
        TouchMoves(large.order, k);
        assert k in small.order <==> k in Elems(small.order);
        if k in small.entries {
          AdmitWithin(small, large, k);
        } else if k in large.entries {
          MissInSmaller(small.order, large.order, k);
          assert k in Elems(large.order);
        }
    }
  }

  /** A query that only the larger cache answers moves the packet in its queue only; the subsequence does not notice. */
  lemma MissInSmaller(small: seq<nat>, large: seq<nat>, k: nat)
    requires NoDup(large) && small == Restrict(large, Elems(small)) && k !in small
    ensures small == Restrict(Touch(large, k), Elems(small))
  {
    var keep := Elems(small);
    assert keep - {k} == keep;
    RestrictWithout(large, k, keep);
    RestrictAppend(Without(large, k), k, keep);
  }

  lemma {:induction false} RunsIncluded(c1: nat, c2: nat, ops: seq<Op>)
    requires 0 < c1 <= c2
    ensures Included(Run(c1, ops), c1, Run(c2, ops), c2)
  {
    if ops != [] {
      var past := ops[..|ops| - 1];
      RunsIncluded(c1, c2, past);
      StepIncluded(Run(c1, past), c1, Run(c2, past), c2, ops[|ops| - 1]);
    }
  }

  /**
   * Inclusion. After the same calls, the smaller cache's queue is a subsequence of the larger cache's, and whatever
   * the smaller one answers to a query the larger one answers with the same text.
   */
  lemma LargerCacheAnswersMore(c1: nat, c2: nat, ops: seq<Op>, k: nat, slot: Slot)
    requires 0 < c1 <= c2
    ensures Run(c1, ops).order == Restrict(Run(c2, ops).order, Elems(Run(c1, ops).order))
    ensures Lookup(Run(c1, ops), k, slot).Some? ==> Lookup(Run(c2, ops), k, slot) == Lookup(Run(c1, ops), k, slot)
  {
    RunsIncluded(c1, c2, ops);
  }
}
