/** The store of captured packets, and the iterator that statistics and exports visit it with. */
module PacketStore {
  import opened Prelude
  import opened FilterEval

  type Raw = seq<nat>

  class PacketStore {
    var packets: seq<Packet>
    var rawData: seq<Raw>
    var firstAbsoluteTs: Option<real>
    var modifiedSinceSave: bool

    /** Every packet has its bytes. */
    ghost predicate Valid()
      reads this
    {
      |packets| == |rawData|
    }

    constructor ()
      ensures Valid() && packets == [] && firstAbsoluteTs.None? && !modifiedSinceSave
    {
      packets, rawData, firstAbsoluteTs, modifiedSinceSave := [], [], None, false;
    }

    method Add(packet: Packet, raw: Raw)
      requires Valid()
      modifies this
      ensures Valid() && packets == old(packets) + [packet] && rawData == old(rawData) + [raw] && modifiedSinceSave
      ensures firstAbsoluteTs == old(firstAbsoluteTs)
    {
      packets := packets + [packet];
      rawData := rawData + [raw];
      modifiedSinceSave := true;
    }

    function Get(index: nat): (p: Option<Packet>)
      reads this
      ensures p == if index < |packets| then Some(packets[index]) else None
    {
      if index < |packets| then Some(packets[index]) else None
    }

    /** The packets at positions `offset` to `offset + count`, as far as there are any. */
    method GetRange(offset: nat, count: nat) returns (range: seq<Packet>)
      ensures |range| <= count && (|range| < count ==> offset + |range| >= |packets|)
      ensures forall i :: 0 <= i < |range| ==> Get(offset + i) == Some(range[i])
    {
      var start := if offset < |packets| then offset else |packets|;
      var end := if offset + count < |packets| then offset + count else |packets|;
      range := packets[start..end];
    }

    method Clear()
      modifies this
      ensures Valid() && packets == [] && firstAbsoluteTs.None? && !modifiedSinceSave
    {
      packets, rawData, firstAbsoluteTs, modifiedSinceSave := [], [], None, false;
    }
  }

  /** The packets an iteration visits: all, or those at the given indices, leaving out indices without a packet. */
  function Visited(packets: seq<Packet>, indices: Option<seq<nat>>): (visited: seq<Packet>) {
    if indices.None? then packets else At(packets, indices.value)
  }

  function At(packets: seq<Packet>, indices: seq<nat>): (visited: seq<Packet>) {
    if indices == [] then []
    else (if indices[0] < |packets| then [packets[indices[0]]] else []) + At(packets, indices[1..])
  }

  /** Indices are visited one after the other, each once, and those without a packet are left out. */
  lemma {:induction false} VisitedInOrder(packets: seq<Packet>, a: seq<nat>, b: seq<nat>)
    ensures At(packets, a + b) == At(packets, a) + At(packets, b)
    ensures forall i: nat :: At(packets, [i]) == if i < |packets| then [packets[i]] else []
  {
    if a == [] {
      assert [] + b == b;
    } else {
      assert (a + b)[1..] == a[1..] + b;
      VisitedInOrder(packets, a[1..], b);
    }
  }

  class PacketIter {
    const store: PacketStore
    const indices: Option<seq<nat>>
    var pos: nat

    ghost predicate Valid()
      reads this, store
    {
      pos <= if indices.Some? then |indices.value| else |store.packets|
    }

    /** The packets still to come. */
    ghost function Remaining(): (rest: seq<Packet>)
      reads this, store
      requires Valid()
    {
      if indices.Some? then At(store.packets, indices.value[pos..]) else store.packets[pos..]
    }

    constructor (store: PacketStore, indices: Option<seq<nat>>)
      ensures Valid() && this.store == store && Remaining() == Visited(store.packets, indices)
    {
      this.store, this.indices, pos := store, indices, 0;
      new;
      assert indices.Some? ==> indices.value[0..] == indices.value;
    }

    method Next() returns (p: Option<Packet>)
      requires Valid()
      modifies this
      ensures Valid()
      ensures p.Some? <==> old(Remaining()) != []
      ensures p.Some? ==> old(Remaining()) == [p.value] + Remaining()
    {
      while true
        invariant Valid() && Remaining() == old(Remaining())
        decreases if indices.Some? then |indices.value| - pos else 0
      {
        match indices {
          case Some(idx) =>
            if pos >= |idx| { return None; }
            var i := idx[pos];
            assert idx[pos..][1..] == idx[pos + 1..];
            pos := pos + 1;
            if store.Get(i).Some? { return store.Get(i); }
          case None =>
            if pos >= |store.packets| { return None; }
            p := store.Get(pos);
            pos := pos + 1;
            return;
        }
      }
    }
  }
}
