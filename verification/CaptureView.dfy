/**
 * Live capture and the filtered packet list: packets are numbered by the capture thread, pass a bounded channel that
 * may drop them, and are appended to a store; the indices that match the active filter are maintained incrementally.
 */
module CaptureView {
  import opened Prelude
  import opened FilterEval
  import FilterAst
  import FilterParser
  import FilterPrinter

  type Filter = Packet -> bool

  const CHANNEL_CAPACITY := 10_000
  const DRAIN_LIMIT := 1_000

  /** The capture thread's numbering, the channel to the UI, and (history) how many packets did not fit into it. */
  datatype Capture = Capture(index: nat, queue: seq<Packet>, dropped: nat)

  /** The UI's side. `built` records (history) how many packets the store had at the last full rebuild. */
  datatype View = View(
    store: seq<Packet>, filter: Option<Filter>, filtered: Option<seq<nat>>,
    selected: Option<nat>, scroll: nat, visibleRows: nat, built: nat)

  datatype System = System(view: View, capture: Option<Capture>)

  /** The keys that move the selection: by some rows (1, or 20 for a page), or to an end of the list. */
  datatype Motion = Down(rows: nat) | Up(rows: nat) | First | Last

  datatype Action =
    | StartCapture
    | CapturePacket(packet: Packet)
    | Receive
    | FollowTail
    | StopCapture
    | OpenFile(packets: seq<Packet>)
    | ApplyFilter(parsed: Option<Filter>)
    | ClearFilter
    | Move(move: Motion)
    | Resize(rows: nat)

  // ----- Indices of matching packets -----

  /** The positions of the matching packets, as a full rebuild computes them. */
  function Rebuild(store: seq<Packet>, filter: Filter): (indices: seq<nat>) {
    if store == [] then []
    else
      var n := |store| - 1;
      Rebuild(store[..n], filter) + if filter(store[n]) then [n] else []
  }

  function FilteredLen(v: View): (n: nat) {
    match v.filtered
    case Some(indices) => |indices|
    case None => |v.store|
  }

  function DisplayToStoreIndex(v: View, pos: nat): (index: nat) {
    match v.filtered
    case None => pos
    case Some(indices) =>
      var last := if |indices| > 0 then |indices| - 1 else 0;
      var clamped := if pos < last then pos else last;
      if clamped < |indices| then indices[clamped] else 0
  }

  /** Binary search for `x` in `s[lo..hi]`. */
  function Search(s: seq<nat>, x: nat, lo: nat, hi: nat): (r: Option<nat>)
    requires lo <= hi <= |s|
    ensures r.Some? ==> lo <= r.value < hi && s[r.value] == x
    decreases hi - lo
  {
    if lo == hi then None
    else
      var mid := lo + (hi - lo) / 2;
      if s[mid] == x then Some(mid)
      else if s[mid] < x then Search(s, x, mid + 1, hi)
      else Search(s, x, lo, mid)
  }

  function SelectedDisplayPos(v: View): (pos: Option<nat>) {
    if v.selected.None? then None
    else
      match v.filtered
      case Some(indices) => Search(indices, v.selected.value, 0, |indices|)
      case None => v.selected
  }

  // ----- What the operations do -----

  function SelectPacket(v: View, index: nat): (r: View) {
    var t := v.(selected := Some(index));
    match SelectedDisplayPos(t)
    case None => t
    case Some(pos) =>
      if pos < t.scroll then t.(scroll := pos)
      else if t.visibleRows > 0 && pos >= t.scroll + t.visibleRows then t.(scroll := pos - t.visibleRows + 1)
      else t
  }

  /** The row a key moves to. */
  function RowAfter(v: View, m: Motion): (pos: nat)
    requires FilteredLen(v) > 0
  {
    var current, last := SelectedDisplayPos(v), FilteredLen(v) - 1;
    match m
    case First => 0
    case Last => last
    case Down(rows) => if current.None? then 0 else if current.value + rows < last then current.value + rows else last
    case Up(rows) => if current.None? || current.value < rows then 0 else current.value - rows
  }

  function MoveSelection(v: View, m: Motion): (r: View) {
    if FilteredLen(v) == 0 then v else SelectPacket(v, DisplayToStoreIndex(v, RowAfter(v, m)))
  }

  function ReceivePacket(v: View, p: Packet): (r: View) {
    var filtered := if v.filter.Some? && v.filter.value(p) && v.filtered.Some?
                    then Some(v.filtered.value + [p.index]) else v.filtered;
    v.(filtered := filtered, store := v.store + [p])
  }

  function ReceiveAll(v: View, packets: seq<Packet>): (r: View) {
    if packets == [] then v
    else ReceivePacket(ReceiveAll(v, packets[..|packets| - 1]), packets[|packets| - 1])
  }

  /** Following the tail selects the last packet of the list. */
  function FollowLast(v: View): (r: View) {
    match v.filtered
    case Some(indices) => if indices == [] then v else SelectPacket(v, indices[|indices| - 1])
    case None => SelectPacket(v, if |v.store| > 0 then |v.store| - 1 else 0)
  }

  function RebuildView(v: View): (r: View) {
    v.(filtered := if v.filter.Some? then Some(Rebuild(v.store, v.filter.value)) else None, built := |v.store|)
  }

  function FilterView(v: View, parsed: Option<Filter>): (r: View) {
    if parsed.None? then v.(filter := None, filtered := None)
    else
      var t := RebuildView(v.(filter := parsed)).(scroll := 0);
      if t.filtered.value == [] then t.(selected := None) else SelectPacket(t, t.filtered.value[0])
  }

  /** The test a parsed filter expression stands for. */
  function Compiled(os: FilterAst.Platform, r: Result<FilterAst.Expr, FilterParser.ParseError>): (f: Option<Filter>) {
    match r
    case Ok(e) => Some(p => Matches(os, e, p))
    case Err(_) => None
  }

  predicate Enabled(s: System, a: Action) {
    match a
    case CapturePacket(_) => s.capture.Some?
    case Receive => s.capture.Some? && s.capture.value.queue != []
    case OpenFile(packets) => forall i :: 0 <= i < |packets| ==> packets[i].index == i
    case FollowTail => s.view.store != []
    case _ => true
  }

  /** The capture thread: every packet takes a number; it is sent if the channel has room and dropped otherwise. */
  function CaptureOne(c: Capture, p: Packet): (r: Capture) {
    var t := c.(index := c.index + 1);
    if |c.queue| < CHANNEL_CAPACITY then t.(queue := c.queue + [p.(index := c.index)])
    else t.(dropped := c.dropped + 1)
  }

  function Next(s: System, a: Action): (r: System)
    requires Enabled(s, a)
  {
    match a
    case StartCapture => s.(capture := Some(Capture(|s.view.store|, [], 0)))
    case CapturePacket(p) => s.(capture := Some(CaptureOne(s.capture.value, p)))
    case Receive =>
      var c := s.capture.value;
      System(ReceivePacket(s.view, c.queue[0]), Some(c.(queue := c.queue[1..])))
    case FollowTail => s.(view := FollowLast(s.view))
    case StopCapture => s.(capture := None)
    case OpenFile(packets) =>
      var v := s.view.(store := packets, filter := None, filtered := None, selected := None, scroll := 0);
      System(if packets == [] then v else SelectPacket(v, 0), None)
    case ApplyFilter(parsed) => s.(view := FilterView(s.view, parsed))
    case ClearFilter => s.(view := s.view.(filter := None, filtered := None, scroll := 0))
    case Move(m) => s.(view := MoveSelection(s.view, m))
    case Resize(rows) => s.(view := s.view.(visibleRows := rows))
  }

  function Initial(): (s: System) {
    System(View([], None, None, None, 0, 20, 0), None)
  }

  /** The system after a run; an action that is not possible changes nothing. */
  function After(run: seq<Action>): (s: System) {
    if run == [] then Initial()
    else
      var s := After(run[..|run| - 1]);
      if Enabled(s, run[|run| - 1]) then Next(s, run[|run| - 1]) else s
  }

  // ----- The UI object -----

  class PacketView {
    var store: seq<Packet>
    var filter: Option<Filter>
    var filtered: Option<seq<nat>>
    var selected: Option<nat>
    var scroll: nat
    var visibleRows: nat
    ghost var built: nat

    ghost function Value(): (v: View)
      reads this
    {
      View(store, filter, filtered, selected, scroll, visibleRows, built)
    }

    constructor ()
      ensures Value() == Initial().view
    {
      store, filter, filtered, selected, scroll, visibleRows, built := [], None, None, None, 0, 20, 0;
    }

    /** The loop of `drain_capture_packets` over what the channel holds; returns how many packets it took. */
    method DrainCapture(queue: seq<Packet>, autoScroll: bool) returns (taken: nat)
      modifies this
      ensures taken == if |queue| < 1000 then |queue| else 1000
      ensures var v := ReceiveAll(old(Value()), queue[..taken]);
              Value() == if taken > 0 && autoScroll then FollowLast(v) else v
    {
      taken := 0;
      while taken < DRAIN_LIMIT && taken < |queue|
        invariant taken <= |queue| && taken <= DRAIN_LIMIT
        invariant Value() == ReceiveAll(old(Value()), queue[..taken])
      {
        var summary := queue[taken];
        if filter.Some? && filter.value(summary) {
          if filtered.Some? {
            filtered := Some(filtered.value + [summary.index]);
          }
        }
        store := store + [summary];
        assert queue[..taken + 1][..taken] == queue[..taken];
        taken := taken + 1;
      }
      if taken > 0 && autoScroll {
        if filtered.Some? {
          if filtered.value != [] { SelectIndex(filtered.value[|filtered.value| - 1]); }
        } else {
          SelectIndex(if |store| > 0 then |store| - 1 else 0);
        }
      }
    }

    /** Selects, and scrolls by as little as brings the selected row, if it is listed, into the window. */
    method SelectIndex(index: nat)
      modifies this
      ensures Value() == SelectPacket(old(Value()), index) && selected == Some(index)
      ensures Value() == old(Value()).(selected := selected, scroll := scroll)
      ensures var pos := SelectedDisplayPos(Value());
              if pos.None? then scroll == old(scroll)
              else if visibleRows == 0 then scroll == if pos.value < old(scroll) then pos.value else old(scroll)
              else
                && scroll <= pos.value < scroll + visibleRows
                && (old(scroll) <= pos.value < old(scroll) + visibleRows ==> scroll == old(scroll))
                && (pos.value < old(scroll) ==> scroll == pos.value)
                && (pos.value >= old(scroll) + visibleRows ==> scroll + visibleRows == pos.value + 1)
    {
      selected := Some(index);
      var pos: Option<nat>;
      if filtered.Some? {
        pos := FindPosition(filtered.value, index);
      } else {
        pos := selected;
      }
      if pos.Some? {
        if pos.value < scroll {
          scroll := pos.value;
        } else if visibleRows > 0 && pos.value >= scroll + visibleRows {
          scroll := pos.value - visibleRows + 1;
        }
      }
    }

    /** A key of the packet list: the row it leads to becomes the selected one, and visible. */
    method MoveBy(m: Motion)
      modifies this
      ensures Value() == MoveSelection(old(Value()), m)
      ensures var v := old(Value());
              FilteredLen(v) > 0 && RowsAreSound(v) ==>
                && SelectedDisplayPos(Value()).Some?
                && (var row := SelectedDisplayPos(Value()).value;
                    && LandsOn(SelectedDisplayPos(v), m, FilteredLen(v) - 1, row)
                    && (visibleRows > 0 ==> scroll <= row < scroll + visibleRows))
    {
      if FilteredLen(Value()) > 0 && RowsAreSound(Value()) { MoveShowsItsRow(Value(), m); }
      hide Search, RowAfter, SelectedDisplayPos, SelectPacket, RowsAreSound;
      var count := if filtered.Some? then |filtered.value| else |store|;
      if count == 0 { return; }
      var row := FindRow(m);
      if filtered.Some? {
        SelectIndex(filtered.value[if row < count - 1 then row else count - 1]);
      } else {
        SelectIndex(row);
      }
    }

    method FindRow(m: Motion) returns (row: nat)
      requires FilteredLen(Value()) > 0
      ensures row == RowAfter(Value(), m)
    {
      hide Search;
      var count := if filtered.Some? then |filtered.value| else |store|;
      var current := selected;
      if filtered.Some? && selected.Some? {
        current := FindPosition(filtered.value, selected.value);
      }
      match m {
        case First => row := 0;
        case Last => row := count - 1;
        case Down(rows) =>
          row := if current.None? then 0 else if current.value + rows < count - 1 then current.value + rows else count - 1;
        case Up(rows) =>
          row := if current.None? || current.value < rows then 0 else current.value - rows;
      }
    }

    method RebuildFilteredIndices()
      modifies this
      ensures Value() == RebuildView(old(Value()))
    {
      built := |store|;
      if filter.None? {
        filtered := None;
        return;
      }
      var indices: seq<nat> := [];
      for i := 0 to |store|
        invariant indices == Rebuild(store[..i], filter.value)
        invariant Value() == old(Value()).(built := |store|)
      {
        assert store[..i + 1][..i] == store[..i];
        if filter.value(store[i]) {
          indices := indices + [i];
        }
      }
      assert store[..|store|] == store;
      filtered := Some(indices);
    }

    method ApplyFilterText(os: FilterAst.Platform, input: string)
      modifies this
      ensures Value() == FilterView(old(Value()), Compiled(os, FilterPrinter.ParseText(os, input)))
    {
      var r := FilterPrinter.Parse(os, input);
      ApplyParsedFilter(Compiled(os, r));
    }

    method ApplyParsedFilter(parsed: Option<Filter>)
      modifies this
      ensures Value() == FilterView(old(Value()), parsed)
    {
      filter := parsed;
      if parsed.None? {
        filtered := None;
        return;
      }
      RebuildFilteredIndices();
      scroll := 0;
      if filtered.value == [] {
        selected := None;
      } else {
        SelectIndex(filtered.value[0]);
      }
    }
  }

  method FindPosition(s: seq<nat>, x: nat) returns (r: Option<nat>)
    ensures r == Search(s, x, 0, |s|)
  {
    var lo, hi := 0, |s|;
    while lo < hi
      invariant lo <= hi <= |s| && Search(s, x, 0, |s|) == Search(s, x, lo, hi)
      decreases hi - lo
    {
      var mid := lo + (hi - lo) / 2;
      if s[mid] == x { return Some(mid); }
      if s[mid] < x { lo := mid + 1; } else { hi := mid; }
    }
    return None;
  }

  // ----- Agreement of the incremental index with a rebuild -----

  /** The stored numbers of the matching packets from position `from` on. */
  function Numbers(store: seq<Packet>, filter: Filter, from: nat): (indices: seq<nat>)
    requires from <= |store|
  {
    if |store| == from then []
    else
      var n := |store| - 1;
      Numbers(store[..n], filter, from) + if filter(store[n]) then [store[n].index] else []
  }

  /** What the incremental index is: a rebuild up to `built`, then the numbers of the packets received since. */
  ghost predicate Incremental(v: View) {
    && (v.filtered.Some? <==> v.filter.Some?)
    && (v.filter.Some? ==>
          && v.built <= |v.store|
          && v.filtered.value == Rebuild(v.store[..v.built], v.filter.value) + Numbers(v.store, v.filter.value, v.built))
  }

  /**
   * Packet numbers are at least positions, and increase along the channel. The next number is the position the packet
   * would get, shifted by the number of packets this capture has dropped.
   */
  ghost predicate Numbered(s: System) {
    && (forall i :: 0 <= i < |s.view.store| ==> i <= s.view.store[i].index)
    && (s.capture.Some? ==>
          var c := s.capture.value;
          && c.index == |s.view.store| + |c.queue| + c.dropped
          && (forall i :: 0 <= i < |c.queue| ==> |s.view.store| + i <= c.queue[i].index < c.index)
          && (forall i, j :: 0 <= i < j < |c.queue| ==> c.queue[i].index < c.queue[j].index))
  }

  lemma {:induction false} NumbersEmpty(store: seq<Packet>, filter: Filter)
    ensures Numbers(store, filter, |store|) == []
  {}

  lemma ReceiveKeepsIncremental(v: View, p: Packet)
    requires Incremental(v)
    ensures Incremental(ReceivePacket(v, p))
  {
    var r := ReceivePacket(v, p);
    if v.filter.Some? {
      var n := |v.store|;
      assert r.store[..n] == v.store;
      assert r.store[..v.built] == v.store[..v.built];
    }
  }

  lemma NextKeepsIncremental(s: System, a: Action)
    requires Incremental(s.view) && Enabled(s, a)
    ensures Incremental(Next(s, a).view)
  {
    match a {
      case Receive => ReceiveKeepsIncremental(s.view, s.capture.value.queue[0]);
      case ApplyFilter(parsed) =>
        if parsed.Some? {
          assert s.view.store[..|s.view.store|] == s.view.store;
          NumbersEmpty(s.view.store, parsed.value);
          var rebuilt := Rebuild(s.view.store, parsed.value);
          assert rebuilt + [] == rebuilt;
        }
      case _ =>
    }
  }

  lemma {:induction false} AfterIsIncremental(run: seq<Action>)
    ensures Incremental(After(run).view)
  {
    if run != [] {
      var s := After(run[..|run| - 1]);
      AfterIsIncremental(run[..|run| - 1]);
      if Enabled(s, run[|run| - 1]) { NextKeepsIncremental(s, run[|run| - 1]); }
    }
  }

  /** Every matching packet received since the last rebuild has its position as its number. */
  ghost predicate NumbersArePositions(v: View) {
    v.filter.Some? ==>
      forall i :: v.built <= i < |v.store| && v.filter.value(v.store[i]) ==> v.store[i].index == i
  }

  lemma {:induction false} SplitRebuild(store: seq<Packet>, filter: Filter, from: nat)
    requires from <= |store|
    ensures |Rebuild(store, filter)| == |Rebuild(store[..from], filter)| + |Numbers(store, filter, from)|
    ensures Rebuild(store, filter) == Rebuild(store[..from], filter) + Numbers(store, filter, from)
            <==> forall i :: from <= i < |store| && filter(store[i]) ==> store[i].index == i
  {
    if |store| == from {
      assert store[..from] == store;
      assert Rebuild(store, filter) + [] == Rebuild(store, filter);
    } else {
      var n := |store| - 1;
      var init := store[..n];
      SplitRebuild(init, filter, from);
      assert init[..from] == store[..from];
      var a, b, c := Rebuild(init, filter), Rebuild(store[..from], filter), Numbers(init, filter, from);
      AppendBoth(a, b, c, n, store[n].index);
      assert a + [] == a && c + [] == c;
      assert forall i :: from <= i < n ==> init[i] == store[i];
      assert (forall i :: from <= i < |store| && filter(store[i]) ==> store[i].index == i)
             <==> && (forall i :: from <= i < n && filter(init[i]) ==> init[i].index == i)
                  && (filter(store[n]) ==> store[n].index == n);
    }
  }

  lemma AppendBoth(a: seq<nat>, b: seq<nat>, c: seq<nat>, x: nat, y: nat)
    requires |a| == |b| + |c|
    ensures a + [x] == b + (c + [y]) <==> a == b + c && x == y
  {
    assert b + (c + [y]) == (b + c) + [y];
    if a + [x] == b + (c + [y]) {
      assert a == (a + [x])[..|a|] == ((b + c) + [y])[..|a|] == b + c;
      assert x == (a + [x])[|a|];
    }
  }

  /**
   * Index agreement. In every reachable state the maintained index is what a rebuild would compute exactly if every
   * matching packet received since the last rebuild carries its store position as its number.
   */
  lemma AgreesIffNumbersArePositions(run: seq<Action>)
    ensures var v := After(run).view;
            v.filtered == RebuildView(v).filtered <==> NumbersArePositions(v)
  {
    AfterIsIncremental(run);
    var v := After(run).view;
    if v.filter.Some? { SplitRebuild(v.store, v.filter.value, v.built); }
  }

  /** No packet has been dropped since the store was last replaced. */
  ghost predicate NoDrop(run: seq<Action>) {
    if run == [] then true
    else
      var s, a := After(run[..|run| - 1]), run[|run| - 1];
      (Enabled(s, a) && a.OpenFile?)
      || (NoDrop(run[..|run| - 1])
          && (a.CapturePacket? && s.capture.Some? ==> |s.capture.value.queue| < 10_000))
  }

  ghost predicate Aligned(s: System) {
    && (forall i :: 0 <= i < |s.view.store| ==> s.view.store[i].index == i)
    && (s.capture.Some? ==>
          var c := s.capture.value;
          && c.index == |s.view.store| + |c.queue|
          && (forall i :: 0 <= i < |c.queue| ==> c.queue[i].index == |s.view.store| + i))
  }

  lemma {:induction false} NoDropIsAligned(run: seq<Action>)
    requires NoDrop(run)
    ensures Aligned(After(run))
  {
    hide Rebuild, Search;
    if run != [] {
      var s, a := After(run[..|run| - 1]), run[|run| - 1];
      if Enabled(s, a) && !a.OpenFile? {
        NoDropIsAligned(run[..|run| - 1]);
        if a.ApplyFilter? || a.Move? || a.FollowTail? { assert Next(s, a).view.store == s.view.store; }
      } else if !a.OpenFile? || !Enabled(s, a) {
        NoDropIsAligned(run[..|run| - 1]);
      }
    }
  }

  /** While no packet has been dropped, the maintained index is what a rebuild would compute. */
  lemma NoDropAgrees(run: seq<Action>)
    requires NoDrop(run)
    ensures After(run).view.filtered == RebuildView(After(run).view).filtered
  {
    NoDropIsAligned(run);
    AgreesIffNumbersArePositions(run);
  }

  // ----- Sortedness -----

  ghost predicate Increasing(s: seq<nat>) {
    forall i, j :: 0 <= i < j < |s| ==> s[i] < s[j]
  }

  /** The index is increasing, and the packets still to come have larger numbers. */
  ghost predicate SortedSoFar(s: System) {
    s.view.filtered.Some? ==>
      && Increasing(s.view.filtered.value)
      && (s.capture.Some? ==>
            && (forall x <- s.view.filtered.value :: x < s.capture.value.index)
            && (forall x <- s.view.filtered.value, p <- s.capture.value.queue :: x < p.index))
  }

  /** Every capture is started when the index holds positions of the store only. */
  ghost predicate CleanStarts(run: seq<Action>) {
    run == [] ||
      (CleanStarts(run[..|run| - 1])
       && (run[|run| - 1].StartCapture? ==>
             var v := After(run[..|run| - 1]).view;
             v.filtered.Some? ==> forall x <- v.filtered.value :: x < |v.store|))
  }

  lemma IncreasingAppend(s: seq<nat>, x: nat)
    requires Increasing(s) && forall y <- s :: y < x
    ensures Increasing(s + [x])
  {
    assert forall i :: 0 <= i < |s| ==> s[i] in s;
  }

  /** A rebuild lists exactly the matching positions. */
  lemma {:induction false} RebuildListsMatches(store: seq<Packet>, filter: Filter, i: nat)
    ensures i in Rebuild(store, filter) <==> i < |store| && filter(store[i])
  {
    if store != [] {
      RebuildListsMatches(store[..|store| - 1], filter, i);
    }
  }

  /** The rows that a filter expression lists. */
  function RowsOf(os: FilterAst.Platform, store: seq<Packet>, e: FilterAst.Expr): (rows: seq<nat>) {
    Rebuild(store, p => Matches(os, e, p))
  }

  /** `and`, `or` and `not` list the rows both, either or neither of whose filters list. */
  lemma BooleanRows(os: FilterAst.Platform, store: seq<Packet>, a: FilterAst.Expr, b: FilterAst.Expr, i: nat)
    ensures i in RowsOf(os, store, FilterAst.And(a, b)) <==> i in RowsOf(os, store, a) && i in RowsOf(os, store, b)
    ensures i in RowsOf(os, store, FilterAst.Or(a, b)) <==> i in RowsOf(os, store, a) || i in RowsOf(os, store, b)
    ensures i in RowsOf(os, store, FilterAst.Not(a)) <==> i < |store| && i !in RowsOf(os, store, a)
  {
    hide Rebuild;
    RebuildListsMatches(store, p => Matches(os, a, p), i);
    RebuildListsMatches(store, p => Matches(os, b, p), i);
    RebuildListsMatches(store, p => Matches(os, FilterAst.And(a, b), p), i);
    RebuildListsMatches(store, p => Matches(os, FilterAst.Or(a, b), p), i);
    RebuildListsMatches(store, p => Matches(os, FilterAst.Not(a), p), i);
  }

  lemma {:induction false} RebuildIsIncreasing(store: seq<Packet>, filter: Filter)
    ensures Increasing(Rebuild(store, filter))
    ensures forall i <- Rebuild(store, filter) :: i < |store|
  {
    if store != [] {
      var n := |store| - 1;
      var before := Rebuild(store[..n], filter);
      RebuildIsIncreasing(store[..n], filter);
      IncreasingAppend(before, n);
      assert before + [] == before;
    }
  }

  lemma NextKeepsNumbered(s: System, a: Action)
    requires Numbered(s) && Enabled(s, a)
    ensures Numbered(Next(s, a))
  {
    hide Rebuild, Search;
    if a.ApplyFilter? || a.Move? || a.FollowTail? { assert Next(s, a).view.store == s.view.store; }
  }

  lemma ReceiveKeepsSorted(s: System)
    requires Numbered(s) && SortedSoFar(s) && Enabled(s, Receive)
    ensures SortedSoFar(Next(s, Receive))
  {
    var p := s.capture.value.queue[0];
    var r := Next(s, Receive);
    forall q | q in r.capture.value.queue ensures p.index < q.index && q in s.capture.value.queue {
      var i :| 0 <= i < |r.capture.value.queue| && r.capture.value.queue[i] == q;
      assert s.capture.value.queue[i + 1] == q;
    }
    assert p in s.capture.value.queue;
    if s.view.filtered.Some? { IncreasingAppend(s.view.filtered.value, p.index); }
  }

  lemma NumbersPassTheStore(s: System)
    requires Numbered(s)
    ensures s.capture.Some? ==>
              |s.view.store| <= s.capture.value.index && forall p <- s.capture.value.queue :: |s.view.store| <= p.index
  {}

  lemma NextKeepsSorted(s: System, a: Action)
    requires Numbered(s) && SortedSoFar(s) && Enabled(s, a)
    requires a.StartCapture? && s.view.filtered.Some? ==> forall x <- s.view.filtered.value :: x < |s.view.store|
    ensures SortedSoFar(Next(s, a))
  {
    hide Rebuild, Search, Numbered, Increasing;
    match a {
      case ApplyFilter(parsed) =>
        if parsed.Some? {
          NumbersPassTheStore(s);
          RebuildIsIncreasing(s.view.store, parsed.value);
          assert Next(s, a).view.filtered == Some(Rebuild(s.view.store, parsed.value));
        }
      case Receive => ReceiveKeepsSorted(s);
      case _ =>
    }
  }

  /** A captured packet is dropped exactly if 10000 are waiting; it takes a number in any case. */
  lemma DropsIffFull(c: Capture, p: Packet)
    ensures var r := CaptureOne(c, p);
            && r.index == c.index + 1
            && (|c.queue| >= 10_000 <==> r.dropped == c.dropped + 1)
            && (|c.queue| >= 10_000 ==> r.queue == c.queue)
            && (|c.queue| < 10_000 ==> r.queue == c.queue + [p.(index := c.index)] && r.dropped == c.dropped)
  {}

  /** In every reachable state the capture's next number is off from the store position by exactly its drops. */
  lemma {:induction false} AfterIsNumbered(run: seq<Action>)
    ensures Numbered(After(run))
  {
    if run != [] {
      var s, a := After(run[..|run| - 1]), run[|run| - 1];
      AfterIsNumbered(run[..|run| - 1]);
      if Enabled(s, a) { NextKeepsNumbered(s, a); }
    }
  }

  /** Even when packets are dropped, the index stays strictly increasing while captures start clean. */
  lemma {:induction false} StaysIncreasing(run: seq<Action>)
    requires CleanStarts(run)
    ensures SortedSoFar(After(run))
  {
    if run != [] {
      var s, a := After(run[..|run| - 1]), run[|run| - 1];
      StaysIncreasing(run[..|run| - 1]);
      AfterIsNumbered(run[..|run| - 1]);
      if Enabled(s, a) { NextKeepsSorted(s, a); }
    }
  }

  /**
   * A clean start is needed: once a dropped packet has pushed a number beyond the store, a new capture starts
   * numbering below it, and the first matching packet it delivers breaks the order.
   */
  lemma UncleanStartBreaksOrder(v: View, p: Packet, last: nat)
    requires v.filter.Some? && v.filter.value(p.(index := |v.store|)) && v.filtered.Some?
    requires last in v.filtered.value && last >= |v.store|
    ensures var s := Next(Next(Next(System(v, None), StartCapture), CapturePacket(p)), Receive);
            s.view.filtered.Some? && !Increasing(s.view.filtered.value)
  {
    var s := Next(Next(Next(System(v, None), StartCapture), CapturePacket(p)), Receive);
    var i :| 0 <= i < |v.filtered.value| && v.filtered.value[i] == last;
    var now := s.view.filtered.value;
    assert now == v.filtered.value + [|v.store|];
    assert now[i] >= now[|now| - 1] && i < |now| - 1;
  }

  lemma Then(run: seq<Action>, a: Action) returns (longer: seq<Action>)
    requires Enabled(After(run), a)
    ensures longer == run + [a] && After(longer) == Next(After(run), a)
  {
    longer := run + [a];
    assert longer[..|longer| - 1] == run;
  }

  /** A capture whose packets all pass the filter `f`. */
  ghost predicate Capturing(s: System, f: Filter) {
    s.capture.Some? && s.view.filter == Some(f) && s.view.filtered.Some?
  }

  lemma {:induction false} FillChannel(f: Filter, p: Packet, n: nat) returns (run: seq<Action>)
    requires n <= CHANNEL_CAPACITY
    ensures var s := After(run); Capturing(s, f) && |s.capture.value.queue| == n
  {
    if n == 0 {
      run := Then([], ApplyFilter(Some(f)));
      run := Then(run, StartCapture);
    } else {
      run := FillChannel(f, p, n - 1);
      run := Then(run, CapturePacket(p));
    }
  }

  lemma {:induction false} EmptyChannel(before: seq<Action>, f: Filter) returns (run: seq<Action>)
    requires Capturing(After(before), f)
    ensures var s := After(run);
            Capturing(s, f) && s.capture.value.queue == [] && s.capture.value.dropped == After(before).capture.value.dropped
    ensures before <= run
    decreases |After(before).capture.value.queue|
  {
    run := before;
    if After(before).capture.value.queue != [] {
      run := Then(before, Receive);
      run := EmptyChannel(run, f);
    }
  }

  /** This happens: a full channel, one packet dropped and a later one received, and then a new capture. */
  lemma OrderBreaksAfterDrop(f: Filter, p: Packet)
    requires forall q :: f(q)
    ensures exists run :: var v := After(run).view; v.filtered.Some? && !Increasing(v.filtered.value)
  {
    hide Increasing;
    var run := FillChannel(f, p, CHANNEL_CAPACITY);
    run := Then(run, CapturePacket(p));
    assert After(run).capture.value.dropped > 0;
    run := EmptyChannel(run, f);
    run := Then(run, CapturePacket(p));
    AfterIsNumbered(run);
    var last := After(run).capture.value.queue[0].index;
    run := Then(run, Receive);
    var v := After(run).view;
    assert v.filtered.value[|v.filtered.value| - 1] == last;
    UncleanStartBreaksOrder(v, p, last);
    run := Then(run, StartCapture);
    run := Then(run, CapturePacket(p));
    run := Then(run, Receive);
    assert After(run).view == Next(Next(Next(System(v, None), StartCapture), CapturePacket(p)), Receive).view;
  }

  // ----- Whether the selected packet is in the store -----

  ghost predicate SelectedIsStored(v: View) {
    v.selected.Some? ==> v.selected.value < |v.store|
  }

  lemma StepSelectsStored(s: System, a: Action)
    requires Enabled(s, a) && SelectedIsStored(s.view)
    requires s.view.filtered.Some? ==> forall x <- s.view.filtered.value :: x < |s.view.store|
    ensures SelectedIsStored(Next(s, a).view)
  {
    hide MoveSelection, FilterView, FollowLast, SelectPacket;
    match a {
      case Move(m) => MoveSelectsStored(s.view, m);
      case FollowTail => FollowSelectsStored(s.view);
      case ApplyFilter(parsed) => FilterSelectsStored(s.view, parsed);
      case OpenFile(packets) => OpensStored(s, a);
      case _ =>
    }
  }

  lemma MoveSelectsStored(v: View, m: Motion)
    requires SelectedIsStored(v) && (v.filtered.Some? ==> forall x <- v.filtered.value :: x < |v.store|)
    ensures SelectedIsStored(MoveSelection(v, m))
  {
    hide Search;
    if v.filtered.Some? && FilteredLen(v) > 0 {
      assert DisplayToStoreIndex(v, RowAfter(v, m)) in v.filtered.value;
    }
  }

  lemma FollowSelectsStored(v: View)
    requires SelectedIsStored(v) && v.store != [] && (v.filtered.Some? ==> forall x <- v.filtered.value :: x < |v.store|)
    ensures SelectedIsStored(FollowLast(v))
  {
    hide Search;
    if v.filtered.Some? && v.filtered.value != [] {
      assert v.filtered.value[|v.filtered.value| - 1] in v.filtered.value;
    }
  }

  lemma FilterSelectsStored(v: View, parsed: Option<Filter>)
    requires SelectedIsStored(v)
    ensures SelectedIsStored(FilterView(v, parsed))
  {
    hide Search;
    if parsed.Some? {
      RebuildIsIncreasing(v.store, parsed.value);
      hide Rebuild;
      var indices := Rebuild(v.store, parsed.value);
      assert indices != [] ==> indices[0] in indices;
    }
  }

  /** While no packet has been dropped, only packets in the store are selected. */
  lemma {:induction false} NoDropSelectsStored(run: seq<Action>)
    requires NoDrop(run)
    ensures SelectedIsStored(After(run).view)
  {
    hide Next, Rebuild;
    if run != [] {
      var s, a := After(run[..|run| - 1]), run[|run| - 1];
      if Enabled(s, a) && a.OpenFile? {
        OpensStored(s, a);
      } else {
        NoDropSelectsStored(run[..|run| - 1]);
        NoDropAgrees(run[..|run| - 1]);
        if s.view.filter.Some? { RebuildIsIncreasing(s.view.store, s.view.filter.value); }
        if Enabled(s, a) { StepSelectsStored(s, a); }
      }
    }
  }

  lemma OpensStored(s: System, a: Action)
    requires Enabled(s, a) && a.OpenFile?
    ensures SelectedIsStored(Next(s, a).view)
  {}

  /** Whenever the capture has dropped a packet, a position the store has not reached can come to be selected. */
  lemma AfterDropCanSelectAhead(before: seq<Action>, f: Filter, p: Packet)
    requires After(before).capture.Some? && After(before).capture.value.dropped > 0
    requires forall q :: f(q)
    ensures exists run :: before <= run && !SelectedIsStored(After(run).view)
  {
    hide After, Increasing, Search, SelectedDisplayPos, Rebuild;
    var run := Then(before, ApplyFilter(Some(f)));
    run := EmptyChannel(run, f);
    run := Then(run, CapturePacket(p));
    AfterIsNumbered(run);
    var last := After(run).capture.value.queue[0].index;
    run := Then(run, Receive);
    assert After(run).view.filtered.value[|After(run).view.filtered.value| - 1] == last;
    run := Then(run, FollowTail);
    assert After(run).view.selected == Some(last);
  }

  /** And a capture can drop a packet. */
  lemma DropHappens(f: Filter, p: Packet)
    ensures exists run :: After(run).capture.Some? && After(run).capture.value.dropped > 0
  {
    var run := FillChannel(f, p, CHANNEL_CAPACITY);
    run := Then(run, CapturePacket(p));
    assert After(run).capture.Some?;
  }

  /** After a capture has been stopped no packet comes in, whatever else happens, until another is started or a file opened. */
  lemma {:induction false} StoppedCaptureAddsNothing(before: seq<Action>, run: seq<Action>)
    requires forall a <- run :: !a.StartCapture? && !a.OpenFile?
    ensures var r := After(before + [StopCapture] + run); r.capture.None? && r.view.store == After(before).view.store
  {
    var all := before + [StopCapture] + run;
    if run == [] {
      assert all[..|all| - 1] == before;
    } else {
      StoppedCaptureAddsNothing(before, run[..|run| - 1]);
      assert all[..|all| - 1] == before + [StopCapture] + run[..|run| - 1];
      assert all[|all| - 1] == run[|run| - 1] && run[|run| - 1] in run;
      hide Search;
    }
  }

  // ----- Display positions -----

  lemma {:induction false} SearchFinds(s: seq<nat>, x: nat, lo: nat, hi: nat)
    requires lo <= hi <= |s| && Increasing(s)
    ensures var r := Search(s, x, lo, hi);
            (r.Some? ==> lo <= r.value < hi && s[r.value] == x) && (r.None? ==> forall i :: lo <= i < hi ==> s[i] != x)
    decreases hi - lo
  {
    if lo < hi {
      var mid := lo + (hi - lo) / 2;
      if s[mid] < x { SearchFinds(s, x, mid + 1, hi); } else if s[mid] > x { SearchFinds(s, x, lo, mid); }
    }
  }

  /** While the index is increasing, rows and packets correspond: selecting what row `pos` shows selects row `pos`. */
  lemma RowRoundTrip(v: View, pos: nat)
    requires (v.filtered.Some? ==> Increasing(v.filtered.value)) && pos < FilteredLen(v)
    ensures SelectedDisplayPos(v.(selected := Some(DisplayToStoreIndex(v, pos)))) == Some(pos)
  {
    hide Search;
    if v.filtered.Some? {
      SearchFinds(v.filtered.value, v.filtered.value[pos], 0, |v.filtered.value|);
    }
  }

  /** After selecting the packet of a row, that row is inside the visible window. */
  lemma SelectedRowIsVisible(v: View, pos: nat)
    requires (v.filtered.Some? ==> Increasing(v.filtered.value)) && pos < FilteredLen(v) && v.visibleRows > 0
    ensures var r := SelectPacket(v, DisplayToStoreIndex(v, pos));
            SelectedDisplayPos(r) == Some(pos) && r.scroll <= pos < r.scroll + r.visibleRows
  {
    RowRoundTrip(v, pos);
  }

  /**
   * The row a key leads to in a list whose last row is `last`: so many rows down or up from the selected one, but not
   * beyond an end; the first row if none is selected; or an end of the list.
   */
  ghost predicate LandsOn(from: Option<nat>, m: Motion, last: nat, row: nat) {
    match m
    case First => row == 0
    case Last => row == last
    case Down(n) =>
      if from.None? then row == 0
      else row <= last && row <= from.value + n && (row == last || row == from.value + n)
    case Up(n) =>
      if from.None? then row == 0
      else row <= from.value && row + n >= from.value && (row == 0 || row + n == from.value)
  }

  /** The list is in order, and without a filter the selected packet is in the store. */
  ghost predicate RowsAreSound(v: View) {
    match v.filtered
    case Some(indices) => Increasing(indices)
    case None => SelectedIsStored(v)
  }

  /** The row a key leads to is then the selected one, and visible. */
  lemma MoveShowsItsRow(v: View, m: Motion)
    requires FilteredLen(v) > 0 && RowsAreSound(v)
    ensures var r := MoveSelection(v, m);
            && SelectedDisplayPos(r).Some?
            && LandsOn(SelectedDisplayPos(v), m, FilteredLen(v) - 1, SelectedDisplayPos(r).value)
            && (v.visibleRows > 0 ==> r.scroll <= SelectedDisplayPos(r).value < r.scroll + v.visibleRows)
  {
    hide Search, Increasing;
    RowRoundTrip(v, RowAfter(v, m));
    if v.visibleRows > 0 { SelectedRowIsVisible(v, RowAfter(v, m)); }
  }

  /** Following the tail, the last row of the list is the selected one, and visible. */
  lemma FollowShowsTheLastRow(v: View)
    requires FilteredLen(v) > 0 && (v.filtered.Some? ==> Increasing(v.filtered.value))
    ensures var r := FollowLast(v);
            && SelectedDisplayPos(r) == Some(FilteredLen(v) - 1)
            && (v.visibleRows > 0 ==> r.scroll < FilteredLen(v) <= r.scroll + v.visibleRows)
  {
    hide Search, Increasing;
    RowRoundTrip(v, FilteredLen(v) - 1);
    if v.visibleRows > 0 { SelectedRowIsVisible(v, FilteredLen(v) - 1); }
  }

  /**
   * A new filter lists exactly the matching packets and selects the first of them on the first row; without matches
   * nothing is selected. A text that is no filter switches the filter off and leaves the selection.
   */
  lemma FilterShowsTheFirstMatch(v: View, f: Filter)
    ensures var r := FilterView(v, Some(f));
            && r.filter == Some(f) && r.filtered.Some? && Increasing(r.filtered.value) && r.scroll == 0
            && (forall i: nat :: i in r.filtered.value <==> i < |v.store| && f(v.store[i]))
            && (if r.filtered.value == [] then r.selected.None? else SelectedDisplayPos(r) == Some(0))
    ensures var r := FilterView(v, None);
            r.filter.None? && r.filtered.None? && r.selected == v.selected && r.store == v.store
  {
    var indices := Rebuild(v.store, f);
    RebuildIsIncreasing(v.store, f);
    forall i: nat ensures i in indices <==> i < |v.store| && f(v.store[i]) { RebuildListsMatches(v.store, f, i); }
    hide Rebuild, Search;
    if indices != [] { FirstIsFound(indices); }
  }

  lemma FirstIsFound(indices: seq<nat>)
    requires indices != [] && Increasing(indices)
    ensures Search(indices, indices[0], 0, |indices|) == Some(0)
  {
    SearchFinds(indices, indices[0], 0, |indices|);
  }

  /** A file that is opened is shown without a filter, and its first packet is selected. */
  lemma OpenShowsTheFirstPacket(s: System, packets: seq<Packet>)
    requires Enabled(s, OpenFile(packets))
    ensures var v := Next(s, OpenFile(packets)).view;
            && v.store == packets && v.filter.None? && v.filtered.None? && v.scroll == 0
            && SelectedDisplayPos(v) == if packets == [] then None else Some(0)
  {}
}
