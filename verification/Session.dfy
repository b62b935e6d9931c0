/** The packet list and the deep-dissection handshake together, driven by one user interface. */
module Session {
  import opened Prelude
  import FilterEval
  import View = CaptureView
  import Work = DissectWorker
  import Runs = DissectRuns

  type RawOf = FilterEval.Packet -> Work.Bytes

  /** A step of the user interface or the capture thread (`spawned`: a worker it starts can be started), or another one. */
  datatype Event = List(action: View.Action, spawned: bool) | Handshake(step: Work.Action)

  /** What has happened so far, as runs of the two systems. */
  datatype Log = Log(views: seq<View.Action>, works: seq<Work.Action>)

  /** The steps of the handshake that are not the packet list's doing. */
  predicate IsOwnStep(a: Work.Action) {
    !a.Select? && !a.Deselect? && !a.AddPacket? && !a.OpenFile? && !a.RespawnWorker?
  }

  function Raws(raw: RawOf, packets: seq<FilterEval.Packet>): (raws: seq<Work.Bytes>)
    ensures |raws| == |packets| && forall i :: 0 <= i < |packets| ==> raws[i] == raw(packets[i])
  {
    seq(|packets|, i requires 0 <= i < |packets| => raw(packets[i]))
  }

  /** What a step from `s` on means to the handshake. */
  function Meaning(raw: RawOf, s: View.System, a: View.Action, spawned: bool): (works: seq<Work.Action>)
    requires View.Enabled(s, a)
  {
    var now := View.Next(s, a).view.selected;
    match a
    case StartCapture => [Work.RespawnWorker(spawned)]
    case Receive => [Work.AddPacket(raw(s.capture.value.queue[0]))]
    case OpenFile(packets) =>
      [Work.OpenFile(Raws(raw, packets), spawned)] + if packets == [] then [] else [Work.Select(0)]
    case FollowTail => if s.view.filtered == Some([]) then [] else Selection(now)
    case Move(_) => if View.FilteredLen(s.view) == 0 then [] else Selection(now)
    case ApplyFilter(parsed) => if parsed.None? then [] else Selection(now)
    case _ => []
  }

  function Selection(selected: Option<nat>): (works: seq<Work.Action>) {
    if selected.Some? then [Work.Select(selected.value)] else [Work.Deselect]
  }

  /** The user interface does one thing at a time: while it sends a request or drains replies, the list waits. */
  function Add(raw: RawOf, l: Log, e: Event): (r: Log) {
    match e
    case Handshake(a) => if IsOwnStep(a) then l.(works := l.works + [a]) else l
    case List(a, spawned) =>
      if View.Enabled(View.After(l.views), a) && Work.After(l.works).ui.Idle? then
        Log(l.views + [a], l.works + Meaning(raw, View.After(l.views), a, spawned))
      else l
  }

  function Play(raw: RawOf, events: seq<Event>): (l: Log) {
    if events == [] then Log([], []) else Add(raw, Play(raw, events[..|events| - 1]), events[|events| - 1])
  }

  /** Both systems have the same packets and the same one selected. */
  ghost predicate Joined(raw: RawOf, v: View.View, w: Work.State) {
    && w.selected == v.selected && |w.store| == |v.store|
    && forall i :: 0 <= i < |v.store| ==> w.store[i] == raw(v.store[i])
  }

  /** At no moment has the capture dropped a packet since the file was opened or the program started. */
  ghost predicate NeverDrops(views: seq<View.Action>) {
    forall n :: 0 <= n <= |views| ==> View.NoDrop(views[..n])
  }

  lemma ViewStep(views: seq<View.Action>, a: View.Action)
    requires View.Enabled(View.After(views), a)
    ensures View.After(views + [a]) == View.Next(View.After(views), a)
  {
    assert (views + [a])[..|views|] == views;
  }

  lemma WorkStep(works: seq<Work.Action>, a: Work.Action)
    ensures Work.After(works + [a])
            == if Work.Enabled(Work.After(works), a) then Work.Next(Work.After(works), a) else Work.After(works)
    ensures Runs.SelectsStored(works + [a])
            <==> Runs.SelectsStored(works) && (a.Select? ==> a.index < |Work.After(works).store|)
  {
    hide Work.Next, Work.Enabled;
    assert (works + [a])[..|works|] == works;
  }

  /** The handshake's own steps leave the packets and the selection alone. */
  lemma OwnStepKeeps(s: Work.State, a: Work.Action)
    requires Work.Inv(s) && Work.Enabled(s, a) && IsOwnStep(a)
    ensures Work.Next(s, a).store == s.store && Work.Next(s, a).selected == s.selected
  {
    if a.FinishDrain? { Work.DrainChangesDetail(s); }
    hide Work.AcceptAll, Work.Inv;
  }

  lemma OwnStepJoined(raw: RawOf, v: View.View, works: seq<Work.Action>, a: Work.Action)
    requires Joined(raw, v, Work.After(works)) && Runs.SelectsStored(works) && IsOwnStep(a)
    ensures Joined(raw, v, Work.After(works + [a])) && Runs.SelectsStored(works + [a])
  {
    hide Work.After, Work.Next, Work.Enabled, Work.Inv, Runs.SelectsStored;
    WorkStep(works, a);
    Work.AfterKeepsInv(works);
    if Work.Enabled(Work.After(works), a) { OwnStepKeeps(Work.After(works), a); }
  }

  /** A selection: an idle handshake follows it. */
  lemma SelectionJoined(raw: RawOf, v: View.View, works: seq<Work.Action>, selected: Option<nat>)
    requires Joined(raw, v, Work.After(works)) && Runs.SelectsStored(works) && Work.After(works).ui.Idle?
    requires selected.Some? ==> selected.value < |v.store|
    ensures Joined(raw, v.(selected := selected), Work.After(works + Selection(selected)))
    ensures Runs.SelectsStored(works + Selection(selected))
  {
    hide Work.After, Runs.SelectsStored;
    WorkStep(works, Selection(selected)[0]);
  }

  /** What a step of the list does to the packets and the selection. */
  lemma ListStepJoined(raw: RawOf, l: Log, a: View.Action, spawned: bool)
    requires View.Enabled(View.After(l.views), a) && Work.After(l.works).ui.Idle?
    requires Joined(raw, View.After(l.views).view, Work.After(l.works)) && Runs.SelectsStored(l.works)
    requires View.SelectedIsStored(View.Next(View.After(l.views), a).view)
    ensures var works := l.works + Meaning(raw, View.After(l.views), a, spawned);
            Joined(raw, View.Next(View.After(l.views), a).view, Work.After(works)) && Runs.SelectsStored(works)
  {
    hide View.After, Work.After, Runs.SelectsStored, View.Rebuild, View.Search, View.SelectedDisplayPos;
    var s, r := View.After(l.views), View.Next(View.After(l.views), a);
    match a {
      case StartCapture => WorkStep(l.works, Work.RespawnWorker(spawned));
      case Receive => WorkStep(l.works, Work.AddPacket(raw(s.capture.value.queue[0])));
      case OpenFile(packets) => OpenJoined(raw, l, packets, spawned);
      case FollowTail => SelectionJoined(raw, s.view, l.works, r.view.selected);
      case Move(_) => SelectionJoined(raw, s.view, l.works, r.view.selected);
      case ApplyFilter(_) => SelectionJoined(raw, s.view, l.works, r.view.selected);
      case _ =>
    }
    assert l.works + [] == l.works;
  }

  lemma OpenJoined(raw: RawOf, l: Log, packets: seq<FilterEval.Packet>, spawned: bool)
    requires View.Enabled(View.After(l.views), View.OpenFile(packets)) && Work.After(l.works).ui.Idle?
    requires Runs.SelectsStored(l.works)
    ensures var works := l.works + Meaning(raw, View.After(l.views), View.OpenFile(packets), spawned);
            && Joined(raw, View.Next(View.After(l.views), View.OpenFile(packets)).view, Work.After(works))
            && Runs.SelectsStored(works)
  {
    hide View.After, Work.After, Runs.SelectsStored, View.Search;
    var open := Work.OpenFile(Raws(raw, packets), spawned);
    WorkStep(l.works, open);
    if packets != [] {
      WorkStep(l.works + [open], Work.Select(0));
      assert l.works + [open] + [Work.Select(0)] == l.works + ([open] + [Work.Select(0)]);
    } else {
      assert l.works + ([open] + []) == l.works + [open];
    }
  }

  lemma NeverDropsBefore(views: seq<View.Action>, a: View.Action)
    requires NeverDrops(views + [a])
    ensures NeverDrops(views) && View.NoDrop(views + [a])
  {
    hide View.NoDrop;
    var all := views + [a];
    assert all[..|all|] == all;
    forall n | 0 <= n <= |views| ensures View.NoDrop(views[..n]) { assert all[..n] == views[..n]; }
  }

  lemma {:induction false} PlayIsJoined(raw: RawOf, events: seq<Event>)
    requires NeverDrops(Play(raw, events).views)
    ensures var l := Play(raw, events);
            Joined(raw, View.After(l.views).view, Work.After(l.works)) && Runs.SelectsStored(l.works)
  {
    hide View.Next, View.Enabled, Work.Next, Work.Enabled, Joined, NeverDrops, View.SelectedIsStored;
    if events == [] {
      StartsJoined(raw);
    } else {
      var l, e := Play(raw, events[..|events| - 1]), events[|events| - 1];
      match e {
        case Handshake(a) =>
          PlayIsJoined(raw, events[..|events| - 1]);
          if IsOwnStep(a) { OwnStepJoined(raw, View.After(l.views).view, l.works, a); }
        case List(a, spawned) =>
          if View.Enabled(View.After(l.views), a) && Work.After(l.works).ui.Idle? {
            NeverDropsBefore(l.views, a);
            PlayIsJoined(raw, events[..|events| - 1]);
            ViewStep(l.views, a);
            View.NoDropSelectsStored(l.views + [a]);
            ListStepJoined(raw, l, a, spawned);
          } else {
            PlayIsJoined(raw, events[..|events| - 1]);
          }
      }
    }
  }

  lemma StartsJoined(raw: RawOf)
    ensures Joined(raw, View.Initial().view, Work.Initial())
  {}

  /**
   * In every session in which the capture drops no packet, whatever the filters, the moves in the list and the
   * interleaving: the detail shown, in every state of its dissection, is of the packet selected in the list.
   */
  lemma ShownDetailIsOfSelected(raw: RawOf, events: seq<Event>)
    requires NeverDrops(Play(raw, events).views)
    ensures var l := Play(raw, events); var v, w := View.After(l.views).view, Work.After(l.works);
            v.selected.Some? ==>
              v.selected.value < |v.store| && w.detail.Some? && w.detail.value.raw == raw(v.store[v.selected.value])
  {
    hide View.After, Work.After, Runs.SelectsStored, NeverDrops;
    PlayIsJoined(raw, events);
    Runs.ShownDetailIsOwn(Play(raw, events).works);
  }

  /**
   * In every session in which the capture drops no packet, whatever the filters, the moves in the list and the
   * interleaving: a detail shown as deep is the deep detail of the packet selected in the list.
   */
  lemma DeepDetailIsOfSelected(raw: RawOf, events: seq<Event>)
    requires NeverDrops(Play(raw, events).views)
    ensures var l := Play(raw, events); var v, w := View.After(l.views).view, Work.After(l.works);
            w.dissectState == Work.Deep && v.selected.Some? ==>
              v.selected.value < |v.store| && w.detail == Some(Work.Detail(raw(v.store[v.selected.value]), true))
  {
    hide View.After, Work.After, Runs.SelectsStored, NeverDrops;
    PlayIsJoined(raw, events);
    Runs.DeepDetailIsOwn(Play(raw, events).works);
  }

  /**
   * A capture that is started and a file that is opened get a worker of their own, if it can be started: no request or
   * reply of the one before is left. Nothing else the list does replaces the worker.
   */
  lemma NewPacketsGetNewWorker(raw: RawOf, l: Log, a: View.Action, spawned: bool)
    requires View.Enabled(View.After(l.views), a) && Work.After(l.works).ui.Idle?
    ensures var w, r := Work.After(l.works), Work.After(Add(raw, l, List(a, spawned)).works);
            if a.StartCapture? || a.OpenFile? then
              && r.present == r.alive == spawned && r.requests == [] && r.replies == []
              && (spawned ==> r.worker == Work.Waiting && r.hasDissector && r.timeouts == 0)
            else
              && r.present == w.present && r.alive == w.alive && r.requests == w.requests && r.replies == w.replies
              && r.worker == w.worker
  {
    hide View.After, Work.After, Runs.SelectsStored, View.Search, View.SelectedDisplayPos, View.Next;
    var works := Meaning(raw, View.After(l.views), a, spawned);
    assert |works| <= 2;
    if |works| == 0 {
      assert l.works + works == l.works;
    } else {
      WorkStep(l.works, works[0]);
      if |works| == 1 {
        assert l.works + works == l.works + [works[0]];
      } else {
        WorkStep(l.works + [works[0]], works[1]);
        assert l.works + works == l.works + [works[0]] + [works[1]];
      }
    }
  }
}
