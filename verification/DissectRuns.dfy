/** What holds of the deep-dissection handshake in every interleaving of the two threads. */
module DissectRuns {
  import opened Prelude
  import opened DissectWorker

  /** A request the worker skips as stale is older than the newest one. */
  lemma NewestIsNeverSkipped(run: seq<Action>)
    ensures var s := After(run);
            Enabled(s, CompareSeq) && s.worker.req.seqNo == s.dissectSeq
            ==> Next(s, CompareSeq).worker == Dissecting(s.worker.req)
  {
    AfterKeepsInv(run);
  }

  /** A run goes on by an enabled action. */
  lemma Then(run: seq<Action>, a: Action) returns (longer: seq<Action>)
    requires IsRun(run) && Enabled(After(run), a)
    ensures longer == run + [a] && IsRun(longer) && After(longer) == Next(After(run), a)
  {
    longer := run + [a];
    assert longer[..|longer| - 1] == run;
  }

  /** A packet is added, selected, and the request for it sent. */
  lemma OnePending(raw: Bytes) returns (run: seq<Action>)
    ensures IsRun(run)
    ensures After(run) == Initial().(store := [raw], selected := Some(0), detail := Some(Detail(raw, false)),
                                     dissectState := DeepPending, nextSeq := 1, requests := [Request(0, 0, raw)],
                                     asked := Some(0), answer := Awaited)
  {
    assert IsRun([]) && After([]) == Initial();
    hide After, IsRun, AcceptAll, AnswerDrained;
    run := Then([], AddPacket(raw));
    run := Then(run, Select(0));
    run := Then(run, StoreSeq);
    run := Then(run, SendRequest);
  }

  /** The worker answers the one pending request. */
  lemma Answer(before: seq<Action>) returns (run: seq<Action>)
    requires IsRun(before)
    requires var s := After(before); s.worker.Waiting? && |s.requests| == 1 && s.latest <= s.requests[0].seqNo
    ensures IsRun(run)
    ensures var s := After(before); var req := s.requests[0];
            After(run) == s.(requests := [], timeouts := 0, outcomes := s.outcomes + [false],
                             replies := s.replies + [Reply(req.index, req.seqNo, Some(Detail(req.raw, true)), None)])
  {
    run := Then(before, TakeRequest);
    run := Then(run, CompareSeq);
    run := Then(run, Dissected(None));
  }

  /** The UI collects the one reply there is. */
  lemma CollectOne(before: seq<Action>) returns (run: seq<Action>)
    requires IsRun(before)
    requires var s := After(before); s.ui.Idle? && s.present && |s.replies| == 1
    ensures IsRun(run) && After(run) == After(before).(replies := [], ui := CheckingAlive(After(before).replies))
  {
    var reply := After(before).replies[0];
    run := Then(before, StartDrain);
    run := Then(run, ReceiveReply);
    assert [] + [reply] == After(before).replies;
    run := Then(run, FindNoReply);
  }

  /** The UI of a live worker drains the one reply there is. */
  lemma DrainOne(before: seq<Action>) returns (run: seq<Action>)
    requires IsRun(before)
    requires var s := After(before); s.ui.Idle? && s.present && |s.replies| == 1 && s.alive
    ensures IsRun(run)
    ensures After(run) == Accept(After(before).(replies := [], answer := After(run).answer), After(before).replies[0])
  {
    run := CollectOne(before);
    var s, replies := After(before).(replies := [], answer := AnswerDrained(After(run))), After(before).replies;
    run := Then(run, FinishDrain);
    assert replies[1..] == [];
    assert AcceptAll(s, replies) == Accept(s, replies[0]);
  }

  /**
   * A detail shown as deep is the deep dissection of the packet last asked for; so it is the selected packet's own
   * exactly if the selected packet has the same bytes as that one, in particular if it is that one.
   */
  lemma DeepDetailIsOfAsked(run: seq<Action>)
    ensures After(run).asked.Some? <==> After(run).detail.Some?
    ensures var s := After(run);
            s.dissectState == Deep ==>
              && s.asked.Some? && s.asked.value < |s.store|
              && s.detail == Some(Detail(s.store[s.asked.value], true))
              && (s.selected.Some? && s.selected.value < |s.store| ==>
                    (s.detail == Some(Detail(s.store[s.selected.value], true))
                     <==> s.store[s.selected.value] == s.store[s.asked.value]))
  {
    AfterKeepsInv(run);
  }

  /** Every selection is of a packet that is in the store by then. */
  predicate SelectsStored(run: seq<Action>) {
    run == [] || (SelectsStored(run[..|run| - 1])
                  && (run[|run| - 1].Select? ==> run[|run| - 1].index < |After(run[..|run| - 1]).store|))
  }

  lemma {:induction false} SelectedIsAsked(run: seq<Action>)
    requires SelectsStored(run)
    ensures After(run).selected.None? || After(run).selected == After(run).asked
  {
    hide Next, Enabled;
    if run != [] {
      var s, a := After(run[..|run| - 1]), run[|run| - 1];
      SelectedIsAsked(run[..|run| - 1]);
      AfterKeepsInv(run[..|run| - 1]);
      if Enabled(s, a) { StepKeepsSelection(s, a); }
    }
  }

  lemma StepKeepsSelection(s: State, a: Action)
    requires Inv(s) && Enabled(s, a) && (a.Select? ==> a.index < |s.store|)
    ensures var r := Next(s, a);
            && (s.selected.None? || s.selected == s.asked ==> r.selected.None? || r.selected == r.asked)
            && (s.selected == s.asked && !a.Deselect? ==> r.selected == r.asked)
  {
    if a.FinishDrain? {
      DrainChangesDetail(s);
    }
    hide AcceptAll, Inv;
  }

  /**
   * If only packets in the store are ever selected, the detail shown is at every moment of the selected packet, whether
   * its deep dissection has not been asked for, is pending, has failed or has come in; while pending it is the fast one.
   */
  lemma ShownDetailIsOwn(run: seq<Action>)
    requires SelectsStored(run)
    ensures var s := After(run);
            s.selected.Some? ==>
              && s.selected.value < |s.store| && s.detail.Some?
              && s.detail.value.raw == s.store[s.selected.value]
              && (s.dissectState == DeepPending ==> !s.detail.value.deep)
              && (s.dissectState == Deep ==> s.detail.value.deep)
  {
    SelectedIsAsked(run);
    AfterKeepsInv(run);
  }

  /** In every interleaving a worker that waits for or holds a request has a dissector. */
  lemma WorkersHaveDissectors(run: seq<Action>)
    ensures var s := After(run);
            s.worker.Waiting? || s.worker.Received? || s.worker.Dissecting? ==> s.hasDissector
  {
    AfterKeepsInv(run);
  }

  /** Selecting a packet in the store asks a live worker for it: a request with its bytes and a number above all others. */
  lemma SelectingAsks(before: seq<Action>, index: nat) returns (run: seq<Action>)
    requires IsRun(before) && After(before).ui.Idle? && After(before).alive && index < |After(before).store|
    ensures IsRun(run) && run == before + [Select(index), StoreSeq, SendRequest]
    ensures var s, r := After(before), After(run);
            && r.selected == Some(index) == r.asked && r.dissectState == DeepPending
            && r.detail == Some(Detail(s.store[index], false))
            && r.requests == s.requests + [Request(index, r.latest, s.store[index])] && r.latest == r.dissectSeq
            && (forall req <- s.requests :: req.seqNo < r.nextSeq) && r.latest < r.nextSeq
  {
    AfterKeepsInv(before);
    hide After, IsRun, AcceptAll, AnswerDrained;
    run := Then(before, Select(index));
    run := Then(run, StoreSeq);
    run := Then(run, SendRequest);
    forall req | req in After(before).requests ensures req.seqNo < After(run).nextSeq {
      assert KnownRequest(After(before), req);
    }
  }

  // ----- Which requests are dissected -----

  /** No request is on its way, or in the worker's hands, whose number has not been stored yet. */
  ghost predicate SentIsStored(s: State) {
    && (forall req <- s.requests :: req.seqNo <= s.latest)
    && (s.worker.Received? || s.worker.Dissecting? || s.worker.TimedOut? ==> s.worker.req.seqNo <= s.latest)
    && (s.ui.Sending? ==> s.ui.req.seqNo == s.latest)
  }

  lemma StepKeepsSent(s: State, a: Action)
    requires Inv(s) && SentIsStored(s) && Enabled(s, a)
    ensures SentIsStored(Next(s, a))
  {
    hide AcceptAll, AwaitedIsInFlight, StopsInTime, ShownIsAsked;
    if a.FinishDrain? { DrainChangesDetail(s); }
  }

  lemma {:induction false} AfterIsStored(run: seq<Action>)
    ensures SentIsStored(After(run))
  {
    hide Next, Enabled;
    if run != [] {
      var s, a := After(run[..|run| - 1]), run[|run| - 1];
      AfterIsStored(run[..|run| - 1]);
      AfterKeepsInv(run[..|run| - 1]);
      if Enabled(s, a) {
        hide SentIsStored;
        StepKeepsSent(s, a);
      }
    }
  }

  /**
   * In every interleaving the worker dissects a request it compares exactly if no later number has been stored by then;
   * otherwise it goes back to waiting and leaves no reply.
   */
  lemma DissectsIffLatest(run: seq<Action>)
    ensures var s := After(run);
            Enabled(s, CompareSeq) ==>
              var r := Next(s, CompareSeq);
              && r == s.(worker := r.worker)
              && (r.worker == Dissecting(s.worker.req) || r.worker == Waiting)
              && (r.worker == Dissecting(s.worker.req) <==> s.worker.req.seqNo == s.latest)
  {
    AfterIsStored(run);
  }

  /** A detail shown as deep is the selected packet's own, if only packets in the store are ever selected. */
  lemma DeepDetailIsOwn(run: seq<Action>)
    requires SelectsStored(run)
    ensures var s := After(run);
            s.dissectState == Deep && s.selected.Some? ==>
              s.selected.value < |s.store| && s.detail == Some(Detail(s.store[s.selected.value], true))
  {
    SelectedIsAsked(run);
    DeepDetailIsOfAsked(run);
  }

  /** The store has grown by `n` equal packets and nothing else has happened. */
  lemma {:induction false} AddPackets(before: seq<Action>, raw: Bytes, n: nat) returns (run: seq<Action>)
    requires IsRun(before) && After(before).ui.Idle?
    ensures IsRun(run) && After(run) == After(before).(store := After(run).store)
    ensures |After(run).store| == |After(before).store| + n && After(before).store <= After(run).store
    ensures n > 0 ==> After(run).store[|After(run).store| - 1] == raw
  {
    run := before;
    if n > 0 {
      run := AddPackets(before, raw, n - 1);
      run := Then(run, AddPacket(raw));
    }
  }

  /**
   * That condition is needed whenever a deep detail is shown: selecting any position the store has not reached yet
   * changes only the selection, and once the store has reached it another packet is selected beside that detail.
   */
  lemma SelectingAheadGoesWrong(before: seq<Action>, index: nat, other: Bytes)
    requires IsRun(before)
    requires var s := After(before); s.ui.Idle? && s.dissectState == Deep && index >= |s.store|
    requires After(before).detail != Some(Detail(other, true))
    ensures exists run :: var s := After(run);
              && IsRun(run) && s.dissectState == Deep && s.selected == Some(index) && index < |s.store|
              && s.detail != Some(Detail(s.store[index], true))
  {
    hide After, IsRun, AcceptAll;
    var run := Then(before, Select(index));
    run := AddPackets(run, other, index - |After(before).store| + 1);
    assert After(run).store[index] == other;
  }

  /** And a deep detail is shown in some run. */
  lemma SomeDeepDetail(raw: Bytes)
    ensures exists run :: IsRun(run) && After(run).ui.Idle?
                          && After(run).dissectState == Deep && After(run).detail == Some(Detail(raw, true))
  {
    hide After, IsRun, Next, Enabled, AcceptAll;
    var run := OnePending(raw);
    run := Answer(run);
    run := DrainOne(run);
    assert After(run).dissectState == Deep;
  }

  /** No interleaving makes the worker dissect again after three timeouts in a row. */
  lemma StopsByThirdTimeout(run: seq<Action>)
    ensures var s := After(run);
            && (forall i :: 0 <= i < |s.outcomes| ==> Streak(s.outcomes[..i]) < 3)
            && (Streak(s.outcomes) == 3 ==> s.worker.TimedOut? || s.worker.Stopping? || s.worker.Stopped?)
            && (Streak(s.outcomes) == 3 && s.worker.TimedOut? ==>
                  Enabled(s, GiveUp) && forall error :: !Enabled(s, Restart(error)))
  {
    AfterKeepsInv(run);
  }

  /** In every interleaving the worker gives up at its third timeout in a row, and at any before that it restarts. */
  lemma GivesUpIffThirdTimeout(run: seq<Action>)
    ensures var s := After(run);
            s.worker.TimedOut? ==>
              && Streak(s.outcomes) <= 3
              && (Enabled(s, GiveUp) <==> Streak(s.outcomes) == 3)
              && (forall error :: Enabled(s, Restart(error)) <==> Streak(s.outcomes) < 3)
  {
    AfterKeepsInv(run);
  }

  /**
   * No other step of the worker adds a reply than these four, and each of them adds one, about the request it holds:
   * a dissection that ends, a timeout, giving up and a restart that fails. Only a dissection can give a detail.
   */
  lemma RepliesIff(s: State, a: Action)
    requires Enabled(s, a) && (a.TakeRequest? || a.CompareSeq? || a.Dissected? || a.TimeOut? || a.GiveUp? || a.Restart? || a.ClearAlive?)
    ensures var r := Next(s, a);
            if a.Dissected? || a.TimeOut? || a.GiveUp? || (a.Restart? && a.error.Some?) then
              && |r.replies| == |s.replies| + 1 && s.replies <= r.replies
              && (var reply := r.replies[|s.replies|];
                  && reply.index == s.worker.req.index && reply.seqNo == s.worker.req.seqNo
                  && (reply.detail.Some? != reply.error.Some?)
                  && (reply.detail.Some? <==> a.Dissected? && a.error.None?)
                  && (reply.detail.Some? ==> reply.detail.value == Detail(s.worker.req.raw, true))
                  && ((a.Dissected? || a.Restart?) && a.error.Some? ==> reply.error == a.error))
            else r.replies == s.replies
  {}

  /** Once the UI sees that the worker is gone, no packet stays pending. */
  lemma DeadWorkerIsNoticed(run: seq<Action>)
    ensures var s := After(run);
            s.ui.CheckingAlive? && !s.alive ==> Next(s, FinishDrain).dissectState != DeepPending
  {
    AfterKeepsInv(run);
    var s := After(run);
    if s.ui.CheckingAlive? {
      DrainChangesDetail(s);
    }
  }
}
