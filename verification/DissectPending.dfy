/** Exactly when deep dissection stays pending, in every interleaving of the two threads. */
module DissectPending {
  import opened Prelude
  import opened DissectWorker
  import opened DissectRuns

  /** No message, on its way or in the worker's hands, is about the last request. */
  ghost predicate NoNewest(s: State) {
    && (forall req <- s.requests :: req.seqNo != s.dissectSeq)
    && (forall reply <- s.replies :: reply.seqNo != s.dissectSeq)
    && (forall reply <- Collected(s) :: reply.seqNo != s.dissectSeq)
    && (s.worker.Received? || s.worker.Dissecting? || s.worker.TimedOut? ==> s.worker.req.seqNo != s.dissectSeq)
  }

  /** A packet is pending while its answer is not settled; a missed answer can no longer be accepted. */
  ghost predicate PendingIsUnsettled(s: State) {
    && (s.dissectState == DeepPending <==> s.answer != Settled)
    && (s.answer == Missed ==> s.selected != s.asked || NoNewest(s))
  }

  lemma {:induction false} AllRejected(s: State, replies: seq<Reply>)
    requires forall reply <- replies :: reply.seqNo != s.dissectSeq || s.selected != Some(reply.index)
    ensures AcceptAll(s, replies) == s
  {
    if replies != [] {
      assert replies[0] in replies;
      AllRejected(s, replies[1..]);
    }
  }

  /**
   * In every interleaving, a drain that collects the answer to the last request from a live worker ends the wait
   * exactly if the packet asked for is the selected one.
   */
  lemma DrainEndsWaitIff(run: seq<Action>)
    ensures var s := After(run);
            s.ui.CheckingAlive? && s.alive && s.dissectState == DeepPending && HasNewest(s, s.ui.collected)
            ==> (Next(s, FinishDrain).dissectState != DeepPending <==> s.selected == s.asked)
  {
    AfterKeepsInv(run);
    var s := After(run);
    if s.ui.CheckingAlive? && s.alive && s.dissectState == DeepPending && HasNewest(s, s.ui.collected) {
      AnswerEndsWaitIff(s);
    }
  }

  lemma AnswerEndsWaitIff(s: State)
    requires Inv(s) && s.ui.CheckingAlive? && s.alive && s.dissectState == DeepPending && HasNewest(s, s.ui.collected)
    ensures Next(s, FinishDrain).dissectState != DeepPending <==> s.selected == s.asked
  {
    hide InFlight, Streak;
    var t := s.(ui := Idle, answer := AnswerDrained(s));
    forall reply | reply in s.ui.collected ensures KnownReply(t, reply) { assert KnownReply(s, reply); }
    if s.selected == s.asked {
      AcceptAllKeeps(t, s.ui.collected);
    } else {
      AllRejected(t, s.ui.collected);
    }
  }

  /** Any other drain leaves a live worker's packet pending. */
  lemma OtherDrainsWait(s: State)
    requires Inv(s) && s.ui.CheckingAlive? && s.alive && s.dissectState == DeepPending
    requires !HasNewest(s, s.ui.collected) || s.selected != s.asked
    ensures Next(s, FinishDrain).dissectState == DeepPending
  {
    hide InFlight, Streak;
    var t := s.(ui := Idle, answer := AnswerDrained(s));
    forall reply | reply in s.ui.collected
      ensures reply.seqNo != t.dissectSeq || t.selected != Some(reply.index)
    {
      assert KnownReply(s, reply);
    }
    AllRejected(t, s.ui.collected);
  }

  lemma DrainKeepsPending(s: State)
    requires Inv(s) && PendingIsUnsettled(s) && s.ui.CheckingAlive?
    ensures PendingIsUnsettled(Next(s, FinishDrain))
  {
    DrainChangesDetail(s);
    if s.alive && s.dissectState == DeepPending {
      if HasNewest(s, s.ui.collected) && s.selected == s.asked {
        AnswerEndsWaitIff(s);
      } else {
        OtherDrainsWait(s);
      }
    }
    hide Inv, Next;
  }

  lemma StepKeepsPending(s: State, a: Action)
    requires Inv(s) && PendingIsUnsettled(s) && Enabled(s, a)
    ensures PendingIsUnsettled(Next(s, a))
  {
    if a.FinishDrain? {
      DrainKeepsPending(s);
    } else if a.Select? || a.OpenFile? || a.SendRequest? || a.RespawnWorker? {
      AskingKeepsPending(s, a);
    } else {
      hide KnownMessages, AwaitedIsInFlight, StopsInTime, AcceptAll, NoNewest;
      MovesKeepNone(s, a);
    }
  }

  lemma AskingKeepsPending(s: State, a: Action)
    requires ShownIsAsked(s) && PendingIsUnsettled(s) && Enabled(s, a)
    requires a.Select? || a.OpenFile? || a.SendRequest? || a.RespawnWorker?
    ensures PendingIsUnsettled(Next(s, a))
  {
    hide AcceptAll;
    if a.RespawnWorker? { FreshHasNone(s, a.spawned); }
  }

  lemma FreshHasNone(s: State, spawned: bool)
    requires s.ui.Idle?
    ensures NoNewest(FreshWorker(s, spawned))
  {}

  /** Steps that neither ask nor finish a drain only move messages on. */
  lemma MovesKeepNone(s: State, a: Action)
    requires Enabled(s, a) && !a.Select? && !a.OpenFile? && !a.RespawnWorker? && !a.SendRequest? && !a.FinishDrain?
    ensures NoNewest(s) ==> NoNewest(Next(s, a))
  {
    hide AcceptAll;
  }

  lemma {:induction false} AfterIsUnsettled(run: seq<Action>)
    ensures PendingIsUnsettled(After(run))
  {
    hide Next, Enabled, PendingIsUnsettled;
    if run == [] {
      InitialIsSettled();
    } else {
      var s, a := After(run[..|run| - 1]), run[|run| - 1];
      AfterIsUnsettled(run[..|run| - 1]);
      AfterKeepsInv(run[..|run| - 1]);
      if Enabled(s, a) { StepKeepsPending(s, a); }
    }
  }

  lemma InitialIsSettled()
    ensures PendingIsUnsettled(Initial())
  {}

  /** The UI is between steps, and there is no worker, or it waits for a request and both channels are empty. */
  predicate AtRest(s: State) {
    s.ui.Idle? && (!s.present || (s.requests == [] && s.replies == [] && s.worker.Waiting?))
  }

  /**
   * In every interleaving a system at rest is left pending exactly if the answer to the last request has been missed:
   * its worker was replaced, or it was collected while another packet, or none, was selected.
   */
  lemma PendsForGoodIffMissed(run: seq<Action>)
    ensures AtRest(After(run)) ==> (After(run).dissectState == DeepPending <==> After(run).answer == Missed)
  {
    AfterKeepsInv(run);
    AfterIsUnsettled(run);
  }

  // ----- When nothing can go wrong -----

  /** Packets in the store are selected, and nothing else changes the selection or replaces the worker but a new file. */
  predicate OnlySelects(run: seq<Action>) {
    SelectsStored(run) && forall i :: 0 <= i < |run| ==> !run[i].Deselect? && !run[i].RespawnWorker?
  }

  lemma {:induction false} OnlySelectsMissesNothing(run: seq<Action>)
    requires OnlySelects(run)
    ensures After(run).selected == After(run).asked && After(run).answer != Missed
  {
    hide Next, Enabled;
    if run != [] {
      var s, a := After(run[..|run| - 1]), run[|run| - 1];
      OnlySelectsMissesNothing(run[..|run| - 1]);
      AfterKeepsInv(run[..|run| - 1]);
      if Enabled(s, a) {
        StepKeepsSelection(s, a);
        MissedOnlySo(s, a);
      }
    }
  }

  /** The steps by which an answer is missed. */
  lemma MissedOnlySo(s: State, a: Action)
    requires Inv(s) && Enabled(s, a) && s.answer != Missed
    ensures Next(s, a).answer == Missed <==>
              s.answer == Awaited && (a.RespawnWorker? || (a.FinishDrain? && s.alive && HasNewest(s, s.ui.collected)
                                                           && s.selected != s.asked))
  {
    if a.FinishDrain? { DrainChangesDetail(s); }
    hide Inv, AcceptAll;
  }

  /** In such runs no system at rest is left pending. */
  lemma OnlySelectsNeverPendsForGood(run: seq<Action>)
    requires OnlySelects(run) && AtRest(After(run))
    ensures After(run).dissectState != DeepPending
  {
    OnlySelectsMissesNothing(run);
    PendsForGoodIffMissed(run);
  }

  // ----- What can go wrong from every pending state -----

  /** The worker is neither stopped nor about to stop. */
  predicate GoesOn(s: State) {
    !s.worker.Stopping? && !s.worker.Stopped? && !(s.worker.TimedOut? && s.timeouts >= MAX_TIMEOUTS)
  }

  lemma GoingIsPresent(s: State)
    requires Inv(s) && GoesOn(s)
    ensures s.present && s.alive
  {}

  /** Nothing has changed but the channel and the worker's own data, and the worker waits. */
  ghost predicate OnlyWorked(s: State, r: State) {
    r == s.(requests := r.requests, replies := r.replies, worker := Waiting, timeouts := r.timeouts, outcomes := r.outcomes,
            hasDissector := r.hasDissector)
  }

  /** The worker finishes what it holds. */
  lemma FinishWork(before: seq<Action>) returns (run: seq<Action>)
    requires IsRun(before) && GoesOn(After(before))
    ensures before <= run && IsRun(run) && OnlyWorked(After(before), After(run))
    ensures After(run).requests == After(before).requests
  {
    hide After, IsRun;
    run := before;
    if After(run).worker.Received? { run := Then(run, CompareSeq); }
    if After(run).worker.Dissecting? { run := Then(run, Dissected(None)); }
    if After(run).worker.TimedOut? { run := Then(run, Restart(None)); }
  }

  /** The worker serves all requests. */
  lemma {:induction false} ServeRequests(before: seq<Action>) returns (run: seq<Action>)
    requires IsRun(before) && After(before).worker.Waiting?
    ensures before <= run && IsRun(run) && OnlyWorked(After(before), After(run)) && After(run).requests == []
    decreases |After(before).requests|
  {
    hide After, IsRun;
    run := before;
    if After(before).requests != [] {
      run := Then(run, TakeRequest);
      run := FinishWork(run);
      run := ServeRequests(run);
    }
  }

  /** The UI collects all replies. */
  lemma {:induction false} CollectReplies(before: seq<Action>) returns (run: seq<Action>)
    requires IsRun(before) && After(before).ui.Collecting?
    ensures before <= run && IsRun(run)
    ensures After(run).ui.Collecting? && After(run) == After(before).(replies := [], ui := After(run).ui)
    decreases |After(before).replies|
  {
    hide After, IsRun;
    run := before;
    if After(before).replies != [] {
      run := Then(run, ReceiveReply);
      run := CollectReplies(run);
    }
  }

  /** The worker serves all requests and the UI drains all replies; a packet that is not selected stays pending. */
  lemma Settle(before: seq<Action>) returns (run: seq<Action>)
    requires IsRun(before) && After(before).ui.Idle? && GoesOn(After(before))
    requires After(before).dissectState == DeepPending && After(before).selected != After(before).asked
    ensures before <= run && IsRun(run) && AtRest(After(run)) && After(run).dissectState == DeepPending
  {
    AfterKeepsInv(before);
    GoingIsPresent(After(before));
    hide After, IsRun, Inv, AcceptAll, GoesOn;
    run := FinishWork(before);
    run := ServeRequests(run);
    run := Then(run, StartDrain);
    run := CollectReplies(run);
    run := Then(run, FindNoReply);
    AfterKeepsInv(run);
    OtherDrainsWait(After(run));
    DrainChangesDetail(After(run));
    run := Then(run, FinishDrain);
  }

  /** Clearing the selection, replacing the worker, or selecting a position the store has not reached. */
  predicate LosesTrack(s: State, a: Action) {
    a.Deselect? || a.RespawnWorker? || (a.Select? && a.index >= |s.store|)
  }

  /**
   * From every pending state in which the worker goes on, each of these steps can leave the packet pending for good.
   * Without them it never happens.
   */
  lemma LosingTrackCanPendForGood(before: seq<Action>, a: Action)
    requires IsRun(before) && After(before).ui.Idle? && GoesOn(After(before))
    requires After(before).dissectState == DeepPending && LosesTrack(After(before), a)
    ensures exists run :: before + [a] <= run && IsRun(run) && AtRest(After(run)) && After(run).dissectState == DeepPending
  {
    AfterKeepsInv(before);
    hide After, IsRun, AcceptAll;
    var run := Then(before, a);
    if !a.RespawnWorker? {
      run := Settle(run);
    }
  }

  /** Such states are reached. */
  lemma SomethingIsPending(raw: Bytes)
    ensures exists run :: IsRun(run) && After(run).ui.Idle? && GoesOn(After(run)) && After(run).dissectState == DeepPending
  {
    var run := OnePending(raw);
    hide After, IsRun;
    assert GoesOn(After(run));
  }
}
