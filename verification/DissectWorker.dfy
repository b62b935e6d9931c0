/**
 * Deep dissection: the handshake between the UI thread and the background worker, as a transition system.
 *
 * The two threads share two FIFO channels, the atomic `latest` sequence number and the atomic `alive` flag. Every
 * access to one of them is a step of its own; what a thread does with its own data in between belongs to that step.
 */
module DissectWorker {
  import opened Prelude

  type Bytes = seq<nat>

  /** A dissected packet, by the bytes it was made from and whether the deep dissector made it. */
  datatype Detail = Detail(raw: Bytes, deep: bool)

  datatype Request = Request(index: nat, seqNo: nat, raw: Bytes)

  datatype Reply = Reply(index: nat, seqNo: nat, detail: Option<Detail>, error: Option<string>)

  datatype DissectState = Fast | DeepPending | Deep

  /** Where the UI thread is: between `store` and `send` of a request, or in the middle of draining replies. */
  datatype UiPhase =
    | Idle
    | Storing(req: Request)
    | Sending(req: Request)
    | Collecting(collected: seq<Reply>)
    | CheckingAlive(collected: seq<Reply>)

  datatype WorkerPhase =
    | Waiting
    | Received(req: Request)
    | Dissecting(req: Request)
    | TimedOut(req: Request)
    | Stopping
    | Stopped

  const MAX_TIMEOUTS := 3

  /**
   * What has become of the last request: its answer is awaited, or has been missed (thrown away with its worker, or
   * collected while another packet was selected), or neither.
   */
  datatype Answer = Settled | Awaited | Missed

  /** `asked`, `answer` and `outcomes` record history and decide nothing. */
  datatype State = State(
    // owned by the UI thread
    store: seq<Bytes>, selected: Option<nat>, dissectSeq: nat, dissectState: DissectState, detail: Option<Detail>,
    nextSeq: nat, ui: UiPhase, present: bool,
    // shared
    requests: seq<Request>, replies: seq<Reply>, latest: nat, alive: bool,
    // owned by the worker
    worker: WorkerPhase, timeouts: nat, hasDissector: bool,
    // history: the packet last asked for, the answer to that, the worker's outcomes (true: timeout)
    asked: Option<nat>, answer: Answer, outcomes: seq<bool>)

  datatype Action =
    // UI thread
    | Select(index: nat)
    | Deselect
    | AddPacket(raw: Bytes)
    | OpenFile(packets: seq<Bytes>, spawned: bool)
    | RespawnWorker(spawned: bool)
    | StoreSeq
    | SendRequest
    | StartDrain
    | ReceiveReply
    | FindNoReply
    | FinishDrain
    // worker thread
    | TakeRequest
    | CompareSeq
    | Dissected(error: Option<string>)
    | TimeOut
    | GiveUp
    | Restart(error: Option<string>)
    | ClearAlive

  function Initial(): (s: State) {
    State([], None, 0, Fast, None, 0, Idle, true, [], [], 0, true, Waiting, 0, true, None, Settled, [])
  }

  predicate Enabled(s: State, a: Action) {
    match a
    case Select(_) => s.ui.Idle?
    case Deselect => s.ui.Idle?
    case AddPacket(_) => s.ui.Idle?
    case OpenFile(_, _) => s.ui.Idle?
    case RespawnWorker(_) => s.ui.Idle?
    case StoreSeq => s.ui.Storing?
    case SendRequest => s.ui.Sending?
    case StartDrain => s.ui.Idle? && s.present
    case ReceiveReply => s.ui.Collecting? && s.replies != []
    case FindNoReply => s.ui.Collecting? && s.replies == []
    case FinishDrain => s.ui.CheckingAlive?
    case TakeRequest => s.worker.Waiting? && s.requests != []
    case CompareSeq => s.worker.Received?
    case Dissected(_) => s.worker.Dissecting?
    case TimeOut => s.worker.Dissecting?
    case GiveUp => s.worker.TimedOut? && s.timeouts >= MAX_TIMEOUTS
    case Restart(_) => s.worker.TimedOut? && s.timeouts < MAX_TIMEOUTS
    case ClearAlive => s.worker.Stopping?
  }

  /**
   * The worker is replaced by a new one, with fresh channels and `latest` 0; if that cannot be started there is none,
   * which to the UI is like a dead one without replies.
   */
  function FreshWorker(s: State, spawned: bool): (r: State) {
    s.(requests := [], replies := [], latest := 0, present := spawned, alive := spawned,
       worker := if spawned then Waiting else Stopped, timeouts := 0, hasDissector := spawned,
       answer := if s.answer == Awaited then Missed else s.answer, outcomes := [])
  }

  /** What draining does with one reply. */
  function Accept(s: State, reply: Reply): (r: State) {
    if reply.seqNo != s.dissectSeq || s.selected != Some(reply.index) then s
    else if reply.detail.Some? then s.(detail := reply.detail, dissectState := Deep)
    else if reply.error.Some? then s.(dissectState := Fast)
    else s
  }

  function AcceptAll(s: State, replies: seq<Reply>): (r: State)
    decreases |replies|
  {
    if replies == [] then s else AcceptAll(Accept(s, replies[0]), replies[1..])
  }

  /** One of the replies is to the last request. */
  predicate HasNewest(s: State, replies: seq<Reply>) {
    exists reply <- replies :: reply.seqNo == s.dissectSeq
  }

  /** What a drain makes of the answer: a dead worker gives none, and another packet's detail is not wanted. */
  function AnswerDrained(s: State): (answer: Answer)
    requires s.ui.CheckingAlive?
  {
    if !s.alive then Settled
    else if s.answer == Awaited && HasNewest(s, s.ui.collected) then if s.selected == s.asked then Settled else Missed
    else s.answer
  }

  function SelectPacket(s: State, index: nat): (r: State) {
    var t := s.(selected := Some(index));
    if index >= |s.store| then t
    else
      var u := t.(detail := Some(Detail(s.store[index], false)), dissectState := Fast, asked := Some(index),
                  answer := Settled);
      if s.alive then
        u.(dissectSeq := s.nextSeq, nextSeq := s.nextSeq + 1,
           ui := Storing(Request(index, s.nextSeq, s.store[index])))
      else u
  }

  function Next(s: State, a: Action): (r: State)
    requires Enabled(s, a)
  {
    match a
    case Select(index) => SelectPacket(s, index)
    case Deselect => s.(selected := None)
    case AddPacket(raw) => s.(store := s.store + [raw])
    case OpenFile(packets, spawned) =>
      FreshWorker(s, spawned).(store := packets, selected := None, detail := None, dissectState := Fast, asked := None,
                       answer := Settled)
    case RespawnWorker(spawned) => FreshWorker(s, spawned)
    case StoreSeq => s.(latest := s.ui.req.seqNo, ui := Sending(s.ui.req))
    case SendRequest => s.(requests := s.requests + [s.ui.req], dissectState := DeepPending, ui := Idle,
                           answer := Awaited)
    case StartDrain => s.(ui := Collecting([]))
    case ReceiveReply => s.(replies := s.replies[1..], ui := Collecting(s.ui.collected + [s.replies[0]]))
    case FindNoReply => s.(ui := CheckingAlive(s.ui.collected))
    case FinishDrain =>
      var t := if !s.alive && s.dissectState == DeepPending then s.(dissectState := Fast) else s;
      AcceptAll(t.(ui := Idle, answer := AnswerDrained(s)), s.ui.collected)
    case TakeRequest => s.(requests := s.requests[1..], worker := Received(s.requests[0]))
    case CompareSeq => s.(worker := if s.worker.req.seqNo < s.latest then Waiting else Dissecting(s.worker.req))
    case Dissected(error) =>
      var req := s.worker.req;
      var reply := if error.None? then Reply(req.index, req.seqNo, Some(Detail(req.raw, true)), None)
                   else Failure(req, error.value);
      s.(replies := s.replies + [reply], worker := Waiting, timeouts := 0,
         outcomes := s.outcomes + [false])
    case TimeOut =>
      s.(replies := s.replies + [Failure(s.worker.req, "tshark read timeout")], worker := TimedOut(s.worker.req),
         hasDissector := false, timeouts := s.timeouts + 1, outcomes := s.outcomes + [true])
    case GiveUp => s.(replies := s.replies + [Failure(s.worker.req, "deep dissection disabled")], worker := Stopping)
    case Restart(error) =>
      if error.None? then s.(worker := Waiting, hasDissector := true)
      else s.(replies := s.replies + [Failure(s.worker.req, error.value)], worker := Stopping)
    case ClearAlive => s.(alive := false, worker := Stopped)
  }

  function Failure(req: Request, text: string): (r: Reply) {
    Reply(req.index, req.seqNo, None, Some(text))
  }

  /** `run` is a possible run: each action is enabled when it happens. */
  predicate IsRun(run: seq<Action>) {
    run == [] || (IsRun(run[..|run| - 1]) && Enabled(After(run[..|run| - 1]), run[|run| - 1]))
  }

  /** The state after a run; an action that is not possible changes nothing. */
  function After(run: seq<Action>): (s: State) {
    if run == [] then Initial()
    else
      var s := After(run[..|run| - 1]);
      if Enabled(s, run[|run| - 1]) then Next(s, run[|run| - 1]) else s
  }

  // ----- The invariant -----

  /** A message of a live worker with the newest number is about the packet last asked for, and so is one the UI accepts. */
  ghost predicate IsAboutAsked(s: State, index: nat, seqNo: nat) {
    && (s.alive && seqNo == s.dissectSeq ==> s.asked == Some(index))
    && (s.selected == Some(index) ==> s.asked == s.selected)
  }

  ghost predicate KnownRequest(s: State, req: Request) {
    && req.seqNo < s.nextSeq && req.seqNo <= s.dissectSeq
    && req.index < |s.store| && req.raw == s.store[req.index]
    && IsAboutAsked(s, req.index, req.seqNo)
  }

  ghost predicate KnownReply(s: State, reply: Reply) {
    && reply.seqNo < s.nextSeq && reply.seqNo <= s.dissectSeq
    && reply.index < |s.store|
    && IsAboutAsked(s, reply.index, reply.seqNo)
    && (reply.detail.Some? ==> reply.detail == Some(Detail(s.store[reply.index], true)))
    && (reply.detail.None? ==> reply.error.Some?)
  }

  function Collected(s: State): (replies: seq<Reply>) {
    match s.ui
    case Collecting(c) => c
    case CheckingAlive(c) => c
    case _ => []
  }

  ghost predicate KnownMessages(s: State) {
    && (forall req <- s.requests :: KnownRequest(s, req))
    && (forall reply <- s.replies :: KnownReply(s, reply))
    && (forall reply <- Collected(s) :: KnownReply(s, reply))
    && (s.ui.Storing? ==> KnownRequest(s, s.ui.req) && s.ui.req.seqNo == s.dissectSeq)
    && (s.ui.Sending? ==> KnownRequest(s, s.ui.req) && s.ui.req.seqNo == s.dissectSeq)
    && (s.worker.Received? || s.worker.Dissecting? || s.worker.TimedOut? ==> KnownRequest(s, s.worker.req))
  }

  /** The newest request is on its way to the worker, in its hands, or answered by a reply the UI has still to accept. */
  ghost predicate InFlight(s: State) {
    || (exists req <- s.requests :: req.seqNo == s.dissectSeq)
    || ((s.worker.Received? || s.worker.Dissecting?) && s.worker.req.seqNo == s.dissectSeq)
    || (exists reply <- s.replies :: reply.seqNo == s.dissectSeq)
    || (exists reply <- Collected(s) :: reply.seqNo == s.dissectSeq)
  }

  ghost predicate AwaitedIsInFlight(s: State) {
    s.answer == Awaited && !s.worker.Stopping? && !s.worker.Stopped? ==> InFlight(s)
  }

  /** How many timeouts in a row the worker has had last. */
  function Streak(outcomes: seq<bool>): (n: nat) {
    if outcomes == [] || !outcomes[|outcomes| - 1] then 0 else Streak(outcomes[..|outcomes| - 1]) + 1
  }

  ghost predicate StopsInTime(s: State) {
    && s.timeouts == Streak(s.outcomes) <= MAX_TIMEOUTS
    && (s.worker.Waiting? || s.worker.Received? || s.worker.Dissecting? ==> s.timeouts < MAX_TIMEOUTS)
    && (forall i :: 0 <= i < |s.outcomes| ==> Streak(s.outcomes[..i]) < MAX_TIMEOUTS)
  }

  /** The detail shown is of the packet last asked for, at once the fast one, and the deep one once that has come in. */
  ghost predicate ShownIsAsked(s: State) {
    && (s.asked.Some? ==>
          s.asked.value < |s.store| && s.detail.Some? && s.detail.value.raw == s.store[s.asked.value])
    && (s.asked.None? ==> s.detail.None?)
    && (s.dissectState == DeepPending || s.ui.Storing? || s.ui.Sending? ==> s.asked.Some?)
    && (s.dissectState == DeepPending ==> !s.detail.value.deep)
    && (s.dissectState == Deep ==> s.asked.Some? && s.detail == Some(Detail(s.store[s.asked.value], true)))
  }

  /** While a request is made, the fast detail is shown. */
  ghost predicate AsksFromFast(s: State) {
    s.ui.Storing? || s.ui.Sending? ==> s.detail.Some? && !s.detail.value.deep
  }

  ghost predicate Inv(s: State) {
    && s.dissectSeq <= s.nextSeq && s.latest <= s.dissectSeq
    && (s.worker.Stopped? <==> !s.alive)
    && (!s.present ==> !s.alive && s.answer != Awaited && !s.ui.Storing? && !s.ui.Sending?)
    && (s.worker.Waiting? || s.worker.Received? || s.worker.Dissecting? ==> s.hasDissector)
    && KnownMessages(s) && ShownIsAsked(s) && AsksFromFast(s) && AwaitedIsInFlight(s) && StopsInTime(s)
  }

  lemma StreakAppend(outcomes: seq<bool>, timedOut: bool)
    ensures Streak(outcomes + [timedOut]) == if timedOut then Streak(outcomes) + 1 else 0
  {
    assert (outcomes + [timedOut])[..|outcomes|] == outcomes;
  }

  lemma OutcomeKeepsStops(outcomes: seq<bool>, timedOut: bool)
    requires Streak(outcomes) < MAX_TIMEOUTS && forall i :: 0 <= i < |outcomes| ==> Streak(outcomes[..i]) < MAX_TIMEOUTS
    ensures var now := outcomes + [timedOut];
            Streak(now) <= MAX_TIMEOUTS && forall i :: 0 <= i < |now| ==> Streak(now[..i]) < MAX_TIMEOUTS
  {
    var now := outcomes + [timedOut];
    StreakAppend(outcomes, timedOut);
    forall i | 0 <= i < |now| ensures Streak(now[..i]) < MAX_TIMEOUTS {
      assert now[..i] == outcomes[..i];
      assert outcomes[..|outcomes|] == outcomes;
    }
  }

  lemma SelectKeepsInv(s: State, index: nat)
    requires Inv(s) && s.ui.Idle?
    ensures Inv(SelectPacket(s, index))
  {
    MessagesStayKnown(s, SelectPacket(s, index));
  }

  /** Messages stay known while the store only grows and what is asked moves only with what is selected. */
  lemma MessagesStayKnown(s: State, r: State)
    requires KnownMessages(s)
    requires s.store <= r.store && s.nextSeq <= r.nextSeq
    requires || (r.dissectSeq == s.dissectSeq && (r.alive ==> s.alive && r.asked == s.asked))
             || (r.dissectSeq == s.nextSeq && s.dissectSeq <= s.nextSeq)
    requires r.selected == r.asked || r.selected.None? || (r.selected == s.selected && r.asked == s.asked)
             || r.selected.value >= |s.store|
    ensures forall req :: KnownRequest(s, req) ==> KnownRequest(r, req)
    ensures forall reply :: KnownReply(s, reply) ==> KnownReply(r, reply)
  {}

  /** Accepting one reply: the pending packet gets its answer, and only ever its own. */
  lemma AcceptKeeps(s: State, reply: Reply)
    requires KnownReply(s, reply) && ShownIsAsked(s)
    ensures var r := Accept(s, reply);
            && r == s.(detail := r.detail, dissectState := r.dissectState)
            && ShownIsAsked(r)
            && (r.dissectState == DeepPending ==> s.dissectState == DeepPending)
            && (reply.seqNo == s.dissectSeq && s.selected == s.asked && s.alive ==> r.dissectState != DeepPending)
  {}

  lemma {:induction false} AcceptAllKeeps(s: State, replies: seq<Reply>)
    requires (forall reply <- replies :: KnownReply(s, reply)) && ShownIsAsked(s)
    ensures var r := AcceptAll(s, replies);
            && r == s.(detail := r.detail, dissectState := r.dissectState)
            && ShownIsAsked(r)
            && (r.dissectState == DeepPending ==> s.dissectState == DeepPending)
            && ((exists reply <- replies :: reply.seqNo == s.dissectSeq) && s.selected == s.asked && s.alive
                ==> r.dissectState != DeepPending)
    decreases |replies|
  {
    if replies != [] {
      var t := Accept(s, replies[0]);
      AcceptKeeps(s, replies[0]);
      forall reply | reply in replies[1..] ensures KnownReply(t, reply) { assert KnownReply(s, reply); }
      AcceptAllKeeps(t, replies[1..]);
    }
  }

  /** A drain changes the shown detail, its state and the answer, and makes nothing pending. */
  lemma DrainChangesDetail(s: State)
    requires Inv(s) && s.ui.CheckingAlive?
    ensures var r := Next(s, FinishDrain);
            && r == s.(ui := Idle, detail := r.detail, dissectState := r.dissectState, answer := AnswerDrained(s))
            && ShownIsAsked(r)
            && (r.dissectState == DeepPending ==> s.dissectState == DeepPending && s.alive)
  {
    hide KnownRequest, KnownReply, InFlight, Streak;
    var t := (if !s.alive && s.dissectState == DeepPending then s.(dissectState := Fast) else s)
             .(ui := Idle, answer := AnswerDrained(s));
    MessagesStayKnown(s, t);
    AcceptAllKeeps(t, s.ui.collected);
  }

  lemma FinishDrainKeepsInv(s: State)
    requires Inv(s) && s.ui.CheckingAlive?
    ensures Inv(Next(s, FinishDrain))
  {
    var r := Next(s, FinishDrain);
    DrainChangesDetail(s);
    MessagesStayKnown(s, r);
    if r.answer == Awaited {
      FlightGoesOn(s, r);
    }
  }

  /** What is in flight stays so when no message is lost. */
  lemma FlightGoesOn(s: State, r: State)
    requires r.dissectSeq == s.dissectSeq
    requires (forall req <- s.requests :: req in r.requests) || forall req <- s.requests :: req.seqNo != s.dissectSeq
    requires (forall reply <- s.replies :: reply in r.replies) || forall reply <- s.replies :: reply.seqNo != s.dissectSeq
    requires (forall reply <- Collected(s) :: reply in Collected(r))
             || forall reply <- Collected(s) :: reply.seqNo != s.dissectSeq
    requires s.worker.Received? || s.worker.Dissecting? ==>
               s.worker.req.seqNo != s.dissectSeq
               || ((r.worker.Received? || r.worker.Dissecting?) && r.worker.req == s.worker.req)
    ensures InFlight(s) ==> InFlight(r)
  {}

  lemma UiKeepsInv(s: State, a: Action)
    requires Inv(s) && Enabled(s, a)
    requires a.Deselect? || a.AddPacket? || a.StartDrain? || a.FindNoReply?
    ensures Inv(Next(s, a))
  {
    MessagesStayKnown(s, Next(s, a));
    FlightGoesOn(s, Next(s, a));
    hide InFlight, StopsInTime;
  }

  lemma StoreKeepsInv(s: State)
    requires Inv(s) && s.ui.Storing?
    ensures Inv(Next(s, StoreSeq))
  {
    MessagesStayKnown(s, Next(s, StoreSeq));
    FlightGoesOn(s, Next(s, StoreSeq));
    hide InFlight, StopsInTime;
  }

  lemma FreshKeepsInv(s: State, a: Action)
    requires Inv(s) && Enabled(s, a) && (a.OpenFile? || a.RespawnWorker?)
    ensures Inv(Next(s, a))
  {}

  lemma SendKeepsInv(s: State)
    requires Inv(s) && s.ui.Sending?
    ensures Inv(Next(s, SendRequest))
  {
    var r := Next(s, SendRequest);
    MessagesStayKnown(s, r);
    assert s.ui.req in r.requests;
  }

  lemma ReceiveKeepsInv(s: State)
    requires Inv(s) && Enabled(s, ReceiveReply)
    ensures Inv(Next(s, ReceiveReply))
  {
    var r := Next(s, ReceiveReply);
    MessagesStayKnown(s, r);
    if InFlight(s) {
      if reply :| reply in s.replies && reply.seqNo == s.dissectSeq {
        assert reply == s.replies[0] || reply in s.replies[1..];
        assert reply in Collected(r) || reply in r.replies;
      } else {
        FlightGoesOn(s, r);
      }
    }
  }

  lemma TakeKeepsInv(s: State)
    requires Inv(s) && Enabled(s, TakeRequest)
    ensures Inv(Next(s, TakeRequest))
  {
    var r := Next(s, TakeRequest);
    MessagesStayKnown(s, r);
    if InFlight(s) {
      if req :| req in s.requests && req.seqNo == s.dissectSeq {
        assert req == s.requests[0] || req in s.requests[1..];
        assert r.worker.req == req || req in r.requests;
      } else {
        FlightGoesOn(s, r);
      }
    }
  }

  lemma CompareKeepsInv(s: State)
    requires Inv(s) && Enabled(s, CompareSeq)
    ensures Inv(Next(s, CompareSeq))
  {
    MessagesStayKnown(s, Next(s, CompareSeq));
    FlightGoesOn(s, Next(s, CompareSeq));
  }

  /** A dissection ends, in time or not: the worker answers the request it holds. */
  lemma OutcomeKeepsInv(s: State, a: Action)
    requires Inv(s) && Enabled(s, a) && (a.Dissected? || a.TimeOut?)
    ensures Inv(Next(s, a))
  {
    var r := Next(s, a);
    OutcomeKeepsStopping(s, a);
    hide KnownRequest, KnownReply, InFlight, StopsInTime;
    AnswerIsKnown(s, s.worker.req);
    AnswerKeepsKnown(s, r, r.replies[|s.replies|]);
    AnswerFlies(s, r);
    hide KnownMessages;
  }

  lemma OutcomeKeepsStopping(s: State, a: Action)
    requires StopsInTime(s) && Enabled(s, a) && (a.Dissected? || a.TimeOut?)
    ensures StopsInTime(Next(s, a))
  {
    hide Streak;
    var r := Next(s, a);
    assert r.outcomes == s.outcomes + [a.TimeOut?];
    assert r.timeouts == if a.TimeOut? then s.timeouts + 1 else 0;
    assert r.worker == if a.TimeOut? then TimedOut(s.worker.req) else Waiting;
    hide Next;
    StreakAppend(s.outcomes, a.TimeOut?);
    OutcomeKeepsStops(s.outcomes, a.TimeOut?);
  }

  /** The worker adds a known reply, and goes on to a phase in which it holds no new request. */
  lemma AnswerKeepsKnown(s: State, r: State, reply: Reply)
    requires KnownMessages(s) && KnownReply(s, reply)
    requires r == s.(replies := s.replies + [reply], worker := r.worker, timeouts := r.timeouts, outcomes := r.outcomes,
                    hasDissector := r.hasDissector)
    requires r.worker.Waiting? || r.worker.Stopping? || (r.worker.TimedOut? && s.worker == Dissecting(r.worker.req))
    ensures KnownMessages(r)
  {
    MessagesStayKnown(s, r);
    hide KnownRequest, KnownReply;
  }

  lemma AnswerFlies(s: State, r: State)
    requires s.worker.Dissecting? && |r.replies| == |s.replies| + 1 && r.replies[..|s.replies|] == s.replies
    requires r.replies[|s.replies|].seqNo == s.worker.req.seqNo
    requires r.dissectSeq == s.dissectSeq && r.requests == s.requests && r.ui == s.ui
    ensures InFlight(s) ==> InFlight(r)
  {
    if s.worker.req.seqNo == s.dissectSeq {
      assert r.replies[|s.replies|] in r.replies;
    } else {
      forall reply | reply in s.replies ensures reply in r.replies { assert reply in r.replies[..|s.replies|]; }
      FlightGoesOn(s, r);
    }
  }

  lemma AnswerIsKnown(s: State, req: Request)
    requires KnownRequest(s, req)
    ensures KnownReply(s, Reply(req.index, req.seqNo, Some(Detail(req.raw, true)), None))
    ensures forall text :: KnownReply(s, Failure(req, text))
  {}

  /** After a timeout the worker restarts its dissector or stops. */
  lemma RecoverKeepsInv(s: State, a: Action)
    requires Inv(s) && Enabled(s, a) && (a.GiveUp? || a.Restart?)
    ensures Inv(Next(s, a))
  {
    hide KnownRequest, KnownReply, InFlight, Streak;
    var r := Next(s, a);
    AnswerIsKnown(s, s.worker.req);
    if r.replies != s.replies {
      AnswerKeepsKnown(s, r, r.replies[|s.replies|]);
    } else {
      MessagesStayKnown(s, r);
    }
    FlightGoesOn(s, r);
    hide KnownMessages;
  }

  lemma ClearAliveKeepsInv(s: State)
    requires Inv(s) && Enabled(s, ClearAlive)
    ensures Inv(Next(s, ClearAlive))
  {
    MessagesStayKnown(s, Next(s, ClearAlive));
  }

  lemma NextKeepsInv(s: State, a: Action)
    requires Inv(s) && Enabled(s, a)
    ensures Inv(Next(s, a))
  {
    match a {
      case Select(index) => SelectKeepsInv(s, index);
      case OpenFile(_, _) => FreshKeepsInv(s, a);
      case RespawnWorker(_) => FreshKeepsInv(s, a);
      case StoreSeq => StoreKeepsInv(s);
      case SendRequest => SendKeepsInv(s);
      case ReceiveReply => ReceiveKeepsInv(s);
      case FinishDrain => FinishDrainKeepsInv(s);
      case TakeRequest => TakeKeepsInv(s);
      case CompareSeq => CompareKeepsInv(s);
      case Dissected(_) => OutcomeKeepsInv(s, a);
      case TimeOut => OutcomeKeepsInv(s, a);
      case GiveUp => RecoverKeepsInv(s, a);
      case Restart(_) => RecoverKeepsInv(s, a);
      case ClearAlive => ClearAliveKeepsInv(s);
      case _ => UiKeepsInv(s, a);
    }
  }

  lemma {:induction false} AfterKeepsInv(run: seq<Action>)
    ensures Inv(After(run))
  {
    if run != [] {
      AfterKeepsInv(run[..|run| - 1]);
      var s := After(run[..|run| - 1]);
      if Enabled(s, run[|run| - 1]) { NextKeepsInv(s, run[|run| - 1]); }
    }
  }
}
