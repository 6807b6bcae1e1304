/** What every step of the handler keeps. */
module RpcInvariants {
  import opened RpcFrames
  import opened RpcHistory
  import opened RpcMachine
  import opened RpcMessages
  import opened Wrappers

  // ---- streams and their timers -------------------------------------------------------------

  /** No stored stream is in its temporary state. */
  ghost predicate NoPoison(s: State) {
    && (forall id :: id in s.inbound ==> !s.inbound[id].state.Poisoned?)
    && (forall id :: id in s.outbound ==> !s.outbound[id].state.OutboundPoisoned?)
  }

  /** Inbound timers and inbound streams that hold a key are in bijection. */
  ghost predicate InboundTimers(s: State) {
    && (forall id :: id in s.inbound && s.inbound[id].delay.Some? ==>
          s.inbound[id].delay.value in s.inboundDelay && s.inboundDelay[s.inbound[id].delay.value] == id)
    && (forall key :: key in s.inboundDelay ==>
          s.inboundDelay[key] in s.inbound && s.inbound[s.inboundDelay[key]].delay == Some(key))
  }

  /** The timer key of an outbound stream is live whenever the stream is there. */
  ghost predicate OutboundTimers(s: State) {
    forall id :: id in s.outbound ==>
      s.outbound[id].delay in s.outboundDelay && s.outboundDelay[s.outbound[id].delay] == id
  }

  ghost predicate TimersLinked(s: State) {
    InboundTimers(s) && OutboundTimers(s)
  }

  /** Ids of inbound streams, and of anything kept for them, were handed out earlier. */
  ghost predicate IdsSpent(c: Config) {
    && (forall id :: id in c.s.inbound ==> id < c.s.nextId)
    && (forall id :: id in c.s.queued ==> id < c.s.nextId)
    && (forall id :: id in c.streams.accepted || id in c.streams.consumed ==> id < c.s.nextId)
  }

  /** The stream ends after what it sends now, or has a termination waiting. */
  predicate Doomed(lane: Lane) {
    || lane.state.Closing?
    || (lane.state.ResponsePendingSend? && (lane.state.closing || StreamTermination in lane.queue))
  }

  predicate LaneOk(lane: Lane, delay: Option<DelayKey>) {
    && (lane.state.ResponseIdle? ==> lane.queue == [])
    && (delay.None? ==> Doomed(lane))
  }

  /** An idle stream has nothing queued, and a timed-out stream is doomed. */
  ghost predicate LanesOk(s: State) {
    forall id :: id in s.inbound ==> LaneOk(LaneOf(s, id), s.inbound[id].delay)
  }

  lemma KeepsNoPoison(s: State, inFlight: multiset<RpcEvent>, step: Step)
    requires Enabled(s, inFlight, step) && NoPoison(s)
    ensures NoPoison(Advance(s, inFlight, step))
  {
    hide Advance;
    FrameOutbound(s, inFlight, step);
    NoPoisonInbound(s, inFlight, step);
  }

  lemma NoPoisonInbound(s: State, inFlight: multiset<RpcEvent>, step: Step)
    requires Enabled(s, inFlight, step) && NoPoison(s)
    ensures forall id :: id in Advance(s, inFlight, step).inbound ==>
      !Advance(s, inFlight, step).inbound[id].state.Poisoned?
  {
    hide Advance;
    Frame(s, inFlight, step);
    var t := Advance(s, inFlight, step);
    forall id | id in t.inbound
      ensures !t.inbound[id].state.Poisoned?
    {
      if Touched(s, step) == Some(id) {
        assert !LaneOf(t, id).state.Poisoned?;
      }
    }
  }

  lemma KeepsInboundTimers(s: State, inFlight: multiset<RpcEvent>, step: Step)
    requires Enabled(s, inFlight, step) && TimersLinked(s) && s.nextId !in s.inbound
    ensures InboundTimers(Advance(s, inFlight, step))
  {
    hide Advance, DriveLane, RespondLane, CloseLane, LaneOf;
    Frame(s, inFlight, step);
    FrameTimers(s, inFlight, step);
  }

  lemma KeepsOutboundTimers(s: State, inFlight: multiset<RpcEvent>, step: Step)
    requires Enabled(s, inFlight, step) && OutboundTimers(s)
    ensures OutboundTimers(Advance(s, inFlight, step))
  {
    hide Advance;
    FrameOutbound(s, inFlight, step);
  }

  lemma KeepsIdsSpent(c: Config, step: Step)
    requires Can(c, step) && IdsSpent(c)
    ensures IdsSpent(Next(c, step))
  {
    hide Advance, Output, LaneStep, RecordReply, RecordDial, Accepts, Consumes;
    Frame(c.s, c.dials.inFlight, step);
    var d := Next(c, step);
    forall id | id in d.s.queued
      ensures id < d.s.nextId
    {
      if Touched(c.s, step) != Some(id) { assert id in c.s.queued; }
    }
  }

  /** A doomed stream stays doomed or is dropped, and idle streams have drained their queue. */
  lemma LaneStepOk(lane: Lane, delay: Option<DelayKey>, step: Step)
    requires LaneOk(lane, delay) && !lane.state.Poisoned?
    ensures
      var l := LaneStep(lane, step);
      l.Some? ==> LaneOk(l.value, if step.ExpireInbound? then None else delay)
  {
    if lane.queue != [] {
      assert lane.queue == [lane.queue[0]] + lane.queue[1..];
    }
  }

  lemma KeepsLanes(c: Config, step: Step)
    requires Can(c, step) && NoPoison(c.s) && IdsSpent(c) && LanesOk(c.s)
    ensures LanesOk(Advance(c.s, c.dials.inFlight, step))
  {
    hide Advance, LaneStep, LaneOk;
    var t := Advance(c.s, c.dials.inFlight, step);
    Frame(c.s, c.dials.inFlight, step);
    forall id | id in t.inbound
      ensures LaneOk(LaneOf(t, id), t.inbound[id].delay)
    {
      if Touched(c.s, step) == Some(id) {
        LaneStepOk(LaneOf(c.s, id), c.s.inbound[id].delay, step);
      } else if id == c.s.nextId {
        NewLaneOk(t.inbound[id].delay);
        assert LaneOf(t, id) == Lane(ResponseIdle, []);
      } else {
        assert LaneOf(t, id) == LaneOf(c.s, id);
      }
    }
  }

  lemma NewLaneOk(delay: Option<DelayKey>)
    requires delay.Some?
    ensures LaneOk(Lane(ResponseIdle, []), delay)
  {
  }

  // ---- order of inbound responses -----------------------------------------------------------

  /** Only the last response on the wire can be a termination. */
  predicate TerminationLast(rs: seq<RpcErrorResponse>) {
    forall i :: 0 <= i < |rs| - 1 ==> !rs[i].StreamTermination?
  }

  /** A stream's log: on the wire, then waiting, is what was taken on. What it sends now is the last thing
      on the wire, and a termination on the wire means the stream is closing. */
  predicate LogOk(lane: Lane, accepted: seq<RpcErrorResponse>, consumed: seq<RpcErrorResponse>) {
    && accepted == consumed + lane.queue
    && (if lane.state.Closing? then TerminationLast(consumed) else StreamTermination !in consumed)
    && (lane.state.ResponsePendingSend? ==> consumed != [] && consumed[|consumed| - 1] == lane.state.sending)
  }

  /** Live streams have a good log; of dropped ones, the wire saw a prefix of what was taken on. */
  ghost predicate Ordered(c: Config) {
    && (forall id :: id in c.s.inbound ==>
          LogOk(LaneOf(c.s, id), Queue(c.streams.accepted, id), Queue(c.streams.consumed, id)))
    && (forall id :: id !in c.s.inbound ==>
          Queue(c.streams.consumed, id) <= Queue(c.streams.accepted, id) && TerminationLast(Queue(c.streams.consumed, id)))
  }

  lemma LogStep(lane: Lane, accepted: seq<RpcErrorResponse>, consumed: seq<RpcErrorResponse>,
                delay: Option<DelayKey>, step: Step)
    requires LogOk(lane, accepted, consumed) && LaneOk(lane, delay) && !lane.state.Poisoned?
    ensures
      var accepted' := accepted + Accepts(lane, step);
      var consumed' := consumed + Consumes(lane, step);
      match LaneStep(lane, step)
      case Some(l) => LogOk(l, accepted', consumed')
      case None => consumed' <= accepted' && TerminationLast(consumed')
  {
    hide RespondLane, CloseLane, DriveLane, LogOk;
    assert accepted + [] == accepted && consumed + [] == consumed;
    match step
    case InjectEvent(Response(_, r)) => LogRespond(lane, accepted, consumed, r);
    case ExpireInbound(_, peerClosed) => LogClose(lane, accepted, consumed, peerClosed);
    case DriveInbound(_, _, _) => LogDrive(lane, accepted, consumed, step);
    case _ =>
  }

  lemma LogRespond(lane: Lane, accepted: seq<RpcErrorResponse>, consumed: seq<RpcErrorResponse>, r: RpcErrorResponse)
    requires LogOk(lane, accepted, consumed) && (lane.state.ResponseIdle? ==> lane.queue == []) && !lane.state.Poisoned?
    ensures
      var step := InjectEvent(Response(0, r));
      LogOk(RespondLane(lane, r), accepted + Accepts(lane, step), consumed + Consumes(lane, step))
  {
  }

  lemma LogClose(lane: Lane, accepted: seq<RpcErrorResponse>, consumed: seq<RpcErrorResponse>, peerClosed: bool)
    requires LogOk(lane, accepted, consumed) && (lane.state.ResponseIdle? ==> lane.queue == []) && !lane.state.Poisoned?
    ensures
      var step := ExpireInbound(0, peerClosed);
      LogOk(CloseLane(lane, peerClosed), accepted + Accepts(lane, step), consumed + Consumes(lane, step))
  {
  }

  lemma LogDrive(lane: Lane, accepted: seq<RpcErrorResponse>, consumed: seq<RpcErrorResponse>, step: Step)
    requires LogOk(lane, accepted, consumed) && (lane.state.ResponseIdle? ==> lane.queue == []) && !lane.state.Poisoned?
    requires step.DriveInbound?
    ensures
      var consumed' := consumed + Consumes(lane, step);
      match DriveLane(lane, step.send, step.close)
      case Some(l) => LogOk(l, accepted, consumed')
      case None => consumed' <= accepted && TerminationLast(consumed')
  {
    assert lane.queue != [] ==> lane.queue == [lane.queue[0]] + lane.queue[1..];
  }

  lemma KeepsOrdered(c: Config, step: Step)
    requires Can(c, step) && NoPoison(c.s) && IdsSpent(c) && LanesOk(c.s) && Ordered(c)
    ensures Ordered(Next(c, step))
  {
    hide Advance, Output, LaneStep, RecordReply, RecordDial, Accepts, Consumes, LogOk, LaneOk;
    Frame(c.s, c.dials.inFlight, step);
    var d := Next(c, step);
    var touched := Touched(c.s, step);
    if touched.Some? {
      var id := touched.value;
      LogStep(LaneOf(c.s, id), Queue(c.streams.accepted, id), Queue(c.streams.consumed, id), c.s.inbound[id].delay, step);
    }
    forall id | id in d.s.inbound
      ensures LogOk(LaneOf(d.s, id), Queue(d.streams.accepted, id), Queue(d.streams.consumed, id))
    {
      if touched != Some(id) {
        if id == c.s.nextId {
          NewLogOk();
          assert LaneOf(d.s, id) == Lane(ResponseIdle, []);
          assert Queue(d.streams.accepted, id) == [] && Queue(d.streams.consumed, id) == [];
        } else {
          assert LaneOf(d.s, id) == LaneOf(c.s, id);
        }
      }
    }
  }

  lemma NewLogOk()
    ensures LogOk(Lane(ResponseIdle, []), [], [])
  {
  }

  // ---- dials --------------------------------------------------------------------------------

  /** Open dials and failed upgrades make up the dial count, which stays within its limit; every submitted
      request is queued, being dialled, negotiated or given up; and only requests are dialled. */
  ghost predicate DialRecordOk(queue: seq<RpcEvent>, negotiated: int, retries: nat, log: DialLog) {
    && negotiated == |log.inFlight| + log.upgradeErrors <= MAX_DIAL_NEGOTIATED
    && log.submitted == multiset(queue) + log.inFlight + log.negotiated + log.givenUp
    && (forall i :: 0 <= i < |queue| ==> queue[i].Request?)
    && (forall e :: e in log.inFlight ==> e.Request?)
    && retries < IO_ERROR_RETRIES
  }

  ghost predicate DialsOk(c: Config) {
    DialRecordOk(c.s.dialQueue, c.s.dialNegotiated, c.s.ioRetries, c.dials)
  }

  lemma KeepsDials(c: Config, step: Step)
    requires Can(c, step) && DialsOk(c)
    ensures DialsOk(Next(c, step))
  {
    hide Advance, Output, RecordStream, RecordReply, DialRecordOk;
    FrameDial(c.s, c.dials.inFlight, step);
    var queue, n, retries := c.s.dialQueue, c.s.dialNegotiated, c.s.ioRetries;
    match step
    case InjectEvent(event) => if event.Request? { DialSubmitted(queue, n, retries, c.dials, event); }
    case InjectOutbound(info, _) => DialNegotiated(queue, n, retries, c.dials, info);
    case InjectDialError(info, error) =>
      if Retried(c.s, error) {
        DialRetried(queue, n, retries, c.dials, info);
      } else {
        DialGivenUp(queue, n, retries, c.dials, info);
      }
    case Dial => DialIssued(queue, n, retries, c.dials);
    case _ =>
  }

  lemma DialSubmitted(queue: seq<RpcEvent>, n: int, retries: nat, log: DialLog, e: RpcEvent)
    requires DialRecordOk(queue, n, retries, log) && e.Request?
    ensures DialRecordOk(queue + [e], n, retries, log.(submitted := log.submitted + multiset{e}))
  {
    assert multiset(queue + [e]) == multiset(queue) + multiset{e};
  }

  lemma DialIssued(queue: seq<RpcEvent>, n: int, retries: nat, log: DialLog)
    requires DialRecordOk(queue, n, retries, log) && queue != [] && n < MAX_DIAL_NEGOTIATED
    ensures queue[0].Request?
    ensures DialRecordOk(queue[1..], n + 1, retries, log.(inFlight := log.inFlight + multiset{queue[0]}))
  {
    assert queue == [queue[0]] + queue[1..];
    assert multiset(queue) == multiset{queue[0]} + multiset(queue[1..]);
  }

  lemma DialNegotiated(queue: seq<RpcEvent>, n: int, retries: nat, log: DialLog, e: RpcEvent)
    requires DialRecordOk(queue, n, retries, log) && e in log.inFlight
    ensures DialRecordOk(queue, n - 1, retries,
      log.(inFlight := log.inFlight - multiset{e}, negotiated := log.negotiated + multiset{e}))
  {
  }

  lemma DialRetried(queue: seq<RpcEvent>, n: int, retries: nat, log: DialLog, e: RpcEvent)
    requires DialRecordOk(queue, n, retries, log) && e in log.inFlight
    ensures retries + 1 < IO_ERROR_RETRIES ==> DialRecordOk(queue + [e], n, retries + 1,
      log.(inFlight := log.inFlight - multiset{e}, upgradeErrors := log.upgradeErrors + 1))
  {
    assert multiset(queue + [e]) == multiset(queue) + multiset{e};
  }

  lemma DialGivenUp(queue: seq<RpcEvent>, n: int, retries: nat, log: DialLog, e: RpcEvent)
    requires DialRecordOk(queue, n, retries, log) && e in log.inFlight
    ensures DialRecordOk(queue, n, 0,
      log.(inFlight := log.inFlight - multiset{e}, upgradeErrors := log.upgradeErrors + 1,
           givenUp := log.givenUp + multiset{e}))
  {
  }

  // ---- outbound responses -------------------------------------------------------------------

  /** Only the last response heard can be an error. */
  predicate ErrorLast(rs: seq<RpcErrorResponse>) {
    forall i :: 0 <= i < |rs| - 1 ==> !rs[i].IsError()
  }

  /** What may have been heard for a request: errors only at the end, and a single answer if only one is due. */
  predicate HeardOk(request: RpcRequest, rs: seq<RpcErrorResponse>) {
    ErrorLast(rs) && (!request.MultipleResponses() ==> |rs| <= 1)
  }

  /** What may have been heard while an answer is still awaited: no error, and nothing if only one is due. */
  predicate AwaitingOk(request: RpcRequest, rs: seq<RpcErrorResponse>) {
    (forall i :: 0 <= i < |rs| ==> !rs[i].IsError()) && (!request.MultipleResponses() ==> rs == [])
  }

  ghost predicate RepliesOk(c: Config) {
    && (forall e :: e in c.s.eventsOut ==> e.Request?)
    && (forall id :: id in c.replies.heard ==>
          id in c.replies.asked && HeardOk(c.replies.asked[id], c.replies.heard[id]))
    && (forall id :: id in c.s.outbound ==> id in c.replies.heard)
    && (forall id :: id in c.s.outbound && c.s.outbound[id].state.RequestPendingResponse? ==>
          && c.replies.asked[id] == c.s.outbound[id].state.request
          && AwaitingOk(c.replies.asked[id], c.replies.heard[id]))
  }

  lemma KeepsReplies(c: Config, step: Step)
    requires Can(c, step) && NoPoison(c.s) && RepliesOk(c)
    ensures RepliesOk(Next(c, step))
  {
    hide RecordStream, RecordDial, Advance, HeardOk, AwaitingOk, Output;
    FrameOutbound(c.s, c.dials.inFlight, step);
    OutputFrame(c.s, c.dials.inFlight, step);
    if step.DriveOutbound? {
      var id := step.id;
      HeardStep(c.s.outbound[id].state, id, Queue(c.replies.heard, id), step.read, step.close);
    }
    NothingHeard();
    EventsFrame(c.s, c.dials.inFlight, step);
  }

  lemma EventsFrame(s: State, inFlight: multiset<RpcEvent>, step: Step)
    requires Enabled(s, inFlight, step)
    ensures
      var t := Advance(s, inFlight, step);
      match step
      case InjectInbound(request, _) =>
        t.eventsOut == s.eventsOut + [Request(if request.Goodbye? then 0 else s.nextId, request)]
      case TakeEvent => t.eventsOut == s.eventsOut[1..]
      case _ => t.eventsOut == s.eventsOut
  {
  }

  lemma NothingHeard()
    ensures forall request :: HeardOk(request, []) && AwaitingOk(request, [])
  {
  }

  /** Only driving an outbound stream reports a response. */
  lemma OutputFrame(s: State, inFlight: multiset<RpcEvent>, step: Step)
    requires Enabled(s, inFlight, step)
    ensures
      match step
      case DriveOutbound(id, read, _) => Output(s, inFlight, step) == OutputOut(s.outbound[id].state, id, read)
      case TakeEvent => Output(s, inFlight, step) == Some(Report(s.eventsOut[0]))
      case _ => Output(s, inFlight, step).Some? && Output(s, inFlight, step).value.Report?
                ==> !Output(s, inFlight, step).value.event.Response?
  {
  }

  /** One poll of an outbound stream reports at most one response, and goes on waiting only if more may come. */
  lemma HeardStep(state: OutboundState, id: RequestId, rs: seq<RpcErrorResponse>, read: ReadPoll, close: ClosePoll)
    requires state.RequestPendingResponse? ==> AwaitingOk(state.request, rs)
    ensures
      var output := OutputOut(state, id, read);
      var next := OutStep(state, read, close);
      && (output.Some? ==> state.RequestPendingResponse? && output.value.Report? && output.value.event.id == id)
      && (next.Some? && next.value.RequestPendingResponse? ==>
            state.RequestPendingResponse? && next.value.request == state.request)
      && (output.Some? && output.value.event.Response? ==>
            var rs' := rs + [output.value.event.response];
            && HeardOk(state.request, rs')
            && (next.Some? && next.value.RequestPendingResponse? ==> AwaitingOk(state.request, rs')))
  {
  }
}
