/** Which inbound stream a step touches, and what it does to it. */
module RpcFrames {
  import opened RpcHistory
  import opened RpcMachine
  import opened RpcMessages
  import opened Wrappers

  /** What a step does to the one stream it touches; `None` when the stream is dropped. */
  function LaneStep(lane: Lane, step: Step): (l: Option<Lane>) {
    match step
    case InjectEvent(Response(_, r)) => Some(RespondLane(lane, r))
    case ExpireInbound(_, peerClosed) => Some(CloseLane(lane, peerClosed))
    case DriveInbound(_, send, close) => DriveLane(lane, send, close)
    case _ => Some(lane)
  }

  function DriveLane(lane: Lane, send: SendPoll, close: ClosePoll): (l: Option<Lane>) {
    match lane.state
    case ResponsePendingSend(_, closing) =>
      (match send
       case Sent => Some(if closing then lane.(state := Closing) else ApplyQueued(lane.queue))
       case SendNotReady => Some(lane)
       case SendFailed(_) => None)
    case ResponseIdle => Some(ApplyQueued(lane.queue))
    case Closing => if close.Closed? then None else Some(lane)
    case Poisoned => Some(lane)
  }

  /** Inbound streams other than `id`, and their queues, are as before. */
  ghost predicate SameElsewhere(s: State, t: State, id: RequestId) {
    && t.nextId == s.nextId
    && forall j :: j != id ==>
         && (j in t.inbound <==> j in s.inbound)
         && (j in s.inbound ==> t.inbound[j] == s.inbound[j])
         && (j in t.queued <==> j in s.queued)
         && (j in s.queued ==> t.queued[j] == s.queued[j])
  }

  /** Stream `id` has moved from its lane in `s` to `lane`, or is gone; `delay` is its timer key now. */
  ghost predicate LaneMoved(s: State, t: State, id: RequestId, lane: Option<Lane>, delay: Option<DelayKey>) {
    && SameElsewhere(s, t, id)
    && (lane.None? ==> id !in t.inbound)
    && (lane.Some? ==> id in t.inbound && LaneOf(t, id) == lane.value && t.inbound[id].delay == delay)
  }

  lemma FrameAccept(s: State, id: RequestId, r: RpcErrorResponse)
    requires id in s.inbound
    ensures
      var t := AcceptEvent(s, Response(id, r));
      && LaneMoved(s, t, id, Some(RespondLane(LaneOf(s, id), r)), s.inbound[id].delay)
      && t.inboundDelay == s.inboundDelay
  {
  }

  lemma FrameExpire(s: State, key: DelayKey, peerClosed: bool)
    requires key in s.inboundDelay && s.inboundDelay[key] in s.inbound
    ensures
      var id := s.inboundDelay[key];
      var t := ExpireIn(s, key, peerClosed);
      && LaneMoved(s, t, id, Some(CloseLane(LaneOf(s, id), peerClosed)), None)
      && t.inboundDelay == s.inboundDelay - {key}
  {
  }

  lemma FrameDrain(s: State, id: RequestId)
    requires id in s.inbound
    ensures LaneMoved(s, DrainOnto(s, id), id, Some(ApplyQueued(Queue(s.queued, id))), s.inbound[id].delay)
    ensures DrainOnto(s, id).inboundDelay == s.inboundDelay
  {
  }

  lemma FrameDrive(s: State, id: RequestId, send: SendPoll, close: ClosePoll)
    requires id in s.inbound
    ensures
      var t := DriveIn(s, id, send, close);
      var lane := DriveLane(LaneOf(s, id), send, close);
      && LaneMoved(s, t, id, lane, s.inbound[id].delay)
      && t.inboundDelay == if lane.None? then DropKey(s.inboundDelay, s.inbound[id].delay) else s.inboundDelay
  {
    hide ApplyQueued, LaneMoved, SameElsewhere;
    FrameDrain(s, id);
    FrameSet(s, id, Closing);
    FrameSame(s, id);
    var t := DriveIn(s, id, send, close);
    if DriveLane(LaneOf(s, id), send, close).None? { FrameGone(s, t, id); }
  }

  lemma FrameSet(s: State, id: RequestId, state: InboundState)
    requires id in s.inbound
    ensures LaneMoved(s, s.(inbound := s.inbound[id := s.inbound[id].(state := state)]), id,
                      Some(LaneOf(s, id).(state := state)), s.inbound[id].delay)
  {
  }

  lemma FrameSame(s: State, id: RequestId)
    requires id in s.inbound
    ensures LaneMoved(s, s, id, Some(LaneOf(s, id)), s.inbound[id].delay)
  {
  }

  lemma FrameGone(s: State, t: State, id: RequestId)
    requires id in s.inbound && t.inbound == s.inbound - {id} && t.nextId == s.nextId
    requires t.queued == s.queued || t.queued == s.queued - {id}
    ensures LaneMoved(s, t, id, None, s.inbound[id].delay)
  {
  }

  /** The whole step: new streams start idle with the next id, one stream moves, or none does. */
  lemma Frame(s: State, inFlight: multiset<RpcEvent>, step: Step)
    requires Enabled(s, inFlight, step)
    ensures
      var t := Advance(s, inFlight, step);
      match Touched(s, step)
      case Some(id) =>
        && id in s.inbound
        && LaneMoved(s, t, id, LaneStep(LaneOf(s, id), step),
                     if step.ExpireInbound? then None else s.inbound[id].delay)
      case None =>
        if step.InjectInbound? && !step.request.Goodbye? then
          && t.inbound == s.inbound[s.nextId := Inbound(ResponseIdle, Some(step.key))]
          && t.queued == s.queued
          && t.nextId == s.nextId + 1
        else t.inbound == s.inbound && t.queued == s.queued && t.nextId == s.nextId
  {
    hide RespondLane, CloseLane, DriveLane, LaneMoved;
    hide AcceptEvent, ExpireIn, DriveIn, FailDial, ExpireOut, DriveOut, NegotiateOutbound;
    InboundUntouched(s, inFlight, step);
    match step
    case InjectEvent(Response(id, r)) =>
      if id in s.inbound { FrameAccept(s, id, r); }
    case ExpireInbound(key, peerClosed) =>
      if s.inboundDelay[key] in s.inbound { FrameExpire(s, key, peerClosed); }
    case DriveInbound(id, send, close) => FrameDrive(s, id, send, close);
    case _ =>
  }

  predicate SameInbound(s: State, t: State) {
    t.inbound == s.inbound && t.queued == s.queued && t.nextId == s.nextId
  }

  lemma InboundUntouched(s: State, inFlight: multiset<RpcEvent>, step: Step)
    requires Enabled(s, inFlight, step)
    ensures step.InjectOutbound? ==> SameInbound(s, NegotiateOutbound(s, step.info, step.key))
    ensures step.InjectDialError? ==> SameInbound(s, FailDial(s, step.info, step.error))
    ensures step.ExpireOutbound? ==> SameInbound(s, ExpireOut(s, step.key))
    ensures step.DriveOutbound? ==> SameInbound(s, DriveOut(s, step.id, step.read, step.close))
    ensures step.InjectEvent? && Touched(s, step).None? ==> SameInbound(s, AcceptEvent(s, step.event))
    ensures step.ExpireInbound? && Touched(s, step).None? ==> SameInbound(s, ExpireIn(s, step.key, step.peerClosed))
  {
    hide RespondLane, CloseLane;
  }

  /** The timer table of inbound streams: one key added, one dropped, or as before. */
  lemma FrameTimers(s: State, inFlight: multiset<RpcEvent>, step: Step)
    requires Enabled(s, inFlight, step)
    ensures
      var t := Advance(s, inFlight, step);
      t.inboundDelay
      == match step
         case InjectInbound(request, key) => if request.Goodbye? then s.inboundDelay else s.inboundDelay[key := s.nextId]
         case ExpireInbound(key, _) => s.inboundDelay - {key}
         case DriveInbound(id, send, close) =>
           if DriveLane(LaneOf(s, id), send, close).None? then DropKey(s.inboundDelay, s.inbound[id].delay)
           else s.inboundDelay
         case _ => s.inboundDelay
  {
    match step
    case DriveInbound(id, send, close) => FrameDrive(s, id, send, close);
    case _ =>
  }

  /** What `poll` does to one outbound stream; `None` when it is dropped. */
  function OutStep(state: OutboundState, read: ReadPoll, close: ClosePoll): (o: Option<OutboundState>) {
    match state
    case RequestPendingResponse(request) =>
      (match read
       case Item(r) => Some(if request.MultipleResponses() && !r.IsError() then state else OutboundClosing)
       case ReadNotReady => Some(state)
       case _ => None)
    case OutboundClosing => if close.Closed? then None else Some(state)
    case OutboundPoisoned => Some(state)
  }

  lemma FrameDriveOut(s: State, id: RequestId, read: ReadPoll, close: ClosePoll)
    requires id in s.outbound
    ensures
      var t := DriveOut(s, id, read, close);
      match OutStep(s.outbound[id].state, read, close)
      case None => t.outbound == s.outbound - {id} && t.outboundDelay == s.outboundDelay - {s.outbound[id].delay}
      case Some(state) =>
        t.outbound == s.outbound[id := s.outbound[id].(state := state)] && t.outboundDelay == s.outboundDelay
  {
  }

  /** Outbound streams and their timers: one added, one driven, one expired, or as before. */
  lemma FrameOutbound(s: State, inFlight: multiset<RpcEvent>, step: Step)
    requires Enabled(s, inFlight, step)
    ensures
      var t := Advance(s, inFlight, step);
      match step
      case InjectOutbound(Request(id, request), key) =>
        if request.ExpectResponse() then
          && t.outbound == s.outbound[id := Outbound(RequestPendingResponse(request), key)]
          && t.outboundDelay == s.outboundDelay[key := id]
        else t.outbound == s.outbound && t.outboundDelay == s.outboundDelay
      case ExpireOutbound(key) =>
        t.outbound == s.outbound - {s.outboundDelay[key]} && t.outboundDelay == s.outboundDelay - {key}
      case DriveOutbound(id, read, close) =>
        (match OutStep(s.outbound[id].state, read, close)
         case None => t.outbound == s.outbound - {id} && t.outboundDelay == s.outboundDelay - {s.outbound[id].delay}
         case Some(state) =>
           t.outbound == s.outbound[id := s.outbound[id].(state := state)] && t.outboundDelay == s.outboundDelay)
      case _ => t.outbound == s.outbound && t.outboundDelay == s.outboundDelay
  {
    hide OutStep, DriveOut, ExpireIn, DriveIn, AcceptEvent, FailDial;
    OutboundUntouched(s, inFlight, step);
    match step
    case DriveOutbound(id, read, close) => FrameDriveOut(s, id, read, close);
    case _ =>
  }

  predicate SameOutbound(s: State, t: State) {
    t.outbound == s.outbound && t.outboundDelay == s.outboundDelay
  }

  lemma OutboundUntouched(s: State, inFlight: multiset<RpcEvent>, step: Step)
    requires Enabled(s, inFlight, step)
    ensures step.ExpireInbound? ==> SameOutbound(s, ExpireIn(s, step.key, step.peerClosed))
    ensures step.DriveInbound? ==> SameOutbound(s, DriveIn(s, step.id, step.send, step.close))
    ensures step.InjectEvent? ==> SameOutbound(s, AcceptEvent(s, step.event))
    ensures step.InjectDialError? ==> SameOutbound(s, FailDial(s, step.info, step.error))
  {
    hide RespondLane, CloseLane, ApplyQueued, DropKey;
  }

  predicate SameDial(s: State, t: State) {
    t.dialQueue == s.dialQueue && t.dialNegotiated == s.dialNegotiated && t.ioRetries == s.ioRetries
  }

  lemma DialUntouched(s: State, inFlight: multiset<RpcEvent>, step: Step)
    requires Enabled(s, inFlight, step)
    ensures step.ExpireInbound? ==> SameDial(s, ExpireIn(s, step.key, step.peerClosed))
    ensures step.DriveInbound? ==> SameDial(s, DriveIn(s, step.id, step.send, step.close))
    ensures step.DriveOutbound? ==> SameDial(s, DriveOut(s, step.id, step.read, step.close))
  {
    hide RespondLane, CloseLane, ApplyQueued, DropKey;
  }

  /** The dial fields, and the dial a step issues. */
  lemma FrameDial(s: State, inFlight: multiset<RpcEvent>, step: Step)
    requires Enabled(s, inFlight, step)
    ensures
      var t := Advance(s, inFlight, step);
      match step
      case InjectOutbound(_, _) =>
        t.dialQueue == s.dialQueue && t.dialNegotiated == s.dialNegotiated - 1 && t.ioRetries == s.ioRetries
      case InjectEvent(event) =>
        && t.dialQueue == (if event.Request? then s.dialQueue + [event] else s.dialQueue)
        && t.dialNegotiated == s.dialNegotiated && t.ioRetries == s.ioRetries
      case InjectDialError(info, error) =>
        && t.dialQueue == (if Retried(s, error) then s.dialQueue + [info] else s.dialQueue)
        && t.dialNegotiated == s.dialNegotiated
        && t.ioRetries == (if Retried(s, error) then s.ioRetries + 1 else 0)
      case Dial =>
        && t.dialQueue == s.dialQueue[1..] && t.dialNegotiated == s.dialNegotiated + 1 && t.ioRetries == s.ioRetries
        && Output(s, inFlight, step)
           == (if s.dialQueue[0].Request? then Some(OutboundSubstreamRequest(s.dialQueue[0])) else None)
      case _ =>
        && t.dialQueue == s.dialQueue && t.dialNegotiated == s.dialNegotiated && t.ioRetries == s.ioRetries
        && (Output(s, inFlight, step).Some? ==> Output(s, inFlight, step).value.Report?)
  {
    hide RespondLane, ExpireIn, DriveIn, DriveOut;
    DialUntouched(s, inFlight, step);
  }
}
