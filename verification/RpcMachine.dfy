/** The RPC substream handler as a state machine: one step an injected call, a timer expiry, or one
    stream driven by `poll`. What substreams, timers and the peer answer is part of the step. */
module RpcMachine {
  import opened RpcMessages
  import opened Wrappers

  const IO_ERROR_RETRIES := 3
  const MAX_DIAL_NEGOTIATED := 8

  type DelayKey = nat

  datatype InboundState =
    | ResponsePendingSend(sending: RpcErrorResponse, closing: bool)
    | ResponseIdle
    | Closing
    | Poisoned

  datatype OutboundState =
    | RequestPendingResponse(request: RpcRequest)
    | OutboundClosing
    | OutboundPoisoned

  datatype Inbound = Inbound(state: InboundState, delay: Option<DelayKey>)
  datatype Outbound = Outbound(state: OutboundState, delay: DelayKey)

  datatype State = State(
    pendingError: Option<(RequestId, UpgradeError)>,
    eventsOut: seq<RpcEvent>,
    dialQueue: seq<RpcEvent>,
    dialNegotiated: int,
    inbound: map<RequestId, Inbound>,
    inboundDelay: map<DelayKey, RequestId>,
    outbound: map<RequestId, Outbound>,
    outboundDelay: map<DelayKey, RequestId>,
    queued: map<RequestId, seq<RpcErrorResponse>>,
    nextId: RequestId,
    ioRetries: nat)

  const INITIAL := State(None, [], [], 0, map[], map[], map[], map[], map[], 1, 0)

  /** Answers of `Send::poll`, of `Sink::close` and of `Stream::poll`. */
  datatype SendPoll = Sent | SendNotReady | SendFailed(error: RpcError)
  datatype ClosePoll = Closed | CloseNotReady
  datatype ReadPoll = Item(response: RpcErrorResponse) | EndOfStream | ReadNotReady | ReadFailed(error: RpcError)

  datatype Step =
    | InjectInbound(request: RpcRequest, key: DelayKey)
    | InjectOutbound(info: RpcEvent, key: DelayKey)
    | InjectEvent(event: RpcEvent)
    | InjectDialError(info: RpcEvent, error: UpgradeError)
    | TakePendingError
    | TakeEvent
    | ExpireInbound(key: DelayKey, peerClosed: bool)
    | ExpireOutbound(key: DelayKey)
    | DriveInbound(id: RequestId, send: SendPoll, close: ClosePoll)
    | DriveOutbound(id: RequestId, read: ReadPoll, close: ClosePoll)
    | Dial

  const TIMED_OUT := ServerError("Request timed out")

  function Queue(m: map<RequestId, seq<RpcErrorResponse>>, id: RequestId): (q: seq<RpcErrorResponse>) {
    if id in m then m[id] else []
  }

  // ---- one inbound stream -------------------------------------------------------------------

  /** A stream together with the responses waiting for it. */
  datatype Lane = Lane(state: InboundState, queue: seq<RpcErrorResponse>)

  /** `InboundSubstreamState::close`. */
  function CloseLane(lane: Lane, peerClosed: bool): (r: Lane) {
    match lane.state
    case ResponsePendingSend(_, closing) =>
      if closing then lane else lane.(queue := lane.queue + [TIMED_OUT, StreamTermination])
    case ResponseIdle => lane.(state := if peerClosed then Closing else ResponsePendingSend(TIMED_OUT, true))
    case Closing => lane
    case Poisoned => lane
  }

  /** A response from the application, for a stream that still exists. */
  function RespondLane(lane: Lane, r: RpcErrorResponse): (l: Lane) {
    match lane.state
    case ResponseIdle =>
      if r.StreamTermination? then lane.(state := Closing)
      else lane.(state := ResponsePendingSend(r, !r.MultipleResponses() || r.IsError()))
    case ResponsePendingSend(sending, _) =>
      if r.MultipleResponses() then lane.(queue := lane.queue + [r])
      else lane.(state := ResponsePendingSend(sending, true))
    case Closing => lane
    case Poisoned => lane
  }

  /** `apply_queued_responses`. */
  function ApplyQueued(queue: seq<RpcErrorResponse>): (l: Lane) {
    if queue == [] then Lane(ResponseIdle, queue)
    else if queue[0].StreamTermination? then Lane(Closing, queue[1..])
    else Lane(ResponsePendingSend(queue[0], false), queue[1..])
  }

  // ---- steps --------------------------------------------------------------------------------

  function NegotiateInbound(s: State, request: RpcRequest, key: DelayKey): (s': State) {
    if request.Goodbye? then s.(eventsOut := s.eventsOut + [Request(0, request)])
    else s.(
      inboundDelay := s.inboundDelay[key := s.nextId],
      inbound := s.inbound[s.nextId := Inbound(ResponseIdle, Some(key))],
      eventsOut := s.eventsOut + [Request(s.nextId, request)],
      nextId := s.nextId + 1)
  }

  function NegotiateOutbound(s: State, info: RpcEvent, key: DelayKey): (s': State) {
    var t := s.(dialNegotiated := s.dialNegotiated - 1);
    if info.Request? && info.request.ExpectResponse() then
      t.(outboundDelay := t.outboundDelay[key := info.id],
         outbound := t.outbound[info.id := Outbound(RequestPendingResponse(info.request), key)])
    else t
  }

  function AcceptEvent(s: State, event: RpcEvent): (s': State) {
    match event
    case Request(_, _) => s.(dialQueue := s.dialQueue + [event])
    case Response(id, r) =>
      if id !in s.inbound then s
      else
        var lane := RespondLane(Lane(s.inbound[id].state, Queue(s.queued, id)), r);
        s.(inbound := s.inbound[id := s.inbound[id].(state := lane.state)],
           queued := if lane.queue == Queue(s.queued, id) then s.queued else s.queued[id := lane.queue])
    case Error(_, _) => s
  }

  predicate Retried(s: State, error: UpgradeError) {
    error.Apply? && error.error.IoError? && s.ioRetries + 1 < IO_ERROR_RETRIES
  }

  function FailDial(s: State, info: RpcEvent, error: UpgradeError): (s': State) {
    if Retried(s, error) then s.(ioRetries := s.ioRetries + 1, dialQueue := s.dialQueue + [info])
    else s.(
      ioRetries := 0,
      pendingError := if s.pendingError.None? then Some((if info.Request? then info.id else 0, error)) else s.pendingError)
  }

  function ExpireIn(s: State, key: DelayKey, peerClosed: bool): (s': State)
    requires key in s.inboundDelay
  {
    var id := s.inboundDelay[key];
    var t := s.(inboundDelay := s.inboundDelay - {key});
    if id !in s.inbound then t
    else
      var lane := CloseLane(Lane(s.inbound[id].state, Queue(s.queued, id)), peerClosed);
      t.(inbound := s.inbound[id := Inbound(lane.state, None)], queued := s.queued[id := lane.queue])
  }

  function ExpireOut(s: State, key: DelayKey): (s': State)
    requires key in s.outboundDelay
  {
    s.(outboundDelay := s.outboundDelay - {key}, outbound := s.outbound - {s.outboundDelay[key]})
  }

  function DropKey(delays: map<DelayKey, RequestId>, key: Option<DelayKey>): (d: map<DelayKey, RequestId>) {
    match key case None => delays case Some(k) => delays - {k}
  }

  function DriveIn(s: State, id: RequestId, send: SendPoll, close: ClosePoll): (s': State)
    requires id in s.inbound
  {
    var stream := s.inbound[id];
    match stream.state
    case ResponsePendingSend(_, closing) =>
      (match send
       case Sent =>
         if closing then s.(inbound := s.inbound[id := stream.(state := Closing)])
         else DrainOnto(s, id)
       case SendNotReady => s
       case SendFailed(_) => s.(inboundDelay := DropKey(s.inboundDelay, stream.delay), inbound := s.inbound - {id}))
    case ResponseIdle => DrainOnto(s, id)
    case Closing =>
      (match close
       case Closed => s.(
         inboundDelay := DropKey(s.inboundDelay, stream.delay),
         queued := s.queued - {id},
         inbound := s.inbound - {id})
       case CloseNotReady => s)
    case Poisoned => s
  }

  /** The next queued response of `id` goes onto its own stream. */
  function DrainOnto(s: State, id: RequestId): (s': State)
    requires id in s.inbound
  {
    var lane := ApplyQueued(Queue(s.queued, id));
    s.(inbound := s.inbound[id := s.inbound[id].(state := lane.state)],
       queued := if id in s.queued then s.queued[id := lane.queue] else s.queued)
  }

  function DriveOut(s: State, id: RequestId, read: ReadPoll, close: ClosePoll): (s': State)
    requires id in s.outbound
  {
    var stream := s.outbound[id];
    match stream.state
    case RequestPendingResponse(request) =>
      (match read
       case Item(r) =>
         if request.MultipleResponses() && !r.IsError() then s
         else s.(outbound := s.outbound[id := stream.(state := OutboundClosing)])
       case ReadNotReady => s
       case _ => DropOutbound(s, id))
    case OutboundClosing =>
      (match close
       case Closed => DropOutbound(s, id)
       case CloseNotReady => s)
    case OutboundPoisoned => s
  }

  function DropOutbound(s: State, id: RequestId): (s': State)
    requires id in s.outbound
  {
    s.(outboundDelay := s.outboundDelay - {s.outbound[id].delay}, outbound := s.outbound - {id})
  }

  /** What the environment may do: fresh timer keys, live timers and streams, and one answer a dial. */
  predicate Enabled(s: State, inFlight: multiset<RpcEvent>, step: Step) {
    match step
    case InjectInbound(_, key) => key !in s.inboundDelay
    case InjectOutbound(info, key) => info in inFlight && key !in s.outboundDelay
    case InjectEvent(_) => true
    case InjectDialError(info, _) => info in inFlight
    case TakePendingError => s.pendingError.Some?
    case TakeEvent => s.eventsOut != []
    case ExpireInbound(key, _) => key in s.inboundDelay
    case ExpireOutbound(key) => key in s.outboundDelay
    case DriveInbound(id, _, _) => id in s.inbound
    case DriveOutbound(id, _, _) => id in s.outbound
    case Dial => s.dialQueue != [] && s.dialNegotiated < MAX_DIAL_NEGOTIATED
  }

  function Advance(s: State, inFlight: multiset<RpcEvent>, step: Step): (s': State)
    requires Enabled(s, inFlight, step)
  {
    match step
    case InjectInbound(request, key) => NegotiateInbound(s, request, key)
    case InjectOutbound(info, key) => NegotiateOutbound(s, info, key)
    case InjectEvent(event) => AcceptEvent(s, event)
    case InjectDialError(info, error) => FailDial(s, info, error)
    case TakePendingError => s.(pendingError := None)
    case TakeEvent => s.(eventsOut := s.eventsOut[1..])
    case ExpireInbound(key, peerClosed) => ExpireIn(s, key, peerClosed)
    case ExpireOutbound(key) => ExpireOut(s, key)
    case DriveInbound(id, send, close) => DriveIn(s, id, send, close)
    case DriveOutbound(id, read, close) => DriveOut(s, id, read, close)
    case Dial => s.(dialNegotiated := s.dialNegotiated + 1, dialQueue := s.dialQueue[1..])
  }

  /** The error that a failed upgrade is reported as. */
  function Reported(error: UpgradeError): (e: RpcError) {
    match error
    case Apply(e) => e
    case Timeout => Custom("Protocol negotiation timeout")
    case Timer => Custom("Protocol negotiation timeout")
    case Select(message) => Custom(message)
  }

  /** The event a step hands to the caller of `poll`, if any. */
  function Output(s: State, inFlight: multiset<RpcEvent>, step: Step): (e: Option<HandlerEvent>)
    requires Enabled(s, inFlight, step)
  {
    match step
    case TakePendingError => Some(Report(Error(s.pendingError.value.0, Reported(s.pendingError.value.1))))
    case TakeEvent => Some(Report(s.eventsOut[0]))
    case ExpireOutbound(key) => Some(Report(Error(s.outboundDelay[key], Custom("Stream timed out"))))
    case DriveInbound(id, send, _) =>
      if s.inbound[id].state.ResponsePendingSend? && send.SendFailed? then Some(Report(Error(0, send.error))) else None
    case DriveOutbound(id, read, _) => OutputOut(s.outbound[id].state, id, read)
    case Dial => if s.dialQueue[0].Request? then Some(OutboundSubstreamRequest(s.dialQueue[0])) else None
    case _ => None
  }

  function OutputOut(state: OutboundState, id: RequestId, read: ReadPoll): (e: Option<HandlerEvent>) {
    if !state.RequestPendingResponse? then None
    else
      match read
      case Item(r) => Some(Report(Response(id, r)))
      case EndOfStream =>
        if state.request.MultipleResponses() then Some(Report(Response(id, StreamTermination)))
        else Some(Report(Error(id, Custom("Stream closed early. Empty response"))))
      case ReadNotReady => None
      case ReadFailed(e) => Some(Report(Error(id, e)))
  }
}
