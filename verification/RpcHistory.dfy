/** Runs of the handler, with what happened so far recorded beside the state. */
module RpcHistory {
  import opened RpcMachine
  import opened RpcMessages
  import opened Wrappers

  /** Per inbound stream: responses taken on, and responses put on the wire (or, for a termination, acted on). */
  datatype StreamLog = StreamLog(
    accepted: map<RequestId, seq<RpcErrorResponse>>,
    consumed: map<RequestId, seq<RpcErrorResponse>>)

  /** Per outbound id: the request last negotiated that expects a response, and the responses reported since. */
  datatype ReplyLog = ReplyLog(
    asked: map<RequestId, RpcRequest>,
    heard: map<RequestId, seq<RpcErrorResponse>>)

  /** Requests submitted, dials without an answer yet, dials negotiated, requests given up. */
  datatype DialLog = DialLog(
    submitted: multiset<RpcEvent>,
    inFlight: multiset<RpcEvent>,
    negotiated: multiset<RpcEvent>,
    givenUp: multiset<RpcEvent>,
    upgradeErrors: nat)

  datatype Config = Config(s: State, streams: StreamLog, replies: ReplyLog, dials: DialLog)

  const START := Config(INITIAL, StreamLog(map[], map[]), ReplyLog(map[], map[]),
                        DialLog(multiset{}, multiset{}, multiset{}, multiset{}, 0))

  /** The stream a step can touch, if it is an inbound one. */
  function Touched(s: State, step: Step): (id: Option<RequestId>) {
    match step
    case InjectEvent(Response(id, _)) => if id in s.inbound then Some(id) else None
    case ExpireInbound(key, _) =>
      if key in s.inboundDelay && s.inboundDelay[key] in s.inbound then Some(s.inboundDelay[key]) else None
    case DriveInbound(id, _, _) => if id in s.inbound then Some(id) else None
    case _ => None
  }

  /** The responses a step takes on for the stream it touches. */
  function Accepts(lane: Lane, step: Step): (rs: seq<RpcErrorResponse>) {
    match step
    case InjectEvent(Response(_, r)) =>
      if lane.state.ResponseIdle? || (lane.state.ResponsePendingSend? && r.MultipleResponses()) then [r] else []
    case ExpireInbound(_, peerClosed) =>
      if lane.state.ResponseIdle? then (if peerClosed then [] else [TIMED_OUT])
      else if lane.state.ResponsePendingSend? && !lane.state.closing then [TIMED_OUT, StreamTermination]
      else []
    case _ => []
  }

  /** The responses a step puts on the wire of the stream it touches. */
  function Consumes(lane: Lane, step: Step): (rs: seq<RpcErrorResponse>) {
    match step
    case InjectEvent(Response(_, r)) => if lane.state.ResponseIdle? then [r] else []
    case ExpireInbound(_, peerClosed) => if lane.state.ResponseIdle? && !peerClosed then [TIMED_OUT] else []
    case DriveInbound(_, send, _) =>
      if lane.queue != []
         && (lane.state.ResponseIdle? || (lane.state.ResponsePendingSend? && send.Sent? && !lane.state.closing))
      then [lane.queue[0]] else []
    case _ => []
  }

  function LaneOf(s: State, id: RequestId): (l: Lane)
    requires id in s.inbound
  {
    Lane(s.inbound[id].state, Queue(s.queued, id))
  }

  function Append(m: map<RequestId, seq<RpcErrorResponse>>, id: RequestId, rs: seq<RpcErrorResponse>)
    : (r: map<RequestId, seq<RpcErrorResponse>>)
  {
    m[id := Queue(m, id) + rs]
  }

  function RecordStream(s: State, log: StreamLog, step: Step): (l: StreamLog) {
    match Touched(s, step)
    case None => log
    case Some(id) =>
      var lane := LaneOf(s, id);
      StreamLog(Append(log.accepted, id, Accepts(lane, step)), Append(log.consumed, id, Consumes(lane, step)))
  }

  /** Responses reported for an id are counted from its last negotiation. */
  function RecordReply(log: ReplyLog, output: Option<HandlerEvent>, step: Step): (l: ReplyLog) {
    match step
    case InjectOutbound(Request(id, request), _) =>
      if request.ExpectResponse() then ReplyLog(log.asked[id := request], log.heard[id := []]) else log
    case _ =>
      match output
      case Some(Report(Response(id, r))) => log.(heard := Append(log.heard, id, [r]))
      case _ => log
  }

  function RecordDial(s: State, log: DialLog, output: Option<HandlerEvent>, step: Step): (l: DialLog) {
    match step
    case InjectEvent(event) => if event.Request? then log.(submitted := log.submitted + multiset{event}) else log
    case InjectOutbound(info, _) =>
      log.(inFlight := log.inFlight - multiset{info}, negotiated := log.negotiated + multiset{info})
    case InjectDialError(info, error) =>
      log.(inFlight := log.inFlight - multiset{info},
           upgradeErrors := log.upgradeErrors + 1,
           givenUp := if Retried(s, error) then log.givenUp else log.givenUp + multiset{info})
    case _ =>
      match output
      case Some(OutboundSubstreamRequest(info)) => log.(inFlight := log.inFlight + multiset{info})
      case _ => log
  }

  predicate Can(c: Config, step: Step) {
    Enabled(c.s, c.dials.inFlight, step)
  }

  /** What a step hands to the caller of `poll`, if anything. */
  function Out(c: Config, step: Step): (e: Option<HandlerEvent>)
    requires Can(c, step)
  {
    Output(c.s, c.dials.inFlight, step)
  }

  function Emitted(c: Config, step: Step): (es: seq<HandlerEvent>)
    requires Can(c, step)
    ensures |es| <= 1
  {
    match Out(c, step) case None => [] case Some(e) => [e]
  }

  function Next(c: Config, step: Step): (c': Config)
    requires Can(c, step)
  {
    Config(Advance(c.s, c.dials.inFlight, step),
           RecordStream(c.s, c.streams, step),
           RecordReply(c.replies, Out(c, step), step),
           RecordDial(c.s, c.dials, Out(c, step), step))
  }

  /** `steps` can be taken from `c`. */
  predicate IsPath(c: Config, steps: seq<Step>)
    decreases |steps|
  {
    steps != [] ==> Can(c, steps[0]) && IsPath(Next(c, steps[0]), steps[1..])
  }

  function Reach(c: Config, steps: seq<Step>): (c': Config)
    requires IsPath(c, steps)
    decreases |steps|
  {
    if steps == [] then c else Reach(Next(c, steps[0]), steps[1..])
  }

  /** The events handed out along a path, in order. */
  function Outputs(c: Config, steps: seq<Step>): (es: seq<HandlerEvent>)
    requires IsPath(c, steps)
    decreases |steps|
  {
    if steps == [] then []
    else Emitted(c, steps[0]) + Outputs(Next(c, steps[0]), steps[1..])
  }

  lemma {:induction false} PathConcat(c: Config, a: seq<Step>, b: seq<Step>)
    requires IsPath(c, a) && IsPath(Reach(c, a), b)
    ensures IsPath(c, a + b)
    ensures Reach(c, a + b) == Reach(Reach(c, a), b)
    ensures Outputs(c, a + b) == Outputs(c, a) + Outputs(Reach(c, a), b)
    decreases |a|
  {
    hide Next, Emitted, Can;
    if a == [] {
      assert a + b == b;
    } else {
      PathConcat(Next(c, a[0]), a[1..], b);
      assert (a + b)[1..] == a[1..] + b;
    }
  }

  lemma PathExtend(c: Config, steps: seq<Step>, step: Step)
    requires IsPath(c, steps) && Can(Reach(c, steps), step)
    ensures IsPath(c, steps + [step]) && Reach(c, steps + [step]) == Next(Reach(c, steps), step)
  {
    hide Enabled, Advance, Emitted;
    var d := Reach(c, steps);
    assert [step][1..] == [];
    assert IsPath(Next(d, step), []) && IsPath(d, [step]);
    assert Reach(Next(d, step), []) == Next(d, step);
    PathConcat(c, steps, [step]);
  }
}
