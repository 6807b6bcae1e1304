/** What the application is told, and what the peer is told, said from what happened on the streams. */
module RpcReports {
  import opened RpcFrames
  import opened RpcHistory
  import opened RpcInvariants
  import opened RpcMachine
  import opened RpcMessages
  import opened RpcRuns
  import opened Seqs
  import opened Wrappers

  /** Which requests and responses stand alone, and which may be followed by more. */
  lemma MessageKinds(request: RpcRequest, r: RpcErrorResponse)
    ensures request.ExpectResponse() <==> request.StatusRequest? || request.BlockSyncRequest?
    ensures request.MultipleResponses() <==> request.BlockSyncRequest?
    ensures r.MultipleResponses() <==> !(r.Success? && r.response.Status?)
    ensures r.IsError() <==> r.InvalidRequest? || r.ServerError? || r.Unknown? || r.StreamTermination?
  {
  }

  // ---- outbound responses -------------------------------------------------------------------

  predicate Pending(s: State, id: RequestId) {
    id in s.outbound && s.outbound[id].state.RequestPendingResponse?
  }

  /** The response read off the stream of `id` while one is awaited; the end of a stream that may carry many counts as
      a termination. */
  function ReadOf(c: Config, step: Step, id: RequestId): (rs: seq<RpcErrorResponse>) {
    if step.DriveOutbound? && step.id == id && Pending(c.s, id) then
      match step.read
      case Item(r) => [r]
      case EndOfStream => if c.s.outbound[id].state.request.BlockSyncRequest? then [StreamTermination] else []
      case _ => []
    else []
  }

  function Reads(c: Config, steps: seq<Step>, id: RequestId): (rs: seq<RpcErrorResponse>)
    requires IsPath(c, steps)
    decreases |steps|
  {
    if steps == [] then [] else ReadOf(c, steps[0], id) + Reads(Next(c, steps[0]), steps[1..], id)
  }

  lemma ReadIsReported(c: Config, step: Step, id: RequestId)
    requires Can(c, step) && Inv(c)
    ensures ResponsesFor(Emitted(c, step), id) == ReadOf(c, step, id)
  {
    hide Output, Inv, ResponsesFor;
    OutputFrame(c.s, c.dials.inFlight, step);
    ResponsesForOne(Emitted(c, step), id);
    if step.TakeEvent? {
      OnlyRequestsQueued(c);
      assert c.s.eventsOut[0] in c.s.eventsOut;
    }
  }

  /** Over every path, the responses handed out for an id are exactly those read off its stream while one was awaited,
      in order, with a termination for the end of a stream that may carry many. */
  lemma {:induction false} ResponsesAreReads(c: Config, steps: seq<Step>, id: RequestId)
    requires Inv(c) && IsPath(c, steps)
    ensures ResponsesFor(Outputs(c, steps), id) == Reads(c, steps, id)
    decreases |steps|
  {
    hide Inv, Next, Can, Emitted, ResponsesFor, ReadOf;
    if steps == [] {
      NoResponses(id);
    } else {
      var d := Next(c, steps[0]);
      ReadIsReported(c, steps[0], id);
      KeepsInv(c, steps[0]);
      ResponsesAreReads(d, steps[1..], id);
      ResponsesForHead(Emitted(c, steps[0]), Outputs(d, steps[1..]), id);
    }
  }

  // ---- errors -------------------------------------------------------------------------------

  function ErrorIn(id: RequestId): (f: HandlerEvent -> seq<RpcError>) {
    (e: HandlerEvent) => if e.Report? && e.event.Error? && e.event.id == id then [e.event.error] else []
  }

  /** What goes wrong in a step that `id` stands for: a read that fails, a single answer that never comes, a timeout, a
      failed dial. Sends that fail are told under zero. */
  function FailureOf(c: Config, step: Step, id: RequestId): (es: seq<RpcError>) {
    match step
    case DriveOutbound(i, read, _) =>
      if i != id || !Pending(c.s, id) then []
      else if read.ReadFailed? then [read.error]
      else if read.EndOfStream? && !c.s.outbound[id].state.request.BlockSyncRequest?
      then [Custom("Stream closed early. Empty response")]
      else []
    case ExpireOutbound(key) =>
      if key in c.s.outboundDelay && c.s.outboundDelay[key] == id then [Custom("Stream timed out")] else []
    case TakePendingError =>
      if c.s.pendingError.Some? && c.s.pendingError.value.0 == id then [Reported(c.s.pendingError.value.1)] else []
    case DriveInbound(i, send, _) =>
      if id == 0 && i in c.s.inbound && c.s.inbound[i].state.ResponsePendingSend? && send.SendFailed?
      then [send.error] else []
    case _ => []
  }

  function Failures(c: Config, steps: seq<Step>, id: RequestId): (es: seq<RpcError>)
    requires IsPath(c, steps)
    decreases |steps|
  {
    if steps == [] then [] else FailureOf(c, steps[0], id) + Failures(Next(c, steps[0]), steps[1..], id)
  }

  lemma FailureIsReported(c: Config, step: Step, id: RequestId)
    requires Can(c, step) && Inv(c)
    ensures FlatMap(ErrorIn(id), Emitted(c, step)) == FailureOf(c, step, id)
  {
    hide Inv, FlatMap, Reported;
    EmittedOne(ErrorIn(id), c, step);
    if step.TakeEvent? {
      OnlyRequestsQueued(c);
      assert c.s.eventsOut[0] in c.s.eventsOut;
    }
  }

  lemma EmittedOne<T>(f: HandlerEvent -> seq<T>, c: Config, step: Step)
    requires Can(c, step)
    ensures FlatMap(f, Emitted(c, step)) == match Out(c, step) case None => [] case Some(e) => f(e)
  {
    hide Output, Enabled;
    if Out(c, step).Some? { FlatMapOne(f, Out(c, step).value); }
  }

  /** Over every path, the errors handed out for an id are exactly what went wrong for it, in order. */
  lemma {:induction false} ErrorsAreFailures(c: Config, steps: seq<Step>, id: RequestId)
    requires Inv(c) && IsPath(c, steps)
    ensures FlatMap(ErrorIn(id), Outputs(c, steps)) == Failures(c, steps, id)
    decreases |steps|
  {
    hide Inv, Next, Can, Emitted, FailureOf, ErrorIn;
    if steps != [] {
      var d := Next(c, steps[0]);
      FailureIsReported(c, steps[0], id);
      KeepsInv(c, steps[0]);
      ErrorsAreFailures(d, steps[1..], id);
      FlatMapConcat(ErrorIn(id), Emitted(c, steps[0]), Outputs(d, steps[1..]));
    }
  }

  /** What a failed dial is told as. */
  lemma ReportedMeaning(error: UpgradeError)
    ensures
      Reported(error)
      == match error
         case Apply(e) => e
         case Select(message) => Custom(message)
         case _ => Custom("Protocol negotiation timeout")
  {
  }

  // ---- inbound requests ---------------------------------------------------------------------

  function RequestIn(e: HandlerEvent): (es: seq<RpcEvent>) {
    if e.Report? && e.event.Request? then [e.event] else []
  }

  /** The request a step brings in, under the id its stream gets; a goodbye has no stream and comes under zero. */
  function InjectedBy(c: Config, step: Step): (es: seq<RpcEvent>) {
    match step
    case InjectInbound(request, _) => [Request(if request.Goodbye? then 0 else c.s.nextId, request)]
    case _ => []
  }

  function Injected(c: Config, steps: seq<Step>): (es: seq<RpcEvent>)
    requires IsPath(c, steps)
    decreases |steps|
  {
    if steps == [] then [] else InjectedBy(c, steps[0]) + Injected(Next(c, steps[0]), steps[1..])
  }

  /** Only a queued event is reported as a request. */
  lemma RequestReported(c: Config, step: Step)
    requires Can(c, step) && Inv(c)
    ensures FlatMap(RequestIn, Emitted(c, step)) == if step.TakeEvent? then [c.s.eventsOut[0]] else []
  {
    hide Inv, FlatMap;
    EmittedOne(RequestIn, c, step);
    OnlyRequestsQueued(c);
    if step.TakeEvent? { assert c.s.eventsOut[0] in c.s.eventsOut; }
  }

  lemma RequestStep(c: Config, step: Step)
    requires Can(c, step) && Inv(c)
    ensures FlatMap(RequestIn, Emitted(c, step)) + Next(c, step).s.eventsOut == c.s.eventsOut + InjectedBy(c, step)
  {
    hide Advance, Output, Inv, FlatMap, Emitted, RecordStream, RecordReply, RecordDial;
    RequestReported(c, step);
    EventsFrame(c.s, c.dials.inFlight, step);
  }

  /** Over every path, the requests handed out followed by those still queued are those queued before followed by
      the ones injected, in order and each once, under the ids of their streams. */
  lemma {:induction false} RequestsInOrder(c: Config, steps: seq<Step>)
    requires Inv(c) && IsPath(c, steps)
    ensures FlatMap(RequestIn, Outputs(c, steps)) + Reach(c, steps).s.eventsOut == c.s.eventsOut + Injected(c, steps)
    decreases |steps|
  {
    hide Inv, Next, Can, Emitted, InjectedBy, RequestIn;
    if steps == [] {
      assert c.s.eventsOut + [] == [] + c.s.eventsOut;
    } else {
      var d := Next(c, steps[0]);
      var head, tail := FlatMap(RequestIn, Emitted(c, steps[0])), FlatMap(RequestIn, Outputs(d, steps[1..]));
      RequestStep(c, steps[0]);
      KeepsInv(c, steps[0]);
      RequestsInOrder(d, steps[1..]);
      FlatMapConcat(RequestIn, Emitted(c, steps[0]), Outputs(d, steps[1..]));
      ConcatAssoc(head, tail, Reach(c, steps).s.eventsOut);
      ConcatAssoc(head, d.s.eventsOut, Injected(d, steps[1..]));
      ConcatAssoc(c.s.eventsOut, InjectedBy(c, steps[0]), Injected(d, steps[1..]));
    }
  }

  /** A request that is no goodbye gets a stream of its own, idle, with the timer and nothing queued, and is reported
      under exactly the id of that stream. */
  lemma NewInbound(c: Config, request: RpcRequest, key: DelayKey)
    requires Inv(c) && Can(c, InjectInbound(request, key)) && !request.Goodbye?
    ensures
      var d, id := Next(c, InjectInbound(request, key)), c.s.nextId;
      && id !in c.s.inbound && d.s.inbound.Keys == c.s.inbound.Keys + {id}
      && d.s.inbound[id] == Inbound(ResponseIdle, Some(key)) && LaneOf(d.s, id).queue == []
      && d.s.inboundDelay == c.s.inboundDelay[key := id]
      && d.s.eventsOut == c.s.eventsOut + [Request(id, request)]
  {
  }

  /** Ids from `lo` up to, and excluding, `hi`, each larger than those before; goodbyes do not count. */
  ghost predicate Increasing(es: seq<RpcEvent>, lo: nat, hi: nat) {
    && (forall i :: 0 <= i < |es| ==> es[i].Request?)
    && (forall i :: 0 <= i < |es| && !es[i].request.Goodbye? ==> lo <= es[i].id < hi)
    && (forall i, j :: 0 <= i < j < |es| && !es[i].request.Goodbye? && !es[j].request.Goodbye? ==> es[i].id < es[j].id)
  }

  lemma NextIdStep(c: Config, step: Step)
    requires Can(c, step)
    ensures Next(c, step).s.nextId
         == c.s.nextId + if step.InjectInbound? && !step.request.Goodbye? then 1 else 0
  {
    hide Advance, RecordStream, RecordReply, RecordDial, Output, LaneStep;
    Frame(c.s, c.dials.inFlight, step);
  }

  /** No two injected requests share an id, and none is under an id that was there before. */
  lemma {:induction false} InjectedIds(c: Config, steps: seq<Step>)
    requires IsPath(c, steps)
    ensures c.s.nextId <= Reach(c, steps).s.nextId
    ensures Increasing(Injected(c, steps), c.s.nextId, Reach(c, steps).s.nextId)
    decreases |steps|
  {
    hide Next, Can;
    if steps != [] {
      NextIdStep(c, steps[0]);
      InjectedIds(Next(c, steps[0]), steps[1..]);
    }
  }

  // ---- responses to inbound requests --------------------------------------------------------

  /** What becomes of a response for a stream: an idle stream sends it at once, or closes on a termination; one that
      is sending queues it, unless it is a status, which only makes the stream close; a closing one drops it. */
  lemma ResponseTaken(c: Config, id: RequestId, r: RpcErrorResponse)
    requires id in c.s.inbound && !c.s.inbound[id].state.Poisoned?
    ensures Can(c, InjectEvent(Response(id, r)))
    ensures
      var d := Next(c, InjectEvent(Response(id, r)));
      var wire, wire' := Queue(c.streams.consumed, id), Queue(d.streams.consumed, id);
      var queue := Queue(c.s.queued, id);
      && id in d.s.inbound && d.s.inbound[id].delay == c.s.inbound[id].delay
      && match c.s.inbound[id].state
         case ResponseIdle =>
           && wire' == wire + [r]
           && LaneOf(d.s, id) == Lane(if r.StreamTermination? then Closing
                                      else ResponsePendingSend(r, !(r.Success? && r.response.BlockSync?)), queue)
         case ResponsePendingSend(sending, closing) =>
           && wire' == wire
           && LaneOf(d.s, id) == (if r.Success? && r.response.Status?
                                  then Lane(ResponsePendingSend(sending, true), queue)
                                  else Lane(ResponsePendingSend(sending, closing), queue + [r]))
         case Closing => wire' == wire && LaneOf(d.s, id) == Lane(Closing, queue)
         case Poisoned => true
  {
    hide Advance, RecordReply, RecordDial, Output;
    Frame(c.s, c.dials.inFlight, InjectEvent(Response(id, r)));
  }

  /** A response for a stream that is gone changes nothing. */
  lemma ResponseDropped(c: Config, id: RequestId, r: RpcErrorResponse)
    requires id !in c.s.inbound
    ensures Can(c, InjectEvent(Response(id, r))) && Next(c, InjectEvent(Response(id, r))) == c
  {
  }

  const PEER_TIMEOUT := ServerError("Request timed out")

  /** What the peer is told when the timer of its stream fires. */
  lemma TimeoutTold(c: Config, key: DelayKey, peerClosed: bool)
    requires Inv(c) && key in c.s.inboundDelay
    ensures
      var id, d := c.s.inboundDelay[key], Next(c, ExpireInbound(key, peerClosed));
      && id in c.s.inbound && id in d.s.inbound && d.s.inbound[id].delay == None
      && (var lane, wire := LaneOf(c.s, id), Queue(c.streams.consumed, id);
          var lane', wire' := LaneOf(d.s, id), Queue(d.streams.consumed, id);
          match lane.state
          case ResponseIdle =>
            if peerClosed then lane' == Lane(Closing, lane.queue) && wire' == wire
            else lane' == Lane(ResponsePendingSend(PEER_TIMEOUT, true), lane.queue) && wire' == wire + [PEER_TIMEOUT]
          case ResponsePendingSend(_, false) =>
            lane' == Lane(lane.state, lane.queue + [PEER_TIMEOUT, StreamTermination]) && wire' == wire
          case _ => lane' == lane && wire' == wire)
  {
    hide Advance, RecordReply, RecordDial, Output, IdsSpent, LanesOk, Ordered, DialsOk, RepliesOk;
    Frame(c.s, c.dials.inFlight, ExpireInbound(key, peerClosed));
  }

  // ---- dials that fail ----------------------------------------------------------------------

  predicate IoFailure(error: UpgradeError) {
    error.Apply? && error.error.IoError?
  }

  /** A dial that fails by an input or output error is queued again while fewer than two have failed so in a row; else
      the request is given up, and its error kept to be told unless another one still is. */
  lemma DialFails(c: Config, e: RpcEvent, error: UpgradeError)
    requires Inv(c) && Can(c, InjectDialError(e, error))
    ensures e.Request?
    ensures
      var s, t := c.s, Next(c, InjectDialError(e, error)).s;
      if IoFailure(error) && s.ioRetries < 2 then
        t == s.(dialQueue := s.dialQueue + [e], ioRetries := s.ioRetries + 1)
      else
        t == s.(ioRetries := 0, pendingError := if s.pendingError.None? then Some((e.id, error)) else s.pendingError)
  {
  }

  /** The number of input or output errors in a row, counted anew after the third. */
  function Streak(k: nat, steps: seq<Step>): (n: nat)
    decreases |steps|
  {
    if steps == [] then k
    else if !steps[0].InjectDialError? then Streak(k, steps[1..])
    else Streak(if IoFailure(steps[0].error) && k < 2 then k + 1 else 0, steps[1..])
  }

  lemma RetryStep(c: Config, step: Step)
    requires Can(c, step)
    ensures Next(c, step).s.ioRetries
         == if !step.InjectDialError? then c.s.ioRetries
            else if IoFailure(step.error) && c.s.ioRetries < 2 then c.s.ioRetries + 1 else 0
  {
    hide Advance, RecordStream, RecordReply, RecordDial, Output;
    FrameDial(c.s, c.dials.inFlight, step);
  }

  /** Over every path, the retry counter is the number of input or output errors in a row, so each is retried twice at
      most before a request is given up. */
  lemma {:induction false} RetriesAreStreak(c: Config, steps: seq<Step>)
    requires IsPath(c, steps)
    ensures Reach(c, steps).s.ioRetries == Streak(c.s.ioRetries, steps)
    decreases |steps|
  {
    hide Next, Can;
    if steps != [] {
      RetryStep(c, steps[0]);
      RetriesAreStreak(Next(c, steps[0]), steps[1..]);
    }
  }

  /** A pending error stays until it is told. */
  lemma PendingStep(c: Config, step: Step)
    requires Can(c, step) && c.s.pendingError.Some? && step != TakePendingError
    ensures Next(c, step).s.pendingError == c.s.pendingError
  {
    hide RecordStream, RecordReply, RecordDial, Output, ExpireIn, DriveIn, DriveOut, AcceptEvent;
    PendingUntouched(c.s, c.dials.inFlight, step);
  }

  lemma PendingUntouched(s: State, inFlight: multiset<RpcEvent>, step: Step)
    requires Enabled(s, inFlight, step)
    ensures step.ExpireInbound? ==> ExpireIn(s, step.key, step.peerClosed).pendingError == s.pendingError
    ensures step.DriveInbound? ==> DriveIn(s, step.id, step.send, step.close).pendingError == s.pendingError
    ensures step.DriveOutbound? ==> DriveOut(s, step.id, step.read, step.close).pendingError == s.pendingError
    ensures step.InjectEvent? ==> AcceptEvent(s, step.event).pendingError == s.pendingError
  {
    hide RespondLane, CloseLane, ApplyQueued, DropKey;
  }

  lemma {:induction false} PendingKept(c: Config, steps: seq<Step>)
    requires IsPath(c, steps) && c.s.pendingError.Some? && TakePendingError !in steps
    ensures Reach(c, steps).s.pendingError == c.s.pendingError
    decreases |steps|
  {
    hide Next, Can;
    if steps != [] {
      PendingStep(c, steps[0]);
      PendingKept(Next(c, steps[0]), steps[1..]);
    }
  }

  /** A request given up while no error is pending is told as an error under its own id: on every continuation, that is
      the next pending error taken. */
  lemma GivenUpIsTold(c: Config, e: RpcEvent, error: UpgradeError, steps: seq<Step>)
    requires Inv(c) && Can(c, InjectDialError(e, error)) && c.s.pendingError.None?
    requires !(IoFailure(error) && c.s.ioRetries < 2)
    requires IsPath(Next(c, InjectDialError(e, error)), steps) && TakePendingError !in steps
    ensures
      var d := Reach(Next(c, InjectDialError(e, error)), steps);
      && e.Request? && Can(d, TakePendingError)
      && Out(d, TakePendingError) == Some(Report(Error(e.id, Reported(error))))
  {
    hide Next, Inv, IsPath, Reach;
    DialFails(c, e, error);
    PendingKept(Next(c, InjectDialError(e, error)), steps);
  }

  /** One given up while another error is pending is never told: nothing of it is kept. */
  lemma GivenUpIsLost(c: Config, e: RpcEvent, error: UpgradeError)
    requires Inv(c) && Can(c, InjectDialError(e, error)) && c.s.pendingError.Some?
    requires !(IoFailure(error) && c.s.ioRetries < 2)
    ensures Next(c, InjectDialError(e, error)).s == c.s.(ioRetries := 0)
  {
    hide Next, Inv;
    DialFails(c, e, error);
  }
}
