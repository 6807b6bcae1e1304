/** What holds over every run of the handler. */
module RpcRuns {
  import opened RpcFrames
  import opened RpcHistory
  import opened RpcInvariants
  import opened RpcMachine
  import opened RpcMessages
  import opened Seqs
  import opened Wrappers

  ghost predicate Inv(c: Config) {
    && NoPoison(c.s) && TimersLinked(c.s) && IdsSpent(c) && LanesOk(c.s)
    && Ordered(c) && DialsOk(c) && RepliesOk(c)
  }

  lemma KeepsInv(c: Config, step: Step)
    requires Can(c, step) && Inv(c)
    ensures Inv(Next(c, step))
  {
    hide Advance, Output, RecordStream, RecordReply, RecordDial;
    hide NoPoison, OutboundTimers, LanesOk, Ordered, DialsOk, RepliesOk, InboundTimers;
    KeepsNoPoison(c.s, c.dials.inFlight, step);
    KeepsInboundTimers(c.s, c.dials.inFlight, step);
    KeepsOutboundTimers(c.s, c.dials.inFlight, step);
    KeepsIdsSpent(c, step);
    KeepsLanes(c, step);
    KeepsOrdered(c, step);
    KeepsDials(c, step);
    KeepsReplies(c, step);
  }

  lemma {:induction false} PathKeepsInv(c: Config, steps: seq<Step>)
    requires Inv(c) && IsPath(c, steps)
    ensures Inv(Reach(c, steps))
    decreases |steps|
  {
    hide Inv, Next, Can;
    if steps != [] {
      KeepsInv(c, steps[0]);
      PathKeepsInv(Next(c, steps[0]), steps[1..]);
    }
  }

  lemma StartInv()
    ensures Inv(START)
  {
  }

  /** Every reachable configuration satisfies the whole invariant. */
  lemma RunInv(steps: seq<Step>)
    requires IsPath(START, steps)
    ensures Inv(Reach(START, steps))
  {
    hide Inv;
    StartInv();
    PathKeepsInv(START, steps);
  }

  // ---- inbound responses --------------------------------------------------------------------

  /** On every run, the wire of a stream saw a prefix of what the stream took on, in order; while the stream
      lives, the rest is exactly what is queued; and nothing follows a termination. */
  lemma ResponseOrder(steps: seq<Step>, id: RequestId)
    requires IsPath(START, steps)
    ensures
      var c := Reach(START, steps);
      var accepted, consumed := Queue(c.streams.accepted, id), Queue(c.streams.consumed, id);
      && consumed <= accepted
      && TerminationLast(consumed)
      && (id in c.s.inbound ==> accepted == consumed + Queue(c.s.queued, id))
      && (id in c.s.inbound && c.s.inbound[id].state.ResponseIdle? ==> consumed == accepted)
  {
    hide IsPath, Reach;
    RunInv(steps);
  }

  /** The stream will put nothing more on the wire: it is gone, closing, or closes after the current send. */
  predicate Sealed(s: State, id: RequestId) {
    && id < s.nextId
    && (id in s.inbound ==> SealedState(s.inbound[id].state))
  }

  predicate SealedState(state: InboundState) {
    state.Closing? || (state.ResponsePendingSend? && state.closing)
  }

  lemma SealedLane(lane: Lane, step: Step)
    requires SealedState(lane.state)
    ensures Consumes(lane, step) == []
    ensures LaneStep(lane, step).Some? ==> SealedState(LaneStep(lane, step).value.state)
  {
  }

  lemma SealedStep(c: Config, step: Step, id: RequestId)
    requires Can(c, step) && Inv(c) && Sealed(c.s, id)
    ensures Sealed(Next(c, step).s, id)
    ensures Queue(Next(c, step).streams.consumed, id) == Queue(c.streams.consumed, id)
  {
    hide Advance, RecordReply, RecordDial, Output, LaneStep, Consumes, Accepts, Inv;
    Frame(c.s, c.dials.inFlight, step);
    if Touched(c.s, step) == Some(id) {
      SealedLane(LaneOf(c.s, id), step);
    }
  }

  /** Nothing is sent on a sealed stream, however the run goes on. */
  lemma {:induction false} SealedForever(c: Config, steps: seq<Step>, id: RequestId)
    requires Inv(c) && Sealed(c.s, id) && IsPath(c, steps)
    ensures Sealed(Reach(c, steps).s, id)
    ensures Queue(Reach(c, steps).streams.consumed, id) == Queue(c.streams.consumed, id)
    decreases |steps|
  {
    hide Inv, Next, Can, Sealed;
    if steps != [] {
      SealedStep(c, steps[0], id);
      KeepsInv(c, steps[0]);
      SealedForever(Next(c, steps[0]), steps[1..], id);
    }
  }

  /** Putting a response on the wire seals the stream exactly when it is a termination, or an error or single
      response that went out directly. A queued error does not: the source sends it without closing. */
  lemma WireSeals(c: Config, step: Step, id: RequestId, r: RpcErrorResponse)
    requires Can(c, step) && Inv(c) && Touched(c.s, step) == Some(id)
    requires Consumes(LaneOf(c.s, id), step) == [r]
    ensures Queue(Next(c, step).streams.consumed, id) == Queue(c.streams.consumed, id) + [r]
    ensures Sealed(Next(c, step).s, id)
        <==> r.StreamTermination? || (!step.DriveInbound? && (r.IsError() || !r.MultipleResponses()))
  {
    hide Advance, RecordReply, RecordDial, Output;
    Frame(c.s, c.dials.inFlight, step);
    var t := Advance(c.s, c.dials.inFlight, step);
    assert LaneOf(c.s, id).queue != [] ==> !LaneOf(c.s, id).state.ResponseIdle?;
    assert id in t.inbound && t.inbound[id].state == LaneOf(t, id).state;
  }

  /** What a step does to the stream it touches, and to the wire of that stream. */
  lemma TouchedNext(c: Config, step: Step, id: RequestId)
    requires Can(c, step) && Touched(c.s, step) == Some(id)
    ensures
      var d, lane := Next(c, step), LaneStep(LaneOf(c.s, id), step);
      && (id in d.s.inbound <==> lane.Some?)
      && (lane.Some? ==> LaneOf(d.s, id) == lane.value)
      && Queue(d.streams.consumed, id) == Queue(c.streams.consumed, id) + Consumes(LaneOf(c.s, id), step)
  {
    hide Advance, LaneStep, Consumes, Accepts, RecordReply, RecordDial, Output;
    Frame(c.s, c.dials.inFlight, step);
  }

  lemma PathTo(run: seq<Step>, n: nat)
    requires n < |run| && IsPath(START, run[..n]) && Can(Reach(START, run[..n]), run[n])
    ensures IsPath(START, run[..n + 1])
    ensures Reach(START, run[..n + 1]) == Next(Reach(START, run[..n]), run[n])
  {
    hide Next, Can;
    assert run[..n + 1] == run[..n] + [run[n]];
    PathExtend(START, run[..n], run[n]);
  }

  lemma EmptyPath(c: Config)
    ensures IsPath(c, []) && Reach(c, []) == c
  {
  }

  lemma FirstStream()
    ensures
      var d := Next(START, InjectInbound(BlockSyncRequest([]), 0));
      && 1 in d.s.inbound && LaneOf(d.s, 1) == Lane(ResponseIdle, [])
      && Queue(d.streams.consumed, 1) == []
  {
  }

  const CHUNK := Success(BlockSync([]))
  const FAULT := ServerError("fault")

  /** A request, a chunk, an error and a chunk again, each completed send taking the next one out. */
  const QUEUED_ERROR_RUN := [
    InjectInbound(BlockSyncRequest([]), 0), InjectEvent(Response(1, CHUNK)), InjectEvent(Response(1, FAULT)),
    InjectEvent(Response(1, CHUNK)), DriveInbound(1, Sent, CloseNotReady), DriveInbound(1, Sent, CloseNotReady)]

  /** Halfway: one chunk is being sent, the error and the other chunk are queued. */
  lemma QueuedErrorSetup()
    ensures IsPath(START, QUEUED_ERROR_RUN[..4])
    ensures
      var c := Reach(START, QUEUED_ERROR_RUN[..4]);
      && 1 in c.s.inbound && LaneOf(c.s, 1) == Lane(ResponsePendingSend(CHUNK, false), [FAULT, CHUNK])
      && Queue(c.streams.consumed, 1) == [CHUNK]
  {
    hide Next, Reach, IsPath;
    var run := QUEUED_ERROR_RUN;
    EmptyPath(START);
    FirstStream();
    assert run[..0] == [];
    PathTo(run, 0);
    TouchedNext(Reach(START, run[..1]), run[1], 1);
    PathTo(run, 1);
    TouchedNext(Reach(START, run[..2]), run[2], 1);
    PathTo(run, 2);
    TouchedNext(Reach(START, run[..3]), run[3], 1);
    PathTo(run, 3);
  }

  /** So "an error ends the stream" fails on this run: the error is queued behind a chunk, and a chunk follows it. */
  lemma QueuedErrorNotLast()
    ensures IsPath(START, QUEUED_ERROR_RUN)
    ensures Queue(Reach(START, QUEUED_ERROR_RUN).streams.consumed, 1) == [CHUNK, FAULT, CHUNK]
  {
    hide Next, Reach, IsPath;
    var run := QUEUED_ERROR_RUN;
    QueuedErrorSetup();
    TouchedNext(Reach(START, run[..4]), run[4], 1);
    PathTo(run, 4);
    TouchedNext(Reach(START, run[..5]), run[5], 1);
    PathTo(run, 5);
    assert run[..6] == run;
  }

  /** A stream that is dropped leaves its queue behind exactly when a failed send drops it and it has one. */
  lemma QueueLeftIff(c: Config, step: Step, id: RequestId)
    requires Can(c, step) && id in c.s.inbound && id !in Next(c, step).s.inbound
    ensures id in Next(c, step).s.queued <==>
      step.DriveInbound? && c.s.inbound[id].state.ResponsePendingSend? && id in c.s.queued
    ensures id in Next(c, step).s.queued ==> Next(c, step).s.queued[id] == c.s.queued[id]
  {
    hide RecordStream, RecordReply, RecordDial, Output, RespondLane, CloseLane, ApplyQueued, DropKey, LaneStep;
    DroppedByDrive(c, step, id);
  }

  /** Only driving a stream drops it. */
  lemma DroppedByDrive(c: Config, step: Step, id: RequestId)
    requires Can(c, step) && id in c.s.inbound && id !in Next(c, step).s.inbound
    ensures step.DriveInbound? && step.id == id
  {
    hide Advance, RecordStream, RecordReply, RecordDial, Output, RespondLane, CloseLane, DriveLane;
    Frame(c.s, c.dials.inFlight, step);
  }

  predicate Orphaned(s: State, id: RequestId) {
    id < s.nextId && id !in s.inbound && id in s.queued
  }

  lemma OrphanStep(c: Config, step: Step, id: RequestId)
    requires Can(c, step) && Orphaned(c.s, id)
    ensures Orphaned(Next(c, step).s, id) && Next(c, step).s.queued[id] == c.s.queued[id]
  {
    hide Advance, RecordStream, RecordReply, RecordDial, Output, LaneStep;
    Frame(c.s, c.dials.inFlight, step);
  }

  /** A queue without its stream stays as it is for good: nothing in it is sent, and nothing removes it. */
  lemma {:induction false} OrphanForever(c: Config, steps: seq<Step>, id: RequestId)
    requires IsPath(c, steps) && Orphaned(c.s, id)
    ensures Orphaned(Reach(c, steps).s, id) && Reach(c, steps).s.queued[id] == c.s.queued[id]
    decreases |steps|
  {
    hide Next, Can;
    if steps != [] {
      OrphanStep(c, steps[0], id);
      OrphanForever(Next(c, steps[0]), steps[1..], id);
    }
  }

  /** Once its timer has fired, a stream never returns to idle: it is gone, or closing, or bound to close. */
  lemma {:induction false} DoomedForever(c: Config, steps: seq<Step>, id: RequestId)
    requires Inv(c) && IsPath(c, steps)
    requires id < c.s.nextId && (id in c.s.inbound ==> c.s.inbound[id].delay.None?)
    ensures
      var t := Reach(c, steps).s;
      id < t.nextId && (id in t.inbound ==> t.inbound[id].delay.None? && Doomed(LaneOf(t, id)))
    decreases |steps|
  {
    hide Next, Can, Ordered, DialsOk, RepliesOk;
    if steps != [] {
      UntimedStep(c, steps[0], id);
      KeepsInv(c, steps[0]);
      DoomedForever(Next(c, steps[0]), steps[1..], id);
    }
  }

  /** A stream without a timer never gets one again. */
  lemma UntimedStep(c: Config, step: Step, id: RequestId)
    requires Can(c, step) && id < c.s.nextId && (id in c.s.inbound ==> c.s.inbound[id].delay.None?)
    ensures
      var t := Next(c, step).s;
      id < t.nextId && (id in t.inbound ==> t.inbound[id].delay.None?)
  {
    hide Advance, RecordStream, RecordReply, RecordDial, Output, LaneStep;
    Frame(c.s, c.dials.inFlight, step);
  }

  // ---- well-formedness ----------------------------------------------------------------------

  /** On every run no stored stream is poisoned, inbound timers match inbound streams one to one, and an outbound
      stream's timer is live, so neither the unreachable arms nor a dead timer key is ever hit. */
  lemma HandlerWellFormed(steps: seq<Step>)
    requires IsPath(START, steps)
    ensures NoPoison(Reach(START, steps).s)
    ensures InboundTimers(Reach(START, steps).s) && OutboundTimers(Reach(START, steps).s)
  {
    hide IsPath, Reach;
    RunInv(steps);
  }

  // ---- dials --------------------------------------------------------------------------------

  /** On every run: the dial count is the open dials plus the failed upgrades so far, within its limit; submitted
      requests are exactly the queued, open, negotiated and given-up ones; and an answered dial is counted. */
  lemma DialAccounting(steps: seq<Step>)
    requires IsPath(START, steps)
    ensures
      var c := Reach(START, steps);
      && c.s.dialNegotiated == |c.dials.inFlight| + c.dials.upgradeErrors
      && 0 <= c.s.dialNegotiated <= 8
      && c.dials.submitted
         == multiset(c.s.dialQueue) + c.dials.inFlight + c.dials.negotiated + c.dials.givenUp
      && (forall e :: e in c.dials.inFlight ==> c.s.dialNegotiated > 0)
      && c.s.ioRetries < IO_ERROR_RETRIES
  {
    hide IsPath, Reach;
    RunInv(steps);
  }

  /** So the count is the number of dials being opened exactly as long as no upgrade has failed. */
  lemma DialCountExact(steps: seq<Step>)
    requires IsPath(START, steps)
    ensures
      var c := Reach(START, steps);
      c.s.dialNegotiated == |c.dials.inFlight| <==> c.dials.upgradeErrors == 0
  {
    hide IsPath, Reach, Inv;
    DialAccounting(steps);
  }

  lemma ErrorsCount(c: Config, step: Step)
    requires Can(c, step)
    ensures Next(c, step).dials.upgradeErrors >= c.dials.upgradeErrors
    ensures step.Dial? ==> c.s.dialNegotiated < MAX_DIAL_NEGOTIATED
  {
  }

  /** After eight failed upgrades nothing is ever dialled again. */
  lemma {:induction false} DialsStarve(c: Config, steps: seq<Step>)
    requires Inv(c) && IsPath(c, steps) && c.dials.upgradeErrors >= 8
    ensures Dial !in steps
    ensures !Can(Reach(c, steps), Dial)
    decreases |steps|
  {
    hide NoPoison, TimersLinked, IdsSpent, LanesOk, Ordered, RepliesOk, Next;
    if steps != [] {
      ErrorsCount(c, steps[0]);
      KeepsInv(c, steps[0]);
      DialsStarve(Next(c, steps[0]), steps[1..]);
      assert steps == [steps[0]] + steps[1..];
    }
  }

  // ---- outbound responses -------------------------------------------------------------------

  /** On every run, since its last negotiation a request has been answered with errors only at the end, and at
      most once if it asks for a single response. */
  lemma RepliesWellFormed(steps: seq<Step>, id: RequestId)
    requires IsPath(START, steps)
    ensures
      var log := Reach(START, steps).replies;
      id in log.heard ==> id in log.asked && HeardOk(log.asked[id], log.heard[id])
  {
    hide IsPath, Reach;
    RunInv(steps);
  }

  /** The request has had its last answer. */
  predicate Answered(c: Config, id: RequestId) {
    && id in c.replies.heard && id in c.replies.asked && c.replies.heard[id] != []
    && (var rs := c.replies.heard[id];
        rs[|rs| - 1].IsError() || !c.replies.asked[id].MultipleResponses())
  }

  predicate Renegotiates(step: Step, id: RequestId) {
    step.InjectOutbound? && step.info.Request? && step.info.id == id
  }

  /** An answered request is not awaited any more. */
  lemma NotAwaited(c: Config, id: RequestId)
    requires Inv(c) && Answered(c, id)
    ensures id in c.s.outbound ==> !c.s.outbound[id].state.RequestPendingResponse?
  {
    var rs := c.replies.heard[id];
    assert rs[|rs| - 1] in rs;
  }

  predicate Responds(output: Option<HandlerEvent>, id: RequestId) {
    output.Some? && output.value.Report? && output.value.event.Response? && output.value.event.id == id
  }

  /** No step reports a response for an answered request. */
  lemma AnsweredSilent(c: Config, step: Step, id: RequestId)
    requires Can(c, step) && Inv(c) && Answered(c, id)
    ensures !Responds(Out(c, step), id)
  {
    hide Output, Inv, Answered;
    OutputFrame(c.s, c.dials.inFlight, step);
    match step
    case DriveOutbound(_, _, _) => NotAwaited(c, id);
    case TakeEvent =>
      OnlyRequestsQueued(c);
      assert c.s.eventsOut[0] in c.s.eventsOut;
    case _ =>
  }

  lemma OnlyRequestsQueued(c: Config)
    requires Inv(c)
    ensures forall e :: e in c.s.eventsOut ==> e.Request?
  {
  }

  lemma AnsweredStep(c: Config, step: Step, id: RequestId)
    requires Can(c, step) && Inv(c) && Answered(c, id) && !Renegotiates(step, id)
    ensures Answered(Next(c, step), id)
    ensures Next(c, step).replies.heard[id] == c.replies.heard[id]
  {
    hide Advance, RecordStream, RecordDial, Output, Inv;
    AnsweredSilent(c, step, id);
  }

  /** After an error, or after the one response it asked for, a request is never reported another response,
      until its id is negotiated anew. */
  lemma {:induction false} AnsweredForever(c: Config, steps: seq<Step>, id: RequestId)
    requires Inv(c) && IsPath(c, steps) && Answered(c, id)
    requires forall i :: 0 <= i < |steps| ==> !Renegotiates(steps[i], id)
    ensures id in Reach(c, steps).replies.heard && Reach(c, steps).replies.heard[id] == c.replies.heard[id]
    decreases |steps|
  {
    hide Inv, Next, Can, Answered;
    if steps == [] {
      AnsweredHeard(c, id);
    } else {
      AnsweredHeard(c, id);
      AnsweredStep(c, steps[0], id);
      KeepsInv(c, steps[0]);
      AnsweredForever(Next(c, steps[0]), steps[1..], id);
    }
  }

  lemma AnsweredHeard(c: Config, id: RequestId)
    requires Answered(c, id)
    ensures id in c.replies.heard
  {
  }

  /** A stream whose request is answered is closing; it can yet time out, and then an error is reported for it, but
      no response. */
  lemma TimeoutAfterAnswer(c: Config, id: RequestId)
    requires Inv(c) && Answered(c, id) && id in c.s.outbound
    ensures c.s.outbound[id].state.OutboundClosing?
    ensures
      var step := ExpireOutbound(c.s.outbound[id].delay);
      && Can(c, step)
      && Out(c, step) == Some(Report(Error(id, Custom("Stream timed out"))))
      && id !in Next(c, step).s.outbound
      && Answered(Next(c, step), id)
  {
    NotAwaited(c, id);
  }

  /** The responses for `id` among the events handed out. */
  function ResponsesFor(es: seq<HandlerEvent>, id: RequestId): (rs: seq<RpcErrorResponse>) {
    if es == [] then []
    else
      (if es[0].Report? && es[0].event.Response? && es[0].event.id == id then [es[0].event.response] else [])
      + ResponsesFor(es[1..], id)
  }

  /** What is recorded as heard is what was handed out. */
  lemma {:induction false} HeardIsOutput(c: Config, steps: seq<Step>, id: RequestId)
    requires Inv(c) && IsPath(c, steps) && id in c.replies.heard
    requires forall i :: 0 <= i < |steps| ==> !Renegotiates(steps[i], id)
    ensures id in Reach(c, steps).replies.heard
    ensures Reach(c, steps).replies.heard[id] == c.replies.heard[id] + ResponsesFor(Outputs(c, steps), id)
    ensures id in c.replies.asked && id in Reach(c, steps).replies.asked
    ensures Reach(c, steps).replies.asked[id] == c.replies.asked[id]
    decreases |steps|
  {
    hide Inv, Next, Can, Emitted, ResponsesFor;
    HeardAsked(c, id);
    if steps == [] {
      NoResponses(id);
    } else {
      var d := Next(c, steps[0]);
      HeardStepOutput(c, steps[0], id);
      KeepsInv(c, steps[0]);
      HeardIsOutput(d, steps[1..], id);
      var head, tail := Emitted(c, steps[0]), Outputs(d, steps[1..]);
      ResponsesForHead(head, tail, id);
      ConcatAssoc(c.replies.heard[id], ResponsesFor(head, id), ResponsesFor(tail, id));
    }
  }

  lemma NoResponses(id: RequestId)
    ensures ResponsesFor([], id) == []
  {
  }

  lemma HeardAsked(c: Config, id: RequestId)
    requires Inv(c) && id in c.replies.heard
    ensures id in c.replies.asked
  {
  }

  lemma HeardStepOutput(c: Config, step: Step, id: RequestId)
    requires Can(c, step) && id in c.replies.heard && !Renegotiates(step, id)
    ensures
      var d := Next(c, step);
      && id in d.replies.heard && d.replies.heard[id] == c.replies.heard[id] + ResponsesFor(Emitted(c, step), id)
      && (id in c.replies.asked ==> id in d.replies.asked && d.replies.asked[id] == c.replies.asked[id])
  {
    hide Advance, Output, RecordStream, RecordDial, ResponsesFor;
    OutputFrame(c.s, c.dials.inFlight, step);
    ResponsesForOne(Emitted(c, step), id);
  }

  lemma ResponsesForOne(es: seq<HandlerEvent>, id: RequestId)
    requires |es| <= 1
    ensures ResponsesFor(es, id)
         == if es != [] && es[0].Report? && es[0].event.Response? && es[0].event.id == id
            then [es[0].event.response] else []
  {
    assert es != [] ==> es[1..] == [];
  }

  lemma ResponsesForHead(head: seq<HandlerEvent>, tail: seq<HandlerEvent>, id: RequestId)
    requires |head| <= 1
    ensures ResponsesFor(head + tail, id) == ResponsesFor(head, id) + ResponsesFor(tail, id)
  {
    if head == [] {
      assert head + tail == tail;
    } else {
      assert (head + tail)[1..] == tail && head[1..] == [];
    }
  }

  /** The responses handed out for a request, from its negotiation up to the next one under its id: errors only
      at the end, and at most one if it asks for a single response. */
  lemma EpisodeReplies(c: Config, id: RequestId, request: RpcRequest, key: DelayKey, steps: seq<Step>)
    requires Inv(c) && request.ExpectResponse()
    requires Can(c, InjectOutbound(Request(id, request), key))
    requires IsPath(Next(c, InjectOutbound(Request(id, request), key)), steps)
    requires forall i :: 0 <= i < |steps| ==> !Renegotiates(steps[i], id)
    ensures HeardOk(request, ResponsesFor(Outputs(Next(c, InjectOutbound(Request(id, request), key)), steps), id))
  {
    hide IsPath, Reach, Outputs, HeardOk;
    var step := InjectOutbound(Request(id, request), key);
    var d := Next(c, step);
    KeepsInv(c, step);
    HeardIsOutput(d, steps, id);
    PathKeepsInv(d, steps);
    assert [] + ResponsesFor(Outputs(d, steps), id) == ResponsesFor(Outputs(d, steps), id);
  }
}
