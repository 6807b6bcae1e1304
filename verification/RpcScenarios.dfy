/** Runs of the handler from its start that show what the general results leave possible. */
module RpcScenarios {
  import opened RpcFrames
  import opened RpcHistory
  import opened RpcMachine
  import opened RpcMessages
  import opened RpcRuns
  import opened Wrappers

  lemma OutputsExtend(c: Config, steps: seq<Step>, step: Step)
    requires IsPath(c, steps) && Can(Reach(c, steps), step)
    ensures IsPath(c, steps + [step]) && Reach(c, steps + [step]) == Next(Reach(c, steps), step)
    ensures Outputs(c, steps + [step]) == Outputs(c, steps) + Emitted(Reach(c, steps), step)
  {
    hide Enabled, Advance, Emitted;
    var d := Reach(c, steps);
    assert [step][1..] == [];
    assert IsPath(Next(d, step), []) && IsPath(d, [step]);
    assert Outputs(Next(d, step), []) == [] && Emitted(d, step) + [] == Emitted(d, step);
    assert Outputs(d, [step]) == Emitted(d, step);
    PathConcat(c, steps, [step]);
    PathExtend(c, steps, step);
  }

  // ---- dials that fail ----------------------------------------------------------------------

  /** A request is submitted, dialled, and the negotiation times out. */
  function Round(e: RpcEvent): (steps: seq<Step>) {
    [InjectEvent(e), Dial, InjectDialError(e, Timeout)]
  }

  function Rounds(e: RpcEvent, n: nat): (steps: seq<Step>) {
    if n == 0 then [] else Rounds(e, n - 1) + Round(e)
  }

  /** No request waits or is being dialled, and `n` upgrades have failed. */
  ghost predicate Spent(c: Config, n: nat) {
    && c.s.dialQueue == [] && c.s.dialNegotiated == n
    && c.dials.inFlight == multiset{} && c.dials.upgradeErrors == n
  }

  lemma SubmitStep(c: Config, e: RpcEvent)
    requires e.Request?
    ensures
      var d := Next(c, InjectEvent(e));
      && d.s.dialQueue == c.s.dialQueue + [e] && d.s.dialNegotiated == c.s.dialNegotiated
      && d.dials.inFlight == c.dials.inFlight && d.dials.upgradeErrors == c.dials.upgradeErrors
  {
  }

  lemma DialStep(c: Config, e: RpcEvent)
    requires e.Request? && c.s.dialQueue == [e] && c.s.dialNegotiated < MAX_DIAL_NEGOTIATED
    requires c.dials.inFlight == multiset{}
    ensures Can(c, Dial) && Out(c, Dial) == Some(OutboundSubstreamRequest(e))
    ensures
      var d := Next(c, Dial);
      && d.s.dialQueue == [] && d.s.dialNegotiated == c.s.dialNegotiated + 1
      && d.dials.inFlight == multiset{e} && d.dials.upgradeErrors == c.dials.upgradeErrors
  {
  }

  lemma FailStep(c: Config, e: RpcEvent)
    requires c.s.dialQueue == [] && c.dials.inFlight == multiset{e}
    ensures Can(c, InjectDialError(e, Timeout))
    ensures
      var d := Next(c, InjectDialError(e, Timeout));
      && d.s.dialQueue == [] && d.s.dialNegotiated == c.s.dialNegotiated
      && d.dials.inFlight == multiset{} && d.dials.upgradeErrors == c.dials.upgradeErrors + 1
  {
  }

  /** Any number of failed rounds up to eight can be had from the start: the count then is the number of failures,
      with nothing being dialled. */
  lemma {:induction false} FailedRounds(e: RpcEvent, n: nat)
    requires e.Request? && n <= 8
    ensures IsPath(START, Rounds(e, n)) && Spent(Reach(START, Rounds(e, n)), n)
  {
    hide Next, Can;
    if n == 0 {
      EmptyPath(START);
    } else {
      FailedRounds(e, n - 1);
      var steps := Rounds(e, n - 1);
      var c := Reach(START, steps);
      var one, two := steps + [InjectEvent(e)], steps + [InjectEvent(e)] + [Dial];
      CanSubmit(c, e);
      PathExtend(START, steps, InjectEvent(e));
      SubmitStep(c, e);
      DialStep(Reach(START, one), e);
      PathExtend(START, one, Dial);
      FailStep(Reach(START, two), e);
      PathExtend(START, two, InjectDialError(e, Timeout));
      assert Rounds(e, n) == two + [InjectDialError(e, Timeout)];
    }
  }

  lemma CanSubmit(c: Config, e: RpcEvent)
    ensures Can(c, InjectEvent(e))
  {
  }

  /** Without a dial the queue only grows at its end. */
  lemma QueueStep(c: Config, step: Step)
    requires Can(c, step) && step != Dial
    ensures c.s.dialQueue <= Next(c, step).s.dialQueue
  {
    hide Advance, RecordStream, RecordReply, RecordDial, Output;
    FrameDial(c.s, c.dials.inFlight, step);
  }

  lemma {:induction false} QueueKept(c: Config, steps: seq<Step>)
    requires IsPath(c, steps) && Dial !in steps
    ensures c.s.dialQueue <= Reach(c, steps).s.dialQueue
    decreases |steps|
  {
    hide Next, Can;
    if steps != [] {
      QueueStep(c, steps[0]);
      QueueKept(Next(c, steps[0]), steps[1..]);
    }
  }

  /** After eight failed rounds a further request is never dialled: on every continuation it stays first in line. */
  lemma EightFailuresStarve(e: RpcEvent, steps: seq<Step>)
    requires e.Request?
    ensures
      var run := Rounds(e, 8) + [InjectEvent(e)];
      && IsPath(START, run)
      && (IsPath(Reach(START, run), steps) ==>
            && Dial !in steps
            && [e] <= Reach(Reach(START, run), steps).s.dialQueue)
  {
    hide Next, Can, Inv, IsPath, Reach, Rounds;
    var rounds := Rounds(e, 8);
    FailedRounds(e, 8);
    var c := Reach(START, rounds);
    CanSubmit(c, e);
    PathExtend(START, rounds, InjectEvent(e));
    SubmitStep(c, e);
    var d := Reach(START, rounds + [InjectEvent(e)]);
    if IsPath(d, steps) {
      RunInv(rounds + [InjectEvent(e)]);
      DialsStarve(d, steps);
      QueueKept(d, steps);
    }
  }

  // ---- a queue left behind ------------------------------------------------------------------

  /** The send fails while an error and a chunk are waiting. */
  const ORPHAN_RUN := QUEUED_ERROR_RUN[..4] + [DriveInbound(1, SendFailed(IoError), CloseNotReady)]

  /** From the start: the failed send drops the stream, and on every continuation the two responses stay queued. */
  lemma QueueOutlivesStream(steps: seq<Step>)
    ensures IsPath(START, ORPHAN_RUN)
    ensures IsPath(Reach(START, ORPHAN_RUN), steps) ==>
      var s := Reach(Reach(START, ORPHAN_RUN), steps).s;
      1 !in s.inbound && Queue(s.queued, 1) == [FAULT, CHUNK]
  {
    hide Next, Can, IsPath, Reach, Inv;
    var run := QUEUED_ERROR_RUN[..4];
    var drop := DriveInbound(1, SendFailed(IoError), CloseNotReady);
    QueuedErrorSetup();
    var c := Reach(START, run);
    RunInv(run);
    FailedSendStep(c, 1, drop);
    PathExtend(START, run, drop);
    var d := Reach(START, ORPHAN_RUN);
    if IsPath(d, steps) { OrphanForever(d, steps, 1); }
  }

  lemma FailedSendStep(c: Config, id: RequestId, step: Step)
    requires Inv(c) && id in c.s.inbound && c.s.inbound[id].state.ResponsePendingSend? && id in c.s.queued
    requires step.DriveInbound? && step.id == id && step.send.SendFailed?
    ensures Can(c, step) && Orphaned(Next(c, step).s, id) && Next(c, step).s.queued[id] == c.s.queued[id]
  {
  }

  // ---- a timeout after the answer -----------------------------------------------------------

  const LATE := Custom("Stream timed out")

  /** A request is negotiated, answered with an error, and its closing stream times out. */
  function LateRun(e: RpcEvent, r: RpcErrorResponse): (steps: seq<Step>)
    requires e.Request?
  {
    [InjectEvent(e)] + [Dial] + [InjectOutbound(e, 0)] + [DriveOutbound(e.id, Item(r), CloseNotReady)] + [ExpireOutbound(0)]
  }

  lemma NegotiateStep(c: Config, e: RpcEvent)
    requires e.Request? && e.request.ExpectResponse() && e in c.dials.inFlight && c.s.outboundDelay == map[]
    ensures Can(c, InjectOutbound(e, 0)) && Out(c, InjectOutbound(e, 0)) == None
    ensures
      var d := Next(c, InjectOutbound(e, 0));
      && e.id in d.s.outbound && d.s.outbound[e.id] == Outbound(RequestPendingResponse(e.request), 0)
      && d.s.outboundDelay == map[0 := e.id]
  {
  }

  lemma AnswerStep(c: Config, id: RequestId, r: RpcErrorResponse)
    requires id in c.s.outbound && c.s.outbound[id].state.RequestPendingResponse? && r.IsError()
    ensures
      var step := DriveOutbound(id, Item(r), CloseNotReady);
      && Can(c, step) && Out(c, step) == Some(Report(Response(id, r)))
      && Next(c, step).s.outboundDelay == c.s.outboundDelay
      && id in Next(c, step).s.outbound && Next(c, step).s.outbound[id].state.OutboundClosing?
  {
  }

  lemma LateStep(c: Config, id: RequestId)
    requires c.s.outboundDelay == map[0 := id]
    ensures Can(c, ExpireOutbound(0)) && Out(c, ExpireOutbound(0)) == Some(Report(Error(id, LATE)))
  {
  }

  /** Up to the negotiation: the dial is the only thing handed out. */
  lemma NegotiatedRun(e: RpcEvent)
    requires e.Request? && e.request.ExpectResponse()
    ensures
      var steps := [InjectEvent(e)] + [Dial] + [InjectOutbound(e, 0)];
      && IsPath(START, steps) && Outputs(START, steps) == [OutboundSubstreamRequest(e)]
      && (var d := Reach(START, steps);
          && e.id in d.s.outbound && d.s.outbound[e.id].state.RequestPendingResponse?
          && d.s.outboundDelay == map[0 := e.id])
  {
    hide Next, Can, Out;
    EmptyPath(START);
    assert Outputs(START, []) == [] && [] + [InjectEvent(e)] == [InjectEvent(e)];
    CanSubmit(START, e);
    OutputsExtend(START, [], InjectEvent(e));
    SubmitStep(START, e);
    SubmitSilent(START, e);
    var one := [InjectEvent(e)];
    DialStep(Reach(START, one), e);
    OutputsExtend(START, one, Dial);
    DialKeeps(Reach(START, one));
    NegotiateStep(Reach(START, one + [Dial]), e);
    OutputsExtend(START, one + [Dial], InjectOutbound(e, 0));
  }

  lemma SubmitSilent(c: Config, e: RpcEvent)
    ensures Out(c, InjectEvent(e)) == None && Next(c, InjectEvent(e)).s.outboundDelay == c.s.outboundDelay
  {
  }

  lemma DialKeeps(c: Config)
    requires Can(c, Dial)
    ensures Next(c, Dial).s.outboundDelay == c.s.outboundDelay
  {
  }

  /** For every request that expects a response and every error response to it there is a run that hands out the
      response and after it a timeout error for the same request. */
  lemma ErrorThenTimeout(e: RpcEvent, r: RpcErrorResponse)
    requires e.Request? && e.request.ExpectResponse() && r.IsError()
    ensures IsPath(START, LateRun(e, r))
    ensures Outputs(START, LateRun(e, r))
         == [OutboundSubstreamRequest(e), Report(Response(e.id, r)), Report(Error(e.id, LATE))]
  {
    hide Next, Can, Out;
    var steps := [InjectEvent(e)] + [Dial] + [InjectOutbound(e, 0)];
    var answer := DriveOutbound(e.id, Item(r), CloseNotReady);
    NegotiatedRun(e);
    AnswerStep(Reach(START, steps), e.id, r);
    OutputsExtend(START, steps, answer);
    LateStep(Reach(START, steps + [answer]), e.id);
    OutputsExtend(START, steps + [answer], ExpireOutbound(0));
  }
}
