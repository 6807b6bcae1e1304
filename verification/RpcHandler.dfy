/** The RPC substream handler: the object with its maps, queues and counters. Every method is a path of the
    state machine, and `poll` hands out exactly the event of the path it takes. */
module RpcHandlerClass {
  import opened RpcHistory
  import opened RpcMachine
  import opened RpcMessages
  import opened RpcRuns
  import opened RpcInvariants
  import opened Seqs
  import opened Wrappers

  datatype PollResult = NotReady | Ready(event: HandlerEvent) | TimerError

  /** A path that was walked: from where, by which steps, to where, handing out what. */
  ghost predicate Walked(from: Config, steps: seq<Step>, to: Config, events: seq<HandlerEvent>) {
    IsPath(from, steps) && Reach(from, steps) == to && Outputs(from, steps) == events
  }

  lemma WalkNone(c: Config)
    ensures Walked(c, [], c, [])
  {
  }

  lemma WalkOne(c: Config, step: Step)
    requires Can(c, step)
    ensures Walked(c, [step], Next(c, step), Emitted(c, step))
  {
    hide Enabled, Advance, Emitted;
    var one, to := [step], Next(c, step);
    assert one[0] == step && one[1..] == [];
    assert IsPath(to, []) && Reach(to, []) == to && Outputs(to, []) == [];
    assert Emitted(c, step) + [] == Emitted(c, step);
  }

  /** A walk that handed out nothing can be continued. */
  lemma WalkOn(a: Config, s: seq<Step>, b: Config, t: seq<Step>, c: Config, events: seq<HandlerEvent>)
    requires Walked(a, s, b, []) && Walked(b, t, c, events)
    ensures Walked(a, s + t, c, events)
  {
    hide Can, Next, Emitted, IsPath, Reach, Outputs;
    PathConcat(a, s, t);
    assert [] + events == events;
  }

  // ---- the shape of a poll ------------------------------------------------------------------

  /** The place of a step within the body of `poll`. */
  function Phase(step: Step): (n: nat) {
    match step
    case ExpireInbound(_, _) => 0
    case ExpireOutbound(_) => 1
    case DriveInbound(_, _, _) => 2
    case DriveOutbound(_, _, _) => 3
    case Dial => 4
    case _ => 5
  }

  /** The steps belong to the phases from `lo` to `hi`, in their order. */
  ghost predicate Within(steps: seq<Step>, lo: nat, hi: nat) {
    && (forall i :: 0 <= i < |steps| ==> lo <= Phase(steps[i]) <= hi)
    && (forall i, j :: 0 <= i < j < |steps| ==> Phase(steps[i]) <= Phase(steps[j]))
  }

  lemma WithinConcat(a: seq<Step>, b: seq<Step>, lo: nat, mid: nat, hi: nat)
    requires Within(a, lo, mid) && Within(b, mid, hi) && lo <= mid <= hi
    ensures Within(a + b, lo, hi)
  {
  }

  ghost predicate DrivesInbound(steps: seq<Step>, id: RequestId) {
    exists step :: step in steps && step.DriveInbound? && step.id == id
  }

  ghost predicate DrivesOutbound(steps: seq<Step>, id: RequestId) {
    exists step :: step in steps && step.DriveOutbound? && step.id == id
  }

  predicate CanDial(s: State) {
    s.dialQueue != [] && s.dialNegotiated < MAX_DIAL_NEGOTIATED
  }

  /** Every outbound stream is polled, and a dial made if there is one to make. */
  ghost predicate OutboundRound(s: State, steps: seq<Step>) {
    && (forall id :: id in s.outbound ==> DrivesOutbound(steps, id))
    && (CanDial(s) ==> Dial in steps)
  }

  /** Every stream is polled, and a dial made if there is one to make. */
  ghost predicate FullRound(s: State, steps: seq<Step>) {
    (forall id :: id in s.inbound ==> DrivesInbound(steps, id)) && OutboundRound(s, steps)
  }

  lemma RoundConcat(s: State, a: seq<Step>, b: seq<Step>)
    ensures OutboundRound(s, b) ==> OutboundRound(s, a + b)
    ensures FullRound(s, b) ==> FullRound(s, a + b)
    ensures (forall id :: id in s.inbound ==> DrivesInbound(a, id)) && OutboundRound(s, b) ==> FullRound(s, a + b)
  {
    forall id
      ensures DrivesInbound(a, id) || DrivesInbound(b, id) ==> DrivesInbound(a + b, id)
      ensures DrivesOutbound(b, id) ==> DrivesOutbound(a + b, id)
    {
      if DrivesInbound(a, id) { var step :| step in a && step.DriveInbound? && step.id == id; assert step in a + b; }
      if DrivesInbound(b, id) { var step :| step in b && step.DriveInbound? && step.id == id; assert step in a + b; }
      if DrivesOutbound(b, id) { var step :| step in b && step.DriveOutbound? && step.id == id; assert step in a + b; }
    }
  }

  lemma OutboundConcat(s: State, a: seq<Step>, b: seq<Step>)
    ensures (forall id :: id in s.outbound ==> DrivesOutbound(a, id)) && (CanDial(s) ==> Dial in b)
        ==> OutboundRound(s, a + b)
  {
    forall id | DrivesOutbound(a, id)
      ensures DrivesOutbound(a + b, id)
    {
      var step :| step in a && step.DriveOutbound? && step.id == id;
      assert step in a + b;
    }
  }

  /** Every step drives the inbound stream `id`. */
  ghost predicate OnlyInbound(steps: seq<Step>, id: RequestId) {
    steps != [] && forall i :: 0 <= i < |steps| ==> steps[i].DriveInbound? && steps[i].id == id
  }

  lemma DrivenConcat(a: seq<Step>, b: seq<Step>, id: RequestId)
    requires OnlyInbound(b, id)
    ensures DrivesInbound(a + b, id)
    ensures forall j :: DrivesInbound(a, j) ==> DrivesInbound(a + b, j)
    ensures Within(a, 2, 2) ==> Within(a + b, 2, 2)
  {
    assert b[0] in a + b;
    forall j | DrivesInbound(a, j)
      ensures DrivesInbound(a + b, j)
    {
      var step :| step in a && step.DriveInbound? && step.id == j;
      assert step in a + b;
    }
  }

  /** Outbound streams are driven, none of them twice. */
  ghost predicate OnceEach(steps: seq<Step>) {
    && (forall i :: 0 <= i < |steps| ==> steps[i].DriveOutbound?)
    && (forall i, j :: 0 <= i < j < |steps| ==> steps[i].id != steps[j].id)
  }

  lemma PolledConcat(steps: seq<Step>, step: Step)
    requires step.DriveOutbound?
    ensures DrivesOutbound(steps + [step], step.id)
    ensures forall j :: DrivesOutbound(steps, j) ==> DrivesOutbound(steps + [step], j)
  {
    assert step in steps + [step];
    forall j | DrivesOutbound(steps, j)
      ensures DrivesOutbound(steps + [step], j)
    {
      var other :| other in steps && other.DriveOutbound? && other.id == j;
      assert other in steps + [step];
    }
  }

  lemma SameRound(s: State, t: State, steps: seq<Step>)
    requires s.inbound.Keys == t.inbound.Keys && s.outbound == t.outbound
    requires s.dialQueue == t.dialQueue && s.dialNegotiated == t.dialNegotiated
    requires FullRound(t, steps)
    ensures FullRound(s, steps)
  {
    forall id | id in s.inbound
      ensures DrivesInbound(steps, id)
    {
      assert id in t.inbound.Keys;
    }
  }

  /** The last of the steps on `id` took nothing more out of its queue. */
  ghost predicate Settled(from: Config, steps: seq<Step>, to: Config, id: RequestId) {
    steps != [] && exists d :: SettledFrom(from, steps, to, id, d)
  }

  ghost predicate SettledFrom(from: Config, steps: seq<Step>, to: Config, id: RequestId, d: Config)
    requires steps != []
  {
    Walked(from, steps[..|steps| - 1], d, []) && LastTakesNothing(d, steps[|steps| - 1], to, id)
  }

  ghost predicate LastTakesNothing(d: Config, step: Step, to: Config, id: RequestId) {
    && Can(d, step) && Next(d, step) == to
    && id in d.s.inbound && Consumes(LaneOf(d.s, id), step) == []
  }

  /** `DelayQueue::insert`: the timer is filed under some key not in use. */
  method InsertDelay(delays: map<DelayKey, RequestId>, id: RequestId) returns (key: DelayKey, d: map<DelayKey, RequestId>)
    ensures key !in delays && d == delays[key := id]
  {
    key := 0;
    var seen := {};
    while key in delays
      invariant seen <= delays.Keys
      invariant forall k :: k in seen <==> 0 <= k < key
      decreases delays.Keys - seen
    {
      seen := seen + {key};
      key := key + 1;
    }
    d := delays[key := id];
  }

  /** Driving a stream leaves the others there, takes at most from its own queue, and keeps a stream it takes for. */
  lemma DriveShrinks(s: State, id: RequestId, send: SendPoll, close: ClosePoll)
    requires id in s.inbound
    ensures
      var t := DriveIn(s, id, send, close);
      && (forall j :: j != id ==> (j in t.inbound <==> j in s.inbound))
      && |Queue(t.queued, id)| <= |Queue(s.queued, id)|
      && (Consumes(LaneOf(s, id), DriveInbound(id, send, close)) != [] ==>
            id in t.inbound && |Queue(t.queued, id)| < |Queue(s.queued, id)|)
  {
    hide DropKey;
  }

  datatype TimerPoll = Fired(key: DelayKey) | TimerNotReady | TimerFailed

  /** `DelayQueue::poll`: any live timer may have fired, or none, or the timer fails. */
  method PollDelay(delays: map<DelayKey, RequestId>) returns (t: TimerPoll)
    ensures t.Fired? ==> t.key in delays
  {
    t := *;
    if t.Fired? && t.key !in delays {
      t := TimerNotReady;
    }
  }

  /** `InboundSubstreamState::close`, with the peer's answer to a poll of an idle stream. */
  method CloseStream(state: InboundState, queue: seq<RpcErrorResponse>, peerClosed: bool)
    returns (state': InboundState, queue': seq<RpcErrorResponse>)
    requires !state.Poisoned?
    ensures Lane(state', queue') == CloseLane(Lane(state, queue), peerClosed)
  {
    state', queue' := state, queue;
    match state {
      case ResponsePendingSend(_, closing) =>
        if !closing {
          queue' := queue' + [TIMED_OUT];
          queue' := queue' + [StreamTermination];
          assert queue' == queue + [TIMED_OUT, StreamTermination];
        }
      case ResponseIdle =>
        if peerClosed {
          state' := Closing;
        } else {
          state' := ResponsePendingSend(TIMED_OUT, true);
        }
      case Closing =>
      case Poisoned =>
        assert false;
    }
  }

  class RpcHandler {
    var pendingError: Option<(RequestId, UpgradeError)>
    var eventsOut: seq<RpcEvent>
    var dialQueue: seq<RpcEvent>
    var dialNegotiated: int
    var inbound: map<RequestId, Inbound>
    var inboundDelay: map<DelayKey, RequestId>
    var outbound: map<RequestId, Outbound>
    var outboundDelay: map<DelayKey, RequestId>
    var queued: map<RequestId, seq<RpcErrorResponse>>
    var nextId: RequestId
    var ioRetries: nat
    ghost var streams: StreamLog
    ghost var replies: ReplyLog
    ghost var dials: DialLog

    ghost function Abs(): State
      reads this
    {
      State(pendingError, eventsOut, dialQueue, dialNegotiated, inbound, inboundDelay, outbound, outboundDelay,
            queued, nextId, ioRetries)
    }

    ghost function Conf(): Config
      reads this
    {
      Config(Abs(), streams, replies, dials)
    }

    constructor ()
      ensures Conf() == START && Inv(Conf())
    {
      pendingError, eventsOut, dialQueue, dialNegotiated := None, [], [], 0;
      inbound, inboundDelay, outbound, outboundDelay, queued := map[], map[], map[], map[], map[];
      nextId, ioRetries := 1, 0;
      streams, replies, dials := START.streams, START.replies, START.dials;
      new;
      StartInv();
    }

    /** The record moves with the fields. */
    ghost method Record(before: Config, step: Step)
      requires Can(before, step) && Inv(before) && Abs() == Next(before, step).s
      modifies this`streams, this`replies, this`dials
      ensures Conf() == Next(before, step) && Inv(Conf())
    {
      hide Inv, Advance, Output, RecordStream, RecordReply, RecordDial;
      KeepsInv(before, step);
      var after := Next(before, step);
      streams, replies, dials := after.streams, after.replies, after.dials;
    }

    method InjectFullyNegotiatedInbound(request: RpcRequest) returns (ghost step: Step)
      requires Inv(Conf())
      modifies this
      ensures step.InjectInbound? && step.request == request
      ensures Can(old(Conf()), step) && Conf() == Next(old(Conf()), step) && Inv(Conf())
    {
      hide Inv;
      ghost var before := Conf();
      if request.Goodbye? {
        eventsOut := eventsOut + [Request(0, request)];
        var key, _ := InsertDelay(inboundDelay, 0);
        step := InjectInbound(request, key);
        Record(before, step);
        return;
      }
      var key, delays := InsertDelay(inboundDelay, nextId);
      inboundDelay := delays;
      inbound := inbound[nextId := Inbound(ResponseIdle, Some(key))];
      eventsOut := eventsOut + [Request(nextId, request)];
      nextId := nextId + 1;
      step := InjectInbound(request, key);
      Record(before, step);
    }

    /** Each dial that was issued is answered once. */
    method InjectFullyNegotiatedOutbound(info: RpcEvent) returns (ghost step: Step)
      requires Inv(Conf()) && info in dials.inFlight
      modifies this
      ensures step.InjectOutbound? && step.info == info
      ensures Can(old(Conf()), step) && Conf() == Next(old(Conf()), step) && Inv(Conf())
      ensures dialNegotiated >= 0
    {
      ghost var before := Conf();
      dialNegotiated := dialNegotiated - 1;
      var key, delays := InsertDelay(outboundDelay, info.id);
      if info.Request? && info.request.ExpectResponse() {
        outboundDelay := delays;
        outbound := outbound[info.id := Outbound(RequestPendingResponse(info.request), key)];
      }
      step := InjectOutbound(info, key);
      Record(before, step);
    }

    method SendRequest(event: RpcEvent)
      modifies this`dialQueue
      ensures dialQueue == old(dialQueue) + [event]
    {
      dialQueue := dialQueue + [event];
    }

    method InjectEvent(event: RpcEvent)
      requires Inv(Conf())
      modifies this
      ensures Conf() == Next(old(Conf()), Step.InjectEvent(event)) && Inv(Conf())
    {
      ghost var before := Conf();
      match event {
        case Request(_, _) => SendRequest(event);
        case Response(id, r) =>
          if id in inbound {
            Respond(id, r);
          }
        case Error(_, _) =>
      }
      Record(before, Step.InjectEvent(event));
    }

    /** A response for a stream that still exists. */
    method Respond(id: RequestId, r: RpcErrorResponse)
      requires NoPoison(Abs()) && id in inbound
      modifies this`inbound, this`queued
      ensures Abs() == AcceptEvent(old(Abs()), Response(id, r))
    {
      var stream := inbound[id];
      Overwrite(inbound, id, stream.(state := Poisoned));
      inbound := inbound[id := stream.(state := Poisoned)];
      match stream.state {
        case ResponseIdle =>
          if r.StreamTermination? {
            inbound := inbound[id := stream.(state := Closing)];
          } else {
            var closing := !r.MultipleResponses() || r.IsError();
            inbound := inbound[id := stream.(state := ResponsePendingSend(r, closing))];
          }
        case ResponsePendingSend(sending, closing) =>
          if r.MultipleResponses() {
            queued := queued[id := Queue(queued, id) + [r]];
            inbound := inbound[id := stream.(state := ResponsePendingSend(sending, closing))];
          } else {
            inbound := inbound[id := stream.(state := ResponsePendingSend(sending, true))];
          }
        case Closing =>
          inbound := inbound[id := stream.(state := Closing)];
        case Poisoned =>
          assert false;
      }
    }

    method InjectDialUpgradeError(info: RpcEvent, error: UpgradeError)
      requires Inv(Conf()) && info in dials.inFlight
      modifies this
      ensures Conf() == Next(old(Conf()), InjectDialError(info, error)) && Inv(Conf())
    {
      hide Inv;
      ghost var before := Conf();
      ghost var step := InjectDialError(info, error);
      if error.Apply? && error.error.IoError? {
        ioRetries := ioRetries + 1;
        if ioRetries < IO_ERROR_RETRIES {
          SendRequest(info);
          Record(before, step);
          return;
        }
      }
      ioRetries := 0;
      var requestId := if info.Request? then info.id else 0;
      if pendingError.None? {
        pendingError := Some((requestId, error));
      }
      Record(before, step);
    }

    /** One call of `poll`: a path of the machine, and exactly the event it hands out. */
    method Poll() returns (r: PollResult, ghost steps: seq<Step>)
      requires Inv(Conf())
      modifies this
      ensures Inv(Conf())
      ensures Walked(old(Conf()), steps, Conf(), if r.Ready? then [r.event] else [])
      ensures old(pendingError).Some? ==> steps == [TakePendingError]
      ensures old(pendingError).None? && old(eventsOut) != [] ==> steps == [TakeEvent]
      ensures old(pendingError).None? && old(eventsOut) == [] ==> Within(steps, 0, 4)
      ensures r.NotReady? ==> FullRound(old(Abs()), steps)
    {
      hide Inv, Walked, OutboundRound;
      ghost var before := Conf();
      if pendingError.Some? {
        var (id, error) := pendingError.value;
        pendingError := None;
        TakeStep(before, TakePendingError);
        return Ready(Report(Error(id, Reported(error)))), [TakePendingError];
      }
      if eventsOut != [] {
        var event := eventsOut[0];
        eventsOut := eventsOut[1..];
        TakeStep(before, TakeEvent);
        return Ready(Report(event)), [TakeEvent];
      }
      var failed;
      failed, steps := ExpireInboundStreams();
      if failed {
        return TimerError, steps;
      }
      ghost var middle := Conf();
      ghost var more: seq<Step>;
      r, more := PollStreams();
      ghost var events := if r.Ready? then [r.event] else [];
      WalkOn(before, steps, middle, more, Conf(), events);
      WithinConcat(steps, more, 0, 1, 4);
      if r.NotReady? { SameRound(before.s, middle.s, more); }
      RoundConcat(before.s, steps, more);
      steps := steps + more;
    }

    /** One step, recorded as a path. */
    ghost method TakeStep(before: Config, step: Step)
      requires Can(before, step) && Inv(before) && Abs() == Next(before, step).s
      modifies this`streams, this`replies, this`dials
      ensures Conf() == Next(before, step) && Inv(Conf())
      ensures Walked(before, [step], Conf(), Emitted(before, step))
    {
      hide Inv, Walked, Next, Emitted;
      WalkOne(before, step);
      Record(before, step);
    }

    /** Inbound streams whose timer has fired are told to close. */
    method ExpireInboundStreams() returns (failed: bool, ghost steps: seq<Step>)
      requires Inv(Conf())
      modifies this`inbound, this`inboundDelay, this`queued, this`streams, this`replies, this`dials
      ensures Inv(Conf())
      ensures Walked(old(Conf()), steps, Conf(), [])
      ensures Within(steps, 0, 0) && inbound.Keys == old(inbound.Keys)
    {
      hide Inv, Walked, Next;
      ghost var start := Conf();
      WalkNone(start);
      steps := [];
      while true
        invariant Inv(Conf()) && Walked(start, steps, Conf(), [])
        invariant Within(steps, 0, 0) && inbound.Keys == old(inbound.Keys)
        decreases inboundDelay.Keys
      {
        var timer := PollDelay(inboundDelay);
        match timer {
          case TimerFailed => return true, steps;
          case TimerNotReady => return false, steps;
          case Fired(key) =>
            ghost var middle := Conf();
            ghost var step := ExpireInboundStream(key);
            WalkOn(start, steps, middle, [step], Conf(), []);
            steps := steps + [step];
        }
      }
    }

    method ExpireInboundStream(key: DelayKey) returns (ghost step: Step)
      requires Inv(Conf()) && key in inboundDelay
      modifies this`inbound, this`inboundDelay, this`queued, this`streams, this`replies, this`dials
      ensures Inv(Conf()) && Walked(old(Conf()), [step], Conf(), [])
      ensures step.ExpireInbound? && inbound.Keys == old(inbound.Keys)
      ensures inboundDelay.Keys < old(inboundDelay.Keys)
    {
      hide Walked, CloseLane, IdsSpent, LanesOk, Ordered, DialsOk, RepliesOk;
      ghost var before := Conf();
      var id := inboundDelay[key];
      inboundDelay := inboundDelay - {key};
      var peerClosed: bool := *;
      if id in inbound {
        var state, queue := CloseStream(inbound[id].state, Queue(queued, id), peerClosed);
        inbound := inbound[id := Inbound(state, None)];
        queued := queued[id := queue];
      }
      step := ExpireInbound(key, peerClosed);
      TakeStep(before, step);
      assert key in old(inboundDelay.Keys);
    }

    /** The rest of `poll`: at most one outbound timer, all inbound streams, all outbound streams, one dial. */
    method PollStreams() returns (r: PollResult, ghost steps: seq<Step>)
      requires Inv(Conf())
      modifies this
      ensures Inv(Conf())
      ensures Walked(old(Conf()), steps, Conf(), if r.Ready? then [r.event] else [])
      ensures Within(steps, 1, 4)
      ensures r.NotReady? ==> FullRound(old(Abs()), steps)
    {
      hide Inv, Walked, DrivesInbound, DrivesOutbound;
      ghost var before := Conf();
      var timer := PollDelay(outboundDelay);
      match timer {
        case TimerFailed =>
          WalkNone(before);
          return TimerError, [];
        case Fired(key) =>
          var id := outboundDelay[key];
          outboundDelay := outboundDelay - {key};
          outbound := outbound - {id};
          TakeStep(before, ExpireOutbound(key));
          return Ready(Report(Error(id, Custom("Stream timed out")))), [ExpireOutbound(key)];
        case TimerNotReady =>
      }
      var stop;
      stop, steps := DriveInboundStreams();
      if stop.Some? {
        return Ready(stop.value), steps;
      }
      ghost var middle := Conf();
      ghost var more: seq<Step>;
      r, more := PollOutbound();
      ghost var events := if r.Ready? then [r.event] else [];
      WalkOn(before, steps, middle, more, Conf(), events);
      WithinConcat(steps, more, 1, 3, 4);
      RoundConcat(before.s, steps, more);
      steps := steps + more;
    }

    method PollOutbound() returns (r: PollResult, ghost steps: seq<Step>)
      requires Inv(Conf())
      modifies this`outbound, this`outboundDelay, this`streams, this`replies, this`dials, this`dialQueue, this`dialNegotiated
      ensures Inv(Conf())
      ensures Walked(old(Conf()), steps, Conf(), if r.Ready? then [r.event] else [])
      ensures Within(steps, 3, 4)
      ensures r.NotReady? ==> OutboundRound(old(Abs()), steps)
    {
      hide Inv, Walked, Next;
      ghost var before := Conf();
      var stop;
      stop, steps := DriveOutboundStreams();
      if stop.Some? {
        return Ready(stop.value), steps;
      }
      ghost var middle := Conf();
      ghost var more: seq<Step>;
      r, more := PollDial();
      ghost var events := if r.Ready? then [r.event] else [];
      WalkOn(before, steps, middle, more, Conf(), events);
      WithinConcat(steps, more, 3, 4, 4);
      OutboundConcat(before.s, steps, more);
      steps := steps + more;
    }

    /** Establish one outbound substream if there is a request and room for it. */
    method PollDial() returns (r: PollResult, ghost steps: seq<Step>)
      requires Inv(Conf())
      modifies this`dialQueue, this`dialNegotiated, this`streams, this`replies, this`dials
      ensures Inv(Conf())
      ensures Walked(old(Conf()), steps, Conf(), if r.Ready? then [r.event] else [])
      ensures steps == if CanDial(old(Abs())) then [Dial] else []
    {
      hide Inv, Walked;
      ghost var before := Conf();
      if dialQueue != [] && dialNegotiated < MAX_DIAL_NEGOTIATED {
        dialNegotiated := dialNegotiated + 1;
        var event := dialQueue[0];
        dialQueue := dialQueue[1..];
        TakeStep(before, Dial);
        if event.Request? {
          return Ready(OutboundSubstreamRequest(event)), [Dial];
        }
        return NotReady, [Dial];
      }
      WalkNone(before);
      return NotReady, [];
    }

    /** Every inbound stream is driven until it has nothing new to send; a failed send ends the round. */
    method DriveInboundStreams() returns (stop: Option<HandlerEvent>, ghost steps: seq<Step>)
      requires Inv(Conf())
      modifies this`inbound, this`inboundDelay, this`queued, this`streams, this`replies, this`dials
      ensures Inv(Conf())
      ensures Walked(old(Conf()), steps, Conf(), if stop.Some? then [stop.value] else [])
      ensures Within(steps, 2, 2)
      ensures stop.None? ==> forall id :: id in old(inbound) ==> DrivesInbound(steps, id)
    {
      hide Inv, Walked;
      ghost var start := Conf();
      WalkNone(start);
      stop, steps := None, [];
      var ids := inbound.Keys;
      while ids != {}
        invariant Inv(Conf()) && ids <= inbound.Keys
        invariant Walked(start, steps, Conf(), []) && stop.None?
        invariant Within(steps, 2, 2)
        invariant forall id :: id in old(inbound) && id !in ids ==> DrivesInbound(steps, id)
        decreases ids
      {
        var id :| id in ids;
        ids := ids - {id};
        ghost var middle := Conf();
        ghost var more: seq<Step>;
        stop, more := DriveInboundStream(id);
        ghost var events := if stop.Some? then [stop.value] else [];
        WalkOn(start, steps, middle, more, Conf(), events);
        DrivenConcat(steps, more, id);
        steps := steps + more;
        if stop.Some? {
          return;
        }
      }
    }

    /** The drain loop of one stream; each further round uses up one queued response. */
    method DriveInboundStream(id: RequestId) returns (stop: Option<HandlerEvent>, ghost steps: seq<Step>)
      requires Inv(Conf()) && id in inbound
      modifies this`inbound, this`inboundDelay, this`queued, this`streams, this`replies, this`dials
      ensures Inv(Conf())
      ensures Walked(old(Conf()), steps, Conf(), if stop.Some? then [stop.value] else [])
      ensures OnlyInbound(steps, id)
      ensures stop.None? ==> Settled(old(Conf()), steps, Conf(), id)
      ensures forall j :: j != id && j in old(inbound) ==> j in inbound
    {
      hide Inv, Walked, LastTakesNothing;
      ghost var start := Conf();
      WalkNone(start);
      stop, steps := None, [];
      var newItemsToSend := true;
      while newItemsToSend
        invariant Inv(Conf()) && (newItemsToSend ==> id in inbound)
        invariant Walked(start, steps, Conf(), if stop.Some? then [stop.value] else [])
        invariant newItemsToSend ==> stop.None?
        invariant forall i :: 0 <= i < |steps| ==> steps[i].DriveInbound? && steps[i].id == id
        invariant !newItemsToSend ==> steps != [] && (stop.None? ==> Settled(start, steps, Conf(), id))
        invariant forall j :: j != id && j in old(inbound) ==> j in inbound
        decreases |Queue(queued, id)|, newItemsToSend
      {
        ghost var middle := Conf();
        ghost var step;
        newItemsToSend, stop, step := DriveInboundOnce(id);
        ghost var events := if stop.Some? then [stop.value] else [];
        WalkOn(start, steps, middle, [step], Conf(), events);
        assert (steps + [step])[..|steps|] == steps;
        steps := steps + [step];
        assert !newItemsToSend ==> SettledFrom(start, steps, Conf(), id, middle);
      }
    }

    /** One round for one inbound stream. */
    method DriveInboundOnce(id: RequestId) returns (again: bool, stop: Option<HandlerEvent>, ghost step: Step)
      requires Inv(Conf()) && id in inbound
      modifies this`inbound, this`inboundDelay, this`queued, this`streams, this`replies, this`dials
      ensures Inv(Conf())
      ensures step.DriveInbound? && step.id == id
      ensures Walked(old(Conf()), [step], Conf(), if stop.Some? then [stop.value] else [])
      ensures !again ==> LastTakesNothing(old(Conf()), step, Conf(), id)
      ensures again ==> stop.None? && id in inbound && |Queue(queued, id)| < |Queue(old(queued), id)|
      ensures |Queue(queued, id)| <= |Queue(old(queued), id)|
      ensures forall j :: j != id ==> (j in inbound <==> j in old(inbound))
    {
      hide Walked, DriveIn, OutboundTimers, IdsSpent, LanesOk, Ordered, DialsOk, RepliesOk;
      ghost var before := Conf();
      var send: SendPoll := *;
      var close: ClosePoll := *;
      step := DriveInbound(id, send, close);
      again, stop := MoveInbound(id, send, close);
      DriveShrinks(before.s, id, send, close);
      TakeStep(before, step);
    }

    /** The arms of the inbound match. */
    method MoveInbound(id: RequestId, send: SendPoll, close: ClosePoll) returns (again: bool, stop: Option<HandlerEvent>)
      requires id in inbound && !inbound[id].state.Poisoned?
      requires inbound[id].delay.Some? ==> inbound[id].delay.value in inboundDelay
      modifies this`inbound, this`inboundDelay, this`queued
      ensures Abs() == DriveIn(old(Abs()), id, send, close)
      ensures stop == if old(inbound)[id].state.ResponsePendingSend? && send.SendFailed?
                      then Some(Report(Error(0, send.error))) else None
      ensures again <==> Consumes(Lane(old(inbound)[id].state, Queue(old(queued), id)), DriveInbound(id, send, close)) != []
    {
      hide ApplyQueued, DropKey;
      again, stop := false, None;
      var stream := inbound[id];
      Overwrite(inbound, id, stream.(state := Poisoned));
      inbound := inbound[id := stream.(state := Poisoned)];
      match stream.state {
        case ResponsePendingSend(_, _) =>
          again, stop := MoveSending(id, stream, send, close);
        case ResponseIdle =>
          again := ApplyQueuedResponses(id, stream);
        case Closing =>
          match close {
            case Closed =>
              queued := queued - {id};
              DropInbound(id, stream.delay);
            case CloseNotReady =>
              inbound := inbound[id := stream.(state := Closing)];
          }
        case Poisoned =>
          assert false;
      }
    }

    /** The arm of a stream with a send under way; `stream` is what was taken out of the table. */
    method MoveSending(id: RequestId, stream: Inbound, send: SendPoll, ghost close: ClosePoll)
      returns (again: bool, stop: Option<HandlerEvent>)
      requires id in inbound && stream.state.ResponsePendingSend?
      requires stream.delay.Some? ==> stream.delay.value in inboundDelay
      modifies this`inbound, this`inboundDelay, this`queued
      ensures Abs() == DriveIn(old(Abs()).(inbound := old(inbound)[id := stream]), id, send, close)
      ensures stop == if send.SendFailed? then Some(Report(Error(0, send.error))) else None
      ensures again <==> Consumes(Lane(stream.state, Queue(old(queued), id)), DriveInbound(id, send, close)) != []
    {
      hide ApplyQueued, DropKey;
      again, stop := false, None;
      match send {
        case Sent =>
          if stream.state.closing {
            inbound := inbound[id := stream.(state := Closing)];
          } else {
            again := ApplyQueuedResponses(id, stream);
          }
        case SendNotReady =>
          inbound := inbound[id := stream];
        case SendFailed(e) =>
          DropInbound(id, stream.delay);
          stop := Some(Report(Error(0, e)));
      }
    }

    /** The stream goes, and its live timer with it. */
    method DropInbound(id: RequestId, delay: Option<DelayKey>)
      requires delay.Some? ==> delay.value in inboundDelay
      modifies this`inbound, this`inboundDelay
      ensures inbound == old(inbound) - {id} && inboundDelay == DropKey(old(inboundDelay), delay)
    {
      if delay.Some? {
        inboundDelay := inboundDelay - {delay.value};
      }
      inbound := inbound - {id};
    }

    /** The next queued response, if any, goes onto the stream. */
    method ApplyQueuedResponses(id: RequestId, stream: Inbound) returns (again: bool)
      requires id in inbound
      modifies this`inbound, this`queued
      ensures
        var lane := ApplyQueued(Queue(old(queued), id));
        && inbound == old(inbound)[id := stream.(state := lane.state)]
        && queued == if id in old(queued) then old(queued)[id := lane.queue] else old(queued)
      ensures again <==> Queue(old(queued), id) != []
    {
      if id in queued && queued[id] != [] {
        again := true;
        var chunk := queued[id][0];
        queued := queued[id := queued[id][1..]];
        if chunk.StreamTermination? {
          inbound := inbound[id := stream.(state := Closing)];
        } else {
          inbound := inbound[id := stream.(state := ResponsePendingSend(chunk, false))];
        }
      } else {
        again := false;
        inbound := inbound[id := stream.(state := ResponseIdle)];
        assert id in queued ==> queued[id := []] == queued;
      }
    }

    /** Every outbound stream is polled once; the first event ends the round. */
    method DriveOutboundStreams() returns (stop: Option<HandlerEvent>, ghost steps: seq<Step>)
      requires Inv(Conf())
      modifies this`outbound, this`outboundDelay, this`streams, this`replies, this`dials
      ensures Inv(Conf())
      ensures Walked(old(Conf()), steps, Conf(), if stop.Some? then [stop.value] else [])
      ensures OnceEach(steps)
      ensures stop.None? ==> forall id :: id in old(outbound) ==> DrivesOutbound(steps, id)
    {
      hide Inv, Walked;
      ghost var start := Conf();
      WalkNone(start);
      stop, steps := None, [];
      var ids := outbound.Keys;
      while ids != {}
        invariant Inv(Conf()) && ids <= outbound.Keys
        invariant Walked(start, steps, Conf(), []) && stop.None?
        invariant OnceEach(steps) && forall i :: 0 <= i < |steps| ==> steps[i].id !in ids
        invariant forall id :: id in old(outbound) && id !in ids ==> DrivesOutbound(steps, id)
        decreases ids
      {
        var id :| id in ids;
        ids := ids - {id};
        ghost var middle := Conf();
        ghost var step;
        stop, step := DriveOutboundOnce(id);
        ghost var events := if stop.Some? then [stop.value] else [];
        WalkOn(start, steps, middle, [step], Conf(), events);
        PolledConcat(steps, step);
        steps := steps + [step];
        if stop.Some? {
          return;
        }
      }
    }

    method DriveOutboundOnce(id: RequestId) returns (stop: Option<HandlerEvent>, ghost step: Step)
      requires Inv(Conf()) && id in outbound
      modifies this`outbound, this`outboundDelay, this`streams, this`replies, this`dials
      ensures Inv(Conf())
      ensures step.DriveOutbound? && step.id == id
      ensures Walked(old(Conf()), [step], Conf(), if stop.Some? then [stop.value] else [])
      ensures forall j :: j != id ==> (j in outbound <==> j in old(outbound))
    {
      hide Walked, DriveOut, OutputOut, InboundTimers, IdsSpent, LanesOk, Ordered, DialsOk, RepliesOk;
      ghost var before := Conf();
      var read: ReadPoll := *;
      var close: ClosePoll := *;
      step := DriveOutbound(id, read, close);
      stop := MoveOutbound(id, read, close);
      TakeStep(before, step);
    }

    /** The arms of the outbound match. The stream's timer must be live: `DelayQueue::remove` and `reset` demand it. */
    method MoveOutbound(id: RequestId, read: ReadPoll, close: ClosePoll) returns (stop: Option<HandlerEvent>)
      requires id in outbound && !outbound[id].state.OutboundPoisoned? && outbound[id].delay in outboundDelay
      modifies this`outbound, this`outboundDelay
      ensures Abs() == DriveOut(old(Abs()), id, read, close)
      ensures stop == OutputOut(old(outbound)[id].state, id, read)
      ensures forall j :: j != id ==> (j in outbound <==> j in old(outbound))
    {
      stop := None;
      var stream := outbound[id];
      Overwrite(outbound, id, stream.(state := OutboundPoisoned));
      outbound := outbound[id := stream.(state := OutboundPoisoned)];
      match stream.state {
        case RequestPendingResponse(request) =>
          match read {
            case Item(response) =>
              if request.MultipleResponses() && !response.IsError() {
                outbound := outbound[id := stream.(state := RequestPendingResponse(request))];
              } else {
                outbound := outbound[id := stream.(state := OutboundClosing)];
              }
              stop := Some(Report(Response(id, response)));
            case EndOfStream =>
              DropOutboundStream(id, stream.delay);
              if request.MultipleResponses() {
                stop := Some(Report(Response(id, StreamTermination)));
              } else {
                stop := Some(Report(Error(id, Custom("Stream closed early. Empty response"))));
              }
            case ReadNotReady =>
              outbound := outbound[id := stream.(state := RequestPendingResponse(request))];
            case ReadFailed(e) =>
              DropOutboundStream(id, stream.delay);
              stop := Some(Report(Error(id, e)));
          }
        case OutboundClosing =>
          match close {
            case Closed =>
              DropOutboundStream(id, stream.delay);
            case CloseNotReady =>
              outbound := outbound[id := stream.(state := OutboundClosing)];
          }
        case OutboundPoisoned =>
          assert false;
      }
    }

    method DropOutboundStream(id: RequestId, delay: DelayKey)
      requires delay in outboundDelay
      modifies this`outbound, this`outboundDelay
      ensures outbound == old(outbound) - {id} && outboundDelay == old(outboundDelay) - {delay}
    {
      outboundDelay := outboundDelay - {delay};
      outbound := outbound - {id};
    }
  }
}
