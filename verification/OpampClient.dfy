/** The OpAMP client object; each method is one stretch of code between awaits, and refines the step of
    OpampProtocol that it is. */
module OpampClient {
  import opened Wrappers
  import opened OpampProtocol
  import S = OpampSafety

  /** The timers of the event loop. */
  class EventLoop {
    var timers: map<nat, nat>
    var nextTimer: nat

    constructor ()
      ensures timers == map[] && nextTimer == 0
    {
      timers, nextTimer := map[], 0;
    }

    method SetTimeout(delay: nat) returns (handle: nat)
      modifies this
      ensures handle == old(nextTimer) && timers == old(timers)[handle := delay] && nextTimer == handle + 1
    {
      handle := nextTimer;
      timers := timers[handle := delay];
      nextTimer := nextTimer + 1;
    }

    /** Does nothing for a timer that has fired. */
    method ClearTimeout(handle: nat)
      modifies this`timers
      ensures timers == old(timers) - {handle}
    {
      timers := timers - {handle};
    }
  }

  /** What the client hands to the controller, and the hash it keeps for when the apply settles. */
  datatype Apply = Apply(config: ProfilingConfig, hash: Option<Bytes>)

  ghost predicate HandsOver(apply: Option<Apply>, before: seq<Pending>, pending: seq<Pending>) {
    && (apply.Some? <==> |pending| > |before|)
    && (apply.Some? ==>
          && pending[|pending| - 1].config == apply.value.config
          && pending[|pending| - 1].attempt.hash == apply.value.hash)
  }

  class OpAMPClient<C(==)> {
    const acceptsRemoteConfig: bool
    const pollingIntervalMs: nat
    const eventLoop: EventLoop
    var stopping: bool
    var polling: bool
    var pollAgainImmediately: bool
    var pollingTimer: Option<nat>
    var backoff: Backoff
    var sequenceNum: nat
    var lastSentEffectiveConfig: Option<C>
    var pendingEffectiveConfig: Option<C>
    var lastRemoteConfigHash: Option<Bytes>
    var lastHashlessConfig: Option<string>
    var applyInFlight: bool
    var remoteConfigStatus: Option<Status>

    ghost var phase: Phase
    ghost var polls: nat
    ghost var pending: seq<Pending>
    ghost var sent: seq<Message<C>>
    ghost var attempts: seq<Attempt>
    ghost var reports: seq<Report>

    ghost function LoopState(): Loop
      reads this, eventLoop
    {
      Loop(phase, pollingIntervalMs, stopping, polling, pollAgainImmediately, pollingTimer, backoff,
           eventLoop.timers, eventLoop.nextTimer, polls)
    }

    ghost function RemoteState(): Remote
      reads this
    {
      Remote(lastRemoteConfigHash, lastHashlessConfig, applyInFlight, remoteConfigStatus, pending, attempts, reports)
    }

    ghost function OutboxState(): Outbox<C>
      reads this
    {
      Outbox(sequenceNum, lastSentEffectiveConfig, pendingEffectiveConfig, sent)
    }

    ghost function State(): Client<C>
      reads this, eventLoop
    {
      Client(acceptsRemoteConfig, LoopState(), RemoteState(), OutboxState())
    }

    constructor (accepts: bool, interval: nat)
      ensures State() == Initial(accepts, interval) && fresh(eventLoop)
    {
      acceptsRemoteConfig, pollingIntervalMs := accepts, interval;
      eventLoop := new EventLoop();
      stopping, polling, pollAgainImmediately, pollingTimer, backoff := false, false, false, None, NO_BACKOFF;
      sequenceNum, lastSentEffectiveConfig, pendingEffectiveConfig := 0, None, None;
      lastRemoteConfigHash, lastHashlessConfig, applyInFlight, remoteConfigStatus := None, None, false, None;
      phase, polls, pending, sent, attempts, reports := Created, 0, [], [], [], [];
    }

    method ClearPollingTimer()
      modifies this`pollingTimer, eventLoop`timers
      ensures LoopState() == ClearTimer(old(LoopState()))
    {
      if pollingTimer.Some? {
        eventLoop.ClearTimeout(pollingTimer.value);
        pollingTimer := None;
      }
    }

    /** `_scheduleNextPoll`; `jitter` is the random part of a backed-off delay. */
    method ScheduleNextPoll(delayMs: Option<nat>, jitter: nat)
      modifies this`pollingTimer, this`backoff, eventLoop
      ensures LoopState() == OpampProtocol.ScheduleNextPoll(old(LoopState()), delayMs, jitter)
    {
      if stopping {
        return;
      }
      ClearPollingTimer();
      var delay;
      if delayMs.Some? {
        delay := delayMs.value;
      } else {
        var (d, b) := NextDelay(backoff, pollingIntervalMs, jitter);
        delay, backoff := d, b;
      }
      var handle := eventLoop.SetTimeout(delay);
      pollingTimer := Some(handle);
    }

    /** `_triggerPoll`: ask the running poll to repeat, or arm a timer without delay. */
    method TriggerPoll()
      modifies this`pollAgainImmediately, this`pollingTimer, this`backoff, eventLoop
      ensures LoopState() == OpampProtocol.TriggerPoll(old(LoopState()))
    {
      if stopping {
        return;
      }
      if polling {
        pollAgainImmediately := true;
        return;
      }
      ScheduleNextPoll(Some(0), 0);
    }

    method SetRemoteConfigStatus(kind: StatusKind, hash: Option<Bytes>, errorMessage: string, ghost a: Attempt)
      requires a.hash == hash
      modifies this`remoteConfigStatus, this`reports
      ensures RemoteState() == SetStatus(old(RemoteState()), a, kind, errorMessage)
    {
      remoteConfigStatus := Some(Status(kind, hash, errorMessage));
      reports := reports + [Report(a.id, Status(kind, hash, errorMessage))];
    }

    /** Reports a status and asks for a poll to carry it. */
    method ReportStatus(kind: StatusKind, hash: Option<Bytes>, errorMessage: string, ghost a: Attempt)
      requires a.hash == hash
      modifies this`remoteConfigStatus, this`reports, this`pollAgainImmediately, this`pollingTimer, this`backoff,
          eventLoop
      ensures RemoteState() == SetStatus(old(RemoteState()), a, kind, errorMessage)
      ensures LoopState() == OpampProtocol.TriggerPoll(old(LoopState()))
    {
      hide OpampProtocol.TriggerPoll;
      SetRemoteConfigStatus(kind, hash, errorMessage, a);
      TriggerPoll();
    }

    /** `_handleRemoteConfig` up to its await; the result is the configuration handed to the controller, if any. */
    method HandleRemoteConfig(rc: RemoteConfig) returns (apply: Option<Apply>)
      requires applyInFlight <==> pending != []
      modifies this, eventLoop
      ensures State() == OpampProtocol.HandleRemoteConfig(old(State()), rc)
      ensures HandsOver(apply, old(pending), pending)
    {
      hide OpampProtocol.TriggerPoll;
      apply := None;
      if !acceptsRemoteConfig || stopping {
        return;
      }
      if rc.hash.Unreadable? {
        if lastHashlessConfig != Some(rc.body) {
          RejectUnreadable(rc);
        }
        return;
      }
      if rc.hash.Readable? {
        if lastRemoteConfigHash == Some(rc.hash.bytes) {
          return;
        }
      } else if lastHashlessConfig == Some(rc.body) {
        return;
      }
      if applyInFlight {
        return;
      }
      apply := BeginApply(rc);
    }

    /** The branch of `_handleRemoteConfig` for a hash that cannot be read. */
    method RejectUnreadable(rc: RemoteConfig)
      requires rc.hash.Unreadable?
      modifies this`lastHashlessConfig, this`lastRemoteConfigHash, this`attempts, this`remoteConfigStatus, this`reports,
               this`pollAgainImmediately, this`pollingTimer, this`backoff, eventLoop
      ensures RemoteState() == BeginAttempt(old(RemoteState()), rc)
      ensures LoopState() == OpampProtocol.TriggerPoll(old(LoopState()))
    {
      hide OpampProtocol.TriggerPoll;
      ghost var a := NewAttempt(RemoteState(), rc);
      lastHashlessConfig := Some(rc.body);
      lastRemoteConfigHash := None;
      attempts := attempts + [a];
      ReportStatus(Failed, None, rc.hash.error, a);
    }

    /** The rest of `_handleRemoteConfig` up to its await, once a new configuration is accepted. */
    method BeginApply(rc: RemoteConfig) returns (apply: Option<Apply>)
      requires !rc.hash.Unreadable? && !applyInFlight
      modifies this`lastHashlessConfig, this`lastRemoteConfigHash, this`attempts, this`remoteConfigStatus, this`reports,
               this`pollAgainImmediately, this`pollingTimer, this`backoff, this`applyInFlight, this`pending, eventLoop
      ensures RemoteState() == BeginAttempt(old(RemoteState()), rc)
      ensures var l := OpampProtocol.TriggerPoll(old(LoopState()));
              LoopState() == if rc.parsed.Failure? then OpampProtocol.TriggerPoll(l) else l
      ensures apply == if rc.parsed.Success? then Some(Apply(rc.parsed.value, HashOf(rc))) else None
    {
      hide OpampProtocol.TriggerPoll;
      ghost var a := NewAttempt(RemoteState(), rc);
      var configHash := if rc.hash.Readable? then Some(rc.hash.bytes) else None;
      AnnounceApply(rc, configHash);
      if rc.parsed.Failure? {
        ReportStatus(Failed, configHash, rc.parsed.error, a);
        applyInFlight := false;
        return None;
      }
      pending := pending + [Pending(a, rc.parsed.value)];
      apply := Some(Apply(rc.parsed.value, configHash));
    }

    /** Records a new configuration as attempted and reports APPLYING. */
    method AnnounceApply(rc: RemoteConfig, configHash: Option<Bytes>)
      requires !rc.hash.Unreadable? && configHash == HashOf(rc)
      modifies this`lastHashlessConfig, this`lastRemoteConfigHash, this`attempts, this`remoteConfigStatus, this`reports,
               this`pollAgainImmediately, this`pollingTimer, this`backoff, this`applyInFlight, eventLoop
      ensures RemoteState() ==
          SetStatus(Record(old(RemoteState()), rc), NewAttempt(old(RemoteState()), rc), Applying,
              "").(applyInFlight := true)
      ensures LoopState() == OpampProtocol.TriggerPoll(old(LoopState()))
    {
      hide OpampProtocol.TriggerPoll;
      ghost var a := NewAttempt(RemoteState(), rc);
      applyInFlight, lastRemoteConfigHash := true, configHash;
      lastHashlessConfig := if configHash.Some? then None else Some(rc.body);
      attempts := attempts + [a];
      ReportStatus(Applying, configHash, "", a);
    }

    /** `_handleRemoteConfig` after its await: the apply resolved, or rejected with an error. */
    method ApplySettled(failure: Option<string>, configHash: Option<Bytes>)
      requires pending != [] && pending[0].attempt.hash == configHash
      modifies this`remoteConfigStatus, this`reports, this`pollAgainImmediately, this`pollingTimer, this`backoff,
               this`applyInFlight, this`pending, eventLoop
      ensures State() == FinishApply(old(State()), failure)
    {
      hide OpampProtocol.TriggerPoll;
      ghost var a := pending[0].attempt;
      pending := pending[1..];
      ReportStatus(if failure.None? then Applied else Failed, configHash, failure.GetOr(""), a);
      applyInFlight := false;
      assert OutboxState() == old(OutboxState());
    }

    method ProcessServerResponse(m: ServerMessage) returns (apply: Option<Apply>)
      requires applyInFlight <==> pending != []
      modifies this, eventLoop
      ensures State() == OpampProtocol.ProcessServerResponse(old(State()), m)
      ensures HandsOver(apply, old(pending), pending)
    {
      apply := None;
      match m
      case ErrorResponse(retryAfterMs) =>
        if retryAfterMs.Some? && retryAfterMs.value != 0 {
          backoff := backoff.(minDelay := retryAfterMs);
        }
      case Normal(reportFullState, remoteConfig) =>
        backoff := NO_BACKOFF;
        if reportFullState {
          lastSentEffectiveConfig := None;
        }
        if acceptsRemoteConfig && remoteConfig.Some? {
          apply := HandleRemoteConfig(remoteConfig.value);
        }
    }

    method BuildAgentToServerMessage(effective: C) returns (msg: Message<C>)
      modifies this`sequenceNum, this`pendingEffectiveConfig
      ensures msg == BuildMessage(old(OutboxState()), remoteConfigStatus, effective)
      ensures OutboxState() == old(OutboxState()).(sequenceNum := old(sequenceNum) + 1,
                pendingEffective := if msg.effective.Some? then msg.effective else old(pendingEffectiveConfig))
    {
      msg := Message(sequenceNum, remoteConfigStatus, None);
      sequenceNum := sequenceNum + 1;
      if lastSentEffectiveConfig != Some(effective) {
        pendingEffectiveConfig := Some(effective);
        msg := msg.(effective := Some(effective));
      }
    }

    /** The message of a poll that goes ahead. */
    method OpenPoll(effective: C) returns (m: Message<C>)
      modifies this`polling, this`pollAgainImmediately, this`polls, this`sent, this`sequenceNum,
          this`pendingEffectiveConfig
      ensures LoopState() == old(LoopState()).(polling := true, pollAgain := false, polls := old(polls) + 1)
      ensures m == BuildMessage(old(OutboxState()), remoteConfigStatus, effective)
      ensures OutboxState() == old(OutboxState()).(sequenceNum := old(sequenceNum) + 1,
                pendingEffective := if m.effective.Some? then m.effective
                    else old(pendingEffectiveConfig), sent := old(sent) + [m])
    {
      hide BuildMessage;
      polling, pollAgainImmediately := true, false;
      m := BuildAgentToServerMessage(effective);
      polls, sent := polls + 1, sent + [m];
    }

    /** `_poll` up to its await; the result is the message handed to the transport, if any. */
    method BeginPoll(effective: C) returns (msg: Option<Message<C>>)
      modifies this`polling, this`pollAgainImmediately, this`polls, this`sent, this`sequenceNum,
          this`pendingEffectiveConfig
      ensures State() == OpampProtocol.BeginPoll(old(State()), effective)
      ensures sent == old(sent) + if msg.Some? then [msg.value] else []
      ensures msg.None? <==> stopping
    {
      hide BuildMessage;
      if stopping {
        return None;
      }
      var m := OpenPoll(effective);
      assert RemoteState() == old(RemoteState());
      msg := Some(m);
    }

    /** `_poll` after its await, up to its `finally`. */
    method HandleResponse(response: Response) returns (apply: Option<Apply>)
      requires applyInFlight <==> pending != []
      modifies this, eventLoop
      ensures State() == OpampProtocol.HandleResponse(old(State()), response)
      ensures HandsOver(apply, old(pending), pending)
    {
      hide OpampProtocol.ProcessServerResponse;
      apply := None;
      match response {
        case Ok(decoded) =>
          if pendingEffectiveConfig.Some? {
            lastSentEffectiveConfig := pendingEffectiveConfig;
            pendingEffectiveConfig := None;
          }
          if decoded.Some? {
            apply := ProcessServerResponse(decoded.value);
            backoff := NO_BACKOFF;
          }
        case Conflict =>
          lastSentEffectiveConfig := None;
          pendingEffectiveConfig := None;
        case OtherStatus =>
        case CommunicationError =>
      }
    }

    /** All of `_poll` after its await. */
    method PollResumes(response: Response, jitter: nat) returns (apply: Option<Apply>)
      requires polls > 0 && (applyInFlight <==> pending != [])
      modifies this, eventLoop
      ensures State() == FinishPoll(old(State()), response, jitter)
      ensures HandsOver(apply, old(pending), pending)
    {
      hide OpampProtocol.HandleResponse, OpampProtocol.ScheduleNextPoll;
      ghost var before := polls;
      apply := HandleResponse(response);
      EndPoll(before, jitter);
    }

    /** The `finally` of `_poll` and its trailing schedule. */
    method EndPoll(ghost before: nat, jitter: nat)
      requires before > 0
      modifies this`polling, this`polls, this`pollingTimer, this`backoff, eventLoop
      ensures var l := old(LoopState()).(polling := false, polls := before - 1);
              LoopState() == OpampProtocol.ScheduleNextPoll(l, if l.pollAgain then Some(0) else None, jitter)
    {
      hide OpampProtocol.ScheduleNextPoll;
      polling := false;
      polls := before - 1;
      ScheduleNextPoll(if pollAgainImmediately then Some(0) else None, jitter);
    }

    /** `start` up to the wait for the resource attributes. */
    method Start()
      requires OpampProtocol.Enabled(State(), OpampProtocol.Start)
      modifies this
      ensures State() == Next(old(State()), OpampProtocol.Start)
    {
      stopping := false;
      sequenceNum := 0;
      phase := Starting;
    }

    /** The rest of `start`: the first poll. */
    method AttributesReady(effective: C) returns (msg: Option<Message<C>>)
      requires OpampProtocol.Enabled(State(), OpampProtocol.AttributesReady(effective))
      modifies this
      ensures State() == Next(old(State()), OpampProtocol.AttributesReady(effective))
    {
      phase := Started;
      msg := BeginPoll(effective);
    }

    /** The callback of the polling timer. */
    method TimerFires(id: nat, effective: C) returns (msg: Option<Message<C>>)
      requires OpampProtocol.Enabled(State(), OpampProtocol.TimerFires(id, effective))
      modifies this, eventLoop`timers
      ensures State() == Next(old(State()), OpampProtocol.TimerFires(id, effective))
    {
      eventLoop.timers := eventLoop.timers - {id};
      msg := BeginPoll(effective);
    }

    /** `stop` up to the send of the disconnect message. */
    method Stop()
      requires OpampProtocol.Enabled(State(), OpampProtocol.Stop)
      modifies this, eventLoop
      ensures State() == Next(old(State()), OpampProtocol.Stop)
    {
      hide ClearTimer;
      EndLoop();
      sequenceNum := sequenceNum + 1;
    }

    /** The poll loop's part of `stop`. */
    method EndLoop()
      modifies this`stopping, this`pollingTimer, this`pollAgainImmediately, eventLoop`timers
      ensures LoopState() == ClearTimer(old(LoopState()).(stopping := true)).(pollAgain := false)
    {
      hide ClearTimer;
      stopping := true;
      ClearPollingTimer();
      pollAgainImmediately := false;
    }
  }

  /** Makes one step.  `hash` is the one kept for the apply in flight. */
  method Fire<C(==)>(client: OpAMPClient<C>, e: Event<C>, hash: Option<Bytes>) returns (hash': Option<Bytes>)
    requires Inv(client.State()) && Enabled(client.State(), e)
    requires client.pending != [] ==> client.pending[0].attempt.hash == hash
    modifies client, client.eventLoop
    ensures client.State() == Next(old(client.State()), e)
    ensures client.pending != [] ==> client.pending[0].attempt.hash == hash'
  {
    hide HandleResponse, ScheduleNextPoll, TriggerPoll, ReportsAgree, KeysAgree, BuildMessage, ClearTimer, OneLoop,
        StatusNotLost;
    ghost var c := client.State();
    S.StepKeeps(c, e);
    hash' := hash;
    match e
    case Start => client.Start();
    case AttributesReady(effective) => var msg := client.AttributesReady(effective);
    case TimerFires(id, effective) => var msg := client.TimerFires(id, effective);
    case PollResumes(response, jitter) =>
      var apply := client.PollResumes(response, jitter);
      if apply.Some? {
        hash' := apply.value.hash;
      } else {
        S.PendingStays(c, response);
      }
    case ApplyDone(failure) => client.ApplySettled(failure, hash);
    case Stop => client.Stop();
  }

  /** A whole run on one client object, which ends in the state of the run. */
  method RunClient<C(==)>(accepts: bool, interval: nat, events: seq<Event<C>>, ghost states: seq<Client<C>>)
    returns (client: OpAMPClient<C>)
    requires IsRun(states, events, accepts, interval)
    ensures client.State() == states[|events|]
  {
    hide Next, Inv, Enabled;
    client := new OpAMPClient<C>(accepts, interval);
    var hash: Option<Bytes> := None;
    for i := 0 to |events|
      invariant fresh(client) && fresh(client.eventLoop) && client.State() == states[i]
      invariant client.pending != [] ==> client.pending[0].attempt.hash == hash
    {
      S.EveryState(states, events, accepts, interval, i);
      hash := Fire(client, events[i], hash);
    }
  }
}
