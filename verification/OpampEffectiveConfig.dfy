/** When the effective configuration the client believes the server has is one the server acknowledged. */
module OpampEffectiveConfig {
  import opened Wrappers
  import opened OpampProtocol
  import opened OpampSafety

  /** The effective configuration the last message built carries, if it carries one. */
  function Carried<C>(o: Outbox<C>): Option<C> {
    if o.sent == [] then None else o.sent[|o.sent| - 1].effective
  }

  ghost predicate OutboxInv<C>(c: Client<C>) {
    && (c.out.pendingEffective.Some? ==> c.out.lastSent != c.out.pendingEffective)
    && (c.loop.polling && Carried(c.out).Some? ==> c.out.pendingEffective == Carried(c.out))
    && (c.loop.polling && Carried(c.out).None? ==> c.out.lastSent.Some?)
  }

  /** What a response does to the recorded and the pending configuration. */
  function Settle<C>(o: Outbox<C>, r: Response): Outbox<C> {
    match r
    case Ok(decoded) => if ReportsFull(r) then Acknowledge(o).(lastSent := None) else Acknowledge(o)
    case Conflict => o.(lastSent := None, pendingEffective := None)
    case _ => o
  }

  /** The server asks for everything to be sent again. */
  predicate ReportsFull(r: Response) {
    r.Ok? && r.decoded.Some? && r.decoded.value.Normal? && r.decoded.value.reportFullState
  }

  /** Only responses change the recorded configuration, and only polls build messages. */
  lemma {:induction false} OutboxAfter<C>(c: Client<C>, e: Event<C>)
    requires Inv(c) && Enabled(c, e)
    ensures e.PollResumes? ==> Next(c, e).out == Settle(c.out, e.response) && !Next(c, e).loop.polling && c.loop.polling
    ensures e.ApplyDone? ==> Next(c, e).out == c.out && Next(c, e).loop.polling == c.loop.polling
  {
    hide OneAttempt, BeginAttempt, SetStatus, Attempts, NextDelay;
  }

  lemma {:induction false} OutboxStep<C>(c: Client<C>, e: Event<C>)
    requires Inv(c) && OutboxInv(c) && Enabled(c, e)
    ensures OutboxInv(Next(c, e))
    ensures !e.PollResumes? ==> Next(c, e).out.lastSent == c.out.lastSent
  {
    hide OneAttempt, FinishPoll, FinishApply;
    OutboxAfter(c, e);
  }

  lemma {:induction false} EveryOutbox<C>(states: seq<Client<C>>, events: seq<Event<C>>, accepts: bool, interval: nat,
      i: nat)
    requires IsRun(states, events, accepts, interval) && i < |states|
    ensures OutboxInv(states[i])
  {
    if i > 0 {
      EveryOutbox(states, events, accepts, interval, i - 1);
      EveryState(states, events, accepts, interval, i - 1);
      OutboxStep(states[i - 1], events[i - 1]);
    }
  }

  // ----- what the server has acknowledged

  predicate Acks<C>(e: Event<C>) {
    e.PollResumes? && e.response.Ok?
  }

  /** Some message that a 200 response answered before step `i` carried `x`. */
  ghost predicate Acknowledged<C>(states: seq<Client<C>>, events: seq<Event<C>>, i: nat, x: C) {
    exists j :: 0 <= j < i && j < |events| && j < |states| && Acks(events[j]) && Carried(states[j].out) == Some(x)
  }

  /** The configuration carried by the latest of these messages that carried one. */
  function LastAcknowledged<C>(states: seq<Client<C>>, events: seq<Event<C>>, i: nat): Option<C>
    requires i <= |events| < |states|
  {
    if i == 0 then None
    else if Acks(events[i - 1]) && Carried(states[i - 1].out).Some? then Carried(states[i - 1].out)
    else LastAcknowledged(states, events, i - 1)
  }

  /** The recorded configuration, if any, is one the server has acknowledged. */
  ghost predicate Known<C>(states: seq<Client<C>>, events: seq<Event<C>>, i: nat)
    requires i < |states|
  {
    states[i].out.lastSent.Some? ==> Acknowledged(states, events, i, states[i].out.lastSent.value)
  }

  /** It is even the one acknowledged last. */
  ghost predicate Current<C>(states: seq<Client<C>>, events: seq<Event<C>>, i: nat)
    requires i <= |events| < |states|
  {
    states[i].out.lastSent.Some? ==> states[i].out.lastSent == LastAcknowledged(states, events, i)
  }

  /** A 200 response meets a pending configuration that its message did not carry: the send that carried it failed,
      and the configuration then went back to the recorded one. */
  predicate TakesUnsent<C>(c: Client<C>, e: Event<C>) {
    Acks(e) && !ReportsFull(e.response) && c.out.pendingEffective.Some? && Carried(c.out).None?
  }

  lemma {:induction false} AcknowledgedNext<C>(states: seq<Client<C>>, events: seq<Event<C>>, i: nat, x: C)
    requires i < |events| < |states|
    ensures Acknowledged(states, events, i + 1, x) <==>
            Acknowledged(states, events, i, x) || (Acks(events[i]) && Carried(states[i].out) == Some(x))
  {
    if Acknowledged(states, events, i + 1, x) {
      var j :| 0 <= j < i + 1 && j < |events| && j < |states| && Acks(events[j]) && Carried(states[j].out) == Some(x);
      assert j < i || j == i;
    }
  }

  /** How the recorded configuration moves in one step of a run. */
  lemma {:induction false} RecordedNext<C>(states: seq<Client<C>>, events: seq<Event<C>>, accepts: bool,
      interval: nat, i: nat)
    requires IsRun(states, events, accepts, interval) && i < |events|
    ensures var o, e := states[i].out, events[i];
            && states[i + 1].out.lastSent == (if e.PollResumes? then Settle(o, e.response).lastSent else o.lastSent)
            && (e.PollResumes? && Carried(o).Some? ==> o.pendingEffective == Carried(o))
            && (e.PollResumes? && Carried(o).None? ==> o.lastSent.Some?)
            && (o.pendingEffective.Some? ==> o.lastSent != o.pendingEffective)
  {
    hide Inv, Next, Enabled;
    EveryState(states, events, accepts, interval, i);
    EveryOutbox(states, events, accepts, interval, i);
    OutboxAfter(states[i], events[i]);
    OutboxStep(states[i], events[i]);
  }

  /** At every step, the recorded configuration is acknowledged afterwards exactly when: the server asked for
      everything anew; or the response took a pending configuration that its message carried or that was
      acknowledged before; or nothing was taken, and it was acknowledged before. */
  lemma {:induction false} AcknowledgedIff<C>(states: seq<Client<C>>, events: seq<Event<C>>, accepts: bool,
      interval: nat, i: nat)
    requires IsRun(states, events, accepts, interval) && i < |events|
    ensures var o, e := states[i].out, events[i];
            Known(states, events, i + 1) <==>
              if e.PollResumes? && (e.response.Conflict? || ReportsFull(e.response)) then true
              else if Acks(e) && o.pendingEffective.Some? then
                Carried(o).Some? || Acknowledged(states, events, i, o.pendingEffective.value)
              else Known(states, events, i)
  {
    hide IsRun, Acknowledged;
    RunLength(states, events, accepts, interval);
    RecordedNext(states, events, accepts, interval, i);
    if states[i + 1].out.lastSent.Some? {
      AcknowledgedNext(states, events, i, states[i + 1].out.lastSent.value);
    }
  }

  lemma {:induction false} RunLength<C>(states: seq<Client<C>>, events: seq<Event<C>>, accepts: bool, interval: nat)
    requires IsRun(states, events, accepts, interval)
    ensures |states| == |events| + 1 && states[0].out.lastSent == None
  {
  }

  /** The recorded configuration is acknowledged in every state of a run exactly when each pending configuration
      taken without being carried had been acknowledged before. */
  lemma {:induction false} RecordedIsKnownIff<C>(states: seq<Client<C>>, events: seq<Event<C>>, accepts: bool,
      interval: nat, n: nat)
    requires IsRun(states, events, accepts, interval) && n <= |events|
    ensures (forall k :: 0 <= k <= n ==> Known(states, events, k)) <==>
            forall i :: 0 <= i < n && TakesUnsent(states[i], events[i]) ==>
              Acknowledged(states, events, i, states[i].out.pendingEffective.value)
  {
    hide IsRun, Acknowledged, Known, TakesUnsent;
    RunLength(states, events, accepts, interval);
    if n == 0 {
      NothingRecorded(states, events);
    } else {
      RecordedIsKnownIff(states, events, accepts, interval, n - 1);
      KnownStep(states, events, accepts, interval, n - 1);
    }
  }

  lemma {:induction false} NothingRecorded<C>(states: seq<Client<C>>, events: seq<Event<C>>)
    requires |states| == |events| + 1 && states[0].out.lastSent == None
    ensures Known(states, events, 0) && Current(states, events, 0)
  {
  }

  lemma {:induction false} KnownStep<C>(states: seq<Client<C>>, events: seq<Event<C>>, accepts: bool, interval: nat,
      i: nat)
    requires IsRun(states, events, accepts, interval) && i < |events|
    ensures Known(states, events, i) ==>
              (Known(states, events, i + 1) <==>
               (TakesUnsent(states[i], events[i]) ==>
                   Acknowledged(states, events, i, states[i].out.pendingEffective.value)))
  {
    hide IsRun, Acknowledged, Known;
    RunLength(states, events, accepts, interval);
    AcknowledgedIff(states, events, accepts, interval, i);
  }

  /** It is the configuration acknowledged last, in every state of a run, exactly when no response takes a pending
      configuration that its message did not carry. */
  lemma {:induction false} RecordedIsCurrentIff<C>(states: seq<Client<C>>, events: seq<Event<C>>, accepts: bool,
      interval: nat, n: nat)
    requires IsRun(states, events, accepts, interval) && n <= |events|
    ensures (forall k :: 0 <= k <= n ==> Current(states, events, k)) <==>
            forall i :: 0 <= i < n ==> !TakesUnsent(states[i], events[i])
  {
    hide IsRun, Current, TakesUnsent;
    RunLength(states, events, accepts, interval);
    if n == 0 {
      NothingRecorded(states, events);
    } else {
      RecordedIsCurrentIff(states, events, accepts, interval, n - 1);
      CurrentStep(states, events, accepts, interval, n - 1);
    }
  }

  lemma {:induction false} CurrentStep<C>(states: seq<Client<C>>, events: seq<Event<C>>, accepts: bool, interval: nat,
      i: nat)
    requires IsRun(states, events, accepts, interval) && i < |events|
    ensures Current(states, events, i) ==> (Current(states, events, i + 1) <==> !TakesUnsent(states[i], events[i]))
  {
    hide IsRun;
    RunLength(states, events, accepts, interval);
    RecordedNext(states, events, accepts, interval, i);
  }

  // ----- a run that goes wrong

  const OK_EMPTY := Ok(Some(Normal(false, None)))

  /** Acknowledged `a`; a send of `b` that fails; back to `a`, which is not sent again: the next 200 response
      makes the client record `b`, which no response ever acknowledged. */
  function StaleRun<C>(a: C, b: C): seq<Event<C>> {
    [Start, AttributesReady(a), PollResumes(OK_EMPTY, 0), TimerFires(0, b), PollResumes(CommunicationError, 0),
     TimerFires(1, a), PollResumes(OK_EMPTY, 0)]
  }

  lemma {:induction false} StaleConfigIsRecorded<C>(a: C, b: C, interval: nat) returns (states: seq<Client<C>>)
    requires a != b
    ensures IsRun(states, StaleRun(a, b), false, interval)
    ensures states[7].out.lastSent == Some(b) && states[6].out.lastSent == Some(a) && Carried(states[6].out) == None
    ensures !Acknowledged(states, StaleRun(a, b), 7, b)
  {
    hide Next, Enabled, Waiting, Initial;
    var s0, s1, s2, s3 := FirstPoll(a, interval);
    var s4, s5 := Cycle(s3, 0, b, CommunicationError);
    var s6, s7 := Cycle(s5, 1, a, OK_EMPTY);
    states := [s0, s1, s2, s3, s4, s5, s6, s7];
    SevenSteps(states, StaleRun(a, b), interval);
    NeverAcknowledged(states, StaleRun(a, b), b);
  }

  lemma {:induction false} FirstPoll<C>(a: C, interval: nat)
    returns (s0: Client<C>, s1: Client<C>, s2: Client<C>, s3: Client<C>)
    ensures s0 == Initial<C>(false, interval)
    ensures Enabled(s0, Start) && s1 == Next(s0, Start) && Enabled(s1, AttributesReady(a))
    ensures s2 == Next(s1, AttributesReady(a))
    ensures Enabled(s2, PollResumes(OK_EMPTY, 0)) && s3 == Next(s2, PollResumes(OK_EMPTY, 0))
    ensures Waiting(s3, 0) && Carried(s2.out) == Some(a) && s3.out.lastSent == Some(a)
    ensures s3.out.pendingEffective == None
  {
    s0 := Initial<C>(false, interval);
    s1 := Next(s0, Start);
    s2 := Next(s1, AttributesReady(a));
    s3 := AfterIdleResponse(s2, OK_EMPTY);
  }

  lemma {:induction false} SevenSteps<C>(states: seq<Client<C>>, e: seq<Event<C>>, interval: nat)
    requires |states| == 8 && |e| == 7 && states[0] == Initial<C>(false, interval)
    requires Enabled(states[0], e[0]) && states[1] == Next(states[0], e[0])
    requires Enabled(states[1], e[1]) && states[2] == Next(states[1], e[1])
    requires Enabled(states[2], e[2]) && states[3] == Next(states[2], e[2])
    requires Enabled(states[3], e[3]) && states[4] == Next(states[3], e[3])
    requires Enabled(states[4], e[4]) && states[5] == Next(states[4], e[4])
    requires Enabled(states[5], e[5]) && states[6] == Next(states[5], e[5])
    requires Enabled(states[6], e[6]) && states[7] == Next(states[6], e[6])
    ensures IsRun(states, e, false, interval)
  {
    hide Next, Enabled, Initial;
  }

  lemma {:induction false} NeverAcknowledged<C>(states: seq<Client<C>>, e: seq<Event<C>>, b: C)
    requires |states| == 8 && |e| == 7
    requires !Acks(e[0]) && !Acks(e[1]) && !Acks(e[3]) && !Acks(e[4]) && !Acks(e[5])
    requires Carried(states[2].out) != Some(b) && Carried(states[6].out) != Some(b)
    ensures !Acknowledged(states, e, 7, b)
  {
    hide Carried, Acks;
  }

  /** Between two polls, with timer `id` armed. */
  ghost predicate Waiting<C>(c: Client<C>, id: nat) {
    && c.loop.timers.Keys == {id} && c.loop.nextTimer == id + 1 && c.loop.pollingTimer == Some(id)
    && c.loop.polls == 0 && !c.loop.polling && !c.loop.pollAgain && !c.loop.stopping && c.loop.backoff == NO_BACKOFF
  }

  /** The timer fires, and the poll is answered without a configuration, or fails. */
  lemma {:induction false} Cycle<C>(c: Client<C>, id: nat, effective: C, r: Response)
    returns (mid: Client<C>, d: Client<C>)
    requires Waiting(c, id) && (r == OK_EMPTY || r == CommunicationError)
    ensures Enabled(c, TimerFires(id, effective)) && mid == Next(c, TimerFires(id, effective))
    ensures Enabled(mid, PollResumes(r, 0)) && d == Next(mid, PollResumes(r, 0)) && Waiting(d, id + 1)
    ensures Carried(mid.out) == (if c.out.lastSent == Some(effective) then None else Some(effective))
    ensures mid.out.lastSent == c.out.lastSent
    ensures mid.out.pendingEffective == if Carried(mid.out).Some? then Carried(mid.out) else c.out.pendingEffective
    ensures d.out == if r.Ok? then Acknowledge(mid.out) else mid.out
  {
    mid := Next(c, TimerFires(id, effective));
    assert c.loop.timers - {id} == map[];
    d := AfterIdleResponse(mid, r);
  }

  /** A response without a configuration, on a client with no timer armed. */
  lemma {:induction false} AfterIdleResponse<C>(c: Client<C>, r: Response) returns (d: Client<C>)
    requires r == OK_EMPTY || r == CommunicationError
    requires c.loop.polls > 0 && !c.loop.stopping && c.loop.timers == map[] && c.loop.backoff == NO_BACKOFF
    requires !c.loop.pollAgain
    ensures Enabled(c, PollResumes(r, 0)) && d == Next(c, PollResumes(r, 0))
    ensures d.loop ==
        c.loop.(polling := false, polls := c.loop.polls - 1,
            timers := map[c.loop.nextTimer := c.loop.pollingIntervalMs],
                              pollingTimer := Some(c.loop.nextTimer), nextTimer := c.loop.nextTimer + 1)
    ensures d.remote == c.remote && d.acceptsRemoteConfig == c.acceptsRemoteConfig
    ensures d.out == if r.Ok? then Acknowledge(c.out) else c.out
  {
    d := Next(c, PollResumes(r, 0));
    assert ClearTimer(c.loop).timers == map[];
  }
}
