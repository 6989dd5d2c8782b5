/** What every interleaving of the OpAMP client keeps. */
module OpampSafety {
  import opened Wrappers
  import opened OpampProtocol

  // ----- the poll loop

  lemma {:induction false} BeginPollKeeps<C>(c: Client<C>, eff: C)
    requires c.loop.polls == 0 && !c.loop.polling && c.loop.timers == map[] && c.loop.backoff == NO_BACKOFF
    requires c.loop.phase == Started && OneAttempt(c.remote) && TimerTracked(c.loop)
    ensures Inv(BeginPoll(c, eff))
  {
    hide OneAttempt;
  }

  lemma {:induction false} ScheduleArms(l: Loop, delay: Option<nat>, jitter: nat)
    requires TimerTracked(l) && !l.stopping && l.backoff == NO_BACKOFF
    ensures ScheduleNextPoll(l, delay, jitter) ==
            l.(timers := map[l.nextTimer := if delay.Some? then delay.value else l.pollingIntervalMs],
               pollingTimer := Some(l.nextTimer), nextTimer := l.nextTimer + 1)
  {
    assert ClearTimer(l).timers == map[];
  }

  /** Scheduling while no poll runs replaces the armed timer, if any, by one new timer. */
  lemma {:induction false} ScheduleKeeps(l: Loop, delay: Option<nat>, jitter: nat)
    requires l.polls == 0 && !l.polling && l.backoff == NO_BACKOFF && l.phase == Started && TimerTracked(l)
    requires l.stopping ==> l.timers == map[]
    requires delay.Some? ==> delay.value == 0
    ensures OneLoop(ScheduleNextPoll(l, delay, jitter))
    ensures delay.Some? && !l.stopping ==> PollIsDue(ScheduleNextPoll(l, delay, jitter))
    ensures ScheduleNextPoll(l, delay, jitter).stopping == l.stopping
    ensures ScheduleNextPoll(l, delay, jitter).phase == l.phase
  {
    if !l.stopping {
      ScheduleArms(l, delay, jitter);
    }
  }

  lemma {:induction false} TriggerKeeps(l: Loop)
    requires OneLoop(l) && l.phase == Started
    ensures OneLoop(TriggerPoll(l)) && (!l.stopping ==> PollIsDue(TriggerPoll(l)))
    ensures TriggerPoll(l).stopping == l.stopping && TriggerPoll(l).phase == l.phase
  {
    if !l.stopping && !l.polling {
      ScheduleKeeps(l, Some(0), 0);
    }
  }

  // ----- remote configuration

  lemma {:induction false} ReportsOfAppend(reports: seq<Report>, r: Report, id: nat)
    ensures ReportsOf(reports + [r], id) == ReportsOf(reports, id) + (if r.id == id then [r.status] else [])
  {
    assert (reports + [r])[..|reports|] == reports;
  }

  lemma {:induction false} NoReportsYet(reports: seq<Report>, id: nat)
    requires forall r :: r in reports ==> r.id != id
    ensures ReportsOf(reports, id) == []
  {
    if reports != [] {
      NoReportsYet(reports[..|reports| - 1], id);
    }
  }

  /** A configuration that is attempted has another key than the last one attempted. */
  lemma {:induction false} NewKey(r: Remote, rc: RemoteConfig)
    requires KeysAgree(r.lastHash, r.lastBody, r.attempts) && !IsRepeat(r, rc)
    ensures var d := Record(r, rc);
            KeysAgree(d.lastHash, d.lastBody, d.attempts) && d.attempts == r.attempts + [NewAttempt(r, rc)]
  {
  }

  lemma {:induction false} AttemptIds(r: Remote)
    requires KeysAgree(r.lastHash, r.lastBody, r.attempts)
    ensures forall i :: 0 <= i < |r.attempts| ==> r.attempts[i].id == i
    ensures forall b :: b in r.attempts ==> b.id < |r.attempts|
  {
  }

  /** The first report of a new attempt `a`. */
  lemma {:induction false} FirstReport(pending: seq<Pending>, attempts: seq<Attempt>, reports: seq<Report>,
      status: Option<Status>, a: Attempt, kind: StatusKind, error: string, pending': seq<Pending>)
    requires ReportsAgree(pending, attempts, reports, status) && a.id == |attempts|
    requires forall p :: p in pending ==> p.attempt in attempts
    requires forall b :: b in attempts ==> b.id < |attempts|
    requires if a.direct then kind == Failed && a.hash == None && pending' == pending
             else kind == Applying && error == "" && pending == [] && |pending'| == 1 && pending'[0].attempt == a
    ensures ReportsAgree(pending', attempts + [a], reports + [Report(a.id, Status(kind, a.hash, error))],
        Some(Status(kind, a.hash, error)))
  {
    var r := Report(a.id, Status(kind, a.hash, error));
    NoReportsYet(reports, a.id);
    forall b | b in attempts + [a]
      ensures ProperReports(b, pending' != [] && pending'[0].attempt == b, ReportsOf(reports + [r], b.id))
    {
      ReportsOfAppend(reports, r, b.id);
      if b in attempts {
        assert b.id != a.id;
      }
    }
  }

  /** The last report of the attempt in flight. */
  lemma {:induction false} LastReport(pending: seq<Pending>, attempts: seq<Attempt>, reports: seq<Report>,
      status: Option<Status>, a: Attempt, kind: StatusKind, error: string)
    requires ReportsAgree(pending, attempts, reports, status) && (kind == Failed || (kind == Applied && error == ""))
    requires |pending| == 1 && pending[0].attempt == a && a in attempts && !a.direct
    requires forall i :: 0 <= i < |attempts| ==> attempts[i].id == i
    ensures ReportsAgree([], attempts, reports + [Report(a.id, Status(kind, a.hash, error))],
        Some(Status(kind, a.hash, error)))
  {
    var r := Report(a.id, Status(kind, a.hash, error));
    forall b | b in attempts
      ensures ProperReports(b, false, ReportsOf(reports + [r], b.id))
    {
      ReportsOfAppend(reports, r, b.id);
      if b.id == a.id {
        assert b == a;
      }
    }
  }

  lemma {:induction false} ParseFailureKeeps(r: Remote, rc: RemoteConfig)
    requires OneAttempt(r) && Attempts(r, rc) && !rc.hash.Unreadable? && rc.parsed.Failure?
    ensures OneAttempt(BeginAttempt(r, rc))
  {
    var a := NewAttempt(r, rc);
    NewKey(r, rc);
    AttemptIds(r);
    AttemptIds(Record(r, rc));
    var report := Report(a.id, Status(Applying, a.hash, ""));
    var failed := Report(a.id, Status(Failed, a.hash, rc.parsed.error));
    assert BeginAttempt(r, rc) ==
        Record(r, rc).(status := Some(failed.status), reports := r.reports + [report] + [failed]);
    hide KeysAgree, ReportsAgree, BeginAttempt;
    var cfg := ProfilingConfig(false, None, false, false, None);
    FirstReport([], r.attempts, r.reports, r.status, a, Applying, "", [Pending(a, cfg)]);
    LastReport([Pending(a, cfg)], r.attempts + [a], r.reports + [report], Some(report.status), a, Failed,
        rc.parsed.error);
  }

  lemma {:induction false} BeginAttemptKeeps(r: Remote, rc: RemoteConfig)
    requires OneAttempt(r) && Attempts(r, rc)
    ensures OneAttempt(BeginAttempt(r, rc))
  {
    var a := NewAttempt(r, rc);
    NewKey(r, rc);
    AttemptIds(r);
    hide KeysAgree, ReportsAgree;
    if rc.hash.Unreadable? {
      FirstReport(r.pending, r.attempts, r.reports, r.status, a, Failed, rc.hash.error, r.pending);
    } else if rc.parsed.Failure? {
      ParseFailureKeeps(r, rc);
    } else {
      FirstReport([], r.attempts, r.reports, r.status, a, Applying, "", [Pending(a, rc.parsed.value)]);
    }
  }

  lemma {:induction false} FinishAttemptKeeps(r: Remote, kind: StatusKind, error: string)
    requires OneAttempt(r) && r.pending != [] && (kind == Failed || (kind == Applied && error == ""))
    ensures OneAttempt(SetStatus(r.(pending := r.pending[1..], applyInFlight := false), r.pending[0].attempt, kind,
        error))
  {
    AttemptIds(r);
    LastReport(r.pending, r.attempts, r.reports, r.status, r.pending[0].attempt, kind, error);
    assert r.pending[1..] == [];
  }

  // ----- the steps

  /** A configuration pushed while a poll runs at most asks it to repeat, and does so when it is acted upon. */
  lemma {:induction false} PushKeeps<C>(c: Client<C>, rc: RemoteConfig)
    requires c.loop.polling && OneAttempt(c.remote)
    ensures var d := HandleRemoteConfig(c, rc);
            && OneAttempt(d.remote) && d == c.(remote := d.remote, loop := c.loop.(pollAgain := d.loop.pollAgain))
            && (d.remote == c.remote || d.loop.pollAgain) && (c.loop.pollAgain ==> d.loop.pollAgain)
            && (c.loop.stopping ==> d.remote == c.remote)
  {
    hide OneAttempt, BeginAttempt;
    if Attempts(c.remote, rc) {
      BeginAttemptKeeps(c.remote, rc);
    }
  }

  /** While a poll runs, its response only asks it to repeat, and does so when it changes the remote-config state. */
  lemma {:induction false} ResponseKeeps<C>(c: Client<C>, r: Response)
    requires OneLoop(c.loop) && c.loop.polling && OneAttempt(c.remote)
    ensures var d := HandleResponse(c, r);
            && OneAttempt(d.remote) && d.loop == c.loop.(pollAgain := d.loop.pollAgain)
            && (d.remote == c.remote || d.loop.pollAgain) && (c.loop.pollAgain ==> d.loop.pollAgain)
            && d.out.sent == c.out.sent && d.acceptsRemoteConfig == c.acceptsRemoteConfig
            && (c.loop.stopping ==> d.remote == c.remote)
  {
    hide OneAttempt, HandleRemoteConfig, TimerTracked;
    if r.Ok? && r.decoded.Some? && r.decoded.value.Normal? && r.decoded.value.remoteConfig.Some? {
      var full := r.decoded.value.reportFullState;
      var o := Acknowledge(c.out);
      var c1 := c.(loop := c.loop.(backoff := NO_BACKOFF), out := if full then o.(lastSent := None) else o);
      PushKeeps(c1, r.decoded.value.remoteConfig.value);
    }
  }

  /** The apply in flight stays in front while responses are handled. */
  lemma {:induction false} PendingStays<C>(c: Client<C>, r: Response)
    requires FlightAgrees(c.remote.pending, c.remote.applyInFlight, c.remote.attempts)
    ensures c.remote.pending <= HandleResponse(c, r).remote.pending
  {
    hide TriggerPoll, NewAttempt;
  }

  lemma {:induction false} FinishPollKeeps<C>(c: Client<C>, r: Response, jitter: nat)
    requires Inv(c) && c.loop.polls > 0
    ensures Inv(FinishPoll(c, r, jitter))
  {
    ResponseKeeps(c, r);
    hide OneAttempt, HandleResponse, ScheduleNextPoll;
    var l := HandleResponse(c, r).loop.(polling := false, polls := c.loop.polls - 1);
    ScheduleKeeps(l, if l.pollAgain then Some(0) else None, jitter);
  }

  lemma {:induction false} FinishApplyKeeps<C>(c: Client<C>, failure: Option<string>)
    requires Inv(c) && c.remote.pending != []
    ensures Inv(FinishApply(c, failure))
  {
    FinishAttemptKeeps(c.remote, if failure.None? then Applied else Failed, failure.GetOr(""));
    TriggerKeeps(c.loop);
    hide OneAttempt, TriggerPoll, OneLoop;
  }

  lemma {:induction false} StepKeeps<C>(c: Client<C>, e: Event<C>)
    requires Inv(c) && Enabled(c, e)
    ensures Inv(Next(c, e))
  {
    hide OneAttempt, FinishPoll, FinishApply, BeginPoll;
    match e
    case Start =>
    case AttributesReady(eff) => BeginPollKeeps(c.(loop := c.loop.(phase := Started)), eff);
    case TimerFires(id, eff) =>
      assert c.loop.timers - {id} == map[];
      BeginPollKeeps(c.(loop := c.loop.(timers := c.loop.timers - {id})), eff);
    case PollResumes(r, jitter) => FinishPollKeeps(c, r, jitter);
    case ApplyDone(failure) => FinishApplyKeeps(c, failure);
    case Stop =>
  }

  /** The invariant holds in every state of every run. */
  lemma {:induction false} EveryState<C>(states: seq<Client<C>>, events: seq<Event<C>>, accepts: bool, interval: nat,
      i: nat)
    requires IsRun(states, events, accepts, interval) && i < |states|
    ensures Inv(states[i])
  {
    if i > 0 {
      EveryState(states, events, accepts, interval, i - 1);
      StepKeeps(states[i - 1], events[i - 1]);
    }
  }

  // ----- the promises

  /** At most one poll is in flight and at most one timer armed, never both; a started client that is not
      stopping always has one of the two; and a stopping client has no timer. */
  lemma {:induction false} OnePollOrOneTimer<C>(states: seq<Client<C>>, events: seq<Event<C>>, accepts: bool,
      interval: nat, i: nat)
    requires IsRun(states, events, accepts, interval) && i < |states|
    ensures var l := states[i].loop;
            && l.polls <= 1
            && (forall s, t :: s in l.timers && t in l.timers ==> s == t)
            && (l.polls == 1 ==> l.timers == map[])
            && (l.phase == Started && !l.stopping ==> l.polls == 1 || l.timers != map[])
            && (l.stopping ==> l.timers == map[])
  {
    EveryState(states, events, accepts, interval, i);
  }

  /** A step that reports a status triggers a poll, and leaves one due at once. */
  lemma {:induction false} ReportTriggers<C>(c: Client<C>, e: Event<C>)
    requires Inv(c) && Enabled(c, e) && |Next(c, e).remote.reports| > |c.remote.reports|
    ensures Next(c, e).loop.stopping || PollIsDue(Next(c, e).loop)
  {
    hide OneAttempt, HandleResponse, SetStatus, ScheduleNextPoll, TriggerPoll, PollIsDue;
    match e
    case PollResumes(r, jitter) =>
      ResponseKeeps(c, r);
      var l := HandleResponse(c, r).loop.(polling := false, polls := c.loop.polls - 1);
      ScheduleKeeps(l, if l.pollAgain then Some(0) else None, jitter);
    case ApplyDone(failure) =>
      TriggerKeeps(c.loop);
    case _ =>
  }

  /** A poll that is due stays due until a message is built or the client stops. */
  lemma {:induction false} DueStep<C>(c: Client<C>, e: Event<C>)
    requires Inv(c) && Enabled(c, e) && PollIsDue(c.loop)
    ensures var d := Next(c, e); d.loop.stopping || |d.out.sent| > |c.out.sent| || PollIsDue(d.loop)
  {
    hide OneAttempt, HandleResponse, SetStatus, ScheduleNextPoll, TriggerPoll;
    match e
    case PollResumes(r, jitter) =>
      ResponseKeeps(c, r);
      var l := HandleResponse(c, r).loop.(polling := false, polls := c.loop.polls - 1);
      ScheduleKeeps(l, if l.pollAgain then Some(0) else None, jitter);
    case ApplyDone(failure) =>
      TriggerKeeps(c.loop);
    case _ =>
  }

  /** Messages are only added, and a client that stops stays stopped. */
  lemma {:induction false} StepOnward<C>(c: Client<C>, e: Event<C>)
    requires Inv(c) && Enabled(c, e)
    ensures |c.out.sent| <= |Next(c, e).out.sent| && (c.loop.stopping ==> Next(c, e).loop.stopping)
  {
    hide OneAttempt, HandleResponse, SetStatus, ScheduleNextPoll, TriggerPoll;
    match e
    case PollResumes(r, jitter) =>
      ResponseKeeps(c, r);
      var l := HandleResponse(c, r).loop.(polling := false, polls := c.loop.polls - 1);
      ScheduleKeeps(l, if l.pollAgain then Some(0) else None, jitter);
    case ApplyDone(failure) =>
      TriggerKeeps(c.loop);
    case _ =>
  }

  lemma {:induction false} DueUntilSent<C>(states: seq<Client<C>>, events: seq<Event<C>>, accepts: bool,
      interval: nat, i: nat, j: nat)
    requires IsRun(states, events, accepts, interval) && i <= j < |states|
    requires (states[i].loop.stopping || PollIsDue(states[i].loop))
    ensures states[j].loop.stopping || |states[j].out.sent| > |states[i].out.sent| || PollIsDue(states[j].loop)
    ensures |states[j].out.sent| >= |states[i].out.sent|
    decreases j
  {
    hide Next, Enabled, Inv, PollIsDue;
    if i < j {
      DueUntilSent(states, events, accepts, interval, i, j - 1);
      EveryState(states, events, accepts, interval, j - 1);
      StepOnward(states[j - 1], events[j - 1]);
      if PollIsDue(states[j - 1].loop) {
        DueStep(states[j - 1], events[j - 1]);
      }
    }
  }

  /** A triggered poll is never lost.  Every reported status triggers one; from then on, at any time, the client is
      stopping, or has built a message since, or has a poll due at once. */
  lemma {:induction false} TriggeredPollNotLost<C>(states: seq<Client<C>>, events: seq<Event<C>>, accepts: bool,
      interval: nat, i: nat, j: nat)
    requires IsRun(states, events, accepts, interval) && i < j < |states|
    requires |states[i + 1].remote.reports| > |states[i].remote.reports|
    ensures states[j].loop.stopping || |states[j].out.sent| > |states[i + 1].out.sent| || PollIsDue(states[j].loop)
  {
    hide Next, Enabled, Inv, PollIsDue;
    EveryState(states, events, accepts, interval, i);
    ReportTriggers(states[i], events[i]);
    DueUntilSent(states, events, accepts, interval, i + 1, j);
  }

  /** Every message carries the status that is current when it is built, and while that is not the current one any
      more, a poll is due at once. */
  lemma {:induction false} MessagesCarryStatus<C>(states: seq<Client<C>>, events: seq<Event<C>>, accepts: bool,
      interval: nat, i: nat)
    requires IsRun(states, events, accepts, interval) && i < |events|
    ensures var c, d := states[i], states[i + 1];
            && (!c.loop.stopping && LastReported(c.out) != c.remote.status ==> PollIsDue(c.loop))
            && (|d.out.sent| > |c.out.sent| ==> LastReported(d.out) == c.remote.status)
  {
    hide OneAttempt, HandleResponse, ScheduleNextPoll, TriggerPoll;
    EveryState(states, events, accepts, interval, i);
    if events[i].PollResumes? {
      ResponseKeeps(states[i], events[i].response);
    }
  }

  /** The server's retry delay never takes effect: every armed timer has no delay or the polling interval. */
  lemma {:induction false} RetryDelayNeverHonoured<C>(states: seq<Client<C>>, events: seq<Event<C>>, accepts: bool,
      interval: nat, i: nat)
    requires IsRun(states, events, accepts, interval) && i < |states|
    ensures forall id :: id in states[i].loop.timers ==>
        states[i].loop.timers[id] == 0 || states[i].loop.timers[id] == interval
  {
    EveryState(states, events, accepts, interval, i);
    IntervalIsFixed(states, events, accepts, interval, i);
  }

  /** A run in which the server asks for a delay: the delay is noted while the response is processed, and the timer
      armed at the end of the poll has the polling interval all the same. */
  lemma {:induction false} RetryDelayExample<C>(effective: C, delay: nat, interval: nat)
    returns (states: seq<Client<C>>, events: seq<Event<C>>)
    requires delay > interval
    ensures IsRun(states, events, false, interval) && |states| == 4
    ensures var error := ErrorResponse(Some(delay));
            events[2] == PollResumes(Ok(Some(error)), 0)
            && ProcessServerResponse(states[2], error).loop.backoff.minDelay == Some(delay)
    ensures states[3].loop.timers == map[0 := interval]
  {
    events := [Start, AttributesReady(effective), PollResumes(Ok(Some(ErrorResponse(Some(delay)))), 0)];
    var s0 := Initial<C>(false, interval);
    var s1 := Next(s0, events[0]);
    var s2 := Next(s1, events[1]);
    states := [s0, s1, s2, Next(s2, events[2])];
  }

  lemma {:induction false} IntervalIsFixed<C>(states: seq<Client<C>>, events: seq<Event<C>>, accepts: bool,
      interval: nat, i: nat)
    requires IsRun(states, events, accepts, interval) && i < |states|
    ensures states[i].loop.pollingIntervalMs == interval && states[i].acceptsRemoteConfig == accepts
  {
    hide Inv, Next, Enabled;
    if i > 0 {
      IntervalIsFixed(states, events, accepts, interval, i - 1);
      EveryState(states, events, accepts, interval, i - 1);
      StepFixes(states[i - 1], events[i - 1]);
    }
  }

  lemma {:induction false} StepFixes<C>(c: Client<C>, e: Event<C>)
    requires Inv(c) && Enabled(c, e)
    ensures Next(c, e).loop.pollingIntervalMs == c.loop.pollingIntervalMs
    ensures Next(c, e).acceptsRemoteConfig == c.acceptsRemoteConfig
  {
    hide OneAttempt, HandleResponse, TimerTracked;
    if e.PollResumes? {
      ResponseKeeps(c, e.response);
    }
  }

  /** At most one apply is pending; consecutive attempts have different keys; the two stored keys are never both
      set and hold the last attempt's key; and every attempt reports APPLYING and then, once it is over, exactly
      one of APPLIED and FAILED, with its own hash. */
  lemma {:induction false} OneAttemptPerConfig<C>(states: seq<Client<C>>, events: seq<Event<C>>, accepts: bool,
      interval: nat, i: nat)
    requires IsRun(states, events, accepts, interval) && i < |states|
    ensures var r := states[i].remote;
            && |r.pending| <= 1 && (r.applyInFlight <==> |r.pending| == 1)
            && !(r.lastHash.Some? && r.lastBody.Some?)
            && StoredKey(r.lastHash, r.lastBody) ==
                (if r.attempts == [] then None else Some(r.attempts[|r.attempts| - 1].key))
            && (forall k :: 0 <= k < |r.attempts| - 1 ==> r.attempts[k].key != r.attempts[k + 1].key)
            && (forall a :: a in r.attempts ==>
                  ProperReports(a, r.pending != [] && r.pending[0].attempt == a, ReportsOf(r.reports, a.id)))
  {
    EveryState(states, events, accepts, interval, i);
  }

  ghost predicate Numbered<C>(c: Client<C>) {
    && (forall k :: 0 <= k < |c.out.sent| ==> c.out.sent[k].sequenceNum == k)
    && (!c.loop.stopping ==> c.out.sequenceNum == |c.out.sent|)
    && (c.loop.phase == Created ==> c.out.sent == [])
  }

  lemma {:induction false} ResponseSendsNothing<C>(c: Client<C>, r: Response)
    ensures var d := HandleResponse(c, r);
            && d.out.sent == c.out.sent && d.out.sequenceNum == c.out.sequenceNum
            && d.loop.stopping == c.loop.stopping && d.loop.phase == c.loop.phase
  {
    hide BeginAttempt, Attempts, NextDelay;
  }

  lemma {:induction false} StepNumbers<C>(c: Client<C>, e: Event<C>)
    requires Inv(c) && Numbered(c) && Enabled(c, e)
    ensures Numbered(Next(c, e))
  {
    hide HandleResponse, NextDelay, SetStatus, OneAttempt;
    if e.PollResumes? {
      ResponseSendsNothing(c, e.response);
    }
  }

  /** Messages are numbered from zero without gaps, as the server expects. */
  lemma {:induction false} SequenceNumbers<C>(states: seq<Client<C>>, events: seq<Event<C>>, accepts: bool,
      interval: nat, i: nat)
    requires IsRun(states, events, accepts, interval) && i < |states|
    ensures forall k :: 0 <= k < |states[i].out.sent| ==> states[i].out.sent[k].sequenceNum == k
    ensures Numbered(states[i])
  {
    hide Next, Enabled, Inv;
    if i > 0 {
      EveryState(states, events, accepts, interval, i - 1);
      SequenceNumbers(states, events, accepts, interval, i - 1);
      StepNumbers(states[i - 1], events[i - 1]);
    }
  }

  /** A configuration dropped because an apply is in flight leaves no trace, so the same push is attempted once
      that apply is over, unless it repeats the key that apply had. */
  lemma {:induction false} DroppedIsNotRecorded<C>(c: Client<C>, rc: RemoteConfig, failure: Option<string>)
    requires Inv(c) && c.acceptsRemoteConfig && !c.loop.stopping && c.remote.applyInFlight && !rc.hash.Unreadable?
    ensures HandleRemoteConfig(c, rc) == c
    ensures var d := FinishApply(c, failure);
            Attempts(d.remote, rc) <==> StoredKey(c.remote.lastHash, c.remote.lastBody) != Some(KeyOf(rc))
  {
  }
}
