/** What the client makes of each push, each settled apply and each poll, told by the fields of its state. */
module OpampOutcomes {
  import opened Arithmetic
  import opened Wrappers
  import opened OpampProtocol
  import S = OpampSafety

  // ----- settled applies

  /** What a settled apply leaves: APPLIED when it resolved, and FAILED with the error when it was rejected, with the
      hash of the attempt it was. */
  predicate Settled(r: Remote, d: Remote, failure: Option<string>)
    requires r.pending != []
  {
    var a := r.pending[0].attempt;
    var status := match failure
      case None => Status(Applied, a.hash, "")
      case Some(error) => Status(Failed, a.hash, error);
    && d.status == Some(status) && d.reports == r.reports + [Report(a.id, status)]
    && d.pending == [] && !d.applyInFlight
    && d.attempts == r.attempts && d.lastHash == r.lastHash && d.lastBody == r.lastBody
  }

  lemma {:induction false} SettleStep<C>(c: Client<C>, failure: Option<string>)
    requires Inv(c) && c.remote.pending != []
    ensures |c.remote.pending| == 1 && Settled(c.remote, Next(c, ApplyDone(failure)).remote, failure)
    ensures Next(c, ApplyDone(failure)).out == c.out
  {
    hide TriggerPoll, ReportsAgree, KeysAgree, OneLoop;
  }

  /** When an apply settles, the status and the last report say how, and a poll is then due at once. */
  lemma {:induction false} SettledApplyReports<C>(states: seq<Client<C>>, events: seq<Event<C>>, accepts: bool,
      interval: nat, i: nat)
    requires IsRun(states, events, accepts, interval) && i < |events| && events[i].ApplyDone?
    ensures |states[i].remote.pending| == 1
    ensures Settled(states[i].remote, states[i + 1].remote, events[i].failure)
    ensures states[i + 1].loop.stopping || PollIsDue(states[i + 1].loop)
    ensures states[i + 1].out == states[i].out
  {
    hide Inv, Next, Settled, PollIsDue;
    S.EveryState(states, events, accepts, interval, i);
    SettleStep(states[i], events[i].failure);
    SettledGrows(states[i].remote, states[i + 1].remote, events[i].failure);
    S.ReportTriggers(states[i], events[i]);
  }

  lemma {:induction false} SettledGrows(r: Remote, d: Remote, failure: Option<string>)
    requires r.pending != [] && Settled(r, d, failure)
    ensures |d.reports| > |r.reports|
  {
  }

  // ----- pushes

  /** The configuration is not the one attempted last, told by its hash when that can be read and by its body
      otherwise; and no apply is in flight, which does not hold up a hash that cannot be read. */
  predicate Wanted(r: Remote, rc: RemoteConfig) {
    var key := match rc.hash
      case Readable(h) => ByHash(h)
      case Absent => ByBody(rc.body)
      case Unreadable(_) => ByBody(rc.body);
    && (r.attempts == [] || r.attempts[|r.attempts| - 1].key != key)
    && (r.pending == [] || rc.hash.Unreadable?)
  }

  /** One more attempt, with its reports; its configuration is handed over when it could be parsed. */
  predicate Answered(r: Remote, d: Remote, rc: RemoteConfig) {
    match rc.hash
    case Unreadable(error) =>
      && d.attempts == r.attempts + [Attempt(|r.attempts|, ByBody(rc.body), None, true)]
      && d.reports == r.reports + [Report(|r.attempts|, Status(Failed, None, error))]
      && d.pending == r.pending
    case Readable(h) => AnsweredAs(r, d, ByHash(h), Some(h), rc.parsed)
    case Absent => AnsweredAs(r, d, ByBody(rc.body), None, rc.parsed)
  }

  predicate AnsweredAs(r: Remote, d: Remote, key: Key, hash: Option<Bytes>, parsed: Result<ProfilingConfig>) {
    var a := Attempt(|r.attempts|, key, hash, false);
    var applying := Report(a.id, Status(Applying, hash, ""));
    && d.attempts == r.attempts + [a]
    && match parsed
       case Success(config) => d.reports == r.reports + [applying] && d.pending == [Pending(a, config)]
       case Failure(error) =>
         d.reports == r.reports + [applying] + [Report(a.id, Status(Failed, hash, error))] && d.pending == r.pending
  }

  /** The stored keys tell what the log of attempts tells. */
  lemma {:induction false} WantedIff(r: Remote, rc: RemoteConfig)
    requires OneAttempt(r)
    ensures Attempts(r, rc) <==> Wanted(r, rc)
  {
    hide ReportsAgree;
  }

  lemma {:induction false} AttemptAnswers(r: Remote, rc: RemoteConfig)
    requires FlightAgrees(r.pending, r.applyInFlight, r.attempts) && Attempts(r, rc)
    ensures Answered(r, BeginAttempt(r, rc), rc)
  {
  }

  /** The configuration a response carries, for a client that listens. */
  function Pushed<C>(c: Client<C>, e: Event<C>): Option<RemoteConfig> {
    if c.acceptsRemoteConfig && !c.loop.stopping && e.PollResumes? then
      match e.response
      case Ok(Some(Normal(_, rc))) => rc
      case _ => None
    else None
  }

  lemma {:induction false} PushStep<C>(c: Client<C>, e: Event<C>)
    requires Inv(c) && Enabled(c, e) && !e.ApplyDone?
    ensures var pushed := Pushed(c, e);
            if pushed.Some? && Wanted(c.remote, pushed.value) then Answered(c.remote, Next(c, e).remote, pushed.value)
            else Next(c, e).remote == c.remote
  {
    hide OneAttempt, Attempts, BeginAttempt, Wanted, Answered, ScheduleNextPoll, TriggerPoll, OneLoop, StatusNotLost;
    var pushed := Pushed(c, e);
    if pushed.Some? {
      WantedIff(c.remote, pushed.value);
      if Attempts(c.remote, pushed.value) {
        FlightOf(c.remote);
        AttemptAnswers(c.remote, pushed.value);
      }
    }
  }

  /** A pushed configuration is attempted exactly when it is wanted, and then its outcome up to the await is
      reported; nothing else but a settling apply changes what is known of remote configurations. */
  lemma {:induction false} PushAnswered<C>(states: seq<Client<C>>, events: seq<Event<C>>, accepts: bool,
      interval: nat, i: nat)
    requires IsRun(states, events, accepts, interval) && i < |events| && !events[i].ApplyDone?
    ensures var r, d, pushed := states[i].remote, states[i + 1].remote, Pushed(states[i], events[i]);
            if pushed.Some? && Wanted(r, pushed.value) then
              Answered(r, d, pushed.value) && d.reports != [] && d.status == Some(d.reports[|d.reports| - 1].status)
            else d == r
  {
    hide Wanted, Answered, Next;
    S.EveryState(states, events, accepts, interval, i);
    S.EveryState(states, events, accepts, interval, i + 1);
    PushStep(states[i], events[i]);
    var pushed := Pushed(states[i], events[i]);
    hide Inv, Pushed;
    if pushed.Some? && Wanted(states[i].remote, pushed.value) {
      LastStatus(states[i].remote, states[i + 1], pushed.value);
    }
  }

  lemma {:induction false} FlightOf(r: Remote)
    requires OneAttempt(r)
    ensures FlightAgrees(r.pending, r.applyInFlight, r.attempts)
  {
  }

  lemma {:induction false} LastStatus<C>(r: Remote, d: Client<C>, rc: RemoteConfig)
    requires Inv(d) && Answered(r, d.remote, rc)
    ensures d.remote.reports != []
    ensures d.remote.status == Some(d.remote.reports[|d.remote.reports| - 1].status)
  {
  }

  // ----- polls

  /** The effective configuration a poll starts with. */
  function Effective<C>(e: Event<C>): Option<C> {
    match e
    case AttributesReady(effective) => Some(effective)
    case TimerFires(_, effective) => Some(effective)
    case _ => None
  }

  /** A poll sends one message: it has the next number and the current status, and it carries the effective
      configuration unless that is the one last acknowledged.  Nothing else sends a message. */
  lemma {:induction false} PollSends<C>(states: seq<Client<C>>, events: seq<Event<C>>, accepts: bool, interval: nat,
      i: nat)
    requires IsRun(states, events, accepts, interval) && i < |events|
    ensures var c, d, e := states[i], states[i + 1], events[i];
            if Effective(e).Some? && !c.loop.stopping then
              && d.out.sent == c.out.sent + [Message(|c.out.sent|, c.remote.status,
                   if c.out.lastSent == Effective(e) then None else Effective(e))]
              && d.loop.polling && !d.loop.pollAgain && d.loop.timers == map[]
            else d.out.sent == c.out.sent
  {
    hide OneAttempt, HandleResponse, ScheduleNextPoll, TriggerPoll;
    S.EveryState(states, events, accepts, interval, i);
    S.SequenceNumbers(states, events, accepts, interval, i);
    if events[i].PollResumes? {
      S.ResponseSendsNothing(states[i], events[i].response);
    }
    assert forall id :: id in states[i].loop.timers ==> states[i].loop.timers - {id} == map[];
  }

  /** A poll that ends arms the only timer: without delay when a poll was asked for meanwhile, which every report
      does, and with the polling interval otherwise. */
  lemma {:induction false} PollEndsArming<C>(states: seq<Client<C>>, events: seq<Event<C>>, accepts: bool,
      interval: nat, i: nat)
    requires IsRun(states, events, accepts, interval) && i < |events|
    requires events[i].PollResumes? && !states[i].loop.stopping
    ensures var c, d := states[i], states[i + 1];
            && d.loop.polls == 0 && !d.loop.polling && d.loop.pollingTimer.Some?
            && d.loop.timers == map[d.loop.pollingTimer.value :=
                 if c.loop.pollAgain || |d.remote.reports| > |c.remote.reports| then 0 else interval]
  {
    hide OneAttempt, HandleResponse, ScheduleNextPoll;
    var c, r := states[i], events[i].response;
    S.EveryState(states, events, accepts, interval, i);
    S.IntervalIsFixed(states, events, accepts, interval, i);
    S.ResponseKeeps(c, r);
    ReportsAskForPoll(c, r);
    var l := HandleResponse(c, r).loop.(polling := false, polls := c.loop.polls - 1);
    S.ScheduleArms(l, if l.pollAgain then Some(0) else None, events[i].jitter);
  }

  lemma {:induction false} ReportsAskForPoll<C>(c: Client<C>, r: Response)
    requires c.loop.polling
    ensures var d := HandleResponse(c, r);
            d.loop.pollAgain <==> c.loop.pollAgain || |d.remote.reports| > |c.remote.reports|
  {
    hide NextDelay, Attempts;
  }

  /** `stop` takes the number of the disconnect message, cancels the timer and wants no further poll. */
  lemma {:induction false} StopEnds<C>(states: seq<Client<C>>, events: seq<Event<C>>, accepts: bool, interval: nat,
      i: nat)
    requires IsRun(states, events, accepts, interval) && i < |events| && events[i].Stop?
    ensures var c, d := states[i], states[i + 1];
            && d.loop.stopping && d.loop.timers == map[] && !d.loop.pollAgain
            && d.out == c.out.(sequenceNum := c.out.sequenceNum + 1) && d.remote == c.remote
            && (!c.loop.stopping ==> c.out.sequenceNum == |c.out.sent|)
  {
    hide OneAttempt;
    S.EveryState(states, events, accepts, interval, i);
    S.EveryState(states, events, accepts, interval, i + 1);
    S.SequenceNumbers(states, events, accepts, interval, i);
  }

  // ----- the backoff

  const DELAYS: seq<nat> := [1000, 2000, 4000, 8000, 16_000, 32_000]

  lemma {:induction false} AtLeast64(n: nat)
    requires n >= 6
    ensures Pow2(n) >= 64
  {
    if n == 6 {
      assert Pow2(3) == 8;
    } else {
      AtLeast64(n - 1);
    }
  }

  /** The delay doubles from one second with each failure, up to a minute, plus the jitter; it is never below what the
      server asked for, a request that is honoured once. */
  lemma {:induction false} BackoffDelay(b: Backoff, interval: nat, jitter: nat)
    ensures var (delay, d) := NextDelay(b, interval, jitter);
            if b.failures == 0 && b.minDelay.None? then delay == interval && d == b
            else
              var backoff := (if b.failures < 6 then DELAYS[b.failures] else 60_000) + jitter;
              && d.failures == b.failures + 1 && d.minDelay.None?
              && delay >= backoff && (b.minDelay.Some? ==> delay >= b.minDelay.value)
              && (delay == backoff || b.minDelay == Some(delay))
  {
    if b.failures >= 6 {
      AtLeast64(b.failures);
    } else {
      assert Pow2(3) == 8 && Pow2(4) == 16 && Pow2(5) == 32;
    }
  }
}
