/** The client, the controller and the shutdown of `start.ts` together: every interleaving of their steps. */
module RemoteSystem {
  import opened Wrappers
  import P = OpampProtocol
  import S = OpampSafety
  import K = ControllerProtocol

  datatype System<C> = System(client: P.Client<C>, ctl: K.Controller, stopped: bool)

  datatype Event<C> =
    | ClientStep(clientEvent: P.Event<C>)
    | ControllerStep(controllerEvent: K.Event)
    | ApplySettles(failure: Option<string>)
    | Shutdown

  function Initial<C>(interval: nat, base: K.Options, enabled: bool, available: bool): System<C> {
    System(P.Initial(true, interval), K.StartInitial(K.Fresh(base), enabled, available), false)
  }

  /** The job the client's step hands to the controller, if it began an apply. */
  function NewJobs<C>(c: P.Client<C>, d: P.Client<C>): seq<K.Job> {
    if |d.remote.pending| > |c.remote.pending| then
      var p := d.remote.pending[|d.remote.pending| - 1];
      [K.ApplyJob(p.attempt.id, p.config)]
    else []
  }

  /** The apply at the front settles once its job has finished, with that job's outcome. */
  ghost predicate Settled<C>(s: System<C>, ok: bool) {
    && s.client.remote.pending != []
    && var p := s.client.remote.pending[0];
       K.Outcome(K.ApplyJob(p.attempt.id, p.config), ok) in s.ctl.finished
  }

  ghost predicate Enabled<C>(s: System<C>, e: Event<C>) {
    match e
    case ClientStep(ce) => P.Enabled(s.client, ce) && !ce.ApplyDone? && !ce.Stop?
    case ControllerStep(ke) => K.Enabled(s.ctl, ke) && !ke.Enqueued?
    case ApplySettles(failure) => Settled(s, failure.None?)
    case Shutdown => !s.stopped && s.client.loop.phase != P.Created
  }

  function Next<C(==)>(s: System<C>, e: Event<C>): System<C>
    requires Enabled(s, e)
  {
    match e
    case ClientStep(ce) =>
      var d := P.Next(s.client, ce);
      var jobs := NewJobs(s.client, d);
      s.(client := d, ctl := if jobs == [] then s.ctl else K.Enqueue(s.ctl, jobs[0]))
    case ControllerStep(ke) => s.(ctl := K.Next(s.ctl, ke))
    case ApplySettles(failure) => s.(client := P.Next(s.client, P.ApplyDone(failure)))
    case Shutdown =>
      // the synchronous part of stop: first the client, then the controller
      System(P.Next(s.client, P.Stop), K.Enqueue(s.ctl, K.StopAllJob), true)
  }

  ghost predicate IsRun<C>(states: seq<System<C>>, events: seq<Event<C>>, interval: nat, base: K.Options,
      enabled: bool, available: bool)
  {
    && |states| == |events| + 1
    && states[0] == Initial(interval, base, enabled, available)
    && forall i :: 0 <= i < |events| ==> Enabled(states[i], events[i]) && states[i + 1] == Next(states[i], events[i])
  }

  // ----- the invariant

  /** The shutdown job, if it was queued at all, is the last job ever queued. */
  ghost predicate StopAllIsLast(enqueued: seq<K.Job>, stopped: bool) {
    && (stopped ==> enqueued != [] && enqueued[|enqueued| - 1].StopAllJob?)
    && (forall i :: 0 <= i < |enqueued| && (!stopped || i < |enqueued| - 1) ==> enqueued[i].ApplyJob?)
  }

  /** The shutdown job has finished. */
  ghost predicate ShutDown(ctl: K.Controller) {
    exists o :: o in ctl.finished && o.job.StopAllJob?
  }

  ghost predicate SysInv<C>(s: System<C>) {
    && P.Inv(s.client) && K.Inv(s.ctl)
    && (s.stopped <==> s.client.loop.stopping)
    && StopAllIsLast(s.ctl.enqueued, s.stopped)
    && (ShutDown(s.ctl) ==> s.ctl.running.None? && s.ctl.active.None? && s.ctl.queue == [])
  }

  /** A client step: once stopping it stays so, and it begins no apply then. */
  lemma {:induction false} ClientSteps<C>(c: P.Client<C>, e: P.Event<C>)
    requires P.Inv(c) && P.Enabled(c, e)
    ensures P.Inv(P.Next(c, e))
    ensures P.Next(c, e).loop.stopping == (c.loop.stopping || e.Stop?)
    ensures c.loop.stopping ==> NewJobs(c, P.Next(c, e)) == []
  {
    S.StepKeeps(c, e);
    hide P.OneAttempt;
    match e
    case Start =>
    case AttributesReady(eff) =>
    case TimerFires(id, eff) =>
    case PollResumes(r, jitter) =>
      S.ResponseKeeps(c, r);
      var l := P.HandleResponse(c, r).loop.(polling := false, polls := c.loop.polls - 1);
      hide P.HandleResponse;
      S.ScheduleKeeps(l, if l.pollAgain then Some(0) else None, jitter);
    case ApplyDone(_) =>
      hide P.OneLoop, P.TriggerPoll;
      S.TriggerKeeps(c.loop);
    case Stop =>
  }

  /** Finished shutdown means an empty controller. */
  lemma {:induction false} ShutDownIsEmpty(ctl: K.Controller, stopped: bool)
    requires K.OrderInv(ctl) && StopAllIsLast(ctl.enqueued, stopped) && ShutDown(ctl)
    ensures ctl.active.None? && ctl.queue == []
  {
    var o :| o in ctl.finished && o.job.StopAllJob?;
    var k :| 0 <= k < |ctl.finished| && ctl.finished[k] == o;
    assert K.JobsOf(ctl.finished)[k] == o.job;
    assert ctl.enqueued[k] == o.job;
  }

  lemma {:induction false} ControllerSteps(ctl: K.Controller, e: K.Event, stopped: bool)
    requires K.Inv(ctl) && K.Enabled(ctl, e) && !e.Enqueued? && StopAllIsLast(ctl.enqueued, stopped)
    requires ShutDown(ctl) ==> ctl.active.None? && ctl.queue == []
    ensures var d := K.Next(ctl, e);
            && K.Inv(d) && d.enqueued == ctl.enqueued
            && (ShutDown(d) ==> d.running.None? && d.active.None? && d.queue == [])
  {
    var d := K.Next(ctl, e);
    K.StepKeeps(ctl, e);
    if e.JobRuns? {
      K.RunAdvances(ctl, e.oracle);
    } else {
      K.ResumeAdvances(ctl, e.oracle);
    }
    if ShutDown(d) {
      ShutDownIsEmpty(d, stopped);
      assert !ShutDown(ctl);
      var o :| o in d.finished && o.job.StopAllJob?;
      assert o == d.finished[|d.finished| - 1];
    }
  }

  lemma {:induction false} SystemStep<C>(s: System<C>, e: Event<C>)
    requires SysInv(s) && Enabled(s, e)
    ensures SysInv(Next(s, e))
    ensures s.stopped ==> Next(s, e).stopped && Next(s, e).ctl.enqueued == s.ctl.enqueued
    ensures ShutDown(s.ctl) ==> ShutDown(Next(s, e).ctl)
  {
    hide P.Inv, P.Next, K.Next, ShutDown;
    match e
    case ClientStep(ce) =>
      ClientSteps(s.client, ce);
      var jobs := NewJobs(s.client, P.Next(s.client, ce));
      if jobs != [] {
        EnqueueKeeps(s.ctl, jobs[0], s.stopped);
      }
    case ControllerStep(ke) =>
      ControllerSteps(s.ctl, ke, s.stopped);
      FinishedGrows(s.ctl, ke);
    case ApplySettles(failure) =>
      ClientSteps(s.client, P.ApplyDone(failure));
    case Shutdown =>
      ClientSteps(s.client, P.Stop);
      EnqueueKeeps(s.ctl, K.StopAllJob, s.stopped);
  }

  lemma {:induction false} FinishedGrows(ctl: K.Controller, e: K.Event)
    requires K.Enabled(ctl, e)
    ensures ShutDown(ctl) ==> ShutDown(K.Next(ctl, e))
  {
    if e.JobRuns? {
      K.RunAdvances(ctl, e.oracle);
    } else if e.JobResumes? {
      K.ResumeAdvances(ctl, e.oracle);
    }
    hide K.RunJob, K.Resume;
    if ShutDown(ctl) {
      var o :| o in ctl.finished && o.job.StopAllJob?;
      assert o in K.Next(ctl, e).finished;
    }
  }

  lemma {:induction false} EnqueueKeeps(ctl: K.Controller, job: K.Job, stopped: bool)
    requires K.Inv(ctl) && StopAllIsLast(ctl.enqueued, stopped) && !stopped
    ensures var d := K.Enqueue(ctl, job);
            && K.Inv(d) && d.finished == ctl.finished && StopAllIsLast(d.enqueued, job.StopAllJob?)
            && !ShutDown(d) && !ShutDown(ctl)
  {
    K.StepKeeps(ctl, K.Enqueued(job));
    NotShutDownYet(ctl);
  }

  lemma {:induction false} NotShutDownYet(ctl: K.Controller)
    requires K.OrderInv(ctl) && StopAllIsLast(ctl.enqueued, false)
    ensures !ShutDown(ctl)
  {
    forall o | o in ctl.finished ensures o.job.ApplyJob? {
      var k :| 0 <= k < |ctl.finished| && ctl.finished[k] == o;
      assert K.JobsOf(ctl.finished)[k] == o.job;
      assert ctl.enqueued[k] == o.job;
    }
  }

  lemma {:induction false} EveryState<C>(states: seq<System<C>>, events: seq<Event<C>>, interval: nat, base: K.Options,
                                         enabled: bool, available: bool, i: nat)
    requires IsRun(states, events, interval, base, enabled, available) && i < |states|
    ensures SysInv(states[i])
  {
    if i > 0 {
      EveryState(states, events, interval, base, enabled, available, i - 1);
      SystemStep(states[i - 1], events[i - 1]);
    } else {
      assert K.OrderInv(states[0].ctl);
    }
  }

  lemma {:induction false} RunStep<C>(states: seq<System<C>>, events: seq<Event<C>>, interval: nat, base: K.Options,
                                      enabled: bool, available: bool, i: nat)
    requires IsRun(states, events, interval, base, enabled, available) && i + 1 < |states|
    ensures states[i].stopped ==> states[i + 1].stopped && states[i + 1].ctl.enqueued == states[i].ctl.enqueued
    ensures ShutDown(states[i].ctl) ==> ShutDown(states[i + 1].ctl)
  {
    EveryState(states, events, interval, base, enabled, available, i);
    SystemStep(states[i], events[i]);
    hide Next, SysInv, ShutDown, Enabled;
  }

  // ----- the promises

  /** Once the synchronous part of `stop` has run, no apply is ever enqueued again and no poll timer is armed. */
  lemma {:induction false} NothingAfterStop<C>(states: seq<System<C>>, events: seq<Event<C>>, interval: nat,
      base: K.Options, enabled: bool, available: bool, i: nat, j: nat)
    requires IsRun(states, events, interval, base, enabled, available) && i <= j < |states| && states[i].stopped
    ensures states[j].stopped && states[j].ctl.enqueued == states[i].ctl.enqueued
    ensures states[j].client.loop.timers == map[]
    decreases j
  {
    hide K.Inv, StopAllIsLast, ShutDown, IsRun;
    EveryState(states, events, interval, base, enabled, available, j);
    if i < j {
      NothingAfterStop(states, events, interval, base, enabled, available, i, j - 1);
      RunStep(states, events, interval, base, enabled, available, j - 1);
    }
  }

  lemma {:induction false} QuietWhenShutDown<C>(s: System<C>)
    requires SysInv(s) && ShutDown(s.ctl)
    ensures (K.Native(s.ctl.calls).None? <==> s.ctl.missed == 0) && s.ctl.running.None?
  {
  }

  lemma {:induction false} ShutDownLasts<C>(states: seq<System<C>>, events: seq<Event<C>>, interval: nat,
      base: K.Options, enabled: bool, available: bool, i: nat, j: nat)
    requires IsRun(states, events, interval, base, enabled, available) && i <= j < |states| && ShutDown(states[i].ctl)
    ensures ShutDown(states[j].ctl)
    decreases j
  {
    hide IsRun, ShutDown;
    if i < j {
      ShutDownLasts(states, events, interval, base, enabled, available, i, j - 1);
      RunStep(states, events, interval, base, enabled, available, j - 1);
    }
  }

  /** When the shutdown job has finished, no CPU profiler runs, then or ever after, whatever applies were queued
      or in flight when `stop` was called; exactly unless some `stop()` failed before it got to the native profiler. */
  lemma {:induction false} NoProfilerAfterShutdown<C>(states: seq<System<C>>, events: seq<Event<C>>, interval: nat,
      base: K.Options, enabled: bool, available: bool, i: nat, j: nat)
    requires IsRun(states, events, interval, base, enabled, available) && i <= j < |states| && ShutDown(states[i].ctl)
    ensures (K.Native(states[j].ctl.calls).None? <==> states[j].ctl.missed == 0) && states[j].ctl.running.None?
  {
    ShutDownLasts(states, events, interval, base, enabled, available, i, j);
    EveryState(states, events, interval, base, enabled, available, j);
    QuietWhenShutDown(states[j]);
  }
}
