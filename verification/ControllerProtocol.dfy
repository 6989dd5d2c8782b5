/** The profiling controller: a FIFO queue of jobs, each running from one await to the next. */
module ControllerProtocol {
  import opened Wrappers
  import opened OpampProtocol

  datatype Options = Options(interval: int, memory: bool)

  /** A queued job: the apply of one attempt, or the `stopAll` of shutdown. */
  datatype Job = ApplyJob(id: nat, config: ProfilingConfig) | StopAllJob

  /** A finished job and whether its promise resolved. */
  datatype Outcome = Outcome(job: Job, ok: bool)

  datatype Effective = Unreported | Off | On(options: Options)

  datatype NativeCall = NativeStart(options: Options) | NativeStop

  /** `running` is `_running`; `active` is the job waiting for `running.stop()`; `enqueued` and `finished` log
      all jobs.  `calls` logs the calls that started or stopped the native profiler, `missed` counts the stops that
      failed before they got to it, and `refused` the starts it refused because it was running. */
  datatype Controller = Controller(
    base: Options,
    running: Option<Options>,
    callgraphsActive: bool,
    callgraphsInterval: Option<int>,
    queue: seq<Job>,
    active: Option<Job>,
    effective: Effective,
    enqueued: seq<Job>,
    finished: seq<Outcome>,
    calls: seq<NativeCall>,
    missed: nat,
    refused: nat)

  /** The native profiler runs after a start and until the next stop. */
  function Native(calls: seq<NativeCall>): Option<Options> {
    if calls != [] && calls[|calls| - 1].NativeStart? then Some(calls[|calls| - 1].options) else None
  }

  function Fresh(base: Options): Controller {
    Controller(base, None, false, None, [], None, Unreported, [], [], [], 0, 0)
  }

  /** The interval `_applyCpuMemory` uses: the requested one if it is positive, else the local one. */
  function Interval(base: Options, requested: Option<int>): int {
    if requested.Some? && requested.value > 0 then requested.value else base.interval
  }

  function Requested(base: Options, config: ProfilingConfig): Options {
    Options(Interval(base, config.cpuInterval), config.memoryEnabled)
  }

  /** `_startCpu`; `available` says whether the native extension loads.  A native profiler that runs already refuses,
      and the error leaves `_startCpu` after the effective state was recorded. */
  function StartCpu(c: Controller, options: Options, available: bool): Controller {
    if !available then c.(effective := Off)
    else if Native(c.calls).Some? then c.(effective := On(options), refused := c.refused + 1)
    else c.(running := Some(options), effective := On(options), calls := c.calls + [NativeStart(options)])
  }

  predicate Starts(c: Controller, available: bool) {
    available && Native(c.calls).None?
  }

  /** `_stopCpu` up to its await, when something runs; `reached` says whether `running.stop()` got as far as the
      native stop.  How that promise settles makes no difference. */
  function BeginStop(c: Controller, reached: bool): Controller {
    if reached then c.(running := None, calls := c.calls + [NativeStop])
    else c.(running := None, missed := c.missed + 1)
  }

  function StartInitial(c: Controller, enabled: bool, available: bool): Controller {
    if enabled then StartCpu(c, c.base, available) else c.(effective := Off)
  }

  function Enqueue(c: Controller, job: Job): Controller {
    c.(queue := c.queue + [job], enqueued := c.enqueued + [job])
  }

  function FinishJob(c: Controller, job: Job, ok: bool): Controller {
    c.(active := None, finished := c.finished + [Outcome(job, ok)])
  }

  /** `_applyCallgraphs`; `reached` is the state `setSnapshotProfilingActive` reports. */
  function ApplyCallgraphs(c: Controller, config: ProfilingConfig, reached: bool): (Controller, bool) {
    if config.callgraphsEnabled && !reached then (c, false)
    else
      var interval :=
        if config.callgraphsInterval.Some? && config.callgraphsInterval.value > 0 then config.callgraphsInterval
        else None;
      (c.(callgraphsInterval := if reached && interval.Some? then interval else c.callgraphsInterval,
          callgraphsActive := reached), true)
  }

  function FinishApplyJob(c: Controller, job: Job, cpuOk: bool, reached: bool): Controller
    requires job.ApplyJob?
  {
    var (d, callgraphsOk) := ApplyCallgraphs(c, job.config, reached);
    FinishJob(d, job, cpuOk && callgraphsOk)
  }

  /** The oracles one stretch of a job consults. */
  datatype Oracle = Oracle(available: bool, callgraphsReached: bool, stopReached: bool)

  /** `_apply` up to its first await, or to its end. */
  function ApplyCpuMemory(c: Controller, job: Job, o: Oracle): Controller
    requires job.ApplyJob?
  {
    var config := job.config;
    if !config.cpuEnabled then
      if config.memoryEnabled then FinishApplyJob(c, job, false, o.callgraphsReached)
      else if c.running.Some? then BeginStop(c, o.stopReached).(active := Some(job))
      else FinishApplyJob(c, job, true, o.callgraphsReached)
    else
      var options := Requested(c.base, config);
      if c.running == Some(options) then FinishApplyJob(c, job, true, o.callgraphsReached)
      else if c.running.Some? then BeginStop(c, o.stopReached).(active := Some(job))
      else FinishApplyJob(StartCpu(c, options, o.available), job, Starts(c, o.available), o.callgraphsReached)
  }

  /** Takes the next job from the queue and runs it up to its first await or its end. */
  function RunJob(c: Controller, o: Oracle): Controller
    requires c.active.None? && c.queue != []
  {
    var job := c.queue[0];
    var c := c.(queue := c.queue[1..]);
    match job
    case StopAllJob =>
      if c.running.Some? then BeginStop(c, o.stopReached).(active := Some(job)) else FinishJob(c, job, true)
    case ApplyJob(_, _) => ApplyCpuMemory(c, job, o)
  }

  /** Resumes the job that waited for `running.stop()`. */
  function Resume(c: Controller, o: Oracle): Controller
    requires c.active.Some?
  {
    var job := c.active.value;
    var c := c.(effective := Off);
    match job
    case StopAllJob => FinishJob(c, job, true)
    case ApplyJob(_, config) =>
      if !config.cpuEnabled then FinishApplyJob(c, job, true, o.callgraphsReached)
      else FinishApplyJob(StartCpu(c, Requested(c.base, config), o.available), job, Starts(c, o.available),
          o.callgraphsReached)
  }

  datatype Event = Enqueued(job: Job) | JobRuns(oracle: Oracle) | JobResumes(oracle: Oracle)

  predicate Enabled(c: Controller, e: Event) {
    match e
    case Enqueued(_) => true
    case JobRuns(_) => c.active.None? && c.queue != []
    case JobResumes(_) => c.active.Some?
  }

  function Next(c: Controller, e: Event): Controller
    requires Enabled(c, e)
  {
    match e
    case Enqueued(job) => Enqueue(c, job)
    case JobRuns(o) => RunJob(c, o)
    case JobResumes(o) => Resume(c, o)
  }

  /** A run that starts from the local configuration. */
  ghost predicate IsRun(states: seq<Controller>, events: seq<Event>, base: Options, enabled: bool, available: bool) {
    && |states| == |events| + 1
    && states[0] == StartInitial(Fresh(base), enabled, available)
    && forall i :: 0 <= i < |events| ==> Enabled(states[i], events[i]) && states[i + 1] == Next(states[i], events[i])
  }

  // ----- what every run keeps

  /** Starts and stops alternate, beginning with a start. */
  predicate Alternates(calls: seq<NativeCall>) {
    && (calls != [] ==> calls[0].NativeStart?)
    && (forall i :: 0 <= i < |calls| - 1 ==> (calls[i].NativeStart? <==> calls[i + 1].NativeStop?))
  }

  function JobsOf(finished: seq<Outcome>): (jobs: seq<Job>)
    ensures |jobs| == |finished|
  {
    seq(|finished|, i requires 0 <= i < |finished| => finished[i].job)
  }

  /** `_running` is what the native profiler runs, until a stop misses it; from then on the native profiler runs for
      good, unknown to the controller. */
  ghost predicate NativeAgrees(running: Option<Options>, calls: seq<NativeCall>, missed: nat, refused: nat) {
    && Alternates(calls)
    && (if missed == 0 then running == Native(calls) && refused == 0 else running.None? && Native(calls).Some?)
  }

  ghost predicate NativeInv(c: Controller) {
    && NativeAgrees(c.running, c.calls, c.missed, c.refused)
    && (c.active.Some? ==> c.running.None? && c.calls != [])
    && (c.active.Some? && c.active.value.ApplyJob? ==>
          c.active.value.config.cpuEnabled || !c.active.value.config.memoryEnabled)
    && (c.active.None? && c.missed == 0 ==> c.effective == if c.running.Some? then On(c.running.value) else Off)
  }

  function ActiveJobs(active: Option<Job>): seq<Job> {
    if active.Some? then [active.value] else []
  }

  /** Jobs finish in the order they were queued, each once. */
  ghost predicate OrderInv(c: Controller) {
    c.enqueued == JobsOf(c.finished) + ActiveJobs(c.active) + c.queue
  }

  ghost predicate Inv(c: Controller) {
    NativeInv(c) && OrderInv(c)
  }

  lemma {:induction false} StartKeepsNative(c: Controller, options: Options, available: bool)
    requires c.running.None? && NativeAgrees(c.running, c.calls, c.missed, c.refused)
    ensures var d := StartCpu(c, options, available);
            && NativeAgrees(d.running, d.calls, d.missed, d.refused)
            && (d.missed == 0 ==> d.effective == if d.running.Some? then On(d.running.value) else Off)
            && (Starts(c, available) ==> d.running == Some(options))
  {
  }

  lemma {:induction false} StopKeepsNative(c: Controller, reached: bool)
    requires c.running.Some? && NativeAgrees(c.running, c.calls, c.missed, c.refused)
    ensures var d := BeginStop(c, reached);
            NativeAgrees(d.running, d.calls, d.missed, d.refused) && d.calls != []
  {
  }

  lemma {:induction false} FinishKeepsNative(c: Controller, job: Job, ok: bool, reached: bool)
    requires NativeAgrees(c.running, c.calls, c.missed, c.refused)
    requires c.missed == 0 ==> c.effective == if c.running.Some? then On(c.running.value) else Off
    ensures NativeInv(FinishJob(c, job, ok))
    ensures job.ApplyJob? ==> NativeInv(FinishApplyJob(c, job, ok, reached))
  {
    hide NativeAgrees;
  }

  lemma {:induction false} ApplyKeepsNative(c: Controller, job: Job, o: Oracle)
    requires NativeInv(c) && c.active.None? && job.ApplyJob?
    ensures NativeInv(ApplyCpuMemory(c, job, o))
  {
    hide NativeAgrees, FinishApplyJob, Requested, StartCpu, Starts;
    FinishKeepsNative(c, job, true, o.callgraphsReached);
    FinishKeepsNative(c, job, false, o.callgraphsReached);
    if c.running.Some? {
      StopKeepsNative(c, o.stopReached);
    } else {
      StartKeepsNative(c, Requested(c.base, job.config), o.available);
      FinishKeepsNative(StartCpu(c, Requested(c.base, job.config), o.available), job, Starts(c, o.available),
          o.callgraphsReached);
    }
  }

  lemma {:induction false} StepKeepsNative(c: Controller, e: Event)
    requires NativeInv(c) && Enabled(c, e)
    ensures NativeInv(Next(c, e))
  {
    hide NativeAgrees, FinishApplyJob, ApplyCpuMemory, Requested, StartCpu, Starts;
    match e
    case Enqueued(job) =>
    case JobRuns(o) =>
      var c1 := c.(queue := c.queue[1..]);
      if c.queue[0].ApplyJob? {
        ApplyKeepsNative(c1, c.queue[0], o);
      } else if c.running.Some? {
        StopKeepsNative(c1, o.stopReached);
      }
    case JobResumes(o) =>
      var job, c1 := c.active.value, c.(effective := Off);
      if job.ApplyJob? {
        var started := StartCpu(c1, Requested(c.base, job.config), o.available);
        StartKeepsNative(c1, Requested(c.base, job.config), o.available);
        FinishKeepsNative(started, job, Starts(c1, o.available), o.callgraphsReached);
        FinishKeepsNative(c1, job, true, o.callgraphsReached);
      }
  }

  /** Whether a job that ends in this step succeeds. */
  function Succeeds(c: Controller, e: Event): bool
    requires Enabled(c, e)
  {
    var d := Next(c, e);
    d.finished != [] && d.finished[|d.finished| - 1].ok
  }

  lemma {:induction false} FinishApplyJobAppends(c: Controller, job: Job, cpuOk: bool, reached: bool)
    requires job.ApplyJob?
    ensures var d := FinishApplyJob(c, job, cpuOk, reached);
            && d.active.None? && d.queue == c.queue && d.enqueued == c.enqueued && d.running == c.running
                && d.calls == c.calls
            && d.finished == c.finished + [Outcome(job, d.finished[|d.finished| - 1].ok)]
            && d.base == c.base && d.effective == c.effective && (d.finished[|d.finished| - 1].ok ==> cpuOk)
  {
  }

  /** `d` is `c` with `job` taken up: waiting for a stop, or finished. */
  predicate Advanced(c: Controller, d: Controller, job: Job) {
    && d.enqueued == c.enqueued && d.queue == c.queue
    && (if d.active.Some? then d.active == Some(job) && d.finished == c.finished
        else d.finished != [] && d.finished == c.finished + [Outcome(job, d.finished[|d.finished| - 1].ok)])
  }

  lemma {:induction false} StartAdvancesNothing(c: Controller, options: Options, available: bool, reached: bool)
    ensures var d := StartCpu(c, options, available);
            d.enqueued == c.enqueued && d.queue == c.queue && d.finished == c.finished && d.active == c.active
    ensures var d := BeginStop(c, reached);
            d.enqueued == c.enqueued && d.queue == c.queue && d.finished == c.finished && d.active == c.active
  {
  }

  lemma {:induction false} ApplyAdvances(c: Controller, job: Job, o: Oracle)
    requires job.ApplyJob? && c.active.None?
    ensures Advanced(c, ApplyCpuMemory(c, job, o), job)
  {
    hide FinishApplyJob, Requested, StartCpu, BeginStop, Starts;
    StartAdvancesNothing(c, Requested(c.base, job.config), o.available, o.stopReached);
    FinishApplyJobAppends(c, job, true, o.callgraphsReached);
    FinishApplyJobAppends(c, job, false, o.callgraphsReached);
    FinishApplyJobAppends(StartCpu(c, Requested(c.base, job.config), o.available), job, Starts(c, o.available),
        o.callgraphsReached);
  }

  lemma {:induction false} RunAdvances(c: Controller, o: Oracle)
    requires c.active.None? && c.queue != []
    ensures Advanced(c.(queue := c.queue[1..]), RunJob(c, o), c.queue[0])
  {
    hide ApplyCpuMemory;
    if c.queue[0].ApplyJob? {
      hide Advanced;
      ApplyAdvances(c.(queue := c.queue[1..]), c.queue[0], o);
    }
  }

  lemma {:induction false} ResumeAdvances(c: Controller, o: Oracle)
    requires c.active.Some?
    ensures Advanced(c, Resume(c, o), c.active.value)
  {
    hide FinishApplyJob;
    var job, c1 := c.active.value, c.(effective := Off);
    if job.ApplyJob? {
      hide Requested;
      FinishApplyJobAppends(c1, job, true, o.callgraphsReached);
      FinishApplyJobAppends(StartCpu(c1, Requested(c.base, job.config), o.available), job, Starts(c1, o.available),
          o.callgraphsReached);
    }
  }

  lemma {:induction false} JobsOfAppend(finished: seq<Outcome>, o: Outcome)
    ensures JobsOf(finished + [o]) == JobsOf(finished) + [o.job]
  {
  }

  lemma {:induction false} AdvanceKeepsOrder(c: Controller, d: Controller, job: Job)
    requires Advanced(c, d, job) && c.enqueued == JobsOf(c.finished) + [job] + c.queue
    ensures OrderInv(d)
  {
    hide JobsOf;
    if d.active.None? {
      JobsOfAppend(c.finished, d.finished[|d.finished| - 1]);
    }
  }

  lemma {:induction false} StepKeeps(c: Controller, e: Event)
    requires Inv(c) && Enabled(c, e)
    ensures Inv(Next(c, e))
  {
    hide NativeInv, JobsOf, RunJob, Resume, Advanced;
    StepKeepsNative(c, e);
    match e
    case Enqueued(job) =>
      assert c.enqueued + [job] == JobsOf(c.finished) + ActiveJobs(c.active) + (c.queue + [job]);
    case JobRuns(o) =>
      RunAdvances(c, o);
      assert c.queue == [c.queue[0]] + c.queue[1..];
      AdvanceKeepsOrder(c.(queue := c.queue[1..]), Next(c, e), c.queue[0]);
    case JobResumes(o) =>
      ResumeAdvances(c, o);
      AdvanceKeepsOrder(c, Next(c, e), c.active.value);
  }

  lemma {:induction false} EveryState(states: seq<Controller>, events: seq<Event>, base: Options, enabled: bool,
      available: bool, i: nat)
    requires IsRun(states, events, base, enabled, available) && i < |states|
    ensures Inv(states[i])
  {
    if i > 0 {
      EveryState(states, events, base, enabled, available, i - 1);
      StepKeeps(states[i - 1], events[i - 1]);
    }
  }

  /** In every state `_running` is what the native profiler runs exactly when no stop has missed it.  Then, at every
      job boundary, interval and memory flag are those of the recorded effective state, and the native profiler was
      never asked to start while it ran.  Jobs finish in queue order whether or not earlier ones were rejected. */
  lemma {:induction false} RunningAgreesWithNative(states: seq<Controller>, events: seq<Event>, base: Options,
      enabled: bool, available: bool, i: nat)
    requires IsRun(states, events, base, enabled, available) && i < |states|
    ensures var c := states[i];
            && (c.running == Native(c.calls) <==> c.missed == 0)
            && (c.missed == 0 && c.active.None? ==> c.effective == if c.running.Some? then On(c.running.value) else Off)
            && (c.missed == 0 ==> c.refused == 0)
            && (forall k :: 0 <= k < |c.calls| && c.calls[k].NativeStart? ==> Native(c.calls[..k]).None?)
            && JobsOf(c.finished) <= c.enqueued
            && (c.active.None? && c.queue == [] ==> |c.finished| == |c.enqueued|)
  {
    EveryState(states, events, base, enabled, available, i);
    var c := states[i];
    forall k | 0 <= k < |c.calls| && c.calls[k].NativeStart? ensures Native(c.calls[..k]).None? {
      if k > 0 {
        assert c.calls[k - 1].NativeStart? <==> c.calls[k].NativeStop?;
      }
    }
  }

  /** What a successful apply leaves behind: what was asked for runs, or nothing when nothing was. */
  predicate Reaches(base: Options, config: ProfilingConfig, running: Option<Options>) {
    if config.cpuEnabled then
      && running.Some? && running.value.memory == config.memoryEnabled
      && (if config.cpuInterval.Some? && config.cpuInterval.value > 0
          then running.value.interval == config.cpuInterval.value else running.value.interval == base.interval)
    else !config.memoryEnabled && running.None?
  }

  lemma {:induction false} RequestedReaches(base: Options, config: ProfilingConfig, running: Option<Options>)
    ensures config.cpuEnabled ==> (Reaches(base, config, running) <==> running == Some(Requested(base, config)))
    ensures !config.cpuEnabled ==> (Reaches(base, config, running) <==> !config.memoryEnabled && running.None?)
  {
  }

  /** Whether the last job finished was an apply that ended well. */
  predicate EndedWell(d: Controller) {
    d.active.None? && d.finished != [] && d.finished[|d.finished| - 1].ok
  }

  /** What an apply that ends in `d` achieved, and how it ended. */
  ghost predicate EndsReaching(c: Controller, d: Controller, config: ProfilingConfig, reached: bool) {
    && d.base == c.base
    && (EndedWell(d) <==> Reaches(c.base, config, d.running) && (reached || !config.callgraphsEnabled))
  }

  lemma {:induction false} FinishReaches(c: Controller, job: Job, cpuOk: bool, reached: bool)
    requires job.ApplyJob? && (cpuOk <==> Reaches(c.base, job.config, c.running))
    ensures EndsReaching(c, FinishApplyJob(c, job, cpuOk, reached), job.config, reached)
  {
    hide Reaches;
  }

  lemma {:induction false} StartReaches(c: Controller, job: Job, o: Oracle)
    requires job.ApplyJob? && job.config.cpuEnabled && c.running.None?
    ensures var d := StartCpu(c, Requested(c.base, job.config), o.available);
            EndsReaching(c, FinishApplyJob(d, job, Starts(c, o.available), o.callgraphsReached), job.config,
                         o.callgraphsReached)
  {
    hide FinishApplyJob, Requested, Reaches;
    var d := StartCpu(c, Requested(c.base, job.config), o.available);
    RequestedReaches(c.base, job.config, d.running);
    FinishReaches(d, job, Starts(c, o.available), o.callgraphsReached);
  }

  lemma {:induction false} ApplyReaches(c: Controller, job: Job, o: Oracle)
    requires NativeInv(c) && c.active.None? && job.ApplyJob? && ApplyCpuMemory(c, job, o).active.None?
    ensures EndsReaching(c, ApplyCpuMemory(c, job, o), job.config, o.callgraphsReached)
  {
    hide FinishApplyJob, Requested, Reaches, StartCpu, Starts, EndsReaching;
    RequestedReaches(c.base, job.config, c.running);
    if Reaches(c.base, job.config, c.running) {
      FinishReaches(c, job, true, o.callgraphsReached);
    } else if !job.config.cpuEnabled {
      FinishReaches(c, job, false, o.callgraphsReached);
    } else if c.running.None? {
      StartReaches(c, job, o);
    }
  }

  lemma {:induction false} ResumeReaches(c: Controller, o: Oracle)
    requires NativeInv(c) && c.active.Some? && c.active.value.ApplyJob?
    ensures EndsReaching(c, Resume(c, o), c.active.value.config, o.callgraphsReached)
  {
    hide FinishApplyJob, Requested, Reaches, StartCpu, Starts;
    var job, c1 := c.active.value, c.(effective := Off);
    RequestedReaches(c.base, job.config, c.running);
    if job.config.cpuEnabled {
      StartReaches(c1, job, o);
    } else {
      FinishReaches(c1, job, true, o.callgraphsReached);
    }
  }

  /** An apply succeeds exactly when what its configuration asks for runs at its end, with the requested interval if
      that is positive and with the local one otherwise, and callgraphs are reached if it asks for them. */
  lemma {:induction false} SuccessReachesIff(c: Controller, e: Event)
    requires NativeInv(c) && Enabled(c, e) && !e.Enqueued? && Next(c, e).active.None?
    ensures var job := if e.JobRuns? then c.queue[0] else c.active.value;
            job.ApplyJob? ==>
              && Next(c, e).base == c.base
              && (Succeeds(c, e) <==>
                    && Reaches(c.base, job.config, Next(c, e).running)
                    && (e.oracle.callgraphsReached || !job.config.callgraphsEnabled))
  {
    hide ApplyCpuMemory, Resume, NativeAgrees, Reaches;
    match e
    case JobRuns(o) =>
      if c.queue[0].ApplyJob? {
        ApplyReaches(c.(queue := c.queue[1..]), c.queue[0], o);
      }
    case JobResumes(o) =>
      if c.active.value.ApplyJob? {
        ResumeReaches(c, o);
      }
  }

  /** A shutdown job that ends leaves nothing running, and always ends well. */
  lemma {:induction false} StopAllEnds(c: Controller, e: Event)
    requires NativeInv(c) && Enabled(c, e) && !e.Enqueued? && Next(c, e).active.None?
    ensures var job := if e.JobRuns? then c.queue[0] else c.active.value;
            job.StopAllJob? ==>
              Next(c, e).running.None? && Next(c, e).effective == (if e.JobRuns? then c.effective else Off)
              && Next(c, e).finished == c.finished + [Outcome(StopAllJob, true)]
  {
  }

  /** The profiler that is enabled locally is started with the local options if the extension loads. */
  lemma {:induction false} InitialController(base: Options, enabled: bool, available: bool)
    ensures var c := StartInitial(Fresh(base), enabled, available);
            && c.base == base && c.queue == [] && c.active.None? && c.missed == 0 && c.refused == 0
            && (if enabled && available then
                  c.running == Some(base) && c.effective == On(base) && c.calls == [NativeStart(base)]
                else c.running.None? && c.effective == Off && c.calls == [])
  {
  }

  /** An apply that starts the profiler records the options asked for, also when the native profiler refuses, and
      that it is off when there is no native profiler. */
  lemma {:induction false} StartRecords(c: Controller, e: Event)
    requires NativeInv(c) && Enabled(c, e) && !e.Enqueued? && Next(c, e).active.None?
    ensures var job, d := if e.JobRuns? then c.queue[0] else c.active.value, Next(c, e);
            job.ApplyJob? && job.config.cpuEnabled && !Reaches(c.base, job.config, c.running) ==>
              if e.oracle.available then d.effective.On? && Reaches(c.base, job.config, Some(d.effective.options))
              else d.effective == Off
  {
    hide FinishApplyJob, Requested, Reaches, NativeAgrees;
    var job, o := if e.JobRuns? then c.queue[0] else c.active.value, e.oracle;
    if job.ApplyJob? && job.config.cpuEnabled && !Reaches(c.base, job.config, c.running) {
      var c1 := if e.JobRuns? then c.(queue := c.queue[1..]) else c.(effective := Off);
      var options := Requested(c.base, job.config);
      RequestedReaches(c.base, job.config, c.running);
      RequestedReaches(c.base, job.config, Some(options));
      FinishApplyJobAppends(StartCpu(c1, options, o.available), job, Starts(c1, o.available), o.callgraphsReached);
    }
  }

  /** Callgraphs are applied whatever became of the CPU part of the same apply: they end in the state reached, with
      the requested interval if that is positive, and the apply fails if they were asked for and not reached. */
  lemma {:induction false} CallgraphsAppliedRegardless(c: Controller, e: Event)
    requires Enabled(c, e) && !e.Enqueued? && Next(c, e).active.None?
    ensures var job := if e.JobRuns? then c.queue[0] else c.active.value;
            var reached, d := e.oracle.callgraphsReached, Next(c, e);
            job.ApplyJob? ==>
              && (!Succeeds(c, e) || d.callgraphsActive || !job.config.callgraphsEnabled)
              && (if job.config.callgraphsEnabled && !reached then
                    !Succeeds(c, e) && d.callgraphsActive == c.callgraphsActive
                        && d.callgraphsInterval == c.callgraphsInterval
                  else d.callgraphsActive == reached)
              && (d.callgraphsInterval != c.callgraphsInterval ==>
                    d.callgraphsActive && d.callgraphsInterval == job.config.callgraphsInterval
                        && d.callgraphsInterval.value > 0)
              && (reached && job.config.callgraphsInterval.Some? && job.config.callgraphsInterval.value > 0 ==>
                    d.callgraphsInterval == job.config.callgraphsInterval)
  {
    hide FinishApplyJob, StartCpu, Requested, Native;
    var job, reached := if e.JobRuns? then c.queue[0] else c.active.value, e.oracle.callgraphsReached;
    if job.ApplyJob? {
      var c1 := if e.JobRuns? then c.(queue := c.queue[1..]) else c.(effective := Off);
      var started := StartCpu(c1, Requested(c.base, job.config), e.oracle.available);
      StartKeepsCallgraphs(c1, Requested(c.base, job.config), e.oracle.available);
      CallgraphsEnd(c1, job, true, reached);
      CallgraphsEnd(c1, job, false, reached);
      CallgraphsEnd(started, job, Starts(c1, e.oracle.available), reached);
    }
  }

  lemma {:induction false} StartKeepsCallgraphs(c: Controller, options: Options, available: bool)
    ensures var d := StartCpu(c, options, available);
            d.callgraphsActive == c.callgraphsActive && d.callgraphsInterval == c.callgraphsInterval
  {
  }

  lemma {:induction false} CallgraphsEnd(c: Controller, job: Job, cpuOk: bool, reached: bool)
    requires job.ApplyJob?
    ensures var d := FinishApplyJob(c, job, cpuOk, reached);
            && d.finished != []
            && (d.finished[|d.finished| - 1].ok <==> cpuOk && (reached || !job.config.callgraphsEnabled))
            && (if job.config.callgraphsEnabled && !reached then
                  d.callgraphsActive == c.callgraphsActive && d.callgraphsInterval == c.callgraphsInterval
                else d.callgraphsActive == reached)
            && (d.callgraphsInterval != c.callgraphsInterval ==>
                  d.callgraphsActive && d.callgraphsInterval == job.config.callgraphsInterval
                      && d.callgraphsInterval.value > 0)
            && (reached && job.config.callgraphsInterval.Some? && job.config.callgraphsInterval.value > 0 ==>
                  d.callgraphsInterval == job.config.callgraphsInterval)
  {
  }

  /** What any finished apply leaves behind, successful or not: nothing runs but what was asked for, unless the
      configuration asked for the memory profiler alone. */
  predicate Settled(base: Options, config: ProfilingConfig, running: Option<Options>) {
    if config.cpuEnabled then running.None? || Reaches(base, config, running)
    else config.memoryEnabled || running.None?
  }

  lemma {:induction false} StartSettles(c: Controller, options: Options, available: bool)
    requires c.running.None?
    ensures var d := StartCpu(c, options, available);
            (d.running.None? || d.running == Some(options)) && d.base == c.base
  {
  }

  lemma {:induction false} FinishedApplySettles(c: Controller, e: Event)
    requires NativeInv(c) && Enabled(c, e) && !e.Enqueued? && Next(c, e).active.None?
    ensures var job := if e.JobRuns? then c.queue[0] else c.active.value;
            job.ApplyJob? ==> Settled(c.base, job.config, Next(c, e).running) && Next(c, e).base == c.base
  {
    hide FinishApplyJob, Requested, StartCpu, NativeAgrees, Starts;
    var job, o := if e.JobRuns? then c.queue[0] else c.active.value, e.oracle;
    if job.ApplyJob? {
      var c1 := if e.JobRuns? then c.(queue := c.queue[1..]) else c.(effective := Off);
      var started := StartCpu(c1, Requested(c.base, job.config), o.available);
      RequestedReaches(c.base, job.config, c.running);
      if c.running.None? {
        StartSettles(c1, Requested(c.base, job.config), o.available);
        RequestedReaches(c.base, job.config, started.running);
      }
      FinishApplyJobAppends(c1, job, true, o.callgraphsReached);
      FinishApplyJobAppends(c1, job, false, o.callgraphsReached);
      FinishApplyJobAppends(started, job, Starts(c1, o.available), o.callgraphsReached);
    }
  }

  lemma {:induction false} SettledReapply(d: Controller, o: Oracle)
    requires d.active.None? && d.queue != [] && d.queue[0].ApplyJob? && Settled(d.base, d.queue[0].config, d.running)
    ensures var config, f := d.queue[0].config, RunJob(d, o);
            && f.active.None?
            && (f.calls == d.calls && f.running == d.running <==>
                !config.cpuEnabled || d.running.Some? || !Starts(d, o.available))
  {
    hide FinishApplyJob, Requested;
    var job, c1 := d.queue[0], d.(queue := d.queue[1..]);
    RequestedReaches(d.base, job.config, d.running);
    FinishApplyJobAppends(c1, job, true, o.callgraphsReached);
    FinishApplyJobAppends(c1, job, false, o.callgraphsReached);
    FinishApplyJobAppends(StartCpu(c1, Requested(d.base, job.config), o.available), job, Starts(c1, o.available),
                          o.callgraphsReached);
  }

  /** Re-applying the configuration just applied never stops anything, and starts nothing exactly unless the CPU
      profiler was asked for, does not run, and can be started now.  It does not matter whether the first apply
      succeeded.  `d` is the controller when the next job, with the same configuration, begins. */
  lemma {:induction false} ReapplyCallsNothingIff(c: Controller, e: Event, d: Controller, o: Oracle)
    requires NativeInv(c) && Enabled(c, e) && !e.Enqueued? && Next(c, e).active.None?
    requires d.running == Next(c, e).running && d.base == Next(c, e).base && d.active.None? && d.queue != []
    requires var job := if e.JobRuns? then c.queue[0] else c.active.value;
             job.ApplyJob? && d.queue[0].ApplyJob? && d.queue[0].config == job.config
    ensures var config, f := d.queue[0].config, RunJob(d, o);
            && f.active.None?
            && (f.calls == d.calls && f.running == d.running <==>
                !config.cpuEnabled || d.running.Some? || !Starts(d, o.available))
  {
    hide Next, RunJob, NativeInv, Settled, Starts;
    FinishedApplySettles(c, e);
    SettledReapply(d, o);
  }

  /** In particular, nothing is called when the first apply succeeded. */
  lemma {:induction false} ReapplyCallsNothing(c: Controller, e: Event, d: Controller, o: Oracle)
    requires NativeInv(c) && Enabled(c, e) && !e.Enqueued? && Next(c, e).active.None? && Succeeds(c, e)
    requires d.running == Next(c, e).running && d.base == Next(c, e).base && d.active.None? && d.queue != []
    requires var job := if e.JobRuns? then c.queue[0] else c.active.value;
             job.ApplyJob? && d.queue[0].ApplyJob? && d.queue[0].config == job.config
    ensures RunJob(d, o).active.None? && RunJob(d, o).calls == d.calls && RunJob(d, o).running == d.running
  {
    hide Next, RunJob, NativeInv;
    SuccessReachesIff(c, e);
    ReapplyCallsNothingIff(c, e, d, o);
  }

  // ----- a run in which a stop misses

  /** Shut down with a stop that fails early: the controller ends with nothing running, and the native profiler
      runs on. */
  lemma {:induction false} MissedStopExample(base: Options) returns (states: seq<Controller>, events: seq<Event>)
    ensures IsRun(states, events, base, true, true) && |states| == 4
    ensures states[3].running.None? && states[3].active.None? && states[3].missed == 1
    ensures states[3].finished == [Outcome(StopAllJob, true)] && Native(states[3].calls) == Some(base)
  {
    var o := Oracle(true, true, false);
    events := [Enqueued(StopAllJob), JobRuns(o), JobResumes(o)];
    var s0 := StartInitial(Fresh(base), true, true);
    assert s0.calls == [NativeStart(base)];
    var s1 := Next(s0, events[0]);
    var s2 := Next(s1, events[1]);
    states := [s0, s1, s2, Next(s2, events[2])];
  }
}
