/** The profiling controller object; its methods refine the steps of ControllerProtocol. */
module ProfilingController {
  import opened Wrappers
  import opened OpampProtocol
  import K = ControllerProtocol

  /** The native CPU profiler, as its callers see it. */
  class NativeProfiler {
    var running: bool
    ghost var calls: seq<K.NativeCall>

    ghost predicate Valid()
      reads this
    {
      running == K.Native(calls).Some?
    }

    constructor ()
      ensures Valid() && calls == []
    {
      running, calls := false, [];
    }

    /** Refuses to start twice. */
    method Start(options: K.Options) returns (started: bool)
      requires Valid()
      modifies this
      ensures Valid() && started == !old(running)
      ensures calls == if started then old(calls) + [K.NativeStart(options)] else old(calls)
    {
      started := !running;
      if started {
        running, calls := true, calls + [K.NativeStart(options)];
      }
    }

    method Stop()
      requires Valid()
      modifies this
      ensures Valid() && calls == old(calls) + [K.NativeStop]
    {
      running, calls := false, calls + [K.NativeStop];
    }
  }

  class ProfilingController {
    const base: K.Options
    var running: Option<K.Options>
    var callgraphsActive: bool
    var callgraphsInterval: Option<int>
    /** The promise chain `_queue`: the jobs not yet begun, and the one waiting for `running.stop()`. */
    var queue: seq<K.Job>
    var active: Option<K.Job>
    /** What `recordEffectiveState` was last told. */
    var effective: K.Effective
    ghost var enqueued: seq<K.Job>
    ghost var finished: seq<K.Outcome>
    const native: NativeProfiler
    ghost var missed: nat
    ghost var refused: nat

    ghost function State(): K.Controller
      reads this, native
    {
      K.Controller(base, running, callgraphsActive, callgraphsInterval, queue, active, effective, enqueued, finished,
                   native.calls, missed, refused)
    }

    constructor (base: K.Options)
      ensures State() == K.Fresh(base) && native.Valid() && fresh(native)
    {
      this.base := base;
      running, callgraphsActive, callgraphsInterval := None, false, None;
      queue, active, effective := [], None, K.Unreported;
      native := new NativeProfiler();
      enqueued, finished, missed, refused := [], [], 0, 0;
    }

    /** `_startCpu`; `available` is whether the native extension loads, the result whether the profiler started. */
    method StartCpu(options: K.Options, available: bool) returns (started: bool)
      requires native.Valid()
      modifies this`running, this`effective, this`refused, native
      ensures native.Valid()
      ensures State() == K.StartCpu(old(State()), options, available) && started == K.Starts(old(State()), available)
    {
      if !available {
        effective := K.Off;
        return false;
      }
      effective := K.On(options);
      started := native.Start(options);
      if started {
        running := Some(options);
      } else {
        refused := refused + 1;
      }
    }

    method StartInitial(enabled: bool, available: bool)
      requires native.Valid()
      modifies this`running, this`effective, this`refused, native
      ensures native.Valid() && State() == K.StartInitial(old(State()), enabled, available)
    {
      if enabled {
        var _ := StartCpu(base, available);
      } else {
        effective := K.Off;
      }
    }

    /** `applyRemoteConfiguration` and `stopAll` chain a job onto the queue. */
    method Enqueue(job: K.Job)
      modifies this`queue, this`enqueued
      ensures State() == K.Enqueue(old(State()), job)
    {
      queue := queue + [job];
      enqueued := enqueued + [job];
    }

    /** `_stopCpu` up to its await; the result says whether there is anything to wait for, and `reached` whether
        `running.stop()` gets as far as the native stop. */
    method BeginStopCpu(reached: bool) returns (waiting: bool)
      requires native.Valid()
      modifies this`running, this`missed, native
      ensures native.Valid() && waiting == old(running).Some?
      ensures State() == if waiting then K.BeginStop(old(State()), reached) else old(State())
    {
      if running.None? {
        return false;
      }
      running := None;
      if reached {
        native.Stop();
      } else {
        missed := missed + 1;
      }
      waiting := true;
    }

    /** `_applyCallgraphs`; false when callgraphs were asked for and could not be activated. */
    method ApplyCallgraphs(config: ProfilingConfig, reached: bool) returns (ok: bool)
      modifies this`callgraphsActive, this`callgraphsInterval
      ensures (State(), ok) == K.ApplyCallgraphs(old(State()), config, reached)
    {
      var samplingInterval :=
        if config.callgraphsInterval.Some? && config.callgraphsInterval.value > 0 then config.callgraphsInterval
        else None;
      if config.callgraphsEnabled && !reached {
        return false;
      }
      if reached && samplingInterval.Some? && samplingInterval != callgraphsInterval {
        callgraphsInterval := samplingInterval;
      }
      if reached != callgraphsActive {
        callgraphsActive := reached;
      }
      ok := true;
    }

    method FinishJob(job: K.Job, ok: bool)
      modifies this`active, this`finished
      ensures State() == K.FinishJob(old(State()), job, ok)
    {
      active := None;
      finished := finished + [K.Outcome(job, ok)];
    }

    /** `_apply` once its CPU part is over: callgraphs are applied whatever became of that part. */
    method FinishApply(job: K.Job, cpuOk: bool, reached: bool)
      requires job.ApplyJob?
      modifies this`callgraphsActive, this`callgraphsInterval, this`active, this`finished
      ensures State() == K.FinishApplyJob(old(State()), job, cpuOk, reached)
    {
      var callgraphsOk := ApplyCallgraphs(job.config, reached);
      FinishJob(job, cpuOk && callgraphsOk);
    }

    /** Stops the profiler and has `job` wait for it, if it runs. */
    method StopFirst(job: K.Job, reached: bool) returns (waiting: bool)
      requires native.Valid()
      modifies this`running, this`missed, this`active, native
      ensures native.Valid() && waiting == old(running).Some?
      ensures State() == if waiting then K.BeginStop(old(State()), reached).(active := Some(job)) else old(State())
    {
      waiting := BeginStopCpu(reached);
      if waiting {
        active := Some(job);
      }
    }

    /** `_apply` up to its first await, or to its end. */
    method ApplyCpuMemory(job: K.Job, o: K.Oracle)
      requires job.ApplyJob?
      requires native.Valid()
      modifies this, native
      ensures native.Valid()
      ensures State() == K.ApplyCpuMemory(old(State()), job, o)
    {
      hide K.FinishApplyJob, K.BeginStop, K.StartCpu, K.Starts;
      if job.config.cpuEnabled {
        Enable(job, o);
        return;
      }
      if job.config.memoryEnabled {
        FinishApply(job, false, o.callgraphsReached);
        return;
      }
      var waiting := StopFirst(job, o.stopReached);
      if !waiting {
        FinishApply(job, true, o.callgraphsReached);
      }
    }

    /** The part of `_applyCpuMemory` for a configuration that enables the CPU profiler. */
    method Enable(job: K.Job, o: K.Oracle)
      requires job.ApplyJob? && job.config.cpuEnabled
      requires native.Valid()
      modifies this, native
      ensures native.Valid()
      ensures State() == K.ApplyCpuMemory(old(State()), job, o)
    {
      hide K.FinishApplyJob, K.BeginStop, K.StartCpu, K.Starts;
      var config := job.config;
      var interval :=
        if config.cpuInterval.Some? && config.cpuInterval.value > 0 then config.cpuInterval.value else base.interval;
      var options := K.Options(interval, config.memoryEnabled);
      if running.Some? && running.value.interval == interval && running.value.memory == config.memoryEnabled {
        FinishApply(job, true, o.callgraphsReached);
        return;
      }
      var waiting := StopFirst(job, o.stopReached);
      if !waiting {
        StartAndFinish(job, options, o);
      }
    }

    method StartAndFinish(job: K.Job, options: K.Options, o: K.Oracle)
      requires job.ApplyJob?
      requires native.Valid()
      modifies this, native
      ensures native.Valid()
      ensures State() == K.FinishApplyJob(K.StartCpu(old(State()), options, o.available), job,
                                          K.Starts(old(State()), o.available), o.callgraphsReached)
    {
      hide K.FinishApplyJob, K.StartCpu, K.Starts;
      var started := StartCpu(options, o.available);
      FinishApply(job, started, o.callgraphsReached);
    }

    /** Begins the job at the front of the queue and runs it to its first await, or to its end. */
    method RunJob(o: K.Oracle)
      requires active.None? && queue != []
      requires native.Valid()
      modifies this, native
      ensures native.Valid()
      ensures State() == K.RunJob(old(State()), o)
    {
      hide K.ApplyCpuMemory, K.BeginStop, K.FinishJob;
      var job := queue[0];
      queue := queue[1..];
      match job
      case StopAllJob =>
        var waiting := StopFirst(job, o.stopReached);
        if !waiting {
          FinishJob(job, true);
        }
      case ApplyJob(_, _) =>
        ApplyCpuMemory(job, o);
    }

    /** Continues the job that waited for `running.stop()`. */
    method Resume(o: K.Oracle)
      requires active.Some?
      requires native.Valid()
      modifies this, native
      ensures native.Valid()
      ensures State() == K.Resume(old(State()), o)
    {
      hide K.FinishApplyJob;
      var job := active.value;
      effective := K.Off;
      match job
      case StopAllJob =>
        FinishJob(job, true);
      case ApplyJob(_, config) =>
        if !config.cpuEnabled {
          FinishApply(job, true, o.callgraphsReached);
          return;
        }
        StartAndFinish(job, K.Requested(base, config), o);
    }
  }

  /** Makes one step. */
  method Fire(controller: ProfilingController, e: K.Event)
    requires controller.native.Valid() && K.Enabled(controller.State(), e)
    modifies controller, controller.native
    ensures controller.native.Valid() && controller.State() == K.Next(old(controller.State()), e)
  {
    hide K.RunJob, K.Resume, K.Enqueue;
    match e
    case Enqueued(job) => controller.Enqueue(job);
    case JobRuns(o) => controller.RunJob(o);
    case JobResumes(o) => controller.Resume(o);
  }

  /** A whole run on one controller object, which ends in the state of the run. */
  method RunController(base: K.Options, enabled: bool, available: bool, events: seq<K.Event>,
      ghost states: seq<K.Controller>)
    returns (controller: ProfilingController)
    requires K.IsRun(states, events, base, enabled, available)
    ensures controller.State() == states[|events|]
  {
    hide K.Next, K.Enabled, K.StartInitial;
    controller := new ProfilingController(base);
    controller.StartInitial(enabled, available);
    for i := 0 to |events|
      invariant fresh(controller) && fresh(controller.native) && controller.native.Valid()
      invariant controller.State() == states[i]
    {
      Fire(controller, events[i]);
    }
  }
}
