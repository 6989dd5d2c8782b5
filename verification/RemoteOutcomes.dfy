/** Every apply the client hands over becomes a job of the controller, and the client reports how that job ended. */
module RemoteOutcomes {
  import opened Wrappers
  import P = OpampProtocol
  import S = OpampSafety
  import O = OpampOutcomes
  import K = ControllerProtocol
  import R = RemoteSystem

  ghost predicate IsJob(enqueued: seq<K.Job>, id: nat) {
    exists k :: 0 <= k < |enqueued| && enqueued[k].ApplyJob? && enqueued[k].id == id
  }

  /** The job of attempt `id` has finished, well or not. */
  ghost predicate Ended(finished: seq<K.Outcome>, id: nat, ok: bool) {
    exists o :: o in finished && o.job.ApplyJob? && o.job.id == id && o.ok == ok
  }

  ghost predicate Reported(reports: seq<P.Report>, id: nat, kind: P.StatusKind) {
    exists r :: r in reports && r.id == id && r.status.kind == kind
  }

  ghost predicate Waiting(pending: seq<P.Pending>, id: nat) {
    exists p :: p in pending && p.attempt.id == id
  }

  /** Jobs are queued in the order of their attempts, one for each attempt handed over. */
  ghost predicate JobsOrdered(enqueued: seq<K.Job>, attempts: nat) {
    && (forall k :: 0 <= k < |enqueued| && enqueued[k].ApplyJob? ==> enqueued[k].id < attempts)
    && (forall k, l :: 0 <= k < l < |enqueued| && enqueued[k].ApplyJob? && enqueued[l].ApplyJob? ==>
          enqueued[k].id < enqueued[l].id)
  }

  ghost predicate HandedOver(pending: seq<P.Pending>, enqueued: seq<K.Job>) {
    forall p :: p in pending ==> K.ApplyJob(p.attempt.id, p.config) in enqueued
  }

  /** What is reported of one attempt is how its job ended, once the client has been told. */
  ghost predicate Told(reports: seq<P.Report>, pending: seq<P.Pending>, finished: seq<K.Outcome>,
      enqueued: seq<K.Job>, id: nat)
  {
    && (Reported(reports, id, P.Applied) <==> Ended(finished, id, true) && !Waiting(pending, id))
    && (IsJob(enqueued, id) ==>
          (Reported(reports, id, P.Failed) <==> Ended(finished, id, false) && !Waiting(pending, id)))
    && (IsJob(enqueued, id) && !Waiting(pending, id) ==> Ended(finished, id, true) || Ended(finished, id, false))
  }

  ghost predicate OutcomesInv<C>(s: R.System<C>) {
    && JobsOrdered(s.ctl.enqueued, |s.client.remote.attempts|)
    && HandedOver(s.client.remote.pending, s.ctl.enqueued)
    && forall id: nat :: Told(s.client.remote.reports, s.client.remote.pending, s.ctl.finished, s.ctl.enqueued, id)
  }

  // ----- the jobs

  /** A job ends once. */
  lemma {:induction false} EndsOnce(ctl: K.Controller, attempts: nat, id: nat)
    requires K.OrderInv(ctl) && JobsOrdered(ctl.enqueued, attempts)
    ensures !(Ended(ctl.finished, id, true) && Ended(ctl.finished, id, false))
    ensures forall ok :: Ended(ctl.finished, id, ok) ==> IsJob(ctl.enqueued, id)
  {
    var f := ctl.finished;
    assert forall k :: 0 <= k < |f| ==> K.JobsOf(f)[k] == f[k].job && ctl.enqueued[k] == f[k].job;
    forall ok | Ended(f, id, ok) ensures IsJob(ctl.enqueued, id) {
      var o :| o in f && o.job.ApplyJob? && o.job.id == id && o.ok == ok;
      var k :| 0 <= k < |f| && f[k] == o;
      assert ctl.enqueued[k] == o.job;
    }
    forall k, l | 0 <= k < l < |f| && f[k].job.ApplyJob? && f[l].job.ApplyJob? ensures f[k].job.id < f[l].job.id {
      assert ctl.enqueued[k] == f[k].job && ctl.enqueued[l] == f[l].job;
    }
  }

  lemma {:induction false} EndedOneMore(finished: seq<K.Outcome>, o: K.Outcome, id: nat, ok: bool)
    ensures Ended(finished + [o], id, ok) <==>
            Ended(finished, id, ok) || (o.job.ApplyJob? && o.job.id == id && o.ok == ok)
  {
    assert (finished + [o])[|finished|] == o;
    forall u | u in finished ensures u in finished + [o] {
    }
  }

  lemma {:induction false} ReportedOneMore(reports: seq<P.Report>, r: P.Report, id: nat, kind: P.StatusKind)
    ensures Reported(reports + [r], id, kind) <==>
            Reported(reports, id, kind) || (r.id == id && r.status.kind == kind)
  {
    assert (reports + [r])[|reports|] == r;
    forall u | u in reports ensures u in reports + [r] {
    }
  }

  // ----- the steps

  /** What a finishing job does not change: attempts whose client has been told. */
  lemma {:induction false} ControllerTells<C>(s: R.System<C>, e: K.Event)
    requires K.Inv(s.ctl) && OutcomesInv(s) && K.Enabled(s.ctl, e) && !e.Enqueued?
    ensures OutcomesInv(R.Next(s, R.ControllerStep(e)))
  {
    var d := K.Next(s.ctl, e);
    if e.JobRuns? {
      K.RunAdvances(s.ctl, e.oracle);
    } else {
      K.ResumeAdvances(s.ctl, e.oracle);
    }
    assert d.enqueued == s.ctl.enqueued;
    hide K.Next;
    if d.finished != s.ctl.finished {
      var o := d.finished[|d.finished| - 1];
      assert d.finished == s.ctl.finished + [o];
      K.StepKeeps(s.ctl, e);
      forall id: nat
        ensures Told(s.client.remote.reports, s.client.remote.pending, d.finished, d.enqueued, id)
      {
        TellsLater(s, d, o, id);
      }
    }
  }

  lemma {:induction false} TellsLater<C>(s: R.System<C>, d: K.Controller, o: K.Outcome, id: nat)
    requires OutcomesInv(s) && K.OrderInv(s.ctl) && K.OrderInv(d)
    requires d.enqueued == s.ctl.enqueued && d.finished == s.ctl.finished + [o]
    ensures Told(s.client.remote.reports, s.client.remote.pending, d.finished, d.enqueued, id)
  {
    hide Ended, Reported, Waiting, IsJob, K.OrderInv, JobsOrdered;
    EndedOneMore(s.ctl.finished, o, id, true);
    EndedOneMore(s.ctl.finished, o, id, false);
    assert Told(s.client.remote.reports, s.client.remote.pending, s.ctl.finished, s.ctl.enqueued, id);
    EndsOnce(d, |s.client.remote.attempts|, id);
    if o.job.ApplyJob? && o.job.id == id && !Waiting(s.client.remote.pending, id) {
      NewlyEnded(s.ctl, d, o, |s.client.remote.attempts|);
    }
  }

  /** A job that ends now had not ended. */
  lemma {:induction false} NewlyEnded(c: K.Controller, d: K.Controller, o: K.Outcome, attempts: nat)
    requires JobsOrdered(c.enqueued, attempts) && K.OrderInv(d) && d.enqueued == c.enqueued
    requires d.finished == c.finished + [o] && o.job.ApplyJob?
    ensures !Ended(c.finished, o.job.id, true) && !Ended(c.finished, o.job.id, false)
  {
    var f := d.finished;
    assert forall k :: 0 <= k < |f| ==> K.JobsOf(f)[k] == f[k].job && d.enqueued[k] == f[k].job;
    var n := |c.finished|;
    assert f[n] == o;
    forall k | 0 <= k < n ensures c.finished[k].job.ApplyJob? ==> c.finished[k].job.id < o.job.id {
      assert f[k] == c.finished[k] && d.enqueued[k] == f[k].job && d.enqueued[n] == o.job;
    }
  }

  /** A push answered while the jobs queued become `enqueued`: one more when the configuration is handed over. */
  ghost predicate Answers<C>(s: R.System<C>, d: P.Remote, enqueued: seq<K.Job>) {
    var r, n := s.client.remote, |s.client.remote.attempts|;
    if d.pending == r.pending then enqueued == s.ctl.enqueued
    else |d.pending| == 1 && enqueued == s.ctl.enqueued + [K.ApplyJob(n, d.pending[0].config)]
  }

  lemma {:induction false} NoReportOfNew(r: P.Remote)
    requires P.OneAttempt(r)
    ensures forall kind :: !Reported(r.reports, |r.attempts|, kind)
  {
    hide P.KeysAgree, P.FlightAgrees;
  }

  /** The reports of an answered push are those of its attempt, none of them APPLIED, and only APPLYING when its
      configuration is handed over. */
  lemma {:induction false} AnsweredLogs(r: P.Remote, d: P.Remote, rc: P.RemoteConfig)
    requires O.Answered(r, d, rc)
    ensures |r.reports| < |d.reports| && d.reports[..|r.reports|] == r.reports
    ensures forall k :: |r.reports| <= k < |d.reports| ==>
              && d.reports[k].id == |r.attempts| && d.reports[k].status.kind != P.Applied
              && (d.pending != r.pending ==> d.reports[k].status.kind == P.Applying)
  {
  }

  lemma {:induction false} ReportedLater(reports: seq<P.Report>, more: seq<P.Report>, id: nat, kind: P.StatusKind)
    requires |reports| <= |more| && more[..|reports|] == reports
    ensures Reported(reports, id, kind) ==> Reported(more, id, kind)
    ensures Reported(more, id, kind) ==>
              || Reported(reports, id, kind)
              || exists k :: |reports| <= k < |more| && more[k].id == id && more[k].status.kind == kind
  {
    if Reported(more, id, kind) {
      var k :| 0 <= k < |more| && more[k].id == id && more[k].status.kind == kind;
      if k < |reports| {
        assert more[k] == reports[k];
      }
    }
  }

  lemma {:induction false} AnswerReports(r: P.Remote, d: P.Remote, rc: P.RemoteConfig, id: nat)
    requires O.Answered(r, d, rc) && P.OneAttempt(r)
    ensures id != |r.attempts| ==> forall kind :: Reported(d.reports, id, kind) <==> Reported(r.reports, id, kind)
    ensures id == |r.attempts| ==> !Reported(d.reports, id, P.Applied)
    ensures id == |r.attempts| && d.pending != r.pending ==> !Reported(d.reports, id, P.Failed)
  {
    NoReportOfNew(r);
    AnsweredLogs(r, d, rc);
    hide P.OneAttempt, O.Answered, Reported;
    forall kind
      ensures Reported(r.reports, id, kind) ==> Reported(d.reports, id, kind)
      ensures Reported(d.reports, id, kind) ==>
                || Reported(r.reports, id, kind)
                || exists k :: |r.reports| <= k < |d.reports| && d.reports[k].id == id
                               && d.reports[k].status.kind == kind
    {
      ReportedLater(r.reports, d.reports, id, kind);
    }
  }

  lemma {:induction false} AnswerTells<C>(s: R.System<C>, d: P.Remote, rc: P.RemoteConfig, enqueued: seq<K.Job>,
      id: nat)
    requires P.OneAttempt(s.client.remote) && K.OrderInv(s.ctl) && OutcomesInv(s)
    requires O.Wanted(s.client.remote, rc) && O.Answered(s.client.remote, d, rc) && Answers(s, d, enqueued)
    ensures Told(d.reports, d.pending, s.ctl.finished, enqueued, id)
  {
    var r, n := s.client.remote, |s.client.remote.attempts|;
    AnswerReports(r, d, rc, id);
    EndsOnce(s.ctl, n, id);
    assert Told(r.reports, r.pending, s.ctl.finished, s.ctl.enqueued, id);
    hide K.OrderInv, P.OneAttempt, Ended, Reported;
    if d.pending != r.pending {
      assert enqueued[|s.ctl.enqueued|] == K.ApplyJob(n, d.pending[0].config);
      assert forall k :: 0 <= k < |s.ctl.enqueued| ==> enqueued[k] == s.ctl.enqueued[k];
      assert d.pending[0].attempt.id == n && r.pending == [];
      assert Waiting(d.pending, n);
      if id != n {
        assert IsJob(enqueued, id) <==> IsJob(s.ctl.enqueued, id);
      }
    }
  }

  lemma {:induction false} SettleTells<C>(s: R.System<C>, d: P.Remote, failure: Option<string>, id: nat)
    requires |s.client.remote.pending| == 1 && O.Settled(s.client.remote, d, failure)
    requires K.OrderInv(s.ctl) && OutcomesInv(s) && R.Settled(s, failure.None?)
    ensures Told(d.reports, d.pending, s.ctl.finished, s.ctl.enqueued, id)
  {
    var r, p, ctl := s.client.remote, s.client.remote.pending[0], s.ctl;
    assert Told(r.reports, r.pending, ctl.finished, ctl.enqueued, id);
    EndsOnce(ctl, |r.attempts|, id);
    hide K.OrderInv;
    var last := d.reports[|r.reports|];
    ReportedOneMore(r.reports, last, id, P.Applied);
    ReportedOneMore(r.reports, last, id, P.Failed);
    if id == p.attempt.id {
      assert p in r.pending && Waiting(r.pending, id);
      assert K.ApplyJob(id, p.config) in ctl.enqueued && IsJob(ctl.enqueued, id);
      assert Ended(ctl.finished, id, failure.None?);
    } else {
      hide Ended, Reported, IsJob;
      assert !Waiting(r.pending, id);
    }
  }

  lemma {:induction false} AnswerQueues<C>(s: R.System<C>, d: P.Remote, rc: P.RemoteConfig, enqueued: seq<K.Job>)
    requires OutcomesInv(s)
    requires O.Wanted(s.client.remote, rc) && O.Answered(s.client.remote, d, rc) && Answers(s, d, enqueued)
    ensures JobsOrdered(enqueued, |d.attempts|) && HandedOver(d.pending, enqueued)
  {
    var n := |s.ctl.enqueued|;
    assert forall k :: 0 <= k < n ==> enqueued[k] == s.ctl.enqueued[k];
    if d.pending != s.client.remote.pending {
      assert enqueued[n] == K.ApplyJob(d.pending[0].attempt.id, d.pending[0].config);
    }
  }

  lemma {:induction false} ClientTells<C>(s: R.System<C>, e: P.Event<C>)
    requires R.SysInv(s) && OutcomesInv(s) && P.Enabled(s.client, e) && !e.ApplyDone? && !e.Stop?
    ensures OutcomesInv(R.Next(s, R.ClientStep(e)))
  {
    hide P.Next, K.Inv, P.OneLoop, P.OneAttempt, P.StatusNotLost, O.Answered, O.Wanted, P.Enabled, O.Pushed;
    O.PushStep(s.client, e);
    var d, f, rc := P.Next(s.client, e).remote, R.Next(s, R.ClientStep(e)), O.Pushed(s.client, e);
    if d == s.client.remote {
      assert f.ctl == s.ctl;
    } else {
      PendingAnswered(s.client.remote, d, rc.value);
      InvParts(s);
      hide R.SysInv;
      assert Answers(s, d, f.ctl.enqueued);
      AnswerQueues(s, d, rc.value, f.ctl.enqueued);
      forall id: nat ensures Told(d.reports, d.pending, f.ctl.finished, f.ctl.enqueued, id) {
        AnswerTells(s, d, rc.value, f.ctl.enqueued, id);
      }
    }
  }

  lemma {:induction false} PendingAnswered(r: P.Remote, d: P.Remote, rc: P.RemoteConfig)
    requires O.Wanted(r, rc) && O.Answered(r, d, rc)
    ensures d.pending != r.pending ==> r.pending == [] && |d.pending| == 1 && d.pending[0].attempt.id == |r.attempts|
  {
  }

  lemma {:induction false} InvParts<C>(s: R.System<C>)
    requires R.SysInv(s)
    ensures P.OneAttempt(s.client.remote) && K.OrderInv(s.ctl) && K.Inv(s.ctl) && P.Inv(s.client)
  {
  }

  lemma {:induction false} SettlesTell<C>(s: R.System<C>, failure: Option<string>)
    requires R.SysInv(s) && OutcomesInv(s) && R.Settled(s, failure.None?)
    ensures OutcomesInv(R.Next(s, R.ApplySettles(failure)))
  {
    InvParts(s);
    hide R.SysInv, P.Next, P.Inv, K.Inv, O.Settled;
    var d := P.Next(s.client, P.ApplyDone(failure)).remote;
    O.SettleStep(s.client, failure);
    SettledLogs(s.client.remote, d, failure);
    forall id: nat ensures Told(d.reports, d.pending, s.ctl.finished, s.ctl.enqueued, id) {
      SettleTells(s, d, failure, id);
    }
  }

  lemma {:induction false} SettledLogs(r: P.Remote, d: P.Remote, failure: Option<string>)
    requires r.pending != [] && O.Settled(r, d, failure)
    ensures d.pending == [] && d.attempts == r.attempts
  {
  }

  lemma {:induction false} ShutdownTells<C>(s: R.System<C>)
    requires OutcomesInv(s) && R.Enabled(s, R.Shutdown)
    ensures OutcomesInv(R.Next(s, R.Shutdown))
  {
    var f, n := R.Next(s, R.Shutdown), |s.ctl.enqueued|;
    assert f.ctl.enqueued == s.ctl.enqueued + [K.StopAllJob] && f.ctl.enqueued[n] == K.StopAllJob;
    assert forall k :: 0 <= k < n ==> f.ctl.enqueued[k] == s.ctl.enqueued[k];
    forall id: nat ensures IsJob(f.ctl.enqueued, id) <==> IsJob(s.ctl.enqueued, id) {
    }
    hide IsJob, Ended, Reported, Waiting;
    forall id: nat
      ensures Told(f.client.remote.reports, f.client.remote.pending, f.ctl.finished, f.ctl.enqueued, id)
    {
      assert Told(s.client.remote.reports, s.client.remote.pending, s.ctl.finished, s.ctl.enqueued, id);
    }
  }

  lemma {:induction false} StepTells<C>(s: R.System<C>, e: R.Event<C>)
    requires R.SysInv(s) && OutcomesInv(s) && R.Enabled(s, e)
    ensures OutcomesInv(R.Next(s, e))
  {
    InvParts(s);
    hide R.SysInv, OutcomesInv, R.Next, P.Inv, K.Inv;
    match e
    case ClientStep(ce) => ClientTells(s, ce);
    case ControllerStep(ke) => ControllerTells(s, ke);
    case ApplySettles(failure) => SettlesTell(s, failure);
    case Shutdown => ShutdownTells(s);
  }

  lemma {:induction false} EveryStateTells<C>(states: seq<R.System<C>>, events: seq<R.Event<C>>, interval: nat,
      base: K.Options, enabled: bool, available: bool, i: nat)
    requires R.IsRun(states, events, interval, base, enabled, available) && i < |states|
    ensures OutcomesInv(states[i])
  {
    hide R.SysInv, OutcomesInv, R.Next, R.Enabled, R.Initial;
    if i > 0 {
      EveryStateTells(states, events, interval, base, enabled, available, i - 1);
      R.EveryState(states, events, interval, base, enabled, available, i - 1);
      StepTells(states[i - 1], events[i - 1]);
    } else {
      InitialTells<C>(interval, base, enabled, available);
    }
  }

  lemma {:induction false} InitialTells<C>(interval: nat, base: K.Options, enabled: bool, available: bool)
    ensures OutcomesInv(R.Initial<C>(interval, base, enabled, available))
  {
  }

  // ----- the promises

  /** What an attempt has reported is what became of its job, and it waits until it has reported how that ended. */
  ghost predicate ReportsOutcome(r: P.Remote, ctl: K.Controller, id: nat) {
    && (Reported(r.reports, id, P.Applied) <==> Ended(ctl.finished, id, true) && !Waiting(r.pending, id))
    && (IsJob(ctl.enqueued, id) ==>
          && (Reported(r.reports, id, P.Failed) <==> Ended(ctl.finished, id, false) && !Waiting(r.pending, id))
          && !(Reported(r.reports, id, P.Applied) && Reported(r.reports, id, P.Failed))
          && (Waiting(r.pending, id) || Reported(r.reports, id, P.Applied) || Reported(r.reports, id, P.Failed)))
  }

  lemma {:induction false} ToldReportsOutcome<C>(s: R.System<C>, id: nat)
    requires K.OrderInv(s.ctl) && OutcomesInv(s)
    ensures ReportsOutcome(s.client.remote, s.ctl, id)
  {
    EndsOnce(s.ctl, |s.client.remote.attempts|, id);
    assert Told(s.client.remote.reports, s.client.remote.pending, s.ctl.finished, s.ctl.enqueued, id);
    hide Reported, Ended, Waiting, IsJob, JobsOrdered, K.OrderInv;
  }

  /** In every state of every run: an apply that waits has been queued as a job with its own configuration, and an
      attempt has reported APPLIED exactly when its job ended well and the client has been told.  It has reported
      FAILED, once handed over, exactly when its job ended badly and the client has been told. */
  lemma {:induction false} AppliedIffJobEndedWell<C>(states: seq<R.System<C>>, events: seq<R.Event<C>>, interval: nat,
      base: K.Options, enabled: bool, available: bool, i: nat)
    requires R.IsRun(states, events, interval, base, enabled, available) && i < |states|
    ensures forall p :: p in states[i].client.remote.pending ==>
              K.ApplyJob(p.attempt.id, p.config) in states[i].ctl.enqueued
    ensures forall id: nat :: ReportsOutcome(states[i].client.remote, states[i].ctl, id)
  {
    hide R.IsRun, R.SysInv, ReportsOutcome, K.OrderInv, Told;
    EveryStateTells(states, events, interval, base, enabled, available, i);
    R.EveryState(states, events, interval, base, enabled, available, i);
    InvParts(states[i]);
    forall id: nat ensures ReportsOutcome(states[i].client.remote, states[i].ctl, id) {
      ToldReportsOutcome(states[i], id);
    }
  }
}
