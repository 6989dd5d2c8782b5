/** The OpAMP client as a state machine whose steps are the stretches of code between two awaits. */
module OpampProtocol {
  import opened Arithmetic
  import opened Wrappers

  type Bytes = seq<int>

  /** A parsed remote configuration; intervals are absent when the document does not give a number. */
  datatype ProfilingConfig = ProfilingConfig(
    cpuEnabled: bool, cpuInterval: Option<int>, memoryEnabled: bool, callgraphsEnabled: bool,
        callgraphsInterval: Option<int>)

  /** A hash that cannot be read comes with the error that reading it raised. */
  datatype HashField = Absent | Readable(bytes: Bytes) | Unreadable(error: string)

  /** A pushed configuration: its hash, the decoded body, and the outcome of parsing it. */
  datatype RemoteConfig = RemoteConfig(hash: HashField, body: string, parsed: Result<ProfilingConfig>)

  datatype ServerMessage =
    | ErrorResponse(retryAfterMs: Option<nat>)
    | Normal(reportFullState: bool, remoteConfig: Option<RemoteConfig>)

  /** How a send completes: 200 with a body that may fail to decode, 409, another status, or an exception. */
  datatype Response = Ok(decoded: Option<ServerMessage>) | Conflict | OtherStatus | CommunicationError

  datatype StatusKind = Applying | Applied | Failed

  /** A remote-config status; `hash` is None where the source reports an empty hash. */
  datatype Status = Status(kind: StatusKind, hash: Option<Bytes>, errorMessage: string)

  /** What distinguishes one pushed configuration from the next. */
  datatype Key = ByHash(hash: Bytes) | ByBody(body: string)

  /** One attempt at a configuration; `direct` when it failed on the spot because its hash was unreadable. */
  datatype Attempt = Attempt(id: nat, key: Key, hash: Option<Bytes>, direct: bool)

  /** An apply waiting for the controller. */
  datatype Pending = Pending(attempt: Attempt, config: ProfilingConfig)

  datatype Report = Report(id: nat, status: Status)

  datatype Message<C> = Message(sequenceNum: nat, status: Option<Status>, effective: Option<C>)

  datatype Backoff = Backoff(failures: nat, minDelay: Option<nat>)

  const NO_BACKOFF := Backoff(0, None)

  datatype Phase = Created | Starting | Started

  /** The poll loop: `timers` are the armed timers of the event loop with their delays, and `polls` is the
      number of polls waiting for the transport. */
  datatype Loop = Loop(
    phase: Phase,
    pollingIntervalMs: nat,
    stopping: bool,
    polling: bool,
    pollAgain: bool,
    pollingTimer: Option<nat>,
    backoff: Backoff,
    timers: map<nat, nat>,
    nextTimer: nat,
    polls: nat)

  /** The remote-config bookkeeping: `pending` are the applies waiting for the controller; `attempts` and
      `reports` are logs. */
  datatype Remote = Remote(
    lastHash: Option<Bytes>,
    lastBody: Option<string>,
    applyInFlight: bool,
    status: Option<Status>,
    pending: seq<Pending>,
    attempts: seq<Attempt>,
    reports: seq<Report>)

  /** What goes into messages; `sent` is the log of those built for polls. */
  datatype Outbox<C> = Outbox(sequenceNum: nat, lastSent: Option<C>, pendingEffective: Option<C>, sent: seq<Message<C>>)

  datatype Client<C> = Client(acceptsRemoteConfig: bool, loop: Loop, remote: Remote, out: Outbox<C>)

  datatype Event<C> =
    | Start
    | AttributesReady(effective: C)
    | TimerFires(id: nat, effective: C)
    | PollResumes(response: Response, jitter: nat)
    /** The apply resolved, or rejected with an error. */
    | ApplyDone(failure: Option<string>)
    | Stop

  function Initial<C>(accepts: bool, interval: nat): Client<C> {
    Client(accepts,
           Loop(Created, interval, false, false, false, None, NO_BACKOFF, map[], 0, 0),
           Remote(None, None, false, None, [], [], []),
           Outbox(0, None, None, []))
  }

  // ----- timers

  function Min(a: nat, b: nat): nat { if a < b then a else b }

  function Max(a: nat, b: nat): nat { if a < b then b else a }

  /** `ExponentialBackoff.nextDelay` with base 1000 and maximum 60000 milliseconds. */
  function NextDelay(b: Backoff, interval: nat, jitter: nat): (nat, Backoff) {
    if b == NO_BACKOFF then (interval, b)
    else
      var delay := Min(1000 * Pow2(b.failures), 60_000) + jitter;
      (if b.minDelay.Some? then Max(delay, b.minDelay.value) else delay, Backoff(b.failures + 1, None))
  }

  function ClearTimer(l: Loop): Loop {
    if l.pollingTimer.Some? then l.(timers := l.timers - {l.pollingTimer.value}, pollingTimer := None) else l
  }

  function SetTimer(l: Loop, delay: nat): Loop {
    l.(timers := l.timers[l.nextTimer := delay], pollingTimer := Some(l.nextTimer), nextTimer := l.nextTimer + 1)
  }

  function ScheduleNextPoll(l: Loop, delayMs: Option<nat>, jitter: nat): Loop {
    if l.stopping then l
    else
      var l1 := ClearTimer(l);
      var (delay, backoff) :=
        if delayMs.Some? then (delayMs.value, l1.backoff) else NextDelay(l1.backoff, l1.pollingIntervalMs, jitter);
      SetTimer(l1.(backoff := backoff), delay)
  }

  function TriggerPoll(l: Loop): Loop {
    if l.stopping then l
    else if l.polling then l.(pollAgain := true)
    else ScheduleNextPoll(l, Some(0), 0)
  }

  // ----- remote configuration

  /** The key the client remembers, if any. */
  function StoredKey(lastHash: Option<Bytes>, lastBody: Option<string>): Option<Key> {
    if lastHash.Some? then Some(ByHash(lastHash.value))
    else if lastBody.Some? then Some(ByBody(lastBody.value))
    else None
  }

  function HashOf(rc: RemoteConfig): Option<Bytes> {
    if rc.hash.Readable? then Some(rc.hash.bytes) else None
  }

  function KeyOf(rc: RemoteConfig): Key {
    if rc.hash.Readable? then ByHash(rc.hash.bytes) else ByBody(rc.body)
  }

  function SetStatus(r: Remote, a: Attempt, kind: StatusKind, error: string): Remote {
    var s := Status(kind, a.hash, error);
    r.(status := Some(s), reports := r.reports + [Report(a.id, s)])
  }

  function NewAttempt(r: Remote, rc: RemoteConfig): Attempt {
    Attempt(|r.attempts|, KeyOf(rc), HashOf(rc), rc.hash.Unreadable?)
  }

  function IsRepeat(r: Remote, rc: RemoteConfig): bool {
    if rc.hash.Readable? then r.lastHash == Some(rc.hash.bytes) else r.lastBody == Some(rc.body)
  }

  function Record(r: Remote, rc: RemoteConfig): Remote {
    r.(lastHash := HashOf(rc),
       lastBody := if rc.hash.Readable? then None else Some(rc.body),
       attempts := r.attempts + [NewAttempt(r, rc)])
  }

  /** Whether a pushed configuration is acted upon. */
  predicate Attempts(r: Remote, rc: RemoteConfig) {
    !IsRepeat(r, rc) && (rc.hash.Unreadable? || !r.applyInFlight)
  }

  /** What an attempt does to the bookkeeping, up to the await. */
  function BeginAttempt(r: Remote, rc: RemoteConfig): Remote {
    var a := NewAttempt(r, rc);
    if rc.hash.Unreadable? then SetStatus(Record(r, rc), a, Failed, rc.hash.error)
    else
      var applying := SetStatus(Record(r, rc), a, Applying, "");
      if rc.parsed.Failure? then SetStatus(applying, a, Failed, rc.parsed.error)
      else applying.(applyInFlight := true, pending := r.pending + [Pending(a, rc.parsed.value)])
  }

  /** The synchronous part of `_handleRemoteConfig`; it triggers a poll for each status it reports. */
  function HandleRemoteConfig<C>(c: Client<C>, rc: RemoteConfig): Client<C> {
    if !c.acceptsRemoteConfig || c.loop.stopping || !Attempts(c.remote, rc) then c
    else
      var l := TriggerPoll(c.loop);
      c.(remote := BeginAttempt(c.remote, rc),
         loop := if rc.parsed.Failure? && !rc.hash.Unreadable? then TriggerPoll(l) else l)
  }

  function ProcessServerResponse<C>(c: Client<C>, m: ServerMessage): Client<C> {
    match m
    case ErrorResponse(retry) =>
      if retry.Some? && retry.value != 0 then c.(loop := c.loop.(backoff := c.loop.backoff.(minDelay := retry))) else c
    case Normal(full, rc) =>
      var c1 := c.(loop := c.loop.(backoff := NO_BACKOFF),
                   out := if full then c.out.(lastSent := None) else c.out);
      if rc.Some? then HandleRemoteConfig(c1, rc.value) else c1
  }

  // ----- polls

  function BuildMessage<C(==)>(o: Outbox<C>, status: Option<Status>, effective: C): Message<C> {
    Message(o.sequenceNum, status, if o.lastSent == Some(effective) then None else Some(effective))
  }

  /** `_poll` up to the send. */
  function BeginPoll<C(==)>(c: Client<C>, effective: C): Client<C> {
    if c.loop.stopping then c
    else
      var m := BuildMessage(c.out, c.remote.status, effective);
      c.(loop := c.loop.(polling := true, pollAgain := false, polls := c.loop.polls + 1),
         out := c.out.(sequenceNum := c.out.sequenceNum + 1,
                       pendingEffective := if m.effective.Some? then m.effective else c.out.pendingEffective,
                       sent := c.out.sent + [m]))
  }

  function Acknowledge<C>(o: Outbox<C>): Outbox<C> {
    if o.pendingEffective.Some? then o.(lastSent := o.pendingEffective, pendingEffective := None) else o
  }

  /** What `_poll` does with the transport's answer, before its `finally`. */
  function HandleResponse<C>(c: Client<C>, r: Response): Client<C> {
    match r
    case Ok(decoded) =>
      var c1 := c.(out := Acknowledge(c.out));
      if decoded.None? then c1
      else
        var c2 := ProcessServerResponse(c1, decoded.value);
        c2.(loop := c2.loop.(backoff := NO_BACKOFF))
    case Conflict => c.(out := c.out.(lastSent := None, pendingEffective := None))
    case OtherStatus => c
    case CommunicationError => c
  }

  function FinishPoll<C>(c: Client<C>, r: Response, jitter: nat): Client<C>
    requires c.loop.polls > 0
  {
    var c1 := HandleResponse(c, r);
    var l := c1.loop.(polling := false, polls := c.loop.polls - 1);
    c1.(loop := ScheduleNextPoll(l, if l.pollAgain then Some(0) else None, jitter))
  }

  function FinishApply<C>(c: Client<C>, failure: Option<string>): Client<C>
    requires c.remote.pending != []
  {
    var r := c.remote.(pending := c.remote.pending[1..], applyInFlight := false);
    c.(remote :=
        SetStatus(r, c.remote.pending[0].attempt, if failure.None? then Applied else Failed, failure.GetOr("")),
       loop := TriggerPoll(c.loop))
  }

  // ----- runs

  predicate Enabled<C>(c: Client<C>, e: Event<C>) {
    match e
    case Start => c.loop.phase == Created && !c.loop.stopping
    case AttributesReady(_) => c.loop.phase == Starting
    case TimerFires(id, _) => id in c.loop.timers
    case PollResumes(_, _) => c.loop.polls > 0
    case ApplyDone(_) => c.remote.pending != []
    case Stop => c.loop.phase != Created
  }

  function Next<C(==)>(c: Client<C>, e: Event<C>): Client<C>
    requires Enabled(c, e)
  {
    match e
    case Start => c.(loop := c.loop.(phase := Starting, stopping := false), out := c.out.(sequenceNum := 0))
    case AttributesReady(eff) => BeginPoll(c.(loop := c.loop.(phase := Started)), eff)
    case TimerFires(id, eff) => BeginPoll(c.(loop := c.loop.(timers := c.loop.timers - {id})), eff)
    case PollResumes(r, jitter) => FinishPoll(c, r, jitter)
    case ApplyDone(failure) => FinishApply(c, failure)
    case Stop =>
      c.(loop := ClearTimer(c.loop.(stopping := true)).(pollAgain := false),
         out := c.out.(sequenceNum := c.out.sequenceNum + 1))
  }

  ghost predicate IsRun<C>(states: seq<Client<C>>, events: seq<Event<C>>, accepts: bool, interval: nat) {
    && |states| == |events| + 1
    && states[0] == Initial(accepts, interval)
    && forall i :: 0 <= i < |events| ==> Enabled(states[i], events[i]) && states[i + 1] == Next(states[i], events[i])
  }

  // ----- the invariant of every reachable state

  /** At most the remembered timer is armed. */
  ghost predicate TimerTracked(l: Loop) {
    && (forall id :: id in l.timers ==> l.pollingTimer == Some(id) && id < l.nextTimer)
    && (l.pollingTimer.Some? ==> l.pollingTimer.value < l.nextTimer)
    && (forall id :: id in l.timers ==> l.timers[id] == 0 || l.timers[id] == l.pollingIntervalMs)
  }

  ghost predicate OneLoop(l: Loop) {
    && l.polls <= 1
    && (l.polling <==> l.polls == 1)
    && TimerTracked(l)
    && (l.polling || l.stopping || l.phase != Started ==> l.timers == map[])
    && (l.phase == Started && !l.stopping ==> l.polling || l.timers != map[])
    && (l.phase != Started ==> !l.polling)
    && l.backoff == NO_BACKOFF
  }

  function LastReported<C>(o: Outbox<C>): Option<Status> {
    if o.sent == [] then None else o.sent[|o.sent| - 1].status
  }

  /** A poll will follow at once: the running one is asked to repeat, or a timer without delay is armed. */
  predicate PollIsDue(l: Loop) {
    || (l.polling && l.pollAgain)
    || (l.pollingTimer.Some? && l.pollingTimer.value in l.timers && l.timers[l.pollingTimer.value] == 0)
  }

  ghost predicate StatusNotLost<C>(c: Client<C>) {
    !c.loop.stopping && LastReported(c.out) != c.remote.status ==> PollIsDue(c.loop)
  }

  /** The statuses one attempt has reported. */
  function ReportsOf(reports: seq<Report>, id: nat): seq<Status> {
    if reports == [] then []
    else
      var front := ReportsOf(reports[..|reports| - 1], id);
      if reports[|reports| - 1].id == id then front + [reports[|reports| - 1].status] else front
  }

  /** APPLYING and then, unless the apply is still pending, exactly one of APPLIED and FAILED, all with the
      attempt's own hash; an attempt whose hash was unreadable only reports FAILED. */
  predicate ProperReports(a: Attempt, inFlight: bool, s: seq<Status>) {
    if a.direct then |s| == 1 && s[0].kind == Failed && s[0].hash == None
    else if inFlight then s == [Status(Applying, a.hash, "")]
    else
      && |s| == 2 && s[0] == Status(Applying, a.hash, "")
      && (s[1] == Status(Applied, a.hash, "") || (s[1].kind == Failed && s[1].hash == a.hash))
  }

  /** The stored key is the key of the last attempt, and no two consecutive attempts share a key. */
  ghost predicate KeysAgree(lastHash: Option<Bytes>, lastBody: Option<string>, attempts: seq<Attempt>) {
    && !(lastHash.Some? && lastBody.Some?)
    && StoredKey(lastHash, lastBody) == (if attempts == [] then None else Some(attempts[|attempts| - 1].key))
    && (forall i :: 0 <= i < |attempts| - 1 ==> attempts[i].key != attempts[i + 1].key)
    && (forall i :: 0 <= i < |attempts| ==> attempts[i].id == i)
  }

  ghost predicate FlightAgrees(pending: seq<Pending>, applyInFlight: bool, attempts: seq<Attempt>) {
    && |pending| <= 1
    && (applyInFlight <==> |pending| == 1)
    && (forall p :: p in pending ==> p.attempt in attempts && !p.attempt.direct)
  }

  ghost predicate ReportsAgree(pending: seq<Pending>, attempts: seq<Attempt>, reports: seq<Report>,
      status: Option<Status>)
  {
    && (forall a :: a in attempts ==>
        ProperReports(a, pending != [] && pending[0].attempt == a, ReportsOf(reports, a.id)))
    && (forall r :: r in reports ==> r.id < |attempts|)
    && status == (if reports == [] then None else Some(reports[|reports| - 1].status))
  }

  ghost predicate OneAttempt(r: Remote) {
    && KeysAgree(r.lastHash, r.lastBody, r.attempts)
    && FlightAgrees(r.pending, r.applyInFlight, r.attempts)
    && ReportsAgree(r.pending, r.attempts, r.reports, r.status)
  }

  ghost predicate Inv<C>(c: Client<C>) {
    && OneLoop(c.loop) && StatusNotLost(c) && OneAttempt(c.remote)
    && (c.loop.phase != Started ==> c.remote.pending == [] && c.remote.status == None && c.out.sent == [])
  }
}
