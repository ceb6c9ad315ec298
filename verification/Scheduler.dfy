/**
 * The scheduler's tables as values and what each service function does to them: nodes, jobs, retries, dead
 * letters and the circuit breaker, over one clock.
 */
module SchedulerModel {
  import opened Foundations

  const MAX_RETRIES := 3
  const FAILURE_THRESHOLD := 3
  const RECOVERY_TIMEOUT := 300
  const UNHEALTHY_THRESHOLD_SECONDS := 90

  datatype NodeStatus = REGISTERED | HEALTHY | UNHEALTHY | OFFLINE

  datatype JobStatus = QUEUED | DISPATCHED | RUNNING | COMPLETED | FAILED

  datatype Node = Node(
    publicKey: string, capabilities: seq<string>, status: NodeStatus, lastHeartbeat: Option<int>, load: real)

  datatype Job = Job(
    node: nat, jobType: string, payload: string, status: JobStatus,
    queuedAt: int, dispatchedAt: Option<int>, completedAt: Option<int>,
    resultRef: Option<string>, error: Option<string>, retryCount: nat)

  datatype DeadLetter = DeadLetter(job: nat, payload: string, errors: seq<string>, failedAt: int, retryCount: nat)

  datatype Tables = Tables(nodes: map<nat, Node>, jobs: map<nat, Job>, deadLetters: seq<DeadLetter>)

  // ---------------------------------------------------------------------------------------------
  // One job row
  // ---------------------------------------------------------------------------------------------

  predicate ValidTransition(from: JobStatus, to: JobStatus) {
    match from
    case QUEUED => to == DISPATCHED || to == FAILED
    case DISPATCHED => to == RUNNING || to == FAILED || to == QUEUED
    case RUNNING => to == COMPLETED || to == FAILED
    case COMPLETED => false
    case FAILED => to == QUEUED
  }

  function Updated(job: Job, to: JobStatus, resultRef: Option<string>, error: Option<string>, now: int): Result<Job> {
    if !ValidTransition(job.status, to) then Err(ValueError)
    else Ok(job.(
      status := to,
      dispatchedAt := if to == DISPATCHED then Some(now) else job.dispatchedAt,
      completedAt := if to == COMPLETED || to == FAILED then Some(now) else job.completedAt,
      resultRef := if to == COMPLETED && resultRef.Some? then resultRef else job.resultRef,
      error := if to == FAILED && error.Some? then error else job.error,
      retryCount := if to == QUEUED then job.retryCount + 1 else job.retryCount))
  }

  function Cancelled(job: Job, now: int): Result<Job> {
    if job.status != QUEUED && job.status != DISPATCHED then Err(ValueError)
    else Ok(job.(status := FAILED, completedAt := Some(now), error := Some("Cancelled by user")))
  }

  predicate Movable(job: Job, node: nat) {
    job.node == node && (job.status == QUEUED || job.status == DISPATCHED)
  }

  function Redistributed(job: Job, node: nat): Job {
    if Movable(job, node) then job.(status := QUEUED, dispatchedAt := None) else job
  }

  function Failed(job: Job, error: string, now: int): Result<Job> {
    if job.status == FAILED then Ok(job) else Updated(job, FAILED, None, Some(error), now)
  }

  /** The retry branch: to FAILED unless there already, to QUEUED, then to the best node if there is one. */
  function Requeued(job: Job, error: string, best: Option<nat>, now: int): Result<Job> {
    match Failed(job, error, now)
    case Err(e) => Err(e)
    case Ok(failed) =>
      match Updated(failed, QUEUED, None, None, now)
      case Err(e) => Err(e)
      case Ok(queued) => Ok(if best.Some? then queued.(node := best.value) else queued)
  }

  function Buried(job: Job, error: string, now: int): Result<Job> {
    if job.status != FAILED then Updated(job, FAILED, None, Some(error), now)
    else Ok(job.(error := Some(error)))
  }

  /** The last stored error, if there is a different one, then the final one. */
  function ErrorHistory(job: Job, error: string): seq<string> {
    (if job.error.Some? && job.error.value != "" && job.error.value != error then [job.error.value] else []) + [error]
  }

  // ---------------------------------------------------------------------------------------------
  // Nodes
  // ---------------------------------------------------------------------------------------------

  predicate Eligible(nodes: map<nat, Node>, jobType: string, n: nat) {
    n in nodes && nodes[n].status == HEALTHY && jobType in nodes[n].capabilities
  }

  /** A least-loaded healthy node with the capability, or none when there is none. */
  ghost predicate BestNode(nodes: map<nat, Node>, jobType: string, best: Option<nat>) {
    match best
    case None => forall n :: !Eligible(nodes, jobType, n)
    case Some(b) =>
      Eligible(nodes, jobType, b) && forall n :: Eligible(nodes, jobType, n) ==> nodes[b].load <= nodes[n].load
  }

  function Clamp(load: real): real {
    if load < 0.0 then 0.0 else if load > 1.0 then 1.0 else load
  }

  function Heartbeat(node: Node, load: real, now: int): Node {
    node.(lastHeartbeat := Some(now), load := Clamp(load),
          status := if node.status == REGISTERED || node.status == UNHEALTHY then HEALTHY else node.status)
  }

  /** A missing heartbeat compares as unknown in SQL, so such a node is never stale. */
  predicate Stale(node: Node, now: int) {
    node.status == HEALTHY && node.lastHeartbeat.Some? && node.lastHeartbeat.value < now - UNHEALTHY_THRESHOLD_SECONDS
  }

  function MarkStale(nodes: map<nat, Node>, now: int): map<nat, Node> {
    map n | n in nodes :: if Stale(nodes[n], now) then nodes[n].(status := UNHEALTHY) else nodes[n]
  }

  /** UPDATE edge_nodes SET status WHERE id: without effect on an unknown id. */
  function SetStatus(nodes: map<nat, Node>, n: nat, status: NodeStatus): map<nat, Node> {
    if n in nodes then nodes[n := nodes[n].(status := status)] else nodes
  }

  function RedistributeJobs(jobs: map<nat, Job>, node: nat): map<nat, Job> {
    map j | j in jobs :: Redistributed(jobs[j], node)
  }

  // ---------------------------------------------------------------------------------------------
  // The circuit breaker
  // ---------------------------------------------------------------------------------------------

  datatype Breaker = Breaker(counts: map<nat, nat>, lastFailure: map<nat, int>, halfOpen: set<nat>)

  function FailureCount(b: Breaker, n: nat): nat {
    if n in b.counts then b.counts[n] else 0
  }

  function Forget(b: Breaker, n: nat): Breaker {
    Breaker(b.counts - {n}, b.lastFailure - {n}, b.halfOpen - {n})
  }

  function AfterFailure(b: Breaker, n: nat, now: int): Breaker {
    var count := FailureCount(b, n) + 1;
    Breaker(b.counts[n := count], b.lastFailure[n := now],
            if count >= FAILURE_THRESHOLD then b.halfOpen - {n} else b.halfOpen)
  }

  function Trip(t: Tables, b: Breaker, n: nat): Tables {
    if FailureCount(b, n) + 1 >= FAILURE_THRESHOLD then
      t.(nodes := SetStatus(t.nodes, n, UNHEALTHY), jobs := RedistributeJobs(t.jobs, n))
    else t
  }

  function FailureVerdict(b: Breaker, n: nat): NodeStatus {
    if FailureCount(b, n) + 1 >= FAILURE_THRESHOLD then UNHEALTHY else HEALTHY
  }

  predicate MayProbe(t: Tables, b: Breaker, n: nat, now: int) {
    n in t.nodes && t.nodes[n].status == UNHEALTHY && n in b.lastFailure && now - b.lastFailure[n] >= RECOVERY_TIMEOUT
  }

  function EffectiveHealth(t: Tables, b: Breaker, n: nat, now: int): NodeStatus {
    if n !in t.nodes then OFFLINE
    else if MayProbe(t, b, n, now) then HEALTHY
    else t.nodes[n].status
  }

  // ---------------------------------------------------------------------------------------------
  // Operations
  // ---------------------------------------------------------------------------------------------

  datatype System = System(tables: Tables, breaker: Breaker, now: int)

  datatype Op =
    | Register(node: nat, publicKey: string, capabilities: seq<string>)
    | Beat(node: nat, load: real)
    | Sweep
    | Dispatch(job: nat, jobType: string, payload: string, best: Option<nat>)
    | Update(job: nat, to: JobStatus, resultRef: Option<string>, error: Option<string>)
    | Cancel(job: nat)
    | Retry(job: nat, message: string, best: Option<nat>)
    | RecordFailure(node: nat)
    | RecordSuccess(node: nat)
    | CheckHealth(node: nat)
    | Redistribute(node: nat)
    | ResetBreaker(node: nat)

  /** An operation at its time. */
  datatype Event = Event(op: Op, at: int)

  function Registered(t: Tables, n: nat, publicKey: string, capabilities: seq<string>): Tables {
    if exists m <- t.nodes.Keys :: t.nodes[m].publicKey == publicKey then t
    else t.(nodes := t.nodes[n := Node(publicKey, capabilities, REGISTERED, None, 0.0)])
  }

  function Dispatched(t: Tables, j: nat, jobType: string, payload: string, best: Option<nat>, now: int): Tables {
    match best
    case None => t
    case Some(n) =>
      t.(jobs := t.jobs[j := Job(n, jobType, payload, DISPATCHED, now, Some(now), None, None, None, 0)])
  }

  function WithJob(t: Tables, j: nat, row: Result<Job>): Tables {
    match row
    case Err(_) => t
    case Ok(job) => t.(jobs := t.jobs[j := job])
  }

  function Retried(t: Tables, j: nat, message: string, best: Option<nat>, now: int): Tables
    requires j in t.jobs
  {
    var job := t.jobs[j];
    if job.retryCount < MAX_RETRIES then WithJob(t, j, Requeued(job, message, best, now))
    else
      match Buried(job, message, now)
      case Err(_) => t
      case Ok(buried) =>
        var letter := DeadLetter(j, job.payload, ErrorHistory(job, message), now, buried.retryCount);
        t.(jobs := t.jobs[j := buried], deadLetters := t.deadLetters + [letter])
  }

  /** What an operation does to the tables. Errors leave them as they were. */
  function NextTables(s: System, e: Event): Tables {
    var t := s.tables;
    match e.op
    case Register(n, publicKey, capabilities) => Registered(t, n, publicKey, capabilities)
    case Beat(n, load) => if n in t.nodes then t.(nodes := t.nodes[n := Heartbeat(t.nodes[n], load, e.at)]) else t
    case Sweep => t.(nodes := MarkStale(t.nodes, e.at))
    case Dispatch(j, jobType, payload, best) => Dispatched(t, j, jobType, payload, best, e.at)
    case Update(j, to, resultRef, error) =>
      if j in t.jobs then WithJob(t, j, Updated(t.jobs[j], to, resultRef, error, e.at)) else t
    case Cancel(j) => if j in t.jobs then WithJob(t, j, Cancelled(t.jobs[j], e.at)) else t
    case Retry(j, message, best) => if j in t.jobs then Retried(t, j, message, best, e.at) else t
    case RecordFailure(n) => Trip(t, s.breaker, n)
    case RecordSuccess(n) => t.(nodes := SetStatus(t.nodes, n, HEALTHY))
    case CheckHealth(_) => t
    case Redistribute(n) => t.(jobs := RedistributeJobs(t.jobs, n))
    case ResetBreaker(_) => t
  }

  function NextBreaker(s: System, e: Event): Breaker {
    var b := s.breaker;
    match e.op
    case RecordFailure(n) => AfterFailure(b, n, e.at)
    case RecordSuccess(n) => Forget(b, n)
    case ResetBreaker(n) => Forget(b, n)
    case CheckHealth(n) => if MayProbe(s.tables, b, n, e.at) then b.(halfOpen := b.halfOpen + {n}) else b
    case _ => b
  }

  function Step(s: System, e: Event): System {
    System(NextTables(s, e), NextBreaker(s, e), e.at)
  }

  predicate HoldsJob(t: Tables, n: nat) {
    exists j <- t.jobs.Keys :: t.jobs[j].node == n
  }

  /**
   * The clock does not run backwards, new rows get new keys, the node chosen is one the search may return,
   * and a success is recorded only for a node that holds a job.
   */
  ghost predicate Admissible(s: System, e: Event) {
    && s.now <= e.at
    && match e.op
       case Register(n, _, _) => n !in s.tables.nodes
       case Dispatch(j, jobType, _, best) => j !in s.tables.jobs && BestNode(s.tables.nodes, jobType, best)
       case Retry(j, _, best) =>
         j in s.tables.jobs ==> BestNode(s.tables.nodes, s.tables.jobs[j].jobType, best)
       case RecordSuccess(n) => HoldsJob(s.tables, n)
       case _ => true
  }

  ghost predicate IsRun(s: System, es: seq<Event>) {
    es == [] || (IsRun(s, es[..|es| - 1]) && Admissible(After(s, es[..|es| - 1]), es[|es| - 1]))
  }

  function After(s: System, es: seq<Event>): System {
    if es == [] then s else Step(After(s, es[..|es| - 1]), es[|es| - 1])
  }

  function Empty(now: int): System {
    System(Tables(map[], map[], []), Breaker(map[], map[], {}), now)
  }
}

/** What every run of the scheduler keeps. */
module SchedulerRuns {
  import opened Foundations
  import opened SchedulerModel

  // ---------------------------------------------------------------------------------------------
  // Jobs
  // ---------------------------------------------------------------------------------------------

  ghost predicate NotAfter(t: Option<int>, now: int) {
    t.Some? ==> t.value <= now
  }

  /** A result only when completed; timestamps set and in order where the status promises them. */
  ghost predicate JobSound(job: Job, now: int) {
    && (job.resultRef.Some? ==> job.status == COMPLETED)
    && (job.status in {DISPATCHED, RUNNING, COMPLETED} ==> job.dispatchedAt.Some?)
    && (job.status in {COMPLETED, FAILED} ==> job.completedAt.Some?)
    && (job.status in {COMPLETED, FAILED} && job.dispatchedAt.Some? ==> job.dispatchedAt.value <= job.completedAt.value)
    && NotAfter(job.dispatchedAt, now) && NotAfter(job.completedAt, now)
  }

  /** What one operation may do to one job row. */
  ghost predicate Evolves(before: Job, after: Job, now: int) {
    || after == before
    || (exists to, resultRef, error :: Updated(before, to, resultRef, error, now) == Ok(after))
    || Cancelled(before, now) == Ok(after)
    || (exists n :: after == Redistributed(before, n))
    || (before.retryCount < MAX_RETRIES && exists message, best :: Requeued(before, message, best, now) == Ok(after))
    || (before.retryCount >= MAX_RETRIES && exists message :: Buried(before, message, now) == Ok(after))
  }

  /** Completed rows are frozen; the retry count never falls; what identifies the work never changes. */
  ghost predicate KeepsHistory(before: Job, after: Job) {
    && (before.status == COMPLETED ==> after == before)
    && before.retryCount <= after.retryCount
    && after.payload == before.payload && after.jobType == before.jobType && after.queuedAt == before.queuedAt
  }

  lemma EvolutionKeepsSound(before: Job, after: Job, was: int, now: int)
    requires JobSound(before, was) && was <= now && Evolves(before, after, now)
    ensures JobSound(after, now) && KeepsHistory(before, after)
  {
  }

  /** Every operation either leaves a job row alone or evolves it; rows are never deleted. */
  lemma JobsEvolve(s: System, e: Event, j: nat)
    requires Admissible(s, e) && j in s.tables.jobs
    ensures j in NextTables(s, e).jobs && Evolves(s.tables.jobs[j], NextTables(s, e).jobs[j], e.at)
  {
  }

  ghost predicate JobsSound(s: System) {
    forall j :: j in s.tables.jobs ==> JobSound(s.tables.jobs[j], s.now)
  }

  lemma StepKeepsJobsSound(s: System, e: Event)
    requires JobsSound(s) && Admissible(s, e)
    ensures JobsSound(Step(s, e))
  {
    var s' := Step(s, e);
    forall j | j in s'.tables.jobs ensures JobSound(s'.tables.jobs[j], s'.now) {
      if j in s.tables.jobs {
        JobsEvolve(s, e, j);
        EvolutionKeepsSound(s.tables.jobs[j], s'.tables.jobs[j], s.now, e.at);
      }
    }
  }

  lemma {:induction false} RunsKeepJobsSound(s: System, es: seq<Event>)
    requires JobsSound(s) && IsRun(s, es)
    ensures JobsSound(After(s, es)) && s.now <= After(s, es).now
    decreases |es|
  {
    if es != [] {
      RunsKeepJobsSound(s, es[..|es| - 1]);
      StepKeepsJobsSound(After(s, es[..|es| - 1]), es[|es| - 1]);
    }
  }

  /** COMPLETED is absorbing over every run, and no run lowers a retry count or changes a payload. */
  lemma {:induction false} RunsKeepHistory(s: System, es: seq<Event>, j: nat)
    requires JobsSound(s) && IsRun(s, es) && j in s.tables.jobs
    ensures j in After(s, es).tables.jobs && KeepsHistory(s.tables.jobs[j], After(s, es).tables.jobs[j])
    decreases |es|
  {
    if es != [] {
      var init, last := es[..|es| - 1], es[|es| - 1];
      var t := After(s, init);
      RunsKeepHistory(s, init, j);
      RunsKeepJobsSound(s, init);
      JobsEvolve(t, last, j);
      EvolutionKeepsSound(t.tables.jobs[j], After(s, es).tables.jobs[j], t.now, last.at);
    }
  }

  // ---------------------------------------------------------------------------------------------
  // Retries and dead letters
  // ---------------------------------------------------------------------------------------------

  /** A schedule_retry call that finds its job and a status it can act on. */
  predicate Acts(s: System, e: Event, j: nat) {
    e.op.Retry? && e.op.job == j && j in s.tables.jobs && s.tables.jobs[j].status != COMPLETED
  }

  function RetryCalls(s: System, es: seq<Event>, j: nat): nat {
    if es == [] then 0
    else RetryCalls(s, es[..|es| - 1], j) + if Acts(After(s, es[..|es| - 1]), es[|es| - 1], j) then 1 else 0
  }

  /** The calls among them that put the job back into the queue. */
  function Requeues(s: System, es: seq<Event>, j: nat): nat {
    if es == [] then 0
    else
      var t := After(s, es[..|es| - 1]);
      Requeues(s, es[..|es| - 1], j) +
        if Acts(t, es[|es| - 1], j) && t.tables.jobs[j].retryCount < MAX_RETRIES then 1 else 0
  }

  function LettersOf(letters: seq<DeadLetter>, j: nat): nat {
    if letters == [] then 0
    else LettersOf(letters[..|letters| - 1], j) + if letters[|letters| - 1].job == j then 1 else 0
  }

  /** A dead letter has used up the retries and carries the payload of its job. */
  ghost predicate LetterSound(t: Tables, d: DeadLetter) {
    && d.job in t.jobs && d.payload == t.jobs[d.job].payload
    && MAX_RETRIES <= d.retryCount <= t.jobs[d.job].retryCount
    && |d.errors| >= 1
  }

  /** One call: the job goes back to the queue with one more retry, or ends FAILED with a dead letter. */
  lemma RetryEffect(s: System, e: Event, j: nat)
    requires Acts(s, e, j)
    ensures var job, t := s.tables.jobs[j], NextTables(s, e);
      && j in t.jobs
      && (job.retryCount < MAX_RETRIES ==>
          && t.jobs[j].status == QUEUED && t.jobs[j].retryCount == job.retryCount + 1
          && t.deadLetters == s.tables.deadLetters
          && t.jobs[j].node == (if e.op.best.Some? then e.op.best.value else job.node))
      && (job.retryCount >= MAX_RETRIES ==>
          && t.jobs[j].status == FAILED && t.jobs[j].error == Some(e.op.message)
          && t.jobs[j].retryCount == job.retryCount
          && |t.deadLetters| == |s.tables.deadLetters| + 1
          && t.deadLetters[..|s.tables.deadLetters|] == s.tables.deadLetters
          && var d := t.deadLetters[|s.tables.deadLetters|];
             d.job == j && d.payload == job.payload && d.retryCount == job.retryCount
             && d.errors[|d.errors| - 1] == e.op.message)
  {
  }

  lemma OthersKeepLetters(s: System, e: Event, j: nat)
    requires Admissible(s, e) && !Acts(s, e, j)
    ensures LettersOf(NextTables(s, e).deadLetters, j) == LettersOf(s.tables.deadLetters, j)
  {
  }

  /** At most MAX_RETRIES calls ever re-queue a job, and every other call leaves a dead letter. */
  lemma {:induction false} RetriesAreBounded(now: int, es: seq<Event>, j: nat)
    requires IsRun(Empty(now), es)
    ensures var s := After(Empty(now), es);
      && Requeues(Empty(now), es, j) <= MAX_RETRIES
      && (j in s.tables.jobs ==> Requeues(Empty(now), es, j) <= s.tables.jobs[j].retryCount)
      && (j !in s.tables.jobs ==> Requeues(Empty(now), es, j) == 0)
      && RetryCalls(Empty(now), es, j) == Requeues(Empty(now), es, j) + LettersOf(s.tables.deadLetters, j)
    decreases |es|
  {
    if es != [] {
      var init, last := es[..|es| - 1], es[|es| - 1];
      var t := After(Empty(now), init);
      RetriesAreBounded(now, init, j);
      RunsKeepJobsSound(Empty(now), init);
      if j in t.tables.jobs {
        JobsEvolve(t, last, j);
        EvolutionKeepsSound(t.tables.jobs[j], NextTables(t, last).jobs[j], t.now, last.at);
      }
      if Acts(t, last, j) {
        RetryEffect(t, last, j);
      } else {
        OthersKeepLetters(t, last, j);
      }
    }
  }

  /** Event k buries job j: the job ends FAILED, and a letter with its payload stays for good. */
  ghost predicate Buries(now: int, es: seq<Event>, k: nat, j: nat)
    requires k < |es|
  {
    var before, after := After(Empty(now), es[..k]), After(Empty(now), es[..k + 1]).tables;
    && Acts(before, es[k], j) && before.tables.jobs[j].retryCount >= MAX_RETRIES
    && j in after.jobs && after.jobs[j].status == FAILED && after.jobs[j].error == Some(es[k].op.message)
    && |after.deadLetters| > 0
    && var d := after.deadLetters[|after.deadLetters| - 1];
       d.job == j && d.payload == before.tables.jobs[j].payload && d in After(Empty(now), es).tables.deadLetters
  }

  lemma BuriesStays(now: int, es: seq<Event>, k: nat, j: nat)
    requires k + 1 < |es| && Buries(now, es[..|es| - 1], k, j)
    ensures Buries(now, es, k, j)
  {
    assert es[..|es| - 1][..k] == es[..k] && es[..|es| - 1][..k + 1] == es[..k + 1];
    LettersStay(After(Empty(now), es[..|es| - 1]), es[|es| - 1]);
  }

  lemma LettersStay(s: System, e: Event)
    ensures forall d :: d in s.tables.deadLetters ==> d in NextTables(s, e).deadLetters
  {
  }

  /** A job has a dead letter only because some call has buried it. */
  lemma {:induction false} LettersComeFromBurials(now: int, es: seq<Event>, j: nat)
    requires IsRun(Empty(now), es) && LettersOf(After(Empty(now), es).tables.deadLetters, j) > 0
    ensures exists k :: 0 <= k < |es| && Buries(now, es, k, j)
    decreases |es|
  {
    var init, last := es[..|es| - 1], es[|es| - 1];
    var s := After(Empty(now), init);
    if LettersOf(s.tables.deadLetters, j) > 0 {
      LettersComeFromBurials(now, init, j);
      var k :| 0 <= k < |init| && Buries(now, init, k, j);
      BuriesStays(now, es, k, j);
    } else {
      if !Acts(s, last, j) {
        OthersKeepLetters(s, last, j);
      }
      RetryEffect(s, last, j);
      assert es[..|es|] == es;
      assert Buries(now, es, |es| - 1, j);
    }
  }

  /**
   * The fail-and-retry loop ends: of more than MAX_RETRIES calls on a job that never completes, all but
   * MAX_RETRIES leave a letter, and one of them fails the job and keeps its payload.
   */
  lemma RetryLoopEndsInDeadLetter(now: int, es: seq<Event>, j: nat)
    requires IsRun(Empty(now), es) && RetryCalls(Empty(now), es, j) > MAX_RETRIES
    ensures LettersOf(After(Empty(now), es).tables.deadLetters, j) >= RetryCalls(Empty(now), es, j) - MAX_RETRIES
    ensures exists k :: 0 <= k < |es| && Buries(now, es, k, j)
  {
    RetriesAreBounded(now, es, j);
    LettersComeFromBurials(now, es, j);
  }

  lemma StepKeepsLetters(s: System, e: Event)
    requires Admissible(s, e) && JobsSound(s)
    requires forall d :: d in s.tables.deadLetters ==> LetterSound(s.tables, d)
    ensures forall d :: d in NextTables(s, e).deadLetters ==> LetterSound(NextTables(s, e), d)
  {
  }

  /** Over every run every dead letter is exhausted and keeps the original payload. */
  lemma {:induction false} RunsKeepLetters(now: int, es: seq<Event>)
    requires IsRun(Empty(now), es)
    ensures forall d :: d in After(Empty(now), es).tables.deadLetters ==> LetterSound(After(Empty(now), es).tables, d)
    decreases |es|
  {
    if es != [] {
      RunsKeepLetters(now, es[..|es| - 1]);
      RunsKeepJobsSound(Empty(now), es[..|es| - 1]);
      StepKeepsLetters(After(Empty(now), es[..|es| - 1]), es[|es| - 1]);
    }
  }

  // ---------------------------------------------------------------------------------------------
  // Nodes
  // ---------------------------------------------------------------------------------------------

  /** Healthy nodes and nodes with jobs have been heard; jobs point to known nodes; loads are fractions. */
  ghost predicate NodeSound(t: Tables, n: nat, now: int)
    requires n in t.nodes
  {
    && (t.nodes[n].status == HEALTHY || HoldsJob(t, n) ==> t.nodes[n].lastHeartbeat.Some?)
    && NotAfter(t.nodes[n].lastHeartbeat, now)
    && 0.0 <= t.nodes[n].load <= 1.0
  }

  ghost predicate NodesSound(s: System) {
    && (forall n :: n in s.tables.nodes ==> NodeSound(s.tables, n, s.now))
    && (forall j :: j in s.tables.jobs ==> s.tables.jobs[j].node in s.tables.nodes)
  }

  /** Where a job sits after an operation: where it sat before, or on a healthy node. */
  lemma JobsSitOnHeardNodes(s: System, e: Event, j: nat)
    requires NodesSound(s) && Admissible(s, e) && j in NextTables(s, e).jobs
    ensures var n := NextTables(s, e).jobs[j].node;
      n in s.tables.nodes && s.tables.nodes[n].lastHeartbeat.Some?
  {
  }

  lemma NodesKept(s: System, e: Event, n: nat)
    requires Admissible(s, e) && n in s.tables.nodes
    ensures n in NextTables(s, e).nodes
    ensures s.tables.nodes[n].lastHeartbeat.Some? ==> NextTables(s, e).nodes[n].lastHeartbeat.Some?
  {
  }

  lemma StepKeepsNodesSound(s: System, e: Event)
    requires NodesSound(s) && Admissible(s, e)
    ensures NodesSound(Step(s, e))
  {
    var t := NextTables(s, e);
    forall j | j in t.jobs ensures t.jobs[j].node in t.nodes {
      JobsSitOnHeardNodes(s, e, j);
      NodesKept(s, e, t.jobs[j].node);
    }
    forall n | n in t.nodes ensures NodeSound(t, n, e.at) {
      if HoldsJob(t, n) {
        var j :| j in t.jobs.Keys && t.jobs[j].node == n;
        JobsSitOnHeardNodes(s, e, j);
        NodesKept(s, e, n);
      }
      if n in s.tables.nodes {
        assert NodeSound(s.tables, n, s.now);
      }
    }
  }

  lemma {:induction false} RunsKeepNodesSound(now: int, es: seq<Event>)
    requires IsRun(Empty(now), es)
    ensures NodesSound(After(Empty(now), es))
    decreases |es|
  {
    if es != [] {
      RunsKeepNodesSound(now, es[..|es| - 1]);
      StepKeepsNodesSound(After(Empty(now), es[..|es| - 1]), es[|es| - 1]);
    }
  }

  ghost predicate HeardSince(node: Node, t: int) {
    node.lastHeartbeat.Some? && node.lastHeartbeat.value >= t
  }

  /**
   * After any run, a sweep at time t leaves as HEALTHY only nodes heard at or after t - 90 seconds, changes
   * no other node, and a search after it returns one of them.
   */
  lemma SweepLeavesFreshNodes(now: int, es: seq<Event>, t: int, jobType: string, best: Option<nat>)
    requires IsRun(Empty(now), es) && After(Empty(now), es).now <= t
    requires BestNode(Step(After(Empty(now), es), Event(Sweep, t)).tables.nodes, jobType, best)
    ensures var before, after := After(Empty(now), es).tables.nodes, Step(After(Empty(now), es), Event(Sweep, t)).tables.nodes;
      && after.Keys == before.Keys
      && (forall n :: n in after && after[n].status == HEALTHY ==>
          HeardSince(after[n], t - UNHEALTHY_THRESHOLD_SECONDS))
      && (forall n :: n in before && HeardSince(before[n], t - UNHEALTHY_THRESHOLD_SECONDS) ==> after[n] == before[n])
      && (best.Some? ==> HeardSince(after[best.value], t - UNHEALTHY_THRESHOLD_SECONDS))
  {
    RunsKeepNodesSound(now, es);
    var s := After(Empty(now), es);
    StepKeepsNodesSound(s, Event(Sweep, t));
    var after := Step(s, Event(Sweep, t)).tables;
    forall n | n in after.nodes && after.nodes[n].status == HEALTHY
      ensures after.nodes[n].lastHeartbeat.Some?
    {
      assert NodeSound(after, n, t);
    }
  }

  /**
   * The guard on record_success is needed, and exactly it: recorded for a node that was never heard, a
   * success makes the node HEALTHY without a heartbeat that a sweep could compare.
   */
  lemma SuccessNeedsAHeardNode(s: System, n: nat, at: int)
    requires NodesSound(s) && s.now <= at
    ensures NodesSound(Step(s, Event(RecordSuccess(n), at))) <==>
      n !in s.tables.nodes || s.tables.nodes[n].lastHeartbeat.Some?
  {
    var s' := Step(s, Event(RecordSuccess(n), at));
    forall m | m in s'.tables.nodes
      ensures HoldsJob(s'.tables, m) <==> HoldsJob(s.tables, m)
      ensures m in s.tables.nodes && NodeSound(s.tables, m, s.now)
    {
    }
    if n in s.tables.nodes && s.tables.nodes[n].lastHeartbeat == None {
      assert !NodeSound(s'.tables, n, at);
    } else {
      assert forall m :: m in s'.tables.nodes ==> NodeSound(s'.tables, m, at);
    }
  }

  /** No sweep finds such a node stale: it stays HEALTHY, unheard, until it reports or fails. */
  lemma {:induction false} UnheardIsNeverStale(s: System, es: seq<Event>, n: nat)
    requires IsRun(s, es) && n in s.tables.nodes
    requires s.tables.nodes[n].status == HEALTHY && s.tables.nodes[n].lastHeartbeat == None
    requires forall e :: e in es ==> e.op != RecordFailure(n) && !(e.op.Beat? && e.op.node == n)
    ensures n in After(s, es).tables.nodes && After(s, es).tables.nodes[n] == s.tables.nodes[n]
    decreases |es|
  {
    if es != [] {
      var init, last := es[..|es| - 1], es[|es| - 1];
      assert last in es && forall e :: e in init ==> e in es;
      UnheardIsNeverStale(s, init, n);
      var nodes := After(s, init).tables.nodes;
      assert Admissible(After(s, init), last);
    }
  }

  /** One row per public key, so that looking a node up by its key is never ambiguous. */
  ghost predicate KeysUnique(nodes: map<nat, Node>) {
    forall n, m :: n in nodes && m in nodes && nodes[n].publicKey == nodes[m].publicKey ==> n == m
  }

  lemma StepKeepsKeysUnique(s: System, e: Event)
    requires KeysUnique(s.tables.nodes)
    ensures KeysUnique(NextTables(s, e).nodes)
  {
  }

  lemma {:induction false} RunsKeepKeysUnique(now: int, es: seq<Event>)
    ensures KeysUnique(After(Empty(now), es).tables.nodes)
    decreases |es|
  {
    if es != [] {
      RunsKeepKeysUnique(now, es[..|es| - 1]);
      StepKeepsKeysUnique(After(Empty(now), es[..|es| - 1]), es[|es| - 1]);
    }
  }

  // ---------------------------------------------------------------------------------------------
  // The breaker against its history
  // ---------------------------------------------------------------------------------------------

  /** The failures recorded for a node since its last success or reset. */
  function FailureRun(es: seq<Event>, n: nat): nat {
    if es == [] then 0
    else
      match es[|es| - 1].op
      case RecordFailure(m) => if m == n then FailureRun(es[..|es| - 1], n) + 1 else FailureRun(es[..|es| - 1], n)
      case RecordSuccess(m) => if m == n then 0 else FailureRun(es[..|es| - 1], n)
      case ResetBreaker(m) => if m == n then 0 else FailureRun(es[..|es| - 1], n)
      case _ => FailureRun(es[..|es| - 1], n)
  }

  /** When the latest failure of a node was recorded. */
  function LastFailureAt(es: seq<Event>, n: nat): Option<int> {
    if es == [] then None
    else if es[|es| - 1].op == RecordFailure(n) then Some(es[|es| - 1].at)
    else LastFailureAt(es[..|es| - 1], n)
  }

  /** What is stored about a node agrees with a failure run and the time of its latest failure. */
  ghost predicate Tracks(b: Breaker, n: nat, run: nat, last: Option<int>) {
    && FailureCount(b, n) == run
    && (n in b.counts <==> run > 0)
    && (n in b.lastFailure <==> run > 0)
    && (run > 0 ==> last == Some(b.lastFailure[n]))
    && (n in b.halfOpen ==> run > 0)
  }

  lemma BreakerStep(s: System, e: Event, n: nat, run: nat, last: Option<int>)
    requires Tracks(s.breaker, n, run, last)
    ensures Tracks(NextBreaker(s, e), n,
                   if e.op == RecordFailure(n) then run + 1
                   else if e.op == RecordSuccess(n) || e.op == ResetBreaker(n) then 0 else run,
                   if e.op == RecordFailure(n) then Some(e.at) else last)
  {
  }

  /**
   * The stored state of the breaker is a function of the history of calls: counts and failure times have
   * the same keys, the count is the length of the failure run, and only failing nodes are half open.
   */
  lemma {:induction false} BreakerRefinesHistory(now: int, es: seq<Event>, n: nat)
    ensures Tracks(After(Empty(now), es).breaker, n, FailureRun(es, n), LastFailureAt(es, n))
    decreases |es|
  {
    if es != [] {
      var init := es[..|es| - 1];
      BreakerRefinesHistory(now, init, n);
      BreakerStep(After(Empty(now), init), es[|es| - 1], n, FailureRun(init, n), LastFailureAt(init, n));
    }
  }

  /** A failure is answered with UNHEALTHY exactly when it is at least the third of its run. */
  lemma TripsAtTheThird(now: int, es: seq<Event>, n: nat, at: int)
    ensures FailureVerdict(After(Empty(now), es).breaker, n) == UNHEALTHY <==>
      FailureRun(es + [Event(RecordFailure(n), at)], n) >= FAILURE_THRESHOLD
  {
    BreakerRefinesHistory(now, es, n);
    assert (es + [Event(RecordFailure(n), at)])[..|es|] == es;
  }

  lemma TripEffect(s: System, n: nat, at: int)
    requires FailureVerdict(s.breaker, n) == UNHEALTHY
    ensures Released(s.tables, NextTables(s, Event(RecordFailure(n), at)), n)
    ensures n !in NextBreaker(s, Event(RecordFailure(n), at)).halfOpen
  {
  }

  /**
   * Every queued or dispatched job of the node is queued; no job is lost, and neither running, completed or
   * failed jobs nor the jobs of other nodes are touched.
   */
  ghost predicate Released(before: Tables, t: Tables, n: nat) {
    && t.deadLetters == before.deadLetters && t.nodes == SetStatus(before.nodes, n, UNHEALTHY)
    && t.jobs.Keys == before.jobs.Keys
    && (forall j :: j in t.jobs && t.jobs[j].node == n ==> t.jobs[j].status != DISPATCHED)
    && (forall j :: j in t.jobs ==>
        t.jobs[j] == if before.jobs[j].node == n && before.jobs[j].status in {QUEUED, DISPATCHED}
                     then before.jobs[j].(status := QUEUED, dispatchedAt := None) else before.jobs[j])
  }

  /**
   * After any run, a failure that is at least the third of its run takes every waiting job off the node's
   * hands and closes a half-open breaker; an earlier one changes no row.
   */
  lemma TripReleasesJobs(now: int, es: seq<Event>, n: nat, at: int)
    ensures var s, e := After(Empty(now), es), Event(RecordFailure(n), at);
      if FailureRun(es + [e], n) >= FAILURE_THRESHOLD
      then Released(s.tables, Step(s, e).tables, n) && n !in Step(s, e).breaker.halfOpen
      else Step(s, e).tables == s.tables
  {
    TripsAtTheThird(now, es, n, at);
    if FailureVerdict(After(Empty(now), es).breaker, n) == UNHEALTHY {
      TripEffect(After(Empty(now), es), n, at);
    }
  }

  /** An unhealthy node may be probed exactly from 300 seconds after the latest failure of its current run. */
  lemma ProbeTiming(now: int, es: seq<Event>, n: nat, at: int)
    requires n in After(Empty(now), es).tables.nodes
    requires After(Empty(now), es).tables.nodes[n].status == UNHEALTHY
    ensures EffectiveHealth(After(Empty(now), es).tables, After(Empty(now), es).breaker, n, at) == HEALTHY <==>
      FailureRun(es, n) > 0 && LastFailureAt(es, n).Some? && at - LastFailureAt(es, n).value >= RECOVERY_TIMEOUT
    ensures FailureRun(es, n) > 0 ==> LastFailureAt(es, n).Some?
  {
    BreakerRefinesHistory(now, es, n);
  }

  /** The calls that can end an outage of a node: recorded outcomes, a reset, its own heartbeat. */
  predicate EndsOutage(op: Op, n: nat) {
    op == RecordFailure(n) || op == RecordSuccess(n) || op == ResetBreaker(n) || (op.Beat? && op.node == n)
  }

  /** Probes are not limited: once one is allowed, every later check allows another, until the outage ends. */
  lemma {:induction false} ProbesAreNotLimited(s: System, es: seq<Event>, n: nat, at: int)
    requires IsRun(s, es) && MayProbe(s.tables, s.breaker, n, s.now)
    requires forall e :: e in es ==> !EndsOutage(e.op, n)
    requires After(s, es).now <= at
    ensures EffectiveHealth(After(s, es).tables, After(s, es).breaker, n, at) == HEALTHY
    ensures MayProbe(After(s, es).tables, After(s, es).breaker, n, at) && s.now <= After(s, es).now
    decreases |es|
  {
    if es != [] {
      var init, last := es[..|es| - 1], es[|es| - 1];
      assert last in es && forall e :: e in init ==> e in es;
      ProbesAreNotLimited(s, init, n, After(s, init).now);
      assert Admissible(After(s, init), last);
    }
  }

  /** What record_failure returns is the status of the row exactly if it trips or the row is HEALTHY. */
  lemma VerdictIsTheStatus(now: int, es: seq<Event>, n: nat, at: int)
    requires n in After(Empty(now), es).tables.nodes
    ensures var s, e := After(Empty(now), es), Event(RecordFailure(n), at);
      n in Step(s, e).tables.nodes &&
      (FailureVerdict(s.breaker, n) == Step(s, e).tables.nodes[n].status <==>
       FailureRun(es + [e], n) >= FAILURE_THRESHOLD || s.tables.nodes[n].status == HEALTHY)
  {
    TripsAtTheThird(now, es, n, at);
  }

  // ---------------------------------------------------------------------------------------------
  // Runs that show what the documentation overlooks
  // ---------------------------------------------------------------------------------------------

  lemma OneMoreEvent(s: System, es: seq<Event>, e: Event)
    requires IsRun(s, es) && Admissible(After(s, es), e)
    ensures IsRun(s, es + [e]) && After(s, es + [e]) == Step(After(s, es), e)
  {
    assert (es + [e])[..|es|] == es;
  }

  /** One node registers, reports and gets a job. */
  lemma OneJob(now: int, n: nat, j: nat) returns (es: seq<Event>)
    ensures IsRun(Empty(now), es) && After(Empty(now), es).now == now
    ensures After(Empty(now), es).tables ==
      Tables(map[n := Node("key", ["echo"], HEALTHY, Some(now), 0.0)],
             map[j := Job(n, "echo", "", DISPATCHED, now, Some(now), None, None, None, 0)], [])
    ensures After(Empty(now), es).breaker == Empty(now).breaker
  {
    var e1, e2, e3 := Event(Register(n, "key", ["echo"]), now), Event(Beat(n, 0.0), now),
                      Event(Dispatch(j, "echo", "", Some(n)), now);
    OneMoreEvent(Empty(now), [], e1);
    assert [] + [e1] == [e1];
    OneMoreEvent(Empty(now), [e1], e2);
    assert Eligible(After(Empty(now), [e1] + [e2]).tables.nodes, "echo", n);
    OneMoreEvent(Empty(now), [e1] + [e2], e3);
    es := [e1] + [e2] + [e3];
  }

  lemma SweepAlone(n: nat, node: Node, at: int)
    requires Stale(node, at)
    ensures MarkStale(map[n := node], at) == map[n := node.(status := UNHEALTHY)]
  {
  }

  /** The first failure of an UNHEALTHY node that holds a job moves no row and is answered with HEALTHY. */
  lemma FirstFailureIsQuiet(s: System, n: nat, j: nat)
    requires FailureCount(s.breaker, n) == 0 && j in s.tables.jobs && s.tables.jobs[j].node == n
    ensures HoldsJob(s.tables, n) && FailureVerdict(s.breaker, n) == HEALTHY
    ensures Step(s, Event(RecordFailure(n), s.now)).tables == s.tables
  {
    assert j in s.tables.jobs.Keys;
  }

  /** The first failure of a job on a stale node is answered with HEALTHY, while the node is UNHEALTHY. */
  lemma FailureOfStaleNodeReportsHealthy(now: int, n: nat, j: nat) returns (es: seq<Event>)
    ensures IsRun(Empty(now), es)
    ensures var s := After(Empty(now), es);
      && HoldsJob(s.tables, n) && n in s.tables.nodes && s.tables.nodes[n].status == UNHEALTHY
      && Step(s, Event(RecordFailure(n), s.now)).tables == s.tables
      && FailureVerdict(s.breaker, n) == HEALTHY
  {
    var jobs := OneJob(now, n, j);
    es := SweepOneJob(now, n, j, jobs);
    FirstFailureIsQuiet(After(Empty(now), es), n, j);
  }

  lemma SweepOneJob(now: int, n: nat, j: nat, jobs: seq<Event>) returns (es: seq<Event>)
    requires IsRun(Empty(now), jobs) && After(Empty(now), jobs).now == now
    requires var s := After(Empty(now), jobs);
      && s.tables.nodes == map[n := Node("key", ["echo"], HEALTHY, Some(now), 0.0)]
      && j in s.tables.jobs && s.tables.jobs[j].node == n && s.breaker == Empty(now).breaker
    ensures IsRun(Empty(now), es)
    ensures var s := After(Empty(now), es);
      && n in s.tables.nodes && s.tables.nodes[n].status == UNHEALTHY
      && j in s.tables.jobs && s.tables.jobs[j].node == n && FailureCount(s.breaker, n) == 0
  {
    var sweep := Event(Sweep, now + UNHEALTHY_THRESHOLD_SECONDS + 1);
    var before := After(Empty(now), jobs);
    OneMoreEvent(Empty(now), jobs, sweep);
    es := jobs + [sweep];
    SweepAlone(n, before.tables.nodes[n], sweep.at);
  }

  /**
   * Where another node could take a re-queued job, the search can still return its own exactly if that is
   * eligible and no eligible node is less loaded.
   */
  lemma RetryStaysExactly(s: System, j: nat, message: string, at: int, other: nat)
    requires j in s.tables.jobs && s.tables.jobs[j].status != COMPLETED && s.tables.jobs[j].retryCount < MAX_RETRIES
    requires other != s.tables.jobs[j].node && Eligible(s.tables.nodes, s.tables.jobs[j].jobType, other)
    ensures var job, nodes := s.tables.jobs[j], s.tables.nodes;
      (exists best :: BestNode(nodes, job.jobType, best) &&
          NextTables(s, Event(Retry(j, message, best), at)).jobs[j].node == job.node) <==>
      BestNode(nodes, job.jobType, Some(job.node))
  {
    var job, nodes := s.tables.jobs[j], s.tables.nodes;
    forall best {
      RetryEffect(s, Event(Retry(j, message, best), at), j);
    }
    if BestNode(nodes, job.jobType, Some(job.node)) {
      assert NextTables(s, Event(Retry(j, message, Some(job.node)), at)).jobs[j].node == job.node;
    }
  }

  /** A second node registers and reports a higher load. */
  lemma SecondNode(now: int, n: nat, j: nat, m: nat) returns (es: seq<Event>)
    requires n != m
    ensures IsRun(Empty(now), es) && After(Empty(now), es).now == now
    ensures var t := After(Empty(now), es).tables;
      && t.nodes == map[n := Node("key", ["echo"], HEALTHY, Some(now), 0.0),
                        m := Node("other", ["echo"], HEALTHY, Some(now), 0.5)]
      && t.jobs == map[j := Job(n, "echo", "", DISPATCHED, now, Some(now), None, None, None, 0)]
  {
    var e1, e2 := Event(Register(m, "other", ["echo"]), now), Event(Beat(m, 0.5), now);
    es := OneJob(now, n, j);
    OneMoreEvent(Empty(now), es, e1);
    es := es + [e1];
    OneMoreEvent(Empty(now), es, e2);
    es := es + [e2];
  }

  /** Of two eligible nodes the one that failed the job is less loaded: the job is retried there. */
  lemma FailedNodeIsRetried(now: int, n: nat, j: nat, m: nat, message: string) returns (es: seq<Event>)
    requires n != m
    ensures IsRun(Empty(now), es) && es != []
    ensures var before, after := After(Empty(now), es[..|es| - 1]), After(Empty(now), es);
      && Acts(before, es[|es| - 1], j) && before.tables.jobs[j].node == n
      && Eligible(before.tables.nodes, before.tables.jobs[j].jobType, m)
      && j in after.tables.jobs && after.tables.jobs[j].status == QUEUED && after.tables.jobs[j].node == n
  {
    var dispatched := SecondNode(now, n, j, m);
    var s, retry := After(Empty(now), dispatched), Event(Retry(j, message, Some(n)), now);
    assert BestNode(s.tables.nodes, "echo", Some(n));
    OneMoreEvent(Empty(now), dispatched, retry);
    es := dispatched + [retry];
    assert es[..|dispatched|] == dispatched;
    RetryEffect(s, retry, j);
  }

  /** Checks that were answered with leave to probe since the node's outage was last touched. */
  function Probes(now: int, es: seq<Event>, n: nat): nat {
    if es == [] then 0
    else
      var init, last := es[..|es| - 1], es[|es| - 1];
      var s := After(Empty(now), init);
      var allowed := last.op == CheckHealth(n) && EffectiveHealth(s.tables, s.breaker, n, last.at) == HEALTHY;
      if EndsOutage(last.op, n) then 0 else Probes(now, init, n) + (if allowed then 1 else 0)
  }

  /** A stale node fails a job; once the timeout is over, it may be probed. */
  lemma OutageBegins(now: int, n: nat, j: nat) returns (es: seq<Event>)
    ensures IsRun(Empty(now), es)
    ensures var s := After(Empty(now), es); MayProbe(s.tables, s.breaker, n, s.now)
  {
    var jobs := OneJob(now, n, j);
    es := SweepOneJob(now, n, j, jobs);
    var s := After(Empty(now), es);
    var failure, sweep := Event(RecordFailure(n), s.now), Event(Sweep, s.now + RECOVERY_TIMEOUT);
    FirstFailureIsQuiet(s, n, j);
    OneMoreEvent(Empty(now), es, failure);
    es := es + [failure];
    OneMoreEvent(Empty(now), es, sweep);
    es := es + [sweep];
  }

  /** For every number there is a run with that many probes of one node allowed in one outage. */
  lemma {:induction false} AnyNumberOfProbes(now: int, n: nat, j: nat, count: nat) returns (es: seq<Event>)
    ensures IsRun(Empty(now), es) && Probes(now, es, n) >= count
    ensures var s := After(Empty(now), es); MayProbe(s.tables, s.breaker, n, s.now)
  {
    if count == 0 {
      es := OutageBegins(now, n, j);
    } else {
      es := AnyNumberOfProbes(now, n, j, count - 1);
      var s := After(Empty(now), es);
      var check := Event(CheckHealth(n), s.now);
      OneMoreEvent(s, [], check);
      assert [] + [check] == [check];
      ProbesAreNotLimited(s, [check], n, s.now);
      OneMoreEvent(Empty(now), es, check);
      assert (es + [check])[..|es|] == es;
      es := es + [check];
    }
  }
}
