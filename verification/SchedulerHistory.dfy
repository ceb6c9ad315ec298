/** The scheduler's rows as functions of what happened: every field that a run leaves, told from its events. */
module SchedulerHistory {
  import opened Foundations
  import opened SchedulerModel
  import opened SchedulerRuns

  // ---------------------------------------------------------------------------------------------
  // Job transitions
  // ---------------------------------------------------------------------------------------------

  /** The eight moves of a job, as the documentation of the transition table lists them. */
  ghost const MOVES: set<(JobStatus, JobStatus)> :=
    {(QUEUED, DISPATCHED), (QUEUED, FAILED), (DISPATCHED, RUNNING), (DISPATCHED, FAILED), (DISPATCHED, QUEUED),
     (RUNNING, COMPLETED), (RUNNING, FAILED), (FAILED, QUEUED)}

  /** A row is as before but for the status, times, result, error and retry count that come with a new status. */
  ghost predicate Moved(before: Job, after: Job, to: JobStatus, resultRef: Option<string>, error: Option<string>, at: int) {
    && after.status == to
    && after.dispatchedAt == (if to == DISPATCHED then Some(at) else before.dispatchedAt)
    && after.completedAt == (if to in {COMPLETED, FAILED} then Some(at) else before.completedAt)
    && after.resultRef == (if to == COMPLETED && resultRef != None then resultRef else before.resultRef)
    && after.error == (if to == FAILED && error != None then error else before.error)
    && after.retryCount == before.retryCount + (if to == QUEUED then 1 else 0)
    && after.node == before.node && after.jobType == before.jobType && after.payload == before.payload
    && after.queuedAt == before.queuedAt
  }

  /** One update reaches its status exactly by one of the eight moves; any other call changes no row. */
  lemma UpdateMovesExactly(s: System, j: nat, to: JobStatus, resultRef: Option<string>, error: Option<string>, at: int)
    requires j in s.tables.jobs
    ensures var before, t := s.tables.jobs[j], Step(s, Event(Update(j, to, resultRef, error), at)).tables;
      && t.jobs.Keys == s.tables.jobs.Keys && t.nodes == s.tables.nodes && t.deadLetters == s.tables.deadLetters
      && (forall i :: i in t.jobs && i != j ==> t.jobs[i] == s.tables.jobs[i])
      && (t.jobs[j] != before <==> (before.status, to) in MOVES)
      && ((before.status, to) in MOVES ==> Moved(before, t.jobs[j], to, resultRef, error, at))
  {
  }

  /** Queued and dispatched jobs can be cancelled, and only they. */
  lemma CancelExactly(s: System, j: nat, at: int)
    requires j in s.tables.jobs
    ensures var before, after := s.tables.jobs[j], Step(s, Event(Cancel(j), at)).tables;
      && after.jobs.Keys == s.tables.jobs.Keys
      && if before.status in {QUEUED, DISPATCHED}
         then Moved(before, after.jobs[j], FAILED, None, Some("Cancelled by user"), at)
         else after == s.tables
  {
  }

  lemma {:induction false} LeastLoaded(nodes: map<nat, Node>, candidates: set<nat>) returns (b: nat)
    requires candidates != {} && candidates <= nodes.Keys
    ensures b in candidates && forall n :: n in candidates ==> nodes[b].load <= nodes[n].load
    decreases candidates
  {
    b :| b in candidates;
    if candidates != {b} {
      var rest := LeastLoaded(nodes, candidates - {b});
      if nodes[rest].load < nodes[b].load {
        b := rest;
      }
    }
  }

  /** Where some node is eligible, the search finds one. */
  lemma BestExists(nodes: map<nat, Node>, jobType: string, n: nat) returns (b: nat)
    requires Eligible(nodes, jobType, n)
    ensures BestNode(nodes, jobType, Some(b))
  {
    var eligible := set m | m in nodes && Eligible(nodes, jobType, m);
    assert n in eligible;
    b := LeastLoaded(nodes, eligible);
    forall m | Eligible(nodes, jobType, m) ensures m in eligible {
    }
  }

  /**
   * Jobs can complete: after any run that leaves a node eligible, a new job can be dispatched, started and
   * completed, and ends with what it was given and the times at which that happened.
   */
  lemma JobsCanComplete(
      now: int, es: seq<Event>, j: nat, jobType: string, payload: string, n: nat, resultRef: string,
      dispatched: int, started: int, completed: int)
    returns (b: nat, longer: seq<Event>)
    requires IsRun(Empty(now), es) && After(Empty(now), es).now <= dispatched <= started <= completed
    requires j !in After(Empty(now), es).tables.jobs && Eligible(After(Empty(now), es).tables.nodes, jobType, n)
    ensures IsRun(Empty(now), longer) && |longer| == |es| + 3 && longer[..|es|] == es
    ensures Eligible(After(Empty(now), es).tables.nodes, jobType, b)
    ensures var t := After(Empty(now), longer).tables;
      j in t.jobs && t.jobs[j] ==
        Job(b, jobType, payload, COMPLETED, dispatched, Some(dispatched), Some(completed), Some(resultRef), None, 0)
  {
    var s := After(Empty(now), es);
    b := BestExists(s.tables.nodes, jobType, n);
    var e1 := Event(Dispatch(j, jobType, payload, Some(b)), dispatched);
    var e2 := Event(Update(j, RUNNING, None, None), started);
    var e3 := Event(Update(j, COMPLETED, Some(resultRef), None), completed);
    OneMoreEvent(Empty(now), es, e1);
    OneMoreEvent(Empty(now), es + [e1], e2);
    OneMoreEvent(Empty(now), es + [e1] + [e2], e3);
    longer := es + [e1] + [e2] + [e3];
  }

  // ---------------------------------------------------------------------------------------------
  // Where jobs come from
  // ---------------------------------------------------------------------------------------------

  /** Event k dispatched job j with what its row says. */
  ghost predicate Dispatches(es: seq<Event>, k: nat, j: nat, jobType: string, payload: string, at: int)
    requires k < |es|
  {
    var e := es[k];
    e.op.Dispatch? && e.op.job == j && e.op.jobType == jobType && e.op.payload == payload && e.at == at
  }

  /** Over every run a row keeps the type, the payload and the time of the event that dispatched it. */
  lemma {:induction false} JobsComeFromDispatches(now: int, es: seq<Event>, j: nat) returns (k: nat)
    requires IsRun(Empty(now), es) && j in After(Empty(now), es).tables.jobs
    ensures var job := After(Empty(now), es).tables.jobs[j];
      k < |es| && Dispatches(es, k, j, job.jobType, job.payload, job.queuedAt)
    decreases |es|
  {
    var init, last := es[..|es| - 1], es[|es| - 1];
    var s := After(Empty(now), init);
    if j in s.tables.jobs {
      k := JobsComeFromDispatches(now, init, j);
      RunsKeepJobsSound(Empty(now), init);
      JobsEvolve(s, last, j);
      EvolutionKeepsSound(s.tables.jobs[j], After(Empty(now), es).tables.jobs[j], s.now, last.at);
    } else {
      k := |es| - 1;
    }
  }

  // ---------------------------------------------------------------------------------------------
  // Errors and dead letters
  // ---------------------------------------------------------------------------------------------

  /** The message that was stored last: with a failure reported, by a cancellation, or by a retry. */
  function LastError(now: int, es: seq<Event>, j: nat): Option<string> {
    if es == [] then None
    else
      var init, last := es[..|es| - 1], es[|es| - 1];
      var s, before := After(Empty(now), init), LastError(now, init, j);
      if j !in s.tables.jobs then None
      else
        var status := s.tables.jobs[j].status;
        match last.op
        case Update(i, to, _, error) =>
          if i == j && to == FAILED && status in {QUEUED, DISPATCHED, RUNNING} && error.Some? then error else before
        case Cancel(i) =>
          if i == j && status in {QUEUED, DISPATCHED} then Some("Cancelled by user") else before
        case Retry(i, message, _) =>
          if i == j && (status in {QUEUED, DISPATCHED, RUNNING} || (status == FAILED && s.tables.jobs[j].retryCount >= 3))
          then Some(message) else before
        case _ => before
  }

  lemma ErrorStep(s: System, e: Event, j: nat)
    requires Admissible(s, e) && j in s.tables.jobs
    ensures var job, t := s.tables.jobs[j], NextTables(s, e);
      j in t.jobs &&
      match e.op
      case Update(i, to, _, error) =>
        t.jobs[j].error ==
          if i == j && to == FAILED && job.status in {QUEUED, DISPATCHED, RUNNING} && error.Some? then error else job.error
      case Cancel(i) =>
        t.jobs[j].error ==
          if i == j && job.status in {QUEUED, DISPATCHED} then Some("Cancelled by user") else job.error
      case Retry(i, message, _) =>
        t.jobs[j].error ==
          if i == j && (job.status in {QUEUED, DISPATCHED, RUNNING} || (job.status == FAILED && job.retryCount >= 3))
          then Some(message) else job.error
      case _ => t.jobs[j].error == job.error
  {
  }

  lemma {:induction false} ErrorRefinesHistory(now: int, es: seq<Event>, j: nat)
    requires IsRun(Empty(now), es)
    ensures LastError(now, es, j) ==
      if j in After(Empty(now), es).tables.jobs then After(Empty(now), es).tables.jobs[j].error else None
    decreases |es|
  {
    if es != [] {
      var init, last := es[..|es| - 1], es[|es| - 1];
      ErrorRefinesHistory(now, init, j);
      if j in After(Empty(now), init).tables.jobs {
        ErrorStep(After(Empty(now), init), last, j);
      }
    }
  }

  /** The error stored before, unless it is missing, empty or the final one, and then the final one. */
  function ErrorsOf(stored: Option<string>, message: string): seq<string> {
    if stored == None || stored == Some("") || stored == Some(message) then [message] else [stored.value, message]
  }

  /** Event k is a retry of a job without retries left, and the letter tells what happened to the job until then. */
  ghost predicate Explains(now: int, es: seq<Event>, k: nat, d: DeadLetter)
    requires k < |es|
  {
    var s, e := After(Empty(now), es[..k]), es[k];
    && Acts(s, e, d.job) && s.tables.jobs[d.job].retryCount >= 3
    && d.retryCount == s.tables.jobs[d.job].retryCount && d.failedAt == e.at
    && d.errors == ErrorsOf(LastError(now, es[..k], d.job), e.op.message)
    && (exists i :: 0 <= i < k &&
          Dispatches(es, i, d.job, s.tables.jobs[d.job].jobType, d.payload, s.tables.jobs[d.job].queuedAt))
  }

  lemma NewLetter(s: System, e: Event, d: DeadLetter)
    requires d in NextTables(s, e).deadLetters && d !in s.tables.deadLetters
    ensures Acts(s, e, d.job) && s.tables.jobs[d.job].retryCount >= 3
    ensures var job := s.tables.jobs[d.job];
      d == DeadLetter(d.job, job.payload, ErrorsOf(job.error, e.op.message), e.at, job.retryCount)
  {
  }

  lemma ExplainsLater(now: int, es: seq<Event>, k: nat, d: DeadLetter)
    requires k + 1 < |es| && Explains(now, es[..|es| - 1], k, d)
    ensures Explains(now, es, k, d)
  {
    var init := es[..|es| - 1];
    assert init[..k] == es[..k];
    var s := After(Empty(now), es[..k]);
    var i :| 0 <= i < k &&
      Dispatches(init, i, d.job, s.tables.jobs[d.job].jobType, d.payload, s.tables.jobs[d.job].queuedAt);
    assert Dispatches(es, i, d.job, s.tables.jobs[d.job].jobType, d.payload, s.tables.jobs[d.job].queuedAt);
  }

  /**
   * Over every run a dead letter is explained by one retry: it holds the payload that the job was dispatched
   * with, the retries used up, and as errors the last one stored and the final one.
   */
  lemma {:induction false} LettersTellTheStory(now: int, es: seq<Event>, d: DeadLetter) returns (k: nat)
    requires IsRun(Empty(now), es) && d in After(Empty(now), es).tables.deadLetters
    ensures k < |es| && Explains(now, es, k, d)
    decreases |es|
  {
    var init, last := es[..|es| - 1], es[|es| - 1];
    var s := After(Empty(now), init);
    if d in s.tables.deadLetters {
      k := LettersTellTheStory(now, init, d);
      ExplainsLater(now, es, k, d);
    } else {
      k := |es| - 1;
      NewLetter(s, last, d);
      ErrorRefinesHistory(now, init, d.job);
      var i := JobsComeFromDispatches(now, init, d.job);
      var job := s.tables.jobs[d.job];
      assert Dispatches(es, i, d.job, job.jobType, d.payload, job.queuedAt);
    }
  }

  // ---------------------------------------------------------------------------------------------
  // Nodes
  // ---------------------------------------------------------------------------------------------

  datatype Report = Report(at: int, load: real)

  /** The last heartbeat of a node that was known then. */
  function LastReport(now: int, es: seq<Event>, n: nat): Option<Report> {
    if es == [] then None
    else
      var init, last := es[..|es| - 1], es[|es| - 1];
      if last.op.Beat? && last.op.node == n && n in After(Empty(now), init).tables.nodes
      then Some(Report(last.at, last.op.load))
      else LastReport(now, init, n)
  }

  /**
   * A node's status, told from the events: registered, healthy by a heartbeat or a success, unhealthy by the
   * third failure of a run or by a sweep more than 90 seconds after its last report.
   */
  function StatusOf(now: int, es: seq<Event>, n: nat): NodeStatus {
    if es == [] then REGISTERED
    else
      var init, last := es[..|es| - 1], es[|es| - 1];
      var before, report := StatusOf(now, init, n), LastReport(now, init, n);
      if n !in After(Empty(now), init).tables.nodes then REGISTERED
      else
        match last.op
        case Beat(m, _) => if m == n then HEALTHY else before
        case RecordSuccess(m) => if m == n then HEALTHY else before
        case RecordFailure(m) => if m == n && FailureRun(es, n) >= 3 then UNHEALTHY else before
        case Sweep =>
          if before == HEALTHY && report.Some? && report.value.at < last.at - 90 then UNHEALTHY else before
        case _ => before
  }

  /** The row of a node that the events make. */
  ghost predicate RowTells(node: Node, status: NodeStatus, report: Option<Report>) {
    && node.status == status
    && match report
       case None => node.lastHeartbeat == None && node.load == 0.0
       case Some(r) =>
         node.lastHeartbeat == Some(r.at) &&
         node.load == if r.load <= 0.0 then 0.0 else if r.load >= 1.0 then 1.0 else r.load
  }

  /** What one event does to the row of a known node; trips says whether a recorded failure trips its breaker. */
  ghost predicate NodeMoved(before: Node, after: Node, e: Event, n: nat, trips: bool) {
    match e.op
    case Beat(m, load) =>
      if m == n then
        after.lastHeartbeat == Some(e.at) && (before.status != OFFLINE ==> after.status == HEALTHY)
        && after.load == if load <= 0.0 then 0.0 else if load >= 1.0 then 1.0 else load
      else after == before
    case RecordSuccess(m) => after == if m == n then before.(status := HEALTHY) else before
    case RecordFailure(m) => after == if m == n && trips then before.(status := UNHEALTHY) else before
    case Sweep =>
      var stale := before.status == HEALTHY && before.lastHeartbeat.Some? && before.lastHeartbeat.value < e.at - 90;
      after == if stale then before.(status := UNHEALTHY) else before
    case _ => after == before
  }

  lemma NodeEffect(s: System, e: Event, n: nat)
    requires Admissible(s, e) && n in s.tables.nodes
    ensures n in NextTables(s, e).nodes
    ensures NodeMoved(s.tables.nodes[n], NextTables(s, e).nodes[n], e, n, FailureCount(s.breaker, n) + 1 >= 3)
  {
  }

  lemma MovedNodeTells(now: int, es: seq<Event>, n: nat, before: Node, after: Node)
    requires es != [] && n in After(Empty(now), es[..|es| - 1]).tables.nodes
    requires var init := es[..|es| - 1];
      StatusOf(now, init, n) != OFFLINE && RowTells(before, StatusOf(now, init, n), LastReport(now, init, n))
    requires NodeMoved(before, after, es[|es| - 1], n, FailureRun(es, n) >= 3)
    ensures StatusOf(now, es, n) != OFFLINE && RowTells(after, StatusOf(now, es, n), LastReport(now, es, n))
  {
  }

  lemma TripsByHistory(now: int, es: seq<Event>, n: nat)
    requires es != [] && es[|es| - 1].op == RecordFailure(n)
    ensures FailureCount(After(Empty(now), es[..|es| - 1]).breaker, n) + 1 == FailureRun(es, n)
  {
    BreakerRefinesHistory(now, es[..|es| - 1], n);
  }

  lemma {:induction false} UnknownNodeHasNoReport(now: int, es: seq<Event>, n: nat)
    requires IsRun(Empty(now), es) && n !in After(Empty(now), es).tables.nodes
    ensures LastReport(now, es, n) == None
    decreases |es|
  {
    if es != [] {
      NodesKeptBack(After(Empty(now), es[..|es| - 1]), es[|es| - 1], n);
      UnknownNodeHasNoReport(now, es[..|es| - 1], n);
    }
  }

  lemma NodesKeptBack(s: System, e: Event, n: nat)
    requires Admissible(s, e) && n !in NextTables(s, e).nodes
    ensures n !in s.tables.nodes
  {
    if n in s.tables.nodes {
      NodesKept(s, e, n);
    }
  }

  /** Over every run status, heartbeat and load of a node are what the events say; no node is ever OFFLINE. */
  lemma {:induction false} NodesRefineHistory(now: int, es: seq<Event>, n: nat)
    requires IsRun(Empty(now), es) && n in After(Empty(now), es).tables.nodes
    ensures StatusOf(now, es, n) != OFFLINE
    ensures RowTells(After(Empty(now), es).tables.nodes[n], StatusOf(now, es, n), LastReport(now, es, n))
    decreases |es|
  {
    var init := es[..|es| - 1];
    if n in After(Empty(now), init).tables.nodes {
      var s, last := After(Empty(now), init), es[|es| - 1];
      NodesRefineHistory(now, init, n);
      NodeEffect(s, last, n);
      if last.op == RecordFailure(n) {
        TripsByHistory(now, es, n);
      }
      MovedNodeTells(now, es, n, s.tables.nodes[n], NextTables(s, last).nodes[n]);
    } else {
      UnknownNodeHasNoReport(now, init, n);
    }
  }

  /** A probe is due: the node is out, its failures are remembered, and the last is 300 seconds old. */
  predicate ProbeDue(now: int, es: seq<Event>, n: nat, at: int) {
    && StatusOf(now, es, n) == UNHEALTHY && FailureRun(es, n) > 0
    && LastFailureAt(es, n).Some? && LastFailureAt(es, n).value + 300 <= at
  }

  /** Every answer of check_node_health: OFFLINE for unknown nodes, HEALTHY for a due probe, else the status. */
  lemma HealthAnswersExactly(now: int, es: seq<Event>, n: nat, at: int)
    requires IsRun(Empty(now), es)
    ensures var s := After(Empty(now), es);
      EffectiveHealth(s.tables, s.breaker, n, at) ==
        if n !in s.tables.nodes then OFFLINE
        else if ProbeDue(now, es, n, at) then HEALTHY
        else StatusOf(now, es, n)
  {
    BreakerRefinesHistory(now, es, n);
    if n in After(Empty(now), es).tables.nodes {
      NodesRefineHistory(now, es, n);
    }
  }

  /** Half open from an allowed probe on, until a success, a reset, or a failure that trips again. */
  function HalfOpen(now: int, es: seq<Event>, n: nat): bool {
    if es == [] then false
    else
      var init, last := es[..|es| - 1], es[|es| - 1];
      match last.op
      case CheckHealth(m) =>
        HalfOpen(now, init, n) ||
        (m == n && n in After(Empty(now), init).tables.nodes && ProbeDue(now, init, n, last.at))
      case RecordFailure(m) => HalfOpen(now, init, n) && !(m == n && FailureRun(es, n) >= 3)
      case RecordSuccess(m) => HalfOpen(now, init, n) && m != n
      case ResetBreaker(m) => HalfOpen(now, init, n) && m != n
      case _ => HalfOpen(now, init, n)
  }

  lemma HalfOpenEffect(s: System, e: Event, n: nat)
    ensures n in NextBreaker(s, e).halfOpen <==>
      match e.op
      case CheckHealth(m) => n in s.breaker.halfOpen || (m == n && MayProbe(s.tables, s.breaker, n, e.at))
      case RecordFailure(m) => n in s.breaker.halfOpen && !(m == n && FailureCount(s.breaker, n) + 1 >= 3)
      case RecordSuccess(m) => n in s.breaker.halfOpen && m != n
      case ResetBreaker(m) => n in s.breaker.halfOpen && m != n
      case _ => n in s.breaker.halfOpen
  {
  }

  lemma MayProbeByHistory(now: int, es: seq<Event>, n: nat, at: int)
    requires IsRun(Empty(now), es)
    ensures var s := After(Empty(now), es);
      MayProbe(s.tables, s.breaker, n, at) <==> n in s.tables.nodes && ProbeDue(now, es, n, at)
  {
    BreakerRefinesHistory(now, es, n);
    if n in After(Empty(now), es).tables.nodes {
      NodesRefineHistory(now, es, n);
    }
  }

  lemma {:induction false} HalfOpenRefinesHistory(now: int, es: seq<Event>, n: nat)
    requires IsRun(Empty(now), es)
    ensures n in After(Empty(now), es).breaker.halfOpen <==> HalfOpen(now, es, n)
    decreases |es|
  {
    if es != [] {
      var init, last := es[..|es| - 1], es[|es| - 1];
      HalfOpenRefinesHistory(now, init, n);
      HalfOpenEffect(After(Empty(now), init), last, n);
      MayProbeByHistory(now, init, n, last.at);
      if last.op == RecordFailure(n) {
        TripsByHistory(now, es, n);
      }
    }
  }
}
