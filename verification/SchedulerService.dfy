/** The scheduler's services, which update the tables and the breaker's dictionaries in place. */
module SchedulerService {
  import opened Foundations
  import opened SchedulerModel

  class Database {
    var nodes: map<nat, Node>
    var jobs: map<nat, Job>
    var deadLetters: seq<DeadLetter>

    constructor ()
      ensures Contents() == Empty(0).tables
    {
      nodes, jobs, deadLetters := map[], map[], [];
    }

    function Contents(): Tables
      reads this
    {
      Tables(nodes, jobs, deadLetters)
    }
  }

  // ---------------------------------------------------------------------------------------------
  // Job transitions
  // ---------------------------------------------------------------------------------------------

  method UpdateJobStatus(
      db: Database, id: nat, newStatus: JobStatus, resultRef: Option<string>, error: Option<string>, now: int)
    returns (result: Result<Job>)
    modifies db`jobs
    ensures result == (if id in old(db.jobs) then Updated(old(db.jobs[id]), newStatus, resultRef, error, now) else Err(ValueError))
    ensures db.jobs == if result.Ok? then old(db.jobs)[id := result.value] else old(db.jobs)
  {
    if id !in db.jobs {
      return Err(ValueError);
    }
    var job := db.jobs[id];
    var oldStatus := job.status;
    if !ValidTransition(oldStatus, newStatus) {
      return Err(ValueError);
    }
    if newStatus == DISPATCHED {
      job := job.(dispatchedAt := Some(now));
    }
    if newStatus == COMPLETED || newStatus == FAILED {
      job := job.(completedAt := Some(now));
    }
    if newStatus == COMPLETED && resultRef.Some? {
      job := job.(resultRef := resultRef);
    }
    if newStatus == FAILED && error.Some? {
      job := job.(error := error);
    }
    if newStatus == QUEUED && (oldStatus == FAILED || oldStatus == DISPATCHED) {
      job := job.(retryCount := job.retryCount + 1);
    }
    job := job.(status := newStatus);
    db.jobs := db.jobs[id := job];
    return Ok(job);
  }

  method CancelJob(db: Database, id: nat, now: int) returns (result: Result<Job>)
    modifies db`jobs
    ensures result == (if id in old(db.jobs) then Cancelled(old(db.jobs[id]), now) else Err(ValueError))
    ensures db.jobs == if result.Ok? then old(db.jobs)[id := result.value] else old(db.jobs)
  {
    if id !in db.jobs {
      return Err(ValueError);
    }
    var job := db.jobs[id];
    if job.status != QUEUED && job.status != DISPATCHED {
      return Err(ValueError);
    }
    job := job.(status := FAILED);
    job := job.(completedAt := Some(now));
    job := job.(error := Some("Cancelled by user"));
    db.jobs := db.jobs[id := job];
    return Ok(job);
  }

  // ---------------------------------------------------------------------------------------------
  // Nodes
  // ---------------------------------------------------------------------------------------------

  /** The answer of the query: the healthy nodes, least loaded first. */
  ghost predicate HealthyByLoad(nodes: map<nat, Node>, rows: seq<nat>) {
    && (forall n :: n in rows <==> n in nodes && nodes[n].status == HEALTHY)
    && (forall i, j :: 0 <= i < j < |rows| ==> nodes[rows[i]].load <= nodes[rows[j]].load)
  }

  method FindBestNode(db: Database, rows: seq<nat>, jobType: string) returns (best: Option<nat>)
    requires HealthyByLoad(db.nodes, rows)
    ensures BestNode(db.nodes, jobType, best)
  {
    for k := 0 to |rows|
      invariant forall i :: 0 <= i < k ==> !Eligible(db.nodes, jobType, rows[i])
    {
      assert rows[k] in rows;
      if jobType in db.nodes[rows[k]].capabilities {
        forall n | Eligible(db.nodes, jobType, n) ensures db.nodes[rows[k]].load <= db.nodes[n].load {
          var i :| 0 <= i < |rows| && rows[i] == n;
        }
        return Some(rows[k]);
      }
    }
    return None;
  }

  method RegisterNode(db: Database, newId: nat, publicKey: string, capabilities: seq<string>) returns (id: nat)
    modifies db`nodes
    ensures db.Contents() == Registered(old(db.Contents()), newId, publicKey, capabilities)
    ensures id in db.nodes && db.nodes[id].publicKey == publicKey
  {
    var existing := set m | m in db.nodes && db.nodes[m].publicKey == publicKey;
    assert forall m <- db.nodes.Keys :: db.nodes[m].publicKey == publicKey <==> m in existing;
    if existing != {} {
      id :| id in existing;
      return;
    }
    db.nodes := db.nodes[newId := Node(publicKey, capabilities, REGISTERED, None, 0.0)];
    id := newId;
  }

  method ProcessHeartbeat(db: Database, n: nat, currentLoad: real, now: int)
    requires n in db.nodes
    modifies db`nodes
    ensures db.nodes == old(db.nodes)[n := Heartbeat(old(db.nodes[n]), currentLoad, now)]
  {
    var node := db.nodes[n];
    node := node.(lastHeartbeat := Some(now));
    var capped := if currentLoad < 1.0 then currentLoad else 1.0;
    node := node.(load := if capped > 0.0 then capped else 0.0);
    if node.status == REGISTERED || node.status == UNHEALTHY {
      node := node.(status := HEALTHY);
    }
    db.nodes := db.nodes[n := node];
  }

  method MarkStaleNodes(db: Database, now: int) returns (count: nat)
    modifies db`nodes
    ensures db.nodes == MarkStale(old(db.nodes), now)
    ensures count == |set n | n in old(db.nodes) && Stale(old(db.nodes[n]), now)|
  {
    var stale := set n | n in db.nodes && Stale(db.nodes[n], now);
    var todo := stale;
    ghost var before := db.nodes;
    while todo != {}
      invariant todo <= stale
      invariant db.nodes.Keys == before.Keys
      invariant forall n :: n in before ==>
        db.nodes[n] == if n in stale - todo then before[n].(status := UNHEALTHY) else before[n]
      decreases todo
    {
      var n :| n in todo;
      db.nodes := db.nodes[n := db.nodes[n].(status := UNHEALTHY)];
      todo := todo - {n};
    }
    count := |stale|;
  }

  // ---------------------------------------------------------------------------------------------
  // Dispatch and retry
  // ---------------------------------------------------------------------------------------------

  /** The rows are what the healthy-node query answers inside the call. */
  method DispatchJob(db: Database, id: nat, jobType: string, payload: string, rows: seq<nat>, now: int)
    returns (result: Result<Job>, ghost best: Option<nat>)
    requires HealthyByLoad(db.nodes, rows)
    modifies db`jobs
    ensures BestNode(old(db.nodes), jobType, best)
    ensures db.Contents() == Dispatched(old(db.Contents()), id, jobType, payload, best, now)
    ensures best == None ==> result == Err(ServiceUnavailable)
    ensures best.Some? ==> id in db.jobs && result == Ok(db.jobs[id])
  {
    var node := FindBestNode(db, rows, jobType);
    best := node;
    if node == None {
      return Err(ServiceUnavailable), best;
    }
    var job := Job(node.value, jobType, payload, DISPATCHED, now, Some(now), None, None, None, 0);
    db.jobs := db.jobs[id := job];
    return Ok(job), best;
  }

  datatype RetryOutcome = Requeue(job: Job) | Dead(letter: DeadLetter)

  method MoveToDlq(db: Database, id: nat, message: string, now: int) returns (result: Result<DeadLetter>)
    requires id in db.jobs
    modifies db`jobs, db`deadLetters
    ensures var job := old(db.jobs[id]);
      match Buried(job, message, now)
      case Err(e) => result == Err(e) && db.Contents() == old(db.Contents())
      case Ok(buried) =>
        var letter := DeadLetter(id, job.payload, ErrorHistory(job, message), now, buried.retryCount);
        result == Ok(letter) && db.nodes == old(db.nodes)
        && db.jobs == old(db.jobs)[id := buried] && db.deadLetters == old(db.deadLetters) + [letter]
  {
    var job := db.jobs[id];
    var errorHistory := [];
    if job.error.Some? && job.error.value != "" && job.error.value != message {
      errorHistory := errorHistory + [job.error.value];
    }
    errorHistory := errorHistory + [message];
    assert errorHistory == ErrorHistory(job, message);
    if job.status != FAILED {
      var updated := UpdateJobStatus(db, id, FAILED, None, Some(message), now);
      match updated {
        case Err(e) => return Err(e);
        case Ok(j) => job := j;
      }
    } else {
      job := job.(error := Some(message));
      db.jobs := db.jobs[id := job];
    }
    var letter := DeadLetter(id, job.payload, errorHistory, now, job.retryCount);
    db.deadLetters := db.deadLetters + [letter];
    return Ok(letter);
  }

  method ScheduleRetry(db: Database, id: nat, message: string, rows: seq<nat>, now: int)
    returns (result: Result<RetryOutcome>, ghost best: Option<nat>)
    requires id in db.jobs && HealthyByLoad(db.nodes, rows)
    modifies db`jobs, db`deadLetters
    ensures result.Ok? && result.value.Requeue? ==> BestNode(old(db.nodes), old(db.jobs[id].jobType), best)
    ensures db.Contents() == Retried(old(db.Contents()), id, message, best, now)
    ensures result.Err? <==> old(db.jobs[id].status) == COMPLETED
    ensures result.Ok? ==> (result.value.Requeue? <==> old(db.jobs[id].retryCount) < MAX_RETRIES)
  {
    var job := db.jobs[id];
    best := None;
    if job.retryCount < MAX_RETRIES {
      if job.status != FAILED {
        var failed := UpdateJobStatus(db, id, FAILED, None, Some(message), now);
        if failed.Err? {
          return Err(failed.error), best;
        }
      }
      var queued := UpdateJobStatus(db, id, QUEUED, None, None, now);
      job := queued.value;
      var bestNode := FindBestNode(db, rows, job.jobType);
      best := bestNode;
      if bestNode.Some? {
        job := job.(node := bestNode.value);
        db.jobs := db.jobs[id := job];
      }
      return Ok(Requeue(job)), best;
    }
    var letter := MoveToDlq(db, id, message, now);
    match letter {
      case Err(e) => return Err(e), best;
      case Ok(d) => return Ok(Dead(d)), best;
    }
  }

  // ---------------------------------------------------------------------------------------------
  // The circuit breaker
  // ---------------------------------------------------------------------------------------------

  class CircuitBreaker {
    var failureCounts: map<nat, nat>
    var lastFailureTime: map<nat, int>
    var halfOpen: set<nat>

    constructor ()
      ensures State() == Empty(0).breaker
    {
      failureCounts, lastFailureTime, halfOpen := map[], map[], {};
    }

    function State(): Breaker
      reads this
    {
      Breaker(failureCounts, lastFailureTime, halfOpen)
    }

    method RecordFailure(db: Database, n: nat, now: int) returns (status: NodeStatus)
      modifies this, db`nodes, db`jobs
      ensures State() == AfterFailure(old(State()), n, now)
      ensures db.Contents() == Trip(old(db.Contents()), old(State()), n)
      ensures status == FailureVerdict(old(State()), n)
    {
      var count := (if n in failureCounts then failureCounts[n] else 0) + 1;
      failureCounts := failureCounts[n := count];
      lastFailureTime := lastFailureTime[n := now];
      if count >= FAILURE_THRESHOLD {
        db.nodes := SetStatus(db.nodes, n, UNHEALTHY);
        var redistributed := RedistributeJobsOf(db, n);
        halfOpen := halfOpen - {n};
        return UNHEALTHY;
      }
      return HEALTHY;
    }

    method RecordSuccess(db: Database, n: nat)
      modifies this, db`nodes
      ensures State() == Forget(old(State()), n)
      ensures db.nodes == SetStatus(old(db.nodes), n, HEALTHY)
      ensures n in old(db.nodes) ==> db.nodes == old(db.nodes)[n := old(db.nodes[n]).(status := HEALTHY)]
      ensures n !in old(db.nodes) ==> db.nodes == old(db.nodes)
    {
      failureCounts := failureCounts - {n};
      lastFailureTime := lastFailureTime - {n};
      halfOpen := halfOpen - {n};
      db.nodes := SetStatus(db.nodes, n, HEALTHY);
    }

    method CheckNodeHealth(db: Database, n: nat, now: int) returns (status: NodeStatus)
      modifies this`halfOpen
      ensures status == EffectiveHealth(db.Contents(), old(State()), n, now)
      ensures halfOpen == if MayProbe(db.Contents(), old(State()), n, now) then old(halfOpen) + {n} else old(halfOpen)
    {
      if n !in db.nodes {
        return OFFLINE;
      }
      if db.nodes[n].status != UNHEALTHY {
        return db.nodes[n].status;
      }
      if n !in lastFailureTime {
        return UNHEALTHY;
      }
      var elapsed := now - lastFailureTime[n];
      if elapsed >= RECOVERY_TIMEOUT {
        halfOpen := halfOpen + {n};
        return HEALTHY;
      }
      return UNHEALTHY;
    }

    method RedistributeJobsOf(db: Database, n: nat) returns (count: nat)
      modifies db`jobs
      ensures db.jobs == RedistributeJobs(old(db.jobs), n)
      ensures count == |set j | j in old(db.jobs) && Movable(old(db.jobs[j]), n)|
    {
      var moved := set j | j in db.jobs && Movable(db.jobs[j], n);
      var todo := moved;
      ghost var before := db.jobs;
      while todo != {}
        invariant todo <= moved
        invariant db.jobs.Keys == before.Keys
        invariant forall j :: j in before ==>
          db.jobs[j] == if j in moved - todo then before[j].(status := QUEUED, dispatchedAt := None) else before[j]
        decreases todo
      {
        var j :| j in todo;
        db.jobs := db.jobs[j := db.jobs[j].(status := QUEUED, dispatchedAt := None)];
        todo := todo - {j};
      }
      count := |moved|;
    }

    method Reset(n: nat)
      modifies this
      ensures State() == Forget(old(State()), n)
    {
      failureCounts := failureCounts - {n};
      lastFailureTime := lastFailureTime - {n};
      halfOpen := halfOpen - {n};
    }
  }
}
