/** Prices of jobs. */
module Prices {
  import opened Foundations

  /** A row of job_pricing. Prices are stored with four decimals: integers in ten-thousandths of a credit. */
  datatype Pricing = Pricing(creditsPerUnit: int, isActive: bool)

  const FALLBACK_PRICE := 1_0000

  function DefaultPrice(jobType: string): Option<int> {
    if jobType == "render" then Some(10_0000)
    else if jobType == "inference" then Some(5_0000)
    else if jobType == "echo" then Some(0)
    else if jobType == "cpu_benchmark" then Some(1_0000)
    else None
  }

  /** An active row, else the built-in price, else the fallback. */
  function JobPrice(pricing: map<string, Pricing>, jobType: string): int {
    if jobType in pricing && pricing[jobType].isActive then pricing[jobType].creditsPerUnit
    else match DefaultPrice(jobType)
         case Some(price) => price
         case None => FALLBACK_PRICE
  }

  /**
   * What a job costs: an active row of its type decides, an inactive one does not count, and rows of other
   * types never do. Without a row rendering costs 10 credits, inference 5, echoing nothing and all else 1.
   */
  lemma PricesExactly(pricing: map<string, Pricing>, jobType: string, row: Pricing)
    ensures JobPrice(pricing[jobType := row.(isActive := true)], jobType) == row.creditsPerUnit
    ensures JobPrice(pricing[jobType := row.(isActive := false)], jobType) == JobPrice(map[], jobType)
    ensures jobType !in pricing ==> JobPrice(pricing, jobType) == JobPrice(map[], jobType)
    ensures JobPrice(map[], "render") == 10_0000 && JobPrice(map[], "inference") == 5_0000
    ensures JobPrice(map[], "echo") == 0
    ensures jobType !in {"render", "inference", "echo"} ==> JobPrice(map[], jobType) == 1_0000
  {
  }
}

/** The charge for a completed job. */
module Usage {
  import opened Foundations
  import opened Ledger
  import opened Sums
  import opened Prices

  /** In the ledger's unit, millionths of a credit. */
  function Cost(pricing: map<string, Pricing>, jobType: string): int {
    100 * JobPrice(pricing, jobType)
  }

  function JobReference(job: Uuid): string {
    "job-" + job
  }

  function Charge(pricing: map<string, Pricing>, job: Uuid, jobType: string, user: Uuid, at: int): Call {
    Call(DEBIT, user, Cost(pricing, jobType), USAGE, JobReference(job), at)
  }

  method DeductOnCompletion(
      ledger: CreditLedger, pricing: map<string, Pricing>, job: Uuid, jobType: string, user: Uuid, at: int)
    returns (result: Result<Entry>)
    requires ledger.Valid()
    modifies ledger
    ensures ledger.Valid()
    ensures (ledger.entries, result) == Apply(old(ledger.entries), Charge(pricing, job, jobType, user, at))
  {
    var cost := Cost(pricing, jobType);
    result := ledger.DeductCredits(user, cost, USAGE, JobReference(job), at);
  }

  predicate SufficientCredits(entries: seq<Entry>, pricing: map<string, Pricing>, user: Uuid, jobType: string) {
    Cost(pricing, jobType) <= 0 || Balance(entries, user) >= Cost(pricing, jobType)
  }

  lemma OtherCallKeepsAccount(entries: seq<Entry>, c: Call, user: Uuid, reference: string)
    requires c.user != user && (c.direction == CREDIT || c.reference != reference)
    ensures Balance(Apply(entries, c).0, user) == Balance(entries, user)
    ensures FindKey(Apply(entries, c).0, reference, DEBIT) == FindKey(entries, reference, DEBIT)
  {
  }

  /** Whatever other users do under other keys, at whatever times, leaves a user's balance and key alone. */
  lemma {:induction false} OthersKeepAccount(entries: seq<Entry>, calls: seq<Call>, user: Uuid, reference: string)
    requires forall c :: c in calls ==> c.user != user && (c.direction == CREDIT || c.reference != reference)
    ensures Balance(Run(entries, calls), user) == Balance(entries, user)
    ensures FindKey(Run(entries, calls), reference, DEBIT) == FindKey(entries, reference, DEBIT)
    decreases |calls|
  {
    if calls != [] {
      assert calls[0] in calls && forall c :: c in calls[1..] ==> c in calls;
      OtherCallKeepsAccount(entries, calls[0], user, reference);
      OthersKeepAccount(Apply(entries, calls[0]).0, calls[1..], user, reference);
    }
  }

  /**
   * The pre-flight check of a job not yet charged is exact, and stays so over any calls of other users: it
   * passes if and only if the job is free or charging it afterwards succeeds.
   */
  lemma PreflightHolds(
      entries: seq<Entry>, pricing: map<string, Pricing>, job: Uuid, jobType: string, user: Uuid,
      between: seq<Call>, at: int)
    requires FindKey(entries, JobReference(job), DEBIT) == None
    requires forall c :: c in between ==> c.user != user && (c.direction == CREDIT || c.reference != JobReference(job))
    ensures SufficientCredits(entries, pricing, user, jobType) <==>
      Cost(pricing, jobType) <= 0 || Apply(Run(entries, between), Charge(pricing, job, jobType, user, at)).1.Ok?
  {
    OthersKeepAccount(entries, between, user, JobReference(job));
  }

  /**
   * A job is charged at most once, whatever its price and type are when the charge is repeated, and whatever
   * calls were made meanwhile.
   */
  lemma ChargedOnce(
      entries: seq<Entry>, before: map<string, Pricing>, after: map<string, Pricing>, job: Uuid,
      type1: string, type2: string, user: Uuid, at1: int, between: seq<Call>, at2: int)
    requires UniqueKeys(entries) && Apply(entries, Charge(before, job, type1, user, at1)).1.Ok?
    ensures var charged := Run(Apply(entries, Charge(before, job, type1, user, at1)).0, between);
            Apply(charged, Charge(after, job, type2, user, at2)).0 == charged
  {
    if Cost(after, type2) > 0 {
      UsedKeyReturnsTheEntry(entries, Charge(before, job, type1, user, at1), between, Charge(after, job, type2, user, at2));
    }
  }

  // ---------------------------------------------------------------------------------------------
  // Runs of charges, with any other ledger calls in between
  // ---------------------------------------------------------------------------------------------

  lemma JobReferenceInjective(a: Uuid, b: Uuid)
    ensures JobReference(a) == JobReference(b) <==> a == b
  {
    var r, q := JobReference(a), JobReference(b);
    if r == q {
      assert r[4..] == a && q[4..] == b;
    }
  }

  /** A job reported complete, priced as the table says then, or any other call. */
  datatype Activity =
    | Complete(pricing: map<string, Pricing>, job: Uuid, jobType: string, user: Uuid, at: int)
    | Other(call: Call)

  function Do(entries: seq<Entry>, a: Activity): seq<Entry> {
    match a
    case Complete(pricing, job, jobType, user, at) => Apply(entries, Charge(pricing, job, jobType, user, at)).0
    case Other(call) => Apply(entries, call).0
  }

  function DoAll(entries: seq<Entry>, activities: seq<Activity>): seq<Entry> {
    if activities == [] then entries
    else Do(DoAll(entries, activities[..|activities| - 1]), activities[|activities| - 1])
  }

  /** No other call debits under the key of a job. */
  ghost predicate KeysReserved(activities: seq<Activity>) {
    forall k, job: Uuid :: 0 <= k < |activities| && activities[k].Other? ==>
      activities[k].call.direction == CREDIT || activities[k].call.reference != JobReference(job)
  }

  datatype Bill = Bill(user: Uuid, amount: int)

  /** What completing a job costs, if that is something and its user can pay it then. */
  function Affordable(entries: seq<Entry>, a: Activity, job: Uuid): Option<Bill> {
    match a
    case Complete(pricing, j, jobType, user, _) =>
      var amount := 100 * JobPrice(pricing, jobType);
      if j == job && amount > 0 && Balance(entries, user) >= amount then Some(Bill(user, amount)) else None
    case Other(_) => None
  }

  /** The first time that a completion of the job has a price and is affordable. */
  function FirstBill(entries: seq<Entry>, activities: seq<Activity>, job: Uuid): Option<Bill> {
    if activities == [] then None
    else
      var init, last := activities[..|activities| - 1], activities[|activities| - 1];
      var before := FirstBill(entries, init, job);
      if before.Some? then before else Affordable(DoAll(entries, init), last, job)
  }

  ghost predicate IsBill(e: Entry, job: Uuid, bill: Bill) {
    e.user == bill.user && e.amount == bill.amount && e.source == USAGE && e.reference == JobReference(job)
  }

  lemma KeyAfter(entries: seq<Entry>, a: Activity, job: Uuid)
    requires a.Other? ==> a.call.direction == CREDIT || a.call.reference != JobReference(job)
    ensures var key := JobReference(job);
      var before, after := FindKey(entries, key, DEBIT), FindKey(Do(entries, a), key, DEBIT);
      if before.Some? then after == before
      else match Affordable(entries, a, job)
           case None => after == None
           case Some(bill) => after.Some? && IsBill(after.value, job, bill)
  {
    if a.Complete? {
      JobReferenceInjective(a.job, job);
    }
  }

  lemma {:induction false} KeyHoldsTheFirstBill(entries: seq<Entry>, activities: seq<Activity>, job: Uuid)
    requires KeysReserved(activities)
    ensures var key := JobReference(job);
      var before, after := FindKey(entries, key, DEBIT), FindKey(DoAll(entries, activities), key, DEBIT);
      if before.Some? then after == before
      else match FirstBill(entries, activities, job)
           case None => after == None
           case Some(bill) => after.Some? && IsBill(after.value, job, bill)
    decreases |activities|
  {
    if activities != [] {
      var init := activities[..|activities| - 1];
      KeyHoldsTheFirstBill(entries, init, job);
      KeyAfter(DoAll(entries, init), activities[|activities| - 1], job);
    }
  }

  lemma {:induction false} ActivitiesKeepKeys(entries: seq<Entry>, activities: seq<Activity>)
    requires UniqueKeys(entries)
    ensures UniqueKeys(DoAll(entries, activities)) && entries <= DoAll(entries, activities)
    decreases |activities|
  {
    if activities != [] {
      var init := activities[..|activities| - 1];
      ActivitiesKeepKeys(entries, init);
      match activities[|activities| - 1]
      case Complete(pricing, job, jobType, user, at) =>
        ApplyKeepsKeys(DoAll(entries, init), Charge(pricing, job, jobType, user, at));
      case Other(call) => ApplyKeepsKeys(DoAll(entries, init), call);
    }
  }

  /**
   * Over any completions, repeated and reordered, with any other calls in between: every job not charged
   * before gets one row of its own, with the first price that its user could pay, or none if there was none.
   */
  lemma EachJobIsBilledOnce(entries: seq<Entry>, activities: seq<Activity>, job: Uuid)
    requires UniqueKeys(entries) && KeysReserved(activities) && Under(entries, JobReference(job), DEBIT) == []
    ensures var rows := Under(DoAll(entries, activities), JobReference(job), DEBIT);
      match FirstBill(entries, activities, job)
      case None => rows == []
      case Some(bill) => |rows| == 1 && IsBill(rows[0], job, bill)
  {
    ActivitiesKeepKeys(entries, activities);
    KeyHoldsTheFirstBill(entries, activities, job);
    UnderIsFound(entries, JobReference(job), DEBIT);
    UnderIsFound(DoAll(entries, activities), JobReference(job), DEBIT);
  }

  ghost function Completed(activities: seq<Activity>): set<Uuid> {
    set k | 0 <= k < |activities| && activities[k].Complete? :: activities[k].job
  }

  /** The distinct jobs that the run bills to a user. */
  ghost function Billed(entries: seq<Entry>, activities: seq<Activity>, user: Uuid): set<Uuid> {
    set job | job in Completed(activities) && FindKey(entries, JobReference(job), DEBIT) == None
      && FirstBill(entries, activities, job).Some? && FirstBill(entries, activities, job).value.user == user
  }

  function BillOf(entries: seq<Entry>, activities: seq<Activity>): Uuid -> int {
    (job: Uuid) =>
      match FirstBill(entries, activities, job)
      case None => 0
      case Some(bill) => bill.amount
  }

  /** What the other calls have moved on a user's account. */
  function OthersNet(entries: seq<Entry>, activities: seq<Activity>, user: Uuid): int {
    if activities == [] then 0
    else
      var init, last := activities[..|activities| - 1], activities[|activities| - 1];
      var before := DoAll(entries, init);
      OthersNet(entries, init, user) + if last.Other? then Net(Do(before, last), user) - Net(before, user) else 0
  }

  lemma NetAfterCompletion(entries: seq<Entry>, a: Activity, user: Uuid)
    requires a.Complete?
    ensures var bill := Affordable(entries, a, a.job);
      Net(Do(entries, a), user) == Net(entries, user) -
        if FindKey(entries, JobReference(a.job), DEBIT) == None && bill.Some? && bill.value.user == user
        then bill.value.amount else 0
  {
  }

  lemma CompletedGrows(activities: seq<Activity>)
    requires activities != []
    ensures var init, last := activities[..|activities| - 1], activities[|activities| - 1];
      Completed(activities) == Completed(init) + if last.Complete? then {last.job} else {}
  {
  }

  lemma {:induction false} UncompletedHasNoBill(entries: seq<Entry>, activities: seq<Activity>, job: Uuid)
    requires job !in Completed(activities)
    ensures FirstBill(entries, activities, job) == None
    decreases |activities|
  {
    if activities != [] {
      CompletedGrows(activities);
      UncompletedHasNoBill(entries, activities[..|activities| - 1], job);
    }
  }

  /** One more activity: which job it adds to those billed to a user. */
  lemma BilledGrows(entries: seq<Entry>, activities: seq<Activity>, user: Uuid)
    requires activities != []
    ensures var init, last := activities[..|activities| - 1], activities[|activities| - 1];
      var isNew := last.Complete? && FindKey(entries, JobReference(last.job), DEBIT) == None
        && FirstBill(entries, init, last.job) == None
        && FirstBill(entries, activities, last.job).Some? && FirstBill(entries, activities, last.job).value.user == user;
      && (isNew ==> last.job !in Billed(entries, init, user))
      && Billed(entries, activities, user) == Billed(entries, init, user) + if isNew then {last.job} else {}
  {
    var init := activities[..|activities| - 1];
    CompletedGrows(activities);
    forall job | job !in Completed(init) {
      UncompletedHasNoBill(entries, init, job);
    }
  }

  lemma BillsStay(entries: seq<Entry>, activities: seq<Activity>, job: Uuid)
    requires activities != [] && FirstBill(entries, activities[..|activities| - 1], job).Some?
    ensures FirstBill(entries, activities, job) == FirstBill(entries, activities[..|activities| - 1], job)
  {
  }

  lemma OneMoreActivity(entries: seq<Entry>, activities: seq<Activity>, user: Uuid)
    requires activities != [] && activities[|activities| - 1].Complete? && KeysReserved(activities)
    ensures var init := activities[..|activities| - 1];
      Net(DoAll(entries, init), user) - Net(DoAll(entries, activities), user)
      == SumOver(Billed(entries, activities, user), BillOf(entries, activities))
       - SumOver(Billed(entries, init, user), BillOf(entries, init))
  {
    var init, last := activities[..|activities| - 1], activities[|activities| - 1];
    BilledGrows(entries, activities, user);
    NetAfterCompletion(DoAll(entries, init), last, user);
    KeyHoldsTheFirstBill(entries, init, last.job);
    forall job | job in Billed(entries, init, user)
      ensures BillOf(entries, init)(job) == BillOf(entries, activities)(job)
    {
      BillsStay(entries, activities, job);
    }
    SumOfAgreeing(Billed(entries, init, user), BillOf(entries, init), BillOf(entries, activities));
    PutIn(Billed(entries, init, user), BillOf(entries, activities), last.job);
    assert Billed(entries, init, user) + {} == Billed(entries, init, user);
  }

  /** A user pays once for each distinct job, whatever is repeated: the debits are the sum over those jobs. */
  lemma {:induction false} DebitsSumOverJobs(entries: seq<Entry>, activities: seq<Activity>, user: Uuid)
    requires KeysReserved(activities)
    ensures Net(DoAll(entries, activities), user)
         == Net(entries, user) - SumOver(Billed(entries, activities, user), BillOf(entries, activities))
            + OthersNet(entries, activities, user)
    decreases |activities|
  {
    if activities == [] {
      assert Billed(entries, activities, user) == {};
    } else {
      var init := activities[..|activities| - 1];
      DebitsSumOverJobs(entries, init, user);
      if activities[|activities| - 1].Complete? {
        OneMoreActivity(entries, activities, user);
      } else {
        OtherKeepsBills(entries, activities, user);
      }
    }
  }

  lemma OtherKeepsBills(entries: seq<Entry>, activities: seq<Activity>, user: Uuid)
    requires activities != [] && activities[|activities| - 1].Other?
    ensures var init := activities[..|activities| - 1];
      SumOver(Billed(entries, activities, user), BillOf(entries, activities))
      == SumOver(Billed(entries, init, user), BillOf(entries, init))
  {
    var init := activities[..|activities| - 1];
    BilledGrows(entries, activities, user);
    assert Billed(entries, init, user) + {} == Billed(entries, init, user);
    forall job ensures BillOf(entries, init)(job) == BillOf(entries, activities)(job) {
    }
    SumOfAgreeing(Billed(entries, init, user), BillOf(entries, init), BillOf(entries, activities));
  }
}

/** Monthly payouts to node operators. */
module Payouts {
  import opened Foundations
  import opened Ledger
  import opened Prices
  import SchedulerModel

  datatype Date = Date(year: int, month: int, day: int)

  predicate IsDate(d: Date) {
    1 <= d.year <= 9999 && 1 <= d.month <= 12 && 1 <= d.day <= 31
  }

  predicate Before(a: Date, b: Date) {
    a.year < b.year || (a.year == b.year && (a.month < b.month || (a.month == b.month && a.day < b.day)))
  }

  /** First day of the month and of the next; after December 9999 there is no next month. */
  function MonthBoundaries(month: Date): Result<(Date, Date)>
    requires IsDate(month)
  {
    var first := month.(day := 1);
    if first.month == 12 then
      if first.year == 9999 then Err(ValueError) else Ok((first, first.(year := first.year + 1, month := 1)))
    else
      Ok((first, first.(month := first.month + 1)))
  }

  predicate InMonth(d: Date, month: Date)
    requires IsDate(month)
  {
    MonthBoundaries(month).Ok? &&
    !Before(d, MonthBoundaries(month).value.0) && Before(d, MonthBoundaries(month).value.1)
  }

  /** The month intervals partition the calendar: each date lies in the interval of its own month and no other. */
  lemma MonthsPartitionTheCalendar(d: Date, month: Date)
    requires IsDate(d) && IsDate(month)
    ensures InMonth(d, month) <==> d.year == month.year && d.month == month.month && (month.year, month.month) != (9999, 12)
  {
  }

  /** The columns of job_dispatches that payouts read; a timestamp falls into a month by its date. */
  datatype Job = Job(node: Uuid, jobType: string, status: SchedulerModel.JobStatus, completedAt: Option<Date>)

  predicate Earned(job: Job, month: Date)
    requires IsDate(month)
  {
    job.status == SchedulerModel.COMPLETED && job.completedAt.Some? && InMonth(job.completedAt.value, month)
  }

  function CompletedJobs(jobs: seq<Job>, node: Uuid, month: Date): seq<Job>
    requires IsDate(month)
  {
    if jobs == [] then []
    else
      var last := jobs[|jobs| - 1];
      var before := CompletedJobs(jobs[..|jobs| - 1], node, month);
      if last.node == node && Earned(last, month) then before + [last] else before
  }

  function Revenue(pricing: map<string, Pricing>, jobs: seq<Job>): int {
    if jobs == [] then 0
    else Revenue(pricing, jobs[..|jobs| - 1]) + JobPrice(pricing, jobs[|jobs| - 1].jobType)
  }

  function Gross(pricing: map<string, Pricing>, jobs: seq<Job>, node: Uuid, month: Date): int
    requires IsDate(month)
  {
    Revenue(pricing, CompletedJobs(jobs, node, month))
  }

  /** Gross in ten-thousandths of a credit, the two shares in millionths. */
  datatype PayoutSummary = PayoutSummary(
    node: Uuid, month: Date, totalJobs: nat, grossRevenue: int, operatorEarnings: int, platformFee: int, isPaid: bool)

  function Summary(pricing: map<string, Pricing>, jobs: seq<Job>, node: Uuid, month: Date): PayoutSummary
    requires IsDate(month)
  {
    var gross := Gross(pricing, jobs, node, month);
    PayoutSummary(node, month.(day := 1), |CompletedJobs(jobs, node, month)|, gross, 70 * gross, 30 * gross, false)
  }

  method CalculateEarnings(pricing: map<string, Pricing>, jobs: seq<Job>, node: Uuid, month: Date)
    returns (summary: Result<PayoutSummary>)
    requires IsDate(month)
    ensures MonthBoundaries(month).Err? ==> summary == Err(ValueError)
    ensures MonthBoundaries(month).Ok? ==> summary == Ok(Summary(pricing, jobs, node, month))
    ensures summary.Ok? ==>
      summary.value.operatorEarnings + summary.value.platformFee == 100 * summary.value.grossRevenue
  {
    if MonthBoundaries(month).Err? {
      return Err(ValueError);
    }
    var completed := CompletedJobs(jobs, node, month);
    var grossRevenue := 0;
    for k := 0 to |completed|
      invariant grossRevenue == Revenue(pricing, completed[..k])
    {
      assert completed[..k + 1][..k] == completed[..k];
      grossRevenue := grossRevenue + JobPrice(pricing, completed[k].jobType);
    }
    assert completed[..|completed|] == completed;
    return Ok(PayoutSummary(node, month.(day := 1), |completed|, grossRevenue, 70 * grossRevenue, 30 * grossRevenue, false));
  }

  /** SELECT DISTINCT node_id: the nodes with a job completed in the month, in whatever order they are listed. */
  ghost predicate IsActiveNodes(jobs: seq<Job>, month: Date, nodes: seq<Uuid>)
    requires IsDate(month)
  {
    && (forall i, j :: 0 <= i < j < |nodes| ==> nodes[i] != nodes[j])
    && (forall node :: node in nodes <==> exists job :: job in jobs && job.node == node && Earned(job, month))
  }

  function Report(pricing: map<string, Pricing>, jobs: seq<Job>, nodes: seq<Uuid>, month: Date): (report: seq<PayoutSummary>)
    requires IsDate(month)
    ensures |report| == |nodes|
  {
    seq(|nodes|, k requires 0 <= k < |nodes| => Summary(pricing, jobs, nodes[k], month))
  }

  /** The nodes are what the query for active nodes answers inside the call. */
  method GeneratePayoutReport(pricing: map<string, Pricing>, jobs: seq<Job>, nodes: seq<Uuid>, month: Date)
    returns (report: Result<seq<PayoutSummary>>)
    requires IsDate(month) && IsActiveNodes(jobs, month, nodes)
    ensures MonthBoundaries(month).Err? ==> report == Err(ValueError)
    ensures MonthBoundaries(month).Ok? ==> report == Ok(Report(pricing, jobs, nodes, month))
    ensures report.Ok? ==> TotalGross(report.value) == MonthRevenue(pricing, jobs, month)
  {
    if MonthBoundaries(month).Err? {
      return Err(ValueError);
    }
    var summaries := [];
    for k := 0 to |nodes|
      invariant summaries == Report(pricing, jobs, nodes, month)[..k]
    {
      var summary := CalculateEarnings(pricing, jobs, nodes[k], month);
      summaries := summaries + [summary.value];
    }
    assert Report(pricing, jobs, nodes, month)[..|nodes|] == Report(pricing, jobs, nodes, month);
    ReportAccountsForEveryJob(pricing, jobs, nodes, month);
    return Ok(summaries);
  }

  // ---------------------------------------------------------------------------------------------
  // The report accounts for every job
  // ---------------------------------------------------------------------------------------------

  function TotalGross(report: seq<PayoutSummary>): int {
    if report == [] then 0 else TotalGross(report[..|report| - 1]) + report[|report| - 1].grossRevenue
  }

  function MonthRevenue(pricing: map<string, Pricing>, jobs: seq<Job>, month: Date): int
    requires IsDate(month)
  {
    if jobs == [] then 0
    else
      var last := jobs[|jobs| - 1];
      MonthRevenue(pricing, jobs[..|jobs| - 1], month) + if Earned(last, month) then JobPrice(pricing, last.jobType) else 0
  }

  lemma GrossOfOneMore(pricing: map<string, Pricing>, jobs: seq<Job>, node: Uuid, month: Date)
    requires IsDate(month) && jobs != []
    ensures Gross(pricing, jobs, node, month) == Gross(pricing, jobs[..|jobs| - 1], node, month) +
      if jobs[|jobs| - 1].node == node then LastEarns(pricing, jobs, month) else 0
  {
  }

  /** Sum of a quantity over the listed nodes. */
  function SumListed(nodes: seq<Uuid>, f: Uuid -> int): int {
    if nodes == [] then 0 else SumListed(nodes[..|nodes| - 1], f) + f(nodes[|nodes| - 1])
  }

  function GrossOf(pricing: map<string, Pricing>, jobs: seq<Job>, month: Date): Uuid -> int
    requires IsDate(month)
  {
    (node: Uuid) => Gross(pricing, jobs, node, month)
  }

  lemma {:induction false} TotalIsSum(pricing: map<string, Pricing>, jobs: seq<Job>, nodes: seq<Uuid>, month: Date)
    requires IsDate(month)
    ensures TotalGross(Report(pricing, jobs, nodes, month)) == SumListed(nodes, GrossOf(pricing, jobs, month))
    decreases |nodes|
  {
    if nodes != [] {
      TotalIsSum(pricing, jobs, nodes[..|nodes| - 1], month);
      assert Report(pricing, jobs, nodes, month)[..|nodes| - 1] == Report(pricing, jobs, nodes[..|nodes| - 1], month);
    }
  }

  /** Changing the quantity of one node changes the sum by as much, if the node is listed. */
  lemma {:induction false} SumChangesAtOneNode(nodes: seq<Uuid>, f: Uuid -> int, g: Uuid -> int, node: Uuid, delta: int)
    requires forall i, j :: 0 <= i < j < |nodes| ==> nodes[i] != nodes[j]
    requires forall n: Uuid :: g(n) == f(n) + if n == node then delta else 0
    ensures SumListed(nodes, g) == SumListed(nodes, f) + if node in nodes then delta else 0
    decreases |nodes|
  {
    if nodes != [] {
      SumChangesAtOneNode(nodes[..|nodes| - 1], f, g, node, delta);
      assert nodes == nodes[..|nodes| - 1] + [nodes[|nodes| - 1]];
    }
  }

  lemma {:induction false} SumOfZero(nodes: seq<Uuid>, f: Uuid -> int)
    requires forall n: Uuid :: f(n) == 0
    ensures SumListed(nodes, f) == 0
    decreases |nodes|
  {
    if nodes != [] {
      SumOfZero(nodes[..|nodes| - 1], f);
    }
  }

  /** What the last job of the table earns in the month. */
  function LastEarns(pricing: map<string, Pricing>, jobs: seq<Job>, month: Date): int
    requires IsDate(month) && jobs != []
  {
    var last := jobs[|jobs| - 1];
    if Earned(last, month) then JobPrice(pricing, last.jobType) else 0
  }

  lemma {:induction false} SumOverNodes(pricing: map<string, Pricing>, jobs: seq<Job>, nodes: seq<Uuid>, month: Date)
    requires IsDate(month)
    requires forall i, j :: 0 <= i < j < |nodes| ==> nodes[i] != nodes[j]
    requires forall job :: job in jobs && Earned(job, month) ==> job.node in nodes
    ensures SumListed(nodes, GrossOf(pricing, jobs, month)) == MonthRevenue(pricing, jobs, month)
    decreases |jobs|
  {
    if jobs == [] {
      SumOfZero(nodes, GrossOf(pricing, jobs, month));
    } else {
      var init, last := jobs[..|jobs| - 1], jobs[|jobs| - 1];
      forall node: Uuid {
        GrossOfOneMore(pricing, jobs, node, month);
      }
      SumChangesAtOneNode(nodes, GrossOf(pricing, init, month), GrossOf(pricing, jobs, month), last.node,
                          LastEarns(pricing, jobs, month));
      SumOverNodes(pricing, init, nodes, month);
      assert last in jobs;
    }
  }

  /** No job is lost or counted twice: the report's gross is the price of all jobs completed in the month. */
  lemma ReportAccountsForEveryJob(pricing: map<string, Pricing>, jobs: seq<Job>, nodes: seq<Uuid>, month: Date)
    requires IsDate(month) && IsActiveNodes(jobs, month, nodes)
    ensures TotalGross(Report(pricing, jobs, nodes, month)) == MonthRevenue(pricing, jobs, month)
  {
    TotalIsSum(pricing, jobs, nodes, month);
    SumOverNodes(pricing, jobs, nodes, month);
  }

  // ---------------------------------------------------------------------------------------------
  // Which rows count
  // ---------------------------------------------------------------------------------------------

  /** Completed, on a day of that year and month. */
  predicate CompletedIn(job: Job, year: int, month: int) {
    job.status == SchedulerModel.COMPLETED && job.completedAt.Some?
    && job.completedAt.value.year == year && job.completedAt.value.month == month
  }

  ghost predicate HasDate(job: Job) {
    job.completedAt.Some? ==> IsDate(job.completedAt.value)
  }

  lemma {:induction false} CompletedJobsOfConcat(a: seq<Job>, b: seq<Job>, node: Uuid, month: Date)
    requires IsDate(month)
    ensures CompletedJobs(a + b, node, month) == CompletedJobs(a, node, month) + CompletedJobs(b, node, month)
    decreases |b|
  {
    if b == [] {
      assert a + b == a;
    } else {
      var init, last := b[..|b| - 1], b[|b| - 1];
      CompletedJobsOfConcat(a, init, node, month);
      assert (a + b)[..|a + b| - 1] == a + init && (a + b)[|a + b| - 1] == last;
    }
  }

  lemma {:induction false} RevenueOfConcat(pricing: map<string, Pricing>, a: seq<Job>, b: seq<Job>)
    ensures Revenue(pricing, a + b) == Revenue(pricing, a) + Revenue(pricing, b)
    decreases |b|
  {
    if b == [] {
      assert a + b == a;
    } else {
      var init, last := b[..|b| - 1], b[|b| - 1];
      RevenueOfConcat(pricing, a, init);
      assert (a + b)[..|a + b| - 1] == a + init && (a + b)[|a + b| - 1] == last;
    }
  }

  lemma OneRow(pricing: map<string, Pricing>, job: Job, node: Uuid, month: Date)
    requires IsDate(month) && HasDate(job)
    ensures var mine := CompletedJobs([job], node, month);
      if job.node == node && CompletedIn(job, month.year, month.month) && (month.year, month.month) != (9999, 12)
      then mine == [job] && Revenue(pricing, mine) == JobPrice(pricing, job.jobType)
      else mine == [] && Revenue(pricing, mine) == 0
  {
    var none: seq<Job> := [];
    assert [job][..0] == none && CompletedJobs(none, node, month) == none && Revenue(pricing, none) == 0;
    if job.completedAt.Some? {
      MonthsPartitionTheCalendar(job.completedAt.value, month);
    }
    assert none + [job] == [job];
  }

  /** Jobs and revenue of a node, with one row in the middle of the table and without. */
  lemma RowBetween(pricing: map<string, Pricing>, a: seq<Job>, job: Job, b: seq<Job>, node: Uuid, month: Date)
    requires IsDate(month)
    ensures var mine := CompletedJobs([job], node, month);
      var with, without := CompletedJobs(a + [job] + b, node, month), CompletedJobs(a + b, node, month);
      |with| == |without| + |mine| && Revenue(pricing, with) == Revenue(pricing, without) + Revenue(pricing, mine)
  {
    CompletedJobsOfConcat(a, [job], node, month);
    CompletedJobsOfConcat(a + [job], b, node, month);
    CompletedJobsOfConcat(a, b, node, month);
    var s, mine, t := CompletedJobs(a, node, month), CompletedJobs([job], node, month), CompletedJobs(b, node, month);
    RevenueOfConcat(pricing, s + mine, t);
    RevenueOfConcat(pricing, s, mine);
    RevenueOfConcat(pricing, s, t);
  }

  /**
   * What one row adds to the summary of a node, wherever it stands in the table: its price, split 70 to 30,
   * and one job if it is a completed one of that node and month; nothing at all otherwise.
   */
  lemma RowCountsExactly(
      pricing: map<string, Pricing>, before: seq<Job>, job: Job, rest: seq<Job>, node: Uuid, month: Date)
    requires IsDate(month) && HasDate(job)
    ensures var without := Summary(pricing, before + rest, node, month);
      var price := JobPrice(pricing, job.jobType);
      Summary(pricing, before + [job] + rest, node, month) ==
        if job.node == node && CompletedIn(job, month.year, month.month) && (month.year, month.month) != (9999, 12)
        then PayoutSummary(node, Date(month.year, month.month, 1), without.totalJobs + 1, without.grossRevenue + price,
                           without.operatorEarnings + 70 * price, without.platformFee + 30 * price, false)
        else without
  {
    OneRow(pricing, job, node, month);
    RowBetween(pricing, before, job, rest, node, month);
  }

  /** The listed nodes are those with a job completed in the month. */
  lemma ActiveNodesExactly(jobs: seq<Job>, month: Date, nodes: seq<Uuid>, node: Uuid)
    requires IsDate(month) && IsActiveNodes(jobs, month, nodes) && forall job :: job in jobs ==> HasDate(job)
    ensures node in nodes <==>
      (month.year, month.month) != (9999, 12) &&
      exists job :: job in jobs && job.node == node && CompletedIn(job, month.year, month.month)
  {
    forall job | job in jobs
      ensures Earned(job, month) <==>
        CompletedIn(job, month.year, month.month) && (month.year, month.month) != (9999, 12)
    {
      if job.completedAt.Some? {
        MonthsPartitionTheCalendar(job.completedAt.value, month);
      }
    }
  }

  /** Rows that are not completed in the month leave the active nodes and the report as they are. */
  lemma OtherRowsDoNotCount(
      pricing: map<string, Pricing>, before: seq<Job>, job: Job, rest: seq<Job>, nodes: seq<Uuid>, month: Date)
    requires IsDate(month) && HasDate(job) && !CompletedIn(job, month.year, month.month)
    ensures IsActiveNodes(before + [job] + rest, month, nodes) <==> IsActiveNodes(before + rest, month, nodes)
    ensures Report(pricing, before + [job] + rest, nodes, month) == Report(pricing, before + rest, nodes, month)
  {
    if job.completedAt.Some? {
      MonthsPartitionTheCalendar(job.completedAt.value, month);
    }
    assert forall j :: j in before + [job] + rest <==> j in before + rest || j == job;
    forall k | 0 <= k < |nodes| {
      RowCountsExactly(pricing, before, job, rest, nodes[k], month);
    }
  }

  // ---------------------------------------------------------------------------------------------
  // Execution
  // ---------------------------------------------------------------------------------------------

  function TwoDigits(n: int): string {
    [('0' as int + n / 10 % 10) as char, ('0' as int + n % 10) as char]
  }

  /** isoformat() of the first day of a month. */
  function IsoMonth(month: Date): string {
    TwoDigits(month.year / 100) + TwoDigits(month.year % 100) + "-" + TwoDigits(month.month) + "-01"
  }

  function PayoutReference(node: Uuid, month: Date): string {
    "payout-" + node + "-" + IsoMonth(month)
  }

  lemma TwoDigitsInjective(m: int, n: int)
    requires 0 <= m < 100 && 0 <= n < 100 && TwoDigits(m) == TwoDigits(n)
    ensures m == n
  {
  }

  /** The reference names one node and one month, so no payout blocks another. */
  lemma PayoutReferenceInjective(a: Uuid, m: Date, b: Uuid, n: Date)
    requires IsDate(m) && IsDate(n)
    ensures PayoutReference(a, m) == PayoutReference(b, n) <==> a == b && m.year == n.year && m.month == n.month
  {
    var r, q := PayoutReference(a, m), PayoutReference(b, n);
    if r == q {
      assert r[7..43] == a && q[7..43] == b;
      assert r[44..46] == TwoDigits(m.year / 100) && q[44..46] == TwoDigits(n.year / 100);
      assert r[46..48] == TwoDigits(m.year % 100) && q[46..48] == TwoDigits(n.year % 100);
      assert r[49..51] == TwoDigits(m.month) && q[49..51] == TwoDigits(n.month);
      TwoDigitsInjective(m.year / 100, n.year / 100);
      TwoDigitsInjective(m.year % 100, n.year % 100);
      TwoDigitsInjective(m.month, n.month);
    }
  }

  /** The month is written as its first day, whatever day it is given by. */
  lemma PayoutReferenceReads(node: Uuid, day: int)
    ensures PayoutReference(node, Date(2024, 3, day)) == "payout-" + node + "-2024-03-01"
  {
    assert TwoDigits(20) == "20" && TwoDigits(24) == "24" && TwoDigits(3) == "03";
    assert "20" + "24" + "-" + "03" + "-01" == "2024-03-01";
  }

  function PayoutCall(summary: PayoutSummary, at: int): Call {
    Call(CREDIT, summary.node, summary.operatorEarnings, ADJUSTMENT, PayoutReference(summary.node, summary.month), at)
  }

  function PayOne(entries: seq<Entry>, summary: PayoutSummary, at: int): seq<Entry> {
    if summary.operatorEarnings <= 0 then entries else Apply(entries, PayoutCall(summary, at)).0
  }

  /** The ledger after the first k summaries. */
  function PayFirst(entries: seq<Entry>, summaries: seq<PayoutSummary>, k: nat, at: int): seq<Entry>
    requires k <= |summaries|
  {
    if k == 0 then entries else PayOne(PayFirst(entries, summaries, k - 1, at), summaries[k - 1], at)
  }

  function PayAll(entries: seq<Entry>, summaries: seq<PayoutSummary>, at: int): seq<Entry> {
    PayFirst(entries, summaries, |summaries|, at)
  }

  function MarkPaid(summary: PayoutSummary): PayoutSummary {
    if summary.operatorEarnings <= 0 then summary else summary.(isPaid := true)
  }

  /** One turn of the loop over the summaries. */
  method Pay(ledger: CreditLedger, summary: PayoutSummary, at: int) returns (paid: PayoutSummary)
    requires ledger.Valid()
    modifies ledger
    ensures ledger.Valid()
    ensures ledger.entries == PayOne(old(ledger.entries), summary, at) && paid == MarkPaid(summary)
  {
    if summary.operatorEarnings <= 0 {
      return summary;
    }
    var entry := ledger.AllocateCredits(summary.node, summary.operatorEarnings, ADJUSTMENT,
                                        PayoutReference(summary.node, summary.month), at);
    return summary.(isPaid := true);
  }

  function MarkAll(summaries: seq<PayoutSummary>): (marked: seq<PayoutSummary>)
    ensures |marked| == |summaries|
  {
    seq(|summaries|, k requires 0 <= k < |summaries| => MarkPaid(summaries[k]))
  }

  method PaySummaries(ledger: CreditLedger, summaries: seq<PayoutSummary>, at: int) returns (paid: seq<PayoutSummary>)
    requires ledger.Valid()
    modifies ledger
    ensures ledger.Valid()
    ensures ledger.entries == PayAll(old(ledger.entries), summaries, at) && paid == MarkAll(summaries)
  {
    paid := [];
    ghost var before := ledger.entries;
    for k := 0 to |summaries|
      invariant ledger.Valid()
      invariant ledger.entries == PayFirst(before, summaries, k, at)
      invariant |paid| == k && forall j :: 0 <= j < k ==> paid[j] == MarkPaid(summaries[j])
    {
      var summary := Pay(ledger, summaries[k], at);
      assert ledger.entries == PayFirst(before, summaries, k + 1, at);
      paid := paid + [summary];
    }
  }

  method ExecutePayouts(
      ledger: CreditLedger, pricing: map<string, Pricing>, jobs: seq<Job>, nodes: seq<Uuid>, month: Date, at: int)
    returns (paid: Result<seq<PayoutSummary>>)
    requires ledger.Valid() && IsDate(month) && IsActiveNodes(jobs, month, nodes)
    modifies ledger
    ensures ledger.Valid()
    ensures MonthBoundaries(month).Err? ==> paid == Err(ValueError) && ledger.entries == old(ledger.entries)
    ensures MonthBoundaries(month).Ok? ==>
      && ledger.entries == PayAll(old(ledger.entries), Report(pricing, jobs, nodes, month), at)
      && paid == Ok(MarkAll(Report(pricing, jobs, nodes, month)))
  {
    var report := GeneratePayoutReport(pricing, jobs, nodes, month);
    if report.Err? {
      return Err(ValueError);
    }
    var summaries := PaySummaries(ledger, report.value, at);
    return Ok(summaries);
  }

  // ---------------------------------------------------------------------------------------------
  // At most one payout per node and month
  // ---------------------------------------------------------------------------------------------

  /** One call of execute_payouts, with the tables as they are then. */
  datatype Execution = Execution(
    pricing: map<string, Pricing>, jobs: seq<Job>, nodes: seq<Uuid>, month: Date, at: int)

  function Execute(entries: seq<Entry>, x: Execution): seq<Entry>
    requires IsDate(x.month)
  {
    if MonthBoundaries(x.month).Err? then entries
    else PayAll(entries, Report(x.pricing, x.jobs, x.nodes, x.month), x.at)
  }

  /** The operator's share of a node, as the execution computes it. */
  function Earnings(x: Execution, node: Uuid): int
    requires IsDate(x.month)
  {
    Summary(x.pricing, x.jobs, node, x.month).operatorEarnings
  }

  /** What a payout credits to a node, if its key is free. */
  function PayoutFor(x: Execution, node: Uuid): Option<int>
    requires IsDate(x.month)
  {
    if MonthBoundaries(x.month).Ok? && node in x.nodes && Earnings(x, node) > 0 then Some(Earnings(x, node)) else None
  }

  ghost predicate SameMonth(m: Date, n: Date) {
    m.year == n.year && m.month == n.month
  }

  lemma PayOneKey(entries: seq<Entry>, summary: PayoutSummary, at: int, reference: string)
    ensures var after := PayOne(entries, summary, at);
      FindKey(after, reference, CREDIT) ==
        if FindKey(entries, reference, CREDIT) == None && summary.operatorEarnings > 0
           && PayoutReference(summary.node, summary.month) == reference
        then Some(NewEntry(PayoutCall(summary, at), Balance(entries, summary.node) + summary.operatorEarnings))
        else FindKey(entries, reference, CREDIT)
  {
  }

  /** The key of a node and month after summaries were paid: as before, or holding the earnings. */
  ghost predicate KeyOutcome(before: Option<Entry>, after: Option<Entry>, pays: bool, node: Uuid, earnings: int) {
    if before == None && pays then
      after.Some? && after.value.amount == earnings && after.value.user == node && after.value.source == ADJUSTMENT
    else after == before
  }

  lemma PayOneOutcome(entries: seq<Entry>, x: Execution, last: Uuid, node: Uuid, month: Date)
    requires IsDate(x.month) && IsDate(month)
    ensures var summary := Summary(x.pricing, x.jobs, last, x.month);
      var key := PayoutReference(node, month);
      KeyOutcome(FindKey(entries, key, CREDIT), FindKey(PayOne(entries, summary, x.at), key, CREDIT),
                 last == node && SameMonth(month, x.month) && Earnings(x, node) > 0, node, Earnings(x, node))
  {
    var summary := Summary(x.pricing, x.jobs, last, x.month);
    PayOneKey(entries, summary, x.at, PayoutReference(node, month));
    PayoutReferenceInjective(last, summary.month, node, month);
  }

  lemma OutcomesCompose(
      a: Option<Entry>, b: Option<Entry>, c: Option<Entry>, first: bool, second: bool, node: Uuid, earnings: int)
    requires KeyOutcome(a, b, first, node, earnings) && KeyOutcome(b, c, second, node, earnings)
    ensures KeyOutcome(a, c, first || second, node, earnings)
  {
  }

  lemma LastPayout(
      entries: seq<Entry>, paid: seq<Entry>, x: Execution, init: seq<Uuid>, last: Uuid, node: Uuid, month: Date)
    requires IsDate(x.month) && IsDate(month)
    requires var key := PayoutReference(node, month);
      KeyOutcome(FindKey(entries, key, CREDIT), FindKey(paid, key, CREDIT),
                 node in init && SameMonth(month, x.month) && Earnings(x, node) > 0, node, Earnings(x, node))
    ensures var key := PayoutReference(node, month);
      KeyOutcome(FindKey(entries, key, CREDIT),
                 FindKey(PayOne(paid, Summary(x.pricing, x.jobs, last, x.month), x.at), key, CREDIT),
                 (node in init || last == node) && SameMonth(month, x.month) && Earnings(x, node) > 0,
                 node, Earnings(x, node))
  {
    var key := PayoutReference(node, month);
    PayOneOutcome(paid, x, last, node, month);
    var due := SameMonth(month, x.month) && Earnings(x, node) > 0;
    OutcomesCompose(FindKey(entries, key, CREDIT), FindKey(paid, key, CREDIT),
                    FindKey(PayOne(paid, Summary(x.pricing, x.jobs, last, x.month), x.at), key, CREDIT),
                    node in init && due, last == node && due, node, Earnings(x, node));
  }

  /** The payouts of an execution, node by node. */
  function PayNodes(entries: seq<Entry>, x: Execution, nodes: seq<Uuid>): seq<Entry>
    requires IsDate(x.month)
  {
    if nodes == [] then entries
    else
      var init, last := nodes[..|nodes| - 1], nodes[|nodes| - 1];
      PayOne(PayNodes(entries, x, init), Summary(x.pricing, x.jobs, last, x.month), x.at)
  }

  lemma {:induction false} PayNodesIsPayFirst(entries: seq<Entry>, x: Execution, nodes: seq<Uuid>, k: nat)
    requires IsDate(x.month) && k <= |nodes|
    ensures PayNodes(entries, x, nodes[..k]) == PayFirst(entries, Report(x.pricing, x.jobs, nodes, x.month), k, x.at)
  {
    if k > 0 {
      PayNodesIsPayFirst(entries, x, nodes, k - 1);
      assert nodes[..k][..k - 1] == nodes[..k - 1];
    }
  }

  lemma {:induction false} PayNodesKey(entries: seq<Entry>, x: Execution, nodes: seq<Uuid>, node: Uuid, month: Date)
    requires IsDate(x.month) && IsDate(month)
    ensures var key := PayoutReference(node, month);
      KeyOutcome(FindKey(entries, key, CREDIT), FindKey(PayNodes(entries, x, nodes), key, CREDIT),
                 node in nodes && SameMonth(month, x.month) && Earnings(x, node) > 0, node, Earnings(x, node))
    decreases |nodes|
  {
    if nodes != [] {
      var init, last := nodes[..|nodes| - 1], nodes[|nodes| - 1];
      PayNodesKey(entries, x, init, node, month);
      LastPayout(entries, PayNodes(entries, x, init), x, init, last, node, month);
      assert nodes == init + [last];
    }
  }

  /** What one execution does to the key of one node in one month. */
  lemma PayAllKey(entries: seq<Entry>, x: Execution, nodes: seq<Uuid>, node: Uuid, month: Date)
    requires IsDate(x.month) && IsDate(month)
    ensures var after := PayAll(entries, Report(x.pricing, x.jobs, nodes, x.month), x.at);
      var key := PayoutReference(node, month);
      KeyOutcome(FindKey(entries, key, CREDIT), FindKey(after, key, CREDIT),
                 node in nodes && SameMonth(month, x.month) && Earnings(x, node) > 0, node, Earnings(x, node))
  {
    PayNodesIsPayFirst(entries, x, nodes, |nodes|);
    assert nodes[..|nodes|] == nodes;
    PayNodesKey(entries, x, nodes, node, month);
  }

  /** What happens to the ledger over time: executions, and any other calls. */
  datatype Activity = Payout(execution: Execution) | Other(call: Call)

  ghost predicate AreActivities(activities: seq<Activity>) {
    forall a :: a in activities && a.Payout? ==> IsDate(a.execution.month)
  }

  ghost function DoAll(entries: seq<Entry>, activities: seq<Activity>): seq<Entry>
    requires AreActivities(activities)
    decreases |activities|
  {
    if activities == [] then entries
    else
      assert activities[0] in activities && forall a :: a in activities[1..] ==> a in activities;
      match activities[0]
      case Payout(x) => DoAll(Execute(entries, x), activities[1..])
      case Other(call) => DoAll(Apply(entries, call).0, activities[1..])
  }

  /** The amount of the first execution in the month that pays the node. */
  ghost function FirstPayout(activities: seq<Activity>, node: Uuid, month: Date): Option<int>
    requires AreActivities(activities)
    decreases |activities|
  {
    if activities == [] then None
    else
      assert activities[0] in activities && forall a :: a in activities[1..] ==> a in activities;
      match activities[0]
      case Payout(x) =>
        if SameMonth(month, x.month) && PayoutFor(x, node).Some? then PayoutFor(x, node)
        else FirstPayout(activities[1..], node, month)
      case Other(_) => FirstPayout(activities[1..], node, month)
  }

  ghost predicate OthersAvoid(activities: seq<Activity>, reference: string) {
    forall a :: a in activities && a.Other? ==> a.call.direction == DEBIT || a.call.reference != reference
  }

  lemma OtherCallsKeepKey(entries: seq<Entry>, c: Call, reference: string)
    requires c.direction == DEBIT || c.reference != reference
    ensures FindKey(Apply(entries, c).0, reference, CREDIT) == FindKey(entries, reference, CREDIT)
  {
  }

  lemma {:induction false} PayFirstKeepsKeys(entries: seq<Entry>, summaries: seq<PayoutSummary>, k: nat, at: int)
    requires UniqueKeys(entries) && k <= |summaries|
    ensures var after := PayFirst(entries, summaries, k, at); UniqueKeys(after) && entries <= after
  {
    if k > 0 {
      PayFirstKeepsKeys(entries, summaries, k - 1, at);
      if summaries[k - 1].operatorEarnings > 0 {
        ApplyKeepsKeys(PayFirst(entries, summaries, k - 1, at), PayoutCall(summaries[k - 1], at));
      }
    }
  }

  lemma {:induction false} ActivitiesKeepKeys(entries: seq<Entry>, activities: seq<Activity>)
    requires AreActivities(activities) && UniqueKeys(entries)
    ensures UniqueKeys(DoAll(entries, activities)) && entries <= DoAll(entries, activities)
    decreases |activities|
  {
    if activities != [] {
      assert activities[0] in activities && forall a :: a in activities[1..] ==> a in activities;
      match activities[0]
      case Payout(x) =>
        var report := Report(x.pricing, x.jobs, x.nodes, x.month);
        PayFirstKeepsKeys(entries, report, |report|, x.at);
        ActivitiesKeepKeys(Execute(entries, x), activities[1..]);
      case Other(c) =>
        ApplyKeepsKeys(entries, c);
        ActivitiesKeepKeys(Apply(entries, c).0, activities[1..]);
    }
  }

  lemma {:induction false} KeyHoldsTheFirstAmount(
      entries: seq<Entry>, activities: seq<Activity>, node: Uuid, month: Date)
    requires AreActivities(activities) && IsDate(month) && OthersAvoid(activities, PayoutReference(node, month))
    ensures var key := PayoutReference(node, month);
      var before, after := FindKey(entries, key, CREDIT), FindKey(DoAll(entries, activities), key, CREDIT);
      if before.Some? then after == before
      else match FirstPayout(activities, node, month)
           case None => after == None
           case Some(amount) =>
             after.Some? && after.value.amount == amount && after.value.user == node && after.value.source == ADJUSTMENT
    decreases |activities|
  {
    if activities != [] {
      assert activities[0] in activities && forall a :: a in activities[1..] ==> a in activities;
      match activities[0]
      case Payout(x) =>
        PayAllKey(entries, x, x.nodes, node, month);
        KeyHoldsTheFirstAmount(Execute(entries, x), activities[1..], node, month);
      case Other(c) =>
        OtherCallsKeepKey(entries, c, PayoutReference(node, month));
        KeyHoldsTheFirstAmount(Apply(entries, c).0, activities[1..], node, month);
    }
  }

  /**
   * Any executions, on any dates, with any jobs and any ledger calls under other keys in between: the first
   * one that finds earnings of a node in a month books one row with exactly them, for the node. No other row
   * of that node and month is ever booked, before or after.
   */
  lemma PaidOnceAtTheFirstAmount(entries: seq<Entry>, activities: seq<Activity>, node: Uuid, month: Date)
    requires AreActivities(activities) && IsDate(month) && OthersAvoid(activities, PayoutReference(node, month))
    requires UniqueKeys(entries)
    ensures entries <= DoAll(entries, activities) && UniqueKeys(DoAll(entries, activities))
    ensures var key := PayoutReference(node, month);
      var before, after := Under(entries, key, CREDIT), Under(DoAll(entries, activities), key, CREDIT);
      if before != [] then after == before && |after| == 1
      else match FirstPayout(activities, node, month)
           case None => after == []
           case Some(amount) =>
             |after| == 1 && after[0].amount == amount && after[0].user == node && after[0].source == ADJUSTMENT
  {
    ActivitiesKeepKeys(entries, activities);
    KeyHoldsTheFirstAmount(entries, activities, node, month);
    UnderIsFound(entries, PayoutReference(node, month), CREDIT);
    UnderIsFound(DoAll(entries, activities), PayoutReference(node, month), CREDIT);
  }

  /**
   * A report marks a node paid even when an older payout of the month blocked this one. Its amount is what
   * the ledger holds exactly when the key was free, or held that very amount.
   */
  lemma MarkedPaidMeansCredited(entries: seq<Entry>, x: Execution, node: Uuid)
    requires IsDate(x.month)
    requires PayoutFor(x, node).Some?
    ensures var key, before, after := PayoutReference(node, x.month), entries, Execute(entries, x);
      FindKey(after, key, CREDIT).Some? &&
      (FindKey(after, key, CREDIT).value.amount == PayoutFor(x, node).value <==>
       FindKey(before, key, CREDIT) == None || FindKey(before, key, CREDIT).value.amount == PayoutFor(x, node).value)
  {
    PayAllKey(entries, x, x.nodes, node, x.month);
  }

  /** What execute_payouts answers for a node: paid exactly if something was earned, and then a row is there. */
  lemma ReportedPaidExactly(entries: seq<Entry>, x: Execution, k: nat)
    requires IsDate(x.month) && MonthBoundaries(x.month).Ok? && k < |x.nodes|
    ensures var reported := MarkAll(Report(x.pricing, x.jobs, x.nodes, x.month))[k];
      && reported.node == x.nodes[k] && reported.operatorEarnings == Earnings(x, x.nodes[k])
      && (reported.isPaid <==> reported.operatorEarnings > 0)
      && (reported.isPaid ==> FindKey(Execute(entries, x), PayoutReference(x.nodes[k], x.month), CREDIT).Some?)
  {
    PayAllKey(entries, x, x.nodes, x.nodes[k], x.month);
  }

  lemma GrossOfCopies(pricing: map<string, Pricing>, job: Job, month: Date)
    requires IsDate(month) && Earned(job, month)
    ensures Gross(pricing, [job], job.node, month) == JobPrice(pricing, job.jobType)
    ensures Gross(pricing, [job, job], job.node, month) == 2 * JobPrice(pricing, job.jobType)
  {
    var none: seq<Job> := [];
    assert [job, job][..1] == [job] && [job][..0] == none;
    assert CompletedJobs(none, job.node, month) == none && Revenue(pricing, none) == 0;
    assert CompletedJobs([job], job.node, month) == none + [job] == [job];
    assert CompletedJobs([job, job], job.node, month) == [job] + [job] == [job, job];
  }

  /** What an execution pays for one or two rendering jobs of a node. */
  lemma PayoutOfCopies(x: Execution, job: Job)
    requires IsDate(x.month) && Earned(job, x.month) && job.jobType == "render"
    requires x.pricing == map[] && x.nodes == [job.node] && (x.jobs == [job] || x.jobs == [job, job])
    ensures PayoutFor(x, job.node) == Some(if x.jobs == [job] then 7_000_000 else 14_000_000)
    ensures IsActiveNodes(x.jobs, x.month, x.nodes)
  {
    GrossOfCopies(x.pricing, job, x.month);
    assert job in x.jobs;
  }

  lemma FirstOfTwo(first: Execution, second: Execution, node: Uuid)
    requires IsDate(first.month) && first.month == second.month && PayoutFor(first, node).Some?
    ensures AreActivities([Payout(first), Payout(second)])
    ensures FirstPayout([Payout(first), Payout(second)], node, first.month) == PayoutFor(first, node)
  {
  }

  /** A job completed between two executions of its month is reported as paid and never is. */
  lemma LaterJobsAreNotPaid(node: Uuid, month: Date, at1: int, at2: int) returns (first: Execution, second: Execution)
    requires IsDate(month) && MonthBoundaries(month).Ok?
    ensures first.month == month && second.month == month && first.at == at1 && second.at == at2
    ensures IsActiveNodes(first.jobs, month, first.nodes) && IsActiveNodes(second.jobs, month, second.nodes)
    ensures first.jobs < second.jobs && PayoutFor(second, node) == Some(14_000_000)
    ensures var paid := FindKey(DoAll([], [Payout(first), Payout(second)]), PayoutReference(node, month), CREDIT);
            paid.Some? && paid.value.amount == 7_000_000
  {
    var job := Job(node, "render", SchedulerModel.COMPLETED, Some(month));
    first := Execution(map[], [job], [node], month, at1);
    second := Execution(map[], [job, job], [node], month, at2);
    PayoutOfCopies(first, job);
    PayoutOfCopies(second, job);
    FirstOfTwo(first, second, node);
    KeyHoldsTheFirstAmount([], [Payout(first), Payout(second)], node, month);
  }
}
