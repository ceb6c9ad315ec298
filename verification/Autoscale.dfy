/** The autoscale monitor: fleet load against thresholds, with a cooldown per kind of event. */
module Autoscale {
  import opened Foundations
  import opened SchedulerModel

  const SCALE_UP_THRESHOLD: real := 0.8
  const SCALE_DOWN_THRESHOLD: real := 0.2
  const COOLDOWN_PERIOD := 300

  datatype Action = NoAction | ScaleUp | ScaleDown

  function TotalLoad(nodes: seq<Node>): real {
    if nodes == [] then 0.0 else TotalLoad(nodes[..|nodes| - 1]) + nodes[|nodes| - 1].load
  }

  /** The average over the healthy nodes, zero without any. */
  function FleetLoad(nodes: seq<Node>): real {
    if nodes == [] then 0.0 else TotalLoad(nodes) / (|nodes| as real)
  }

  lemma {:induction false} TotalLoadBounds(nodes: seq<Node>)
    requires forall k :: 0 <= k < |nodes| ==> 0.0 <= nodes[k].load <= 1.0
    ensures 0.0 <= TotalLoad(nodes) <= |nodes| as real
  {
    if nodes != [] {
      TotalLoadBounds(nodes[..|nodes| - 1]);
    }
  }

  lemma {:induction false} BusyFleet(nodes: seq<Node>)
    requires nodes != [] && forall k :: 0 <= k < |nodes| ==> nodes[k].load > 0.8
    ensures 5.0 * TotalLoad(nodes) > 4.0 * (|nodes| as real)
  {
    if |nodes| > 1 {
      BusyFleet(nodes[..|nodes| - 1]);
    }
  }

  lemma {:induction false} IdleFleet(nodes: seq<Node>)
    requires nodes != [] && forall k :: 0 <= k < |nodes| ==> nodes[k].load < 0.2
    ensures 5.0 * TotalLoad(nodes) < |nodes| as real
  {
    if |nodes| > 1 {
      IdleFleet(nodes[..|nodes| - 1]);
    }
  }

  lemma QuotientAgainst(x: real, n: real, c: real)
    requires n > 0.0
    ensures x / n > c <==> x > c * n
    ensures x / n < c <==> x < c * n
  {
    var q := x / n;
    assert x == q * n;
    if q > c {
      assert (q - c) * n > 0.0;
    } else if q < c {
      assert (c - q) * n > 0.0;
    }
  }

  /** Loads clamped by heartbeats keep the average a fraction. */
  lemma FleetLoadIsFraction(nodes: seq<Node>)
    requires forall k :: 0 <= k < |nodes| ==> 0.0 <= nodes[k].load <= 1.0
    ensures 0.0 <= FleetLoad(nodes) <= 1.0
  {
    TotalLoadBounds(nodes);
    if nodes != [] {
      QuotientAgainst(TotalLoad(nodes), |nodes| as real, 0.0);
      QuotientAgainst(TotalLoad(nodes), |nodes| as real, 1.0);
    }
  }

  /** The thresholds, in terms of the summed loads: four fifths and one fifth of the node count. */
  lemma WantedBySum(nodes: seq<Node>)
    ensures Wanted(FleetLoad(nodes)) == ScaleUp <==> 5.0 * TotalLoad(nodes) > 4.0 * (|nodes| as real)
    ensures Wanted(FleetLoad(nodes)) == ScaleDown <==> nodes == [] || 5.0 * TotalLoad(nodes) < |nodes| as real
  {
    if nodes != [] {
      QuotientAgainst(TotalLoad(nodes), |nodes| as real, 0.8);
      QuotientAgainst(TotalLoad(nodes), |nodes| as real, 0.2);
    }
  }

  function Wanted(load: real): Action {
    if load > SCALE_UP_THRESHOLD then ScaleUp
    else if load < SCALE_DOWN_THRESHOLD then ScaleDown
    else NoAction
  }

  predicate CooledDown(last: Option<int>, now: int) {
    last.Some? ==> now - last.value >= COOLDOWN_PERIOD
  }

  class AutoScaleMonitor {
    var lastScaleUp: Option<int>
    var lastScaleDown: Option<int>

    constructor ()
      ensures lastScaleUp == None && lastScaleDown == None
    {
      lastScaleUp, lastScaleDown := None, None;
    }

    function State(): Monitor
      reads this
    {
      Monitor(lastScaleUp, lastScaleDown)
    }

    /**
     * The nodes are the healthy ones that the query finds. The clock is read twice: for the cooldown and,
     * after publishing, for the new timestamp.
     */
    method CheckAndScale(nodes: seq<Node>, checkedAt: int, recordedAt: int) returns (action: Action)
      modifies this
      ensures (State(), action) == Checked(old(State()), Check(nodes, checkedAt, recordedAt))
      ensures action == ScaleUp <==>
        && 5.0 * TotalLoad(nodes) > 4.0 * (|nodes| as real)
        && (old(lastScaleUp) == None || checkedAt - old(lastScaleUp).value >= 300)
      ensures action == ScaleDown <==>
        && (nodes == [] || 5.0 * TotalLoad(nodes) < |nodes| as real)
        && (old(lastScaleDown) == None || checkedAt - old(lastScaleDown).value >= 300)
      ensures lastScaleUp == if action == ScaleUp then Some(recordedAt) else old(lastScaleUp)
      ensures lastScaleDown == if action == ScaleDown then Some(recordedAt) else old(lastScaleDown)
    {
      WantedBySum(nodes);
      var sum := 0.0;
      for k := 0 to |nodes|
        invariant sum == TotalLoad(nodes[..k])
      {
        assert nodes[..k + 1][..k] == nodes[..k];
        sum := sum + nodes[k].load;
      }
      assert nodes[..|nodes|] == nodes;
      var avgLoad := if |nodes| == 0 then 0.0 else sum / (|nodes| as real);
      if avgLoad > SCALE_UP_THRESHOLD {
        if CooledDown(lastScaleUp, checkedAt) {
          lastScaleUp := Some(recordedAt);
          return ScaleUp;
        }
        return NoAction;
      }
      if avgLoad < SCALE_DOWN_THRESHOLD {
        if CooledDown(lastScaleDown, checkedAt) {
          lastScaleDown := Some(recordedAt);
          return ScaleDown;
        }
        return NoAction;
      }
      return NoAction;
    }
  }

  // ---------------------------------------------------------------------------------------------
  // Runs of checks
  // ---------------------------------------------------------------------------------------------

  datatype Monitor = Monitor(lastScaleUp: Option<int>, lastScaleDown: Option<int>)

  datatype Check = Check(nodes: seq<Node>, checkedAt: int, recordedAt: int)

  function Last(m: Monitor, kind: Action): Option<int> {
    match kind
    case ScaleUp => m.lastScaleUp
    case ScaleDown => m.lastScaleDown
    case NoAction => None
  }

  function Checked(m: Monitor, c: Check): (Monitor, Action) {
    var wanted := Wanted(FleetLoad(c.nodes));
    if wanted == NoAction || !CooledDown(Last(m, wanted), c.checkedAt) then (m, NoAction)
    else if wanted == ScaleUp then (m.(lastScaleUp := Some(c.recordedAt)), ScaleUp)
    else (m.(lastScaleDown := Some(c.recordedAt)), ScaleDown)
  }

  function After(checks: seq<Check>): Monitor {
    if checks == [] then Monitor(None, None) else Checked(After(checks[..|checks| - 1]), checks[|checks| - 1]).0
  }

  /** When events of one kind were emitted. */
  function Emitted(checks: seq<Check>, kind: Action): seq<int> {
    if checks == [] then []
    else
      var before := Emitted(checks[..|checks| - 1], kind);
      if kind != NoAction && Checked(After(checks[..|checks| - 1]), checks[|checks| - 1]).1 == kind
      then before + [checks[|checks| - 1].recordedAt]
      else before
  }

  ghost predicate ClockRunsForward(checks: seq<Check>) {
    && (forall k :: 0 <= k < |checks| ==> checks[k].checkedAt <= checks[k].recordedAt)
    && (forall k :: 0 < k < |checks| ==> checks[k - 1].recordedAt <= checks[k].checkedAt)
  }

  /** Each event at least a cooldown after the one before. */
  ghost predicate Spaced(times: seq<int>) {
    forall k :: 0 < k < |times| ==> times[k - 1] + COOLDOWN_PERIOD <= times[k]
  }

  /** The monitor's memory is the last event of the kind; events of a kind keep their distance. */
  lemma {:induction false} MemoryIsLastEvent(checks: seq<Check>, kind: Action)
    requires ClockRunsForward(checks)
    ensures var times := Emitted(checks, kind);
      && Spaced(times)
      && (kind != NoAction ==> Last(After(checks), kind) == if times == [] then None else Some(times[|times| - 1]))
    decreases |checks|
  {
    if checks != [] {
      MemoryIsLastEvent(checks[..|checks| - 1], kind);
    }
  }

  /** No event of the kind in the 300 seconds before. */
  ghost predicate Due(times: seq<int>, now: int) {
    forall k :: 0 <= k < |times| ==> times[k] + 300 <= now
  }

  lemma CheckedBySum(m: Monitor, c: Check)
    ensures var action := Checked(m, c).1;
      && (action == ScaleUp <==>
          5.0 * TotalLoad(c.nodes) > 4.0 * (|c.nodes| as real) && CooledDown(m.lastScaleUp, c.checkedAt))
      && (action == ScaleDown <==>
          (c.nodes == [] || 5.0 * TotalLoad(c.nodes) < |c.nodes| as real) && CooledDown(m.lastScaleDown, c.checkedAt))
  {
    WantedBySum(c.nodes);
  }

  /** The remembered time decides as all the times do. */
  lemma CooledDownMeansDue(checks: seq<Check>, kind: Action, now: int)
    requires ClockRunsForward(checks) && kind != NoAction
    ensures CooledDown(Last(After(checks), kind), now) <==> Due(Emitted(checks, kind), now)
  {
    MemoryIsLastEvent(checks, kind);
    LatestDecides(Emitted(checks, kind), now);
  }

  /**
   * After any run of checks: the fleet is scaled up exactly if its summed load exceeds four fifths of the
   * node count and no such event is younger than 300 seconds; down exactly if it is below one fifth, or
   * there are no nodes, under the same condition on its own events.
   */
  lemma EmitsExactlyWhenDue(checks: seq<Check>, c: Check)
    requires ClockRunsForward(checks)
    ensures var action, total, count := Checked(After(checks), c).1, TotalLoad(c.nodes), |c.nodes| as real;
      && (action == ScaleUp <==> 5.0 * total > 4.0 * count && Due(Emitted(checks, ScaleUp), c.checkedAt))
      && (action == ScaleDown <==>
          (c.nodes == [] || 5.0 * total < count) && Due(Emitted(checks, ScaleDown), c.checkedAt))
  {
    CheckedBySum(After(checks), c);
    CooledDownMeansDue(checks, ScaleUp, c.checkedAt);
    CooledDownMeansDue(checks, ScaleDown, c.checkedAt);
  }

  /** A fleet of which every node is above 0.8 is scaled up when due, never down; below 0.2 the other way round. */
  lemma UniformFleets(checks: seq<Check>, c: Check)
    requires ClockRunsForward(checks) && c.nodes != []
    ensures (forall k :: 0 <= k < |c.nodes| ==> c.nodes[k].load > 0.8) ==>
      Checked(After(checks), c).1 == if Due(Emitted(checks, ScaleUp), c.checkedAt) then ScaleUp else NoAction
    ensures (forall k :: 0 <= k < |c.nodes| ==> c.nodes[k].load < 0.2) ==>
      Checked(After(checks), c).1 == if Due(Emitted(checks, ScaleDown), c.checkedAt) then ScaleDown else NoAction
  {
    EmitsExactlyWhenDue(checks, c);
    if forall k :: 0 <= k < |c.nodes| ==> c.nodes[k].load > 0.8 {
      BusyFleet(c.nodes);
    }
    if forall k :: 0 <= k < |c.nodes| ==> c.nodes[k].load < 0.2 {
      IdleFleet(c.nodes);
    }
  }

  lemma {:induction false} SpacedIsOrdered(times: seq<int>, k: nat)
    requires Spaced(times) && k < |times|
    ensures times[k] <= times[|times| - 1]
    decreases |times| - k
  {
    if k + 1 < |times| {
      SpacedIsOrdered(times, k + 1);
    }
  }

  /** Of events that keep their distance only the latest matters. */
  lemma LatestDecides(times: seq<int>, now: int)
    requires Spaced(times)
    ensures Due(times, now) <==> times == [] || now - times[|times| - 1] >= 300
  {
    forall k | 0 <= k < |times| ensures times[k] <= times[|times| - 1] {
      SpacedIsOrdered(times, k);
    }
  }

  function CountWithin(times: seq<int>, from: int, length: nat): nat {
    if times == [] then 0
    else
      var last := times[|times| - 1];
      CountWithin(times[..|times| - 1], from, length) + (if from <= last <= from + length then 1 else 0)
  }

  lemma {:induction false} SpacedCount(times: seq<int>, from: int, length: nat)
    requires Spaced(times)
    ensures var count := CountWithin(times, from, length);
      count > 0 ==> from + (count - 1) * 300 <= from + length && times[|times| - 1] >= from + (count - 1) * 300
  {
    if times != [] {
      SpacedCount(times[..|times| - 1], from, length);
    }
  }

  /** In any closed interval of the given length at most length / 300 + 1 events of each kind are emitted. */
  lemma EventRate(checks: seq<Check>, kind: Action, from: int, length: nat)
    requires ClockRunsForward(checks)
    ensures CountWithin(Emitted(checks, kind), from, length) <= length / 300 + 1
  {
    MemoryIsLastEvent(checks, kind);
    SpacedCount(Emitted(checks, kind), from, length);
  }
}
