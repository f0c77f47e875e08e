/**
 * The speed-test page: RPC and HTTP latency compared over a fixed number of
 * back-to-back trials. All RPC trials run first, then all HTTP trials; each
 * trial fills one cell of the detailed table, and each phase ends with the
 * trimmed mean of its durations. The summary reports both means and their
 * ratio HTTP / RPC.
 *
 * The clock and the two network calls are one oracle `measure`: trial `i`
 * of arm `a` either takes `measure(a, i).ms` milliseconds or is rejected.
 */
module SpeedTest {
  import opened Wrappers
  import opened TrimmedMean

  /** `const iterations = 100`: trials per arm. */
  const Iterations: nat := 100

  /** The summary row's label. */
  const Network: string := "Current Connection"

  /** A difference of two `performance.now()` readings: never negative. */
  type Duration = r: real | 0.0 <= r witness 0.0

  /** The two request mechanisms under test. */
  datatype Arm = Rpc | Http

  /** One awaited call: its elapsed time, or a rejected promise. */
  datatype Outcome = Took(ms: Duration) | Rejected

  /** One network call, as the page issues them. */
  datatype Call = Call(arm: Arm, trial: nat)

  /** A row of the detailed table, `{ id, rpc, http }`; `None` is `null`. */
  datatype Row = Row(id: nat, rpc: Option<real>, http: Option<real>)

  /** A double division with no zero guard: it can give Infinity or NaN. */
  datatype Ratio = Finite(value: real) | PosInfinity | NegInfinity | NaN

  /** A summary cell: a placeholder string, a mean in ms, or the improvement. */
  datatype Cell = Testing | Pending | Dash | Millis(ms: real) | Times(ratio: Ratio)

  /** The summary row `{ network, rpc, http, improvement }`. */
  datatype Summary = Summary(network: string, rpc: Cell, http: Cell, improvement: Cell)

  /** The detailed table before any trial: ids 1..n, both timings null. */
  function InitialDetails(n: nat): (rows: seq<Row>)
    ensures |rows| == n
    ensures forall i :: 0 <= i < n ==> rows[i] == Row(i + 1, None, None)
  {
    seq(n, i requires 0 <= i < n => Row(i + 1, None, None))
  }

  /**
   * The durations one phase records: trials 0, 1, ... of `arm` in order,
   * stopping at the first rejected call (which records nothing) or after `n`.
   */
  function Trials(measure: (Arm, nat) -> Outcome, arm: Arm, n: nat): (ds: seq<real>)
    ensures |ds| <= n
    ensures forall i :: 0 <= i < |ds| ==> measure(arm, i).Took? && measure(arm, i).ms == ds[i]
    ensures |ds| < n ==> measure(arm, |ds|).Rejected?
  {
    if n == 0 then []
    else
      var done := Trials(measure, arm, n - 1);
      if |done| < n - 1 then done
      else match measure(arm, n - 1)
        case Took(d) => done + [d]
        case Rejected => done
  }

  /** The calls of one phase that were issued: trials 0 .. k - 1 of `arm`. */
  function Calls(arm: Arm, k: nat): (cs: seq<Call>)
    ensures |cs| == k
    ensures forall i :: 0 <= i < k ==> cs[i] == Call(arm, i)
  {
    seq(k, i requires 0 <= i < k => Call(arm, i))
  }

  /** The calls one phase issues: every completed trial, plus the rejected one if any. */
  function PhaseCalls(measure: (Arm, nat) -> Outcome, arm: Arm, n: nat): seq<Call>
  {
    var k := |Trials(measure, arm, n)|;
    Calls(arm, if k < n then k + 1 else k)
  }

  /** A whole run's calls: the RPC phase, then the HTTP phase only if every RPC trial succeeded. */
  function RunCalls(measure: (Arm, nat) -> Outcome, n: nat): (cs: seq<Call>)
    ensures forall c :: c in cs ==> c.trial < n
    ensures |cs| <= 2 * n
  {
    if |Trials(measure, Rpc, n)| < n then PhaseCalls(measure, Rpc, n)
    else PhaseCalls(measure, Rpc, n) + PhaseCalls(measure, Http, n)
  }

  /** No RPC call is issued after an HTTP call. */
  predicate PhaseSeparated(calls: seq<Call>)
  {
    forall i, j :: 0 <= i < j < |calls| && calls[i].arm == Http ==> calls[j].arm == Http
  }

  /** `{ ...row, rpc: d }` or `{ ...row, http: d }`. */
  function SetCell(row: Row, arm: Arm, d: real): (r: Row)
    ensures r.id == row.id
    ensures arm == Rpc ==> r.rpc == Some(d) && r.http == row.http
    ensures arm == Http ==> r.http == Some(d) && r.rpc == row.rpc
  {
    match arm
    case Rpc => row.(rpc := Some(d))
    case Http => row.(http := Some(d))
  }

  /** The table after the trials of one phase wrote `ds[i]` into row `i`'s `arm` cell. */
  function WithColumn(rows: seq<Row>, arm: Arm, ds: seq<real>): (r: seq<Row>)
    requires |ds| <= |rows|
    ensures |r| == |rows|
    ensures forall i :: 0 <= i < |ds| ==> r[i].id == rows[i].id
    ensures forall i :: 0 <= i < |ds| ==> (if arm == Rpc then r[i].rpc else r[i].http) == Some(ds[i])
    ensures forall i :: 0 <= i < |ds| ==> (if arm == Rpc then r[i].http == rows[i].http else r[i].rpc == rows[i].rpc)
    ensures forall i :: |ds| <= i < |rows| ==> r[i] == rows[i]
  {
    seq(|rows|, i requires 0 <= i < |rows| => if i < |ds| then SetCell(rows[i], arm, ds[i]) else rows[i])
  }

  /** Writing one more duration updates exactly the next row. */
  lemma WithColumnStep(rows: seq<Row>, arm: Arm, ds: seq<real>, d: real)
    requires |ds| < |rows|
    ensures WithColumn(rows, arm, ds + [d]) == WithColumn(rows, arm, ds)[|ds| := SetCell(rows[|ds|], arm, d)]
  {
  }

  /** A phase that recorded nothing leaves the table as it was. */
  lemma WithColumnNone(rows: seq<Row>, arm: Arm)
    ensures WithColumn(rows, arm, []) == rows
  {
  }

  /** The detailed table a run leaves behind. */
  function RunDetails(measure: (Arm, nat) -> Outcome, n: nat): (rows: seq<Row>)
    ensures |rows| == n
    ensures forall i :: 0 <= i < n ==> rows[i].id == i + 1
    ensures |Trials(measure, Rpc, n)| < n ==> forall i :: 0 <= i < n ==> rows[i].http == None
  {
    var rpc := Trials(measure, Rpc, n);
    var http := if |rpc| < n then [] else Trials(measure, Http, n);
    WithColumn(WithColumn(InitialDetails(n), Rpc, rpc), Http, http)
  }

  /**
   * `httpAvg / rpcAvg` as a double: finite exactly when the RPC mean is not
   * zero, and then the ratio times the RPC mean is the HTTP mean.
   */
  function Improvement(httpAvg: real, rpcAvg: real): (r: Ratio)
    ensures r.Finite? <==> rpcAvg != 0.0
    ensures r.Finite? ==> r.value * rpcAvg == httpAvg
    ensures r == PosInfinity <==> rpcAvg == 0.0 && httpAvg > 0.0
    ensures r == NegInfinity <==> rpcAvg == 0.0 && httpAvg < 0.0
    ensures r == NaN <==> rpcAvg == 0.0 && httpAvg == 0.0
  {
    if rpcAvg != 0.0 then Finite(httpAvg / rpcAvg)
    else if httpAvg > 0.0 then PosInfinity
    else if httpAvg < 0.0 then NegInfinity
    else NaN
  }

  /** The summary a run leaves behind. */
  function RunResults(measure: (Arm, nat) -> Outcome, n: nat): (r: seq<Summary>)
    ensures |r| == 1 && r[0].network == Network
    ensures r[0].improvement.Times? <==> |Trials(measure, Rpc, n)| == n && |Trials(measure, Http, n)| == n
    ensures r[0].rpc.Millis? <==> |Trials(measure, Rpc, n)| == n
  {
    var rpc := Trials(measure, Rpc, n);
    var http := Trials(measure, Http, n);
    if |rpc| < n then [Summary(Network, Testing, Pending, Dash)]
    else if |http| < n then [Summary(Network, Millis(FilteredAverage(rpc)), Testing, Dash)]
    else
      var rpcAvg := FilteredAverage(rpc);
      var httpAvg := FilteredAverage(http);
      [Summary(Network, Millis(rpcAvg), Millis(httpAvg), Times(Improvement(httpAvg, rpcAvg)))]
  }

  /** A run finishes (clears `isRunning`) only when no call was rejected. */
  predicate RunCompletes(measure: (Arm, nat) -> Outcome, n: nat)
  {
    |Trials(measure, Rpc, n)| == n && |Trials(measure, Http, n)| == n
  }

  /** The HTTP phase never starts before every RPC trial has completed. */
  lemma RunCallsOrdered(measure: (Arm, nat) -> Outcome, n: nat)
    ensures PhaseSeparated(RunCalls(measure, n))
    ensures forall c :: c in RunCalls(measure, n) && c.arm == Http ==> |Trials(measure, Rpc, n)| == n
    ensures |Trials(measure, Rpc, n)| == n ==> RunCalls(measure, n)[..n] == Calls(Rpc, n)
    ensures RunCompletes(measure, n) ==> |RunCalls(measure, n)| == 2 * n
  {
    var rpc := PhaseCalls(measure, Rpc, n);
    if |Trials(measure, Rpc, n)| == n {
      var http := PhaseCalls(measure, Http, n);
      var all: seq<Call> := rpc + http;
      assert |rpc| == n;
      assert RunCalls(measure, n) == all;
      assert all[..n] == rpc;
      forall i, j | 0 <= i < j < |all| && all[i].arm == Http
        ensures all[j].arm == Http
      {
        assert i >= |rpc|;
        assert all[j] == http[j - |rpc|];
      }
    }
  }

  /** A completed run fills every cell of the detailed table, in trial order. */
  lemma CompletedTable(measure: (Arm, nat) -> Outcome, n: nat)
    requires RunCompletes(measure, n)
    ensures |RunDetails(measure, n)| == n
    ensures forall i :: 0 <= i < n ==>
      RunDetails(measure, n)[i] == Row(i + 1, Some(Trials(measure, Rpc, n)[i]), Some(Trials(measure, Http, n)[i]))
  {
    var rpc := Trials(measure, Rpc, n);
    var http := Trials(measure, Http, n);
    var once := WithColumn(InitialDetails(n), Rpc, rpc);
    var twice := WithColumn(once, Http, http);
    forall i | 0 <= i < n
      ensures twice[i] == Row(i + 1, Some(rpc[i]), Some(http[i]))
    {
      assert once[i].id == i + 1 && once[i].rpc == Some(rpc[i]) && once[i].http == None;
    }
  }

  /** A rejected RPC call leaves the HTTP column empty and the run unfinished. */
  lemma RejectedRpcLeavesHttpEmpty(measure: (Arm, nat) -> Outcome, n: nat, i: nat)
    requires i < n && measure(Rpc, i).Rejected?
    ensures !RunCompletes(measure, n)
    ensures forall k :: 0 <= k < n ==> RunDetails(measure, n)[k].http == None
    ensures forall k :: i <= k < n ==> RunDetails(measure, n)[k].rpc == None
  {
    assert |Trials(measure, Rpc, n)| <= i;
  }

  class SpeedTestPage {
    var isRunning: bool
    var results: seq<Summary>
    var detailedResults: seq<Row>
    /** The network calls made so far, in the order they were issued. */
    ghost var calls: seq<Call>

    constructor ()
      ensures !isRunning && results == [] && detailedResults == [] && calls == []
    {
      isRunning := false;
      results := [];
      detailedResults := [];
      calls := [];
    }

    /** The `setDetailedResults` updater of one trial: row `i` gets `d` in the `arm` cell, nothing else changes. */
    method RecordDuration(arm: Arm, i: nat, d: real)
      requires i < |detailedResults|
      modifies this`detailedResults
      ensures |detailedResults| == |old(detailedResults)|
      ensures detailedResults[i].id == old(detailedResults[i].id)
      ensures arm == Rpc ==> detailedResults[i].rpc == Some(d) && detailedResults[i].http == old(detailedResults[i].http)
      ensures arm == Http ==> detailedResults[i].http == Some(d) && detailedResults[i].rpc == old(detailedResults[i].rpc)
      ensures forall j :: 0 <= j < |detailedResults| && j != i ==> detailedResults[j] == old(detailedResults[j])
      ensures detailedResults == old(detailedResults)[i := SetCell(old(detailedResults[i]), arm, d)]
    {
      var newResults := detailedResults;
      newResults := newResults[i := SetCell(newResults[i], arm, d)];
      detailedResults := newResults;
    }

    /**
     * One phase's `for` loop: `Iterations` sequential timed calls of `arm`.
     * Returns the durations pushed, and whether a call was rejected (which
     * aborts the loop before anything is recorded for that trial).
     */
    method RunTrials(arm: Arm, measure: (Arm, nat) -> Outcome, n: nat) returns (durations: seq<real>, rejected: bool)
      requires |detailedResults| == n
      modifies this`detailedResults, this`calls
      ensures durations == Trials(measure, arm, n)
      ensures rejected <==> |durations| < n
      ensures detailedResults == WithColumn(old(detailedResults), arm, durations)
      ensures calls == old(calls) + PhaseCalls(measure, arm, n)
    {
      durations := [];
      rejected := false;
      var i := 0;
      while i < n
        invariant 0 <= i <= n
        invariant durations == Trials(measure, arm, i) && |durations| == i
        invariant detailedResults == WithColumn(old(detailedResults), arm, durations)
        invariant calls == old(calls) + Calls(arm, i)
      {
        assert Calls(arm, i) + [Call(arm, i)] == Calls(arm, i + 1);
        calls := calls + [Call(arm, i)];
        var outcome := measure(arm, i);
        if outcome.Rejected? {
          rejected := true;
          TrialsStopAt(measure, arm, i, n);
          return;
        }
        assert Trials(measure, arm, i + 1) == durations + [outcome.ms];
        WithColumnStep(old(detailedResults), arm, durations, outcome.ms);
        durations := durations + [outcome.ms];
        RecordDuration(arm, i, outcome.ms);
        i := i + 1;
      }
    }

    /**
     * `runTest`: marks the page running, resets both tables, runs every RPC
     * trial, then every HTTP trial, and publishes the means and their ratio.
     * A rejected call aborts it: `isRunning` stays set and later trials never run.
     */
    method RunTest(measure: (Arm, nat) -> Outcome)
      modifies this
      ensures isRunning == !RunCompletes(measure, Iterations)
      ensures detailedResults == RunDetails(measure, Iterations)
      ensures results == RunResults(measure, Iterations)
      ensures calls == old(calls) + RunCalls(measure, Iterations)
    {
      isRunning := true;
      var iterations := Iterations;
      detailedResults := InitialDetails(iterations);
      results := [Summary(Network, Testing, Pending, Dash)];

      var rpcDurations, rpcRejected := RunTrials(Rpc, measure, iterations);
      if rpcRejected {
        RpcPhaseRejected(measure, iterations);
        return;
      }
      var rpcAvg := FilteredAverage(rpcDurations);
      results := [Summary(Network, Millis(rpcAvg), Testing, Dash)];

      var httpDurations, httpRejected := RunTrials(Http, measure, iterations);
      SeqAssoc(old(calls), PhaseCalls(measure, Rpc, iterations), PhaseCalls(measure, Http, iterations));
      if httpRejected {
        HttpPhaseRejected(measure, iterations);
        return;
      }
      var httpAvg := FilteredAverage(httpDurations);
      results := [Summary(Network, Millis(rpcAvg), Millis(httpAvg), Times(Improvement(httpAvg, rpcAvg)))];
      isRunning := false;
      BothPhasesComplete(measure, iterations);
    }
  }

  lemma SeqAssoc<T>(a: seq<T>, b: seq<T>, c: seq<T>)
    ensures (a + b) + c == a + (b + c)
  {
  }

  /** How a run that fails during the RPC phase ends. */
  lemma RpcPhaseRejected(measure: (Arm, nat) -> Outcome, n: nat)
    requires |Trials(measure, Rpc, n)| < n
    ensures !RunCompletes(measure, n)
    ensures RunDetails(measure, n) == WithColumn(InitialDetails(n), Rpc, Trials(measure, Rpc, n))
    ensures RunResults(measure, n) == [Summary(Network, Testing, Pending, Dash)]
    ensures RunCalls(measure, n) == PhaseCalls(measure, Rpc, n)
  {
    WithColumnNone(WithColumn(InitialDetails(n), Rpc, Trials(measure, Rpc, n)), Http);
  }

  /** How a run that fails during the HTTP phase ends. */
  lemma HttpPhaseRejected(measure: (Arm, nat) -> Outcome, n: nat)
    requires |Trials(measure, Rpc, n)| == n
    requires |Trials(measure, Http, n)| < n
    ensures !RunCompletes(measure, n)
    ensures RunDetails(measure, n) == WithColumn(WithColumn(InitialDetails(n), Rpc, Trials(measure, Rpc, n)), Http, Trials(measure, Http, n))
    ensures RunResults(measure, n) == [Summary(Network, Millis(FilteredAverage(Trials(measure, Rpc, n))), Testing, Dash)]
    ensures RunCalls(measure, n) == PhaseCalls(measure, Rpc, n) + PhaseCalls(measure, Http, n)
  {
  }

  /** How a run in which every call succeeded ends. */
  lemma BothPhasesComplete(measure: (Arm, nat) -> Outcome, n: nat)
    requires |Trials(measure, Rpc, n)| == n
    requires |Trials(measure, Http, n)| == n
    ensures RunCompletes(measure, n)
    ensures RunDetails(measure, n) == WithColumn(WithColumn(InitialDetails(n), Rpc, Trials(measure, Rpc, n)), Http, Trials(measure, Http, n))
    ensures var rpcAvg := FilteredAverage(Trials(measure, Rpc, n));
            var httpAvg := FilteredAverage(Trials(measure, Http, n));
            RunResults(measure, n) == [Summary(Network, Millis(rpcAvg), Millis(httpAvg), Times(Improvement(httpAvg, rpcAvg)))]
    ensures RunCalls(measure, n) == PhaseCalls(measure, Rpc, n) + PhaseCalls(measure, Http, n)
  {
  }

  /** Once trial `i` is rejected, no later bound records anything more. */
  lemma {:induction false} TrialsStopAt(measure: (Arm, nat) -> Outcome, arm: Arm, i: nat, n: nat)
    requires i < n
    requires |Trials(measure, arm, i)| == i
    requires measure(arm, i).Rejected?
    ensures Trials(measure, arm, n) == Trials(measure, arm, i)
  {
    if n > i + 1 {
      TrialsStopAt(measure, arm, i, n - 1);
    }
  }
}
