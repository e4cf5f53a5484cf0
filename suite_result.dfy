/** The outcome of running a whole suite (report.go): the combined status
    of its tests. The status type, its names and Stats are shared with
    module Report, which models the same code of ht/report.go. */
module SuiteResult {
  import opened Report

  /** SuiteResult.CombineTests over the statuses of the test results:
      the most severe status, starting from NotRun. */
  method CombineTests(statuses: seq<Status>) returns (status: Status)
    ensures status >= NotRun
    ensures forall i :: 0 <= i < |statuses| ==> statuses[i] <= status
    ensures status == NotRun || status in statuses
    ensures (exists i :: 0 <= i < |statuses| && statuses[i] >= NotRun) ==> status in statuses
  {
    status := NotRun;
    for i := 0 to |statuses|
      invariant status >= NotRun
      invariant forall j :: 0 <= j < i ==> statuses[j] <= status
      invariant status == NotRun || status in statuses[..i]
    {
      if statuses[i] > status {
        status := statuses[i];
      }
    }
  }
}
