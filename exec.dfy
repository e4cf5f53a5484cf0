/** The statistics and the exit code of the exec command (runExecute in
    cmd/ht/exec.go). Each suite is given as the statuses of its tests, in
    the order AllTests returns them; printing and report files are not
    modelled. */
module Exec {
  import opened Report

  /** The six counters of runExecute. */
  datatype Totals = Totals(total: nat, pass: nat, error: nat, skipped: nat, failed: nat, bogus: nat)

  /** The statuses of all suites, one suite after the other. */
  function Flatten(suites: seq<seq<Status>>): seq<Status> {
    if suites == [] then [] else Flatten(suites[..|suites| - 1]) + suites[|suites| - 1]
  }

  /** One turn of the counting loop: the status's own counter (none for
      NotRun or an unknown value) and the total. */
  function Count(t: Totals, st: Status): Totals {
    var t' :=
      if st == Pass then t.(pass := t.pass + 1)
      else if st == Error then t.(error := t.error + 1)
      else if st == Skipped then t.(skipped := t.skipped + 1)
      else if st == Fail then t.(failed := t.failed + 1)
      else if st == Bogus then t.(bogus := t.bogus + 1)
      else t;
    t'.(total := t'.total + 1)
  }

  /** The counters after the loop has seen `statuses`. */
  function TotalsOf(statuses: seq<Status>): Totals {
    if statuses == [] then Totals(0, 0, 0, 0, 0, 0)
    else Count(TotalsOf(statuses[..|statuses| - 1]), statuses[|statuses| - 1])
  }

  /** The exit code chosen from the counters: the most severe outcome wins. */
  function ExitCode(t: Totals): int {
    if t.bogus > 0 then 3
    else if t.error > 0 then 2
    else if t.failed > 0 then 1
    else 0
  }

  /** The counting loops of runExecute, over every test of every suite. */
  method Tally(suites: seq<seq<Status>>) returns (t: Totals)
    ensures t == TotalsOf(Flatten(suites))
  {
    var total, totalPass, totalError, totalSkipped, totalFailed, totalBogus := 0, 0, 0, 0, 0, 0;
    for s := 0 to |suites|
      invariant Totals(total, totalPass, totalError, totalSkipped, totalFailed, totalBogus)
                == TotalsOf(Flatten(suites[..s]))
    {
      var tests := suites[s];
      ghost var done := Flatten(suites[..s]);
      assert done + tests[..0] == done;
      for i := 0 to |tests|
        invariant Totals(total, totalPass, totalError, totalSkipped, totalFailed, totalBogus)
                  == TotalsOf(done + tests[..i])
      {
        var st := tests[i];
        if st == Pass {
          totalPass := totalPass + 1;
        } else if st == Error {
          totalError := totalError + 1;
        } else if st == Skipped {
          totalSkipped := totalSkipped + 1;
        } else if st == Fail {
          totalFailed := totalFailed + 1;
        } else if st == Bogus {
          totalBogus := totalBogus + 1;
        }
        total := total + 1;
        assert done + tests[..i + 1] == (done + tests[..i]) + [st];
        TotalsSnoc(done + tests[..i], st);
      }
      assert tests[..|tests|] == tests;
      FlattenSnoc(suites, s);
    }
    assert suites[..|suites|] == suites;
    t := Totals(total, totalPass, totalError, totalSkipped, totalFailed, totalBogus);
  }

  lemma TotalsSnoc(statuses: seq<Status>, st: Status)
    ensures TotalsOf(statuses + [st]) == Count(TotalsOf(statuses), st)
  {
    assert (statuses + [st])[..|statuses|] == statuses;
  }

  lemma FlattenSnoc(suites: seq<seq<Status>>, s: nat)
    requires s < |suites|
    ensures Flatten(suites[..s + 1]) == Flatten(suites[..s]) + suites[s]
  {
    assert suites[..s + 1][..s] == suites[..s];
  }

  /** runExecute's exit code for the statuses of the suites. */
  method RunExecute(suites: seq<seq<Status>>) returns (code: int)
    ensures code == ExitCode(TotalsOf(Flatten(suites)))
    ensures code == Severity(Flatten(suites))
  {
    var t := Tally(suites);
    SeverityOfTotals(Flatten(suites));
    if t.bogus > 0 {
      return 3;
    } else if t.error > 0 {
      return 2;
    } else if t.failed > 0 {
      return 1;
    }
    return 0;
  }

  /** The exit code as the documentation states it: 3 if a test is bogus,
      else 2 if one errored, else 1 if one failed, else 0. */
  function Severity(statuses: seq<Status>): int {
    if Bogus in statuses then 3
    else if Error in statuses then 2
    else if Fail in statuses then 1
    else 0
  }

  /** Each counter counts the occurrences of its status, and the total
      counts every test. */
  lemma {:induction false} TotalsCount(statuses: seq<Status>)
    ensures var t, m := TotalsOf(statuses), multiset(statuses);
            && t.total == |statuses| && t.pass == m[Pass] && t.error == m[Error]
            && t.skipped == m[Skipped] && t.failed == m[Fail] && t.bogus == m[Bogus]
  {
    if statuses != [] {
      var init, x := statuses[..|statuses| - 1], statuses[|statuses| - 1];
      TotalsCount(init);
      assert statuses == init + [x];
      assert multiset(statuses) == multiset(init) + multiset{x};
    }
  }

  /** The exit code of runExecute is the documented one. */
  lemma SeverityOfTotals(statuses: seq<Status>)
    ensures ExitCode(TotalsOf(statuses)) == Severity(statuses)
  {
    TotalsCount(statuses);
  }

  /** The exit code depends only on which statuses occur how often, not on
      how the tests are spread over suites or ordered within them. */
  lemma ExitCodeOfMultiset(a: seq<seq<Status>>, b: seq<seq<Status>>)
    requires multiset(Flatten(a)) == multiset(Flatten(b))
    ensures ExitCode(TotalsOf(Flatten(a))) == ExitCode(TotalsOf(Flatten(b)))
  {
    TotalsCount(Flatten(a));
    TotalsCount(Flatten(b));
  }

  /** Skipped and not-run tests never raise the exit code. */
  lemma SkippedKeepsExitCode(statuses: seq<Status>, st: Status)
    requires st == Skipped || st == NotRun
    ensures ExitCode(TotalsOf(statuses + [st])) == ExitCode(TotalsOf(statuses))
  {
    assert (statuses + [st])[..|statuses|] == statuses;
  }

  /** The five per-status counters never exceed the total; they reach it
      exactly when every test is Skipped, Pass, Fail, Error or Bogus (so a
      NotRun test, or an unknown status, is counted only in the total). */
  lemma {:induction false} TotalsBound(statuses: seq<Status>)
    ensures var t := TotalsOf(statuses);
            && t.pass + t.error + t.skipped + t.failed + t.bogus <= t.total
            && (t.pass + t.error + t.skipped + t.failed + t.bogus == t.total <==>
                forall i :: 0 <= i < |statuses| ==> Skipped <= statuses[i] <= Bogus)
  {
    if statuses != [] {
      var init := statuses[..|statuses| - 1];
      TotalsBound(init);
      assert forall i :: 0 <= i < |init| ==> init[i] == statuses[i];
    }
  }
}
