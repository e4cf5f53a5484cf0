/** Statuses, their names, the per-status statistics of a suite, the tally
    behind the JUnit XML report and the XML character escaper
    (ht/report.go). */
module Report {
  import opened Wrappers
  import Errors
  import Decimal
  import Text

  /** Go's Status is an int: the six named values are 0..5, in increasing
      severity, and nothing stops other ints from appearing. */
  type Status = int

  const NotRun: Status := 0
  const Skipped: Status := 1
  const Pass: Status := 2
  const Fail: Status := 3
  const Error: Status := 4
  const Bogus: Status := 5

  predicate IsStatus(s: int) {
    NotRun <= s <= Bogus
  }

  const StatusNames: seq<string> := ["NotRun", "Skipped", "Pass", "Fail", "Error", "Bogus"]

  /** The status whose name is `name`, if there is one. */
  function StatusNamed(name: string): (r: Option<Status>)
    ensures r.Some? ==> IsStatus(r.value) && StatusNames[r.value] == name
    ensures r.None? ==> name !in StatusNames
  {
    if name == "NotRun" then Some(NotRun)
    else if name == "Skipped" then Some(Skipped)
    else if name == "Pass" then Some(Pass)
    else if name == "Fail" then Some(Fail)
    else if name == "Error" then Some(Error)
    else if name == "Bogus" then Some(Bogus)
    else None
  }

  /** Status.String; Go's slice index panics outside 0..5. Each status has
      its own name. */
  function Name(s: Status): (name: string)
    requires IsStatus(s)
    ensures StatusNamed(name) == Some(s)
  {
    StatusNames[s]
  }

  /** Status.MarshalText: the name for the six statuses, an error otherwise. */
  function MarshalText(s: int): (r: Result<string, Errors.Error>)
    ensures r.Ok? <==> IsStatus(s)
    ensures r.Ok? ==> StatusNamed(r.value) == Some(s)
    ensures r.Err? ==> r.error == Errors.Message("no such status " + Decimal.Itoa(s))
  {
    if s < 0 || s > Bogus then Err(Errors.Message("no such status " + Decimal.Itoa(s)))
    else Ok(Name(s))
  }

  // ------------------------------------------------------------------------
  // Stats

  datatype Counts = Counts(notRun: nat, skipped: nat, passed: nat, failed: nat, errored: nat, bogus: nat)
  {
    function Total(): nat {
      notRun + skipped + passed + failed + errored + bogus
    }
  }

  /** The six counts of a list of statuses. */
  function CountsOf(statuses: seq<Status>): Counts {
    var m := multiset(statuses);
    Counts(m[NotRun], m[Skipped], m[Pass], m[Fail], m[Error], m[Bogus])
  }

  datatype StatsOutcome =
    | Counted(counts: Counts)
    /** Go panics with "No such Status %d ..." on the first unknown status. */
    | Panicked(status: int)

  /** Suite.Stats over the statuses of all tests of the suite (setup, main
      and teardown tests, as AllTests returns them). */
  method Stats(statuses: seq<Status>) returns (r: StatsOutcome)
    ensures r.Counted? <==> forall i :: 0 <= i < |statuses| ==> IsStatus(statuses[i])
    ensures r.Counted? ==> r.counts == CountsOf(statuses) && r.counts.Total() == |statuses|
    ensures r.Panicked? ==> exists i :: (0 <= i < |statuses| && statuses[i] == r.status &&
      !IsStatus(r.status) && forall j :: 0 <= j < i ==> IsStatus(statuses[j]))
  {
    var notRun, skipped, passed, failed, errored, bogus := 0, 0, 0, 0, 0, 0;
    for i := 0 to |statuses|
      invariant forall j :: 0 <= j < i ==> IsStatus(statuses[j])
      invariant Counts(notRun, skipped, passed, failed, errored, bogus) == CountsOf(statuses[..i])
    {
      var st := statuses[i];
      assert statuses[..i + 1] == statuses[..i] + [st];
      if st == NotRun {
        notRun := notRun + 1;
      } else if st == Skipped {
        skipped := skipped + 1;
      } else if st == Pass {
        passed := passed + 1;
      } else if st == Fail {
        failed := failed + 1;
      } else if st == Error {
        errored := errored + 1;
      } else if st == Bogus {
        bogus := bogus + 1;
      } else {
        return Panicked(st);
      }
    }
    assert statuses[..|statuses|] == statuses;
    CountsTotal(statuses);
    r := Counted(Counts(notRun, skipped, passed, failed, errored, bogus));
  }

  /** When every status is one of the six, the six counts add up to the
      number of statuses. */
  lemma {:induction false} CountsTotal(statuses: seq<Status>)
    requires forall i :: 0 <= i < |statuses| ==> IsStatus(statuses[i])
    ensures CountsOf(statuses).Total() == |statuses|
  {
    if statuses != [] {
      var init := statuses[..|statuses| - 1];
      var x := statuses[|statuses| - 1];
      CountsTotal(init);
      assert statuses == init + [x];
      assert multiset(statuses) == multiset(init) + multiset{x};
      assert CountsOf(statuses).Total() == CountsOf(init).Total() + 1;
    }
  }

  // ------------------------------------------------------------------------
  // JUnit4XML: the per-check tally

  datatype CheckResult = CheckResult(name: string, status: Status)
  datatype TestRun = TestRun(name: string, checkResults: seq<CheckResult>)
  datatype SuiteRun = SuiteRun(setup: seq<TestRun>, tests: seq<TestRun>, teardown: seq<TestRun>)

  datatype CaseKind = CaseSkipped | CasePassed | CaseFailed | CaseErrored
  /** A <testcase>: the check's name, the test's name as class name, and
      whether it carries a <skipped>, <failure> or <error> element. */
  datatype Testcase = Testcase(name: string, classname: string, kind: CaseKind)

  /** The attributes of <testsuite>. */
  datatype JUnitCounts = JUnitCounts(tests: nat, errors: nat, failures: nat, skipped: nat)

  /** The statuses of some check results, in order. */
  function Statuses(crs: seq<CheckResult>): (r: seq<Status>)
    ensures |r| == |crs|
    ensures forall k :: 0 <= k < |crs| ==> r[k] == crs[k].status
  {
    if crs == [] then [] else Statuses(crs[..|crs| - 1]) + [crs[|crs| - 1].status]
  }

  /** The statuses of every check of the given tests, test after test. */
  function AllStatuses(tests: seq<TestRun>): seq<Status> {
    if tests == [] then []
    else AllStatuses(tests[..|tests| - 1]) + Statuses(tests[|tests| - 1].checkResults)
  }

  /** No check of the given tests has a status outside the enumeration. */
  predicate AllKnown(tests: seq<TestRun>) {
    forall i, k :: 0 <= i < |tests| && 0 <= k < |tests[i].checkResults| ==>
      IsStatus(tests[i].checkResults[k].status)
  }

  function KindOf(s: Status): CaseKind
    requires IsStatus(s)
  {
    if s == NotRun || s == Skipped then CaseSkipped
    else if s == Pass then CasePassed
    else if s == Fail then CaseFailed
    else CaseErrored
  }

  /** The testcases of one test's check results: check name, test name as
      class name, and the kind its status calls for. */
  function CheckCases(test: string, crs: seq<CheckResult>): (r: seq<Testcase>)
    requires forall k :: 0 <= k < |crs| ==> IsStatus(crs[k].status)
    ensures |r| == |crs|
  {
    if crs == [] then []
    else
      var last := crs[|crs| - 1];
      CheckCases(test, crs[..|crs| - 1]) + [Testcase(last.name, test, KindOf(last.status))]
  }

  /** Every testcase of the given tests, test after test. */
  function Cases(tests: seq<TestRun>): seq<Testcase>
    requires AllKnown(tests)
  {
    if tests == [] then []
    else
      var last := tests[|tests| - 1];
      Cases(tests[..|tests| - 1]) + CheckCases(last.name, last.checkResults)
  }

  /** The four counters of the JUnit report. */
  datatype Tally = Tally(skipped: nat, passed: nat, failed: nat, errored: nat) {
    function Plus(o: Tally): Tally {
      Tally(skipped + o.skipped, passed + o.passed, failed + o.failed, errored + o.errored)
    }
  }

  lemma PlusAssoc(a: Tally, b: Tally, c: Tally)
    ensures a.Plus(b.Plus(c)) == a.Plus(b).Plus(c)
  {
  }

  /** How one check result with status x is counted; nothing for an unknown status. */
  function One(x: Status): Tally {
    if x == NotRun || x == Skipped then Tally(1, 0, 0, 0)
    else if x == Pass then Tally(0, 1, 0, 0)
    else if x == Fail then Tally(0, 0, 1, 0)
    else if x == Error || x == Bogus then Tally(0, 0, 0, 1)
    else Tally(0, 0, 0, 0)
  }

  /** How check results with these statuses are counted, one after the other. */
  function TallyOf(statuses: seq<Status>): Tally {
    if statuses == [] then Tally(0, 0, 0, 0)
    else TallyOf(statuses[..|statuses| - 1]).Plus(One(statuses[|statuses| - 1]))
  }

  /** Counting is additive over concatenation. */
  lemma {:induction false} TallyOfAppend(a: seq<Status>, b: seq<Status>)
    ensures TallyOf(a + b) == TallyOf(a).Plus(TallyOf(b))
  {
    if b != [] {
      var init := b[..|b| - 1];
      assert (a + b)[..|a + b| - 1] == a + init;
      TallyOfAppend(a, init);
    } else {
      assert a + b == a;
    }
  }

  /** Each counter is the number of check results with the statuses it counts. */
  lemma {:induction false} TallyCounts(statuses: seq<Status>)
    ensures var m := multiset(statuses); var t := TallyOf(statuses);
      t.skipped == m[NotRun] + m[Skipped] && t.passed == m[Pass] &&
      t.failed == m[Fail] && t.errored == m[Error] + m[Bogus]
  {
    if statuses != [] {
      var init := statuses[..|statuses| - 1];
      assert statuses == init + [statuses[|statuses| - 1]];
      TallyCounts(init);
    }
  }

  /** The attributes of <testsuite> for check results with these statuses. */
  function JUnitCountsOf(statuses: seq<Status>): JUnitCounts {
    var t := TallyOf(statuses);
    JUnitCounts(t.skipped + t.passed + t.failed + t.errored, t.errored, t.failed, t.skipped)
  }

  /** The inner loop of Suite.JUnit4XML over one test's check results,
      continuing the counters `t`. An unknown status panics; `Err` carries it. */
  method TallyChecks(test: TestRun, t: Tally) returns (r: Result<(Tally, seq<Testcase>), Status>)
    ensures r.Ok? <==> forall k :: 0 <= k < |test.checkResults| ==> IsStatus(test.checkResults[k].status)
    ensures r.Ok? ==> r.value == (t.Plus(TallyOf(Statuses(test.checkResults))), CheckCases(test.name, test.checkResults))
    ensures r.Err? ==> !IsStatus(r.error) && exists k :: (0 <= k < |test.checkResults| &&
      test.checkResults[k].status == r.error)
  {
    var skipped, passed, failed, errored := t.skipped, t.passed, t.failed, t.errored;
    var testcases: seq<Testcase> := [];
    for j := 0 to |test.checkResults|
      invariant forall k :: 0 <= k < j ==> IsStatus(test.checkResults[k].status)
      invariant testcases == CheckCases(test.name, test.checkResults[..j])
      invariant Tally(skipped, passed, failed, errored) == t.Plus(TallyOf(Statuses(test.checkResults[..j])))
    {
      var cr := test.checkResults[j];
      ghost var before := Tally(skipped, passed, failed, errored);
      var kind;
      if cr.status == NotRun || cr.status == Skipped {
        kind := CaseSkipped;
        skipped := skipped + 1;
      } else if cr.status == Pass {
        kind := CasePassed;
        passed := passed + 1;
      } else if cr.status == Fail {
        kind := CaseFailed;
        failed := failed + 1;
      } else if cr.status == Error || cr.status == Bogus {
        kind := CaseErrored;
        errored := errored + 1;
      } else {
        assert !IsStatus(test.checkResults[j].status);
        return Err(cr.status);
      }
      testcases := testcases + [Testcase(cr.name, test.name, kind)];
      assert Tally(skipped, passed, failed, errored) == before.Plus(One(cr.status));
      CheckStep(test.name, test.checkResults, j);
      PlusAssoc(t, TallyOf(Statuses(test.checkResults[..j])), One(cr.status));
    }
    assert test.checkResults[..|test.checkResults|] == test.checkResults;
    r := Ok((Tally(skipped, passed, failed, errored), testcases));
  }

  /** Counting one more check result of a test. */
  lemma CheckStep(name: string, crs: seq<CheckResult>, j: nat)
    requires j < |crs| && forall k :: 0 <= k <= j ==> IsStatus(crs[k].status)
    ensures TallyOf(Statuses(crs[..j + 1])) == TallyOf(Statuses(crs[..j])).Plus(One(crs[j].status))
    ensures CheckCases(name, crs[..j + 1]) == CheckCases(name, crs[..j]) + [Testcase(crs[j].name, name, KindOf(crs[j].status))]
  {
    assert crs[..j + 1][..j] == crs[..j];
    var before := Statuses(crs[..j]);
    assert Statuses(crs[..j + 1]) == before + [crs[j].status];
    assert (before + [crs[j].status])[..|before|] == before;
  }

  /** The loop of Suite.JUnit4XML that unwinds every check of the main tests
      (not setup, not teardown) into its own testcase and tallies them. */
  method JUnitTally(s: SuiteRun) returns (r: Result<(JUnitCounts, seq<Testcase>), Status>)
    ensures r.Ok? <==> AllKnown(s.tests)
    ensures r.Ok? ==> r.value == (JUnitCountsOf(AllStatuses(s.tests)), Cases(s.tests))
    ensures r.Err? ==> !IsStatus(r.error) && exists i, k :: (0 <= i < |s.tests| &&
      0 <= k < |s.tests[i].checkResults| && s.tests[i].checkResults[k].status == r.error)
  {
    var t := Tally(0, 0, 0, 0);
    var testcases: seq<Testcase> := [];
    for i := 0 to |s.tests|
      invariant AllKnown(s.tests[..i])
      invariant testcases == Cases(s.tests[..i])
      invariant t == TallyOf(AllStatuses(s.tests[..i]))
    {
      var step := TallyChecks(s.tests[i], t);
      if step.Err? {
        return Err(step.error);
      }
      TallyStep(s.tests, i);
      TallyOfAppend(AllStatuses(s.tests[..i]), Statuses(s.tests[i].checkResults));
      t := step.value.0;
      testcases := testcases + step.value.1;
    }
    assert s.tests[..|s.tests|] == s.tests;
    r := Ok((JUnitCounts(t.skipped + t.passed + t.failed + t.errored, t.errored, t.failed, t.skipped), testcases));
  }

  /** Appending one test to the tests tallied so far. */
  lemma TallyStep(tests: seq<TestRun>, i: nat)
    requires i < |tests| && AllKnown(tests[..i])
    requires forall k :: 0 <= k < |tests[i].checkResults| ==> IsStatus(tests[i].checkResults[k].status)
    ensures AllKnown(tests[..i + 1])
    ensures AllStatuses(tests[..i + 1]) == AllStatuses(tests[..i]) + Statuses(tests[i].checkResults)
    ensures Cases(tests[..i + 1]) == Cases(tests[..i]) + CheckCases(tests[i].name, tests[i].checkResults)
  {
    assert tests[..i + 1][..i] == tests[..i];
  }

  /** The tests attribute of <testsuite> is the number of testcases written. */
  lemma JUnitTestsCounted(tests: seq<TestRun>)
    requires AllKnown(tests)
    ensures JUnitCountsOf(AllStatuses(tests)).tests == |Cases(tests)|
  {
    CasesLength(tests);
    AllStatusesKnown(tests);
    TallyTotal(AllStatuses(tests));
  }

  lemma {:induction false} CasesLength(tests: seq<TestRun>)
    requires AllKnown(tests)
    ensures |Cases(tests)| == |AllStatuses(tests)|
  {
    if tests != [] {
      var init := tests[..|tests| - 1];
      KnownPrefix(tests);
      CasesLength(init);
    }
  }

  lemma KnownPrefix(tests: seq<TestRun>)
    requires tests != [] && AllKnown(tests)
    ensures AllKnown(tests[..|tests| - 1])
  {
    var init := tests[..|tests| - 1];
    forall i, k | 0 <= i < |init| && 0 <= k < |init[i].checkResults|
      ensures IsStatus(init[i].checkResults[k].status)
    {
      assert init[i] == tests[i];
    }
  }

  /** The statuses of known check results are known. */
  lemma {:induction false} AllStatusesKnown(tests: seq<TestRun>)
    requires AllKnown(tests)
    ensures forall x :: x in AllStatuses(tests) ==> IsStatus(x)
  {
    if tests != [] {
      var init := tests[..|tests| - 1];
      KnownPrefix(tests);
      AllStatusesKnown(init);
      var last := tests[|tests| - 1].checkResults;
      forall x | x in Statuses(last)
        ensures IsStatus(x)
      {
        var k :| 0 <= k < |last| && Statuses(last)[k] == x;
        assert tests[|tests| - 1].checkResults[k].status == x;
      }
    }
  }

  /** Every known status is counted by exactly one counter. */
  lemma {:induction false} TallyTotal(st: seq<Status>)
    requires forall x :: x in st ==> IsStatus(x)
    ensures var t := TallyOf(st); t.skipped + t.passed + t.failed + t.errored == |st|
  {
    if st != [] {
      var init := st[..|st| - 1];
      assert st[|st| - 1] in st;
      assert forall x :: x in init ==> x in st;
      TallyTotal(init);
    }
  }

  // ------------------------------------------------------------------------
  // xmlEscapeChars

  /** What xmlEscapeChars writes for one character. */
  function EscapeChar(c: char): string {
    match c
    case '<' => "&lt;"
    case '>' => "&gt;"
    case '&' => "&amp;"
    case '"' => "&quot;"
    case '\'' => "&apos;"
    case '\t' => "&#x9;"
    case _ => [c]
  }

  predicate IsReserved(c: char) {
    c == '<' || c == '>' || c == '"' || c == '\'' || c == '\t'
  }

  /** The escaped text: no reserved character survives. */
  function Escaped(s: string): (r: string)
    ensures forall k :: 0 <= k < |r| ==> !IsReserved(r[k])
  {
    if s == [] then [] else EscapeChar(s[0]) + Escaped(s[1..])
  }

  /** xmlEscapeChars: writes each character's escape into a buffer. */
  method XmlEscapeChars(s: string) returns (out: string)
    ensures out == Escaped(s)
  {
    var buf := "";
    var i := 0;
    while i < |s|
      invariant 0 <= i <= |s|
      invariant buf == Escaped(s[..i])
    {
      EscapedAppend(s[..i], s[i]);
      assert s[..i + 1] == s[..i] + [s[i]];
      buf := buf + EscapeChar(s[i]);
      i := i + 1;
    }
    assert s[..i] == s;
    out := buf;
  }

  lemma {:induction false} EscapedAppend(s: string, c: char)
    ensures Escaped(s + [c]) == Escaped(s) + EscapeChar(c)
  {
    if s != [] {
      assert (s + [c])[1..] == s[1..] + [c];
      EscapedAppend(s[1..], c);
    }
  }

  /** The inverse of Escaped: replaces each of the six entities by its character. */
  function Unescaped(t: string): string
    decreases |t|
  {
    if t == [] then []
    else if t[0] != '&' then [t[0]] + Unescaped(t[1..])
    else if |t| >= 4 && t[1] == 'l' && t[2] == 't' && t[3] == ';' then "<" + Unescaped(t[4..])
    else if |t| >= 4 && t[1] == 'g' && t[2] == 't' && t[3] == ';' then ">" + Unescaped(t[4..])
    else if |t| >= 5 && t[1] == 'a' && t[2] == 'm' && t[3] == 'p' && t[4] == ';' then "&" + Unescaped(t[5..])
    else if |t| >= 6 && t[1] == 'q' && t[2] == 'u' && t[3] == 'o' && t[4] == 't' && t[5] == ';' then "\"" + Unescaped(t[6..])
    else if |t| >= 6 && t[1] == 'a' && t[2] == 'p' && t[3] == 'o' && t[4] == 's' && t[5] == ';' then "'" + Unescaped(t[6..])
    else if |t| >= 5 && t[1] == '#' && t[2] == 'x' && t[3] == '9' && t[4] == ';' then "\t" + Unescaped(t[5..])
    else [t[0]] + Unescaped(t[1..])
  }

  /** Unescaping the escape of one character gives back that character. */
  lemma UnescapeCons(c: char, rest: string)
    ensures Unescaped(EscapeChar(c) + rest) == [c] + Unescaped(rest)
  {
    var t := EscapeChar(c) + rest;
    if c == '<' {
      assert t == ['&', 'l', 't', ';'] + rest;
      assert t[4..] == rest;
    } else if c == '>' {
      assert t == ['&', 'g', 't', ';'] + rest;
      assert t[4..] == rest;
    } else if c == '&' {
      assert t == ['&', 'a', 'm', 'p', ';'] + rest;
      assert t[5..] == rest;
    } else if c == '"' {
      assert t == ['&', 'q', 'u', 'o', 't', ';'] + rest;
      assert t[6..] == rest;
    } else if c == '\'' {
      assert t == ['&', 'a', 'p', 'o', 's', ';'] + rest;
      assert t[6..] == rest;
    } else if c == '\t' {
      assert t == ['&', '#', 'x', '9', ';'] + rest;
      assert t[5..] == rest;
    } else {
      assert t == [c] + rest;
      assert t[1..] == rest;
    }
  }

  /** Escaping loses nothing: unescaping gives back the original text. */
  lemma {:induction false} UnescapeEscaped(s: string)
    ensures Unescaped(Escaped(s)) == s
  {
    if s != [] {
      UnescapeEscaped(s[1..]);
      UnescapeCons(s[0], Escaped(s[1..]));
      assert [s[0]] + s[1..] == s;
    }
  }
}
