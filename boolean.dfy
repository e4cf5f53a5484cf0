/** The boolean check combinators AnyOne and None (ht/boolean.go).

    A sub-check is seen only through what its Prepare or Execute call
    returns: `None` for success, `Some(e)` for the error e. A sequence of
    such outcomes, one per sub-check in declaration order, stands for the
    combinator's `Of` list. */
module Boolean {
  import opened Wrappers
  import Errors
  import Decimal

  type Outcome = Option<Errors.Error>

  /** The errors among the outcomes, in order, skipping the successes. */
  function NonNil(outcomes: seq<Outcome>): (r: seq<Errors.Error>)
    ensures |r| <= |outcomes|
    ensures r == [] <==> forall i :: 0 <= i < |outcomes| ==> outcomes[i].None?
    ensures forall e :: e in r ==> Some(e) in outcomes
  {
    if outcomes == [] then []
    else
      var init := outcomes[..|outcomes| - 1];
      var last := outcomes[|outcomes| - 1];
      assert forall i :: 0 <= i < |init| ==> init[i] == outcomes[i];
      NonNil(init) + (if last.Some? then [last.value] else [])
  }

  /** When every sub-check fails, no error is dropped and none is reordered. */
  lemma {:induction false} NonNilAllFailed(outcomes: seq<Outcome>)
    requires forall i :: 0 <= i < |outcomes| ==> outcomes[i].Some?
    ensures NonNil(outcomes) == Failures(outcomes)
  {
    if outcomes != [] {
      var n := |outcomes| - 1;
      var init := outcomes[..n];
      NonNilAllFailed(init);
      var f := Failures(init) + [outcomes[n].value];
      assert NonNil(outcomes) == f;
      forall i | 0 <= i <= n
        ensures f[i] == Failures(outcomes)[i]
      {
        if i < n {
          assert init[i] == outcomes[i];
        }
      }
    }
  }

  /** The errors of sub-checks that all failed, one per sub-check, in order. */
  function Failures(outcomes: seq<Outcome>): (r: seq<Errors.Error>)
    requires forall i :: 0 <= i < |outcomes| ==> outcomes[i].Some?
    ensures |r| == |outcomes|
    ensures forall i :: 0 <= i < |outcomes| ==> outcomes[i] == Some(r[i])
  {
    seq(|outcomes|, i requires 0 <= i < |outcomes| => outcomes[i].value)
  }

  /** The position of the first passing sub-check, if any. */
  function FirstPass(outcomes: seq<Outcome>): (r: Option<nat>)
    ensures r.None? <==> forall i :: 0 <= i < |outcomes| ==> outcomes[i].Some?
    ensures r.Some? ==> (r.value < |outcomes| && outcomes[r.value].None? &&
      forall j :: 0 <= j < r.value ==> outcomes[j].Some?)
  {
    if outcomes == [] then None
    else if outcomes[0].None? then Some(0)
    else
      match FirstPass(outcomes[1..])
      case None => None
      case Some(k) => Some(k + 1)
  }

  /** AnyOne.Prepare and None.Prepare (the same loop): every sub-check is
      prepared; the result is nil when none failed, else the list of exactly
      the errors returned, in order. */
  method Prepare(prepared: seq<Outcome>) returns (err: Outcome)
    ensures err.None? <==> forall i :: 0 <= i < |prepared| ==> prepared[i].None?
    ensures err.Some? ==> err.value == Errors.ErrorList(NonNil(prepared)) && NonNil(prepared) != []
  {
    var errs: seq<Errors.Error> := [];
    for i := 0 to |prepared|
      invariant errs == NonNil(prepared[..i])
    {
      assert prepared[..i + 1][..i] == prepared[..i];
      var e := prepared[i];
      if e.Some? {
        errs := errs + [e.value];
      }
    }
    assert prepared[..|prepared|] == prepared;
    if |errs| == 0 {
      return None;
    }
    return Some(Errors.ErrorList(errs));
  }

  /** AnyOne.Execute: sub-checks are executed in order until one passes,
      which makes the whole check pass; `ran` is how many were executed.
      If all fail, the error is the list of all their errors, so an empty
      `Of` fails with an empty list. */
  method AnyOneExecute(executed: seq<Outcome>) returns (err: Outcome, ran: nat)
    ensures err.None? <==> FirstPass(executed).Some?
    ensures err.None? ==> ran == FirstPass(executed).value + 1
    ensures err.Some? ==> ran == |executed| && err.value == Errors.ErrorList(Failures(executed))
  {
    var errs: seq<Errors.Error> := [];
    ran := 0;
    for i := 0 to |executed|
      invariant ran == i
      invariant forall j :: 0 <= j < i ==> executed[j].Some?
      invariant errs == Failures(executed[..i])
    {
      var e := executed[i];
      ran := ran + 1;
      if e.None? {
        return None, ran;
      }
      errs := errs + [e.value];
    }
    assert executed[..|executed|] == executed;
    return Some(Errors.ErrorList(errs)), ran;
  }

  /** None.Execute: sub-checks are executed in order until one passes,
      which makes the whole check fail naming that check by its 1-based
      position; when all fail (also when there are none) it passes. */
  method NoneExecute(executed: seq<Outcome>) returns (err: Outcome, ran: nat)
    ensures err.None? <==> FirstPass(executed).None?
    ensures err.None? ==> ran == |executed|
    ensures err.Some? ==> (ran == FirstPass(executed).value + 1 &&
      err.value == Errors.Message("check " + Decimal.Itoa(ran) + " passed"))
  {
    ran := 0;
    for i := 0 to |executed|
      invariant ran == i
      invariant forall j :: 0 <= j < i ==> executed[j].Some?
    {
      var e := executed[i];
      ran := ran + 1;
      if e.None? {
        return Some(Errors.Message("check " + Decimal.Itoa(i + 1) + " passed")), ran;
      }
    }
    err := None;
  }
}
