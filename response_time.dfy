/** The ResponseTime check (ht/time.go): bounds on the duration of the
    response, all in int64 nanoseconds. `Lower` is the largest allowed
    duration and `Higher` the smallest required one; zero disables a bound. */
module ResponseTime {
  import opened Wrappers
  import Errors
  import Decimal

  datatype Check = Check(lower: int, higher: int)

  /** Both bounds are set and no duration can satisfy them. */
  predicate Unsatisfiable(c: Check) {
    c.higher != 0 && c.lower != 0 && c.higher >= c.lower
  }

  /** The durations the check accepts, stated as a range rather than as the
      chain of early returns: at most Lower when Lower > 0, at least Higher
      when Higher > 0. */
  predicate Accepts(c: Check, actual: int) {
    (c.lower <= 0 || actual <= c.lower) && (c.higher <= 0 || c.higher <= actual)
  }

  /** ResponseTime.Execute. */
  function Execute(c: Check, actual: int): (r: Option<Errors.Error>)
    ensures Unsatisfiable(c) ==> r == Some(Errors.MalformedCheck(Errors.Message(
      Decimal.Itoa(c.higher) + "<RT<" + Decimal.Itoa(c.lower) + " unfullfillable")))
    ensures !Unsatisfiable(c) ==> (r.None? <==> Accepts(c, actual))
    ensures !Unsatisfiable(c) && c.lower > 0 && actual > c.lower ==>
      r == Some(Errors.SlowResponse(actual, c.lower))
    ensures r == Some(Errors.FastResponse(actual, c.higher)) ==>
      !Unsatisfiable(c) && (c.lower <= 0 || actual <= c.lower) && c.higher > actual
  {
    if c.higher != 0 && c.lower != 0 && c.higher >= c.lower then
      Some(Errors.MalformedCheck(Errors.Message(
        Decimal.Itoa(c.higher) + "<RT<" + Decimal.Itoa(c.lower) + " unfullfillable")))
    else if c.lower > 0 && c.lower < actual then
      Some(Errors.SlowResponse(actual, c.lower))
    else if c.higher > 0 && c.higher > actual then
      Some(Errors.FastResponse(actual, c.higher))
    else None
  }

  /** ResponseTime.Prepare: always nil, so an unsatisfiable range is only
      reported by Execute. */
  function Prepare(c: Check): (r: Option<Errors.Error>)
    ensures r.None?
  {
    None
  }

  /** A satisfiable check accepts exactly a closed interval: with both bounds
      set, the durations from Higher to Lower inclusive, which is not empty. */
  lemma AcceptedInterval(c: Check, a1: int, a2: int, a: int)
    requires !Unsatisfiable(c) && a1 <= a <= a2
    requires Execute(c, a1).None? && Execute(c, a2).None?
    ensures Execute(c, a).None?
    ensures c.lower > 0 && c.higher > 0 ==> Execute(c, c.higher).None? && Execute(c, c.lower).None?
  {
  }

  /** The zero check accepts every duration. */
  lemma ZeroCheckPasses(actual: int)
    ensures Execute(Check(0, 0), actual).None?
  {
  }
}
