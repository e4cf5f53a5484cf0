/** Variable machinery of ht/variables.go: repetition of a test over lists
    of values, the least common multiple of the list lengths, substitution
    of variables into a test, the NOW variables' offsets, merging of
    variable sets and the construction of a replacer. */
module Variables {
  import opened Wrappers
  import Errors
  import Decimal
  import Text
  import Int64
  import opened Tests
  import Arith
  import Sets

  // ------------------------------------------------------------------------
  // lcm and lcmOf

  /** c is a positive multiple of both m and n. */
  predicate IsCommonMultiple(c: int, m: int, n: int)
    requires m > 0 && n > 0
  {
    c > 0 && c % m == 0 && c % n == 0
  }

  /** x is at most every common multiple of m and n. */
  ghost predicate BelowCommon(x: int, m: int, n: int)
    requires m > 0 && n > 0
  {
    forall c :: IsCommonMultiple(c, m, n) ==> x <= c
  }

  /** One step of lcm: a multiple a of m that lies below the other running
      multiple b may advance by m without passing any common multiple. */
  lemma StepUp(a: int, b: int, m: int, n: int)
    requires m > 0 && n > 0 && a > 0 && a % m == 0 && a < b
    requires BelowCommon(b, m, n) || BelowCommon(b, n, m)
    ensures BelowCommon(a + m, m, n) && BelowCommon(a + m, n, m)
    ensures (a + m) % m == 0
  {
    forall c | IsCommonMultiple(c, m, n)
      ensures a + m <= c
    {
      assert IsCommonMultiple(c, n, m);
      Arith.NextMultiple(a, c, m);
    }
    forall c | IsCommonMultiple(c, n, m)
      ensures a + m <= c
    {
      assert IsCommonMultiple(c, m, n);
    }
    Arith.AddMod(a, m);
  }

  /** Where lcm starts: m * n is a common multiple, and no common multiple
      lies below m or n. */
  lemma LcmStart(m: int, n: int)
    requires m > 0 && n > 0
    ensures IsCommonMultiple(m * n, m, n) && LcmRunning(m, n, m, n, m * n)
  {
    assert m % m == 0 && n % n == 0;
    Arith.MulMod(m, n);
    Arith.MulMod(n, m);
    Arith.MulAtLeast(m, n);
    Arith.MulAtLeast(n, m);
    forall c | IsCommonMultiple(c, m, n)
      ensures m <= c && n <= c
    {
      Arith.MultipleAtLeast(c, m);
      Arith.MultipleAtLeast(c, n);
    }
  }

  /** The state of lcm's loop: a running multiple of m and one of n, both
      at most every common multiple and at most m * n. */
  ghost predicate LcmRunning(a: int, b: int, m: int, n: int, mn: int)
    requires m > 0 && n > 0
  {
    && 0 < a && 0 < b && a % m == 0 && b % n == 0
    && BelowCommon(a, m, n) && BelowCommon(b, m, n)
    && a <= mn && b <= mn
  }

  /** Advancing the smaller running multiple keeps the loop's state. */
  lemma LcmStep(a: int, b: int, m: int, n: int, mn: int)
    requires m > 0 && n > 0 && IsCommonMultiple(mn, m, n)
    requires LcmRunning(a, b, m, n, mn) && a != b
    ensures a < b ==> LcmRunning(a + m, b, m, n, mn)
    ensures b < a ==> LcmRunning(a, b + n, m, n, mn)
  {
    if a < b {
      StepUp(a, b, m, n);
      Arith.NextMultiple(a, mn, m);
    } else {
      StepUp(b, a, n, m);
      Arith.NextMultiple(b, mn, n);
    }
  }

  /** lcm: steps the smaller of two running multiples up until they meet.
      The loop runs forever when one argument is 0 and the other is not, or
      either is negative and they differ; those inputs are excluded. */
  method Lcm(m: int, n: int) returns (r: int)
    requires m == n || (m > 0 && n > 0)
    ensures m > 0 && n > 0 ==> IsCommonMultiple(r, m, n) && r <= m * n
    ensures m > 0 && n > 0 ==> forall c :: IsCommonMultiple(c, m, n) ==> r <= c
    ensures m == n ==> r == m
  {
    if m == n {
      if m > 0 {
        LcmStart(m, n);
      }
      return m;
    }
    var a, b := m, n;
    ghost var mn := m * n;
    LcmStart(m, n);
    while a != b
      invariant LcmRunning(a, b, m, n, mn)
      decreases 2 * mn - a - b
    {
      LcmStep(a, b, m, n, mn);
      if a < b {
        a := a + m;
      } else {
        b := b + n;
      }
    }
    return a;
  }

  /** c is a positive multiple of every number in lens. */
  ghost predicate IsCommonMultipleOf(c: int, lens: set<int>) {
    c > 0 && forall l :: l in lens ==> l > 0 && c % l == 0
  }

  /** x is at most every common multiple of the numbers in lens. */
  ghost predicate BelowCommonOf(x: int, lens: set<int>) {
    forall c :: IsCommonMultipleOf(c, lens) ==> x <= c
  }

  /** A single positive number is its own least common multiple. */
  lemma FirstLength(before: set<int>, len: int)
    requires len > 0 && before == {}
    ensures IsCommonMultipleOf(len, before + {len}) && BelowCommonOf(len, before + {len})
  {
    assert before + {len} == {len};
    forall c | IsCommonMultipleOf(c, {len})
      ensures len <= c
    {
      assert len in {len};
      Arith.MultipleAtLeast(c, len);
    }
  }

  /** The lengths of the lists of the given variables. */
  function Lengths(vars: map<string, seq<string>>, keys: set<string>): set<int>
    requires keys <= vars.Keys
  {
    set k | k in keys :: |vars[k]|
  }

  /** Every positive common multiple of a set of positive numbers is a
      multiple of the least one. */
  lemma LeastDividesCommon(lens: set<int>, l: int, c: int)
    requires IsCommonMultipleOf(l, lens) && IsCommonMultipleOf(c, lens)
    requires BelowCommonOf(l, lens)
    ensures c % l == 0
  {
    var r := c % l;
    forall x | x in lens
      ensures r % x == 0
    {
      Arith.ModOfMultiples(c, l, x);
    }
    if r > 0 {
      assert IsCommonMultipleOf(r, lens);
      assert false;
    }
  }

  lemma LengthsAdd(vars: map<string, seq<string>>, keys: set<string>, k: string)
    requires keys <= vars.Keys && k in vars
    ensures Lengths(vars, keys + {k}) == Lengths(vars, keys) + {|vars[k]|}
  {
  }

  /** Folding one more length into a least common multiple with lcm gives
      the least common multiple of the larger set. */
  lemma LcmOfStep(before: set<int>, len: int, n: int, l: int)
    requires len > 0 && IsCommonMultipleOf(n, before)
    requires BelowCommonOf(n, before)
    requires IsCommonMultiple(l, n, len) && BelowCommon(l, n, len)
    ensures IsCommonMultipleOf(l, before + {len})
    ensures BelowCommonOf(l, before + {len})
  {
    forall c | IsCommonMultipleOf(c, before + {len})
      ensures l <= c
    {
      assert IsCommonMultipleOf(c, before);
      LeastDividesCommon(before, n, c);
      assert IsCommonMultiple(c, n, len);
    }
    forall x | x in before + {len}
      ensures l % x == 0
    {
      if x != len {
        Arith.ModTransitive(l, n, x);
      }
    }
  }

  /** lcmOf: folds lcm over the lengths of all lists, in map order. Empty
      lists are excluded: lcm(n, 0) loops forever, so one met after a
      non-empty list, depending on map order, would hang. */
  method LcmOf(vars: map<string, seq<string>>) returns (n: int)
    requires forall k :: k in vars ==> |vars[k]| > 0
    ensures vars == map[] <==> n == 0
    ensures vars != map[] ==> IsCommonMultipleOf(n, Lengths(vars, vars.Keys))
    ensures BelowCommonOf(n, Lengths(vars, vars.Keys))
  {
    n := 0;
    var todo := vars.Keys;
    ghost var done: set<string> := {};
    while todo != {}
      invariant todo !! done && todo + done == vars.Keys
      invariant done == {} <==> n == 0
      invariant done != {} ==> IsCommonMultipleOf(n, Lengths(vars, done))
      invariant BelowCommonOf(n, Lengths(vars, done))
      decreases |todo|
    {
      var k :| k in todo;
      var v := vars[k];
      LengthsAdd(vars, done, k);
      if n == 0 {
        assert done == {};
        assert Lengths(vars, done) == {};
        FirstLength(Lengths(vars, done), |v|);
        n := |v|;
      } else {
        var l := Lcm(n, |v|);
        LcmOfStep(Lengths(vars, done), |v|, n, l);
        n := l;
      }
      Sets.MoveKey(todo, done, vars.Keys, k);
      todo := todo - {k};
      done := done + {k};
    }
    assert done == vars.Keys;
  }

  /** A variable set with a single list has that list's length as its
      least common multiple. */
  lemma LcmOfSingle(n: int, len: int)
    requires len > 0 && IsCommonMultipleOf(n, {len}) && BelowCommonOf(n, {len})
    ensures n == len
  {
    assert len in {len};
    Arith.MultipleAtLeast(n, len);
    assert IsCommonMultipleOf(len, {len});
  }

  // ------------------------------------------------------------------------
  // newReplacer

  /** A key "#N" asks for an integer substitution N -> value. */
  predicate IsIntKey(k: string) {
    Text.HasPrefix(k, "#")
  }

  /** What newReplacer builds: `str` maps a variable name k to its value,
      standing for the string pair "{{k}}" -> value handed to
      strings.NewReplacer; `fn` maps integers to integers. */
  datatype Replacer = Replacer(str: map<string, string>, fn: map<int, int>)

  /** The first parse failure of an integer substitution "#N" -> v, if any:
      the key's digits are parsed before the value. */
  function IntPairError(k: string, v: string): (e: Option<Errors.Error>)
    requires IsIntKey(k)
    ensures e.None? <==> Decimal.ParseInt(k[1..], "ParseInt").Ok? && Decimal.ParseInt(v, "ParseInt").Ok?
  {
    if Decimal.ParseInt(k[1..], "ParseInt").Err? then Some(Decimal.ParseInt(k[1..], "ParseInt").error)
    else if Decimal.ParseInt(v, "ParseInt").Err? then Some(Decimal.ParseInt(v, "ParseInt").error)
    else None
  }

  /** Every integer substitution among the given keys parses. */
  predicate IntPairsParse(vars: map<string, string>, keys: set<string>)
    requires keys <= vars.Keys
  {
    forall k :: k in keys && IsIntKey(k) ==> IntPairError(k, vars[k]).None?
  }

  /** The string substitutions among the given keys. */
  function StringVars(vars: map<string, string>, keys: set<string>): map<string, string>
    requires keys <= vars.Keys
  {
    map k | k in keys && !IsIntKey(k) :: vars[k]
  }

  /** The integer that key "#N" stands for. */
  function IntKey(k: string): int
    requires IsIntKey(k) && Decimal.ParseInt(k[1..], "ParseInt").Ok?
  {
    Decimal.ParseInt(k[1..], "ParseInt").value
  }

  /** fn holds exactly the integer substitutions among the given keys; where
      two keys name the same integer ("#7", "#07") the value of one of them
      is kept. */
  ghost predicate IntPairsOf(fn: map<int, int>, vars: map<string, string>, keys: set<string>)
    requires keys <= vars.Keys && IntPairsParse(vars, keys)
  {
    (forall k :: k in keys && IsIntKey(k) ==> IntKey(k) in fn) &&
    (forall o :: o in fn ==>
      exists k :: (k in keys && IsIntKey(k) && IntKey(k) == o &&
                   fn[o] == Decimal.ParseInt(vars[k], "ParseInt").value))
  }

  /** newReplacer: splits the variables into integer substitutions "#N" and
      string substitutions; the first integer substitution (in map order)
      that does not parse aborts with the parse error. */
  method NewReplacer(vars: map<string, string>) returns (r: Result<Replacer, Errors.Error>)
    ensures r.Ok? <==> IntPairsParse(vars, vars.Keys)
    ensures r.Ok? ==> r.value.str == StringVars(vars, vars.Keys)
    ensures r.Ok? ==> IntPairsOf(r.value.fn, vars, vars.Keys)
    ensures r.Err? ==> exists k :: k in vars && IsIntKey(k) && IntPairError(k, vars[k]) == Some(r.error)
  {
    var str: map<string, string> := map[];
    var fn: map<int, int> := map[];
    var todo := vars.Keys;
    ghost var done: set<string> := {};
    while todo != {}
      invariant todo !! done && todo + done == vars.Keys
      invariant ReplacerOn(str, fn, vars, done)
      decreases |todo|
    {
      var k :| k in todo;
      var v := vars[k];
      if Text.HasPrefix(k, "#") {
        var o := Decimal.ParseInt(k[1..], "ParseInt");
        if o.Err? {
          assert IntPairError(k, v) == Some(o.error);
          return Err(o.error);
        }
        var n := Decimal.ParseInt(v, "ParseInt");
        if n.Err? {
          assert IntPairError(k, v) == Some(n.error);
          return Err(n.error);
        }
        ReplacerIntStep(str, fn, vars, done, k);
        fn := fn[o.value := n.value];
      } else {
        ReplacerStrStep(str, fn, vars, done, k);
        str := str[k := v];
      }
      Sets.MoveKey(todo, done, vars.Keys, k);
      todo := todo - {k};
      done := done + {k};
    }
    assert done == vars.Keys;
    return Ok(Replacer(str, fn));
  }

  /** str and fn are what newReplacer has built from the keys done. */
  ghost predicate ReplacerOn(str: map<string, string>, fn: map<int, int>, vars: map<string, string>,
                             done: set<string>)
  {
    && done <= vars.Keys
    && IntPairsParse(vars, done) && str == StringVars(vars, done) && IntPairsOf(fn, vars, done)
  }

  /** Handling a string key k adds its pair to str. */
  lemma ReplacerStrStep(str: map<string, string>, fn: map<int, int>, vars: map<string, string>,
                        done: set<string>, k: string)
    requires ReplacerOn(str, fn, vars, done) && k in vars && k !in done && !IsIntKey(k)
    ensures ReplacerOn(str[k := vars[k]], fn, vars, done + {k})
  {
    forall o | o in fn
      ensures exists k' :: (k' in done + {k} && IsIntKey(k') && IntKey(k') == o &&
                            fn[o] == Decimal.ParseInt(vars[k'], "ParseInt").value)
    {
      var k' :| k' in done && IsIntKey(k') && IntKey(k') == o &&
        fn[o] == Decimal.ParseInt(vars[k'], "ParseInt").value;
      assert k' in done + {k};
    }
  }

  /** Handling an integer key k whose pair parses adds that pair to fn. */
  lemma ReplacerIntStep(str: map<string, string>, fn: map<int, int>, vars: map<string, string>,
                        done: set<string>, k: string)
    requires ReplacerOn(str, fn, vars, done) && k in vars && k !in done && IsIntKey(k)
    requires IntPairError(k, vars[k]).None?
    ensures ReplacerOn(str, fn[IntKey(k) := Decimal.ParseInt(vars[k], "ParseInt").value], vars, done + {k})
  {
    var fn' := fn[IntKey(k) := Decimal.ParseInt(vars[k], "ParseInt").value];
    forall o | o in fn'
      ensures exists k' :: (k' in done + {k} && IsIntKey(k') && IntKey(k') == o &&
                            fn'[o] == Decimal.ParseInt(vars[k'], "ParseInt").value)
    {
      if o == IntKey(k) {
        assert k in done + {k};
      } else {
        var k' :| k' in done && IsIntKey(k') && IntKey(k') == o &&
          fn[o] == Decimal.ParseInt(vars[k'], "ParseInt").value;
        assert k' in done + {k};
      }
    }
    assert StringVars(vars, done + {k}) == str;
  }

  // ------------------------------------------------------------------------
  // substituteVariables

  /** The replacement of one string: strings.Replacer.Replace with the pairs
      "{{k}}" -> str[k]. The replacer's algorithm belongs to the Go library and
      is a parameter of the model. */
  type ReplaceFn = (map<string, string>, string) -> string

  /** SubstituteVariables on one check, which walks the check by reflection;
      a parameter of the model. */
  type CheckFn = (Replacer, Check) -> Check

  /** Every string of a list replaced, in place order. */
  function ReplacedList(replace: ReplaceFn, str: map<string, string>, vals: seq<string>): (r: seq<string>)
    ensures |r| == |vals|
  {
    if vals == [] then []
    else ReplacedList(replace, str, vals[..|vals| - 1]) + [replace(str, vals[|vals| - 1])]
  }

  /** Every value list of a parameter or header map replaced; the keys stay. */
  function ReplacedValues(replace: ReplaceFn, str: map<string, string>, m: map<string, seq<string>>)
    : map<string, seq<string>>
  {
    map k | k in m :: ReplacedList(replace, str, m[k])
  }

  /** Every cookie value replaced; the names stay. */
  function ReplacedCookies(replace: ReplaceFn, str: map<string, string>, cs: seq<Cookie>): (r: seq<Cookie>)
    ensures |r| == |cs|
    ensures forall i :: 0 <= i < |cs| ==> r[i].name == cs[i].name
  {
    if cs == [] then []
    else
      var c := cs[|cs| - 1];
      ReplacedCookies(replace, str, cs[..|cs| - 1]) + [Cookie(c.name, replace(str, c.value))]
  }

  /** The request with the replacer applied to method, URL, parameter
      encoding, body, parameters, header and cookie values. It keeps its
      shape: the redirect flag, the parameter and header keys, the number of
      values per key, and the cookie names. */
  function ReplacedRequest(replace: ReplaceFn, str: map<string, string>, q: Request): (r: Request)
    ensures r.followRedirects == q.followRedirects
    ensures r.params.Keys == q.params.Keys && r.header.Keys == q.header.Keys
    ensures forall k :: k in q.params ==> |r.params[k]| == |q.params[k]|
    ensures forall k :: k in q.header ==> |r.header[k]| == |q.header[k]|
    ensures |r.cookies| == |q.cookies|
    ensures forall i :: 0 <= i < |q.cookies| ==> r.cookies[i].name == q.cookies[i].name
  {
    Request(replace(str, q.verb), replace(str, q.url), replace(str, q.paramsAs), replace(str, q.body),
            q.followRedirects, ReplacedValues(replace, str, q.params),
            ReplacedValues(replace, str, q.header), ReplacedCookies(replace, str, q.cookies))
  }

  /** The replaced request of the identity replacement is the request. */
  lemma ReplacedRequestIdentity(replace: ReplaceFn, str: map<string, string>, q: Request)
    requires forall s :: replace(str, s) == s
    ensures ReplacedRequest(replace, str, q) == q
  {
    ReplacedCookiesIdentity(replace, str, q.cookies);
    forall k | k in q.params
      ensures ReplacedList(replace, str, q.params[k]) == q.params[k]
    {
      ReplacedListIdentity(replace, str, q.params[k]);
    }
    forall k | k in q.header
      ensures ReplacedList(replace, str, q.header[k]) == q.header[k]
    {
      ReplacedListIdentity(replace, str, q.header[k]);
    }
  }

  lemma {:induction false} ReplacedListIdentity(replace: ReplaceFn, str: map<string, string>, vals: seq<string>)
    requires forall s :: replace(str, s) == s
    ensures ReplacedList(replace, str, vals) == vals
  {
    if vals != [] {
      ReplacedListIdentity(replace, str, vals[..|vals| - 1]);
      assert vals[..|vals| - 1] + [vals[|vals| - 1]] == vals;
    }
  }

  lemma {:induction false} ReplacedCookiesIdentity(replace: ReplaceFn, str: map<string, string>, cs: seq<Cookie>)
    requires forall s :: replace(str, s) == s
    ensures ReplacedCookies(replace, str, cs) == cs
  {
    if cs != [] {
      ReplacedCookiesIdentity(replace, str, cs[..|cs| - 1]);
      assert cs[..|cs| - 1] + [cs[|cs| - 1]] == cs;
    }
  }

  lemma {:induction false} SubstitutedChecksIdentity(substCheck: CheckFn, repl: Replacer, checks: seq<Check>)
    requires forall i :: 0 <= i < |checks| ==> substCheck(repl, checks[i]) == checks[i]
    ensures SubstitutedChecks(substCheck, repl, checks) == checks
  {
    if checks != [] {
      SubstitutedChecksIdentity(substCheck, repl, checks[..|checks| - 1]);
      assert checks[..|checks| - 1] + [checks[|checks| - 1]] == checks;
    }
  }

  /** Every check with the replacer applied. */
  function SubstitutedChecks(substCheck: CheckFn, repl: Replacer, checks: seq<Check>): (r: seq<Check>)
    ensures |r| == |checks|
  {
    if checks == [] then []
    else SubstitutedChecks(substCheck, repl, checks[..|checks| - 1]) + [substCheck(repl, checks[|checks| - 1])]
  }

  /** The test t with the replacer applied to its name, description,
      request and checks; the other fields as they are. */
  function Substituted(t: TestValue, repl: Replacer, replace: ReplaceFn, substCheck: CheckFn): (c: TestValue)
    ensures c.poll == t.poll && c.timeout == t.timeout && c.verbosity == t.verbosity
    ensures c.preSleep == t.preSleep && c.interSleep == t.interSleep && c.postSleep == t.postSleep
    ensures c.clientPool == t.clientPool && c.varEx == t.varEx && c.criticality == t.criticality
    ensures |c.checks| == |t.checks|
  {
    TestValue(replace(repl.str, t.name), replace(repl.str, t.description),
              ReplacedRequest(replace, repl.str, t.request), t.poll, t.timeout, t.verbosity,
              t.preSleep, t.interSleep, t.postSleep, t.clientPool, t.varEx, t.criticality,
              SubstitutedChecks(substCheck, repl, t.checks))
  }

  /** With a replacement that changes nothing and checks that come out as
      they went in, substitution gives back the test. */
  lemma SubstitutedIdentity(t: TestValue, repl: Replacer, replace: ReplaceFn, substCheck: CheckFn)
    requires forall s :: replace(repl.str, s) == s
    requires forall i :: 0 <= i < |t.checks| ==> substCheck(repl, t.checks[i]) == t.checks[i]
    ensures Substituted(t, repl, replace, substCheck) == t
  {
    ReplacedRequestIdentity(replace, repl.str, t.request);
    SubstitutedChecksIdentity(substCheck, repl, t.checks);
  }

  /** One value list with the replacer applied, element by element. */
  method ReplaceList(replace: ReplaceFn, str: map<string, string>, vals: seq<string>) returns (rv: seq<string>)
    ensures rv == ReplacedList(replace, str, vals)
  {
    rv := [];
    for i := 0 to |vals|
      invariant rv == ReplacedList(replace, str, vals[..i])
    {
      assert vals[..i + 1][..i] == vals[..i];
      rv := rv + [replace(str, vals[i])];
    }
    assert vals[..|vals|] == vals;
  }

  /** A parameter or header map with the replacer applied to every value,
      built into a fresh map key by key. */
  method ReplaceValues(replace: ReplaceFn, str: map<string, string>, m: map<string, seq<string>>)
    returns (r: map<string, seq<string>>)
    ensures r == ReplacedValues(replace, str, m)
  {
    r := ReplaceEach(replace, str, m);
    ReplacedValuesExt(replace, str, m, r);
  }

  /** The loop of ReplaceValues, with its result stated key by key. */
  method ReplaceEach(replace: ReplaceFn, str: map<string, string>, m: map<string, seq<string>>)
    returns (r: map<string, seq<string>>)
    ensures ReplacedOn(replace, str, m, r, m.Keys)
  {
    r := map[];
    var todo := m.Keys;
    ghost var done: set<string> := {};
    while todo != {}
      invariant todo !! done && todo + done == m.Keys
      invariant ReplacedOn(replace, str, m, r, done)
      decreases |todo|
    {
      var k :| k in todo;
      var rv := ReplaceList(replace, str, m[k]);
      ReplacedOnStep(replace, str, m, r, done, k, rv);
      r := r[k := rv];
      Sets.MoveKey(todo, done, m.Keys, k);
      todo := todo - {k};
      done := done + {k};
    }
  }

  /** r holds the replaced value lists of exactly the keys done of m. */
  predicate ReplacedOn(replace: ReplaceFn, str: map<string, string>, m: map<string, seq<string>>,
                       r: map<string, seq<string>>, done: set<string>)
  {
    && r.Keys == done && done <= m.Keys
    && forall k :: k in r ==> r[k] == ReplacedList(replace, str, m[k])
  }

  lemma ReplacedOnStep(replace: ReplaceFn, str: map<string, string>, m: map<string, seq<string>>,
                       r: map<string, seq<string>>, done: set<string>, k: string, rv: seq<string>)
    requires ReplacedOn(replace, str, m, r, done) && k in m && k !in done
    requires rv == ReplacedList(replace, str, m[k])
    ensures ReplacedOn(replace, str, m, r[k := rv], done + {k})
  {
  }

  lemma ReplacedValuesExt(replace: ReplaceFn, str: map<string, string>, m: map<string, seq<string>>,
                          r: map<string, seq<string>>)
    requires ReplacedOn(replace, str, m, r, m.Keys)
    ensures r == ReplacedValues(replace, str, m)
  {
  }

  /** The cookies with the replacer applied to their values, one by one. */
  method ReplaceCookies(replace: ReplaceFn, str: map<string, string>, cs: seq<Cookie>)
    returns (cookies: seq<Cookie>)
    ensures cookies == ReplacedCookies(replace, str, cs)
  {
    cookies := [];
    for i := 0 to |cs|
      invariant cookies == ReplacedCookies(replace, str, cs[..i])
    {
      assert cs[..i + 1][..i] == cs[..i];
      cookies := cookies + [Cookie(cs[i].name, replace(str, cs[i].value))];
    }
    assert cs[..|cs|] == cs;
  }

  /** The checks with the replacer applied to each, one by one. */
  method SubstituteChecks(substCheck: CheckFn, repl: Replacer, cs: seq<Check>) returns (checks: seq<Check>)
    ensures checks == SubstitutedChecks(substCheck, repl, cs)
  {
    checks := [];
    for i := 0 to |cs|
      invariant checks == SubstitutedChecks(substCheck, repl, cs[..i])
    {
      assert cs[..i + 1][..i] == cs[..i];
      checks := checks + [substCheck(repl, cs[i])];
    }
    assert cs[..|cs|] == cs;
  }

  /** substituteVariables: a fresh copy of t with the replacer applied to the
      name, the description, the request's strings, parameters, header and
      cookie values, and every check; the other fields are copied and t is
      left as it is. */
  method SubstituteVariables(t: Test, repl: Replacer, replace: ReplaceFn, substCheck: CheckFn)
    returns (c: Test)
    ensures fresh(c)
    ensures c.Value() == Substituted(t.Value(), repl, replace, substCheck)
  {
    var q := t.request;
    var params := ReplaceValues(replace, repl.str, q.params);
    var header := ReplaceValues(replace, repl.str, q.header);
    var cookies := ReplaceCookies(replace, repl.str, q.cookies);
    var checks := SubstituteChecks(substCheck, repl, t.checks);
    var request := Request(replace(repl.str, q.verb), replace(repl.str, q.url),
                           replace(repl.str, q.paramsAs), replace(repl.str, q.body),
                           q.followRedirects, params, header, cookies);
    c := new Test(replace(repl.str, t.name), replace(repl.str, t.description), request, t.poll,
                  t.timeout, t.verbosity, t.preSleep, t.interSleep, t.postSleep,
                  t.clientPool, t.varEx, t.criticality, checks);
  }

  // ------------------------------------------------------------------------
  // Repeat

  /** The values of repetition r: variable k takes the (r mod N)th of its N
      values. */
  function Binding(vars: map<string, seq<string>>, r: nat): (b: map<string, string>)
    requires forall k :: k in vars ==> |vars[k]| > 0
    ensures b.Keys == vars.Keys
  {
    map k | k in vars :: vars[k][r % |vars[k]|]
  }

  /** Repetitions a common multiple of all list lengths apart bind the same
      values, so lcmOf repetitions visit every combination the cycle
      produces. */
  lemma BindingPeriodic(vars: map<string, seq<string>>, r: nat, l: int)
    requires forall k :: k in vars ==> |vars[k]| > 0
    requires IsCommonMultipleOf(l, Lengths(vars, vars.Keys))
    ensures Binding(vars, r + l) == Binding(vars, r)
  {
    forall k | k in vars
      ensures vars[k][(r + l) % |vars[k]|] == vars[k][r % |vars[k]|]
    {
      assert |vars[k]| in Lengths(vars, vars.Keys);
      Arith.AddMultipleMod(r, l, |vars[k]|);
    }
  }

  /** The current values of repetition r, built key by key. */
  method Bind(vars: map<string, seq<string>>, r: nat) returns (cur: map<string, string>)
    requires forall k :: k in vars ==> |vars[k]| > 0
    ensures cur == Binding(vars, r)
  {
    cur := map[];
    var todo := vars.Keys;
    ghost var done: set<string> := {};
    while todo != {}
      invariant todo !! done && todo + done == vars.Keys
      invariant BoundOn(cur, vars, r, done)
      decreases |todo|
    {
      var k :| k in todo;
      var v := vars[k];
      BindStep(cur, vars, r, done, k);
      cur := cur[k := v[r % |v|]];
      Sets.MoveKey(todo, done, vars.Keys, k);
      todo := todo - {k};
      done := done + {k};
    }
    assert done == vars.Keys;
  }

  /** cur binds the keys done to their r-th values. */
  predicate BoundOn(cur: map<string, string>, vars: map<string, seq<string>>, r: nat, done: set<string>)
    requires forall k :: k in vars ==> |vars[k]| > 0
  {
    done <= vars.Keys && cur == map k | k in done :: vars[k][r % |vars[k]|]
  }

  lemma BindStep(cur: map<string, string>, vars: map<string, seq<string>>, r: nat, done: set<string>, k: string)
    requires forall k :: k in vars ==> |vars[k]| > 0
    requires BoundOn(cur, vars, r, done) && k in vars && k !in done
    ensures BoundOn(cur[k := vars[k][r % |vars[k]|]], vars, r, done + {k})
  {
  }

  /** pairs lists the variables keys of cur with their values, each once. */
  predicate IsListingOf(pairs: seq<(string, string)>, cur: map<string, string>, keys: set<string>) {
    && |pairs| == |keys|
    && (forall i :: 0 <= i < |pairs| ==> pairs[i].0 in keys && pairs[i].0 in cur && pairs[i].1 == cur[pairs[i].0])
    && (forall i, j :: 0 <= i < j < |pairs| ==> pairs[i].0 != pairs[j].0)
  }

  /** pairs lists every variable of cur with its value, each once. */
  predicate IsListing(pairs: seq<(string, string)>, cur: map<string, string>) {
    IsListingOf(pairs, cur, cur.Keys)
  }

  /** The lines "\nVar k=<quoted value>" for the listed variables, in order;
      `quote` is Go's %q verb. */
  function Notes(pairs: seq<(string, string)>, quote: string -> string): string {
    if pairs == [] then ""
    else
      var (k, v) := pairs[|pairs| - 1];
      Notes(pairs[..|pairs| - 1], quote) + "\nVar " + k + "=" + quote(v)
  }

  /** The notes Repeat appends to a repetition's description, one per
      variable, in map order. */
  method VarNotes(cur: map<string, string>, quote: string -> string)
    returns (notes: string, ghost pairs: seq<(string, string)>)
    ensures IsListing(pairs, cur)
    ensures notes == Notes(pairs, quote)
  {
    notes := "";
    pairs := [];
    var todo := cur.Keys;
    ghost var done: set<string> := {};
    while todo != {}
      invariant todo !! done && todo + done == cur.Keys
      invariant IsListingOf(pairs, cur, done)
      invariant notes == Notes(pairs, quote)
      decreases |todo|
    {
      var k :| k in todo;
      ListingStep(pairs, cur, done, k, quote);
      notes := notes + "\nVar " + k + "=" + quote(cur[k]);
      pairs := pairs + [(k, cur[k])];
      Sets.MoveKey(todo, done, cur.Keys, k);
      todo := todo - {k};
      done := done + {k};
    }
    assert done == cur.Keys;
  }

  lemma ListingStep(pairs: seq<(string, string)>, cur: map<string, string>, done: set<string>, k: string,
                    quote: string -> string)
    requires IsListingOf(pairs, cur, done) && k !in done && k in cur
    ensures IsListingOf(pairs + [(k, cur[k])], cur, done + {k})
    ensures Notes(pairs + [(k, cur[k])], quote) == Notes(pairs, quote) + "\nVar " + k + "=" + quote(cur[k])
  {
    assert (pairs + [(k, cur[k])])[..|pairs|] == pairs;
  }

  /** Building the replacer of every repetition below `count` succeeds. */
  predicate RepetitionsParse(vars: map<string, seq<string>>, count: nat)
    requires count > 0 ==> forall k :: k in vars ==> |vars[k]| > 0
  {
    forall r :: 0 <= r < count ==> IntPairsParse(Binding(vars, r), vars.Keys)
  }

  /** Whether the first r + 1 replacers are built is decided by the first r
      and the r-th. */
  lemma RepetitionsParseStep(vars: map<string, seq<string>>, r: nat, count: nat)
    requires forall k :: k in vars ==> |vars[k]| > 0
    requires r < count && RepetitionsParse(vars, r)
    ensures RepetitionsParse(vars, r + 1) <==> IntPairsParse(Binding(vars, r), vars.Keys)
    ensures !IntPairsParse(Binding(vars, r), vars.Keys) ==> !RepetitionsParse(vars, count)
  {
  }

  /** repl is a replacer newReplacer builds from the values b: the string
      substitutions of b and its integer substitutions. */
  ghost predicate IsReplacerOf(repl: Replacer, b: map<string, string>) {
    IntPairsParse(b, b.Keys) && repl.str == StringVars(b, b.Keys) && IntPairsOf(repl.fn, b, b.Keys)
  }

  /** The test t copied with replacer repl, with the notes for the listed
      variables appended to its description. */
  function RepetitionOf(t: TestValue, repl: Replacer, pairs: seq<(string, string)>,
                        replace: ReplaceFn, quote: string -> string, substCheck: CheckFn): TestValue
  {
    var s := Substituted(t, repl, replace, substCheck);
    s.(description := s.description + Notes(pairs, quote))
  }

  /** v is t with the values b substituted by a replacer newReplacer builds
      from them, and with a note per variable of b appended to its
      description in the order of pairs. */
  ghost predicate IsRepetition(v: TestValue, t: TestValue, b: map<string, string>, repl: Replacer,
                               pairs: seq<(string, string)>, replace: ReplaceFn,
                               quote: string -> string, substCheck: CheckFn)
  {
    && IsReplacerOf(repl, b)
    && IsListing(pairs, b)
    && v == RepetitionOf(t, repl, pairs, replace, quote, substCheck)
  }

  /** values are the repetitions 0, 1, ... of t, with the replacers and note
      orders of repls and listings. */
  ghost predicate AllRepetitions(values: seq<TestValue>, t: TestValue, vars: map<string, seq<string>>,
                                 repls: seq<Replacer>, listings: seq<seq<(string, string)>>,
                                 replace: ReplaceFn, quote: string -> string, substCheck: CheckFn)
    requires |values| > 0 ==> forall k :: k in vars ==> |vars[k]| > 0
    requires |repls| == |values| && |listings| == |values|
  {
    forall j :: 0 <= j < |values| ==>
      IsRepetition(values[j], t, Binding(vars, j), repls[j], listings[j], replace, quote, substCheck)
  }

  /** The next repetition extends the repetitions before it. */
  lemma AllRepetitionsSnoc(values: seq<TestValue>, t: TestValue, vars: map<string, seq<string>>,
                           repls: seq<Replacer>, listings: seq<seq<(string, string)>>,
                           replace: ReplaceFn, quote: string -> string, substCheck: CheckFn,
                           v: TestValue, repl: Replacer, pairs: seq<(string, string)>)
    requires forall k :: k in vars ==> |vars[k]| > 0
    requires |repls| == |values| && |listings| == |values|
    requires AllRepetitions(values, t, vars, repls, listings, replace, quote, substCheck)
    requires IsRepetition(v, t, Binding(vars, |values|), repl, pairs, replace, quote, substCheck)
    ensures AllRepetitions(values + [v], t, vars, repls + [repl], listings + [pairs], replace, quote, substCheck)
  {
    var n := |values|;
    forall j | 0 <= j < n + 1
      ensures IsRepetition((values + [v])[j], t, Binding(vars, j), (repls + [repl])[j], (listings + [pairs])[j],
                           replace, quote, substCheck)
    {
      if j < n {
        assert (values + [v])[j] == values[j];
        assert (repls + [repl])[j] == repls[j];
        assert (listings + [pairs])[j] == listings[j];
      }
    }
  }

  /** One repetition of Repeat's loop: the r-th values bound, the replacer
      built, the test copied with them and the notes appended. */
  method Repetition(test: Test, vars: map<string, seq<string>>, r: nat, count: nat,
                    replace: ReplaceFn, quote: string -> string, substCheck: CheckFn)
    returns (result: Result<Test, Errors.Error>, ghost repl: Replacer, ghost pairs: seq<(string, string)>)
    requires forall k :: k in vars ==> |vars[k]| > 0
    requires r < count && RepetitionsParse(vars, r)
    ensures result.Ok? <==> RepetitionsParse(vars, r + 1)
    ensures result.Err? ==> !RepetitionsParse(vars, count)
    ensures result.Err? ==> exists k :: (k in vars && IsIntKey(k) &&
                                        IntPairError(k, Binding(vars, r)[k]) == Some(result.error))
    ensures result.Ok? ==> fresh(result.value)
    ensures result.Ok? ==>
      IsRepetition(result.value.Value(), test.Value(), Binding(vars, r), repl, pairs, replace, quote, substCheck)
  {
    RepetitionsParseStep(vars, r, count);
    var cur := Bind(vars, r);
    var replacer := NewReplacer(cur);
    if replacer.Err? {
      return Err(replacer.error), Replacer(map[], map[]), [];
    }
    repl := replacer.value;
    var c;
    c, pairs := SubstituteWithNotes(test, replacer.value, cur, replace, quote, substCheck);
    return Ok(c), repl, pairs;
  }

  /** The copy of test a repetition makes with replacer repl, its
      description extended with the notes of the values cur. */
  method SubstituteWithNotes(test: Test, repl: Replacer, cur: map<string, string>,
                             replace: ReplaceFn, quote: string -> string, substCheck: CheckFn)
    returns (c: Test, ghost pairs: seq<(string, string)>)
    ensures fresh(c)
    ensures IsListing(pairs, cur)
    ensures c.Value() == RepetitionOf(test.Value(), repl, pairs, replace, quote, substCheck)
  {
    c := SubstituteVariables(test, repl, replace, substCheck);
    var notes;
    notes, pairs := VarNotes(cur, quote);
    ghost var s := c.Value();
    c.description := c.description + notes;
    assert c.Value() == s.(description := s.description + notes);
  }

  /** Repeat: count fresh copies of test, the r-th with the r-th values of
      every variable substituted by a replacer newReplacer builds from them
      and a note per variable appended to its description; the first
      repetition whose replacer cannot be built aborts with its error. A
      negative count (a panic in make) is excluded, and so is an empty value
      list when there is a repetition to bind (a division by zero). */
  method Repeat(test: Test, count: int, vars: map<string, seq<string>>,
                replace: ReplaceFn, quote: string -> string, substCheck: CheckFn)
    returns (result: Result<seq<Test>, Errors.Error>,
             ghost repls: seq<Replacer>, ghost listings: seq<seq<(string, string)>>)
    requires count >= 0
    requires count > 0 ==> forall k :: k in vars ==> |vars[k]| > 0
    ensures result.Ok? <==> RepetitionsParse(vars, count)
    ensures result.Err? ==> exists r, k :: (0 <= r < count && RepetitionsParse(vars, r) && k in vars &&
                                           IsIntKey(k) && IntPairError(k, Binding(vars, r)[k]) == Some(result.error))
    ensures result.Ok? ==> |result.value| == count && |repls| == count && |listings| == count
    ensures result.Ok? ==> forall r :: 0 <= r < count ==>
      && fresh(result.value[r])
      && IsRepetition(result.value[r].Value(), test.Value(), Binding(vars, r), repls[r], listings[r],
                      replace, quote, substCheck)
  {
    var reps: seq<Test> := [];
    repls, listings := [], [];
    ghost var t := test.Value();
    ghost var values: seq<TestValue> := [];
    for r := 0 to count
      invariant |reps| == r && |repls| == r && |listings| == r && |values| == r
      invariant RepetitionsParse(vars, r)
      invariant test.Value() == t
      invariant forall j :: 0 <= j < r ==> fresh(reps[j]) && reps[j].Value() == values[j]
      invariant AllRepetitions(values, t, vars, repls, listings, replace, quote, substCheck)
    {
      var c, repl, pairs := Repetition(test, vars, r, count, replace, quote, substCheck);
      if c.Err? {
        return Err(c.error), repls, listings;
      }
      AllRepetitionsSnoc(values, t, vars, repls, listings, replace, quote, substCheck, c.value.Value(), repl, pairs);
      reps := reps + [c.value];
      repls := repls + [repl];
      listings := listings + [pairs];
      values := values + [c.value.Value()];
    }
    return Ok(reps), repls, listings;
  }
}
