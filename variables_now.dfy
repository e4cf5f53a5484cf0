/** The NOW time variables of a test ("{{NOW + 30s | \"2006-Jan-02\"}}")
    and the merging of variable maps. The regular expression that finds
    the variables and the time formatting are outside the model: a match is
    given with its submatches, and the formatted time is an injected
    function of the offset and the layout. */
module VariablesNow {
  import opened Wrappers
  import Decimal
  import Int64
  import Text
  import Sets
  import Arith

  // ------------------------------------------------------------------------
  // mergeVariables

  /** The variables of maps merged in order: a later map overrides an
      earlier one. */
  function Merged(maps: seq<map<string, string>>): map<string, string> {
    if maps == [] then map[] else Merged(maps[..|maps| - 1]) + maps[|maps| - 1]
  }

  /** A key is merged iff some map has it. */
  lemma {:induction false} MergedKeys(maps: seq<map<string, string>>, k: string)
    ensures k in Merged(maps) <==> exists i :: 0 <= i < |maps| && k in maps[i]
  {
    if maps != [] {
      var n := |maps| - 1;
      MergedKeys(maps[..n], k);
      if k in Merged(maps[..n]) {
        var i :| 0 <= i < n && k in maps[..n][i];
        assert k in maps[i];
      }
      if exists i :: 0 <= i < |maps| && k in maps[i] {
        var i :| 0 <= i < |maps| && k in maps[i];
        if i < n {
          assert k in maps[..n][i];
        }
      }
    }
  }

  /** The merged value of a key is the one of the last map that has it. */
  lemma {:induction false} MergedValue(maps: seq<map<string, string>>, i: int, k: string)
    requires 0 <= i < |maps| && k in maps[i]
    requires forall j :: i < j < |maps| ==> k !in maps[j]
    ensures k in Merged(maps) && Merged(maps)[k] == maps[i][k]
  {
    var n := |maps| - 1;
    if i < n {
      assert k !in maps[n];
      MergedValue(maps[..n], i, k);
    }
  }

  /** result is before overridden by the keys done of e. */
  predicate MergedOn(result: map<string, string>, before: map<string, string>, e: map<string, string>,
                     done: set<string>)
  {
    && done <= e.Keys
    && result.Keys == before.Keys + done
    && forall k :: k in result ==> result[k] == if k in done then e[k] else before[k]
  }

  lemma MergedOnStep(result: map<string, string>, before: map<string, string>, e: map<string, string>,
                     done: set<string>, k: string)
    requires MergedOn(result, before, e, done) && k in e && k !in done
    ensures MergedOn(result[k := e[k]], before, e, done + {k})
  {
  }

  lemma MergedOnAll(result: map<string, string>, before: map<string, string>, e: map<string, string>)
    requires MergedOn(result, before, e, e.Keys)
    ensures result == before + e
  {
  }

  /** mergeVariables: copies every pair of every map into a fresh map, map
      after map. */
  method MergeVariables(maps: seq<map<string, string>>) returns (result: map<string, string>)
    ensures result == Merged(maps)
  {
    result := map[];
    for i := 0 to |maps|
      invariant result == Merged(maps[..i])
    {
      result := CopyInto(result, maps[i]);
      assert maps[..i + 1][..i] == maps[..i];
    }
    assert maps[..|maps|] == maps;
  }

  /** The inner loop of mergeVariables: every pair of e stored into result. */
  method CopyInto(result: map<string, string>, e: map<string, string>) returns (r: map<string, string>)
    ensures r == result + e
  {
    r := result;
    var todo := e.Keys;
    ghost var done: set<string> := {};
    while todo != {}
      invariant todo !! done && todo + done == e.Keys
      invariant MergedOn(r, result, e, done)
      decreases |todo|
    {
      var k :| k in todo;
      MergedOnStep(r, result, e, done, k);
      r := r[k := e[k]];
      Sets.MoveKey(todo, done, e.Keys, k);
      todo, done := todo - {k}, done + {k};
    }
    MergedOnAll(r, result, e);
  }

  // ------------------------------------------------------------------------
  // nowVariables

  /** One match of the NOW pattern
        {{NOW *([+-] *[1-9][0-9]*[smhd])? *(\| *"(.*)")?}}
      as the regular expression reports it: the whole text, the offset
      (submatch 1, possibly empty) and the layout (submatch 3, possibly
      empty). */
  datatype NowMatch = NowMatch(text: string, delta: string, layout: string)

  /** Submatch 1 of the NOW pattern: a sign, blanks, a decimal number without
      leading zero and a unit. */
  predicate IsDelta(d: string) {
    && |d| >= 3
    && (d[0] == '+' || d[0] == '-')
    && d[|d| - 1] in {'s', 'm', 'h', 'd'}
    && var num := Text.TrimLeft(d[1..|d| - 1], ' ');
       |num| > 0 && num[0] != '0' && Decimal.AllDigits(num)
  }

  /** What the regular expression guarantees about a match. */
  predicate IsNowMatch(m: NowMatch) {
    && |m.text| >= 4 && Text.HasPrefix(m.text, "{{") && Text.HasSuffix(m.text, "}}")
    && (m.delta == "" || IsDelta(m.delta))
  }

  /** The variable name of a match: its text without the braces. */
  function Name(m: NowMatch): string
    requires |m.text| >= 4
  {
    m.text[2..|m.text| - 2]
  }

  /** The digits of an offset. */
  function DeltaDigits(d: string): string
    requires IsDelta(d)
  {
    Text.TrimLeft(d[1..|d| - 1], ' ')
  }

  /** The factor the source multiplies a day count by: 24*26*60. */
  const DayAsWritten: int := 24 * 26 * 60

  /** The number of seconds in a day. */
  const Day: int := 24 * 60 * 60

  /** Seconds per unit; a day is DayAsWritten seconds when asWritten holds
      and Day seconds otherwise. */
  function UnitSeconds(u: char, asWritten: bool): (r: int)
    ensures r > 0
  {
    match u
    case 'm' => 60
    case 'h' => 60 * 60
    case 'd' => if asWritten then DayAsWritten else Day
    case _ => 1
  }

  /** The offset in nanoseconds of a NOW variable, computed as nowVariables
      does: the digits through strconv.Atoi, the sign, the unit and the
      conversion to a time.Duration. None where Atoi fails (a number beyond
      int64), where nowVariables panics. */
  function OffsetWith(delta: string, asWritten: bool): (r: Option<int>)
    requires delta == "" || IsDelta(delta)
    ensures r.Some? ==> Int64.InRange(r.value)
  {
    if delta == "" then Some(0)
    else
      var parsed := Decimal.Atoi(DeltaDigits(delta));
      if parsed.Err? then None
      else
        Some(Nanos(Signed(delta, parsed.value), delta[|delta| - 1], asWritten))
  }

  /** n units in seconds; the product wraps around as Go's int does. */
  function Seconds(n: int, u: char, asWritten: bool): int {
    match u
    case 'm' => Int64.Wrap(n * 60)
    case 'h' => Int64.Wrap(n * 3_600)
    case 'd' => if asWritten then Int64.Wrap(n * 37_440) else Int64.Wrap(n * 86_400)
    case _ => n
  }

  /** n units as a time.Duration, which wraps around as int64 does. */
  function Nanos(n: int, u: char, asWritten: bool): (r: int)
    ensures Int64.InRange(r)
  {
    Int64.Wrap(Seconds(n, u, asWritten) * 1_000_000_000)
  }

  /** Where the exact product fits in int64, nothing wraps. */
  lemma NanosValue(n: int, u: char, asWritten: bool)
    requires Int64.InRange(n * UnitSeconds(u, asWritten) * 1_000_000_000)
    ensures Nanos(n, u, asWritten) == n * UnitSeconds(u, asWritten) * 1_000_000_000
  {
    var k := UnitSeconds(u, asWritten);
    Bounded(n * k, 1_000_000_000);
    Bounded(n, k);
    assert Seconds(n, u, asWritten) == n * k;
  }

  /** The offset exactly as nowVariables computes it. */
  function NowOffsetAsWritten(delta: string): Option<int>
    requires delta == "" || IsDelta(delta)
  {
    OffsetWith(delta, true)
  }

  /** The offset with a day of 86400 seconds. */
  function NowOffset(delta: string): Option<int>
    requires delta == "" || IsDelta(delta)
  {
    OffsetWith(delta, false)
  }

  /** The number n with the sign an offset carries. */
  function Signed(delta: string, n: int): int
    requires IsDelta(delta)
  {
    if delta[0] == '-' then -n else n
  }

  /** The digits of an offset parse, through strconv.Atoi, to their value
      exactly when it fits in int64. */
  lemma DeltaDigitsParse(delta: string)
    requires IsDelta(delta)
    ensures var num := DeltaDigits(delta);
            Decimal.Atoi(num).Ok? <==> Decimal.DigitsValue(num) <= Int64.MaxInt64
    ensures var num := DeltaDigits(delta);
            Decimal.Atoi(num).Ok? ==> Decimal.Atoi(num).value == Decimal.DigitsValue(num)
  {
    Decimal.AtoiDigits(DeltaDigits(delta));
  }

  /** The offset fails exactly for numbers beyond int64. */
  lemma OffsetNone(delta: string, asWritten: bool)
    requires IsDelta(delta)
    ensures OffsetWith(delta, asWritten).None? <==> Decimal.DigitsValue(DeltaDigits(delta)) > Int64.MaxInt64
  {
    DeltaDigitsParse(delta);
  }

  /** Where the number fits, the offset is that many units, signed. */
  lemma OffsetShape(delta: string, asWritten: bool)
    requires IsDelta(delta) && Decimal.DigitsValue(DeltaDigits(delta)) <= Int64.MaxInt64
    ensures OffsetWith(delta, asWritten)
            == Some(Nanos(Signed(delta, Decimal.DigitsValue(DeltaDigits(delta))), delta[|delta| - 1], asWritten))
  {
    DeltaDigitsParse(delta);
  }

  /** Where nothing overflows, the offset is sign * number * seconds per
      unit * 10^9. */
  lemma OffsetValue(delta: string, asWritten: bool)
    requires IsDelta(delta)
    ensures var v := Signed(delta, Decimal.DigitsValue(DeltaDigits(delta)))
                     * UnitSeconds(delta[|delta| - 1], asWritten) * 1_000_000_000;
            Int64.InRange(v) ==> OffsetWith(delta, asWritten) == Some(v)
  {
    var d := Decimal.DigitsValue(DeltaDigits(delta));
    var u := delta[|delta| - 1];
    var n := Signed(delta, d);
    assert Abs(n) == d;
    if Int64.InRange(n * UnitSeconds(u, asWritten) * 1_000_000_000) {
      FactorInRange(n, UnitSeconds(u, asWritten));
      OffsetShape(delta, asWritten);
      NanosValue(n, u, asWritten);
    }
  }

  /** A factor of a product that fits in int64 fits as well. */
  lemma FactorInRange(n: int, k: int)
    requires k >= 1 && Int64.InRange(n * k * 1_000_000_000)
    ensures Abs(n) <= Int64.MaxInt64
  {
    Bounded(n * k, 1_000_000_000);
    Bounded(n, k);
  }

  function Abs(x: int): nat {
    if x < 0 then -x else x
  }

  /** Multiplying by a positive factor y never shrinks a magnitude, and
      at least doubles it when y >= 2. */
  lemma Bounded(x: int, y: int)
    requires y >= 1
    ensures Abs(x) <= Abs(x * y)
    ensures y >= 2 ==> 2 * Abs(x) <= Abs(x * y)
  {
    if x != 0 {
      var m := Abs(x);
      assert Abs(x * y) == m * y by {
        if x < 0 {
          assert x * y == -(m * y);
          Arith.MulAtLeast(m, y);
        } else {
          Arith.MulAtLeast(m, y);
        }
      }
      Arith.MulAtLeast(m, y);
      if y >= 2 {
        Arith.MulStrict(m, 1, y);
      }
    }
  }


  /** The NOW offset of one day, as written, is 37440 seconds, not the
      86400 seconds of "+24h". */
  lemma DayAsWrittenIsShort()
    ensures IsDelta("+1d") && IsDelta("+24h")
    ensures NowOffsetAsWritten("+1d") == Some(37_440_000_000_000)
    ensures NowOffsetAsWritten("+24h") == Some(86_400_000_000_000)
  {
    LiteralDelta("+1d", "1", 1);
    LiteralDelta("+24h", "24", 24);
    OffsetValue("+1d", true);
    OffsetValue("+24h", true);
  }

  /** The digits and their value of a concrete offset. */
  lemma LiteralDelta(delta: string, digits: string, value: nat)
    requires |delta| >= 3 && delta[0] == '+' && delta[|delta| - 1] in {'s', 'm', 'h', 'd'}
    requires 1 <= |digits| <= 2 && delta[1..|delta| - 1] == digits
    requires digits[0] != ' ' && digits[0] != '0' && Decimal.AllDigits(digits)
    requires value == if |digits| == 1 then Decimal.DigitValue(digits[0])
                      else 10 * Decimal.DigitValue(digits[0]) + Decimal.DigitValue(digits[1])
    ensures IsDelta(delta) && DeltaDigits(delta) == digits
    ensures Decimal.DigitsValue(digits) == value && delta[0] == '+'
  {
    assert Text.TrimLeft(digits, ' ') == digits;
    var first := digits[..1];
    assert first[..0] == [] && first[0] == digits[0];
    assert Decimal.DigitsValue(first) == Decimal.DigitValue(digits[0]);
    if |digits| == 2 {
      assert digits[..|digits| - 1] == first;
    } else {
      assert digits == first;
    }
  }

  /** The most days an offset can hold without overflowing int64. */
  const MaxDays: int := 106_751

  /** With a day of 86400 seconds, an offset of n days is 24 times the
      offset of n hours wherever the offset fits in int64. */
  lemma DayIs24Hours(days: string, hours: string)
    requires IsDelta(days) && IsDelta(hours)
    requires days[..|days| - 1] == hours[..|hours| - 1]
    requires days[|days| - 1] == 'd' && hours[|hours| - 1] == 'h'
    requires Decimal.DigitsValue(DeltaDigits(days)) <= MaxDays
    ensures NowOffset(days).Some? && NowOffset(hours).Some?
    ensures NowOffset(days).value == 24 * NowOffset(hours).value
  {
    SameNumber(days, hours);
    var x := Signed(days, Decimal.DigitsValue(DeltaDigits(days)));
    assert -MaxDays <= x <= MaxDays;
    OffsetOf(days, x, 86400);
    OffsetOf(hours, x, 3600);
  }

  /** Two offsets that differ only in their unit carry the same number. */
  lemma SameNumber(a: string, b: string)
    requires IsDelta(a) && IsDelta(b) && a[..|a| - 1] == b[..|b| - 1]
    ensures DeltaDigits(a) == DeltaDigits(b) && a[0] == b[0]
  {
    assert a[1..|a| - 1] == a[..|a| - 1][1..] == b[1..|b| - 1];
    assert a[0] == a[..|a| - 1][0] == b[0];
  }

  /** An offset whose signed number is x and whose unit is k seconds. */
  lemma OffsetOf(delta: string, x: int, k: int)
    requires IsDelta(delta) && x == Signed(delta, Decimal.DigitsValue(DeltaDigits(delta)))
    requires k == UnitSeconds(delta[|delta| - 1], false)
    requires Int64.InRange(x * k * 1_000_000_000)
    ensures NowOffset(delta) == Some(x * k * 1_000_000_000)
  {
    OffsetValue(delta, false);
  }

  /** time.RFC1123, the layout of a NOW variable without one. */
  const RFC1123: string := "Mon, 02 Jan 2006 15:04:05 MST"

  /** The layout a match asks for. */
  function LayoutOf(m: NowMatch): (r: string)
    ensures r == if m.layout == "" then RFC1123 else m.layout
  {
    if m.layout != "" then m.layout else RFC1123
  }

  /** A sequence of matches of the NOW pattern. */
  predicate AllNowMatches(ms: seq<NowMatch>) {
    forall i :: 0 <= i < |ms| ==> IsNowMatch(ms[i])
  }

  /** Every match has its braces. */
  predicate Braced(ms: seq<NowMatch>) {
    forall i :: 0 <= i < |ms| ==> |ms[i].text| >= 4
  }

  /** The offsets of the matches ms, in order, with the day as written
      (asWritten) or of 86400 seconds. */
  function Offsets(ms: seq<NowMatch>, asWritten: bool): (r: seq<Option<int>>)
    requires AllNowMatches(ms)
    ensures |r| == |ms|
  {
    seq(|ms|, i requires 0 <= i < |ms| => OffsetWith(ms[i].delta, asWritten))
  }

  /** The variables nowVariables produces from the matches ms, in order,
      given the offset offs[i] of each match, with formatTime(off, layout)
      standing for now.Add(off).Format(layout); None where it panics. A name
      seen before is skipped, so the first occurrence of a name decides its
      value. */
  function NowVarsWith(ms: seq<NowMatch>, offs: seq<Option<int>>, formatTime: (int, string) -> string)
    : Option<map<string, string>>
    requires Braced(ms) && |offs| == |ms|
  {
    if ms == [] then Some(map[])
    else
      var n := |ms| - 1;
      NowStep(NowVarsWith(ms[..n], offs[..n], formatTime), ms[n], offs[n], formatTime)
  }

  /** One iteration of nowVariables: a known name is skipped, a missing
      offset panics, and otherwise the formatted time is stored. */
  function NowStep(vars: Option<map<string, string>>, m: NowMatch, off: Option<int>,
                   formatTime: (int, string) -> string): Option<map<string, string>>
    requires |m.text| >= 4
  {
    match vars
    case None => None
    case Some(vars) =>
      if Name(m) in vars then Some(vars)
      else if off.None? then None
      else Some(vars[Name(m) := formatTime(off.value, LayoutOf(m))])
  }

  /** The variables of the matches ms with their own offsets. */
  function NowVars(ms: seq<NowMatch>, formatTime: (int, string) -> string, asWritten: bool)
    : Option<map<string, string>>
    requires AllNowMatches(ms)
  {
    NowVarsWith(ms, Offsets(ms, asWritten), formatTime)
  }

  /** nowVariables over the matches the pattern found, in order. With
      asWritten the day is the 37440 seconds of the source; without it, the
      86400 seconds it evidently intends. */
  method NowVariables(ms: seq<NowMatch>, formatTime: (int, string) -> string, asWritten: bool)
    returns (r: Option<map<string, string>>)
    requires AllNowMatches(ms)
    ensures r == NowVars(ms, formatTime, asWritten)
  {
    ghost var offs := Offsets(ms, asWritten);
    var vars: map<string, string> := map[];
    for i := 0 to |ms|
      invariant NowVarsWith(ms[..i], offs[..i], formatTime) == Some(vars)
    {
      NowVarsSnoc(ms, offs, formatTime, i);
      var m := ms[i];
      var kk := m.text[2..|m.text| - 2];
      assert kk == Name(ms[i]);
      if kk in vars {
        continue;
      }
      var off := OffsetWith(m.delta, asWritten);
      if off.None? {
        NowVarsNoneStays(ms, offs, formatTime, i + 1);
        return None;
      }
      vars := vars[kk := formatTime(off.value, LayoutOf(m))];
    }
    assert ms[..|ms|] == ms && offs[..|ms|] == offs;
    return Some(vars);
  }

  /** The variables of one more match. */
  lemma NowVarsSnoc(ms: seq<NowMatch>, offs: seq<Option<int>>, formatTime: (int, string) -> string, i: int)
    requires Braced(ms) && |offs| == |ms| && 0 <= i < |ms|
    ensures NowVarsWith(ms[..i + 1], offs[..i + 1], formatTime)
            == NowStep(NowVarsWith(ms[..i], offs[..i], formatTime), ms[i], offs[i], formatTime)
  {
    assert ms[..i + 1][..i] == ms[..i] && offs[..i + 1][..i] == offs[..i];
  }

  /** Once the variables of a prefix fail, the variables of the whole fail. */
  lemma {:induction false} NowVarsNoneStays(ms: seq<NowMatch>, offs: seq<Option<int>>,
                                            formatTime: (int, string) -> string, k: int)
    requires Braced(ms) && |offs| == |ms| && 0 <= k <= |ms|
    requires NowVarsWith(ms[..k], offs[..k], formatTime).None?
    ensures NowVarsWith(ms, offs, formatTime).None?
    decreases |ms| - k
  {
    if k < |ms| {
      assert ms[..k + 1][..k] == ms[..k] && offs[..k + 1][..k] == offs[..k];
      NowVarsNoneStays(ms, offs, formatTime, k + 1);
    } else {
      assert ms[..k] == ms && offs[..k] == offs;
    }
  }

  /** Index i holds the first occurrence of its name. */
  predicate IsFirst(ms: seq<NowMatch>, i: int)
    requires Braced(ms) && 0 <= i < |ms|
  {
    forall j :: 0 <= j < i ==> Name(ms[j]) != Name(ms[i])
  }

  /** The names of the matches ms. */
  function Names(ms: seq<NowMatch>): set<string>
    requires Braced(ms)
  {
    if ms == [] then {} else Names(ms[..|ms| - 1]) + {Name(ms[|ms| - 1])}
  }

  /** A name is among the names iff some match has it. */
  lemma {:induction false} NamesMembers(ms: seq<NowMatch>, x: string)
    requires Braced(ms)
    ensures x in Names(ms) <==> exists i :: 0 <= i < |ms| && Name(ms[i]) == x
  {
    if ms != [] {
      var n := |ms| - 1;
      var pre := ms[..n];
      NamesMembers(pre, x);
      if x in Names(pre) {
        var i :| 0 <= i < n && Name(pre[i]) == x;
        assert Name(ms[i]) == x;
      }
      if exists i :: 0 <= i < |ms| && Name(ms[i]) == x {
        var i :| 0 <= i < |ms| && Name(ms[i]) == x;
        if i < n {
          assert Name(pre[i]) == x;
        }
      }
    }
  }

  /** Some first occurrence of a name has no offset. */
  predicate SomeFails(ms: seq<NowMatch>, offs: seq<Option<int>>)
    requires Braced(ms) && |offs| == |ms|
  {
    exists i :: 0 <= i < |ms| && IsFirst(ms, i) && offs[i].None?
  }

  /** The last match is a first occurrence iff its name is new. */
  lemma LastIsFirst(ms: seq<NowMatch>)
    requires Braced(ms) && ms != []
    ensures Braced(ms[..|ms| - 1])
    ensures IsFirst(ms, |ms| - 1) <==> Name(ms[|ms| - 1]) !in Names(ms[..|ms| - 1])
  {
    var n := |ms| - 1;
    var pre := ms[..n];
    NamesMembers(pre, Name(ms[n]));
    if !IsFirst(ms, n) {
      var j :| 0 <= j < n && Name(ms[j]) == Name(ms[n]);
      assert Name(pre[j]) == Name(ms[n]);
    }
  }

  /** A failing first occurrence lies in the prefix or is the last match. */
  lemma SomeFailsSnoc(ms: seq<NowMatch>, offs: seq<Option<int>>)
    requires Braced(ms) && |offs| == |ms| && ms != []
    ensures Braced(ms[..|ms| - 1])
    ensures SomeFails(ms, offs) <==>
              SomeFails(ms[..|ms| - 1], offs[..|ms| - 1]) || (IsFirst(ms, |ms| - 1) && offs[|ms| - 1].None?)
  {
    var n := |ms| - 1;
    var pre, po := ms[..n], offs[..n];
    assert forall i :: 0 <= i < n ==> (IsFirst(pre, i) <==> IsFirst(ms, i));
    if SomeFails(pre, po) {
      var i :| 0 <= i < n && IsFirst(pre, i) && po[i].None?;
      assert IsFirst(ms, i) && offs[i].None?;
    }
  }

  /** The variables fail exactly when the first occurrence of some name has
      no offset; otherwise their keys are the names of all matches. */
  lemma {:induction false} NowVarsWithKeys(ms: seq<NowMatch>, offs: seq<Option<int>>,
                                           formatTime: (int, string) -> string)
    requires Braced(ms) && |offs| == |ms|
    ensures NowVarsWith(ms, offs, formatTime).None? <==> SomeFails(ms, offs)
    ensures NowVarsWith(ms, offs, formatTime).Some? ==> NowVarsWith(ms, offs, formatTime).value.Keys == Names(ms)
  {
    if ms != [] {
      var n := |ms| - 1;
      NowVarsWithKeys(ms[..n], offs[..n], formatTime);
      LastIsFirst(ms);
      SomeFailsSnoc(ms, offs);
    }
  }

  /** Each name takes the value of its first occurrence. */
  lemma {:induction false} NowVarsWithFirst(ms: seq<NowMatch>, offs: seq<Option<int>>,
                                            formatTime: (int, string) -> string, i: int)
    requires Braced(ms) && |offs| == |ms| && 0 <= i < |ms| && IsFirst(ms, i)
    requires NowVarsWith(ms, offs, formatTime).Some?
    ensures offs[i].Some? && Name(ms[i]) in NowVarsWith(ms, offs, formatTime).value
    ensures NowVarsWith(ms, offs, formatTime).value[Name(ms[i])] == formatTime(offs[i].value, LayoutOf(ms[i]))
  {
    var n := |ms| - 1;
    var pre, po := ms[..n], offs[..n];
    NowVarsWithKeys(pre, po, formatTime);
    LastIsFirst(ms);
    if i < n {
      assert IsFirst(pre, i) by {
        assert forall j :: 0 <= j < i ==> pre[j] == ms[j];
        assert pre[i] == ms[i];
      }
      NowVarsWithFirst(pre, po, formatTime, i);
      NamesMembers(pre, Name(ms[i]));
      assert Name(pre[i]) == Name(ms[i]);
    }
  }

  /** nowVariables panics exactly when the first occurrence of some name has
      an offset beyond int64; otherwise its keys are the names of all
      matches. */
  lemma NowVarsKeys(ms: seq<NowMatch>, formatTime: (int, string) -> string, asWritten: bool)
    requires AllNowMatches(ms)
    ensures NowVars(ms, formatTime, asWritten).None? <==>
              exists i :: 0 <= i < |ms| && IsFirst(ms, i) && OffsetWith(ms[i].delta, asWritten).None?
    ensures NowVars(ms, formatTime, asWritten).Some? ==>
              NowVars(ms, formatTime, asWritten).value.Keys == Names(ms)
  {
    NowVarsWithKeys(ms, Offsets(ms, asWritten), formatTime);
  }

  /** Each name takes the value of its first occurrence: the time at that
      occurrence's offset in that occurrence's layout. */
  lemma NowVarsFirstWins(ms: seq<NowMatch>, formatTime: (int, string) -> string, asWritten: bool, i: int)
    requires AllNowMatches(ms) && 0 <= i < |ms| && IsFirst(ms, i)
    requires NowVars(ms, formatTime, asWritten).Some?
    ensures OffsetWith(ms[i].delta, asWritten).Some? && Name(ms[i]) in NowVars(ms, formatTime, asWritten).value
    ensures NowVars(ms, formatTime, asWritten).value[Name(ms[i])]
            == formatTime(OffsetWith(ms[i].delta, asWritten).value, LayoutOf(ms[i]))
  {
    NowVarsWithFirst(ms, Offsets(ms, asWritten), formatTime, i);
  }
}
