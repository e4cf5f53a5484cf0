/** ht.Duration (ht/duration.go): a time.Duration, that is int64
    nanoseconds, with a short text form that is also its JSON encoding.
    Two float64 steps are outside the model and injected as functions:
    fmt's "%.*f" in si and strconv.ParseFloat in UnmarshalJSON. */
module Duration {
  import opened Wrappers
  import opened Errors
  import Decimal
  import Text
  import Int64
  import Arith

  const Second: int := 1_000_000_000

  /** Durations up to this many nanoseconds are written by si, longer ones
      by clock. */
  const ClockFrom: int := 180 * Second

  /** The micro sign U+00B5 followed by 's' (three bytes in UTF-8). */
  const Micro: string := "\U{00B5}s"

  /** fixed(prec, q) is fmt.Sprintf("%.*f", prec, float64(q) / 1000). */
  type Fixed = (nat, int) -> string

  /** strconv.ParseFloat(s, 64) followed by Duration(f * float64(scale)):
      the new value of *d, or ParseFloat's error. */
  type FloatParser = (string, int) -> Result<int, Error>

  // ------------------------------------------------------------------------
  // si

  /** siUnits[scale], "" for a scale the map lacks. */
  function SiUnit(scale: int): string {
    if scale == 1_000 then Micro
    else if scale == 1_000_000 then "ms"
    else if scale == Second then "s"
    else ""
  }

  /** p is 1000^k for some k. */
  predicate IsPow1000(p: nat)
    decreases p
  {
    p == 1 || (p >= 1000 && p % 1000 == 0 && IsPow1000(p / 1000))
  }

  /** The loop of si: from scale on, scale *= 1000 while n / scale > 999. */
  function ScaleFrom(n: nat, scale: nat): (r: nat)
    requires scale >= 1
    ensures r >= scale
    decreases n / scale
  {
    if n / scale > 999 then
      Arith.DivDiv(n, scale, 1000);
      ScaleFrom(n, scale * 1000)
    else scale
  }

  /** One turn of the loop of si keeps the scale at most n and brings it
      closer to the end. */
  lemma ScaleStep(n: nat, scale: nat)
    requires scale >= 1 && n / scale > 999
    ensures scale * 1000 <= n && n / (scale * 1000) < n / scale
    ensures ScaleFrom(n, scale) == ScaleFrom(n, scale * 1000)
  {
    var q := n / scale;
    assert n == scale * q + n % scale;
    Arith.MulMono(scale, 1000, q);
    Arith.DivDiv(n, scale, 1000);
  }

  /** The number of decimals si prints for k units. */
  function Precision(k: int): nat {
    if k > 99 then 0 else if k > 9 then 1 else 2
  }

  /** si(n): a '-' for negative n (n = -n wraps for the smallest int64),
      then up to 999 ns as an integer, else the quotient by the scale to
      three significant digits with the unit of the scale. */
  function SiText(n: int, fixed: Fixed): string
    requires Int64.InRange(n)
  {
    var neg := if n < 0 then "-" else "";
    var m := if n < 0 then Int64.Wrap(-n) else n;
    if m <= 999 then neg + Decimal.Itoa(m) + "ns"
    else
      var scale := ScaleFrom(m, 1000);
      neg + fixed(Precision(m / scale), m / (scale / 1000)) + SiUnit(scale)
  }

  /** si: the scale grows in a loop. It never wraps, as it stays at most n. */
  method Si(n: int, fixed: Fixed) returns (s: string)
    requires Int64.InRange(n)
    ensures s == SiText(n, fixed)
  {
    var neg := "";
    var m := n;
    if m < 0 {
      neg := "-";
      m := Int64.Wrap(-m);
    }
    if m <= 999 {
      return neg + Decimal.Itoa(m) + "ns";
    }
    var scale := 1000;
    while m / scale > 999
      invariant 1000 <= scale <= m && ScaleFrom(m, scale) == ScaleFrom(m, 1000)
      decreases m / scale
    {
      ScaleStep(m, scale);
      scale := scale * 1000;
    }
    var f := m / (scale / 1000);
    m := m / scale;
    var prec := 2;
    if m > 99 {
      prec := 0;
    } else if m > 9 {
      prec := 1;
    }
    return neg + fixed(prec, f) + SiUnit(scale);
  }

  /** Up to 999 ns in magnitude, si writes the integer and "ns". */
  lemma SiNanos(n: int, fixed: Fixed)
    requires -999 <= n <= 999
    ensures SiText(n, fixed) == (if n < 0 then "-" + Decimal.Itoa(-n) else Decimal.Itoa(n)) + "ns"
  {
  }

  /** Above 999 ns the scale is the smallest power of 1000 (from 1000 on)
      that leaves at most 999 units: one power less leaves more. At least
      one unit is left. */
  lemma SiScale(n: nat)
    requires n > 999
    ensures var scale := ScaleFrom(n, 1000);
            && IsPow1000(scale) && scale >= 1000
            && 1 <= n / scale <= 999 && n / (scale / 1000) > 999
  {
    assert IsPow1000(1000) by {
      assert IsPow1000(1);
    }
    ScaleFromIsPow(n, 1000);
  }

  lemma {:induction false} ScaleFromIsPow(n: nat, scale: nat)
    requires scale >= 1000 && IsPow1000(scale) && n / (scale / 1000) > 999
    ensures var r := ScaleFrom(n, scale);
            && IsPow1000(r) && r >= scale
            && 1 <= n / r <= 999 && n / (r / 1000) > 999
    decreases n / scale
  {
    var p := scale / 1000;
    assert scale == p * 1000;
    Arith.DivDiv(n, p, 1000);
    if n / scale > 999 {
      var next := scale * 1000;
      assert next / 1000 == scale && next % 1000 == 0;
      Arith.DivDiv(n, scale, 1000);
      ScaleFromIsPow(n, next);
    }
  }

  /** Within the range String gives to si, the unit is one of siUnits. */
  lemma SiUnitKnown(n: int)
    requires 999 < n <= ClockFrom
    ensures ScaleFrom(n, 1000) in {1_000, 1_000_000, Second}
    ensures SiUnit(ScaleFrom(n, 1000)) in {Micro, "ms", "s"}
  {
    Arith.DivDiv(n, 1000, 1000);
    Arith.DivDiv(n, 1_000_000, 1000);
    assert n / Second <= 180;
    assert ScaleFrom(n, Second) == Second;
  }

  /** The integer part and the decimals make three significant digits. */
  lemma SiPrecision(k: int)
    requires 1 <= k <= 999
    ensures |Decimal.Itoa(k)| + Precision(k) == 3
  {
    if k >= 10 {
      assert |Decimal.NatToString(k / 10)| == if k >= 100 then 2 else 1;
    }
  }

  // ------------------------------------------------------------------------
  // clock, String, MarshalJSON

  /** %02d: a single digit gets a leading zero. */
  function TwoDigits(x: int): string {
    if 0 <= x < 10 then "0" + Decimal.Itoa(x) else Decimal.Itoa(x)
  }

  /** clock(sec): minutes, then the seconds left (sec -= min * 60 leaves
      Go's remainder) with two digits. */
  function Clock(sec: int): string {
    Decimal.Itoa(Int64.Quot(sec, 60)) + "m" + TwoDigits(Int64.Rem(sec, 60)) + "s"
  }

  /** Duration.String. */
  function DurationString(n: int, fixed: Fixed): string
    requires Int64.InRange(n)
  {
    if n <= ClockFrom then SiText(n, fixed) else Clock(Int64.Quot(n, Second))
  }

  /** Duration.MarshalJSON: the text form as a JSON string. */
  function MarshalJSON(n: int, fixed: Fixed): string
    requires Int64.InRange(n)
  {
    Quote(DurationString(n, fixed))
  }

  /** s as a JSON string: between double quotes (the text forms hold no
      character that JSON escapes). */
  function Quote(s: string): string {
    "\"" + s + "\""
  }

  /** Above three minutes the text is whole minutes and two digits of
      seconds, which together make the whole seconds of n. */
  lemma StringClock(n: int, fixed: Fixed)
    requires ClockFrom < n <= Int64.MaxInt64
    ensures exists min: nat, sec: nat ::
              && sec < 60 && 60 * min + sec == n / Second
              && DurationString(n, fixed) == Decimal.Itoa(min) + "m" + TwoDigits(sec) + "s"
              && |TwoDigits(sec)| == 2 && Decimal.AllDigits(TwoDigits(sec))
  {
    var total := n / Second;
    var min, sec := total / 60, total % 60;
    TwoDigitsValue(sec);
    assert DurationString(n, fixed) == Decimal.Itoa(min) + "m" + TwoDigits(sec) + "s";
  }

  /** Two digits for 0..99, with value x. */
  lemma TwoDigitsValue(x: int)
    requires 0 <= x < 100
    ensures |TwoDigits(x)| == 2 && Decimal.AllDigits(TwoDigits(x))
    ensures Decimal.DigitsValue(TwoDigits(x)) == x
  {
    var t := TwoDigits(x);
    if x >= 10 {
      assert Decimal.NatToString(x / 10) == [Decimal.DigitChar(x / 10)];
      assert t == [Decimal.DigitChar(x / 10), Decimal.DigitChar(x % 10)];
    } else {
      assert t == ['0', Decimal.DigitChar(x)];
    }
    assert t[..1] == [t[0]] && [t[0]][..0] == [];
    assert Decimal.DigitsValue(t[..1]) == Decimal.DigitValue(t[0]);
  }

  // ------------------------------------------------------------------------
  // UnmarshalJSON

  /** The "XmYs" form: minutes and seconds read with strconv.Atoi and
      combined with Go's wrapping int arithmetic. */
  function MinutesSeconds(a: string, b: string): Result<int, Error> {
    match Decimal.Atoi(a)
    case Err(e) => Err(e)
    case Ok(m) =>
      match Decimal.Atoi(b)
      case Err(e) => Err(e)
      case Ok(sec) => Ok(Int64.Wrap(Int64.Wrap(sec + Int64.Wrap(60 * m)) * Second))
  }

  /** Duration.UnmarshalJSON(data): the new value of *d, or the error (and
      *d unchanged). A JSON string is at least its two quotes long. */
  function Unmarshal(data: string, parseFloat: FloatParser): Result<int, Error>
    requires Text.HasPrefix(data, "\"") ==> |data| >= 2
  {
    if !Text.HasPrefix(data, "\"") then parseFloat(data, Second)
    else UnmarshalQuoted(data[1..|data| - 1], parseFloat)
  }

  /** UnmarshalJSON on the text s between the quotes: its unit suffix. */
  function UnmarshalQuoted(s: string, parseFloat: FloatParser): Result<int, Error> {
    if Text.HasSuffix(s, "ns") then parseFloat(s[..|s| - 2], 1)
    else if Text.HasSuffix(s, Micro) then parseFloat(s[..|s| - 2], 1_000)
    else if Text.HasSuffix(s, "ms") then parseFloat(s[..|s| - 2], 1_000_000)
    else if Text.HasSuffix(s, "s") then UnmarshalSeconds(s[..|s| - 1], parseFloat)
    else parseFloat(s, Second)
  }

  /** UnmarshalJSON on the text t before a final 's' that makes no other
      unit: minutes and seconds when t has an 'm', else seconds. */
  function UnmarshalSeconds(t: string, parseFloat: FloatParser): Result<int, Error> {
    var i := Text.Index(t, 'm');
    if i == -1 then parseFloat(t, Second) else MinutesSeconds(t[..i], t[i + 1..])
  }

  /** UnmarshalJSON, with d the value of *d before the call and d' after. */
  method UnmarshalJSON(d: int, data: string, parseFloat: FloatParser) returns (d': int, err: Option<Error>)
    requires Text.HasPrefix(data, "\"") ==> |data| >= 2
    ensures Unmarshal(data, parseFloat) == if err.None? then Ok(d') else Err(err.value)
    ensures err.Some? ==> d' == d
  {
    d' := d;
    var s := data;
    var scale := Second;
    ghost var want := Unmarshal(data, parseFloat);
    if Text.HasPrefix(s, "\"") {
      s := s[1..|s| - 1];
      assert want == UnmarshalQuoted(s, parseFloat);
      if Text.HasSuffix(s, "ns") {
        scale := 1;
        s := s[..|s| - 2];
      } else if Text.HasSuffix(s, Micro) {
        scale := 1_000;
        s := s[..|s| - 2];
      } else if Text.HasSuffix(s, "ms") {
        scale := 1_000_000;
        s := s[..|s| - 2];
      } else if Text.HasSuffix(s, "s") {
        scale := Second;
        s := s[..|s| - 1];
        assert want == UnmarshalSeconds(s, parseFloat);
        var i := Text.Index(s, 'm');
        if i != -1 {
          assert want == MinutesSeconds(s[..i], s[i + 1..]);
          var m := Decimal.Atoi(s[..i]);
          if m.Err? {
            return d', Some(m.error);
          }
          var sec := Decimal.Atoi(s[i + 1..]);
          if sec.Err? {
            return d', Some(sec.error);
          }
          var total := Int64.Wrap(sec.value + Int64.Wrap(60 * m.value));
          return Int64.Wrap(total * Second), None;
        }
      }
    }
    assert want == parseFloat(s, scale);
    var f := parseFloat(s, scale);
    if f.Err? {
      return d', Some(f.error);
    }
    return f.value, None;
  }

  /** Unquoted data is read as seconds. */
  lemma UnmarshalUnquoted(data: string, parseFloat: FloatParser)
    requires !Text.HasPrefix(data, "\"")
    ensures Unmarshal(data, parseFloat) == parseFloat(data, Second)
  {
  }

  /** Between its quotes, a JSON string is read by its unit suffix. */
  lemma UnmarshalQuote(s: string, parseFloat: FloatParser)
    ensures Unmarshal(Quote(s), parseFloat) == UnmarshalQuoted(s, parseFloat)
  {
    var data := Quote(s);
    assert Text.HasPrefix(data, "\"") by { assert data[0] == '"'; }
    assert data[1..|data| - 1] == s;
  }

  /** A JSON string ending in "ns" holds a number of nanoseconds. */
  lemma UnmarshalNanos(x: string, parseFloat: FloatParser)
    ensures Unmarshal(Quote(x + "ns"), parseFloat) == parseFloat(x, 1)
  {
    var s := x + "ns";
    UnmarshalQuote(s, parseFloat);
    assert Text.HasSuffix(s, "ns") by { assert s[|s| - 2..] == "ns"; }
    assert s[..|s| - 2] == x;
  }

  /** A JSON string ending in the micro sign and 's' holds microseconds. */
  lemma UnmarshalMicros(x: string, parseFloat: FloatParser)
    ensures Unmarshal(Quote(x + Micro), parseFloat) == parseFloat(x, 1_000)
  {
    var s := x + Micro;
    UnmarshalQuote(s, parseFloat);
    var last := s[|s| - 2..];
    assert last == Micro;
    assert !Text.HasSuffix(s, "ns") by { assert last[0] != "ns"[0]; }
    assert s[..|s| - 2] == x;
  }

  /** A JSON string ending in "ms" holds milliseconds. */
  lemma UnmarshalMillis(x: string, parseFloat: FloatParser)
    ensures Unmarshal(Quote(x + "ms"), parseFloat) == parseFloat(x, 1_000_000)
  {
    var s := x + "ms";
    UnmarshalQuote(s, parseFloat);
    var last := s[|s| - 2..];
    assert last == "ms";
    assert !Text.HasSuffix(s, "ns") by { assert last[0] != "ns"[0]; }
    assert !Text.HasSuffix(s, Micro) by { assert last[0] != Micro[0]; }
    assert s[..|s| - 2] == x;
  }

  /** A final 's' that makes no other unit leaves the text before it to
      UnmarshalSeconds. */
  lemma UnmarshalSecondsSuffix(t: string, parseFloat: FloatParser)
    requires t == [] || t[|t| - 1] !in {'n', 'm', '\U{00B5}'}
    ensures Unmarshal(Quote(t + "s"), parseFloat) == UnmarshalSeconds(t, parseFloat)
  {
    var s := t + "s";
    UnmarshalQuote(s, parseFloat);
    if t == [] {
      assert s == "s";
    } else {
      var last := s[|s| - 2..];
      assert last == [t[|t| - 1], 's'];
      assert !Text.HasSuffix(s, "ns") by { assert last[0] != "ns"[0]; }
      assert !Text.HasSuffix(s, Micro) by { assert last[0] != Micro[0]; }
      assert !Text.HasSuffix(s, "ms") by { assert last[0] != "ms"[0]; }
    }
    assert Text.HasSuffix(s, "s") by { assert s[|s| - 1..] == "s"; }
    assert s[..|s| - 1] == t;
  }

  /** A JSON string ending in 's' after a number without 'm' (and not making
      another unit) holds seconds. */
  lemma UnmarshalWholeSeconds(x: string, parseFloat: FloatParser)
    requires 'm' !in x && (x == [] || x[|x| - 1] !in {'n', '\U{00B5}'})
    ensures Unmarshal(Quote(x + "s"), parseFloat) == parseFloat(x, Second)
  {
    UnmarshalSecondsSuffix(x, parseFloat);
  }

  /** "XmYs" with no 'm' in X (and Y not ending in a letter that would make
      another unit) is read with integer arithmetic: both parts must be
      decimal integers, and the first failing one gives the error. */
  lemma UnmarshalMinutes(a: string, b: string, parseFloat: FloatParser)
    requires 'm' !in a && b != [] && b[|b| - 1] !in {'n', 'm', '\U{00B5}'}
    ensures var r := Unmarshal(Quote(a + "m" + b + "s"), parseFloat);
            && (r.Ok? <==> Decimal.Atoi(a).Ok? && Decimal.Atoi(b).Ok?)
            && (r.Ok? ==> r.value == Int64.Wrap((60 * Decimal.Atoi(a).value + Decimal.Atoi(b).value) * Second))
            && (r.Err? ==> r.error == if Decimal.Atoi(a).Err? then Decimal.Atoi(a).error else Decimal.Atoi(b).error)
  {
    MinutesForm(a, b, parseFloat);
    MinutesSecondsValue(a, b);
  }

  /** Which branch of UnmarshalJSON "XmYs" takes. */
  lemma MinutesForm(a: string, b: string, parseFloat: FloatParser)
    requires 'm' !in a && b != [] && b[|b| - 1] !in {'n', 'm', '\U{00B5}'}
    ensures Unmarshal(Quote(a + "m" + b + "s"), parseFloat) == MinutesSeconds(a, b)
  {
    var t := a + "m" + b;
    assert t[|t| - 1] == b[|b| - 1];
    UnmarshalSecondsSuffix(t, parseFloat);
    Text.IndexAfter(a, 'm', b);
    assert t[..|a|] == a && t[|a| + 1..] == b;
  }

  /** What the "XmYs" branch yields. */
  lemma MinutesSecondsValue(a: string, b: string)
    ensures var r := MinutesSeconds(a, b);
            && (r.Ok? <==> Decimal.Atoi(a).Ok? && Decimal.Atoi(b).Ok?)
            && (r.Ok? ==> r.value == Int64.Wrap((60 * Decimal.Atoi(a).value + Decimal.Atoi(b).value) * Second))
            && (r.Err? ==> r.error == if Decimal.Atoi(a).Err? then Decimal.Atoi(a).error else Decimal.Atoi(b).error)
  {
    if Decimal.Atoi(a).Ok? && Decimal.Atoi(b).Ok? {
      MinutesSecondsOk(a, b, Decimal.Atoi(a).value, Decimal.Atoi(b).value);
    }
  }

  /** When both parts parse, to m and sec, the value is 60 m + sec seconds. */
  lemma MinutesSecondsOk(a: string, b: string, m: int, sec: int)
    requires Decimal.Atoi(a) == Ok(m) && Decimal.Atoi(b) == Ok(sec)
    ensures MinutesSeconds(a, b) == Ok(Int64.Wrap((60 * m + sec) * Second))
  {
    WrapWrap(sec, 60 * m, Second);
  }

  /** Wrapping the sum first does not change the wrapped product. */
  lemma WrapWrap(x: int, y: int, k: int)
    ensures Int64.Wrap(Int64.Wrap(x + Int64.Wrap(y)) * k) == Int64.Wrap((y + x) * k)
  {
    var s := Int64.Wrap(x + Int64.Wrap(y));
    var q := (s - (x + y)) / Int64.Modulus;
    assert s - (x + y) == Int64.Modulus * q by {
      assert (Int64.Wrap(y) - y) % Int64.Modulus == 0;
      assert (s - (x + Int64.Wrap(y))) % Int64.Modulus == 0;
      Arith.AddMultipleMod(s - (x + Int64.Wrap(y)), Int64.Wrap(y) - y, Int64.Modulus);
    }
    assert s * k == (x + y) * k + Int64.Modulus * (q * k);
    Arith.MulMod(Int64.Modulus, q * k);
    WrapSame(s * k, (y + x) * k);
  }

  /** Numbers that differ by a multiple of 2^64 wrap to the same int64. */
  lemma WrapSame(u: int, v: int)
    requires (u - v) % Int64.Modulus == 0
    ensures Int64.Wrap(u) == Int64.Wrap(v)
  {
    Arith.AddMultipleMod(v - Int64.MinInt64, u - v, Int64.Modulus);
  }

  /** Unmarshalling the JSON of a whole number of seconds above three
      minutes gives it back. */
  lemma MarshalRoundTrip(n: int, fixed: Fixed, parseFloat: FloatParser)
    requires ClockFrom < n <= Int64.MaxInt64 && n % Second == 0
    ensures Unmarshal(MarshalJSON(n, fixed), parseFloat) == Ok(n)
  {
    var total := n / Second;
    var min, sec := total / 60, total % 60;
    assert DurationString(n, fixed) == Decimal.Itoa(min) + "m" + TwoDigits(sec) + "s";
    assert 60 * min + sec == total && 0 <= total <= n;
    ClockRoundTrip(min, sec, parseFloat);
    assert total * Second == n;
  }

  /** The clock text of min minutes and sec seconds is read back as their
      (wrapped) number of nanoseconds. */
  lemma ClockRoundTrip(min: nat, sec: nat, parseFloat: FloatParser)
    requires sec < 60 && 60 * min <= Int64.MaxInt64
    ensures Unmarshal(Quote(Decimal.Itoa(min) + "m" + TwoDigits(sec) + "s"), parseFloat)
            == Ok(Int64.Wrap((60 * min + sec) * Second))
  {
    var a, b := Decimal.Itoa(min), TwoDigits(sec);
    ClockFields(min, sec);
    MinutesForm(a, b, parseFloat);
    MinutesSecondsOk(a, b, min, sec);
  }

  /** The minutes and seconds of the clock text are decimal numbers that
      Atoi reads back, and the seconds end in a digit. */
  lemma ClockFields(min: nat, sec: nat)
    requires sec < 60 && 60 * min <= Int64.MaxInt64
    ensures var a, b := Decimal.Itoa(min), TwoDigits(sec);
            && 'm' !in a && b != [] && Decimal.IsDigit(b[|b| - 1])
            && Decimal.Atoi(a) == Ok(min) && Decimal.Atoi(b) == Ok(sec)
  {
    var a, b := Decimal.Itoa(min), TwoDigits(sec);
    TwoDigitsValue(sec);
    assert Decimal.IsDigit(b[1]);
    assert Decimal.Atoi(a) == Ok(min) by { Decimal.ParseItoa(min, "Atoi"); }
    assert Decimal.Atoi(b) == Ok(sec) by { Decimal.AtoiDigits(b); }
  }
}
