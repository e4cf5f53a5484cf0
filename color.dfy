/** Colour histograms over the 24 Macbeth colours (fingerprint/color.go):
    nearest-colour binning, histogram normalisation to 255, the string
    form's validation, and the ordering of bins by count. */
module Color {
  import opened Wrappers
  import Errors
  import Text
  import Arith

  /** An 8-bit RGB colour: the top byte of each 16-bit channel that
      color.Color.RGBA reports. */
  datatype RGB = RGB(r: int, g: int, b: int)

  predicate IsByte(x: int) {
    0 <= x <= 255
  }

  predicate IsRGB(c: RGB) {
    IsByte(c.r) && IsByte(c.g) && IsByte(c.b)
  }

  const Bins: nat := 24

  /** The macbeth table: natural, miscellaneous, primary/secondary and
      grey-scale colours of the ColorChecker. */
  const Macbeth: seq<RGB> := [
    RGB(0x73, 0x52, 0x44), RGB(0xc2, 0x96, 0x82), RGB(0x62, 0x7a, 0x9d),
    RGB(0x57, 0x6c, 0x43), RGB(0x85, 0x80, 0xb1), RGB(0x67, 0xbd, 0xaa),
    RGB(0xd6, 0x7e, 0x2c), RGB(0x50, 0x5b, 0xa6), RGB(0xc1, 0x5a, 0x63),
    RGB(0x5e, 0x3c, 0x6c), RGB(0x9d, 0xbc, 0x40), RGB(0xe0, 0xa3, 0x2e),
    RGB(0x38, 0x3d, 0x96), RGB(0x46, 0x94, 0x49), RGB(0xaf, 0x36, 0x3c),
    RGB(0xe7, 0xc7, 0x1f), RGB(0xbb, 0x56, 0x95), RGB(0x08, 0x85, 0xa1),
    RGB(0xf3, 0xf3, 0xf2), RGB(0xc8, 0xc8, 0xc8), RGB(0xa0, 0xa0, 0xa0),
    RGB(0x7a, 0x7a, 0x79), RGB(0x55, 0x55, 0x55), RGB(0x34, 0x34, 0x34)
  ]

  /** The table has one colour per bin, each a valid 8-bit colour. */
  lemma MacbethTable()
    ensures |Macbeth| == Bins
    ensures forall i :: 0 <= i < |Macbeth| ==> IsRGB(Macbeth[i])
  {
  }

  /** Squared Euclidean distance in RGB space to Macbeth colour i. */
  function Dist(c: RGB, i: nat): int
    requires i < Bins
  {
    var m := Macbeth[i];
    (c.r - m.r) * (c.r - m.r) + (c.g - m.g) * (c.g - m.g) + (c.b - m.b) * (c.b - m.b)
  }

  /** The first bin among the first n whose colour is nearest to c. */
  function Nearest(c: RGB, n: nat): (bin: nat)
    requires 1 <= n <= Bins
    ensures bin < n
  {
    if n == 1 then 0
    else
      var b := Nearest(c, n - 1);
      if Dist(c, n - 1) < Dist(c, b) then n - 1 else b
  }

  /** Nearest is an argmin: no colour among the first n is nearer, and every
      earlier colour is strictly farther. */
  lemma {:induction false} NearestIsArgmin(c: RGB, n: nat)
    requires 1 <= n <= Bins
    ensures forall i :: 0 <= i < n ==> Dist(c, Nearest(c, n)) <= Dist(c, i)
    ensures forall i :: 0 <= i < Nearest(c, n) ==> Dist(c, Nearest(c, n)) < Dist(c, i)
  {
    if n > 1 {
      NearestIsArgmin(c, n - 1);
    }
  }

  /** The bin of colour c: nearest Macbeth colour, lowest index on ties. */
  function NearestBin(c: RGB): (bin: nat)
    ensures bin < Bins
  {
    Nearest(c, Bins)
  }

  /** The nearest bin has the minimal distance, and ties go to the lowest index. */
  lemma NearestBinIsNearest(c: RGB)
    ensures forall i :: 0 <= i < Bins ==> Dist(c, NearestBin(c)) <= Dist(c, i)
    ensures forall i :: 0 <= i < NearestBin(c) ==> Dist(c, NearestBin(c)) < Dist(c, i)
  {
    NearestIsArgmin(c, Bins);
  }

  lemma DistBound(c: RGB, i: nat)
    requires IsRGB(c) && i < Bins
    ensures 0 <= Dist(c, i) <= 3 * 255 * 255
  {
    MacbethTable();
    var m := Macbeth[i];
    assert IsRGB(m);
    SquareBound(c.r - m.r);
    SquareBound(c.g - m.g);
    SquareBound(c.b - m.b);
  }

  lemma SquareBound(d: int)
    requires -255 <= d <= 255
    ensures 0 <= d * d <= 255 * 255
  {
    var e := if d < 0 then -d else d;
    assert d * d == e * e;
    Arith.MulMono(e, 0, e);
    Arith.MulMono(e, e, 255);
  }

  /** colorBin: a linear scan keeping the strictly smaller distance,
      starting from 200000, which exceeds every possible distance. */
  method ColorBin(c: RGB) returns (bin: int)
    requires IsRGB(c)
    ensures 0 <= bin < Bins && bin == NearestBin(c)
  {
    var min := 200000;
    bin := -1;
    for i := 0 to Bins
      invariant i == 0 ==> bin == -1 && min == 200000
      invariant i > 0 ==> 0 <= bin < i && bin == Nearest(c, i) && min == Dist(c, bin)
    {
      DistBound(c, i);
      var d := Dist(c, i);
      if d < min {
        min, bin := d, i;
      }
    }
  }

  // ------------------------------------------------------------------------
  // NewColorHist

  /** An image as its rows of pixels, top to bottom. */
  type Image = seq<seq<RGB>>

  predicate IsImage(img: Image) {
    forall y, x :: 0 <= y < |img| && 0 <= x < |img[y]| ==> IsRGB(img[y][x])
  }

  /** The pixels row after row. */
  function Pixels(img: Image): seq<RGB> {
    if img == [] then [] else Pixels(img[..|img| - 1]) + img[|img| - 1]
  }

  /** How many of the pixels fall into bin b. */
  function Count(ps: seq<RGB>, b: nat): nat {
    if ps == [] then 0
    else Count(ps[..|ps| - 1], b) + (if NearestBin(ps[|ps| - 1]) == b then 1 else 0)
  }

  /** The largest of the first n bin counts. */
  function MaxCount(ps: seq<RGB>, n: nat): nat
    requires n <= Bins
  {
    if n == 0 then 0
    else
      var m := MaxCount(ps, n - 1);
      if Count(ps, n - 1) > m then Count(ps, n - 1) else m
  }

  /** MaxCount is the maximum: no bin exceeds it, and some bin reaches it. */
  lemma {:induction false} MaxCountIsMax(ps: seq<RGB>, n: nat)
    requires n <= Bins
    ensures forall b :: 0 <= b < n ==> Count(ps, b) <= MaxCount(ps, n)
    ensures n > 0 ==> exists b :: 0 <= b < n && Count(ps, b) == MaxCount(ps, n)
  {
    if n > 0 {
      MaxCountIsMax(ps, n - 1);
    }
  }

  /** A pixel falls into some bin, so a non-empty image fills some bin. */
  lemma {:induction false} SomeBinFilled(ps: seq<RGB>)
    requires ps != []
    ensures MaxCount(ps, Bins) > 0
  {
    var b := NearestBin(ps[|ps| - 1]);
    assert Count(ps, b) > 0;
    MaxCountIsMax(ps, Bins);
  }

  /** The histogram NewColorHist computes for a non-empty image. */
  function Histogram(img: Image): (ch: seq<int>)
    requires Pixels(img) != []
    ensures |ch| == Bins
  {
    var ps := Pixels(img);
    SomeBinFilled(ps);
    seq(Bins, b requires 0 <= b < Bins => Count(ps, b) * 255 / MaxCount(ps, Bins))
  }

  /** Every bin of the histogram is a byte, the fullest bin is 255 and an
      empty bin is 0. */
  lemma HistogramScaled(img: Image)
    requires Pixels(img) != []
    ensures forall b :: 0 <= b < Bins ==> IsByte(Histogram(img)[b])
    ensures exists b :: 0 <= b < Bins && Histogram(img)[b] == 255
    ensures forall b :: 0 <= b < Bins && Count(Pixels(img), b) == 0 ==> Histogram(img)[b] == 0
  {
    var ps := Pixels(img);
    var m := MaxCount(ps, Bins);
    SomeBinFilled(ps);
    MaxCountIsMax(ps, Bins);
    var h := Histogram(img);
    forall b | 0 <= b < Bins
      ensures IsByte(h[b]) && (Count(ps, b) == 0 ==> h[b] == 0)
    {
      assert h[b] == Count(ps, b) * 255 / m;
      ScaleBound(Count(ps, b), m);
    }
    var b :| 0 <= b < Bins && Count(ps, b) == m;
    assert h[b] == m * 255 / m;
    ScaleBound(m, m);
  }

  lemma {:induction false} MaxCountNone(n: nat)
    requires n <= Bins
    ensures MaxCount([], n) == 0
  {
    if n > 0 {
      MaxCountNone(n - 1);
    }
  }

  lemma ScaleBound(h: nat, m: nat)
    requires 0 < m && h <= m
    ensures 0 <= h * 255 / m <= 255
    ensures h == 0 ==> h * 255 / m == 0
    ensures h == m ==> h * 255 / m == 255
  {
    var x := h * 255;
    var q := x / m;
    assert x == m * q + x % m;
    if q < 0 {
      Arith.MulAtMost(m, q);
      assert false;
    } else if q > 255 {
      Arith.MulStrict(m, 255, q);
      assert false;
    }
    if h == 0 {
      Arith.DivUnique(x, m, 0, 0);
    } else if h == m {
      Arith.DivUnique(x, m, 255, 0);
    }
  }

  /** The nested loops of NewColorHist: counts the pixels per bin and
      tracks the largest count. */
  method CountBins(img: Image) returns (hist: seq<int>, max: int)
    requires IsImage(img)
    ensures |hist| == Bins
    ensures forall b :: 0 <= b < Bins ==> hist[b] == Count(Pixels(img), b)
    ensures max == MaxCount(Pixels(img), Bins)
  {
    var h := new int[Bins](_ => 0);
    max := 0;
    MaxCountNone(Bins);
    for y := 0 to |img|
      invariant forall b :: 0 <= b < Bins ==> h[b] == Count(Pixels(img[..y]), b)
      invariant max == MaxCount(Pixels(img[..y]), Bins)
    {
      assert img[..y + 1][..y] == img[..y];
      max := CountRow(h, img[y], Pixels(img[..y]), max);
    }
    assert img[..|img|] == img;
    hist := h[..];
  }

  /** The inner loop of NewColorHist over one row of pixels, continuing the
      counts and the maximum of the pixels `done` before it. */
  method CountRow(h: array<int>, row: seq<RGB>, ghost done: seq<RGB>, max0: int) returns (max: int)
    requires h.Length == Bins && forall x :: 0 <= x < |row| ==> IsRGB(row[x])
    requires forall b :: 0 <= b < Bins ==> h[b] == Count(done, b)
    requires max0 == MaxCount(done, Bins)
    modifies h
    ensures forall b :: 0 <= b < Bins ==> h[b] == Count(done + row, b)
    ensures max == MaxCount(done + row, Bins)
  {
    max := max0;
    assert done + row[..0] == done;
    assert h[..] == Counts(done);
    for x := 0 to |row|
      invariant h[..] == Counts(done + row[..x])
      invariant max == MaxCount(done + row[..x], Bins)
    {
      var bin := ColorBin(row[x]);
      ghost var before := done + row[..x];
      assert done + row[..x + 1] == before + [row[x]];
      CountsSnoc(before, row[x]);
      h[bin] := h[bin] + 1;
      if h[bin] > max {
        max := h[bin];
      }
      MaxStep(before, row[x], max);
    }
    assert row[..|row|] == row;
    assert forall b :: 0 <= b < Bins ==> h[b] == h[..][b];
  }

  /** The counts of all bins. */
  function Counts(ps: seq<RGB>): (r: seq<nat>)
    ensures |r| == Bins && forall b :: 0 <= b < Bins ==> r[b] == Count(ps, b)
  {
    seq(Bins, b requires 0 <= b < Bins => Count(ps, b))
  }

  /** One more pixel adds one to the count of its bin only. */
  lemma CountsSnoc(ps: seq<RGB>, p: RGB)
    ensures Counts(ps + [p]) == Counts(ps)[NearestBin(p) := Counts(ps)[NearestBin(p)] + 1]
  {
    CountStep(ps, p);
  }

  /** NewColorHist: scales each bin count by 255/max with integer division. */
  method NewColorHist(img: Image) returns (ch: seq<int>)
    requires IsImage(img) && Pixels(img) != []
    ensures ch == Histogram(img)
  {
    var hist, max := CountBins(img);
    SomeBinFilled(Pixels(img));
    var out := new int[Bins];
    for bin := 0 to Bins
      invariant forall b :: 0 <= b < bin ==> out[b] == Histogram(img)[b]
    {
      out[bin] := hist[bin] * 255 / max;
    }
    ch := out[..];
  }

  /** One more pixel adds one to its own bin and nothing to the others. */
  lemma CountStep(ps: seq<RGB>, p: RGB)
    ensures forall b :: Count(ps + [p], b) == Count(ps, b) + (if NearestBin(p) == b then 1 else 0)
  {
    assert (ps + [p])[..|ps|] == ps;
  }

  /** The new maximum is the old one or the count of the pixel's bin. */
  lemma MaxStep(ps: seq<RGB>, p: RGB, max: int)
    requires var m := MaxCount(ps, Bins); var c := Count(ps + [p], NearestBin(p));
      max == if c > m then c else m
    ensures max == MaxCount(ps + [p], Bins)
  {
    CountStep(ps, p);
    MaxCountIsMax(ps, Bins);
    MaxCountIsMax(ps + [p], Bins);
    var m := MaxCount(ps + [p], Bins);
    var b :| 0 <= b < Bins && Count(ps + [p], b) == m;
    assert Count(ps + [p], NearestBin(p)) <= m;
  }

  // ------------------------------------------------------------------------
  // ColorHistFromString

  /** A digit of strconv.ParseUint in base 32: 0-9, a-v, A-V. */
  function Base32Digit(c: char): Option<nat> {
    if '0' <= c <= '9' then Some(c as nat - '0' as nat)
    else if 'a' <= c <= 'v' then Some(c as nat - 'a' as nat + 10)
    else if 'A' <= c <= 'V' then Some(c as nat - 'A' as nat + 10)
    else None
  }

  /** The strings ColorHistFromString accepts: 24 bytes, each a base-32 digit. */
  predicate IsColorHistString(s: string) {
    Text.ByteLen(s) == Bins && forall i :: 0 <= i < |s| ==> Base32Digit(s[i]).Some?
  }

  /** The position of the first character that is not a base-32 digit. */
  function FirstBadDigit(s: string): (r: Option<nat>)
    ensures r.None? <==> forall i :: 0 <= i < |s| ==> Base32Digit(s[i]).Some?
    ensures r.Some? ==> (r.value < |s| && Base32Digit(s[r.value]).None? &&
      forall j :: 0 <= j < r.value ==> Base32Digit(s[j]).Some?)
  {
    if s == [] then None
    else if Base32Digit(s[0]).None? then Some(0)
    else
      match FirstBadDigit(s[1..])
      case None => None
      case Some(i) => Some(i + 1)
  }

  /** The error ColorHistFromString returns for s, if any: a bad length, or
      strconv's syntax error for the first character that is no digit. */
  function ColorHistError(s: string): (r: Option<Errors.Error>)
    ensures r.None? <==> IsColorHistString(s)
  {
    if Text.ByteLen(s) != Bins then Some(Errors.BadColorHistString(s))
    else
      match FirstBadDigit(s)
      case None => None
      case Some(i) => Some(Errors.NumError("ParseUint", [s[i]], false))
  }

  /** int(n) clamped into a byte, as ColorHistFromString stores it. */
  function Clamp(m: int): (r: int)
    ensures IsByte(r)
    ensures IsByte(m) ==> r == m
  {
    if m > 255 then 255 else if m < 0 then 0 else m
  }

  /** ColorHistFromString. The gamma-corrected float `int(256*((a+0.5)/32)^(1/gamma))`
      for a digit a is the parameter `level`; a '0' digit is stored as 0
      without it. */
  method ColorHistFromString(s: string, level: nat -> int) returns (r: Result<seq<int>, Errors.Error>)
    ensures r.Ok? <==> IsColorHistString(s)
    ensures r.Err? ==> Some(r.error) == ColorHistError(s)
    ensures r.Ok? ==> |r.value| == Bins && forall i :: 0 <= i < Bins ==>
      IsByte(r.value[i]) &&
      r.value[i] == (if s[i] == '0' then 0 else Clamp(level(Base32Digit(s[i]).value)))
  {
    var ch := new int[Bins](_ => 0);
    if Text.ByteLen(s) != Bins {
      return Err(Errors.BadColorHistString(s));
    }
    for i := 0 to |s|
      invariant forall j :: 0 <= j < i ==> Base32Digit(s[j]).Some?
      invariant forall j :: 0 <= j < i ==>
        ch[j] == (if s[j] == '0' then 0 else Clamp(level(Base32Digit(s[j]).value)))
    {
      if s[i] == '0' {
        ch[i] := 0;
        continue;
      }
      var a := Base32Digit(s[i]);
      if a.None? {
        assert FirstBadDigit(s) == Some(i) by {
          FirstBadDigitAt(s, i);
        }
        return Err(Errors.NumError("ParseUint", [s[i]], false));
      }
      ch[i] := Clamp(level(a.value));
    }
    assert forall j :: 0 <= j < |s| ==> (s[j] as int) < 0x80;
    return Ok(ch[..]);
  }

  lemma FirstBadDigitAt(s: string, i: nat)
    requires i < |s| && Base32Digit(s[i]).None?
    requires forall j :: 0 <= j < i ==> Base32Digit(s[j]).Some?
    ensures FirstBadDigit(s) == Some(i)
  {
    var r := FirstBadDigit(s);
    assert r.Some?;
    assert !(r.value < i) && !(i < r.value);
  }

  // ------------------------------------------------------------------------
  // colorBinSlice

  /** A colour bin: its count and the Macbeth index it stands for. */
  datatype CBin = CBin(count: int, cidx: int)

  /** colorBinSlice.Less: sorting puts fuller bins first. */
  predicate Less(p: seq<CBin>, i: nat, j: nat)
    requires i < |p| && j < |p|
  {
    p[i].count > p[j].count
  }

  /** Less is a strict order on positions: irreflexive and transitive, and
      two bins are unordered exactly when their counts are equal. */
  lemma LessIsStrict(p: seq<CBin>, i: nat, j: nat, k: nat)
    requires i < |p| && j < |p| && k < |p|
    ensures !Less(p, i, i)
    ensures Less(p, i, j) && Less(p, j, k) ==> Less(p, i, k)
    ensures !Less(p, i, j) && !Less(p, j, i) <==> p[i].count == p[j].count
  {
  }
}
