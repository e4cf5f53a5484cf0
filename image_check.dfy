/** The Image check (ht/image.go): format, size and fingerprint of an image
    response. Decoding the body is outside the model: its outcome is a
    parameter, a decoded image reduced to its format and size. So are the
    results of the BMV hash parser and the two fingerprint deltas, which are
    floating point. The colour-histogram string is validated by module Color. */
module ImageCheck {
  import opened Wrappers
  import Errors
  import Decimal
  import Text
  import Color

  /** What image.Decode reports: the registered format name and the bounds. */
  datatype Decoded = Decoded(format: string, width: int, height: int)

  datatype Check = Check(format: string, width: int, height: int, fingerprint: string, threshold: real)

  /** The outcomes of the code outside the model that Execute consults. */
  datatype Fingerprints = Fingerprints(
    /** the error of fingerprint.BMVHashFromString on the check's string, if any */
    bmvParse: Option<Errors.Error>,
    /** BMVDelta between the check's and the image's block-mean-value hash */
    bmvDelta: real,
    /** ColorHistDelta between the check's and the image's colour histogram */
    colorHistDelta: real)

  /** The checks of format, width and height, in this order; an empty format
      and a non-positive size skip their check. Shared by both versions. */
  function SizeMismatch(format: string, width: int, height: int, d: Decoded): (r: Option<Errors.Error>)
    ensures r.None? <==> ((format == "" || d.format == format) &&
      (width <= 0 || d.width == width) && (height <= 0 || d.height == height))
    ensures format != "" && d.format != format ==>
      r == Some(Errors.Message("Got " + d.format + " image, want " + format))
    ensures (format == "" || d.format == format) && width > 0 && d.width != width ==>
      r == Some(Errors.Message("Got " + Decimal.Itoa(d.width) + " px wide image, want " + Decimal.Itoa(width)))
    ensures ((format == "" || d.format == format) && (width <= 0 || d.width == width) &&
      height > 0 && d.height != height) ==>
      r == Some(Errors.Message("Got " + Decimal.Itoa(d.height) + " px heigh image, want " + Decimal.Itoa(height)))
  {
    if format != "" && d.format != format then
      Some(Errors.Message("Got " + d.format + " image, want " + format))
    else if width > 0 && width != d.width then
      Some(Errors.Message("Got " + Decimal.Itoa(d.width) + " px wide image, want " + Decimal.Itoa(width)))
    else if height > 0 && height != d.height then
      Some(Errors.Message("Got " + Decimal.Itoa(d.height) + " px heigh image, want " + Decimal.Itoa(height)))
    else None
  }

  /** The fingerprint comparison of ht/image.go, chosen by the byte length of
      the fingerprint alone: 16 compares block mean values, 24 colour
      histograms, anything else nothing. */
  function FingerprintMismatch(c: Check, fp: Fingerprints): (r: Option<Errors.Error>)
    ensures Text.ByteLen(c.fingerprint) != 16 && Text.ByteLen(c.fingerprint) != 24 ==> r.None?
    ensures r.Some? && r.value.CantCheck? ==>
      (Text.ByteLen(c.fingerprint) == 16 && fp.bmvParse.Some?) ||
      (Text.ByteLen(c.fingerprint) == 24 && !Color.IsColorHistString(c.fingerprint))
    ensures Text.ByteLen(c.fingerprint) == 16 && fp.bmvParse.Some? ==>
      r == Some(Errors.CantCheck(Errors.Wrapped("bad BMV hash: ", fp.bmvParse.value)))
    ensures Text.ByteLen(c.fingerprint) == 16 && fp.bmvParse.None? ==>
      (r.None? <==> fp.bmvDelta <= c.threshold) &&
      (r.Some? ==> r == Some(Errors.FingerprintMismatch("BMV", fp.bmvDelta)))
    ensures Text.ByteLen(c.fingerprint) == 24 && !Color.IsColorHistString(c.fingerprint) ==>
      r == Some(Errors.CantCheck(Errors.Wrapped("bad ColorHist hash: ",
        Color.ColorHistError(c.fingerprint).value)))
    ensures Text.ByteLen(c.fingerprint) == 24 && Color.IsColorHistString(c.fingerprint) ==>
      (r.None? <==> fp.colorHistDelta <= c.threshold) &&
      (r.Some? ==> r == Some(Errors.FingerprintMismatch("ColorHist", fp.colorHistDelta)))
  {
    var n := Text.ByteLen(c.fingerprint);
    if n == 16 then
      if fp.bmvParse.Some? then Some(Errors.CantCheck(Errors.Wrapped("bad BMV hash: ", fp.bmvParse.value)))
      else if fp.bmvDelta > c.threshold then Some(Errors.FingerprintMismatch("BMV", fp.bmvDelta))
      else None
    else if n == 24 then
      match Color.ColorHistError(c.fingerprint)
      case Some(e) => Some(Errors.CantCheck(Errors.Wrapped("bad ColorHist hash: ", e)))
      case None =>
        if fp.colorHistDelta > c.threshold then Some(Errors.FingerprintMismatch("ColorHist", fp.colorHistDelta))
        else None
    else None
  }

  /** Image.Execute. */
  function Execute(c: Check, decoded: Result<Decoded, Errors.Error>, fp: Fingerprints): (r: Option<Errors.Error>)
    ensures decoded.Err? ==> r == Some(Errors.CantCheck(decoded.error))
    ensures decoded.Ok? && SizeMismatch(c.format, c.width, c.height, decoded.value).Some? ==>
      r == SizeMismatch(c.format, c.width, c.height, decoded.value)
    ensures r.None? <==> (decoded.Ok? &&
      SizeMismatch(c.format, c.width, c.height, decoded.value).None? && FingerprintMismatch(c, fp).None?)
  {
    match decoded
    case Err(e) => Some(Errors.CantCheck(e))
    case Ok(d) =>
      var size := SizeMismatch(c.format, c.width, c.height, d);
      if size.Some? then size else FingerprintMismatch(c, fp)
  }

  /** Image.Prepare: dispatches on the byte length of the fingerprint. */
  function Prepare(c: Check, bmvParse: Option<Errors.Error>): (r: Option<Errors.Error>)
    ensures Text.ByteLen(c.fingerprint) == 0 ==> r.None?
    ensures Text.ByteLen(c.fingerprint) == 16 ==> (r.None? <==> bmvParse.None?)
    ensures Text.ByteLen(c.fingerprint) == 24 ==> (r.None? <==> Color.IsColorHistString(c.fingerprint))
    ensures r.Some? && (Text.ByteLen(c.fingerprint) == 16 || Text.ByteLen(c.fingerprint) == 24) ==>
      r.value.MalformedCheck?
    ensures Text.ByteLen(c.fingerprint) !in {0, 16, 24} ==> r == Some(Errors.Message(
      "ht: image fingerprint has illegal length " + Decimal.Itoa(Text.ByteLen(c.fingerprint))))
  {
    var n := Text.ByteLen(c.fingerprint);
    if n == 0 then None
    else if n == 16 then
      if bmvParse.Some? then Some(Errors.MalformedCheck(bmvParse.value)) else None
    else if n == 24 then
      match Color.ColorHistError(c.fingerprint)
      case Some(e) => Some(Errors.MalformedCheck(e))
      case None => None
    else Some(Errors.Message("ht: image fingerprint has illegal length " + Decimal.Itoa(n)))
  }

  /** A check that Prepare accepted never reports CantCheck for a decodable
      image: Prepare and Execute consult the same parsers. */
  lemma PreparedChecksAreCheckable(c: Check, d: Decoded, fp: Fingerprints)
    requires Prepare(c, fp.bmvParse).None?
    ensures Execute(c, Ok(d), fp).Some? ==> !Execute(c, Ok(d), fp).value.CantCheck?
  {
  }

  /** An all-zero check against a decodable image passes. */
  lemma ZeroCheckPasses(d: Decoded, fp: Fingerprints)
    ensures Execute(Check("", 0, 0, "", 0.0), Ok(d), fp).None?
  {
  }
}

/** The older Image check (image.go): separate BMV and ColorHist strings,
    both checked when set (BMV first), and a Prepare that accepts anything. */
module LegacyImageCheck {
  import opened Wrappers
  import Errors
  import Color
  import ImageCheck

  datatype Check = Check(format: string, width: int, height: int, bmv: string, colorHist: string, threshold: real)

  /** The comparisons against the BMV and ColorHist strings, each skipped
      when its string is empty. */
  function FingerprintMismatch(c: Check, fp: ImageCheck.Fingerprints): (r: Option<Errors.Error>)
    ensures r.None? <==>
      (c.bmv == "" || (fp.bmvParse.None? && fp.bmvDelta <= c.threshold)) &&
      (c.colorHist == "" || (Color.IsColorHistString(c.colorHist) && fp.colorHistDelta <= c.threshold))
    ensures c.bmv != "" && fp.bmvParse.Some? ==>
      r == Some(Errors.CantCheck(Errors.Wrapped("bad BMV hash: ", fp.bmvParse.value)))
    ensures c.bmv != "" && fp.bmvParse.None? && fp.bmvDelta > c.threshold ==>
      r == Some(Errors.FingerprintMismatch("BMV", fp.bmvDelta))
    ensures ((c.bmv == "" || (fp.bmvParse.None? && fp.bmvDelta <= c.threshold)) &&
      c.colorHist != "" && !Color.IsColorHistString(c.colorHist)) ==>
      r == Some(Errors.CantCheck(Errors.Wrapped("bad ColorHist hash: ",
        Color.ColorHistError(c.colorHist).value)))
    ensures ((c.bmv == "" || (fp.bmvParse.None? && fp.bmvDelta <= c.threshold)) && c.colorHist != "" &&
      Color.IsColorHistString(c.colorHist) && fp.colorHistDelta > c.threshold) ==>
      r == Some(Errors.FingerprintMismatch("ColorHist", fp.colorHistDelta))
  {
    if c.bmv != "" && fp.bmvParse.Some? then
      Some(Errors.CantCheck(Errors.Wrapped("bad BMV hash: ", fp.bmvParse.value)))
    else if c.bmv != "" && fp.bmvDelta > c.threshold then
      Some(Errors.FingerprintMismatch("BMV", fp.bmvDelta))
    else if c.colorHist != "" && Color.ColorHistError(c.colorHist).Some? then
      Some(Errors.CantCheck(Errors.Wrapped("bad ColorHist hash: ", Color.ColorHistError(c.colorHist).value)))
    else if c.colorHist != "" && fp.colorHistDelta > c.threshold then
      Some(Errors.FingerprintMismatch("ColorHist", fp.colorHistDelta))
    else None
  }

  /** Image.Execute of image.go. */
  function Execute(c: Check, decoded: Result<ImageCheck.Decoded, Errors.Error>, fp: ImageCheck.Fingerprints): (r: Option<Errors.Error>)
    ensures decoded.Err? ==> r == Some(Errors.CantCheck(decoded.error))
    ensures decoded.Ok? && ImageCheck.SizeMismatch(c.format, c.width, c.height, decoded.value).Some? ==>
      r == ImageCheck.SizeMismatch(c.format, c.width, c.height, decoded.value)
    ensures r.None? <==> (decoded.Ok? &&
      ImageCheck.SizeMismatch(c.format, c.width, c.height, decoded.value).None? && FingerprintMismatch(c, fp).None?)
  {
    match decoded
    case Err(e) => Some(Errors.CantCheck(e))
    case Ok(d) =>
      var size := ImageCheck.SizeMismatch(c.format, c.width, c.height, d);
      if size.Some? then size else FingerprintMismatch(c, fp)
  }

  /** Image.Prepare of image.go: accepts every check. */
  function Prepare(c: Check): (r: Option<Errors.Error>)
    ensures r.None?
  {
    None
  }

  /** A malformed hash string makes the check unable to run rather than
      fail, for either fingerprint kind. */
  lemma BadHashIsCantCheck(c: Check, d: ImageCheck.Decoded, fp: ImageCheck.Fingerprints)
    requires ImageCheck.SizeMismatch(c.format, c.width, c.height, d).None?
    requires (c.bmv != "" && fp.bmvParse.Some?) ||
      (c.bmv == "" && c.colorHist != "" && !Color.IsColorHistString(c.colorHist))
    ensures Execute(c, Ok(d), fp).Some? && Execute(c, Ok(d), fp).value.CantCheck?
  {
  }
}
