/** The error values returned by the modelled code. Messages whose text is
    built only from strings and integers are spelled out in `Message`; errors
    whose text is rendered by code outside the model keep their arguments. */
module Errors {

  datatype Error =
    /** fmt.Errorf with a message the model spells out literally. */
    | Message(text: string)
    /** fmt.Errorf(prefix + "%s", cause). */
    | Wrapped(prefix: string, cause: Error)
    /** An error produced by code outside the model (an image decoder, a hash parser). */
    | Foreign(origin: string)
    /** strconv.NumError: function name, input text, and whether the input was
        syntactically valid but out of range. */
    | NumError(func: string, num: string, outOfRange: bool)
    /** ResponseTime: "Response took %s (allowed max %s)." */
    | SlowResponse(took: int, allowedMax: int)
    /** ResponseTime: "Response took %s (required min %s)." */
    | FastResponse(took: int, requiredMin: int)
    /** Image: "Got BMV|ColorHist of %s, want %s (delta=%.4f)". */
    | FingerprintMismatch(kind: string, delta: real)
    /** fingerprint: "Bad format for ColorHist string %q". */
    | BadColorHistString(s: string)
    /** random: "ht: cannot parse argument %q to %s as %q". */
    | UnparsableRandomArgs(args: string, funcName: string)
    /** random: "ht: no such random type %q". */
    | NoSuchRandomType(r: string)
    /** A check could not be evaluated against the response. */
    | CantCheck(cause: Error)
    /** A check's own configuration is invalid. */
    | MalformedCheck(cause: Error)
    /** ht.ErrorList: several errors, in order. */
    | ErrorList(errors: seq<Error>)
}
