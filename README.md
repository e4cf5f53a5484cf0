# ht: checks, variables, reports and recorder helpers, modelled in Dafny

ht is a Go tool that runs HTTP tests described in suites. Each test sends a request and runs checks on the response. This project models the small, sequential pieces of logic at its core and proves what they promise:

- **Boolean combinators** `AnyOne` and `None` (ht/boolean.go). Preparation collects every error. Execution stops at the first passing sub-check.
- **`ResponseTime`** (ht/time.go). Bounds on an int64 nanosecond duration.
- **`Image`, in two versions** (ht/image.go, image.go). The fingerprint dispatch on byte length, and the ordered format, width and height comparisons. Decoding and fingerprint deltas are given values.
- **Statuses and reports** (ht/report.go, report.go):
  - the six statuses and their names, and `MarshalText`;
  - `Stats`, `CombineTests`, the JUnit tally loop and the XML escaper.
- **Variables** (ht/variables.go):
  - `Repeat` with cyclic binding, `lcm` and `lcmOf`;
  - `newReplacer`, the field-by-field copy of `substituteVariables`;
  - `mergeVariables` and the NOW-offset arithmetic of `nowVariables`.
- **RANDOM variables** (ht/random.go): `setRandomVariable`, `parseRandomArgs`, `randomNumber` and `randomText`. The random draws, the regular expressions and `fmt.Sprintf` are injected functions.
- **`Duration`** (ht/duration.go): the unit selection of `si`, `clock`, `String`, `MarshalJSON` and `UnmarshalJSON`.
- **The command line** (ht/main.go): `Command.Name`, `-D name=value`, `splitTestIDs`, the ids built by `loadSuites`, and `shouldRun`.
- **The exec command's exit code** (cmd/ht/exec.go).
- **Recorder helpers** (recorder/recorder.go):
  - the rewrite flags, `Rewriter.header` and `singleJoiningSlash`;
  - `cookiePath` and `createSetCookieCheck`;
  - `extractCommonHeaders` and the leading checks of `extractChecks`.
- **Colour histograms** (fingerprint/color.go): `colorBin`, `NewColorHist`, `ColorHistFromString`, `colorBinSlice.Less` and the `macbeth` table.

Go's `int`/`int64` is modelled by unbounded integers, with wrap-around written out (`Int64.Wrap`) wherever the code can overflow. Go's truncating division is `Int64.Quot`/`Int64.Rem`. A Go panic is an explicit outcome: `None` of an `Option`, `Panics` of `Random.Run`, `Panicked` of `Report.StatsOutcome`, or `FatalID`/`PanicID` of `Cli.Parsed`, or `Exits`/`Panics` of `Cli.IDs`. Some panics are preconditions instead, and each is listed under "## Left out":

- `Report.Name` and `Report.KindOf` require a known status (`IsStatus`), for the slice index of `Status.String`;
- `Color.Histogram` and `Color.NewColorHist` require an image with pixels, for the division by the largest bin count, which is 0 only for an empty image;
- `Random.SetRandom` and `Random.SetRandomVariable` require a known name or one of at least 7 characters, for `r[7:]`;
- `Duration.Unmarshal` and `Duration.UnmarshalJSON` require at least 2 characters in all when the data starts with a quote, for `s[1:len(s)-1]`;
- `Variables.Lcm` requires positive lengths (or equal ones), because `lcm` does not terminate on 0;
- `Variables.LcmOf` requires non-empty value lists, because `lcm(n, 0)` does not terminate, which Go reaches when an empty list comes after a non-empty one in map order;
- `Variables.Repeat` requires non-empty value lists when `count > 0`, for `r % len(v)`, and `count >= 0`, for `make`.

Code that changes state in a loop is written as a method with a loop. Its `ensures` ties the result to a specification function, and the lemmas about that function state what the source promises. The helper modules are:

- `Wrappers`: `Option` and `Result`;
- `Errors`: the error values;
- `Int64`: wrap-around and Go's division;
- `Decimal`: `strconv.Itoa` and `strconv.ParseInt`/`Atoi`, with both round trips proved;
- `Text`: the `strings` functions used;
- `Arith` and `Sets`: arithmetic and set steps.

## Model

| member | source | states |
|---|---|---|
| Boolean.Prepare | ht/boolean.go:33-91 | AnyOne.Prepare (lines 33-45) and None.Prepare (lines 79-91) are the same loop: every sub-check is prepared, never stopping at the first malformed one. The result is nil iff all succeed. Otherwise it is the ErrorList of exactly the non-nil errors, in order, and never empty. |
| Boolean.NonNil | ht/boolean.go:34-40 | The collected errors: empty iff every outcome is nil, never longer than the outcomes, and each one is the error of some sub-check. |
| Boolean.NonNilAllFailed | ht/boolean.go:51-59 | When every sub-check fails, the collected errors are one per sub-check, in declaration order. |
| Boolean.Failures | ht/boolean.go:51-59 | The error list when all sub-checks failed: one entry per sub-check, entry i being sub-check i's error. |
| Boolean.FirstPass | ht/boolean.go:52-56 | The index of the first passing sub-check: None iff all fail; otherwise it passes and every earlier one fails. |
| Boolean.AnyOneExecute | ht/boolean.go:50-60 | Passes iff some sub-check passes, and then exactly the sub-checks up to the first passing one run. Otherwise all ran and the error is the ErrorList of all their errors, in order; with no sub-checks that is an empty ErrorList, a failure. |
| Boolean.NoneExecute | ht/boolean.go:96-104 | Passes iff every sub-check fails, including when there are none. Otherwise it stops at the first passing sub-check i and fails with "check i+1 passed". |
| ResponseTime.Execute | ht/time.go:28-42 | Both bounds set with Higher >= Lower gives MalformedCheck for every duration. Otherwise the check passes iff actual <= Lower (when Lower > 0) and actual >= Higher (when Higher > 0). The Lower violation is reported first. |
| ResponseTime.Prepare | ht/time.go:45 | Always nil. |
| ResponseTime.AcceptedInterval | ht/time.go:30-41 | A satisfiable check accepts a closed interval: between two accepted durations every duration is accepted, and both bounds themselves pass. |
| ResponseTime.ZeroCheckPasses | ht/time.go:28-42 | ResponseTime{} passes for every duration. |
| ImageCheck.SizeMismatch | ht/image.go:54-68 | Format, width and height are compared in that order, each skipped when empty or zero. The result is nil iff every set field matches. Otherwise it is the message of the first mismatch: "Got F image, want G", then "Got W px wide image, want V", then "Got H px heigh image, want K". |
| ImageCheck.FingerprintMismatch | ht/image.go:70-91 | The comparison is chosen by the fingerprint's byte length, and any length other than 16 or 24 compares nothing. At 16, a BMV hash that fails to parse gives CantCheck("bad BMV hash: " + its error). Otherwise the result is nil iff the BMV delta is at most the threshold, and the failure is FingerprintMismatch("BMV", delta). At 24 the same holds for ColorHist: a string that is not a ColorHist gives CantCheck("bad ColorHist hash: " + its error), and otherwise the ColorHist delta is compared. |
| ImageCheck.Execute | ht/image.go:47-94 | An undecodable body gives CantCheck. A size mismatch is reported before any fingerprint result. The check passes iff the image decodes, the sizes match and the fingerprint does. |
| ImageCheck.Prepare | ht/image.go:96-114 | An empty fingerprint is nil. Length 16 gives MalformedCheck iff the BMV string fails to parse, and length 24 iff it is not a ColorHist string. Any other length is the "illegal length" error. |
| ImageCheck.PreparedChecksAreCheckable | ht/image.go:70-114 | A check that Prepare accepted never yields CantCheck on a decodable image. |
| ImageCheck.ZeroCheckPasses | ht/image.go:47-94 | Image{} passes against every decodable body. |
| LegacyImageCheck.FingerprintMismatch | image.go:73-96 | BMV and ColorHist are compared independently, BMV first, each only when its string is set. The result is nil iff every set one parses and is within the threshold. A bad BMV hash gives CantCheck, and a BMV delta above the threshold gives the BMV mismatch. Only when BMV passes is ColorHist consulted, with the same two outcomes. |
| LegacyImageCheck.Execute | image.go:50-98 | An undecodable body gives CantCheck. Then the ordered size comparison, then the fingerprints. It passes iff all of them pass. |
| LegacyImageCheck.Prepare | image.go:100 | Always nil. |
| LegacyImageCheck.BadHashIsCantCheck | image.go:74-89 | A set hash string that does not parse makes Execute return CantCheck, not an assertion failure. |
| Report.StatusNamed | ht/report.go:26-37 | The inverse of Status.String: finds the status with a given name, or none when no status has that name. |
| Report.Name | ht/report.go:35-37 | Status.String of each of the values 0..5 is its name, and that name maps back to the status. |
| Report.MarshalText | ht/report.go:39-44 | Succeeds exactly for 0 <= s <= Bogus, with the status's name. Otherwise the error is "no such status s". |
| Report.Stats | ht/report.go:47-68 | With every status known, the six counts are the occurrences of each status and sum to the number of tests. Otherwise it panics on an unknown status it met. |
| Report.CountsTotal | ht/report.go:47-68 | The six counts of known statuses sum to the number of tests. |
| Report.TallyChecks | ht/report.go:442-473 | The inner JUnit loop over one test's check results. It yields the tally plus that of its statuses, and one testcase per check (check name, test name as class name, kind by status). It panics iff some status is unknown. |
| Report.JUnitTally | ht/report.go:438-474 | The JUnit loop over the main tests only (not setup or teardown). It returns the counts and testcases iff every check status is known, and panics with an unknown status otherwise. |
| Report.TallyCounts | ht/report.go:450-471 | skipped counts NotRun and Skipped, passed counts Pass, failed counts Fail, and errored counts Error and Bogus. |
| Report.JUnitTestsCounted | ht/report.go:488-492 | The tests attribute equals the number of testcases written. |
| Report.TallyTotal | ht/report.go:488-492 | For known statuses the four counters sum to the number of check results. |
| Report.TallyOfAppend | ht/report.go:441-474 | Counting is additive over concatenated result lists. |
| Report.XmlEscapeChars | ht/report.go:510-534 | The buffer loop writes Escaped(s): each of < > & " ' and tab becomes its entity, and every other character is copied. |
| Report.Escaped | ht/report.go:515-531 | No reserved character survives escaping. |
| Report.UnescapeEscaped | ht/report.go:510-534 | Escaping loses nothing: unescaping the escaped text gives back the original. |
| SuiteResult.CombineTests | report.go:59-67 | The maximum status: at least every test's status and at least NotRun. It is NotRun or one of the statuses, and one of them whenever some status is >= NotRun. |
| Exec.Tally | cmd/ht/exec.go:56-80 | The nested counting loops compute TotalsOf over every test of every suite, in order. |
| Exec.RunExecute | cmd/ht/exec.go:110-122 | The exit code is 3 if any test is Bogus, else 2 if any errored, else 1 if any failed, else 0. This is the documented severity. |
| Exec.TotalsCount | cmd/ht/exec.go:66-80 | Each counter counts the occurrences of its status, and total counts every test. |
| Exec.SeverityOfTotals | cmd/ht/exec.go:110-122 | The if-chain over the counters equals the documented exit code. |
| Exec.ExitCodeOfMultiset | cmd/ht/exec.go:61-122 | The exit code depends only on the multiset of statuses across all suites. |
| Exec.SkippedKeepsExitCode | cmd/ht/exec.go:67-78 | A Skipped or NotRun test never changes the exit code. |
| Exec.TotalsBound | cmd/ht/exec.go:66-79 | pass + error + skipped + failed + bogus <= total, with equality iff no test is NotRun or unknown. |
| Cli.Name | ht/main.go:33-40 | The usage line up to its first space, or all of it. The name holds no space, is a prefix of the usage, and is followed by a space when shorter. |
| Cli.NameOfUsage | ht/main.go:33-40 | "word rest" names word, and a usage line without a space names itself. |
| Cli.SetVarFirstEquals | ht/main.go:88-95 | "name=value" binds name to value when name holds no '='. So "a=b=c" binds a to "b=c". |
| Cli.SetVarFails | ht/main.go:88-95 | Set fails exactly on an argument without '=', with the "Bad argument" error. |
| Cli.CmdlVar.Set | ht/main.go:88-95 | On the map field: the new map is SetVar of the old one, and on an error the map is unchanged. |
| Cli.SplitTestIDs | ht/main.go:220-249 | The loop over the comma-separated ids computes SplitWith(f, "U", "D"): the ids read in order, stopping where mustAtoi ends the process or t[0] is out of range. |
| Cli.ReadID | ht/main.go:227-245 | One loop turn: the suite defaults to "1", a leading u/U or d/D becomes the marker "U"/"D", and both numbers are re-rendered through Atoi. |
| Cli.ParseAll | ht/main.go:225-226 | Each comma-separated part is read by the loop body. |
| Cli.CollectStops | ht/main.go:244-256 | Once an id ends the process, later ids change nothing. |
| Cli.CollectIDs | ht/main.go:226-248 | When no id ends the process, the ids are exactly those read, and every part was read. |
| Cli.SplitSingle | ht/main.go:225-248 | A list of one id is read by one turn of the loop. |
| Cli.ParseIDDefaultSuite | ht/main.go:227-231 | An id without a suite number is read as suite 1. |
| Cli.ParsedMarker | ht/main.go:232-245 | After its '.', every id read carries one of the two markers, a digit or a minus sign. |
| Cli.MarkerOfRendered | ht/main.go:245 | The character after the '.' of "a.<typ>b" is the first of typ, or b's first digit. |
| Cli.ParseTestID | ht/main.go:193-245 | An id built by loadSuites is read back with its kind replaced by the marker. |
| Cli.ParseNumbersID | ht/main.go:244-245 | The numbers of a loadSuites id are re-rendered unchanged. |
| Cli.SetupNeverSelected | ht/main.go:193-245 | As written, no -only or -skip list ever holds a setup ("s.ut") or teardown ("s.dt") id. |
| Cli.AsWrittenRenamesSetup | ht/main.go:193-245 | As written, the setup id "s.ut" is read as "s.Ut" and so is not selected. |
| Cli.IntendedSelectsEveryTest | ht/main.go:191-249 | With lower-case markers every loadSuites id, setup and teardown included, selects exactly itself. |
| Cli.ShouldRun | ht/main.go:207-218 | An id in skip, or missing from a non-empty only, sets Poll.Max to -1. Nothing else of the test changes, and otherwise nothing changes. |
| Decimal.ParseItoa | ht/main.go:244-245 | Rendering then parsing gives back every int64. |
| Decimal.ItoaParse | ht/main.go:244-245 | Parsing then rendering gives the canonical form, and a digit string without a leading zero is given back as it was. |
| Variables.Lcm | ht/variables.go:42-52 | For positive m and n: a common multiple of both, at most m*n and at most every common multiple. For m == n it is m. |
| Variables.LcmOf | ht/variables.go:55-65 | 0 for an empty map. Otherwise a common multiple of all list lengths that is at most every other common multiple. |
| Variables.LcmOfSingle | ht/variables.go:55-65 | With one list, lcmOf is that list's length. |
| Variables.LeastDividesCommon | ht/variables.go:54-65 | The least common multiple divides every common multiple. |
| Variables.NewReplacer | ht/variables.go:272-298 | Succeeds iff every "#N" key and its value parse as int64. Then str maps each other key k to its value ("{{k}}" is replaced) and fn maps N to the parsed value. Otherwise the error is that of some "#N" key. |
| Variables.IntPairError | ht/variables.go:276-286 | The integer pair's error is none iff both sides parse with ParseInt. |
| Variables.Binding | ht/variables.go:24-27 | Repetition r binds every variable k, and only those. |
| Variables.Bind | ht/variables.go:24-27 | The loop binds k to vars[k][r mod len(vars[k])]. |
| Variables.BindingPeriodic | ht/variables.go:20-27 | Repetitions a common multiple of all lengths apart bind the same values. |
| Variables.VarNotes | ht/variables.go:34-36 | The description notes list every current variable exactly once, as "\nVar k=<quoted v>". |
| Variables.RepetitionsParseStep | ht/variables.go:28-31 | Whether a repetition's replacer is built depends on that repetition's values, and one failure fails the whole call. |
| Variables.Repetition | ht/variables.go:24-36 | One turn of Repeat: either the fresh copy with the r-th values substituted and the notes appended, or the replacer's error. |
| Variables.Repeat | ht/variables.go:21-39 | Succeeds iff every repetition's replacer is built, and then returns exactly count fresh tests; count 0 gives none, whatever the lists. Repetition r is the test with the r-th values substituted and its notes. Otherwise the error is a replacer error of the first repetition whose replacer fails (all before it are built), and no tests. |
| Variables.SubstituteVariables | ht/variables.go:68-124 | A fresh test whose value is Substituted of the original. The original test is not modified. |
| Variables.Substituted | ht/variables.go:68-124 | Poll, Timeout, Verbosity, the sleeps, ClientPool, VarEx and Criticality are copied verbatim. The check count is kept. |
| Variables.ReplacedRequest | ht/variables.go:76-115 | FollowRedirects is kept, as are the param and header keys, the number of values per key, and the cookie count and names. |
| Variables.SubstitutedIdentity | ht/variables.go:68-124 | A replacement that changes nothing gives back the test. |
| Variables.ReplaceValues | ht/variables.go:93-109 | The param or header map with every value replaced, keys kept. |
| Variables.ReplaceCookies | ht/variables.go:112-115 | Every cookie value replaced, in order, names kept. |
| Variables.SubstituteChecks | ht/variables.go:118-121 | Every check substituted, in order. |
| VariablesNow.MergeVariables | ht/variables.go:250-258 | The nested loops compute Merged: later maps override earlier ones. |
| VariablesNow.CopyInto | ht/variables.go:253-255 | The inner loop gives result + e. |
| VariablesNow.MergedKeys | ht/variables.go:250-258 | A key is merged iff some input map has it. |
| VariablesNow.MergedValue | ht/variables.go:250-258 | A merged value is the one of the last map holding the key. |
| VariablesNow.OffsetNone | ht/variables.go:219-225 | The offset fails, by Atoi's panic, exactly when its number exceeds int64. |
| VariablesNow.OffsetShape | ht/variables.go:219-237 | Where the number fits, the offset is the signed number times the unit's seconds, in wrapped int64 nanoseconds. |
| VariablesNow.OffsetValue | ht/variables.go:219-237 | Where nothing overflows, the offset is sign * number * unit seconds * 10^9, with '-' giving the negative sign. |
| VariablesNow.DeltaDigitsParse | ht/variables.go:221-222 | The digits of an offset parse with Atoi to their value, or fail beyond int64. |
| VariablesNow.NanosValue | ht/variables.go:237 | Where the product fits, the nanoseconds are not wrapped. |
| VariablesNow.DayAsWrittenIsShort | ht/variables.go:234-235 | As written, "+1d" is 37440 s while "+24h" is 86400 s. |
| VariablesNow.DayIs24Hours | ht/variables.go:229-236 | With a day of 86400 s, n days is 24 times n hours. |
| VariablesNow.LayoutOf | ht/variables.go:239-242 | The layout is RFC1123 unless the match gives one. |
| VariablesNow.NowVariables | ht/variables.go:206-247 | The loop over the matches computes NowVars: a known name is skipped, and a number beyond int64 panics. With asWritten it uses the day of 37440 s the source multiplies by; without it, the intended 86400 s. |
| VariablesNow.NowVarsKeys | ht/variables.go:209-245 | For either day unit: panics iff the first occurrence of some name has an offset beyond int64. Otherwise the keys are exactly the names. |
| VariablesNow.NowVarsFirstWins | ht/variables.go:215-244 | For either day unit, each name's value is the formatted time at its first occurrence's offset and layout: each distinct name is computed once. |
| Random.ParseRandomArgs | ht/random.go:151-186 | The loop over the defaults computes ParseArgs. No match is an error, and a submatch count other than the defaults' panics. |
| Random.ArgsOfValues | ht/random.go:163-184 | One argument per default: the submatch, or the default where it is empty. It is an int (via Atoi) exactly where the default starts with '#'. |
| Random.ArgOfValue | ht/random.go:165-182 | The value of one argument, with the default filled in and '#' stripped. It parses iff Atoi accepts it. |
| Random.ArgsOfErrStays | ht/random.go:174-178 | Once an argument fails, parsing fails with its error. |
| Random.RandomNumber | ht/random.go:51-57 | Panics exactly when the argument list is shorter than 5 or its arguments 1, 2 and 4 have the wrong types. Otherwise a drawn value when the wrapped span is positive, and the "invalid range" error when it is not. |
| Random.RandomNumberRange | ht/random.go:51-57 | For bounds from the pattern, a value is drawn iff from <= to (and the span fits). The value is sprintf of some v in [from, to]. Otherwise the error is "invalid range [from,to]". |
| Random.RandomText | ht/random.go:95-121 | The word-collecting loop computes RandomTextSpec: an unknown corpus and a non-positive span are errors, and n = 0 gives "". |
| Random.TakeWords | ht/random.go:112-120 | The slice words[begin:begin+n] where it fits, and otherwise the appended copies cut to n: in both cases the n words of the cycle that starts at begin. |
| Random.RandomTextWords | ht/random.go:101-120 | A text is n words with min <= n <= max, consecutive from a begin before the last word and wrapping to the first word; empty for n = 0. |
| Random.Cycle | ht/random.go:109-120 | n consecutive corpus words from begin on, wrapping around. |
| Random.CycleInside | ht/random.go:112-113 | Where the words from begin suffice, the cycle is the slice words[begin:begin+n]. |
| Random.Select | ht/random.go:130-133 | The first random function, in the order NUMBER, TEXT, IMAGE, whose name starts the request. |
| Random.FindRandomFunc | ht/random.go:130-133 | The loop over randomFuncs finds Select. |
| Random.CallRandomFunc | ht/random.go:134-142 | The loop body: arguments parsed from the text after the name, then the function called. IMAGE has no function and panics. |
| Random.SetRandomVariable | ht/random.go:124-147 | The method computes SetRandom on the variable map. |
| Random.SetRandomKnown | ht/random.go:125-127 | A variable already set returns nil and leaves the map unchanged. |
| Random.SetRandomAdds | ht/random.go:139-144 | On success the map gains exactly the key r, and every other variable keeps its value. |
| Random.SetRandomNoSuchType | ht/random.go:130-146 | With no matching function name, the error is "no such random type r". |
| Random.SetRandomSelected | ht/random.go:130-144 | Once function i is selected, setRandomVariable ends as its call does. |
| Random.SetRandomFirstName | ht/random.go:130-133 | The function called is the first whose name is a prefix. |
| Corpora.TextCorpusWords | ht/random.go:59-93 | Every text of textCorpus has at least two words, so Intn(w-1) is defined. |
| Random.SourceCorpusIsEnv | ht/random.go:59-93 | The corpus that random TEXT draws from is textCorpus (Corpora.TextCorpus). With it and an in-range Intn, the environment meets IsEnv, the assumption under which RandomText is proved. |
| Duration.Si | ht/duration.go:33-55 | The scale loop of si computes SiText and never overflows. |
| Duration.SiNanos | ht/duration.go:34-41 | For \|n\| <= 999, si is the integer followed by "ns", with "-" for negative n. |
| Duration.SiScale | ht/duration.go:42-45 | Above 999 ns the scale is the smallest power of 1000, at least 1000, with n/scale <= 999. |
| Duration.ScaleStep | ht/duration.go:43-45 | Each loop turn keeps scale*1000 <= n and strictly lowers n/scale. |
| Duration.SiUnitKnown | ht/duration.go:19-28 | Within the range String gives to si, the unit is one of "µs", "ms" and "s". |
| Duration.SiPrecision | ht/duration.go:48-53 | The integer digits plus the decimals printed make three significant digits. |
| Duration.StringClock | ht/duration.go:19-62 | Above 180 s, String is "<min>m<ss>s" for the minutes and the seconds left, with min*60 + sec the whole seconds. |
| Duration.TwoDigitsValue | ht/duration.go:61 | %02d of 0..99 is two digits with that value. |
| Duration.UnmarshalJSON | ht/duration.go:68-107 | The new *d is Unmarshal(data). On an error *d is unchanged. |
| Duration.UnmarshalUnquoted | ht/duration.go:68-104 | Unquoted data is read as seconds. |
| Duration.UnmarshalQuote | ht/duration.go:71-72 | A quoted string is read by its unit suffix. |
| Duration.UnmarshalNanos | ht/duration.go:73-75 | "…ns" is read with scale 1. |
| Duration.UnmarshalMicros | ht/duration.go:76-78 | "…µs" is read with scale 1000. |
| Duration.UnmarshalMillis | ht/duration.go:79-81 | "…ms" is read with scale 10^6. |
| Duration.UnmarshalWholeSeconds | ht/duration.go:82-104 | "…s" without an 'm' is read with scale 10^9. |
| Duration.UnmarshalMinutes | ht/duration.go:85-96 | "XmYs" goes through Atoi twice. A non-number is an error, and otherwise the value is (60X+Y) * 10^9, wrapped. |
| Duration.MinutesSecondsOk | ht/duration.go:86-95 | When both parts parse, the value is the wrapped (60m + sec) seconds. |
| Duration.MarshalRoundTrip | ht/duration.go:19-107 | For whole-second durations above 180 s, unmarshalling the marshalled JSON gives back the duration. |
| Duration.ClockRoundTrip | ht/duration.go:58-96 | The clock text of min minutes and sec seconds is read back as 60*min + sec seconds. |
| Recorder.FlagAt | recorder/recorder.go:138-145 | Each rewrite flag 1 << (iota-1) is a single bit. |
| Recorder.FlagValues | recorder/recorder.go:138-145 | The flags are 1, 2, 4 and 8 and RewriteNothing is 0. Any combination selects exactly the flags it was built from. |
| Recorder.RewriteHeader | recorder/recorder.go:180-203 | The copy has every key except "Content-Length". Each value list is rewritten element by element when `do`, and copied when not. |
| Recorder.RewriteAll | recorder/recorder.go:191-198 | Each value rewritten, in place order. |
| Recorder.SingleJoiningSlash | recorder/recorder.go:257-267 | a and b are joined by exactly one "/": one trailing "/" of a and one leading "/" of b are dropped, and one is put between. |
| Recorder.CookiePath | recorder/recorder.go:717-728 | A cookie's own path is returned unchanged. Without one, the result is a panic (p[:i] with i = -1) exactly when the URL path holds no "/". |
| Recorder.DefaultCookiePath | recorder/recorder.go:722-727 | The default path is a prefix of the URL path: "/" for "/XYZ", otherwise the part before the last "/". |
| Recorder.Sub | recorder/recorder.go:737 | time.Sub: the difference, held at the int64 range, and positive when t is after u. |
| Recorder.CreateSetCookieCheck | recorder/recorder.go:730-763 | The flags are built one append at a time into the check SetCookieFor describes. |
| Recorder.SetCookieType | recorder/recorder.go:740-760 | Type is three words: httpOnly or exposed, secure or unsafe, and persistent iff the lifetime is positive, session otherwise. |
| Recorder.LifetimeRules | recorder/recorder.go:733-738 | A positive MaxAge gives MaxAge seconds. Otherwise an Expires after now gives expiry - now, and no positive MaxAge and no later Expires gives 0. |
| Recorder.MinLifetimeRules | recorder/recorder.go:751-758 | MinLifetime is lt - 10 s when lt > 10 s, lt when 0 < lt <= 10 s, and 0 for a session cookie. |
| Recorder.ExtractCommonHeaders | recorder/recorder.go:788-807 | Panics on an empty slice. Otherwise it returns Common(headers, 2) and deletes its keys from every map in place. |
| Recorder.CollectCommon | recorder/recorder.go:789-806 | The loop over the keys of headers[0] collects the common headers and deletes each from every map. |
| Recorder.SameFrom2 | recorder/recorder.go:792-798 | The comparison loop is true iff the header prints the same in every map from index 2 on. |
| Recorder.DeleteEverywhere | recorder/recorder.go:801-803 | h is deleted from every map and nothing else changes. |
| Recorder.IdenticalAll | recorder/recorder.go:793-798 | The recursive comparison agrees with the quantified one. |
| Recorder.AsWrittenIgnoresSecond | recorder/recorder.go:793 | With [{X:[a]}, {X:[b]}], X is common although it prints differently in the second map. |
| Recorder.CommonIntended | recorder/recorder.go:788-807 | Comparing from index 1, a header is common iff headers[0] has it and every map prints it the same. |
| Recorder.IsRedirectRange | recorder/recorder.go:562 | code/100 == 3 with Go's division holds exactly for 300 <= code < 400. |
| Recorder.ExtractChecks | recorder/recorder.go:559-597 | The leading checks in order: StatusCode, then ContentType, the cookie checks and Redirect. None when a cookie path panics. |
| Recorder.AddContentTypeCheck | recorder/recorder.go:567-576 | Appends the ContentType check of the media subtype, only for a type with "/" and not on a redirect. |
| Recorder.AddCookieChecks | recorder/recorder.go:578-591 | The cookie loop appends one check per cookie, in order, or panics with the first bad cookie path. |
| Recorder.CheckCookie | recorder/recorder.go:582-590 | A negative MaxAge or a past Expires gives DeleteCookie. Otherwise the SetCookie check with the cookie's path. |
| Recorder.CookieChecksStop | recorder/recorder.go:581-591 | Once a cookie path panics, the whole list does. |
| Recorder.CookieChecksKinds | recorder/recorder.go:581-591 | The cookies yield one DeleteCookie or SetCookie check each. |
| Recorder.LeadingChecksShape | recorder/recorder.go:562-597 | The first check is StatusCode(code). A Redirect check appears iff code is 3xx with a non-empty Location, and then it is last. A redirect never gets a ContentType check. |
| Color.MacbethTable | fingerprint/color.go:235-267 | The table has 24 entries, each component in 0..255. |
| Color.Nearest | fingerprint/color.go:216-231 | The chosen bin lies among those scanned. |
| Color.NearestIsArgmin | fingerprint/color.go:222-229 | No colour among the first n is nearer, and every earlier one is strictly farther. |
| Color.NearestBinIsNearest | fingerprint/color.go:216-231 | The bin has minimal squared RGB distance, with ties going to the lowest index. |
| Color.ColorBin | fingerprint/color.go:216-231 | The scan with a strictly smaller distance returns NearestBin, an index in [0,24). |
| Color.DistBound | fingerprint/color.go:222 | Every distance is below the initial minimum 200000, so the scan always finds a bin. |
| Color.CountBins | fingerprint/color.go:193-203 | The nested loops count the pixels per bin and track the largest count. |
| Color.NewColorHist | fingerprint/color.go:190-211 | Each bin is count*255/max. |
| Color.HistogramScaled | fingerprint/color.go:205-208 | For a non-empty image every bin is a byte, the fullest bin is 255, and an empty bin is 0. |
| Color.MaxCountIsMax | fingerprint/color.go:198-201 | max is the largest count, reached by some bin. |
| Color.SomeBinFilled | fingerprint/color.go:194-203 | A non-empty image fills some bin, so max > 0. |
| Color.CountStep | fingerprint/color.go:197-198 | One more pixel adds one to its bin only. |
| Color.ColorHistFromString | fingerprint/color.go:158-187 | Succeeds iff the byte length is 24 and every character is a base-32 digit, and a bad length is reported first. A '0' gives 0, and every other digit the clamped level. |
| Color.ColorHistError | fingerprint/color.go:160-172 | No error iff the string is a ColorHist string. |
| Color.FirstBadDigit | fingerprint/color.go:164-172 | The first non-digit: none iff all are base-32 digits, and all before it are digits. |
| Color.Clamp | fingerprint/color.go:176-182 | int(n) is clamped into 0..255 and unchanged when already a byte. |
| Color.LessIsStrict | fingerprint/color.go:118-120 | Less is irreflexive and transitive, and two bins are incomparable iff their counts are equal, so sorting puts fuller bins first. |
| Int64.Quot | recorder/recorder.go:562 | Go's division truncates toward zero: for a >= 0 the quotient q is the largest with b*q <= a, and for a < 0 the smallest with b*q >= a. The quotient is never negative for a >= 0 and never positive for a < 0. |

## Left out

- I/O, printing and logging are not modelled: report templates, HTML and JUnit file output, and the log lines of shouldRun and Rewriter.header.
- Concurrency is not modelled: executeSuites and prepareExecution. RunExecute takes the statuses after execution.
- Floating point is left out:
  - the printed digits of si (`%.*f`) are a parameter `fixed`;
  - the ParseFloat path of UnmarshalJSON is a parameter;
  - the gamma-corrected level of ColorHistFromString is a parameter `level`;
  - ColorHistDelta/l1Norm, ColorHist.String and ColorHist.Image are not modelled;
  - the BMV and ColorHist deltas are given values.
- Regular expressions are given as their submatches. This covers nowTimeRe, the randomFuncs patterns and the Rewriter patterns (a rewrite function). Rewriter construction is not modelled.
- Time formatting (`now.Add(off).Format`) and fmt.Sprintf of RANDOM NUMBER are given functions. The random source is an indexed oracle `intn`.
- strings.Replacer and the reflection walk over checks in substituteVariables are given functions.
- image.Decode and fingerprint.BMVHashFromString are given as results.
- Suite loading and flag parsing are not modelled, and neither is the rest of loadSuites beyond the ids it builds (Cli.TestID).
- Cookie parsing (Response.Cookies) is not modelled; the cookies are a parameter. time.Time is int nanoseconds, and the zero time is `expires == None`.
- Header key canonicalisation of http.Header Get/Del is not modelled: keys are compared as given.
- The content-based checks of extractChecks (HTML, image, PDF) are not modelled.
- ExtractCommonResponseHeaders and ExtractCommonRequestHeaders only collect the maps for extractCommonHeaders, and are not modelled.
- Recorder.RewriteHeader: Go's `vv[i] = w` also rewrites the caller's header slices in place. The model returns the rewritten copy only, and the aliasing is not captured. The source always uses the remote pattern and substitution, whatever pattern it is given.
- Recorder.Lifetime: a MaxAge whose seconds overflow int64 wraps (Int64.Wrap). Recorder.LifetimeRules states the MaxAge case only where it does not overflow.
- Duration.Micro is the two characters "µs" of a Dafny string, where Go strips three bytes. The byte count is not modelled.
- Variables.Lcm, Variables.LcmOf and Variables.Repeat require positive list lengths. lcm does not terminate on 0, which lcmOf reaches when an empty list follows a non-empty one in map order. For Repeat with count > 0, `r % len(v)` divides by zero.
- Variables.Repeat requires count >= 0: Go's `make` panics on a negative count.
- Report.Name and Report.KindOf require a known status: Go indexes a slice with it and panics otherwise. Report.Stats and Report.TallyChecks do model that panic as an outcome.
- Color.Histogram and Color.NewColorHist require a non-empty image: Go divides by the largest bin count, which is 0 for an empty image, and panics.
- Random.SetRandom and Random.SetRandomVariable require a name already set or one of at least 7 characters: Go slices `r[7:]` and panics on a shorter one.
- Duration.Unmarshal and Duration.UnmarshalJSON require 2 characters or more when the data starts with a quote: Go slices `s[1:len(s)-1]` and panics on the lone `"`.
- Report.XmlEscapeChars works on characters. Go decodes UTF-8 with utf8.DecodeRune and writes U+FFFD for an invalid byte; byte strings that are not UTF-8 are not modelled.
- Random.RandomNumberRange: its span does not overflow for bounds from the pattern, except to - from = MaxInt64, which it excludes.
- Random.SetRandomVariable returns the new map as a value (Run), where Go inserts into the caller's map.
- The IMAGE random function has no function and a pattern with too few groups. Calling it is the outcome Panics, not a precondition.
- Corpora.TextCorpus is stored as words already split at blanks. The texts hold no double blanks.
- String slicing is by character, where Go slices bytes. ImageCheck and Color use the UTF-8 byte length (Text.ByteLen) where the source tests len().
- The RANDOM EMAIL cases of the tests have no implementation in ht/random.go, and are not modelled.

## Findings

| source | as written | input that shows it | evidently intended | confidence | as-written member | corrected member |
|---|---|---|---|---|---|---|
| ht/variables.go:234-235 | the day unit multiplies by 24*26*60 = 37440 seconds | `{{NOW + 1d}}` gives 37440 s, while `{{NOW + 24h}}` gives 86400 s | 24*60*60 = 86400 seconds | not executed | VariablesNow.DayAsWrittenIsShort | VariablesNow.DayIs24Hours |
| recorder/recorder.go:793 | the comparison starts at j := 2, so headers[1] is never compared | headers [{X:[a]}, {X:[b]}]: X is returned as common and deleted from both | start at index 1 | not executed | Recorder.AsWrittenIgnoresSecond | Recorder.CommonIntended |
| ht/main.go:233-245 | splitTestIDs writes the markers "U"/"D", while loadSuites builds "1.u1"/"1.d1" | `-skip 1.u1` stores "1.U1", so setup test 1.u1 still runs | use the lower-case markers loadSuites uses | not executed | Cli.AsWrittenRenamesSetup | Cli.IntendedSelectsEveryTest |
