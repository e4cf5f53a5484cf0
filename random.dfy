/** The RANDOM variables of a test ("RANDOM NUMBER 10-99 %03d",
    "RANDOM TEXT de 3-8"). The process-wide random source, the regular
    expressions of the random functions and fmt.Sprintf are outside the
    model and injected as functions (see Env). A Go panic is the outcome
    Panics, of the specification functions and of the methods alike. */
module Random {
  import opened Wrappers
  import opened Errors
  import Decimal
  import Text
  import Int64
  import Arith
  import Corpora

  /** An argument handed to a random function: an int for an argument
      whose default starts with '#', a string otherwise. */
  datatype Arg = IntArg(n: int) | StrArg(s: string)

  /** The outcome of code that may return a value, return an error or
      panic. */
  datatype Run<T> = Returns(value: T) | Fails(error: Error) | Panics

  /** A random function: its name and the defaults of its arguments. */
  datatype RandomFunc = RandomFunc(name: string, args: seq<string>)

  const NumberFunc: RandomFunc := RandomFunc("NUMBER", ["", "#1", "#", "", "%d"])
  const TextFunc: RandomFunc := RandomFunc("TEXT", ["", "fr", "", "#4", "#"])
  const ImageFunc: RandomFunc := RandomFunc("IMAGE", ["", "any", "#180", "#120"])

  /** randomFuncs, in the order they are tried. */
  const RandomFuncs: seq<RandomFunc> := [NumberFunc, TextFunc, ImageFunc]

  /** The code outside the model:
        submatch(name, s) is FindStringSubmatch of the pattern of the random
          function called name on s, without the whole match (None where it
          does not match);
        intn(k, n) is the k-th draw Random.Intn(n) of one call;
        sprintf(format, n) is fmt.Sprintf(format, n);
      corpus is the package variable textCorpus, each text already split
      into its words: Corpora.TextCorpus, as SourceCorpusIsEnv states. */
  datatype Env = Env(submatch: (string, string) -> Option<seq<string>>,
                     intn: (nat, int) -> int,
                     sprintf: (string, int) -> string,
                     corpus: map<string, seq<string>>)

  /** rand.Intn(n) lies in [0, n) for positive n, and every corpus has at
      least two words (Intn(w - 1) panics otherwise). */
  ghost predicate IsEnv(env: Env) {
    && (forall k: nat, n: int :: n > 0 ==> 0 <= env.intn(k, n) < n)
    && (forall lang :: lang in env.corpus ==> |env.corpus[lang]| >= 2)
  }

  /** With the program's own textCorpus and a draw that keeps in range, the
      environment meets IsEnv: every text has the two words Intn(w - 1)
      needs. */
  lemma SourceCorpusIsEnv(env: Env)
    requires env.corpus == Corpora.TextCorpus
    requires forall k: nat, n: int :: n > 0 ==> 0 <= env.intn(k, n) < n
    ensures IsEnv(env)
  {
    Corpora.TextCorpusWords();
  }

  // ------------------------------------------------------------------------
  // parseRandomArgs

  /** One argument: the submatch m, or the default a where m is empty;
      converted with strconv.Atoi where a starts with '#'. The error
      names the argument by its position i + 1. */
  function ArgOf(m: string, a: string, i: nat, name: string): Result<Arg, Error> {
    var number := Text.HasPrefix(a, "#");
    var dflt := if number then a[1..] else a;
    var v := if m == "" then dflt else m;
    if !number then Ok(StrArg(v))
    else
      match Decimal.Atoi(v)
      case Ok(n) => Ok(IntArg(n))
      case Err(e) => Err(Wrapped("ht: argument " + Decimal.Itoa(i + 1) + " to random " + name + ": ", e))
  }

  /** The arguments of the submatches ms for the defaults args (of equal
      length): the first failing argument decides the error. */
  function ArgsOf(ms: seq<string>, args: seq<string>, name: string): Result<seq<Arg>, Error>
    requires |ms| == |args|
  {
    if ms == [] then Ok([])
    else
      var n := |ms| - 1;
      match ArgsOf(ms[..n], args[..n], name)
      case Err(e) => Err(e)
      case Ok(vals) =>
        match ArgOf(ms[n], args[n], n, name)
        case Err(e) => Err(e)
        case Ok(v) => Ok(vals + [v])
  }

  /** parseRandomArgs(s, rf): no match is an error, a submatch count other
      than the number of arguments panics. */
  function ParseArgs(s: string, rf: RandomFunc, env: Env): Run<seq<Arg>> {
    match env.submatch(rf.name, s)
    case None => Fails(UnparsableRandomArgs(s, rf.name))
    case Some(ms) =>
      if |ms| != |rf.args| then Panics
      else
        match ArgsOf(ms, rf.args, rf.name)
        case Err(e) => Fails(e)
        case Ok(vals) => Returns(vals)
  }

  /** parseRandomArgs: the loop over the defaults, appending to vals. */
  method ParseRandomArgs(s: string, rf: RandomFunc, env: Env) returns (r: Run<seq<Arg>>)
    ensures r == ParseArgs(s, rf, env)
  {
    var found := env.submatch(rf.name, s);
    if found.None? {
      return Fails(UnparsableRandomArgs(s, rf.name));
    }
    var matches := found.value;
    if |matches| != |rf.args| {
      return Panics;
    }
    var vals: seq<Arg> := [];
    for i := 0 to |rf.args|
      invariant ArgsOf(matches[..i], rf.args[..i], rf.name) == Ok(vals)
    {
      ArgsOfSnoc(matches, rf.args, rf.name, i);
      var a := rf.args[i];
      var number := false;
      if Text.HasPrefix(a, "#") {
        number := true;
        a := a[1..];
      }
      var m := matches[i];
      if m == "" {
        m := a;
      }
      if number {
        var n := Decimal.Atoi(m);
        if n.Err? {
          ArgsOfErrStays(matches, rf.args, rf.name, i + 1);
          return Fails(Wrapped("ht: argument " + Decimal.Itoa(i + 1) + " to random " + rf.name + ": ", n.error));
        }
        vals := vals + [IntArg(n.value)];
      } else {
        vals := vals + [StrArg(m)];
      }
    }
    assert matches[..|matches|] == matches && rf.args[..|rf.args|] == rf.args;
    return Returns(vals);
  }

  lemma ArgsOfSnoc(ms: seq<string>, args: seq<string>, name: string, i: int)
    requires |ms| == |args| && 0 <= i < |ms|
    ensures ArgsOf(ms[..i + 1], args[..i + 1], name)
            == match ArgsOf(ms[..i], args[..i], name)
               case Err(e) => Err(e)
               case Ok(vals) =>
                 match ArgOf(ms[i], args[i], i, name)
                 case Err(e) => Err(e)
                 case Ok(v) => Ok(vals + [v])
  {
    assert ms[..i + 1][..i] == ms[..i] && args[..i + 1][..i] == args[..i];
  }

  /** Once an argument fails, parsing fails with its error. */
  lemma {:induction false} ArgsOfErrStays(ms: seq<string>, args: seq<string>, name: string, k: int)
    requires |ms| == |args| && 0 <= k <= |ms| && ArgsOf(ms[..k], args[..k], name).Err?
    ensures ArgsOf(ms, args, name) == ArgsOf(ms[..k], args[..k], name)
    decreases |ms| - k
  {
    if k < |ms| {
      ArgsOfSnoc(ms, args, name, k);
      ArgsOfErrStays(ms, args, name, k + 1);
    } else {
      assert ms[..k] == ms && args[..k] == args;
    }
  }

  /** The arguments parsed: one per default, each the submatch or, where it
      is empty, the default; an int exactly where the default starts with
      '#'. */
  lemma {:induction false} ArgsOfValues(ms: seq<string>, args: seq<string>, name: string)
    requires |ms| == |args| && ArgsOf(ms, args, name).Ok?
    ensures |ArgsOf(ms, args, name).value| == |args|
    ensures forall i :: 0 <= i < |args| ==>
              ArgOf(ms[i], args[i], i, name).Ok? && ArgsOf(ms, args, name).value[i] == ArgOf(ms[i], args[i], i, name).value
  {
    if ms != [] {
      var n := |ms| - 1;
      ArgsOfValues(ms[..n], args[..n], name);
      assert forall i :: 0 <= i < n ==> ms[..n][i] == ms[i] && args[..n][i] == args[i];
    }
  }

  /** What ArgOf yields: the default where the submatch is empty, read as
      an int where the default is marked '#'. */
  lemma ArgOfValue(m: string, a: string, i: nat, name: string)
    ensures var v := if m != "" then m else if Text.HasPrefix(a, "#") then a[1..] else a;
            && (!Text.HasPrefix(a, "#") ==> ArgOf(m, a, i, name) == Ok(StrArg(v)))
            && (Text.HasPrefix(a, "#") ==>
                  (ArgOf(m, a, i, name).Ok? <==> Decimal.Atoi(v).Ok?) &&
                  (ArgOf(m, a, i, name).Ok? ==> ArgOf(m, a, i, name).value == IntArg(Decimal.Atoi(v).value)))
  {
  }

  // ------------------------------------------------------------------------
  // randomNumber

  /** randomNumber(args): a number in [from, to] formatted with the format
      argument; span = to - from + 1 is computed with Go's wrapping int. */
  function RandomNumber(args: seq<Arg>, env: Env): (r: Run<string>)
    ensures r.Panics? <==> !(|args| >= 5 && args[1].IntArg? && args[2].IntArg? && args[4].StrArg?)
  {
    if !(|args| >= 5 && args[1].IntArg? && args[2].IntArg? && args[4].StrArg?) then Panics
    else
      var from, to, format := args[1].n, args[2].n, args[4].s;
      var span := Int64.Wrap(to - from + 1);
      if span > 0 then Returns(env.sprintf(format, Int64.Wrap(from + env.intn(0, span))))
      else Fails(Message("ht: invalid range [" + Decimal.Itoa(from) + "," + Decimal.Itoa(to) + "] for random number"))
  }

  /** For bounds as the pattern delivers them (decimal digits within int64):
      a number is drawn exactly when from <= to and the span does not
      overflow, and it is sprintf of a value in [from, to]. */
  lemma RandomNumberRange(from: int, to: int, format: string, env: Env)
    requires IsEnv(env)
    requires 0 <= from <= Int64.MaxInt64 && 0 <= to <= Int64.MaxInt64
    ensures var r := RandomNumber([StrArg(""), IntArg(from), IntArg(to), StrArg(""), StrArg(format)], env);
            && (r.Returns? <==> from <= to && to - from < Int64.MaxInt64)
            && (r.Returns? ==> exists v :: from <= v <= to && r.value == env.sprintf(format, v))
            && (r.Fails? ==> r.error == Message("ht: invalid range [" + Decimal.Itoa(from) + "," + Decimal.Itoa(to)
                                                + "] for random number"))
  {
    var span := Int64.Wrap(to - from + 1);
    if from <= to && to - from < Int64.MaxInt64 {
      var k := env.intn(0, span);
      assert 0 <= k < span;
      assert from <= from + k <= to;
    }
  }

  // ------------------------------------------------------------------------
  // randomText

  /** n consecutive words of the corpus from position begin on, starting
      over at the first word after the last. */
  function Cycle(words: seq<string>, begin: int, n: nat): (r: seq<string>)
    requires 0 <= begin < |words|
    ensures |r| == n
  {
    seq(n, j requires 0 <= j < n => words[(begin + j) % |words|])
  }

  /** randomText(args): n words drawn as n = min + Intn(max - min + 1) and
      begin = Intn(w - 1). */
  function RandomTextSpec(args: seq<Arg>, env: Env): Run<string>
    requires IsEnv(env)
  {
    if !(|args| >= 5 && args[1].StrArg? && args[3].IntArg? && args[4].IntArg?) then Panics
    else
      var lang, min, max := args[1].s, args[3].n, args[4].n;
      if lang !in env.corpus then Fails(Message("ht: no " + lang + " corpus of random text"))
      else
        var words := env.corpus[lang];
        var span := Int64.Wrap(max - min + 1);
        if span <= 0 then
          Fails(Message("ht: invalid range [" + Decimal.Itoa(min) + "," + Decimal.Itoa(max) + "] for random text"))
        else
          var n := Int64.Wrap(min + env.intn(0, span));
          if n == 0 then Returns("")
          else
            var begin := env.intn(1, |words| - 1);
            if n < 0 || Int64.Wrap(begin + n) != begin + n then Panics
            else Returns(Text.Join(Cycle(words, begin, n), " "))
  }

  /** randomText: the words are taken from begin on, and where they do not
      suffice, whole copies of the corpus are appended until n words are
      there. */
  method RandomText(args: seq<Arg>, env: Env) returns (r: Run<string>)
    requires IsEnv(env)
    ensures r == RandomTextSpec(args, env)
  {
    if !(|args| >= 5 && args[1].StrArg? && args[3].IntArg? && args[4].IntArg?) {
      // a type assertion args[i].(T) fails
      return Panics;
    }
    var lang, min, max := args[1].s, args[3].n, args[4].n;
    if lang !in env.corpus {
      return Fails(Message("ht: no " + lang + " corpus of random text"));
    }
    var span := Int64.Wrap(max - min + 1);
    if span <= 0 {
      return Fails(Message("ht: invalid range [" + Decimal.Itoa(min) + "," + Decimal.Itoa(max) + "] for random text"));
    }
    var n := Int64.Wrap(min + env.intn(0, span));
    if n == 0 {
      return Returns("");
    }
    var words := env.corpus[lang];
    var w := |words|;
    var begin := env.intn(1, w - 1);
    if n < 0 || Int64.Wrap(begin + n) != begin + n {
      // words[begin:begin+n] with begin+n below begin
      return Panics;
    }
    var text := TakeWords(words, begin, n);
    return Returns(Text.Join(text, " "));
  }

  /** The n words of randomText from begin on: a slice where they suffice,
      and otherwise the words from begin followed by whole copies of the
      corpus, cut to n. */
  method TakeWords(words: seq<string>, begin: int, n: int) returns (text: seq<string>)
    requires 0 <= begin < |words| && 0 <= n
    ensures text == Cycle(words, begin, n)
  {
    var w := |words|;
    if begin + n <= w {
      CycleInside(words, begin, n);
      return words[begin..begin + n];
    }
    ghost var first := begin;
    var next := begin;
    text := [];
    Arith.ModUnique(first, w, 0, first);
    while |text| < n
      invariant 0 <= next < w && (first + |text|) % w == next
      invariant forall j :: 0 <= j < |text| ==> text[j] == words[(first + j) % w]
      decreases n - |text|
    {
      CycleStep(words, first, text, next);
      text := text + words[next..];
      next := 0;
    }
    assert text[..n] == Cycle(words, first, n);
    text := text[..n];
  }

  /** Where the words from begin suffice, they are the cycle. */
  lemma CycleInside(words: seq<string>, begin: int, n: nat)
    requires 0 <= begin && begin + n <= |words| && begin < |words|
    ensures Cycle(words, begin, n) == words[begin..begin + n]
  {
    forall j | 0 <= j < n
      ensures Cycle(words, begin, n)[j] == words[begin..begin + n][j]
    {
      Arith.ModUnique(begin + j, |words|, 0, begin + j);
    }
  }

  /** Appending the words from begin, where the text so far ends, continues
      the cycle and ends at the first word. */
  lemma CycleStep(words: seq<string>, first: int, text: seq<string>, begin: int)
    requires 0 <= begin < |words| && 0 <= first && (first + |text|) % |words| == begin
    requires forall j :: 0 <= j < |text| ==> text[j] == words[(first + j) % |words|]
    ensures var t := text + words[begin..];
            && (first + |t|) % |words| == 0
            && forall j :: 0 <= j < |t| ==> t[j] == words[(first + j) % |words|]
  {
    var w, t := |words|, text + words[begin..];
    var q := (first + |text|) / w;
    assert first + |text| == w * q + begin;
    forall j | |text| <= j < |t|
      ensures t[j] == words[(first + j) % w]
    {
      var o := j - |text|;
      assert first + j == w * q + (begin + o);
      Arith.ModUnique(first + j, w, q, begin + o);
    }
    assert first + |t| == w * (q + 1) + 0;
    Arith.ModUnique(first + |t|, w, q + 1, 0);
  }

  /** For bounds as the pattern delivers them (decimal digits within
      int64), a text is n consecutive corpus words, wrapping to the first
      word, from a begin before the last word, with min <= n <= max; for
      n = 0 it is empty. */
  lemma RandomTextWords(args: seq<Arg>, env: Env)
    requires IsEnv(env) && RandomTextSpec(args, env).Returns?
    requires |args| >= 5 && args[1].StrArg? && args[3].IntArg? && args[4].IntArg?
    requires 0 <= args[3].n <= Int64.MaxInt64 && 0 <= args[4].n <= Int64.MaxInt64
    ensures args[1].s in env.corpus
    ensures exists n: nat, begin ::
              && args[3].n <= n <= args[4].n && 0 <= begin < |env.corpus[args[1].s]| - 1
              && RandomTextSpec(args, env).value
                 == if n == 0 then "" else Text.Join(Cycle(env.corpus[args[1].s], begin, n), " ")
  {
    var words := env.corpus[args[1].s];
    var min, max := args[3].n, args[4].n;
    var span := Int64.Wrap(max - min + 1);
    assert Int64.InRange(max - min + 1);
    var k := env.intn(0, span);
    assert 0 <= k < span;
    assert Int64.InRange(min + k);
    var n: nat := min + k;
    assert min <= n <= max;
    var begin := env.intn(1, |words| - 1);
    assert 0 <= begin < |words| - 1;
    assert RandomTextSpec(args, env).value
           == if n == 0 then "" else Text.Join(Cycle(words, begin, n), " ");
  }

  // ------------------------------------------------------------------------
  // setRandomVariable

  /** The position in randomFuncs of the first function whose name starts
      what. */
  function Select(what: string): (r: Option<nat>)
    ensures r.Some? ==> r.value < |RandomFuncs| && Text.HasPrefix(what, RandomFuncs[r.value].name)
    ensures forall i :: 0 <= i < |RandomFuncs| && (r.None? || i < r.value) ==>
              !Text.HasPrefix(what, RandomFuncs[i].name)
  {
    if Text.HasPrefix(what, "NUMBER") then Some(0)
    else if Text.HasPrefix(what, "TEXT") then Some(1)
    else if Text.HasPrefix(what, "IMAGE") then Some(2)
    else None
  }

  /** rf.fn(arglist): IMAGE has no function, calling it panics. */
  function Call(i: nat, arglist: seq<Arg>, env: Env): Run<string>
    requires IsEnv(env)
  {
    if i == 0 then RandomNumber(arglist, env)
    else if i == 1 then RandomTextSpec(arglist, env)
    else Panics
  }

  /** The part of r after "RANDOM " without leading blanks. */
  function What(r: string): string
    requires |r| >= 7
  {
    Text.TrimLeft(r[7..], ' ')
  }

  /** The arguments after the name of function i. */
  function ArgText(what: string, i: nat): string
    requires i < |RandomFuncs| && Text.HasPrefix(what, RandomFuncs[i].name)
  {
    Text.TrimLeft(what[|RandomFuncs[i].name|..], ' ')
  }

  /** The value random function i makes of the argument text args. */
  function Apply(i: nat, args: string, env: Env): Run<string>
    requires IsEnv(env) && i < |RandomFuncs|
  {
    match ParseArgs(args, RandomFuncs[i], env)
    case Panics => Panics
    case Fails(e) => Fails(e)
    case Returns(arglist) => Call(i, arglist, env)
  }

  /** setRandomVariable(vars, r): the variables after the call, or its
      error. */
  function SetRandom(vars: map<string, string>, r: string, env: Env): Run<map<string, string>>
    requires IsEnv(env) && (r in vars || |r| >= 7)
  {
    if r in vars then Returns(vars)
    else
      var what := What(r);
      match Select(what)
      case None => Fails(NoSuchRandomType(r))
      case Some(i) => Store(vars, r, Apply(i, ArgText(what, i), env))
  }

  /** vars[r] = value once the function returned value; its error or panic
      otherwise. */
  function Store(vars: map<string, string>, r: string, value: Run<string>): Run<map<string, string>> {
    match value
    case Panics => Panics
    case Fails(e) => Fails(e)
    case Returns(v) => Returns(vars[r := v])
  }

  /** setRandomVariable: tries the random functions in order; vars is a Go
      map, so the new variables are returned. */
  method SetRandomVariable(vars: map<string, string>, r: string, env: Env)
    returns (res: Run<map<string, string>>)
    requires IsEnv(env) && (r in vars || |r| >= 7)
    ensures res == SetRandom(vars, r, env)
  {
    if r in vars {
      return Returns(vars);
    }
    var what := Text.TrimLeft(r[7..], ' ');
    var found := FindRandomFunc(what);
    if found.None? {
      return Fails(NoSuchRandomType(r));
    }
    SetRandomSelected(vars, r, env, found.value);
    var value := CallRandomFunc(found.value, what, env);
    return Store(vars, r, value);
  }

  /** The loop of setRandomVariable over randomFuncs: the first function
      whose name starts what. */
  method FindRandomFunc(what: string) returns (found: Option<nat>)
    ensures found == Select(what)
  {
    for i := 0 to |RandomFuncs|
      invariant Select(what).None? || i <= Select(what).value
    {
      if Text.HasPrefix(what, RandomFuncs[i].name) {
        return Some(i);
      }
    }
    return None;
  }

  /** The body of the loop of setRandomVariable for the function i whose
      name starts what: the arguments parsed, then the function called. */
  method CallRandomFunc(i: nat, what: string, env: Env) returns (value: Run<string>)
    requires IsEnv(env) && i < |RandomFuncs| && Text.HasPrefix(what, RandomFuncs[i].name)
    ensures value == Apply(i, ArgText(what, i), env)
  {
    var rf := RandomFuncs[i];
    var args := Text.TrimLeft(what[|rf.name|..], ' ');
    var arglist := ParseRandomArgs(args, rf, env);
    if arglist.Fails? {
      return Fails(arglist.error);
    } else if arglist.Panics? {
      return Panics;
    }
    if i == 0 {
      value := RandomNumber(arglist.value, env);
    } else if i == 1 {
      value := RandomText(arglist.value, env);
    } else {
      // IMAGE has no function: calling the nil rf.fn panics
      value := Panics;
    }
  }

  /** Once function i is selected, setRandomVariable ends as its call does. */
  lemma SetRandomSelected(vars: map<string, string>, r: string, env: Env, i: nat)
    requires IsEnv(env) && r !in vars && |r| >= 7 && Select(What(r)) == Some(i)
    ensures SetRandom(vars, r, env) == Store(vars, r, Apply(i, ArgText(What(r), i), env))
  {
  }

  /** A variable already set is left alone. */
  lemma SetRandomKnown(vars: map<string, string>, r: string, env: Env)
    requires IsEnv(env) && r in vars
    ensures SetRandom(vars, r, env) == Returns(vars)
  {
  }

  /** On success the variables are vars with r set: r is added, every
      other variable keeps its value. */
  lemma SetRandomAdds(vars: map<string, string>, r: string, env: Env)
    requires IsEnv(env) && (r in vars || |r| >= 7) && SetRandom(vars, r, env).Returns?
    ensures var v := SetRandom(vars, r, env).value;
            r in v && v == vars[r := v[r]]
  {
    if r !in vars {
      var i := Select(What(r)).value;
      SetRandomSelected(vars, r, env, i);
      StoreSets(vars, r, Apply(i, ArgText(What(r), i), env));
    }
  }

  lemma StoreSets(vars: map<string, string>, r: string, value: Run<string>)
    requires Store(vars, r, value).Returns?
    ensures var v := Store(vars, r, value).value;
            r in v && v == vars[r := v[r]]
  {
  }

  /** Without a known random function name the error names r. */
  lemma SetRandomNoSuchType(vars: map<string, string>, r: string, env: Env)
    requires IsEnv(env) && r !in vars && |r| >= 7
    requires forall i :: 0 <= i < |RandomFuncs| ==> !Text.HasPrefix(What(r), RandomFuncs[i].name)
    ensures SetRandom(vars, r, env) == Fails(NoSuchRandomType(r))
  {
  }

  /** The function called is the first whose name starts the request. */
  lemma SetRandomFirstName(vars: map<string, string>, r: string, env: Env, i: nat)
    requires IsEnv(env) && r !in vars && |r| >= 7
    requires i < |RandomFuncs| && Text.HasPrefix(What(r), RandomFuncs[i].name)
    requires forall j :: 0 <= j < i ==> !Text.HasPrefix(What(r), RandomFuncs[j].name)
    ensures Select(What(r)) == Some(i)
  {
  }

}
