/** The command line of the ht tool (ht/main.go): command names, the -D
    variables, the test ids of -only and -skip, and how a test is disabled. */
module Cli {
  import opened Wrappers
  import opened Errors
  import Text
  import Decimal
  import Int64
  import Tests

  // ------------------------------------------------------------------------
  // Command.Name

  /** Command.Name: the usage line up to its first space, or all of it. */
  function Name(usage: string): (name: string)
    ensures ' ' !in name && Text.HasPrefix(usage, name)
    ensures |name| < |usage| ==> usage[|name|] == ' '
  {
    var i := Text.Index(usage, ' ');
    if i >= 0 then usage[..i] else usage
  }

  /** A usage line "word rest" names the command word; a usage line
      without a space names itself. */
  lemma NameOfUsage(word: string, rest: string)
    requires ' ' !in word
    ensures Name(word + " " + rest) == word
    ensures Name(word) == word
  {
    Text.IndexAfter(word, ' ', rest);
  }

  // ------------------------------------------------------------------------
  // cmdlVar.Set

  /** cmdlVar.Set on the map vars: "name=value" split at the first '='. */
  function SetVar(vars: map<string, string>, s: string): Result<map<string, string>, Error> {
    var part := Text.SplitFirst(s, '=');
    if |part| != 2 then Err(Message("Bad argument '" + s + "' to -D commandline parameter"))
    else Ok(vars[part[0] := part[1]])
  }

  /** The name ends at the first '=': the value may hold more of them. */
  lemma SetVarFirstEquals(vars: map<string, string>, name: string, value: string)
    requires '=' !in name
    ensures SetVar(vars, name + "=" + value) == Ok(vars[name := value])
  {
    assert name + "=" + value == name + ['='] + value;
    Text.SplitFirstAfter(name, '=', value);
  }

  /** Set fails exactly on an argument without '='. */
  lemma SetVarFails(vars: map<string, string>, s: string)
    ensures SetVar(vars, s).Err? <==> '=' !in s
    ensures SetVar(vars, s).Err? ==>
              SetVar(vars, s).error == Message("Bad argument '" + s + "' to -D commandline parameter")
  {
  }

  /** The variables set with -D. */
  class CmdlVar {
    var vars: map<string, string>

    constructor ()
      ensures vars == map[]
    {
      vars := map[];
    }

    /** cmdlVar.Set: on an error the map is unchanged. */
    method Set(s: string) returns (err: Option<Error>)
      modifies this
      ensures SetVar(old(vars), s) == if err.None? then Ok(vars) else Err(err.value)
      ensures err.Some? ==> vars == old(vars)
    {
      var part := Text.SplitFirst(s, '=');
      if |part| != 2 {
        return Some(Message("Bad argument '" + s + "' to -D commandline parameter"));
      }
      vars := vars[part[0] := part[1]];
      return None;
    }
  }

  // ------------------------------------------------------------------------
  // Test ids

  /** The id loadSuites gives the test number tNo (counted from 0) of
      suite number sNo (counted from 0): kind is "u" for a setup test, ""
      for a main test and "d" for a teardown test. */
  function TestID(sNo: nat, kind: string, tNo: nat): string {
    Decimal.Itoa(sNo + 1) + "." + kind + Decimal.Itoa(tNo + 1)
  }

  /** One id of -only or -skip, read by splitTestIDs. */
  datatype Parsed =
    | ParsedID(id: string)
    /** mustAtoi called log.Fatalf: the process exits with this error. */
    | FatalID(error: Error)
    /** t[0] on an empty test part: an index out of range. */
    | PanicID

  /** The outcome of splitTestIDs: the set of ids, or how it ended the
      process. */
  datatype IDs = IDs(ids: set<string>) | Exits(error: Error) | Panics

  /** The loop body of splitTestIDs for one comma-separated part x, with
      the markers `up` and `down` it writes for a setup and a teardown
      test: an optional suite number and '.', an optional u/U or d/D, the
      test number; both numbers are rendered again as decimals. */
  function ParseID(x: string, up: string, down: string): Parsed {
    var xp := Text.SplitFirst(x, '.');
    if |xp| == 2 then ParseNumbers(xp[0], xp[1], up, down) else ParseNumbers("1", xp[0], up, down)
  }

  /** The rest of the loop body, on the suite part s and the test part t. */
  function ParseNumbers(s: string, t: string, up: string, down: string): Parsed {
    if t == [] then PanicID
    else
      var typ := if t[0] == 'U' || t[0] == 'u' then up else if t[0] == 'D' || t[0] == 'd' then down else "";
      var t' := if t[0] == 'U' || t[0] == 'u' || t[0] == 'D' || t[0] == 'd' then t[1..] else t;
      match MustAtoi(s)
      case Err(e) => FatalID(e)
      case Ok(sNo) =>
        match MustAtoi(t')
        case Err(e) => FatalID(e)
        case Ok(tNo) => ParsedID(Decimal.Itoa(sNo) + "." + typ + Decimal.Itoa(tNo))
  }

  /** mustAtoi: strconv.Atoi, whose error makes log.Fatalf end the process. */
  function MustAtoi(s: string): Result<int, Error> {
    Decimal.Atoi(s)
  }

  /** Each part read by the loop body. */
  function ParseAll(parts: seq<string>, up: string, down: string): (ps: seq<Parsed>)
    ensures |ps| == |parts| && forall k :: 0 <= k < |parts| ==> ps[k] == ParseID(parts[k], up, down)
  {
    seq(|parts|, k requires 0 <= k < |parts| => ParseID(parts[k], up, down))
  }

  /** The ids read, in order, up to the first id that ends the process. */
  function Collect(ps: seq<Parsed>): IDs {
    if ps == [] then IDs({}) else Step(Collect(ps[..|ps| - 1]), ps[|ps| - 1])
  }

  /** One turn of the loop of splitTestIDs. */
  function Step(acc: IDs, p: Parsed): IDs {
    if !acc.IDs? then acc
    else match p
      case ParsedID(id) => IDs(acc.ids + {id})
      case FatalID(e) => Exits(e)
      case PanicID => Panics
  }

  lemma CollectSnoc(ps: seq<Parsed>, k: nat)
    requires k < |ps|
    ensures Collect(ps[..k + 1]) == Step(Collect(ps[..k]), ps[k])
  {
    assert ps[..k + 1][..k] == ps[..k];
  }

  /** splitTestIDs with the given markers. */
  function SplitWith(f: string, up: string, down: string): IDs {
    if |f| == 0 then IDs({}) else Collect(ParseAll(Text.Split(f, ','), up, down))
  }

  /** splitTestIDs as written: setup and teardown ids get the markers "U"
      and "D". */
  method SplitTestIDs(f: string) returns (r: IDs)
    ensures r == SplitWith(f, "U", "D")
  {
    var ids: set<string> := {};
    if |f| == 0 {
      return IDs(ids);
    }
    var fp := Text.Split(f, ',');
    ghost var ps := ParseAll(fp, "U", "D");
    for k := 0 to |fp|
      invariant Collect(ps[..k]) == IDs(ids)
    {
      var p := ReadID(fp[k]);
      CollectSnoc(ps, k);
      if !p.ParsedID? {
        CollectStops(ps, k + 1);
        return if p.FatalID? then Exits(p.error) else Panics;
      }
      ids := ids + {p.id};
    }
    assert ps[..|fp|] == ps;
    return IDs(ids);
  }

  /** The body of the loop of splitTestIDs for one id x. */
  method ReadID(x: string) returns (p: Parsed)
    ensures p == ParseID(x, "U", "D")
  {
    var xp := Text.SplitFirst(x, '.');
    var s, t := "1", xp[0];
    if |xp| == 2 {
      s, t := xp[0], xp[1];
    }
    if |t| == 0 {
      return PanicID;
    }
    var typ := "";
    if t[0] == 'U' || t[0] == 'u' {
      typ := "U";
      t := t[1..];
    } else if t[0] == 'D' || t[0] == 'd' {
      typ := "D";
      t := t[1..];
    }
    var sNo := MustAtoi(s);
    if sNo.Err? {
      return FatalID(sNo.error);
    }
    var tNo := MustAtoi(t);
    if tNo.Err? {
      return FatalID(tNo.error);
    }
    return ParsedID(Decimal.Itoa(sNo.value) + "." + typ + Decimal.Itoa(tNo.value));
  }

  /** Once an id has ended the process, the later ids change nothing. */
  lemma {:induction false} CollectStops(ps: seq<Parsed>, k: nat)
    requires k <= |ps| && !Collect(ps[..k]).IDs?
    ensures Collect(ps) == Collect(ps[..k])
    decreases |ps| - k
  {
    if k < |ps| {
      CollectSnoc(ps, k);
      CollectStops(ps, k + 1);
    } else {
      assert ps[..k] == ps;
    }
  }

  /** When no id ends the process, the ids collected are exactly those
      read. */
  lemma {:induction false} CollectIDs(ps: seq<Parsed>)
    requires Collect(ps).IDs?
    ensures forall k :: 0 <= k < |ps| ==> ps[k].ParsedID?
    ensures forall id :: id in Collect(ps).ids <==> ParsedID(id) in ps
  {
    if ps != [] {
      var n := |ps| - 1;
      var init := ps[..n];
      CollectIDs(init);
      assert ps == init + [ps[n]];
    }
  }

  /** An id without a suite number is in suite 1. */
  lemma ParseIDDefaultSuite(t: string, up: string, down: string)
    requires '.' !in t
    ensures ParseID(t, up, down) == ParseID("1." + t, up, down)
  {
    Text.SplitFirstAfter("1", '.', t);
    assert "1." + t == "1" + ['.'] + t;
  }

  /** The character after the first '.' of an id, if there is one. */
  function MarkerOf(id: string): Option<char> {
    var i := Text.Index(id, '.');
    if i < 0 || i + 1 >= |id| then None else Some(id[i + 1])
  }

  /** The marker of "a.<typ>b" is the first character of typ, or of the
      decimal b when typ is empty. */
  lemma MarkerOfRendered(a: int, typ: string, b: int)
    ensures MarkerOf(Decimal.Itoa(a) + "." + typ + Decimal.Itoa(b)) == Some((typ + Decimal.Itoa(b))[0])
  {
    var n, rest := Decimal.Itoa(a), typ + Decimal.Itoa(b);
    assert n + "." + typ + Decimal.Itoa(b) == n + ['.'] + rest;
    assert '.' !in n by {
      assert forall i :: 0 <= i < |n| ==> Decimal.IsDigit(n[i]) || n[i] == '-';
    }
    Text.IndexAfter(n, '.', rest);
  }

  /** Every id splitTestIDs produces has a marker: one of the two markers it
      writes, a digit or a minus sign. */
  lemma ParsedMarker(x: string, up: string, down: string)
    requires up != [] && down != [] && ParseID(x, up, down).ParsedID?
    ensures var m := MarkerOf(ParseID(x, up, down).id);
            m == Some(up[0]) || m == Some(down[0]) || (m.Some? && (Decimal.IsDigit(m.value) || m.value == '-'))
  {
    var xp := Text.SplitFirst(x, '.');
    var s := if |xp| == 2 then xp[0] else "1";
    var t := if |xp| == 2 then xp[1] else xp[0];
    var typ := if t[0] == 'U' || t[0] == 'u' then up else if t[0] == 'D' || t[0] == 'd' then down else "";
    var t' := if t[0] == 'U' || t[0] == 'u' || t[0] == 'D' || t[0] == 'd' then t[1..] else t;
    var b := Decimal.Atoi(t').value;
    MarkerOfRendered(Decimal.Atoi(s).value, typ, b);
    if typ == "" {
      assert (typ + Decimal.Itoa(b))[0] == Decimal.Itoa(b)[0];
    }
  }

  /** As written, no -only or -skip id ever names a setup or a teardown
      test: splitTestIDs writes "U" and "D", loadSuites "u" and "d". */
  lemma SetupNeverSelected(f: string, sNo: nat, kind: string, tNo: nat)
    requires SplitWith(f, "U", "D").IDs?
    requires kind == "u" || kind == "d"
    ensures TestID(sNo, kind, tNo) !in SplitWith(f, "U", "D").ids
  {
    MarkerOfRendered(sNo + 1, kind, tNo + 1);
    if |f| > 0 {
      var parts := Text.Split(f, ',');
      var ps := ParseAll(parts, "U", "D");
      CollectIDs(ps);
      forall k | 0 <= k < |ps|
        ensures ps[k] != ParsedID(TestID(sNo, kind, tNo))
      {
        ParsedMarker(parts[k], "U", "D");
      }
    }
  }

  /** The marker splitTestIDs writes for the kind of a test. */
  function Marker(kind: string, up: string, down: string): string {
    if kind == "u" then up else if kind == "d" then down else kind
  }

  /** An id of loadSuites is read back with its kind replaced by the
      marker splitTestIDs writes for it. */
  lemma ParseTestID(sNo: nat, kind: string, tNo: nat, up: string, down: string)
    requires sNo < Int64.MaxInt64 && tNo < Int64.MaxInt64
    requires kind in {"", "u", "d"}
    ensures ParseID(TestID(sNo, kind, tNo), up, down) == ParsedID(TestID(sNo, Marker(kind, up, down), tNo))
  {
    var a, b := Decimal.Itoa(sNo + 1), Decimal.Itoa(tNo + 1);
    var rest := kind + b;
    SplitAtDot(sNo + 1, rest);
    assert TestID(sNo, kind, tNo) == a + ['.'] + rest;
    ParseNumbersID(sNo, kind, tNo, up, down);
  }

  /** The first '.' of a rendered number followed by '.' is that one. */
  lemma SplitAtDot(n: int, rest: string)
    ensures Text.SplitFirst(Decimal.Itoa(n) + ['.'] + rest, '.') == [Decimal.Itoa(n), rest]
  {
    var a := Decimal.Itoa(n);
    assert '.' !in a by {
      assert forall i :: 0 <= i < |a| ==> Decimal.IsDigit(a[i]) || a[i] == '-';
    }
    Text.SplitFirstAfter(a, '.', rest);
  }

  lemma ParseNumbersID(sNo: nat, kind: string, tNo: nat, up: string, down: string)
    requires sNo < Int64.MaxInt64 && tNo < Int64.MaxInt64
    requires kind in {"", "u", "d"}
    ensures ParseNumbers(Decimal.Itoa(sNo + 1), kind + Decimal.Itoa(tNo + 1), up, down)
            == ParsedID(TestID(sNo, Marker(kind, up, down), tNo))
  {
    var a, b := Decimal.Itoa(sNo + 1), Decimal.Itoa(tNo + 1);
    var rest := kind + b;
    assert MustAtoi(a) == Ok(sNo + 1) by { Decimal.ParseItoa(sNo + 1, "Atoi"); }
    assert MustAtoi(b) == Ok(tNo + 1) by { Decimal.ParseItoa(tNo + 1, "Atoi"); }
    if kind == "" {
      assert rest == b && Decimal.IsDigit(b[0]);
    } else {
      assert rest[0] == kind[0] && rest[1..] == b;
    }
  }

  /** splitTestIDs with the markers loadSuites uses, "u" and "d". */
  function SplitTestIDsIntended(f: string): IDs {
    SplitWith(f, "u", "d")
  }

  /** With the lower-case markers every test id of loadSuites, setup and
      teardown ones included, selects that test. */
  lemma IntendedSelectsEveryTest(sNo: nat, kind: string, tNo: nat)
    requires sNo < Int64.MaxInt64 && tNo < Int64.MaxInt64
    requires kind in {"", "u", "d"}
    ensures SplitTestIDsIntended(TestID(sNo, kind, tNo)) == IDs({TestID(sNo, kind, tNo)})
  {
    var id := TestID(sNo, kind, tNo);
    assert ',' !in id by {
      var a, b := Decimal.Itoa(sNo + 1), Decimal.Itoa(tNo + 1);
      assert forall i :: 0 <= i < |a| ==> Decimal.IsDigit(a[i]);
      assert forall i :: 0 <= i < |b| ==> Decimal.IsDigit(b[i]);
      assert id == a + "." + kind + b;
    }
    ParseTestID(sNo, kind, tNo, "u", "d");
    SplitSingle(id, "u", "d");
    assert {} + {id} == {id};
  }

  /** As written, the setup test id "s.ut" is read as "s.Ut" (and "s.dt"
      as "s.Dt"), which names no test of loadSuites. */
  lemma AsWrittenRenamesSetup(sNo: nat, kind: string, tNo: nat)
    requires sNo < Int64.MaxInt64 && tNo < Int64.MaxInt64
    requires kind in {"u", "d"}
    ensures SplitWith(TestID(sNo, kind, tNo), "U", "D") == IDs({TestID(sNo, Marker(kind, "U", "D"), tNo)})
    ensures TestID(sNo, kind, tNo) !in SplitWith(TestID(sNo, kind, tNo), "U", "D").ids
  {
    var id := TestID(sNo, kind, tNo);
    assert ',' !in id by {
      var a, b := Decimal.Itoa(sNo + 1), Decimal.Itoa(tNo + 1);
      assert forall i :: 0 <= i < |a| ==> Decimal.IsDigit(a[i]);
      assert forall i :: 0 <= i < |b| ==> Decimal.IsDigit(b[i]);
      assert id == a + "." + kind + b;
    }
    ParseTestID(sNo, kind, tNo, "U", "D");
    SplitSingle(id, "U", "D");
    var id' := TestID(sNo, Marker(kind, "U", "D"), tNo);
    assert {} + {id'} == {id'};
    SetupNeverSelected(id, sNo, kind, tNo);
  }

  /** A list of one id is read by one turn of the loop. */
  lemma SplitSingle(id: string, up: string, down: string)
    requires id != [] && ',' !in id
    ensures SplitWith(id, up, down) == Step(IDs({}), ParseID(id, up, down))
  {
    assert Text.Split(id, ',') == [id];
    var ps := ParseAll([id], up, down);
    assert SplitWith(id, up, down) == Collect(ps);
    assert ps[..0] == [] && ps[0] == ParseID(id, up, down);
    assert Collect(ps) == Step(Collect(ps[..0]), ps[0]);
  }

  // ------------------------------------------------------------------------
  // shouldRun

  /** Whether shouldRun disables the test with this id: it is skipped, or
      -only names some tests but not this one. */
  predicate Disabled(id: string, only: set<string>, skip: set<string>) {
    id in skip || (|only| > 0 && id !in only)
  }

  /** shouldRun: a disabled test gets Poll.Max = -1 and nothing else of it
      changes; any other test is left alone. */
  method ShouldRun(t: Tests.Test, id: string, only: set<string>, skip: set<string>)
    modifies t
    ensures t.Value() == if Disabled(id, only, skip) then old(t.Value()).(poll := old(t.poll).(max := -1))
                         else old(t.Value())
  {
    if id in skip {
      t.poll := t.poll.(max := -1);
      return;
    }
    if id !in only && |only| > 0 {
      t.poll := t.poll.(max := -1);
      return;
    }
  }
}
