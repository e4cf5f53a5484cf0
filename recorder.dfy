/** The helpers of the HTTP recorder (recorder/recorder.go) that turn a
    captured request/response pair into a test: the rewrite flags, the
    header copy made when rewriting, URL path joining, the default cookie
    path, the Set-Cookie check, the extraction of headers common to all
    events and the first checks extractChecks derives from a response.

    Headers are maps from (canonical) header names to their values; times
    are nanoseconds on one clock, with an absent Expires standing for Go's
    zero time. The regular-expression rewrite of a value is a parameter. */
module Recorder {
  import opened Wrappers
  import Text
  import Int64

  // ---------------------------------------------------------------------
  // Rewrite flags

  /** The flag at position `iota` of the constant block: 1 << (iota - 1). */
  function FlagAt(iota: nat): (f: bv32)
    requires 1 <= iota <= 4
    ensures f != 0 && f & (f - 1) == 0
  {
    (1 as bv32) << (iota - 1)
  }

  const RewriteNothing: bv32 := 0
  const RewriteResponseHeader: bv32 := FlagAt(1)
  const RewriteResponseBody: bv32 := FlagAt(2)
  const RewriteRequestHeader: bv32 := FlagAt(3)
  const RewriteRequestBody: bv32 := FlagAt(4)

  /** Whether `what` asks to rewrite the thing `flag` stands for. */
  predicate Selected(what: bv32, flag: bv32) {
    what & flag != 0
  }

  /** The four flags are the single bits 1, 2, 4 and 8, so any combination
      of them selects exactly the flags it was built from, and
      RewriteNothing selects nothing. */
  lemma FlagValues(a: bool, b: bool, c: bool, d: bool)
    ensures RewriteResponseHeader == 1 && RewriteResponseBody == 2
    ensures RewriteRequestHeader == 4 && RewriteRequestBody == 8
    ensures var what := (if a then RewriteResponseHeader else RewriteNothing)
                      | (if b then RewriteResponseBody else RewriteNothing)
                      | (if c then RewriteRequestHeader else RewriteNothing)
                      | (if d then RewriteRequestBody else RewriteNothing);
            && (Selected(what, RewriteResponseHeader) <==> a)
            && (Selected(what, RewriteResponseBody) <==> b)
            && (Selected(what, RewriteRequestHeader) <==> c)
            && (Selected(what, RewriteRequestBody) <==> d)
  {
  }

  // ---------------------------------------------------------------------
  // Rewriter.header

  type Header = map<string, seq<string>>

  /** Every value rewritten. */
  function RewriteAll(vv: seq<string>, rewrite: string -> string): (r: seq<string>)
    ensures |r| == |vv| && forall i :: 0 <= i < |vv| ==> r[i] == rewrite(vv[i])
  {
    seq(|vv|, i requires 0 <= i < |vv| => rewrite(vv[i]))
  }

  /** Rewriter.header: a copy of the header without Content-Length, each
      value passed through `rewrite` when `do` is set. */
  method RewriteHeader(header: Header, rewrite: string -> string, do: bool) returns (rheader: Header)
    ensures rheader.Keys == header.Keys - {"Content-Length"}
    ensures forall h :: h in rheader ==>
              rheader[h] == if do then RewriteAll(header[h], rewrite) else header[h]
  {
    rheader := map[];
    var todo := header.Keys;
    while todo != {}
      invariant todo <= header.Keys
      invariant rheader.Keys == (header.Keys - todo) - {"Content-Length"}
      invariant forall h :: h in rheader ==>
                  rheader[h] == if do then RewriteAll(header[h], rewrite) else header[h]
      decreases |todo|
    {
      var h :| h in todo;
      todo := todo - {h};
      if h == "Content-Length" {
        continue;
      }
      var vv := header[h];
      if do {
        for i := 0 to |vv|
          invariant |vv| == |header[h]|
          invariant forall k :: 0 <= k < i ==> vv[k] == rewrite(header[h][k])
          invariant forall k :: i <= k < |vv| ==> vv[k] == header[h][k]
        {
          var w := rewrite(vv[i]);
          vv := vv[i := w];
        }
      }
      rheader := rheader[h := vv];
    }
  }

  // ---------------------------------------------------------------------
  // singleJoiningSlash

  /** singleJoiningSlash: a and b joined by exactly one "/", whether none,
      one or both of them bring it. */
  function SingleJoiningSlash(a: string, b: string): (r: string)
    ensures var a' := if Text.HasSuffix(a, "/") then a[..|a| - 1] else a;
            var b' := if Text.HasPrefix(b, "/") then b[1..] else b;
            r == a' + "/" + b'
  {
    var aslash := Text.HasSuffix(a, "/");
    var bslash := Text.HasPrefix(b, "/");
    if aslash && bslash then a + b[1..]
    else if !aslash && !bslash then a + "/" + b
    else a + b
  }

  // ---------------------------------------------------------------------
  // Cookies

  const Second: int := 1_000_000_000

  /** A parsed Set-Cookie header. */
  datatype Cookie = Cookie(name: string, value: string, path: string, maxAge: int,
                           expires: Option<int>, httpOnly: bool, secure: bool)

  /** cookiePath: the cookie's own path if it has one, else the request
      path up to its last "/". None is the panic of p[:i] when the request
      path holds no "/" at all. */
  function CookiePath(cookie: string, urlPath: string): (r: Option<string>)
    ensures r.None? <==> cookie == [] && '/' !in urlPath
    ensures cookie != [] ==> r == Some(cookie)
  {
    if cookie != [] then Some(cookie)
    else
      var i := Text.LastIndex(urlPath, '/');
      if i == 0 then Some("/")
      else if i < 0 then None
      else Some(urlPath[..i])
  }

  /** Without a path of its own, a cookie gets the directory of the request
      path: "/" when the only "/" of the path is its first character,
      otherwise the path up to (and without) its last "/". */
  lemma DefaultCookiePath(urlPath: string)
    requires '/' in urlPath
    ensures var r := CookiePath([], urlPath).value;
            && Text.HasPrefix(urlPath, r)
            && (urlPath[0] == '/' && '/' !in urlPath[1..] ==> r == "/")
            && (!(urlPath[0] == '/' && '/' !in urlPath[1..]) ==>
                  0 < |r| < |urlPath| && urlPath[|r|] == '/' && '/' !in urlPath[|r| + 1..])
  {
    var i := Text.LastIndex(urlPath, '/');
    if i == 0 {
      assert urlPath[1..] == urlPath[i + 1..];
    } else {
      var r := urlPath[..i];
      assert urlPath[|r| + 1..] == urlPath[i + 1..];
      if urlPath[0] == '/' {
        assert urlPath[1..][i - 1] == '/';
      }
    }
  }

  /** Go's Time.Sub: the difference, held at the ends of the Duration range. */
  function Sub(t: int, u: int): (d: int)
    ensures Int64.InRange(d)
    ensures Int64.InRange(t - u) ==> d == t - u
    ensures t > u ==> d > 0
  {
    if t - u > Int64.MaxInt64 then Int64.MaxInt64
    else if t - u < Int64.MinInt64 then Int64.MinInt64
    else t - u
  }

  /** The lifetime createSetCookieCheck derives: MaxAge seconds (as an
      int64 Duration) when MaxAge is positive, else the time until a
      future Expires, else zero. */
  function Lifetime(c: Cookie, now: int): int {
    if c.maxAge > 0 then Int64.Wrap(Second * c.maxAge)
    else if c.expires.Some? && c.expires.value > now then Sub(c.expires.value, now)
    else 0
  }

  /** The SetCookie check; `path` is the value of its Path condition. */
  datatype SetCookie = SetCookie(name: string, value: string, path: string,
                                 minLifetime: int, typ: string)

  /** The three flags of the check's Type. */
  function Flags(c: Cookie, lt: int): seq<string> {
    [if c.httpOnly then "httpOnly" else "exposed",
     if c.secure then "secure" else "unsafe",
     if lt > 0 then "persistent" else "session"]
  }

  lemma JoinThree(a: string, b: string, c: string, sep: string)
    ensures Text.Join([a, b, c], sep) == a + sep + b + sep + c
  {
    var p := [a, b, c];
    assert p[1..] == [b, c] && p[1..][1..] == [c];
    assert Text.Join([c], sep) == c;
    assert Text.Join([b, c], sep) == b + sep + c;
  }

  /** The check createSetCookieCheck builds. */
  function SetCookieFor(c: Cookie, now: int): SetCookie {
    var lt := Lifetime(c, now);
    var minLifetime := if lt <= 0 then 0 else if lt > 10 * Second then lt - 10 * Second else lt;
    SetCookie(c.name, c.value, "", minLifetime, Text.Join(Flags(c, lt), " "))
  }

  /** createSetCookieCheck, with the flags collected one append at a time. */
  method CreateSetCookieCheck(c: Cookie, now: int) returns (sc: SetCookie)
    ensures sc == SetCookieFor(c, now)
  {
    sc := SetCookie(c.name, c.value, "", 0, "");
    var lt := 0;
    if c.maxAge > 0 {
      lt := Int64.Wrap(Second * c.maxAge);
    } else if c.expires.Some? && c.expires.value > now {
      lt := Sub(c.expires.value, now);
    }
    ghost var lifetime := lt;
    assert lifetime == Lifetime(c, now);
    ghost var words := Flags(c, lifetime);
    var flags: seq<string> := [];
    if c.httpOnly {
      flags := flags + ["httpOnly"];
    } else {
      flags := flags + ["exposed"];
    }
    assert flags == words[..1];
    if c.secure {
      flags := flags + ["secure"];
    } else {
      flags := flags + ["unsafe"];
    }
    assert flags == words[..2];
    if lt > 0 {
      flags := flags + ["persistent"];
      if lt > 10 * Second {
        lt := lt - 10 * Second;
      }
      sc := sc.(minLifetime := lt);
    } else {
      flags := flags + ["session"];
    }
    assert flags == words;
    sc := sc.(typ := Text.Join(flags, " "));
  }

  /** The Type of a SetCookie check is three words: httpOnly or exposed,
      secure or unsafe, and persistent exactly when the lifetime is
      positive, session otherwise. */
  lemma SetCookieType(c: Cookie, now: int)
    ensures exists w1, w2, w3 ::
              && SetCookieFor(c, now).typ == w1 + " " + w2 + " " + w3
              && (w1 == "httpOnly" <==> c.httpOnly) && (w1 == "exposed" <==> !c.httpOnly)
              && (w2 == "secure" <==> c.secure) && (w2 == "unsafe" <==> !c.secure)
              && (w3 == "persistent" <==> Lifetime(c, now) > 0)
              && (w3 == "session" <==> Lifetime(c, now) <= 0)
  {
    var f := Flags(c, Lifetime(c, now));
    JoinThree(f[0], f[1], f[2], " ");
    assert SetCookieFor(c, now).typ == f[0] + " " + f[1] + " " + f[2];
  }

  /** The lifetime: a positive MaxAge of at most 2^63/10^9 seconds gives
      exactly that many seconds; without MaxAge a future Expires gives a
      positive lifetime, a past or missing one none. */
  lemma LifetimeRules(c: Cookie, now: int)
    ensures 0 < c.maxAge && Second * c.maxAge <= Int64.MaxInt64 ==>
              Lifetime(c, now) == Second * c.maxAge
    ensures c.maxAge <= 0 ==>
              (Lifetime(c, now) > 0 <==> c.expires.Some? && c.expires.value > now)
    ensures c.maxAge <= 0 && c.expires.Some? && c.expires.value > now ==>
              Lifetime(c, now) == Sub(c.expires.value, now)
  {
  }

  /** The minimal lifetime demanded is the lifetime less 10 s of slack when
      it is longer than 10 s, the lifetime itself when it is shorter, and
      unset (zero) for a session cookie. */
  lemma MinLifetimeRules(c: Cookie, now: int)
    ensures var lt, m := Lifetime(c, now), SetCookieFor(c, now).minLifetime;
            && (lt > 10 * Second ==> m == lt - 10 * Second)
            && (0 < lt <= 10 * Second ==> m == lt)
            && (lt <= 0 ==> m == 0)
            && 0 <= m <= (if lt > 0 then lt else 0)
  {
  }

  // ---------------------------------------------------------------------
  // extractCommonHeaders

  /** fmt's %v of a []string: its elements separated by blanks, in brackets. */
  function Format(v: seq<string>): string {
    "[" + Text.Join(v, " ") + "]"
  }

  /** headers[h]: the values, or none (a nil slice) for a missing key. */
  function Values(hdr: Header, h: string): seq<string> {
    if h in hdr then hdr[h] else []
  }

  /** Header h prints in every map from index j on as it does in
      headers[0]. */
  predicate Identical(headers: seq<Header>, h: string, j: nat)
    requires |headers| > 0
    decreases |headers| - j
  {
    j >= |headers| ||
    (Format(Values(headers[j], h)) == Format(Values(headers[0], h)) && Identical(headers, h, j + 1))
  }

  lemma {:induction false} IdenticalAll(headers: seq<Header>, h: string, j: nat)
    requires |headers| > 0
    ensures Identical(headers, h, j) <==>
              forall k :: j <= k < |headers| ==> Format(Values(headers[k], h)) == Format(Values(headers[0], h))
    decreases |headers| - j
  {
    if j < |headers| {
      IdenticalAll(headers, h, j + 1);
    }
  }

  /** The common headers when the comparison starts at index `first`. */
  function Common(headers: seq<Header>, first: nat): Header
    requires |headers| > 0
  {
    map h | h in headers[0] && Identical(headers, h, first) :: headers[0][h]
  }

  /** The headers of headers[0] among `keys` that are common from index
      `first` on. */
  function CommonAmong(headers: seq<Header>, keys: set<string>, first: nat): Header
    requires |headers| > 0
  {
    map h | h in keys && h in headers[0] && Identical(headers, h, first) :: headers[0][h]
  }

  lemma CommonAmongAdd(headers: seq<Header>, keys: set<string>, h: string, first: nat)
    requires |headers| > 0 && h in headers[0]
    ensures CommonAmong(headers, keys + {h}, first) ==
              if Identical(headers, h, first) then CommonAmong(headers, keys, first)[h := headers[0][h]]
              else CommonAmong(headers, keys, first)
  {
  }

  lemma CommonAmongEmpty(headers: seq<Header>, first: nat)
    requires |headers| > 0
    ensures CommonAmong(headers, {}, first) == map[]
  {
  }

  lemma CommonAmongAll(headers: seq<Header>, keys: set<string>, first: nat)
    requires |headers| > 0 && keys == headers[0].Keys
    ensures CommonAmong(headers, keys, first) == Common(headers, first)
  {
  }

  /** extractCommonHeaders: the headers of headers[0] that print the same
      in headers[2..] are returned and deleted from every map. None is the
      index panic on an empty list. */
  method ExtractCommonHeaders(headers: array<Header>) returns (common: Option<Header>)
    modifies headers
    ensures headers.Length == 0 <==> common.None?
    ensures headers.Length > 0 ==> common == Some(Common(old(headers[..]), 2))
    ensures headers.Length > 0 ==>
              forall i :: 0 <= i < headers.Length ==> headers[i] == old(headers[i]) - common.value.Keys
  {
    if headers.Length == 0 {
      return None;
    }
    var c := CollectCommon(headers);
    common := Some(c);
  }

  /** The loop of extractCommonHeaders over the headers of headers[0]. */
  method CollectCommon(headers: array<Header>) returns (c: Header)
    requires headers.Length > 0
    modifies headers
    ensures c == Common(old(headers[..]), 2)
    ensures forall i :: 0 <= i < headers.Length ==> headers[i] == old(headers[i]) - c.Keys
  {
    ghost var orig := headers[..];
    c := map[];
    var keys := headers[0].Keys;
    CommonAmongEmpty(orig, 2);
    assert orig[0].Keys - keys == {};
    while keys != {}
      invariant keys <= orig[0].Keys
      invariant c == CommonAmong(orig, orig[0].Keys - keys, 2)
      invariant forall i :: 0 <= i < headers.Length ==> headers[i] == orig[i] - c.Keys
      decreases |keys|
    {
      var h :| h in keys;
      c := CommonKey(headers, c, h, orig, keys);
      keys := keys - {h};
    }
    assert orig[0].Keys - keys == orig[0].Keys;
    CommonAmongAll(orig, orig[0].Keys, 2);
  }

  /** One turn of the loop of extractCommonHeaders, for header h of
      headers[0]: if it prints alike from index 2 on, it joins the common
      headers and is deleted from every map. */
  method CommonKey(headers: array<Header>, c: Header, h: string,
                   ghost orig: seq<Header>, ghost keys: set<string>) returns (c': Header)
    modifies headers
    requires headers.Length == |orig| > 0 && h in keys && keys <= orig[0].Keys
    requires c == CommonAmong(orig, orig[0].Keys - keys, 2)
    requires forall i :: 0 <= i < headers.Length ==> headers[i] == orig[i] - c.Keys
    ensures c' == CommonAmong(orig, orig[0].Keys - (keys - {h}), 2)
    ensures forall i :: 0 <= i < headers.Length ==> headers[i] == orig[i] - c'.Keys
  {
    ghost var done := orig[0].Keys - keys;
    assert orig[0].Keys - (keys - {h}) == done + {h};
    CommonAmongAdd(orig, done, h, 2);
    KeptValues(orig, headers[..], c.Keys, h);
    var v := headers[0][h];
    var identical := SameFrom2(headers, h, Format(v));
    IdenticalAll(orig, h, 2);
    assert identical == Identical(orig, h, 2);
    c' := c;
    if identical {
      c' := c[h := v];
      DeleteEverywhere(headers, h);
      forall i | 0 <= i < headers.Length
        ensures headers[i] == orig[i] - c'.Keys
      {
        RemoveOneMore(orig[i], c.Keys, h);
        assert c'.Keys == c.Keys + {h};
      }
    }
  }

  /** A key not yet removed has its original values. */
  lemma KeptValues(orig: seq<Header>, now: seq<Header>, removed: set<string>, h: string)
    requires |now| == |orig| && h !in removed
    requires forall i :: 0 <= i < |now| ==> now[i] == orig[i] - removed
    ensures forall i :: 0 <= i < |now| ==> Values(now[i], h) == Values(orig[i], h)
  {
  }

  lemma RemoveOneMore(m: Header, keys: set<string>, h: string)
    ensures (m - keys) - {h} == m - (keys + {h})
  {
  }

  /** The comparison loop of extractCommonHeaders: does h print as vs in
      every header from index 2 on? */
  method SameFrom2(headers: array<Header>, h: string, vs: string) returns (identical: bool)
    ensures identical <==> forall k :: 2 <= k < headers.Length ==> Format(Values(headers[k], h)) == vs
  {
    identical := true;
    var j := 2;
    while j < headers.Length
      invariant 2 <= j && (j == 2 || j <= headers.Length)
      invariant forall k :: 2 <= k < j && k < headers.Length ==> Format(Values(headers[k], h)) == vs
      decreases headers.Length - j
    {
      if vs != Format(Values(headers[j], h)) {
        identical := false;
        break;
      }
      j := j + 1;
    }
  }

  /** The deletion loop: h removed from every map. */
  method DeleteEverywhere(headers: array<Header>, h: string)
    modifies headers
    ensures forall i :: 0 <= i < headers.Length ==> headers[i] == old(headers[i]) - {h}
  {
    for i := 0 to headers.Length
      invariant forall k :: 0 <= k < i ==> headers[k] == old(headers[k]) - {h}
      invariant forall k :: i <= k < headers.Length ==> headers[k] == old(headers[k])
    {
      headers[i] := headers[i] - {h};
    }
  }

  /** As written, the comparison starts at index 2: with two events whose
      headers differ, the header of the first is taken as common anyway. */
  lemma AsWrittenIgnoresSecond()
    ensures var headers := [map["X" := ["a"]], map["X" := ["b"]]];
            && "X" in Common(headers, 2)
            && Format(headers[0]["X"]) != Format(headers[1]["X"])
  {
    var headers := [map["X" := ["a"]], map["X" := ["b"]]];
    assert Format(["a"]) == "[a]" && Format(["b"]) == "[b]";
    assert "[a]"[1] != "[b]"[1];
  }

  /** Starting at index 1, as intended, a header is common exactly when
      headers[0] has it and every map prints it the same. */
  lemma CommonIntended(headers: seq<Header>, h: string)
    requires |headers| > 0
    ensures h in Common(headers, 1) <==>
              && h in headers[0]
              && forall i, j :: 0 <= i < |headers| && 0 <= j < |headers| ==>
                   Format(Values(headers[i], h)) == Format(Values(headers[j], h))
  {
    IdenticalAll(headers, h, 1);
  }

  // ---------------------------------------------------------------------
  // extractChecks, up to the content-based checks

  /** The checks extractChecks may emit before the content-based ones. */
  datatype Check =
    | StatusCode(code: int)
    | ContentType(mediaSubtype: string)
    | DeleteCookie(name: string, path: string)
    | SetCookieCheck(setCookie: SetCookie)
    | Redirect(to: string, statusCode: int)

  /** http.Header.Get: the first value, or "" when there is none. */
  function Get(header: Header, key: string): string {
    if key in header && |header[key]| > 0 then header[key][0] else ""
  }

  /** The Uaaahhrg test: code/100 == 3 with Go's truncating division. */
  predicate IsRedirect(code: int) {
    Int64.Quot(code, 100) == 3
  }

  lemma IsRedirectRange(code: int)
    ensures IsRedirect(code) <==> 300 <= code < 400
  {
  }

  /** The ContentType check: the media type before any ";", trimmed; its
      part after the first "/" is checked unless the code is a redirect. */
  function ContentTypeChecks(code: int, header: Header): seq<Check> {
    var ct := Get(header, "Content-Type");
    if ct == "" then []
    else
      var mediaType := Text.TrimSpace(Text.Split(ct, ';')[0]);
      if Text.Index(mediaType, '/') != -1 && !IsRedirect(code)
      then [ContentType(Text.SplitFirst(mediaType, '/')[1])]
      else []
  }

  /** The check for one cookie: deleted (negative MaxAge or an Expires in
      the past) or set; None when cookiePath panics. */
  function CookieCheck(c: Cookie, urlPath: string, now: int): Option<Check> {
    match CookiePath(c.path, urlPath)
    case None => None
    case Some(path) =>
      if c.maxAge < 0 || (c.expires.Some? && c.expires.value < now)
      then Some(DeleteCookie(c.name, path))
      else Some(SetCookieCheck(SetCookieFor(c, now).(path := path)))
  }

  /** The cookie checks in cookie order; None when one of them panics. */
  function CookieChecks(cookies: seq<Cookie>, urlPath: string, now: int): Option<seq<Check>> {
    if cookies == [] then Some([])
    else
      match CookieChecks(cookies[..|cookies| - 1], urlPath, now)
      case None => None
      case Some(list) =>
        match CookieCheck(cookies[|cookies| - 1], urlPath, now)
        case None => None
        case Some(check) => Some(list + [check])
  }

  /** The Redirect check: only for a 3xx code with a Location. */
  function RedirectChecks(code: int, header: Header): seq<Check> {
    var loc := Get(header, "Location");
    if loc != "" && IsRedirect(code) then [Redirect(loc, code)] else []
  }

  /** The leading checks of extractChecks for a response with `code` and
      `header` whose Set-Cookie headers parse to `cookies`, answering a
      request for `urlPath` at time `now`. */
  function LeadingChecks(code: int, header: Header, cookies: seq<Cookie>, urlPath: string, now: int)
    : Option<seq<Check>>
  {
    match CookieChecks(cookies, urlPath, now)
    case None => None
    case Some(cookieChecks) =>
      Some([StatusCode(code)] + ContentTypeChecks(code, header) + cookieChecks
           + RedirectChecks(code, header))
  }

  /** extractChecks up to the content-based checks. */
  method ExtractChecks(code: int, header: Header, cookies: seq<Cookie>, urlPath: string, now: int)
    returns (list: Option<seq<Check>>)
    ensures list == LeadingChecks(code, header, cookies, urlPath, now)
  {
    var checks := [StatusCode(code)];
    checks := AddContentTypeCheck(checks, code, header);
    var withCookies := AddCookieChecks(checks, cookies, urlPath, now);
    if withCookies.None? {
      return None;
    }
    checks := withCookies.value;
    ghost var cookieChecks := CookieChecks(cookies, urlPath, now).value;
    assert checks == [StatusCode(code)] + ContentTypeChecks(code, header) + cookieChecks;
    var loc := Get(header, "Location");
    if loc != "" && IsRedirect(code) {
      checks := checks + [Redirect(loc, code)];
    }
    assert checks == [StatusCode(code)] + ContentTypeChecks(code, header) + cookieChecks
                     + RedirectChecks(code, header);
    return Some(checks);
  }

  /** The Content-Type step of extractChecks. */
  method AddContentTypeCheck(list: seq<Check>, code: int, header: Header) returns (list': seq<Check>)
    ensures list' == list + ContentTypeChecks(code, header)
  {
    list' := list;
    var contentType := Get(header, "Content-Type");
    if contentType != "" {
      contentType := Text.TrimSpace(Text.Split(contentType, ';')[0]);
      if Text.Index(contentType, '/') != -1 && !IsRedirect(code) {
        var parts := Text.SplitFirst(contentType, '/');
        list' := list' + [ContentType(parts[1])];
      }
    }
  }

  /** The Set-Cookie loop of extractChecks; None when a cookie path panics. */
  method AddCookieChecks(list: seq<Check>, cookies: seq<Cookie>, urlPath: string, now: int)
    returns (list': Option<seq<Check>>)
    ensures CookieChecks(cookies, urlPath, now).None? ==> list'.None?
    ensures CookieChecks(cookies, urlPath, now).Some? ==>
              list' == Some(list + CookieChecks(cookies, urlPath, now).value)
  {
    var checks := list;
    for k := 0 to |cookies|
      invariant CookieChecks(cookies[..k], urlPath, now).Some?
      invariant checks == list + CookieChecks(cookies[..k], urlPath, now).value
    {
      var check := CheckCookie(cookies[k], urlPath, now);
      if check.None? {
        assert cookies[..k + 1][..k] == cookies[..k];
        CookieChecksStop(cookies, k + 1, urlPath, now);
        return None;
      }
      CookieChecksSnoc(cookies, k, urlPath, now);
      checks := checks + [check.value];
    }
    assert cookies[..|cookies|] == cookies;
    return Some(checks);
  }

  /** The body of the cookie loop of extractChecks: the check for one
      cookie, None when its path panics. */
  method CheckCookie(c: Cookie, urlPath: string, now: int) returns (check: Option<Check>)
    ensures check == CookieCheck(c, urlPath, now)
  {
    var path := CookiePath(c.path, urlPath);
    if path.None? {
      return None;
    }
    if c.maxAge < 0 || (c.expires.Some? && c.expires.value < now) {
      return Some(DeleteCookie(c.name, path.value));
    }
    var sc := CreateSetCookieCheck(c, now);
    return Some(SetCookieCheck(sc.(path := path.value)));
  }

  lemma CookieChecksSnoc(cookies: seq<Cookie>, k: nat, urlPath: string, now: int)
    requires k < |cookies| && CookieChecks(cookies[..k], urlPath, now).Some?
    requires CookieCheck(cookies[k], urlPath, now).Some?
    ensures CookieChecks(cookies[..k + 1], urlPath, now)
            == Some(CookieChecks(cookies[..k], urlPath, now).value + [CookieCheck(cookies[k], urlPath, now).value])
  {
    assert cookies[..k + 1][..k] == cookies[..k];
  }

  /** Once a cookie panics, so does every longer list. */
  lemma {:induction false} CookieChecksStop(cookies: seq<Cookie>, k: nat, urlPath: string, now: int)
    requires k <= |cookies| && CookieChecks(cookies[..k], urlPath, now).None?
    ensures CookieChecks(cookies, urlPath, now).None?
    decreases |cookies| - k
  {
    if k < |cookies| {
      assert cookies[..k + 1][..k] == cookies[..k];
      CookieChecksStop(cookies, k + 1, urlPath, now);
    } else {
      assert cookies[..k] == cookies;
    }
  }

  /** Cookies yield only DeleteCookie and SetCookie checks, one per cookie. */
  lemma {:induction false} CookieChecksKinds(cookies: seq<Cookie>, urlPath: string, now: int)
    requires CookieChecks(cookies, urlPath, now).Some?
    ensures var list := CookieChecks(cookies, urlPath, now).value;
            && |list| == |cookies|
            && forall i :: 0 <= i < |list| ==> list[i].DeleteCookie? || list[i].SetCookieCheck?
  {
    if cookies != [] {
      CookieChecksKinds(cookies[..|cookies| - 1], urlPath, now);
    }
  }

  /** The first check is always the status code; a Redirect check appears
      exactly when the code is 3xx and the response has a Location, and
      then it is the last check; a ContentType check never comes with a
      redirect. */
  lemma LeadingChecksShape(code: int, header: Header, cookies: seq<Cookie>, urlPath: string, now: int)
    requires LeadingChecks(code, header, cookies, urlPath, now).Some?
    ensures var list := LeadingChecks(code, header, cookies, urlPath, now).value;
            && list[0] == StatusCode(code)
            && ((exists i :: 0 <= i < |list| && list[i].Redirect?) <==>
                  IsRedirect(code) && Get(header, "Location") != "")
            && (IsRedirect(code) && Get(header, "Location") != "" ==>
                  list[|list| - 1] == Redirect(Get(header, "Location"), code))
            && (IsRedirect(code) ==> forall i :: 0 <= i < |list| ==> !list[i].ContentType?)
  {
    CookieChecksKinds(cookies, urlPath, now);
    var ct := ContentTypeChecks(code, header);
    assert IsRedirect(code) ==> ct == [];
    Concatenation(code, ct, CookieChecks(cookies, urlPath, now).value, RedirectChecks(code, header));
  }

  /** The order of the parts of the leading checks. */
  lemma Concatenation(code: int, ct: seq<Check>, cc: seq<Check>, rd: seq<Check>)
    requires forall i :: 0 <= i < |ct| ==> ct[i].ContentType?
    requires forall i :: 0 <= i < |cc| ==> cc[i].DeleteCookie? || cc[i].SetCookieCheck?
    requires |rd| <= 1 && forall i :: 0 <= i < |rd| ==> rd[i].Redirect?
    ensures var list := [StatusCode(code)] + ct + cc + rd;
            && list[0] == StatusCode(code)
            && ((exists i :: 0 <= i < |list| && list[i].Redirect?) <==> rd != [])
            && (rd != [] ==> list[|list| - 1] == rd[0])
            && (ct == [] ==> forall i :: 0 <= i < |list| ==> !list[i].ContentType?)
  {
    var list := [StatusCode(code)] + ct + cc + rd;
    forall i | 0 <= i < |list|
      ensures list[i].Redirect? ==> i == |list| - 1 && rd != []
      ensures list[i].ContentType? ==> ct != []
    {
      if i == 0 {
      } else if i <= |ct| {
        assert list[i] == ct[i - 1];
      } else if i <= |ct| + |cc| {
        assert list[i] == cc[i - 1 - |ct|];
      } else {
        assert list[i] == rd[i - 1 - |ct| - |cc|];
      }
    }
    if rd != [] {
      assert list[|list| - 1] == rd[0];
    }
  }
}
