/** The global JWT guard: public routes pass; otherwise a token is taken from
    the header, the query string or a cookie, normalised into the
    `authorization` header, and the request is authenticated with the JWT
    strategy. */
module JwtAuthGuards {
  import opened Common
  import opened UserDomain
  import opened RoutePolicies
  import opened AuthServices
  import opened JwtStrategies

  /** A header or query value: absent, one string, or repeated (an array). */
  datatype Carrier = Absent | Text(s: string) | Repeated(items: seq<string>)
  {
    /** JavaScript truthiness: a non-empty string or any array. */
    predicate Truthy()
    {
      (Text? && s != "") || Repeated?
    }

    /** The string the guard reads: the value itself, or an array's first
        element. */
    function First(): Option<string>
    {
      match this
      case Absent => None
      case Text(s) => Some(s)
      case Repeated(xs) => if |xs| > 0 then Some(xs[0]) else None
    }
  }

  /** `a || b` on carriers. */
  function Or(a: Carrier, b: Carrier): Carrier
  {
    if a.Truthy() then a else b
  }

  /** `a || b` on optional strings. */
  function OrText(a: Option<string>, b: Option<string>): Option<string>
  {
    if a.Some? && a.value != "" then a else b
  }

  /** Whether an optional string is a non-empty string. */
  predicate NonEmpty(t: Option<string>)
  {
    t.Some? && t.value != ""
  }

  /** The two token headers. */
  datatype Headers = Headers(authorization: Carrier, xAccessToken: Carrier)

  /** The three token query parameters. */
  datatype Query = Query(authorization: Carrier, accessToken: Carrier, token: Carrier)

  /** The three token cookies; a request without a cookie jar has none. */
  datatype Cookies = Cookies(authToken: Option<string>, token: Option<string>, accessToken: Option<string>)

  /** `authorization || x-access-token`, first element of an array. */
  function HeaderToken(h: Headers): Option<string>
  {
    Or(h.authorization, h.xAccessToken).First()
  }

  /** `authorization || access_token || token`, first element of an array. */
  function QueryToken(q: Query): Option<string>
  {
    Or(Or(q.authorization, q.accessToken), q.token).First()
  }

  /** `authToken || token || access_token`. */
  function CookieToken(c: Cookies): Option<string>
  {
    OrText(OrText(c.authToken, c.token), c.accessToken)
  }

  /** `headerToken || qToken || cToken`: the first carrier holding a
      non-empty string wins, in the order header, query, cookie. */
  function RawToken(h: Headers, q: Query, c: Cookies): (r: Option<string>)
    ensures NonEmpty(r) <==> NonEmpty(HeaderToken(h)) || NonEmpty(QueryToken(q)) || NonEmpty(CookieToken(c))
    ensures NonEmpty(HeaderToken(h)) ==> r == HeaderToken(h)
    ensures !NonEmpty(HeaderToken(h)) && NonEmpty(QueryToken(q)) ==> r == QueryToken(q)
    ensures !NonEmpty(HeaderToken(h)) && !NonEmpty(QueryToken(q)) ==> r == CookieToken(c)
  {
    OrText(OrText(HeaderToken(h), QueryToken(q)), CookieToken(c))
  }

  /** The characters JavaScript's `trim` and the regular-expression class
      `\s` treat as white space: the white-space and line-terminator code
      points of ECMAScript. */
  predicate IsSpace(c: char)
  {
    c == '\t' || c == '\n' || c == '\U{B}' || c == '\U{C}' || c == '\r' || c == ' '
    || c == '\U{A0}' || c == '\U{1680}' || ('\U{2000}' <= c <= '\U{200A}')
    || c == '\U{2028}' || c == '\U{2029}' || c == '\U{202F}' || c == '\U{205F}'
    || c == '\U{3000}' || c == '\U{FEFF}'
  }

  /** Whether a string neither starts nor ends with white space. */
  predicate Bare(t: string)
  {
    t == [] || (!IsSpace(t[0]) && !IsSpace(t[|t| - 1]))
  }

  /** Whether every character of `w` is white space. */
  predicate AllSpace(w: string)
  {
    forall i :: 0 <= i < |w| ==> IsSpace(w[i])
  }

  /** The string with its leading white space removed. */
  function TrimStart(s: string): (r: string)
    ensures |r| <= |s| && r == s[|s| - |r|..]
    ensures r == [] || !IsSpace(r[0])
    ensures AllSpace(s[..|s| - |r|])
  {
    if s != [] && IsSpace(s[0]) then TrimStart(s[1..]) else s
  }

  /** The string with its trailing white space removed. */
  function TrimEnd(s: string): (r: string)
    ensures |r| <= |s| && r == s[..|r|]
    ensures r == [] || !IsSpace(r[|r| - 1])
    ensures AllSpace(s[|r|..])
  {
    if s != [] && IsSpace(s[|s| - 1]) then TrimEnd(s[..|s| - 1]) else s
  }

  /** `s.trim()`. */
  function Trim(s: string): (r: string)
    ensures Bare(r)
    ensures Bare(s) ==> r == s
  {
    TrimEnd(TrimStart(s))
  }

  /** Whether `w` is "bearer" in any letter case (the regular expression's
      `i` flag folds ASCII letters only). */
  predicate IsBearerWord(w: string)
  {
    |w| == 6 && LowerChar(w[0]) == 'b' && LowerChar(w[1]) == 'e' && LowerChar(w[2]) == 'a'
    && LowerChar(w[3]) == 'r' && LowerChar(w[4]) == 'e' && LowerChar(w[5]) == 'r'
  }

  /** Whether `/^Bearer\s+/i` matches: the Bearer word, then white space. */
  predicate HasBearerPrefix(s: string)
  {
    |s| >= 7 && IsBearerWord(s[..6]) && IsSpace(s[6])
  }

  /** `.replace(/^Bearer\s+/i, "")`: the prefix and all the white space
      after it go, once. */
  function StripBearer(s: string): string
  {
    if HasBearerPrefix(s) then TrimStart(s[6..]) else s
  }

  /** The bare token the guard writes after "Bearer ". */
  function Normalize(raw: string): (t: string)
    ensures Bare(t)
    ensures !HasBearerPrefix(Trim(raw)) ==> t == Trim(raw)
  {
    var s := Trim(raw);
    assert HasBearerPrefix(s) ==> var r := TrimStart(s[6..]); r == [] || r[|r| - 1] == s[|s| - 1];
    StripBearer(s)
  }

  /** Dropping leading white space from a gap followed by a token that does
      not start with white space leaves exactly the token. */
  lemma {:induction false} TrimStartOfGap(gap: string, t: string)
    requires AllSpace(gap)
    requires t == [] || !IsSpace(t[0])
    ensures TrimStart(gap + t) == t
  {
    if gap == [] {
      assert gap + t == t;
    } else {
      assert (gap + t)[0] == gap[0];
      assert (gap + t)[1..] == gap[1..] + t;
      assert AllSpace(gap[1..]) by {
        forall i | 0 <= i < |gap[1..]| ensures IsSpace(gap[1..][i]) {
          assert gap[1..][i] == gap[i + 1];
        }
      }
      TrimStartOfGap(gap[1..], t);
    }
  }

  /** The pieces of a six-letter word followed by a gap and a token. */
  lemma SplitAfterWord(word: string, gap: string, t: string)
    requires |word| == 6 && gap != [] && t != []
    ensures var s := word + gap + t;
      s[..6] == word && s[6] == gap[0] && s[6..] == gap + t && s[0] == word[0] && s[|s| - 1] == t[|t| - 1]
  {
    assert word + gap + t == word + (gap + t);
  }

  /** A Bearer word, a gap and a bare token form a bare string. */
  lemma BearerFormIsBare(word: string, gap: string, t: string)
    requires IsBearerWord(word)
    requires gap != [] && t != [] && Bare(t)
    ensures Trim(word + gap + t) == word + gap + t
  {
    SplitAfterWord(word, gap, t);
  }

  /** A Bearer word followed by a gap carries the Bearer prefix. */
  lemma BearerFormIsPrefixed(word: string, gap: string, t: string)
    requires IsBearerWord(word)
    requires gap != [] && IsSpace(gap[0]) && t != []
    ensures HasBearerPrefix(word + gap + t)
    ensures (word + gap + t)[6..] == gap + t
  {
    SplitAfterWord(word, gap, t);
  }

  /** "Bearer", in any letter case, then white space, then a bare token,
      normalises to that token. */
  lemma StripsOneBearer(word: string, gap: string, t: string)
    requires IsBearerWord(word)
    requires gap != [] && AllSpace(gap)
    requires t != [] && Bare(t)
    ensures Normalize(word + gap + t) == t
  {
    BearerFormIsBare(word, gap, t);
    BearerFormIsPrefixed(word, gap, t);
    TrimStartOfGap(gap, t);
  }

  /** A bare token without a Bearer prefix is kept as it is. */
  lemma KeepsPlainToken(t: string)
    requires Bare(t) && !HasBearerPrefix(t)
    ensures Normalize(t) == t
  {
  }

  /** A Bearer word, one space and a bare token normalise to the token. */
  lemma SpacedWordNormalizes(word: string, t: string)
    requires IsBearerWord(word)
    requires t != [] && Bare(t)
    ensures Normalize(word + " " + t) == t
  {
    assert AllSpace(" ") by {
      assert " "[0] == ' ';
    }
    StripsOneBearer(word, " ", t);
  }

  /** The two sample headers split into word, space and token. */
  lemma SampleHeadersSplit()
    ensures "Bearer abc" == "Bearer" + " " + "abc"
    ensures "bearer abc" == "bearer" + " " + "abc"
  {
  }

  /** "abc", "Bearer abc" and "bearer abc" give the same header. */
  lemma BearerSpellingsAgree()
    ensures Normalize("abc") == Normalize("Bearer abc") == Normalize("bearer abc") == "abc"
  {
    KeepsPlainToken("abc");
    SampleHeadersSplit();
    SpacedWordNormalizes("Bearer", "abc");
    SpacedWordNormalizes("bearer", "abc");
  }

  /** The header the guard writes, "Bearer " and a non-empty bare token,
      normalises back to the token. */
  lemma WrittenHeaderNormalizes(t: string)
    requires t != [] && Bare(t)
    ensures Normalize("Bearer " + t) == t
  {
    assert "Bearer " + t == "Bearer" + " " + t;
    SpacedWordNormalizes("Bearer", t);
  }

  /** Normalising the header the guard wrote gives back the same token, so
      running the guard a second time leaves the header as it is; the token
      must be non-empty. */
  lemma RewriteIsStable(raw: string)
    requires Normalize(raw) != ""
    ensures Normalize("Bearer " + Normalize(raw)) == Normalize(raw)
  {
    WrittenHeaderNormalizes(Normalize(raw));
  }

  /** A token of white space only normalises to the empty string. */
  lemma BlankTokenNormalizesToEmpty()
    ensures Normalize(" ") == ""
  {
    assert TrimStart(" ") == TrimStart(" "[1..]) == "";
    assert Trim(" ") == "";
    assert StripBearer("") == "";
  }

  /** The header "Bearer " normalises to the token "Bearer". */
  lemma BareBearerHeader()
    ensures Normalize("Bearer ") == "Bearer"
  {
    assert TrimStart("Bearer ") == "Bearer ";
    assert "Bearer "[..6] == "Bearer";
    assert TrimEnd("Bearer ") == TrimEnd("Bearer") == "Bearer";
    assert Trim("Bearer ") == "Bearer";
  }

  /** A token of white space only is written as "Bearer ", which a second
      pass reads as the token "Bearer". */
  lemma BlankTokenIsNotStable()
    ensures Normalize(" ") == "" && Normalize("Bearer " + Normalize(" ")) == "Bearer"
  {
    BlankTokenNormalizesToEmpty();
    assert "Bearer " + "" == "Bearer ";
    BareBearerHeader();
  }

  /** The headers after the extraction step: the chosen token, normalised,
      replaces `authorization`; with no token they stay as they were. */
  function RewrittenHeaders(h: Headers, q: Query, c: Cookies): Headers
  {
    var raw := RawToken(h, q, c);
    if NonEmpty(raw) then h.(authorization := Text("Bearer " + Normalize(raw.value))) else h
  }

  /** With no token in any carrier the headers are left as they were. */
  lemma NoTokenLeavesHeaders(h: Headers, q: Query, c: Cookies)
    requires !NonEmpty(HeaderToken(h)) && !NonEmpty(QueryToken(q)) && !NonEmpty(CookieToken(c))
    ensures RewrittenHeaders(h, q, c) == h
  {
  }

  /** A second pass of the extraction step, as when the guard runs globally
      and again on a controller, leaves the headers unchanged. */
  lemma RewriteTwice(h: Headers, q: Query, c: Cookies)
    requires NonEmpty(RawToken(h, q, c)) && Normalize(RawToken(h, q, c).value) != ""
    ensures RewrittenHeaders(RewrittenHeaders(h, q, c), q, c) == RewrittenHeaders(h, q, c)
  {
    var t := Normalize(RawToken(h, q, c).value);
    var h1 := RewrittenHeaders(h, q, c);
    assert h1.authorization == Text("Bearer " + t);
    assert RawToken(h1, q, c) == Some("Bearer " + t);
    WrittenHeaderNormalizes(t);
  }

  /** A token is found but is white space only: the one case where the
      rewrite is not stable. */
  predicate BlankToken(h: Headers, q: Query, c: Cookies)
  {
    NonEmpty(RawToken(h, q, c)) && Normalize(RawToken(h, q, c).value) == ""
  }

  /** Unless the token is blank, rewriting the headers a second time changes
      nothing, whether a token was found or not. */
  lemma RewriteStable(h: Headers, q: Query, c: Cookies)
    requires !BlankToken(h, q, c)
    ensures RewrittenHeaders(RewrittenHeaders(h, q, c), q, c) == RewrittenHeaders(h, q, c)
  {
    if NonEmpty(RawToken(h, q, c)) {
      RewriteTwice(h, q, c);
    }
  }

  /** An empty `authorization` query value falls through to `token`. */
  lemma EmptyQueryValueFallsThrough(token: string)
    requires token != ""
    ensures RawToken(Headers(Absent, Absent), Query(Text(""), Absent, Text(token)), Cookies(None, None, None)) == Some(token)
  {
  }

  /** What passport-jwt makes of the `authorization` header: the claims of a
      well-signed, unexpired bearer token, or the reason it gave up. */
  datatype Verification = Verified(payload: JwtPayload) | Rejected(message: string)

  /** `handleRequest(err, user, info)`. */
  function HandleRequest(err: Option<HttpError>, user: Option<Principal>, info: Option<string>): (r: Result<Principal>)
    ensures err.Some? ==> r == Err(err.value)
    ensures err.None? ==> (r.Ok? <==> user.Some?)
    ensures r.Ok? ==> user == Some(r.value)
    ensures err.None? && user.None? ==>
      r.error == HttpError(Unauthorized, if info.Some? && info.value != "" then info.value else "Unauthorized")
  {
    if err.Some? then Err(err.value)
    else if user.None? then Err(HttpError(Unauthorized, if info.Some? && info.value != "" then info.value else "Unauthorized"))
    else Ok(user.value)
  }

  /** The authentication step behind the guard: a rejected token is
      Unauthorized with passport's message, verified claims go through the
      strategy and its error is passed on. */
  function Authenticate(strategy: JwtStrategy, v: Verification): (r: Result<Principal>)
    reads strategy, strategy.authService, strategy.authService.userRepository
    ensures r.Ok? <==> v.Verified? && strategy.Validate(v.payload).Ok?
    ensures v.Verified? ==> r == strategy.Validate(v.payload)
    ensures v.Rejected? ==> r.Err? && r.error.status == Unauthorized
  {
    match v
    case Rejected(message) => HandleRequest(None, None, Some(message))
    case Verified(payload) =>
      match strategy.Validate(payload)
      case Err(e) => HandleRequest(Some(e), None, None)
      case Ok(principal) => HandleRequest(None, Some(principal), None)
  }

  /** An incoming request: its headers, which the guard rewrites, its query
      and cookies, and the principal the guard attaches. */
  class Request {
    var headers: Headers
    const query: Query
    const cookies: Cookies
    var user: Option<Principal>

    constructor (h: Headers, q: Query, c: Cookies)
      ensures headers == h && query == q && cookies == c && user == None
    {
      headers := h;
      query := q;
      cookies := c;
      user := None;
    }
  }

  /** `canActivate(context)`: a public route passes untouched; otherwise the
      extraction step rewrites the headers and the request passes exactly
      when authentication yields a principal, which is attached to it.
      `verify` stands for passport-jwt reading the `authorization` header. */
  method CanActivate(policy: RoutePolicy, req: Request, strategy: JwtStrategy, verify: Carrier -> Verification)
    returns (r: Outcome)
    modifies req
    ensures policy.IsPublic() ==> r == Done && req.headers == old(req.headers) && req.user == old(req.user)
    ensures !policy.IsPublic() ==>
      req.headers == RewrittenHeaders(old(req.headers), req.query, req.cookies)
      && var a := Authenticate(strategy, verify(req.headers.authorization));
      (a.Ok? ==> r == Done && req.user == Some(a.value))
      && (a.Err? ==> r == Fail(a.error) && req.user == old(req.user))
  {
    if policy.IsPublic() {
      return Done;
    }
    var raw := RawToken(req.headers, req.query, req.cookies);
    if NonEmpty(raw) {
      var trimmed := Normalize(raw.value);
      req.headers := req.headers.(authorization := Text("Bearer " + trimmed));
    }
    var a := Authenticate(strategy, verify(req.headers.authorization));
    if a.Err? {
      return Fail(a.error);
    }
    req.user := Some(a.value);
    return Done;
  }
}
