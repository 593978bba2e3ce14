/**
 * What the verifier refuses. A signature covers the secret key, the time stamp, the method, the path, the canonical
 * query, the values of the signed headers and the payload hash, and nothing else: a request that carries the client's
 * Authorization header is accepted if and only if none of these differs from what was signed.
 */
module Tampering {
  import opened Basics
  import opened Sorting
  import opened Text
  import opened SigV4
  import opened SignThenVerify
  import SignatureScheme
  import QueryString
  import PercentCodec
  import Utf8

  /** A hash and a MAC without collisions, the MAC in its key as well. */
  ghost predicate CollisionFree(c: Crypto) {
    && Ideal(c)
    && (forall key, key', a, b :: c.hmac(key, a) == c.hmac(key', b) ==> key == key')
  }

  /** Text on one line. */
  predicate OneLine(s: string) {
    '\n' !in s
  }

  lemma VisibleOneLine(s: string)
    requires Visible(s)
    ensures OneLine(s) && OneLine(Trim(s))
  {
    TrimSubtext(s, '\n');
  }

  lemma JoinInjective(a: seq<string>, b: seq<string>, sep: char)
    requires |a| == |b| >= 1
    requires forall p :: p in a || p in b ==> sep !in p
    ensures Join(a, sep) == Join(b, sep) <==> a == b
  {
    SplitJoin(a, sep);
    SplitJoin(b, sep);
  }

  // --- the canonical request is injective ---

  function LineText(h: Headers, name: string): string {
    ToLower(name) + [':'] + HeaderText(h, ToLower(name))
  }

  /** The verifier's header lines, one text each. */
  function LineTexts(h: Headers, names: seq<string>, n: nat): (r: seq<string>)
    requires n <= |names|
    ensures |r| == n
  {
    if n == 0 then []
    else LineTexts(h, names, n - 1) + [LineText(h, names[n - 1])]
  }

  /** Before other lines, the header lines are lines like them. */
  lemma {:induction false} LinesAreParts(h: Headers, names: seq<string>, n: nat, rest: seq<string>)
    requires n <= |names| && rest != []
    ensures HeaderLines(h, names, n) + Join(rest, '\n') == Join(LineTexts(h, names, n) + rest, '\n')
  {
    if n == 0 {
      assert LineTexts(h, names, 0) + rest == rest;
    } else {
      var name := ToLower(names[n - 1]);
      var text := name + [':'] + HeaderText(h, name);
      SignatureScheme.JoinCons(text, rest, '\n');
      LinesAreParts(h, names, n - 1, [text] + rest);
      Associative(LineTexts(h, names, n - 1), [text], rest);
      Associative(HeaderLines(h, names, n - 1), text + ['\n'], Join(rest, '\n'));
    }
  }

  /** The lines of a canonical request. */
  function Parts(verb: string, path: string, query: string, h: Headers, names: seq<string>, payload: string): seq<string>
  {
    [verb, path, query] + (LineTexts(h, names, |names|) + ["", Join(names, ';'), payload])
  }

  lemma JoinPair(a: string, rest: seq<string>)
    requires rest != []
    ensures Join([a] + rest, '\n') == a + ['\n'] + Join(rest, '\n')
  {
    SignatureScheme.JoinCons(a, rest, '\n');
  }

  lemma CanonicalParts(verb: string, path: string, query: string, h: Headers, names: seq<string>, payload: string)
    ensures CanonicalRequest(verb, path, query, HeaderLines(h, names, |names|), Join(names, ';'), payload)
            == Join(Parts(verb, path, query, h, names, payload), '\n')
  {
    var lines, tail := HeaderLines(h, names, |names|), [Join(names, ';'), payload];
    LinesAreParts(h, names, |names|, [""] + tail);
    JoinPair("", tail);
    JoinPair(lines, tail);
    assert [] + ['\n'] + Join(tail, '\n') == ['\n'] + Join(tail, '\n');
    Associative(lines, ['\n'], Join(tail, '\n'));
    var rest := LineTexts(h, names, |names|) + ([""] + tail);
    assert [""] + tail == ["", Join(names, ';'), payload];
    FirstThree(verb, path, query, [lines] + tail, rest);
    assert [verb, path, query] + ([lines] + tail) == [verb, path, query, lines, Join(names, ';'), payload];
  }

  lemma FirstThree(a: string, b: string, c: string, x: seq<string>, y: seq<string>)
    requires x != [] && y != [] && Join(x, '\n') == Join(y, '\n')
    ensures Join([a, b, c] + x, '\n') == Join([a, b, c] + y, '\n')
  {
    OneMore(c, x, y);
    OneMore(b, [c] + x, [c] + y);
    OneMore(a, [b] + ([c] + x), [b] + ([c] + y));
    assert [a, b, c] + x == [a] + ([b] + ([c] + x)) && [a, b, c] + y == [a] + ([b] + ([c] + y));
  }

  lemma OneMore(a: string, x: seq<string>, y: seq<string>)
    requires x != [] && y != [] && Join(x, '\n') == Join(y, '\n')
    ensures Join([a] + x, '\n') == Join([a] + y, '\n')
  {
    JoinPair(a, x);
    JoinPair(a, y);
  }

  /** The signed values of two requests agree. */
  ghost predicate SameValues(h: Headers, h': Headers, names: seq<string>, n: nat)
    requires n <= |names|
  {
    forall i :: 0 <= i < n ==> HeaderText(h, ToLower(names[i])) == HeaderText(h', ToLower(names[i]))
  }

  lemma SameText(h: Headers, h': Headers, name: string)
    ensures [LineText(h, name)] == [LineText(h', name)] <==> HeaderText(h, ToLower(name)) == HeaderText(h', ToLower(name))
  {
    SameStart(ToLower(name) + [':'], HeaderText(h, ToLower(name)), HeaderText(h', ToLower(name)));
    SameSingles(LineText(h, name), LineText(h', name));
  }

  lemma SameValuesNext(h: Headers, h': Headers, names: seq<string>, n: nat)
    requires 0 < n <= |names|
    ensures SameValues(h, h', names, n) <==>
              SameValues(h, h', names, n - 1) && HeaderText(h, ToLower(names[n - 1])) == HeaderText(h', ToLower(names[n - 1]))
  {
  }

  lemma {:induction false} SameTexts(h: Headers, h': Headers, names: seq<string>, n: nat)
    requires n <= |names|
    ensures LineTexts(h, names, n) == LineTexts(h', names, n) <==> SameValues(h, h', names, n)
  {
    if n > 0 {
      SameTexts(h, h', names, n - 1);
      SameText(h, h', names[n - 1]);
      SameValuesNext(h, h', names, n);
      SameHalves(LineTexts(h, names, n - 1), [LineText(h, names[n - 1])],
                 LineTexts(h', names, n - 1), [LineText(h', names[n - 1])]);
    }
  }

  lemma {:induction false} TextsOneLine(h: Headers, names: seq<string>, n: nat)
    requires n <= |names| && forall name :: name in names ==> LowerName(name)
    ensures forall p :: p in LineTexts(h, names, n) ==> OneLine(p)
  {
    if n > 0 {
      TextsOneLine(h, names, n - 1);
      var name := names[n - 1];
      assert name in names;
      LowerNameKept(name);
      ValueOneLine(h, name);
    }
  }

  lemma ValueOneLine(h: Headers, name: string)
    ensures OneLine(HeaderText(h, name))
  {
    if HeaderStr(h, name).Some? {
      VisibleOneLine(h[name]);
    } else {
      assert Trim([]) == [];
    }
  }

  lemma {:induction false} PairsOneLine(ps: QueryString.Params)
    ensures forall p :: p in QueryString.Pairs(ps) ==> OneLine(p)
  {
    if ps != [] {
      PercentCodec.NoSeparators(ps[0].0);
      PercentCodec.NoSeparators(ps[0].1);
      PairsOneLine(ps[1..]);
    }
  }

  lemma QueryOneLine(ps: QueryString.Params)
    ensures OneLine(QueryString.Canonical(ps))
  {
    var pairs := QueryString.Pairs(QueryString.Sorted(ps));
    PairsOneLine(QueryString.Sorted(ps));
    JoinChars(pairs, '&', '\n');
    forall i | 0 <= i < |pairs|
      ensures OneLine(pairs[i])
    {
      assert pairs[i] in pairs;
    }
  }

  /** The parts a canonical request is made of, the header values apart. */
  datatype Core = Core(verb: string, path: string, query: QueryString.Params, payload: string)
  {
    predicate Clean() {
      OneLine(verb) && OneLine(path) && OneLine(payload)
    }

    /** The same but for the order and spelling of the query. */
    predicate Equals(other: Core) {
      && verb == other.verb && path == other.path && payload == other.payload
      && QueryString.Canonical(query) == QueryString.Canonical(other.query)
    }

    function Text(h: Headers, names: seq<string>): string {
      CanonicalRequest(verb, path, QueryString.Canonical(query), HeaderLines(h, names, |names|), Join(names, ';'), payload)
    }
  }

  lemma CoreParts(a: Core, h: Headers, names: seq<string>)
    requires a.Clean() && names != [] && forall name :: name in names ==> LowerName(name)
    ensures var parts := Parts(a.verb, a.path, QueryString.Canonical(a.query), h, names, a.payload);
            && a.Text(h, names) == Join(parts, '\n') && |parts| == 6 + |names|
            && (forall p :: p in parts ==> OneLine(p))
  {
    CanonicalParts(a.verb, a.path, QueryString.Canonical(a.query), h, names, a.payload);
    TextsOneLine(h, names, |names|);
    QueryOneLine(a.query);
    NameList(names);
    TokenPlain(Join(names, ';'));
    VisibleOneLine(Join(names, ';'));
  }

  lemma SameParts(a: Core, h: Headers, b: Core, h': Headers, names: seq<string>)
    ensures Parts(a.verb, a.path, QueryString.Canonical(a.query), h, names, a.payload)
            == Parts(b.verb, b.path, QueryString.Canonical(b.query), h', names, b.payload)
            <==> a.Equals(b) && SameValues(h, h', names, |names|)
  {
    SameTexts(h, h', names, |names|);
    var query, query' := QueryString.Canonical(a.query), QueryString.Canonical(b.query);
    var texts, texts' := LineTexts(h, names, |names|), LineTexts(h', names, |names|);
    var end, end' := ["", Join(names, ';'), a.payload], ["", Join(names, ';'), b.payload];
    SameHalves([a.verb, a.path, query], texts + end, [b.verb, b.path, query'], texts' + end');
    SameHalves(texts, end, texts', end');
    assert [a.verb, a.path, query] == [b.verb, b.path, query'] <==> a.verb == b.verb && a.path == b.path && query == query';
    assert end == end' <==> end[2] == end'[2];
  }

  lemma SameSingles(a: string, b: string)
    ensures [a] == [b] <==> a == b
  {
    if [a] == [b] {
      assert [a][0] == [b][0];
    }
  }

  lemma SameHalves(a: seq<string>, x: seq<string>, b: seq<string>, y: seq<string>)
    requires |a| == |b|
    ensures a + x == b + y <==> a == b && x == y
  {
    if a + x == b + y {
      assert (a + x)[..|a|] == a && (b + y)[..|b|] == b;
      assert (a + x)[|a|..] == x && (b + y)[|b|..] == y;
    }
  }

  /**
   * The canonical request is injective: for a given list of signed headers, two requests without line breaks in method
   * and path have the same canonical request if and only if method, path, canonical query, header values and payload
   * hash agree.
   */
  lemma CanonicalInjective(a: Core, h: Headers, b: Core, h': Headers, names: seq<string>)
    requires a.Clean() && b.Clean() && names != [] && forall name :: name in names ==> LowerName(name)
    ensures a.Text(h, names) == b.Text(h', names) <==> a.Equals(b) && SameValues(h, h', names, |names|)
  {
    CoreParts(a, h, names);
    CoreParts(b, h', names);
    SameParts(a, h, b, h', names);
    JoinInjective(Parts(a.verb, a.path, QueryString.Canonical(a.query), h, names, a.payload),
                  Parts(b.verb, b.path, QueryString.Canonical(b.query), h', names, b.payload), '\n');
  }

  // --- signatures are injective ---

  lemma StringToSignInjective(c: Crypto, time: string, time': string, scope: string, a: string, b: string)
    requires Ideal(c) && OneLine(time) && OneLine(time') && OneLine(scope)
    ensures StringToSign(c, time, scope, a) == StringToSign(c, time', scope, b) <==> time == time' && a == b
  {
    var x, y := [ALGORITHM, time, scope, HashHex(c, a)], [ALGORITHM, time', scope, HashHex(c, b)];
    assert OneLine(ALGORITHM) && OneLine(HashHex(c, a)) && OneLine(HashHex(c, b));
    JoinInjective(x, y, '\n');
    assert x == y <==> x[1] == y[1] && x[3] == y[3];
    HexInjective(c.sha256(Utf8.Encode(a)), c.sha256(Utf8.Encode(b)));
    Utf8.DecodeEncode(a);
    Utf8.DecodeEncode(b);
  }

  /** Different secrets derive different keys. */
  lemma DerivationInjective(c: Crypto, a: string, b: string, date: string, region: string)
    requires CollisionFree(c)
    ensures ClientKey(c, a, date, region) == DeriveSigningKey(c, b, date, region, "s3") <==> a == b
  {
    SameStart("AWS4", a, b);
    Utf8.DecodeEncode("AWS4" + a);
    Utf8.DecodeEncode("AWS4" + b);
  }

  lemma SignatureInjective(c: Crypto, key: seq<byte>, key': seq<byte>, a: string, b: string)
    requires CollisionFree(c)
    ensures Signature(c, key, a) == Signature(c, key', b) <==> key == key' && a == b
  {
    HexInjective(c.hmac(key, Utf8.Encode(a)), c.hmac(key', Utf8.Encode(b)));
    Utf8.DecodeEncode(a);
    Utf8.DecodeEncode(b);
  }

  // --- what is accepted ---

  /** What the verifier looks at in a request: its core. */
  function CoreOf(req: Request): Core {
    Core(req.verb, req.url.path, Retained(QueryOf(req)), HeaderStr(req.headers, CONTENT_HASH).GetOr(UNSIGNED))
  }

  /** What the client signed. */
  function SignedCore(s: Signing): Core {
    Core(s.verb, s.url.path, s.Query(), s.Stamped()[CONTENT_HASH])
  }

  /** The request carries the client's Authorization header and the time stamp `time`. */
  ghost predicate Presents(s: Signing, req: Request, time: string)
    requires s.Valid()
  {
    && Carries(req.headers, s.AuthHeader(), time)
    && OneLine(s.verb) && OneLine(s.url.path) && OneLine(req.verb) && OneLine(req.url.path)
  }

  /** Nothing that was signed differs. */
  ghost predicate Untampered(s: Signing, req: Request, time: string) {
    && time == s.datetime
    && req.verb == s.verb && req.url.path == s.url.path
    && QueryString.Canonical(Retained(QueryOf(req))) == QueryString.Canonical(s.Query())
    && HeaderStr(req.headers, CONTENT_HASH).GetOr(UNSIGNED) == s.Stamped()[CONTENT_HASH]
    && (forall name :: name in s.Names() ==> HeaderText(req.headers, name) == HeaderText(s.Stamped(), name))
  }

  lemma TimeOneLine(h: Headers, time: string)
    requires RequestTime(h) == Some(time)
    ensures OneLine(time)
  {
    VisibleOneLine(time);
  }

  lemma ExtractsPresented(s: Signing, req: Request, time: string)
    requires s.Valid() && Plain(s.accessKey) && Plain(s.region) && Presents(s, req, time)
    ensures Extract(req) == Some(Params(s).(datetime := time))
    ensures OneLine(time)
  {
    Tokens(s);
    TimeOneLine(req.headers, time);
    FoundInHeaders(s, req.headers, time, Join(s.Names(), ';'), s.SignatureOver(s.Query()));
  }

  lemma FoundInHeaders(s: Signing, h: Headers, time: string, names: string, signature: string)
    requires s.Valid() && Plain(s.accessKey) && Plain(s.region)
    requires Token(s.Date()) && Token(names) && Token(signature)
    requires Carries(h, Header(s.accessKey, s.Date(), s.region, names, signature), time)
    ensures ExtractFromHeaders(h)
            == Some(SigParams(s.accessKey, s.Date(), time, s.region, "s3", Split(names, ';'), signature))
  {
    AuthorizationRoundTrip(h, s.accessKey, s.Date(), time, s.region, names, signature);
  }

  lemma CleanCores(s: Signing, req: Request, time: string)
    requires s.Valid() && Presents(s, req, time)
    ensures CoreOf(req).Clean() && SignedCore(s).Clean()
  {
    StampedHash(s.headers, HostValue(s.url), s.datetime, PayloadHash(s.crypto, SignatureScheme.Timed(s), s.body));
    PayloadVisible(s.crypto, SignatureScheme.Timed(s), s.body);
    VisibleOneLine(s.Stamped()[CONTENT_HASH]);
    HashOneLine(req.headers);
  }

  lemma StampedHash(h: Headers, host: string, time: string, hash: string)
    ensures h["host" := host]["x-amz-date" := time][CONTENT_HASH := hash][CONTENT_HASH] == hash
  {
  }

  lemma HashOneLine(h: Headers)
    ensures OneLine(HeaderStr(h, CONTENT_HASH).GetOr(UNSIGNED))
  {
    if HeaderStr(h, CONTENT_HASH).Some? {
      VisibleOneLine(h[CONTENT_HASH]);
    }
  }

  /** The client's lines, as the verifier writes them. */
  lemma SignedText(s: Signing)
    ensures s.Canonical(s.Query()) == SignedCore(s).Text(s.Stamped(), s.Names())
    ensures s.Names() != [] && forall name :: name in s.Names() ==> LowerName(name)
  {
    SignedNamesLower(s.Stamped());
    SameAsClient(s.Stamped(), s.Names(), |s.Names()|);
  }

  lemma {:induction false} SameAsClient(h: Headers, names: seq<string>, n: nat)
    requires n <= |names| && forall name :: name in names ==> LowerName(name)
    ensures HeaderLines(h, names, n) == ClientLines(h, names, n)
  {
    if n > 0 {
      assert names[n - 1] in names;
      LowerNameKept(names[n - 1]);
      SameAsClient(h, names, n - 1);
    }
  }

  lemma SignedValues(s: Signing, h: Headers)
    ensures SameValues(s.Stamped(), h, s.Names(), |s.Names()|)
            <==> forall name :: name in s.Names() ==> HeaderText(h, name) == HeaderText(s.Stamped(), name)
  {
    var names := s.Names();
    SignedNamesLower(s.Stamped());
    forall i | 0 <= i < |names|
      ensures ToLower(names[i]) == names[i]
    {
      assert names[i] in names;
      LowerNameKept(names[i]);
    }
  }

  /** The signature presented is the one expected exactly when secret, time and canonical request are those signed. */
  lemma PresentedMatches(s: Signing, req: Request, time: string, secret: string)
    requires s.Valid() && Plain(s.region) && OneLine(time) && CollisionFree(s.crypto)
    ensures var p := Params(s).(datetime := time);
            Expected(s.crypto, secret, req, p) == s.SignatureOver(s.Query())
            <==> secret == s.secretKey && time == s.datetime && BuildCanonicalRequest(req, p) == s.Canonical(s.Query())
  {
    var p := Params(s).(datetime := time);
    var scope := Scope(s.Date(), s.region, "s3");
    DateTokens(s.datetime);
    TokenPlain(s.datetime);
    VisibleOneLine(s.datetime);
    ScopeOneLine(s);
    DerivationInjective(s.crypto, s.secretKey, secret, s.Date(), s.region);
    var text, text' := StringToSign(s.crypto, s.datetime, scope, s.Canonical(s.Query())),
                       StringToSign(s.crypto, time, scope, BuildCanonicalRequest(req, p));
    StringToSignInjective(s.crypto, s.datetime, time, scope, s.Canonical(s.Query()), BuildCanonicalRequest(req, p));
    SignatureInjective(s.crypto, s.Key(), DeriveSigningKey(s.crypto, secret, s.Date(), s.region, "s3"), text, text');
  }

  lemma ScopeOneLine(s: Signing)
    requires s.Valid() && Plain(s.region)
    ensures OneLine(Scope(s.Date(), s.region, "s3"))
  {
    var parts := [s.Date(), s.region, "s3", "aws4_request"];
    DateTokens(s.datetime);
    TokenPlain(s.Date());
    VisibleOneLine(s.Date());
    VisibleOneLine(s.region);
    JoinChars(parts, '/', '\n');
    assert OneLine(parts[0]) && OneLine(parts[1]) && OneLine(parts[2]) && OneLine(parts[3]);
  }

  /**
   * The verifier's verdict on every request that presents a signature of the client. It is accepted if and only if the
   * table's secret for the access key is the one it was signed with and nothing that was signed differs; otherwise it
   * is refused, for its access key if that is unknown and else for its signature.
   */
  lemma VerdictExactly(s: Signing, credentials: map<string, string>, req: Request, time: string)
    requires s.Valid() && Plain(s.accessKey) && Plain(s.region) && CollisionFree(s.crypto) && Presents(s, req, time)
    ensures Verify(s.crypto, credentials, req)
            == if s.accessKey !in credentials then Err(InvalidAccessKeyId)
               else if credentials[s.accessKey] == s.secretKey && Untampered(s, req, time) then
                 Ok(ClientCredentials(s.accessKey, s.secretKey, SessionToken(req)))
               else Err(SignatureDoesNotMatch)
  {
    ExtractsPresented(s, req, time);
    if s.accessKey in credentials {
      PresentedMatches(s, req, time, credentials[s.accessKey]);
      RebuiltMatches(s, req, time);
    }
  }

  lemma RebuiltMatches(s: Signing, req: Request, time: string)
    requires s.Valid() && Presents(s, req, time)
    ensures BuildCanonicalRequest(req, Params(s).(datetime := time)) == s.Canonical(s.Query())
            <==> Untampered(s, req, s.datetime)
  {
    CleanCores(s, req, time);
    SignedText(s);
    SignedValues(s, req.headers);
    CanonicalInjective(SignedCore(s), s.Stamped(), CoreOf(req), req.headers, s.Names());
    assert BuildCanonicalRequest(req, Params(s).(datetime := time)) == CoreOf(req).Text(req.headers, s.Names());
  }

  /** The client's own request, checked against another secret: refused for its signature, whatever it asks. */
  lemma WrongSecretRefused(s: Signing, credentials: map<string, string>)
    requires s.Valid() && s.Result().Some? && Plain(s.accessKey) && Plain(s.region) && CollisionFree(s.crypto)
    requires OneLine(s.verb) && OneLine(s.url.path)
    requires s.accessKey in credentials && credentials[s.accessKey] != s.secretKey
    ensures Verify(s.crypto, credentials, s.Result().value) == Err(SignatureDoesNotMatch)
  {
    PrepareResult(s);
    RequestCarries(s);
    VerdictExactly(s, credentials, s.Result().value, s.datetime);
  }

  /** Something that was signed differs: method, path, query, payload hash, or the value of a signed header. */
  ghost predicate Differs(s: Signing, req: Request) {
    || req.verb != s.verb || req.url.path != s.url.path
    || QueryString.Sorted(Retained(QueryOf(req))) != QueryString.Sorted(s.Query())
    || HeaderStr(req.headers, CONTENT_HASH).GetOr(UNSIGNED) != s.Stamped()[CONTENT_HASH]
    || (exists name :: name in s.Names() && HeaderText(req.headers, name) != HeaderText(s.Stamped(), name))
  }

  /** A request that presents the client's signature over something else is refused for it. */
  lemma TamperedRefused(s: Signing, credentials: map<string, string>, req: Request, time: string)
    requires s.Valid() && Plain(s.accessKey) && Plain(s.region) && CollisionFree(s.crypto)
    requires Presents(s, req, time) && s.accessKey in credentials && Differs(s, req)
    ensures Verify(s.crypto, credentials, req) == Err(SignatureDoesNotMatch)
  {
    QueryString.CanonicalAgrees(Retained(QueryOf(req)), s.Query());
    VerdictExactly(s, credentials, req, time);
  }
}
