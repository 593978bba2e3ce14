/**
 * AWS Signature Version 4 written out in one place, as a reference for both halves: the four-step key derivation, the
 * string to sign, the canonical request and the Authorization header. Neither half is defined by it.
 */
module SignatureScheme {
  import opened Basics
  import opened Sorting
  import opened Text
  import opened SigV4
  import opened SignThenVerify
  import QueryString
  import Utf8

  /** The signature of a canonical request. */
  function ReferenceSignature(c: Crypto, secret: string, date: string, datetime: string, region: string, service: string,
                              canonicalRequest: string): string
  {
    var kDate := c.hmac(Utf8.Encode("AWS4" + secret), Utf8.Encode(date));
    var kRegion := c.hmac(kDate, Utf8.Encode(region));
    var kService := c.hmac(kRegion, Utf8.Encode(service));
    var kSigning := c.hmac(kService, Utf8.Encode("aws4_request"));
    var stringToSign := "AWS4-HMAC-SHA256\n" + datetime + "\n" + date + "/" + region + "/" + service + "/aws4_request\n"
                        + Hex(c.sha256(Utf8.Encode(canonicalRequest)));
    Hex(c.hmac(kSigning, Utf8.Encode(stringToSign)))
  }

  /** The canonical request from its six parts. */
  function ReferenceRequest(verb: string, path: string, query: string, headerLines: string, names: string, payload: string)
    : string
  {
    verb + "\n" + path + "\n" + query + "\n" + headerLines + "\n" + names + "\n" + payload
  }

  // --- the client ---

  /** The names of the headers the client signs; the second and the fourth only if the request has them. */
  datatype Names = Names(host: string, range: string, hash: string, source: string, date: string)

  const NAMES := Names("host", "range", "x-amz-content-sha256", "x-amz-copy-source", "x-amz-date")

  function Present(h: Headers, name: string): seq<string> {
    if name in h then [name] else []
  }

  /** The signed header names in order. */
  function Ordered(h: Headers, n: Names): seq<string> {
    [n.host] + Present(h, n.range) + [n.hash] + Present(h, n.source) + [n.date]
  }

  /** The same, as the SignedHeaders field has them. */
  function ReferenceNames(h: Headers, n: Names): string {
    n.host + (if n.range in h then ";" + n.range else "") + ";" + n.hash
    + (if n.source in h then ";" + n.source else "") + ";" + n.date
  }

  /** The value that is signed: without the blanks around it, or empty if it is missing or not visible text. */
  function ReferenceValue(h: Headers, name: string): string {
    if name in h && Visible(h[name]) then Trim(h[name]) else ""
  }

  function ReferenceLine(h: Headers, name: string): string {
    name + ":" + ReferenceValue(h, name) + "\n"
  }

  /** The canonical headers. */
  function ReferenceLines(h: Headers, n: Names): string {
    ReferenceLine(h, n.host) + (if n.range in h then ReferenceLine(h, n.range) else "") + ReferenceLine(h, n.hash)
    + (if n.source in h then ReferenceLine(h, n.source) else "") + ReferenceLine(h, n.date)
  }

  lemma JoinTwo(a: string, b: string, sep: char)
    ensures Join([a, b], sep) == a + [sep] + b
  {
    assert [a, b][1..] == [b];
  }

  lemma JoinCons(a: string, parts: seq<string>, sep: char)
    requires parts != []
    ensures Join([a] + parts, sep) == a + [sep] + Join(parts, sep)
  {
    assert ([a] + parts)[1..] == parts;
  }

  lemma RequestWritten(verb: string, path: string, query: string, lines: string, names: string, payload: string)
    ensures CanonicalRequest(verb, path, query, lines, names, payload)
            == ReferenceRequest(verb, path, query, lines, names, payload)
  {
    JoinTwo(names, payload, '\n');
    JoinCons(lines, [names, payload], '\n');
    JoinCons(query, [lines, names, payload], '\n');
    JoinCons(path, [query, lines, names, payload], '\n');
    JoinCons(verb, [path, query, lines, names, payload], '\n');
  }

  /** The first difference decides. */
  lemma {:induction false} FirstDifference(a: string, b: string, k: nat)
    requires k < |a| && k < |b| && a[k] < b[k]
    requires forall i :: 0 <= i < k ==> a[i] == b[i]
    ensures StringLe(a, b)
  {
    if k > 0 {
      FirstDifference(a[1..], b[1..], k - 1);
    }
  }

  ghost predicate InOrder(n: Names) {
    StringLe(n.host, n.range) && StringLe(n.range, n.hash) && StringLe(n.hash, n.source) && StringLe(n.source, n.date)
  }

  lemma NamesInOrder()
    ensures InOrder(NAMES)
  {
    FirstDifference("host", "range", 0);
    FirstDifference("range", "x-amz-content-sha256", 0);
    HashBeforeSource("x-amz-content-sha256", "x-amz-copy-source");
    SourceBeforeDate("x-amz-copy-source", "x-amz-date");
  }

  lemma HashBeforeSource(a: string, b: string)
    requires a == "x-amz-content-sha256" && b == "x-amz-copy-source"
    ensures StringLe(a, b)
  {
    assert |a| == 20 && |b| == 17;
    assert a[0] == b[0] && a[1] == b[1] && a[2] == b[2] && a[3] == b[3];
    assert a[4] == b[4] && a[5] == b[5] && a[6] == b[6] && a[7] == b[7] && a[8] < b[8];
    FirstDifference(a, b, 8);
  }

  lemma SourceBeforeDate(a: string, b: string)
    requires a == "x-amz-copy-source" && b == "x-amz-date"
    ensures StringLe(a, b)
  {
    assert |a| == 17 && |b| == 10;
    assert a[0] == b[0] && a[1] == b[1] && a[2] == b[2] && a[3] == b[3];
    assert a[4] == b[4] && a[5] == b[5] && a[6] < b[6];
    FirstDifference(a, b, 6);
  }

  /** Every name is at most every later one. */
  lemma SortedCons(name: string, rest: seq<string>)
    requires (forall x :: x in rest ==> StringLe(name, x)) && Sorting.Sorted(rest, StringLe)
    ensures Sorting.Sorted([name] + rest, StringLe)
  {
  }

  lemma OrderedSorted(h: Headers, n: Names)
    requires InOrder(n)
    ensures Sorting.Sorted(Ordered(h, n), StringLe)
  {
    var copied := Present(h, n.source) + [n.date];
    var ranged := Present(h, n.range) + ([n.hash] + copied);
    SortedMaybe(h, n.source, [n.date]);
    StringLeTransitive(n.hash, n.source, n.date);
    SortedCons(n.hash, copied);
    AtMostAll(n.range, n.hash, copied);
    SortedMaybe(h, n.range, [n.hash] + copied);
    StringLeTransitive(n.host, n.range, n.hash);
    AtMostAll(n.host, n.hash, copied);
    SortedCons(n.host, ranged);
    assert Ordered(h, n) == [n.host] + ranged;
  }

  lemma AtMostAll(a: string, b: string, rest: seq<string>)
    requires forall x :: x in rest ==> StringLe(b, x)
    ensures StringLe(a, b) ==> forall x :: x in [b] + rest ==> StringLe(a, x)
  {
    forall x | x in rest && StringLe(a, b)
      ensures StringLe(a, x)
    {
      StringLeTransitive(a, b, x);
    }
  }

  lemma SortedMaybe(h: Headers, name: string, rest: seq<string>)
    requires (forall x :: x in rest ==> StringLe(name, x)) && Sorting.Sorted(rest, StringLe)
    ensures Sorting.Sorted(Present(h, name) + rest, StringLe)
    ensures forall x :: x in Present(h, name) + rest ==> x == name || x in rest
  {
    SortedCons(name, rest);
    assert [] + rest == rest;
  }

  lemma OrderedSigned(h: Headers, n: Names)
    ensures multiset(Ordered(h, n)) == multiset([n.host, n.hash, n.date] + Present(h, n.range) + Present(h, n.source))
  {
  }

  /** The client signs these headers, in this order. */
  lemma SignedNamesAre(h: Headers)
    ensures SignedNames(h) == Ordered(h, NAMES)
  {
    NamesInOrder();
    OrderedSorted(h, NAMES);
    OrderedSigned(h, NAMES);
    SortedOnce(HeadersToSign(h), Ordered(h, NAMES));
  }

  lemma SortedOnce(names: seq<string>, ordered: seq<string>)
    requires multiset(names) == multiset(ordered) && Sorting.Sorted(ordered, StringLe)
    ensures SortNames(names) == ordered
  {
    StringLePreorder();
    SortSorts(names, StringLe);
    forall a, b | StringLe(a, b) && StringLe(b, a)
      ensures a == b
    {
      StringLeTotal(a, b);
    }
    SortedUnique(SortNames(names), ordered, StringLe);
  }

  lemma {:induction false} SameLines(h: Headers, a: seq<string>, b: seq<string>, n: nat)
    requires n <= |a| && n <= |b| && a[..n] == b[..n]
    ensures ClientLines(h, a, n) == ClientLines(h, b, n)
  {
    if n > 0 {
      assert a[..n][..n - 1] == a[..n - 1] && b[..n][..n - 1] == b[..n - 1];
      assert a[..n][n - 1] == a[n - 1] && b[..n][n - 1] == b[n - 1];
      SameLines(h, a, b, n - 1);
    }
  }

  lemma ValueWritten(h: Headers, name: string)
    ensures HeaderText(h, name) == ReferenceValue(h, name)
  {
    assert Trim([]) == [];
  }

  /** The lines of all the names. */
  function AllLines(h: Headers, names: seq<string>): string {
    ClientLines(h, names, |names|)
  }

  lemma LinesMore(h: Headers, names: seq<string>, name: string)
    ensures AllLines(h, names + [name]) == AllLines(h, names) + ReferenceLine(h, name)
  {
    SameLines(h, names, names + [name], |names|);
    ValueWritten(h, name);
  }

  lemma LinesMaybe(h: Headers, names: seq<string>, name: string)
    ensures AllLines(h, names + Present(h, name))
            == AllLines(h, names) + (if name in h then ReferenceLine(h, name) else "")
  {
    if name in h {
      LinesMore(h, names, name);
    } else {
      assert names + Present(h, name) == names;
    }
  }

  lemma FirstLines(h: Headers, n: Names)
    ensures AllLines(h, [n.host] + Present(h, n.range))
            == ReferenceLine(h, n.host) + (if n.range in h then ReferenceLine(h, n.range) else "")
  {
    LinesMore(h, [], n.host);
    assert [] + [n.host] == [n.host];
    assert AllLines(h, []) + ReferenceLine(h, n.host) == ReferenceLine(h, n.host);
    LinesMaybe(h, [n.host], n.range);
  }

  lemma LinesWritten(h: Headers, n: Names)
    ensures AllLines(h, Ordered(h, n)) == ReferenceLines(h, n)
  {
    var names := [n.host] + Present(h, n.range);
    FirstLines(h, n);
    LinesMore(h, names, n.hash);
    LinesMaybe(h, names + [n.hash], n.source);
    LinesMore(h, names + [n.hash] + Present(h, n.source), n.date);
  }

  lemma JoinMore(parts: seq<string>, part: string, sep: char)
    requires parts != []
    ensures Join(parts + [part], sep) == Join(parts, sep) + ([sep] + part)
    decreases |parts|
  {
    if |parts| == 1 {
      assert parts + [part] == [parts[0], part];
      JoinTwo(parts[0], part, sep);
    } else {
      assert (parts + [part])[1..] == parts[1..] + [part];
      JoinMore(parts[1..], part, sep);
    }
  }

  lemma JoinMaybe(h: Headers, parts: seq<string>, name: string)
    requires parts != []
    ensures Join(parts + Present(h, name), ';') == Join(parts, ';') + (if name in h then ";" + name else "")
  {
    if name in h {
      JoinMore(parts, name, ';');
    } else {
      assert parts + Present(h, name) == parts;
    }
  }

  lemma NamesWritten(h: Headers, n: Names)
    ensures Join(Ordered(h, n), ';') == ReferenceNames(h, n)
  {
    var names := [n.host];
    JoinMaybe(h, names, n.range);
    names := names + Present(h, n.range);
    JoinMore(names, n.hash, ';');
    names := names + [n.hash];
    JoinMaybe(h, names, n.source);
    names := names + Present(h, n.source);
    JoinMore(names, n.date, ';');
  }

  // --- both halves follow the scheme ---

  lemma ScopeWritten(date: string, region: string, service: string)
    ensures Scope(date, region, service) == date + "/" + region + "/" + service + "/aws4_request"
  {
    JoinTwo(service, "aws4_request", '/');
    JoinCons(region, [service, "aws4_request"], '/');
    JoinCons(date, [region, service, "aws4_request"], '/');
    assert ['/'] + "aws4_request" == "/aws4_request";
  }

  lemma FourLines(a: string, b: string, scope: string, hash: string)
    ensures Lines([a, b, scope, hash]) == a + "\n" + b + "\n" + scope + "\n" + hash
  {
    JoinTwo(scope, hash, '\n');
    JoinCons(b, [scope, hash], '\n');
    JoinCons(a, [b, scope, hash], '\n');
  }

  lemma StringToSignWritten(c: Crypto, date: string, datetime: string, region: string, service: string, request: string)
    ensures StringToSign(c, datetime, Scope(date, region, service), request)
            == "AWS4-HMAC-SHA256\n" + datetime + "\n" + date + "/" + region + "/" + service + "/aws4_request\n"
               + Hex(c.sha256(Utf8.Encode(request)))
  {
    var hash := HashHex(c, request);
    ScopeWritten(date, region, service);
    FourLines(ALGORITHM, datetime, Scope(date, region, service), hash);
    assert ALGORITHM + "\n" == "AWS4-HMAC-SHA256\n";
    assert "/aws4_request" + "\n" == "/aws4_request\n";
    Rebracket("AWS4-HMAC-SHA256\n" + datetime + "\n", date + "/" + region + "/" + service, "/aws4_request", "\n");
  }

  lemma Rebracket(a: string, b: string, c: string, d: string)
    ensures a + (b + c) + d == a + b + (c + d)
  {
  }

  /** The client's signature is the scheme's. */
  lemma ClientFollows(c: Crypto, secret: string, date: string, datetime: string, region: string, request: string)
    ensures Signature(c, ClientKey(c, secret, date, region), StringToSign(c, datetime, Scope(date, region, "s3"), request))
            == ReferenceSignature(c, secret, date, datetime, region, "s3", request)
  {
    StringToSignWritten(c, date, datetime, region, "s3", request);
  }

  /** The signature the verifier expects is the scheme's. */
  lemma VerifierFollows(c: Crypto, secret: string, req: Request, p: SigParams)
    ensures Expected(c, secret, req, p)
            == ReferenceSignature(c, secret, p.date, p.datetime, p.region, p.service, BuildCanonicalRequest(req, p))
  {
    StringToSignWritten(c, p.date, p.datetime, p.region, p.service, BuildCanonicalRequest(req, p));
  }

  /** The headers a signed request is sent with: four are set, the others are the caller's. */
  lemma SentHeaders(s: Signing)
    requires s.Valid() && s.Result().Some?
    ensures var sent := s.Result().value.headers;
            && "host" in sent
            && sent["host"] == (if s.url.port.None? then s.url.host else s.url.host + ":" + s.url.port.value)
            && "x-amz-date" in sent && sent["x-amz-date"] == s.datetime
            && "x-amz-content-sha256" in sent
            && sent["x-amz-content-sha256"]
               == (if "x-amz-content-sha256" in s.headers && Visible(s.headers["x-amz-content-sha256"]) then
                     s.headers["x-amz-content-sha256"]
                   else if s.body.Some? then Hex(s.crypto.sha256(s.body.value)) else EMPTY_HASH)
            && (forall name :: name !in {"host", "x-amz-date", "x-amz-content-sha256", "authorization"} ==>
                  (name in sent <==> name in s.headers) && (name in sent ==> sent[name] == s.headers[name]))
  {
    PrepareResult(s);
    Inserted(s.headers, HostValue(s.url), s.datetime, PayloadHash(s.crypto, Timed(s), s.body), s.AuthHeader());
    PayloadWritten(s);
  }

  function Timed(s: Signing): Headers {
    s.headers["host" := HostValue(s.url)]["x-amz-date" := s.datetime]
  }

  /** The four insertions do not disturb each other. */
  lemma Inserted(h: Headers, host: string, datetime: string, hash: string, header: string)
    ensures var sent := h["host" := host]["x-amz-date" := datetime][CONTENT_HASH := hash]["authorization" := header];
            && sent["host"] == host && sent["x-amz-date"] == datetime && sent["x-amz-content-sha256"] == hash
            && (forall name :: name !in {"host", "x-amz-date", "x-amz-content-sha256", "authorization"} ==>
                  (name in sent <==> name in h) && (name in sent ==> sent[name] == h[name]))
  {
    Distinct("host", "x-amz-date", CONTENT_HASH, "authorization");
  }

  lemma Distinct(a: string, b: string, c: string, d: string)
    requires a == "host" && b == "x-amz-date" && c == CONTENT_HASH && d == "authorization"
    ensures a != b && a != c && a != d && b != c && b != d && c != d
  {
    assert |a| == 4 && |b| == 10 && |c| == 20 && |d| == 13;
  }

  /** The payload hash: the caller's if it gives one, else the body's, else the empty body's. */
  lemma PayloadWritten(s: Signing)
    ensures PayloadHash(s.crypto, Timed(s), s.body)
            == (if "x-amz-content-sha256" in s.headers && Visible(s.headers["x-amz-content-sha256"]) then
                  s.headers["x-amz-content-sha256"]
                else if s.body.Some? then Hex(s.crypto.sha256(s.body.value)) else EMPTY_HASH)
  {
    Distinct("host", "x-amz-date", CONTENT_HASH, "authorization");
  }

  /** The canonical request of what is sent. */
  function SentRequest(s: Signing, sent: Headers): string
    requires "x-amz-content-sha256" in sent
  {
    ReferenceRequest(s.verb, s.url.path, QueryString.Canonical(s.Query()), ReferenceLines(sent, NAMES),
                     ReferenceNames(sent, NAMES), sent["x-amz-content-sha256"])
  }

  /** Adding the Authorization header changes none of the signed ones. */
  lemma AuthorizationUnsigned(h: Headers, header: string, name: string)
    requires name in {"host", "range", "x-amz-content-sha256", "x-amz-copy-source", "x-amz-date"}
    ensures var sent := h["authorization" := header];
            && ReferenceValue(sent, name) == ReferenceValue(h, name) && (name in sent <==> name in h)
  {
    assert |"authorization"| == 13 && |"host"| == 4 && |"range"| == 5;
    assert |"x-amz-content-sha256"| == 20 && |"x-amz-copy-source"| == 17 && |"x-amz-date"| == 10;
  }

  lemma SignedPartsWritten(s: Signing, header: string)
    requires s.Valid()
    ensures var h := s.Stamped()["authorization" := header];
            && Join(s.Names(), ';') == ReferenceNames(h, NAMES)
            && CONTENT_HASH in h && s.Canonical(s.Query()) == SentRequest(s, h)
  {
    var stamped := s.Stamped();
    var h := stamped["authorization" := header];
    SignedNamesAre(stamped);
    LinesWritten(stamped, NAMES);
    NamesWritten(stamped, NAMES);
    AuthorizationUnsigned(stamped, header, "host");
    AuthorizationUnsigned(stamped, header, "range");
    AuthorizationUnsigned(stamped, header, "x-amz-content-sha256");
    AuthorizationUnsigned(stamped, header, "x-amz-copy-source");
    AuthorizationUnsigned(stamped, header, "x-amz-date");
    RequestWritten(s.verb, s.url.path, QueryString.Canonical(s.Query()), AllLines(stamped, s.Names()),
                   Join(s.Names(), ';'), stamped[CONTENT_HASH]);
  }

  /**
   * What is sent upstream. The Authorization header is the scheme's: access key, scope, the signed header names in
   * order, and the signature of the canonical request of exactly the headers that are sent.
   */
  lemma SignatureSent(s: Signing)
    requires s.Valid() && s.Result().Some?
    ensures var sent := s.Result().value.headers;
            && "authorization" in sent && "x-amz-content-sha256" in sent
            && sent["authorization"]
               == "AWS4-HMAC-SHA256 Credential=" + (s.accessKey + "/" + (s.Date() + "/" + s.region + "/s3/aws4_request"))
                  + ", SignedHeaders=" + ReferenceNames(sent, NAMES)
                  + ", Signature=" + ReferenceSignature(s.crypto, s.secretKey, s.Date(), s.datetime, s.region, "s3",
                                                        SentRequest(s, sent))
  {
    PrepareResult(s);
    SignedPartsWritten(s, s.AuthHeader());
    ClientFollows(s.crypto, s.secretKey, s.Date(), s.datetime, s.region, s.Canonical(s.Query()));
    AuthorizationWritten(s.accessKey, s.Date(), s.region, Join(s.Names(), ';'), s.SignatureOver(s.Query()));
  }

  lemma AuthorizationWritten(accessKey: string, date: string, region: string, names: string, signature: string)
    ensures Header(accessKey, date, region, names, signature)
            == "AWS4-HMAC-SHA256 Credential=" + (accessKey + "/" + (date + "/" + region + "/s3/aws4_request"))
               + ", SignedHeaders=" + names + ", Signature=" + signature
  {
    CredentialWritten(date, region);
    ThreeFields(accessKey + ['/'] + Scope(date, region, "s3"), names, signature);
  }

  lemma CredentialWritten(date: string, region: string)
    ensures Scope(date, region, "s3") == date + "/" + region + "/s3/aws4_request"
  {
    ScopeWritten(date, region, "s3");
    assert "/" + "s3" + "/aws4_request" == "/s3/aws4_request";
    Reassociate(date + "/" + region, "/", "s3", "/aws4_request");
  }

  lemma Reassociate(a: string, b: string, c: string, d: string)
    ensures a + b + c + d == a + (b + c + d)
  {
  }

  lemma ThreeFields(credential: string, names: string, signature: string)
    ensures ALGORITHM + [' ']
            + Join([Field("Credential", credential), [' '] + Field("SignedHeaders", names),
                    [' '] + Field("Signature", signature)], ',')
            == "AWS4-HMAC-SHA256 Credential=" + credential + ", SignedHeaders=" + names + ", Signature=" + signature
  {
    var a, b, c := Field("Credential", credential), [' '] + Field("SignedHeaders", names), [' '] + Field("Signature", signature);
    JoinTwo(b, c, ',');
    JoinCons(a, [b, c], ',');
    assert [a, b, c] == [a] + [b, c];
    FieldsInline(credential, names, signature);
  }

  lemma FieldsInline(credential: string, names: string, signature: string)
    ensures "AWS4-HMAC-SHA256" + [' ']
            + (Field("Credential", credential) + [',']
               + ([' '] + Field("SignedHeaders", names) + [','] + ([' '] + Field("Signature", signature))))
            == "AWS4-HMAC-SHA256 Credential=" + credential + ", SignedHeaders=" + names + ", Signature=" + signature
  {
    assert "AWS4-HMAC-SHA256" + [' '] + ("Credential" + ['=']) == "AWS4-HMAC-SHA256 Credential=";
    assert [','] + ([' '] + ("SignedHeaders" + ['='])) == ", SignedHeaders=";
    assert [','] + ([' '] + ("Signature" + ['='])) == ", Signature=";
    Associative([' '], "SignedHeaders" + ['='], names);
    Associative([' '], "Signature" + ['='], signature);
    Inlined("AWS4-HMAC-SHA256" + [' '], "Credential" + ['='], credential, [' '] + ("SignedHeaders" + ['=']), names,
            [' '] + ("Signature" + ['=']), signature);
  }

  lemma Inlined(p: string, a: string, x: string, b: string, y: string, c: string, z: string)
    ensures p + ((a + x) + [','] + ((b + y) + [','] + (c + z))) == (p + a) + x + ([','] + b) + y + ([','] + c) + z
  {
    Associative(p, a, x);
    Associative(p, a + x, [','] + ((b + y) + [','] + (c + z)));
    Associative(a + x, [','], (b + y) + [','] + (c + z));
    TailInlined(p + a + x, b, y, c, z);
  }

  lemma TailInlined(p: string, b: string, y: string, c: string, z: string)
    ensures p + ([','] + ((b + y) + [','] + (c + z))) == p + ([','] + b) + y + ([','] + c) + z
  {
  }

  /** Without keys a request is sent with its host and otherwise as it is: no stamp, no signature. */
  lemma AnonymousSent(c: Crypto, verb: string, url: Url, h: Headers, body: Option<seq<byte>>, datetime: string)
    requires IsDatetime(datetime) && Prepare(c, Anonymous, verb, url, h, body, datetime).Some?
    ensures var req := Prepare(c, Anonymous, verb, url, h, body, datetime).value;
            && req.verb == verb && req.url == url && req.body == body
            && "host" in req.headers
            && req.headers["host"] == (if url.port.None? then url.host else url.host + ":" + url.port.value)
            && (forall name :: name != "host" ==>
                  (name in req.headers <==> name in h) && (name in h ==> req.headers[name] == h[name]))
  {
  }

  /** `hex::encode`: two lower-case digits for each byte, in order. */
  lemma HexWritten(b: byte, rest: seq<byte>)
    ensures Hex([]) == []
    ensures Hex([b] + rest) == ["0123456789abcdef"[b / 16], "0123456789abcdef"[b % 16]] + Hex(rest)
  {
    assert ([b] + rest)[1..] == rest;
    LowerHex(b / 16);
    LowerHex(b % 16);
  }

  lemma LowerHex(n: nat)
    requires n < 16
    ensures HexNibble(n) == "0123456789abcdef"[n]
  {
    var digits := "0123456789abcdef";
    assert digits[0] == '0' && digits[1] == '1' && digits[2] == '2' && digits[3] == '3';
    assert digits[4] == '4' && digits[5] == '5' && digits[6] == '6' && digits[7] == '7';
    assert digits[8] == '8' && digits[9] == '9' && digits[10] == 'a' && digits[11] == 'b';
    assert digits[12] == 'c' && digits[13] == 'd' && digits[14] == 'e' && digits[15] == 'f';
  }

  // --- the verifier's verdict ---

  /** The lines of the signed headers, each name in lower case. */
  function CheckedLines(h: Headers, names: seq<string>): string {
    if names == [] then ""
    else ReferenceLine(h, ToLower(names[0])) + CheckedLines(h, names[1..])
  }

  lemma {:induction false} LinesChecked(h: Headers, names: seq<string>, n: nat)
    requires n <= |names|
    ensures HeaderLines(h, names, |names|) == HeaderLines(h, names, n) + CheckedLines(h, names[n..])
    decreases |names| - n
  {
    if n < |names| {
      var name := ToLower(names[n]);
      LinesChecked(h, names, n + 1);
      ValueWritten(h, name);
      assert names[n..][1..] == names[n + 1..];
      Associative(HeaderLines(h, names, n), ReferenceLine(h, name), CheckedLines(h, names[n + 1..]));
    } else {
      assert names[n..] == [];
    }
  }

  /** Two names are the same but for the case of letters. */
  predicate SameName(a: string, b: string) {
    |a| == |b| && forall i :: 0 <= i < |a| ==>
      || a[i] == b[i]
      || ('A' <= a[i] <= 'Z' && b[i] as int == a[i] as int + 32)
      || ('A' <= b[i] <= 'Z' && a[i] as int == b[i] as int + 32)
  }

  lemma SameLower(a: string, b: string)
    requires SameName(a, b)
    ensures ToLower(a) == ToLower(b)
  {
  }

  /** The case in which header names are listed does not matter to the lines that are signed. */
  lemma {:induction false} CaseIgnored(h: Headers, a: seq<string>, b: seq<string>)
    requires |a| == |b| && forall i :: 0 <= i < |a| ==> SameName(a[i], b[i])
    ensures CheckedLines(h, a) == CheckedLines(h, b)
  {
    if a != [] {
      SameLower(a[0], b[0]);
      CaseIgnored(h, a[1..], b[1..]);
    }
  }

  /** The canonical request the verifier signs. */
  function CheckedRequest(req: Request, params: QueryString.Params, names: seq<string>): string {
    var hash := if CONTENT_HASH in req.headers && Visible(req.headers[CONTENT_HASH]) then req.headers[CONTENT_HASH]
                else "UNSIGNED-PAYLOAD";
    ReferenceRequest(req.verb, req.url.path, QueryString.Canonical(params), CheckedLines(req.headers, names),
                     Join(names, ';'), hash)
  }

  /** The verdict on a request whose credentials have been read. */
  ghost predicate Judged(c: Crypto, credentials: map<string, string>, req: Request, p: SigParams,
                         params: QueryString.Params)
  {
    Verify(c, credentials, req)
    == if p.accessKey !in credentials then Err(InvalidAccessKeyId)
       else if p.signature == ReferenceSignature(c, credentials[p.accessKey], p.date, p.datetime, p.region, p.service,
                                                 CheckedRequest(req, params, p.signedHeaders)) then
         Ok(ClientCredentials(p.accessKey, credentials[p.accessKey], SessionToken(req)))
       else Err(SignatureDoesNotMatch)
  }

  /**
   * Every request: accepted if and only if its access key is known and its signature is the scheme's for the canonical
   * request, from which signature parameters are left out.
   */
  lemma VerdictFollows(c: Crypto, credentials: map<string, string>, req: Request, p: SigParams)
    requires Extract(req) == Some(p)
    ensures Judged(c, credentials, req, p, Retained(QueryOf(req)))
  {
    RebuiltWritten(req, p);
    if p.accessKey in credentials {
      VerifierFollows(c, credentials[p.accessKey], req, p);
    }
    VerdictOn(c, credentials, req, p);
  }

  lemma RebuiltWritten(req: Request, p: SigParams)
    ensures BuildCanonicalRequest(req, p) == CheckedRequest(req, Retained(QueryOf(req)), p.signedHeaders)
  {
    var names := p.signedHeaders;
    LinesChecked(req.headers, names, 0);
    assert names[0..] == names;
    assert [] + CheckedLines(req.headers, names) == CheckedLines(req.headers, names);
    RequestWritten(req.verb, req.url.path, QueryString.Canonical(Retained(QueryOf(req))), CheckedLines(req.headers, names),
                   Join(names, ';'), HeaderStr(req.headers, CONTENT_HASH).GetOr(UNSIGNED));
  }

  lemma VerdictOn(c: Crypto, credentials: map<string, string>, req: Request, p: SigParams)
    requires Extract(req) == Some(p)
    ensures Verify(c, credentials, req)
            == if p.accessKey !in credentials then Err(InvalidAccessKeyId)
               else if Expected(c, credentials[p.accessKey], req, p) == p.signature then
                 Ok(ClientCredentials(p.accessKey, credentials[p.accessKey], SessionToken(req)))
               else Err(SignatureDoesNotMatch)
  {
  }

  /** A request without readable credentials is refused for its access key. */
  lemma NoCredentials(c: Crypto, credentials: map<string, string>, req: Request)
    requires Extract(req) == None
    ensures Verify(c, credentials, req) == Err(InvalidAccessKeyId)
  {
  }

  // --- pre-signed URLs ---

  /** The parameters of a pre-signed URL, before its signature: each of these names, the last value counting. */
  ghost predicate Presigns(base: QueryString.Params, p: SigParams) {
    && LastParam(base, "X-Amz-Algorithm") == Some("AWS4-HMAC-SHA256")
    && LastParam(base, "X-Amz-Credential")
       == Some(p.accessKey + "/" + p.date + "/" + p.region + "/" + p.service + "/aws4_request")
    && LastParam(base, "X-Amz-Date") == Some(p.datetime)
    && p.signedHeaders != [] && LastParam(base, "X-Amz-SignedHeaders") == Some(Join(p.signedHeaders, ';'))
    && (forall q :: q in base ==> q.0 != "X-Amz-Signature")
  }

  /** The parts of a credential can be told apart. */
  predicate Separable(p: SigParams) {
    && '/' !in p.accessKey && '/' !in p.date && '/' !in p.region && '/' !in p.service
    && (forall name :: name in p.signedHeaders ==> ';' !in name)
  }

  lemma LastAppended(ps: QueryString.Params, q: QueryString.Param, name: string)
    ensures LastParam(ps + [q], name) == if q.0 == name then Some(q.1) else LastParam(ps, name)
  {
    assert (ps + [q])[..|ps|] == ps;
  }

  lemma {:induction false} FilterAppend<T>(a: seq<T>, b: seq<T>, keep: T -> bool)
    ensures Filter(a + b, keep) == Filter(a, keep) + Filter(b, keep)
  {
    if a == [] {
      assert a + b == b;
    } else {
      FilterAppend(a[1..], b, keep);
      FilterCons(a[0], a[1..] + b, keep);
      assert a + b == [a[0]] + (a[1..] + b);
      Associative(if keep(a[0]) then [a[0]] else [], Filter(a[1..], keep), Filter(b, keep));
    }
  }

  lemma CredentialRead(p: SigParams)
    requires Separable(p)
    ensures Split(p.accessKey + "/" + p.date + "/" + p.region + "/" + p.service + "/aws4_request", '/')
            == [p.accessKey, p.date, p.region, p.service, "aws4_request"]
  {
    var parts := [p.accessKey, p.date, p.region, p.service, "aws4_request"];
    ScopeWritten(p.date, p.region, p.service);
    JoinCons(p.accessKey, [p.date, p.region, p.service, "aws4_request"], '/');
    assert parts == [p.accessKey] + [p.date, p.region, p.service, "aws4_request"];
    CredentialText(p.accessKey, p.date, p.region, p.service);
    SplitJoin(parts, '/');
  }

  lemma CredentialText(a: string, b: string, c: string, d: string)
    ensures a + "/" + b + "/" + c + "/" + d + "/aws4_request" == a + ['/'] + (b + "/" + c + "/" + d + "/aws4_request")
  {
  }

  /** The last values in a list that ends with the signature. */
  lemma PresignedValues(base: QueryString.Params, p: SigParams, all: QueryString.Params)
    requires Presigns(base, p) && all == base + [(SIGNATURE_PARAM, p.signature)]
    ensures LastParam(all, "X-Amz-Algorithm") == LastParam(base, "X-Amz-Algorithm")
    ensures LastParam(all, "X-Amz-Credential") == LastParam(base, "X-Amz-Credential")
    ensures LastParam(all, "X-Amz-Date") == LastParam(base, "X-Amz-Date")
    ensures LastParam(all, "X-Amz-SignedHeaders") == LastParam(base, "X-Amz-SignedHeaders")
    ensures LastParam(all, SIGNATURE_PARAM) == Some(p.signature)
  {
    var last := (SIGNATURE_PARAM, p.signature);
    SignatureLast();
    LastAppended(base, last, "X-Amz-Algorithm");
    LastAppended(base, last, "X-Amz-Credential");
    LastAppended(base, last, "X-Amz-Date");
    LastAppended(base, last, "X-Amz-SignedHeaders");
    LastAppended(base, last, SIGNATURE_PARAM);
  }

  lemma CredentialTaken(p: SigParams, credential: string, names: string)
    requires Separable(p) && p.signedHeaders != [] && names == Join(p.signedHeaders, ';')
    requires credential == p.accessKey + "/" + p.date + "/" + p.region + "/" + p.service + "/aws4_request"
    ensures FromCredential(credential, p.datetime, names, p.signature) == Some(p)
  {
    CredentialRead(p);
    SplitJoin(p.signedHeaders, ';');
  }

  lemma SignatureDropped(base: QueryString.Params, signature: string)
    requires forall q :: q in base ==> q.0 != SIGNATURE_PARAM
    ensures Filter(base + [(SIGNATURE_PARAM, signature)], (q: QueryString.Param) => q.0 != SIGNATURE_PARAM) == base
  {
    var keep := (q: QueryString.Param) => q.0 != SIGNATURE_PARAM;
    var last := (SIGNATURE_PARAM, signature);
    FilterAppend(base, [last], keep);
    FilterAll(base, keep);
    assert [last][1..] == [];
    assert base + [] == base;
  }

  lemma PresignedExtracts(base: QueryString.Params, p: SigParams, query: string)
    requires Presigns(base, p) && Separable(p)
    requires query == Join(QueryString.Pairs(base + [(SIGNATURE_PARAM, p.signature)]), '&')
    ensures ExtractFromQuery(query) == Some(p)
    ensures Retained(query) == base
  {
    var all := base + [(SIGNATURE_PARAM, p.signature)];
    QueryString.ParseJoined(all);
    PresignedValues(base, p, all);
    var credential := LastParam(base, "X-Amz-Credential").value;
    QueryTaken(query, all, credential, p.datetime, Join(p.signedHeaders, ';'), p.signature);
    CredentialTaken(p, credential, Join(p.signedHeaders, ';'));
    SignatureDropped(base, p.signature);
  }

  lemma QueryTaken(query: string, all: QueryString.Params, credential: string, datetime: string, names: string,
                   signature: string)
    requires QueryString.Parse(query) == all
    requires LastParam(all, "X-Amz-Algorithm") == Some(ALGORITHM) && LastParam(all, "X-Amz-Credential") == Some(credential)
    requires LastParam(all, "X-Amz-Date") == Some(datetime) && LastParam(all, "X-Amz-SignedHeaders") == Some(names)
    requires LastParam(all, SIGNATURE_PARAM) == Some(signature)
    ensures ExtractFromQuery(query) == FromCredential(credential, datetime, names, signature)
  {
  }

  lemma SignatureLast()
    ensures "X-Amz-Signature" !in {"X-Amz-Algorithm", "X-Amz-Credential", "X-Amz-Date", "X-Amz-SignedHeaders"}
  {
    assert |"X-Amz-Signature"| == 15 && |"X-Amz-Credential"| == 16 && |"X-Amz-Date"| == 10 && |"X-Amz-SignedHeaders"| == 19;
    assert "X-Amz-Signature"[6] != "X-Amz-Algorithm"[6];
  }

  /**
   * A pre-signed URL, its parameters in any order with the signature last: the verifier reads back what was put in, and
   * accepts it if and only if the access key is known and the signature is the scheme's over the other parameters.
   */
  lemma PresignedVerdict(c: Crypto, credentials: map<string, string>, req: Request, base: QueryString.Params, p: SigParams)
    requires Presigns(base, p) && Separable(p) && ExtractFromHeaders(req.headers) == None
    requires req.url.query == Some(Join(QueryString.Pairs(base + [("X-Amz-Signature", p.signature)]), '&'))
    ensures Extract(req) == Some(p)
    ensures Judged(c, credentials, req, p, base)
  {
    PresignedExtracts(base, p, req.url.query.value);
    VerdictFollows(c, credentials, req, p);
  }

  // --- the session token ---

  lemma {:induction false} FirstAmong(a: QueryString.Params, q: QueryString.Param, b: QueryString.Params)
    requires forall r :: r in a ==> r.0 != q.0
    ensures FirstParam(a + [q] + b, q.0) == Some(q.1)
  {
    if a != [] {
      FirstAmong(a[1..], q, b);
      assert (a + [q] + b)[1..] == a[1..] + [q] + b;
      assert a[0] in a;
    }
  }

  /** An accepted request's session token is its header's, if that is visible text, and else its query's first. */
  lemma TokenPassedOn(req: Request, a: QueryString.Params, token: string, b: QueryString.Params)
    ensures "x-amz-security-token" in req.headers && Visible(req.headers["x-amz-security-token"]) ==>
              SessionToken(req) == Some(req.headers["x-amz-security-token"])
    ensures "x-amz-security-token" !in req.headers && (forall r :: r in a ==> r.0 != "X-Amz-Security-Token")
            && req.url.query == Some(Join(QueryString.Pairs(a + [("X-Amz-Security-Token", token)] + b), '&')) ==>
              SessionToken(req) == Some(token)
  {
    var all := a + [("X-Amz-Security-Token", token)] + b;
    QueryString.ParseJoined(all);
    if forall r :: r in a ==> r.0 != "X-Amz-Security-Token" {
      FirstAmong(a, ("X-Amz-Security-Token", token), b);
    }
  }
}
