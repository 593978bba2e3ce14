/**
 * Request signing and verification as two independent programs: the proxy client prints a signed request, the
 * verifier parses one and recomputes its signature. The hash and the MAC are parameters.
 */
module SigV4 {
  import opened Basics
  import opened Sorting
  import opened Text
  import QueryString
  import Utf8

  /** SHA-256 and HMAC-SHA-256. */
  datatype Crypto = Crypto(sha256: seq<byte> -> seq<byte>, hmac: (seq<byte>, seq<byte>) -> seq<byte>)

  function HexNibble(n: nat): (c: char)
    requires n < 16
    ensures '0' <= c <= '9' || 'a' <= c <= 'f'
  {
    if n < 10 then ('0' as int + n) as char else ('a' as int + n - 10) as char
  }

  /** `hex::encode`. */
  function Hex(bytes: seq<byte>): (s: string)
    ensures forall c :: c in s ==> '0' <= c <= '9' || 'a' <= c <= 'f'
    ensures bytes != [] ==> s != []
  {
    if bytes == [] then [] else [HexNibble(bytes[0] / 16), HexNibble(bytes[0] % 16)] + Hex(bytes[1..])
  }

  function HashHex(c: Crypto, text: string): string {
    Hex(c.sha256(Utf8.Encode(text)))
  }

  // --- requests ---

  /** Header names are lower case; inserting replaces. */
  type Headers = map<string, string>

  datatype Url = Url(host: string, port: Option<string>, path: string, query: Option<string>)

  datatype Request = Request(verb: string, url: Url, headers: Headers, body: Option<seq<byte>>)

  /** `get(name)` and `to_str`. */
  function HeaderStr(h: Headers, name: string): Option<string> {
    if name in h && Visible(h[name]) then Some(h[name]) else None
  }

  /** The trimmed header value, empty when the header is missing or not visible text. */
  function HeaderText(h: Headers, name: string): string {
    Trim(HeaderStr(h, name).GetOr([]))
  }

  const ALGORITHM := "AWS4-HMAC-SHA256"
  const EMPTY_HASH := "e3b0c44298fc1c14" + "9afbf4c8996fb924" + "27ae41e4649b934c" + "a495991b7852b855"
  const CONTENT_HASH := "x-amz-content-sha256"
  const UNSIGNED := "UNSIGNED-PAYLOAD"
  const SIGNATURE_PARAM := "X-Amz-Signature"

  // --- the pieces both halves build ---

  function HeaderLine(name: string, text: string): string {
    name + [':'] + text + ['\n']
  }

  function Lines(parts: seq<string>): string {
    Join(parts, '\n')
  }

  function CanonicalRequest(verb: string, path: string, query: string, headers: string, names: string, payload: string): string {
    Lines([verb, path, query, headers, names, payload])
  }

  function Scope(date: string, region: string, service: string): string {
    Join([date, region, service, "aws4_request"], '/')
  }

  function StringToSign(c: Crypto, datetime: string, scope: string, request: string): string {
    Lines([ALGORITHM, datetime, scope, HashHex(c, request)])
  }

  function Signature(c: Crypto, key: seq<byte>, text: string): string {
    Hex(c.hmac(key, Utf8.Encode(text)))
  }

  // --- signing ---

  datatype AuthSigner = Anonymous | Keys(accessKey: string, secretKey: string, region: string)

  /** The clock's reading, formatted as `%Y%m%dT%H%M%SZ`. */
  predicate IsDatetime(s: string) {
    |s| == 16 && forall c :: c in s ==> '0' <= c <= '9' || c in {'T', 'Z'}
  }

  function HostValue(url: Url): string {
    match url.port
    case None => url.host
    case Some(port) => url.host + [':'] + port
  }

  function PayloadHash(c: Crypto, h: Headers, body: Option<seq<byte>>): string {
    match HeaderStr(h, CONTENT_HASH)
    case Some(value) => value
    case None =>
      match body
      case Some(bytes) => Hex(c.sha256(bytes))
      case None => EMPTY_HASH
  }

  /** The headers that are signed, before sorting. */
  function HeadersToSign(h: Headers): seq<string> {
    ["host", CONTENT_HASH, "x-amz-date"]
    + (if "range" in h then ["range"] else [])
    + (if "x-amz-copy-source" in h then ["x-amz-copy-source"] else [])
  }

  function SortNames(names: seq<string>): seq<string> {
    Sort(names, StringLe)
  }

  /** The headers that are signed, in order. */
  function SignedNames(h: Headers): seq<string> {
    SortNames(HeadersToSign(h))
  }

  /** The client's canonical lines of the first `n` signed headers. */
  function ClientLines(h: Headers, names: seq<string>, n: nat): string
    requires n <= |names|
  {
    if n == 0 then [] else ClientLines(h, names, n - 1) + HeaderLine(names[n - 1], HeaderText(h, names[n - 1]))
  }

  /** The headers as they are when the canonical request is built. */
  function StampedHeaders(c: Crypto, url: Url, h: Headers, body: Option<seq<byte>>, datetime: string): Headers {
    var stamped := h["host" := HostValue(url)]["x-amz-date" := datetime];
    stamped[CONTENT_HASH := PayloadHash(c, stamped, body)]
  }

  /** The string the client signs. */
  function ClientString(c: Crypto, region: string, verb: string, url: Url, h: Headers, datetime: string): string
    requires IsDatetime(datetime) && CONTENT_HASH in h
  {
    var names := SignedNames(h);
    var query := match url.query case None => [] case Some(q) => QueryString.Parse(q);
    var request := CanonicalRequest(verb, url.path, QueryString.Canonical(query), ClientLines(h, names, |names|),
                                    Join(names, ';'), h[CONTENT_HASH]);
    StringToSign(c, datetime, Scope(datetime[0..8], region, "s3"), request)
  }

  /** The client's key derivation. */
  function ClientKey(c: Crypto, secret: string, date: string, region: string): seq<byte> {
    var kDate := c.hmac(Utf8.Encode("AWS4" + secret), Utf8.Encode(date));
    var kRegion := c.hmac(kDate, Utf8.Encode(region));
    var kService := c.hmac(kRegion, Utf8.Encode("s3"));
    c.hmac(kService, Utf8.Encode("aws4_request"))
  }

  /** The Authorization header. */
  function Authorization(accessKey: string, scope: string, names: string, signature: string): string {
    ALGORITHM + [' ']
    + Join([Field("Credential", accessKey + ['/'] + scope), [' '] + Field("SignedHeaders", names),
            [' '] + Field("Signature", signature)], ',')
  }

  function Field(name: string, value: string): string {
    name + ['='] + value
  }

  /** `prepare_request`, given the clock's reading. */
  function Prepare(c: Crypto, signer: AuthSigner, verb: string, url: Url, h: Headers, body: Option<seq<byte>>,
                   datetime: string): Option<Request>
    requires IsDatetime(datetime)
  {
    if !ValidHeaderValue(HostValue(url)) then None
    else
      match signer
      case Anonymous => Some(Request(verb, url, h["host" := HostValue(url)], body))
      case Keys(accessKey, secretKey, region) =>
        var stamped := StampedHeaders(c, url, h, body, datetime);
        var signature := Signature(c, ClientKey(c, secretKey, datetime[0..8], region),
                                   ClientString(c, region, verb, url, stamped, datetime));
        var header := Authorization(accessKey, Scope(datetime[0..8], region, "s3"), Join(SignedNames(stamped), ';'), signature);
        if ValidHeaderValue(header) then Some(Request(verb, url, stamped["authorization" := header], body)) else None
  }

  // --- verifying ---

  datatype SigParams = SigParams(accessKey: string, date: string, datetime: string, region: string, service: string,
                                 signedHeaders: seq<string>, signature: string)

  datatype AuthError = InvalidAccessKeyId | SignatureDoesNotMatch

  datatype ClientCredentials = ClientCredentials(accessKey: string, secretKey: string, sessionToken: Option<string>)

  /** The fields of the Authorization header, each cut at its first equals sign. */
  function KeyValues(parts: seq<string>): (kvs: seq<seq<string>>)
    ensures |kvs| == |parts|
  {
    if parts == [] then [] else [SplitOnce(Trim(parts[0]), '=')] + KeyValues(parts[1..])
  }

  lemma {:induction false} KeyValueAt(parts: seq<string>, i: nat)
    requires i < |parts|
    ensures KeyValues(parts)[i] == SplitOnce(Trim(parts[i]), '=')
  {
    if i > 0 {
      KeyValueAt(parts[1..], i - 1);
    }
  }

  /** The value of the last of the first `n` fields called `name`, or empty. */
  function LastField(kvs: seq<seq<string>>, n: nat, name: string): string
    requires n <= |kvs|
  {
    if n == 0 then []
    else if |kvs[n - 1]| == 2 && kvs[n - 1][0] == name then kvs[n - 1][1]
    else LastField(kvs, n - 1, name)
  }

  /** Access key, date, region and service out of a credential. */
  function FromCredential(credential: string, datetime: string, names: string, signature: string): Option<SigParams> {
    var parts := Split(credential, '/');
    if |parts| < 5 then None
    else Some(SigParams(parts[0], parts[1], datetime, parts[2], parts[3], Split(names, ';'), signature))
  }

  /** The time stamp: `x-amz-date`, or else `date`. */
  function RequestTime(h: Headers): Option<string> {
    match HeaderStr(h, "x-amz-date")
    case Some(t) => Some(t)
    case None => HeaderStr(h, "date")
  }

  function ExtractFromHeaders(h: Headers): Option<SigParams> {
    match HeaderStr(h, "authorization")
    case None => None
    case Some(auth) =>
      var prefix := ALGORITHM + [' '];
      if !(prefix <= auth) then None
      else
        var fields := KeyValues(Split(Trim(auth[|prefix|..]), ','));
        var credential := LastField(fields, |fields|, "Credential");
        var names := LastField(fields, |fields|, "SignedHeaders");
        var signature := LastField(fields, |fields|, "Signature");
        if credential == [] || names == [] || signature == [] then None
        else
          match RequestTime(h)
          case None => None
          case Some(datetime) => FromCredential(credential, datetime, names, signature)
  }

  /** The last value given for a query parameter, as collecting into a hash map leaves it. */
  function LastParam(ps: QueryString.Params, name: string): Option<string> {
    if ps == [] then None
    else if ps[|ps| - 1].0 == name then Some(ps[|ps| - 1].1)
    else LastParam(ps[..|ps| - 1], name)
  }

  function ExtractFromQuery(query: string): Option<SigParams> {
    var ps := QueryString.Parse(query);
    match LastParam(ps, "X-Amz-Algorithm")
    case None => None
    case Some(algorithm) =>
      if algorithm != ALGORITHM then None
      else
        match (LastParam(ps, "X-Amz-Credential"), LastParam(ps, "X-Amz-Date"), LastParam(ps, "X-Amz-SignedHeaders"),
               LastParam(ps, SIGNATURE_PARAM))
        case (Some(credential), Some(datetime), Some(names), Some(signature)) =>
          FromCredential(credential, datetime, names, signature)
        case _ => None
  }

  function QueryOf(req: Request): string {
    req.url.query.GetOr([])
  }

  function Extract(req: Request): Option<SigParams> {
    match ExtractFromHeaders(req.headers)
    case Some(params) => Some(params)
    case None => ExtractFromQuery(QueryOf(req))
  }

  /** The query parameters the verifier signs. */
  function Retained(query: string): QueryString.Params {
    Filter(QueryString.Parse(query), (p: QueryString.Param) => p.0 != SIGNATURE_PARAM)
  }

  /** The verifier's canonical lines of the first `n` header names, looked up without regard to case. */
  function HeaderLines(h: Headers, names: seq<string>, n: nat): string
    requires n <= |names|
  {
    if n == 0 then []
    else
      var name := ToLower(names[n - 1]);
      HeaderLines(h, names, n - 1) + HeaderLine(name, HeaderText(h, name))
  }

  /** The verifier's canonical request. */
  function BuildCanonicalRequest(req: Request, params: SigParams): string {
    CanonicalRequest(req.verb, req.url.path, QueryString.Canonical(Retained(QueryOf(req))),
                     HeaderLines(req.headers, params.signedHeaders, |params.signedHeaders|),
                     Join(params.signedHeaders, ';'), HeaderStr(req.headers, CONTENT_HASH).GetOr(UNSIGNED))
  }

  function FirstParam(ps: QueryString.Params, name: string): Option<string> {
    if ps == [] then None else if ps[0].0 == name then Some(ps[0].1) else FirstParam(ps[1..], name)
  }

  function SessionToken(req: Request): Option<string> {
    match HeaderStr(req.headers, "x-amz-security-token")
    case Some(token) => Some(token)
    case None =>
      match req.url.query
      case None => None
      case Some(q) => FirstParam(QueryString.Parse(q), "X-Amz-Security-Token")
  }

  /** `derive_signing_key`. */
  function DeriveSigningKey(c: Crypto, secret: string, date: string, region: string, service: string): seq<byte> {
    var kDate := c.hmac(Utf8.Encode("AWS4" + secret), Utf8.Encode(date));
    var kRegion := c.hmac(kDate, Utf8.Encode(region));
    var kService := c.hmac(kRegion, Utf8.Encode(service));
    c.hmac(kService, Utf8.Encode("aws4_request"))
  }

  /** The signature the verifier expects. */
  function Expected(c: Crypto, secret: string, req: Request, params: SigParams): string {
    Signature(c, DeriveSigningKey(c, secret, params.date, params.region, params.service),
              StringToSign(c, params.datetime, Scope(params.date, params.region, params.service),
                           BuildCanonicalRequest(req, params)))
  }

  function Verify(c: Crypto, credentials: map<string, string>, req: Request): Result<ClientCredentials, AuthError> {
    match Extract(req)
    case None => Err(InvalidAccessKeyId)
    case Some(params) =>
      if params.accessKey !in credentials then Err(InvalidAccessKeyId)
      else
        var secret := credentials[params.accessKey];
        if Expected(c, secret, req, params) != params.signature then Err(SignatureDoesNotMatch)
        else Ok(ClientCredentials(params.accessKey, secret, SessionToken(req)))
  }
}
