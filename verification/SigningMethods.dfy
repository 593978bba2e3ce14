/** The signer and the verifier as programs, each proved to compute its specification. */
module SigningMethods {
  import opened Basics
  import opened Sorting
  import opened Text
  import opened SigV4
  import SignThenVerify
  import QueryString
  import Utf8

  /** `prepare_request`: stamps the headers, builds the canonical request, signs it, prints the Authorization header. */
  method PrepareRequest(c: Crypto, signer: AuthSigner, verb: string, url: Url, headersIn: Headers, body: Option<seq<byte>>,
                        datetime: string) returns (request: Option<Request>)
    requires IsDatetime(datetime)
    ensures request == Prepare(c, signer, verb, url, headersIn, body, datetime)
  {
    var hostVal := PrintHost(url);
    if !ValidHeaderValue(hostVal) {
      return None;
    }
    var headers := headersIn["host" := hostVal];
    if signer.Keys? {
      var date := datetime[0..8];
      headers := headers["x-amz-date" := datetime];
      var payloadHash := PayloadHash(c, headers, body);
      headers := headers[CONTENT_HASH := payloadHash];
      var signedHeaders := ListSignedHeaders(headers);
      var stringToSign := ClientStringToSign(c, signer.region, verb, url, headers, signedHeaders, datetime);
      var signingKey := ClientKey(c, signer.secretKey, date, signer.region);
      var signature := Signature(c, signingKey, stringToSign);
      var authHeader := Authorization(signer.accessKey, Scope(date, signer.region, "s3"), Join(signedHeaders, ';'), signature);
      if !ValidHeaderValue(authHeader) {
        return None;
      }
      headers := headers["authorization" := authHeader];
    }
    request := Some(Request(verb, url, headers, body));
  }

  method PrintHost(url: Url) returns (hostVal: string)
    ensures hostVal == HostValue(url)
  {
    hostVal := url.host;
    if url.port.Some? {
      hostVal := hostVal + [':'] + url.port.value;
    }
  }

  /** The canonical request and, from its hash, the string to sign. */
  method ClientStringToSign(c: Crypto, region: string, verb: string, url: Url, headers: Headers, signedHeaders: seq<string>,
                            datetime: string) returns (text: string)
    requires IsDatetime(datetime) && CONTENT_HASH in headers && signedHeaders == SignedNames(headers)
    ensures text == ClientString(c, region, verb, url, headers, datetime)
  {
    var queryParams: QueryString.Params := [];
    if url.query.Some? {
      queryParams := QueryString.Parse(url.query.value);
    }
    var canonicalQuery := CanonicalQuery(queryParams);
    var canonicalHeaders := ClientHeaders(headers, signedHeaders);
    var canonicalReq := CanonicalRequest(verb, url.path, canonicalQuery, canonicalHeaders, Join(signedHeaders, ';'),
                                         headers[CONTENT_HASH]);
    text := StringToSign(c, datetime, Scope(datetime[0..8], region, "s3"), canonicalReq);
  }

  /** Sorts a copy of the parameters by name and appends their printed pairs. */
  method CanonicalQuery(params: QueryString.Params) returns (query: string)
    ensures query == QueryString.Canonical(params)
  {
    var sorted := QueryString.Sorted(params);
    var pairs := PrintPairs(sorted);
    query := Join(pairs, '&');
  }

  method PrintPairs(params: QueryString.Params) returns (pairs: seq<string>)
    ensures pairs == QueryString.Pairs(params)
  {
    pairs := [];
    for i := 0 to |params|
      invariant |pairs| == i
      invariant forall j :: 0 <= j < i ==> pairs[j] == QueryString.Pair(params[j])
    {
      var pair := QueryString.Pair(params[i]);
      pairs := pairs + [pair];
    }
  }

  method ListSignedHeaders(headers: Headers) returns (names: seq<string>)
    ensures names == SignedNames(headers)
  {
    names := ["host", CONTENT_HASH, "x-amz-date"];
    if "range" in headers {
      names := names + ["range"];
    }
    if "x-amz-copy-source" in headers {
      names := names + ["x-amz-copy-source"];
    }
    assert names == HeadersToSign(headers);
    names := SortNames(names);
  }

  method ClientHeaders(headers: Headers, names: seq<string>) returns (lines: string)
    ensures lines == ClientLines(headers, names, |names|)
  {
    lines := [];
    for i := 0 to |names|
      invariant lines == ClientLines(headers, names, i)
    {
      var val := HeaderText(headers, names[i]);
      lines := lines + (names[i] + [':'] + val + ['\n']);
    }
  }

  class SigV4Verifier {
    const credentials: map<string, string>

    constructor (credentials: map<string, string>)
      ensures this.credentials == credentials
    {
      this.credentials := credentials;
    }

    /** Walks the fields of the Authorization header; a repeated field replaces an earlier one. */
    method ExtractFromHeaders(headers: Headers) returns (params: Option<SigParams>)
      ensures params == SigV4.ExtractFromHeaders(headers)
    {
      var auth := HeaderStr(headers, "authorization");
      var prefix := ALGORITHM + [' '];
      if auth.None? || !(prefix <= auth.value) {
        return None;
      }
      var parts := Split(Trim(auth.value[|prefix|..]), ',');
      var credential, names, signature := ScanFields(parts);
      if credential == [] || names == [] || signature == [] {
        return None;
      }
      var datetime := HeaderStr(headers, "x-amz-date");
      if datetime.None? {
        datetime := HeaderStr(headers, "date");
      }
      if datetime.None? {
        return None;
      }
      params := FromCredential(credential, datetime.value, names, signature);
    }

    /** One field: its value replaces the earlier one of the same name. */
    static method TakeField(kv: seq<string>, credential: string, names: string, signature: string)
      returns (credential': string, names': string, signature': string)
      ensures credential' == if |kv| == 2 && kv[0] == "Credential" then kv[1] else credential
      ensures names' == if |kv| == 2 && kv[0] == "SignedHeaders" then kv[1] else names
      ensures signature' == if |kv| == 2 && kv[0] == "Signature" then kv[1] else signature
    {
      credential', names', signature' := credential, names, signature;
      if |kv| == 2 {
        if kv[0] == "Credential" {
          credential' := kv[1];
        } else if kv[0] == "SignedHeaders" {
          names' := kv[1];
        } else if kv[0] == "Signature" {
          signature' := kv[1];
        }
      }
    }

    static method ScanFields(parts: seq<string>) returns (credential: string, names: string, signature: string)
      ensures credential == LastField(KeyValues(parts), |parts|, "Credential")
      ensures names == LastField(KeyValues(parts), |parts|, "SignedHeaders")
      ensures signature == LastField(KeyValues(parts), |parts|, "Signature")
    {
      ghost var fields := KeyValues(parts);
      credential, names, signature := [], [], [];
      for i := 0 to |parts|
        invariant credential == LastField(fields, i, "Credential")
        invariant names == LastField(fields, i, "SignedHeaders")
        invariant signature == LastField(fields, i, "Signature")
      {
        var kv := SplitOnce(Trim(parts[i]), '=');
        KeyValueAt(parts, i);
        credential, names, signature := TakeField(kv, credential, names, signature);
      }
    }

    static method CanonicalLines(headers: Headers, names: seq<string>) returns (lines: string)
      ensures lines == HeaderLines(headers, names, |names|)
    {
      lines := [];
      for i := 0 to |names|
        invariant lines == HeaderLines(headers, names, i)
      {
        var name := ToLower(names[i]);
        var val := HeaderText(headers, name);
        lines := lines + HeaderLine(name, val);
      }
    }

    /** The canonical request as the verifier rebuilds it. */
    method BuildCanonicalRequest(req: Request, params: SigParams) returns (text: string)
      ensures text == SigV4.BuildCanonicalRequest(req, params)
    {
      var queryParams := QueryString.Parse(req.url.query.GetOr([]));
      var retained := Filter(queryParams, (p: QueryString.Param) => p.0 != SIGNATURE_PARAM);
      var canonicalQuery := CanonicalQuery(retained);
      var canonicalHeaders := CanonicalLines(req.headers, params.signedHeaders);
      var signedHeadersList := Join(params.signedHeaders, ';');
      var hashedPayload := HeaderStr(req.headers, CONTENT_HASH).GetOr(UNSIGNED);
      text := CanonicalRequest(req.verb, req.url.path, canonicalQuery, canonicalHeaders, signedHeadersList, hashedPayload);
    }

    /** From the header, or else from the query. */
    method ExtractParams(req: Request) returns (params: Option<SigParams>)
      ensures params == Extract(req)
    {
      params := ExtractFromHeaders(req.headers);
      if params.None? {
        params := ExtractFromQuery(req.url.query.GetOr([]));
      }
    }

    /** The signature of a request under a secret key. */
    method ExpectedSignature(c: Crypto, secretKey: string, req: Request, p: SigParams) returns (expected: string)
      ensures expected == Expected(c, secretKey, req, p)
    {
      var canonicalReq := BuildCanonicalRequest(req, p);
      var credentialScope := Scope(p.date, p.region, p.service);
      var stringToSign := StringToSign(c, p.datetime, credentialScope, canonicalReq);
      var signingKey := DeriveSigningKey(c, secretKey, p.date, p.region, p.service);
      expected := Signature(c, signingKey, stringToSign);
    }

    method VerifyRequest(c: Crypto, req: Request) returns (outcome: Result<ClientCredentials, AuthError>)
      ensures outcome == Verify(c, credentials, req)
    {
      var params := ExtractParams(req);
      if params.None? || params.value.accessKey !in credentials {
        return Err(InvalidAccessKeyId);
      }
      var secretKey := credentials[params.value.accessKey];
      var expected := ExpectedSignature(c, secretKey, req, params.value);
      if expected != params.value.signature {
        return Err(SignatureDoesNotMatch);
      }
      outcome := Ok(ClientCredentials(params.value.accessKey, secretKey, SessionToken(req)));
    }
  }

  /** A request prepared with a key pair from the verifier's own configuration goes through. */
  method SignAndCheck(s: SignThenVerify.Signing, verifier: SigV4Verifier) returns (outcome: Option<Result<ClientCredentials, AuthError>>)
    requires s.Valid() && SignThenVerify.Plain(s.accessKey) && SignThenVerify.Plain(s.region) && SignThenVerify.Unsigned(s)
    requires s.accessKey in verifier.credentials && verifier.credentials[s.accessKey] == s.secretKey
    ensures outcome.None? <==> !ValidHeaderValue(HostValue(s.url))
    ensures outcome.Some? ==> outcome.value.Ok? && outcome.value.value.accessKey == s.accessKey
  {
    var request := PrepareRequest(s.crypto, Keys(s.accessKey, s.secretKey, s.region), s.verb, s.url, s.headers, s.body,
                                  s.datetime);
    SignThenVerify.PrepareResult(s);
    if request.None? {
      return None;
    }
    SignThenVerify.SignedIsAccepted(s, verifier.credentials);
    var checked := verifier.VerifyRequest(s.crypto, request.value);
    outcome := Some(checked);
  }
}
