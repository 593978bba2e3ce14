/** The two halves of SigV4 agree: what the proxy client signs, the verifier accepts. */
module SignThenVerify {
  import opened Basics
  import opened Sorting
  import opened Text
  import opened SigV4
  import QueryString
  import Utf8

  // --- the Authorization header, printed and parsed ---

  /** Text that survives in a credential: visible, and without the two separators. */
  predicate Plain(s: string) {
    Visible(s) && '/' !in s && ',' !in s
  }

  /** Text made of letters, digits and a few marks, as dates, signatures and header names are. */
  predicate Token(s: string) {
    s != [] && forall c :: c in s ==> '0' <= c <= '9' || 'A' <= c <= 'Z' || 'a' <= c <= 'z' || c in {'-', ';', '_'}
  }

  lemma TokenPlain(s: string)
    requires Token(s)
    ensures Plain(s) && Trim(s) == s && !IsWhitespace(s[0]) && !IsWhitespace(s[|s| - 1])
  {
    assert s[0] in s && s[|s| - 1] in s;
    TrimKeeps(s);
  }

  function Credential(accessKey: string, date: string, region: string): string {
    accessKey + ['/'] + Scope(date, region, "s3")
  }

  /** The credential in one piece. */
  lemma CredentialParts(accessKey: string, date: string, region: string)
    ensures Credential(accessKey, date, region) == Join([accessKey, date, region, "s3", "aws4_request"], '/')
  {
    var tail := [date, region, "s3", "aws4_request"];
    assert [accessKey, date, region, "s3", "aws4_request"][1..] == tail;
  }

  lemma CredentialSplit(accessKey: string, date: string, region: string)
    requires '/' !in accessKey && '/' !in region && '/' !in date
    ensures Split(Credential(accessKey, date, region), '/') == [accessKey, date, region, "s3", "aws4_request"]
  {
    CredentialParts(accessKey, date, region);
    SplitJoin([accessKey, date, region, "s3", "aws4_request"], '/');
  }

  lemma {:induction false} JoinChars(parts: seq<string>, sep: char, c: char)
    ensures c in Join(parts, sep) <==> (exists i :: 0 <= i < |parts| && c in parts[i]) || (|parts| > 1 && c == sep)
  {
    if |parts| > 1 {
      JoinChars(parts[1..], sep, c);
      assert Join(parts, sep) == parts[0] + [sep] + Join(parts[1..], sep);
      if exists i :: 0 <= i < |parts| && c in parts[i] {
        var i :| 0 <= i < |parts| && c in parts[i];
        assert i > 0 ==> parts[1..][i - 1] == parts[i];
      }
    }
  }

  lemma TrimLeadingBlank(s: string)
    ensures Trim([' '] + s) == Trim(s)
  {
    assert ([' '] + s)[1..] == s;
  }

  /** The text ends in something that trimming keeps. */
  predicate EndsDark(s: string) {
    s != [] && !IsWhitespace(s[|s| - 1])
  }

  /** A field name the parser looks for. */
  predicate FieldName(name: string) {
    name != [] && !IsWhitespace(name[0]) && '=' !in name && ',' !in name
  }

  lemma FieldParsed(name: string, value: string)
    requires FieldName(name) && EndsDark(value)
    ensures SplitOnce(Trim(Field(name, value)), '=') == [name, value]
    ensures SplitOnce(Trim([' '] + Field(name, value)), '=') == [name, value]
  {
    var field := Field(name, value);
    assert field[0] == name[0] && field[|field| - 1] == value[|value| - 1];
    TrimKeeps(field);
    TrimLeadingBlank(field);
    SplitHead(name, '=', value);
  }

  lemma FieldNames()
    ensures FieldName("Credential") && FieldName("SignedHeaders") && FieldName("Signature")
  {
  }

  function Fields(credential: string, names: string, signature: string): seq<string> {
    [Field("Credential", credential), [' '] + Field("SignedHeaders", names), [' '] + Field("Signature", signature)]
  }

  lemma FieldsApart(credential: string, names: string, signature: string)
    requires ',' !in credential && ',' !in names && ',' !in signature
    ensures forall part :: part in Fields(credential, names, signature) ==> ',' !in part
  {
    FieldNames();
    var fields := Fields(credential, names, signature);
    assert ',' !in fields[0] && ',' !in fields[1] && ',' !in fields[2];
  }

  lemma FieldsDark(credential: string, names: string, signature: string)
    requires EndsDark(signature)
    ensures Trim(Join(Fields(credential, names, signature), ',')) == Join(Fields(credential, names, signature), ',')
  {
    FieldNames();
    var fields := Fields(credential, names, signature);
    JoinEnds(fields, ',');
    TrimKeeps(Join(fields, ','));
  }

  /** Between the algorithm and the end of the header there are exactly the three fields. */
  lemma FieldsSplit(credential: string, names: string, signature: string)
    requires ',' !in credential && ',' !in names && ',' !in signature && EndsDark(signature)
    ensures var fields := Fields(credential, names, signature);
            Split(Trim(Join(fields, ',')), ',') == fields
  {
    FieldsApart(credential, names, signature);
    FieldsDark(credential, names, signature);
    SplitJoin(Fields(credential, names, signature), ',');
  }

  /** A joined text starts like its first part and ends like its last. */
  lemma {:induction false} JoinEnds(parts: seq<string>, sep: char)
    requires parts != [] && parts[|parts| - 1] != []
    ensures var text, last := Join(parts, sep), parts[|parts| - 1];
            && text != [] && text[|text| - 1] == last[|last| - 1]
            && (parts[0] != [] ==> text[0] == parts[0][0])
  {
    if |parts| > 1 {
      JoinEnds(parts[1..], sep);
    }
  }

  lemma FieldsFound(credential: string, names: string, signature: string)
    requires EndsDark(credential) && EndsDark(names) && EndsDark(signature)
    ensures var fields := KeyValues(Fields(credential, names, signature));
            && LastField(fields, 3, "Credential") == credential
            && LastField(fields, 3, "SignedHeaders") == names
            && LastField(fields, 3, "Signature") == signature
  {
    FieldsParsed(credential, names, signature);
    var fields := KeyValues(Fields(credential, names, signature));
    FieldSkipped(fields, 3, "Signature", signature);
    FieldSkipped(fields, 2, "SignedHeaders", names);
    FieldSkipped(fields, 1, "Credential", credential);
  }

  lemma FieldsParsed(credential: string, names: string, signature: string)
    requires EndsDark(credential) && EndsDark(names) && EndsDark(signature)
    ensures KeyValues(Fields(credential, names, signature))
            == [["Credential", credential], ["SignedHeaders", names], ["Signature", signature]]
  {
    FieldNames();
    FieldParsed("Credential", credential);
    FieldParsed("SignedHeaders", names);
    FieldParsed("Signature", signature);
    var parts := Fields(credential, names, signature);
    KeyValueAt(parts, 0);
    KeyValueAt(parts, 1);
    KeyValueAt(parts, 2);
  }

  /** What one field contributes to the search. */
  lemma FieldSkipped(kvs: seq<seq<string>>, n: nat, name: string, value: string)
    requires 0 < n <= |kvs| && kvs[n - 1] == [name, value]
    ensures LastField(kvs, n, name) == value
    ensures forall other :: other != name ==> LastField(kvs, n, other) == LastField(kvs, n - 1, other)
  {
  }

  /** A repeated field counts with its last value. */
  lemma LastFieldWins(parts: seq<string>, name: string, value: string)
    requires FieldName(name) && EndsDark(value) && parts != [] && parts[|parts| - 1] == Field(name, value)
    ensures LastField(KeyValues(parts), |parts|, name) == value
  {
    var kvs := KeyValues(parts);
    KeyValueAt(parts, |parts| - 1);
    FieldParsed(name, value);
    FieldSkipped(kvs, |parts|, name, value);
  }

  // --- which characters the header is made of ---

  /** The characters the client adds around the access key and the region. */
  predicate Frame(c: char) {
    || '0' <= c <= '9' || 'A' <= c <= 'Z' || 'a' <= c <= 'z'
    || c in {'-', ';', '_', '=', ',', '/', ' '}
  }

  lemma CredentialChars(accessKey: string, date: string, region: string, c: char)
    requires Token(date)
    ensures c in Credential(accessKey, date, region) ==> c in accessKey || c in region || Frame(c)
    ensures c in accessKey || c in region ==> c in Credential(accessKey, date, region)
  {
    var parts := [accessKey, date, region, "s3", "aws4_request"];
    CredentialParts(accessKey, date, region);
    JoinChars(parts, '/', c);
    assert parts[0] == accessKey && parts[1] == date && parts[2] == region && parts[3] == "s3" && parts[4] == "aws4_request";
    assert Token("s3") && Token("aws4_request");
  }

  lemma HeaderChars(credential: string, names: string, signature: string, c: char)
    requires Token(names) && Token(signature)
    ensures var header := ALGORITHM + [' '] + Join(Fields(credential, names, signature), ',');
            && (c in header ==> c in credential || Frame(c))
            && (c in credential ==> c in header)
  {
    var fields := Fields(credential, names, signature);
    JoinChars(fields, ',', c);
    assert Token("Credential") && Token("SignedHeaders") && Token("Signature") && Token(ALGORITHM);
    assert fields[0] == Field("Credential", credential);
    assert fields[1] == [' '] + Field("SignedHeaders", names);
    assert fields[2] == [' '] + Field("Signature", signature);
  }

  /** The header the client prints. */
  function Header(accessKey: string, date: string, region: string, names: string, signature: string): string {
    Authorization(accessKey, Scope(date, region, "s3"), names, signature)
  }

  lemma HeaderFields(accessKey: string, date: string, region: string, names: string, signature: string)
    ensures Header(accessKey, date, region, names, signature)
            == ALGORITHM + [' '] + Join(Fields(Credential(accessKey, date, region), names, signature), ',')
  {
    assert Field("Credential", accessKey + ['/'] + Scope(date, region, "s3"))
           == Field("Credential", Credential(accessKey, date, region));
  }

  /** The header is visible text, or a valid header value, exactly when the access key and the region are. */
  lemma HeaderVisible(accessKey: string, date: string, region: string, names: string, signature: string)
    requires Token(date) && Token(names) && Token(signature)
    ensures Visible(Header(accessKey, date, region, names, signature)) <==> Visible(accessKey) && Visible(region)
    ensures ValidHeaderValue(Header(accessKey, date, region, names, signature))
            <==> ValidHeaderValue(accessKey) && ValidHeaderValue(region)
  {
    var header := Header(accessKey, date, region, names, signature);
    HeaderFields(accessKey, date, region, names, signature);
    forall c
      ensures c in header ==> c in accessKey || c in region || Frame(c)
      ensures c in accessKey || c in region ==> c in header
    {
      HeaderChars(Credential(accessKey, date, region), names, signature, c);
      CredentialChars(accessKey, date, region, c);
    }
  }

  // --- extraction ---

  /** A value found by the search is free of commas. */
  lemma {:induction false} FieldSubtext(parts: seq<string>, n: nat, name: string)
    requires n <= |parts| && forall part :: part in parts ==> ',' !in part
    ensures ',' !in LastField(KeyValues(parts), n, name)
  {
    if n > 0 {
      FieldSubtext(parts, n - 1, name);
      assert parts[n - 1] in parts;
      OneFieldSubtext(parts, n - 1);
    }
  }

  lemma OneFieldSubtext(parts: seq<string>, i: nat)
    requires i < |parts| && ',' !in parts[i]
    ensures var kv := KeyValues(parts)[i]; |kv| == 2 ==> ',' !in kv[1]
  {
    TrimSubtext(parts[i], ',');
    ValueSubtext(Trim(parts[i]), ',');
    KeyValueAt(parts, i);
  }

  lemma ValueSubtext(s: string, c: char)
    requires c !in s
    ensures |SplitOnce(s, '=')| == 2 ==> c !in SplitOnce(s, '=')[1]
  {
  }

  lemma {:induction false} SplitSubtext(s: string, sep: char, c: char)
    ensures forall i :: 0 <= i < |Split(s, sep)| ==> (c in Split(s, sep)[i] ==> c in s)
    decreases |s|
  {
    var i := IndexOf(s, sep);
    if i < |s| {
      SplitSubtext(s[i + 1..], sep, c);
      assert Split(s, sep) == [s[..i]] + Split(s[i + 1..], sep);
    }
  }

  /** Whatever is extracted: no part of a credential contains a comma or a slash. */
  lemma ExtractedPlain(h: Headers)
    requires ExtractFromHeaders(h).Some?
    ensures var params := ExtractFromHeaders(h).value;
            && ',' !in params.accessKey && '/' !in params.accessKey
            && ',' !in params.region && '/' !in params.region
            && "authorization" in h && Visible(h["authorization"])
  {
    var auth := h["authorization"];
    var prefix := ALGORITHM + [' '];
    var parts := Split(Trim(auth[|prefix|..]), ',');
    FieldSubtext(parts, |parts|, "Credential");
    var credential := LastField(KeyValues(parts), |parts|, "Credential");
    SplitSubtext(credential, '/', ',');
  }

  /** The request carries this Authorization header and time stamp. */
  predicate Carries(h: Headers, header: string, datetime: string) {
    && "authorization" in h && h["authorization"] == header
    && RequestTime(h) == Some(datetime)
  }

  lemma ExtractsPrinted(h: Headers, accessKey: string, date: string, datetime: string, region: string, names: string,
                        signature: string)
    requires Token(date) && Token(names) && Token(signature) && Plain(accessKey) && Plain(region)
    requires Carries(h, Header(accessKey, date, region, names, signature), datetime)
    ensures ExtractFromHeaders(h)
            == Some(SigParams(accessKey, date, datetime, region, "s3", Split(names, ';'), signature))
  {
    var credential := Credential(accessKey, date, region);
    var header := Header(accessKey, date, region, names, signature);
    var prefix := ALGORITHM + [' '];
    HeaderVisible(accessKey, date, region, names, signature);
    HeaderFields(accessKey, date, region, names, signature);
    TokenPlain(date);
    TokenPlain(names);
    TokenPlain(signature);
    CredentialSplit(accessKey, date, region);
    CredentialPlain(accessKey, date, region);
    FieldsSplit(credential, names, signature);
    FieldsFound(credential, names, signature);
    assert header[|prefix|..] == Join(Fields(credential, names, signature), ',');
  }

  lemma CredentialPlain(accessKey: string, date: string, region: string)
    requires Token(date) && Plain(accessKey) && Plain(region)
    ensures ',' !in Credential(accessKey, date, region) && EndsDark(Credential(accessKey, date, region))
  {
    var parts := [accessKey, date, region, "s3", "aws4_request"];
    CredentialParts(accessKey, date, region);
    JoinChars(parts, '/', ',');
    TokenPlain(date);
    JoinEnds(parts, '/');
  }

  /**
   * Printing and parsing the Authorization header: the parser recovers exactly what was printed if and only if the
   * access key and the region are visible text without slashes and commas.
   */
  lemma AuthorizationRoundTrip(h: Headers, accessKey: string, date: string, datetime: string, region: string, names: string,
                               signature: string)
    requires Token(date) && Token(names) && Token(signature)
    requires Carries(h, Header(accessKey, date, region, names, signature), datetime)
    ensures ExtractFromHeaders(h)
            == Some(SigParams(accessKey, date, datetime, region, "s3", Split(names, ';'), signature))
            <==> Plain(accessKey) && Plain(region)
  {
    if Plain(accessKey) && Plain(region) {
      ExtractsPrinted(h, accessKey, date, datetime, region, names, signature);
    } else if ExtractFromHeaders(h).Some? {
      ExtractedPlain(h);
      HeaderVisible(accessKey, date, region, names, signature);
    }
  }

  // --- the signed headers ---

  /** A header name as the client writes it. */
  predicate LowerName(s: string) {
    s != [] && forall c :: c in s ==> 'a' <= c <= 'z' || '0' <= c <= '9' || c == '-'
  }

  lemma LowerNameKept(s: string)
    requires LowerName(s)
    ensures ToLower(s) == s && Token(s) && ';' !in s
  {
    forall i | 0 <= i < |s|
      ensures ToLower(s)[i] == s[i]
    {
      assert s[i] in s;
    }
  }

  lemma NamesToSign(h: Headers)
    ensures forall name :: name in HeadersToSign(h) ==> LowerName(name) && name != "authorization"
  {
    assert LowerName("host") && LowerName(CONTENT_HASH) && LowerName("x-amz-date");
    assert LowerName("range") && LowerName("x-amz-copy-source");
  }

  lemma SignedNamesLower(h: Headers)
    ensures SignedNames(h) != []
    ensures forall name :: name in SignedNames(h) ==> LowerName(name) && name != "authorization"
  {
    StringLePreorder();
    SortSorts(HeadersToSign(h), StringLe);
    SameElements(SignedNames(h), HeadersToSign(h));
    NamesToSign(h);
  }

  /** The list of signed names is a token, and splitting it gives the names back. */
  lemma NameList(names: seq<string>)
    requires names != [] && forall name :: name in names ==> LowerName(name)
    ensures Token(Join(names, ';')) && Split(Join(names, ';'), ';') == names
  {
    forall name | name in names
      ensures ';' !in name && Token(name)
    {
      LowerNameKept(name);
    }
    SplitJoin(names, ';');
    assert names[|names| - 1] in names;
    JoinEnds(names, ';');
    forall c | c in Join(names, ';')
      ensures c == ';' || exists name :: name in names && c in name
    {
      JoinChars(names, ';', c);
    }
  }

  /** The two ways of writing the canonical headers agree, and the Authorization header is not among them. */
  lemma {:induction false} LinesAgree(h: Headers, header: string, names: seq<string>, n: nat)
    requires n <= |names| && forall name :: name in names ==> LowerName(name) && name != "authorization"
    ensures HeaderLines(h["authorization" := header], names, n) == ClientLines(h, names, n)
  {
    if n > 0 {
      assert names[n - 1] in names;
      LowerNameKept(names[n - 1]);
      LinesAgree(h, header, names, n - 1);
    }
  }

  // --- the request ---

  /** The inputs of one signed request. */
  datatype Signing = Signing(crypto: Crypto, accessKey: string, secretKey: string, region: string, verb: string, url: Url,
                             headers: Headers, body: Option<seq<byte>>, datetime: string)
  {
    ghost predicate Valid() {
      IsDatetime(datetime) && forall key, data :: crypto.hmac(key, data) != []
    }

    function Date(): string
      requires IsDatetime(datetime)
    {
      datetime[0..8]
    }

    function Stamped(): Headers {
      StampedHeaders(crypto, url, headers, body, datetime)
    }

    function Names(): seq<string> {
      SignedNames(Stamped())
    }

    function Query(): QueryString.Params {
      match url.query case None => [] case Some(q) => QueryString.Parse(q)
    }

    /** The canonical request with these query parameters. */
    function Canonical(params: QueryString.Params): string {
      CanonicalRequest(verb, url.path, QueryString.Canonical(params), ClientLines(Stamped(), Names(), |Names()|),
                       Join(Names(), ';'), Stamped()[CONTENT_HASH])
    }

    function Key(): seq<byte>
      requires IsDatetime(datetime)
    {
      ClientKey(crypto, secretKey, Date(), region)
    }

    /** The signature over the canonical request with these query parameters. */
    function SignatureOver(params: QueryString.Params): string
      requires IsDatetime(datetime)
    {
      Signature(crypto, Key(), StringToSign(crypto, datetime, Scope(Date(), region, "s3"), Canonical(params)))
    }

    function AuthHeader(): string
      requires IsDatetime(datetime)
    {
      Header(accessKey, Date(), region, Join(Names(), ';'), SignatureOver(Query()))
    }

    function Result(): Option<Request>
      requires IsDatetime(datetime)
    {
      Prepare(crypto, Keys(accessKey, secretKey, region), verb, url, headers, body, datetime)
    }
  }

  lemma HexToken(bytes: seq<byte>)
    requires bytes != []
    ensures Token(Hex(bytes))
  {
  }

  lemma DateTokens(datetime: string)
    requires IsDatetime(datetime)
    ensures Token(datetime) && Token(datetime[0..8])
  {
    assert forall c :: c in datetime[0..8] ==> c in datetime;
  }

  lemma NamesToken(s: Signing)
    ensures Token(Join(s.Names(), ';')) && Split(Join(s.Names(), ';'), ';') == s.Names()
  {
    SignedNamesLower(s.Stamped());
    NameList(s.Names());
  }

  lemma SignatureToken(c: Crypto, key: seq<byte>, text: string)
    requires c.hmac(key, Utf8.Encode(text)) != []
    ensures Token(Signature(c, key, text))
  {
    HexToken(c.hmac(key, Utf8.Encode(text)));
  }

  lemma Tokens(s: Signing)
    requires s.Valid()
    ensures Token(s.Date()) && Token(s.datetime) && Token(Join(s.Names(), ';')) && Token(s.SignatureOver(s.Query()))
    ensures Split(Join(s.Names(), ';'), ';') == s.Names()
  {
    DateTokens(s.datetime);
    NamesToken(s);
    SignatureToken(s.crypto, s.Key(),
                   StringToSign(s.crypto, s.datetime, Scope(s.Date(), s.region, "s3"), s.Canonical(s.Query())));
  }

  /** What the client sends, when it can: every header that goes in is a valid header value. */
  lemma PrepareResult(s: Signing)
    requires s.Valid()
    ensures s.Result().Some? <==>
              ValidHeaderValue(HostValue(s.url)) && ValidHeaderValue(s.accessKey) && ValidHeaderValue(s.region)
    ensures s.Result().Some? ==>
              s.Result().value == Request(s.verb, s.url, s.Stamped()["authorization" := s.AuthHeader()], s.body)
  {
    Tokens(s);
    HeaderVisible(s.accessKey, s.Date(), s.region, Join(s.Names(), ';'), s.SignatureOver(s.Query()));
  }

  lemma EmptyHashVisible()
    ensures Visible(EMPTY_HASH)
  {
    assert Visible("e3b0c44298fc1c14") && Visible("9afbf4c8996fb924");
    assert Visible("27ae41e4649b934c") && Visible("a495991b7852b855");
  }

  lemma HashVisible(bytes: seq<byte>)
    ensures Visible(Hex(bytes))
  {
  }

  lemma PayloadVisible(c: Crypto, h: Headers, body: Option<seq<byte>>)
    ensures Visible(PayloadHash(c, h, body))
  {
    EmptyHashVisible();
    if body.Some? {
      HashVisible(c.sha256(body.value));
    }
  }

  /** The names of the headers the client sets differ. */
  lemma SetHeaders(h: Headers, host: string, datetime: string, payload: string, header: string)
    requires Visible(datetime) && Visible(payload)
    ensures var sent := h["host" := host]["x-amz-date" := datetime][CONTENT_HASH := payload]["authorization" := header];
            Carries(sent, header, datetime) && HeaderStr(sent, CONTENT_HASH) == Some(payload)
  {
    assert |"x-amz-date"| == 10 && |CONTENT_HASH| == 20 && |"authorization"| == 13;
  }

  lemma RequestCarries(s: Signing)
    requires s.Valid()
    ensures var h := s.Stamped()["authorization" := s.AuthHeader()];
            && Carries(h, s.AuthHeader(), s.datetime)
            && CONTENT_HASH in s.Stamped()
            && HeaderStr(h, CONTENT_HASH) == Some(s.Stamped()[CONTENT_HASH])
  {
    var stamped := s.headers["host" := HostValue(s.url)]["x-amz-date" := s.datetime];
    DateTokens(s.datetime);
    TokenPlain(s.datetime);
    PayloadVisible(s.crypto, stamped, s.body);
    SetHeaders(s.headers, HostValue(s.url), s.datetime, PayloadHash(s.crypto, stamped, s.body), s.AuthHeader());
  }

  // --- acceptance ---

  /** What the verifier reads out of the client's request. */
  function Params(s: Signing): SigParams
    requires IsDatetime(s.datetime)
  {
    SigParams(s.accessKey, s.Date(), s.datetime, s.region, "s3", s.Names(), s.SignatureOver(s.Query()))
  }

  lemma ExtractsParams(s: Signing)
    requires s.Valid() && s.Result().Some? && Plain(s.accessKey) && Plain(s.region)
    ensures Extract(s.Result().value) == Some(Params(s))
  {
    PrepareResult(s);
    RequestCarries(s);
    Tokens(s);
    AuthorizationRoundTrip(s.Result().value.headers, s.accessKey, s.Date(), s.datetime, s.region, Join(s.Names(), ';'),
                           s.SignatureOver(s.Query()));
  }

  /** The verifier rebuilds the client's canonical request, except that it drops signature parameters. */
  lemma RebuildsCanonical(s: Signing)
    requires s.Valid() && s.Result().Some?
    ensures BuildCanonicalRequest(s.Result().value, Params(s)) == s.Canonical(Retained(s.url.query.GetOr([])))
  {
    PrepareResult(s);
    RequestCarries(s);
    SignedNamesLower(s.Stamped());
    LinesAgree(s.Stamped(), s.AuthHeader(), s.Names(), |s.Names()|);
  }

  /** The request's query carries no signature parameter. */
  ghost predicate Unsigned(s: Signing) {
    forall p :: p in s.Query() ==> p.0 != SIGNATURE_PARAM
  }

  /** An absent query has the parameters of an empty one. */
  lemma EmptyQuery(s: Signing)
    ensures QueryString.Parse(s.url.query.GetOr([])) == s.Query()
  {
    if s.url.query.None? {
      QueryString.ParseJoined([]);
    }
  }

  /** Dropping signature parameters changes the canonical query exactly when there is one. */
  lemma RetainedAll(s: Signing)
    ensures QueryString.Canonical(Retained(s.url.query.GetOr([]))) == QueryString.Canonical(s.Query()) <==> Unsigned(s)
    ensures Unsigned(s) ==> Retained(s.url.query.GetOr([])) == s.Query()
  {
    var keep := (p: QueryString.Param) => p.0 != SIGNATURE_PARAM;
    EmptyQuery(s);
    FilterAll(s.Query(), keep);
    QueryString.CanonicalAgrees(Filter(s.Query(), keep), s.Query());
    QueryString.ByNamePreorder();
    SortSorts(s.Query(), QueryString.ByName);
    SortSorts(Filter(s.Query(), keep), QueryString.ByName);
    SameElements(s.Query(), QueryString.Sorted(s.Query()));
    SameElements(Filter(s.Query(), keep), QueryString.Sorted(Filter(s.Query(), keep)));
  }

  /** The signature the verifier expects of the client's request. */
  lemma ExpectedSignature(s: Signing)
    requires s.Valid() && s.Result().Some?
    ensures Expected(s.crypto, s.secretKey, s.Result().value, Params(s))
            == s.SignatureOver(Retained(s.url.query.GetOr([])))
  {
    RebuildsCanonical(s);
    DerivationsAgree(s.crypto, s.secretKey, s.Date(), s.region);
  }

  /** The client's key derivation and the verifier's are the same chain, for the client's service. */
  lemma DerivationsAgree(c: Crypto, secret: string, date: string, region: string)
    ensures ClientKey(c, secret, date, region) == DeriveSigningKey(c, secret, date, region, "s3")
  {
  }

  /**
   * Sign then verify. For every method, URL, header set, body and clock reading: a request the client prepares is
   * accepted by a verifier that holds the same key pair, provided the access key and the region are plain text and
   * the query carries no signature parameter; the verifier returns the client's own credentials.
   */
  lemma SignedIsAccepted(s: Signing, credentials: map<string, string>)
    requires s.Valid() && s.Result().Some? && Plain(s.accessKey) && Plain(s.region) && Unsigned(s)
    requires s.accessKey in credentials && credentials[s.accessKey] == s.secretKey
    ensures Verify(s.crypto, credentials, s.Result().value)
            == Ok(ClientCredentials(s.accessKey, s.secretKey, SessionToken(s.Result().value)))
  {
    ExtractsParams(s);
    ExpectedSignature(s);
    RetainedAll(s);
  }

  // --- and only then ---

  /** A hash and a MAC without collisions. */
  ghost predicate Ideal(c: Crypto) {
    && (forall a, b :: c.sha256(a) == c.sha256(b) ==> a == b)
    && (forall key, a, b :: c.hmac(key, a) == c.hmac(key, b) ==> a == b)
  }

  lemma {:induction false} HexInjective(a: seq<byte>, b: seq<byte>)
    ensures Hex(a) == Hex(b) <==> a == b
  {
    if a == [] || b == [] {
    } else if Hex(a) == Hex(b) {
      var x, y := [HexNibble(a[0] / 16), HexNibble(a[0] % 16)], [HexNibble(b[0] / 16), HexNibble(b[0] % 16)];
      SameHead(x, Hex(a[1..]), y, Hex(b[1..]));
      assert x[0] == y[0] && x[1] == y[1];
      HexInjective(a[1..], b[1..]);
      assert a == [a[0]] + a[1..] && b == [b[0]] + b[1..];
    }
  }

  lemma SameHead(a: string, x: string, b: string, y: string)
    requires |a| == |b| && a + x == b + y
    ensures a == b && x == y
  {
    assert (a + x)[..|a|] == a && (b + y)[..|b|] == b;
    assert (a + x)[|a|..] == x && (b + y)[|b|..] == y;
  }

  lemma SameTail(a: string, b: string, post: string)
    ensures a + post == b + post <==> a == b
  {
    if a + post == b + post {
      assert |a + post| == |b + post|;
      SameHead(a, post, b, post);
    }
  }

  /** One part of a joined text shows in the whole. */
  lemma {:induction false} JoinShows(parts: seq<string>, i: nat, a: string, b: string, sep: char)
    requires i < |parts|
    ensures Join(parts[i := a], sep) == Join(parts[i := b], sep) <==> a == b
  {
    var x, y := parts[i := a], parts[i := b];
    if |parts| > 1 {
      if i == 0 {
        assert x[1..] == y[1..] == parts[1..];
        SameTail(a, b, [sep] + Join(parts[1..], sep));
        Associative(a, [sep], Join(parts[1..], sep));
        Associative(b, [sep], Join(parts[1..], sep));
      } else {
        assert x[1..] == parts[1..][i - 1 := a] && y[1..] == parts[1..][i - 1 := b];
        JoinShows(parts[1..], i - 1, a, b, sep);
        SameStart(parts[0] + [sep], Join(x[1..], sep), Join(y[1..], sep));
      }
    }
  }

  lemma SameStart(pre: string, a: string, b: string)
    ensures pre + a == pre + b <==> a == b
  {
    if pre + a == pre + b {
      SameHead(pre, a, pre, b);
    }
  }

  /** The query shows in the canonical request. */
  lemma CanonicalQueryShows(verb: string, path: string, a: string, b: string, headers: string, names: string, payload: string)
    ensures CanonicalRequest(verb, path, a, headers, names, payload) == CanonicalRequest(verb, path, b, headers, names, payload)
            <==> a == b
  {
    var parts := [verb, path, a, headers, names, payload];
    JoinShows(parts, 2, a, b, '\n');
    assert parts[2 := a] == parts && parts[2 := b] == [verb, path, b, headers, names, payload];
  }

  /** The request shows in the string to sign. */
  lemma StringToSignShows(c: Crypto, datetime: string, scope: string, a: string, b: string)
    requires Ideal(c)
    ensures StringToSign(c, datetime, scope, a) == StringToSign(c, datetime, scope, b) <==> a == b
  {
    var parts := [ALGORITHM, datetime, scope, HashHex(c, a)];
    JoinShows(parts, 3, HashHex(c, a), HashHex(c, b), '\n');
    assert parts[3 := HashHex(c, a)] == parts && parts[3 := HashHex(c, b)] == [ALGORITHM, datetime, scope, HashHex(c, b)];
    HexInjective(c.sha256(Utf8.Encode(a)), c.sha256(Utf8.Encode(b)));
    Utf8.DecodeEncode(a);
    Utf8.DecodeEncode(b);
  }

  lemma SignatureShows(c: Crypto, key: seq<byte>, a: string, b: string)
    requires Ideal(c)
    ensures Signature(c, key, a) == Signature(c, key, b) <==> a == b
  {
    HexInjective(c.hmac(key, Utf8.Encode(a)), c.hmac(key, Utf8.Encode(b)));
    Utf8.DecodeEncode(a);
    Utf8.DecodeEncode(b);
  }

  /** Without collisions, signatures over two parameter lists agree exactly when their canonical queries do. */
  lemma SignatureShowsQuery(s: Signing, a: QueryString.Params, b: QueryString.Params)
    requires s.Valid() && Ideal(s.crypto)
    ensures s.SignatureOver(a) == s.SignatureOver(b) <==> QueryString.Canonical(a) == QueryString.Canonical(b)
  {
    var scope := Scope(s.Date(), s.region, "s3");
    CanonicalQueryShows(s.verb, s.url.path, QueryString.Canonical(a), QueryString.Canonical(b),
                        ClientLines(s.Stamped(), s.Names(), |s.Names()|), Join(s.Names(), ';'), s.Stamped()[CONTENT_HASH]);
    StringToSignShows(s.crypto, s.datetime, scope, s.Canonical(a), s.Canonical(b));
    SignatureShows(s.crypto, s.Key(), StringToSign(s.crypto, s.datetime, scope, s.Canonical(a)),
                   StringToSign(s.crypto, s.datetime, scope, s.Canonical(b)));
  }

  /**
   * With collision-free primitives the proviso on the query is exact: a prepared request is accepted if and only if
   * its query carries no signature parameter, and is otherwise refused for its signature.
   */
  lemma AcceptedExactly(s: Signing, credentials: map<string, string>)
    requires s.Valid() && s.Result().Some? && Plain(s.accessKey) && Plain(s.region) && Ideal(s.crypto)
    requires s.accessKey in credentials && credentials[s.accessKey] == s.secretKey
    ensures Verify(s.crypto, credentials, s.Result().value)
            == if Unsigned(s) then Ok(ClientCredentials(s.accessKey, s.secretKey, SessionToken(s.Result().value)))
               else Err(SignatureDoesNotMatch)
  {
    ExtractsParams(s);
    ExpectedSignature(s);
    RetainedAll(s);
    SignatureShowsQuery(s, Retained(s.url.query.GetOr([])), s.Query());
  }
}
