/** The copy-source header: printed by the proxy client, parsed by the PUT handler. */
module CopySource {
  import opened Basics
  import opened PercentCodec
  import Text
  import Utf8

  /** The header the proxy sends upstream. */
  function Print(bucket: string, key: string): string {
    ['/'] + bucket + ['/'] + PercentEncode(key)
  }

  /** `trim_start_matches('/')`. */
  function TrimSlashes(s: string): string {
    if s != [] && s[0] == '/' then TrimSlashes(s[1..]) else s
  }

  /** Splits a decoded source into bucket and key; what follows a question mark is not part of the key. */
  function Parse(decoded: string): Option<(string, string)> {
    var parts := Text.SplitOnce(TrimSlashes(decoded), '/');
    if |parts| != 2 then None
    else Some((parts[0], parts[1][..Text.IndexOf(parts[1], '?')]))
  }

  /** The header as the PUT handler reads it; one that is not visible text is ignored. */
  function Read(header: string): Option<(string, string)> {
    if Text.Visible(header) then Parse(PercentDecode(header)) else None
  }

  /** Whether the printed header is visible depends on the bucket alone. */
  lemma VisiblePrinted(bucket: string, key: string)
    ensures Text.Visible(Print(bucket, key)) <==> Text.Visible(bucket)
  {
    EncodedAlphabet(Utf8.Encode(key));
    forall c | c in PercentEncode(key)
      ensures ' ' <= c <= '~'
    {
      assert EncodedChar(c);
    }
    assert forall c :: c in Print(bucket, key) <==> c == '/' || c in bucket || c in PercentEncode(key);
  }

  /** Decoding the printed header gives the plain path back, for a bucket without percent signs. */
  lemma DecodePrinted(bucket: string, key: string)
    requires '%' !in bucket
    ensures PercentDecode(Print(bucket, key)) == ['/'] + bucket + ['/'] + key
  {
    var head := ['/'] + bucket + ['/'];
    Utf8.AsciiBytes(head, '%');
    Utf8.EncodeAppend(head, PercentEncode(key));
    DecodePlain(Utf8.Encode(head), Utf8.Encode(PercentEncode(key)));
    DecodeEncodeBytes(Utf8.Encode(key));
    Utf8.EncodeAppend(head, key);
    Utf8.DecodeEncode(head + key);
  }

  lemma {:induction false} TrimmedHead(s: string)
    ensures TrimSlashes(s) == [] || TrimSlashes(s)[0] != '/'
    ensures s == [] || s[0] != '/' ==> TrimSlashes(s) == s
  {
    if s != [] && s[0] == '/' {
      TrimmedHead(s[1..]);
    }
  }

  /** Cutting at the question mark keeps the key exactly when it has none. */
  lemma CutKeeps(key: string)
    ensures key[..Text.IndexOf(key, '?')] == key <==> '?' !in key
  {
    if '?' !in key {
      Text.IndexOfAbsent(key, '?');
    }
  }

  lemma ParsePath(bucket: string, key: string)
    ensures Parse(['/'] + bucket + ['/'] + key) == Some((bucket, key))
            <==> bucket != [] && '/' !in bucket && '?' !in key
  {
    var path := ['/'] + bucket + ['/'] + key;
    var rest := bucket + ['/'] + key;
    assert path[1..] == rest;
    assert TrimSlashes(path) == TrimSlashes(rest);
    TrimmedHead(rest);
    var parts := Text.SplitOnce(TrimSlashes(path), '/');
    if bucket == [] {
      FirstPartNotEmpty(TrimSlashes(path));
    } else if '/' !in bucket {
      assert rest[0] == bucket[0];
      Text.SplitHead(bucket, '/', key);
      CutKeeps(key);
    } else if |parts| == 2 {
      assert '/' !in parts[0];
    }
  }

  /** Text that does not start with a slash has a non-empty first part. */
  lemma FirstPartNotEmpty(s: string)
    requires s == [] || s[0] != '/'
    ensures |Text.SplitOnce(s, '/')| == 2 ==> Text.SplitOnce(s, '/')[0] != []
  {
  }

  // --- a bucket with a percent sign ---

  /**
   * How decoding passes from a bucket's bytes to what follows the slash behind them: the slash is kept, or it is
   * swallowed by an escape that the bucket's end opens, alone or with the byte after it.
   */
  datatype Passage = Kept(head: seq<byte>) | Swallowed(head: seq<byte>) | SwallowedTwo(head: seq<byte>)
  {
    function After(b: byte): Passage {
      match this
      case Kept(head) => Kept([b] + head)
      case Swallowed(head) => Swallowed([b] + head)
      case SwallowedTwo(head) => SwallowedTwo([b] + head)
    }

    /** The decoded whole, when `rest` follows the slash. */
    function Decoded(rest: seq<byte>): seq<byte> {
      match this
      case Kept(head) => head + [SLASH] + DecodeBytes(rest)
      case Swallowed(head) => head + [PERCENT] + DecodeBytes(rest)
      case SwallowedTwo(head) => head + [PERCENT] + DecodeBytes(rest[Min(1, |rest|)..])
    }
  }

  const SLASH: byte := 0x2F

  function Pass(bucket: seq<byte>): Passage
    decreases |bucket|
  {
    if bucket == [] then Kept([])
    else if bucket[0] != PERCENT then Pass(bucket[1..]).After(bucket[0])
    else if |bucket| >= 3 then Pass(bucket[3..]).After(FromHexPair(bucket[1], bucket[2]).GetOr(PERCENT))
    else if |bucket| == 2 then Swallowed([])
    else SwallowedTwo([])
  }

  lemma AfterDecoded(p: Passage, b: byte, rest: seq<byte>)
    ensures p.After(b).Decoded(rest) == [b] + p.Decoded(rest)
  {
  }

  /** One turn of the decoder inside the bucket. */
  lemma PassTurn(bucket: seq<byte>, rest: seq<byte>, b: byte, next: nat)
    requires bucket != [] && next == (if bucket[0] == PERCENT then 3 else 1) <= |bucket|
    requires b == if bucket[0] == PERCENT then FromHexPair(bucket[1], bucket[2]).GetOr(PERCENT) else bucket[0]
    ensures DecodeBytes(bucket + [SLASH] + rest) == [b] + DecodeBytes(bucket[next..] + [SLASH] + rest)
  {
    var all := bucket + [SLASH] + rest;
    assert all[0] == bucket[0];
    assert all[next..] == bucket[next..] + [SLASH] + rest;
  }

  /** An escape opened too close to the bucket's end. */
  lemma PassEnd(bucket: seq<byte>, rest: seq<byte>)
    requires 1 <= |bucket| <= 2 && bucket[0] == PERCENT
    ensures DecodeBytes(bucket + [SLASH] + rest) == Pass(bucket).Decoded(rest)
  {
    var all := bucket + [SLASH] + rest;
    assert all[0] == PERCENT && all[|bucket|] == SLASH;
    assert [] + [PERCENT] == [PERCENT];
    if |bucket| == 2 {
      assert all[3..] == rest;
    } else {
      assert all[Min(3, |all|)..] == rest[Min(1, |rest|)..];
    }
  }

  lemma {:induction false} PassDecodes(bucket: seq<byte>, rest: seq<byte>)
    ensures DecodeBytes(bucket + [SLASH] + rest) == Pass(bucket).Decoded(rest)
    decreases |bucket|
  {
    if bucket == [] {
      assert bucket + [SLASH] + rest == [SLASH] + rest;
      DecodePlain([SLASH], rest);
      assert [] + [SLASH] == [SLASH];
    } else if bucket[0] == PERCENT && |bucket| < 3 {
      PassEnd(bucket, rest);
    } else {
      var next := if bucket[0] == PERCENT then 3 else 1;
      var b := if bucket[0] == PERCENT then FromHexPair(bucket[1], bucket[2]).GetOr(PERCENT) else bucket[0];
      PassTurn(bucket, rest, b, next);
      PassDecodes(bucket[next..], rest);
      AfterDecoded(Pass(bucket[next..]), b, rest);
    }
  }

  /** Every percent sign shortens the bucket. */
  lemma {:induction false} PassShortens(bucket: seq<byte>)
    ensures Pass(bucket).Kept? ==> |Pass(bucket).head| <= |bucket| - (if PERCENT in bucket then 2 else 0)
    ensures Pass(bucket).Swallowed? ==> |Pass(bucket).head| <= |bucket| - 2
    ensures Pass(bucket).SwallowedTwo? ==> |Pass(bucket).head| <= |bucket| - 1
    decreases |bucket|
  {
    if bucket == [] {
    } else if bucket[0] != PERCENT {
      PassShortens(bucket[1..]);
      assert bucket == [bucket[0]] + bucket[1..];
    } else if |bucket| >= 3 {
      PassShortens(bucket[3..]);
    }
  }

  /** The slash between bucket and key in a path that is read as them. */
  ghost predicate Separates(path: string, p: nat, bucket: string, key: string) {
    && |bucket| < p && p + 1 + |key| <= |path|
    && path[p] == '/'
    && (forall i :: 0 <= i < p ==> path[i] == '/' || path[i] in bucket)
  }

  lemma {:induction false} TrimmedPart(s: string)
    ensures |TrimSlashes(s)| <= |s| && TrimSlashes(s) == s[|s| - |TrimSlashes(s)|..]
    ensures forall i :: 0 <= i < |s| - |TrimSlashes(s)| ==> s[i] == '/'
    ensures s != [] && s[0] == '/' ==> |TrimSlashes(s)| < |s|
  {
    if s != [] && s[0] == '/' {
      TrimmedPart(s[1..]);
    }
  }

  lemma ParsedShape(path: string, bucket: string, key: string) returns (p: nat)
    requires path != [] && path[0] == '/' && Parse(path) == Some((bucket, key))
    ensures Separates(path, p, bucket, key)
  {
    TrimmedPart(path);
    var trimmed := TrimSlashes(path);
    var slashes := |path| - |trimmed|;
    var rest := Text.SplitOnce(trimmed, '/')[1];
    assert trimmed == bucket + ['/'] + rest && |key| <= |rest|;
    p := slashes + |bucket|;
    forall i | 0 <= i < p
      ensures path[i] == '/' || path[i] in bucket
    {
      if i >= slashes {
        assert path[i] == trimmed[i - slashes] == bucket[i - slashes];
      }
    }
    assert path[p] == trimmed[|bucket|];
  }

  /** Too short a path holds no such bucket and key. */
  lemma TooShort(path: string, bucket: string, key: string)
    requires path != [] && path[0] == '/' && |path| <= |bucket| + 1 + |key|
    ensures Parse(path) != Some((bucket, key))
  {
    if Parse(path) == Some((bucket, key)) {
      var p := ParsedShape(path, bucket, key);
      assert false;
    }
  }

  /**
   * The percent sign at the bucket's end has swallowed the slash and the percent sign that starts the key's encoding.
   * No slash is left in time: what follows is a key without its first character, or starts with a broken one.
   */
  lemma NoSlashInTime(path: string, head: string, h: char, l: char, tail: string, bucket: string, key: string)
    requires path == ['/'] + head + ['%', h, l] + tail && |head| < |bucket|
    requires h != '/' && l != '/'
    requires |tail| < |key| || (tail != [] && tail[0] == '\U{FFFD}' && '\U{FFFD}' !in bucket)
    ensures Parse(path) != Some((bucket, key))
  {
    var n := |head| + 4;
    assert path[n - 3] == '%' && path[n - 2] == h && path[n - 1] == l && path[n..] == tail;
    assert tail != [] ==> path[n] == tail[0];
    if Parse(path) == Some((bucket, key)) {
      var p := ParsedShape(path, bucket, key);
      assert false;
    }
  }

  /** The printed key, as bytes, without its first byte. */
  lemma KeyTail(key: string) returns (escaped: bool, h: char, l: char)
    requires key != []
    ensures var bytes, printed := Utf8.Encode(key), Utf8.Encode(PercentEncode(key));
            && printed != []
            && (!escaped ==> |EncodeCharOf(key)| == 1 && DecodeBytes(printed[1..]) == bytes[1..])
            && (escaped ==> h as int < 0x80 && l as int < 0x80 && h != '/' && l != '/'
                            && DecodeBytes(printed[1..]) == [h as int, l as int] + bytes[1..])
  {
    var bytes := Utf8.Encode(key);
    var b, rest := bytes[0], EncodeBytes(bytes[1..]);
    DecodeEncodeBytes(bytes[1..]);
    Utf8.EncodeAppend(EncodeByte(b), rest);
    AsciiEncode(EncodeByte(b));
    var printed := Utf8.Encode(PercentEncode(key));
    h, l, escaped := HexDigit(b / 16), HexDigit(b % 16), !Unreserved(b);
    DropFirst(Utf8.Encode(EncodeByte(b)), Utf8.Encode(rest));
    if escaped {
      assert Utf8.Encode(EncodeByte(b))[1..] == [h as int, l as int];
      DecodePlain([h as int, l as int], Utf8.Encode(rest));
    } else {
      assert Utf8.Encode(EncodeByte(b))[1..] == [];
      assert [] + Utf8.Encode(rest) == Utf8.Encode(rest);
    }
  }

  lemma DropFirst(a: seq<byte>, b: seq<byte>)
    requires a != []
    ensures (a + b)[1..] == a[1..] + b
  {
  }

  function EncodeCharOf(key: string): seq<byte>
    requires key != []
  {
    Utf8.EncodeChar(key[0])
  }

  /** A text whose first byte is missing: one character shorter, or starting with a broken one. */
  lemma BeheadedKey(key: string)
    requires key != []
    ensures var tail := Utf8.DecodeLossy(Utf8.Encode(key)[1..]);
            if |EncodeCharOf(key)| == 1 then tail == key[1..] else tail != [] && tail[0] == '\U{FFFD}'
  {
    var bytes := Utf8.Encode(key);
    if |EncodeCharOf(key)| == 1 {
      assert bytes[1..] == Utf8.Encode(key[1..]);
      Utf8.DecodeEncode(key[1..]);
    } else {
      assert Utf8.Continuation(bytes[1]);
      assert Utf8.Scan(bytes[1..]) == Utf8.Bad(1);
    }
  }

  /** The decoded header as text, for each way the slash may have gone. */
  lemma PassageText(p: Passage, key: string)
    ensures var printed := Utf8.Encode(PercentEncode(key));
            var text := Utf8.DecodeLossy([SLASH] + p.Decoded(printed));
            var head := Utf8.DecodeLossy(p.head);
            && (p.Kept? ==> text == ['/'] + head + ['/'] + key)
            && (p.Swallowed? ==> text == ['/'] + head + ['%'] + key)
            && (p.SwallowedTwo? ==>
                  text == ['/'] + head + ['%'] + Utf8.DecodeLossy(DecodeBytes(printed[Min(1, |printed|)..])))
  {
    var printed := Utf8.Encode(PercentEncode(key));
    DecodeEncodeBytes(Utf8.Encode(key));
    Utf8.DecodeEncode(key);
    match p {
      case Kept(head) => MarkedText(head, SLASH, DecodeBytes(printed));
      case Swallowed(head) => MarkedText(head, PERCENT, DecodeBytes(printed));
      case SwallowedTwo(head) => MarkedText(head, PERCENT, DecodeBytes(printed[Min(1, |printed|)..]));
    }
  }

  lemma MarkedText(head: seq<byte>, mark: byte, tail: seq<byte>)
    requires mark < 0x80
    ensures Utf8.DecodeLossy([SLASH] + (head + [mark] + tail))
            == ['/'] + Utf8.DecodeLossy(head) + [mark as char] + Utf8.DecodeLossy(tail)
  {
    LeadingAscii(SLASH, head + [mark] + tail);
    Utf8.LossyAscii(head, mark, tail);
  }

  lemma LeadingAscii(c: byte, rest: seq<byte>)
    requires c < 0x80
    ensures Utf8.DecodeLossy([c] + rest) == [c as char] + Utf8.DecodeLossy(rest)
  {
    assert ([c] + rest)[1..] == rest;
  }

  lemma LeadingPair(h: char, l: char, rest: seq<byte>)
    requires h as int < 0x80 && l as int < 0x80
    ensures Utf8.DecodeLossy([h as int, l as int] + rest) == [h, l] + Utf8.DecodeLossy(rest)
  {
    assert [h as int, l as int] + rest == [h as int] + ([l as int] + rest);
    LeadingAscii(h as int, [l as int] + rest);
    LeadingAscii(l as int, rest);
  }

  /** Whatever the key: a bucket with a percent sign is not read back. */
  lemma PercentLosesBucket(bucket: string, key: string)
    requires '%' in bucket && Text.Visible(bucket)
    ensures Read(Print(bucket, key)) != Some((bucket, key))
  {
    var bytes, printed := Utf8.Encode(bucket), Utf8.Encode(PercentEncode(key));
    var p, path := Pass(bytes), PercentDecode(Print(bucket, key));
    DecodedHeader(bucket, key);
    PassageText(p, key);
    BucketShortens(bucket);
    if p.SwallowedTwo? && key != [] {
      SlashSwallowed(path, Utf8.DecodeLossy(p.head), bucket, key);
    } else {
      assert key == [] ==> printed == [];
      TooShort(path, bucket, key);
    }
  }

  lemma BucketShortens(bucket: string)
    requires '%' in bucket && Text.Visible(bucket)
    ensures var p := Pass(Utf8.Encode(bucket));
            |Utf8.DecodeLossy(p.head)| + (if p.SwallowedTwo? then 1 else 2) <= |bucket|
  {
    var bytes := Utf8.Encode(bucket);
    assert forall i :: 0 <= i < |bucket| ==> bucket[i] in bucket;
    AsciiEncode(bucket);
    Utf8.AsciiBytes(bucket, '%');
    PassShortens(bytes);
    Utf8.LossyShort(Pass(bytes).head);
  }

  lemma SlashByte()
    ensures Utf8.Encode(['/']) == [SLASH]
  {
    AsciiEncode(['/']);
  }

  lemma HeaderBytes(bucket: string, text: string)
    ensures Utf8.Encode(['/'] + bucket + ['/'] + text)
            == [SLASH] + (Utf8.Encode(bucket) + [SLASH] + Utf8.Encode(text))
  {
    Utf8.EncodeAppend(['/'] + bucket + ['/'], text);
    Utf8.EncodeAppend(['/'] + bucket, ['/']);
    Utf8.EncodeAppend(['/'], bucket);
    SlashByte();
    Associative([SLASH], Utf8.Encode(bucket), [SLASH]);
    Associative([SLASH], Utf8.Encode(bucket) + [SLASH], Utf8.Encode(text));
  }

  lemma DecodedHeader(bucket: string, key: string)
    ensures PercentDecode(Print(bucket, key))
            == Utf8.DecodeLossy([SLASH] + Pass(Utf8.Encode(bucket)).Decoded(Utf8.Encode(PercentEncode(key))))
  {
    var bytes, printed := Utf8.Encode(bucket), Utf8.Encode(PercentEncode(key));
    HeaderBytes(bucket, PercentEncode(key));
    DecodePlain([SLASH], bytes + [SLASH] + printed);
    PassDecodes(bytes, printed);
  }

  lemma Regrouped(head: string, h: char, l: char, tail: string)
    ensures head + ['%'] + ([h, l] + tail) == head + ['%', h, l] + tail
  {
  }

  lemma SlashSwallowed(path: string, head: string, bucket: string, key: string)
    requires key != [] && |head| < |bucket| && Text.Visible(bucket)
    requires var printed := Utf8.Encode(PercentEncode(key));
             path == ['/'] + head + ['%'] + Utf8.DecodeLossy(DecodeBytes(printed[Min(1, |printed|)..]))
    ensures Parse(path) != Some((bucket, key))
  {
    var printed := Utf8.Encode(PercentEncode(key));
    var escaped, h, l := KeyTail(key);
    var tail := Utf8.DecodeLossy(Utf8.Encode(key)[1..]);
    BeheadedKey(key);
    if escaped {
      var rest := Utf8.Encode(key)[1..];
      LeadingPair(h, l, rest);
      Regrouped(['/'] + head, h, l, tail);
      NoSlashInTime(path, head, h, l, tail, bucket, key);
    } else {
      TooShort(path, bucket, key);
    }
  }

  /**
   * The printed copy source is read back as the same bucket and key exactly when the bucket is not empty, is visible
   * text and has neither slash nor percent sign, and the key has no question mark.
   */
  lemma RoundTrip(bucket: string, key: string)
    ensures Read(Print(bucket, key)) == Some((bucket, key))
            <==> bucket != [] && Text.Visible(bucket) && '/' !in bucket && '%' !in bucket && '?' !in key
  {
    VisiblePrinted(bucket, key);
    if '%' !in bucket {
      DecodePrinted(bucket, key);
      ParsePath(bucket, key);
    } else if Text.Visible(bucket) {
      PercentLosesBucket(bucket, key);
    }
  }

  /** The bucket is printed unencoded but decoded: with a percent sign in it, another bucket is read. */
  lemma BucketWithPercent()
    ensures Print(['a', '%', '4', '1'], ['k']) == ['/', 'a', '%', '4', '1', '/', 'k']
    ensures Read(['/', 'a', '%', '4', '1', '/', 'k']) == Some((['a', 'A'], ['k']))
  {
    PrintedOne();
    DecodedSource();
    ReadsAs(['/', 'a', '%', '4', '1', '/', 'k'], ['/', 'a', 'A', '/', 'k'], ['a', 'A'], ['k']);
  }

  /** A visible header that decodes to a path is read as that path's bucket and key. */
  lemma ReadsAs(header: string, path: string, bucket: string, key: string)
    requires Text.Visible(header) && PercentDecode(header) == path == ['/'] + bucket + ['/'] + key
    requires bucket != [] && '/' !in bucket && '?' !in key
    ensures Read(header) == Some((bucket, key))
  {
    ParsePath(bucket, key);
  }

  lemma SourceText(path: string)
    requires path == ['/', 'a', 'A', '/', 'k']
    ensures Utf8.DecodeLossy([0x2F, 0x61, 0x41, 0x2F, 0x6B]) == path
  {
    AsciiEncode(path);
    assert Utf8.Encode(path) == [0x2F, 0x61, 0x41, 0x2F, 0x6B];
    Utf8.DecodeEncode(path);
  }

  lemma PrintedOne()
    ensures PercentEncode(['k']) == ['k']
  {
    AsciiEncode(['k']);
    assert Utf8.Encode(['k']) == [0x6B];
    assert [0x6B][1..] == [];
  }

  lemma DecodedSource()
    ensures PercentDecode(['/', 'a', '%', '4', '1', '/', 'k']) == ['/', 'a', 'A', '/', 'k']
  {
    var header := ['/', 'a', '%', '4', '1', '/', 'k'];
    AsciiEncode(header);
    DecodedEscape(Utf8.Encode(header));
    SourceText(['/', 'a', 'A', '/', 'k']);
  }

  lemma DecodedEscape(bytes: seq<byte>)
    requires bytes == [0x2F, 0x61, PERCENT, 0x34, 0x31, 0x2F, 0x6B]
    ensures DecodeBytes(bytes) == [0x2F, 0x61, 0x41, 0x2F, 0x6B]
  {
    var escape := [PERCENT, 0x34, 0x31, 0x2F, 0x6B];
    assert bytes == [0x2F, 0x61] + escape;
    DecodePlain([0x2F, 0x61], escape);
    DecodePlain([0x2F, 0x6B], []);
    assert [0x2F, 0x6B] + [] == [0x2F, 0x6B];
    assert escape[3..] == [0x2F, 0x6B];
  }

  // --- sources as other clients write them ---

  function Slashes(n: nat): string {
    if n == 0 then [] else ['/'] + Slashes(n - 1)
  }

  lemma {:induction false} SlashesTrimmed(n: nat, rest: string)
    requires rest != [] && rest[0] != '/'
    ensures TrimSlashes(Slashes(n) + rest) == rest
  {
    if n == 0 {
      assert [] + rest == rest;
    } else {
      assert (Slashes(n) + rest)[1..] == Slashes(n - 1) + rest;
      SlashesTrimmed(n - 1, rest);
    }
  }

  /** Any number of leading slashes, and a version or other query behind the key: bucket and key are found. */
  lemma ParseGeneral(n: nat, bucket: string, key: string, query: string)
    requires bucket != [] && '/' !in bucket && '?' !in key
    ensures Parse(Slashes(n) + (bucket + ['/'] + key)) == Some((bucket, key))
    ensures Parse(Slashes(n) + (bucket + ['/'] + (key + ['?'] + query))) == Some((bucket, key))
  {
    SlashesTrimmed(n, bucket + ['/'] + key);
    SlashesTrimmed(n, bucket + ['/'] + (key + ['?'] + query));
    Text.SplitHead(bucket, '/', key);
    Text.SplitHead(bucket, '/', key + ['?'] + query);
    CutKeeps(key);
    Text.IndexOfAppend(key, '?', query);
    assert (key + ['?'] + query)[..|key|] == key;
  }
}
