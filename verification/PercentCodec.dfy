/** The percent encoder used for canonical queries and copy sources, and the decoder used for copy sources. */
module PercentCodec {
  import opened Basics
  import Utf8

  predicate Unreserved(b: byte) {
    || 'A' as int <= b <= 'Z' as int || 'a' as int <= b <= 'z' as int || '0' as int <= b <= '9' as int
    || b in {'-' as int, '.' as int, '_' as int, '~' as int}
  }

  function HexDigit(n: nat): (c: char)
    requires n < 16
    ensures HexValue(c as int) == Some(n)
    ensures '0' <= c <= '9' || 'A' <= c <= 'F'
  {
    if n < 10 then ('0' as int + n) as char else ('A' as int + n - 10) as char
  }

  /** Value of a hexadecimal digit of either case. */
  function HexValue(b: int): (r: Option<nat>)
    ensures r.Some? ==> r.value < 16
  {
    if '0' as int <= b <= '9' as int then Some(b - '0' as int)
    else if 'A' as int <= b <= 'F' as int then Some(b - 'A' as int + 10)
    else if 'a' as int <= b <= 'f' as int then Some(b - 'a' as int + 10)
    else None
  }

  /** `u8::from_str_radix(.., 16)` on two characters: two digits, or a plus sign and one. */
  function FromHexPair(h: byte, l: byte): Option<byte> {
    match (HexValue(h), HexValue(l))
    case (Some(hi), Some(lo)) => Some(16 * hi + lo)
    case (None, Some(lo)) => if h == '+' as int then Some(lo) else None
    case _ => None
  }

  function EncodeByte(b: byte): (s: string)
    ensures s != []
  {
    if Unreserved(b) then [b as char] else ['%', HexDigit(b / 16), HexDigit(b % 16)]
  }

  function EncodeBytes(bytes: seq<byte>): string {
    if bytes == [] then [] else EncodeByte(bytes[0]) + EncodeBytes(bytes[1..])
  }

  /** `s3_percent_encode`. */
  function PercentEncode(s: string): string {
    EncodeBytes(Utf8.Encode(s))
  }

  const PERCENT: byte := 0x25

  /**
   * The decoder's byte loop. An escape that does not parse still swallows its two bytes: only the percent sign
   * is kept.
   */
  function DecodeBytes(bytes: seq<byte>): seq<byte>
    decreases |bytes|
  {
    if bytes == [] then []
    else if bytes[0] == PERCENT then
      if |bytes| >= 3 && FromHexPair(bytes[1], bytes[2]).Some? then
        [FromHexPair(bytes[1], bytes[2]).value] + DecodeBytes(bytes[3..])
      else
        [PERCENT] + DecodeBytes(bytes[Min(3, |bytes|)..])
    else
      [bytes[0]] + DecodeBytes(bytes[1..])
  }

  /** `percent_decode`. */
  function PercentDecode(s: string): string {
    Utf8.DecodeLossy(DecodeBytes(Utf8.Encode(s)))
  }

  // --- the loops ---

  method S3PercentEncode(input: string) returns (encoded: string)
    ensures encoded == PercentEncode(input)
  {
    var bytes := Utf8.Encode(input);
    encoded := [];
    assert bytes[0..] == bytes;
    for i := 0 to |bytes|
      invariant EncodeBytes(bytes) == encoded + EncodeBytes(bytes[i..])
    {
      var b := bytes[i];
      EncodeTail(bytes, i);
      Associative(encoded, EncodeByte(b), EncodeBytes(bytes[i + 1..]));
      if Unreserved(b) {
        encoded := encoded + [b as char];
      } else {
        encoded := encoded + ['%', HexDigit(b / 16), HexDigit(b % 16)];
      }
    }
    assert bytes[|bytes|..] == [];
    assert encoded + [] == encoded;
  }

  lemma EncodeTail(bytes: seq<byte>, i: nat)
    requires i < |bytes|
    ensures EncodeBytes(bytes[i..]) == EncodeByte(bytes[i]) + EncodeBytes(bytes[i + 1..])
  {
    assert bytes[i..][1..] == bytes[i + 1..];
  }

  method DecodePercent(input: string) returns (decoded: string)
    ensures decoded == PercentDecode(input)
  {
    var bytes := Utf8.Encode(input);
    var result: seq<byte> := [];
    var next := 0;
    assert bytes[0..] == bytes;
    while next < |bytes|
      invariant next <= |bytes|
      invariant DecodeBytes(bytes) == result + DecodeBytes(bytes[next..])
    {
      ghost var start := next;
      var b := bytes[next];
      next := next + 1;
      if b == PERCENT {
        var pair := None;
        if next + 2 <= |bytes| {
          pair := FromHexPair(bytes[next], bytes[next + 1]);
        }
        next := Min(next + 2, |bytes|);
        b := pair.GetOr(b);
      }
      DecodeTail(bytes, start, b, next);
      Associative(result, [b], DecodeBytes(bytes[next..]));
      result := result + [b];
    }
    assert bytes[|bytes|..] == [];
    assert result + [] == result;
    decoded := Utf8.DecodeLossy(result);
  }

  /** One turn of the loop, from position `i` to position `next`. */
  lemma DecodeTail(bytes: seq<byte>, i: nat, b: byte, next: nat)
    requires i < |bytes|
    requires bytes[i] != PERCENT ==> b == bytes[i] && next == i + 1
    requires bytes[i] == PERCENT ==> next == Min(i + 3, |bytes|)
    requires bytes[i] == PERCENT ==>
               b == if i + 3 <= |bytes| then FromHexPair(bytes[i + 1], bytes[i + 2]).GetOr(PERCENT) else PERCENT
    ensures DecodeBytes(bytes[i..]) == [b] + DecodeBytes(bytes[next..])
  {
    var rest := bytes[i..];
    assert rest[0] == bytes[i];
    assert rest[next - i..] == bytes[next..];
  }

  // --- round trip ---

  /** A printed byte is read back, whatever follows it. */
  lemma DecodeOne(b: byte, rest: string)
    ensures DecodeBytes(Utf8.Encode(EncodeByte(b) + rest)) == [b] + DecodeBytes(Utf8.Encode(rest))
  {
    var printed := EncodeByte(b);
    Utf8.EncodeAppend(printed, rest);
    var bytes := Utf8.Encode(printed + rest);
    if Unreserved(b) {
      AsciiEncode([b as char]);
      assert bytes == [b] + Utf8.Encode(rest);
      assert bytes[1..] == Utf8.Encode(rest);
    } else {
      AsciiEncode(printed);
      var h, l := HexDigit(b / 16) as int, HexDigit(b % 16) as int;
      assert bytes == [PERCENT, h, l] + Utf8.Encode(rest);
      assert bytes[3..] == Utf8.Encode(rest);
    }
  }

  /** ASCII text is its own encoding. */
  lemma {:induction false} AsciiEncode(s: string)
    requires forall i :: 0 <= i < |s| ==> s[i] as int < 0x80
    ensures Utf8.Encode(s) == seq(|s|, i requires 0 <= i < |s| => s[i] as int)
  {
    if s != [] {
      AsciiEncode(s[1..]);
      var rest := Utf8.Encode(s[1..]);
      assert Utf8.Encode(s) == [s[0] as int] + rest;
      assert forall i :: 0 <= i < |s| - 1 ==> rest[i] == s[i + 1] as int;
    }
  }

  lemma {:induction false} DecodeEncodeBytes(bytes: seq<byte>)
    ensures DecodeBytes(Utf8.Encode(EncodeBytes(bytes))) == bytes
  {
    if bytes != [] {
      DecodeEncodeBytes(bytes[1..]);
      DecodeOne(bytes[0], EncodeBytes(bytes[1..]));
      assert bytes == [bytes[0]] + bytes[1..];
    }
  }

  /** Decoding undoes encoding, for every text. */
  lemma DecodeEncode(s: string)
    ensures PercentDecode(PercentEncode(s)) == s
  {
    DecodeEncodeBytes(Utf8.Encode(s));
    Utf8.DecodeEncode(s);
  }

  /** Different texts have different encodings. */
  lemma EncodeInjective(a: string, b: string)
    ensures PercentEncode(a) == PercentEncode(b) <==> a == b
  {
    DecodeEncode(a);
    DecodeEncode(b);
  }

  /** The characters an encoding is made of. */
  predicate EncodedChar(c: char) {
    c == '%' || (c as int < 0x80 && Unreserved(c as int))
  }

  lemma {:induction false} EncodedAlphabet(bytes: seq<byte>)
    ensures forall c :: c in EncodeBytes(bytes) ==> EncodedChar(c)
  {
    if bytes != [] {
      EncodedAlphabet(bytes[1..]);
      forall c | c in EncodeByte(bytes[0])
        ensures EncodedChar(c)
      {
      }
    }
  }

  /** Encodings contain no separator of a query string, a path or a header. */
  lemma NoSeparators(s: string)
    ensures forall c :: c in PercentEncode(s) ==> c !in {'=', '&', '/', '?', ',', ' ', '+', '\n'}
  {
    EncodedAlphabet(Utf8.Encode(s));
    forall c | c in PercentEncode(s)
      ensures c !in {'=', '&', '/', '?', ',', ' ', '+', '\n'}
    {
      assert EncodedChar(c);
    }
  }

  // --- what is printed ---

  lemma {:induction false} EncodeBytesAppend(a: seq<byte>, b: seq<byte>)
    ensures EncodeBytes(a + b) == EncodeBytes(a) + EncodeBytes(b)
  {
    if a == [] {
      assert a + b == b;
    } else {
      assert (a + b)[1..] == a[1..] + b;
      EncodeBytesAppend(a[1..], b);
    }
  }

  /** Encoding goes character by character. */
  lemma EncodeAppend(a: string, b: string)
    ensures PercentEncode(a + b) == PercentEncode(a) + PercentEncode(b)
  {
    Utf8.EncodeAppend(a, b);
    EncodeBytesAppend(Utf8.Encode(a), Utf8.Encode(b));
  }

  /**
   * Each byte as section 2 of RFC 3986 has it: letters, digits and four marks stand for themselves; every other byte
   * is a percent sign and two upper-case hexadecimal digits.
   */
  lemma EncodeOne(b: byte)
    ensures ('A' as int <= b <= 'Z' as int || 'a' as int <= b <= 'z' as int || '0' as int <= b <= '9' as int
             || b == '-' as int || b == '.' as int || b == '_' as int || b == '~' as int)
            ==> EncodeBytes([b]) == [b as char]
    ensures !('A' as int <= b <= 'Z' as int || 'a' as int <= b <= 'z' as int || '0' as int <= b <= '9' as int
              || b == '-' as int || b == '.' as int || b == '_' as int || b == '~' as int)
            ==> EncodeBytes([b]) == ['%', "0123456789ABCDEF"[b / 16], "0123456789ABCDEF"[b % 16]]
  {
    assert [b][1..] == [];
    UpperHex(b / 16);
    UpperHex(b % 16);
  }

  lemma UpperHex(n: nat)
    requires n < 16
    ensures HexDigit(n) == "0123456789ABCDEF"[n]
  {
    var digits := "0123456789ABCDEF";
    assert digits[0] == '0' && digits[1] == '1' && digits[2] == '2' && digits[3] == '3';
    assert digits[4] == '4' && digits[5] == '5' && digits[6] == '6' && digits[7] == '7';
    assert digits[8] == '8' && digits[9] == '9' && digits[10] == 'A' && digits[11] == 'B';
    assert digits[12] == 'C' && digits[13] == 'D' && digits[14] == 'E' && digits[15] == 'F';
  }

  // --- decoding other texts ---

  /** Text before the first percent sign is copied. */
  lemma {:induction false} DecodePlain(a: seq<byte>, b: seq<byte>)
    requires PERCENT !in a
    ensures DecodeBytes(a + b) == a + DecodeBytes(b)
  {
    if a == [] {
      assert a + b == b;
    } else {
      assert (a + b)[1..] == a[1..] + b;
      DecodePlain(a[1..], b);
    }
  }

  /** The text starts with a percent sign and two hexadecimal digits. */
  predicate Escaped(bytes: seq<byte>) {
    |bytes| >= 3 && bytes[0] == PERCENT && HexValue(bytes[1]).Some? && HexValue(bytes[2]).Some?
  }

  function EscapedByte(bytes: seq<byte>): byte
    requires Escaped(bytes)
  {
    16 * HexValue(bytes[1]).value + HexValue(bytes[2]).value
  }

  /** Standard decoding leaves a malformed escape as it is. */
  function Standard(bytes: seq<byte>): seq<byte> {
    if bytes == [] then []
    else if Escaped(bytes) then [EscapedByte(bytes)] + Standard(bytes[3..])
    else [bytes[0]] + Standard(bytes[1..])
  }

  /** Every percent sign starts an escape of two hexadecimal digits. */
  predicate WellEscaped(bytes: seq<byte>) {
    if bytes == [] then true
    else if bytes[0] == PERCENT then Escaped(bytes) && WellEscaped(bytes[3..])
    else WellEscaped(bytes[1..])
  }

  /**
   * Which texts the decoder reads as the standard does. A percent sign that starts no escape may only end the text, or
   * hide an escape among the two bytes it swallows whose own digits happen to spell the result, as in `%3%35`.
   */
  predicate Agrees(bytes: seq<byte>) {
    if bytes == [] then true
    else if bytes[0] != PERCENT then Agrees(bytes[1..])
    else if Escaped(bytes) then Agrees(bytes[3..])
    else if |bytes| < 3 then |bytes| == 1
    else if FromHexPair(bytes[1], bytes[2]).Some? then false
    else if Escaped(bytes[1..]) then EscapedByte(bytes[1..]) == bytes[3] && Agrees(bytes[4..])
    else if Escaped(bytes[2..]) then
      bytes[1] == bytes[3] && EscapedByte(bytes[2..]) == bytes[4] && Agrees(bytes[5..])
    else false
  }

  /** Standard decoding, byte by byte. */
  lemma StandardNext(bytes: seq<byte>, i: nat)
    requires i < |bytes|
    ensures Standard(bytes[i..])
            == if Escaped(bytes[i..]) then [EscapedByte(bytes[i..])] + Standard(bytes[i + 3..])
               else [bytes[i]] + Standard(bytes[i + 1..])
  {
    DropDrop(bytes, i, 1);
    if Escaped(bytes[i..]) {
      DropDrop(bytes, i, 3);
    }
  }

  /** What standard decoding makes of a percent sign that starts no escape and of the two bytes after it. */
  function Reread(bytes: seq<byte>): (r: (seq<byte>, nat))
    requires |bytes| >= 3
    ensures r.1 <= |bytes|
  {
    if Escaped(bytes[1..]) then ([PERCENT, EscapedByte(bytes[1..])], 4)
    else if Escaped(bytes[2..]) then ([PERCENT, bytes[1], EscapedByte(bytes[2..])], 5)
    else ([PERCENT, bytes[1], bytes[2]], 3)
  }

  lemma StandardAfterPercent(bytes: seq<byte>)
    requires |bytes| >= 3 && bytes[0] == PERCENT && !Escaped(bytes)
    ensures Standard(bytes) == Reread(bytes).0 + Standard(bytes[Reread(bytes).1..])
  {
    assert bytes[0..] == bytes;
    StandardNext(bytes, 0);
    StandardNext(bytes, 1);
    if Escaped(bytes[1..]) {
      Associative([PERCENT], [EscapedByte(bytes[1..])], Standard(bytes[4..]));
    } else {
      StandardNext(bytes, 2);
      var third := Reread(bytes).0[2];
      Three(PERCENT, bytes[1], third, Standard(bytes[Reread(bytes).1..]));
    }
  }

  lemma Three(a: byte, b: byte, c: byte, rest: seq<byte>)
    ensures [a] + ([b] + ([c] + rest)) == [a, b, c] + rest
  {
  }

  /** What the decoder makes of them up to the same place: the two bytes are gone. */
  function Skipped(bytes: seq<byte>): seq<byte>
    requires |bytes| >= 3
  {
    [PERCENT] + bytes[3..Reread(bytes).1]
  }

  lemma DecodeAfterPercent(bytes: seq<byte>)
    requires |bytes| >= 3 && bytes[0] == PERCENT && FromHexPair(bytes[1], bytes[2]).None?
    ensures DecodeBytes(bytes) == Skipped(bytes) + DecodeBytes(bytes[Reread(bytes).1..])
    ensures |Skipped(bytes)| <= |Reread(bytes).0|
  {
    var next := Reread(bytes).1;
    DecodeTail(bytes, 0, PERCENT, 3);
    assert bytes[0..] == bytes;
    assert forall i :: 3 <= i < next ==> bytes[i] != PERCENT;
    DecodePlain(bytes[3..next], bytes[next..]);
    assert bytes[3..] == bytes[3..next] + bytes[next..];
    Associative([PERCENT], bytes[3..next], DecodeBytes(bytes[next..]));
  }

  lemma DropDrop(s: seq<byte>, a: nat, b: nat)
    requires a + b <= |s|
    ensures s[a..][b..] == s[a + b..]
  {
  }

  /** The decoder never reads more than the standard does. */
  lemma {:induction false} DecodesNoMore(bytes: seq<byte>)
    ensures |DecodeBytes(bytes)| <= |Standard(bytes)|
    decreases |bytes|
  {
    if bytes == [] {
    } else if bytes[0] != PERCENT {
      DecodesNoMore(bytes[1..]);
    } else if |bytes| < 3 {
    } else {
      DecodesNoMore(bytes[3..]);
      if !Escaped(bytes) {
        StandardAfterPercent(bytes);
        if FromHexPair(bytes[1], bytes[2]).None? {
          DecodeAfterPercent(bytes);
          DecodesNoMore(bytes[Reread(bytes).1..]);
        }
      }
    }
  }

  /** The decoder is the standard one on exactly those texts. */
  lemma {:induction false} AgreesExactly(bytes: seq<byte>)
    ensures DecodeBytes(bytes) == Standard(bytes) <==> Agrees(bytes)
    decreases |bytes|
  {
    if bytes == [] {
    } else if bytes[0] != PERCENT {
      AgreesExactly(bytes[1..]);
      SameParts([bytes[0]], DecodeBytes(bytes[1..]), [bytes[0]], Standard(bytes[1..]));
    } else if Escaped(bytes) {
      AgreesExactly(bytes[3..]);
      SameParts([EscapedByte(bytes)], DecodeBytes(bytes[3..]), [EscapedByte(bytes)], Standard(bytes[3..]));
    } else if |bytes| < 3 {
      assert |bytes| == 1 ==> bytes[1..] == [];
    } else {
      AgreesAfterPercent(bytes);
    }
  }

  lemma AgreesAfterPercent(bytes: seq<byte>)
    requires |bytes| >= 3 && bytes[0] == PERCENT && !Escaped(bytes)
    ensures DecodeBytes(bytes) == Standard(bytes) <==> Agrees(bytes)
    decreases |bytes|, 0
  {
    StandardAfterPercent(bytes);
    if FromHexPair(bytes[1], bytes[2]).Some? {
      assert DecodeBytes(bytes)[0] == FromHexPair(bytes[1], bytes[2]).value < 16;
    } else {
      var next := Reread(bytes).1;
      DecodeAfterPercent(bytes);
      DecodesNoMore(bytes[next..]);
      if next > 3 {
        AgreesExactly(bytes[next..]);
        SameParts(Skipped(bytes), DecodeBytes(bytes[next..]), Reread(bytes).0, Standard(bytes[next..]));
      }
    }
  }

  lemma SameParts(head: seq<byte>, a: seq<byte>, head': seq<byte>, b: seq<byte>)
    requires |head| == |head'|
    ensures head + a == head' + b <==> head == head' && a == b
  {
    assert (head + a)[..|head|] == head && (head' + b)[..|head|] == head';
    assert (head + a)[|head|..] == a && (head' + b)[|head|..] == b;
  }

  /** On well-formed input the decoder is the standard one. */
  lemma {:induction false} DecodesWellEscaped(bytes: seq<byte>)
    requires WellEscaped(bytes)
    ensures DecodeBytes(bytes) == Standard(bytes)
  {
    if bytes != [] {
      DecodesWellEscaped(bytes[if bytes[0] == PERCENT then 3 else 1..]);
    }
  }

  /** On malformed input it is not: the text of `%zza` loses two characters, and `%+F` is accepted as one byte. */
  lemma MalformedEscapes()
    ensures DecodeBytes([PERCENT, 0x7A, 0x7A, 0x61]) == [PERCENT, 0x61]
    ensures Standard([PERCENT, 0x7A, 0x7A, 0x61]) == [PERCENT, 0x7A, 0x7A, 0x61]
    ensures DecodeBytes([PERCENT, 0x2B, 0x46]) == [0x0F]
    ensures Standard([PERCENT, 0x2B, 0x46]) == [PERCENT, 0x2B, 0x46]
  {
    var zza := [PERCENT, 0x7A, 0x7A, 0x61];
    assert zza[3..] == [0x61] && [0x61][1..] == [];
    StandardKeeps(zza);
    StandardKeeps([PERCENT, 0x2B, 0x46]);
  }

  lemma {:induction false} StandardKeeps(bytes: seq<byte>)
    requires forall i :: 0 <= i < |bytes| - 2 && bytes[i] == PERCENT ==> HexValue(bytes[i + 1]).None?
    ensures Standard(bytes) == bytes
  {
    if bytes != [] {
      StandardKeeps(bytes[1..]);
    }
  }
}
