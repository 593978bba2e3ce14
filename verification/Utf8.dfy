/** UTF-8: the encoder, and the lossy decoder that replaces each maximal ill-formed part by U+FFFD. */
module Utf8 {
  import opened Basics

  function EncodeChar(c: char): (bytes: seq<byte>)
    ensures 1 <= |bytes| <= 4
  {
    var n := c as int;
    if n < 0x80 then [n]
    else if n < 0x800 then [0xC0 + n / 0x40, 0x80 + n % 0x40]
    else if n < 0x1_0000 then [0xE0 + n / 0x1000, 0x80 + n / 0x40 % 0x40, 0x80 + n % 0x40]
    else [0xF0 + n / 0x4_0000, 0x80 + n / 0x1000 % 0x40, 0x80 + n / 0x40 % 0x40, 0x80 + n % 0x40]
  }

  function Encode(s: string): seq<byte> {
    if s == [] then [] else EncodeChar(s[0]) + Encode(s[1..])
  }

  predicate Continuation(b: byte) {
    0x80 <= b <= 0xBF
  }

  /** May `b` follow the lead byte `lead` of a three- or four-byte character? */
  predicate SecondByte(lead: byte, b: byte) {
    if lead == 0xE0 then 0xA0 <= b <= 0xBF
    else if lead == 0xED then 0x80 <= b <= 0x9F
    else if lead == 0xF0 then 0x90 <= b <= 0xBF
    else if lead == 0xF4 then 0x80 <= b <= 0x8F
    else Continuation(b)
  }

  datatype Scanned = Good(c: char, width: nat) | Bad(width: nat)

  /** A missing byte reads as zero, which never continues a character. */
  function At(bytes: seq<byte>, i: nat): byte {
    if i < |bytes| then bytes[i] else 0
  }

  /** The first character of a non-empty byte string, or the length of the ill-formed part it starts with. */
  function Scan(bytes: seq<byte>): (r: Scanned)
    requires bytes != []
    ensures 1 <= r.width <= |bytes|
  {
    var b0, b1, b2, b3 := At(bytes, 0), At(bytes, 1), At(bytes, 2), At(bytes, 3);
    if b0 < 0x80 then Good(b0 as char, 1)
    else if 0xC2 <= b0 <= 0xDF then
      if Continuation(b1) then Good(((b0 - 0xC0) * 0x40 + (b1 - 0x80)) as char, 2) else Bad(1)
    else if 0xE0 <= b0 <= 0xEF then
      if !SecondByte(b0, b1) then Bad(1)
      else if !Continuation(b2) then Bad(2)
      else Good(((b0 - 0xE0) * 0x1000 + (b1 - 0x80) * 0x40 + (b2 - 0x80)) as char, 3)
    else if 0xF0 <= b0 <= 0xF4 then
      if !SecondByte(b0, b1) then Bad(1)
      else if !Continuation(b2) then Bad(2)
      else if !Continuation(b3) then Bad(3)
      else Good(((b0 - 0xF0) * 0x4_0000 + (b1 - 0x80) * 0x1000 + (b2 - 0x80) * 0x40 + (b3 - 0x80)) as char, 4)
    else Bad(1)
  }

  /** `String::from_utf8_lossy`. */
  function DecodeLossy(bytes: seq<byte>): string
    decreases |bytes|
  {
    if bytes == [] then []
    else
      match Scan(bytes)
      case Good(c, width) => [c] + DecodeLossy(bytes[width..])
      case Bad(width) => ['\U{FFFD}'] + DecodeLossy(bytes[width..])
  }

  /** The six-bit groups of a number. */
  lemma Groups(n: nat)
    ensures n == n / 0x40 * 0x40 + n % 0x40
    ensures n / 0x40 == n / 0x1000 * 0x40 + n / 0x40 % 0x40
    ensures n / 0x1000 == n / 0x4_0000 * 0x40 + n / 0x1000 % 0x40
  {
  }

  lemma ScanTwo(n: nat, bytes: seq<byte>)
    requires 0x80 <= n < 0x800 && |bytes| >= 2
    requires bytes[0] == 0xC0 + n / 0x40 && bytes[1] == 0x80 + n % 0x40
    ensures Scan(bytes) == Good(n as char, 2)
  {
    Groups(n);
  }

  lemma ScanThree(n: nat, bytes: seq<byte>)
    requires 0x800 <= n < 0xD800 || 0xE000 <= n < 0x1_0000
    requires |bytes| >= 3 && bytes[0] == 0xE0 + n / 0x1000
    requires bytes[1] == 0x80 + n / 0x40 % 0x40 && bytes[2] == 0x80 + n % 0x40
    ensures Scan(bytes) == Good(n as char, 3)
  {
    Groups(n);
  }

  lemma ScanFour(n: nat, bytes: seq<byte>)
    requires 0x1_0000 <= n < 0x11_0000 && |bytes| >= 4
    requires bytes[0] == 0xF0 + n / 0x4_0000 && bytes[1] == 0x80 + n / 0x1000 % 0x40
    requires bytes[2] == 0x80 + n / 0x40 % 0x40 && bytes[3] == 0x80 + n % 0x40
    ensures Scan(bytes) == Good(n as char, 4)
  {
    Groups(n);
  }

  /** A printed character is scanned back, whatever follows it. */
  lemma ScanEncoded(c: char, rest: seq<byte>)
    ensures Scan(EncodeChar(c) + rest) == Good(c, |EncodeChar(c)|)
  {
    var n := c as int;
    var all := EncodeChar(c) + rest;
    if n < 0x80 {
      assert all[0] == n;
    } else if n < 0x800 {
      ScanTwo(n, all);
    } else if n < 0x1_0000 {
      ScanThree(n, all);
    } else {
      ScanFour(n, all);
    }
  }

  lemma {:induction false} DecodeEncode(s: string)
    ensures DecodeLossy(Encode(s)) == s
  {
    if s != [] {
      DecodeEncode(s[1..]);
      ScanEncoded(s[0], Encode(s[1..]));
      assert (EncodeChar(s[0]) + Encode(s[1..]))[|EncodeChar(s[0])|..] == Encode(s[1..]);
    }
  }

  lemma {:induction false} EncodeAppend(a: string, b: string)
    ensures Encode(a + b) == Encode(a) + Encode(b)
  {
    if a == [] {
      assert a + b == b;
    } else {
      assert (a + b)[1..] == a[1..] + b;
      EncodeAppend(a[1..], b);
    }
  }

  /** An ASCII character occurs among the bytes exactly when it occurs in the text. */
  lemma {:induction false} AsciiBytes(s: string, c: char)
    requires c as int < 0x80
    ensures c as int in Encode(s) <==> c in s
  {
    if s != [] {
      AsciiBytes(s[1..], c);
      assert s == [s[0]] + s[1..];
      AsciiChar(s[0], c);
    }
  }

  lemma AsciiChar(d: char, c: char)
    requires c as int < 0x80
    ensures c as int in EncodeChar(d) <==> c == d
  {
  }

  // --- decoding other bytes ---

  /** An ASCII byte is never part of another character: text before and after it is decoded on its own. */
  lemma {:induction false} LossyAscii(a: seq<byte>, c: byte, b: seq<byte>)
    requires c < 0x80
    ensures DecodeLossy(a + [c] + b) == DecodeLossy(a) + [c as char] + DecodeLossy(b)
    decreases |a|
  {
    var all := a + [c] + b;
    if a == [] {
      assert all[1..] == b;
    } else {
      var width := Scan(a).width;
      ScanBefore(a, c, b);
      LossyAscii(a[width..], c, b);
      assert all[width..] == a[width..] + [c] + b;
    }
  }

  lemma ScanBefore(a: seq<byte>, c: byte, b: seq<byte>)
    requires a != [] && c < 0x80
    ensures Scan(a + [c] + b) == Scan(a)
  {
    var all := a + [c] + b;
    assert forall i: nat :: i < |a| ==> At(all, i) == At(a, i);
    assert At(all, |a|) == c;
  }

  /** Decoding yields at most one character per byte. */
  lemma {:induction false} LossyShort(bytes: seq<byte>)
    ensures |DecodeLossy(bytes)| <= |bytes|
    decreases |bytes|
  {
    if bytes != [] {
      LossyShort(bytes[Scan(bytes).width..]);
    }
  }
}
