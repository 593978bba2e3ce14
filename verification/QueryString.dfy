/** Query parameters: the form parser, and the canonical query string both halves of SigV4 build. */
module QueryString {
  import opened Basics
  import opened Sorting
  import PercentCodec
  import Text
  import Utf8

  type Param = (string, string)
  type Params = seq<Param>

  /** `form_urlencoded` decoding of a name or a value: plus signs are blanks, escapes are decoded. */
  function FormDecode(s: string): string {
    Utf8.DecodeLossy(PercentCodec.Standard(Utf8.Encode(PlusToSpace(s))))
  }

  function PlusToSpace(s: string): (t: string)
    ensures '+' !in s ==> t == s
  {
    if s == [] then [] else [if s[0] == '+' then ' ' else s[0]] + PlusToSpace(s[1..])
  }

  function ParamOf(piece: string): Param {
    var kv := Text.SplitOnce(piece, '=');
    (FormDecode(kv[0]), if |kv| == 2 then FormDecode(kv[1]) else [])
  }

  function ParsePieces(pieces: seq<string>): Params {
    if pieces == [] then []
    else if pieces[0] == [] then ParsePieces(pieces[1..])
    else [ParamOf(pieces[0])] + ParsePieces(pieces[1..])
  }

  /** `form_urlencoded::parse`: pieces between ampersands, empty ones skipped. */
  function Parse(query: string): Params {
    ParsePieces(Text.Split(query, '&'))
  }

  predicate ByName(a: Param, b: Param) {
    StringLe(a.0, b.0)
  }

  function Sorted(ps: Params): Params {
    Sort(ps, ByName)
  }

  function Pair(p: Param): (s: string)
    ensures s != []
  {
    PercentCodec.PercentEncode(p.0) + ['='] + PercentCodec.PercentEncode(p.1)
  }

  function Pairs(ps: Params): (r: seq<string>)
    ensures |r| == |ps|
    ensures forall i :: 0 <= i < |ps| ==> r[i] == Pair(ps[i])
  {
    if ps == [] then [] else [Pair(ps[0])] + Pairs(ps[1..])
  }

  /** Sorted by name, stably; percent-encoded; joined by ampersands. */
  function Canonical(ps: Params): string {
    Text.Join(Pairs(Sorted(ps)), '&')
  }

  // --- the canonical form determines the parameters ---

  lemma {:induction false} StandardOfEncoded(bytes: seq<byte>)
    ensures PercentCodec.Standard(Utf8.Encode(PercentCodec.EncodeBytes(bytes))) == bytes
  {
    if bytes != [] {
      StandardOfEncoded(bytes[1..]);
      StandardOne(bytes[0], PercentCodec.EncodeBytes(bytes[1..]));
      assert bytes == [bytes[0]] + bytes[1..];
    }
  }

  lemma StandardOne(b: byte, rest: string)
    ensures PercentCodec.Standard(Utf8.Encode(PercentCodec.EncodeByte(b) + rest))
            == [b] + PercentCodec.Standard(Utf8.Encode(rest))
  {
    var printed := PercentCodec.EncodeByte(b);
    Utf8.EncodeAppend(printed, rest);
    PercentCodec.AsciiEncode(printed);
    var bytes := Utf8.Encode(printed + rest);
    if PercentCodec.Unreserved(b) {
      assert bytes == [b] + Utf8.Encode(rest);
      assert bytes[1..] == Utf8.Encode(rest);
    } else {
      var h, l := PercentCodec.HexDigit(b / 16) as int, PercentCodec.HexDigit(b % 16) as int;
      assert bytes == [PercentCodec.PERCENT, h, l] + Utf8.Encode(rest);
      assert bytes[3..] == Utf8.Encode(rest);
    }
  }

  lemma FormDecodeEncoded(s: string)
    ensures FormDecode(PercentCodec.PercentEncode(s)) == s
  {
    PercentCodec.NoSeparators(s);
    StandardOfEncoded(Utf8.Encode(s));
    Utf8.DecodeEncode(s);
  }

  lemma ParamOfPair(p: Param)
    ensures ParamOf(Pair(p)) == p
    ensures '&' !in Pair(p)
  {
    PercentCodec.NoSeparators(p.0);
    PercentCodec.NoSeparators(p.1);
    Text.SplitHead(PercentCodec.PercentEncode(p.0), '=', PercentCodec.PercentEncode(p.1));
    FormDecodeEncoded(p.0);
    FormDecodeEncoded(p.1);
  }

  lemma {:induction false} ParsePairs(ps: Params)
    ensures ParsePieces(Pairs(ps)) == ps
  {
    if ps != [] {
      ParamOfPair(ps[0]);
      ParsePairs(ps[1..]);
      var rest := Pairs(ps[1..]);
      assert ([Pair(ps[0])] + rest)[1..] == rest;
      assert ps == [ps[0]] + ps[1..];
    }
  }

  lemma PairsSeparate(ps: Params)
    ensures forall s :: s in Pairs(ps) ==> '&' !in s
  {
    forall i | 0 <= i < |ps|
      ensures '&' !in Pairs(ps)[i]
    {
      ParamOfPair(ps[i]);
    }
  }

  lemma ParseJoined(ps: Params)
    ensures Parse(Text.Join(Pairs(ps), '&')) == ps
  {
    ParsePairs(ps);
    PairsSeparate(ps);
    if ps == [] {
      var blank: seq<string> := [[]];
      assert Text.Split([], '&') == blank && blank[1..] == [];
    } else {
      Text.SplitJoin(Pairs(ps), '&');
    }
  }

  /** Parsing the canonical string gives the parameters back in canonical order. */
  lemma ParseCanonical(ps: Params)
    ensures Parse(Canonical(ps)) == Sorted(ps)
  {
    ParseJoined(Sorted(ps));
  }

  lemma ByNamePreorder()
    ensures Preorder(ByName)
  {
    forall a: Param, b: Param
      ensures ByName(a, b) || ByName(b, a)
    {
      StringLeTotal(a.0, b.0);
    }
    forall a: Param, b: Param, c: Param | ByName(a, b) && ByName(b, c)
      ensures ByName(a, c)
    {
      StringLeTransitive(a.0, b.0, c.0);
    }
  }

  /** Sorting what is sorted changes nothing. */
  lemma {:induction false} SortedFixed(ps: Params)
    requires Sorting.Sorted(ps, ByName)
    ensures Sorted(ps) == ps
  {
    if ps != [] {
      TailSorted(ps, ByName);
      SortedFixed(ps[1..]);
      assert |ps| > 1 ==> ByName(ps[0], ps[1]);
      assert ps == [ps[0]] + ps[1..];
    }
  }

  /** The canonical string is a normal form: making it canonical again changes nothing. */
  lemma CanonicalIdempotent(ps: Params)
    ensures Canonical(Parse(Canonical(ps))) == Canonical(ps)
  {
    ParseCanonical(ps);
    ByNamePreorder();
    SortSorts(ps, ByName);
    SortedFixed(Sorted(ps));
  }

  /** Two parameter lists have the same canonical string exactly when they agree once sorted by name. */
  lemma CanonicalAgrees(a: Params, b: Params)
    ensures Canonical(a) == Canonical(b) <==> Sorted(a) == Sorted(b)
  {
    ParseCanonical(a);
    ParseCanonical(b);
  }

  ghost predicate DistinctNames(ps: Params) {
    forall p, q :: p in ps && q in ps && p.0 == q.0 ==> p == q
  }

  /**
   * With distinct names the canonical string is the same for every order of the same parameters, and different for
   * different parameters.
   */
  lemma CanonicalNormalForm(a: Params, b: Params)
    requires DistinctNames(a)
    ensures Canonical(a) == Canonical(b) <==> multiset(a) == multiset(b)
  {
    CanonicalAgrees(a, b);
    ByNamePreorder();
    if multiset(a) == multiset(b) {
      forall p, q | p in a && q in a && ByName(p, q) && ByName(q, p)
        ensures p == q
      {
        StringLeTotal(p.0, q.0);
      }
      SortIgnoresOrder(a, b, ByName);
    } else {
      SortSorts(a, ByName);
      SortSorts(b, ByName);
    }
  }

  /** The canonical order: names ascend, and parameters of one name keep the order they were given in. */
  lemma CanonicalOrder(ps: Params, name: string)
    ensures multiset(Sorted(ps)) == multiset(ps)
    ensures forall i, j :: 0 <= i < j < |Sorted(ps)| ==> Precedes(Sorted(ps)[i].0, Sorted(ps)[j].0)
    ensures Filter(Sorted(ps), (p: Param) => p.0 == name) == Filter(ps, (p: Param) => p.0 == name)
  {
    ByNamePreorder();
    SortSorts(ps, ByName);
    StringLeTotal(name, name);
    SortStable(ps, ByName, (p: Param) => p.0 == name);
    forall i, j | 0 <= i < j < |Sorted(ps)|
      ensures Precedes(Sorted(ps)[i].0, Sorted(ps)[j].0)
    {
      assert ByName(Sorted(ps)[i], Sorted(ps)[j]);
      StringLeExactly(Sorted(ps)[i].0, Sorted(ps)[j].0);
    }
  }

  // --- decoding ---

  lemma {:induction false} PlusSplits(a: string, b: string)
    ensures PlusToSpace(a + ['+'] + b) == PlusToSpace(a) + [' '] + PlusToSpace(b)
  {
    if a == [] {
      assert (a + ['+'] + b)[1..] == b;
    } else {
      assert (a + ['+'] + b)[1..] == a[1..] + ['+'] + b;
      PlusSplits(a[1..], b);
    }
  }

  /** A blank is never part of an escape. */
  lemma {:induction false} StandardBlank(a: seq<byte>, b: seq<byte>)
    ensures PercentCodec.Standard(a + [0x20] + b) == PercentCodec.Standard(a) + [0x20] + PercentCodec.Standard(b)
    decreases |a|
  {
    if a == [] {
      assert (a + [0x20] + b)[1..] == b;
    } else {
      var next := if PercentCodec.Escaped(a) then 3 else 1;
      var first := if PercentCodec.Escaped(a) then PercentCodec.EscapedByte(a) else a[0];
      var rest, rest' := PercentCodec.Standard(a[next..]), PercentCodec.Standard(b);
      BlankLater(a, b, next);
      StandardBlank(a[next..], b);
      Associative([first], rest + [0x20], rest');
      Associative([first], rest, [0x20]);
    }
  }

  /** What follows does not change how the text before the blank starts. */
  lemma BlankLater(a: seq<byte>, b: seq<byte>, next: nat)
    requires a != [] && next == if PercentCodec.Escaped(a) then 3 else 1
    ensures var first := if PercentCodec.Escaped(a) then PercentCodec.EscapedByte(a) else a[0];
            && PercentCodec.Standard(a + [0x20] + b) == [first] + PercentCodec.Standard(a[next..] + [0x20] + b)
            && PercentCodec.Standard(a) == [first] + PercentCodec.Standard(a[next..])
  {
    var all := a + [0x20] + b;
    assert all[next..] == a[next..] + [0x20] + b;
    BlankNoEscape(a, all);
  }

  lemma BlankNoEscape(a: seq<byte>, all: seq<byte>)
    requires a != [] && |a| < |all| && a == all[..|a|] && all[|a|] == 0x20
    ensures PercentCodec.Escaped(all) <==> PercentCodec.Escaped(a)
    ensures PercentCodec.Escaped(a) ==> PercentCodec.EscapedByte(all) == PercentCodec.EscapedByte(a)
  {
    assert forall i :: 0 <= i < |a| ==> all[i] == a[i];
  }

  /** A plus sign in a query is a blank; the text before and after it is decoded on its own. */
  lemma PlusIsBlank(a: string, b: string)
    ensures FormDecode(a + ['+'] + b) == FormDecode(a) + [' '] + FormDecode(b)
  {
    PlusSplits(a, b);
    BlankDecoded(PlusToSpace(a), PlusToSpace(b));
  }

  function Decoded(s: string): string {
    Utf8.DecodeLossy(PercentCodec.Standard(Utf8.Encode(s)))
  }

  lemma BlankDecoded(x: string, y: string)
    ensures Decoded(x + [' '] + y) == Decoded(x) + [' '] + Decoded(y)
  {
    BlankBytes(x, y);
    StandardBlank(Utf8.Encode(x), Utf8.Encode(y));
    Utf8.LossyAscii(PercentCodec.Standard(Utf8.Encode(x)), 0x20, PercentCodec.Standard(Utf8.Encode(y)));
  }

  lemma BlankBytes(x: string, y: string)
    ensures Utf8.Encode(x + [' '] + y) == Utf8.Encode(x) + [0x20] + Utf8.Encode(y)
  {
    Utf8.EncodeAppend(x + [' '], y);
    Utf8.EncodeAppend(x, [' ']);
    assert [' '][1..] == [];
    assert Utf8.Encode([' ']) == [0x20];
  }

  // --- parsing ---

  lemma {:induction false} PiecesAppend(a: seq<string>, b: seq<string>)
    ensures ParsePieces(a + b) == ParsePieces(a) + ParsePieces(b)
  {
    if a == [] {
      assert a + b == b;
    } else {
      assert (a + b)[1..] == a[1..] + b;
      PiecesAppend(a[1..], b);
    }
  }

  lemma {:induction false} SplitAppend(a: string, b: string)
    ensures Text.Split(a + ['&'] + b, '&') == Text.Split(a, '&') + Text.Split(b, '&')
    decreases |a|
  {
    if '&' !in a {
      Text.SplitHead(a, '&', b);
      NoSeparator(a);
    } else {
      var head, rest := AtSeparator(a, b);
      SplitAppend(rest, b);
      Associative([head], Text.Split(rest, '&'), Text.Split(b, '&'));
    }
  }

  lemma NoSeparator(a: string)
    requires '&' !in a
    ensures Text.Split(a, '&') == [a]
  {
    Text.IndexOfAbsent(a, '&');
    assert a[..|a|] == a;
  }

  /** The first separator, with and without more text behind. */
  lemma AtSeparator(a: string, b: string) returns (head: string, rest: string)
    requires '&' in a
    ensures |rest| < |a|
    ensures Text.Split(a, '&') == [head] + Text.Split(rest, '&')
    ensures Text.Split(a + ['&'] + b, '&') == [head] + Text.Split(rest + ['&'] + b, '&')
  {
    var i := Text.IndexOf(a, '&');
    assert i < |a| by {
      assert a[..|a|] == a;
    }
    head, rest := a[..i], a[i + 1..];
    SplitFirst(a, head, rest, b);
  }

  lemma SplitFirst(a: string, head: string, rest: string, b: string)
    requires a == head + ['&'] + rest && '&' !in head
    ensures Text.Split(a, '&') == [head] + Text.Split(rest, '&')
    ensures Text.Split(a + ['&'] + b, '&') == [head] + Text.Split(rest + ['&'] + b, '&')
  {
    Associative(head + ['&'], rest, ['&']);
    Associative(head + ['&'], rest + ['&'], b);
    Text.SplitHead(head, '&', rest + ['&'] + b);
    Text.SplitHead(head, '&', rest);
  }

  /** Parameters are separated by ampersands. */
  lemma ParseAppend(a: string, b: string)
    ensures Parse(a + ['&'] + b) == Parse(a) + Parse(b)
  {
    SplitAppend(a, b);
    PiecesAppend(Text.Split(a, '&'), Text.Split(b, '&'));
  }

  /** A piece is cut at its first equals sign; without one its value is empty; an empty piece is no parameter. */
  lemma ParsePiece(name: string, value: string)
    requires '&' !in name && '&' !in value && '=' !in name
    ensures Parse([]) == []
    ensures Parse(name + ['='] + value) == [(FormDecode(name), FormDecode(value))]
    ensures name != [] ==> Parse(name) == [(FormDecode(name), [])]
  {
    OnePiece([]);
    OnePiece(name);
    OnePiece(name + ['='] + value);
    Text.SplitHead(name, '=', value);
    Bare(name);
  }

  /** A piece without an equals sign is a name. */
  lemma Bare(piece: string)
    requires '=' !in piece
    ensures ParamOf(piece) == (FormDecode(piece), [])
  {
    Text.IndexOfAbsent(piece, '=');
    assert piece[..|piece|] == piece;
    assert Text.SplitOnce(piece, '=') == [piece];
  }

  lemma OnePiece(s: string)
    requires '&' !in s
    ensures Parse(s) == if s == [] then [] else [ParamOf(s)]
  {
    var pieces, none: seq<string> := [s], [];
    NoSeparator(s);
    assert pieces[1..] == none && ParsePieces(none) == [];
    assert [ParamOf(s)] + [] == [ParamOf(s)];
  }
}
