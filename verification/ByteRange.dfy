/** The Range header: the proxy's parser, and the meaning RFC 9110 gives to a single byte range. */
module ByteRange {
  import opened Basics
  import opened Decimal
  import Text

  const PREFIX := "bytes="

  /** 64-bit addition as compiled without overflow checks. */
  function WrappingAdd(a: u64, b: u64): u64 {
    (a + b) % TWO_TO_THE_64
  }

  lemma Increment(n: u64)
    ensures WrappingAdd(n, 1) == if n == TWO_TO_THE_64 - 1 then 0 else n + 1
  {
  }

  function SaturatingSub(a: nat, b: nat): nat {
    if a < b then 0 else a - b
  }

  /** The two sides of the dash, blanks removed. */
  function ParseBounds(first: string, last: string, size: u64): (r: Option<(u64, u64)>)
    ensures r.Some? ==> r.value.0 <= r.value.1 <= size
  {
    if first == [] && last == [] then None
    else if first == [] then
      match ParseU64(last)
      case None => None
      case Some(num) => Some((SaturatingSub(size, num), size))
    else if last == [] then
      match ParseU64(first)
      case None => None
      case Some(start) => if start >= size then Some((size, size)) else Some((start, size))
    else
      match (ParseU64(first), ParseU64(last))
      case (Some(start), Some(endIncl)) =>
        var end := Min(WrappingAdd(endIncl, 1), size);
        if start > end then None else Some((start, end))
      case _ => None
  }

  /** `parse_range`: the half-open byte window, or None when the header is ignored. */
  function ParseRange(header: string, size: u64): (r: Option<(u64, u64)>)
    ensures r.Some? ==> r.value.0 <= r.value.1 <= size
  {
    if !(PREFIX <= header) then None
    else
      var parts := Text.Split(header[|PREFIX|..], '-');
      if |parts| != 2 then None
      else ParseBounds(Text.Trim(parts[0]), Text.Trim(parts[1]), size)
  }

  /** The window a GET serves, and whether it answers 206. */
  function Window(range: Option<string>, size: u64): (w: (u64, u64, bool))
    ensures w.0 <= w.1 <= size
    ensures !w.2 ==> w.0 == 0 && w.1 == size
  {
    match range
    case None => (0, size, false)
    case Some(header) =>
      match ParseRange(header, size)
      case None => (0, size, false)
      case Some((start, end)) => (start, end, true)
  }

  /** A byte-range specifier of section 14.1.2 of RFC 9110. */
  datatype Spec =
    | FirstLast(first: nat, last: nat)
    | From(first: nat)
    | Suffix(count: nat)
  {
    /** Syntactically valid: a closed range does not end before it starts. */
    predicate Valid() {
      FirstLast? ==> first <= last
    }

    predicate Satisfiable(size: nat) {
      match this
      case FirstLast(first, last) => first <= last && first < size
      case From(first) => first < size
      case Suffix(count) => count > 0 && size > 0
    }

    /** Position `i` of a representation of `size` bytes is selected. */
    predicate Selects(size: nat, i: nat) {
      && i < size
      && match this
         case FirstLast(first, last) => first <= i <= last
         case From(first) => first <= i
         case Suffix(count) => size - count <= i
    }

    predicate FitsU64() {
      match this
      case FirstLast(first, last) => first < TWO_TO_THE_64 && last < TWO_TO_THE_64
      case From(first) => first < TWO_TO_THE_64
      case Suffix(count) => count < TWO_TO_THE_64
    }

    /** The first and last position as written, in digits; leading zeros are allowed. */
    predicate WrittenAs(a: string, b: string) {
      match this
      case FirstLast(first, last) => Numeral(a, first) && Numeral(b, last)
      case From(first) => Numeral(a, first) && b == []
      case Suffix(count) => a == [] && Numeral(b, count)
    }
  }

  /** The same with what the parser tolerates: a plus sign before each number. */
  predicate WrittenLoosely(spec: Spec, a: string, b: string) {
    match spec
    case FirstLast(first, last) => LooseNumeral(a, first) && LooseNumeral(b, last)
    case From(first) => LooseNumeral(a, first) && b == []
    case Suffix(count) => a == [] && LooseNumeral(b, count)
  }

  predicate LooseNumeral(s: string, n: nat) {
    Numeral(s, n) || (s != [] && s[0] == '+' && Numeral(s[1..], n))
  }

  /** One or more digits of value `n`. */
  predicate Numeral(s: string, n: nat) {
    s != [] && Value(s) == Some(n)
  }

  function Header(a: string, b: string): string {
    PREFIX + (a + ['-'] + b)
  }

  /** The header asks for `spec`. */
  ghost predicate Spells(header: string, spec: Spec) {
    exists a, b :: spec.WrittenAs(a, b) && header == Header(a, b)
  }

  lemma {:induction false} DigitsOnly(s: string)
    requires Value(s).Some?
    ensures forall c :: c in s ==> IsDigit(c)
  {
    if s != [] {
      DigitsOnly(s[..|s| - 1]);
      assert s == s[..|s| - 1] + [s[|s| - 1]];
    }
  }

  /** A numeral is read as its value, or not at all if that needs more than 64 bits. */
  lemma NumeralParsed(s: string, n: nat)
    requires Numeral(s, n)
    ensures Text.Trim(s) == s && '-' !in s
    ensures ParseU64(s) == if n < TWO_TO_THE_64 then Some(n) else None
  {
    DigitsOnly(s);
    assert s[0] in s && s[|s| - 1] in s;
    Text.TrimKeeps(s);
  }

  lemma SplitAtDash(a: string, b: string)
    requires '-' !in a && '-' !in b
    ensures Text.Split(a + ['-'] + b, '-') == [a, b]
  {
    Text.SplitHead(a, '-', b);
    Text.IndexOfAbsent(b, '-');
  }

  /** The answer to a specifier, satisfiable or not. */
  function Answer(spec: Spec, size: u64): Option<(u64, u64)> {
    if !spec.FitsU64() then None
    else
      match spec
      case FirstLast(first, last) =>
        var end := Min(WrappingAdd(last, 1), size);
        if first > end then None else Some((first, end))
      case From(first) => Some((Min(first, size), size))
      case Suffix(count) => Some((SaturatingSub(size, count), size))
  }

  lemma ParseSplit(a: string, b: string, size: u64)
    requires '-' !in a && '-' !in b && Text.Trim(a) == a && Text.Trim(b) == b
    ensures ParseRange(Header(a, b), size) == ParseBounds(a, b, size)
  {
    SplitAtDash(a, b);
    assert Header(a, b)[|PREFIX|..] == a + ['-'] + b;
  }

  /** Numerals hold neither blanks nor dashes. */
  lemma WrittenClean(spec: Spec, a: string, b: string)
    requires spec.WrittenAs(a, b)
    ensures '-' !in a && '-' !in b && Text.Trim(a) == a && Text.Trim(b) == b
  {
    match spec {
      case FirstLast(first, last) =>
        NumeralParsed(a, first);
        NumeralParsed(b, last);
      case From(first) => NumeralParsed(a, first);
      case Suffix(count) => NumeralParsed(b, count);
    }
  }

  lemma ParseWritten(spec: Spec, a: string, b: string, size: u64)
    requires spec.WrittenAs(a, b)
    ensures ParseRange(Header(a, b), size) == Answer(spec, size)
  {
    WrittenClean(spec, a, b);
    ParseSplit(a, b, size);
    BoundsAnswer(spec, a, b, size);
  }

  lemma ParseSpelled(header: string, spec: Spec, size: u64)
    requires Spells(header, spec)
    ensures ParseRange(header, size) == Answer(spec, size)
  {
    var a, b :| spec.WrittenAs(a, b) && header == Header(a, b);
    ParseWritten(spec, a, b, size);
  }

  /** Every specifier has a header, the one with the shortest numerals. */
  lemma Spellable(spec: Spec)
    ensures exists header :: Spells(header, spec)
  {
    var a := match spec case FirstLast(first, _) => Print(first) case From(first) => Print(first) case Suffix(_) => [];
    var b := match spec case FirstLast(_, last) => Print(last) case From(_) => [] case Suffix(count) => Print(count);
    match spec {
      case FirstLast(first, last) =>
        ValueOfPrint(first);
        ValueOfPrint(last);
      case From(first) => ValueOfPrint(first);
      case Suffix(count) => ValueOfPrint(count);
    }
    assert Spells(Header(a, b), spec);
  }

  /** The window holds exactly the positions the specifier selects. */
  ghost predicate Exact(window: Option<(u64, u64)>, spec: Spec, size: u64) {
    window.Some? && forall i: nat :: spec.Selects(size, i) <==> window.value.0 <= i < window.value.1
  }

  /** The last position is the largest 64-bit number, so that the increment wraps to zero. */
  predicate Wraps(spec: Spec) {
    spec.FirstLast? && spec.last == TWO_TO_THE_64 - 1
  }

  lemma AnswerExact(spec: Spec, size: u64)
    requires spec.Satisfiable(size)
    ensures Exact(Answer(spec, size), spec, size) <==> spec.FitsU64() && !Wraps(spec)
  {
    if spec.FitsU64() && spec.FirstLast? {
      Increment(spec.last);
    }
    if spec.FitsU64() && Wraps(spec) {
      assert spec.Selects(size, spec.first);
    }
  }

  /**
   * On every satisfiable specifier, however its numbers are padded, the parser agrees with RFC 9110 exactly when the
   * numbers fit 64 bits and the last position is not 2^64 - 1.
   */
  lemma SatisfiableRangesAgree(header: string, spec: Spec, size: u64)
    requires Spells(header, spec) && spec.Satisfiable(size)
    ensures Exact(ParseRange(header, size), spec, size) <==> spec.FitsU64() && !Wraps(spec)
  {
    ParseSpelled(header, spec, size);
    AnswerExact(spec, size);
  }

  /** A valid specifier that selects nothing and is not even answered with the empty window at the end. */
  predicate Overshoots(spec: Spec, size: u64) {
    || !spec.FitsU64()
    || (spec.FirstLast? && spec.first > size)
    || (Wraps(spec) && spec.first > 0)
  }

  /**
   * A valid specifier that selects nothing is never refused: the whole object is served when a closed range starts
   * beyond the end or wraps, or when a number does not fit 64 bits, and an empty 206 in every other case.
   */
  lemma UnsatisfiableRanges(header: string, spec: Spec, size: u64)
    requires Spells(header, spec) && spec.Valid() && !spec.Satisfiable(size)
    ensures ParseRange(header, size) == if Overshoots(spec, size) then None else Some((size, size))
  {
    ParseSpelled(header, spec, size);
    if spec.FitsU64() && spec.FirstLast? {
      Increment(spec.last);
    }
  }

  /**
   * A closed range that ends before it starts is invalid. It is ignored, as it must be, except when it ends one
   * position before a start inside the object: that one is answered with an empty 206.
   */
  lemma InvalidRanges(header: string, spec: Spec, size: u64)
    requires Spells(header, spec) && !spec.Valid()
    ensures ParseRange(header, size).None? <==> !(spec.first == spec.last + 1 && spec.first <= size)
    ensures ParseRange(header, size).Some? ==> ParseRange(header, size) == Some((spec.first, spec.first))
  {
    ParseSpelled(header, spec, size);
    if spec.FitsU64() && spec.FirstLast? {
      Increment(spec.last);
    }
  }

  // --- every other header ---

  /** The header asks for `spec`, give or take blanks around the numbers and plus signs before them. */
  ghost predicate Accepts(header: string, spec: Spec) {
    exists a, b :: '-' !in a && '-' !in b && header == Header(a, b) && WrittenLoosely(spec, Text.Trim(a), Text.Trim(b))
  }

  lemma LooseParsed(s: string, n: nat)
    requires LooseNumeral(s, n)
    ensures s != [] && ParseU64(s) == if n < TWO_TO_THE_64 then Some(n) else None
  {
    if Numeral(s, n) {
      NumeralParsed(s, n);
      DigitsOnly(s);
      assert s[0] in s;
    } else {
      NumeralParsed(s[1..], n);
    }
  }

  /** What is parsed is a numeral. */
  lemma ParsedLoose(s: string)
    requires ParseU64(s).Some?
    ensures LooseNumeral(s, ParseU64(s).value)
  {
  }

  lemma SplitAtOneDash(header: string, a: string, b: string, size: u64)
    requires '-' !in a && '-' !in b && header == Header(a, b)
    ensures ParseRange(header, size) == ParseBounds(Text.Trim(a), Text.Trim(b), size)
  {
    SplitAtDash(a, b);
    assert header[|PREFIX|..] == a + ['-'] + b;
  }

  /** A header that asks for a specifier gets its answer. */
  lemma AcceptedAnswer(header: string, spec: Spec, size: u64)
    requires Accepts(header, spec)
    ensures ParseRange(header, size) == Answer(spec, size)
  {
    var a, b :| '-' !in a && '-' !in b && header == Header(a, b) && WrittenLoosely(spec, Text.Trim(a), Text.Trim(b));
    SplitAtOneDash(header, a, b, size);
    BoundsAnswer(spec, Text.Trim(a), Text.Trim(b), size);
  }

  lemma BoundsAnswer(spec: Spec, a: string, b: string, size: u64)
    requires WrittenLoosely(spec, a, b)
    ensures ParseBounds(a, b, size) == Answer(spec, size)
  {
    match spec {
      case FirstLast(first, last) =>
        LooseParsed(a, first);
        LooseParsed(b, last);
      case From(first) => LooseParsed(a, first);
      case Suffix(count) => LooseParsed(b, count);
    }
  }

  /** What two sides that parse ask for. */
  lemma BoundsWritten(a: string, b: string, size: u64) returns (spec: Spec)
    requires ParseBounds(a, b, size).Some?
    ensures WrittenLoosely(spec, a, b)
  {
    if a == [] {
      ParsedLoose(b);
      spec := Suffix(ParseU64(b).value);
    } else if b == [] {
      ParsedLoose(a);
      spec := From(ParseU64(a).value);
    } else {
      ParsedLoose(a);
      ParsedLoose(b);
      spec := FirstLast(ParseU64(a).value, ParseU64(b).value);
    }
  }

  /** A text with one separator. */
  lemma SplitInTwo(s: string)
    requires |Text.Split(s, '-')| == 2
    ensures var parts := Text.Split(s, '-');
            s == parts[0] + ['-'] + parts[1] && '-' !in parts[0] && '-' !in parts[1]
  {
    var i := Text.IndexOf(s, '-');
    assert s == s[..i] + ['-'] + s[i + 1..];
    var rest := s[i + 1..];
    var j := Text.IndexOf(rest, '-');
    assert rest[..j] == rest;
    assert Text.Split(s, '-')[1] in Text.Split(s, '-');
  }

  /** Every other header is ignored: another unit, no dash or two, or no number on either side. */
  lemma OthersIgnored(header: string, size: u64)
    requires ParseRange(header, size).Some?
    ensures exists spec :: Accepts(header, spec)
  {
    var text := header[|PREFIX|..];
    SplitInTwo(text);
    var a, b := Text.Split(text, '-')[0], Text.Split(text, '-')[1];
    assert header == Header(a, b);
    var spec := BoundsWritten(Text.Trim(a), Text.Trim(b), size);
    assert Accepts(header, spec);
  }

  /** Headers spelled by the grammar are among those accepted. */
  lemma SpelledIsAccepted(header: string, spec: Spec)
    requires Spells(header, spec)
    ensures Accepts(header, spec)
  {
    var a, b :| spec.WrittenAs(a, b) && header == Header(a, b);
    match spec {
      case FirstLast(first, last) =>
        NumeralParsed(a, first);
        NumeralParsed(b, last);
      case From(first) => NumeralParsed(a, first);
      case Suffix(count) => NumeralParsed(b, count);
    }
  }
}
