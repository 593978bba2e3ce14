/** The string operations of the Rust standard library that the parsers and printers rely on. */
module Text {
  import opened Basics

  /** The Unicode White_Space property, which `str::trim` strips. */
  predicate IsWhitespace(c: char) {
    || '\U{9}' <= c <= '\U{D}'
    || c in {' ', '\U{85}', '\U{A0}', '\U{1680}', '\U{2028}', '\U{2029}', '\U{202F}', '\U{205F}', '\U{3000}'}
    || '\U{2000}' <= c <= '\U{200A}'
  }

  function TrimStart(s: string): (t: string)
    ensures t == [] || !IsWhitespace(t[0])
  {
    if s != [] && IsWhitespace(s[0]) then TrimStart(s[1..]) else s
  }

  function TrimEnd(s: string): (t: string)
    ensures t <= s
    ensures t == [] || !IsWhitespace(t[|t| - 1])
  {
    if s != [] && IsWhitespace(s[|s| - 1]) then TrimEnd(s[..|s| - 1]) else s
  }

  function Trim(s: string): string {
    TrimEnd(TrimStart(s))
  }

  /** Text whose outer characters are not blank is left alone. */
  lemma TrimKeeps(s: string)
    requires s != [] ==> !IsWhitespace(s[0]) && !IsWhitespace(s[|s| - 1])
    ensures Trim(s) == s
  {
  }

  /** Trimming strips blanks at both ends, all of them, and nothing else. */
  lemma TrimExactly(s: string) returns (before: string, after: string)
    ensures s == before + Trim(s) + after
    ensures forall c :: c in before || c in after ==> IsWhitespace(c)
    ensures Trim(s) == [] || (!IsWhitespace(Trim(s)[0]) && !IsWhitespace(Trim(s)[|Trim(s)| - 1]))
  {
    before := StartStripped(s);
    after := EndStripped(TrimStart(s));
    assert Trim(s) != [] ==> Trim(s)[0] == TrimStart(s)[0];
    assert s == before + (Trim(s) + after);
  }

  lemma {:induction false} StartStripped(s: string) returns (before: string)
    ensures s == before + TrimStart(s) && forall c :: c in before ==> IsWhitespace(c)
  {
    before := [];
    if s != [] && IsWhitespace(s[0]) {
      var rest := StartStripped(s[1..]);
      before := [s[0]] + rest;
      assert s == [s[0]] + s[1..];
    }
  }

  lemma {:induction false} EndStripped(s: string) returns (after: string)
    ensures s == TrimEnd(s) + after && forall c :: c in after ==> IsWhitespace(c)
  {
    after := [];
    if s != [] && IsWhitespace(s[|s| - 1]) {
      var rest := EndStripped(s[..|s| - 1]);
      after := rest + [s[|s| - 1]];
      assert s == s[..|s| - 1] + [s[|s| - 1]];
    }
  }

  /** Trimming adds nothing. */
  lemma TrimSubtext(s: string, c: char)
    ensures c in Trim(s) ==> c in s
  {
    TrimStartSubtext(s, c);
    assert TrimEnd(TrimStart(s)) <= TrimStart(s);
  }

  lemma {:induction false} TrimStartSubtext(s: string, c: char)
    ensures c in TrimStart(s) ==> c in s
  {
    if s != [] && IsWhitespace(s[0]) {
      TrimStartSubtext(s[1..], c);
    }
  }

  /** `HeaderValue::to_str` accepts visible ASCII, spaces and tabs. */
  predicate Visible(s: string) {
    forall c :: c in s ==> c == '\t' || ' ' <= c <= '~'
  }

  /** `HeaderValue::from_str`: no control characters but tab. */
  predicate ValidHeaderValue(s: string) {
    forall c :: c in s ==> c == '\t' || (c >= ' ' && c != '\U{7F}')
  }

  /** ASCII lower-casing, as applied to HTTP header names. */
  function ToLower(s: string): (t: string)
    ensures |t| == |s|
  {
    seq(|s|, i requires 0 <= i < |s| => if 'A' <= s[i] <= 'Z' then (s[i] as int + 32) as char else s[i])
  }

  /** Index of the first `c`, or the length when there is none. */
  function IndexOf(s: string, c: char): (i: nat)
    ensures i <= |s|
    ensures c !in s[..i]
    ensures i < |s| ==> s[i] == c
  {
    if s == [] || s[0] == c then 0
    else
      var i := IndexOf(s[1..], c);
      assert s[..i + 1] == [s[0]] + s[1..][..i];
      i + 1
  }

  /** `rfind`: position of the last `c`. */
  function RFind(s: string, c: char): (r: Option<nat>)
    ensures r.Some? ==> r.value < |s|
  {
    LastBefore(s, c, |s|)
  }

  /** Position of the last `c` below `n`. */
  function LastBefore(s: string, c: char, n: nat): (r: Option<nat>)
    requires n <= |s|
    ensures r.Some? ==> r.value < n
  {
    if n == 0 then None else if s[n - 1] == c then Some(n - 1) else LastBefore(s, c, n - 1)
  }

  /** `split(c)`: the pieces between separators, always at least one. */
  function Split(s: string, c: char): (parts: seq<string>)
    ensures |parts| >= 1
    ensures forall p :: p in parts ==> c !in p
    decreases |s|
  {
    var i := IndexOf(s, c);
    if i == |s| then
      assert s[..i] == s;
      [s]
    else
      [s[..i]] + Split(s[i + 1..], c)
  }

  /** `splitn(2, c)`: split at the first separator only. */
  function SplitOnce(s: string, c: char): (parts: seq<string>)
    ensures 1 <= |parts| <= 2
    ensures |parts| == 2 ==> c !in parts[0] && parts[0] + [c] + parts[1] == s
    ensures |parts| == 1 ==> parts[0] == s && c !in s
  {
    var i := IndexOf(s, c);
    if i == |s| then
      assert s[..i] == s;
      [s]
    else
      [s[..i], s[i + 1..]]
  }

  function Join(parts: seq<string>, c: char): string {
    if parts == [] then []
    else if |parts| == 1 then parts[0]
    else parts[0] + [c] + Join(parts[1..], c)
  }

  lemma IndexOfAppend(a: string, c: char, b: string)
    requires c !in a
    ensures IndexOf(a + [c] + b, c) == |a|
  {
    if a == [] {
    } else {
      assert (a + [c] + b)[1..] == a[1..] + [c] + b;
      IndexOfAppend(a[1..], c, b);
    }
  }

  lemma IndexOfAbsent(a: string, c: char)
    requires c !in a
    ensures IndexOf(a, c) == |a|
  {
  }

  lemma {:induction false} LastBeforeIs(s: string, c: char, n: nat, k: nat)
    requires k < n <= |s| && s[k] == c
    requires forall i :: k < i < n ==> s[i] != c
    ensures LastBefore(s, c, n) == Some(k)
  {
    if k < n - 1 {
      LastBeforeIs(s, c, n - 1, k);
    }
  }

  lemma {:induction false} LastBeforeAbsent(s: string, c: char, n: nat)
    requires n <= |s| && c !in s
    ensures LastBefore(s, c, n) == None
  {
    if n > 0 {
      assert s[n - 1] in s;
      LastBeforeAbsent(s, c, n - 1);
    }
  }

  lemma RFindAppend(a: string, c: char, b: string)
    requires c !in b
    ensures RFind(a + [c] + b, c) == Some(|a|)
  {
    var s := a + [c] + b;
    forall i | |a| < i < |s|
      ensures s[i] != c
    {
      assert s[i] == b[i - |a| - 1];
    }
    LastBeforeIs(s, c, |s|, |a|);
  }

  lemma SplitHead(a: string, c: char, b: string)
    requires c !in a
    ensures Split(a + [c] + b, c) == [a] + Split(b, c)
    ensures SplitOnce(a + [c] + b, c) == [a, b]
  {
    IndexOfAppend(a, c, b);
    assert (a + [c] + b)[..|a|] == a;
    assert (a + [c] + b)[|a| + 1..] == b;
  }

  /** Splitting what was joined gives the parts back. */
  lemma {:induction false} SplitJoin(parts: seq<string>, c: char)
    requires |parts| >= 1
    requires forall p :: p in parts ==> c !in p
    ensures Split(Join(parts, c), c) == parts
  {
    if |parts| == 1 {
      IndexOfAbsent(parts[0], c);
    } else {
      SplitJoin(parts[1..], c);
      SplitHead(parts[0], c, Join(parts[1..], c));
      assert parts == [parts[0]] + parts[1..];
    }
  }
}
