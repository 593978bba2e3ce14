/** The string order and the stable sort of the Rust standard library. */
module Sorting {

  /** `str::cmp`: lexicographic by code point, which is the order of the UTF-8 bytes. */
  predicate StringLe(a: string, b: string) {
    || a == []
    || (b != [] && (a[0] < b[0] || (a[0] == b[0] && StringLe(a[1..], b[1..]))))
  }

  lemma {:induction false} StringLeTotal(a: string, b: string)
    ensures StringLe(a, b) || StringLe(b, a)
    ensures StringLe(a, b) && StringLe(b, a) <==> a == b
  {
    if a != [] && b != [] {
      StringLeTotal(a[1..], b[1..]);
      if a[0] == b[0] {
        assert a == [a[0]] + a[1..] && b == [b[0]] + b[1..];
      }
    }
  }

  lemma {:induction false} StringLeTransitive(a: string, b: string, c: string)
    requires StringLe(a, b) && StringLe(b, c)
    ensures StringLe(a, c)
  {
    if a != [] && a[0] == b[0] == c[0] {
      StringLeTransitive(a[1..], b[1..], c[1..]);
    }
  }

  /** The texts agree up to place `k`, where the first is smaller. */
  predicate SmallerAt(a: string, b: string, k: nat) {
    k < |a| && k < |b| && a[..k] == b[..k] && a[k] < b[k]
  }

  /** One text is the beginning of the other, or is smaller at the first place where they differ. */
  ghost predicate Precedes(a: string, b: string) {
    a <= b || exists k: nat :: SmallerAt(a, b, k)
  }

  lemma {:induction false} StringLeExactly(a: string, b: string)
    ensures StringLe(a, b) <==> Precedes(a, b)
  {
    if a != [] && b != [] {
      StringLeExactly(a[1..], b[1..]);
      if StringLe(a, b) {
        PrecedesMore(a, b);
      }
      if Precedes(a, b) {
        PrecedesTail(a, b);
      }
    }
  }

  lemma SmallerLater(a: string, b: string, k: nat)
    requires a != [] && b != [] && a[0] == b[0]
    ensures SmallerAt(a, b, k + 1) <==> SmallerAt(a[1..], b[1..], k)
  {
    if k + 1 < |a| && k + 1 < |b| {
      assert a[..k + 1] == [a[0]] + a[1..][..k] && b[..k + 1] == [b[0]] + b[1..][..k];
      assert a[..k + 1][1..] == a[1..][..k] && b[..k + 1][1..] == b[1..][..k];
    }
  }

  lemma PrecedesMore(a: string, b: string)
    requires a != [] && b != [] && (a[0] < b[0] || (a[0] == b[0] && Precedes(a[1..], b[1..])))
    ensures Precedes(a, b)
  {
    if a[0] < b[0] {
      assert SmallerAt(a, b, 0);
    } else if a[1..] <= b[1..] {
      assert a == [a[0]] + a[1..] && b == [b[0]] + b[1..];
    } else {
      var k: nat :| SmallerAt(a[1..], b[1..], k);
      SmallerLater(a, b, k);
    }
  }

  lemma PrecedesTail(a: string, b: string)
    requires a != [] && b != [] && Precedes(a, b)
    ensures a[0] < b[0] || (a[0] == b[0] && Precedes(a[1..], b[1..]))
  {
    if !(a <= b) {
      var k: nat :| SmallerAt(a, b, k);
      if k > 0 {
        assert a[..k][0] == b[..k][0];
        SmallerLater(a, b, k - 1);
      }
    }
  }

  predicate StringLt(a: string, b: string) {
    a != b && StringLe(a, b)
  }

  lemma StringLtTransitive(a: string, b: string, c: string)
    requires StringLt(a, b) && StringLt(b, c)
    ensures StringLt(a, c)
  {
    StringLeTransitive(a, b, c);
    StringLeTotal(a, b);
  }

  /** A total preorder: elements may tie. */
  ghost predicate Preorder<T(!new)>(le: (T, T) -> bool) {
    && (forall a, b :: le(a, b) || le(b, a))
    && (forall a, b, c :: le(a, b) && le(b, c) ==> le(a, c))
  }

  ghost predicate Sorted<T>(s: seq<T>, le: (T, T) -> bool) {
    forall i, j :: 0 <= i < j < |s| ==> le(s[i], s[j])
  }

  /** Puts `x` before everything it does not exceed. */
  function Insert<T>(x: T, s: seq<T>, le: (T, T) -> bool): seq<T> {
    if s == [] || le(x, s[0]) then [x] + s else [s[0]] + Insert(x, s[1..], le)
  }

  /** `sort_by`: stable. */
  function Sort<T>(s: seq<T>, le: (T, T) -> bool): seq<T> {
    if s == [] then [] else Insert(s[0], Sort(s[1..], le), le)
  }

  lemma {:induction false} InsertSorted<T(!new)>(x: T, s: seq<T>, le: (T, T) -> bool)
    requires Preorder(le) && Sorted(s, le)
    ensures Sorted(Insert(x, s, le), le)
    ensures multiset(Insert(x, s, le)) == multiset(s) + multiset{x}
  {
    if s != [] {
      assert s == [s[0]] + s[1..];
      if le(x, s[0]) {
        assert forall i :: 0 <= i < |s| ==> le(s[0], s[i]);
        assert forall i :: 0 <= i < |s| ==> le(x, s[i]);
      } else {
        InsertSorted(x, s[1..], le);
        var rest := Insert(x, s[1..], le);
        forall i | 0 <= i < |rest|
          ensures le(s[0], rest[i])
        {
          assert rest[i] in multiset(rest);
          assert rest[i] == x || rest[i] in s[1..];
        }
      }
    }
  }

  lemma {:induction false} SortSorts<T(!new)>(s: seq<T>, le: (T, T) -> bool)
    requires Preorder(le)
    ensures Sorted(Sort(s, le), le)
    ensures multiset(Sort(s, le)) == multiset(s)
  {
    if s != [] {
      SortSorts(s[1..], le);
      InsertSorted(s[0], Sort(s[1..], le), le);
      assert s == [s[0]] + s[1..];
    }
  }

  lemma SameElements<T>(a: seq<T>, b: seq<T>)
    requires multiset(a) == multiset(b)
    ensures |a| == |b|
    ensures forall x :: x in a <==> x in b
  {
    assert |multiset(a)| == |a| && |multiset(b)| == |b|;
    assert forall x :: x in a <==> x in multiset(a);
    assert forall x :: x in b <==> x in multiset(b);
  }

  function Filter<T>(s: seq<T>, p: T -> bool): seq<T> {
    if s == [] then [] else (if p(s[0]) then [s[0]] else []) + Filter(s[1..], p)
  }

  /** Filtering keeps everything exactly when nothing is excluded; otherwise the result is shorter. */
  lemma {:induction false} FilterAll<T>(s: seq<T>, p: T -> bool)
    ensures |Filter(s, p)| <= |s|
    ensures |Filter(s, p)| == |s| <==> forall x :: x in s ==> p(x)
    ensures (forall x :: x in s ==> p(x)) ==> Filter(s, p) == s
  {
    if s != [] {
      FilterAll(s[1..], p);
      assert s == [s[0]] + s[1..];
    }
  }

  /** Every two elements selected by `p` tie. */
  ghost predicate Ties<T(!new)>(p: T -> bool, le: (T, T) -> bool) {
    forall a, b :: p(a) && p(b) ==> le(a, b)
  }

  lemma FilterCons<T>(x: T, s: seq<T>, p: T -> bool)
    ensures Filter([x] + s, p) == (if p(x) then [x] else []) + Filter(s, p)
  {
    assert ([x] + s)[1..] == s;
  }

  lemma {:induction false} InsertStable<T(!new)>(x: T, s: seq<T>, le: (T, T) -> bool, p: T -> bool)
    requires Ties(p, le)
    ensures Filter(Insert(x, s, le), p) == (if p(x) then [x] else []) + Filter(s, p)
  {
    if s == [] || le(x, s[0]) {
      FilterCons(x, s, p);
    } else {
      var rest := s[1..];
      InsertStable(x, rest, le, p);
      FilterCons(s[0], Insert(x, rest, le), p);
      if p(s[0]) {
        assert !p(x);
        assert [] + Filter(rest, p) == Filter(rest, p);
      }
    }
  }

  /** Stability: elements that tie keep their order. */
  lemma {:induction false} SortStable<T(!new)>(s: seq<T>, le: (T, T) -> bool, p: T -> bool)
    requires Ties(p, le)
    ensures Filter(Sort(s, le), p) == Filter(s, p)
  {
    if s != [] {
      SortStable(s[1..], le, p);
      InsertStable(s[0], Sort(s[1..], le), le, p);
    }
  }

  /** No two different elements of `s` tie. */
  ghost predicate TieFree<T>(s: seq<T>, le: (T, T) -> bool) {
    forall a, b :: a in s && b in s && le(a, b) && le(b, a) ==> a == b
  }

  lemma HeadsAgree<T>(a: seq<T>, b: seq<T>, le: (T, T) -> bool)
    requires a != [] && b != [] && a[0] in b && b[0] in a
    requires Sorted(a, le) && Sorted(b, le) && TieFree(a, le)
    requires Reflexive(a, le)
    ensures a[0] == b[0]
  {
    var i :| 0 <= i < |b| && b[i] == a[0];
    var j :| 0 <= j < |a| && a[j] == b[0];
    assert le(a[0], b[0]) && le(b[0], a[0]);
  }

  lemma TailElements<T>(s: seq<T>)
    requires s != []
    ensures multiset(s[1..]) == multiset(s) - multiset{s[0]}
    ensures forall x :: x in s[1..] ==> x in s
  {
    assert s == [s[0]] + s[1..];
  }

  ghost predicate Reflexive<T>(s: seq<T>, le: (T, T) -> bool) {
    forall x :: x in s ==> le(x, x)
  }

  lemma TailSorted<T>(s: seq<T>, le: (T, T) -> bool)
    requires s != [] && Sorted(s, le)
    ensures Sorted(s[1..], le)
    ensures TieFree(s, le) ==> TieFree(s[1..], le)
    ensures Reflexive(s, le) ==> Reflexive(s[1..], le)
  {
    TailElements(s);
  }

  lemma HeadAndTail<T>(a: seq<T>, b: seq<T>)
    requires a != [] && b != [] && a[0] == b[0] && a[1..] == b[1..]
    ensures a == b
  {
    assert a == [a[0]] + a[1..] && b == [b[0]] + b[1..];
  }

  /** Without ties there is only one sorted arrangement. */
  lemma {:induction false} SortedUnique<T>(a: seq<T>, b: seq<T>, le: (T, T) -> bool)
    requires Sorted(a, le) && Sorted(b, le) && multiset(a) == multiset(b) && TieFree(a, le)
    requires Reflexive(a, le)
    ensures a == b
  {
    SameElements(a, b);
    if a != [] {
      HeadsAgree(a, b, le);
      TailElements(a);
      TailElements(b);
      TailSorted(a, le);
      TailSorted(b, le);
      SortedUnique(a[1..], b[1..], le);
      HeadAndTail(a, b);
    }
  }

  /** Without ties the input order does not matter to the sort. */
  lemma SortIgnoresOrder<T(!new)>(s: seq<T>, t: seq<T>, le: (T, T) -> bool)
    requires Preorder(le) && multiset(s) == multiset(t) && TieFree(s, le)
    ensures Sort(s, le) == Sort(t, le)
  {
    SortSorts(s, le);
    SortSorts(t, le);
    SameElements(s, Sort(s, le));
    SortedUnique(Sort(s, le), Sort(t, le), le);
  }

  lemma StringLePreorder()
    ensures Preorder(StringLe)
  {
    forall a, b
      ensures StringLe(a, b) || StringLe(b, a)
    {
      StringLeTotal(a, b);
    }
    forall a, b, c | StringLe(a, b) && StringLe(b, c)
      ensures StringLe(a, c)
    {
      StringLeTransitive(a, b, c);
    }
  }

  ghost predicate Least(k: string, keys: set<string>) {
    k in keys && forall other :: other in keys ==> StringLe(k, other)
  }

  lemma LeastOfMore(k: string, rest: set<string>, x: string)
    requires Least(k, rest)
    ensures Least(if StringLe(x, k) then x else k, rest + {x})
  {
    StringLeTotal(x, k);
    StringLeTotal(x, x);
    forall other | other in rest && StringLe(x, k)
      ensures StringLe(x, other)
    {
      StringLeTransitive(x, k, other);
    }
  }

  /** A non-empty set of strings has a least one. */
  lemma {:induction false} LeastExists(keys: set<string>)
    requires keys != {}
    ensures exists k :: Least(k, keys)
    decreases |keys|
  {
    var x :| x in keys;
    var rest := keys - {x};
    assert keys == rest + {x};
    if rest == {} {
      StringLeTotal(x, x);
      assert Least(x, keys);
    } else {
      LeastExists(rest);
      var k :| Least(k, rest);
      LeastOfMore(k, rest, x);
    }
  }
}
