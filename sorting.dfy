// Sorting by a comparator, as `Array.prototype.sort` does for the two "recent"
// views, and the string order of JavaScript's `<` that one of them compares with.
module Sorting {
  import opened Lists

  ghost predicate Total<T(!new)>(le: (T, T) -> bool) {
    forall a, b :: le(a, b) || le(b, a)
  }

  ghost predicate Transitive<T(!new)>(le: (T, T) -> bool) {
    forall a, b, c :: le(a, b) && le(b, c) ==> le(a, c)
  }

  predicate Sorted<T>(s: seq<T>, le: (T, T) -> bool) {
    forall i, j :: 0 <= i < j < |s| ==> le(s[i], s[j])
  }

  /** Puts `x` in front of the first element it may precede; equal elements keep their order. */
  function Insert<T>(x: T, s: seq<T>, le: (T, T) -> bool): (r: seq<T>)
    ensures multiset(r) == multiset(s) + multiset{x}
    ensures |r| == |s| + 1
  {
    if s == [] then [x]
    else if le(x, s[0]) then [x] + s
    else
      assert s == [s[0]] + s[1..];
      [s[0]] + Insert(x, s[1..], le)
  }

  /** A stable sort (the engines' `sort` has been stable since ECMAScript 2019). */
  function Sort<T>(s: seq<T>, le: (T, T) -> bool): (r: seq<T>)
    ensures multiset(r) == multiset(s)
    ensures |r| == |s|
  {
    if s == [] then []
    else
      assert s == [s[0]] + s[1..];
      Insert(s[0], Sort(s[1..], le), le)
  }

  lemma {:induction false} InsertSorted<T(!new)>(x: T, s: seq<T>, le: (T, T) -> bool)
    requires Total(le) && Transitive(le) && Sorted(s, le)
    ensures Sorted(Insert(x, s, le), le)
  {
    if s != [] && !le(x, s[0]) {
      InsertSorted(x, s[1..], le);
      var r := Insert(x, s, le);
      var rest := Insert(x, s[1..], le);
      assert r == [s[0]] + rest;
      forall j | 0 < j < |r| ensures le(r[0], r[j]) {
        assert r[j] == rest[j - 1];
        assert rest[j - 1] in multiset(rest);
        assert rest[j - 1] == x || rest[j - 1] in multiset(s[1..]);
        if rest[j - 1] != x {
          var k :| 0 <= k < |s[1..]| && s[1..][k] == rest[j - 1];
          assert le(s[0], s[k + 1]);
        }
      }
    }
  }

  /** The result is sorted, when the comparator is a total preorder. */
  lemma {:induction false} SortSorted<T(!new)>(s: seq<T>, le: (T, T) -> bool)
    requires Total(le) && Transitive(le)
    ensures Sorted(Sort(s, le), le)
  {
    if s != [] {
      SortSorted(s[1..], le);
      InsertSorted(s[0], Sort(s[1..], le), le);
    }
  }

  /** Inserting `x` puts it in front of every element it is tied with, among those `p` selects. */
  lemma {:induction false} InsertFilter<T(!new)>(x: T, s: seq<T>, le: (T, T) -> bool, p: T -> bool)
    requires forall y :: p(x) && p(y) ==> le(x, y)
    ensures Filter(Insert(x, s, le), p) == (if p(x) then [x] else []) + Filter(s, p)
  {
    if s == [] {
      assert [x][1..] == [];
    } else if le(x, s[0]) {
      assert ([x] + s)[1..] == s;
    } else {
      InsertFilter(x, s[1..], le, p);
      var rest := Insert(x, s[1..], le);
      assert ([s[0]] + rest)[1..] == rest;
    }
  }

  /** Stability: elements that all compare as ordered among themselves keep their input order. */
  lemma {:induction false} SortStable<T(!new)>(s: seq<T>, le: (T, T) -> bool, p: T -> bool)
    requires forall a, b :: p(a) && p(b) ==> le(a, b)
    ensures Filter(Sort(s, le), p) == Filter(s, p)
  {
    if s != [] {
      SortStable(s[1..], le, p);
      InsertFilter(s[0], Sort(s[1..], le), le, p);
    }
  }

  /** The elements tied with `e`: ordered before and after it. */
  function TiedWith<T>(le: (T, T) -> bool, e: T): T -> bool {
    (y: T) => le(y, e) && le(e, y)
  }

  /** Under a transitive comparator, the elements tied with any `e` keep their input order. */
  lemma SortKeepsTies<T(!new)>(s: seq<T>, le: (T, T) -> bool, e: T)
    requires Transitive(le)
    ensures Filter(Sort(s, le), TiedWith(le, e)) == Filter(s, TiedWith(le, e))
  {
    SortStable(s, le, TiedWith(le, e));
  }

  // ------------------------------------------------------------- string order

  /** `a < b` on strings: lexicographic on characters, a proper prefix first. */
  predicate LexLess(a: string, b: string) {
    if a == [] then b != []
    else if b == [] then false
    else if a[0] != b[0] then a[0] < b[0]
    else LexLess(a[1..], b[1..])
  }

  lemma {:induction false} LexLessIrreflexive(a: string)
    ensures !LexLess(a, a)
  {
    if a != [] {
      LexLessIrreflexive(a[1..]);
    }
  }

  /** Two different strings are ordered one way or the other, never both. */
  lemma {:induction false} LexLessTrichotomy(a: string, b: string)
    ensures a == b || LexLess(a, b) || LexLess(b, a)
    ensures !(LexLess(a, b) && LexLess(b, a))
  {
    if a != [] && b != [] && a[0] == b[0] {
      LexLessTrichotomy(a[1..], b[1..]);
      if a[1..] == b[1..] {
        assert a == [a[0]] + a[1..] && b == [b[0]] + b[1..];
      }
    }
  }

  lemma {:induction false} LexLessTransitive(a: string, b: string, c: string)
    requires LexLess(a, b) && LexLess(b, c)
    ensures LexLess(a, c)
  {
    if a != [] && b != [] && c != [] && a[0] == b[0] && b[0] == c[0] {
      LexLessTransitive(a[1..], b[1..], c[1..]);
    }
  }

  /** "`b` is not newer than `a`" on timestamps compared as strings: a total preorder. */
  predicate NotBefore(a: string, b: string) {
    !LexLess(a, b)
  }

  lemma NotBeforeTotalPreorder()
    ensures forall a, b :: NotBefore(a, b) || NotBefore(b, a)
    ensures forall a, b, c :: NotBefore(a, b) && NotBefore(b, c) ==> NotBefore(a, c)
  {
    forall a, b ensures NotBefore(a, b) || NotBefore(b, a) {
      LexLessTrichotomy(a, b);
    }
    forall a, b, c | NotBefore(a, b) && NotBefore(b, c) ensures NotBefore(a, c) {
      LexLessTrichotomy(a, b);
      LexLessTrichotomy(b, c);
      LexLessTrichotomy(a, c);
      if LexLess(a, c) && a != b {
        LexLessTransitive(b, a, c);
      }
    }
  }
}
