/** Sorting by a string key, in the order of Go's strings, and that a bag whose keys differ has one sorted
    sequence. */
module Sorting {

  /** The order of strings by their bytes. */
  predicate Leq(a: string, b: string) {
    a == "" || (b != "" && (a[0] < b[0] || (a[0] == b[0] && Leq(a[1..], b[1..]))))
  }

  lemma {:induction false} LeqTotal(a: string, b: string)
    ensures Leq(a, b) || Leq(b, a)
    ensures Leq(a, b) && Leq(b, a) ==> a == b
  {
    if a != "" && b != "" && a[0] == b[0] {
      LeqTotal(a[1..], b[1..]);
      assert a == [a[0]] + a[1..] && b == [b[0]] + b[1..];
    }
  }

  lemma {:induction false} LeqTrans(a: string, b: string, c: string)
    requires Leq(a, b) && Leq(b, c)
    ensures Leq(a, c)
  {
    if a != "" && a[0] == b[0] && b[0] == c[0] {
      LeqTrans(a[1..], b[1..], c[1..]);
    }
  }

  /** One text comes first if it begins the other, or has the smaller character where they first differ. */
  lemma {:induction false} LeqIs(a: string, b: string)
    ensures Leq(a, b) <==> a <= b || exists i | 0 <= i < |a| && i < |b| :: a[..i] == b[..i] && a[i] < b[i]
  {
    if a != "" && b != "" {
      var x, y := a[1..], b[1..];
      LeqIs(x, y);
      if a[0] == b[0] {
        assert a <= b <==> x <= y by {
          assert a == [a[0]] + x && b == [b[0]] + y;
        }
        if i :| 0 <= i < |x| && i < |y| && x[..i] == y[..i] && x[i] < y[i] {
          assert a[..i + 1] == [a[0]] + x[..i] && b[..i + 1] == [b[0]] + y[..i] && a[i + 1] < b[i + 1];
        }
        if i :| 0 <= i < |a| && i < |b| && a[..i] == b[..i] && a[i] < b[i] {
          assert i > 0 && x[..i - 1] == a[..i][1..] && y[..i - 1] == b[..i][1..] && x[i - 1] < y[i - 1];
        }
      } else {
        forall i | 0 < i < |a| && i < |b| ensures a[..i] != b[..i] {
          assert a[..i][0] != b[..i][0];
        }
        assert a[..0] == b[..0];
      }
    }
  }

  ghost predicate SortedBy<T(!new)>(key: T -> string, s: seq<T>) {
    forall i, j | 0 <= i < j < |s| :: Leq(key(s[i]), key(s[j]))
  }

  function InsertBy<T(==)>(key: T -> string, x: T, s: seq<T>): (r: seq<T>)
    ensures multiset(r) == multiset(s) + multiset{x}
  {
    if s == [] then [x]
    else if Leq(key(x), key(s[0])) then [x] + s
    else
      assert s == [s[0]] + s[1..];
      [s[0]] + InsertBy(key, x, s[1..])
  }

  /** `sort.SliceStable` by a key. */
  function SortBy<T(==)>(key: T -> string, s: seq<T>): (r: seq<T>)
    ensures multiset(r) == multiset(s)
  {
    if s == [] then []
    else
      assert s == [s[0]] + s[1..];
      InsertBy(key, s[0], SortBy(key, s[1..]))
  }

  lemma SomewhereIn<T>(s: seq<T>, x: T) returns (j: nat)
    requires x in multiset(s)
    ensures j < |s| && s[j] == x
  {
    j :| 0 <= j < |s| && s[j] == x;
  }

  lemma {:induction false} InsertSorted<T(!new)>(key: T -> string, x: T, s: seq<T>)
    requires SortedBy(key, s)
    ensures SortedBy(key, InsertBy(key, x, s))
  {
    hide Leq;
    if s != [] {
      LeqTotal(key(x), key(s[0]));
      if Leq(key(x), key(s[0])) {
        forall j | 0 <= j < |s| ensures Leq(key(x), key(s[j])) {
          if j > 0 {
            LeqTrans(key(x), key(s[0]), key(s[j]));
          }
        }
      } else {
        var t := InsertBy(key, x, s[1..]);
        InsertSorted(key, x, s[1..]);
        forall j | 0 <= j < |t| ensures Leq(key(s[0]), key(t[j])) {
          assert t[j] in multiset(t);
          if t[j] != x {
            var k := SomewhereIn(s[1..], t[j]);
          }
        }
      }
    }
  }

  lemma {:induction false} SortSorts<T(!new)>(key: T -> string, s: seq<T>)
    ensures SortedBy(key, SortBy(key, s))
  {
    if s != [] {
      SortSorts(key, s[1..]);
      InsertSorted(key, s[0], SortBy(key, s[1..]));
    }
  }

  /** The key tells the elements of the sequence apart. */
  ghost predicate Distinguishes<T(!new)>(key: T -> string, s: seq<T>) {
    forall i, j | 0 <= i < |s| && 0 <= j < |s| :: key(s[i]) == key(s[j]) ==> s[i] == s[j]
  }

  lemma SameHead<T(!new)>(key: T -> string, a: seq<T>, b: seq<T>)
    requires SortedBy(key, a) && SortedBy(key, b) && multiset(a) == multiset(b) && a != [] && b != []
    requires Distinguishes(key, a)
    ensures a[0] == b[0]
  {
    hide Leq;
    assert a[0] in multiset(b) && b[0] in multiset(a);
    var i := SomewhereIn(b, a[0]);
    var j := SomewhereIn(a, b[0]);
    LeqTotal(key(a[0]), key(b[0]));
    assert i == 0 || Leq(key(b[0]), key(b[i]));
    assert j == 0 || Leq(key(a[0]), key(a[j]));
  }

  lemma WithoutHead<T>(a: seq<T>)
    requires a != []
    ensures multiset(a[1..]) == multiset(a) - multiset{a[0]}
  {
    assert a == [a[0]] + a[1..];
  }

  /** A bag has one sorted sequence. */
  lemma {:induction false} SortedOnce<T(!new)>(key: T -> string, a: seq<T>, b: seq<T>)
    requires SortedBy(key, a) && SortedBy(key, b) && multiset(a) == multiset(b) && Distinguishes(key, a)
    ensures a == b
  {
    hide Leq;
    assert |a| == |multiset(a)| == |multiset(b)| == |b|;
    if a != [] {
      SameHead(key, a, b);
      WithoutHead(a);
      WithoutHead(b);
      SortedOnce(key, a[1..], b[1..]);
      assert a == [a[0]] + a[1..] && b == [b[0]] + b[1..];
    }
  }

  /** Sorting forgets the order its input was in, and nothing else. */
  lemma SortIff<T(!new)>(key: T -> string, a: seq<T>, b: seq<T>)
    requires Distinguishes(key, a)
    ensures SortBy(key, a) == SortBy(key, b) <==> multiset(a) == multiset(b)
  {
    hide InsertBy;
    SortSorts(key, a);
    SortSorts(key, b);
    if multiset(a) == multiset(b) {
      StillDistinguishes(key, a, SortBy(key, a));
      SortedOnce(key, SortBy(key, a), SortBy(key, b));
    }
  }

  lemma StillDistinguishes<T(!new)>(key: T -> string, a: seq<T>, b: seq<T>)
    requires Distinguishes(key, a) && multiset(a) == multiset(b)
    ensures Distinguishes(key, b)
  {
    forall i, j | 0 <= i < |b| && 0 <= j < |b| && key(b[i]) == key(b[j]) ensures b[i] == b[j] {
      assert b[i] in multiset(a) && b[j] in multiset(a);
      var k := SomewhereIn(a, b[i]);
      var l := SomewhereIn(a, b[j]);
    }
  }

  // ---------------------------------------------------------------- strings themselves

  function Self(s: string): string {
    s
  }

  /** `sort.Strings`. */
  function Sort(s: seq<string>): (r: seq<string>)
    ensures multiset(r) == multiset(s)
  {
    SortBy(Self, s)
  }

  lemma SortStringsIff(a: seq<string>, b: seq<string>)
    ensures Sort(a) == Sort(b) <==> multiset(a) == multiset(b)
  {
    hide SortBy;
    SortIff(Self, a, b);
  }

  // ---------------------------------------------------------------- bags

  function Without<T>(s: seq<T>, j: nat): (r: seq<T>)
    requires j < |s|
    ensures |r| == |s| - 1 && multiset(r) == multiset(s) - multiset{s[j]}
    ensures forall i | 0 <= i < |r| :: r[i] == s[if i < j then i else i + 1]
  {
    assert s == s[..j] + [s[j]] + s[j + 1..];
    s[..j] + s[j + 1..]
  }

  lemma PutBack<T>(a: multiset<T>, b: multiset<T>, x: T)
    requires x in a && x in b && a - multiset{x} == b - multiset{x}
    ensures a == b
  {
    assert a == (a - multiset{x}) + multiset{x};
    assert b == (b - multiset{x}) + multiset{x};
  }

  /** The two sequences tell the same positions apart as the other two. */
  ghost predicate AlikeIn<T, U>(a: seq<T>, b: seq<T>, c: seq<U>, d: seq<U>) {
    && |a| == |c| && |b| == |d|
    && forall i, j | 0 <= i < |a| && 0 <= j < |b| :: a[i] == b[j] <==> c[i] == d[j]
  }

  /** Two readings that tell the same things apart agree on which bags are equal. */
  lemma {:induction false} SameBags<T, U>(a: seq<T>, b: seq<T>, c: seq<U>, d: seq<U>)
    requires AlikeIn(a, b, c, d) && multiset(a) == multiset(b)
    ensures multiset(c) == multiset(d)
  {
    assert |a| == |multiset(a)| == |multiset(b)| == |b|;
    if a != [] {
      assert a[0] in multiset(b);
      var j := SomewhereIn(b, a[0]);
      assert c[0] == d[j];
      SameBags(Without(a, 0), Without(b, j), Without(c, 0), Without(d, j));
      PutBack(multiset(c), multiset(d), c[0]);
    }
  }

  ghost predicate NoDup<T(!new)>(s: seq<T>) {
    forall i, j | 0 <= i < j < |s| :: s[i] != s[j]
  }

  lemma {:induction false} Once<T(!new)>(s: seq<T>, x: T)
    requires NoDup(s)
    ensures multiset(s)[x] <= 1
  {
    if s != [] {
      assert s == [s[0]] + s[1..];
      Once(s[1..], x);
      assert s[0] !in s[1..];
    }
  }

  /** Two sequences without repetition that hold the same things are the same bag. */
  lemma SameThings<T(!new)>(a: seq<T>, b: seq<T>)
    requires NoDup(a) && NoDup(b) && forall x :: x in a <==> x in b
    ensures multiset(a) == multiset(b)
  {
    forall x ensures multiset(a)[x] == multiset(b)[x] {
      Once(a, x);
      Once(b, x);
      assert x in a <==> x in multiset(a);
      assert x in b <==> x in multiset(b);
    }
  }

  lemma NoDupConcat<T(!new)>(a: seq<T>, b: seq<T>)
    requires NoDup(a) && NoDup(b) && forall x | x in a :: x !in b
    ensures NoDup(a + b) && forall x :: x in a + b <==> x in a || x in b
  {
    var s := a + b;
    forall i, j | 0 <= i < j < |s| ensures s[i] != s[j] {
      assert s[j] == if j < |a| then a[j] else b[j - |a|];
      assert i < |a| ==> s[i] == a[i] && s[i] in a;
      assert j >= |a| ==> s[j] in b;
    }
  }
}
