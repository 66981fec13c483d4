/** Byte-wise string order and sorting by a string key. SortBy stands for slices.SortFunc: any
    sorted permutation equals it when no two elements share a key (SortedUnique). */
module Sorting {

  predicate LexLe(a: string, b: string) {
    a == [] || (b != [] && (a[0] < b[0] || (a[0] == b[0] && LexLe(a[1..], b[1..]))))
  }

  lemma {:induction false} LexTotal(a: string, b: string)
    ensures LexLe(a, b) || LexLe(b, a)
  {
    if a != [] && b != [] && a[0] == b[0] { LexTotal(a[1..], b[1..]); }
  }

  lemma {:induction false} LexTransitive(a: string, b: string, c: string)
    requires LexLe(a, b) && LexLe(b, c)
    ensures LexLe(a, c)
  {
    if a != [] && a[0] == b[0] && b[0] == c[0] { LexTransitive(a[1..], b[1..], c[1..]); }
  }

  lemma {:induction false} LexAntisymmetric(a: string, b: string)
    requires LexLe(a, b) && LexLe(b, a)
    ensures a == b
  {
    if a != [] {
      LexAntisymmetric(a[1..], b[1..]);
      assert a == [a[0]] + a[1..] && b == [b[0]] + b[1..];
    }
  }

  ghost predicate Sorted<T(!new)>(key: T -> string, s: seq<T>) {
    forall i, j :: 0 <= i < j < |s| ==> LexLe(key(s[i]), key(s[j]))
  }

  function Insert<T>(key: T -> string, x: T, s: seq<T>): seq<T> {
    if s == [] || LexLe(key(x), key(s[0])) then [x] + s else [s[0]] + Insert(key, x, s[1..])
  }

  function SortBy<T>(key: T -> string, s: seq<T>): seq<T> {
    if s == [] then [] else Insert(key, s[0], SortBy(key, s[1..]))
  }

  lemma {:induction false} InsertSorts<T(!new)>(key: T -> string, x: T, s: seq<T>)
    requires Sorted(key, s)
    ensures multiset(Insert(key, x, s)) == multiset(s) + multiset{x}
    ensures Sorted(key, Insert(key, x, s))
  {
    var r := Insert(key, x, s);
    if s == [] {
    } else if LexLe(key(x), key(s[0])) {
      forall j | 0 < j < |r| ensures LexLe(key(x), key(r[j])) {
        if j > 1 { LexTransitive(key(x), key(s[0]), key(s[j - 1])); }
      }
    } else {
      var t := Insert(key, x, s[1..]);
      InsertSorts(key, x, s[1..]);
      assert s == [s[0]] + s[1..];
      forall j | 0 <= j < |t| ensures LexLe(key(s[0]), key(t[j])) {
        assert t[j] in multiset(t);
        if t[j] == x { LexTotal(key(x), key(s[0])); } else { assert t[j] in s[1..]; }
      }
    }
  }

  lemma {:induction false} SortBySorts<T(!new)>(key: T -> string, s: seq<T>)
    ensures multiset(SortBy(key, s)) == multiset(s)
    ensures Sorted(key, SortBy(key, s))
  {
    if s != [] {
      SortBySorts(key, s[1..]);
      InsertSorts(key, s[0], SortBy(key, s[1..]));
      assert s == [s[0]] + s[1..];
    }
  }

  /** Keys tell the elements apart. */
  ghost predicate Distinguishes<T(!new)>(key: T -> string, s: seq<T>) {
    forall x, y :: x in s && y in s && key(x) == key(y) ==> x == y
  }

  lemma TailMultiset<T>(s: seq<T>)
    requires s != []
    ensures multiset(s[1..]) == multiset(s) - multiset{s[0]}
  {
    assert s == [s[0]] + s[1..];
  }

  /** A sorted arrangement is determined by the elements alone when keys tell them apart. */
  lemma {:induction false} SortedUnique<T(!new)>(key: T -> string, s: seq<T>, t: seq<T>)
    requires Sorted(key, s) && Sorted(key, t) && multiset(s) == multiset(t) && Distinguishes(key, s)
    ensures s == t
  {
    assert |multiset(s)| == |s| && |multiset(t)| == |t|;
    if s != [] {
      SameFirst(key, s, t);
      TailMultiset(s);
      TailMultiset(t);
      SortedUnique(key, s[1..], t[1..]);
      assert s == [s[0]] + s[1..] && t == [t[0]] + t[1..];
    }
  }

  lemma SameFirst<T(!new)>(key: T -> string, s: seq<T>, t: seq<T>)
    requires Sorted(key, s) && Sorted(key, t) && multiset(s) == multiset(t) && Distinguishes(key, s) && s != []
    ensures t != [] && s[0] == t[0]
  {
    assert |multiset(t)| == |multiset(s)| == |s|;
    assert s[0] in multiset(t) && t[0] in multiset(s);
    FirstIsLeast(key, s, t[0]);
    FirstIsLeast(key, t, s[0]);
    LexAntisymmetric(key(s[0]), key(t[0]));
  }

  lemma FirstIsLeast<T(!new)>(key: T -> string, s: seq<T>, x: T)
    requires Sorted(key, s) && x in s
    ensures LexLe(key(s[0]), key(x))
  {
    var i :| 0 <= i < |s| && s[i] == x;
    if i == 0 { LexTotal(key(x), key(x)); }
  }

  lemma SortOrderIndependent<T(!new)>(key: T -> string, s: seq<T>, t: seq<T>)
    requires multiset(s) == multiset(t) && Distinguishes(key, s)
    ensures SortBy(key, s) == SortBy(key, t)
  {
    SortBySorts(key, s);
    SortBySorts(key, t);
    var a := SortBy(key, s);
    forall x | x in a ensures x in s { assert x in multiset(a); }
    SortedUnique(key, a, SortBy(key, t));
  }
}
