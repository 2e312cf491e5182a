/** Ordinal string order, and sorting by a total order: the result depends on the elements only. */
module Ordering {

  /** `StringComparer.Ordinal`, as an order on character codes. */
  predicate StringLe(a: string, b: string) {
    a == [] || (b != [] && (a[0] < b[0] || (a[0] == b[0] && StringLe(a[1..], b[1..]))))
  }

  lemma {:induction false} StringLeTotal(a: string, b: string)
    ensures StringLe(a, b) || StringLe(b, a)
  {
    if a != [] && b != [] && a[0] == b[0] {
      StringLeTotal(a[1..], b[1..]);
    }
  }

  lemma {:induction false} StringLeAntisymmetric(a: string, b: string)
    requires StringLe(a, b) && StringLe(b, a)
    ensures a == b
  {
    if a != [] {
      StringLeAntisymmetric(a[1..], b[1..]);
      assert a == [a[0]] + a[1..] && b == [b[0]] + b[1..];
    }
  }

  lemma {:induction false} StringLeTransitive(a: string, b: string, c: string)
    requires StringLe(a, b) && StringLe(b, c)
    ensures StringLe(a, c)
  {
    if a != [] && a[0] == b[0] == c[0] {
      StringLeTransitive(a[1..], b[1..], c[1..]);
    }
  }

  lemma StringsCompare(a: string, b: string)
    ensures StringLe(a, b) || StringLe(b, a)
    ensures StringLe(a, b) && StringLe(b, a) ==> a == b
  {
    StringLeTotal(a, b);
    if StringLe(a, b) && StringLe(b, a) {
      StringLeAntisymmetric(a, b);
    }
  }

  lemma StringsChain(a: string, b: string, c: string)
    ensures StringLe(a, b) && StringLe(b, c) ==> StringLe(a, c)
  {
    if StringLe(a, b) && StringLe(b, c) {
      StringLeTransitive(a, b, c);
    }
  }

  /** One string is below another if it is a beginning of it, or has the smaller character where they part. */
  lemma {:induction false} StringLeMeans(a: string, b: string)
    ensures StringLe(a, b) <==> a <= b || exists k :: PartsBelow(a, b, k)
  {
    if a != [] && b != [] && a[0] == b[0] {
      StringLeMeans(a[1..], b[1..]);
      if k :| PartsBelow(a[1..], b[1..], k) {
        assert a[..k + 1] == [a[0]] + a[1..][..k] && b[..k + 1] == [b[0]] + b[1..][..k];
        assert PartsBelow(a, b, k + 1);
      }
      if k :| PartsBelow(a, b, k) {
        assert k > 0 ==> a[1..][..k - 1] == a[..k][1..] && b[1..][..k - 1] == b[..k][1..];
        assert PartsBelow(a[1..], b[1..], k - 1);
      }
    } else if a != [] && b != [] {
      assert a[0] < b[0] ==> PartsBelow(a, b, 0);
      assert forall k | PartsBelow(a, b, k) && k > 0 :: a[..k][0] == a[0] && b[..k][0] == b[0];
    }
  }

  ghost predicate PartsBelow(a: string, b: string, k: int) {
    0 <= k < |a| && k < |b| && a[..k] == b[..k] && a[k] < b[k]
  }

  ghost predicate LinearOrder<T(!new)>(le: (T, T) -> bool) {
    (forall a, b :: le(a, b) || le(b, a)) && (forall a, b :: le(a, b) && le(b, a) ==> a == b)
  }

  ghost predicate TotalOrder<T(!new)>(le: (T, T) -> bool) {
    LinearOrder(le) && TotalPreorder(le)
  }

  ghost predicate TotalPreorder<T(!new)>(le: (T, T) -> bool) {
    (forall a, b :: le(a, b) || le(b, a)) && forall a, b, c :: le(a, b) && le(b, c) ==> le(a, c)
  }

  lemma StringOrder()
    ensures TotalOrder(StringLe)
  {
    forall a, b
      ensures StringLe(a, b) || StringLe(b, a)
      ensures StringLe(a, b) && StringLe(b, a) ==> a == b
    {
      StringsCompare(a, b);
    }
    forall a, b, c
      ensures StringLe(a, b) && StringLe(b, c) ==> StringLe(a, c)
    {
      StringsChain(a, b, c);
    }
  }

  /** Every element is below all later ones. */
  ghost predicate Sorted<T(!new)>(s: seq<T>, le: (T, T) -> bool) {
    s != [] ==> (forall x | x in s[1..] :: le(s[0], x)) && Sorted(s[1..], le)
  }

  lemma {:induction false} SortedAt<T(!new)>(s: seq<T>, le: (T, T) -> bool, i: nat, j: nat)
    requires Sorted(s, le) && i < j < |s|
    ensures le(s[i], s[j])
  {
    if i > 0 {
      SortedAt(s[1..], le, i - 1, j - 1);
    } else {
      assert s[j] == s[1..][j - 1];
    }
  }

  function Insert<T>(x: T, s: seq<T>, le: (T, T) -> bool): seq<T> {
    if s == [] || le(x, s[0]) then [x] + s else [s[0]] + Insert(x, s[1..], le)
  }

  /** A stable sort; `OrderBy(...).ThenBy(...)`. */
  function Sort<T>(s: seq<T>, le: (T, T) -> bool): seq<T> {
    if s == [] then [] else Insert(s[0], Sort(s[1..], le), le)
  }

  lemma {:induction false} InsertSorts<T(!new)>(x: T, s: seq<T>, le: (T, T) -> bool)
    requires TotalPreorder(le) && Sorted(s, le)
    ensures Sorted(Insert(x, s, le), le)
    ensures multiset(Insert(x, s, le)) == multiset{x} + multiset(s)
  {
    if s != [] {
      assert s == [s[0]] + s[1..];
      if le(x, s[0]) {
        assert ([x] + s)[1..] == s;
      } else {
        InsertSorts(x, s[1..], le);
        var rest := Insert(x, s[1..], le);
        assert ([s[0]] + rest)[1..] == rest;
        forall y | y in rest
          ensures le(s[0], y)
        {
          assert y in multiset(rest);
        }
      }
    }
  }

  lemma {:induction false} SortSorts<T(!new)>(s: seq<T>, le: (T, T) -> bool)
    requires TotalPreorder(le)
    ensures Sorted(Sort(s, le), le)
    ensures multiset(Sort(s, le)) == multiset(s)
  {
    if s != [] {
      SortSorts(s[1..], le);
      InsertSorts(s[0], Sort(s[1..], le), le);
      assert s == [s[0]] + s[1..];
    }
  }

  lemma SameHead<T(!new)>(a: seq<T>, b: seq<T>, le: (T, T) -> bool)
    requires LinearOrder(le) && Sorted(a, le) && Sorted(b, le)
    requires multiset(a) == multiset(b) && a != []
    ensures b != [] && a[0] == b[0]
  {
    assert a[0] in multiset(a) && a[0] in multiset(b);
    assert b[0] in multiset(b) && b[0] in multiset(a);
    HeadIsBelow(a, b[0], le);
    HeadIsBelow(b, a[0], le);
  }

  lemma HeadIsBelow<T(!new)>(s: seq<T>, x: T, le: (T, T) -> bool)
    requires Sorted(s, le) && x in s
    ensures x == s[0] || le(s[0], x)
  {
    assert x == s[0] || x in s[1..];
  }

  lemma TailMultiset<T>(s: seq<T>)
    requires s != []
    ensures multiset(s[1..]) == multiset(s) - multiset{s[0]}
  {
    assert s == [s[0]] + s[1..];
  }

  /** Two sorted sequences of the same elements are equal. */
  lemma {:induction false} SortedUnique<T(!new)>(a: seq<T>, b: seq<T>, le: (T, T) -> bool)
    requires LinearOrder(le) && Sorted(a, le) && Sorted(b, le)
    requires multiset(a) == multiset(b)
    ensures a == b
  {
    if a == [] {
      assert |b| == |multiset(b)| == 0;
    } else {
      SameHead(a, b, le);
      TailMultiset(a);
      TailMultiset(b);
      SortedUnique(a[1..], b[1..], le);
      assert a == [a[0]] + a[1..] && b == [b[0]] + b[1..];
    }
  }

  /** Sorting forgets the order it was given. */
  lemma SortIsCanonical<T(!new)>(a: seq<T>, b: seq<T>, le: (T, T) -> bool)
    requires TotalOrder(le) && multiset(a) == multiset(b)
    ensures Sort(a, le) == Sort(b, le)
  {
    SortSorts(a, le);
    SortSorts(b, le);
    SortedUnique(Sort(a, le), Sort(b, le), le);
  }

  lemma {:induction false} PrefixSorted<T(!new)>(s: seq<T>, n: nat, le: (T, T) -> bool)
    requires Sorted(s, le) && n <= |s|
    ensures Sorted(s[..n], le)
  {
    if n > 0 {
      PrefixSorted(s[1..], n - 1, le);
      assert s[..n][1..] == s[1..][..n - 1];
    }
  }

  /** The sort is stable: what is sorted stays as it is. */
  lemma {:induction false} SortOfSorted<T(!new)>(s: seq<T>, le: (T, T) -> bool)
    requires Sorted(s, le)
    ensures Sort(s, le) == s
  {
    if s != [] {
      SortOfSorted(s[1..], le);
    }
  }

  lemma {:induction false} EarlierIsBelow<T(!new)>(s: seq<T>, n: nat, le: (T, T) -> bool)
    requires Sorted(s, le) && n <= |s|
    ensures forall a, b | a in s[..n] && b in s[n..] :: le(a, b)
  {
    if n > 0 {
      EarlierIsBelow(s[1..], n - 1, le);
      assert s[..n] == [s[0]] + s[1..][..n - 1] && s[n..] == s[1..][n - 1..];
    }
  }
}
