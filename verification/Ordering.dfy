/** Orders, sorting, and picking the newest item per key. */
module Ordering {

  ghost predicate TotalOrder<K(!new)>(leq: (K, K) -> bool) {
    && (forall a, b :: leq(a, b) || leq(b, a))
    && (forall a, b :: leq(a, b) && leq(b, a) ==> a == b)
    && (forall a, b, c :: leq(a, b) && leq(b, c) ==> leq(a, c))
  }

  // ---------------------------------------------------------------- lexicographic order

  /** Python's `<=` on strings and on tuples. */
  predicate LexLeq<T(==)>(leq: (T, T) -> bool, a: seq<T>, b: seq<T>) {
    if a == [] then true
    else if b == [] then false
    else if a[0] == b[0] then LexLeq(leq, a[1..], b[1..])
    else leq(a[0], b[0])
  }

  lemma {:induction false} LexIsTotal<T(!new)>(leq: (T, T) -> bool, a: seq<T>, b: seq<T>)
    requires TotalOrder(leq)
    ensures LexLeq(leq, a, b) || LexLeq(leq, b, a)
    ensures LexLeq(leq, a, b) && LexLeq(leq, b, a) ==> a == b
    decreases |a|
  {
    if a != [] && b != [] && a[0] == b[0] {
      LexIsTotal(leq, a[1..], b[1..]);
      assert a == [a[0]] + a[1..] && b == [b[0]] + b[1..];
    }
  }

  lemma {:induction false} LexIsTransitive<T(!new)>(leq: (T, T) -> bool, a: seq<T>, b: seq<T>, c: seq<T>)
    requires TotalOrder(leq) && LexLeq(leq, a, b) && LexLeq(leq, b, c)
    ensures LexLeq(leq, a, c)
    decreases |a|
  {
    if a != [] && a[0] == b[0] == c[0] { LexIsTransitive(leq, a[1..], b[1..], c[1..]); }
  }

  predicate CharLeq(a: char, b: char) {
    a <= b
  }

  predicate StrLeq(a: string, b: string) {
    LexLeq(CharLeq, a, b)
  }

  predicate TupleLeq(a: seq<string>, b: seq<string>) {
    LexLeq(StrLeq, a, b)
  }

  lemma StrIsTotal()
    ensures TotalOrder(StrLeq)
  {
    assert TotalOrder(CharLeq);
    forall a, b
      ensures StrLeq(a, b) || StrLeq(b, a)
      ensures StrLeq(a, b) && StrLeq(b, a) ==> a == b
    {
      LexIsTotal(CharLeq, a, b);
    }
    forall a, b, c | StrLeq(a, b) && StrLeq(b, c)
      ensures StrLeq(a, c)
    {
      LexIsTransitive(CharLeq, a, b, c);
    }
  }

  lemma TupleIsTotal()
    ensures TotalOrder(TupleLeq)
  {
    StrIsTotal();
    hide StrLeq, LexLeq, TotalOrder;
    forall a, b
      ensures TupleLeq(a, b) || TupleLeq(b, a)
      ensures TupleLeq(a, b) && TupleLeq(b, a) ==> a == b
    {
      TuplePair(a, b);
    }
    forall a, b, c | TupleLeq(a, b) && TupleLeq(b, c)
      ensures TupleLeq(a, c)
    {
      TupleTriple(a, b, c);
    }
    TotalOrderOf(TupleLeq);
  }

  lemma TuplePair(a: seq<string>, b: seq<string>)
    requires TotalOrder(StrLeq)
    ensures TupleLeq(a, b) || TupleLeq(b, a)
    ensures TupleLeq(a, b) && TupleLeq(b, a) ==> a == b
  {
    hide TotalOrder, LexLeq;
    LexIsTotal(StrLeq, a, b);
  }

  lemma TupleTriple(a: seq<string>, b: seq<string>, c: seq<string>)
    requires TotalOrder(StrLeq) && TupleLeq(a, b) && TupleLeq(b, c)
    ensures TupleLeq(a, c)
  {
    hide TotalOrder, LexLeq;
    LexIsTransitive(StrLeq, a, b, c);
  }

  lemma TotalOrderOf<K(!new)>(leq: (K, K) -> bool)
    requires forall a, b :: leq(a, b) || leq(b, a)
    requires forall a, b :: leq(a, b) && leq(b, a) ==> a == b
    requires forall a, b, c :: leq(a, b) && leq(b, c) ==> leq(a, c)
    ensures TotalOrder(leq)
  {}

  // ---------------------------------------------------------------- sorting

  function Insert<T, K>(x: T, s: seq<T>, key: T -> K, leq: (K, K) -> bool): seq<T> {
    if s == [] || leq(key(x), key(s[0])) then [x] + s else [s[0]] + Insert(x, s[1..], key, leq)
  }

  /** Python's stable `sorted(s, key=key)`. */
  function SortBy<T, K>(s: seq<T>, key: T -> K, leq: (K, K) -> bool): seq<T> {
    if s == [] then [] else Insert(s[0], SortBy(s[1..], key, leq), key, leq)
  }

  ghost predicate Sorted<T, K>(s: seq<T>, key: T -> K, leq: (K, K) -> bool) {
    forall i, j | 0 <= i < j < |s| :: leq(key(s[i]), key(s[j]))
  }

  lemma {:induction false} InsertKeepsItems<T, K>(x: T, s: seq<T>, key: T -> K, leq: (K, K) -> bool)
    ensures multiset(Insert(x, s, key, leq)) == multiset{x} + multiset(s)
    decreases |s|
  {
    if s != [] && !leq(key(x), key(s[0])) {
      InsertKeepsItems(x, s[1..], key, leq);
      assert s == [s[0]] + s[1..];
    }
  }

  lemma {:induction false} InsertSorts<T, K(!new)>(x: T, s: seq<T>, key: T -> K, leq: (K, K) -> bool)
    requires TotalOrder(leq) && Sorted(s, key, leq)
    ensures Sorted(Insert(x, s, key, leq), key, leq)
    decreases |s|
  {
    if s == [] {
    } else if leq(key(x), key(s[0])) {
      forall y | y in s
        ensures leq(key(x), key(y))
      {
        assert leq(key(s[0]), key(y));
      }
    } else {
      InsertSorts(x, s[1..], key, leq);
      InsertKeepsItems(x, s[1..], key, leq);
      var rest := Insert(x, s[1..], key, leq);
      forall y | y in rest
        ensures leq(key(s[0]), key(y))
      {
        assert y in multiset(rest);
        assert y == x || y in s[1..];
      }
    }
  }

  lemma {:induction false} SortBySorts<T, K(!new)>(s: seq<T>, key: T -> K, leq: (K, K) -> bool)
    requires TotalOrder(leq)
    ensures multiset(SortBy(s, key, leq)) == multiset(s) && Sorted(SortBy(s, key, leq), key, leq)
    decreases |s|
  {
    if s != [] {
      SortBySorts(s[1..], key, leq);
      InsertSorts(s[0], SortBy(s[1..], key, leq), key, leq);
      InsertKeepsItems(s[0], SortBy(s[1..], key, leq), key, leq);
      assert s == [s[0]] + s[1..];
    }
  }

  lemma {:induction false} SortedIsUnique<T, K(!new)>(a: seq<T>, b: seq<T>, key: T -> K, leq: (K, K) -> bool)
    requires TotalOrder(leq) && multiset(a) == multiset(b) && Sorted(a, key, leq) && Sorted(b, key, leq)
    requires forall x, y | x in a && y in a && key(x) == key(y) :: x == y
    ensures a == b
    decreases |a|
  {
    hide TotalOrder, Sorted;
    assert |multiset(a)| == |a| && |multiset(b)| == |b|;
    if a != [] {
      HeadsAgree(a, b, key, leq);
      TailsAgree(a, b);
      SortedTail(a, key, leq);
      SortedTail(b, key, leq);
      SortedIsUnique(a[1..], b[1..], key, leq);
      assert a == [a[0]] + a[1..] && b == [b[0]] + b[1..];
    }
  }

  lemma HeadsAgree<T, K(!new)>(a: seq<T>, b: seq<T>, key: T -> K, leq: (K, K) -> bool)
    requires TotalOrder(leq) && multiset(a) == multiset(b) && Sorted(a, key, leq) && Sorted(b, key, leq)
    requires forall x, y | x in a && y in a && key(x) == key(y) :: x == y
    requires a != [] && b != []
    ensures a[0] == b[0]
  {
    assert a[0] in multiset(b) && b[0] in multiset(a);
    var i :| 0 <= i < |b| && b[i] == a[0];
    var j :| 0 <= j < |a| && a[j] == b[0];
    assert leq(key(b[0]), key(b[i])) && leq(key(a[0]), key(a[j]));
  }

  lemma TailsAgree<T>(a: seq<T>, b: seq<T>)
    requires a != [] && b != [] && multiset(a) == multiset(b) && a[0] == b[0]
    ensures multiset(a[1..]) == multiset(b[1..])
  {
    assert a == [a[0]] + a[1..] && b == [b[0]] + b[1..];
    assert multiset(a[1..]) == multiset(a) - multiset{a[0]};
    assert multiset(b[1..]) == multiset(b) - multiset{b[0]};
  }

  lemma SortedTail<T, K>(s: seq<T>, key: T -> K, leq: (K, K) -> bool)
    requires s != [] && Sorted(s, key, leq)
    ensures Sorted(s[1..], key, leq)
  {}

  /** Sorting does not depend on the order of the input when the keys are distinct. */
  lemma SortIgnoresOrder<T, K(!new)>(a: seq<T>, b: seq<T>, key: T -> K, leq: (K, K) -> bool)
    requires TotalOrder(leq) && multiset(a) == multiset(b)
    requires forall x, y | x in a && y in a && key(x) == key(y) :: x == y
    ensures SortBy(a, key, leq) == SortBy(b, key, leq)
  {
    hide TotalOrder, Sorted;
    SortBySorts(a, key, leq);
    SortBySorts(b, key, leq);
    var c := SortBy(a, key, leq);
    forall x, y | x in c && y in c && key(x) == key(y)
      ensures x == y
    {
      assert x in multiset(c) && y in multiset(c);
    }
    SortedIsUnique(c, SortBy(b, key, leq), key, leq);
  }

  // ---------------------------------------------------------------- the newest item per key

  predicate Below(a: (nat, nat, nat), b: (nat, nat, nat)) {
    a.0 < b.0 || (a.0 == b.0 && (a.1 < b.1 || (a.1 == b.1 && a.2 < b.2)))
  }

  /** The `latest` dictionary after a loop over the items: an item replaces the one with its key
      only when its rank is greater. */
  function Latest<T, K>(items: seq<T>, key: T -> K, rank: T -> (nat, nat, nat)): map<K, T> {
    if items == [] then map[]
    else
      var n := |items| - 1;
      var latest := Latest(items[..n], key, rank);
      var x := items[n];
      if key(x) !in latest || Below(rank(latest[key(x)]), rank(x)) then latest[key(x) := x] else latest
  }

  method LatestPerKey<T, K(==)>(items: seq<T>, key: T -> K, rank: T -> (nat, nat, nat)) returns (latest: map<K, T>)
    ensures latest == Latest(items, key, rank)
  {
    latest := map[];
    for i := 0 to |items|
      invariant latest == Latest(items[..i], key, rank)
    {
      assert items[..i + 1][..i] == items[..i];
      var x := items[i];
      if key(x) !in latest {
        latest := latest[key(x) := x];
      } else if Below(rank(latest[key(x)]), rank(x)) {
        latest := latest[key(x) := x];
      }
    }
    assert items[..|items|] == items;
  }

  /** `x` is the item of greatest rank among those with key `k`. */
  ghost predicate Greatest<T, K>(items: seq<T>, key: T -> K, rank: T -> (nat, nat, nat), k: K, x: T) {
    x in items && key(x) == k && forall y | y in items && key(y) == k :: !Below(rank(x), rank(y))
  }

  lemma {:induction false} LatestIsGreatest<T, K>(items: seq<T>, key: T -> K, rank: T -> (nat, nat, nat), k: K)
    ensures k in Latest(items, key, rank) <==> exists x :: x in items && key(x) == k
    ensures k in Latest(items, key, rank) ==> Greatest(items, key, rank, k, Latest(items, key, rank)[k])
    decreases |items|
  {
    if items != [] {
      var n := |items| - 1;
      LatestIsGreatest(items[..n], key, rank, k);
      assert items == items[..n] + [items[n]];
      assert forall y :: y in items <==> y in items[..n] || y == items[n];
    }
  }

  predicate DistinctRanks<T>(items: seq<T>, rank: T -> (nat, nat, nat)) {
    forall i, j | 0 <= i < |items| && 0 <= j < |items| && rank(items[i]) == rank(items[j]) :: i == j
  }

  lemma GreatestIsUnique<T, K>(items: seq<T>, key: T -> K, rank: T -> (nat, nat, nat), k: K, x: T, y: T)
    requires DistinctRanks(items, rank) && Greatest(items, key, rank, k, x) && Greatest(items, key, rank, k, y)
    ensures x == y
  {
    assert !Below(rank(x), rank(y)) && !Below(rank(y), rank(x));
    assert rank(x) == rank(y);
  }

  /** With distinct ranks the dictionary does not depend on the order of the items. */
  lemma LatestIgnoresOrder<T, K(!new)>(a: seq<T>, b: seq<T>, key: T -> K, rank: T -> (nat, nat, nat))
    requires multiset(a) == multiset(b) && DistinctRanks(a, rank)
    ensures Latest(a, key, rank) == Latest(b, key, rank)
  {
    hide DistinctRanks, Latest, Greatest;
    var m, w := Latest(a, key, rank), Latest(b, key, rank);
    assert forall x :: x in a <==> x in multiset(a);
    assert forall x :: x in b <==> x in multiset(b);
    forall k
      ensures k in m <==> k in w
      ensures k in m ==> m[k] == w[k]
    {
      LatestIsGreatest(a, key, rank, k);
      LatestIsGreatest(b, key, rank, k);
      if k in m {
        var x :| x in a && key(x) == k;
        assert x in b;
      }
      if k in w {
        var x :| x in b && key(x) == k;
        assert x in a;
        GreatestIsUnique(a, key, rank, k, m[k], w[k]);
      }
    }
    assert m.Keys == w.Keys;
  }

  lemma {:induction false} LeastExists<K(!new)>(keys: set<K>, leq: (K, K) -> bool) returns (k: K)
    requires keys != {} && TotalOrder(leq)
    ensures k in keys && forall j | j in keys :: leq(k, j)
    decreases |keys|
  {
    k :| k in keys;
    var rest := keys - {k};
    if rest != {} {
      var least := LeastExists(rest, leq);
      var first := k;
      if leq(first, least) {
        forall j | j in keys
          ensures leq(first, j)
        {
          if j != first { assert leq(least, j); }
        }
      } else {
        k := least;
      }
    } else {
      assert keys == {k};
    }
  }

  /** `tuple(latest[key] for key in sorted(latest))`. */
  ghost function InKeyOrder<T, K(!new)>(latest: map<K, T>, keys: set<K>, leq: (K, K) -> bool): seq<T>
    requires keys <= latest.Keys && TotalOrder(leq)
    decreases |keys|
  {
    if keys == {} then []
    else
      assert exists k :: k in keys && forall j | j in keys :: leq(k, j) by { var k := LeastExists(keys, leq); }
      var k :| k in keys && forall j | j in keys :: leq(k, j);
      [latest[k]] + InKeyOrder(latest, keys - {k}, leq)
  }

  // ---------------------------------------------------------------- collecting

  /** What a loop that appends at most one value per item collects. */
  function Collect<T, U>(items: seq<T>, f: T -> seq<U>): seq<U> {
    if items == [] then [] else Collect(items[..|items| - 1], f) + f(items[|items| - 1])
  }

  lemma {:induction false} CollectConcat<T, U>(a: seq<T>, b: seq<T>, f: T -> seq<U>)
    ensures Collect(a + b, f) == Collect(a, f) + Collect(b, f)
    decreases |b|
  {
    if b == [] {
      assert a + b == a;
    } else {
      var n := |b| - 1;
      assert (a + b)[..|a + b| - 1] == a + b[..n];
      CollectConcat(a, b[..n], f);
    }
  }

  lemma {:induction false} CollectIgnoresOrder<T, U>(a: seq<T>, b: seq<T>, f: T -> seq<U>)
    requires multiset(a) == multiset(b)
    ensures multiset(Collect(a, f)) == multiset(Collect(b, f))
    decreases |a|
  {
    if a == [] {
      assert |multiset(b)| == 0;
    } else {
      var n := |a| - 1;
      var x := a[n];
      var front, back := Around(b, x, multiset(a));
      assert a == a[..n] + [x];
      assert multiset(a) == multiset(a[..n]) + multiset{x};
      hide Collect;
      CollectIgnoresOrder(a[..n], front + back, f);
      CollectAround(front, x, back, b, f);
    }
  }

  lemma Around<T>(b: seq<T>, x: T, all: multiset<T>) returns (front: seq<T>, back: seq<T>)
    requires multiset(b) == all && x in all
    ensures b == front + [x] + back && multiset(front + back) == all - multiset{x}
  {
    assert x in multiset(b);
    var i :| 0 <= i < |b| && b[i] == x;
    front, back := b[..i], b[i + 1..];
    assert b == front + [x] + back;
  }

  lemma CollectAround<T, U>(front: seq<T>, x: T, back: seq<T>, whole: seq<T>, f: T -> seq<U>)
    requires whole == front + [x] + back
    ensures multiset(Collect(whole, f)) == multiset(Collect(front + back, f)) + multiset(f(x))
  {
    assert Collect([x], f) == f(x) by { assert [x][..0] == []; assert [] + f(x) == f(x); }
    hide Collect;
    CollectConcat(front, back, f);
    CollectConcat(front + [x], back, f);
    CollectConcat(front, [x], f);
  }

  lemma {:induction false} CollectedFrom<T, U>(items: seq<T>, f: T -> seq<U>, u: U)
    ensures u in Collect(items, f) <==> exists x :: x in items && u in f(x)
    decreases |items|
  {
    if items != [] {
      var n := |items| - 1;
      CollectedFrom(items[..n], f, u);
      assert items == items[..n] + [items[n]];
    }
  }
}
