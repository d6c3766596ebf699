/**
 Sorting by key. Keys are sequences of numbers in lexicographic order, which covers every key the
 compiler sorts by: a name, a discriminator, and a pair of offset and name.
 */
module Sorting {
  type Key = seq<nat>

  predicate Below(a: Key, b: Key)
    decreases |a|
  {
    if a == [] then true
    else if b == [] then false
    else a[0] < b[0] || (a[0] == b[0] && Below(a[1..], b[1..]))
  }

  lemma {:induction false} BelowTotal(a: Key, b: Key)
    ensures Below(a, b) || Below(b, a)
    decreases |a|
  {
    if a != [] && b != [] && a[0] == b[0] {
      BelowTotal(a[1..], b[1..]);
    }
  }

  lemma {:induction false} BelowAntisymmetric(a: Key, b: Key)
    requires Below(a, b) && Below(b, a)
    ensures a == b
    decreases |a|
  {
    if a != [] {
      BelowAntisymmetric(a[1..], b[1..]);
      assert a == [a[0]] + a[1..] && b == [b[0]] + b[1..];
    }
  }

  lemma {:induction false} BelowTransitive(a: Key, b: Key, c: Key)
    requires Below(a, b) && Below(b, c)
    ensures Below(a, c)
    decreases |a|
  {
    if a != [] && a[0] == b[0] && b[0] == c[0] {
      BelowTransitive(a[1..], b[1..], c[1..]);
    }
  }

  predicate Ordered<T>(xs: seq<T>, key: T -> Key) {
    forall i, j | 0 <= i < j < |xs| :: Below(key(xs[i]), key(xs[j]))
  }

  /** No two positions hold elements with one key. */
  predicate DistinctKeys<T, K(==)>(xs: seq<T>, key: T -> K) {
    forall i, j | 0 <= i < j < |xs| :: key(xs[i]) != key(xs[j])
  }

  ghost function KeysOf<T, K>(xs: seq<T>, key: T -> K): set<K> {
    set i | 0 <= i < |xs| :: key(xs[i])
  }

  /** A loop that collects keys in a set and refuses one it has seen decides distinctness. */
  lemma DistinctStep<T, K>(xs: seq<T>, i: nat, key: T -> K)
    requires i < |xs|
    ensures KeysOf(xs[..i + 1], key) == KeysOf(xs[..i], key) + {key(xs[i])}
    ensures DistinctKeys(xs[..i + 1], key) <==> DistinctKeys(xs[..i], key) && key(xs[i]) !in KeysOf(xs[..i], key)
    ensures DistinctKeys(xs, key) ==> DistinctKeys(xs[..i + 1], key)
  {
    var before, after := xs[..i], xs[..i + 1];
    assert forall k | 0 <= k < i :: after[k] == before[k];
    assert after[i] == xs[i];
    forall x | x in KeysOf(before, key) + {key(xs[i])} ensures x in KeysOf(after, key) {
      if x in KeysOf(before, key) {
        var k :| 0 <= k < i && key(before[k]) == x;
        assert key(after[k]) == x;
      } else {
        assert key(after[i]) == x;
      }
    }
    if DistinctKeys(after, key) {
      forall k | 0 <= k < i ensures key(before[k]) != key(xs[i]) {
        assert key(after[k]) != key(after[i]);
      }
      assert DistinctKeys(before, key);
    }
  }

  lemma DistinctStart<T, K>(xs: seq<T>, key: T -> K)
    ensures KeysOf(xs[..0], key) == {} && DistinctKeys(xs[..0], key)
    ensures xs[..|xs|] == xs
  {
  }

  function Insert<T>(x: T, xs: seq<T>, key: T -> Key): seq<T> {
    if xs == [] || Below(key(x), key(xs[0])) then [x] + xs else [xs[0]] + Insert(x, xs[1..], key)
  }

  function SortBy<T>(xs: seq<T>, key: T -> Key): seq<T> {
    if xs == [] then [] else Insert(xs[0], SortBy(xs[1..], key), key)
  }

  lemma {:induction false} InsertAdds<T>(x: T, xs: seq<T>, key: T -> Key)
    ensures multiset(Insert(x, xs, key)) == multiset(xs) + multiset{x}
  {
    hide Below;
    if xs != [] && !Below(key(x), key(xs[0])) {
      InsertAdds(x, xs[1..], key);
      assert xs == [xs[0]] + xs[1..];
    }
  }

  lemma {:induction false} InsertSorts<T>(x: T, xs: seq<T>, key: T -> Key)
    requires Ordered(xs, key)
    ensures Ordered(Insert(x, xs, key), key)
  {
    hide Below;
    if xs == [] {
    } else if Below(key(x), key(xs[0])) {
      forall j | 0 < j < |xs| ensures Below(key(x), key(xs[j])) {
        BelowTransitive(key(x), key(xs[0]), key(xs[j]));
      }
    } else {
      var rest := Insert(x, xs[1..], key);
      InsertSorts(x, xs[1..], key);
      InsertAdds(x, xs[1..], key);
      BelowTotal(key(x), key(xs[0]));
      forall j | 0 <= j < |rest| ensures Below(key(xs[0]), key(rest[j])) {
        assert rest[j] in multiset(rest);
        assert rest[j] == x || rest[j] in xs[1..];
      }
    }
  }

  lemma {:induction false} SortSorts<T>(xs: seq<T>, key: T -> Key)
    ensures multiset(SortBy(xs, key)) == multiset(xs)
    ensures Ordered(SortBy(xs, key), key)
  {
    if xs != [] {
      SortSorts(xs[1..], key);
      InsertAdds(xs[0], SortBy(xs[1..], key), key);
      InsertSorts(xs[0], SortBy(xs[1..], key), key);
      assert xs == [xs[0]] + xs[1..];
    }
  }

  lemma SortMembers<T>(xs: seq<T>, key: T -> Key)
    ensures forall x :: x in SortBy(xs, key) <==> x in xs
    ensures |SortBy(xs, key)| == |xs|
  {
    SortSorts(xs, key);
    var ys := SortBy(xs, key);
    assert forall x :: x in ys <==> x in multiset(ys);
    assert |multiset(ys)| == |ys| && |multiset(xs)| == |xs|;
  }

  lemma IndexIn<T>(xs: seq<T>, x: T, bag: multiset<T>) returns (i: nat)
    requires multiset(xs) == bag && x in bag
    ensures i < |xs| && xs[i] == x
  {
    assert x in xs;
    i :| 0 <= i < |xs| && xs[i] == x;
  }

  /** Distinctness of keys as a property of the bag of elements. */
  ghost predicate DistinctBag<T(!new), K>(bag: multiset<T>, key: T -> K) {
    && (forall x | x in bag :: bag[x] == 1)
    && (forall x, y | x in bag && y in bag && key(x) == key(y) :: x == y)
  }

  lemma {:induction false} BagOfDistinctKeys<T(!new), K>(xs: seq<T>, key: T -> K)
    requires DistinctKeys(xs, key)
    ensures DistinctBag(multiset(xs), key)
  {
    if xs != [] {
      var first, rest := xs[0], xs[1..];
      BagOfDistinctKeys(rest, key);
      assert xs == [first] + rest;
      assert multiset(xs) == multiset{first} + multiset(rest);
      forall x | x in multiset(rest) ensures key(x) != key(first) {
        var i := IndexIn(rest, x, multiset(rest));
        assert xs[i + 1] == x;
      }
    }
  }

  lemma {:induction false} DistinctKeysOfBag<T(!new), K>(xs: seq<T>, key: T -> K)
    requires DistinctBag(multiset(xs), key)
    ensures DistinctKeys(xs, key)
  {
    if xs != [] {
      var first, rest := xs[0], xs[1..];
      assert xs == [first] + rest;
      assert multiset(xs) == multiset{first} + multiset(rest);
      assert first in multiset(xs) && multiset(rest)[first] == 0;
      forall x | x in multiset(rest) ensures multiset(rest)[x] == 1 {
        assert x in multiset(xs);
      }
      DistinctKeysOfBag(rest, key);
      forall j | 0 <= j < |rest| ensures key(first) != key(rest[j]) {
        assert rest[j] in multiset(rest);
      }
    }
  }

  lemma DistinctKeysInAnyOrder<T(!new), K>(xs: seq<T>, ys: seq<T>, key: T -> K)
    requires multiset(xs) == multiset(ys)
    ensures DistinctKeys(xs, key) <==> DistinctKeys(ys, key)
  {
    if DistinctKeys(xs, key) {
      BagOfDistinctKeys(xs, key);
      DistinctKeysOfBag(ys, key);
    }
    if DistinctKeys(ys, key) {
      BagOfDistinctKeys(ys, key);
      DistinctKeysOfBag(xs, key);
    }
  }

  lemma SameFirst<T>(xs: seq<T>, ys: seq<T>, key: T -> Key)
    requires multiset(xs) == multiset(ys) && xs != [] && ys != []
    requires Ordered(xs, key) && Ordered(ys, key) && DistinctKeys(xs, key)
    ensures xs[0] == ys[0]
  {
    hide Below;
    var i := IndexIn(ys, xs[0], multiset(xs));
    var j := IndexIn(xs, ys[0], multiset(ys));
    if i > 0 && j > 0 {
      BelowAntisymmetric(key(xs[0]), key(ys[0]));
    }
  }

  /** A bag of elements with distinct keys has one sorted order, whichever algorithm finds it. */
  lemma {:induction false} OneSortedOrder<T>(xs: seq<T>, ys: seq<T>, key: T -> Key)
    requires multiset(xs) == multiset(ys)
    requires Ordered(xs, key) && Ordered(ys, key) && DistinctKeys(xs, key)
    ensures xs == ys
  {
    assert |xs| == |multiset(xs)| == |multiset(ys)| == |ys|;
    if xs != [] {
      SameFirst(xs, ys, key);
      assert xs == [xs[0]] + xs[1..] && ys == [ys[0]] + ys[1..];
      assert multiset(xs[1..]) == multiset(xs) - multiset{xs[0]};
      assert multiset(ys[1..]) == multiset(ys) - multiset{ys[0]};
      OneSortedOrder(xs[1..], ys[1..], key);
    }
  }

  lemma SortInAnyOrder<T(!new)>(xs: seq<T>, ys: seq<T>, key: T -> Key)
    requires multiset(xs) == multiset(ys) && DistinctKeys(xs, key)
    ensures SortBy(xs, key) == SortBy(ys, key)
  {
    SortSorts(xs, key);
    SortSorts(ys, key);
    DistinctKeysInAnyOrder(xs, SortBy(xs, key), key);
    OneSortedOrder(SortBy(xs, key), SortBy(ys, key), key);
  }

  lemma SortOfSorted<T>(xs: seq<T>, key: T -> Key)
    requires Ordered(xs, key) && DistinctKeys(xs, key)
    ensures SortBy(xs, key) == xs
  {
    SortSorts(xs, key);
    OneSortedOrder(xs, SortBy(xs, key), key);
  }

  function Map<A, B>(f: A -> B, xs: seq<A>): (ys: seq<B>)
    ensures |ys| == |xs| && forall i | 0 <= i < |xs| :: ys[i] == f(xs[i])
  {
    seq(|xs|, i requires 0 <= i < |xs| => f(xs[i]))
  }

  function NameKey(name: string): Key {
    seq(|name|, i requires 0 <= i < |name| => name[i] as nat)
  }

  lemma NameKeyInjective(a: string, b: string)
    ensures NameKey(a) == NameKey(b) <==> a == b
  {
    if NameKey(a) == NameKey(b) {
      assert |a| == |NameKey(a)| == |NameKey(b)| == |b|;
      forall i | 0 <= i < |a| ensures a[i] == b[i] {
        assert NameKey(a)[i] == NameKey(b)[i];
      }
    }
  }
}
