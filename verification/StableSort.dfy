/**
  Sorting by descending key the way `Array.prototype.sort` does it: elements with equal
  keys keep their order.
 */
module StableSort {

  predicate Descending<T>(xs: seq<T>, key: T -> int) {
    forall i, j :: 0 <= i < j < |xs| ==> key(xs[i]) >= key(xs[j])
  }

  /** The elements with key `k`, in order. */
  function WithKey<T>(xs: seq<T>, key: T -> int, k: int): seq<T> {
    if xs == [] then [] else (if key(xs[0]) == k then [xs[0]] else []) + WithKey(xs[1..], key, k)
  }

  /** The same elements with equal keys in the same order. */
  ghost predicate StableRearrangement<T>(xs: seq<T>, ys: seq<T>, key: T -> int) {
    forall k :: WithKey(xs, key, k) == WithKey(ys, key, k)
  }

  function Insert<T>(x: T, xs: seq<T>, key: T -> int): seq<T> {
    if xs == [] || key(xs[0]) <= key(x) then [x] + xs else [xs[0]] + Insert(x, xs[1..], key)
  }

  function SortDescending<T>(xs: seq<T>, key: T -> int): seq<T> {
    if xs == [] then [] else Insert(xs[0], SortDescending(xs[1..], key), key)
  }

  lemma WithKeyCons<T>(x: T, xs: seq<T>, key: T -> int, k: int)
    ensures WithKey([x] + xs, key, k) == if key(x) == k then [x] + WithKey(xs, key, k) else WithKey(xs, key, k)
  {
    assert ([x] + xs)[1..] == xs;
  }

  lemma {:induction false} InsertAdds<T>(x: T, xs: seq<T>, key: T -> int)
    ensures multiset(Insert(x, xs, key)) == multiset(xs) + multiset{x}
  {
    if xs != [] && key(xs[0]) > key(x) {
      InsertAdds(x, xs[1..], key);
      assert xs == [xs[0]] + xs[1..];
    }
  }

  lemma {:induction false} InsertDescends<T>(x: T, xs: seq<T>, key: T -> int)
    requires Descending(xs, key)
    ensures Descending(Insert(x, xs, key), key)
  {
    if xs != [] && key(xs[0]) > key(x) {
      InsertDescends(x, xs[1..], key);
      var rest := Insert(x, xs[1..], key);
      InsertAdds(x, xs[1..], key);
      forall j | 0 <= j < |rest|
        ensures key(rest[j]) <= key(xs[0])
      {
        assert rest[j] in multiset(rest);
      }
    }
  }

  lemma {:induction false} InsertIsStable<T>(x: T, xs: seq<T>, key: T -> int, k: int)
    ensures WithKey(Insert(x, xs, key), key, k) == WithKey([x] + xs, key, k)
  {
    if xs != [] && key(xs[0]) > key(x) {
      var head, tail := xs[0], xs[1..];
      InsertIsStable(x, tail, key, k);
      WithKeyCons(head, Insert(x, tail, key), key, k);
      WithKeyCons(x, tail, key, k);
      WithKeyCons(x, xs, key, k);
      assert xs == [head] + tail;
      WithKeyCons(head, tail, key, k);
      if key(head) == k {
        assert WithKey(xs, key, k) == [head] + WithKey(tail, key, k);
      } else {
        assert WithKey(xs, key, k) == WithKey(tail, key, k);
      }
    }
  }

  lemma {:induction false} SortIsStable<T>(xs: seq<T>, key: T -> int)
    ensures Descending(SortDescending(xs, key), key)
    ensures multiset(SortDescending(xs, key)) == multiset(xs)
    ensures StableRearrangement(xs, SortDescending(xs, key), key)
  {
    if xs != [] {
      var rest := SortDescending(xs[1..], key);
      SortIsStable(xs[1..], key);
      InsertDescends(xs[0], rest, key);
      InsertAdds(xs[0], rest, key);
      assert xs == [xs[0]] + xs[1..];
      forall k
        ensures WithKey(xs, key, k) == WithKey(SortDescending(xs, key), key, k)
      {
        InsertIsStable(xs[0], rest, key, k);
        WithKeyCons(xs[0], rest, key, k);
        WithKeyCons(xs[0], xs[1..], key, k);
        assert WithKey(xs[1..], key, k) == WithKey(rest, key, k);
      }
    }
  }

  lemma {:induction false} WithKeyHas<T>(xs: seq<T>, key: T -> int, k: int)
    ensures WithKey(xs, key, k) != [] <==> exists i :: 0 <= i < |xs| && key(xs[i]) == k
  {
    if xs != [] {
      WithKeyHas(xs[1..], key, k);
      assert forall i :: 0 < i < |xs| ==> xs[i] == xs[1..][i - 1];
    }
  }

  /** Being descending and stable pins the result down, whatever algorithm produced it. */
  lemma {:induction false} StableOrderIsUnique<T>(xs: seq<T>, ys: seq<T>, key: T -> int)
    requires Descending(xs, key) && Descending(ys, key) && StableRearrangement(xs, ys, key)
    ensures xs == ys
    decreases |xs|
  {
    if xs == [] {
      if ys != [] {
        HeadsAgree(ys, xs, key);
      }
    } else {
      HeadsAgree(xs, ys, key);
      assert xs == [xs[0]] + xs[1..] && ys == [ys[0]] + ys[1..];
      forall k
        ensures WithKey(xs[1..], key, k) == WithKey(ys[1..], key, k)
      {
        assert WithKey(xs, key, k) == WithKey(ys, key, k);
        WithKeyCons(xs[0], xs[1..], key, k);
        WithKeyCons(ys[0], ys[1..], key, k);
        if key(xs[0]) == k {
          assert WithKey(xs[1..], key, k) == WithKey(xs, key, k)[1..];
          assert WithKey(ys[1..], key, k) == WithKey(ys, key, k)[1..];
        }
      }
      StableOrderIsUnique(xs[1..], ys[1..], key);
    }
  }

  lemma HeadsAgree<T>(xs: seq<T>, ys: seq<T>, key: T -> int)
    requires Descending(xs, key) && Descending(ys, key) && StableRearrangement(xs, ys, key)
    requires xs != []
    ensures ys != [] && xs[0] == ys[0]
  {
    var k := key(xs[0]);
    WithKeyHas(xs, key, k);
    WithKeyHas(ys, key, k);
    assert WithKey(xs, key, k) == WithKey(ys, key, k);
    var k' := key(ys[0]);
    WithKeyHas(ys, key, k');
    WithKeyHas(xs, key, k');
    assert WithKey(xs, key, k') == WithKey(ys, key, k');
    assert k == k';
    assert WithKey(xs, key, k)[0] == xs[0] && WithKey(ys, key, k)[0] == ys[0];
  }

  /** The `i`-th element is the first with the largest key. */
  predicate IsFirstLargest<T>(xs: seq<T>, key: T -> int, i: nat) {
    && i < |xs|
    && (forall j :: 0 <= j < |xs| ==> key(xs[j]) <= key(xs[i]))
    && (forall j :: 0 <= j < i ==> key(xs[j]) < key(xs[i]))
  }

  lemma FirstLargestOfTail<T>(xs: seq<T>, key: T -> int, i: nat)
    requires IsFirstLargest(xs, key, i) && i > 0
    ensures IsFirstLargest(xs[1..], key, i - 1)
  {
    assert forall j :: 0 <= j < |xs| - 1 ==> xs[1..][j] == xs[j + 1];
  }

  lemma {:induction false} SortStartsWithFirstLargest<T>(xs: seq<T>, key: T -> int, i: nat)
    requires IsFirstLargest(xs, key, i)
    ensures SortDescending(xs, key) != [] && SortDescending(xs, key)[0] == xs[i]
  {
    var rest := SortDescending(xs[1..], key);
    if i > 0 {
      FirstLargestOfTail(xs, key, i);
      SortStartsWithFirstLargest(xs[1..], key, i - 1);
    } else if rest != [] {
      SortIsStable(xs[1..], key);
      assert rest[0] in multiset(rest);
      assert rest[0] in xs[1..];
    }
  }
}
