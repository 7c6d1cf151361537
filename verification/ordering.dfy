/**
 * Python's `sorted(xs, key=..., reverse=True)` / `list.sort(key=...,
 * reverse=True)` on an integer key, and slicing `xs[:k]`. Python's sort is
 * stable also with `reverse=True`: items with equal keys keep their
 * original order.
 */
module Ordering {

  /** Keys never increase from left to right. */
  predicate NonIncreasing<T>(s: seq<T>, key: T -> int) {
    forall i, j :: 0 <= i < j < |s| ==> key(s[i]) >= key(s[j])
  }

  /** The items of `s` whose key is `v`, in their order in `s`. */
  function Tier<T>(s: seq<T>, key: T -> int, v: int): (r: seq<T>)
    ensures |r| <= |s|
    ensures forall x :: x in r ==> x in s && key(x) == v
  {
    if |s| == 0 then [] else (if key(s[0]) == v then [s[0]] else []) + Tier(s[1..], key, v)
  }

  /**
   * `t` is the stable descending sort of `s`: keys do not increase, and for
   * every key the items carrying it appear in `t` exactly as in `s`.
   */
  ghost predicate IsStableSortDesc<T>(t: seq<T>, s: seq<T>, key: T -> int) {
    NonIncreasing(t, key) && forall v :: Tier(t, key, v) == Tier(s, key, v)
  }

  /** Puts `x` before the first item whose key is not greater than its own. */
  function Insert<T>(x: T, s: seq<T>, key: T -> int): (r: seq<T>)
    ensures multiset(r) == multiset(s) + multiset{x}
    ensures |r| == |s| + 1
  {
    if |s| == 0 then [x]
    else if key(s[0]) <= key(x) then [x] + s
    else
      assert s == [s[0]] + s[1..];
      [s[0]] + Insert(x, s[1..], key)
  }

  /** Insertion sort, descending by `key`, stable. */
  function SortDesc<T>(s: seq<T>, key: T -> int): (r: seq<T>)
    ensures multiset(r) == multiset(s)
    ensures |r| == |s|
  {
    if |s| == 0 then []
    else
      assert s == [s[0]] + s[1..];
      Insert(s[0], SortDesc(s[1..], key), key)
  }

  lemma {:induction false} InsertSorted<T>(x: T, s: seq<T>, key: T -> int)
    requires NonIncreasing(s, key)
    ensures NonIncreasing(Insert(x, s, key), key)
  {
    if |s| > 0 && key(s[0]) > key(x) {
      InsertSorted(x, s[1..], key);
      var rest := Insert(x, s[1..], key);
      forall y | y in rest ensures key(y) <= key(s[0]) {
        assert y in multiset(rest);
        if y != x {
          assert y in s[1..];
        }
      }
    }
  }

  lemma {:induction false} InsertTier<T>(x: T, s: seq<T>, key: T -> int, v: int)
    ensures Tier(Insert(x, s, key), key, v) == (if key(x) == v then [x] else []) + Tier(s, key, v)
  {
    if |s| == 0 {
    } else if key(s[0]) <= key(x) {
      assert ([x] + s)[1..] == s;
    } else {
      InsertTier(x, s[1..], key, v);
      assert ([s[0]] + Insert(x, s[1..], key))[1..] == Insert(x, s[1..], key);
    }
  }

  /** The insertion sort is a stable descending sort. */
  lemma {:induction false} SortDescIsStable<T>(s: seq<T>, key: T -> int)
    ensures IsStableSortDesc(SortDesc(s, key), s, key)
  {
    if |s| > 0 {
      SortDescIsStable(s[1..], key);
      InsertSorted(s[0], SortDesc(s[1..], key), key);
      forall v ensures Tier(SortDesc(s, key), key, v) == Tier(s, key, v) {
        InsertTier(s[0], SortDesc(s[1..], key), key, v);
      }
    }
  }

  lemma TierHead<T>(s: seq<T>, key: T -> int)
    requires 0 < |s|
    ensures Tier(s, key, key(s[0])) == [s[0]] + Tier(s[1..], key, key(s[0]))
  {
  }

  /** In a non-increasing sequence no item has a key above the first one's. */
  lemma TierBelowHead<T>(s: seq<T>, key: T -> int, v: int)
    requires NonIncreasing(s, key) && 0 < |s| && Tier(s, key, v) != []
    ensures v <= key(s[0])
  {
    var x := Tier(s, key, v)[0];
    assert x in Tier(s, key, v);
    var i :| 0 <= i < |s| && s[i] == x;
  }

  /**
   * There is only one stable descending sort: two non-increasing sequences
   * with the same items per key are equal.
   */
  lemma {:induction false} StableSortDescUnique<T>(a: seq<T>, b: seq<T>, key: T -> int)
    requires NonIncreasing(a, key) && NonIncreasing(b, key)
    requires forall v :: Tier(a, key, v) == Tier(b, key, v)
    ensures a == b
    decreases |a|
  {
    if |a| == 0 {
      NoTiersNoItems(b, key, a);
    } else if |b| == 0 {
      NoTiersNoItems(a, key, b);
    } else {
      SameHead(a, b, key);
      forall v ensures Tier(a[1..], key, v) == Tier(b[1..], key, v) {
        TierTail(a, key, v);
        TierTail(b, key, v);
      }
      StableSortDescUnique(a[1..], b[1..], key);
      assert a == [a[0]] + a[1..] && b == [b[0]] + b[1..];
    }
  }

  /** A sequence whose every tier equals that of an empty sequence is empty. */
  lemma NoTiersNoItems<T>(s: seq<T>, key: T -> int, empty: seq<T>)
    requires |empty| == 0
    requires forall v :: Tier(empty, key, v) == Tier(s, key, v)
    ensures |s| == 0
  {
    if |s| > 0 {
      TierHead(s, key);
    }
  }

  /** Two non-empty, non-increasing sequences with equal tiers start with the same item. */
  lemma SameHead<T>(a: seq<T>, b: seq<T>, key: T -> int)
    requires NonIncreasing(a, key) && NonIncreasing(b, key) && 0 < |a| && 0 < |b|
    requires forall v :: Tier(a, key, v) == Tier(b, key, v)
    ensures a[0] == b[0]
  {
    TierHead(a, key);
    TierHead(b, key);
    TierBelowHead(a, key, key(b[0]));
    TierBelowHead(b, key, key(a[0]));
    assert Tier(a, key, key(a[0]))[0] == a[0];
    assert Tier(b, key, key(b[0]))[0] == b[0];
  }

  lemma TierTail<T>(s: seq<T>, key: T -> int, v: int)
    requires 0 < |s|
    ensures var skip := if key(s[0]) == v then 1 else 0;
      skip <= |Tier(s, key, v)| && Tier(s[1..], key, v) == Tier(s, key, v)[skip..]
  {
  }

  /** Any stable descending sort of `s` is the insertion sort of `s`. */
  lemma StableSortDescIsSortDesc<T>(t: seq<T>, s: seq<T>, key: T -> int)
    requires IsStableSortDesc(t, s, key)
    ensures t == SortDesc(s, key)
  {
    SortDescIsStable(s, key);
    StableSortDescUnique(t, SortDesc(s, key), key);
  }

  /** `s[:k]` with Python's slicing rules, including a negative `k`. */
  function Prefix<T>(s: seq<T>, k: int): (r: seq<T>)
    ensures 0 <= k ==> |r| == if k < |s| then k else |s|
    ensures k < 0 ==> |r| == if |s| + k < 0 then 0 else |s| + k
    ensures r == s[..|r|]
  {
    if 0 <= k then (if k < |s| then s[..k] else s)
    else if |s| + k < 0 then [] else s[..|s| + k]
  }

  /** A prefix of a non-increasing sequence is non-increasing. */
  lemma PrefixNonIncreasing<T>(s: seq<T>, key: T -> int, k: int)
    requires NonIncreasing(s, key)
    ensures NonIncreasing(Prefix(s, k), key)
  {
  }
}
