/**
 * Order-preserving sequence operations the pipeline uses: a list-comprehension
 * filter (`[x for x in s if p(x)]`, `DataFrame.dropna`) and a keep-first
 * de-duplication on a key (`DataFrame.drop_duplicates(subset=..., keep="first")`).
 */
module Seqs {
  import opened Wrappers

  /** `[x for x in s if p(x)]`. */
  function Filter<T>(s: seq<T>, p: T -> bool): (r: seq<T>)
    ensures |r| <= |s|
    ensures forall i :: 0 <= i < |r| ==> p(r[i])
    ensures forall i :: 0 <= i < |r| ==> r[i] in s
    ensures forall i :: 0 <= i < |s| && p(s[i]) ==> s[i] in r
  {
    if s == [] then []
    else
      var rest := Filter(s[1..], p);
      assert forall i :: 1 <= i < |s| ==> s[i] == s[1..][i - 1];
      if p(s[0]) then [s[0]] + rest else rest
  }

  /** Filtering a concatenation filters each part and keeps them in order. */
  lemma {:induction false} FilterAppend<T>(s: seq<T>, t: seq<T>, p: T -> bool)
    ensures Filter(s + t, p) == Filter(s, p) + Filter(t, p)
  {
    if s == [] {
      assert s + t == t;
    } else {
      assert (s + t)[0] == s[0] && (s + t)[1..] == s[1..] + t;
      FilterAppend(s[1..], t, p);
    }
  }

  /** Two tests that agree on every element select the same elements. */
  lemma {:induction false} FilterSameTest<T>(s: seq<T>, p: T -> bool, q: T -> bool)
    requires forall i :: 0 <= i < |s| ==> p(s[i]) == q(s[i])
    ensures Filter(s, p) == Filter(s, q)
  {
    if s != [] { FilterSameTest(s[1..], p, q); }
  }

  /** The keys occurring in `s`. */
  function Keys<T, K>(s: seq<T>, key: T -> K): (ks: set<K>)
    ensures forall i :: 0 <= i < |s| ==> key(s[i]) in ks
    ensures forall k :: k in ks ==> exists i :: 0 <= i < |s| && key(s[i]) == k
  {
    set i | 0 <= i < |s| :: key(s[i])
  }

  /** Sequences whose elements agree on their keys position by position have the same keys. */
  lemma KeysAgree<T, U, K>(s: seq<T>, t: seq<U>, key: T -> K, key2: U -> K)
    requires |s| == |t|
    requires forall i :: 0 <= i < |s| ==> key(s[i]) == key2(t[i])
    ensures Keys(s, key) == Keys(t, key2)
  {
    forall k | k in Keys(s, key) ensures k in Keys(t, key2) {
      var i :| 0 <= i < |s| && key(s[i]) == k;
      assert key2(t[i]) == k;
    }
    forall k | k in Keys(t, key2) ensures k in Keys(s, key) {
      var i :| 0 <= i < |t| && key2(t[i]) == k;
      assert key(s[i]) == k;
    }
  }

  predicate DistinctKeys<T, K(==)>(s: seq<T>, key: T -> K)
  {
    forall i, j :: 0 <= i < j < |s| ==> key(s[i]) != key(s[j])
  }

  /**
   * Keep-first de-duplication, read from the end: the last element is kept
   * exactly when no earlier element has its key.
   */
  function DropDuplicates<T, K(==)>(s: seq<T>, key: T -> K): (r: seq<T>)
    ensures |r| <= |s|
    ensures forall i :: 0 <= i < |r| ==> r[i] in s
  {
    if s == [] then []
    else
      var init, last := s[..|s| - 1], s[|s| - 1];
      var kept := DropDuplicates(init, key);
      if key(last) in Keys(init, key) then kept else kept + [last]
  }

  /**
   * What is kept from a prefix of `s` is a prefix of what is kept from `s`: rows
   * come out in the order of their first occurrence.
   */
  lemma {:induction false} DropDuplicatesPrefix<T, K>(s: seq<T>, key: T -> K, i: nat)
    requires i <= |s|
    ensures DropDuplicates(s[..i], key) <= DropDuplicates(s, key)
    decreases |s|
  {
    if i < |s| {
      assert s[..i] == s[..|s| - 1][..i];
      DropDuplicatesPrefix(s[..|s| - 1], key, i);
    } else {
      assert s[..i] == s;
    }
  }

  lemma {:induction false} KeysSnoc<T, K>(s: seq<T>, x: T, key: T -> K)
    ensures Keys(s + [x], key) == Keys(s, key) + {key(x)}
  {
    var t := s + [x];
    assert forall i :: 0 <= i < |s| ==> t[i] == s[i];
    assert t[|s|] == x;
  }

  /** The rows kept have pairwise distinct keys, and every key of the input is kept. */
  lemma {:induction false} DropDuplicatesKeys<T, K>(s: seq<T>, key: T -> K)
    ensures DistinctKeys(DropDuplicates(s, key), key)
    ensures Keys(DropDuplicates(s, key), key) == Keys(s, key)
    ensures |DropDuplicates(s, key)| == |Keys(s, key)|
  {
    DropDuplicatesKeySet(s, key);
    DropDuplicatesDistinct(s, key);
  }

  /** The keys kept are the keys of the input, one row per key. */
  lemma {:induction false} DropDuplicatesKeySet<T, K>(s: seq<T>, key: T -> K)
    ensures Keys(DropDuplicates(s, key), key) == Keys(s, key)
    ensures |DropDuplicates(s, key)| == |Keys(s, key)|
  {
    if s != [] {
      var init, last := s[..|s| - 1], s[|s| - 1];
      var kept := DropDuplicates(init, key);
      DropDuplicatesKeySet(init, key);
      assert s == init + [last];
      KeysSnoc(init, last, key);
      var ks := Keys(init, key);
      assert Keys(s, key) == ks + {key(last)};
      if key(last) in ks {
        assert DropDuplicates(s, key) == kept;
        assert Keys(s, key) == ks;
      } else {
        assert DropDuplicates(s, key) == kept + [last];
        KeysSnoc(kept, last, key);
        assert Keys(kept + [last], key) == ks + {key(last)};
        assert |ks + {key(last)}| == |ks| + 1;
      }
    }
  }

  /** No two rows kept share a key. */
  lemma {:induction false} DropDuplicatesDistinct<T, K>(s: seq<T>, key: T -> K)
    ensures DistinctKeys(DropDuplicates(s, key), key)
  {
    if s != [] {
      var init, last := s[..|s| - 1], s[|s| - 1];
      var kept := DropDuplicates(init, key);
      DropDuplicatesDistinct(init, key);
      DropDuplicatesKeySet(init, key);
      if key(last) !in Keys(init, key) {
        var r := kept + [last];
        forall i, j | 0 <= i < j < |r| ensures key(r[i]) != key(r[j]) {
          if j == |kept| { assert key(r[i]) == key(kept[i]) && key(kept[i]) in Keys(kept, key); }
          else { assert r[i] == kept[i] && r[j] == kept[j]; }
        }
      }
    }
  }


  /** The first element of `s` with key `k`. */
  function FirstWithKey<T, K(==)>(s: seq<T>, key: T -> K, k: K): (x: T)
    requires k in Keys(s, key)
    ensures x in s && key(x) == k
  {
    if key(s[0]) == k then s[0]
    else
      assert k in Keys(s[1..], key) by {
        var i :| 0 <= i < |s| && key(s[i]) == k;
        assert s[1..][i - 1] == s[i];
      }
      FirstWithKey(s[1..], key, k)
  }

  lemma {:induction false} FirstWithKeySnoc<T, K>(s: seq<T>, x: T, key: T -> K, k: K)
    requires k in Keys(s, key)
    ensures k in Keys(s + [x], key) && FirstWithKey(s + [x], key, k) == FirstWithKey(s, key, k)
  {
    KeysSnoc(s, x, key);
    if key(s[0]) != k {
      assert (s + [x])[1..] == s[1..] + [x];
      assert k in Keys(s[1..], key) by {
        var i :| 0 <= i < |s| && key(s[i]) == k;
        assert s[1..][i - 1] == s[i];
      }
      FirstWithKeySnoc(s[1..], x, key, k);
    }
  }

  lemma {:induction false} FirstWithNewKey<T, K>(s: seq<T>, x: T, key: T -> K)
    requires key(x) !in Keys(s, key)
    ensures key(x) in Keys(s + [x], key) && FirstWithKey(s + [x], key, key(x)) == x
  {
    KeysSnoc(s, x, key);
    if s != [] {
      assert key(s[0]) != key(x);
      assert (s + [x])[1..] == s[1..] + [x];
      assert key(x) !in Keys(s[1..], key) by {
        forall i | 0 <= i < |s[1..]| ensures key(s[1..][i]) != key(x) { assert s[1..][i] == s[i + 1]; }
      }
      FirstWithNewKey(s[1..], x, key);
    } else {
      assert s + [x] == [x];
    }
  }

  /** Each row kept is the first row of the input with its key. */
  lemma {:induction false} DropDuplicatesKeepsFirst<T, K>(s: seq<T>, key: T -> K)
    ensures forall x :: x in DropDuplicates(s, key) ==>
      key(x) in Keys(s, key) && FirstWithKey(s, key, key(x)) == x
  {
    if s != [] {
      var init, last := s[..|s| - 1], s[|s| - 1];
      var kept := DropDuplicates(init, key);
      DropDuplicatesKeepsFirst(init, key);
      assert s == init + [last];
      KeysSnoc(init, last, key);
      forall x | x in DropDuplicates(s, key)
        ensures key(x) in Keys(s, key) && FirstWithKey(s, key, key(x)) == x
      {
        if x in kept {
          FirstWithKeySnoc(init, last, key, key(x));
        } else {
          FirstWithNewKey(init, last, key);
        }
      }
    }
  }

  /** A sequence whose keys are already distinct is left as it is. */
  lemma {:induction false} DropDuplicatesOfDistinct<T, K>(s: seq<T>, key: T -> K)
    requires DistinctKeys(s, key)
    ensures DropDuplicates(s, key) == s
  {
    if s != [] {
      var init, last := s[..|s| - 1], s[|s| - 1];
      assert DistinctKeys(init, key);
      DropDuplicatesOfDistinct(init, key);
      assert key(last) !in Keys(init, key) by {
        forall i | 0 <= i < |init| ensures key(init[i]) != key(last) { assert init[i] == s[i]; }
      }
      assert s == init + [last];
    }
  }

  /** De-duplicating twice changes nothing. */
  lemma DropDuplicatesIdempotent<T, K>(s: seq<T>, key: T -> K)
    ensures DropDuplicates(DropDuplicates(s, key), key) == DropDuplicates(s, key)
  {
    DropDuplicatesKeys(s, key);
    DropDuplicatesOfDistinct(DropDuplicates(s, key), key);
  }

  /** The values of the `Some` entries, in order: what a loop that appends only on success collects. */
  function Somes<T>(s: seq<Option<T>>): (r: seq<T>)
    ensures |r| <= |s|
  {
    if s == [] then []
    else (match s[0] case None => [] case Some(x) => [x]) + Somes(s[1..])
  }

  lemma {:induction false} SomesAppend<T>(s: seq<Option<T>>, t: seq<Option<T>>)
    ensures Somes(s + t) == Somes(s) + Somes(t)
  {
    if s == [] {
      assert s + t == t;
    } else {
      assert (s + t)[0] == s[0] && (s + t)[1..] == s[1..] + t;
      SomesAppend(s[1..], t);
    }
  }

  /** The positions of the `Some` entries of `s`, in increasing order. */
  function SomePositions<T>(s: seq<Option<T>>): seq<nat>
  {
    if s == [] then []
    else if s[0].Some? then [0] + Shift(SomePositions(s[1..]))
    else Shift(SomePositions(s[1..]))
  }

  /** Every position moved one place on. */
  function Shift(ps: seq<nat>): (r: seq<nat>)
    ensures |r| == |ps| && forall k :: 0 <= k < |ps| ==> r[k] == ps[k] + 1
  {
    seq(|ps|, k requires 0 <= k < |ps| => ps[k] + 1)
  }

  /** There are as many positions as values kept. */
  lemma {:induction false} SomePositionsLength<T>(s: seq<Option<T>>)
    ensures |SomePositions(s)| == |Somes(s)|
  {
    if s != [] { SomePositionsLength(s[1..]); }
  }

  /** Value `k` kept is the value at position `SomePositions(s)[k]`. */
  lemma {:induction false} SomeAtPosition<T>(s: seq<Option<T>>, k: nat)
    requires k < |Somes(s)|
    ensures k < |SomePositions(s)| && SomePositions(s)[k] < |s| && s[SomePositions(s)[k]] == Some(Somes(s)[k])
  {
    SomePositionsLength(s);
    var t := s[1..];
    SomePositionsLength(t);
    if s[0].Some? {
      assert Somes(s) == [s[0].value] + Somes(t);
      assert SomePositions(s) == [0] + Shift(SomePositions(t));
      if k > 0 {
        SomeAtPosition(t, k - 1);
        assert s[SomePositions(t)[k - 1] + 1] == t[SomePositions(t)[k - 1]];
      }
    } else {
      assert Somes(s) == Somes(t);
      assert SomePositions(s) == Shift(SomePositions(t));
      SomeAtPosition(t, k);
      assert s[SomePositions(t)[k] + 1] == t[SomePositions(t)[k]];
    }
  }

  /** Value `k` kept is the value at position `SomePositions(s)[k]`, one value per position. */
  lemma SomesAtPositions<T>(s: seq<Option<T>>)
    ensures |SomePositions(s)| == |Somes(s)|
    ensures forall k :: 0 <= k < |Somes(s)| ==>
      SomePositions(s)[k] < |s| && s[SomePositions(s)[k]] == Some(Somes(s)[k])
  {
    SomePositionsLength(s);
    forall k | 0 <= k < |Somes(s)| ensures SomePositions(s)[k] < |s| && s[SomePositions(s)[k]] == Some(Somes(s)[k]) {
      SomeAtPosition(s, k);
    }
  }

  /** The positions lie within `s`. */
  lemma {:induction false} SomePositionsBound<T>(s: seq<Option<T>>)
    ensures forall k :: 0 <= k < |SomePositions(s)| ==> SomePositions(s)[k] < |s|
  {
    if s != [] { SomePositionsBound(s[1..]); }
  }

  /** The positions strictly increase and lie within `s`. */
  lemma {:induction false} SomePositionsIncrease<T>(s: seq<Option<T>>)
    ensures forall k :: 0 <= k < |SomePositions(s)| ==> SomePositions(s)[k] < |s|
    ensures forall k, l :: 0 <= k < l < |SomePositions(s)| ==> SomePositions(s)[k] < SomePositions(s)[l]
  {
    SomePositionsBound(s);
    if s != [] {
      SomePositionsIncrease(s[1..]);
      var rest := SomePositions(s[1..]);
      var r := SomePositions(s);
      var d := if s[0].Some? then 1 else 0;
      if s[0].Some? { assert r == [0] + Shift(rest); } else { assert r == Shift(rest); }
      forall k, l | 0 <= k < l < |r| ensures r[k] < r[l] {
        assert r[l] == rest[l - d] + 1;
        if k < d {
          assert r[k] == 0;
        } else {
          assert r[k] == rest[k - d] + 1;
          assert rest[k - d] < rest[l - d];
        }
      }
    }
  }

  /** Every `Some` entry's position is listed. */
  lemma {:induction false} SomePositionsComplete<T>(s: seq<Option<T>>)
    ensures forall i :: 0 <= i < |s| && s[i].Some? ==> i in SomePositions(s)
  {
    if s != [] {
      SomePositionsComplete(s[1..]);
      var rest := SomePositions(s[1..]);
      var d := if s[0].Some? then 1 else 0;
      var r := SomePositions(s);
      if s[0].Some? { assert r == [0] + Shift(rest); } else { assert r == Shift(rest); }
      forall i | 0 <= i < |s| && s[i].Some? ensures i in r {
        if i == 0 {
          assert r[0] == 0;
        } else {
          assert s[1..][i - 1] == s[i];
          var j :| 0 <= j < |rest| && rest[j] == i - 1;
          assert r[d + j] == i;
        }
      }
    }
  }

  /** `[f(x, y) for x, y in zip(xs, ys)]` over two sequences of the same length. */
  function MapPairs<A, B, R>(xs: seq<A>, ys: seq<B>, f: (A, B) -> R): (r: seq<R>)
    requires |xs| == |ys|
    ensures |r| == |xs|
    ensures forall i :: 0 <= i < |xs| ==> r[i] == f(xs[i], ys[i])
  {
    seq(|xs|, i requires 0 <= i < |xs| => f(xs[i], ys[i]))
  }

  lemma MapPairsAppend<A, B, R>(xs: seq<A>, ys: seq<B>, us: seq<A>, vs: seq<B>, f: (A, B) -> R)
    requires |xs| == |ys| && |us| == |vs|
    ensures MapPairs(xs + us, ys + vs, f) == MapPairs(xs, ys, f) + MapPairs(us, vs, f)
  {
  }
}
