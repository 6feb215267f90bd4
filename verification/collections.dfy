/** Sequence helpers shared by the parliament model.

    `Find` and `Filter` are JavaScript's `Array.prototype.find` and
    `Array.prototype.filter`: the first element satisfying a predicate (or
    `undefined`, here `None`), and the order-preserving sub-list of the
    elements satisfying it. The remaining members are facts about
    sequences whose elements have pairwise distinct keys (ids).
 */
module Collections {

  datatype Option<+T> = None | Some(value: T)

  /** Index of the first element satisfying `p`, or None when there is none. */
  function FirstIndex<T>(s: seq<T>, p: T -> bool): (r: Option<nat>)
    ensures r.None? <==> forall i :: 0 <= i < |s| ==> !p(s[i])
    ensures r.Some? ==> r.value < |s| && p(s[r.value])
    ensures r.Some? ==> forall j :: 0 <= j < r.value ==> !p(s[j])
  {
    if |s| == 0 then None
    else if p(s[0]) then Some(0)
    else
      match FirstIndex(s[1..], p)
      case None => None
      case Some(k) => Some(k + 1)
  }

  /** `Array.prototype.find`. */
  function Find<T>(s: seq<T>, p: T -> bool): (r: Option<T>)
    ensures r.None? <==> forall i :: 0 <= i < |s| ==> !p(s[i])
    ensures r.Some? ==>
      exists i :: 0 <= i < |s| && s[i] == r.value && p(s[i]) &&
        forall j :: 0 <= j < i ==> !p(s[j])
  {
    match FirstIndex(s, p)
    case None => None
    case Some(k) => Some(s[k])
  }

  /** `Array.prototype.filter`. */
  function Filter<T(!new)>(s: seq<T>, p: T -> bool): (r: seq<T>)
    ensures |r| <= |s|
    ensures forall x {:trigger x in r} :: x in r <==> x in s && p(x)
  {
    if |s| == 0 then []
    else
      assert s == [s[0]] + s[1..];
      (if p(s[0]) then [s[0]] else []) + Filter(s[1..], p)
  }

  /** Filter keeps every occurrence of a satisfying element and nothing else. */
  lemma {:induction false} FilterMultiset<T(!new)>(s: seq<T>, p: T -> bool)
    ensures forall x :: multiset(Filter(s, p))[x] == if p(x) then multiset(s)[x] else 0
    decreases |s|
  {
    if |s| > 0 {
      assert s == [s[0]] + s[1..];
      FilterMultiset(s[1..], p);
    }
  }

  /** `r` can be obtained from `s` by deleting elements: the relative order of what is kept is unchanged. */
  ghost predicate IsSubsequence<T>(r: seq<T>, s: seq<T>)
    decreases |s|
  {
    if |r| == 0 then true
    else if |s| == 0 then false
    else (r[0] == s[0] && IsSubsequence(r[1..], s[1..])) || IsSubsequence(r, s[1..])
  }

  lemma {:induction false} FilterIsSubsequence<T(!new)>(s: seq<T>, p: T -> bool)
    ensures IsSubsequence(Filter(s, p), s)
    decreases |s|
  {
    if |s| > 0 {
      FilterIsSubsequence(s[1..], p);
      var r := Filter(s, p);
      if p(s[0]) {
        assert r[0] == s[0] && r[1..] == Filter(s[1..], p);
      } else {
        assert r == Filter(s[1..], p);
      }
    }
  }

  /** Filtering distributes over concatenation; with `FilterSingleton` this
      determines `Filter` completely. */
  lemma {:induction false} FilterAppend<T(!new)>(a: seq<T>, b: seq<T>, p: T -> bool)
    ensures Filter(a + b, p) == Filter(a, p) + Filter(b, p)
    decreases |a|
  {
    if |a| > 0 {
      assert (a + b)[1..] == a[1..] + b;
      FilterAppend(a[1..], b, p);
    } else {
      assert a + b == b;
    }
  }

  /** Filter over a sequence cut at `m`. */
  lemma SplitFilter<T(!new)>(s: seq<T>, m: nat, p: T -> bool)
    requires m <= |s|
    ensures Filter(s, p) == Filter(s[0 .. m], p) + Filter(s[m .. |s|], p)
  {
    var front, back := s[0 .. m], s[m .. |s|];
    SliceJoin(s, m);
    FilterAppend(front, back, p);
    assert Filter(front + back, p) == Filter(s, p);
  }

  /** A sequence is its two parts at `m`, joined. */
  lemma SliceJoin<T>(s: seq<T>, m: nat)
    requires m <= |s|
    ensures s[0 .. m] + s[m .. |s|] == s
  {
  }

  /** Slices of a prefix are slices of the whole. */
  lemma FrontSlices<T>(s: seq<T>, m: nat, n: nat)
    requires m <= n <= |s|
    ensures s[0 .. n][0 .. m] == s[0 .. m] && s[0 .. n][m .. n] == s[m .. n]
  {
  }

  lemma FilterSingleton<T(!new)>(x: T, p: T -> bool)
    ensures Filter([x], p) == if p(x) then [x] else []
  {
    assert [x][1..] == [];
  }

  lemma {:induction false} FilterAll<T(!new)>(s: seq<T>, p: T -> bool)
    requires forall i :: 0 <= i < |s| ==> p(s[i])
    ensures Filter(s, p) == s
    decreases |s|
  {
    if |s| > 0 {
      FilterAll(s[1..], p);
      assert [s[0]] + s[1..] == s;
    }
  }

  lemma {:induction false} FilterNone<T(!new)>(s: seq<T>, p: T -> bool)
    requires forall i :: 0 <= i < |s| ==> !p(s[i])
    ensures Filter(s, p) == []
    decreases |s|
  {
    if |s| > 0 {
      FilterNone(s[1..], p);
    }
  }

  /** Filtering by a predicate and by its negation splits the sequence. */
  lemma {:induction false} FilterComplement<T(!new)>(s: seq<T>, p: T -> bool, q: T -> bool)
    requires forall x :: q(x) == !p(x)
    ensures |Filter(s, p)| + |Filter(s, q)| == |s|
    decreases |s|
  {
    if |s| > 0 {
      FilterComplement(s[1..], p, q);
    }
  }

  /** No two elements of `s` have the same key. */
  ghost predicate DistinctKeys<T, K>(s: seq<T>, key: T -> K) {
    forall i, j :: 0 <= i < j < |s| ==> key(s[i]) != key(s[j])
  }

  /** The set of keys of the elements of `s`. */
  ghost function KeySet<T, K(!new)>(s: seq<T>, key: T -> K): (ks: set<K>)
    ensures forall k :: k in ks <==> exists i :: 0 <= i < |s| && key(s[i]) == k
    decreases |s|
  {
    if |s| == 0 then {}
    else
      var rest := KeySet(s[1..], key);
      assert forall k :: k in rest <==> exists i :: 1 <= i < |s| && key(s[i]) == k by {
        forall k | k in rest ensures exists i :: 1 <= i < |s| && key(s[i]) == k {
          var i :| 0 <= i < |s[1..]| && key(s[1..][i]) == k;
          assert key(s[i + 1]) == k;
        }
      }
      {key(s[0])} + rest
  }

  /** Distinct keys of a non-empty sequence: distinct keys of the tail, none equal to the head's. */
  lemma DistinctKeysCons<T, K>(s: seq<T>, key: T -> K)
    requires |s| > 0
    ensures DistinctKeys(s, key) <==>
      DistinctKeys(s[1..], key) && forall x :: x in s[1..] ==> key(x) != key(s[0])
  {
    if DistinctKeys(s, key) {
      forall i, j | 0 <= i < j < |s[1..]| ensures key(s[1..][i]) != key(s[1..][j]) {
        assert s[1..][i] == s[i + 1] && s[1..][j] == s[j + 1];
      }
      forall x | x in s[1..] ensures key(x) != key(s[0]) {
        var i :| 0 <= i < |s[1..]| && s[1..][i] == x;
        assert s[i + 1] == x;
      }
    }
    if DistinctKeys(s[1..], key) && forall x :: x in s[1..] ==> key(x) != key(s[0]) {
      forall i, j | 0 <= i < j < |s| ensures key(s[i]) != key(s[j]) {
        assert s[j] == s[1..][j - 1];
        if i > 0 {
          assert s[i] == s[1..][i - 1];
        }
      }
    }
  }

  lemma {:induction false} DistinctKeySetSize<T, K(!new)>(s: seq<T>, key: T -> K)
    requires DistinctKeys(s, key)
    ensures |KeySet(s, key)| == |s|
    decreases |s|
  {
    if |s| > 0 {
      DistinctKeysCons(s, key);
      DistinctKeySetSize(s[1..], key);
      forall i | 0 <= i < |s[1..]| ensures key(s[1..][i]) != key(s[0]) {
        assert s[1..][i] in s[1..];
      }
      assert key(s[0]) !in KeySet(s[1..], key);
    }
  }

  lemma {:induction false} SetOfSeqSize<K>(ks: seq<K>)
    ensures |set k | k in ks| <= |ks|
    decreases |ks|
  {
    if |ks| > 0 {
      SetOfSeqSize(ks[1..]);
      assert (set k | k in ks) == {ks[0]} + (set k | k in ks[1..]);
    } else {
      assert (set k | k in ks) == {};
    }
  }

  /** Elements with distinct keys that all lie in `ks` are no more numerous than `ks`. */
  lemma KeysWithinBound<T, K(!new)>(s: seq<T>, key: T -> K, ks: seq<K>)
    requires DistinctKeys(s, key)
    requires forall i :: 0 <= i < |s| ==> key(s[i]) in ks
    ensures |s| <= |ks|
  {
    DistinctKeySetSize(s, key);
    SetOfSeqSize(ks);
    var inKs := set k | k in ks;
    assert KeySet(s, key) <= inKs;
    SubsetSize(KeySet(s, key), inKs);
  }

  lemma SubsetSize<K>(a: set<K>, b: set<K>)
    requires a <= b
    ensures |a| <= |b|
  {
    assert b == a + (b - a);
  }

  /** A filter keeps distinct keys distinct. */
  lemma {:induction false} FilterKeepsDistinctKeys<T(!new), K>(s: seq<T>, p: T -> bool, key: T -> K)
    requires DistinctKeys(s, key)
    ensures DistinctKeys(Filter(s, p), key)
    decreases |s|
  {
    if |s| > 0 {
      DistinctKeysCons(s, key);
      FilterKeepsDistinctKeys(s[1..], p, key);
      var rest := Filter(s[1..], p);
      if p(s[0]) {
        var r := Filter(s, p);
        assert r[1..] == rest;
        DistinctKeysCons(r, key);
      }
    }
  }
}
