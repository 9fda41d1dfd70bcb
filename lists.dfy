/** The array operations the pages and reducers rely on (`filter`, `findIndex`, `reduce`,
    `new Set(...)`), written once and reused by every module that keeps a list. */
module Lists {

  /** `s.filter((_, j) => j !== i)`: drops exactly the element at index `i`, keeping the
      others in order; an index outside the list leaves it unchanged. */
  function RemoveAt<T>(s: seq<T>, i: int): (r: seq<T>)
    ensures 0 <= i < |s| ==> r == s[..i] + s[i + 1..]
    ensures !(0 <= i < |s|) ==> r == s
  {
    if s == [] then []
    else
      var rest := RemoveAt(s[1..], i - 1);
      if i == 0 then rest
      else
        assert 0 < i < |s| ==> [s[0]] + s[1..][..i - 1] == s[..i] && s[1..][i..] == s[i + 1..];
        [s[0]] + rest
  }

  /** After removing index `i`, the elements before it stay and the ones after it move down one. */
  lemma RemoveAtShifts<T>(s: seq<T>, i: int)
    requires 0 <= i < |s|
    ensures |RemoveAt(s, i)| == |s| - 1
    ensures forall j | 0 <= j < i :: RemoveAt(s, i)[j] == s[j]
    ensures forall j | i <= j < |s| - 1 :: RemoveAt(s, i)[j] == s[j + 1]
  {
    var r := RemoveAt(s, i);
    assert r == s[..i] + s[i + 1..];
    forall j | i <= j < |s| - 1 ensures r[j] == s[j + 1] {
      assert r[j] == s[i + 1..][j - i];
    }
  }

  /** `s.findIndex(e => key(e) === k)`: the first index whose key is `k`, or -1. */
  function FindIndex<T, K(==)>(s: seq<T>, key: T -> K, k: K): (r: int)
    ensures -1 <= r < |s|
    ensures r >= 0 ==> key(s[r]) == k && forall j | 0 <= j < r :: key(s[j]) != k
    ensures r == -1 <==> forall j | 0 <= j < |s| :: key(s[j]) != k
  {
    if s == [] then -1
    else if key(s[0]) == k then 0
    else
      var r := FindIndex(s[1..], key, k);
      assert forall j | 1 <= j < |s| :: s[j] == s[1..][j - 1];
      if r == -1 then -1 else r + 1
  }

  /** `s.filter(keep)`: the elements that pass `keep`, in their original order. */
  function Filter<T>(s: seq<T>, keep: T -> bool): (r: seq<T>)
    ensures |r| <= |s|
    ensures forall k | 0 <= k < |r| :: keep(r[k])
  {
    if s == [] then []
    else Filter(s[..|s| - 1], keep) + (if keep(s[|s| - 1]) then [s[|s| - 1]] else [])
  }

  /** Filtering never adds an element, and keeps every passing element with its multiplicity. */
  lemma {:induction false} FilterCounts<T>(s: seq<T>, keep: T -> bool)
    ensures multiset(Filter(s, keep)) <= multiset(s)
    ensures forall k | 0 <= k < |s| && keep(s[k]) :: multiset(Filter(s, keep))[s[k]] == multiset(s)[s[k]]
    decreases |s|
  {
    if s != [] {
      var init, last := s[..|s| - 1], s[|s| - 1];
      assert s == init + [last];
      FilterCounts(init, keep);
      var r := Filter(s, keep);
      var ri := Filter(init, keep);
      assert r == ri + (if keep(last) then [last] else []);
      forall k | 0 <= k < |s| && keep(s[k])
        ensures multiset(r)[s[k]] == multiset(s)[s[k]]
      {
        if k < |init| {
          assert s[k] == init[k];
        }
        if s[k] != last {
          assert k < |init|;
        } else if exists m | 0 <= m < |init| :: init[m] == last {
          var m :| 0 <= m < |init| && init[m] == last;
        } else {
          assert last !in multiset(init);
          assert last !in multiset(ri);
        }
      }
    }
  }

  /** The multiplicity of every value after filtering: that of the input for a passing
      value, none for a failing one. */
  lemma FilterMultiset<T>(s: seq<T>, keep: T -> bool)
    ensures forall x :: multiset(Filter(s, keep))[x] == if keep(x) then multiset(s)[x] else 0
  {
    FilterCounts(s, keep);
    var r := Filter(s, keep);
    forall x ensures multiset(r)[x] == if keep(x) then multiset(s)[x] else 0 {
      if !keep(x) {
        assert x !in r;
      } else if x in s {
        var k :| 0 <= k < |s| && s[k] == x;
      }
    }
  }

  /** Every element that passes the filter is in its result. */
  lemma FilterKeepsPassing<T>(s: seq<T>, keep: T -> bool)
    ensures forall k | 0 <= k < |s| && keep(s[k]) :: s[k] in Filter(s, keep)
  {
    FilterCounts(s, keep);
    forall k | 0 <= k < |s| && keep(s[k]) ensures s[k] in Filter(s, keep) {
      assert s[k] in multiset(s);
      assert s[k] in multiset(Filter(s, keep));
    }
  }

  /** Filtering keeps order: it distributes over concatenation. */
  lemma {:induction false} FilterAppend<T>(a: seq<T>, b: seq<T>, keep: T -> bool)
    ensures Filter(a + b, keep) == Filter(a, keep) + Filter(b, keep)
    decreases |b|
  {
    if b == [] {
      assert a + b == a;
    } else {
      var init, last := b[..|b| - 1], b[|b| - 1];
      assert (a + b)[..|a + b| - 1] == a + init;
      assert (a + b)[|a + b| - 1] == last;
      FilterAppend(a, init, keep);
    }
  }

  /** Filtering a list none of whose elements is dropped gives the list back. */
  lemma {:induction false} FilterKeepsAll<T>(s: seq<T>, keep: T -> bool)
    requires forall k | 0 <= k < |s| :: keep(s[k])
    ensures Filter(s, keep) == s
    decreases |s|
  {
    if s != [] {
      FilterKeepsAll(s[..|s| - 1], keep);
      assert s == s[..|s| - 1] + [s[|s| - 1]];
    }
  }

  /** Two predicates that agree on every element select the same elements. */
  lemma {:induction false} FilterSamePredicate<T>(s: seq<T>, p: T -> bool, q: T -> bool)
    requires forall k | 0 <= k < |s| :: p(s[k]) == q(s[k])
    ensures Filter(s, p) == Filter(s, q)
    decreases |s|
  {
    if s != [] {
      FilterSamePredicate(s[..|s| - 1], p, q);
    }
  }

  /** Overwriting an element that the filter drops with another one it drops changes nothing. */
  lemma {:induction false} FilterUpdateDropped<T>(s: seq<T>, i: nat, x: T, keep: T -> bool)
    requires i < |s| && !keep(s[i]) && !keep(x)
    ensures Filter(s[i := x], keep) == Filter(s, keep)
  {
    var t := s[i := x];
    assert s == s[..i] + [s[i]] + s[i + 1..];
    assert t == s[..i] + [x] + s[i + 1..];
    FilterAppend(s[..i] + [s[i]], s[i + 1..], keep);
    FilterAppend(s[..i], [s[i]], keep);
    FilterAppend(s[..i] + [x], s[i + 1..], keep);
    FilterAppend(s[..i], [x], keep);
    assert Filter([s[i]], keep) == [] by { assert [s[i]][..0] == []; }
    assert Filter([x], keep) == [] by { assert [x][..0] == []; }
  }

  /** A list splits into the elements a predicate keeps and those its negation keeps, and
      so does a total over it. */
  lemma {:induction false} FilterSplit<T>(s: seq<T>, keep: T -> bool, drop: T -> bool, f: T -> int)
    requires forall k | 0 <= k < |s| :: drop(s[k]) == !keep(s[k])
    ensures |Filter(s, keep)| + |Filter(s, drop)| == |s|
    ensures Sum(Filter(s, keep), f) + Sum(Filter(s, drop), f) == Sum(s, f)
    decreases |s|
  {
    if s != [] {
      var init, last := s[..|s| - 1], s[|s| - 1];
      FilterSplit(init, keep, drop, f);
      var kept, dropped := Filter(init, keep), Filter(init, drop);
      assert Sum([last], f) == f(last) by { assert [last][..0] == []; }
      if keep(last) {
        assert Filter(s, keep) == kept + [last];
        assert Filter(s, drop) == dropped;
        SumAppend(kept, [last], f);
      } else {
        assert Filter(s, keep) == kept;
        assert Filter(s, drop) == dropped + [last];
        SumAppend(dropped, [last], f);
      }
    }
  }

  /** `s.filter(e => key(e) !== k)`: every element with key `k` removed, the rest kept in order. */
  function RemoveKey<T, K(==)>(s: seq<T>, key: T -> K, k: K): (r: seq<T>)
  {
    Filter(s, e => key(e) != k)
  }

  /** The elements whose key is `k`, in order: what `RemoveKey` removes. */
  function WithKey<T, K(==)>(s: seq<T>, key: T -> K, k: K): (r: seq<T>)
  {
    Filter(s, e => key(e) == k)
  }

  /** `RemoveKey` and `WithKey` split a list, and every total over it. */
  lemma RemoveKeySplit<T, K>(s: seq<T>, key: T -> K, k: K, f: T -> int)
    ensures |RemoveKey(s, key, k)| + |WithKey(s, key, k)| == |s|
    ensures Sum(RemoveKey(s, key, k), f) + Sum(WithKey(s, key, k), f) == Sum(s, f)
  {
    FilterSplit(s, e => key(e) != k, e => key(e) == k, f);
  }

  /** Removing elements never raises a total of non-negative terms. */
  lemma RemoveKeySumAtMost<T, K>(s: seq<T>, key: T -> K, k: K, f: T -> int)
    requires forall j | 0 <= j < |s| :: f(s[j]) >= 0
    ensures Sum(RemoveKey(s, key, k), f) <= Sum(s, f)
  {
    SumFilterAtMost(s, e => key(e) != k, f);
  }

  /** Every element whose key is not `k` survives `RemoveKey`, and none whose key is `k` does. */
  lemma RemoveKeyKeepsOthers<T, K>(s: seq<T>, key: T -> K, k: K)
    ensures forall j | 0 <= j < |RemoveKey(s, key, k)| :: key(RemoveKey(s, key, k)[j]) != k
    ensures forall j | 0 <= j < |s| && key(s[j]) != k :: s[j] in RemoveKey(s, key, k)
  {
    var keep := e => key(e) != k;
    assert forall j | 0 <= j < |RemoveKey(s, key, k)| :: keep(RemoveKey(s, key, k)[j]);
    FilterKeepsPassing(s, keep);
  }

  /** What the delete reducers and the blog page's local delete promise. */
  lemma RemoveKeySpec<T, K>(s: seq<T>, key: T -> K, k: K)
    ensures forall j | 0 <= j < |RemoveKey(s, key, k)| :: key(RemoveKey(s, key, k)[j]) != k
    ensures forall x :: multiset(RemoveKey(s, key, k))[x] == if key(x) == k then 0 else multiset(s)[x]
    ensures (forall j | 0 <= j < |s| :: key(s[j]) != k) ==> RemoveKey(s, key, k) == s
  {
    var keep := e => key(e) != k;
    FilterCounts(s, keep);
    assert forall j | 0 <= j < |RemoveKey(s, key, k)| :: keep(RemoveKey(s, key, k)[j]);
    if forall j | 0 <= j < |s| :: key(s[j]) != k {
      FilterKeepsAll(s, keep);
    }
  }

  /** The course store's update: the first element whose key is `x`'s key becomes `x`;
      with no such element the list is unchanged. */
  function ReplaceFirst<T, K(==)>(s: seq<T>, key: T -> K, x: T): (r: seq<T>)
    ensures |r| == |s|
    ensures (forall j | 0 <= j < |s| :: key(s[j]) != key(x)) ==> r == s
    ensures var i := FindIndex(s, key, key(x));
      i >= 0 ==> r[i] == x && forall j | 0 <= j < |s| && j != i :: r[j] == s[j]
  {
    var i := FindIndex(s, key, key(x));
    if i == -1 then s else s[i := x]
  }

  /** The blog store's update: like `ReplaceFirst`, but appends `x` when no element matches. */
  function Upsert<T, K(==)>(s: seq<T>, key: T -> K, x: T): (r: seq<T>)
    ensures x in r
    ensures |r| == if exists j | 0 <= j < |s| :: key(s[j]) == key(x) then |s| else |s| + 1
    ensures forall j | 0 <= j < |s| && key(s[j]) != key(x) :: r[j] == s[j]
    ensures (forall j | 0 <= j < |s| :: key(s[j]) != key(x)) ==> r == s + [x]
    ensures var i := FindIndex(s, key, key(x)); i >= 0 ==> r == s[i := x]
  {
    var i := FindIndex(s, key, key(x));
    if i == -1 then
      assert (s + [x])[|s|] == x;
      s + [x]
    else
      assert s[i := x][i] == x;
      s[i := x]
  }

  /** Deleting a key after an upsert of that key leaves what deleting it alone leaves:
      an update never resurrects a deleted document. */
  lemma UpsertThenRemove<T, K>(s: seq<T>, key: T -> K, x: T)
    ensures RemoveKey(Upsert(s, key, x), key, key(x)) == RemoveKey(s, key, key(x))
  {
    var keep := e => key(e) != key(x);
    var i := FindIndex(s, key, key(x));
    if i == -1 {
      FilterAppend(s, [x], keep);
      assert Filter([x], keep) == [] by { assert [x][..0] == []; }
    } else {
      FilterUpdateDropped(s, i, x, keep);
    }
  }

  /** No two elements share a key. */
  predicate UniqueKeys<T, K(==)>(s: seq<T>, key: T -> K)
  {
    forall i, j | 0 <= i < j < |s| :: key(s[i]) != key(s[j])
  }

  /** An upsert keeps the keys unique: the store never holds two copies of one document. */
  lemma UpsertKeepsUnique<T, K>(s: seq<T>, key: T -> K, x: T)
    requires UniqueKeys(s, key)
    ensures UniqueKeys(Upsert(s, key, x), key)
  {
    var r := Upsert(s, key, x);
    var i := FindIndex(s, key, key(x));
    if i == -1 {
      assert forall j | 0 <= j < |s| :: r[j] == s[j];
    } else {
      assert forall j | 0 <= j < |s| :: key(r[j]) == key(s[j]);
    }
  }

  /** `s.reduce((acc, e) => acc + f(e), 0)`, folded from the left as `reduce` does. */
  function Sum<T>(s: seq<T>, f: T -> int): int
  {
    if s == [] then 0 else Sum(s[..|s| - 1], f) + f(s[|s| - 1])
  }

  /** The running total of a concatenation is the sum of the two totals. */
  lemma {:induction false} SumAppend<T>(a: seq<T>, b: seq<T>, f: T -> int)
    ensures Sum(a + b, f) == Sum(a, f) + Sum(b, f)
    decreases |b|
  {
    if b == [] {
      assert a + b == a;
    } else {
      assert (a + b)[..|a + b| - 1] == a + b[..|b| - 1];
      SumAppend(a, b[..|b| - 1], f);
    }
  }

  /** A total of non-negative terms is non-negative. */
  lemma {:induction false} SumNonNegative<T>(s: seq<T>, f: T -> int)
    requires forall k | 0 <= k < |s| :: f(s[k]) >= 0
    ensures Sum(s, f) >= 0
    decreases |s|
  {
    if s != [] {
      SumNonNegative(s[..|s| - 1], f);
    }
  }

  /** Dropping elements never raises a total of non-negative terms. */
  lemma {:induction false} SumFilterAtMost<T>(s: seq<T>, keep: T -> bool, f: T -> int)
    requires forall k | 0 <= k < |s| :: f(s[k]) >= 0
    ensures Sum(Filter(s, keep), f) <= Sum(s, f)
    decreases |s|
  {
    if s != [] {
      var init, last := s[..|s| - 1], s[|s| - 1];
      SumFilterAtMost(init, keep, f);
      SumAppend(Filter(init, keep), if keep(last) then [last] else [], f);
      assert Sum([last], f) == f(last) by { assert [last][..0] == []; }
    }
  }

  /** `new Set(s.map(f))`: the distinct values `f` takes on the list. */
  function ValuesOf<T, U>(s: seq<T>, f: T -> U): (r: set<U>)
    ensures |r| <= |s|
    ensures s != [] ==> |r| >= 1
    ensures forall k | 0 <= k < |s| :: f(s[k]) in r
    ensures forall y | y in r :: exists k | 0 <= k < |s| :: f(s[k]) == y
  {
    if s == [] then {}
    else
      var init := s[..|s| - 1];
      var r := ValuesOf(init, f) + {f(s[|s| - 1])};
      assert forall k | 0 <= k < |init| :: s[k] == init[k];
      r
  }
}
