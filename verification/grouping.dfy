/** Counting by key, the idiom `d[k] = d.get(k, 0) + 1` that the aggregation,
    CSV and connection-statistics code all use, together with the key order a
    Python dict keeps (first insertion first) and the fact that the per-key
    counts partition the input. */
module Grouping {
  import opened Common

  /** Python's `for k in keys: d[k] = d.get(k, 0) + 1`, starting from `{}`. */
  function Tally<K(==,!new)>(keys: seq<K>): (m: map<K, nat>)
    ensures forall k :: k in m <==> k in keys
    ensures forall k :: k in m ==> m[k] == multiset(keys)[k]
    decreases |keys|
  {
    if |keys| == 0 then map[]
    else
      var init := keys[..|keys| - 1];
      var k := keys[|keys| - 1];
      assert keys == init + [k];
      Bump(Tally(init), k)
  }

  /** `d[k] = d.get(k, 0) + 1`. */
  function Bump<K>(d: map<K, nat>, k: K): map<K, nat> {
    d[k := (if k in d then d[k] else 0) + 1]
  }

  /** `for k in ks: d[k] = d.get(k, 0) + 1`, continuing from `d`. */
  function BumpAll<K>(d: map<K, nat>, ks: seq<K>): map<K, nat>
    decreases |ks|
  {
    if |ks| == 0 then d else Bump(BumpAll(d, ks[..|ks| - 1]), ks[|ks| - 1])
  }

  lemma TallySnoc<K(!new)>(keys: seq<K>, k: K)
    ensures Tally(keys + [k]) == Bump(Tally(keys), k)
  {
    assert (keys + [k])[..|keys|] == keys;
  }

  /** Continuing a tally over more keys is the tally of all of them. */
  lemma {:induction false} BumpAllTally<K(!new)>(keys: seq<K>, more: seq<K>)
    ensures BumpAll(Tally(keys), more) == Tally(keys + more)
    decreases |more|
  {
    if |more| == 0 {
      assert keys + more == keys;
    } else {
      var init, last := more[..|more| - 1], more[|more| - 1];
      BumpAllTally(keys, init);
      TallySnoc(keys + init, last);
      SplitLast(more);
      ConcatAssoc(keys, init, [last]);
    }
  }

  /** Keys of `Tally(keys)` in a Python dict's iteration order: by first occurrence. */
  function DistinctKeys<K(==,!new)>(keys: seq<K>): (ks: seq<K>)
    ensures forall k :: k in ks <==> k in keys
    ensures Distinct(ks)
    ensures |ks| <= |keys|
    decreases |keys|
  {
    if |keys| == 0 then []
    else
      var init := keys[..|keys| - 1];
      var k := keys[|keys| - 1];
      assert keys == init + [k];
      var ks := DistinctKeys(init);
      if k in ks then ks else ks + [k]
  }

  predicate Distinct<K(==)>(ks: seq<K>) {
    forall i, j :: 0 <= i < j < |ks| ==> ks[i] != ks[j]
  }

  /** The sum, over the keys `ks`, of how often each occurs in `keys`. */
  function CountSum<K(==)>(ks: seq<K>, keys: seq<K>): nat {
    if |ks| == 0 then 0 else multiset(keys)[ks[0]] + CountSum(ks[1..], keys)
  }

  /** Summing an indicator over distinct keys finds `x` once if it is present. */
  lemma {:induction false} CountSumSingle<K>(ks: seq<K>, x: K)
    requires Distinct(ks)
    ensures CountSum(ks, [x]) == if x in ks then 1 else 0
    decreases |ks|
  {
    if |ks| > 0 {
      CountSumSingle(ks[1..], x);
      if ks[0] == x {
        assert x !in ks[1..] by {
          forall j | 0 <= j < |ks[1..]|
            ensures ks[1..][j] != x
          {
            assert ks[1..][j] == ks[j + 1];
          }
        }
      }
    }
  }

  lemma {:induction false} CountSumAppend<K>(ks: seq<K>, a: seq<K>, b: seq<K>)
    ensures CountSum(ks, a + b) == CountSum(ks, a) + CountSum(ks, b)
    decreases |ks|
  {
    if |ks| > 0 {
      CountSumAppend(ks[1..], a, b);
    }
  }

  /** Per-key counts partition the input: over any duplicate-free list of keys
      covering every element, the counts add up to the length of the input. */
  lemma {:induction false} CountsPartition<K>(ks: seq<K>, keys: seq<K>)
    requires Distinct(ks)
    requires forall k :: k in keys ==> k in ks
    ensures CountSum(ks, keys) == |keys|
    decreases |keys|
  {
    if |keys| == 0 {
      CountSumEmpty(ks, keys);
    } else {
      var init := keys[..|keys| - 1];
      var x := keys[|keys| - 1];
      assert keys == init + [x];
      CountsPartition(ks, init);
      CountSumAppend(ks, init, [x]);
      CountSumSingle(ks, x);
    }
  }

  lemma {:induction false} CountSumEmpty<K>(ks: seq<K>, keys: seq<K>)
    requires |keys| == 0
    ensures CountSum(ks, keys) == 0
    decreases |ks|
  {
    if |ks| > 0 {
      CountSumEmpty(ks[1..], keys);
    }
  }

  /** The counts of a tally add up to the number of keys tallied, in dict order. */
  lemma TallyTotal<K(!new)>(keys: seq<K>)
    ensures CountSum(DistinctKeys(keys), keys) == |keys|
  {
    CountsPartition(DistinctKeys(keys), keys);
  }

  /** Number of elements of `s` that satisfy `p`. */
  function CountIf<T>(s: seq<T>, p: T -> bool): (n: nat)
    ensures n <= |s|
  {
    if |s| == 0 then 0 else (if p(s[0]) then 1 else 0) + CountIf(s[1..], p)
  }

  /** Elements of `s` that satisfy `p`, in order. */
  function Filter<T(!new)>(s: seq<T>, p: T -> bool): (r: seq<T>)
    ensures |r| == CountIf(s, p)
    ensures forall x :: x in r <==> x in s && p(x)
  {
    if |s| == 0 then []
    else (if p(s[0]) then [s[0]] else []) + Filter(s[1..], p)
  }

  lemma {:induction false} FilterAppend<T(!new)>(a: seq<T>, b: seq<T>, p: T -> bool)
    ensures Filter(a + b, p) == Filter(a, p) + Filter(b, p)
    decreases |a|
  {
    if |a| == 0 {
      assert a + b == b;
    } else {
      assert (a + b)[1..] == a[1..] + b;
      FilterAppend(a[1..], b, p);
    }
  }

  /** Filtering one more element at the end. */
  lemma FilterSnoc<T(!new)>(s: seq<T>, x: T, p: T -> bool)
    ensures Filter(s + [x], p) == Filter(s, p) + (if p(x) then [x] else [])
  {
    FilterAppend(s, [x], p);
    assert [x][1..] == [];
  }

  /** Counting depends only on the predicate's values on the elements. */
  lemma {:induction false} CountIfCongruent<T>(s: seq<T>, p: T -> bool, q: T -> bool)
    requires forall i :: 0 <= i < |s| ==> p(s[i]) == q(s[i])
    ensures CountIf(s, p) == CountIf(s, q)
    decreases |s|
  {
    if |s| > 0 {
      CountIfCongruent(s[1..], p, q);
    }
  }

  /** Changing the predicate at one element of a duplicate-free sequence
      changes the count by at most that element's contribution. */
  lemma {:induction false} CountIfPointUpdate<T>(s: seq<T>, p: T -> bool, q: T -> bool, x: T)
    requires Distinct(s)
    requires forall i :: 0 <= i < |s| && s[i] != x ==> p(s[i]) == q(s[i])
    ensures CountIf(s, q) == CountIf(s, p) - (if x in s && p(x) then 1 else 0) + (if x in s && q(x) then 1 else 0)
    decreases |s|
  {
    if |s| > 0 {
      assert Distinct(s[1..]) by {
        forall i, j | 0 <= i < j < |s[1..]| ensures s[1..][i] != s[1..][j] {
          assert s[1..][i] == s[i + 1] && s[1..][j] == s[j + 1];
        }
      }
      CountIfPointUpdate(s[1..], p, q, x);
      if s[0] == x {
        assert x !in s[1..] by {
          forall j | 0 <= j < |s[1..]| ensures s[1..][j] != x {
            assert s[1..][j] == s[j + 1];
          }
        }
      }
    }
  }

  /** The elements of a sequence, as a set. */
  function SetOf<T(!new)>(s: seq<T>): (r: set<T>)
    ensures forall x :: x in r <==> x in s
  {
    if |s| == 0 then {} else {s[0]} + SetOf(s[1..])
  }

  /** A duplicate-free sequence has as many elements as its set. */
  lemma {:induction false} DistinctSetSize<T(!new)>(s: seq<T>)
    requires Distinct(s)
    ensures |SetOf(s)| == |s|
    decreases |s|
  {
    if |s| > 0 {
      assert Distinct(s[1..]) by {
        forall i, j | 0 <= i < j < |s[1..]| ensures s[1..][i] != s[1..][j] {
          assert s[1..][i] == s[i + 1] && s[1..][j] == s[j + 1];
        }
      }
      DistinctSetSize(s[1..]);
      assert s[0] !in s[1..] by {
        forall j | 0 <= j < |s[1..]| ensures s[1..][j] != s[0] {
          assert s[1..][j] == s[j + 1];
        }
      }
    }
  }

  lemma {:induction false} CountIfAppend<T>(a: seq<T>, b: seq<T>, p: T -> bool)
    ensures CountIf(a + b, p) == CountIf(a, p) + CountIf(b, p)
    decreases |a|
  {
    if |a| == 0 {
      assert a + b == b;
    } else {
      assert (a + b)[1..] == a[1..] + b;
      CountIfAppend(a[1..], b, p);
    }
  }

  lemma CountIfSnoc<T>(s: seq<T>, x: T, p: T -> bool)
    ensures CountIf(s + [x], p) == CountIf(s, p) + (if p(x) then 1 else 0)
  {
    CountIfAppend(s, [x], p);
    assert [x][1..] == [];
  }

  /** Filtering keeps a sequence free of duplicates. */
  lemma {:induction false} FilterDistinct<T(!new)>(s: seq<T>, p: T -> bool)
    requires Distinct(s)
    ensures Distinct(Filter(s, p))
    decreases |s|
  {
    if |s| > 0 {
      assert Distinct(s[1..]) by {
        forall i, j | 0 <= i < j < |s[1..]| ensures s[1..][i] != s[1..][j] {
          assert s[1..][i] == s[i + 1] && s[1..][j] == s[j + 1];
        }
      }
      FilterDistinct(s[1..], p);
      var rest := Filter(s[1..], p);
      assert s[0] !in rest by {
        forall j | 0 <= j < |s[1..]| ensures s[1..][j] != s[0] {
          assert s[1..][j] == s[j + 1];
        }
      }
      var head: seq<T> := if p(s[0]) then [s[0]] else [];
      assert Filter(s, p) == head + rest;
      forall i, j | 0 <= i < j < |head + rest| ensures (head + rest)[i] != (head + rest)[j] {
        if i < |head| {
          assert (head + rest)[j] == rest[j - |head|];
        } else {
          assert (head + rest)[i] == rest[i - |head|] && (head + rest)[j] == rest[j - |head|];
        }
      }
    }
  }

  /** The sum of a map's values over the given keys, missing keys counting 0. */
  function SumOver<K>(m: map<K, nat>, ks: seq<K>): nat {
    if |ks| == 0 then 0 else (if ks[0] in m then m[ks[0]] else 0) + SumOver(m, ks[1..])
  }

  lemma {:induction false} SumOverTally<K(!new)>(keys: seq<K>, ks: seq<K>)
    ensures SumOver(Tally(keys), ks) == CountSum(ks, keys)
    decreases |ks|
  {
    if |ks| > 0 {
      SumOverTally(keys, ks[1..]);
    }
  }

  /** The counts of a tally, read in dict order, add up to the number of keys. */
  lemma TallySum<K(!new)>(keys: seq<K>)
    ensures SumOver(Tally(keys), DistinctKeys(keys)) == |keys|
  {
    SumOverTally(keys, DistinctKeys(keys));
    TallyTotal(keys);
  }

  /** An element that satisfies the predicate is counted. */
  lemma {:induction false} CountIfPositive<T>(s: seq<T>, p: T -> bool, x: T)
    requires x in s && p(x)
    ensures CountIf(s, p) >= 1
    decreases |s|
  {
    if s[0] != x {
      assert x in s[1..] by {
        var i :| 0 <= i < |s| && s[i] == x;
        assert s[1..][i - 1] == x;
      }
      CountIfPositive(s[1..], p, x);
    }
  }

  // ---------------------------------------------------------------------------
  // Folds and group-by: `d = defaultdict(init); for x in xs: update d[key(x)]`
  // ---------------------------------------------------------------------------

  /** `acc = init; for x in xs: acc = step(acc, x)`. */
  function Fold<T, A>(xs: seq<T>, init: A, step: (A, T) -> A): A
    decreases |xs|
  {
    if |xs| == 0 then init else step(Fold(xs[..|xs| - 1], init, step), xs[|xs| - 1])
  }

  lemma FoldSnoc<T, A>(xs: seq<T>, x: T, init: A, step: (A, T) -> A)
    ensures Fold(xs + [x], init, step) == step(Fold(xs, init, step), x)
  {
    assert (xs + [x])[..|xs|] == xs;
  }

  /** `[f(x) for x in xs]`. */
  function Project<T, K>(xs: seq<T>, f: T -> K): (ks: seq<K>)
    ensures |ks| == |xs|
    ensures forall i :: 0 <= i < |xs| ==> ks[i] == f(xs[i])
  {
    seq(|xs|, i requires 0 <= i < |xs| => f(xs[i]))
  }

  lemma ProjectSnoc<T, K>(xs: seq<T>, x: T, f: T -> K)
    ensures Project(xs + [x], f) == Project(xs, f) + [f(x)]
  {
  }

  lemma ProjectCons<T, K>(xs: seq<T>, f: T -> K)
    requires |xs| > 0
    ensures Project(xs, f) == [f(xs[0])] + Project(xs[1..], f)
  {
  }

  /** The test `key(x) == k`, as a value. */
  function HasKey<T, K(==)>(key: T -> K, k: K): T -> bool {
    x => key(x) == k
  }

  /** The loop body of a group-by: update the entry of `key(x)`, starting
      from `init` when it is missing. */
  function GroupStep<T, K(==), A>(key: T -> K, init: A, step: (A, T) -> A): (map<K, A>, T) -> map<K, A> {
    (m: map<K, A>, x: T) => m[key(x) := step(if key(x) in m then m[key(x)] else init, x)]
  }

  function GroupBy<T, K(==), A>(xs: seq<T>, key: T -> K, init: A, step: (A, T) -> A): map<K, A> {
    Fold(xs, map[], GroupStep(key, init, step))
  }

  /** `step` applied only to the elements that pass `p`, the others skipped. */
  function Guarded<T, A>(p: T -> bool, step: (A, T) -> A): (A, T) -> A {
    (a: A, x: T) => if p(x) then step(a, x) else a
  }

  /** The groups are exactly the keys that occur. */
  lemma {:induction false} GroupByKeys<T, K, A>(xs: seq<T>, key: T -> K, init: A, step: (A, T) -> A)
    ensures forall k :: k in GroupBy(xs, key, init, step) <==> k in Project(xs, key)
    decreases |xs|
  {
    if |xs| > 0 {
      var ys, x := xs[..|xs| - 1], xs[|xs| - 1];
      GroupByKeys(ys, key, init, step);
      SplitLast(xs);
      ProjectSnoc(ys, x, key);
    }
  }

  /** Each group holds the fold of the elements with its key, in input order. */
  lemma {:induction false} GroupByGroups<T(!new), K, A>(xs: seq<T>, key: T -> K, init: A, step: (A, T) -> A, k: K)
    ensures k in GroupBy(xs, key, init, step) ==>
      GroupBy(xs, key, init, step)[k] == Fold(Filter(xs, HasKey(key, k)), init, step)
    decreases |xs|
  {
    if |xs| > 0 {
      var ys, x := xs[..|xs| - 1], xs[|xs| - 1];
      GroupByGroups(ys, key, init, step, k);
      SplitLast(xs);
      FilterSnoc(ys, x, HasKey(key, k));
      var g := Filter(ys, HasKey(key, k));
      EmptyConcat(g);
      var m := GroupBy(ys, key, init, step);
      assert GroupBy(xs, key, init, step) == GroupStep(key, init, step)(m, x);
      assert GroupStep(key, init, step)(m, x) == m[key(x) := step(if key(x) in m then m[key(x)] else init, x)];
      if key(x) == k {
        FoldSnoc(g, x, init, step);
        if k !in GroupBy(ys, key, init, step) {
          GroupByKeys(ys, key, init, step);
          NoneWithKey(ys, key, k);
        }
      }
    }
  }

  /** No element has a key that does not occur. */
  lemma NoneWithKey<T(!new), K>(xs: seq<T>, key: T -> K, k: K)
    requires k !in Project(xs, key)
    ensures Filter(xs, HasKey(key, k)) == []
  {
  }

  /** Skipping the elements that fail `p` is folding over `Filter(xs, p)`. */
  lemma {:induction false} FoldGuarded<T(!new), A>(xs: seq<T>, p: T -> bool, init: A, step: (A, T) -> A)
    ensures Fold(xs, init, Guarded(p, step)) == Fold(Filter(xs, p), init, step)
    decreases |xs|
  {
    if |xs| > 0 {
      var ys, x := xs[..|xs| - 1], xs[|xs| - 1];
      FoldGuarded(ys, p, init, step);
      SplitLast(xs);
      FilterSnoc(ys, x, p);
      var guarded := Guarded(p, step);
      var a := Fold(ys, init, guarded);
      assert Fold(xs, init, guarded) == guarded(a, x);
      assert guarded(a, x) == if p(x) then step(a, x) else a;
      EmptyConcat(Filter(ys, p));
      if p(x) {
        FoldSnoc(Filter(ys, p), x, init, step);
      }
    }
  }

  /** The size of a group is the multiplicity of its key. */
  lemma {:induction false} CountIfKey<T, K>(xs: seq<T>, key: T -> K, k: K)
    ensures CountIf(xs, HasKey(key, k)) == multiset(Project(xs, key))[k]
    decreases |xs|
  {
    if |xs| > 0 {
      CountIfKey(xs[1..], key, k);
      ProjectCons(xs, key);
    }
  }

  /** `{key(x): x for x in xs}`: a later element replaces an earlier one with the same key. */
  function IndexBy<T, K>(xs: seq<T>, key: T -> K): map<K, T>
    decreases |xs|
  {
    if |xs| == 0 then map[]
    else IndexBy(xs[..|xs| - 1], key)[key(xs[|xs| - 1]) := xs[|xs| - 1]]
  }

  /** The index holds the keys that occur, each mapped to the last element carrying it. */
  lemma {:induction false} IndexByLast<T(!new), K>(xs: seq<T>, key: T -> K, k: K)
    ensures k in IndexBy(xs, key) <==> k in Project(xs, key)
    ensures k in IndexBy(xs, key) ==>
      var g := Filter(xs, HasKey(key, k)); |g| > 0 && IndexBy(xs, key)[k] == g[|g| - 1]
    decreases |xs|
  {
    if |xs| > 0 {
      var ys, x := xs[..|xs| - 1], xs[|xs| - 1];
      IndexByLast(ys, key, k);
      SplitLast(xs);
      ProjectSnoc(ys, x, key);
      FilterSnoc(ys, x, HasKey(key, k));
      EmptyConcat(Filter(ys, HasKey(key, k)));
    }
  }

  /** Per-key counts that agree with the multiplicities of `keys` add up, in
      dict order, to the number of keys. */
  lemma SumOverCounts<K(!new)>(m: map<K, nat>, keys: seq<K>)
    requires forall k :: k in m <==> k in keys
    requires forall k :: k in m ==> m[k] == multiset(keys)[k]
    ensures SumOver(m, DistinctKeys(keys)) == |keys|
  {
    SumOverAgree(m, Tally(keys), DistinctKeys(keys));
    TallySum(keys);
  }

  lemma {:induction false} SumOverAgree<K>(m: map<K, nat>, n: map<K, nat>, ks: seq<K>)
    requires forall k :: k in ks ==> (k in m <==> k in n) && (k in m ==> m[k] == n[k])
    ensures SumOver(m, ks) == SumOver(n, ks)
    decreases |ks|
  {
    if |ks| > 0 {
      SumOverAgree(m, n, ks[1..]);
    }
  }
}
