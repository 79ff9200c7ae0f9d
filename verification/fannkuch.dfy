/** The fannkuch ("pancake flipping") benchmark: it walks through the
    permutations of `0..n-1` with a counter array, and for each one that
    neither starts with 0 nor ends with `n-1` counts how many prefix reversals
    it takes to bring 0 to the front, keeping the largest count. Python lists
    are modelled as sequences, so `perm1[:]` is a copy by construction. */
module Fannkuch {
  import opened Common
  import opened Grouping

  /** `s` holds each of `0..n-1` exactly once: `n` distinct values in range. */
  predicate IsPerm(s: seq<int>, n: nat) {
    |s| == n && (forall i :: 0 <= i < n ==> 0 <= s[i] < n) && Distinct(s)
  }

  lemma DistinctAt(s: seq<int>, i: nat, j: nat)
    requires Distinct(s) && i < |s| && j < |s| && i != j
    ensures s[i] != s[j]
  {
    if j < i {
      assert s[j] != s[i];
    }
  }

  // ---------------------------------------------------------------------------
  // Flips
  // ---------------------------------------------------------------------------

  /** `perm[:k+1] = perm[k::-1]`: the first `k + 1` entries reversed. */
  function Flip(s: seq<int>, k: nat): (t: seq<int>)
    requires k < |s|
    ensures |t| == |s|
    ensures forall i :: 0 <= i <= k ==> t[i] == s[k - i]
    ensures forall i :: k < i < |s| ==> t[i] == s[i]
  {
    seq(|s|, i requires 0 <= i < |s| => if i <= k then s[k - i] else s[i])
  }

  /** Flipping the same prefix twice restores the sequence. */
  lemma FlipInvolution(s: seq<int>, k: nat)
    requires k < |s|
    ensures Flip(Flip(s, k), k) == s
  {
  }

  lemma FlipKeepsPerm(s: seq<int>, k: nat)
    requires IsPerm(s, |s|) && k < |s|
    ensures IsPerm(Flip(s, k), |s|)
  {
    var t := Flip(s, k);
    forall a, b | 0 <= a < b < |t| ensures t[a] != t[b] {
      var x := if a <= k then k - a else a;
      var y := if b <= k then k - b else b;
      DistinctAt(s, x, y);
    }
  }

  /** `perm1.insert(r, perm1.pop(0))`: the first `r + 1` entries rotated left by one. */
  function Rotate(s: seq<int>, r: nat): (t: seq<int>)
    requires r < |s|
    ensures |t| == |s|
    ensures forall i :: 0 <= i < r ==> t[i] == s[i + 1]
    ensures t[r] == s[0]
    ensures forall i :: r < i < |s| ==> t[i] == s[i]
  {
    s[1..r + 1] + [s[0]] + s[r + 1..]
  }

  /** `perm1.insert(0, perm1.pop(r))`, which undoes `Rotate`. */
  function RotateBack(s: seq<int>, r: nat): (t: seq<int>)
    requires r < |s|
  {
    [s[r]] + s[..r] + s[r + 1..]
  }

  lemma RotateRoundTrip(s: seq<int>, r: nat)
    requires r < |s|
    ensures RotateBack(Rotate(s, r), r) == s
  {
    var t := RotateBack(Rotate(s, r), r);
    assert forall i :: 0 <= i < |s| ==> t[i] == s[i];
  }

  lemma RotateKeepsPerm(s: seq<int>, r: nat)
    requires IsPerm(s, |s|) && r < |s|
    ensures IsPerm(Rotate(s, r), |s|)
  {
    var t := Rotate(s, r);
    forall a, b | 0 <= a < b < |t| ensures t[a] != t[b] {
      var x := if a < r then a + 1 else if a == r then 0 else a;
      var y := if b < r then b + 1 else if b == r then 0 else b;
      DistinctAt(s, x, y);
    }
  }

  // ---------------------------------------------------------------------------
  // Why flipping stops: the weight of the fixed points grows
  // ---------------------------------------------------------------------------

  /** Sum of `2^i` over the positions `i < j` where `s[i] == i`. */
  function Weight(s: seq<int>, j: nat): (w: nat)
    requires j <= |s|
    ensures w < Pow2(j)
  {
    if j == 0 then 0 else Weight(s, j - 1) + (if s[j - 1] == j - 1 then Pow2(j - 1) else 0)
  }

  /** Sequences that agree above position `k` gain the same weight there. */
  lemma {:induction false} WeightAbove(s: seq<int>, t: seq<int>, k: nat, j: nat)
    requires |s| == |t| && k < j <= |s|
    requires forall i :: k < i < |s| ==> s[i] == t[i]
    ensures Weight(t, j) - Weight(s, j) == Weight(t, k + 1) - Weight(s, k + 1)
    decreases j
  {
    if j > k + 1 {
      WeightAbove(s, t, k, j - 1);
    }
  }

  /** A flip with `k = s[0] != 0` fixes `k` at position `k`, where it was not
      before, and leaves the positions above `k` alone: the weight grows. */
  lemma FlipRaisesWeight(s: seq<int>)
    requires IsPerm(s, |s|) && |s| >= 1 && s[0] != 0
    ensures Weight(Flip(s, s[0]), |s|) > Weight(s, |s|)
  {
    var k := s[0];
    var t := Flip(s, k);
    DistinctAt(s, 0, k);
    assert Weight(t, k + 1) >= Pow2(k);
    assert Weight(s, k + 1) == Weight(s, k) < Pow2(k);
    WeightAbove(s, t, k, |s|);
  }

  /** The number of flips `perm[0]` needs to become 0. Every flip raises the
      weight, which stays below `2^n`, so the count is finite; on anything but
      a permutation it is 0. */
  function FlipCount(s: seq<int>): (f: nat)
    decreases Pow2(|s|) - Weight(s, |s|)
  {
    if |s| == 0 || !IsPerm(s, |s|) || s[0] == 0 then 0
    else
      FlipKeepsPerm(s, s[0]);
      FlipRaisesWeight(s);
      1 + FlipCount(Flip(s, s[0]))
  }

  /** Flipping terminates within `2^n` steps. */
  lemma {:induction false} FlipCountBound(s: seq<int>)
    ensures FlipCount(s) + Weight(s, |s|) < Pow2(|s|)
    decreases Pow2(|s|) - Weight(s, |s|)
  {
    if |s| > 0 && IsPerm(s, |s|) && s[0] != 0 {
      FlipKeepsPerm(s, s[0]);
      FlipRaisesWeight(s);
      FlipCountBound(Flip(s, s[0]));
    }
  }

  /** The inner loop of `fannkuch`: flips a copy of `perm1` until its first
      entry is 0, counting the flips. */
  method CountFlips(perm1: seq<int>) returns (flipsCount: nat, perm: seq<int>)
    requires IsPerm(perm1, |perm1|) && |perm1| >= 1
    ensures flipsCount == FlipCount(perm1)
    ensures IsPerm(perm, |perm1|) && perm[0] == 0
  {
    perm := perm1;
    flipsCount := 0;
    var k := perm[0];
    while k != 0
      invariant IsPerm(perm, |perm1|) && k == perm[0]
      invariant flipsCount + FlipCount(perm) == FlipCount(perm1)
      decreases Pow2(|perm1|) - Weight(perm, |perm|)
    {
      FlipKeepsPerm(perm, k);
      FlipRaisesWeight(perm);
      perm := Flip(perm, k);
      flipsCount := flipsCount + 1;
      k := perm[0];
    }
  }

  // ---------------------------------------------------------------------------
  // The counter array as a mixed-radix number
  // ---------------------------------------------------------------------------

  /** Entries `r..n-1` of `count` are the live digits, each in `1..i+1`. */
  predicate Bounded(count: seq<int>, r: nat) {
    forall i :: r <= i < |count| ==> 1 <= count[i] <= i + 1
  }

  /** Digit `i` of the countdown: an entry below `r` is about to be reset to
      its maximum `i + 1` and counts as the digit `i`; a live entry `c` counts
      as `c - 1`. */
  function Digit(count: seq<int>, r: nat, i: nat): int
    requires i < |count|
  {
    if i < r then i else count[i] - 1
  }

  /** The value of digits `1..j-1`, digit `i` weighing `i!`. */
  function RankTo(count: seq<int>, r: nat, j: nat): int
    requires 1 <= j <= |count|
    decreases j
  {
    if j == 1 then 0 else RankTo(count, r, j - 1) + Digit(count, r, j - 1) * Fact(j - 1)
  }

  /** How many passes remain after the current one. */
  function Rank(count: seq<int>, r: nat): int
    requires 1 <= |count|
  {
    RankTo(count, r, |count|)
  }

  /** Changing one digit `p` changes the value by the change in `digit * p!`. */
  lemma {:induction false} RankPoint(c1: seq<int>, r1: nat, c2: seq<int>, r2: nat, p: nat, j: nat)
    requires |c1| == |c2| && 1 <= j <= |c1| && 1 <= p
    requires forall i :: 1 <= i < j && i != p ==> Digit(c1, r1, i) == Digit(c2, r2, i)
    ensures RankTo(c2, r2, j) - RankTo(c1, r1, j)
      == if p < j then Digit(c2, r2, p) * Fact(p) - Digit(c1, r1, p) * Fact(p) else 0
    decreases j
  {
    if j > 1 {
      RankPoint(c1, r1, c2, r2, p, j - 1);
    }
  }

  /** All digits at their maximum: `sum i * i!` for `i < j` is `j! - 1`. */
  lemma {:induction false} RankMax(count: seq<int>, r: nat, j: nat)
    requires 1 <= j <= |count| && j <= r
    ensures RankTo(count, r, j) == Fact(j) - 1
    decreases j
  {
    if j > 1 {
      RankMax(count, r, j - 1);
      assert Fact(j) == (j - 1) * Fact(j - 1) + Fact(j - 1);
    }
  }

  lemma {:induction false} RankNonneg(count: seq<int>, r: nat, j: nat)
    requires 1 <= j <= |count| && Bounded(count, r)
    ensures RankTo(count, r, j) >= 0
    decreases j
  {
    if j > 1 {
      RankNonneg(count, r, j - 1);
      assert Digit(count, r, j - 1) >= 0;
      assert Digit(count, r, j - 1) * Fact(j - 1) >= 0;
    }
  }

  /** The loop `while r != 1: count[r-1] = r; r -= 1` resets the entries below
      the starting `r` to their maximum without changing the rank. */
  method ResetCounts(count: seq<int>, r: nat) returns (c: seq<int>)
    requires 1 <= r <= |count| && Bounded(count, r)
    ensures |c| == |count| && Bounded(c, 1)
    ensures forall i :: 1 <= i < r ==> c[i] == i + 1
    ensures forall i :: 0 <= i < |count| && (i == 0 || r <= i) ==> c[i] == count[i]
    ensures Rank(c, 1) == Rank(count, r)
  {
    c := count;
    var k := r;
    while k != 1
      invariant 1 <= k <= r && |c| == |count| && Bounded(c, k)
      invariant forall i :: k <= i < r ==> c[i] == i + 1
      invariant forall i :: 0 <= i < |count| && (i < k || r <= i) ==> c[i] == count[i]
      invariant Rank(c, k) == Rank(count, r)
    {
      ResetStep(c, k);
      c := c[k - 1 := k];
      k := k - 1;
    }
  }

  lemma ResetStep(c: seq<int>, k: nat)
    requires 2 <= k <= |c| && Bounded(c, k)
    ensures Bounded(c[k - 1 := k], k - 1)
    ensures Rank(c[k - 1 := k], k - 1) == Rank(c, k)
  {
    RankPoint(c, k, c[k - 1 := k], k - 1, |c|, |c|);
  }

  /** The loop `while r != n: perm1.insert(r, perm1.pop(0)); count[r] -= 1;
      if count[r] > 0: break; r += 1`, entered with `r == 1`. It counts the
      mixed-radix number down by one: `done` (the loop ran out) exactly when
      the rank was 0, and otherwise the rank drops by one. */
  method Advance(count: seq<int>, perm1: seq<int>) returns (c: seq<int>, p: seq<int>, r: nat, done: bool)
    requires 1 <= |count| && Bounded(count, 1) && IsPerm(perm1, |count|)
    ensures |c| == |count| && IsPerm(p, |count|)
    ensures done <==> Rank(count, 1) == 0
    ensures !done ==> 1 <= r < |count| && Bounded(c, r) && Rank(c, r) + 1 == Rank(count, 1)
    ensures p == RotateUpTo(perm1, if done then |count| - 1 else r)
  {
    var n := |count|;
    c, p, r := count, perm1, 1;
    while r != n
      invariant 1 <= r <= n && |c| == n && IsPerm(p, n)
      invariant forall i :: r <= i < n ==> c[i] == count[i]
      invariant forall i :: 1 <= i < r ==> c[i] == 0
      invariant Rank(c, r) + 1 == Rank(count, 1) + Fact(r)
      invariant p == RotateUpTo(perm1, r - 1)
    {
      RotateKeepsPerm(p, r);
      p := Rotate(p, r);
      var c1 := c[r := c[r] - 1];
      if c1[r] > 0 {
        DropDigit(c, r);
        RankNonneg(c1, r, n);
        c := c1;
        done := false;
        return;
      }
      CarryDigit(c, r);
      c := c1;
      r := r + 1;
    }
    RankMax(c, n, n);
    done := true;
    RankNonneg(count, 1, n);
  }

  /** `Rotate` at sizes `1, 2, ..., j`, one after the other. */
  function RotateUpTo(s: seq<int>, j: nat): (t: seq<int>)
    requires j < |s|
    ensures |t| == |s|
  {
    if j == 0 then s else Rotate(RotateUpTo(s, j - 1), j)
  }

  /** Decrementing a live digit that stays positive lowers the rank by `r!`. */
  lemma DropDigit(c: seq<int>, r: nat)
    requires 1 <= r < |c| && 1 < c[r]
    requires forall i :: 1 <= i < r ==> c[i] == 0
    ensures Rank(c[r := c[r] - 1], r) == Rank(c, r) - Fact(r)
  {
    RankPoint(c, r, c[r := c[r] - 1], r, r, |c|);
  }

  /** A digit that runs out (from 1 to 0) is carried: counted as its maximum
      `r` from the next position on. */
  lemma CarryDigit(c: seq<int>, r: nat)
    requires 1 <= r < |c| && c[r] == 1
    ensures Rank(c[r := 0], r + 1) == Rank(c, r) + r * Fact(r)
    ensures Fact(r + 1) == Fact(r) + r * Fact(r)
  {
    var f := Fact(r);
    assert Digit(c, r, r) * f == 0;
    assert Digit(c[r := 0], r + 1, r) * f == r * f;
    RankPoint(c, r, c[r := 0], r + 1, r, |c|);
    assert Fact(r + 1) == (r + 1) * f == f + r * f;
  }

  // ---------------------------------------------------------------------------
  // The benchmark
  // ---------------------------------------------------------------------------

  /** What a visited permutation contributes to `max_flips`: its flip count,
      if it passes the test `perm1[0] != 0 and perm1[m] != m`. */
  function Score(p: seq<int>): nat {
    if |p| >= 1 && p[0] != 0 && p[|p| - 1] != |p| - 1 then FlipCount(p) else 0
  }

  /** The largest score among `ps`, or 0 for none. */
  function MaxScore(ps: seq<seq<int>>): (m: nat)
    ensures forall i :: 0 <= i < |ps| ==> Score(ps[i]) <= m
    ensures m == 0 || exists i :: 0 <= i < |ps| && Score(ps[i]) == m
    decreases |ps|
  {
    if |ps| == 0 then 0
    else
      var m := MaxScore(ps[..|ps| - 1]);
      var s := Score(ps[|ps| - 1]);
      assert forall i :: 0 <= i < |ps| - 1 ==> ps[..|ps| - 1][i] == ps[i];
      if s > m then s else m
  }

  /** One pass of the outer loop of `fannkuch`: reset the counters below `r`,
      score `perm1`, then step to the next permutation. The pass ends the
      benchmark (`done`) exactly when no passes were left. */
  method Pass(count: seq<int>, r: nat, perm1: seq<int>, maxFlips: nat)
    returns (count': seq<int>, r': nat, perm1': seq<int>, maxFlips': nat, done: bool)
    requires 1 <= r <= |count| && Bounded(count, r) && IsPerm(perm1, |count|)
    ensures maxFlips' == if Score(perm1) > maxFlips then Score(perm1) else maxFlips
    ensures |count'| == |count| && IsPerm(perm1', |count|)
    ensures done <==> Rank(count, r) == 0
    ensures !done ==> 1 <= r' <= |count| && Bounded(count', r') && Rank(count', r') + 1 == Rank(count, r)
  {
    var m := |count| - 1;
    var c := ResetCounts(count, r);
    maxFlips' := maxFlips;
    if perm1[0] != 0 && perm1[m] != m {
      var flipsCount, _ := CountFlips(perm1);
      if flipsCount > maxFlips {
        maxFlips' := flipsCount;
      }
    }
    count', perm1', r', done := Advance(c, perm1);
  }

  /** Scoring one more permutation keeps `max_flips` the maximum so far. */
  lemma VisitScore(visited: seq<seq<int>>, p: seq<int>, m: nat)
    requires m == if Score(p) > MaxScore(visited) then Score(p) else MaxScore(visited)
    ensures m == MaxScore(visited + [p])
  {
    assert (visited + [p])[..|visited|] == visited;
  }

  /** `fannkuch(n)`. For `n < 1` the first `count[r-1]` indexes an empty list
      and raises `IndexError`. Otherwise the result is the largest score over
      the visited permutations, which are `n!` permutations of `0..n-1`, the
      first being the identity. */
  method Fannkuch(n: int) returns (res: Result<nat, string>, ghost visited: seq<seq<int>>)
    ensures n < 1 <==> res.Failure?
    ensures n >= 1 ==> res == Success(MaxScore(visited)) && |visited| == Fact(n)
    ensures n >= 1 ==> forall p :: p in visited ==> IsPerm(p, n)
    ensures n >= 1 ==> visited[0] == seq(n, i => i)
  {
    visited := [];
    if n < 1 {
      return Failure("IndexError"), visited;
    }
    var count := seq(n, i => i + 1);
    var maxFlips := 0;
    var r: nat := n;
    var perm1 := seq(n, i => i);
    RankMax(count, n, n);
    while true
      invariant |count| == n && 1 <= r <= n && Bounded(count, r)
      invariant IsPerm(perm1, n)
      invariant Rank(count, r) >= 0 && |visited| + Rank(count, r) + 1 == Fact(n)
      invariant maxFlips == MaxScore(visited)
      invariant forall p :: p in visited ==> IsPerm(p, n)
      invariant |visited| == 0 ==> perm1 == seq(n, i => i)
      invariant |visited| > 0 ==> visited[0] == seq(n, i => i)
      decreases Rank(count, r)
    {
      var count', r', perm1', maxFlips', done := Pass(count, r, perm1, maxFlips);
      VisitScore(visited, perm1, maxFlips');
      visited := visited + [perm1];
      if done {
        return Success(maxFlips'), visited;
      }
      RankNonneg(count', r', n);
      count, r, perm1, maxFlips := count', r', perm1', maxFlips';
    }
  }
}
