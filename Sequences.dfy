// Sums, counts, minima and index permutations over sequences: the LINQ
// operations (Sum, Min, Zip, Enumerable.Range) the scheduler relies on, and
// the facts about them that the simulations' loop invariants need. The
// Where of HRRN is HrrnScheduler.PendingArrivals.
module Sequences {

  /** Sum of all elements, peeled from the back so that prefix sums unfold. */
  function Sum(s: seq<int>): int
  {
    if |s| == 0 then 0 else Sum(s[..|s| - 1]) + s[|s| - 1]
  }

  lemma {:induction false} SumOfNaturals(s: seq<int>)
    requires forall i :: 0 <= i < |s| ==> s[i] >= 0
    ensures Sum(s) >= 0
  {
    if |s| > 0 {
      SumOfNaturals(s[..|s| - 1]);
    }
  }

  lemma {:induction false} SumPrefix(s: seq<int>, i: nat)
    requires i < |s|
    ensures Sum(s[..i + 1]) == Sum(s[..i]) + s[i]
  {
    assert s[..i + 1][..i] == s[..i];
  }

  /** Overwriting one element changes the sum by exactly the difference. */
  lemma {:induction false} SumUpdate(s: seq<int>, i: nat, v: int)
    requires i < |s|
    ensures Sum(s[i := v]) == Sum(s) - s[i] + v
  {
    var last := |s| - 1;
    if i < last {
      assert s[i := v][..last] == s[..last][i := v];
      SumUpdate(s[..last], i, v);
    } else {
      assert s[i := v][..last] == s[..last];
    }
  }

  lemma {:induction false} SumOfZeros(s: seq<int>)
    requires forall i :: 0 <= i < |s| ==> s[i] == 0
    ensures Sum(s) == 0
  {
    if |s| > 0 {
      SumOfZeros(s[..|s| - 1]);
    }
  }

  lemma {:induction false} SumMonotone(s: seq<int>, t: seq<int>)
    requires |s| == |t|
    requires forall i :: 0 <= i < |s| ==> s[i] <= t[i]
    ensures Sum(s) <= Sum(t)
  {
    if |s| > 0 {
      SumMonotone(s[..|s| - 1], t[..|t| - 1]);
    }
  }

  /** Element-wise sum of two sequences of equal length (LINQ Zip with +). */
  function ZipAdd(s: seq<int>, t: seq<int>): (r: seq<int>)
    requires |s| == |t|
    ensures |r| == |s| && forall i :: 0 <= i < |r| ==> r[i] == s[i] + t[i]
  {
    seq(|s|, i requires 0 <= i < |s| => s[i] + t[i])
  }

  lemma {:induction false} SumZipAdd(s: seq<int>, t: seq<int>)
    requires |s| == |t|
    ensures Sum(ZipAdd(s, t)) == Sum(s) + Sum(t)
  {
    if |s| > 0 {
      var last := |s| - 1;
      assert ZipAdd(s, t)[..last] == ZipAdd(s[..last], t[..last]);
      SumZipAdd(s[..last], t[..last]);
    }
  }

  /** Number of occurrences of x in s. */
  function Count<T(==)>(s: seq<T>, x: T): (r: nat)
    ensures r <= |s|
  {
    if |s| == 0 then 0
    else Count(s[..|s| - 1], x) + (if s[|s| - 1] == x then 1 else 0)
  }

  /** Overwriting one element moves the count by at most one, as expected. */
  lemma {:induction false} CountUpdate<T>(s: seq<T>, i: nat, v: T, x: T)
    requires i < |s|
    ensures Count(s[i := v], x) ==
            Count(s, x) - (if s[i] == x then 1 else 0) + (if v == x then 1 else 0)
  {
    var last := |s| - 1;
    if i < last {
      assert s[i := v][..last] == s[..last][i := v];
      CountUpdate(s[..last], i, v, x);
    } else {
      assert s[i := v][..last] == s[..last];
    }
  }

  lemma {:induction false} CountAbsent<T>(s: seq<T>, x: T)
    requires forall i :: 0 <= i < |s| ==> s[i] != x
    ensures Count(s, x) == 0
  {
    if |s| > 0 {
      CountAbsent(s[..|s| - 1], x);
    }
  }

  /** An element that occurs is counted. */
  lemma {:induction false} CountPresent<T>(s: seq<T>, i: nat, x: T)
    requires i < |s| && s[i] == x
    ensures Count(s, x) > 0
  {
    var last := |s| - 1;
    if i < last {
      assert s[..last][i] == x;
      CountPresent(s[..last], i, x);
    }
  }

  /** Every element equals x exactly when x is counted |s| times. */
  lemma {:induction false} CountAll<T>(s: seq<T>, x: T)
    ensures Count(s, x) == |s| <==> forall i :: 0 <= i < |s| ==> s[i] == x
  {
    if |s| > 0 {
      var last := |s| - 1;
      CountAll(s[..last], x);
      if Count(s, x) == |s| {
        assert s[last] == x;
        assert forall i :: 0 <= i < last ==> s[..last][i] == s[i];
      }
    }
  }

  /** Least element (LINQ Min on a non-empty sequence). */
  function MinOf(s: seq<int>): (m: int)
    requires |s| > 0
    ensures m in s
    ensures forall i :: 0 <= i < |s| ==> m <= s[i]
  {
    if |s| == 1 then s[0]
    else
      var m := MinOf(s[..|s| - 1]);
      if s[|s| - 1] < m then s[|s| - 1] else m
  }

  /** Greatest element; used only as a termination bound. */
  function MaxOf(s: seq<int>): (m: int)
    requires |s| > 0
    ensures m in s
    ensures forall i :: 0 <= i < |s| ==> s[i] <= m
  {
    if |s| == 1 then s[0]
    else
      var m := MaxOf(s[..|s| - 1]);
      if m < s[|s| - 1] then s[|s| - 1] else m
  }

  predicate AllEqual(s: seq<int>)
  {
    forall i, j :: 0 <= i < |s| && 0 <= j < |s| ==> s[i] == s[j]
  }

  /** Sum of b[i] over the indices i whose flag is set. */
  function SumWhere(b: seq<int>, flags: seq<bool>): int
    requires |b| == |flags|
  {
    if |b| == 0 then 0
    else
      var last := |b| - 1;
      SumWhere(b[..last], flags[..last]) + (if flags[last] then b[last] else 0)
  }

  lemma {:induction false} SumWhereSet(b: seq<int>, flags: seq<bool>, i: nat)
    requires |b| == |flags| && i < |b| && !flags[i]
    ensures SumWhere(b, flags[i := true]) == SumWhere(b, flags) + b[i]
  {
    var last := |b| - 1;
    if i < last {
      assert flags[i := true][..last] == flags[..last][i := true];
      SumWhereSet(b[..last], flags[..last], i);
    } else {
      assert flags[i := true][..last] == flags[..last];
    }
  }

  lemma {:induction false} SumWhereNone(b: seq<int>, flags: seq<bool>)
    requires |b| == |flags|
    requires forall i :: 0 <= i < |flags| ==> !flags[i]
    ensures SumWhere(b, flags) == 0
  {
    if |b| > 0 {
      SumWhereNone(b[..|b| - 1], flags[..|b| - 1]);
    }
  }

  lemma {:induction false} SumWhereAll(b: seq<int>, flags: seq<bool>)
    requires |b| == |flags|
    requires forall i :: 0 <= i < |flags| ==> flags[i]
    ensures SumWhere(b, flags) == Sum(b)
  {
    if |b| > 0 {
      SumWhereAll(b[..|b| - 1], flags[..|flags| - 1]);
    }
  }

  // ---------------------------------------------------------------------
  // Execution orders: permutations of the process indices 0..n-1
  // ---------------------------------------------------------------------

  /** The identity order 0, 1, ..., n-1 (Enumerable.Range(0, n)). */
  function Range(n: nat): (r: seq<nat>)
    ensures |r| == n && forall i :: 0 <= i < n ==> r[i] == i
  {
    seq(n, i => i)
  }

  predicate InBounds(xs: seq<nat>, n: nat)
  {
    forall k :: 0 <= k < |xs| ==> xs[k] < n
  }

  predicate IsPermutation(order: seq<nat>, n: nat)
  {
    |order| == n && multiset(order) == multiset(Range(n))
  }

  /** Sum of b over the indices listed in xs, in that order. */
  function SumAt(b: seq<int>, xs: seq<nat>): int
    requires InBounds(xs, |b|)
  {
    if |xs| == 0 then 0 else SumAt(b, xs[..|xs| - 1]) + b[xs[|xs| - 1]]
  }

  lemma {:induction false} SumAtAppend(b: seq<int>, xs: seq<nat>, ys: seq<nat>)
    requires InBounds(xs, |b|) && InBounds(ys, |b|)
    ensures InBounds(xs + ys, |b|)
    ensures SumAt(b, xs + ys) == SumAt(b, xs) + SumAt(b, ys)
  {
    if |ys| > 0 {
      var last := |ys| - 1;
      assert (xs + ys)[..|xs + ys| - 1] == xs + ys[..last];
      SumAtAppend(b, xs, ys[..last]);
    } else {
      assert xs + ys == xs;
    }
  }

  /** Taking out the k-th listed index removes exactly its term. */
  lemma SumAtRemove(b: seq<int>, ys: seq<nat>, k: nat)
    requires InBounds(ys, |b|) && k < |ys|
    ensures InBounds(ys[..k] + ys[k + 1..], |b|)
    ensures multiset(ys[..k] + ys[k + 1..]) == multiset(ys) - multiset{ys[k]}
    ensures SumAt(b, ys) == SumAt(b, ys[..k] + ys[k + 1..]) + b[ys[k]]
  {
    var pre, post := ys[..k], ys[k + 1..];
    SumAtSplit(b, ys, k);
    SumAtAppend(b, pre, post);
    RemoveAt(ys, k);
  }

  lemma SumAtSplit(b: seq<int>, ys: seq<nat>, k: nat)
    requires InBounds(ys, |b|) && k < |ys|
    ensures InBounds(ys[..k], |b|) && InBounds(ys[k + 1..], |b|)
    ensures SumAt(b, ys) == SumAt(b, ys[..k]) + b[ys[k]] + SumAt(b, ys[k + 1..])
  {
    var x, pre, post := ys[k], ys[..k], ys[k + 1..];
    assert ys == (pre + [x]) + post;
    SumAtAppend(b, pre + [x], post);
    SumAtAppend(b, pre, [x]);
    assert SumAt(b, [x]) == b[x] by {
      assert [x][..0] == [];
    }
  }

  lemma RemoveAt<T>(ys: seq<T>, k: nat)
    requires k < |ys|
    ensures multiset(ys[..k] + ys[k + 1..]) == multiset(ys) - multiset{ys[k]}
  {
    assert ys == ys[..k] + [ys[k]] + ys[k + 1..];
  }

  lemma DropLast<T>(xs: seq<T>)
    requires |xs| > 0
    ensures multiset(xs[..|xs| - 1]) == multiset(xs) - multiset{xs[|xs| - 1]}
  {
    assert xs == xs[..|xs| - 1] + [xs[|xs| - 1]];
  }

  /** SumAt depends only on which indices are listed, not on their order. */
  lemma {:induction false} SumAtReorder(b: seq<int>, xs: seq<nat>, ys: seq<nat>)
    requires InBounds(xs, |b|) && InBounds(ys, |b|)
    requires multiset(xs) == multiset(ys)
    ensures SumAt(b, xs) == SumAt(b, ys)
  {
    if |xs| == 0 {
      assert |ys| == |multiset(ys)| == 0;
    } else {
      var last := |xs| - 1;
      var x := xs[last];
      assert x in multiset(ys);
      var k :| 0 <= k < |ys| && ys[k] == x;
      SumAtRemove(b, ys, k);
      DropLast(xs);
      SumAtReorder(b, xs[..last], ys[..k] + ys[k + 1..]);
    }
  }

  lemma {:induction false} SumAtRange(b: seq<int>, n: nat)
    requires n <= |b|
    ensures InBounds(Range(n), |b|)
    ensures SumAt(b, Range(n)) == Sum(b[..n])
  {
    if n > 0 {
      assert Range(n)[..n - 1] == Range(n - 1);
      assert b[..n][..n - 1] == b[..n - 1];
      SumAtRange(b, n - 1);
    }
  }

  lemma {:induction false} RangeOnce(n: nat, x: nat)
    ensures multiset(Range(n))[x] == if x < n then 1 else 0
  {
    if n > 0 {
      assert Range(n) == Range(n - 1) + [n - 1];
      RangeOnce(n - 1, x);
      assert n - 1 !in Range(n - 1);
    }
  }

  /** A permutation of 0..n-1 lists every index below n exactly once. */
  lemma PermutationFacts(order: seq<nat>, n: nat)
    requires IsPermutation(order, n)
    ensures InBounds(order, n)
    ensures forall p :: 0 <= p < n ==> p in order
    ensures forall j, k :: 0 <= j < k < n ==> order[j] != order[k]
  {
    forall k | 0 <= k < |order| ensures order[k] < n {
      assert order[k] in multiset(order);
      RangeOnce(n, order[k]);
    }
    forall p | 0 <= p < n ensures p in order {
      RangeOnce(n, p);
      assert p in multiset(order);
    }
    forall j, k | 0 <= j < k < n ensures order[j] != order[k] {
      if order[j] == order[k] {
        var x := order[j];
        assert order == order[..k] + order[k..];
        assert x in order[..k];
        assert x in order[k..];
        assert multiset(order)[x] == multiset(order[..k])[x] + multiset(order[k..])[x];
        RangeOnce(n, x);
        assert false;
      }
    }
  }

  /** Running every process once, in any order, takes the sum of all bursts. */
  lemma SumAtPermutation(b: seq<int>, order: seq<nat>)
    requires IsPermutation(order, |b|)
    ensures InBounds(order, |b|)
    ensures SumAt(b, order) == Sum(b)
  {
    PermutationFacts(order, |b|);
    SumAtRange(b, |b|);
    SumAtReorder(b, order, Range(|b|));
    assert b[..|b|] == b;
  }

  lemma {:induction false} SumAtNonNegative(b: seq<int>, xs: seq<nat>)
    requires InBounds(xs, |b|)
    requires forall i :: 0 <= i < |b| ==> b[i] >= 0
    ensures SumAt(b, xs) >= 0
  {
    if |xs| > 0 {
      SumAtNonNegative(b, xs[..|xs| - 1]);
    }
  }

  /** With non-negative terms, the k-th listed index starts after a non-negative prefix and ends within the whole. */
  lemma PrefixWithin(b: seq<int>, xs: seq<nat>, k: nat)
    requires InBounds(xs, |b|) && k < |xs|
    requires forall i :: 0 <= i < |b| ==> b[i] >= 0
    ensures 0 <= SumAt(b, xs[..k]) && SumAt(b, xs[..k]) + b[xs[k]] <= SumAt(b, xs)
  {
    var head, tail := xs[..k + 1], xs[k + 1..];
    assert head[..k] == xs[..k];
    assert head + tail == xs;
    SumAtAppend(b, head, tail);
    SumAtNonNegative(b, xs[..k]);
    SumAtNonNegative(b, tail);
  }
}
