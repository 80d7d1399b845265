// The three non-preemptive simulations, in which every process arrives at
// time 0 and runs to completion once started: FCFS (input order), SJF
// (ascending burst) and Priority (ascending priority value).
module NonPreemptive {
  import opened Sequences

  /** Order lists indices below |key| and never puts a larger key before a smaller one. */
  predicate SortedBy(order: seq<nat>, key: seq<int>)
  {
    InBounds(order, |key|) &&
    forall j, k :: 0 <= j < k < |order| ==> key[order[j]] <= key[order[k]]
  }

  /**
   * First-Come-First-Serve: waiting[0] = 0 and each later process waits for
   * the bursts of all processes before it in input order.
   */
  method Fcfs(burst: seq<nat>) returns (waiting: seq<int>, scheduleEnd: int)
    requires |burst| > 0
    ensures |waiting| == |burst|
    ensures forall i :: 0 <= i < |burst| ==> waiting[i] == Sum(burst[..i])
    ensures scheduleEnd == Sum(burst)
    ensures waiting[|burst| - 1] + burst[|burst| - 1] == scheduleEnd
  {
    var n := |burst|;
    var w := new int[n];
    w[0] := 0;
    for i := 1 to n
      invariant forall k :: 0 <= k < i ==> w[k] == Sum(burst[..k])
    {
      w[i] := w[i - 1] + burst[i - 1];
      SumPrefix(burst, i - 1);
    }
    waiting := w[..];
    scheduleEnd := Sum(burst);
    SumPrefix(burst, n - 1);
    assert burst[..n] == burst;
  }

  /** Position of a least key among idx[from..]. */
  method LeastKeyFrom(idx: array<nat>, key: seq<int>, from: nat) returns (m: nat)
    requires from < idx.Length
    requires forall k :: 0 <= k < idx.Length ==> idx[k] < |key|
    ensures from <= m < idx.Length
    ensures forall k :: from <= k < idx.Length ==> key[idx[m]] <= key[idx[k]]
  {
    m := from;
    var j := from + 1;
    while j < idx.Length
      invariant from <= m < j <= idx.Length
      invariant forall k :: from <= k < j ==> key[idx[m]] <= key[idx[k]]
    {
      if key[idx[j]] < key[idx[m]] {
        m := j;
      }
      j := j + 1;
    }
  }

  /**
   * Selection-sort progress: the first `i` entries are in key order and no
   * later entry has a smaller key than any of them.
   */
  predicate SortedUpTo(s: seq<nat>, key: seq<int>, i: nat)
  {
    i <= |s| && InBounds(s, |key|) &&
    (forall j, k :: 0 <= j < k < i ==> key[s[j]] <= key[s[k]]) &&
    (forall j, k :: 0 <= j < i <= k < |s| ==> key[s[j]] <= key[s[k]])
  }

  /** Swapping a least key of s[i..] into place i extends the sorted prefix by one. */
  lemma SelectStep(s: seq<nat>, key: seq<int>, i: nat, m: nat)
    requires SortedUpTo(s, key, i) && i <= m < |s|
    requires forall k :: i <= k < |s| ==> key[s[m]] <= key[s[k]]
    ensures SortedUpTo(s[i := s[m]][m := s[i]], key, i + 1)
  {
    var t := s[i := s[m]][m := s[i]];
    assert forall k :: 0 <= k < |s| ==> t[k] == if k == i then s[m] else if k == m then s[i] else s[k];
    forall j, k | 0 <= j < k < i + 1
      ensures key[t[j]] <= key[t[k]]
    {
      if k == i {
        assert key[s[j]] <= key[s[m]];
      }
    }
    forall j, k | 0 <= j < i + 1 <= k < |t|
      ensures key[t[j]] <= key[t[k]]
    {
      if j == i && k == m {
        assert key[s[m]] <= key[s[i]];
      } else if j == i {
        assert key[s[m]] <= key[s[k]];
      } else if k == m {
        assert key[s[j]] <= key[s[i]];
      }
    }
  }

  /** A swap rearranges and neither adds nor removes. */
  lemma SwapPermutes(s: seq<nat>, i: nat, m: nat)
    requires i < |s| && m < |s|
    ensures multiset(s[i := s[m]][m := s[i]]) == multiset(s)
  {
  }

  /**
   * Array.Sort(idx, comparison) by key, in place. The .NET sort is not
   * stable, so all that is promised is a sorted rearrangement of idx.
   */
  method SortByKey(idx: array<nat>, key: seq<int>)
    requires forall k :: 0 <= k < idx.Length ==> idx[k] < |key|
    modifies idx
    ensures SortedBy(idx[..], key)
    ensures multiset(idx[..]) == multiset(old(idx[..]))
  {
    var i := 0;
    while i < idx.Length
      invariant SortedUpTo(idx[..], key, i)
      invariant multiset(idx[..]) == multiset(old(idx[..]))
    {
      var m := LeastKeyFrom(idx, key, i);
      ghost var s := idx[..];
      idx[i], idx[m] := idx[m], idx[i];
      SelectStep(s, key, i, m);
      SwapPermutes(s, i, m);
      assert idx[..] == s[i := s[m]][m := s[i]];
      i := i + 1;
    }
  }

  /** The execution order of SJF and Priority: the indices 0..n-1 sorted by key. */
  method ExecutionOrder(key: seq<int>) returns (order: seq<nat>)
    ensures IsPermutation(order, |key|)
    ensures SortedBy(order, key)
  {
    var idx := new nat[|key|](i => i);
    assert idx[..] == Range(|key|);
    SortByKey(idx, key);
    order := idx[..];
  }

  /**
   * Runs the processes back to back in the given order from time 0: each
   * waits for the bursts of the processes run before it, and the last one
   * finishes after the sum of all bursts.
   */
  method RunInOrder(burst: seq<nat>, order: seq<nat>) returns (waiting: seq<int>, elapsed: int)
    requires IsPermutation(order, |burst|)
    ensures |waiting| == |burst| && InBounds(order, |burst|)
    ensures forall k :: 0 <= k < |order| ==> waiting[order[k]] == SumAt(burst, order[..k])
    ensures forall i :: 0 <= i < |burst| ==> 0 <= waiting[i] && waiting[i] + burst[i] <= elapsed
    ensures elapsed == Sum(burst)
  {
    var n := |burst|;
    PermutationFacts(order, n);
    var w := new int[n];
    elapsed := 0;
    for k := 0 to n
      invariant elapsed == SumAt(burst, order[..k])
      invariant forall m :: 0 <= m < k ==> w[order[m]] == SumAt(burst, order[..m])
    {
      var p := order[k];
      w[p] := elapsed;
      elapsed := elapsed + burst[p];
      assert order[..k + 1][..k] == order[..k];
    }
    waiting := w[..];
    assert order[..n] == order;
    SumAtPermutation(burst, order);
    StartsWithinTotal(burst, order, waiting);
  }

  /** A process started after the bursts before it in the order finishes within the total. */
  lemma StartsWithinTotal(burst: seq<nat>, order: seq<nat>, waiting: seq<int>)
    requires IsPermutation(order, |burst|) && |waiting| == |burst| && InBounds(order, |burst|)
    requires forall k :: 0 <= k < |order| ==> waiting[order[k]] == SumAt(burst, order[..k])
    ensures forall i :: 0 <= i < |burst| ==> 0 <= waiting[i] && waiting[i] + burst[i] <= Sum(burst)
  {
    PermutationFacts(order, |burst|);
    SumAtPermutation(burst, order);
    forall i | 0 <= i < |burst|
      ensures 0 <= waiting[i] && waiting[i] + burst[i] <= Sum(burst)
    {
      assert i in order;
      var m :| 0 <= m < |order| && order[m] == i;
      PrefixWithin(burst, order, m);
    }
  }

  /** Shortest-Job-First, non-preemptive: run in ascending order of burst. */
  method Sjf(burst: seq<nat>) returns (order: seq<nat>, waiting: seq<int>, elapsed: int)
    requires |burst| > 0
    ensures IsPermutation(order, |burst|) && SortedBy(order, burst)
    ensures |waiting| == |burst|
    ensures forall k :: 0 <= k < |burst| ==> waiting[order[k]] == SumAt(burst, order[..k])
    ensures forall i :: 0 <= i < |burst| ==> 0 <= waiting[i] && waiting[i] + burst[i] <= elapsed
    ensures elapsed == Sum(burst)
  {
    order := ExecutionOrder(burst);
    waiting, elapsed := RunInOrder(burst, order);
  }

  /** Priority scheduling, non-preemptive: a lower priority value runs earlier. */
  method PriorityScheduling(burst: seq<nat>, priority: seq<int>) returns (order: seq<nat>, waiting: seq<int>, elapsed: int)
    requires |burst| > 0 && |priority| == |burst|
    ensures IsPermutation(order, |burst|) && SortedBy(order, priority)
    ensures |waiting| == |burst|
    ensures forall k :: 0 <= k < |burst| ==> waiting[order[k]] == SumAt(burst, order[..k])
    ensures forall i :: 0 <= i < |burst| ==> 0 <= waiting[i] && waiting[i] + burst[i] <= elapsed
    ensures elapsed == Sum(burst)
  {
    order := ExecutionOrder(priority);
    waiting, elapsed := RunInOrder(burst, order);
  }
}
