// Worked examples of the schedulers, derived from their contracts alone.
module Examples {
  import opened Sequences
  import opened Statistics
  import opened NonPreemptive
  import opened RoundRobinScheduler
  import opened Algorithms

  /** FCFS on bursts 5, 3, 8: each process waits for those before it, the run ends at 16. */
  method FcfsExample() returns (waiting: seq<int>, scheduleEnd: int)
    ensures waiting == [0, 5, 8] && scheduleEnd == 16
  {
    var burst: seq<nat> := [5, 3, 8];
    waiting, scheduleEnd := Fcfs(burst);
    assert burst[..1] == [5] && burst[..2] == [5, 3] && burst[..0] == [];
    SumOfFiveThreeEight();
  }

  /** The metrics of that FCFS run: mean waiting 13/3 over a span of 16 fully busy units. */
  lemma FcfsExampleMetrics()
    ensures ComputeMetrics(Simultaneous(3), [5, 3, 8], [0, 5, 8], 16) ==
            Metrics(13.0 / 3.0, 29.0 / 3.0, 100.0, 3.0 / 16.0)
  {
    var arrival := Simultaneous(3);
    assert arrival == [0, 0, 0];
    assert MinOf(arrival) == 0;
    assert ActiveSpan(arrival, 16) == 16;
    SumOfFiveThreeEight();
    assert [0, 5, 8][..2] == [0, 5] && [0, 5][..1] == [0] && [0][..0] == [];
    assert Average([0, 5, 8]) == 13.0 / 3.0;
    assert Average([5, 3, 8]) == 16.0 / 3.0;
    assert Utilisation(16, 16) == 100.0;
  }

  /**
   * SJF on bursts 6, 8, 7, 3: any permutation sorted by burst is 3, 0, 2, 1,
   * since the bursts are distinct, so the waiting times are 3, 16, 9, 0 and
   * the run ends at 24.
   */
  method SjfExample() returns (order: seq<nat>, waiting: seq<int>, elapsed: int)
    ensures order == [3, 0, 2, 1] && waiting == [3, 16, 9, 0] && elapsed == 24
  {
    var burst: seq<nat> := [6, 8, 7, 3];
    order, waiting, elapsed := Sjf(burst);
    DistinctSortedOrder(order, burst);
    SjfWaiting(burst, order, waiting);
    SjfPrefixSums(burst);
  }

  lemma SjfWaiting(burst: seq<int>, order: seq<nat>, waiting: seq<int>)
    requires burst == [6, 8, 7, 3] && order == [3, 0, 2, 1] && |waiting| == 4
    requires forall k :: 0 <= k < 4 ==> waiting[order[k]] == SumAt(burst, order[..k])
    ensures waiting == [3, 16, 9, 0]
  {
    SjfPrefixSums(burst);
    assert order[..0] == [] && order[..1] == [3] && order[..2] == [3, 0] && order[..3] == [3, 0, 2];
    assert waiting[order[0]] == SumAt(burst, order[..0]);
    assert waiting[order[1]] == SumAt(burst, order[..1]);
    assert waiting[order[2]] == SumAt(burst, order[..2]);
    assert waiting[order[3]] == SumAt(burst, order[..3]);
  }

  lemma SjfPrefixSums(burst: seq<int>)
    requires burst == [6, 8, 7, 3]
    ensures SumAt(burst, []) == 0 && SumAt(burst, [3]) == 3 && SumAt(burst, [3, 0]) == 9 &&
            SumAt(burst, [3, 0, 2]) == 16 && Sum(burst) == 24
  {
    assert [3, 0, 2][..2] == [3, 0] && [3, 0][..1] == [3] && [3][..0] == [];
    assert burst[..3] == [6, 8, 7] && [6, 8, 7][..2] == [6, 8] && [6, 8][..1] == [6] && [6][..0] == [];
  }

  lemma DistinctSortedOrder(order: seq<nat>, burst: seq<int>)
    requires burst == [6, 8, 7, 3]
    requires IsPermutation(order, 4) && SortedBy(order, burst)
    ensures order == [3, 0, 2, 1]
  {
    assert Range(4) == [0, 1, 2, 3];
    forall v | 0 <= v < 4
      ensures v in order
    {
      assert v in multiset(Range(4));
    }
    forall j, k | 0 <= j < k < 4
      ensures burst[order[j]] < burst[order[k]]
    {
      assert burst[order[j]] <= burst[order[k]];
    }
    var p3 :| 0 <= p3 < 4 && order[p3] == 3;
    var p0 :| 0 <= p0 < 4 && order[p0] == 0;
    var p2 :| 0 <= p2 < 4 && order[p2] == 2;
    var p1 :| 0 <= p1 < 4 && order[p1] == 1;
    assert p3 < p0 < p2 < p1;
  }

  lemma SumOfFiveThreeEight()
    ensures Sum([5]) == 5 && Sum([5, 3]) == 8 && Sum([5, 3, 8]) == 16
  {
    assert [5, 3, 8][..2] == [5, 3] && [5, 3][..1] == [5] && [5][..0] == [];
  }

  /** Round Robin with quantum 4 on bursts 5, 3, 8 all arriving at 0 ends at 16, without an idle tick. */
  method RoundRobinExample() returns (waiting: seq<int>, scheduleEnd: int)
    ensures scheduleEnd == 16
  {
    var arrival: seq<nat> := [0, 0, 0];
    var burst: seq<nat> := [5, 3, 8];
    waiting, scheduleEnd := RoundRobin(arrival, burst, 4);
    assert AllEqual(arrival);
    assert MinOf(arrival) == 0;
    SumOfFiveThreeEight();
  }
}
