// Highest Response-Ratio Next (hrrnAlgorithm), non-preemptive: whenever the
// CPU is free, among the processes that have arrived and are not done the
// one with the highest (waiting + burst) / burst runs to completion; when
// none has arrived the clock jumps to the earliest pending arrival.
module HrrnScheduler {
  import opened Sequences

  /**
   * The value of (time - arrival + burst) / burst in double arithmetic.
   * With a zero burst the quotient is +infinity when the process has waited
   * and NaN when it has not.
   */
  datatype Ratio = Finite(value: real) | Infinity | Undefined

  /** Response ratio of a process that has arrived by `time`. */
  function ResponseRatio(time: int, arrival: nat, burst: nat): (r: Ratio)
    requires arrival <= time
    ensures burst > 0 ==> r.Finite? && r.value >= 1.0 &&
                          r.value * (burst as real) == (time - arrival + burst) as real
    ensures burst == 0 ==> (r.Infinity? <==> arrival < time) && (r.Undefined? <==> arrival == time)
  {
    if burst > 0 then Finite((time - arrival + burst) as real / burst as real)
    else if arrival < time then Infinity
    else Undefined
  }

  /** A process that has just arrived has a response ratio of exactly 1. */
  lemma RatioOnArrival(time: int, burst: nat)
    requires time >= 0 && burst > 0
    ensures ResponseRatio(time, time, burst) == Finite(1.0)
  {
  }

  /** The longer a process with a positive burst has waited, the higher its ratio. */
  lemma RatioGrowsWithWaiting(earlier: int, later: int, arrival: nat, burst: nat)
    requires arrival <= earlier < later && burst > 0
    ensures ResponseRatio(earlier, arrival, burst).value < ResponseRatio(later, arrival, burst).value
  {
  }

  /** The `>` comparison of doubles: false whenever NaN is involved. */
  predicate Exceeds(x: Ratio, y: Ratio)
    ensures Exceeds(x, y) ==> x != y
    ensures Exceeds(x, y) ==> !x.Undefined? && !y.Undefined? && !y.Infinity?
  {
    match (x, y)
    case (Finite(a), Finite(b)) => a > b
    case (Infinity, Finite(_)) => true
    case _ => false
  }

  /** Greater-than on ratios never holds both ways and chains. */
  lemma ExceedsOrder(x: Ratio, y: Ratio, z: Ratio)
    ensures !(Exceeds(x, y) && Exceeds(y, x))
    ensures Exceeds(x, y) && Exceeds(y, z) ==> Exceeds(x, z)
    ensures !Exceeds(x, y) && Exceeds(z, y) && !y.Undefined? ==> !Exceeds(x, z)
  {
  }

  /**
   * The ready list (lines 312-314): the indices of the processes that are not
   * done and have arrived by `time`, in increasing order.
   */
  ghost predicate ReadyList(arrival: seq<nat>, done: seq<bool>, time: int, ready: seq<nat>)
    requires |done| == |arrival|
  {
    (forall i :: i in ready <==> 0 <= i < |arrival| && !done[i] && arrival[i] <= time) &&
    (forall j, k :: 0 <= j < k < |ready| ==> ready[j] < ready[k])
  }

  /** Two increasing lists with the same elements are the same list. */
  lemma {:induction false} IncreasingUnique(a: seq<nat>, b: seq<nat>)
    requires forall j, k :: 0 <= j < k < |a| ==> a[j] < a[k]
    requires forall j, k :: 0 <= j < k < |b| ==> b[j] < b[k]
    requires forall x :: x in a <==> x in b
    ensures a == b
  {
    assert |a| > 0 ==> a[0] in b;
    assert |b| > 0 ==> b[0] in a;
    if |a| > 0 && |b| > 0 {
      assert a[0] == b[0];
      forall x
        ensures x in a[1..] <==> x in b[1..]
      {
        if x in a[1..] {
          assert x in a && x != a[0];
        }
        if x in b[1..] {
          assert x in b && x != b[0];
        }
      }
      IncreasingUnique(a[1..], b[1..]);
    }
  }

  /** The ready list is determined by the state: at most one list is a ReadyList. */
  lemma ReadyListIsUnique(arrival: seq<nat>, done: seq<bool>, time: int, r1: seq<nat>, r2: seq<nat>)
    requires |done| == |arrival|
    requires ReadyList(arrival, done, time, r1) && ReadyList(arrival, done, time, r2)
    ensures r1 == r2
  {
    IncreasingUnique(r1, r2);
  }

  method BuildReady(arrival: seq<nat>, done: seq<bool>, time: int) returns (ready: seq<nat>)
    requires |done| == |arrival|
    ensures ReadyList(arrival, done, time, ready)
  {
    ready := [];
    for i := 0 to |arrival|
      invariant forall j :: j in ready <==> 0 <= j < i && !done[j] && arrival[j] <= time
      invariant forall j, k :: 0 <= j < k < |ready| ==> ready[j] < ready[k]
      invariant forall j :: 0 <= j < |ready| ==> ready[j] < i
    {
      if !done[i] && arrival[i] <= time {
        ready := ready + [i];
      }
    }
  }

  /** The arrival times of the processes not yet done (the Where of line 318). */
  function PendingArrivals(arrival: seq<nat>, done: seq<bool>): (r: seq<int>)
    requires |done| == |arrival|
    ensures forall t :: t in r <==> exists j :: 0 <= j < |arrival| && !done[j] && arrival[j] == t
  {
    if |arrival| == 0 then []
    else
      var last := |arrival| - 1;
      PendingArrivals(arrival[..last], done[..last]) + (if done[last] then [] else [arrival[last] as int])
  }

  /**
   * The choice of the selection loop (lines 322-327): bestRatio starts at -1
   * and a ratio replaces it only when strictly greater, so the choice is the
   * first ready process whose ratio no other ratio exceeds; when every ratio
   * is NaN the initial choice ready[0] stands.
   */
  predicate HighestRatio(arrival: seq<nat>, burst: seq<nat>, ready: seq<nat>, time: int, chosen: nat)
  {
    |ready| > 0 && |burst| == |arrival| && InBounds(ready, |arrival|) &&
    (forall k :: 0 <= k < |ready| ==> arrival[ready[k]] <= time) &&
    chosen in ready &&
    (forall k :: 0 <= k < |ready| ==>
       !Exceeds(ResponseRatio(time, arrival[ready[k]], burst[ready[k]]), ResponseRatio(time, arrival[chosen], burst[chosen]))) &&
    ((exists k :: 0 <= k < |ready| && !ResponseRatio(time, arrival[ready[k]], burst[ready[k]]).Undefined?) ==>
       !ResponseRatio(time, arrival[chosen], burst[chosen]).Undefined?) &&
    ((forall k :: 0 <= k < |ready| ==> ResponseRatio(time, arrival[ready[k]], burst[ready[k]]).Undefined?) ==>
       chosen == ready[0]) &&
    (exists p :: 0 <= p < |ready| && ready[p] == chosen &&
       forall k :: 0 <= k < p ==>
         ResponseRatio(time, arrival[ready[k]], burst[ready[k]]).Undefined? ||
         Exceeds(ResponseRatio(time, arrival[chosen], burst[chosen]), ResponseRatio(time, arrival[ready[k]], burst[ready[k]])))
  }

  /** Over a list without repeats, the choice is determined: at most one process is HighestRatio. */
  lemma HighestRatioIsUnique(arrival: seq<nat>, burst: seq<nat>, ready: seq<nat>, time: int, x: nat, y: nat)
    requires forall j, k :: 0 <= j < k < |ready| ==> ready[j] < ready[k]
    requires HighestRatio(arrival, burst, ready, time, x) && HighestRatio(arrival, burst, ready, time, y)
    ensures x == y
  {
  }

  method PickHighestRatio(arrival: seq<nat>, burst: seq<nat>, ready: seq<nat>, time: int) returns (chosen: nat)
    requires |ready| > 0 && |burst| == |arrival| && InBounds(ready, |arrival|)
    requires forall k :: 0 <= k < |ready| ==> arrival[ready[k]] <= time
    ensures HighestRatio(arrival, burst, ready, time, chosen)
  {
    var bestRatio := Finite(-1.0);
    chosen := ready[0];
    ghost var pos := 0;
    for k := 0 to |ready|
      invariant 0 <= pos < |ready| && ready[pos] == chosen && pos <= k
      invariant bestRatio == Finite(-1.0) ==> chosen == ready[0]
      invariant bestRatio == Finite(-1.0) ==>
                  forall j :: 0 <= j < k ==> ResponseRatio(time, arrival[ready[j]], burst[ready[j]]).Undefined?
      invariant bestRatio != Finite(-1.0) ==> bestRatio == ResponseRatio(time, arrival[chosen], burst[chosen]) && !bestRatio.Undefined?
      invariant forall j :: 0 <= j < k ==> !Exceeds(ResponseRatio(time, arrival[ready[j]], burst[ready[j]]), bestRatio)
      invariant forall j :: 0 <= j < pos ==>
                  ResponseRatio(time, arrival[ready[j]], burst[ready[j]]).Undefined? || Exceeds(bestRatio, ResponseRatio(time, arrival[ready[j]], burst[ready[j]]))
    {
      var i := ready[k];
      var ratio := ResponseRatio(time, arrival[i], burst[i]);
      if Exceeds(ratio, bestRatio) {
        forall j | 0 <= j < k
          ensures !Exceeds(ResponseRatio(time, arrival[ready[j]], burst[ready[j]]), ratio)
        {
          ExceedsOrder(ResponseRatio(time, arrival[ready[j]], burst[ready[j]]), bestRatio, ratio);
        }
        forall j | 0 <= j < k
          ensures ResponseRatio(time, arrival[ready[j]], burst[ready[j]]).Undefined? || Exceeds(ratio, ResponseRatio(time, arrival[ready[j]], burst[ready[j]]))
        {
          var rj := ResponseRatio(time, arrival[ready[j]], burst[ready[j]]);
          ExceedsOrder(ratio, bestRatio, rj);
        }
        bestRatio, chosen, pos := ratio, i, k;
      } else {
        if bestRatio == Finite(-1.0) {
          assert ratio.Undefined?;
        }
      }
    }
  }

  /**
   * Per-process facts of the HRRN loop: a done process started no earlier
   * than it arrived and finished by now, and no two done processes ever
   * held the CPU at the same time.
   */
  ghost predicate RunsSoFar(arrival: seq<nat>, burst: seq<nat>, done: seq<bool>, w: seq<int>, time: int)
    requires |arrival| == |burst| == |done| == |w|
  {
    (forall i :: 0 <= i < |done| && done[i] ==> 0 <= w[i] && arrival[i] + w[i] + burst[i] <= time) &&
    (forall i, j :: 0 <= i < j < |done| && done[i] && done[j] ==>
       arrival[i] + w[i] + burst[i] <= arrival[j] + w[j] || arrival[j] + w[j] + burst[j] <= arrival[i] + w[i])
  }

  /** No two processes hold the CPU at the same time: their runs [start, start + burst) are disjoint. */
  predicate NoOverlap(arrival: seq<nat>, burst: seq<nat>, waiting: seq<int>)
    requires |arrival| == |burst| == |waiting|
  {
    forall i, j :: 0 <= i < j < |waiting| ==>
      arrival[i] + waiting[i] + burst[i] <= arrival[j] + waiting[j] ||
      arrival[j] + waiting[j] + burst[j] <= arrival[i] + waiting[i]
  }

  /**
   * The invariant of the HRRN loop: the completion counter counts the done
   * processes, and the clock has advanced from `start` by the bursts of the
   * done processes plus the idle time skipped by the jumps.
   */
  ghost predicate Dispatched(arrival: seq<nat>, burst: seq<nat>, done: seq<bool>, w: seq<int>,
                             start: int, time: int, completed: int, idle: int)
  {
    |burst| > 0 && |arrival| == |burst| == |done| == |w| &&
    RunsSoFar(arrival, burst, done, w, time) &&
    completed == Count(done, true) &&
    idle >= 0 && start <= time &&
    time == start + SumWhere(burst, done) + idle
  }

  /** Nothing has run: no process is done and the clock is at `start`. */
  lemma Started(arrival: seq<nat>, burst: seq<nat>, done: seq<bool>, w: seq<int>, start: int)
    requires |burst| > 0 && |arrival| == |burst| == |done| == |w|
    requires forall i :: 0 <= i < |done| ==> !done[i]
    ensures Dispatched(arrival, burst, done, w, start, start, 0, 0)
  {
    CountAbsent(done, true);
    SumWhereNone(burst, done);
  }

  /**
   * Lines 316-320: with no process ready, the clock jumps to the earliest
   * pending arrival, which is later than now and no later than the last
   * arrival; this never happens when all processes arrive together.
   */
  lemma Jump(arrival: seq<nat>, burst: seq<nat>, done: seq<bool>, w: seq<int>,
             start: int, time: int, completed: int, idle: int)
    requires Dispatched(arrival, burst, done, w, start, time, completed, idle)
    requires start == MinOf(arrival) && completed < |burst|
    requires forall i :: 0 <= i < |done| ==> done[i] || arrival[i] > time
    ensures |PendingArrivals(arrival, done)| > 0
    ensures var time' := MinOf(PendingArrivals(arrival, done));
            time < time' <= MaxOf(arrival) && !AllEqual(arrival) &&
            Dispatched(arrival, burst, done, w, start, time', completed, idle + (time' - time))
  {
    var pending := PendingArrivals(arrival, done);
    CountAll(done, true);
    var k :| 0 <= k < |burst| && !done[k];
    assert arrival[k] in pending;
    var time' := MinOf(pending);
    assert time' in pending;
    var j :| 0 <= j < |arrival| && !done[j] && arrival[j] == time';
    assert arrival[j] > time;
  }

  /**
   * Lines 329-333: the chosen process, ready and not done, waits from its
   * arrival to now, then holds the CPU for its whole burst and is done.
   */
  method RunChosen(arrival: seq<nat>, burst: seq<nat>, done: array<bool>, w: array<int>,
                   ghost start: int, time: int, completed: int, ghost idle: int, chosen: nat)
    returns (time': int, completed': int)
    requires Dispatched(arrival, burst, done[..], w[..], start, time, completed, idle)
    requires chosen < done.Length && !done[chosen] && arrival[chosen] <= time
    modifies done, w
    ensures done[..] == old(done[..])[chosen := true]
    ensures w[..] == old(w[..])[chosen := time - arrival[chosen]]
    ensures time' == time + burst[chosen] && completed' == completed + 1
    ensures Dispatched(arrival, burst, done[..], w[..], start, time', completed', idle)
  {
    ghost var done0, w0 := done[..], w[..];
    w[chosen] := time - arrival[chosen];
    time' := time + burst[chosen];
    done[chosen] := true;
    completed' := completed + 1;
    assert done[..] == done0[chosen := true];
    assert w[..] == w0[chosen := time - arrival[chosen]];
    RunStep(arrival, burst, done0, w0, time, chosen, done[..], w[..], time');
    CountUpdate(done0, chosen, true, true);
    SumWhereSet(burst, done0, chosen);
  }

  lemma RunStep(arrival: seq<nat>, burst: seq<nat>, done: seq<bool>, w: seq<int>, time: int, chosen: nat,
                done': seq<bool>, w': seq<int>, time': int)
    requires |arrival| == |burst| == |done| == |w| && RunsSoFar(arrival, burst, done, w, time)
    requires chosen < |done| && !done[chosen] && arrival[chosen] <= time
    requires done' == done[chosen := true] && w' == w[chosen := time - arrival[chosen]]
    requires time' == time + burst[chosen]
    ensures RunsSoFar(arrival, burst, done', w', time')
  {
    forall i, j | 0 <= i < j < |done'| && done'[i] && done'[j]
      ensures arrival[i] + w'[i] + burst[i] <= arrival[j] + w'[j] || arrival[j] + w'[j] + burst[j] <= arrival[i] + w'[i]
    {
      if i == chosen {
        assert arrival[j] + w[j] + burst[j] <= time;
      } else if j == chosen {
        assert arrival[i] + w[i] + burst[i] <= time;
      }
    }
  }

  /** Once every process is done, the waiting times and the clock say what the schedule did. */
  lemma AllDispatched(arrival: seq<nat>, burst: seq<nat>, done: seq<bool>, w: seq<int>,
                      start: int, time: int, idle: int)
    requires Dispatched(arrival, burst, done, w, start, time, |burst|, idle)
    ensures forall i :: 0 <= i < |burst| ==> 0 <= w[i] && arrival[i] + w[i] + burst[i] <= time
    ensures NoOverlap(arrival, burst, w)
    ensures time == start + Sum(burst) + idle
  {
    CountAll(done, true);
    SumWhereAll(burst, done);
  }

  /**
   * One iteration of the outer loop (lines 310-334): build the ready list;
   * if it is empty, only the clock moves, to the earliest pending arrival;
   * otherwise the HighestRatio process of the ready list runs to completion.
   */
  method Dispatch(arrival: seq<nat>, burst: seq<nat>, done: array<bool>, w: array<int>,
                  ghost start: int, time: int, completed: int, ghost idle: int)
    returns (time': int, completed': int, ghost idle': int, ready: seq<nat>, chosen: nat)
    requires done.Length == w.Length
    requires |arrival| > 0 && start == MinOf(arrival) && completed < |burst|
    requires Dispatched(arrival, burst, done[..], w[..], start, time, completed, idle)
    modifies done, w
    ensures ReadyList(arrival, old(done[..]), time, ready)
    ensures |ready| == 0 ==>
              done[..] == old(done[..]) && w[..] == old(w[..]) && completed' == completed &&
              |PendingArrivals(arrival, old(done[..]))| > 0 && time' == MinOf(PendingArrivals(arrival, old(done[..])))
    ensures |ready| > 0 ==> HighestRatio(arrival, burst, ready, time, chosen) && chosen < done.Length
    ensures |ready| > 0 ==>
              done[..] == old(done[..])[chosen := true] && w[..] == old(w[..])[chosen := time - arrival[chosen]] &&
              time' == time + burst[chosen] && completed' == completed + 1
    ensures Dispatched(arrival, burst, done[..], w[..], start, time', completed', idle')
    ensures AllEqual(arrival) ==> idle' == idle
    ensures completed' == |burst| ==> exists j :: 0 <= j < |burst| && arrival[j] + w[j] + burst[j] == time'
    ensures completed' == completed + 1 || (completed' == completed && time < time' <= MaxOf(arrival))
  {
    ready := BuildReady(arrival, done[..], time);
    chosen := 0;
    if |ready| == 0 {
      Jump(arrival, burst, done[..], w[..], start, time, completed, idle);
      time' := MinOf(PendingArrivals(arrival, done[..]));
      completed', idle' := completed, idle + (time' - time);
      return;
    }
    assert forall k :: 0 <= k < |ready| ==> ready[k] in ready;
    chosen := PickHighestRatio(arrival, burst, ready, time);
    time', completed' := RunChosen(arrival, burst, done, w, start, time, completed, idle, chosen);
    idle' := idle;
  }

  /**
   * The HRRN simulation (lines 308-334). Each process runs once, without
   * interruption, never before it arrives; no two runs overlap; the
   * schedule ends with the last completion; the CPU is busy for the sum of
   * the bursts after the earliest arrival, without gaps when all processes
   * arrive together.
   */
  method Hrrn(arrival: seq<nat>, burst: seq<nat>) returns (waiting: seq<int>, scheduleEnd: int)
    requires |burst| > 0 && |arrival| == |burst|
    ensures |waiting| == |burst|
    ensures forall i :: 0 <= i < |burst| ==> 0 <= waiting[i] && arrival[i] + waiting[i] + burst[i] <= scheduleEnd
    ensures NoOverlap(arrival, burst, waiting)
    ensures exists i :: 0 <= i < |burst| && arrival[i] + waiting[i] + burst[i] == scheduleEnd
    ensures scheduleEnd >= MinOf(arrival) + Sum(burst)
    ensures AllEqual(arrival) ==> scheduleEnd == MinOf(arrival) + Sum(burst)
  {
    var n := |burst|;
    var done := new bool[n](_ => false);
    var w := new int[n];
    var time: int := MinOf(arrival);
    var completed := 0;
    ghost var start, idle := time, 0;
    Started(arrival, burst, done[..], w[..], time);

    var ready, chosen;
    while completed < n
      invariant Dispatched(arrival, burst, done[..], w[..], start, time, completed, idle)
      invariant AllEqual(arrival) ==> idle == 0
      invariant completed == n ==> exists i :: 0 <= i < n && arrival[i] + w[i] + burst[i] == time
      decreases n - completed, MaxOf(arrival) - time
    {
      time, completed, idle, ready, chosen := Dispatch(arrival, burst, done, w, start, time, completed, idle);
    }
    AllDispatched(arrival, burst, done[..], w[..], start, time, idle);
    waiting := w[..];
    scheduleEnd := time;
  }
}
