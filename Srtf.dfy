// Shortest Remaining Time First (srtfAlgorithm): pre-emptive SJF with a
// one-unit quantum. At every tick the arrived, unfinished process with the
// least remaining time runs for one unit; when none has arrived the clock
// advances by one idle unit.
module SrtfScheduler {
  import opened Sequences
  import opened SliceAccounting

  /**
   * The choice of the selection scan (lines 262-266): -1 when no process is
   * eligible, otherwise an eligible process with the least remaining time,
   * the first one in index order on a tie.
   */
  predicate Shortest(arrival: seq<nat>, remaining: seq<int>, time: int, idx: int)
    requires |remaining| == |arrival|
  {
    (idx == -1 <==> forall j :: 0 <= j < |arrival| ==> !Eligible(arrival, remaining, time, j)) &&
    (idx != -1 ==>
       Eligible(arrival, remaining, time, idx) &&
       (forall j :: 0 <= j < |arrival| && Eligible(arrival, remaining, time, j) ==> remaining[idx] <= remaining[j]) &&
       (forall j :: 0 <= j < idx && Eligible(arrival, remaining, time, j) ==> remaining[idx] < remaining[j]))
  }

  /** The choice is determined by the state: at most one index is Shortest. */
  lemma ShortestIsUnique(arrival: seq<nat>, remaining: seq<int>, time: int, x: int, y: int)
    requires |remaining| == |arrival|
    requires Shortest(arrival, remaining, time, x) && Shortest(arrival, remaining, time, y)
    ensures x == y
  {
  }

  /**
   * The selection scan (lines 262-266), which makes the Shortest choice. The
   * double.MaxValue start of minRem is modelled by "no candidate yet".
   */
  method PickShortest(arrival: seq<nat>, remaining: seq<int>, time: int) returns (idx: int)
    requires |remaining| == |arrival|
    ensures Shortest(arrival, remaining, time, idx)
  {
    idx := -1;
    var minRem := 0;
    for i := 0 to |arrival|
      invariant idx == -1 <==> forall j :: 0 <= j < i ==> !Eligible(arrival, remaining, time, j)
      invariant idx != -1 ==> idx < i && Eligible(arrival, remaining, time, idx) && minRem == remaining[idx]
      invariant idx != -1 ==> forall j :: 0 <= j < i && Eligible(arrival, remaining, time, j) ==> remaining[idx] <= remaining[j]
      invariant idx != -1 ==> forall j :: 0 <= j < idx && Eligible(arrival, remaining, time, j) ==> remaining[idx] < remaining[j]
    {
      if arrival[i] <= time && remaining[i] > 0 && (idx == -1 || remaining[i] < minRem) {
        assert Eligible(arrival, remaining, time, i);
        idx, minRem := i, remaining[i];
      }
    }
  }

  /**
   * One iteration of the outer loop (lines 260-277): the Shortest process
   * idx of the state before the tick, if there is one, runs for one unit
   * (a Slice of length 1, which completes it when its remaining time
   * reaches zero); otherwise only the clock moves, by one idle unit. When
   * every burst is positive, either CPU time was handed out or the clock
   * moved one tick closer to the last arrival.
   */
  method Tick(arrival: seq<nat>, burst: seq<nat>, remaining: array<int>, w: array<int>,
              ghost start: int, time: int, finished: int, ghost idle: int)
    returns (time': int, finished': int, ghost idle': int, idx: int)
    requires remaining != w && finished < |burst|
    requires |arrival| > 0 && start == MinOf(arrival)
    requires Bookkeeping(arrival, burst, remaining[..], w[..], start, time, finished, idle)
    modifies remaining, w
    ensures Shortest(arrival, old(remaining[..]), time, idx)
    ensures idx == -1 ==>
              remaining[..] == old(remaining[..]) && w[..] == old(w[..]) && time' == time + 1 && finished' == finished
    ensures idx != -1 ==> 0 <= idx < |burst|
    ensures idx != -1 ==> Snapshot(remaining[..], w[..], time', finished') ==
                          Slice(arrival, burst, Snapshot(old(remaining[..]), old(w[..]), time, finished), idx, 1)
    ensures Bookkeeping(arrival, burst, remaining[..], w[..], start, time', finished', idle')
    ensures AllEqual(arrival) && Count<int>(burst, 0) == 0 ==> idle' == idle
    ensures finished' == |burst| ==> exists j :: 0 <= j < |burst| && arrival[j] + w[j] + burst[j] == time'
    ensures Count<int>(burst, 0) == 0 ==>
              Sum(remaining[..]) < Sum(old(remaining[..])) ||
              (Sum(remaining[..]) == Sum(old(remaining[..])) && time < time' <= MaxOf(arrival))
  {
    idx := PickShortest(arrival, remaining[..], time);
    if idx == -1 {
      IdleStep(arrival, burst, remaining[..], w[..], start, time, finished, idle);
      time', finished', idle' := time + 1, finished, idle + 1;
      return;
    }
    time', finished' := RunSlice(arrival, burst, remaining, w, start, time, finished, idle, idx, 1);
    idle' := idle;
  }

  /**
   * The SRTF simulation (lines 258-278). The same guarantees as Round
   * Robin: non-negative waiting times, completions no later than the end of
   * the schedule, which is the last completion, and a busy CPU from the
   * earliest arrival on when all processes arrive together.
   */
  method Srtf(arrival: seq<nat>, burst: seq<nat>) returns (waiting: seq<int>, scheduleEnd: int)
    requires |burst| > 0 && |arrival| == |burst|
    requires forall i :: 0 <= i < |burst| ==> burst[i] > 0
    ensures |waiting| == |burst|
    ensures forall i :: 0 <= i < |burst| ==> 0 <= waiting[i] && arrival[i] + waiting[i] + burst[i] <= scheduleEnd
    ensures exists i :: 0 <= i < |burst| && arrival[i] + waiting[i] + burst[i] == scheduleEnd
    ensures scheduleEnd >= MinOf(arrival) + Sum(burst)
    ensures AllEqual(arrival) ==> scheduleEnd == MinOf(arrival) + Sum(burst)
  {
    var n := |burst|;
    var remaining := new int[n](i requires 0 <= i < n => burst[i]);
    var w := new int[n];
    var time: int := MinOf(arrival);
    var finished := 0;
    ghost var start, idle := time, 0;
    assert remaining[..] == burst;
    Initial(arrival, burst, w[..], time);
    CountAbsent<int>(burst, 0);

    var chosen;
    while finished < n
      invariant Bookkeeping(arrival, burst, remaining[..], w[..], start, time, finished, idle)
      invariant AllEqual(arrival) ==> idle == 0
      invariant finished == n ==> exists i :: 0 <= i < n && arrival[i] + w[i] + burst[i] == time
      decreases Sum(remaining[..]), MaxOf(arrival) - time
    {
      time, finished, idle, chosen := Tick(arrival, burst, remaining, w, start, time, finished, idle);
    }
    Finished(arrival, burst, remaining[..], w[..], start, time, idle);
    waiting := w[..];
    scheduleEnd := time;
  }

  /**
   * The outer loop of lines 258-278 exactly as written, for inputs the
   * simulation above excludes, cut off after `ticks` iterations. The chosen
   * process always has time left, so a process with a zero burst is never
   * counted finished: with one among the inputs `finished < n` holds after
   * any number of iterations, and the loop never exits.
   */
  method SrtfTicks(arrival: seq<nat>, burst: seq<nat>, ticks: nat) returns (finished: int)
    requires |burst| > 0 && |arrival| == |burst|
    ensures finished <= |burst| - Count<int>(burst, 0)
  {
    var n := |burst|;
    var remaining := new int[n](i requires 0 <= i < n => burst[i]);
    var w := new int[n];
    var time: int := MinOf(arrival);
    finished := 0;
    ghost var start, idle := time, 0;
    assert remaining[..] == burst;
    Initial(arrival, burst, w[..], time);

    var tick, chosen := 0, -1;
    while finished < n && tick < ticks
      invariant Bookkeeping(arrival, burst, remaining[..], w[..], start, time, finished, idle)
      decreases ticks - tick
    {
      time, finished, idle, chosen := Tick(arrival, burst, remaining, w, start, time, finished, idle);
      tick := tick + 1;
    }
  }
}
