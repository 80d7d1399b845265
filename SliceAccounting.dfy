// Bookkeeping shared by the two simulations that hand out the CPU in slices
// (Round Robin and SRTF): the remaining[], waiting[] and completion counter
// they update in place, the clock, and the idle ticks that fill the gaps.
module SliceAccounting {
  import opened Sequences

  /**
   * Process j has arrived by `time` and still needs the CPU: the test both
   * simulations apply before handing out a slice (line 212 of Round Robin,
   * line 265 of SRTF).
   */
  predicate Eligible(arrival: seq<nat>, rem: seq<int>, time: int, j: int)
    requires |rem| == |arrival|
    ensures Eligible(arrival, rem, time, j) ==> 0 <= j < |rem| && rem[j] >= 1 && time >= 0
  {
    0 <= j < |arrival| && arrival[j] <= time && rem[j] > 0
  }

  /** The state both simulations update in place: remaining[], waiting[], the clock and the completion counter. */
  datatype Snapshot = Snapshot(rem: seq<int>, w: seq<int>, time: int, complete: int)

  /**
   * Process i runs for `slice` units (lines 214-222 of Round Robin, 270-277
   * of SRTF): its remaining time goes down and the clock goes up by the
   * slice, and when nothing is left its waiting time becomes completion -
   * arrival - burst and it is counted complete. Only entry i changes.
   */
  function Slice(arrival: seq<nat>, burst: seq<nat>, s: Snapshot, i: nat, slice: int): (r: Snapshot)
    requires i < |s.rem| && i < |s.w| && i < |arrival| && i < |burst|
    ensures |r.rem| == |s.rem| && |r.w| == |s.w|
  {
    var rem := s.rem[i := s.rem[i] - slice];
    var time := s.time + slice;
    if rem[i] == 0 then Snapshot(rem, s.w[i := time - arrival[i] - burst[i]], time, s.complete + 1)
    else Snapshot(rem, s.w, time, s.complete)
  }

  ghost predicate Shapes(arrival: seq<nat>, burst: seq<nat>, rem: seq<int>, w: seq<int>)
  {
    |burst| > 0 && |arrival| == |burst| && |rem| == |burst| && |w| == |burst|
  }

  /**
   * Per-process facts: remaining time stays within [0, burst]; a process
   * that has had CPU time arrived at least that much time ago; a process
   * that ran to completion has a non-negative waiting time and finished no
   * later than now. A process with a zero burst never runs.
   */
  ghost predicate Progress(arrival: seq<nat>, burst: seq<nat>, rem: seq<int>, w: seq<int>, time: int)
    requires Shapes(arrival, burst, rem, w)
  {
    (forall i :: 0 <= i < |rem| ==> 0 <= rem[i] <= burst[i]) &&
    (forall i :: 0 <= i < |rem| ==> rem[i] == burst[i] || arrival[i] + burst[i] - rem[i] <= time) &&
    (forall i :: 0 <= i < |rem| && rem[i] == 0 && burst[i] > 0 ==> 0 <= w[i] && arrival[i] + w[i] + burst[i] <= time)
  }

  /**
   * The invariant of both simulation loops: the per-process facts, the
   * completion counter equal to the number of processes run down to zero
   * (those with nothing left, less those that had nothing to start with),
   * and a clock that has advanced from `start` by exactly the CPU time
   * handed out plus the idle ticks.
   */
  ghost predicate Bookkeeping(arrival: seq<nat>, burst: seq<nat>, rem: seq<int>, w: seq<int>,
                              start: int, time: int, complete: int, idle: int)
  {
    Shapes(arrival, burst, rem, w) &&
    Progress(arrival, burst, rem, w, time) &&
    complete == Count(rem, 0) - Count<int>(burst, 0) &&
    idle >= 0 && start <= time && Sum(rem) >= 0 &&
    time == start + Sum(burst) - Sum(rem) + idle
  }

  /** Nothing has run yet: every process still needs its whole burst. */
  lemma Initial(arrival: seq<nat>, burst: seq<nat>, w: seq<int>, start: int)
    requires |burst| > 0 && |arrival| == |burst| && |w| == |burst|
    ensures Bookkeeping(arrival, burst, burst, w, start, start, 0, 0)
  {
    SumOfNaturals(burst);
  }

  lemma SliceKeepsProgress(arrival: seq<nat>, burst: seq<nat>, rem: seq<int>, w: seq<int>,
                           time: int, i: nat, slice: int, rem': seq<int>, w': seq<int>, time': int)
    requires Shapes(arrival, burst, rem, w) && Progress(arrival, burst, rem, w, time)
    requires i < |rem| && rem[i] > 0 && arrival[i] <= time && 0 <= slice <= rem[i]
    requires rem' == rem[i := rem[i] - slice] && time' == time + slice
    requires w' == if rem'[i] == 0 then w[i := time' - arrival[i] - burst[i]] else w
    ensures Shapes(arrival, burst, rem', w') && Progress(arrival, burst, rem', w', time')
  {
    forall j | 0 <= j < |rem'|
      ensures rem'[j] == burst[j] || arrival[j] + burst[j] - rem'[j] <= time'
    {
      if j == i && rem[i] != burst[i] {
        assert arrival[i] + burst[i] - rem[i] <= time;
      }
    }
  }

  /**
   * Running process i for `slice` units keeps the bookkeeping; if that
   * empties it, its waiting time is completion - arrival - burst and it is
   * counted complete, once, since an emptied process is never run again.
   * A slice of length zero changes nothing.
   */
  lemma SliceStep(arrival: seq<nat>, burst: seq<nat>, rem: seq<int>, w: seq<int>,
                  start: int, time: int, complete: int, idle: int, i: nat, slice: int,
                  rem': seq<int>, w': seq<int>, time': int, complete': int)
    requires Bookkeeping(arrival, burst, rem, w, start, time, complete, idle)
    requires i < |rem| && rem[i] > 0 && arrival[i] <= time && 0 <= slice <= rem[i]
    requires rem' == rem[i := rem[i] - slice] && time' == time + slice
    requires w' == if rem'[i] == 0 then w[i := time' - arrival[i] - burst[i]] else w
    requires complete' == if rem'[i] == 0 then complete + 1 else complete
    ensures Bookkeeping(arrival, burst, rem', w', start, time', complete', idle)
    ensures Sum(rem') == Sum(rem) - slice
    ensures slice == 0 ==> rem' == rem && w' == w && complete' == complete
    ensures complete' == |burst| ==> arrival[i] + w'[i] + burst[i] == time'
  {
    SliceKeepsProgress(arrival, burst, rem, w, time, i, slice, rem', w', time');
    SliceCounters(rem, complete + Count<int>(burst, 0), i, slice, rem', complete' + Count<int>(burst, 0));
    CountAll(rem', 0);
  }

  lemma SliceCounters(rem: seq<int>, complete: int, i: nat, slice: int, rem': seq<int>, complete': int)
    requires forall j :: 0 <= j < |rem| ==> 0 <= rem[j]
    requires complete == Count(rem, 0)
    requires i < |rem| && 0 <= slice <= rem[i] && rem[i] > 0 && rem' == rem[i := rem[i] - slice]
    requires complete' == if rem'[i] == 0 then complete + 1 else complete
    ensures complete' == Count(rem', 0)
    ensures Sum(rem') == Sum(rem) - slice && Sum(rem') >= 0
  {
    SumUpdate(rem, i, rem[i] - slice);
    CountUpdate(rem, i, rem[i] - slice, 0);
    SumOfNaturals(rem');
  }

  /**
   * Runs one slice in place: the new state is Slice of the old one, and the
   * bookkeeping is kept. An empty slice changes nothing.
   */
  method RunSlice(arrival: seq<nat>, burst: seq<nat>, remaining: array<int>, w: array<int>,
                  ghost start: int, time: int, complete: int, ghost idle: int, i: int, slice: int)
    returns (time': int, complete': int)
    requires remaining != w
    requires Bookkeeping(arrival, burst, remaining[..], w[..], start, time, complete, idle)
    requires 0 <= i < remaining.Length && remaining[i] > 0 && arrival[i] <= time && 0 <= slice <= remaining[i]
    modifies remaining, w
    ensures Snapshot(remaining[..], w[..], time', complete') ==
            Slice(arrival, burst, Snapshot(old(remaining[..]), old(w[..]), time, complete), i, slice)
    ensures Bookkeeping(arrival, burst, remaining[..], w[..], start, time', complete', idle)
    ensures time' == time + slice && Sum(remaining[..]) == Sum(old(remaining[..])) - slice
    ensures slice == 0 ==> remaining[..] == old(remaining[..]) && w[..] == old(w[..]) && complete' == complete
    ensures complete' == |burst| ==> arrival[i] + w[i] + burst[i] == time'
  {
    ghost var s0 := Snapshot(remaining[..], w[..], time, complete);
    ghost var r := Slice(arrival, burst, s0, i, slice);
    SliceStep(arrival, burst, s0.rem, s0.w, start, time, complete, idle, i, slice, r.rem, r.w, r.time, r.complete);
    remaining[i] := remaining[i] - slice;
    assert remaining[..] == r.rem;
    time', complete' := time + slice, complete;
    if remaining[i] == 0 {
      w[i] := time' - arrival[i] - burst[i];
      complete' := complete + 1;
    }
    assert w[..] == r.w;
  }

  /**
   * An idle tick, taken when no process with time left has arrived, keeps
   * the bookkeeping. When every burst is positive and some process is not
   * complete, it arrives later: the tick stays below the last arrival and
   * cannot happen when all processes arrive together.
   */
  lemma IdleStep(arrival: seq<nat>, burst: seq<nat>, rem: seq<int>, w: seq<int>,
                 start: int, time: int, complete: int, idle: int)
    requires |arrival| > 0 && start == MinOf(arrival)
    requires Bookkeeping(arrival, burst, rem, w, start, time, complete, idle)
    requires forall j :: 0 <= j < |rem| ==> !Eligible(arrival, rem, time, j)
    ensures Count<int>(burst, 0) == 0 && complete < |burst| ==> time < MaxOf(arrival) && !AllEqual(arrival)
    ensures Bookkeeping(arrival, burst, rem, w, start, time + 1, complete, idle + 1)
  {
    CountAll(rem, 0);
    if Count(rem, 0) < |rem| {
      var j :| 0 <= j < |rem| && rem[j] != 0;
      assert !Eligible(arrival, rem, time, j);
    }
  }

  /** Once every process is complete, the waiting times and the clock say what the schedule did. */
  lemma Finished(arrival: seq<nat>, burst: seq<nat>, rem: seq<int>, w: seq<int>,
                 start: int, time: int, idle: int)
    requires Bookkeeping(arrival, burst, rem, w, start, time, |burst|, idle)
    ensures forall i :: 0 <= i < |burst| ==> 0 <= w[i] && arrival[i] + w[i] + burst[i] <= time
    ensures time == start + Sum(burst) + idle
  {
    CountAll(rem, 0);
    CountAll<int>(burst, 0);
    SumOfZeros(rem);
    forall i | 0 <= i < |burst|
      ensures burst[i] > 0
    {
      if burst[i] == 0 {
        CountPresent<int>(burst, i, 0);
      }
    }
  }
}
