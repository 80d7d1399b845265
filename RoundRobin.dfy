// Round Robin (roundRobinAlgorithm): repeated scans of the processes in
// index order; every process that has arrived and still needs the CPU gets
// a slice of at most one quantum, and a scan that runs nothing advances the
// clock by one idle unit.
module RoundRobinScheduler {
  import opened Sequences
  import opened SliceAccounting

  /**
   * Slice length at line 214: Math.Min(quantum, remaining[i]), the whole
   * quantum or what is left, whichever is less; empty for a zero quantum.
   */
  function SliceLength(quantum: nat, rem: int): (slice: int)
    requires rem > 0
    ensures 0 <= slice <= quantum && slice <= rem
    ensures slice == quantum || slice == rem
    ensures quantum > 0 ==> slice > 0
  {
    if quantum < rem then quantum else rem
  }

  /**
   * The scan of lines 210-225 from process i on, as a function of the
   * state it starts from: an eligible process runs for one slice of
   * SliceLength, any other is skipped, in index order. The flag records
   * whether anything ran.
   */
  function ScanFrom(arrival: seq<nat>, burst: seq<nat>, quantum: nat, s: Snapshot, worked: bool, i: nat): (r: (Snapshot, bool))
    requires |arrival| == |burst| == |s.rem| == |s.w| && i <= |burst|
    ensures |r.0.rem| == |s.rem| && |r.0.w| == |s.w|
    decreases |burst| - i
  {
    if i == |burst| then (s, worked)
    else if Eligible(arrival, s.rem, s.time, i) then
      ScanFrom(arrival, burst, quantum, Slice(arrival, burst, s, i, SliceLength(quantum, s.rem[i])), true, i + 1)
    else
      ScanFrom(arrival, burst, quantum, s, worked, i + 1)
  }

  /**
   * One pass of the outer loop (lines 208-226) as a function of the state:
   * a scan, then one idle unit of the clock when the scan ran nothing.
   */
  function Pass(arrival: seq<nat>, burst: seq<nat>, quantum: nat, s: Snapshot): (r: Snapshot)
    requires |arrival| == |burst| == |s.rem| == |s.w|
    ensures |r.rem| == |s.rem| && |r.w| == |s.w|
  {
    var (after, worked) := ScanFrom(arrival, burst, quantum, s, false, 0);
    if worked then after else after.(time := after.time + 1)
  }

  /** A scan in which no process is eligible leaves the state as it was. */
  lemma {:induction false} ScanOverIneligible(arrival: seq<nat>, burst: seq<nat>, quantum: nat, s: Snapshot, worked: bool, i: nat)
    requires |arrival| == |burst| == |s.rem| == |s.w| && i <= |burst|
    requires forall j :: i <= j < |burst| ==> !Eligible(arrival, s.rem, s.time, j)
    ensures ScanFrom(arrival, burst, quantum, s, worked, i) == (s, worked)
    decreases |burst| - i
  {
    if i < |burst| {
      ScanOverIneligible(arrival, burst, quantum, s, worked, i + 1);
    }
  }

  /**
   * A scan runs something exactly when some process is eligible in the
   * state it starts from: until the first eligible process nothing changes.
   */
  lemma {:induction false} ScanWorks(arrival: seq<nat>, burst: seq<nat>, quantum: nat, s: Snapshot, worked: bool, i: nat)
    requires |arrival| == |burst| == |s.rem| == |s.w| && i <= |burst|
    ensures ScanFrom(arrival, burst, quantum, s, worked, i).1 <==>
            worked || exists j :: i <= j < |burst| && Eligible(arrival, s.rem, s.time, j)
    decreases |burst| - i
  {
    if i < |burst| {
      if Eligible(arrival, s.rem, s.time, i) {
        var slice := SliceLength(quantum, s.rem[i]);
        ScanWorks(arrival, burst, quantum, Slice(arrival, burst, s, i, slice), true, i + 1);
      } else {
        ScanWorks(arrival, burst, quantum, s, worked, i + 1);
        if exists j :: i <= j < |burst| && Eligible(arrival, s.rem, s.time, j) {
          var j :| i <= j < |burst| && Eligible(arrival, s.rem, s.time, j);
          assert i + 1 <= j;
        }
      }
    }
  }

  /**
   * With a zero quantum every slice is empty: a scan changes no remaining
   * time, no waiting time, neither the clock nor the completion counter.
   */
  lemma {:induction false} ZeroQuantumScan(arrival: seq<nat>, burst: seq<nat>, s: Snapshot, worked: bool, i: nat)
    requires |arrival| == |burst| == |s.rem| == |s.w| && i <= |burst|
    ensures ScanFrom(arrival, burst, 0, s, worked, i).0 == s
    decreases |burst| - i
  {
    if i < |burst| {
      if Eligible(arrival, s.rem, s.time, i) {
        assert s.rem[i := s.rem[i] - 0] == s.rem;
        ZeroQuantumScan(arrival, burst, s, true, i + 1);
      } else {
        ZeroQuantumScan(arrival, burst, s, worked, i + 1);
      }
    }
  }

  /**
   * One scan over the processes in index order (lines 209-225), in place:
   * the new state is the one ScanFrom computes from the old. Every
   * process that has arrived by the current time and still needs the CPU
   * runs for one slice; a process emptied by its slice gets its waiting time
   * and is counted complete. didWork says whether anything ran. With a
   * zero quantum every slice is empty and the scan changes nothing.
   */
  method Scan(arrival: seq<nat>, burst: seq<nat>, quantum: nat,
              remaining: array<int>, w: array<int>, ghost start: int, time: int, complete: int, ghost idle: int)
    returns (time': int, complete': int, didWork: bool)
    requires remaining != w && complete < |burst|
    requires Bookkeeping(arrival, burst, remaining[..], w[..], start, time, complete, idle)
    modifies remaining, w
    ensures (Snapshot(remaining[..], w[..], time', complete'), didWork) ==
            ScanFrom(arrival, burst, quantum, Snapshot(old(remaining[..]), old(w[..]), time, complete), false, 0)
    ensures Bookkeeping(arrival, burst, remaining[..], w[..], start, time', complete', idle)
    ensures complete' == |burst| ==> didWork && exists j :: 0 <= j < |burst| && arrival[j] + w[j] + burst[j] == time'
    ensures didWork && quantum > 0 ==> Sum(remaining[..]) < Sum(old(remaining[..]))
    ensures quantum == 0 ==> remaining[..] == old(remaining[..]) && w[..] == old(w[..]) && time' == time && complete' == complete
    ensures !didWork ==> remaining[..] == old(remaining[..]) && w[..] == old(w[..]) && time' == time && complete' == complete
    ensures !didWork ==> forall j :: 0 <= j < |burst| ==> !Eligible(arrival, remaining[..], time, j)
  {
    var n := |burst|;
    time', complete', didWork := time, complete, false;
    for i := 0 to n
      invariant Bookkeeping(arrival, burst, remaining[..], w[..], start, time', complete', idle)
      invariant ScanFrom(arrival, burst, quantum, Snapshot(remaining[..], w[..], time', complete'), didWork, i) ==
                ScanFrom(arrival, burst, quantum, Snapshot(old(remaining[..]), old(w[..]), time, complete), false, 0)
      invariant complete' == n ==> didWork && exists j :: 0 <= j < n && arrival[j] + w[j] + burst[j] == time'
      invariant Sum(remaining[..]) <= Sum(old(remaining[..]))
      invariant didWork && quantum > 0 ==> Sum(remaining[..]) < Sum(old(remaining[..]))
    {
      if remaining[i] > 0 && arrival[i] <= time' {
        var slice := SliceLength(quantum, remaining[i]);
        time', complete' := RunSlice(arrival, burst, remaining, w, start, time', complete', idle, i, slice);
        didWork := true;
      }
    }
    ghost var s0 := Snapshot(old(remaining[..]), old(w[..]), time, complete);
    ScanWorks(arrival, burst, quantum, s0, false, 0);
    if !didWork {
      ScanOverIneligible(arrival, burst, quantum, s0, false, 0);
    }
    if quantum == 0 {
      ZeroQuantumScan(arrival, burst, s0, false, 0);
    }
  }

  /**
   * One pass of the outer loop (lines 208-226), in place: the new state is
   * the one Pass computes from the old. When every burst is positive and the
   * quantum is too, either some CPU time was handed out or the clock moved one
   * tick closer to the last arrival; with a zero quantum nothing completes.
   */
  method Round(arrival: seq<nat>, burst: seq<nat>, quantum: nat,
               remaining: array<int>, w: array<int>, ghost start: int, time: int, complete: int, ghost idle: int)
    returns (time': int, complete': int, ghost idle': int)
    requires remaining != w && complete < |burst|
    requires |arrival| > 0 && start == MinOf(arrival)
    requires Bookkeeping(arrival, burst, remaining[..], w[..], start, time, complete, idle)
    modifies remaining, w
    ensures Snapshot(remaining[..], w[..], time', complete') ==
            Pass(arrival, burst, quantum, Snapshot(old(remaining[..]), old(w[..]), time, complete))
    ensures Bookkeeping(arrival, burst, remaining[..], w[..], start, time', complete', idle')
    ensures AllEqual(arrival) && Count<int>(burst, 0) == 0 ==> idle' == idle
    ensures complete' == |burst| ==> exists j :: 0 <= j < |burst| && arrival[j] + w[j] + burst[j] == time'
    ensures quantum > 0 && Count<int>(burst, 0) == 0 ==>
              Sum(remaining[..]) < Sum(old(remaining[..])) ||
              (Sum(remaining[..]) == Sum(old(remaining[..])) && time < time' <= MaxOf(arrival))
    ensures quantum == 0 ==> complete' == complete
  {
    var didWork;
    time', complete', didWork := Scan(arrival, burst, quantum, remaining, w, start, time, complete, idle);
    idle' := idle;
    if !didWork {
      IdleStep(arrival, burst, remaining[..], w[..], start, time', complete', idle);
      time' := time' + 1;
      idle' := idle + 1;
    }
  }

  /**
   * The Round Robin simulation (lines 205-227), a loop of Round passes.
   * Every waiting time is >= 0 and no process completes after the end of
   * the schedule, which is when the last process completes; the CPU is
   * busy for the sum of all bursts after the earliest arrival, and with
   * simultaneous arrivals no idle tick ever fires.
   */
  method RoundRobin(arrival: seq<nat>, burst: seq<nat>, quantum: nat) returns (waiting: seq<int>, scheduleEnd: int)
    requires |burst| > 0 && |arrival| == |burst|
    requires quantum > 0
    requires forall i :: 0 <= i < |burst| ==> burst[i] > 0
    ensures |waiting| == |burst|
    ensures forall i :: 0 <= i < |burst| ==> 0 <= waiting[i] && arrival[i] + waiting[i] + burst[i] <= scheduleEnd
    ensures exists i :: 0 <= i < |burst| && arrival[i] + waiting[i] + burst[i] == scheduleEnd
    ensures scheduleEnd >= MinOf(arrival) + Sum(burst)
    ensures AllEqual(arrival) ==> scheduleEnd == MinOf(arrival) + Sum(burst)
  {
    var n := |burst|;
    var remaining := new int[n](i requires 0 <= i < n => burst[i]);
    var w := new int[n];
    var time: int := MinOf(arrival);
    var complete := 0;
    ghost var start, idle := time, 0;
    assert remaining[..] == burst;
    Initial(arrival, burst, w[..], time);
    CountAbsent<int>(burst, 0);

    while complete < n
      invariant Bookkeeping(arrival, burst, remaining[..], w[..], start, time, complete, idle)
      invariant AllEqual(arrival) ==> idle == 0
      invariant complete == n ==> exists i :: 0 <= i < n && arrival[i] + w[i] + burst[i] == time
      decreases Sum(remaining[..]), MaxOf(arrival) - time
    {
      time, complete, idle := Round(arrival, burst, quantum, remaining, w, start, time, complete, idle);
    }
    Finished(arrival, burst, remaining[..], w[..], start, time, idle);
    waiting := w[..];
    scheduleEnd := time;
  }

  /**
   * The outer loop of lines 205-227 exactly as written, for inputs the
   * simulation above excludes, cut off after `passes` passes. Only a process
   * with a positive burst is ever counted complete, and with a zero quantum
   * none is: for such inputs `complete < n` holds after any number of
   * passes, so the loop never exits.
   */
  method RoundRobinPasses(arrival: seq<nat>, burst: seq<nat>, quantum: nat, passes: nat) returns (complete: int)
    requires |burst| > 0 && |arrival| == |burst|
    ensures complete <= |burst| - Count<int>(burst, 0)
    ensures quantum == 0 ==> complete == 0
  {
    var n := |burst|;
    var remaining := new int[n](i requires 0 <= i < n => burst[i]);
    var w := new int[n];
    var time: int := MinOf(arrival);
    complete := 0;
    ghost var start, idle := time, 0;
    assert remaining[..] == burst;
    Initial(arrival, burst, w[..], time);

    var pass := 0;
    while complete < n && pass < passes
      invariant Bookkeeping(arrival, burst, remaining[..], w[..], start, time, complete, idle)
      invariant quantum == 0 ==> complete == 0
      decreases passes - pass
    {
      time, complete, idle := Round(arrival, burst, quantum, remaining, w, start, time, complete, idle);
      pass := pass + 1;
    }
  }
}
