// The six entry points of the Algorithms class. Each validates the process
// count, asks the user to confirm, runs one simulation on the times the user
// entered and summarises it with ComputeMetrics. The dialogs become
// parameters: `confirmed` is the answer to the Yes/No box and the sequences
// hold the values typed into the input boxes.
module Algorithms {
  import opened Sequences
  import opened ProcessCount
  import opened Statistics
  import opened NonPreemptive
  import opened RoundRobinScheduler
  import opened SrtfScheduler
  import opened HrrnScheduler

  /**
   * How a run ends: the count was refused, the user declined, the times
   * entered cannot be run to completion (a zero quantum or a zero burst in
   * Round Robin or SRTF), or a schedule with its metrics.
   */
  datatype Outcome =
    | InvalidCount
    | Declined
    | Unschedulable
    | Done(waiting: seq<int>, scheduleEnd: int, metrics: Metrics)

  /** The arrival array of FCFS, SJF and Priority: every process arrives at time 0. */
  function Simultaneous(n: nat): (arrival: seq<nat>)
    ensures |arrival| == n && forall i :: 0 <= i < n ==> arrival[i] == 0
  {
    seq(n, _ => 0)
  }

  lemma SimultaneousStart(n: nat)
    requires n > 0
    ensures MinOf(Simultaneous(n)) == 0
  {
    assert Simultaneous(n)[0] == 0;
  }

  /** fcfsAlgorithm (lines 69-98). */
  method FcfsAlgorithm(userInput: string, confirmed: bool, burst: seq<nat>) returns (r: Outcome)
    requires ValidateProcessCount(userInput).Some? ==> |burst| == ValidateProcessCount(userInput).value
    ensures r.InvalidCount? <==> ValidateProcessCount(userInput).None?
    ensures r.Declined? <==> ValidateProcessCount(userInput).Some? && !confirmed
    ensures r.Done? ==> |r.waiting| == |burst| && r.scheduleEnd == Sum(burst) &&
                        forall i :: 0 <= i < |burst| ==> r.waiting[i] == Sum(burst[..i])
    ensures r.Done? ==> r.metrics == ComputeMetrics(Simultaneous(|burst|), burst, r.waiting, r.scheduleEnd)
    ensures r.Done? ==> Plausible(r.metrics)
  {
    if ValidateProcessCount(userInput).None? {
      return InvalidCount;
    }
    if !confirmed {
      return Declined;
    }
    var waiting, scheduleEnd := Fcfs(burst);
    var arrival := Simultaneous(|burst|);
    forall i | 0 <= i < |burst| ensures waiting[i] >= 0 {
      SumOfNaturals(burst[..i]);
    }
    SimultaneousStart(|burst|);
    MetricsArePlausible(arrival, burst, waiting, scheduleEnd);
    r := Done(waiting, scheduleEnd, ComputeMetrics(arrival, burst, waiting, scheduleEnd));
  }

  /** sjfAlgorithm (lines 103-135). */
  method SjfAlgorithm(userInput: string, confirmed: bool, burst: seq<nat>) returns (r: Outcome)
    requires ValidateProcessCount(userInput).Some? ==> |burst| == ValidateProcessCount(userInput).value
    ensures r.InvalidCount? <==> ValidateProcessCount(userInput).None?
    ensures r.Declined? <==> ValidateProcessCount(userInput).Some? && !confirmed
    ensures r.Done? ==> |r.waiting| == |burst| && r.scheduleEnd == Sum(burst)
    ensures r.Done? ==> exists order :: IsPermutation(order, |burst|) && SortedBy(order, burst) &&
                          forall k :: 0 <= k < |burst| ==> r.waiting[order[k]] == SumAt(burst, order[..k])
    ensures r.Done? ==> r.metrics == ComputeMetrics(Simultaneous(|burst|), burst, r.waiting, r.scheduleEnd)
    ensures r.Done? ==> Plausible(r.metrics)
  {
    if ValidateProcessCount(userInput).None? {
      return InvalidCount;
    }
    if !confirmed {
      return Declined;
    }
    var order, waiting, elapsed := Sjf(burst);
    var arrival := Simultaneous(|burst|);
    SimultaneousStart(|burst|);
    MetricsArePlausible(arrival, burst, waiting, elapsed);
    r := Done(waiting, elapsed, ComputeMetrics(arrival, burst, waiting, elapsed));
  }

  /** priorityAlgorithm (lines 140-175). */
  method PriorityAlgorithm(userInput: string, confirmed: bool, burst: seq<nat>, priority: seq<int>) returns (r: Outcome)
    requires ValidateProcessCount(userInput).Some? ==>
               |burst| == ValidateProcessCount(userInput).value && |priority| == |burst|
    ensures r.InvalidCount? <==> ValidateProcessCount(userInput).None?
    ensures r.Declined? <==> ValidateProcessCount(userInput).Some? && !confirmed
    ensures r.Done? ==> |r.waiting| == |burst| && r.scheduleEnd == Sum(burst)
    ensures r.Done? ==> exists order :: IsPermutation(order, |burst|) && SortedBy(order, priority) &&
                          forall k :: 0 <= k < |burst| ==> r.waiting[order[k]] == SumAt(burst, order[..k])
    ensures r.Done? ==> r.metrics == ComputeMetrics(Simultaneous(|burst|), burst, r.waiting, r.scheduleEnd)
    ensures r.Done? ==> Plausible(r.metrics)
  {
    if ValidateProcessCount(userInput).None? {
      return InvalidCount;
    }
    if !confirmed {
      return Declined;
    }
    var order, waiting, elapsed := PriorityScheduling(burst, priority);
    var arrival := Simultaneous(|burst|);
    SimultaneousStart(|burst|);
    MetricsArePlausible(arrival, burst, waiting, elapsed);
    r := Done(waiting, elapsed, ComputeMetrics(arrival, burst, waiting, elapsed));
  }

  /**
   * The guarantees shared by the three simulations with arrival times:
   * non-negative waiting, every completion within the schedule, the last
   * completion ending it, and plausible metrics; with simultaneous arrivals
   * and some CPU demand the CPU is used 100%.
   */
  predicate ArrivalSchedule(arrival: seq<nat>, burst: seq<nat>, r: Outcome)
    requires r.Done? && |burst| > 0 && |arrival| == |burst|
  {
    |r.waiting| == |burst| &&
    (forall i :: 0 <= i < |burst| ==> 0 <= r.waiting[i] && arrival[i] + r.waiting[i] + burst[i] <= r.scheduleEnd) &&
    (exists i :: 0 <= i < |burst| && arrival[i] + r.waiting[i] + burst[i] == r.scheduleEnd) &&
    r.scheduleEnd >= MinOf(arrival) + Sum(burst) &&
    r.metrics == ComputeMetrics(arrival, burst, r.waiting, r.scheduleEnd) &&
    Plausible(r.metrics) &&
    (AllEqual(arrival) && Sum(burst) > 0 ==> r.metrics.util == 100.0)
  }

  /** Packs a finished arrival-time schedule with its metrics. */
  method Summarise(arrival: seq<nat>, burst: seq<nat>, waiting: seq<int>, scheduleEnd: int) returns (r: Outcome)
    requires |burst| > 0 && |arrival| == |burst| && |waiting| == |burst|
    requires forall i :: 0 <= i < |burst| ==> 0 <= waiting[i] && arrival[i] + waiting[i] + burst[i] <= scheduleEnd
    requires exists i :: 0 <= i < |burst| && arrival[i] + waiting[i] + burst[i] == scheduleEnd
    requires scheduleEnd >= MinOf(arrival) + Sum(burst)
    requires AllEqual(arrival) ==> scheduleEnd == MinOf(arrival) + Sum(burst)
    ensures r.Done? && r.waiting == waiting && r.scheduleEnd == scheduleEnd
    ensures ArrivalSchedule(arrival, burst, r)
  {
    MetricsArePlausible(arrival, burst, waiting, scheduleEnd);
    if AllEqual(arrival) && Sum(burst) > 0 {
      NoIdleTime(arrival, burst, waiting, scheduleEnd);
    }
    r := Done(waiting, scheduleEnd, ComputeMetrics(arrival, burst, waiting, scheduleEnd));
  }

  /**
   * roundRobinAlgorithm (lines 180-230); the quantum is the value typed in
   * its input box. As written, a zero quantum or a zero burst keeps the loop
   * of lines 207-227 running forever (RoundRobinPasses); this entry point
   * refuses those inputs instead.
   */
  method RoundRobinAlgorithm(userInput: string, confirmed: bool, arrival: seq<nat>, burst: seq<nat>, quantum: nat)
    returns (r: Outcome)
    requires ValidateProcessCount(userInput).Some? ==>
               |burst| == ValidateProcessCount(userInput).value && |arrival| == |burst|
    ensures r.InvalidCount? <==> ValidateProcessCount(userInput).None?
    ensures r.Declined? <==> ValidateProcessCount(userInput).Some? && !confirmed
    ensures r.Unschedulable? <==> ValidateProcessCount(userInput).Some? && confirmed &&
                                  (quantum == 0 || exists i :: 0 <= i < |burst| && burst[i] == 0)
    ensures r.Done? ==> ArrivalSchedule(arrival, burst, r)
  {
    if ValidateProcessCount(userInput).None? {
      return InvalidCount;
    }
    if !confirmed {
      return Declined;
    }
    if quantum == 0 || exists i :: 0 <= i < |burst| && burst[i] == 0 {
      return Unschedulable;
    }
    var waiting, scheduleEnd := RoundRobin(arrival, burst, quantum);
    r := Summarise(arrival, burst, waiting, scheduleEnd);
  }

  /**
   * srtfAlgorithm (lines 235-281). As written, a zero burst keeps the loop of
   * lines 258-278 running forever (SrtfTicks); this entry point refuses it
   * instead.
   */
  method SrtfAlgorithm(userInput: string, confirmed: bool, arrival: seq<nat>, burst: seq<nat>) returns (r: Outcome)
    requires ValidateProcessCount(userInput).Some? ==>
               |burst| == ValidateProcessCount(userInput).value && |arrival| == |burst|
    ensures r.InvalidCount? <==> ValidateProcessCount(userInput).None?
    ensures r.Declined? <==> ValidateProcessCount(userInput).Some? && !confirmed
    ensures r.Unschedulable? <==> ValidateProcessCount(userInput).Some? && confirmed &&
                                  exists i :: 0 <= i < |burst| && burst[i] == 0
    ensures r.Done? ==> ArrivalSchedule(arrival, burst, r)
  {
    if ValidateProcessCount(userInput).None? {
      return InvalidCount;
    }
    if !confirmed {
      return Declined;
    }
    if exists i :: 0 <= i < |burst| && burst[i] == 0 {
      return Unschedulable;
    }
    var waiting, scheduleEnd := Srtf(arrival, burst);
    r := Summarise(arrival, burst, waiting, scheduleEnd);
  }

  /** hrrnAlgorithm (lines 286-337); runs never overlap, and zero bursts are handled. */
  method HrrnAlgorithm(userInput: string, confirmed: bool, arrival: seq<nat>, burst: seq<nat>) returns (r: Outcome)
    requires ValidateProcessCount(userInput).Some? ==>
               |burst| == ValidateProcessCount(userInput).value && |arrival| == |burst|
    ensures r.InvalidCount? <==> ValidateProcessCount(userInput).None?
    ensures r.Declined? <==> ValidateProcessCount(userInput).Some? && !confirmed
    ensures r.Done? ==> ArrivalSchedule(arrival, burst, r)
    ensures r.Done? ==> |r.waiting| == |burst| && NoOverlap(arrival, burst, r.waiting)
  {
    if ValidateProcessCount(userInput).None? {
      return InvalidCount;
    }
    if !confirmed {
      return Declined;
    }
    var waiting, scheduleEnd := Hrrn(arrival, burst);
    r := Summarise(arrival, burst, waiting, scheduleEnd);
  }
}
