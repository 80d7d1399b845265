# CPU scheduling simulations, verified

A Dafny model of the scheduling engine of CpuSchedulingWinForms, the
`Algorithms` class in `CpuSchedulingWinForms/Algorithms.cs`. Each of its six
entry points (FCFS, SJF, Priority, Round Robin, SRTF and HRRN) does the same
four things:

- it checks the process count the user typed;
- it asks for confirmation and reads the per-process times;
- it simulates one scheduling policy, which yields a waiting time per
  process and the end of the schedule;
- it summarises the run with `ComputeMetrics`: average waiting time, average
  turnaround time, CPU utilisation and throughput.

The dialogs become parameters. `userInput` is the count as typed,
`confirmed` is the answer to the Yes/No box, and the sequences hold the
values typed into the input boxes.

Modules, one per part of the program:

- `ProcessCount` (ProcessCount.dfy): the count guard
  `!int.TryParse(userInput.Trim(), out int n) || n <= 0`, with `Trim` and
  `int.TryParse` written out over characters.
- `Statistics` (Statistics.dfy): `ComputeMetrics` over exact reals.
- `NonPreemptive` (NonPreemptive.dfy): FCFS, and the SJF and Priority
  policies. Those two sort an index array in place and then run the
  processes back to back.
- `SliceAccounting` (SliceAccounting.dfy): the `remaining[]`/`waiting[]`
  bookkeeping and the slice step shared by Round Robin and SRTF.
- `RoundRobinScheduler` (RoundRobin.dfy) and `SrtfScheduler` (Srtf.dfy): the
  two pre-emptive policies, as methods over arrays with loop invariants.
- `HrrnScheduler` (Hrrn.dfy): Highest Response Ratio Next, including the
  double semantics of a zero burst (the ratio is infinite, or NaN, and `>`
  involving NaN is false).
- `Algorithms` (Algorithms.dfy): the six entry points.
- `Examples` (Examples.dfy): worked inputs, derived from the contracts alone.
- `Sequences` (Sequences.dfy): the LINQ operations `Sum`, `Min`, `Zip` and
  `Enumerable.Range`, and facts about sums over permutations. The
  `Where(...).Min()` of HRRN (line 318) is `HrrnScheduler.PendingArrivals`
  followed by `Sequences.MinOf`.

The simulations that update arrays are methods over `array`s, and each is
proved against a specification. For FCFS, SJF and Priority every waiting
time is given exactly. For Round Robin, SRTF and HRRN every step of the loop
is given exactly, as a function of the state before it (a slice, a scan, a
tick, a dispatch), and a process that completes in a step gets the waiting
time completion − arrival − burst. Over a whole run, every waiting time is
≥ 0, and no completion is later than the end of the schedule, which is the
last completion. The CPU is busy for the sum of the bursts after the
earliest arrival. When all processes arrive together
and some burst is positive, there is no idle time and utilisation is 100 %. The metrics are always
plausible: 0 ≤ AWT ≤ ATT, utilisation is between 0 and 100, and throughput
is positive.

## Model

| member | source | states |
|---|---|---|
| ProcessCount.TrimStart | CpuSchedulingWinForms/Algorithms.cs:71 | removes exactly the leading white space: the result is a suffix of the input, everything removed is white space, and the result does not start with white space |
| ProcessCount.TrimEnd | CpuSchedulingWinForms/Algorithms.cs:71 | removes exactly the trailing white space, symmetrically |
| ProcessCount.Trim | CpuSchedulingWinForms/Algorithms.cs:71 | String.Trim: the result is no longer than the input and neither starts nor ends with white space |
| ProcessCount.DropTrailingNuls | CpuSchedulingWinForms/Algorithms.cs:71 | removes exactly the trailing U+0000 characters, which int.TryParse ignores after the number: the result is a prefix, everything removed is U+0000, and the result does not end with one |
| ProcessCount.TryParseInt32 | CpuSchedulingWinForms/Algorithms.cs:71 | a parsed value always fits in a 32-bit int |
| ProcessCount.ParseInteger | CpuSchedulingWinForms/Algorithms.cs:71 | the sign-and-digits part of int.TryParse: a parsed value always fits in a 32-bit int |
| ProcessCount.ParsesAsWritten | CpuSchedulingWinForms/Algorithms.cs:71 | a string ending in neither white space nor U+0000 is parsed exactly as sign and digits |
| ProcessCount.ValidateProcessCount | CpuSchedulingWinForms/Algorithms.cs:71-75 | the count is refused exactly when the trimmed input does not parse as an int, or parses to a value ≤ 0; an accepted count lies in 1..2^31−1 |
| ProcessCount.DecimalValue | CpuSchedulingWinForms/Algorithms.cs:71 | reading back the decimal digits of n gives n (round trip) |
| ProcessCount.ParseSigned | CpuSchedulingWinForms/Algorithms.cs:71 | a '+' or '-' followed by digits parses to the signed value when it fits in 32 bits, and fails otherwise |
| ProcessCount.AcceptsPaddedDecimal | CpuSchedulingWinForms/Algorithms.cs:71-75 | every n in 1..2^31−1, written in decimal with any white space around it, is accepted as n |
| ProcessCount.AcceptsTrailingNuls | CpuSchedulingWinForms/Algorithms.cs:71-75 | every n in 1..2^31−1 followed by any run of U+0000 characters, with any white space around, is accepted as n: Trim keeps the U+0000 characters and int.TryParse ignores them |
| ProcessCount.AcceptsPlusSign | CpuSchedulingWinForms/Algorithms.cs:71-75 | "+n" is accepted as n |
| ProcessCount.RejectsNegative | CpuSchedulingWinForms/Algorithms.cs:71-75 | "-n" is refused, for every n |
| ProcessCount.RejectsZero | CpuSchedulingWinForms/Algorithms.cs:71-75 | "0", with any white space around it, is refused |
| ProcessCount.RejectsOverflow | CpuSchedulingWinForms/Algorithms.cs:71-75 | a count above 2^31−1 is refused |
| ProcessCount.RejectsBlank | CpuSchedulingWinForms/Algorithms.cs:71-75 | input made only of white space, the empty string included, is refused |
| ProcessCount.RejectsLoneSign | CpuSchedulingWinForms/Algorithms.cs:71-75 | a lone '+' or '-', with any white space before and any, possibly different, white space after it, is refused |
| Statistics.Average | CpuSchedulingWinForms/Algorithms.cs:49 | the mean times the count equals the sum |
| Statistics.ActiveSpan | CpuSchedulingWinForms/Algorithms.cs:46-47 | the span is at least 1: a span that is not positive is clamped |
| Statistics.Utilisation | CpuSchedulingWinForms/Algorithms.cs:51 | utilisation × span = 100 × busy time |
| Statistics.Throughput | CpuSchedulingWinForms/Algorithms.cs:52 | throughput × span = number of processes |
| Statistics.ComputeMetrics | CpuSchedulingWinForms/Algorithms.cs:42-54 | AWT is the mean waiting time; ATT × n = total waiting + total burst, so ATT = AWT + mean burst; utilisation and throughput are taken over the clamped span from the earliest arrival |
| Statistics.MeanOfSum | CpuSchedulingWinForms/Algorithms.cs:50 | the mean of waiting[i] + burst[i] equals mean waiting plus mean burst |
| Statistics.UtilisationBounds | CpuSchedulingWinForms/Algorithms.cs:51 | busy time within the span gives a utilisation between 0 and 100 |
| Statistics.UtilisationIsPercentage | CpuSchedulingWinForms/Algorithms.cs:45-51 | if the schedule spans at least the total burst, utilisation is a percentage |
| Statistics.DegenerateSpan | CpuSchedulingWinForms/Algorithms.cs:46-52 | a schedule ending no later than the earliest arrival is measured over one unit, with no division by zero |
| Statistics.MeansAreNonNegative | CpuSchedulingWinForms/Algorithms.cs:49-50 | with non-negative waits and bursts, 0 ≤ AWT ≤ ATT |
| Statistics.MetricsArePlausible | CpuSchedulingWinForms/Algorithms.cs:42-54 | non-negative waits and a span that holds all bursts give 0 ≤ AWT ≤ ATT, utilisation in [0, 100] and positive throughput |
| Statistics.PositiveThroughput | CpuSchedulingWinForms/Algorithms.cs:52 | at least one process over a positive span gives positive throughput |
| Statistics.NoIdleTime | CpuSchedulingWinForms/Algorithms.cs:45-51 | a schedule that ends exactly the total burst after the earliest arrival, with some burst positive, has 100 % utilisation |
| Sequences.Sum | CpuSchedulingWinForms/Algorithms.cs:45 | Enumerable.Sum (also at line 95): the total of all elements; it carries no contract of its own, and SumOfNaturals, SumUpdate and SumZipAdd state what it satisfies |
| Sequences.SumOfNaturals | CpuSchedulingWinForms/Algorithms.cs:45 | a total of non-negative times is non-negative |
| Sequences.SumUpdate | CpuSchedulingWinForms/Algorithms.cs:215 | overwriting one element changes the total by exactly the difference |
| Sequences.ZipAdd | CpuSchedulingWinForms/Algorithms.cs:50 | `Zip` with `(w, b) => w + b`: same length as the inputs, and element i is waiting[i] + burst[i] |
| Sequences.Range | CpuSchedulingWinForms/Algorithms.cs:123 | Enumerable.Range(0, n) (also at line 163): n elements, element i being i |
| Sequences.MinOf | CpuSchedulingWinForms/Algorithms.cs:46 | the minimum is an element and no element is smaller |
| Sequences.SumZipAdd | CpuSchedulingWinForms/Algorithms.cs:50 | summing waiting[i] + burst[i] gives total waiting plus total burst |
| Sequences.SumAtReorder | CpuSchedulingWinForms/Algorithms.cs:126-132 | the total burst of a list of processes does not depend on their order |
| Sequences.SumAtPermutation | CpuSchedulingWinForms/Algorithms.cs:126-132 | running every process once, in any order, hands out exactly the total burst |
| NonPreemptive.Fcfs | CpuSchedulingWinForms/Algorithms.cs:88-95 | each process waits for the bursts of all processes before it; the schedule ends at the total burst, when the last process finishes |
| NonPreemptive.LeastKeyFrom | CpuSchedulingWinForms/Algorithms.cs:124 | finds, in the unsorted part of the index array, a position whose key no later entry undercuts |
| NonPreemptive.SortByKey | CpuSchedulingWinForms/Algorithms.cs:124 | in place: the index array ends up sorted by key and is a rearrangement of what it held |
| NonPreemptive.ExecutionOrder | CpuSchedulingWinForms/Algorithms.cs:123-124 | the execution order is a permutation of 0..n−1 sorted by key |
| NonPreemptive.RunInOrder | CpuSchedulingWinForms/Algorithms.cs:126-132 | the k-th process in the order waits for the bursts of the k before it; every process finishes within the total burst, which is the elapsed time |
| NonPreemptive.StartsWithinTotal | CpuSchedulingWinForms/Algorithms.cs:126-132 | a process started after the bursts of those before it waits ≥ 0 and finishes by the total burst |
| NonPreemptive.Sjf | CpuSchedulingWinForms/Algorithms.cs:123-132 | SJF runs processes in ascending order of burst; the waits are as in RunInOrder and the schedule ends at the total burst |
| NonPreemptive.PriorityScheduling | CpuSchedulingWinForms/Algorithms.cs:163-172 | Priority runs processes in ascending order of priority value; the waits are as in RunInOrder and the schedule ends at the total burst |
| SliceAccounting.Eligible | CpuSchedulingWinForms/Algorithms.cs:212 | the test a process passes before it gets CPU time (also at line 265): it has arrived by now and has time left; only a valid index with at least one unit left, at a clock that has started, is eligible |
| SliceAccounting.Initial | CpuSchedulingWinForms/Algorithms.cs:205-206 | before anything runs, with remaining = burst, the clock at the earliest arrival and no process complete, the loop invariant holds |
| SliceAccounting.Slice | CpuSchedulingWinForms/Algorithms.cs:214-223 | one slice as a function of the state (remaining[], waiting[], clock, counter): remaining[i] and the clock move by the slice, and an emptied process gets waiting time completion − arrival − burst and is counted; the lengths are kept |
| SliceAccounting.SliceStep | CpuSchedulingWinForms/Algorithms.cs:214-223 | one slice keeps the invariant and lowers the total remaining time by exactly the slice; an empty slice changes nothing; a slice that completes the last process ends at that process's completion |
| SliceAccounting.RunSlice | CpuSchedulingWinForms/Algorithms.cs:214-223 | in place: the new remaining[], waiting[], clock and counter are exactly Slice of the old ones, and the invariant is kept |
| SliceAccounting.IdleStep | CpuSchedulingWinForms/Algorithms.cs:226 | an idle tick keeps the invariant; when every burst is positive and a process is unfinished, the tick is below the last arrival and cannot happen when all arrive together |
| SliceAccounting.Finished | CpuSchedulingWinForms/Algorithms.cs:207 | when every process is complete, every waiting time is ≥ 0, every completion is by now, and the clock is the earliest arrival + total burst + idle ticks |
| RoundRobinScheduler.SliceLength | CpuSchedulingWinForms/Algorithms.cs:214 | the slice is the quantum or what is left, whichever is less; it is positive when the quantum is |
| RoundRobinScheduler.ScanFrom | CpuSchedulingWinForms/Algorithms.cs:210-225 | the scan from process i on, as a function of the state: in index order, an eligible process runs one slice of SliceLength and any other is skipped; the lengths are kept |
| RoundRobinScheduler.Pass | CpuSchedulingWinForms/Algorithms.cs:208-226 | one pass of the outer loop as a function of the state: the scan, then one idle unit when the scan ran nothing |
| RoundRobinScheduler.ScanOverIneligible | CpuSchedulingWinForms/Algorithms.cs:210-225 | when no process from i on is eligible, the scan changes nothing |
| RoundRobinScheduler.ScanWorks | CpuSchedulingWinForms/Algorithms.cs:210-225 | the scan runs something exactly when some process from i on is eligible in the state it starts from |
| RoundRobinScheduler.ZeroQuantumScan | CpuSchedulingWinForms/Algorithms.cs:214-223 | with a zero quantum every slice is empty, so a scan leaves the whole state unchanged |
| RoundRobinScheduler.Scan | CpuSchedulingWinForms/Algorithms.cs:209-225 | in place: the new state and didWork are exactly ScanFrom of the old state from process 0; the invariant is kept; with a positive quantum work lowers the total remaining time; with nothing eligible or a zero quantum nothing changes |
| RoundRobinScheduler.Round | CpuSchedulingWinForms/Algorithms.cs:208-226 | in place: the new state is exactly Pass of the old; with a positive quantum and positive bursts, one pass either hands out CPU time or moves the clock one tick closer to the last arrival, so the loop ends; with a zero quantum nothing completes |
| RoundRobinScheduler.RoundRobin | CpuSchedulingWinForms/Algorithms.cs:205-227 | terminates; every wait ≥ 0 and every completion is by the end, which is some process's completion; the end is at least the earliest arrival + total burst, with equality when all arrive together |
| RoundRobinScheduler.RoundRobinPasses | CpuSchedulingWinForms/Algorithms.cs:205-227 | as written, after any number of passes at most the processes with a positive burst are complete, and none with a zero quantum, so such runs never leave the loop |
| SrtfScheduler.PickShortest | CpuSchedulingWinForms/Algorithms.cs:262-266 | makes the Shortest choice: −1 exactly when no arrived process has time left; otherwise an eligible process with the least remaining time, the first such in index order |
| SrtfScheduler.ShortestIsUnique | CpuSchedulingWinForms/Algorithms.cs:262-266 | that choice is determined by the state: two indices that are both Shortest are equal |
| SrtfScheduler.Tick | CpuSchedulingWinForms/Algorithms.cs:260-277 | in place: idx is the Shortest choice in the state before the tick; with −1 nothing changes but the clock, which moves by one; otherwise the new state is exactly a Slice of length 1 of process idx; the invariant is kept, and when every burst is positive the tick either hands out one unit or moves towards the last arrival |
| SrtfScheduler.Srtf | CpuSchedulingWinForms/Algorithms.cs:258-278 | terminates with the same guarantees as RoundRobin |
| SrtfScheduler.SrtfTicks | CpuSchedulingWinForms/Algorithms.cs:258-278 | as written, after any number of ticks a process with a zero burst is never finished, so such runs never leave the loop |
| HrrnScheduler.ResponseRatio | CpuSchedulingWinForms/Algorithms.cs:325 | for a positive burst the ratio is (wait + burst) / burst ≥ 1; for a zero burst it is infinite after some waiting and NaN without |
| HrrnScheduler.RatioOnArrival | CpuSchedulingWinForms/Algorithms.cs:325 | a process that has not waited has ratio exactly 1 |
| HrrnScheduler.RatioGrowsWithWaiting | CpuSchedulingWinForms/Algorithms.cs:325 | the ratio strictly increases with waiting |
| HrrnScheduler.Exceeds | CpuSchedulingWinForms/Algorithms.cs:326 | double `>` on ratios: it is irreflexive, never holds with NaN on either side, and nothing exceeds +infinity |
| HrrnScheduler.ExceedsOrder | CpuSchedulingWinForms/Algorithms.cs:326 | double `>` on ratios is asymmetric and transitive; if x does not exceed a number y that z exceeds, x does not exceed z either |
| HrrnScheduler.BuildReady | CpuSchedulingWinForms/Algorithms.cs:312-314 | the ready list holds exactly the processes that are not done and have arrived, in increasing index order |
| HrrnScheduler.ReadyListIsUnique | CpuSchedulingWinForms/Algorithms.cs:312-314 | only one list has those two properties |
| HrrnScheduler.PendingArrivals | CpuSchedulingWinForms/Algorithms.cs:318 | exactly the arrival times of the processes not done |
| HrrnScheduler.PickHighestRatio | CpuSchedulingWinForms/Algorithms.cs:322-327 | makes the HighestRatio choice: the choice is ready and no ratio exceeds it; it is a number whenever some ratio is; ready[0] when all are NaN; every earlier ready process is NaN or exceeded |
| HrrnScheduler.HighestRatioIsUnique | CpuSchedulingWinForms/Algorithms.cs:322-327 | over a ready list without repeats, that choice is determined: two HighestRatio choices are equal |
| HrrnScheduler.Started | CpuSchedulingWinForms/Algorithms.cs:308-309 | with nothing done and the clock at the start, the loop invariant holds |
| HrrnScheduler.Jump | CpuSchedulingWinForms/Algorithms.cs:316-320 | with nothing ready, some process is pending, and the earliest pending arrival is later than now and no later than the last arrival; jumping there keeps the invariant; this never happens when all arrive together |
| HrrnScheduler.RunChosen | CpuSchedulingWinForms/Algorithms.cs:329-333 | in place: only the chosen process changes: its waiting time becomes now − arrival and it is marked done; the clock moves by its burst and the counter by one; the invariant is kept |
| HrrnScheduler.RunStep | CpuSchedulingWinForms/Algorithms.cs:329-333 | the new run overlaps no earlier run, and every done process finished by the new time |
| HrrnScheduler.AllDispatched | CpuSchedulingWinForms/Algorithms.cs:310 | when all are done, waits are ≥ 0, no two runs overlap, and the clock is the start + total burst + skipped time |
| HrrnScheduler.Dispatch | CpuSchedulingWinForms/Algorithms.cs:310-334 | in place: ready is the ready list of the state before; when it is empty only the clock moves, to the earliest pending arrival; otherwise the HighestRatio process of ready runs, with the new state as in RunChosen; the invariant is kept, and each iteration completes a process or moves towards the last arrival |
| HrrnScheduler.Hrrn | CpuSchedulingWinForms/Algorithms.cs:308-334 | terminates, zero bursts included; runs never overlap; the other guarantees are as for RoundRobin |
| Algorithms.Simultaneous | CpuSchedulingWinForms/Algorithms.cs:80 | FCFS, SJF and Priority treat every process as arriving at 0 |
| Algorithms.FcfsAlgorithm | CpuSchedulingWinForms/Algorithms.cs:69-98 | refuses a bad count, stops when the user declines; otherwise gives the FCFS waits, an end at the total burst, and plausible metrics computed with all arrivals at 0 |
| Algorithms.SjfAlgorithm | CpuSchedulingWinForms/Algorithms.cs:103-135 | the same, with the waits of a run in ascending order of burst |
| Algorithms.PriorityAlgorithm | CpuSchedulingWinForms/Algorithms.cs:140-175 | the same, with the waits of a run in ascending order of priority |
| Algorithms.Summarise | CpuSchedulingWinForms/Algorithms.cs:228 | a finished schedule with arrival times has plausible metrics, and 100 % utilisation when all arrive together and some burst is positive |
| Algorithms.RoundRobinAlgorithm | CpuSchedulingWinForms/Algorithms.cs:180-230 | refuses a bad count, stops when the user declines, refuses a zero quantum or a zero burst; otherwise the schedule and metrics as described |
| Algorithms.SrtfAlgorithm | CpuSchedulingWinForms/Algorithms.cs:235-281 | the same, refusing a zero burst |
| Algorithms.HrrnAlgorithm | CpuSchedulingWinForms/Algorithms.cs:286-337 | the same, for every burst, plus no overlapping runs |
| Examples.FcfsExample | CpuSchedulingWinForms/Algorithms.cs:88-95 | bursts 5, 3, 8 give waits 0, 5, 8 and an end at 16 |
| Examples.FcfsExampleMetrics | CpuSchedulingWinForms/Algorithms.cs:42-54 | that run has AWT 13/3, ATT 29/3, 100 % utilisation and throughput 3/16 |
| Examples.DistinctSortedOrder | CpuSchedulingWinForms/Algorithms.cs:124 | with distinct bursts 6, 8, 7, 3, the only sorted order is 3, 0, 2, 1 |
| Examples.SjfExample | CpuSchedulingWinForms/Algorithms.cs:123-132 | SJF on bursts 6, 8, 7, 3 runs 3, 0, 2, 1, with waits 3, 16, 9, 0 and an end at 24 |
| Examples.RoundRobinExample | CpuSchedulingWinForms/Algorithms.cs:205-227 | quantum 4 on bursts 5, 3, 8, all arriving at 0, ends at 16 |

## Left out

- The input dialogs are parameters, not code. This covers PromptInt and
  PromptDouble (lines 23-40, with their retry-until-valid loops), the
  InputBox, and the Yes/No box. Times are `nat` because those prompts
  accept only non-negative values.
- The message boxes are not modelled: the per-process "Waiting time for Pi"
  messages and ShowMetrics (lines 56-64, the formatting of the four
  figures).
- Helper.QuantumTime (line 203) is not part of this model. It is a string
  copy of the quantum kept for the user interface.
- Times are whole numbers and metrics are exact reals. Double rounding is
  not modelled, nor fractional times. With fractional times, SRTF's
  `remaining[idx] -= 1` can step over 0 and never finish, and Round Robin's
  idle step of one unit mixes units. The `double.MaxValue` start of
  `minRem` becomes "no candidate yet".
- Trim and int.TryParse: only the ASCII white space U+0009 to U+000D and
  U+0020 is modelled. Other Unicode white space, and culture-specific sign
  symbols, are not.
- NonPreemptive.SortByKey is a selection sort, standing in for .NET's
  Array.Sort (an unstable introsort). It promises only what Array.Sort
  promises: a sorted rearrangement. The order of equal keys is left open,
  as it is in the program.
- RoundRobinScheduler.RoundRobin states the end of the schedule and a bound
  on every waiting time, not each waiting time. Each pass is stated exactly
  (Round against Pass), but no lemma chains the passes over a whole run.
- SrtfScheduler.Srtf: the same; each tick is stated exactly (Tick against
  Shortest and Slice), but no lemma chains the ticks. So a worked
  pre-emption example is not proved.
- HrrnScheduler.Hrrn: the same; each iteration is stated exactly (Dispatch
  against ReadyList, HighestRatio and the jump), but no lemma chains them.
- Algorithms.RoundRobinAlgorithm inherits the whole-run contract of
  RoundRobin: bounds and the end of the schedule, not which process runs when.
- Algorithms.SrtfAlgorithm inherits the whole-run contract of Srtf, likewise.
- Algorithms.HrrnAlgorithm inherits the whole-run contract of Hrrn, likewise.
- RoundRobinScheduler.RoundRobin requires a positive quantum and positive
  bursts, and SrtfScheduler.Srtf requires positive bursts. As written,
  other inputs never leave the loop (see Findings). The entry points refuse
  them.

## Findings

| source | as written | input that shows it | evidently intended | confidence | as-written member | corrected member |
|---|---|---|---|---|---|---|
| CpuSchedulingWinForms/Algorithms.cs:202-227 | PromptDouble accepts a quantum of 0. Every slice Math.Min(0, remaining[i]) is then 0: the scan reports work but nothing completes, and `while (complete < n)` never ends | one process, arrival 0, burst 1, quantum 0 | a zero quantum is refused, and every accepted run ends | not executed | RoundRobinScheduler.RoundRobinPasses | Algorithms.RoundRobinAlgorithm |
| CpuSchedulingWinForms/Algorithms.cs:209-225 | a process with burst 0 never passes `remaining[i] > 0`, so it is never counted complete and `complete < n` holds forever | one process, arrival 0, burst 0, any quantum | every accepted run ends | not executed | RoundRobinScheduler.RoundRobinPasses | Algorithms.RoundRobinAlgorithm |
| CpuSchedulingWinForms/Algorithms.cs:262-278 | a process with burst 0 is never chosen (`remaining[i] > 0`), so `finished` never reaches n and the clock ticks on forever | one process, arrival 0, burst 0 | every accepted run ends | not executed | SrtfScheduler.SrtfTicks | Algorithms.SrtfAlgorithm |
