# OS visualisation: schedulers and process registry

This project models, in Dafny, the computational core of the operating-system
teaching tool `os_visualization.py`:

- the CPU-scheduling page (`CPUScheduler`), with its three algorithms over a
  process table of `(pid, arrival, service, priority)` rows:
  - first-come-first-served (`fcfs`);
  - round robin with a time slice of 2 (`rr`);
  - non-preemptive shortest-job-first (`sjf`);
- the preset four-row table of that page;
- the process-management panel (`ProcessManagement`), with its id counter,
  FIFO ready queue, single running slot, FIFO blocked queue and terminated
  list, and the button handlers that move ids between them;
- the `block` and `wake` guards of the per-process thread (`ProcessThread`).

The modules follow the program's structure:

| module | models |
|---|---|
| `Wrappers` | `Option` and `Result`, used for refused operations |
| `Workload` | the table rows (`Job`), Gantt entries (`Entry`), the per-run metrics (`Report`), sums, means and the preset table |
| `StableSort` | Python's stable `sorted` with `key=` arrival or service, and "first row with the smallest key" |
| `Fcfs` | `fcfs`: a stable sort by arrival, then running the rows back to back |
| `Progress` | the "arrived and not completed" filter shared by SJF and round robin |
| `Sjf` | `sjf`: the decision of one loop pass, the loop, and the uniqueness of its run |
| `RoundRobin` | `rr`: the admission pass, one slice, the loop, its invariant, its termination measure and a slice ledger |
| `Registry` | `ProcessManagement`'s queues and thread flags, each button as an operation, and the partition invariant |
| `Examples` | the three algorithms on the preset table, worked out |

An empty table makes the source divide by zero when it averages. Here each
algorithm instead returns `Failure(EmptyWorkload)`. Each metric list is kept as
a list of integers. The means the page displays are `Workload.Mean` of those
lists. For FCFS and SJF these are the `waits` and `turnarounds` of the
returned `Report`. For round robin they are the lists of `RoundRobin.Figures`
of the final state: waiting times in table order, and turnaround times in
completion order, matching the order of the two dictionaries of `rr`.

Facts about the code that the model keeps:

- The FCFS means on the preset table are 16/4 = 4 and 30/4 = 7.5
  (lines 918-919).
- SJF breaks ties between equal service times by table order. The available
  list is built in table order (line 985) and `sorted` is stable (line 991).
- Round robin puts a row whose slice did not finish it back at the tail of
  the queue straight away (line 967). Rows that arrived during that slice are
  admitted on the next pass (lines 936-939), so they land behind it.
- `schedule_process` checks for an empty ready queue (line 263) before it
  checks for a running process (line 266). So with both conditions true, the
  refusal is "ready queue empty".
- Round robin charges waiting time only for slices during which a row sat in
  the queue (lines 958-960). A row admitted after a slice has started is not
  charged for that slice.

## Model

| member | source | states |
|---|---|---|
| StableSort.SortByIsOrdered | os_visualization.py:896 | the rows sorted by a key come out in non-decreasing key order |
| StableSort.SortByIsStable | os_visualization.py:896 | for every key value, the rows with that key keep their input order after sorting |
| StableSort.SortByIsTheStableSort | os_visualization.py:896 | any key-ordered list with the same per-key subsequences as the input is exactly the sort, so the sort is the unique stable sort |
| StableSort.HeadIsFirstMinimum | os_visualization.py:991-992 | the head of the list sorted by service is the earliest row, in input order, with the smallest service |
| StableSort.FirstMinimumIsEarliest | os_visualization.py:991-992 | the chosen index holds a smallest key, and every earlier row has a strictly larger key |
| Progress.AvailableMembers | os_visualization.py:985 | a row is available exactly when it is in the table, has arrived by the clock and its pid is not completed |
| Progress.NothingAvailableIsBounded | os_visualization.py:986-988 | while some row is unfinished and none is available, the clock is below the last arrival, so the idle ticks are bounded |
| Fcfs.ServeEntries | os_visualization.py:902-914 | entry i belongs to row i; it starts no earlier than the row's arrival and lasts its service; waiting = start - arrival >= 0 and turnaround = waiting + service |
| Fcfs.ServeIsWorkConserving | os_visualization.py:905-915 | the first row starts at max(clock, arrival), each later one at max(previous finish, arrival), and entries never overlap |
| Fcfs.ServeTotals | os_visualization.py:902-915 | total turnaround = total waiting + total service, exactly |
| Fcfs.FcfsServesInStableArrivalOrder | os_visualization.py:896-914 | the rows are run sorted by arrival, with ties kept in table order, and the Gantt list names every row once in that order |
| Fcfs.Schedule | os_visualization.py:893-920 | an empty table is refused, and only it; otherwise one entry per row, the Gantt pids are a permutation of the table's, waits >= 0 and turnaround total = wait total + service total |
| Sjf.Decide | os_visualization.py:985-992 | the pass idles exactly when no row is available |
| Sjf.DecideIsSortedHead | os_visualization.py:990-992 | the row run is `sorted(available, key=service)[0]` |
| Sjf.DecideChoosesShortestEarliest | os_visualization.py:985-992 | the pass idles iff no unfinished row has arrived; otherwise it runs an arrived, uncompleted row whose service is minimal among those, the earliest in table order among equals |
| Sjf.RunIsAvailable | os_visualization.py:985-993 | a row chosen to run is in the table, has arrived and is not completed |
| Sjf.IdleIsBounded | os_visualization.py:983-988 | while a row is unfinished and the pass idles, the clock is below the last arrival |
| Sjf.ServeFromIdleTick | os_visualization.py:986-988 | an idle tick before the next row has arrived does not change when the rows run |
| Sjf.Loop | os_visualization.py:983-1007 | every unfinished row is run exactly once, served back to back from the clock, each pick being the pass's decision at its start time, with idling only at ticks when nothing is available |
| Sjf.FromStart | os_visualization.py:974-1007 | the run from clock 0 with nothing completed is faithful: a permutation of the table, timed back to back, made of the pass's decisions |
| Sjf.DecidedEach | os_visualization.py:983-1007 | the k-th pick is the pass's decision when the CPU is next free (or at its arrival), given the pids run before it, and nothing is available at the idle ticks before it |
| Sjf.DecidedIsUnique | os_visualization.py:983-1007 | two equally long orders that both consist of the pass's decisions are equal |
| Sjf.FaithfulIsUnique | os_visualization.py:974-1007 | a table has exactly one faithful run |
| Sjf.FaithfulReport | os_visualization.py:996-1003 | a run serving every row once gives one entry per row, a permutation of the pids, waits >= 0, no overlap, turnaround total = wait total + service total |
| Sjf.RunsShortestAvailable | os_visualization.py:983-1007 | every entry starts at max(previous finish, arrival); its row has arrived and was not run before, no waiting arrived row is shorter, ties go to table order, and the CPU idled before it only while nothing was available |
| Sjf.Schedule | os_visualization.py:974-1012 | an empty table is refused, and only it; otherwise one entry per row, a permutation of the pids, no overlap, waits >= 0 and turnaround total = wait total + service total |
| Sjf.ScheduleIsTheFaithfulRun | os_visualization.py:974-1012 | for a non-empty table, any faithful run is what SJF reports |
| RoundRobin.AdmitAppendsArrivals | os_visualization.py:936-939 | admission keeps the queue and appends, in table order, exactly the rows that have arrived and are neither queued nor completed |
| RoundRobin.StepSlice | os_visualization.py:946-967 | a slice runs the head for min(2, remaining) from the clock, adds one Gantt entry, then requeues the head at the tail with the remainder or completes it with turnaround = finish - arrival |
| RoundRobin.StepWaits | os_visualization.py:957-960 | after a slice, exactly the rows still queued gain the slice length as waiting time, and no other row's waiting time changes |
| RoundRobin.PassRunsHead | os_visualization.py:945-967 | a pass whose queue is non-empty after admission runs its head for min(2, remaining) ticks, then requeues or completes it |
| RoundRobin.PassWaits | os_visualization.py:936-960 | the queue a pass runs from is the old queue followed by the new arrivals, and only rows left in it gain waiting time |
| RoundRobin.PassIdles | os_visualization.py:936-943 | a pass idles exactly when the queue is empty and no uncompleted row has arrived; it then only advances the clock by one |
| RoundRobin.RequeuedAheadOfArrivals | os_visualization.py:936-967 | a row put back at the tail stays ahead of the rows that arrived during its slice |
| RoundRobin.IdleIsBounded | os_visualization.py:941-943 | an idle pass with rows unfinished happens only before the last arrival |
| RoundRobin.IterateProgress | os_visualization.py:934-967 | a pass keeps the invariant, and either lowers the remaining-work measure or idles one tick below the last arrival, so the loop ends |
| RoundRobin.IterateKeepsLedger | os_visualization.py:934-967 | a pass keeps the ledger: queued slices + remaining = service; completed slices sum to service, with turnaround = last finish - arrival; rows not yet admitted have no slices; the Gantt list is a timeline of slices of at most 2 |
| RoundRobin.StartIsSound | os_visualization.py:926-932 | the start state satisfies the invariant and the ledger |
| RoundRobin.IterateKeepsArrivals | os_visualization.py:936-967 | a pass keeps the arrival facts: every queued row has arrived and its slices so far fit between its arrival and the clock; every slice belongs to a row of the table and starts no earlier than its arrival; every completed row's turnaround is at least its service |
| RoundRobin.Loop | os_visualization.py:934-967 | the loop ends with every row completed, keeping the invariant, the ledger and the arrival facts |
| RoundRobin.FinalOutcome | os_visualization.py:934-967 | at the end, every row has completed once, the queue is empty, each row's slices sum to its service, turnaround = finish of its last slice - arrival >= service, waits >= 0, every slice belongs to a row of the table and starts no earlier than its arrival, and a slice shorter than 2 is its row's last |
| RoundRobin.FiguresOfOutcome | os_visualization.py:969-971 | at the end, the averaged waiting and turnaround lists each have one value per row; waits are >= 0; the turnarounds are the last-slice finishes minus arrivals, each at least the row's service |
| RoundRobin.Schedule | os_visualization.py:922-972 | an empty table is refused, and only it; otherwise the final state has the outcome above |
| Registry.InitialIsValid | os_visualization.py:88-93 | the freshly opened panel satisfies the invariant |
| Registry.ThreadGuardsPass | os_visualization.py:67-78 | the running id's thread is running and `block` turns it blocked; the blocked head's thread is blocked and `wake` turns it ready |
| Registry.Create | os_visualization.py:243-259 | the counter rises by five, the five next ids are appended to the ready queue in order, and the other places are unchanged |
| Registry.CreateAllocatesFresh | os_visualization.py:246-249 | the ids a creation allocates are in no place yet |
| Registry.CreateKeepsValid | os_visualization.py:243-259 | creation keeps every created id in exactly one place, with each thread labelled by its place |
| Registry.Schedule | os_visualization.py:261-277 | refused with "ready empty" if the ready queue is empty, else with "already running" if a process runs; succeeds iff neither; then the ready head moves into the running slot and nothing else moves |
| Registry.ScheduleKeepsValid | os_visualization.py:261-277 | scheduling keeps the invariant |
| Registry.Block | os_visualization.py:279-293 | refused iff nothing runs; otherwise the running id goes to the tail of the blocked queue and the slot empties |
| Registry.BlockKeepsValid | os_visualization.py:279-293 | blocking keeps the invariant |
| Registry.Wake | os_visualization.py:295-308 | refused iff the blocked queue is empty; otherwise its head goes to the tail of the ready queue |
| Registry.WakeKeepsValid | os_visualization.py:295-308 | waking keeps the invariant |
| Registry.Finish | os_visualization.py:316-326 | the running id goes to the end of the terminated list, and the slot empties |
| Registry.FinishKeepsValid | os_visualization.py:316-326 | a finish keeps the invariant |
| Registry.ApplyKeepsValid | os_visualization.py:243-326 | every button or finish signal keeps the invariant, never lowers the counter and only appends to the terminated list |
| Registry.RunKeepsValid | os_visualization.py:243-326 | any sequence of commands keeps the invariant, never lowers the counter and only appends to the terminated list |
| Examples.SampleSortedByArrival | os_visualization.py:856-861 | the preset table is already in arrival order |
| Examples.FcfsOnSample | os_visualization.py:893-915 | FCFS on the preset table runs P1 0-5, P2 5-8, P3 8-10, P4 10-14, with waits 0, 4, 6, 6 and turnarounds 5, 7, 8, 10 |
| Examples.FcfsSampleMeans | os_visualization.py:917-919 | FCFS on the preset table reports total waiting 16 and total turnaround 30, so means 4 and 7.5 |
| Examples.SjfDecidesP3 | os_visualization.py:985-992 | at time 5, with P1 completed, SJF chooses P3 (service 2) over P2, which arrived earlier |
| Examples.SjfRunsBackToBack | os_visualization.py:974-1007 | four rows, each arrived when the previous one finishes and each the pass's decision then, are what SJF reports |
| Examples.SjfOnSample | os_visualization.py:974-1007 | SJF on the preset table runs P1 0-5, P3 5-7, P2 7-10, P4 10-14, with waits 0, 3, 6, 6 and turnarounds 5, 5, 9, 10 |
| Examples.SjfSampleMeans | os_visualization.py:1009-1011 | SJF on the preset table reports total waiting 15 and total turnaround 29, so means 3.75 and 7.25 |

## Left out

- The Qt widgets, plots, Gantt drawing, log colouring and every label update. They are presentation only.
- The inter-process communication page (pipe producer and consumer threads) and the semaphore page (producer and consumer threads). They are concurrency demonstrations outside the modelled core.
- `ProcessThread.run`'s random 3 to 5 second timer and the thread scheduling. The end of a run is the explicit `Registry.Finish` operation instead, issued only while a process runs.
- Registry.Finish: takes the running process rather than a pid argument. A finish signal from a thread that is no longer in the running slot is not modelled, because it depends on thread timing.
- Registry: restarting a thread that was blocked and woken is modelled as the thread entering its running state. Qt's behaviour when `start` is called on a thread object whose earlier run has not yet returned is not modelled.
- Registry.Block, Registry.Wake: for an id with no thread object the source would raise `KeyError` (lines 286, 302). The model's `else Idle` branch stands in for that error, and it is unreachable under `Registry.Valid`.
- The `priority` field. It is carried in every row and read by none of the algorithms.
- Floating-point means. The metrics are integer lists; `Workload.Mean` is their exact rational mean, with no rounding.
- Sjf.Schedule, RoundRobin.Schedule: require distinct pids. With a repeated pid the source loops compare pids and can spin forever.
- Service times are natural numbers. The preset table's are positive. A negative one would make a row finish before it starts. In FCFS and SJF (lines 909, 998) the waiting time stays non-negative, but the finish and the turnaround go backwards. In round robin (lines 949-952) the clock itself goes backwards, and the rows still queued get negative waiting time (line 960).
- No worked round-robin run of the preset table. Its properties are stated for all tables instead.
