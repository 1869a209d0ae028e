/**
  Non-preemptive Shortest-Job-First.  Starting with the clock at 0, the loop
  repeatedly looks at the rows that have arrived and are not completed, runs
  the one with the smallest service time to completion (ties to the earliest
  row of the table, because `sorted` is stable over a list built in table
  order), and idles one tick when no row is available.
 */
module Sjf {
  import opened Wrappers
  import opened Workload
  import opened StableSort
  import opened Progress
  import Fcfs

  /** What one pass of the loop body decides. */
  datatype Decision = Idle | Run(job: Job)

  /**
    One decision of the loop body (lines 985-992): idle when no row is
    available, otherwise the earliest available row, in table order, with
    the smallest service time (`DecideIsSortedHead` shows this is the head of
    the available rows stably sorted by service time, as the loop takes it).
   */
  function Decide(w: seq<Job>, clock: int, completed: seq<string>): (d: Decision)
    ensures d.Idle? <==> Available(w, clock, completed) == []
  {
    var avail := Available(w, clock, completed);
    if avail == [] then Idle else Run(avail[FirstMinimum(avail, ByService)])
  }

  /** The row run is exactly `sorted(available, key=service)[0]`. */
  lemma DecideIsSortedHead(w: seq<Job>, clock: int, completed: seq<string>)
    requires Available(w, clock, completed) != []
    ensures Decide(w, clock, completed) == Run(SortBy(Available(w, clock, completed), ByService)[0])
  {
    HeadIsFirstMinimum(Available(w, clock, completed), ByService);
  }

  /**
    The SJF choice: idle exactly when no unfinished row has arrived;
    otherwise a row that has arrived and is not completed, with the smallest
    service time among all such rows, and the earliest in table order among
    those of equal service.
   */
  lemma DecideChoosesShortestEarliest(w: seq<Job>, clock: int, completed: seq<string>)
    ensures var d := Decide(w, clock, completed);
      && (d.Idle? <==> forall x :: x in w && x.pid !in completed ==> clock < x.arrival)
      && (d.Run? ==> d.job in w && d.job.arrival <= clock && d.job.pid !in completed)
      && (d.Run? ==> forall x :: x in w && x.arrival <= clock && x.pid !in completed ==>
                                 d.job.service <= x.service)
      && (d.Run? ==> exists i :: EarliestMinimumAt(Available(w, clock, completed), ByService, i)
                                 && Available(w, clock, completed)[i] == d.job)
  {
    var avail := Available(w, clock, completed);
    var d := Decide(w, clock, completed);
    if avail == [] {
      forall x | x in w && x.pid !in completed
        ensures clock < x.arrival
      {
        AvailableMembers(w, clock, completed, x);
      }
    } else {
      var i := FirstMinimum(avail, ByService);
      FirstMinimumIsEarliest(avail, ByService);
      AvailableMembers(w, clock, completed, d.job);
      forall x | x in w && x.arrival <= clock && x.pid !in completed
        ensures d.job.service <= x.service
      {
        AvailableMembers(w, clock, completed, x);
        var m :| 0 <= m < |avail| && avail[m] == x;
        assert KeyOf(avail[i], ByService) <= KeyOf(avail[m], ByService);
      }
    }
  }

  /** A row the loop body runs has arrived and is not completed. */
  lemma RunIsAvailable(w: seq<Job>, clock: int, completed: seq<string>, p: Job)
    requires Decide(w, clock, completed) == Run(p)
    ensures p in w && p.arrival <= clock && p.pid !in completed
  {
    var avail := Available(w, clock, completed);
    assert p == avail[FirstMinimum(avail, ByService)];
    AvailableMembers(w, clock, completed, p);
  }

  /** While a row is unfinished and the loop body idles, the clock is below the last arrival. */
  lemma IdleIsBounded(w: seq<Job>, clock: int, completed: seq<string>)
    requires |completed| + |Unfinished(w, completed)| == |w|
    requires |completed| < |w|
    requires Decide(w, clock, completed) == Idle
    ensures clock < MaxArrival(w)
  {
    NothingAvailableIsBounded(w, clock, completed);
  }

  /** The rows run, in the order they were run, and the report the loop builds. */
  datatype Trace = Trace(picks: seq<Job>, report: Report)

  /** Idling one tick before the first job has arrived does not change when the jobs run. */
  lemma ServeFromIdleTick(js: seq<Job>, clock: int)
    requires js != [] ==> clock < js[0].arrival
    ensures Fcfs.Serve(js, clock) == Fcfs.Serve(js, clock + 1)
  {
  }

  /**
    The picks, served back to back from `clock`, are the loop body's
    decisions: each row is the decision at the tick it starts, given the pids
    completed before it, and the CPU, free from `clock` on, idles before it
    only at ticks when no unfinished row has arrived.
   */
  predicate Decided(w: seq<Job>, completed: seq<string>, clock: int, picks: seq<Job>)
    decreases |picks|
  {
    picks != [] ==>
      var start := Max(clock, picks[0].arrival);
      && Decide(w, start, completed) == Run(picks[0])
      && (forall c :: clock <= c < start ==> Available(w, c, completed) == [])
      && Decided(w, completed + [picks[0].pid], start + picks[0].service, picks[1..])
  }

  /**
    The loop of lines 983-1007 from the given clock and completed list.
    Every unfinished row is run exactly once; the timing is that of running
    the picks back to back, each starting at max(previous finish, arrival),
    so the CPU idles only while no unfinished row has arrived; and every
    entry is the loop body's decision at its start time.
   */
  function Loop(w: seq<Job>, clock: int, completed: seq<string>): (t: Trace)
    requires DistinctPids(w)
    requires |completed| + |Unfinished(w, completed)| == |w|
    decreases |Unfinished(w, completed)|, MaxArrival(w) - clock
    ensures multiset(t.picks) == multiset(Unfinished(w, completed))
    ensures t.report == Fcfs.Serve(t.picks, clock)
    ensures Decided(w, completed, clock, t.picks)
  {
    if |completed| >= |w| then Trace([], Report([], [], []))
    else
      match Decide(w, clock, completed)
      case Idle =>
        IdleIsBounded(w, clock, completed);
        var t := Loop(w, clock + 1, completed);
        IdleStep(w, clock, completed, t);
        t
      case Run(p) =>
        RunIsAvailable(w, clock, completed, p);
        CompletingShrinks(w, completed, p);
        var rest := Loop(w, Max(clock, p.arrival) + p.service, completed + [p.pid]);
        RunStep(w, clock, completed, p, rest);
        RunFirst(p, clock, rest)
  }

  /** Runs `p` from `max(clock, arrival)` to completion in front of `rest`. */
  function RunFirst(p: Job, clock: int, rest: Trace): Trace {
    var start := Max(clock, p.arrival);
    var finish := start + p.service;
    Trace([p] + rest.picks,
          Report([Entry(p.pid, start, finish)] + rest.report.gantt,
                 [start - p.arrival] + rest.report.waits,
                 [finish - p.arrival] + rest.report.turnarounds))
  }

  /** An idle tick keeps what the rest of the loop establishes from the next tick. */
  lemma IdleStep(w: seq<Job>, clock: int, completed: seq<string>, t: Trace)
    requires Decide(w, clock, completed) == Idle
    requires multiset(t.picks) == multiset(Unfinished(w, completed))
    requires t.report == Fcfs.Serve(t.picks, clock + 1)
    requires Decided(w, completed, clock + 1, t.picks)
    ensures t.report == Fcfs.Serve(t.picks, clock)
    ensures Decided(w, completed, clock, t.picks)
  {
    if t.picks != [] {
      assert t.picks[0] in multiset(Unfinished(w, completed));
      UnfinishedMembers(w, completed, t.picks[0]);
      AvailableMembers(w, clock, completed, t.picks[0]);
      ServeFromIdleTick(t.picks, clock);
    }
    IdleKeepsDecided(w, clock, completed, t.picks);
  }

  /** An idle tick before the first pick has arrived lengthens the idle stretch in front of it. */
  lemma IdleKeepsDecided(w: seq<Job>, clock: int, completed: seq<string>, picks: seq<Job>)
    requires Decide(w, clock, completed) == Idle
    requires picks != [] ==> clock < picks[0].arrival
    requires Decided(w, completed, clock + 1, picks)
    ensures Decided(w, completed, clock, picks)
  {
  }

  /** Running the decided row in front of the rest of the loop keeps the loop's promises. */
  lemma RunStep(w: seq<Job>, clock: int, completed: seq<string>, p: Job, rest: Trace)
    requires DistinctPids(w)
    requires Decide(w, clock, completed) == Run(p)
    requires p in w && p.arrival <= clock && p.pid !in completed
    requires multiset(rest.picks) == multiset(Unfinished(w, completed + [p.pid]))
    requires rest.report == Fcfs.Serve(rest.picks, Max(clock, p.arrival) + p.service)
    requires Decided(w, completed + [p.pid], Max(clock, p.arrival) + p.service, rest.picks)
    ensures multiset(RunFirst(p, clock, rest).picks) == multiset(Unfinished(w, completed))
    ensures RunFirst(p, clock, rest).report == Fcfs.Serve(RunFirst(p, clock, rest).picks, clock)
    ensures Decided(w, completed, clock, RunFirst(p, clock, rest).picks)
  {
    DecidedRunFirst(w, clock, completed, p, rest);
    RunFirstPicks(w, clock, completed, p, rest);
    ServeRunFirst(p, clock, rest);
  }

  /** Running `p` in front of the rest of the unfinished rows runs every unfinished row. */
  lemma RunFirstPicks(w: seq<Job>, clock: int, completed: seq<string>, p: Job, rest: Trace)
    requires DistinctPids(w)
    requires p in w && p.pid !in completed
    requires multiset(rest.picks) == multiset(Unfinished(w, completed + [p.pid]))
    ensures multiset(RunFirst(p, clock, rest).picks) == multiset(Unfinished(w, completed))
  {
    CompletingOneRow(w, completed, p);
    assert multiset(RunFirst(p, clock, rest).picks) == multiset(rest.picks) + multiset{p};
  }

  /** The decision to run `p` now, followed by the decisions of the rest of the loop. */
  lemma DecidedRunFirst(w: seq<Job>, clock: int, completed: seq<string>, p: Job, rest: Trace)
    requires Decide(w, clock, completed) == Run(p) && p.arrival <= clock
    requires Decided(w, completed + [p.pid], Max(clock, p.arrival) + p.service, rest.picks)
    ensures Decided(w, completed, clock, RunFirst(p, clock, rest).picks)
  {
    assert RunFirst(p, clock, rest).picks[1..] == rest.picks;
  }

  /** Running `p` in front of a trace served from `p`'s finish keeps the whole trace served back to back. */
  lemma ServeRunFirst(p: Job, clock: int, rest: Trace)
    requires rest.report == Fcfs.Serve(rest.picks, Max(clock, p.arrival) + p.service)
    ensures RunFirst(p, clock, rest).report == Fcfs.Serve([p] + rest.picks, clock)
  {
    Fcfs.ServeFirst(p, rest.picks, clock);
  }

  /** The pids completed before entry `k`, counted from entry 1 after entry 0 completed. */
  lemma PidsPrefixStep(completed: seq<string>, picks: seq<Job>, k: int)
    requires 0 < k <= |picks|
    ensures completed + [picks[0].pid] + PidsOf(picks[1..][..k - 1]) == completed + PidsOf(picks[..k])
  {
    assert picks[1..][..k - 1] == picks[1..k];
    assert PidsOf(picks[..k]) == [picks[0].pid] + PidsOf(picks[1..k]);
  }

  /** When the CPU becomes free for the `k`-th pick, running the picks back to back from `clock`. */
  function FreeAt(picks: seq<Job>, clock: int, k: nat): int
    requires k < |picks|
    decreases k
  {
    if k == 0 then clock
    else FreeAt(picks[1..], Max(clock, picks[0].arrival) + picks[0].service, k - 1)
  }

  /** The `k`-th entry served back to back starts at max(free, arrival), and the CPU is free when the entry before it finishes. */
  lemma {:induction false} ServeStartsWhenFree(picks: seq<Job>, clock: int, k: nat)
    requires k < |picks|
    ensures var g := Fcfs.Serve(picks, clock).gantt;
      && g[k].start == Max(FreeAt(picks, clock, k), picks[k].arrival)
      && (k > 0 ==> FreeAt(picks, clock, k) == g[k - 1].finish)
    decreases k
  {
    Fcfs.ServeIsWorkConserving(picks, clock);
    if k > 0 {
      var next := Max(clock, picks[0].arrival) + picks[0].service;
      ServeStartsWhenFree(picks[1..], next, k - 1);
      Fcfs.ServeFirst(picks[0], picks[1..], clock);
      assert [picks[0]] + picks[1..] == picks;
      var g, rest := Fcfs.Serve(picks, clock).gantt, Fcfs.Serve(picks[1..], next).gantt;
      assert g[k] == rest[k - 1] && g[k - 1] == if k == 1 then g[0] else rest[k - 2];
      assert picks[k] == picks[1..][k - 1];
    }
  }

  /**
    The decision behind the `k`-th pick, with the pids completed before it,
    and the idle ticks in front of it.
   */
  lemma {:induction false} DecidedEach(w: seq<Job>, completed: seq<string>, clock: int, picks: seq<Job>, k: nat)
    requires Decided(w, completed, clock, picks)
    requires k < |picks|
    ensures var free, done := FreeAt(picks, clock, k), completed + PidsOf(picks[..k]);
      && Decide(w, Max(free, picks[k].arrival), done) == Run(picks[k])
      && (forall c :: free <= c < Max(free, picks[k].arrival) ==> Available(w, c, done) == [])
    decreases k
  {
    if k == 0 {
      assert completed + PidsOf(picks[..0]) == completed;
    } else {
      DecidedEach(w, completed + [picks[0].pid], Max(clock, picks[0].arrival) + picks[0].service, picks[1..], k - 1);
      PidsPrefixStep(completed, picks, k);
      assert picks[1..][k - 1] == picks[k];
    }
  }

  /**
    What the SJF loop produces from clock 0 with nothing completed: every row
    run exactly once, back to back, each entry the loop body's decision, the
    CPU idle only at ticks when nothing is available.  `FaithfulIsUnique`
    shows this pins the run down.
   */
  predicate Faithful(w: seq<Job>, t: Trace) {
    && multiset(t.picks) == multiset(w)
    && t.report == Fcfs.Serve(t.picks, 0)
    && Decided(w, [], 0, t.picks)
  }

  /** The loop of lines 974-1012 started at clock 0. */
  function FromStart(w: seq<Job>): (t: Trace)
    requires DistinctPids(w)
    ensures Faithful(w, t)
  {
    NothingCompletedMeansAllUnfinished(w);
    Loop(w, 0, [])
  }

  /**
    The loop's promises pin its run down: two equally long orders, each made
    of the loop body's decisions with idling only while nothing is
    available, are the same order.
   */
  lemma DecidedIsUnique(w: seq<Job>, completed: seq<string>, clock: int, p1: seq<Job>, p2: seq<Job>)
    requires |p1| == |p2|
    requires Decided(w, completed, clock, p1) && Decided(w, completed, clock, p2)
    ensures p1 == p2
  {
    var k := 0;
    while k < |p1|
      invariant 0 <= k <= |p1|
      invariant p1[..k] == p2[..k]
    {
      SamePickAt(w, completed, clock, p1, p2, k);
      assert p1[..k + 1] == p1[..k] + [p1[k]] && p2[..k + 1] == p2[..k] + [p2[k]];
      k := k + 1;
    }
    assert p1 == p1[..k] && p2 == p2[..k];
  }

  /** Two such orders that agree before position `k` agree at `k`. */
  lemma SamePickAt(w: seq<Job>, completed: seq<string>, clock: int, p1: seq<Job>, p2: seq<Job>, k: nat)
    requires k < |p1| && k < |p2| && p1[..k] == p2[..k]
    requires Decided(w, completed, clock, p1) && Decided(w, completed, clock, p2)
    ensures p1[k] == p2[k]
  {
    DecidedEach(w, completed, clock, p1, k);
    DecidedEach(w, completed, clock, p2, k);
    FreeAtPrefix(p1, p2, clock, k);
    var free, done := FreeAt(p1, clock, k), completed + PidsOf(p1[..k]);
    var s1, s2 := Max(free, p1[k].arrival), Max(free, p2[k].arrival);
    SameStart(w, done, free, s1, s2);
    SameStart(w, done, free, s2, s1);
  }

  /** When the CPU becomes free for pick `k` depends only on the picks before it. */
  lemma {:induction false} FreeAtPrefix(p1: seq<Job>, p2: seq<Job>, clock: int, k: nat)
    requires k < |p1| && k < |p2| && p1[..k] == p2[..k]
    ensures FreeAt(p1, clock, k) == FreeAt(p2, clock, k)
    decreases k
  {
    if k > 0 {
      assert p1[0] == p1[..k][0] == p2[..k][0] == p2[0];
      assert p1[1..][..k - 1] == p1[1..k] == p1[..k][1..];
      assert p2[1..][..k - 1] == p2[1..k] == p2[..k][1..];
      FreeAtPrefix(p1[1..], p2[1..], Max(clock, p1[0].arrival) + p1[0].service, k - 1);
    }
  }

  /** A run decision at `s` rules out a later first start that idles through `s`. */
  lemma SameStart(w: seq<Job>, completed: seq<string>, clock: int, s: int, t: int)
    requires clock <= s
    requires Decide(w, s, completed).Run?
    requires forall c :: clock <= c < t ==> Available(w, c, completed) == []
    ensures t <= s
  {
  }

  /** `FromStart` is the only faithful run of a table. */
  lemma FaithfulIsUnique(w: seq<Job>, t1: Trace, t2: Trace)
    requires Faithful(w, t1) && Faithful(w, t2)
    ensures t1 == t2
  {
    assert |multiset(t1.picks)| == |multiset(t2.picks)|;
    DecidedIsUnique(w, [], 0, t1.picks, t2.picks);
  }

  /** A report served back to back from time 0 has no negative wait and no overlap. */
  lemma ReportShape(picks: seq<Job>, r: Report)
    requires r == Fcfs.Serve(picks, 0)
    ensures forall i :: 0 <= i < |r.waits| ==> r.waits[i] >= 0
    ensures forall i :: 0 < i < |r.gantt| ==> r.gantt[i - 1].finish <= r.gantt[i].start
  {
    Fcfs.ServeEntries(picks, 0);
    Fcfs.ServeIsWorkConserving(picks, 0);
  }

  /**
    The metrics of a run that serves every row once, back to back: one entry
    per row, no overlap, waits >= 0, exact totals.
   */
  lemma FaithfulReport(w: seq<Job>, t: Trace)
    requires multiset(t.picks) == multiset(w)
    requires t.report == Fcfs.Serve(t.picks, 0)
    ensures |t.report.gantt| == |w|
    ensures multiset(EntryPids(t.report.gantt)) == multiset(PidsOf(w))
    ensures Sum(t.report.turnarounds) == Sum(t.report.waits) + TotalService(w)
    ensures forall i :: 0 <= i < |t.report.waits| ==> t.report.waits[i] >= 0
    ensures forall i :: 0 < i < |t.report.gantt| ==>
              t.report.gantt[i - 1].finish <= t.report.gantt[i].start
  {
    ReportLength(w, t);
    ReportPids(w, t);
    ReportTotals(w, t);
    ReportShape(t.picks, t.report);
  }

  lemma ReportLength(w: seq<Job>, t: Trace)
    requires multiset(t.picks) == multiset(w)
    requires t.report == Fcfs.Serve(t.picks, 0)
    ensures |t.report.gantt| == |w|
  {
    assert |multiset(t.picks)| == |multiset(w)|;
  }

  lemma ReportPids(w: seq<Job>, t: Trace)
    requires multiset(t.picks) == multiset(w)
    requires t.report == Fcfs.Serve(t.picks, 0)
    ensures multiset(EntryPids(t.report.gantt)) == multiset(PidsOf(w))
  {
    PermutationKeepsPids(t.picks, w);
    Fcfs.ServePids(t.picks, 0);
  }

  lemma ReportTotals(w: seq<Job>, t: Trace)
    requires multiset(t.picks) == multiset(w)
    requires t.report == Fcfs.Serve(t.picks, 0)
    ensures Sum(t.report.turnarounds) == Sum(t.report.waits) + TotalService(w)
  {
    PermutationKeepsService(t.picks, w);
    Fcfs.ServeTotals(t.picks, 0);
  }

  /**
    SJF over the whole table (lines 974-1012).  An empty table is refused
    (the source would divide by zero when averaging).  Otherwise every row
    gets exactly one entry, entries never overlap, waiting times are
    non-negative and total turnaround = total waiting + total service.
   */
  function Schedule(w: seq<Job>): (r: Result<Report, SchedError>)
    requires DistinctPids(w)
    ensures w == [] <==> r == Failure(EmptyWorkload)
    ensures r.Success? ==> |r.value.gantt| == |w| && |r.value.waits| == |w| && |r.value.turnarounds| == |w|
    ensures r.Success? ==> multiset(EntryPids(r.value.gantt)) == multiset(PidsOf(w))
    ensures r.Success? ==> Sum(r.value.turnarounds) == Sum(r.value.waits) + TotalService(w)
    ensures r.Success? ==> forall i :: 0 <= i < |r.value.waits| ==> r.value.waits[i] >= 0
    ensures r.Success? ==> forall i :: 0 < i < |r.value.gantt| ==>
              r.value.gantt[i - 1].finish <= r.value.gantt[i].start
  {
    if w == [] then Failure(EmptyWorkload)
    else
      var t := FromStart(w);
      FaithfulReport(w, t);
      Success(t.report)
  }

  /**
    Every entry of a faithful run is the loop body's choice at its start
    time: the row has arrived and was not run before, no arrived row still
    waiting has a shorter service time, and among the arrived waiting rows
    of equal service it is the earliest in table order.  Its start is the
    finish of the previous entry, or its own arrival if the CPU was idle.
   */
  lemma RunsShortestAvailable(w: seq<Job>, t: Trace, k: int)
    requires Faithful(w, t) && 0 <= k < |t.picks|
    ensures var order, g := t.picks, t.report.gantt;
      var start, done := g[k].start, PidsOf(order[..k]);
      && g[k].pid == order[k].pid
      && g[k].finish == start + order[k].service
      && (k == 0 ==> start == Max(0, order[0].arrival))
      && (k > 0 ==> start == Max(g[k - 1].finish, order[k].arrival))
      && order[k] in w && order[k].arrival <= start && order[k].pid !in done
      && (forall x :: x in w && x.arrival <= start && x.pid !in done ==> order[k].service <= x.service)
      && (exists i :: EarliestMinimumAt(Available(w, start, done), ByService, i)
                      && Available(w, start, done)[i] == order[k])
      && (forall c :: (if k == 0 then 0 else g[k - 1].finish) <= c < start ==> Available(w, c, done) == [])
  {
    Fcfs.ServeEntries(t.picks, 0);
    Fcfs.ServeIsWorkConserving(t.picks, 0);
    DecidedEach(w, [], 0, t.picks, k);
    ServeStartsWhenFree(t.picks, 0, k);
    var done := PidsOf(t.picks[..k]);
    assert [] + done == done;
    DecideChoosesShortestEarliest(w, t.report.gantt[k].start, done);
  }

  /** A faithful run of a non-empty table is what SJF reports for it. */
  lemma ScheduleIsTheFaithfulRun(w: seq<Job>, t: Trace)
    requires DistinctPids(w) && w != []
    requires Faithful(w, t)
    ensures Schedule(w) == Success(t.report)
  {
    FaithfulIsUnique(w, t, FromStart(w));
  }
}
