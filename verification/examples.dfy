/**
  The three algorithms on the preset workload of the scheduling page:
  P1 (arrival 0, service 5), P2 (1, 3), P3 (2, 2), P4 (4, 4).
 */
module Examples {
  import opened Wrappers
  import opened Workload
  import opened StableSort
  import Fcfs
  import Sjf
  import RoundRobin
  import Progress

  const P1 := Job("P1", 0, 5, 3)
  const P2 := Job("P2", 1, 3, 1)
  const P3 := Job("P3", 2, 2, 2)
  const P4 := Job("P4", 4, 4, 4)

  lemma SampleRows()
    ensures Sample == [P1, P2, P3, P4]
    ensures DistinctPids(Sample)
  {
  }

  /** The table is already in arrival order, so the stable sort keeps it as it is. */
  lemma SampleSortedByArrival()
    ensures SortBy(Sample, ByArrival) == Sample
  {
    SampleRows();
    assert SortedBy(Sample, ByArrival);
    SortedIsFixed(Sample, ByArrival);
  }

  const FcfsGantt := [Entry("P1", 0, 5), Entry("P2", 5, 8), Entry("P3", 8, 10), Entry("P4", 10, 14)]

  lemma FcfsServesSample()
    ensures Fcfs.Serve(Sample, 0) == Report(FcfsGantt, [0, 4, 6, 6], [5, 7, 8, 10])
  {
    SampleRows();
    FcfsFromP2();
    FcfsServeFrom(P1, [P2, P3, P4], 0, Report(FcfsGantt[1..], [4, 6, 6], [7, 8, 10]));
  }

  lemma FcfsFromP2()
    ensures Fcfs.Serve([P2, P3, P4], 5) == Report(FcfsGantt[1..], [4, 6, 6], [7, 8, 10])
  {
    FcfsFromP3();
    FcfsServeFrom(P2, [P3, P4], 5, Report(FcfsGantt[2..], [6, 6], [8, 10]));
  }

  lemma FcfsFromP3()
    ensures Fcfs.Serve([P3, P4], 8) == Report(FcfsGantt[2..], [6, 6], [8, 10])
  {
    Fcfs.ServeFirst(P4, [], 10);
    FcfsServeFrom(P3, [P4], 8, Report([Entry("P4", 10, 14)], [6], [10]));
  }

  /** One step of the FCFS loop on the sample, given the rest of the run. */
  lemma FcfsServeFrom(j: Job, js: seq<Job>, clock: int, rest: Report)
    requires Fcfs.Serve(js, Max(clock, j.arrival) + j.service) == rest
    ensures var start := Max(clock, j.arrival);
      Fcfs.Serve([j] + js, clock)
        == Report([Entry(j.pid, start, start + j.service)] + rest.gantt,
                  [start - j.arrival] + rest.waits,
                  [start + j.service - j.arrival] + rest.turnarounds)
  {
    Fcfs.ServeFirst(j, js, clock);
  }

  /**
    FCFS runs P1 0-5, P2 5-8, P3 8-10, P4 10-14: waiting times 0, 4, 6, 6
    and turnaround times 5, 7, 8, 10.
   */
  lemma FcfsOnSample()
    ensures Fcfs.Schedule(Sample) == Success(Report(FcfsGantt, [0, 4, 6, 6], [5, 7, 8, 10]))
  {
    SampleRows();
    SampleSortedByArrival();
    FcfsServesSample();
  }

  /**
    The figures FCFS reports for the sample: 16 time units of waiting and 30
    of turnaround, so mean waiting time 4 and mean turnaround time 7.5.
   */
  lemma FcfsSampleMeans()
    ensures var r := Fcfs.Schedule(Sample);
      && r.Success?
      && Sum(r.value.waits) == 16 && Sum(r.value.turnarounds) == 30
      && Mean(r.value.waits) == 4.0 && Mean(r.value.turnarounds) == 7.5
  {
    FcfsOnSample();
    FigureSums([0, 4, 6, 6], [5, 7, 8, 10], 16, 30);
  }

  /** The sums and means of two four-element metric lists, from their elements. */
  lemma FigureSums(waits: seq<int>, turnarounds: seq<int>, sw: int, st: int)
    requires |waits| == 4 && |turnarounds| == 4
    requires waits[0] + waits[1] + waits[2] + waits[3] == sw
    requires turnarounds[0] + turnarounds[1] + turnarounds[2] + turnarounds[3] == st
    ensures Sum(waits) == sw && Sum(turnarounds) == st
    ensures Mean(waits) == sw as real / 4.0 && Mean(turnarounds) == st as real / 4.0
  {
    SumOfFour(waits);
    SumOfFour(turnarounds);
  }

  lemma SumOfFour(xs: seq<int>)
    requires |xs| == 4
    ensures Sum(xs) == xs[0] + xs[1] + xs[2] + xs[3]
  {
    var a := xs[1..];
    var b := a[1..];
    var c := b[1..];
    assert c[1..] == [];
    assert a[0] == xs[1] && b[0] == xs[2] && c[0] == xs[3];
  }

  lemma SjfDecidesP1()
    ensures Sjf.Decide(Sample, 0, []) == Sjf.Run(P1)
  {
    SampleRows();
    assert Progress.Available(Sample, 0, []) == [P1];
  }

  lemma SjfDecidesP3()
    ensures Sjf.Decide(Sample, 5, ["P1"]) == Sjf.Run(P3)
  {
    SampleRows();
    assert Progress.Available(Sample, 5, ["P1"]) == [P2, P3, P4];
    assert FirstMinimum([P2, P3, P4], ByService) == 1 by {
      assert [P2, P3, P4][1..] == [P3, P4] && [P3, P4][1..] == [P4];
    }
  }

  lemma SjfDecidesP2()
    ensures Sjf.Decide(Sample, 7, ["P1", "P3"]) == Sjf.Run(P2)
  {
    SampleRows();
    assert Progress.Available(Sample, 7, ["P1", "P3"]) == [P2, P4];
    assert FirstMinimum([P2, P4], ByService) == 0 by {
      assert [P2, P4][1..] == [P4];
    }
  }

  lemma SjfDecidesP4()
    ensures Sjf.Decide(Sample, 10, ["P1", "P3", "P2"]) == Sjf.Run(P4)
  {
    SampleRows();
    assert Progress.Available(Sample, 10, ["P1", "P3", "P2"]) == [P4];
  }

  /**
    A row that has arrived when the CPU becomes free at `clock`, chosen by the
    loop body then, in front of rows decided from its finish on.
   */
  lemma DecidedFrom(w: seq<Job>, completed: seq<string>, after: seq<string>, clock: int, finish: int,
                    p: Job, rest: seq<Job>, picks: seq<Job>)
    requires p.arrival <= clock && finish == clock + p.service
    requires after == completed + [p.pid] && picks == [p] + rest
    requires Sjf.Decide(w, clock, completed) == Sjf.Run(p)
    requires Sjf.Decided(w, after, finish, rest)
    ensures Sjf.Decided(w, completed, clock, picks)
  {
    assert Max(clock, p.arrival) == clock;
    assert picks[1..] == rest;
  }

  /** The last two of four rows run back to back, as the loop body decides them. */
  lemma SjfDecidedLastTwo(w: seq<Job>, a: Job, b: Job, c: Job, d: Job)
    requires c.arrival <= a.service + b.service
    requires Sjf.Decide(w, a.service + b.service, [a.pid, b.pid]) == Sjf.Run(c)
    requires d.arrival <= a.service + b.service + c.service
    requires Sjf.Decide(w, a.service + b.service + c.service, [a.pid, b.pid, c.pid]) == Sjf.Run(d)
    ensures Sjf.Decided(w, [a.pid, b.pid], a.service + b.service, [c, d])
  {
    var t3 := a.service + b.service + c.service;
    DecidedFrom(w, [a.pid, b.pid, c.pid], [a.pid, b.pid, c.pid, d.pid], t3, t3 + d.service, d, [], [d]);
    DecidedFrom(w, [a.pid, b.pid], [a.pid, b.pid, c.pid], a.service + b.service, t3, c, [d], [c, d]);
  }

  /** Four rows run back to back, as the loop body decides them. */
  lemma SjfDecidedAll(w: seq<Job>, a: Job, b: Job, c: Job, d: Job)
    requires a.arrival <= 0 && Sjf.Decide(w, 0, []) == Sjf.Run(a)
    requires b.arrival <= a.service && Sjf.Decide(w, a.service, [a.pid]) == Sjf.Run(b)
    requires c.arrival <= a.service + b.service
    requires Sjf.Decide(w, a.service + b.service, [a.pid, b.pid]) == Sjf.Run(c)
    requires d.arrival <= a.service + b.service + c.service
    requires Sjf.Decide(w, a.service + b.service + c.service, [a.pid, b.pid, c.pid]) == Sjf.Run(d)
    ensures Sjf.Decided(w, [], 0, [a, b, c, d])
  {
    SjfDecidedLastTwo(w, a, b, c, d);
    DecidedFrom(w, [a.pid], [a.pid, b.pid], a.service, a.service + b.service, b, [c, d], [b, c, d]);
    DecidedFrom(w, [], [a.pid], 0, a.service, a, [b, c, d], [a, b, c, d]);
  }

  /**
    Four rows, each arrived by the time the one before it finishes and each
    the loop body's decision at that time, are what SJF reports.
   */
  lemma SjfRunsBackToBack(w: seq<Job>, a: Job, b: Job, c: Job, d: Job)
    requires DistinctPids(w) && multiset([a, b, c, d]) == multiset(w)
    requires a.arrival <= 0 && Sjf.Decide(w, 0, []) == Sjf.Run(a)
    requires b.arrival <= a.service && Sjf.Decide(w, a.service, [a.pid]) == Sjf.Run(b)
    requires c.arrival <= a.service + b.service
    requires Sjf.Decide(w, a.service + b.service, [a.pid, b.pid]) == Sjf.Run(c)
    requires d.arrival <= a.service + b.service + c.service
    requires Sjf.Decide(w, a.service + b.service + c.service, [a.pid, b.pid, c.pid]) == Sjf.Run(d)
    ensures Sjf.Schedule(w) == Success(Fcfs.Serve([a, b, c, d], 0))
  {
    SjfDecidedAll(w, a, b, c, d);
    assert w != [] by {
      assert a in multiset(w);
    }
    Sjf.ScheduleIsTheFaithfulRun(w, Sjf.Trace([a, b, c, d], Fcfs.Serve([a, b, c, d], 0)));
  }

  const SjfGantt := [Entry("P1", 0, 5), Entry("P3", 5, 7), Entry("P2", 7, 10), Entry("P4", 10, 14)]

  lemma SjfServesSample()
    ensures Fcfs.Serve([P1, P3, P2, P4], 0) == Report(SjfGantt, [0, 3, 6, 6], [5, 5, 9, 10])
  {
    SjfServesFromP3();
    FcfsServeFrom(P1, [P3, P2, P4], 0, Report(SjfGantt[1..], [3, 6, 6], [5, 9, 10]));
  }

  lemma SjfServesFromP3()
    ensures Fcfs.Serve([P3, P2, P4], 5) == Report(SjfGantt[1..], [3, 6, 6], [5, 9, 10])
  {
    SjfServesFromP2();
    FcfsServeFrom(P3, [P2, P4], 5, Report(SjfGantt[2..], [6, 6], [9, 10]));
  }

  lemma SjfServesFromP2()
    ensures Fcfs.Serve([P2, P4], 7) == Report(SjfGantt[2..], [6, 6], [9, 10])
  {
    Fcfs.ServeFirst(P4, [], 10);
    FcfsServeFrom(P2, [P4], 7, Report(SjfGantt[3..], [6], [10]));
  }

  /**
    SJF runs P1 0-5, then P3 5-7 ahead of P2, which arrived earlier but is
    longer, then P2 7-10 and P4 10-14: waiting times 0, 3, 6, 6 and
    turnaround times 5, 5, 9, 10, listed in run order.
   */
  lemma SjfOnSample()
    ensures Sjf.Schedule(Sample) == Success(Report(SjfGantt, [0, 3, 6, 6], [5, 5, 9, 10]))
  {
    SampleRows();
    assert multiset([P1, P3, P2, P4]) == multiset(Sample);
    SjfDecidesP1();
    SjfDecidesP3();
    SjfDecidesP2();
    SjfDecidesP4();
    SjfRunsBackToBack(Sample, P1, P3, P2, P4);
    SjfServesSample();
  }

  /**
    The figures SJF reports for the sample: 15 time units of waiting and 29
    of turnaround, so mean waiting time 3.75 and mean turnaround time 7.25.
   */
  lemma SjfSampleMeans()
    ensures var r := Sjf.Schedule(Sample);
      && r.Success?
      && Sum(r.value.waits) == 15 && Sum(r.value.turnarounds) == 29
      && Mean(r.value.waits) == 3.75 && Mean(r.value.turnarounds) == 7.25
  {
    SjfOnSample();
    FigureSums([0, 3, 6, 6], [5, 5, 9, 10], 15, 29);
  }
}
