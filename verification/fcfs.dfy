/**
  First-Come-First-Served: sort the table by arrival (stably) and run the
  rows back to back, each starting at max(clock, arrival).
 */
module Fcfs {
  import opened Wrappers
  import opened Workload
  import opened StableSort

  /**
    The loop body of FCFS: run `js` one after another in the given order,
    starting with the clock at `clock`.  Each row gets one Gantt entry, its
    waiting time and its turnaround time, in that order.
   */
  function Serve(js: seq<Job>, clock: int): (r: Report)
    ensures |r.gantt| == |js| && |r.waits| == |js| && |r.turnarounds| == |js|
  {
    if js == [] then Report([], [], [])
    else
      var j := js[0];
      var start := Max(clock, j.arrival);
      var finish := start + j.service;
      var rest := Serve(js[1..], finish);
      Report([Entry(j.pid, start, finish)] + rest.gantt,
             [start - j.arrival] + rest.waits,
             [finish - j.arrival] + rest.turnarounds)
  }

  /** Serving a row and then the rest: the first step of the loop. */
  lemma ServeFirst(j: Job, js: seq<Job>, clock: int)
    ensures var start := Max(clock, j.arrival);
      var finish := start + j.service;
      var rest := Serve(js, finish);
      Serve([j] + js, clock)
        == Report([Entry(j.pid, start, finish)] + rest.gantt,
                  [start - j.arrival] + rest.waits,
                  [finish - j.arrival] + rest.turnarounds)
  {
    assert ([j] + js)[1..] == js;
  }

  /**
    What serving back to back guarantees for each row: entry i belongs to
    row i, starts no earlier than the row's arrival nor the initial clock,
    and lasts the row's service time; waiting = start - arrival >= 0 and
    turnaround = waiting + service.
   */
  lemma {:induction false} ServeEntries(js: seq<Job>, clock: int)
    ensures var r := Serve(js, clock);
      forall i :: 0 <= i < |js| ==>
        && r.gantt[i].pid == js[i].pid
        && clock <= r.gantt[i].start
        && js[i].arrival <= r.gantt[i].start
        && r.gantt[i].finish == r.gantt[i].start + js[i].service
        && r.waits[i] == r.gantt[i].start - js[i].arrival >= 0
        && r.turnarounds[i] == r.waits[i] + js[i].service
  {
    if js != [] {
      var start := Max(clock, js[0].arrival);
      var finish := start + js[0].service;
      ServeEntries(js[1..], finish);
      var r, rest := Serve(js, clock), Serve(js[1..], finish);
      forall i | 0 < i < |js|
        ensures r.gantt[i] == rest.gantt[i - 1] && js[i] == js[1..][i - 1]
        ensures r.waits[i] == rest.waits[i - 1] && r.turnarounds[i] == rest.turnarounds[i - 1]
      {
      }
    }
  }

  /**
    Serving is work-conserving: the first row starts at max(clock, arrival),
    every later one at max(previous finish, arrival), so the CPU idles only
    while the next row has not arrived, and consecutive entries never overlap.
   */
  lemma {:induction false} ServeIsWorkConserving(js: seq<Job>, clock: int)
    ensures var g := Serve(js, clock).gantt;
      && (|js| > 0 ==> g[0].start == Max(clock, js[0].arrival))
      && (forall i :: 0 < i < |js| ==> g[i].start == Max(g[i - 1].finish, js[i].arrival))
      && (forall i :: 0 < i < |js| ==> g[i - 1].finish <= g[i].start)
  {
    if js != [] {
      var start := Max(clock, js[0].arrival);
      var finish := start + js[0].service;
      ServeIsWorkConserving(js[1..], finish);
      var g, rest := Serve(js, clock).gantt, Serve(js[1..], finish).gantt;
      forall i | 0 < i < |js|
        ensures g[i] == rest[i - 1] && js[i] == js[1..][i - 1]
      {
      }
    }
  }

  /** Total turnaround = total waiting + total service, exactly. */
  lemma {:induction false} ServeTotals(js: seq<Job>, clock: int)
    ensures Sum(Serve(js, clock).turnarounds) == Sum(Serve(js, clock).waits) + TotalService(js)
  {
    if js != [] {
      var start := Max(clock, js[0].arrival);
      ServeTotals(js[1..], start + js[0].service);
    }
  }

  /** The Gantt list names exactly the pids of the rows served, in order. */
  lemma ServePids(js: seq<Job>, clock: int)
    ensures EntryPids(Serve(js, clock).gantt) == PidsOf(js)
  {
    ServeEntries(js, clock);
  }

  /**
    FCFS serves the rows in stable arrival order: the Gantt list follows an
    ordering that is sorted by arrival and keeps rows of equal arrival in
    input order; every row appears exactly once; and the metrics add up.
   */
  lemma FcfsServesInStableArrivalOrder(w: seq<Job>)
    ensures var order := SortBy(w, ByArrival);
      && SortedBy(order, ByArrival)
      && (forall v :: WithKey(order, ByArrival, v) == WithKey(w, ByArrival, v))
      && EntryPids(Serve(order, 0).gantt) == PidsOf(order)
      && multiset(PidsOf(order)) == multiset(PidsOf(w))
  {
    var order := SortBy(w, ByArrival);
    forall v ensures WithKey(order, ByArrival, v) == WithKey(w, ByArrival, v) {
      SortByIsStable(w, ByArrival, v);
    }
    SortByIsOrdered(w, ByArrival);
    PermutationKeepsPids(order, w);
    ServePids(order, 0);
  }

  /**
    FCFS over the whole table.  An empty table is refused (the source would
    divide by zero when averaging).  Otherwise every row gets exactly one
    entry and total turnaround = total waiting + total service.
   */
  function Schedule(w: seq<Job>): (r: Result<Report, SchedError>)
    ensures w == [] <==> r == Failure(EmptyWorkload)
    ensures r.Success? ==> |r.value.gantt| == |w| && |r.value.waits| == |w| && |r.value.turnarounds| == |w|
    ensures r.Success? ==> multiset(EntryPids(r.value.gantt)) == multiset(PidsOf(w))
    ensures r.Success? ==> Sum(r.value.turnarounds) == Sum(r.value.waits) + TotalService(w)
    ensures r.Success? ==> forall i :: 0 <= i < |r.value.waits| ==> r.value.waits[i] >= 0
  {
    if w == [] then Failure(EmptyWorkload)
    else
      var order := SortBy(w, ByArrival);
      FcfsServesInStableArrivalOrder(w);
      PermutationKeepsService(order, w);
      ServeTotals(order, 0);
      ServeEntries(order, 0);
      Success(Serve(order, 0))
  }
}
