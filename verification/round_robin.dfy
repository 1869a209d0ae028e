/**
  Round-Robin with a time slice of 2.  Each pass of the loop first admits,
  in table order, every row that has arrived and is neither queued nor
  completed; then it idles one tick if the ready queue is empty, or runs the
  head of the queue for min(2, remaining) ticks, charges that time as waiting
  to every row still queued, and either completes the row or puts it back at
  the tail of the queue.
 */
module RoundRobin {
  import opened Wrappers
  import opened Workload
  import opened Progress

  /** The time slice (line 924). */
  const Quantum: nat := 2

  /** A ready-queue tuple: the row and its remaining service time. */
  datatype Slot = Slot(job: Job, rem: nat)

  /** A completed row and its turnaround time, in completion order. */
  datatype Done = Done(job: Job, turnaround: int)

  /**
    The loop state: the clock, the ready queue, the waiting time of each row
    of the table (by position), the completions so far and the Gantt list.
   */
  datatype State = State(clock: int, queue: seq<Slot>, waits: seq<int>, done: seq<Done>, gantt: seq<Entry>)

  function Jobs(q: seq<Slot>): (r: seq<Job>)
    ensures |r| == |q| && forall i :: 0 <= i < |q| ==> r[i] == q[i].job
  {
    seq(|q|, i requires 0 <= i < |q| => q[i].job)
  }

  function QueuePids(q: seq<Slot>): (r: seq<string>)
    ensures |r| == |q| && forall i :: 0 <= i < |q| ==> r[i] == q[i].job.pid
  {
    seq(|q|, i requires 0 <= i < |q| => q[i].job.pid)
  }

  /** The `completed` list of the source: the pids of the completions, in order. */
  function DonePids(d: seq<Done>): (r: seq<string>)
    ensures |r| == |d| && forall i :: 0 <= i < |d| ==> r[i] == d[i].job.pid
  {
    seq(|d|, i requires 0 <= i < |d| => d[i].job.pid)
  }

  /** Queue tuples for newly admitted rows, with their whole service time remaining. */
  function Fresh(js: seq<Job>): (r: seq<Slot>)
    ensures |r| == |js| && forall i :: 0 <= i < |js| ==> r[i] == Slot(js[i], js[i].service)
  {
    seq(|js|, i requires 0 <= i < |js| => Slot(js[i], js[i].service))
  }

  /**
    The admission pass (lines 936-939): walk the table in order and append a
    row when it has arrived, its pid is not in the queue as it stands at
    that moment, and its pid is not completed.
   */
  function Admit(rows: seq<Job>, clock: int, queue: seq<Slot>, completed: seq<string>): seq<Slot>
    decreases |rows|
  {
    if rows == [] then queue
    else
      var p := rows[0];
      var q := if p.arrival <= clock && p.pid !in QueuePids(queue) && p.pid !in completed
               then queue + [Slot(p, p.service)] else queue;
      Admit(rows[1..], clock, q, completed)
  }

  /**
    Admission leaves the queue as it was and appends, at its tail and in
    table order, exactly the rows that have arrived and are neither queued
    nor completed.
   */
  lemma {:induction false} AdmitAppendsArrivals(rows: seq<Job>, clock: int, queue: seq<Slot>, completed: seq<string>)
    requires DistinctPids(rows)
    ensures Admit(rows, clock, queue, completed)
         == queue + Fresh(Available(rows, clock, QueuePids(queue) + completed))
  {
    if rows != [] {
      var p := rows[0];
      if p.arrival <= clock && p.pid !in QueuePids(queue) && p.pid !in completed {
        var q := queue + [Slot(p, p.service)];
        AdmitAppendsArrivals(rows[1..], clock, q, completed);
        AdmittingHead(rows, clock, queue, completed);
      } else {
        AdmitAppendsArrivals(rows[1..], clock, queue, completed);
      }
    }
  }

  /** The step of `AdmitAppendsArrivals` where the first row is admitted. */
  lemma AdmittingHead(rows: seq<Job>, clock: int, queue: seq<Slot>, completed: seq<string>)
    requires rows != [] && DistinctPids(rows)
    requires rows[0].arrival <= clock && rows[0].pid !in QueuePids(queue) && rows[0].pid !in completed
    requires var q := queue + [Slot(rows[0], rows[0].service)];
      Admit(rows[1..], clock, q, completed)
        == q + Fresh(Available(rows[1..], clock, QueuePids(q) + completed))
    ensures Admit(rows, clock, queue, completed)
         == queue + Fresh(Available(rows, clock, QueuePids(queue) + completed))
  {
    var p, tail := rows[0], rows[1..];
    var s := QueuePids(queue) + completed;
    var x := Slot(p, p.service);
    var q := queue + [x];
    var a := Available(tail, clock, s);
    assert Admit(rows, clock, queue, completed) == Admit(tail, clock, q, completed);
    AdmittedHeadExcluded(rows, clock, queue, completed);
    AvailableHead(rows, clock, s);
    FreshCons(p, a);
    AppendAssociates(queue, [x], Fresh(a));
  }

  /** Once the first row is queued, the rest of the table sees the same rows as available. */
  lemma AdmittedHeadExcluded(rows: seq<Job>, clock: int, queue: seq<Slot>, completed: seq<string>)
    requires rows != [] && DistinctPids(rows)
    ensures var q := queue + [Slot(rows[0], rows[0].service)];
      Available(rows[1..], clock, QueuePids(q) + completed)
        == Available(rows[1..], clock, QueuePids(queue) + completed)
  {
    var q := queue + [Slot(rows[0], rows[0].service)];
    assert QueuePids(q) == QueuePids(queue) + [rows[0].pid];
    DistinctTail(rows);
    AvailableSameExcluded(rows[1..], clock, QueuePids(q) + completed, QueuePids(queue) + completed);
  }

  lemma AvailableHead(rows: seq<Job>, clock: int, s: seq<string>)
    requires rows != [] && rows[0].arrival <= clock && rows[0].pid !in s
    ensures Available(rows, clock, s) == [rows[0]] + Available(rows[1..], clock, s)
  {
  }

  lemma FreshCons(p: Job, a: seq<Job>)
    ensures Fresh([p] + a) == [Slot(p, p.service)] + Fresh(a)
  {
    assert Fresh([p] + a)[1..] == Fresh(a);
  }

  lemma AppendAssociates<T>(a: seq<T>, b: seq<T>, c: seq<T>)
    ensures (a + b) + c == a + (b + c)
  {
  }

  /**
    The accrual loop (lines 958-960): every tuple left in the queue adds the
    slice length to the waiting time of its pid.
   */
  function Accrue(w: seq<Job>, waits: seq<int>, queue: seq<Slot>, run: int): (r: seq<int>)
    requires |waits| == |w|
    ensures |r| == |w|
  {
    seq(|w|, i requires 0 <= i < |w| => waits[i] + run * multiset(QueuePids(queue))[w[i].pid])
  }

  /**
    One slice (lines 946-967): run the head of the queue for min(2, remaining)
    ticks from the current clock, charge the slice to the rows still
    queued, then complete the row or requeue it at the tail.
   */
  function Step(w: seq<Job>, st: State): State
    requires st.queue != [] && |st.waits| == |w|
  {
    var h, rest := st.queue[0], st.queue[1..];
    var run := Min(Quantum, h.rem);
    var finish := st.clock + run;
    var waits := Accrue(w, st.waits, rest, run);
    var gantt := st.gantt + [Entry(h.job.pid, st.clock, finish)];
    if h.rem - run == 0 then
      State(finish, rest, waits, st.done + [Done(h.job, finish - h.job.arrival)], gantt)
    else
      State(finish, rest + [Slot(h.job, h.rem - run)], waits, st.done, gantt)
  }

  /** One pass of the loop body (lines 934-967). */
  function Iterate(w: seq<Job>, st: State): State
    requires |st.waits| == |w|
  {
    var q := Admit(w, st.clock, st.queue, DonePids(st.done));
    if q == [] then st.(clock := st.clock + 1, queue := q)
    else Step(w, st.(queue := q))
  }

  /** Remaining service of the queued tuples, plus one per tuple. */
  function QWork(q: seq<Slot>): nat {
    if q == [] then 0 else q[0].rem + 1 + QWork(q[1..])
  }

  lemma {:induction false} QWorkAppend(a: seq<Slot>, b: seq<Slot>)
    ensures QWork(a + b) == QWork(a) + QWork(b)
  {
    if a == [] {
      assert a + b == b;
    } else {
      QWorkAppend(a[1..], b);
      assert (a + b)[0] == a[0] && (a + b)[1..] == a[1..] + b;
    }
  }

  /** Service of the rows whose pid is not settled (queued or completed), plus one per row. */
  function FWork(w: seq<Job>, settled: seq<string>): nat {
    if w == [] then 0
    else (if w[0].pid in settled then 0 else w[0].service + 1) + FWork(w[1..], settled)
  }

  lemma {:induction false} FWorkSameSettled(w: seq<Job>, s1: seq<string>, s2: seq<string>)
    requires forall x :: x in w ==> (x.pid in s1 <==> x.pid in s2)
    ensures FWork(w, s1) == FWork(w, s2)
  {
    if w != [] {
      assert w[0] in w;
      assert forall x :: x in w[1..] ==> x in w;
      FWorkSameSettled(w[1..], s1, s2);
    }
  }

  /** Admitting the available rows moves exactly their work from the table to the queue. */
  lemma {:induction false} FWorkAdmit(w: seq<Job>, clock: int, s: seq<string>)
    requires DistinctPids(w)
    ensures FWork(w, s)
         == FWork(w, s + PidsOf(Available(w, clock, s))) + QWork(Fresh(Available(w, clock, s)))
  {
    if w != [] {
      DistinctTail(w);
      FWorkAdmit(w[1..], clock, s);
      if w[0].arrival <= clock && w[0].pid !in s {
        FWorkAdmitHead(w, clock, s);
      } else {
        FWorkSkipHead(w, clock, s);
      }
    }
  }

  lemma FWorkAdmitHead(w: seq<Job>, clock: int, s: seq<string>)
    requires w != [] && DistinctPids(w)
    requires w[0].arrival <= clock && w[0].pid !in s
    requires FWork(w[1..], s)
          == FWork(w[1..], s + PidsOf(Available(w[1..], clock, s))) + QWork(Fresh(Available(w[1..], clock, s)))
    ensures FWork(w, s)
         == FWork(w, s + PidsOf(Available(w, clock, s))) + QWork(Fresh(Available(w, clock, s)))
  {
    var p, t := w[0], w[1..];
    var at := Available(t, clock, s);
    var a := Available(w, clock, s);
    assert a == [p] + at;
    assert FWork(t, s + PidsOf(a)) == FWork(t, s + PidsOf(at)) by {
      assert PidsOf(a) == [p.pid] + PidsOf(at);
      DistinctTail(w);
      FWorkSameSettled(t, s + PidsOf(a), s + PidsOf(at));
    }
    assert p.pid in s + PidsOf(a) by {
      assert PidsOf(a)[0] == p.pid;
    }
    assert QWork(Fresh(a)) == p.service + 1 + QWork(Fresh(at)) by {
      assert Fresh(a)[1..] == Fresh(at);
    }
  }

  lemma FWorkSkipHead(w: seq<Job>, clock: int, s: seq<string>)
    requires w != [] && DistinctPids(w)
    requires !(w[0].arrival <= clock && w[0].pid !in s)
    requires FWork(w[1..], s)
          == FWork(w[1..], s + PidsOf(Available(w[1..], clock, s))) + QWork(Fresh(Available(w[1..], clock, s)))
    ensures FWork(w, s)
         == FWork(w, s + PidsOf(Available(w, clock, s))) + QWork(Fresh(Available(w, clock, s)))
  {
    var p, t := w[0], w[1..];
    var at := Available(t, clock, s);
    assert Available(w, clock, s) == at;
    assert (p.pid in s + PidsOf(at)) == (p.pid in s) by {
      DistinctTail(w);
      if p.pid in PidsOf(at) {
        var i :| 0 <= i < |at| && PidsOf(at)[i] == p.pid;
        AvailableMembers(t, clock, s, at[i]);
        assert false;
      }
    }
  }

  /**
    The termination measure of the loop: the work left in the queue plus the
    work of the rows not yet admitted.  Admission keeps it, a slice lowers it.
   */
  function Work(w: seq<Job>, st: State): nat {
    QWork(st.queue) + FWork(w, QueuePids(st.queue) + DonePids(st.done))
  }

  /** What every pass of the loop keeps. */
  predicate Inv(w: seq<Job>, st: State) {
    && DistinctPids(w)
    && |st.waits| == |w|
    && (forall i :: 0 <= i < |st.waits| ==> st.waits[i] >= 0)
    && (forall s :: s in st.queue ==> s.job in w && s.job.pid !in DonePids(st.done))
    && DistinctPids(Jobs(st.queue))
    && (forall d :: d in st.done ==> d.job in w)
    && |DonePids(st.done)| + |Unfinished(w, DonePids(st.done))| == |w|
  }

  /** The queue after the admission pass of `st`. */
  function Admitted(w: seq<Job>, st: State): State {
    st.(queue := Admit(w, st.clock, st.queue, DonePids(st.done)))
  }

  lemma AdmitKeepsWork(w: seq<Job>, st: State)
    requires DistinctPids(w)
    ensures Work(w, Admitted(w, st)) == Work(w, st)
  {
    var d := DonePids(st.done);
    var a := Available(w, st.clock, QueuePids(st.queue) + d);
    AdmitAppendsArrivals(w, st.clock, st.queue, d);
    AdmissionMovesWork(w, st, a);
  }

  lemma AdmissionMovesWork(w: seq<Job>, st: State, a: seq<Job>)
    requires DistinctPids(w)
    requires a == Available(w, st.clock, QueuePids(st.queue) + DonePids(st.done))
    ensures Work(w, st.(queue := st.queue + Fresh(a))) == Work(w, st)
  {
    var d := DonePids(st.done);
    var s := QueuePids(st.queue) + d;
    QWorkAppend(st.queue, Fresh(a));
    AdmittedSettled(w, st.queue, a, d);
    FWorkAdmit(w, st.clock, s);
  }

  /** After admitting `a`, the settled pids are those settled before plus the pids of `a`. */
  lemma AdmittedSettled(w: seq<Job>, queue: seq<Slot>, a: seq<Job>, d: seq<string>)
    ensures FWork(w, QueuePids(queue + Fresh(a)) + d) == FWork(w, QueuePids(queue) + d + PidsOf(a))
  {
    QueuePidsFresh(queue, a);
    SameMembers(QueuePids(queue), PidsOf(a), d);
    FWorkSameSettled(w, QueuePids(queue + Fresh(a)) + d, QueuePids(queue) + d + PidsOf(a));
  }

  lemma QueuePidsFresh(queue: seq<Slot>, a: seq<Job>)
    ensures QueuePids(queue + Fresh(a)) == QueuePids(queue) + PidsOf(a)
  {
    var l, r := QueuePids(queue + Fresh(a)), QueuePids(queue) + PidsOf(a);
    forall i | 0 <= i < |l|
      ensures l[i] == r[i]
    {
      if i >= |queue| {
        assert (queue + Fresh(a))[i] == Fresh(a)[i - |queue|];
      }
    }
  }

  lemma SameMembers<T>(x: seq<T>, p: seq<T>, d: seq<T>)
    ensures forall e :: e in x + p + d <==> e in x + d + p
  {
  }

  lemma AdmitKeepsInv(w: seq<Job>, st: State)
    requires Inv(w, st)
    ensures Inv(w, Admitted(w, st))
  {
    var d := DonePids(st.done);
    var s := QueuePids(st.queue) + d;
    var a := Available(w, st.clock, s);
    AdmitAppendsArrivals(w, st.clock, st.queue, d);
    forall x | x in a
      ensures x in w && x.pid !in s
    {
      AvailableMembers(w, st.clock, s, x);
    }
    AdmittedRowsOk(w, st.queue, a, d);
    AvailableDistinct(w, st.clock, s);
    AdmittedDistinct(st.queue, a);
  }

  lemma AdmittedRowsOk(w: seq<Job>, queue: seq<Slot>, a: seq<Job>, d: seq<string>)
    requires forall s :: s in queue ==> s.job in w && s.job.pid !in d
    requires forall x :: x in a ==> x in w && x.pid !in QueuePids(queue) + d
    ensures forall s :: s in queue + Fresh(a) ==> s.job in w && s.job.pid !in d
  {
    forall slot | slot in queue + Fresh(a)
      ensures slot.job in w && slot.job.pid !in d
    {
      if slot !in queue {
        var i :| 0 <= i < |Fresh(a)| && Fresh(a)[i] == slot;
        assert a[i] in a;
      }
    }
  }

  lemma AdmittedDistinct(queue: seq<Slot>, a: seq<Job>)
    requires DistinctPids(Jobs(queue)) && DistinctPids(a)
    requires forall x :: x in a ==> x.pid !in QueuePids(queue)
    ensures DistinctPids(Jobs(queue + Fresh(a)))
  {
    assert Jobs(queue + Fresh(a)) == Jobs(queue) + a;
    forall x, y | x in Jobs(queue) && y in a
      ensures x.pid != y.pid
    {
      var i :| 0 <= i < |queue| && Jobs(queue)[i] == x;
      assert QueuePids(queue)[i] == x.pid;
    }
    AppendDistinct(Jobs(queue), a);
  }

  /** One slice lowers the measure: it completes a tuple or runs a whole time slice of it. */
  lemma StepShrinksWork(w: seq<Job>, st: State)
    requires st.queue != [] && |st.waits| == |w|
    ensures Work(w, Step(w, st)) < Work(w, st)
  {
    var h, rest := st.queue[0], st.queue[1..];
    var d := DonePids(st.done);
    var run := Min(Quantum, h.rem);
    var next := Step(w, st);
    assert st.queue == [h] + rest;
    assert QueuePids(st.queue) == [h.job.pid] + QueuePids(rest);
    if h.rem - run == 0 {
      assert DonePids(next.done) == d + [h.job.pid];
      FWorkSameSettled(w, QueuePids(rest) + (d + [h.job.pid]), QueuePids(st.queue) + d);
    } else {
      var x := Slot(h.job, h.rem - run);
      QWorkAppend(rest, [x]);
      assert QueuePids(rest + [x]) == QueuePids(rest) + [h.job.pid];
      FWorkSameSettled(w, QueuePids(rest + [x]) + d, QueuePids(st.queue) + d);
    }
  }

  lemma StepKeepsInv(w: seq<Job>, st: State)
    requires Inv(w, st) && st.queue != []
    ensures Inv(w, Step(w, st))
  {
    StepKeepsWaits(w, st);
    StepKeepsQueue(w, st);
    StepKeepsCount(w, st);
  }

  lemma StepKeepsWaits(w: seq<Job>, st: State)
    requires st.queue != [] && |st.waits| == |w|
    requires forall i :: 0 <= i < |st.waits| ==> st.waits[i] >= 0
    ensures forall i :: 0 <= i < |Step(w, st).waits| ==> Step(w, st).waits[i] >= 0
  {
    var run := Min(Quantum, st.queue[0].rem);
    var rest := st.queue[1..];
    forall i | 0 <= i < |w|
      ensures Step(w, st).waits[i] >= 0
    {
      NonNegativeProduct(run, multiset(QueuePids(rest))[w[i].pid]);
    }
  }

  /** The tuples after the head of a queue with distinct pids carry other pids. */
  lemma QueueTail(q: seq<Slot>)
    requires q != [] && DistinctPids(Jobs(q))
    ensures DistinctPids(Jobs(q[1..]))
    ensures forall slot :: slot in q[1..] ==> slot.job.pid != q[0].job.pid
  {
    assert Jobs(q[1..]) == Jobs(q)[1..];
    DistinctTail(Jobs(q));
    forall slot | slot in q[1..]
      ensures slot.job.pid != q[0].job.pid
    {
      var i :| 0 <= i < |q[1..]| && q[1..][i] == slot;
      assert Jobs(q[1..])[i] == slot.job;
    }
  }

  lemma StepKeepsQueue(w: seq<Job>, st: State)
    requires Inv(w, st) && st.queue != []
    ensures forall s :: s in Step(w, st).queue ==> s.job in w && s.job.pid !in DonePids(Step(w, st).done)
    ensures DistinctPids(Jobs(Step(w, st).queue))
    ensures forall d :: d in Step(w, st).done ==> d.job in w
  {
    var h := st.queue[0];
    assert h in st.queue;
    QueueTail(st.queue);
    if h.rem - Min(Quantum, h.rem) == 0 {
      CompletingKeepsQueue(w, st);
    } else {
      RequeueKeepsQueue(w, st);
    }
  }

  lemma CompletingKeepsQueue(w: seq<Job>, st: State)
    requires st.queue != [] && |st.waits| == |w|
    requires st.queue[0].rem <= Quantum
    requires forall s :: s in st.queue ==> s.job in w && s.job.pid !in DonePids(st.done)
    requires DistinctPids(Jobs(st.queue[1..]))
    requires forall slot :: slot in st.queue[1..] ==> slot.job.pid != st.queue[0].job.pid
    requires forall d :: d in st.done ==> d.job in w
    ensures forall s :: s in Step(w, st).queue ==> s.job in w && s.job.pid !in DonePids(Step(w, st).done)
    ensures DistinctPids(Jobs(Step(w, st).queue))
    ensures forall d :: d in Step(w, st).done ==> d.job in w
  {
    var h, rest := st.queue[0], st.queue[1..];
    var next := Step(w, st);
    assert next.queue == rest;
    assert DonePids(next.done) == DonePids(st.done) + [h.job.pid];
    assert h in st.queue;
    assert forall slot :: slot in rest ==> slot in st.queue;
  }

  lemma RequeueKeepsQueue(w: seq<Job>, st: State)
    requires st.queue != [] && |st.waits| == |w|
    requires st.queue[0].rem > Quantum
    requires forall s :: s in st.queue ==> s.job in w && s.job.pid !in DonePids(st.done)
    requires DistinctPids(Jobs(st.queue[1..]))
    requires forall slot :: slot in st.queue[1..] ==> slot.job.pid != st.queue[0].job.pid
    requires forall d :: d in st.done ==> d.job in w
    ensures forall s :: s in Step(w, st).queue ==> s.job in w && s.job.pid !in DonePids(Step(w, st).done)
    ensures DistinctPids(Jobs(Step(w, st).queue))
    ensures forall d :: d in Step(w, st).done ==> d.job in w
  {
    var h, rest := st.queue[0], st.queue[1..];
    var x := Slot(h.job, h.rem - Quantum);
    var next := Step(w, st);
    assert next.queue == rest + [x] && next.done == st.done;
    assert h in st.queue;
    assert forall slot :: slot in rest ==> slot in st.queue;
    AppendSlotDistinct(rest, x);
  }

  /** A tuple whose pid the queue does not hold can go to its tail. */
  lemma AppendSlotDistinct(rest: seq<Slot>, x: Slot)
    requires DistinctPids(Jobs(rest))
    requires forall slot :: slot in rest ==> slot.job.pid != x.job.pid
    ensures DistinctPids(Jobs(rest + [x]))
  {
    assert Jobs(rest + [x]) == Jobs(rest) + [x.job];
    forall y, z | y in Jobs(rest) && z in [x.job]
      ensures y.pid != z.pid
    {
      var i :| 0 <= i < |rest| && Jobs(rest)[i] == y;
      assert rest[i] in rest;
    }
    AppendDistinct(Jobs(rest), [x.job]);
  }

  lemma StepKeepsCount(w: seq<Job>, st: State)
    requires Inv(w, st) && st.queue != []
    ensures |DonePids(Step(w, st).done)| + |Unfinished(w, DonePids(Step(w, st).done))| == |w|
  {
    var h := st.queue[0];
    var d := DonePids(st.done);
    if h.rem - Min(Quantum, h.rem) == 0 {
      assert h in st.queue;
      assert DonePids(Step(w, st).done) == d + [h.job.pid];
      CompletingShrinks(w, d, h.job);
    }
  }

  lemma NonNegativeProduct(a: nat, b: nat)
    ensures a * b >= 0
  {
  }

  /** A pass that finds nothing to run happens only while some row has yet to arrive. */
  lemma IdleIsBounded(w: seq<Job>, st: State)
    requires Inv(w, st) && |st.done| < |w|
    requires Admitted(w, st).queue == []
    ensures st.clock < MaxArrival(w)
  {
    var d := DonePids(st.done);
    var a := Available(w, st.clock, QueuePids(st.queue) + d);
    AdmitAppendsArrivals(w, st.clock, st.queue, d);
    assert |st.queue + Fresh(a)| == 0;
    assert st.queue == [] && a == [];
    assert QueuePids(st.queue) + d == d;
    NothingAvailableIsBounded(w, st.clock, d);
  }

  /**
    One pass keeps the invariant and either lowers the measure, or idles one
    tick while the clock is below the last arrival.
   */
  lemma IterateProgress(w: seq<Job>, st: State)
    requires Inv(w, st) && |st.done| < |w|
    ensures Inv(w, Iterate(w, st))
    ensures || Work(w, Iterate(w, st)) < Work(w, st)
            || (&& Work(w, Iterate(w, st)) == Work(w, st)
                && Iterate(w, st).clock == st.clock + 1
                && st.clock < MaxArrival(w))
  {
    var adm := Admitted(w, st);
    AdmitKeepsInv(w, st);
    AdmitKeepsWork(w, st);
    if adm.queue == [] {
      IdleIsBounded(w, st);
    } else {
      StepKeepsInv(w, adm);
      StepShrinksWork(w, adm);
    }
  }

  /** Total length of the slices of `pid` in the Gantt list. */
  function SliceSum(g: seq<Entry>, pid: string): int {
    if g == [] then 0
    else
      var e := g[|g| - 1];
      SliceSum(g[..|g| - 1], pid) + (if e.pid == pid then e.finish - e.start else 0)
  }

  /** Finish of the last slice of `pid` in the Gantt list (0 when there is none). */
  function LastFinish(g: seq<Entry>, pid: string): int {
    if g == [] then 0
    else if g[|g| - 1].pid == pid then g[|g| - 1].finish
    else LastFinish(g[..|g| - 1], pid)
  }

  lemma SliceSumAppend(g: seq<Entry>, e: Entry, pid: string)
    ensures SliceSum(g + [e], pid) == SliceSum(g, pid) + (if e.pid == pid then e.finish - e.start else 0)
    ensures LastFinish(g + [e], pid) == if e.pid == pid then e.finish else LastFinish(g, pid)
  {
    assert (g + [e])[..|g|] == g;
  }

  /** Every queued tuple's slices so far plus its remaining time make up its service. */
  predicate QueueLedger(st: State) {
    forall s :: s in st.queue ==> SliceSum(st.gantt, s.job.pid) + s.rem == s.job.service
  }

  /**
    A completed row has had slices summing to its service, and its
    turnaround is the finish of its last slice minus its arrival.
   */
  predicate DoneLedger(st: State) {
    forall d :: d in st.done ==>
      && SliceSum(st.gantt, d.job.pid) == d.job.service
      && d.turnaround == LastFinish(st.gantt, d.job.pid) - d.job.arrival
  }

  /** A row neither queued nor completed has not run yet. */
  predicate WaitingLedger(w: seq<Job>, st: State) {
    forall x :: x in w && x.pid !in QueuePids(st.queue) && x.pid !in DonePids(st.done) ==>
      SliceSum(st.gantt, x.pid) == 0
  }

  /** The Gantt list runs forward in time up to the clock and no slice is longer than the quantum. */
  predicate Timeline(g: seq<Entry>, clock: int) {
    && (forall i :: 0 <= i < |g| ==> g[i].start <= g[i].finish <= clock)
    && (forall i :: 0 < i < |g| ==> g[i - 1].finish <= g[i].start)
    && (forall i :: 0 <= i < |g| ==> g[i].finish - g[i].start <= Quantum)
  }

  /** A slice shorter than the quantum belongs to a completed row and is the last slice of that row. */
  predicate ShortIsLast(g: seq<Entry>, completed: seq<string>) {
    && (forall i :: 0 <= i < |g| && g[i].finish - g[i].start < Quantum ==> g[i].pid in completed)
    && (forall i, j :: 0 <= i < j < |g| && g[i].finish - g[i].start < Quantum ==> g[j].pid != g[i].pid)
  }

  predicate GanttShape(st: State) {
    Timeline(st.gantt, st.clock) && ShortIsLast(st.gantt, DonePids(st.done))
  }

  predicate Ledger(w: seq<Job>, st: State) {
    QueueLedger(st) && DoneLedger(st) && WaitingLedger(w, st) && GanttShape(st)
  }

  lemma AdmitKeepsLedger(w: seq<Job>, st: State)
    requires Inv(w, st) && Ledger(w, st)
    ensures Ledger(w, Admitted(w, st))
  {
    var d := DonePids(st.done);
    var s := QueuePids(st.queue) + d;
    var a := Available(w, st.clock, s);
    AdmitAppendsArrivals(w, st.clock, st.queue, d);
    var adm := Admitted(w, st);
    assert adm.queue == st.queue + Fresh(a);
    QueuePidsFresh(st.queue, a);
    forall slot | slot in adm.queue
      ensures SliceSum(st.gantt, slot.job.pid) + slot.rem == slot.job.service
    {
      if slot !in st.queue {
        var i :| 0 <= i < |Fresh(a)| && Fresh(a)[i] == slot;
        assert a[i] in a;
        AvailableMembers(w, st.clock, s, a[i]);
      }
    }
  }

  lemma IdleKeepsLedger(w: seq<Job>, st: State)
    requires Ledger(w, st)
    ensures Ledger(w, st.(clock := st.clock + 1))
  {
  }

  lemma StepKeepsLedger(w: seq<Job>, st: State)
    requires Inv(w, st) && Ledger(w, st) && st.queue != []
    ensures Ledger(w, Step(w, st))
  {
    var h := st.queue[0];
    var e := Entry(h.job.pid, st.clock, st.clock + Min(Quantum, h.rem));
    assert h in st.queue;
    QueueTail(st.queue);
    StepKeepsQueueLedger(w, st, e);
    StepKeepsDoneLedger(w, st, e);
    StepKeepsWaitingLedger(w, st, e);
    StepKeepsGanttShape(w, st, e);
  }

  lemma StepKeepsQueueLedger(w: seq<Job>, st: State, e: Entry)
    requires st.queue != [] && |st.waits| == |w|
    requires e == Entry(st.queue[0].job.pid, st.clock, st.clock + Min(Quantum, st.queue[0].rem))
    requires QueueLedger(st)
    requires forall slot :: slot in st.queue[1..] ==> slot.job.pid != st.queue[0].job.pid
    ensures QueueLedger(Step(w, st))
  {
    var h, rest := st.queue[0], st.queue[1..];
    var next := Step(w, st);
    assert next.gantt == st.gantt + [e];
    assert h in st.queue;
    forall slot | slot in next.queue
      ensures SliceSum(next.gantt, slot.job.pid) + slot.rem == slot.job.service
    {
      SliceSumAppend(st.gantt, e, slot.job.pid);
      if slot in rest {
        assert slot in st.queue;
      }
    }
  }

  lemma StepKeepsDoneLedger(w: seq<Job>, st: State, e: Entry)
    requires st.queue != [] && |st.waits| == |w|
    requires e == Entry(st.queue[0].job.pid, st.clock, st.clock + Min(Quantum, st.queue[0].rem))
    requires QueueLedger(st) && DoneLedger(st)
    requires st.queue[0].job.pid !in DonePids(st.done)
    ensures DoneLedger(Step(w, st))
  {
    var h := st.queue[0];
    var next := Step(w, st);
    assert next.gantt == st.gantt + [e];
    assert h in st.queue;
    forall dd | dd in next.done
      ensures SliceSum(next.gantt, dd.job.pid) == dd.job.service
      ensures dd.turnaround == LastFinish(next.gantt, dd.job.pid) - dd.job.arrival
    {
      SliceSumAppend(st.gantt, e, dd.job.pid);
      if dd in st.done {
        var i :| 0 <= i < |st.done| && st.done[i] == dd;
        assert DonePids(st.done)[i] == dd.job.pid;
      }
    }
  }

  lemma StepKeepsWaitingLedger(w: seq<Job>, st: State, e: Entry)
    requires st.queue != [] && |st.waits| == |w|
    requires e == Entry(st.queue[0].job.pid, st.clock, st.clock + Min(Quantum, st.queue[0].rem))
    requires WaitingLedger(w, st)
    ensures WaitingLedger(w, Step(w, st))
  {
    var next := Step(w, st);
    StepSettlesSame(w, st);
    forall x | x in w && x.pid !in QueuePids(next.queue) && x.pid !in DonePids(next.done)
      ensures SliceSum(next.gantt, x.pid) == 0
    {
      SliceSumAppend(st.gantt, e, x.pid);
    }
  }

  /**
    A slice moves the head's pid from the queue to the completions or back
    to the queue: the queued-or-completed pids stay the same.
   */
  lemma StepSettlesSame(w: seq<Job>, st: State)
    requires st.queue != [] && |st.waits| == |w|
    ensures forall p :: (p in QueuePids(Step(w, st).queue) || p in DonePids(Step(w, st).done))
                    <==> (p in QueuePids(st.queue) || p in DonePids(st.done))
    ensures forall p :: p in DonePids(st.done) ==> p in DonePids(Step(w, st).done)
    ensures Step(w, st).gantt == st.gantt + [Entry(st.queue[0].job.pid, st.clock, Step(w, st).clock)]
  {
    var h, rest := st.queue[0], st.queue[1..];
    var next := Step(w, st);
    assert st.queue == [h] + rest;
    assert QueuePids(st.queue) == [h.job.pid] + QueuePids(rest);
    if h.rem - Min(Quantum, h.rem) == 0 {
      assert next.queue == rest;
      assert DonePids(next.done) == DonePids(st.done) + [h.job.pid];
    } else {
      assert next.done == st.done;
      assert QueuePids(next.queue) == QueuePids(rest) + [h.job.pid];
    }
  }

  lemma StepKeepsGanttShape(w: seq<Job>, st: State, e: Entry)
    requires st.queue != [] && |st.waits| == |w|
    requires e == Entry(st.queue[0].job.pid, st.clock, st.clock + Min(Quantum, st.queue[0].rem))
    requires GanttShape(st)
    requires st.queue[0].job.pid !in DonePids(st.done)
    ensures GanttShape(Step(w, st))
  {
    var h := st.queue[0];
    var next := Step(w, st);
    StepSettlesSame(w, st);
    AppendTimeline(st.gantt, e, st.clock, next.clock);
    assert e.finish - e.start < Quantum ==> e.pid in DonePids(next.done) by {
      if e.finish - e.start < Quantum {
        assert DonePids(next.done) == DonePids(st.done) + [h.job.pid];
      }
    }
    AppendShortIsLast(st.gantt, e, DonePids(st.done), DonePids(next.done));
  }

  lemma AppendTimeline(g: seq<Entry>, e: Entry, clock: int, clock2: int)
    requires Timeline(g, clock)
    requires e.start == clock && e.start <= e.finish <= clock2 && e.finish - e.start <= Quantum
    ensures Timeline(g + [e], clock2)
  {
  }

  lemma AppendShortIsLast(g: seq<Entry>, e: Entry, d: seq<string>, d2: seq<string>)
    requires ShortIsLast(g, d)
    requires forall p :: p in d ==> p in d2
    requires e.pid !in d
    requires e.finish - e.start < Quantum ==> e.pid in d2
    ensures ShortIsLast(g + [e], d2)
  {
    var g2 := g + [e];
    forall i, j | 0 <= i < j < |g2| && g2[i].finish - g2[i].start < Quantum
      ensures g2[j].pid != g2[i].pid
    {
      if j == |g| {
        assert g2[i] == g[i];
      }
    }
  }

  /** One pass keeps the ledger. */
  lemma IterateKeepsLedger(w: seq<Job>, st: State)
    requires Inv(w, st) && Ledger(w, st)
    ensures Ledger(w, Iterate(w, st))
  {
    var adm := Admitted(w, st);
    AdmitKeepsInv(w, st);
    AdmitKeepsLedger(w, st);
    if adm.queue == [] {
      IdleKeepsLedger(w, adm);
    } else {
      StepKeepsLedger(w, adm);
    }
  }

  /**
    Each queued row has arrived by the clock, and its slices so far fit
    between its arrival and the clock.
   */
  predicate QueueArrived(st: State) {
    forall s :: s in st.queue ==>
      s.job.arrival <= st.clock && s.job.arrival + SliceSum(st.gantt, s.job.pid) <= st.clock
  }

  /** Every slice belongs to a row of the table and starts no earlier than that row's arrival. */
  predicate SlicesOfRows(w: seq<Job>, g: seq<Entry>) {
    forall i :: 0 <= i < |g| ==> exists x :: x in w && x.pid == g[i].pid && x.arrival <= g[i].start
  }

  /** A completed row spent at least its service time between arrival and completion. */
  predicate DoneInTime(st: State) {
    forall d :: d in st.done ==> d.turnaround >= d.job.service
  }

  /** No row runs before it arrives. */
  predicate Arrivals(w: seq<Job>, st: State) {
    QueueArrived(st) && SlicesOfRows(w, st.gantt) && DoneInTime(st)
  }

  lemma AdmitKeepsArrivals(w: seq<Job>, st: State)
    requires Inv(w, st) && Ledger(w, st) && Arrivals(w, st)
    ensures Arrivals(w, Admitted(w, st))
  {
    var d := DonePids(st.done);
    var s := QueuePids(st.queue) + d;
    var a := Available(w, st.clock, s);
    AdmitAppendsArrivals(w, st.clock, st.queue, d);
    var adm := Admitted(w, st);
    assert adm.queue == st.queue + Fresh(a);
    forall slot | slot in adm.queue
      ensures slot.job.arrival <= st.clock && slot.job.arrival + SliceSum(st.gantt, slot.job.pid) <= st.clock
    {
      if slot !in st.queue {
        var i :| 0 <= i < |Fresh(a)| && Fresh(a)[i] == slot;
        assert a[i] in a;
        AvailableMembers(w, st.clock, s, a[i]);
      }
    }
  }

  lemma IdleKeepsArrivals(w: seq<Job>, st: State)
    requires Arrivals(w, st)
    ensures Arrivals(w, st.(clock := st.clock + 1))
  {
  }

  lemma StepKeepsArrivals(w: seq<Job>, st: State)
    requires Inv(w, st) && Ledger(w, st) && Arrivals(w, st) && st.queue != []
    ensures Arrivals(w, Step(w, st))
  {
    var h := st.queue[0];
    var e := Entry(h.job.pid, st.clock, st.clock + Min(Quantum, h.rem));
    assert h in st.queue;
    QueueTail(st.queue);
    StepKeepsSlicesOfRows(w, st, e);
    StepKeepsQueueArrived(w, st, e);
    StepKeepsDoneInTime(w, st);
  }

  lemma StepKeepsSlicesOfRows(w: seq<Job>, st: State, e: Entry)
    requires st.queue != [] && |st.waits| == |w|
    requires e == Entry(st.queue[0].job.pid, st.clock, st.clock + Min(Quantum, st.queue[0].rem))
    requires st.queue[0].job in w && st.queue[0].job.arrival <= st.clock
    requires SlicesOfRows(w, st.gantt)
    ensures SlicesOfRows(w, Step(w, st).gantt)
  {
    var g := Step(w, st).gantt;
    assert g == st.gantt + [e];
    forall i | 0 <= i < |g|
      ensures exists x :: x in w && x.pid == g[i].pid && x.arrival <= g[i].start
    {
      if i < |st.gantt| {
        assert g[i] == st.gantt[i];
      } else {
        assert g[i] == e;
      }
    }
  }

  lemma StepKeepsQueueArrived(w: seq<Job>, st: State, e: Entry)
    requires st.queue != [] && |st.waits| == |w|
    requires e == Entry(st.queue[0].job.pid, st.clock, st.clock + Min(Quantum, st.queue[0].rem))
    requires QueueArrived(st)
    requires forall slot :: slot in st.queue[1..] ==> slot.job.pid != st.queue[0].job.pid
    ensures QueueArrived(Step(w, st))
  {
    var h, rest := st.queue[0], st.queue[1..];
    var next := Step(w, st);
    assert next.gantt == st.gantt + [e];
    assert h in st.queue;
    forall slot | slot in next.queue
      ensures slot.job.arrival <= next.clock && slot.job.arrival + SliceSum(next.gantt, slot.job.pid) <= next.clock
    {
      SliceSumAppend(st.gantt, e, slot.job.pid);
      if slot in rest {
        assert slot in st.queue;
      }
    }
  }

  lemma StepKeepsDoneInTime(w: seq<Job>, st: State)
    requires st.queue != [] && |st.waits| == |w|
    requires DoneInTime(st)
    requires st.queue[0].job.arrival + SliceSum(st.gantt, st.queue[0].job.pid) <= st.clock
    requires SliceSum(st.gantt, st.queue[0].job.pid) + st.queue[0].rem == st.queue[0].job.service
    ensures DoneInTime(Step(w, st))
  {
    var h := st.queue[0];
    var run := Min(Quantum, h.rem);
    forall dd | dd in Step(w, st).done
      ensures dd.turnaround >= dd.job.service
    {
      if dd !in st.done {
        assert dd == Done(h.job, st.clock + run - h.job.arrival) && run == h.rem;
      }
    }
  }

  lemma IterateKeepsArrivals(w: seq<Job>, st: State)
    requires Inv(w, st) && Ledger(w, st) && Arrivals(w, st)
    ensures Arrivals(w, Iterate(w, st))
  {
    var adm := Admitted(w, st);
    AdmitKeepsInv(w, st);
    AdmitKeepsLedger(w, st);
    AdmitKeepsArrivals(w, st);
    if adm.queue == [] {
      IdleKeepsArrivals(w, adm);
    } else {
      StepKeepsArrivals(w, adm);
    }
  }

  /** With distinct pids in the queue, a pid occurs in it at most once. */
  lemma {:induction false} CountDistinct(q: seq<Slot>, p: string)
    requires DistinctPids(Jobs(q))
    ensures multiset(QueuePids(q))[p] == if p in QueuePids(q) then 1 else 0
  {
    if q != [] {
      QueueTail(q);
      CountDistinct(q[1..], p);
      assert QueuePids(q) == [q[0].job.pid] + QueuePids(q[1..]);
      if p in QueuePids(q[1..]) {
        var i :| 0 <= i < |q[1..]| && QueuePids(q[1..])[i] == p;
        assert q[1..][i] in q[1..];
      }
    }
  }

  /** After a slice, exactly the rows still queued gain its length as waiting time. */
  lemma StepWaits(w: seq<Job>, st: State)
    requires st.queue != [] && |st.waits| == |w| && DistinctPids(Jobs(st.queue))
    ensures forall i :: 0 <= i < |w| ==>
      Step(w, st).waits[i]
        == st.waits[i] + (if w[i].pid in QueuePids(st.queue[1..]) then Min(Quantum, st.queue[0].rem) else 0)
  {
    QueueTail(st.queue);
    forall i | 0 <= i < |w|
      ensures Step(w, st).waits[i]
        == st.waits[i] + (if w[i].pid in QueuePids(st.queue[1..]) then Min(Quantum, st.queue[0].rem) else 0)
    {
      CountDistinct(st.queue[1..], w[i].pid);
    }
  }

  /**
    One slice of the head of a non-empty queue, read off the definition of
    `Step`: it states the slice rule per step, while the facts about the
    whole Gantt list are those of the ledger (`IterateKeepsLedger`,
    `FinalOutcome`).
   */
  lemma StepSlice(w: seq<Job>, st: State)
    requires st.queue != [] && |st.waits| == |w|
    ensures var h, run, next := st.queue[0], Min(Quantum, st.queue[0].rem), Step(w, st);
      && next.clock == st.clock + run
      && next.gantt == st.gantt + [Entry(h.job.pid, st.clock, st.clock + run)]
      && (h.rem > Quantum ==> next.queue == st.queue[1..] + [Slot(h.job, h.rem - Quantum)] && next.done == st.done)
      && (h.rem <= Quantum ==>
            next.queue == st.queue[1..] && next.done == st.done + [Done(h.job, st.clock + h.rem - h.job.arrival)])
  {
  }

  /**
    A pass that finds a non-empty queue after admission: its head runs for
    min(2, remaining) ticks from the current clock, then completes or goes
    to the tail.  This unfolds `Iterate` through `StepSlice`; the facts
    about the whole Gantt list are those of the ledger.
   */
  lemma PassRunsHead(w: seq<Job>, st: State)
    requires Inv(w, st)
    requires Admitted(w, st).queue != []
    ensures var q := Admitted(w, st).queue;
      var h, run, next := q[0], Min(Quantum, q[0].rem), Iterate(w, st);
      && next.clock == st.clock + run
      && next.gantt == st.gantt + [Entry(h.job.pid, st.clock, st.clock + run)]
      && (h.rem > Quantum ==> next.queue == q[1..] + [Slot(h.job, h.rem - Quantum)] && next.done == st.done)
      && (h.rem <= Quantum ==>
            next.queue == q[1..] && next.done == st.done + [Done(h.job, st.clock + h.rem - h.job.arrival)])
  {
    StepSlice(w, Admitted(w, st));
  }

  /**
    The queue a pass runs from is the previous queue followed by the rows
    newly arrived, in table order; after the slice, exactly the rows left in
    that queue gain the slice length as waiting time.
   */
  lemma PassWaits(w: seq<Job>, st: State)
    requires Inv(w, st)
    requires Admitted(w, st).queue != []
    ensures var q := Admitted(w, st).queue;
      q == st.queue + Fresh(Available(w, st.clock, QueuePids(st.queue) + DonePids(st.done)))
    ensures var q := Admitted(w, st).queue;
      forall i :: 0 <= i < |w| ==>
        Iterate(w, st).waits[i]
          == st.waits[i] + (if w[i].pid in QueuePids(q[1..]) then Min(Quantum, q[0].rem) else 0)
  {
    AdmitAppendsArrivals(w, st.clock, st.queue, DonePids(st.done));
    AdmitKeepsInv(w, st);
    StepWaits(w, Admitted(w, st));
  }

  /**
    A pass idles exactly when the queue is empty and no row has arrived that
    is not completed; it then advances the clock by one and changes nothing else.
   */
  lemma PassIdles(w: seq<Job>, st: State)
    requires Inv(w, st)
    ensures Admitted(w, st).queue == [] <==> st.queue == [] && Available(w, st.clock, DonePids(st.done)) == []
    ensures Admitted(w, st).queue == [] ==> Iterate(w, st) == st.(clock := st.clock + 1)
  {
    var d := DonePids(st.done);
    var a := Available(w, st.clock, QueuePids(st.queue) + d);
    AdmitAppendsArrivals(w, st.clock, st.queue, d);
    assert |Admitted(w, st).queue| == |st.queue| + |a|;
    if st.queue == [] {
      assert QueuePids(st.queue) + d == d;
    }
  }

  /**
    A row put back at the tail stays ahead of the rows that arrived during
    its slice: the next admission pass appends them behind it.
   */
  lemma RequeuedAheadOfArrivals(w: seq<Job>, st: State)
    requires Inv(w, st)
    requires Admitted(w, st).queue != [] && Admitted(w, st).queue[0].rem > Quantum
    ensures var q, next := Admitted(w, st).queue, Iterate(w, st);
      Admitted(w, next).queue
        == q[1..] + [Slot(q[0].job, q[0].rem - Quantum)]
           + Fresh(Available(w, next.clock, QueuePids(next.queue) + DonePids(next.done)))
  {
    PassRunsHead(w, st);
    var next := Iterate(w, st);
    AdmitAppendsArrivals(w, next.clock, next.queue, DonePids(next.done));
  }

  /** The loop of lines 934-967: passes until every row is completed. */
  function Loop(w: seq<Job>, st: State): (r: State)
    requires Inv(w, st) && Ledger(w, st) && Arrivals(w, st)
    decreases Work(w, st), MaxArrival(w) - st.clock
    ensures Inv(w, r) && Ledger(w, r) && Arrivals(w, r) && |r.done| >= |w|
  {
    if |st.done| >= |w| then st
    else
      IterateProgress(w, st);
      IterateKeepsLedger(w, st);
      IterateKeepsArrivals(w, st);
      Loop(w, Iterate(w, st))
  }

  /** The state before the first pass: clock 0, nothing queued, run or completed. */
  function Start(w: seq<Job>): (st: State)
    ensures |st.waits| == |w| && forall i :: 0 <= i < |w| ==> st.waits[i] == 0
  {
    State(0, [], seq(|w|, _ => 0), [], [])
  }

  lemma StartIsSound(w: seq<Job>)
    requires DistinctPids(w)
    ensures Inv(w, Start(w)) && Ledger(w, Start(w)) && Arrivals(w, Start(w))
  {
    NothingCompletedMeansAllUnfinished(w);
  }

  /**
    What the finished run promises: every row completed exactly once and
    nothing left queued, the slices of each row add up to its service, each
    turnaround is the finish of the row's last slice minus its arrival and
    at least its service time, waiting times are non-negative, every slice
    belongs to a row of the table and starts no earlier than its arrival,
    and the Gantt list is a timeline of slices of at most the quantum, a
    shorter one being its row's last.
   */
  predicate Outcome(w: seq<Job>, st: State) {
    && st.queue == []
    && |st.waits| == |w| && (forall i :: 0 <= i < |w| ==> st.waits[i] >= 0)
    && |st.done| == |w|
    && (forall x :: x in w ==> x.pid in DonePids(st.done))
    && (forall d :: d in st.done ==> d.job in w)
    && (forall x :: x in w ==> SliceSum(st.gantt, x.pid) == x.service)
    && (forall d :: d in st.done ==> d.turnaround == LastFinish(st.gantt, d.job.pid) - d.job.arrival)
    && (forall d :: d in st.done ==> d.turnaround >= d.job.service)
    && SlicesOfRows(w, st.gantt)
    && Timeline(st.gantt, st.clock)
    && ShortIsLast(st.gantt, DonePids(st.done))
  }

  lemma FinalOutcome(w: seq<Job>, st: State)
    requires Inv(w, st) && Ledger(w, st) && Arrivals(w, st) && |st.done| >= |w|
    ensures Outcome(w, st)
  {
    var d := DonePids(st.done);
    forall x | x in w
      ensures x.pid in d
    {
      AllCompleted(w, d, x);
    }
    HeadIsMember(st.queue);
    forall x | x in w
      ensures SliceSum(st.gantt, x.pid) == x.service
    {
      var i :| 0 <= i < |d| && d[i] == x.pid;
      assert st.done[i] in st.done;
      SamePidSameRow(w, st.done[i].job, x);
    }
  }

  /**
    The figures `rr` averages (lines 969-971): the waiting times in table
    order, as the waiting-time dictionary is built, and the turnaround times
    in completion order, as the turnaround dictionary is filled.
   */
  function Figures(st: State): Report {
    Report(st.gantt, st.waits, seq(|st.done|, i requires 0 <= i < |st.done| => st.done[i].turnaround))
  }

  /** For each completion, the finish of its row's last slice minus the row's arrival. */
  function Spans(g: seq<Entry>, d: seq<Done>): (r: seq<int>)
    ensures |r| == |d|
  {
    seq(|d|, i requires 0 <= i < |d| => LastFinish(g, d[i].job.pid) - d[i].job.arrival)
  }

  /**
    At the end of the run both averaged lists have one value per row of the
    table; the waiting times are non-negative; the turnaround list is the
    list of last-slice finishes minus arrivals, each at least its row's
    service time.
   */
  lemma FiguresOfOutcome(w: seq<Job>, st: State)
    requires Outcome(w, st)
    ensures var r := Figures(st);
      && |r.waits| == |w| && |r.turnarounds| == |w|
      && (forall i :: 0 <= i < |w| ==> r.waits[i] >= 0)
      && r.turnarounds == Spans(st.gantt, st.done)
      && (forall i :: 0 <= i < |w| ==> r.turnarounds[i] >= st.done[i].job.service)
  {
    var r := Figures(st);
    forall i | 0 <= i < |st.done|
      ensures r.turnarounds[i] == Spans(st.gantt, st.done)[i] && r.turnarounds[i] >= st.done[i].job.service
    {
      assert st.done[i] in st.done;
    }
  }

  lemma HeadIsMember<T>(q: seq<T>)
    ensures q != [] ==> q[0] in q
  {
  }

  /** Distinct pids identify the rows. */
  lemma SamePidSameRow(w: seq<Job>, x: Job, y: Job)
    requires DistinctPids(w) && x in w && y in w && x.pid == y.pid
    ensures x == y
  {
    var i :| 0 <= i < |w| && w[i] == x;
    var j :| 0 <= j < |w| && w[j] == y;
    assert !(i < j) && !(j < i);
  }

  /**
    `rr` (lines 922-972): the run from the start state, or the failure of
    the mean on an empty table.
   */
  function Schedule(w: seq<Job>): (r: Result<State, SchedError>)
    requires DistinctPids(w)
    ensures w == [] <==> r.Failure?
    ensures r.Failure? ==> r.error == EmptyWorkload
    ensures r.Success? ==> Outcome(w, r.value)
  {
    if w == [] then Failure(EmptyWorkload)
    else
      StartIsSound(w);
      var fin := Loop(w, Start(w));
      FinalOutcome(w, fin);
      Success(fin)
  }
}
