/**
  The scheduler's input and output records.  A workload row is the tuple
  (pid, arrival, service, priority) of the process table; a Gantt entry is
  the tuple (pid, start, finish) that each algorithm emits.
 */
module Workload {

  /** One row of the process table.  Durations are non-negative by type. */
  datatype Job = Job(pid: string, arrival: int, service: nat, priority: int)

  /** One bar of the Gantt chart. */
  datatype Entry = Entry(pid: string, start: int, finish: int)

  /**
    What one scheduling run computes before averaging: the Gantt list and the
    per-process waiting and turnaround times whose means are reported.
   */
  datatype Report = Report(gantt: seq<Entry>, waits: seq<int>, turnarounds: seq<int>)

  /** The only way a scheduling run can be refused. */
  datatype SchedError = EmptyWorkload

  function Max(a: int, b: int): int {
    if a >= b then a else b
  }

  function Min(a: int, b: int): int {
    if a <= b then a else b
  }

  function Sum(xs: seq<int>): int {
    if xs == [] then 0 else xs[0] + Sum(xs[1..])
  }

  /** Total service demand of a list of jobs. */
  function TotalService(js: seq<Job>): int {
    if js == [] then 0 else js[0].service + TotalService(js[1..])
  }

  /** The pids of a list of jobs, in order. */
  function PidsOf(js: seq<Job>): (r: seq<string>)
    ensures |r| == |js|
    ensures forall i :: 0 <= i < |js| ==> r[i] == js[i].pid
  {
    if js == [] then [] else [js[0].pid] + PidsOf(js[1..])
  }

  /** The pids of a Gantt list, in order. */
  function EntryPids(g: seq<Entry>): (r: seq<string>)
    ensures |r| == |g|
    ensures forall i :: 0 <= i < |g| ==> r[i] == g[i].pid
  {
    if g == [] then [] else [g[0].pid] + EntryPids(g[1..])
  }

  /** Removing position `i` of a sequence removes one occurrence of its element. */
  lemma DropAt<T>(s: seq<T>, i: int)
    requires 0 <= i < |s|
    ensures multiset(s) == multiset(s[..i] + s[i + 1..]) + multiset{s[i]}
  {
    assert s == s[..i] + [s[i]] + s[i + 1..];
    assert multiset(s[..i] + s[i + 1..]) == multiset(s[..i]) + multiset(s[i + 1..]);
  }

  /** Taking row `i` out of a list removes its pid... */
  lemma RemoveRowPid(b: seq<Job>, i: int)
    requires 0 <= i < |b|
    ensures multiset(PidsOf(b)) == multiset(PidsOf(b[..i] + b[i + 1..])) + multiset{b[i].pid}
  {
    var p, c := PidsOf(b), b[..i] + b[i + 1..];
    forall k | 0 <= k < |c|
      ensures PidsOf(c)[k] == (p[..i] + p[i + 1..])[k]
    {
      if k < i {
        assert c[k] == b[k];
      } else {
        assert c[k] == b[k + 1];
      }
    }
    assert PidsOf(c) == p[..i] + p[i + 1..];
    DropAt(p, i);
  }

  /** ...and its service. */
  lemma {:induction false} RemoveRowService(b: seq<Job>, i: int)
    requires 0 <= i < |b|
    ensures TotalService(b) == TotalService(b[..i] + b[i + 1..]) + b[i].service
  {
    if i == 0 {
      assert b[..0] + b[1..] == b[1..];
    } else {
      var t := b[1..];
      var c := t[..i - 1] + t[i..];
      RemoveRowService(t, i - 1);
      assert b[..i] + b[i + 1..] == [b[0]] + c;
      assert ([b[0]] + c)[1..] == c;
    }
  }

  /** The first row of `a` occurs in any reordering `b`; dropping it from both keeps them reorderings. */
  lemma MatchFirstRow<T>(a: seq<T>, b: seq<T>) returns (i: int)
    requires a != [] && multiset(a) == multiset(b)
    ensures 0 <= i < |b| && b[i] == a[0]
    ensures multiset(a[1..]) == multiset(b[..i] + b[i + 1..])
  {
    i := IndexOf(a[0], b);
    DropBoth(a, b, i);
  }

  lemma IndexOf<T>(x: T, b: seq<T>) returns (i: int)
    requires x in multiset(b)
    ensures 0 <= i < |b| && b[i] == x
  {
    i :| 0 <= i < |b| && b[i] == x;
  }

  lemma DropBoth<T>(a: seq<T>, b: seq<T>, i: int)
    requires a != [] && multiset(a) == multiset(b)
    requires 0 <= i < |b| && b[i] == a[0]
    ensures multiset(a[1..]) == multiset(b[..i] + b[i + 1..])
  {
    var ra, rb := a[1..], b[..i] + b[i + 1..];
    assert multiset(a) == multiset(ra) + multiset{a[0]} by {
      DropAt(a, 0);
      assert a[..0] + a[1..] == ra;
    }
    assert multiset(b) == multiset(rb) + multiset{a[0]} by {
      DropAt(b, i);
    }
    Cancel(multiset(ra), multiset(rb), a[0]);
  }

  lemma Cancel<T>(x: multiset<T>, y: multiset<T>, e: T)
    requires x + multiset{e} == y + multiset{e}
    ensures x == y
  {
    forall z
      ensures x[z] == y[z]
    {
      assert (x + multiset{e})[z] == (y + multiset{e})[z];
    }
  }

  /** Two orderings of the same rows have the same pids... */
  lemma {:induction false} PermutationKeepsPids(a: seq<Job>, b: seq<Job>)
    requires multiset(a) == multiset(b)
    ensures multiset(PidsOf(a)) == multiset(PidsOf(b))
  {
    if a == [] {
      assert |b| == |multiset(b)| == 0;
    } else {
      var i := MatchFirstRow(a, b);
      PermutationKeepsPids(a[1..], b[..i] + b[i + 1..]);
      RemoveRowPid(b, i);
      assert PidsOf(a) == [a[0].pid] + PidsOf(a[1..]);
    }
  }

  /** ...and the same total service. */
  lemma {:induction false} PermutationKeepsService(a: seq<Job>, b: seq<Job>)
    requires multiset(a) == multiset(b)
    ensures TotalService(a) == TotalService(b)
  {
    if a == [] {
      assert |b| == |multiset(b)| == 0;
    } else {
      var i := MatchFirstRow(a, b);
      PermutationKeepsService(a[1..], b[..i] + b[i + 1..]);
      RemoveRowService(b, i);
    }
  }

  /** No two rows of the table share a pid. */
  predicate DistinctPids(js: seq<Job>) {
    forall i, j :: 0 <= i < j < |js| ==> js[i].pid != js[j].pid
  }

  /** The rows after the first keep distinct pids, none equal to the first's. */
  lemma DistinctTail(w: seq<Job>)
    requires w != [] && DistinctPids(w)
    ensures DistinctPids(w[1..])
    ensures forall x :: x in w[1..] ==> x.pid != w[0].pid
  {
    var rest := w[1..];
    assert forall i :: 0 <= i < |rest| ==> rest[i] == w[i + 1];
  }

  /** A row whose pid no row of `s` carries can go in front of `s`. */
  lemma ConsDistinct(y: Job, s: seq<Job>)
    requires DistinctPids(s)
    requires forall x :: x in s ==> x.pid != y.pid
    ensures DistinctPids([y] + s)
  {
    var c := [y] + s;
    forall i, j | 0 <= i < j < |c|
      ensures c[i].pid != c[j].pid
    {
      assert c[j] == s[j - 1];
      if i > 0 {
        assert c[i] == s[i - 1];
      } else {
        assert s[j - 1] in s;
      }
    }
  }

  /** Two lists with distinct pids and no pid in common can be joined. */
  lemma AppendDistinct(a: seq<Job>, b: seq<Job>)
    requires DistinctPids(a) && DistinctPids(b)
    requires forall x, y :: x in a && y in b ==> x.pid != y.pid
    ensures DistinctPids(a + b)
  {
    var c := a + b;
    forall i, j | 0 <= i < j < |c|
      ensures c[i].pid != c[j].pid
    {
      if j < |a| {
        assert c[i] == a[i] && c[j] == a[j];
      } else if i >= |a| {
        assert c[i] == b[i - |a|] && c[j] == b[j - |a|];
      } else {
        assert c[i] == a[i] && c[j] == b[j - |a|];
        assert a[i] in a && b[j - |a|] in b;
      }
    }
  }

  /** An upper bound of every arrival time (and of 0), used to bound idle ticks. */
  function MaxArrival(js: seq<Job>): (m: int)
    ensures m >= 0
    ensures forall j :: j in js ==> j.arrival <= m
  {
    if js == [] then 0 else Max(js[0].arrival, MaxArrival(js[1..]))
  }

  /** Arithmetic mean of a non-empty list of integer times (the source uses float division). */
  function Mean(xs: seq<int>): real
    requires |xs| > 0
  {
    Sum(xs) as real / |xs| as real
  }

  /** The preset workload of the scheduling page. */
  const Sample: seq<Job> := [
    Job("P1", 0, 5, 3),
    Job("P2", 1, 3, 1),
    Job("P3", 2, 2, 2),
    Job("P4", 4, 4, 4)
  ]
}
