/**
  Bookkeeping shared by the SJF and Round-Robin loops: which rows of the
  table are still unfinished, and which have arrived by a given clock and are
  not yet completed (or, for Round-Robin, not yet queued either).
 */
module Progress {
  import opened Workload

  /** The rows of `w`, in table order, whose pid is not yet completed. */
  function Unfinished(w: seq<Job>, completed: seq<string>): seq<Job> {
    if w == [] then []
    else (if w[0].pid in completed then [] else [w[0]]) + Unfinished(w[1..], completed)
  }

  /** The rows of `w`, in table order, that have arrived by `clock` and are not completed. */
  function Available(w: seq<Job>, clock: int, completed: seq<string>): seq<Job> {
    if w == [] then []
    else
      (if w[0].arrival <= clock && w[0].pid !in completed then [w[0]] else [])
      + Available(w[1..], clock, completed)
  }

  lemma {:induction false} UnfinishedMembers(w: seq<Job>, completed: seq<string>, x: Job)
    ensures x in Unfinished(w, completed) <==> x in w && x.pid !in completed
  {
    if w != [] {
      UnfinishedMembers(w[1..], completed, x);
      assert w == [w[0]] + w[1..];
    }
  }

  lemma {:induction false} AvailableMembers(w: seq<Job>, clock: int, completed: seq<string>, x: Job)
    ensures x in Available(w, clock, completed) <==> x in w && x.arrival <= clock && x.pid !in completed
  {
    if w != [] {
      AvailableMembers(w[1..], clock, completed, x);
      assert w == [w[0]] + w[1..];
    }
  }

  lemma {:induction false} NothingCompletedMeansAllUnfinished(w: seq<Job>)
    ensures Unfinished(w, []) == w
  {
    if w != [] {
      NothingCompletedMeansAllUnfinished(w[1..]);
      assert w == [w[0]] + w[1..];
    }
  }

  /** Completing a pid that no row of `w` carries changes nothing. */
  lemma {:induction false} CompletingForeignPid(w: seq<Job>, completed: seq<string>, pid: string)
    requires forall x :: x in w ==> x.pid != pid
    ensures Unfinished(w, completed + [pid]) == Unfinished(w, completed)
  {
    if w != [] {
      assert w[0] in w;
      assert forall x :: x in w[1..] ==> x in w;
      CompletingForeignPid(w[1..], completed, pid);
    }
  }

  /** Completing the pid of one unfinished row removes exactly that row. */
  lemma {:induction false} CompletingOneRow(w: seq<Job>, completed: seq<string>, p: Job)
    requires DistinctPids(w)
    requires p in w && p.pid !in completed
    ensures multiset(Unfinished(w, completed + [p.pid])) + multiset{p} == multiset(Unfinished(w, completed))
  {
    DistinctTail(w);
    if w[0] == p {
      CompletingHeadRow(w, completed, p);
    } else {
      assert p in w[1..];
      CompletingOneRow(w[1..], completed, p);
      CompletingLaterRow(w, completed, p);
    }
  }

  lemma CompletingHeadRow(w: seq<Job>, completed: seq<string>, p: Job)
    requires w != [] && w[0] == p && p.pid !in completed
    requires forall x :: x in w[1..] ==> x.pid != p.pid
    ensures multiset(Unfinished(w, completed + [p.pid])) + multiset{p} == multiset(Unfinished(w, completed))
  {
    CompletingForeignPid(w[1..], completed, p.pid);
    assert Unfinished(w, completed) == [p] + Unfinished(w[1..], completed);
    assert Unfinished(w, completed + [p.pid]) == Unfinished(w[1..], completed + [p.pid]);
  }

  lemma CompletingLaterRow(w: seq<Job>, completed: seq<string>, p: Job)
    requires w != [] && w[0].pid != p.pid
    requires multiset(Unfinished(w[1..], completed + [p.pid])) + multiset{p} == multiset(Unfinished(w[1..], completed))
    ensures multiset(Unfinished(w, completed + [p.pid])) + multiset{p} == multiset(Unfinished(w, completed))
  {
    var more := completed + [p.pid];
    var a, b := Unfinished(w[1..], more), Unfinished(w[1..], completed);
    var h := if w[0].pid in completed then [] else [w[0]];
    assert (w[0].pid in more) == (w[0].pid in completed);
    assert Unfinished(w, more) == h + a;
    assert Unfinished(w, completed) == h + b;
    PrependSame(h, a, b, p);
  }

  lemma PrependSame<T>(h: seq<T>, a: seq<T>, b: seq<T>, p: T)
    requires multiset(a) + multiset{p} == multiset(b)
    ensures multiset(h + a) + multiset{p} == multiset(h + b)
  {
  }

  /** Completing one unfinished row keeps the count of rows and shrinks what is left. */
  lemma CompletingShrinks(w: seq<Job>, completed: seq<string>, p: Job)
    requires DistinctPids(w)
    requires |completed| + |Unfinished(w, completed)| == |w|
    requires p in w && p.pid !in completed
    ensures |completed + [p.pid]| + |Unfinished(w, completed + [p.pid])| == |w|
    ensures |Unfinished(w, completed + [p.pid])| < |Unfinished(w, completed)|
  {
    CompletingOneRow(w, completed, p);
    assert |multiset(Unfinished(w, completed + [p.pid])) + multiset{p}|
        == |multiset(Unfinished(w, completed))|;
  }


  /** While a row is unfinished and none has arrived, the clock is below the last arrival. */
  lemma NothingAvailableIsBounded(w: seq<Job>, clock: int, completed: seq<string>)
    requires |completed| + |Unfinished(w, completed)| == |w|
    requires |completed| < |w|
    requires Available(w, clock, completed) == []
    ensures clock < MaxArrival(w)
  {
    var u := Unfinished(w, completed)[0];
    UnfinishedMembers(w, completed, u);
    AvailableMembers(w, clock, completed, u);
  }

  /** Once every row is counted as completed, no row is unfinished. */
  lemma AllCompleted(w: seq<Job>, completed: seq<string>, x: Job)
    requires |completed| + |Unfinished(w, completed)| == |w|
    requires |completed| >= |w|
    requires x in w
    ensures x.pid in completed
  {
    UnfinishedMembers(w, completed, x);
  }

  /** `Available` depends only on which pids of the table are excluded. */
  lemma {:induction false} AvailableSameExcluded(w: seq<Job>, clock: int, s1: seq<string>, s2: seq<string>)
    requires forall x :: x in w ==> (x.pid in s1 <==> x.pid in s2)
    ensures Available(w, clock, s1) == Available(w, clock, s2)
  {
    if w != [] {
      assert w[0] in w;
      assert forall x :: x in w[1..] ==> x in w;
      AvailableSameExcluded(w[1..], clock, s1, s2);
    }
  }

  /** The available rows of a table with distinct pids have distinct pids. */
  lemma {:induction false} AvailableDistinct(w: seq<Job>, clock: int, completed: seq<string>)
    requires DistinctPids(w)
    ensures DistinctPids(Available(w, clock, completed))
  {
    if w != [] {
      DistinctTail(w);
      AvailableDistinct(w[1..], clock, completed);
      var a := Available(w[1..], clock, completed);
      forall x | x in a
        ensures x.pid != w[0].pid
      {
        AvailableMembers(w[1..], clock, completed, x);
      }
      ConsDistinct(w[0], a);
    }
  }
}
