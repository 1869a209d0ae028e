/**
  The process-lifecycle registry of the process-management panel: an id
  counter, a FIFO ready queue, a single running slot, a FIFO blocked queue
  and an append-only list of terminated ids, together with the per-process
  thread objects whose state flags follow the moves.  Every operation
  either performs one queue move or, when its guard fails, is refused and
  leaves the registry as it was.
 */
module Registry {
  import opened Wrappers

  /** The state label of a process thread. */
  datatype Phase = Ready | Running | Blocked | Terminated

  /** A process thread: its state label and its `running` flag. */
  datatype Thread = Thread(phase: Phase, running: bool)

  /** A freshly created thread: ready and not running. */
  const Idle := Thread(Ready, false)

  /**
    A started thread after the preamble of its run (lines 51-54): the
    `running` flag raised and the state running.
   */
  const Started := Thread(Running, true)

  /** `ProcessThread.block` (lines 67-72): only a running thread becomes blocked. */
  function BlockThread(t: Thread): Thread {
    if t.phase == Running then Thread(Blocked, false) else t
  }

  /** `ProcessThread.wake` (lines 74-78): only a blocked thread becomes ready. */
  function WakeThread(t: Thread): Thread {
    if t.phase == Blocked then Thread(Ready, t.running) else t
  }

  /**
    A thread that ran to the end of its time (lines 62-65), after the
    registry's finish handler has stopped it (line 322).
   */
  const Stopped := Thread(Terminated, false)

  datatype Registry = Registry(
    counter: nat,
    ready: seq<nat>,
    running: Option<nat>,
    blocked: seq<nat>,
    terminated: seq<nat>,
    threads: map<nat, Thread>)

  /** Why an operation was refused; a refused operation only logs. */
  datatype Refusal = ReadyEmpty | AlreadyRunning(pid: nat) | NothingRunning | BlockedEmpty

  /** The registry of a freshly opened panel. */
  const Initial := Registry(0, [], None, [], [], map[])

  function SlotSeq(o: Option<nat>): seq<nat> {
    if o.Some? then [o.value] else []
  }

  /** All places an id can be in, in the order ready, running, blocked, terminated. */
  function Places(r: Registry): seq<nat> {
    r.ready + SlotSeq(r.running) + r.blocked + r.terminated
  }

  /** Every created id (1 to the counter) lies in exactly one place, and no other id lies in any. */
  ghost predicate Partition(r: Registry) {
    forall id: nat :: multiset(Places(r))[id] == if 1 <= id <= r.counter then 1 else 0
  }

  /** The thread of every placed id carries the state label of its place. */
  ghost predicate Agrees(r: Registry) {
    && (forall id :: id in r.threads <==> 1 <= id <= r.counter)
    && (forall id :: id in r.ready ==> id in r.threads && r.threads[id] == Idle)
    && (r.running.Some? ==> r.running.value in r.threads && r.threads[r.running.value] == Started)
    && (forall id :: id in r.blocked ==> id in r.threads && r.threads[id] == Thread(Blocked, false))
    && (forall id :: id in r.terminated ==> id in r.threads && r.threads[id] == Stopped)
  }

  ghost predicate Valid(r: Registry) {
    Partition(r) && Agrees(r)
  }

  /** An id that occurs once in the places occurs nowhere else. */
  lemma Once(r: Registry, a: seq<nat>, id: nat, b: seq<nat>)
    requires Partition(r)
    requires multiset(Places(r)) == multiset(a + [id] + b)
    ensures id !in a && id !in b
  {
    assert multiset(a + [id] + b)[id] == multiset(a)[id] + 1 + multiset(b)[id];
  }

  lemma InitialIsValid()
    ensures Valid(Initial)
  {
  }

  /** The five ids a creation allocates. */
  function NewIds(c: nat): seq<nat> {
    [c + 1, c + 2, c + 3, c + 4, c + 5]
  }

  /**
    `create_processes` (lines 243-259): allocate the next five ids, append
    them to the ready queue in ascending order and give each a fresh thread.
   */
  function Create(r: Registry): (r2: Registry)
    ensures r2.counter == r.counter + 5
    ensures r2.ready == r.ready + NewIds(r.counter)
    ensures r2.running == r.running && r2.blocked == r.blocked && r2.terminated == r.terminated
  {
    var c := r.counter;
    r.(counter := c + 5,
       ready := r.ready + NewIds(c),
       threads := r.threads + map id | id in NewIds(c) :: Idle)
  }

  /**
    `schedule_process` (lines 261-277): refused when the ready queue is
    empty, checked first, or when a process is already running; otherwise
    the head of the ready queue moves into the running slot and its thread
    starts.
   */
  function Schedule(r: Registry): (res: Result<Registry, Refusal>)
    ensures r.ready == [] ==> res == Failure(ReadyEmpty)
    ensures r.ready != [] && r.running.Some? ==> res == Failure(AlreadyRunning(r.running.value))
    ensures res.Success? <==> r.ready != [] && r.running.None?
    ensures res.Success? ==>
      && res.value.running == Some(r.ready[0])
      && res.value.ready == r.ready[1..]
      && res.value.blocked == r.blocked && res.value.terminated == r.terminated
      && res.value.counter == r.counter
  {
    if r.ready == [] then Failure(ReadyEmpty)
    else if r.running.Some? then Failure(AlreadyRunning(r.running.value))
    else
      var pid := r.ready[0];
      Success(r.(ready := r.ready[1..], running := Some(pid), threads := r.threads[pid := Started]))
  }

  /**
    `block_running_process` (lines 279-293): refused when nothing runs;
    otherwise the running id goes to the tail of the blocked queue, the
    slot empties and the thread is blocked.
   */
  function Block(r: Registry): (res: Result<Registry, Refusal>)
    ensures res.Failure? <==> r.running.None?
    ensures res.Failure? ==> res.error == NothingRunning
    ensures res.Success? ==>
      && res.value.running == None
      && res.value.blocked == r.blocked + [r.running.value]
      && res.value.ready == r.ready && res.value.terminated == r.terminated
      && res.value.counter == r.counter
  {
    if r.running.None? then Failure(NothingRunning)
    else
      var pid := r.running.value;
      var t := if pid in r.threads then BlockThread(r.threads[pid]) else Idle;
      Success(r.(running := None, blocked := r.blocked + [pid], threads := r.threads[pid := t]))
  }

  /**
    `wake_blocked_process` (lines 295-308): refused when the blocked queue
    is empty; otherwise its head goes to the tail of the ready queue and
    its thread is woken.
   */
  function Wake(r: Registry): (res: Result<Registry, Refusal>)
    ensures res.Failure? <==> r.blocked == []
    ensures res.Failure? ==> res.error == BlockedEmpty
    ensures res.Success? ==>
      && res.value.ready == r.ready + [r.blocked[0]]
      && res.value.blocked == r.blocked[1..]
      && res.value.running == r.running && res.value.terminated == r.terminated
      && res.value.counter == r.counter
  {
    if r.blocked == [] then Failure(BlockedEmpty)
    else
      var pid := r.blocked[0];
      var t := if pid in r.threads then WakeThread(r.threads[pid]) else Idle;
      Success(r.(ready := r.ready + [pid], blocked := r.blocked[1..], threads := r.threads[pid := t]))
  }

  /**
    `on_process_finished` (lines 316-326), called for the running process
    when its thread ends its run: the slot empties and the id goes to the
    end of the terminated list.
   */
  function Finish(r: Registry): (r2: Registry)
    requires r.running.Some?
    ensures r2.running == None
    ensures r2.terminated == r.terminated + [r.running.value]
    ensures r2.ready == r.ready && r2.blocked == r.blocked && r2.counter == r.counter
  {
    var pid := r.running.value;
    r.(running := None, terminated := r.terminated + [pid], threads := r.threads[pid := Stopped])
  }

  /** The thread guards of `block` and `wake` always pass when the registry drives them. */
  lemma ThreadGuardsPass(r: Registry)
    requires Agrees(r)
    ensures r.running.Some? ==> r.threads[r.running.value].phase == Running
    ensures r.running.Some? ==> BlockThread(r.threads[r.running.value]) == Thread(Blocked, false)
    ensures r.blocked != [] ==> r.blocked[0] in r.threads && r.threads[r.blocked[0]].phase == Blocked
    ensures r.blocked != [] ==> WakeThread(r.threads[r.blocked[0]]) == Idle
  {
    if r.blocked != [] {
      assert r.blocked[0] in r.blocked;
    }
  }

  lemma NewIdsCount(c: nat, id: nat)
    ensures multiset(NewIds(c))[id] == if c < id <= c + 5 then 1 else 0
  {
    assert multiset(NewIds(c)) == multiset{c + 1, c + 2, c + 3, c + 4, c + 5};
  }

  lemma InsertMiddle<T>(a: seq<T>, n: seq<T>, b: seq<T>)
    ensures multiset(a + n + b) == multiset(a + b) + multiset(n)
  {
  }

  /** Creation keeps the partition. */
  lemma CreateKeepsPartition(r: Registry)
    requires Partition(r)
    ensures Partition(Create(r))
  {
    CreatePlaces(r);
    forall id: nat
      ensures multiset(Places(Create(r)))[id] == if 1 <= id <= r.counter + 5 then 1 else 0
    {
      NewIdsCount(r.counter, id);
    }
  }

  lemma CreatePlaces(r: Registry)
    ensures multiset(Places(Create(r))) == multiset(Places(r)) + multiset(NewIds(r.counter))
  {
    var tail := SlotSeq(r.running) + r.blocked + r.terminated;
    assert Places(Create(r)) == r.ready + NewIds(r.counter) + tail;
    assert Places(r) == r.ready + tail;
    InsertMiddle(r.ready, NewIds(r.counter), tail);
  }

  /** Creation allocates ids that no place holds yet. */
  lemma CreateAllocatesFresh(r: Registry)
    requires Partition(r)
    ensures forall id :: id in NewIds(r.counter) ==> id !in Places(r)
  {
    forall id | id in NewIds(r.counter)
      ensures id !in Places(r)
    {
      assert multiset(Places(r))[id] == 0;
    }
  }

  lemma CreateKeepsAgreement(r: Registry)
    requires Agrees(r)
    ensures Agrees(Create(r))
  {
    var c := r.counter;
    CreateThreads(r);
    assert forall id :: id in Create(r).ready ==> id in r.ready || id in NewIds(c);
  }

  /** Creation gives the new ids fresh threads and keeps the others. */
  lemma CreateThreads(r: Registry)
    requires forall id :: id in r.threads <==> 1 <= id <= r.counter
    ensures forall id :: id in Create(r).threads <==> 1 <= id <= r.counter + 5
    ensures forall id :: id in NewIds(r.counter) ==> Create(r).threads[id] == Idle
    ensures forall id :: id in r.threads ==> Create(r).threads[id] == r.threads[id]
  {
    var c := r.counter;
    assert forall id :: id in NewIds(c) <==> c < id <= c + 5;
  }

  lemma CreateKeepsValid(r: Registry)
    requires Valid(r)
    ensures Valid(Create(r))
    ensures forall id :: id in NewIds(r.counter) ==> id !in Places(r)
  {
    CreateKeepsPartition(r);
    CreateAllocatesFresh(r);
    CreateKeepsAgreement(r);
  }

  /** A move that keeps the places as a multiset keeps the partition. */
  lemma SamePlaces(r: Registry, r2: Registry)
    requires Partition(r)
    requires r2.counter == r.counter && multiset(Places(r2)) == multiset(Places(r))
    ensures Partition(r2)
  {
  }

  lemma ScheduleKeepsValid(r: Registry)
    requires Valid(r) && Schedule(r).Success?
    ensures Valid(Schedule(r).value)
  {
    var pid := r.ready[0];
    var rest := r.ready[1..] + r.blocked + r.terminated;
    assert r.ready == [pid] + r.ready[1..];
    assert Places(r) == [] + [pid] + rest;
    Once(r, [], pid, rest);
    assert multiset(Places(Schedule(r).value)) == multiset(Places(r));
    SamePlaces(r, Schedule(r).value);
    MovedAgrees(r, Schedule(r).value, pid, Started);
  }

  /**
    When a registry differs from an agreeing one only in the place and the
    thread of `pid`, and the new place matches the new thread, it agrees too.
   */
  lemma MovedAgrees(r: Registry, r2: Registry, pid: nat, t: Thread)
    requires Agrees(r)
    requires r2.counter == r.counter && pid in r.threads
    requires r2.threads == r.threads[pid := t]
    requires forall id :: id in r2.ready && id != pid ==> id in r.ready
    requires forall id :: id in r2.blocked && id != pid ==> id in r.blocked
    requires forall id :: id in r2.terminated && id != pid ==> id in r.terminated
    requires r2.running.Some? && r2.running.value != pid ==> r2.running == r.running
    requires pid in r2.ready ==> t == Idle
    requires r2.running == Some(pid) ==> t == Started
    requires pid in r2.blocked ==> t == Thread(Blocked, false)
    requires pid in r2.terminated ==> t == Stopped
    ensures Agrees(r2)
  {
  }

  lemma BlockKeepsValid(r: Registry)
    requires Valid(r) && Block(r).Success?
    ensures Valid(Block(r).value)
  {
    var pid := r.running.value;
    assert Places(r) == r.ready + [pid] + (r.blocked + r.terminated);
    Once(r, r.ready, pid, r.blocked + r.terminated);
    var r2 := Block(r).value;
    assert Places(r2) == r.ready + (r.blocked + [pid]) + r.terminated;
    assert multiset(Places(r2)) == multiset(Places(r));
    SamePlaces(r, r2);
    ThreadGuardsPass(r);
    MovedAgrees(r, r2, pid, Thread(Blocked, false));
  }

  lemma WakeKeepsValid(r: Registry)
    requires Valid(r) && Wake(r).Success?
    ensures Valid(Wake(r).value)
  {
    var pid := r.blocked[0];
    var before := r.ready + SlotSeq(r.running);
    assert r.blocked == [pid] + r.blocked[1..];
    assert Places(r) == before + [pid] + (r.blocked[1..] + r.terminated);
    Once(r, before, pid, r.blocked[1..] + r.terminated);
    var r2 := Wake(r).value;
    assert multiset(Places(r2)) == multiset(Places(r));
    SamePlaces(r, r2);
    ThreadGuardsPass(r);
    assert forall id :: id in r.blocked[1..] ==> id in r.blocked;
    MovedAgrees(r, r2, pid, Idle);
  }

  lemma FinishKeepsValid(r: Registry)
    requires Valid(r) && r.running.Some?
    ensures Valid(Finish(r))
  {
    var pid := r.running.value;
    assert Places(r) == r.ready + [pid] + (r.blocked + r.terminated);
    Once(r, r.ready, pid, r.blocked + r.terminated);
    var r2 := Finish(r);
    assert multiset(Places(r2)) == multiset(Places(r));
    SamePlaces(r, r2);
    MovedAgrees(r, r2, pid, Stopped);
  }

  /** A button press of the panel, or the finish signal of the running thread. */
  datatype Command = CreateCmd | ScheduleCmd | BlockCmd | WakeCmd | FinishCmd

  /**
    One command: a refused operation leaves the registry as it was, and a
    finish signal can only come while a process runs.
   */
  function Apply(r: Registry, c: Command): Registry {
    match c
    case CreateCmd => Create(r)
    case ScheduleCmd => (var res := Schedule(r); if res.Success? then res.value else r)
    case BlockCmd => (var res := Block(r); if res.Success? then res.value else r)
    case WakeCmd => (var res := Wake(r); if res.Success? then res.value else r)
    case FinishCmd => if r.running.Some? then Finish(r) else r
  }

  function Run(r: Registry, cs: seq<Command>): Registry
    decreases |cs|
  {
    if cs == [] then r else Run(Apply(r, cs[0]), cs[1..])
  }

  /**
    Every command keeps the invariant, never lowers the counter and only
    ever appends to the terminated list.
   */
  lemma ApplyKeepsValid(r: Registry, c: Command)
    requires Valid(r)
    ensures Valid(Apply(r, c))
    ensures Apply(r, c).counter >= r.counter
    ensures r.terminated <= Apply(r, c).terminated
  {
    match c
    case CreateCmd => CreateKeepsValid(r);
    case ScheduleCmd => if Schedule(r).Success? { ScheduleKeepsValid(r); }
    case BlockCmd => if Block(r).Success? { BlockKeepsValid(r); }
    case WakeCmd => if Wake(r).Success? { WakeKeepsValid(r); }
    case FinishCmd => if r.running.Some? { FinishKeepsValid(r); }
  }

  /**
    From the freshly opened panel, any sequence of commands leaves every
    created id in exactly one place, each thread labelled by its place,
    and the terminated list extended only at its end.
   */
  lemma {:induction false} RunKeepsValid(r: Registry, cs: seq<Command>)
    requires Valid(r)
    decreases |cs|
    ensures Valid(Run(r, cs))
    ensures Run(r, cs).counter >= r.counter
    ensures r.terminated <= Run(r, cs).terminated
  {
    if cs != [] {
      ApplyKeepsValid(r, cs[0]);
      RunKeepsValid(Apply(r, cs[0]), cs[1..]);
    }
  }
}
