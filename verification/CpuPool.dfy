/**
  CpuPoolExecutor: a locked queue, its worker threads and shutdown().  A section under the
  lock is one step, and so is running a task, so a run is an arbitrary interleaving.
*/
module CpuPool {

  datatype Item = Work(id: nat) | Shutdown

  /** A worker: about to look into the queue, asleep on the condition variable, busy, or gone. */
  datatype Worker = Ready | Waiting | Holding(item: Item) | Exited

  /** `accepted`, `started` and `finished` record the tasks in the order of those events. */
  datatype State = State(
    running: bool,
    queue: seq<Item>,
    workers: seq<Worker>,
    accepted: seq<nat>,
    started: seq<nat>,
    finished: seq<nat>)

  function Initial(threads: nat): State {
    State(true, [], seq(threads, i => Ready), [], [], [])
  }

  datatype Action =
    | Execute(id: nat, wake: nat)   // notify_one wakes `wake`, if anybody is asleep
    | Stop
    | Look(w: nat)
    | Finish(w: nat)
    | Spurious(w: nat)              // a condition variable may wake up for no reason

  ghost predicate SomeoneWaits(s: State) {
    exists w :: 0 <= w < |s.workers| && s.workers[w] == Waiting
  }

  ghost predicate Enabled(s: State, a: Action) {
    match a
    case Execute(_, wake) => SomeoneWaits(s) ==> wake < |s.workers| && s.workers[wake] == Waiting
    case Stop => true
    case Look(w) => w < |s.workers| && s.workers[w] == Ready
    case Finish(w) => w < |s.workers| && s.workers[w].Holding?
    case Spurious(w) => w < |s.workers| && s.workers[w] == Waiting
  }

  function Woken(w: Worker): Worker {
    if w == Waiting then Ready else w
  }

  function WakeAll(workers: seq<Worker>): seq<Worker> {
    seq(|workers|, i requires 0 <= i < |workers| => Woken(workers[i]))
  }

  function Put(s: State, w: nat, p: Worker): State
    requires w < |s.workers|
  {
    s.(workers := s.workers[w := p])
  }

  function Markers(n: nat): seq<Item> {
    seq(n, i => Shutdown)
  }

  ghost function Apply(s: State, a: Action): State
    requires Enabled(s, a)
  {
    match a
    case Execute(id, wake) =>
      if !s.running then s
      else
        var t := s.(queue := s.queue + [Work(id)], accepted := s.accepted + [id]);
        if SomeoneWaits(s) then Put(t, wake, Ready) else t
    case Stop =>
      if !s.running then s
      else s.(running := false, queue := s.queue + Markers(|s.workers|), workers := WakeAll(s.workers))
    case Look(w) =>
      if s.queue == [] then Put(s, w, Waiting)
      else
        var t := Put(s, w, Holding(s.queue[0])).(queue := s.queue[1..]);
        if s.queue[0].Work? then t.(started := s.started + [s.queue[0].id]) else t
    case Finish(w) =>
      var item := s.workers[w].item;
      if item.Work? then Put(s, w, Ready).(finished := s.finished + [item.id]) else Put(s, w, Exited)
    case Spurious(w) => Put(s, w, Ready)
  }

  ghost predicate Runs(s: State, steps: seq<Action>, t: State)
    decreases |steps|
  {
    if steps == [] then s == t
    else Enabled(s, steps[0]) && Runs(Apply(s, steps[0]), steps[1..], t)
  }

  ghost predicate Reachable(t: State) {
    exists threads, steps :: Runs(Initial(threads), steps, t)
  }

  // ---------------------------------------------------------------- counting

  function Works(queue: seq<Item>): seq<nat> {
    if queue == [] then []
    else (if queue[0].Work? then [queue[0].id] else []) + Works(queue[1..])
  }

  function MarkersIn(queue: seq<Item>): nat {
    if queue == [] then 0 else (if queue[0].Work? then 0 else 1) + MarkersIn(queue[1..])
  }

  /** Workers that have taken their shutdown marker. */
  function Leaving(workers: seq<Worker>): nat {
    if workers == [] then 0
    else LeavingOne(workers[0]) + Leaving(workers[1..])
  }

  /** How many workers are running the task `id`. */
  function Held(workers: seq<Worker>, id: nat): nat {
    if workers == [] then 0 else HeldOne(workers[0], id) + Held(workers[1..], id)
  }

  function LeavingOne(w: Worker): nat {
    if w in {Holding(Shutdown), Exited} then 1 else 0
  }

  function HeldOne(w: Worker, id: nat): nat {
    if w == Holding(Work(id)) then 1 else 0
  }

  /** How often `id` occurs in a list. */
  function Times(ids: seq<nat>, id: nat): nat {
    if ids == [] then 0 else (if ids[0] == id then 1 else 0) + Times(ids[1..], id)
  }

  lemma {:induction false} TimesSplit(a: seq<nat>, b: seq<nat>, id: nat)
    ensures Times(a + b, id) == Times(a, id) + Times(b, id)
  {
    if a == [] {
      assert a + b == b;
    } else {
      assert (a + b)[1..] == a[1..] + b;
      TimesSplit(a[1..], b, id);
    }
  }

  lemma TimesEnd(a: seq<nat>, last: nat, id: nat)
    ensures Times(a + [last], id) == Times(a, id) + if last == id then 1 else 0
  {
    TimesSplit(a, [last], id);
    assert [last][1..] == [];
  }

  lemma {:induction false} LeavingPut(workers: seq<Worker>, w: nat, p: Worker)
    requires w < |workers|
    ensures Leaving(workers[w := p]) == Leaving(workers) - LeavingOne(workers[w]) + LeavingOne(p)
    ensures Leaving(workers) <= |workers| - 1 + LeavingOne(workers[w])
  {
    LeavingBound(workers[1..]);
    if w == 0 {
      assert workers[w := p][1..] == workers[1..];
    } else {
      assert workers[w := p][1..] == workers[1..][w - 1 := p];
      LeavingPut(workers[1..], w - 1, p);
    }
  }

  lemma {:induction false} HeldPut(workers: seq<Worker>, w: nat, p: Worker, id: nat)
    requires w < |workers|
    ensures Held(workers[w := p], id) == Held(workers, id) - HeldOne(workers[w], id) + HeldOne(p, id)
  {
    if w == 0 {
      assert workers[w := p][1..] == workers[1..];
    } else {
      assert workers[w := p][1..] == workers[1..][w - 1 := p];
      HeldPut(workers[1..], w - 1, p, id);
    }
  }

  lemma {:induction false} LeavingBound(workers: seq<Worker>)
    ensures Leaving(workers) <= |workers|
  {
    if workers != [] {
      LeavingBound(workers[1..]);
    }
  }

  lemma {:induction false} WorksSplit(a: seq<Item>, b: seq<Item>)
    ensures Works(a + b) == Works(a) + Works(b)
  {
    if a == [] {
      assert a + b == b;
    } else {
      assert (a + b)[1..] == a[1..] + b;
      WorksSplit(a[1..], b);
      var first := if a[0].Work? then [a[0].id] else [];
      assert first + (Works(a[1..]) + Works(b)) == (first + Works(a[1..])) + Works(b);
    }
  }

  lemma {:induction false} MarkersSplit(a: seq<Item>, b: seq<Item>)
    ensures MarkersIn(a + b) == MarkersIn(a) + MarkersIn(b)
  {
    if a == [] {
      assert a + b == b;
    } else {
      assert (a + b)[1..] == a[1..] + b;
      MarkersSplit(a[1..], b);
    }
  }

  lemma {:induction false} MarkersCount(n: nat)
    ensures Works(Markers(n)) == [] && MarkersIn(Markers(n)) == n
  {
    if n > 0 {
      assert Markers(n)[1..] == Markers(n - 1);
      MarkersCount(n - 1);
    }
  }

  // ---------------------------------------------------------------- the invariant

  /** No task stands behind a shutdown marker. */
  predicate MarkersLast(queue: seq<Item>) {
    forall i, j :: 0 <= i < j < |queue| && queue[i] == Shutdown ==> queue[j] == Shutdown
  }

  /** Each task started is finished or being run, as often as it was started. */
  ghost predicate Accounted(s: State) {
    forall id :: Times(s.started, id) == Times(s.finished, id) + Held(s.workers, id)
  }

  /** Workers that are about to look into the queue. */
  function Awake(workers: seq<Worker>): nat {
    if workers == [] then 0 else AwakeOne(workers[0]) + Awake(workers[1..])
  }

  function AwakeOne(w: Worker): nat {
    if w == Ready then 1 else 0
  }

  lemma {:induction false} AwakePut(workers: seq<Worker>, w: nat, p: Worker)
    requires w < |workers|
    ensures Awake(workers[w := p]) == Awake(workers) - AwakeOne(workers[w]) + AwakeOne(p)
  {
    if w == 0 {
      assert workers[w := p][1..] == workers[1..];
    } else {
      assert workers[w := p][1..] == workers[1..][w - 1 := p];
      AwakePut(workers[1..], w - 1, p);
    }
  }

  lemma {:induction false} AwakeCounts(workers: seq<Worker>)
    ensures Awake(workers) == multiset(workers)[Ready]
  {
    if workers != [] {
      assert workers == [workers[0]] + workers[1..];
      AwakeCounts(workers[1..]);
    }
  }

  /** While anybody sleeps, there is a worker about to look for every item in the queue. */
  ghost predicate Noticed(s: State) {
    SomeoneWaits(s) ==> |s.queue| <= Awake(s.workers)
  }

  ghost predicate Inv(s: State) {
    && s.accepted == s.started + Works(s.queue)
    && Accounted(s)
    && MarkersLast(s.queue)
    && MarkersIn(s.queue) + Leaving(s.workers) == (if s.running then 0 else |s.workers|)
    && (Leaving(s.workers) > 0 ==> Works(s.queue) == [])
    && (s.workers == [] ==> s.started == [])
    && (!s.running ==> !SomeoneWaits(s))
    && Noticed(s)
  }

  lemma {:induction false} ReadyCounts(workers: seq<Worker>)
    requires forall w :: 0 <= w < |workers| ==> workers[w] in {Ready, Waiting}
    ensures Leaving(workers) == 0 && forall id :: Held(workers, id) == 0
  {
    if workers != [] {
      ReadyCounts(workers[1..]);
    }
  }

  lemma InitialInv(threads: nat)
    ensures Inv(Initial(threads))
  {
    ReadyCounts(Initial(threads).workers);
  }

  lemma {:induction false} WakeCounts(workers: seq<Worker>)
    ensures Leaving(WakeAll(workers)) == Leaving(workers)
    ensures forall id :: Held(WakeAll(workers), id) == Held(workers, id)
  {
    if workers != [] {
      assert WakeAll(workers)[1..] == WakeAll(workers[1..]);
      WakeCounts(workers[1..]);
    }
  }

  /** A step that moves one worker, not to sleep, and starts or finishes no task. */
  lemma MovedAccounted(s: State, t: State, w: nat, p: Worker)
    requires Accounted(s) && w < |s.workers| && t.workers == s.workers[w := p]
    requires t.started == s.started && t.finished == s.finished
    requires forall id :: HeldOne(s.workers[w], id) == HeldOne(p, id)
    ensures Accounted(t)
  {
    forall id ensures Times(t.started, id) == Times(t.finished, id) + Held(t.workers, id) {
      HeldPut(s.workers, w, p, id);
    }
  }

  /** A step that puts nobody to sleep. */
  lemma OnlyAwoken(s: State, t: State, w: nat)
    requires w < |s.workers| == |t.workers| && t.workers == s.workers[w := t.workers[w]] && t.workers[w] != Waiting
    ensures SomeoneWaits(t) ==> SomeoneWaits(s)
  {
    if v :| 0 <= v < |t.workers| && t.workers[v] == Waiting {
      assert s.workers[v] == Waiting;
    }
  }

  lemma ExecuteKeepsInv(s: State, id: nat, wake: nat)
    requires Inv(s) && Enabled(s, Execute(id, wake)) && s.running
    ensures Inv(Apply(s, Execute(id, wake)))
  {
    var t := Apply(s, Execute(id, wake));
    WorksSplit(s.queue, [Work(id)]);
    MarkersSplit(s.queue, [Work(id)]);
    assert [Work(id)][1..] == [];
    NoMarkers(s.queue);
    assert s.started + (Works(s.queue) + [id]) == (s.started + Works(s.queue)) + [id];
    if SomeoneWaits(s) {
      LeavingPut(s.workers, wake, Ready);
      AwakePut(s.workers, wake, Ready);
      MovedAccounted(s, t, wake, Ready);
    } else {
      assert t.workers == s.workers;
    }
  }

  lemma {:induction false} NoMarkers(queue: seq<Item>)
    requires MarkersIn(queue) == 0
    ensures forall i :: 0 <= i < |queue| ==> queue[i].Work?
  {
    if queue != [] {
      NoMarkers(queue[1..]);
    }
  }

  lemma StopKeepsInv(s: State)
    requires Inv(s) && s.running
    ensures Inv(Apply(s, Stop))
  {
    var t := Apply(s, Stop);
    WorksSplit(s.queue, Markers(|s.workers|));
    MarkersSplit(s.queue, Markers(|s.workers|));
    MarkersCount(|s.workers|);
    NoMarkers(s.queue);
    WakeCounts(s.workers);
    assert Works(s.queue) + [] == Works(s.queue);
  }

  lemma LookKeepsInv(s: State, w: nat)
    requires Inv(s) && Enabled(s, Look(w))
    ensures Inv(Apply(s, Look(w)))
  {
    var t := Apply(s, Look(w));
    LeavingPut(s.workers, w, t.workers[w]);
    AwakePut(s.workers, w, t.workers[w]);
    if s.queue == [] {
      MovedAccounted(s, t, w, Waiting);
    } else {
      LookAccounted(s, w);
      if s.queue[0] == Shutdown {
        OnlyMarkers(s.queue[1..]);
      } else {
        var id, rest := s.queue[0].id, Works(s.queue[1..]);
        assert s.started + ([id] + rest) == (s.started + [id]) + rest;
      }
      OnlyAwoken(s, t, w);
    }
  }

  lemma {:induction false} OnlyMarkers(queue: seq<Item>)
    requires forall i :: 0 <= i < |queue| ==> queue[i] == Shutdown
    ensures Works(queue) == []
  {
    if queue != [] {
      OnlyMarkers(queue[1..]);
    }
  }

  lemma LookAccounted(s: State, w: nat)
    requires Accounted(s) && Enabled(s, Look(w)) && s.queue != []
    ensures Accounted(Apply(s, Look(w)))
  {
    var t := Apply(s, Look(w));
    forall id ensures Times(t.started, id) == Times(t.finished, id) + Held(t.workers, id) {
      HeldPut(s.workers, w, t.workers[w], id);
      if s.queue[0].Work? {
        TimesEnd(s.started, s.queue[0].id, id);
      }
    }
  }

  lemma FinishKeepsInv(s: State, w: nat)
    requires Inv(s) && Enabled(s, Finish(w))
    ensures Inv(Apply(s, Finish(w)))
  {
    var t := Apply(s, Finish(w));
    LeavingPut(s.workers, w, t.workers[w]);
    AwakePut(s.workers, w, t.workers[w]);
    OnlyAwoken(s, t, w);
    forall id ensures Times(t.started, id) == Times(t.finished, id) + Held(t.workers, id) {
      HeldPut(s.workers, w, t.workers[w], id);
      if s.workers[w].item.Work? {
        TimesEnd(s.finished, s.workers[w].item.id, id);
      }
    }
  }

  lemma SpuriousKeepsInv(s: State, w: nat)
    requires Inv(s) && Enabled(s, Spurious(w))
    ensures Inv(Apply(s, Spurious(w)))
  {
    var t := Apply(s, Spurious(w));
    LeavingPut(s.workers, w, Ready);
    AwakePut(s.workers, w, Ready);
    MovedAccounted(s, t, w, Ready);
    OnlyAwoken(s, t, w);
  }

  lemma StepKeepsInv(s: State, a: Action)
    requires Inv(s) && Enabled(s, a)
    ensures Inv(Apply(s, a))
  {
    match a
    case Execute(id, wake) => if s.running { ExecuteKeepsInv(s, id, wake); }
    case Stop => if s.running { StopKeepsInv(s); }
    case Look(w) => LookKeepsInv(s, w);
    case Finish(w) => FinishKeepsInv(s, w);
    case Spurious(w) => SpuriousKeepsInv(s, w);
  }

  lemma {:induction false} RunKeepsInv(s: State, steps: seq<Action>, t: State)
    requires Inv(s) && Runs(s, steps, t)
    ensures Inv(t)
    decreases |steps|
  {
    if steps != [] {
      StepKeepsInv(s, steps[0]);
      RunKeepsInv(Apply(s, steps[0]), steps[1..], t);
    }
  }

  lemma ReachableInv(s: State)
    requires Reachable(s)
    ensures Inv(s)
  {
    var threads, steps :| Runs(Initial(threads), steps, s);
    InitialInv(threads);
    RunKeepsInv(Initial(threads), steps, s);
  }

  // ---------------------------------------------------------------- what holds in every run

  /** Tasks are started in the order of their acceptance, each as often as it was accepted. */
  lemma EachTaskOnce(s: State, id: nat)
    requires Reachable(s)
    ensures s.accepted == s.started + Works(s.queue)
    ensures Times(s.accepted, id) == Times(s.finished, id) + Held(s.workers, id) + Times(Works(s.queue), id)
  {
    ReachableInv(s);
    TimesSplit(s.started, Works(s.queue), id);
  }

  /**
    A worker sleeps only while enough others are about to look into the queue to take all that
    is in it; so no task waits behind a busy worker while another worker sleeps.
  */
  lemma WorkIsNoticed(s: State)
    requires Reachable(s) && SomeoneWaits(s)
    ensures s.running && |s.queue| <= multiset(s.workers)[Ready]
  {
    ReachableInv(s);
    AwakeCounts(s.workers);
  }

  /** After shutdown there is a marker for each worker that has not taken one, so none waits any more. */
  lemma MarkersMatchWorkers(s: State)
    requires Reachable(s) && !s.running
    ensures MarkersIn(s.queue) == |s.workers| - Leaving(s.workers)
    ensures forall w :: 0 <= w < |s.workers| ==> s.workers[w] != Waiting
    ensures forall w :: Enabled(s, Look(w)) ==> s.queue != []
  {
    ReachableInv(s);
    forall w | Enabled(s, Look(w)) ensures s.queue != [] {
      LeavingPut(s.workers, w, Ready);
    }
  }

  ghost predicate Joined(s: State) {
    !s.running && forall w :: 0 <= w < |s.workers| ==> s.workers[w] == Exited
  }

  /** Nothing is left in the queue and every accepted task was run to its end, as often as accepted. */
  ghost predicate AllDone(s: State) {
    s.queue == [] && forall id :: Times(s.finished, id) == Times(s.accepted, id)
  }

  lemma {:induction false} ExitedCounts(workers: seq<Worker>)
    requires forall w :: 0 <= w < |workers| ==> workers[w] == Exited
    ensures Leaving(workers) == |workers| && forall id :: Held(workers, id) == 0
  {
    if workers != [] {
      ExitedCounts(workers[1..]);
    }
  }

  lemma {:induction false} EmptyQueue(queue: seq<Item>)
    requires Works(queue) == [] && MarkersIn(queue) == 0
    ensures queue == []
  {
  }

  /**
    When shutdown has joined its threads all accepted work is done, unless the pool has no
    threads at all: then it accepts tasks that nobody ever runs.
  */
  lemma JoinMeansDone(s: State)
    requires Reachable(s) && Joined(s)
    ensures AllDone(s) <==> s.workers != [] || s.accepted == []
  {
    ReachableInv(s);
    ExitedCounts(s.workers);
    if s.workers != [] {
      EmptyQueue(s.queue);
      assert s.started + [] == s.started;
    } else if s.accepted == [] {
      EmptyQueue(s.queue);
    } else {
      assert [] + Works(s.queue) == Works(s.queue);
    }
  }

  lemma NoThreadsNoWork()
    ensures exists s :: Reachable(s) && Joined(s) && s.accepted == [7] && s.finished == []
  {
    var s0 := Initial(0);
    var steps := [Execute(7, 0), Stop];
    assert !SomeoneWaits(s0);
    var s1 := Apply(s0, Execute(7, 0));
    var s2 := Apply(s1, Stop);
    assert steps[1..] == [Stop] && [Stop][1..] == [];
    assert Runs(s1, [Stop], s2);
    assert Runs(s0, steps, s2);
    assert Reachable(s2);
  }

  // ---------------------------------------------------------------- shutdown ends

  /** Steps that the workers still have to take after shutdown. */
  function Remaining(s: State): nat {
    2 * |s.queue| + Busy(s.workers)
  }

  function Busy(workers: seq<Worker>): nat {
    if workers == [] then 0 else (if workers[0].Holding? then 1 else 0) + Busy(workers[1..])
  }

  lemma {:induction false} BusyPut(workers: seq<Worker>, w: nat, p: Worker)
    requires w < |workers|
    ensures Busy(workers[w := p])
         == Busy(workers) - (if workers[w].Holding? then 1 else 0) + (if p.Holding? then 1 else 0)
  {
    if w == 0 {
      assert workers[w := p][1..] == workers[1..];
    } else {
      assert workers[w := p][1..] == workers[1..][w - 1 := p];
      BusyPut(workers[1..], w - 1, p);
    }
  }

  predicate IsWorkerStep(a: Action) {
    a.Look? || a.Finish?
  }

  function WorkerSteps(steps: seq<Action>): nat {
    if steps == [] then 0 else (if IsWorkerStep(steps[0]) then 1 else 0) + WorkerSteps(steps[1..])
  }

  lemma StepUsesRemaining(s: State, a: Action)
    requires Inv(s) && !s.running && Enabled(s, a)
    ensures !Apply(s, a).running
    ensures Remaining(Apply(s, a)) + (if IsWorkerStep(a) then 1 else 0) == Remaining(s)
  {
    match a
    case Look(w) =>
      LeavingPut(s.workers, w, Ready);
      assert s.queue != [];
      BusyPut(s.workers, w, Holding(s.queue[0]));
    case Finish(w) =>
      BusyPut(s.workers, w, Apply(s, a).workers[w]);
    case _ =>
  }

  lemma {:induction false} BusyMeans(workers: seq<Worker>)
    ensures Busy(workers) == 0 <==> forall w :: 0 <= w < |workers| ==> !workers[w].Holding?
  {
    if workers != [] {
      assert forall w :: 0 <= w < |workers| - 1 ==> workers[1..][w] == workers[w + 1];
      BusyMeans(workers[1..]);
    }
  }

  /** Unless there is no worker at all, none of their steps is left exactly when all have exited. */
  lemma NothingRemains(s: State)
    requires Inv(s) && !s.running && s.workers != []
    ensures Joined(s) <==> Remaining(s) == 0
  {
    BusyMeans(s.workers);
    if Joined(s) {
      ExitedCounts(s.workers);
      EmptyQueue(s.queue);
    } else if w :| 0 <= w < |s.workers| && s.workers[w] == Ready {
      LeavingPut(s.workers, w, Ready);
    }
  }

  /** The workers take exactly the steps that are left; while one has not exited, some worker can step. */
  lemma {:induction false} ShutdownEnds(s: State, steps: seq<Action>, t: State)
    requires Inv(s) && !s.running && Runs(s, steps, t)
    ensures WorkerSteps(steps) == Remaining(s) - Remaining(t)
    ensures Joined(t) || exists a :: IsWorkerStep(a) && Enabled(t, a)
    ensures t.workers != [] ==> (Joined(t) <==> Remaining(t) == 0)
    decreases |steps|
  {
    if steps == [] {
      if w :| 0 <= w < |t.workers| && t.workers[w] != Exited {
        assert Enabled(t, if t.workers[w] == Ready then Look(w) else Finish(w));
      }
      if t.workers != [] {
        NothingRemains(t);
      }
    } else {
      StepUsesRemaining(s, steps[0]);
      StepKeepsInv(s, steps[0]);
      ShutdownEnds(Apply(s, steps[0]), steps[1..], t);
    }
  }
}
