/**
  EventExecutor: the loop thread, any number of other threads that hand it work or stop it,
  and the signal that gets it out of a blocking poll.  Every access to shared data is one
  step, so a run is an arbitrary interleaving.
*/
module EventLoop {
  import opened Wrappers

  /** A queued runnable of a spawned task, and whether it came from another executor's thread. */
  datatype Item = Item(task: nat, foreign: bool)

  datatype LoopPc =
    | Away              // outside run()
    | Merging           // about to move the foreign queue over, under the lock
    | Draining          // in the loop over the local queue
    | Running(item: Item)
    | Deciding          // the local queue is empty: about to read the number of running tasks
    | AskingStop        // read zero in run(true): about to read wait_stop_
    | Rechecking        // not leaving yet: about to read wait_stop_ (again)
    | Cleaning          // stopped: cancelling the registered watchers, then reading the number again
    | Blocked           // in the event loop's poll
    | Polling           // woken up, calling the watchers back
    | Leaving           // out of the loop, about to reset wait_stop_

  datatype ThreadPc =
    | Locked(item: Item)  // in a foreign execute(), holding the lock, about to read wait_stop_
    | Pushing(item: Item) // not stopped: about to push
    | Pushed              // about to ask whether a signal is pending
    | Sending             // no signal was pending: about to send one
    | Unlocking
    | StopSet             // in stop(), about to ask whether a signal is pending
    | StopSending

  /**
    `always` is the argument of run().  `live` are the tasks with an Inner, which getRunning()
    counts; `uncompleted` those that have neither completed nor been dropped.  The last six
    fields record history: the tasks spawned, how many they were when the loop last read the
    number of running tasks, the tasks dropped by a stopped execute(), and the runnables.
  */
  datatype State = State(
    pc: LoopPc,
    always: bool,
    queue: seq<Item>,
    foreignQueue: seq<Item>,
    signal: bool,
    stop: bool,
    lock: Option<nat>,
    threads: map<nat, ThreadPc>,
    live: set<nat>,
    uncompleted: set<nat>,
    spawned: seq<nat>,
    read: nat,
    dropped: set<nat>,
    acceptedLocal: seq<Item>,
    acceptedForeign: seq<Item>,
    executed: seq<Item>)

  const INITIAL := State(Away, false, [], [], false, false, None, map[], {}, {}, [], 0, {}, [], [], [])

  datatype Action =
    | Spawn(task: nat)
    | LocalExecute(task: nat)
    | ExecuteBegin(t: nat, task: nat)
    | ExecuteAsk(t: nat)
    | ExecutePush(t: nat)
    | ExecuteCheck(t: nat)
    | ExecuteSend(t: nat)
    | ExecuteEnd(t: nat)
    | StopBegin(t: nat)
    | StopCheck(t: nat)
    | StopSend(t: nat)
    | Enter(always: bool, forget: bool)  // starting the signaler may forget an old signal
    | Merge
    | Pop
    | RunEnd(completed: bool)
    | Drained
    | ReadRunning
    | ReadStop
    | RereadStop
    | Cleaned
    | Wake(event: bool)                  // a watcher's event, or the signal
    | PollEnd
    | ResetStop
    | Destroy(task: nat)                 // the last reference to a completed task's Inner goes

  predicate ThreadAt(s: State, t: nat, pc: ThreadPc) {
    t in s.threads && s.threads[t] == pc
  }

  /** The task has a runnable in a queue. */
  ghost predicate Queued(s: State, task: nat) {
    || (exists i :: 0 <= i < |s.queue| && s.queue[i].task == task)
    || (exists i :: 0 <= i < |s.foreignQueue| && s.foreignQueue[i].task == task)
  }

  predicate Carries(pc: ThreadPc) {
    pc.Locked? || pc.Pushing?
  }

  ghost predicate Carried(s: State, task: nat) {
    exists t :: t in s.threads && Carries(s.threads[t]) && s.threads[t].item.task == task
  }

  /** The task is parked: only then can somebody come by its runnable and hand it in. */
  ghost predicate Parked(s: State, task: nat) {
    !Queued(s, task) && !Carried(s, task) && !(s.pc.Running? && s.pc.item.task == task)
  }

  ghost predicate Enabled(s: State, a: Action) {
    match a
    case Spawn(task) => task !in s.spawned
    case LocalExecute(task) =>
      task in s.uncompleted && Parked(s, task) && (s.pc == Away || s.pc.Running? || s.pc == Cleaning || s.pc == Polling)
    case ExecuteBegin(t, task) => t !in s.threads && s.lock == None && task in s.uncompleted && Parked(s, task)
    case ExecuteAsk(t) => t in s.threads && s.threads[t].Locked?
    case ExecutePush(t) => t in s.threads && s.threads[t].Pushing?
    case ExecuteCheck(t) => ThreadAt(s, t, Pushed)
    case ExecuteSend(t) => ThreadAt(s, t, Sending)
    case ExecuteEnd(t) => ThreadAt(s, t, Unlocking)
    case StopBegin(t) => t !in s.threads
    case StopCheck(t) => ThreadAt(s, t, StopSet)
    case StopSend(t) => ThreadAt(s, t, StopSending)
    case Enter(_, _) => s.pc == Away
    case Merge => s.pc == Merging && s.lock == None
    case Pop => s.pc == Draining && s.queue != []
    case RunEnd(_) => s.pc.Running?
    case Drained => s.pc == Draining && s.queue == []
    case ReadRunning => s.pc == Deciding
    case ReadStop => s.pc == AskingStop
    case RereadStop => s.pc == Rechecking
    case Cleaned => s.pc == Cleaning
    case Wake(event) => s.pc == Blocked && (event || s.signal)
    case PollEnd => s.pc == Polling
    case ResetStop => s.pc == Leaving
    case Destroy(task) => task in s.live && task !in s.uncompleted
  }

  function Move(s: State, t: nat, pc: ThreadPc): State {
    s.(threads := s.threads[t := pc])
  }

  function Return(s: State, t: nat): State {
    s.(threads := s.threads - {t})
  }

  /** execute() refuses the runnable of a stopped loop, and with it the task. */
  function Ask(s: State, t: nat, item: Item): State {
    if s.stop then
      Return(s.(lock := None, uncompleted := s.uncompleted - {item.task}, dropped := s.dropped + {item.task}), t)
    else Move(s, t, Pushing(item))
  }

  function Push(s: State, t: nat, item: Item): State {
    Move(s.(foreignQueue := s.foreignQueue + [item], acceptedForeign := s.acceptedForeign + [item]), t, Pushed)
  }

  ghost function Apply(s: State, a: Action): State
    requires Enabled(s, a)
  {
    match a
    case Spawn(task) =>
      s.(live := s.live + {task}, uncompleted := s.uncompleted + {task}, spawned := s.spawned + [task])
    case LocalExecute(task) =>
      var item := Item(task, false);
      s.(queue := s.queue + [item], acceptedLocal := s.acceptedLocal + [item])
    case ExecuteBegin(t, task) => Move(s.(lock := Some(t)), t, Locked(Item(task, true)))
    case ExecuteAsk(t) => Ask(s, t, s.threads[t].item)
    case ExecutePush(t) => Push(s, t, s.threads[t].item)
    case ExecuteCheck(t) => Move(s, t, if s.signal then Unlocking else Sending)
    case ExecuteSend(t) => Move(s.(signal := true), t, Unlocking)
    case ExecuteEnd(t) => Return(s.(lock := None), t)
    case StopBegin(t) => Move(s.(stop := true), t, StopSet)
    case StopCheck(t) => if s.signal then Return(s, t) else Move(s, t, StopSending)
    case StopSend(t) => Return(s.(signal := true), t)
    case Enter(always, forget) => s.(pc := Merging, always := always, signal := s.signal && !forget)
    case Merge => s.(pc := Draining, queue := s.queue + s.foreignQueue, foreignQueue := [])
    case Pop => s.(pc := Running(s.queue[0]), queue := s.queue[1..])
    case RunEnd(completed) =>
      var t := s.(pc := Draining, executed := s.executed + [s.pc.item]);
      if completed then t.(uncompleted := s.uncompleted - {s.pc.item.task}) else t
    case Drained => s.(pc := Deciding)
    case ReadRunning =>
      s.(read := |s.spawned|, pc := if s.live != {} then Rechecking else if s.always then AskingStop else Leaving)
    case ReadStop => s.(pc := if s.stop then Leaving else Rechecking)
    case RereadStop => s.(pc := if s.stop then Cleaning else Blocked)
    case Cleaned => s.(read := |s.spawned|, pc := if s.live == {} then Leaving else Merging)
    case Wake(_) => s.(pc := Polling, signal := false)
    case PollEnd => s.(pc := Merging)
    case ResetStop => s.(pc := Away, stop := false)
    case Destroy(task) => s.(live := s.live - {task})
  }

  ghost predicate Runs(s: State, steps: seq<Action>, t: State)
    decreases |steps|
  {
    if steps == [] then s == t
    else Enabled(s, steps[0]) && Runs(Apply(s, steps[0]), steps[1..], t)
  }

  ghost predicate Reachable(t: State) {
    exists steps :: Runs(INITIAL, steps, t)
  }

  // ---------------------------------------------------------------- order

  /** The items of one origin, in order. */
  function Only(foreign: bool, items: seq<Item>): seq<Item> {
    if items == [] then []
    else (if items[0].foreign == foreign then [items[0]] else []) + Only(foreign, items[1..])
  }

  lemma {:induction false} OnlySplit(foreign: bool, a: seq<Item>, b: seq<Item>)
    ensures Only(foreign, a + b) == Only(foreign, a) + Only(foreign, b)
  {
    if a == [] {
      assert a + b == b;
    } else {
      assert (a + b)[1..] == a[1..] + b;
      OnlySplit(foreign, a[1..], b);
      var first := if a[0].foreign == foreign then [a[0]] else [];
      assert first + (Only(foreign, a[1..]) + Only(foreign, b)) == (first + Only(foreign, a[1..])) + Only(foreign, b);
    }
  }

  lemma {:induction false} OnlyAll(foreign: bool, items: seq<Item>)
    requires forall i :: 0 <= i < |items| ==> items[i].foreign == foreign
    ensures Only(foreign, items) == items && Only(!foreign, items) == []
  {
    if items != [] {
      OnlyAll(foreign, items[1..]);
    }
  }

  /** Everything that is or was in the loop's own hands, in the order in which it runs. */
  function Taken(s: State): seq<Item> {
    s.executed + ((if s.pc.Running? then [s.pc.item] else []) + s.queue)
  }

  ghost predicate Ordered(s: State) {
    && (forall i :: 0 <= i < |s.foreignQueue| ==> s.foreignQueue[i].foreign)
    && Only(false, Taken(s)) == s.acceptedLocal
    && Only(true, Taken(s)) + s.foreignQueue == s.acceptedForeign
  }

  // ---------------------------------------------------------------- signals and tasks

  /** The lock is held exactly by the thread inside a foreign execute(). */
  ghost predicate LockOk(s: State) {
    && (s.lock.Some? ==> s.lock.value in s.threads)
    && (forall t :: t in s.threads ==>
          ((s.lock == Some(t)) <==> (Carries(s.threads[t]) || s.threads[t] in {Pushed, Sending, Unlocking})))
    && (forall t :: t in s.threads && Carries(s.threads[t]) ==> s.threads[t].item.foreign)
  }

  /** A thread is about to make sure that a signal is pending. */
  predicate ExecuteSignals(s: State) {
    s.lock.Some? && (ThreadAt(s, s.lock.value, Pushed) || ThreadAt(s, s.lock.value, Sending))
  }

  ghost predicate StopSignals(s: State) {
    exists t :: ThreadAt(s, t, StopSet) || ThreadAt(s, t, StopSending)
  }

  /** The loop merges the queues before it can block again. */
  predicate WillMerge(pc: LoopPc) {
    pc in {Away, Merging, Polling, Leaving}
  }

  ghost predicate SignalOk(s: State) {
    && (s.foreignQueue != [] && !WillMerge(s.pc) ==> s.signal || ExecuteSignals(s))
    && (s.stop && s.pc == Blocked ==> s.signal || StopSignals(s))
  }

  /** A task is in one place at a time, as its wake-up protocol makes sure, and is not completed. */
  ghost predicate TasksOk(s: State) {
    && s.uncompleted <= s.live
    && (forall x :: x in s.live || x in s.dropped ==> x in s.spawned)
    && s.dropped !! s.uncompleted
    && (s.pc in {Deciding, AskingStop, Rechecking, Blocked, Leaving} ==> s.queue == [])
    && (forall i :: 0 <= i < |s.queue| ==> s.queue[i].task in s.uncompleted)
    && (forall i :: 0 <= i < |s.foreignQueue| ==> s.foreignQueue[i].task in s.uncompleted)
    && (s.pc.Running? ==> s.pc.item.task in s.uncompleted && !Queued(s, s.pc.item.task))
    && (forall t :: t in s.threads && Carries(s.threads[t]) ==>
          var task := s.threads[t].item.task;
          task in s.uncompleted && !Queued(s, task) && !(s.pc.Running? && s.pc.item.task == task))
    && Distinct(s.queue + s.foreignQueue)
  }

  predicate Distinct(items: seq<Item>) {
    forall i, j :: 0 <= i < j < |items| ==> items[i].task != items[j].task
  }

  /** Once zero was read, what is uncompleted was spawned after that. */
  ghost predicate ReadOk(s: State) {
    && s.read <= |s.spawned|
    && (s.pc in {AskingStop, Leaving} ==>
          forall x :: x in s.uncompleted <==> x in s.spawned[s.read..] && x !in s.dropped)
  }

  ghost predicate Inv(s: State) {
    Ordered(s) && LockOk(s) && SignalOk(s) && TasksOk(s) && ReadOk(s)
  }

  lemma InitialInv()
    ensures Inv(INITIAL)
  {
  }

  // ---------------------------------------------------------------- every step keeps each part

  lemma LocalExecuteKeepsOrder(s: State, task: nat)
    requires Ordered(s) && Enabled(s, LocalExecute(task))
    ensures Ordered(Apply(s, LocalExecute(task)))
  {
    var t, item := Apply(s, LocalExecute(task)), [Item(task, false)];
    assert Taken(t) == Taken(s) + item;
    OnlySplit(true, Taken(s), item);
    OnlySplit(false, Taken(s), item);
    OnlyAll(false, item);
    assert Only(true, Taken(s)) + [] == Only(true, Taken(s));
  }

  lemma MergeKeepsOrder(s: State)
    requires Ordered(s) && Enabled(s, Merge)
    ensures Ordered(Apply(s, Merge))
  {
    var t := Apply(s, Merge);
    assert Taken(t) == Taken(s) + s.foreignQueue;
    OnlySplit(true, Taken(s), s.foreignQueue);
    OnlySplit(false, Taken(s), s.foreignQueue);
    OnlyAll(true, s.foreignQueue);
    assert Only(false, Taken(s)) + [] == Only(false, Taken(s));
    assert Only(true, Taken(t)) + [] == Only(true, Taken(t));
  }

  lemma PoppedInOrder(queue: seq<Item>)
    requires queue != []
    ensures [] + queue == [queue[0]] + queue[1..]
  {
  }

  lemma RunInOrder(executed: seq<Item>, item: Item, queue: seq<Item>)
    ensures executed + ([item] + queue) == (executed + [item]) + ([] + queue)
  {
  }

  /** Every other step leaves the loop's items in their order. */
  lemma TakenIsKept(s: State, a: Action)
    requires Enabled(s, a) && !a.LocalExecute? && !a.Merge?
    ensures Taken(Apply(s, a)) == Taken(s)
  {
    var t := Apply(s, a);
    if a.Pop? {
      PoppedInOrder(s.queue);
    } else if a.RunEnd? {
      RunInOrder(s.executed, s.pc.item, s.queue);
    } else {
      assert t.executed == s.executed && t.queue == s.queue;
      assert t.pc == s.pc || (!t.pc.Running? && !s.pc.Running?);
    }
  }

  lemma StepKeepsOrder(s: State, a: Action)
    requires Ordered(s) && LockOk(s) && Enabled(s, a)
    ensures Ordered(Apply(s, a))
  {
    if a.LocalExecute? {
      LocalExecuteKeepsOrder(s, a.task);
    } else if a.Merge? {
      MergeKeepsOrder(s);
    } else {
      TakenIsKept(s, a);
      if a.ExecutePush? {
        var item := s.threads[a.t].item;
        assert Only(true, Taken(s)) + (s.foreignQueue + [item]) == (Only(true, Taken(s)) + s.foreignQueue) + [item];
      }
    }
  }

  lemma ExecuteKeepsLock(s: State, a: Action)
    requires LockOk(s) && Enabled(s, a)
    requires a.ExecuteBegin? || a.ExecuteAsk? || a.ExecutePush? || a.ExecuteCheck? || a.ExecuteSend? || a.ExecuteEnd?
    ensures LockOk(Apply(s, a))
  {
  }

  lemma StepKeepsLock(s: State, a: Action)
    requires LockOk(s) && Enabled(s, a)
    ensures LockOk(Apply(s, a))
  {
    if a.ExecuteBegin? || a.ExecuteAsk? || a.ExecutePush? || a.ExecuteCheck? || a.ExecuteSend? || a.ExecuteEnd? {
      ExecuteKeepsLock(s, a);
    } else if !a.StopBegin? && !a.StopCheck? && !a.StopSend? {
      assert Apply(s, a).lock == s.lock && Apply(s, a).threads == s.threads;
    }
  }

  lemma StepKeepsWorkSignal(s: State, a: Action)
    requires SignalOk(s) && LockOk(s) && Enabled(s, a)
    ensures var t := Apply(s, a);
            t.foreignQueue != [] && !WillMerge(t.pc) ==> t.signal || ExecuteSignals(t)
  {
  }

  lemma StepKeepsStopSignal(s: State, a: Action)
    requires SignalOk(s) && Enabled(s, a)
    ensures var t := Apply(s, a);
            t.stop && t.pc == Blocked ==> t.signal || StopSignals(t)
  {
    var t := Apply(s, a);
    if a.StopBegin? {
      assert ThreadAt(t, a.t, StopSet);
    } else if a.StopCheck? {
      assert !s.signal ==> ThreadAt(t, a.t, StopSending);
    } else if StopSignals(s) && !a.StopSend? {
      var w :| ThreadAt(s, w, StopSet) || ThreadAt(s, w, StopSending);
      assert ThreadAt(t, w, StopSet) || ThreadAt(t, w, StopSending);
    }
  }

  lemma StepKeepsSignal(s: State, a: Action)
    requires SignalOk(s) && LockOk(s) && Enabled(s, a)
    ensures SignalOk(Apply(s, a))
  {
    StepKeepsWorkSignal(s, a);
    StepKeepsStopSignal(s, a);
  }

  lemma MergeKeepsTasks(s: State)
    requires TasksOk(s) && Enabled(s, Merge)
    ensures TasksOk(Apply(s, Merge))
  {
    var t := Apply(s, Merge);
    assert t.queue + t.foreignQueue == s.queue + s.foreignQueue;
    forall task | Queued(t, task) ensures Queued(s, task) {
      var i :| 0 <= i < |t.queue| && t.queue[i].task == task;
      if i >= |s.queue| {
        assert s.foreignQueue[i - |s.queue|].task == task;
      }
    }
  }

  lemma PopKeepsTasks(s: State)
    requires TasksOk(s) && Enabled(s, Pop)
    ensures TasksOk(Apply(s, Pop))
  {
    var t := Apply(s, Pop);
    var all, less := s.queue + s.foreignQueue, t.queue + t.foreignQueue;
    assert less == all[1..] && all[0] == s.queue[0];
    forall task | Queued(t, task) ensures Queued(s, task) && task != s.queue[0].task {
      if i :| 0 <= i < |t.queue| && t.queue[i].task == task {
        assert all[i + 1].task == task && s.queue[i + 1].task == task;
      } else {
        var j :| 0 <= j < |t.foreignQueue| && t.foreignQueue[j].task == task;
        assert all[|s.queue| + j].task == task;
      }
    }
    assert Queued(s, s.queue[0].task);
  }

  lemma NotQueued(s: State, task: nat)
    requires !Queued(s, task)
    ensures forall i :: 0 <= i < |s.queue| ==> s.queue[i].task != task
    ensures forall i :: 0 <= i < |s.foreignQueue| ==> s.foreignQueue[i].task != task
  {
  }

  lemma QueueingKeepsTasks(s: State, a: Action)
    requires TasksOk(s) && LockOk(s) && Enabled(s, a) && (a.LocalExecute? || a.ExecutePush?)
    ensures TasksOk(Apply(s, a))
  {
    var t := Apply(s, a);
    var task := if a.LocalExecute? then a.task else s.threads[a.t].item.task;
    NotQueued(s, task);
    DistinctInserted(s, t, task);
    forall x | Queued(t, x) ensures Queued(s, x) || x == task {
    }
  }

  lemma DistinctInserted(s: State, t: State, task: nat)
    requires Distinct(s.queue + s.foreignQueue)
    requires forall i :: 0 <= i < |s.queue| ==> s.queue[i].task != task
    requires forall i :: 0 <= i < |s.foreignQueue| ==> s.foreignQueue[i].task != task
    requires (t.queue == s.queue || exists f :: t.queue == s.queue + [Item(task, f)])
    requires (t.foreignQueue == s.foreignQueue || exists f :: t.foreignQueue == s.foreignQueue + [Item(task, f)])
    requires t.queue == s.queue || t.foreignQueue == s.foreignQueue
    ensures Distinct(t.queue + t.foreignQueue)
  {
    var all, more := s.queue + s.foreignQueue, t.queue + t.foreignQueue;
    forall i, j | 0 <= i < j < |more| ensures more[i].task != more[j].task {
      var k := if i < |s.queue| then i else if |t.queue| == |s.queue| then i else i - 1;
      var l := if j < |s.queue| then j else if |t.queue| == |s.queue| then j else j - 1;
      if more[i].task != task && more[j].task != task {
        assert all[k] == more[i] && all[l] == more[j];
      }
    }
  }

  /** A run that completes its task. */
  lemma RunEndKeepsTasks(s: State, completed: bool)
    requires TasksOk(s) && Enabled(s, RunEnd(completed))
    ensures TasksOk(Apply(s, RunEnd(completed)))
  {
    var t, task := Apply(s, RunEnd(completed)), s.pc.item.task;
    assert forall x :: Queued(t, x) <==> Queued(s, x);
    NotQueued(s, task);
  }

  /** A step of another thread that moves no runnable. */
  lemma ThreadStepKeepsTasks(s: State, a: Action)
    requires TasksOk(s) && LockOk(s) && Enabled(s, a)
    requires a.ExecuteCheck? || a.ExecuteSend? || a.ExecuteEnd? || a.StopBegin? || a.StopCheck? || a.StopSend?
    ensures TasksOk(Apply(s, a))
  {
    var t := Apply(s, a);
    assert forall task :: Queued(t, task) <==> Queued(s, task);
    assert forall w :: w in t.threads && Carries(t.threads[w]) ==> w in s.threads && s.threads[w] == t.threads[w];
  }

  /** A runnable is brought along, and refused or not. */
  lemma CarryingKeepsTasks(s: State, a: Action)
    requires TasksOk(s) && LockOk(s) && Enabled(s, a) && (a.ExecuteBegin? || a.ExecuteAsk?)
    ensures TasksOk(Apply(s, a))
  {
    var t := Apply(s, a);
    assert forall task :: Queued(t, task) <==> Queued(s, task);
    var task := if a.ExecuteBegin? then a.task else s.threads[a.t].item.task;
    NotQueued(s, task);
  }

  /** The loop's own steps that move no runnable. */
  predicate IsLoopStep(a: Action) {
    || a.Enter? || a.Drained? || a.ReadRunning? || a.ReadStop? || a.RereadStop? || a.Cleaned?
    || a.Wake? || a.PollEnd? || a.ResetStop?
  }

  lemma LoopStepKeepsTasks(s: State, a: Action)
    requires TasksOk(s) && Enabled(s, a) && IsLoopStep(a)
    ensures TasksOk(Apply(s, a))
  {
    QueuedKeepsLive(s);
    ControlKeepsTasks(s, Apply(s, a));
  }

  lemma ControlKeepsTasks(s: State, t: State)
    requires TasksOk(s) && !s.pc.Running? && !t.pc.Running?
    requires t == s.(pc := t.pc, always := t.always, signal := t.signal, stop := t.stop, read := t.read)
    requires t.pc in {Deciding, AskingStop, Rechecking, Blocked, Leaving} ==> s.queue == []
    ensures TasksOk(t)
  {
    assert forall task :: Queued(t, task) <==> Queued(s, task);
  }

  /** The beginning and the end of a task's life. */
  lemma LifeKeepsTasks(s: State, a: Action)
    requires TasksOk(s) && Enabled(s, a) && (a.Spawn? || a.Destroy?)
    ensures TasksOk(Apply(s, a))
  {
    assert forall task :: Queued(Apply(s, a), task) <==> Queued(s, task);
  }

  lemma StepKeepsTasks(s: State, a: Action)
    requires TasksOk(s) && LockOk(s) && Enabled(s, a)
    ensures TasksOk(Apply(s, a))
  {
    if a.Merge? {
      MergeKeepsTasks(s);
    } else if a.Pop? {
      PopKeepsTasks(s);
    } else if a.RunEnd? {
      RunEndKeepsTasks(s, a.completed);
    } else if a.LocalExecute? || a.ExecutePush? {
      QueueingKeepsTasks(s, a);
    } else if a.Spawn? || a.Destroy? {
      LifeKeepsTasks(s, a);
    } else if IsLoopStep(a) {
      LoopStepKeepsTasks(s, a);
    } else if a.ExecuteBegin? || a.ExecuteAsk? {
      CarryingKeepsTasks(s, a);
    } else {
      ThreadStepKeepsTasks(s, a);
    }
  }

  lemma StepKeepsRead(s: State, a: Action)
    requires Inv(s) && Enabled(s, a)
    ensures ReadOk(Apply(s, a))
  {
    var t := Apply(s, a);
    if a.Spawn? {
      assert t.spawned[t.read..] == s.spawned[s.read..] + [a.task];
    } else if a.ReadRunning? || a.Cleaned? {
      assert t.spawned[t.read..] == [];
    } else if a.ExecuteAsk? {
      assert s.threads[a.t].item.task in s.uncompleted;
    }
  }

  lemma StepKeepsInv(s: State, a: Action)
    requires Inv(s) && Enabled(s, a)
    ensures Inv(Apply(s, a))
  {
    StepKeepsOrder(s, a);
    StepKeepsLock(s, a);
    StepKeepsSignal(s, a);
    StepKeepsTasks(s, a);
    StepKeepsRead(s, a);
  }

  lemma {:induction false} RunKeepsInv(s: State, steps: seq<Action>, t: State)
    requires Inv(s) && Runs(s, steps, t)
    ensures Inv(t)
    decreases |steps|
  {
    if steps != [] {
      StepKeepsInv(s, steps[0]);
      RunKeepsInv(Apply(s, steps[0]), steps[1..], t);
    }
  }

  lemma ReachableInv(s: State)
    requires Reachable(s)
    ensures Inv(s)
  {
    var steps :| Runs(INITIAL, steps, s);
    InitialInv();
    RunKeepsInv(INITIAL, steps, s);
  }

  // ---------------------------------------------------------------- what holds in every run

  /** Each accepted runnable is run once, in the order of its queue: what is not run yet is still queued. */
  lemma OnceAndInOrder(s: State)
    requires Reachable(s)
    ensures Only(false, Taken(s)) == s.acceptedLocal
    ensures Only(true, Taken(s)) + s.foreignQueue == s.acceptedForeign
  {
    ReachableInv(s);
  }

  /** The loop never sleeps over work: while it blocks, a waiting runnable has a signal or one on the way. */
  lemma NeverSleepsOverWork(s: State)
    requires Reachable(s) && s.pc == Blocked
    ensures s.queue == []
    ensures s.foreignQueue != [] ==> s.signal || ExecuteSignals(s)
    ensures s.foreignQueue != [] && s.lock == None ==> Enabled(s, Wake(false))
  {
    ReachableInv(s);
  }

  lemma QueuedKeepsLive(s: State)
    requires TasksOk(s)
    ensures s.queue != [] || s.foreignQueue != [] ==> s.uncompleted != {} && s.live != {}
  {
    if s.queue != [] {
      assert s.queue[0].task in s.uncompleted;
    } else if s.foreignQueue != [] {
      assert s.foreignQueue[0].task in s.uncompleted;
    }
  }

  /** Every task spawned has completed or was refused, and every runnable accepted was run. */
  ghost predicate AllDone(s: State) {
    && s.uncompleted == {} && s.queue == [] && s.foreignQueue == []
    && Only(false, s.executed) == s.acceptedLocal && Only(true, s.executed) == s.acceptedForeign
  }

  lemma NothingQueued(s: State)
    requires Inv(s) && s.queue == [] && s.foreignQueue == [] && !s.pc.Running?
    ensures Only(false, s.executed) == s.acceptedLocal && Only(true, s.executed) == s.acceptedForeign
  {
    assert Taken(s) == s.executed;
    assert Only(true, Taken(s)) + [] == Only(true, Taken(s));
  }

  /** When the loop reads that no task is running, everything is done; it leaves only after such a read. */
  lemma ZeroMeansDone(s: State, a: Action)
    requires Reachable(s) && Enabled(s, a) && (a == ReadRunning || a == Cleaned) && s.live == {}
    ensures AllDone(s)
  {
    ReachableInv(s);
    QueuedKeepsLive(s);
    NothingQueued(s);
  }

  /**
    When run() leaves the loop the local queue is empty.  Everything is done if and only if
    every task spawned after the read of getRunning() that let it leave has been refused; in
    particular if none was.
  */
  lemma LeavesOnlyWhenDone(s: State)
    requires Reachable(s) && s.pc == Leaving
    ensures s.queue == [] && s.read <= |s.spawned|
    ensures AllDone(s) <==> forall x :: x in s.spawned[s.read..] ==> x in s.dropped
  {
    ReachableInv(s);
    QueuedKeepsLive(s);
    if forall x :: x in s.spawned[s.read..] ==> x in s.dropped {
      assert s.uncompleted == {};
      NothingQueued(s);
    }
  }

  lemma {:induction false} RunsJoin(s: State, steps: seq<Action>, t: State, more: seq<Action>, u: State)
    requires Runs(s, steps, t) && Runs(t, more, u)
    ensures Runs(s, steps + more, u)
    decreases |steps|
  {
    if steps == [] {
      assert steps + more == more;
    } else {
      assert (steps + more)[1..] == steps[1..] + more;
      RunsJoin(Apply(s, steps[0]), steps[1..], t, more, u);
    }
  }

  lemma RunsOne(s: State, a: Action, t: State)
    requires Enabled(s, a) && t == Apply(s, a)
    ensures Runs(s, [a], t)
  {
    assert [a][1..] == [];
  }

  lemma ReachableOn(s: State, a: Action, t: State)
    requires Reachable(s) && Enabled(s, a) && t == Apply(s, a)
    ensures Reachable(t)
  {
    var steps :| Runs(INITIAL, steps, s);
    RunsOne(s, a, t);
    RunsJoin(INITIAL, steps, s, [a], t);
  }

  /** A loop that was given nothing, behind its read of getRunning(). */
  function FirstRead(always: bool): State {
    INITIAL.(pc := if always then AskingStop else Leaving, always := always)
  }

  lemma FirstReadIsReachable(always: bool)
    ensures Reachable(FirstRead(always))
  {
    assert Runs(INITIAL, [], INITIAL);
    var s := INITIAL.(always := always);
    ReachableOn(INITIAL, Enter(always, false), s.(pc := Merging));
    ReachableOn(s.(pc := Merging), Merge, s.(pc := Draining));
    ReachableOn(s.(pc := Draining), Drained, s.(pc := Deciding));
    ReachableOn(s.(pc := Deciding), ReadRunning, FirstRead(always));
  }

  /** Then a task is spawned, and thread 1 hands it in. */
  function HandedIn(task: nat): State {
    var item := Item(task, true);
    FirstRead(true).(live := {task}, uncompleted := {task}, spawned := [task], lock := Some(1),
                     threads := map[1 := Pushed], foreignQueue := [item], acceptedForeign := [item])
  }

  lemma HandedInIsReachable(task: nat)
    ensures Reachable(HandedIn(task))
  {
    FirstReadIsReachable(true);
    var s, item := FirstRead(true), Item(task, true);
    var s1 := s.(live := {task}, uncompleted := {task}, spawned := [task]);
    assert {} + {task} == {task} && [] + [task] == [task] && [] + [item] == [item];
    ReachableOn(s, Spawn(task), s1);
    var s2 := s1.(lock := Some(1), threads := map[1 := Locked(item)]);
    assert Parked(s1, task);
    ReachableOn(s1, ExecuteBegin(1, task), s2);
    var s3 := s2.(threads := map[1 := Pushing(item)]);
    assert map[1 := Locked(item)][1 := Pushing(item)] == s3.threads;
    ReachableOn(s2, ExecuteAsk(1), s3);
    assert map[1 := Pushing(item)][1 := Pushed] == map[1 := Pushed];
    ReachableOn(s3, ExecutePush(1), HandedIn(task));
  }

  /**
    So run(true) can return over an accepted runnable: it reads that nothing is running, a task
    is spawned and handed in, the loop is stopped, and it reads that.
  */
  lemma LeavesOverWork()
    ensures exists s :: Reachable(s) && s.pc == Away && s.always && s.uncompleted == {7}
                     && s.foreignQueue == s.acceptedForeign == [Item(7, true)] && s.executed == []
  {
    HandedInIsReachable(7);
    var s := HandedIn(7);
    var s1 := s.(stop := true, threads := s.threads[2 := StopSet]);
    ReachableOn(s, StopBegin(2), s1);
    ReachableOn(s1, ReadStop, s1.(pc := Leaving));
    var t := s1.(pc := Away, stop := false);
    ReachableOn(s1.(pc := Leaving), ResetStop, t);
    assert t.uncompleted == {7} && t.foreignQueue == [Item(7, true)];
  }

  // ---------------------------------------------------------------- stop requests

  /** Whether a stop() has set the flag since run() last reset it. */
  function Requested(stop: bool, steps: seq<Action>): bool
    decreases |steps|
  {
    if steps == [] then stop
    else Requested(if steps[0].StopBegin? then true else if steps[0].ResetStop? then false else stop, steps[1..])
  }

  lemma {:induction false} FlagIsRequest(s: State, steps: seq<Action>, t: State)
    requires Runs(s, steps, t)
    ensures t.stop == Requested(s.stop, steps)
    decreases |steps|
  {
    if steps != [] {
      FlagIsRequest(Apply(s, steps[0]), steps[1..], t);
    }
  }

  /** The loop does not sleep over a request to stop that came after its last reset of the flag. */
  lemma NeverSleepsOverStop(steps: seq<Action>, s: State)
    requires Runs(INITIAL, steps, s) && s.pc == Blocked && Requested(false, steps)
    ensures s.signal || StopSignals(s)
  {
    FlagIsRequest(INITIAL, steps, s);
    ReachableInv(s);
  }

  /**
    A request that came before that reset is forgotten, even if run() had not returned when it
    was made: the next run(true) can sleep with nobody and nothing to wake it.
  */
  lemma LateStopIsErased()
    ensures Reachable(FirstRead(false)) && FirstRead(false).pc == Leaving
    ensures exists steps, t :: Runs(FirstRead(false), [StopBegin(2)] + steps, t) && AsleepForGood(t)
  {
    FirstReadIsReachable(false);
    var s, stopping := FirstRead(false), FirstRead(false).(stop := true, threads := map[2 := StopSet]);
    var back := INITIAL.(signal := true);
    var asleep := INITIAL.(pc := Blocked, always := true);
    RunsOne(s, StopBegin(2), stopping);
    var steps := StopThenSleep(stopping, back, asleep);
    RunsJoin(s, [StopBegin(2)], stopping, steps, asleep);
    assert AsleepForGood(asleep);
  }

  lemma StopThenSleep(s: State, back: State, t: State) returns (steps: seq<Action>)
    requires s == INITIAL.(pc := Leaving, stop := true, threads := map[2 := StopSet])
    requires back == INITIAL.(signal := true) && t == INITIAL.(pc := Blocked, always := true)
    ensures Runs(s, steps, t)
  {
    var first := [StopCheck(2), StopSend(2), ResetStop];
    StopReturns(s, back);
    NextRunSleeps(back, t);
    RunsJoin(s, first, back, NEXT_RUN, t);
    steps := first + NEXT_RUN;
  }

  /** In run(true), with no signal pending and no thread about to send one. */
  predicate AsleepForGood(s: State) {
    s.pc == Blocked && s.always && !s.signal && s.threads == map[]
  }

  const NEXT_RUN: seq<Action> := [Enter(true, true), Merge, Drained] + [ReadRunning, ReadStop, RereadStop]

  lemma StopReturns(s: State, t: State)
    requires s == INITIAL.(pc := Leaving, stop := true, threads := map[2 := StopSet]) && t == INITIAL.(signal := true)
    ensures Runs(s, [StopCheck(2), StopSend(2), ResetStop], t)
  {
    var s1 := s.(threads := map[2 := StopSending]);
    assert map[2 := StopSet][2 := StopSending] == s1.threads && s1.threads - {2} == map[];
    RunsThree(s, StopCheck(2), s1, StopSend(2), s1.(signal := true, threads := map[]), ResetStop, t);
  }

  lemma NextRunSleeps(s: State, t: State)
    requires s == INITIAL.(signal := true) && t == INITIAL.(pc := Blocked, always := true)
    ensures Runs(s, NEXT_RUN, t)
  {
    var u := INITIAL.(pc := Deciding, always := true);
    NextRunDrains(s, u);
    NothingToDo(u, t);
    RunsJoin(s, [Enter(true, true), Merge, Drained], u, [ReadRunning, ReadStop, RereadStop], t);
  }

  lemma NextRunDrains(s: State, t: State)
    requires s == INITIAL.(signal := true) && t == INITIAL.(pc := Deciding, always := true)
    ensures Runs(s, [Enter(true, true), Merge, Drained], t)
  {
    assert Apply(t.(pc := Merging), Merge) == t.(pc := Draining);
    RunsThree(s, Enter(true, true), t.(pc := Merging), Merge, t.(pc := Draining), Drained, t);
  }

  lemma NothingToDo(s: State, t: State)
    requires s == INITIAL.(pc := Deciding, always := true) && t == s.(pc := Blocked)
    ensures Runs(s, [ReadRunning, ReadStop, RereadStop], t)
  {
    RunsThree(s, ReadRunning, s.(pc := AskingStop), ReadStop, s.(pc := Rechecking), RereadStop, t);
  }

  lemma RunsThree(s: State, a: Action, s1: State, b: Action, s2: State, c: Action, t: State)
    requires Enabled(s, a) && s1 == Apply(s, a) && Enabled(s1, b) && s2 == Apply(s1, b)
    requires Enabled(s2, c) && t == Apply(s2, c)
    ensures Runs(s, [a, b, c], t)
  {
    assert [a, b, c][1..] == [b, c] && [b, c][1..] == [c];
    RunsOne(s2, c, t);
    assert Runs(s1, [b, c], t);
  }

  // ---------------------------------------------------------------- what the steps tell

  /** What a run has spawned, accepted, refused and ended, as its steps alone tell it. */
  datatype Tale = Tale(
    stop: bool,
    handing: nat,         // the task of the latest foreign execute()
    spawned: seq<nat>,
    destroyed: set<nat>,
    refused: set<nat>,
    local: seq<Item>,
    foreign: seq<Item>,
    ends: seq<bool>)      // of each run of a runnable, whether it completed the task

  const OPENING := Tale(false, 0, [], {}, {}, [], [], [])

  function Told(h: Tale, a: Action): Tale {
    match a
    case Spawn(task) => h.(spawned := h.spawned + [task])
    case LocalExecute(task) => h.(local := h.local + [Item(task, false)])
    case ExecuteBegin(_, task) => h.(handing := task)
    case ExecuteAsk(_) => if h.stop then h.(refused := h.refused + {h.handing}) else h
    case ExecutePush(_) => h.(foreign := h.foreign + [Item(h.handing, true)])
    case StopBegin(_) => h.(stop := true)
    case ResetStop => h.(stop := false)
    case RunEnd(completed) => h.(ends := h.ends + [completed])
    case Destroy(task) => h.(destroyed := h.destroyed + {task})
    case _ => h
  }

  function ToldAll(h: Tale, steps: seq<Action>): Tale
    decreases |steps|
  {
    if steps == [] then h else ToldAll(Told(h, steps[0]), steps[1..])
  }

  /** The task was completed by one of the runs that ended. */
  ghost predicate Completed(executed: seq<Item>, ends: seq<bool>, task: nat) {
    exists k :: 0 <= k < |executed| == |ends| && ends[k] && executed[k].task == task
  }

  ghost predicate HandsMatch(s: State, h: Tale) {
    && s.stop == h.stop && s.dropped == h.refused
    && s.acceptedLocal == h.local && s.acceptedForeign == h.foreign
    && forall t :: t in s.threads && Carries(s.threads[t]) ==> s.threads[t].item == Item(h.handing, true)
  }

  ghost predicate TasksMatch(s: State, h: Tale) {
    && s.spawned == h.spawned && |s.executed| == |h.ends|
    && (forall x :: x in s.live <==> x in h.spawned && x !in h.destroyed)
    && (forall x :: x in s.uncompleted <==> x in h.spawned && x !in h.refused && !Completed(s.executed, h.ends, x))
    && (forall x :: x in h.destroyed || Completed(s.executed, h.ends, x) ==> x in h.spawned)
  }

  predicate HandsOver(a: Action) {
    a.ExecuteBegin? || a.ExecuteAsk? || a.ExecutePush?
  }

  lemma HandingOverMatches(s: State, a: Action, h: Tale)
    requires LockOk(s) && HandsMatch(s, h) && Enabled(s, a) && HandsOver(a)
    ensures HandsMatch(Apply(s, a), Told(h, a))
  {
    if a.ExecuteBegin? {
      assert forall t :: t in s.threads ==> !Carries(s.threads[t]);
    }
  }

  lemma HandsStepMatches(s: State, a: Action, h: Tale)
    requires LockOk(s) && HandsMatch(s, h) && Enabled(s, a)
    ensures HandsMatch(Apply(s, a), Told(h, a))
  {
    if HandsOver(a) {
      HandingOverMatches(s, a, h);
    } else {
      var s' := Apply(s, a);
      assert forall t :: t in s'.threads && Carries(s'.threads[t]) ==> t in s.threads && s'.threads[t] == s.threads[t];
    }
  }

  lemma RunEndMatches(s: State, completed: bool, h: Tale)
    requires TasksOk(s) && TasksMatch(s, h) && Enabled(s, RunEnd(completed))
    ensures TasksMatch(Apply(s, RunEnd(completed)), Told(h, RunEnd(completed)))
  {
    var s', h' := Apply(s, RunEnd(completed)), Told(h, RunEnd(completed));
    var n, task := |s.executed|, s.pc.item.task;
    assert task in s.uncompleted;
    forall x
      ensures Completed(s'.executed, h'.ends, x) <==> Completed(s.executed, h.ends, x) || (completed && x == task)
    {
      if Completed(s.executed, h.ends, x) {
        var k :| 0 <= k < n && h.ends[k] && s.executed[k].task == x;
        assert h'.ends[k] && s'.executed[k].task == x;
      }
      assert s'.executed[n] == s.pc.item && h'.ends[n] == completed;
    }
  }

  lemma StepMatches(s: State, a: Action, h: Tale)
    requires Inv(s) && HandsMatch(s, h) && TasksMatch(s, h) && Enabled(s, a)
    ensures HandsMatch(Apply(s, a), Told(h, a)) && TasksMatch(Apply(s, a), Told(h, a))
  {
    HandsStepMatches(s, a, h);
    if a.RunEnd? {
      RunEndMatches(s, a.completed, h);
    } else {
      assert Apply(s, a).executed == s.executed && Told(h, a).ends == h.ends;
      forall x ensures Completed(Apply(s, a).executed, Told(h, a).ends, x) <==> Completed(s.executed, h.ends, x) {
      }
    }
  }

  lemma {:induction false} RunMatches(s: State, steps: seq<Action>, t: State, h: Tale)
    requires Inv(s) && HandsMatch(s, h) && TasksMatch(s, h) && Runs(s, steps, t)
    ensures HandsMatch(t, ToldAll(h, steps)) && TasksMatch(t, ToldAll(h, steps))
    decreases |steps|
  {
    if steps != [] {
      StepMatches(s, steps[0], h);
      StepKeepsInv(s, steps[0]);
      RunMatches(Apply(s, steps[0]), steps[1..], t, Told(h, steps[0]));
    }
  }

  /**
    After any run the steps tell what was accepted from either side and in which order, whose
    runnables were refused, and which tasks are alive and which uncompleted.
  */
  lemma StepsTellAll(steps: seq<Action>, s: State)
    requires Runs(INITIAL, steps, s)
    ensures var h := ToldAll(OPENING, steps);
            && s.acceptedLocal == h.local && s.acceptedForeign == h.foreign && s.dropped == h.refused
            && (forall x :: x in s.live <==> x in h.spawned && x !in h.destroyed)
            && (forall x :: x in s.uncompleted <==>
                  x in h.spawned && x !in h.refused && !Completed(s.executed, h.ends, x))
  {
    InitialInv();
    RunMatches(INITIAL, steps, s, OPENING);
  }

  /** The runnable that a thread handed in is thrown away, and its task with it. */
  ghost predicate Refuses(s: State, t: nat, item: Item, s': State) {
    && s'.queue == s.queue && s'.foreignQueue == s.foreignQueue
    && s'.acceptedLocal == s.acceptedLocal && s'.acceptedForeign == s.acceptedForeign
    && s'.dropped == s.dropped + {item.task} && s'.uncompleted == s.uncompleted - {item.task}
    && s'.lock == None && t !in s'.threads
  }

  /** It is on its way into the queue, with the lock still held. */
  ghost predicate Admits(s: State, t: nat, item: Item, s': State) {
    && s'.dropped == s.dropped && s'.uncompleted == s.uncompleted && s'.lock == s.lock == Some(t)
    && Enabled(s', ExecutePush(t))
    && Apply(s', ExecutePush(t)).foreignQueue == s.foreignQueue + [item]
    && Apply(s', ExecutePush(t)).acceptedForeign == s.acceptedForeign + [item]
  }

  /**
    What another executor's thread hands in is refused if and only if a stop has been requested,
    and not been reset since, when execute() reads the flag.
  */
  lemma RefusedExactly(steps: seq<Action>, s: State, t: nat)
    requires Runs(INITIAL, steps, s) && Enabled(s, ExecuteAsk(t))
    ensures var item, s' := s.threads[t].item, Apply(s, ExecuteAsk(t));
            && (Requested(false, steps) <==> Refuses(s, t, item, s'))
            && (!Requested(false, steps) <==> Admits(s, t, item, s'))
  {
    FlagIsRequest(INITIAL, steps, s);
    ReachableInv(s);
  }
}
