/**
  The wake-up protocol of one spawned task: the four-state word of UnparkMutex, the
  notify() loop run by any number of notifier threads, and FutureSpawnRun::run() executed
  by any number of executor threads.  Every atomic operation, every move in or out of
  data_ and every queue operation is one step, so a run is an arbitrary interleaving.
*/
module TaskWakeup {

  datatype Status = Waiting | Polling | Repoll | Complete

  /** Where a call of notify() stands; a call that has returned is absent from the map. */
  datatype NotifyPc =
    | Loading                  // about to load status_
    | Deciding(seen: Status)   // in the loop, about to compare-exchange from `seen`
    | Won                      // moved waiting to polling, data_ not taken yet
    | Carrying                 // holds the runnable, about to hand it to the executor

  /** Where an executor thread stands inside run(); a thread outside run() is absent. */
  datatype RunPc =
    | Starting                 // about to store polling in start_poll()
    | Beginning                // about to call poll_future()
    | InPoll                   // the future is being polled
    | Finishing                // the future is done, about to store complete
    | Parking                  // not ready, about to store itself in data_
    | Closing                  // stored in data_, about to compare-exchange polling to waiting
    | Retrying(found: Status)  // that exchange failed and reported `found`
    | Reclaiming               // stored polling again, about to take data_ back

  /**
    `queue` counts this task's runnables in the executor.  `polls` counts polls that have
    started; `wanted` is the number of polls the notifications so far entitle the task to:
    a notification that takes effect when `polls` polls have started asks for one more.
  */
  datatype State = State(
    status: Status,
    data: bool,
    queue: nat,
    notifiers: map<nat, NotifyPc>,
    runners: map<nat, RunPc>,
    exposed: bool,
    accepting: bool,
    dropped: bool,
    polls: nat,
    wanted: nat)

  /** The task right after spawn(): queued once, its Inner not yet seen by anybody else. */
  const INITIAL := State(Waiting, false, 1, map[], map[], false, true, false, 0, 0)

  datatype Action =
    | NotifyBegin(n: nat)
    | NotifyLoad(n: nat)
    | NotifyExchange(n: nat)
    | NotifyTake(n: nat)
    | NotifyExecute(n: nat)
    | Dequeue(w: nat)
    | StartPoll(w: nat)
    | BeginPoll(w: nat)
    | PollDone(w: nat)
    | PollNotReady(w: nat)
    | StoreComplete(w: nat)
    | Park(w: nat)
    | Close(w: nat)
    | Reopen(w: nat)
    | Reclaim(w: nat)
    | StopExecutor
    | Idle

  predicate NotifierAt(s: State, n: nat, pc: NotifyPc) {
    n in s.notifiers && s.notifiers[n] == pc
  }

  predicate RunnerAt(s: State, w: nat, pc: RunPc) {
    w in s.runners && s.runners[w] == pc
  }

  predicate Enabled(s: State, a: Action) {
    match a
    case NotifyBegin(n) => s.exposed && n !in s.notifiers
    case NotifyLoad(n) => NotifierAt(s, n, Loading)
    case NotifyExchange(n) => n in s.notifiers && s.notifiers[n].Deciding?
    case NotifyTake(n) => NotifierAt(s, n, Won)
    case NotifyExecute(n) => NotifierAt(s, n, Carrying)
    case Dequeue(w) => s.queue > 0 && w !in s.runners
    case StartPoll(w) => RunnerAt(s, w, Starting)
    case BeginPoll(w) => RunnerAt(s, w, Beginning)
    case PollDone(w) => RunnerAt(s, w, InPoll)
    case PollNotReady(w) => RunnerAt(s, w, InPoll)
    case StoreComplete(w) => RunnerAt(s, w, Finishing)
    case Park(w) => RunnerAt(s, w, Parking)
    case Close(w) => RunnerAt(s, w, Closing)
    case Reopen(w) => w in s.runners && s.runners[w].Retrying?
    case Reclaim(w) => RunnerAt(s, w, Reclaiming)
    case StopExecutor => true
    case Idle => true
  }

  function Move(s: State, n: nat, pc: NotifyPc): State {
    s.(notifiers := s.notifiers[n := pc])
  }

  function Return(s: State, n: nat): State {
    s.(notifiers := s.notifiers - {n})
  }

  function Advance(s: State, w: nat, pc: RunPc): State {
    s.(runners := s.runners[w := pc])
  }

  function Leave(s: State, w: nat): State {
    s.(runners := s.runners - {w})
  }

  /** A notification takes effect now. */
  function Ask(s: State): State {
    s.(wanted := s.polls + 1)
  }

  /** The switch of notify() on a status that was just read. */
  function Dispatch(s: State, n: nat, read: Status): State {
    if read == Waiting || read == Polling then Move(s, n, Deciding(read)) else Return(Ask(s), n)
  }

  function Exchange(s: State, n: nat, seen: Status): State {
    if s.status != seen then Dispatch(s, n, s.status)
    else if seen == Waiting then Move(Ask(s.(status := Polling)), n, Won)
    else Return(Ask(s.(status := Repoll)), n)
  }

  function Apply(s: State, a: Action): State
    requires Enabled(s, a)
  {
    match a
    case NotifyBegin(n) => Move(s, n, Loading)
    case NotifyLoad(n) => Dispatch(s, n, s.status)
    case NotifyExchange(n) => Exchange(s, n, s.notifiers[n].seen)
    case NotifyTake(n) => if s.data then Move(s.(data := false), n, Carrying) else Return(s, n)
    case NotifyExecute(n) =>
      if s.accepting then Return(s.(queue := s.queue + 1), n) else Return(s.(dropped := true), n)
    case Dequeue(w) => Advance(s.(queue := s.queue - 1), w, Starting)
    case StartPoll(w) => Advance(s.(status := Polling), w, Beginning)
    case BeginPoll(w) => Advance(s.(polls := s.polls + 1, exposed := true), w, InPoll)
    case PollDone(w) => Advance(s, w, Finishing)
    case PollNotReady(w) => Advance(s, w, Parking)
    case StoreComplete(w) => Leave(s.(status := Complete), w)
    case Park(w) => Advance(s.(data := true), w, Closing)
    case Close(w) =>
      if s.status == Polling then Leave(s.(status := Waiting), w) else Advance(s, w, Retrying(s.status))
    case Reopen(w) => Advance(s.(status := Polling), w, Reclaiming)
    case Reclaim(w) => if s.data then Advance(s.(data := false), w, Beginning) else Leave(s, w)
    case StopExecutor => s.(accepting := false)
    case Idle => s
  }

  // ---------------------------------------------------------------- runs

  /** The state reached from `s` by a list of steps, if every step is enabled in turn. */
  ghost predicate Runs(s: State, steps: seq<Action>, t: State)
    decreases |steps|
  {
    if steps == [] then s == t
    else Enabled(s, steps[0]) && Runs(Apply(s, steps[0]), steps[1..], t)
  }

  ghost predicate Reachable(t: State) {
    exists steps :: Runs(INITIAL, steps, t)
  }

  // ---------------------------------------------------------------- ownership

  /** The places where the FutureSpawnRun, and with it the future, can be. */
  datatype Place = Parked | CarriedBy(n: nat) | Queued(k: nat) | HeldBy(w: nat)

  predicate At(s: State, p: Place) {
    match p
    case Parked => s.data
    case CarriedBy(n) => NotifierAt(s, n, Carrying)
    case Queued(k) => k < s.queue
    case HeldBy(w) => w in s.runners && s.runners[w] in {Starting, Beginning, InPoll, Finishing, Parking}
  }

  /** Threads whose next step reads or writes data_. */
  datatype Party = Notifier(n: nat) | Runner(w: nat) | Executor

  predicate TouchesData(s: State, t: Party) {
    match t
    case Notifier(n) => NotifierAt(s, n, Won)
    case Runner(w) => w in s.runners && s.runners[w] in {Parking, Reclaiming}
    case Executor => false
  }

  // ---------------------------------------------------------------- the invariant

  /** The one who is responsible for the task's next poll. */
  predicate Active(s: State, t: Party) {
    match t
    case Notifier(n) => n in s.notifiers && s.notifiers[n] in {Won, Carrying}
    case Runner(w) => w in s.runners
    case Executor => s.queue > 0
  }

  ghost predicate OneActive(s: State) {
    && s.queue <= 1
    && (forall t, u :: Active(s, t) && Active(s, u) ==> t == u)
  }

  /** data_ is full while the task is parked, and while its taker or its storer is under way. */
  predicate KeepsData(s: State, t: Party) {
    match t
    case Notifier(n) => NotifierAt(s, n, Won)
    case Runner(w) => w in s.runners && !(s.runners[w] in {Starting, Beginning, InPoll, Finishing, Parking})
    case Executor => false
  }

  /** What the status word says while some party is active. */
  ghost predicate ActiveStatus(s: State, t: Party)
    requires Active(s, t)
  {
    && s.data == KeepsData(s, t)
    && (s.exposed ==> s.status in {Polling, Repoll})
    && (!s.exposed ==>
          && s.notifiers == map[]
          && (if t == Executor || RunnerAt(s, t.w, Starting) then s.status == Waiting
              else RunnerAt(s, t.w, Beginning) && s.status == Polling))
    && (t.Runner? && s.runners[t.w].Retrying? ==> s.runners[t.w].found == Repoll && s.status == Repoll)
  }

  ghost predicate RestStatus(s: State) {
    && s.exposed
    && s.status in (if s.dropped then {Polling, Repoll} else {Waiting, Complete})
    && s.data == (s.status == Waiting)
  }

  ghost predicate DecidingOk(s: State) {
    forall n :: n in s.notifiers && s.notifiers[n].Deciding? ==> s.notifiers[n].seen in {Waiting, Polling}
  }

  /** Some party is bound to start a poll, or to complete the task, without being woken again. */
  ghost predicate Owed(s: State) {
    exists t :: Active(s, t) && (s.status == Repoll || AboutToPoll(s, t))
  }

  predicate AboutToPoll(s: State, t: Party) {
    match t
    case Runner(w) => w in s.runners && !(s.runners[w] in {InPoll, Finishing, Parking, Closing})
    case _ => true
  }

  /** A notification that took effect has not been answered by a poll yet. */
  predicate Unanswered(s: State) {
    s.wanted > s.polls
  }

  ghost predicate Inv(s: State) {
    && OneActive(s)
    && DecidingOk(s)
    && (forall t :: Active(s, t) ==> !s.dropped && ActiveStatus(s, t))
    && ((forall t :: !Active(s, t)) ==> RestStatus(s))
    && (s.dropped ==> !s.accepting)
    && s.wanted <= s.polls + 1
    && (Unanswered(s) && s.status != Complete && !s.dropped ==> Owed(s))
  }

  lemma InitialInv()
    ensures Inv(INITIAL)
  {
    assert Active(INITIAL, Executor);
  }

  // ---------------------------------------------------------------- every step keeps it

  /** A notifier finds the task parked and becomes the one who must get it polled. */
  lemma WinningExchangeKeepsInv(s: State, n: nat)
    requires Inv(s) && NotifierAt(s, n, Deciding(Waiting)) && s.status == Waiting && s.exposed
    ensures Inv(Apply(s, NotifyExchange(n)))
  {
    var s' := Apply(s, NotifyExchange(n));
    assert forall u :: !Active(s, u);
    assert forall u :: Active(s', u) ==> u == Notifier(n) || Active(s, u);
    assert Active(s', Notifier(n));
  }

  /** Any other step of an inactive notifier: at most it turns polling into repoll. */
  ghost predicate PassiveStep(s: State, s': State) {
    && s' == s.(status := s'.status, notifiers := s'.notifiers, wanted := s'.wanted)
    && (forall m :: NotifierAt(s', m, Won) <==> NotifierAt(s, m, Won))
    && (forall m :: NotifierAt(s', m, Carrying) <==> NotifierAt(s, m, Carrying))
    && (s'.status == s.status || (s.status == Polling && s'.status == Repoll))
    && (s'.wanted == s.wanted || (s'.wanted == s.polls + 1 && s'.status in {Repoll, Complete}))
    && DecidingOk(s')
  }

  lemma PassiveStepKeepsInv(s: State, s': State)
    requires Inv(s) && s.exposed && PassiveStep(s, s')
    ensures Inv(s')
  {
    forall t
      ensures Active(s', t) <==> Active(s, t)
      ensures KeepsData(s', t) <==> KeepsData(s, t)
    {
      if t.Notifier? {
        assert NotifierAt(s', t.n, Won) <==> NotifierAt(s, t.n, Won);
        assert NotifierAt(s', t.n, Carrying) <==> NotifierAt(s, t.n, Carrying);
      }
    }
    forall t | Active(s', t)
      ensures ActiveStatus(s', t)
    {
      assert ActiveStatus(s, t);
    }
    if t :| Active(s, t) {
      assert AboutToPoll(s', t) == AboutToPoll(s, t);
    }
  }

  /** The step of the active party `t` hands the task to `t'`, or to nobody. */
  ghost predicate Handed(s: State, t: Party, s': State, t': Party) {
    && Active(s, t)
    && s'.queue <= 1
    && (forall u :: Active(s', u) ==> u == t' || (u != t && Active(s, u)))
  }

  lemma HandedIsOne(s: State, t: Party, s': State, t': Party)
    requires OneActive(s) && Handed(s, t, s', t')
    ensures OneActive(s') && forall u :: Active(s', u) ==> u == t'
  {
  }

  lemma ActiveNotifierKeepsInv(s: State, a: Action)
    requires Inv(s) && Enabled(s, a)
    requires a.NotifyTake? || a.NotifyExecute?
    ensures Inv(Apply(s, a))
  {
    var s' := Apply(s, a);
    assert Active(s, Notifier(a.n));
    if a.NotifyTake? {
      HandedIsOne(s, Notifier(a.n), s', Notifier(a.n));
      assert Active(s', Notifier(a.n));
    } else {
      assert !Active(s, Executor);
      HandedIsOne(s, Notifier(a.n), s', Executor);
      if s.accepting {
        assert Active(s', Executor);
      }
    }
  }

  lemma PollingKeepsInv(s: State, a: Action)
    requires Inv(s) && Enabled(s, a)
    requires a.Dequeue? || a.StartPoll? || a.BeginPoll? || a.PollDone? || a.PollNotReady?
    ensures Inv(Apply(s, a))
  {
    var s' := Apply(s, a);
    var t := if a.Dequeue? then Executor else Runner(a.w);
    assert Active(s, t);
    HandedIsOne(s, t, s', Runner(a.w));
    assert Active(s', Runner(a.w));
  }

  lemma ParkingKeepsInv(s: State, a: Action)
    requires Inv(s) && Enabled(s, a)
    requires a.StoreComplete? || a.Park? || a.Close? || a.Reopen? || a.Reclaim?
    ensures Inv(Apply(s, a))
  {
    var s' := Apply(s, a);
    assert Active(s, Runner(a.w));
    HandedIsOne(s, Runner(a.w), s', Runner(a.w));
    if !a.StoreComplete? && !(a.Close? && s.status == Polling) {
      assert Active(s', Runner(a.w));
    }
  }

  /** Nobody can notify the task before its first poll has handed out the Inner. */
  lemma NotifiersComeExposed(s: State)
    requires Inv(s)
    ensures s.notifiers != map[] ==> s.exposed
  {
    if t :| Active(s, t) {
      assert ActiveStatus(s, t);
    }
  }

  predicate WinsTask(s: State, a: Action) {
    a.NotifyExchange? && NotifierAt(s, a.n, Deciding(Waiting)) && s.status == Waiting
  }

  lemma NotifierStepIsPassive(s: State, a: Action)
    requires Inv(s) && Enabled(s, a)
    requires a.NotifyBegin? || a.NotifyLoad? || (a.NotifyExchange? && !WinsTask(s, a))
    ensures PassiveStep(s, Apply(s, a))
  {
    if a.NotifyExchange? {
      ExchangeIsPassive(s, a.n);
    }
  }

  lemma ExchangeIsPassive(s: State, n: nat)
    requires Inv(s) && Enabled(s, NotifyExchange(n)) && !WinsTask(s, NotifyExchange(n))
    ensures PassiveStep(s, Apply(s, NotifyExchange(n)))
  {
  }

  lemma StopKeepsInv(s: State)
    requires Inv(s)
    ensures Inv(Apply(s, StopExecutor))
  {
    var s' := Apply(s, StopExecutor);
    forall t
      ensures Active(s', t) <==> Active(s, t)
      ensures Active(s', t) ==> ActiveStatus(s, t) && ActiveStatus(s', t)
      ensures AboutToPoll(s', t) == AboutToPoll(s, t)
    {
    }
  }

  lemma StepKeepsInv(s: State, a: Action)
    requires Inv(s) && Enabled(s, a)
    ensures Inv(Apply(s, a))
  {
    if a.NotifyTake? || a.NotifyExecute? {
      ActiveNotifierKeepsInv(s, a);
    } else if a.StopExecutor? {
      StopKeepsInv(s);
    } else if a.NotifyBegin? || a.NotifyLoad? || a.NotifyExchange? {
      NotifiersComeExposed(s);
      if WinsTask(s, a) {
        WinningExchangeKeepsInv(s, a.n);
      } else {
        NotifierStepIsPassive(s, a);
        PassiveStepKeepsInv(s, Apply(s, a));
      }
    } else if a.Dequeue? || a.StartPoll? || a.BeginPoll? || a.PollDone? || a.PollNotReady? {
      PollingKeepsInv(s, a);
    } else if !a.Idle? {
      ParkingKeepsInv(s, a);
    }
  }

  lemma {:induction false} RunKeepsInv(s: State, steps: seq<Action>, t: State)
    requires Inv(s) && Runs(s, steps, t)
    ensures Inv(t)
    decreases |steps|
  {
    if steps != [] {
      StepKeepsInv(s, steps[0]);
      RunKeepsInv(Apply(s, steps[0]), steps[1..], t);
    }
  }

  lemma ReachableInv(s: State)
    requires Reachable(s)
    ensures Inv(s)
  {
    InitialInv();
    var steps :| Runs(INITIAL, steps, s);
    RunKeepsInv(INITIAL, steps, s);
  }

  // ---------------------------------------------------------------- safety

  /**
    In every reachable state the future is in at most one place, in exactly one unless the
    task has completed or its runnable was refused by a stopped executor, and nowhere once it
    has completed; nobody else is about to touch data_; whoever takes data_ finds it full; and
    wait() only ever sees repoll when its exchange fails.
  */
  lemma ExclusiveOwnership(s: State)
    requires Reachable(s)
    ensures forall p, q :: At(s, p) && At(s, q) ==> p == q
    ensures (exists p :: At(s, p)) <==> (s.status != Complete && !s.dropped)
    ensures forall t, u :: TouchesData(s, t) && TouchesData(s, u) ==> t == u
    ensures forall n :: NotifierAt(s, n, Won) ==> s.data
    ensures forall w :: RunnerAt(s, w, Reclaiming) ==> s.data
    ensures forall w :: RunnerAt(s, w, Parking) ==> !s.data
    ensures forall w :: w in s.runners && s.runners[w].Retrying? ==> s.runners[w].found == Repoll
  {
    ReachableInv(s);
    forall w | w in s.runners
      ensures Active(s, Runner(w))
    {
    }
    forall n | n in s.notifiers && s.notifiers[n] in {Won, Carrying}
      ensures Active(s, Notifier(n))
    {
    }
    forall p, q | At(s, p) && At(s, q)
      ensures p == q
    {
      OnePlace(s, p, q);
    }
    forall t | TouchesData(s, t)
      ensures Active(s, t)
    {
    }
    if t :| Active(s, t) {
      assert ActiveStatus(s, t);
      assert At(s, if s.data then Parked else if t.Executor? then Queued(0)
                   else if t.Notifier? then CarriedBy(t.n) else HeldBy(t.w));
    } else {
      assert s.status == Waiting ==> At(s, Parked);
      forall p
        ensures At(s, p) ==> s.data
      {
        assert p.Parked? || !Active(s, Holder(p));
      }
    }
  }

  /** The party that has the future when it is not parked. */
  function Holder(p: Place): Party
    requires !p.Parked?
  {
    match p
    case CarriedBy(n) => Notifier(n)
    case Queued(_) => Executor
    case HeldBy(w) => Runner(w)
  }

  lemma OnePlace(s: State, p: Place, q: Place)
    requires Inv(s) && At(s, p) && At(s, q)
    ensures p == q
  {
    if !p.Parked? {
      assert Active(s, Holder(p));
    }
    if !q.Parked? {
      assert Active(s, Holder(q));
    }
  }

  /** Completion is final: whatever runs afterwards, the task is never polled again. */
  lemma {:induction false} CompleteIsAbsorbing(s: State, steps: seq<Action>, t: State)
    requires Inv(s) && s.status == Complete && Runs(s, steps, t)
    ensures t.status == Complete && t.polls == s.polls
    decreases |steps|
  {
    if steps != [] {
      var a := steps[0];
      assert !Active(s, Executor);
      assert a.NotifyTake? || a.NotifyExecute? ==> Active(s, Notifier(a.n));
      forall w
        ensures w !in s.runners
      {
        assert !Active(s, Runner(w));
      }
      StepKeepsInv(s, a);
      CompleteIsAbsorbing(Apply(s, a), steps[1..], t);
    }
  }

  /**
    No wake-up is lost: when a notification of an uncompleted task has not been answered by
    a poll that started after it, then some party is already bound to start one, or the
    runnable was refused by an executor that no longer accepts work.
  */
  lemma NoLostWakeup(s: State)
    requires Reachable(s) && Unanswered(s) && s.status != Complete
    ensures Owed(s) || (s.dropped && !s.accepting)
  {
    ReachableInv(s);
  }

  // ---------------------------------------------------------------- liveness

  /**
    The party that is bound to take a step.  Whether to notify at all is the program's choice,
    so the first step of notify() is nobody's, like stopping the executor and idling.
  */
  datatype Actor = By(t: Party) | Environment

  function ActorOf(a: Action): Actor {
    match a
    case NotifyBegin(_) => Environment
    case NotifyLoad(n) => By(Notifier(n))
    case NotifyExchange(n) => By(Notifier(n))
    case NotifyTake(n) => By(Notifier(n))
    case NotifyExecute(n) => By(Notifier(n))
    case Dequeue(_) => By(Executor)
    case StopExecutor => Environment
    case Idle => Environment
    case _ => By(Runner(a.w))
  }

  /** An endless run: `b(i)` is the state before step `acts(i)`. */
  ghost predicate Behavior(b: nat -> State, acts: nat -> Action) {
    && b(0) == INITIAL
    && (forall i: nat :: Enabled(b(i), acts(i)) && b(i + 1) == Apply(b(i), acts(i)))
  }

  ghost predicate CanStep(s: State, t: Party) {
    exists a :: ActorOf(a) == By(t) && Enabled(s, a)
  }

  /**
    Weak fairness: no party can be able to step forever without ever stepping.  It binds only
    calls of notify() and run() that are under way and the executor's queue; nobody has to
    notify again.
  */
  ghost predicate Fair(b: nat -> State, acts: nat -> Action) {
    forall t, i: nat :: CanAlwaysStep(b, t, i) ==> StepsAgain(acts, t, i)
  }

  ghost predicate CanAlwaysStep(b: nat -> State, t: Party, i: nat) {
    forall j: nat :: j >= i ==> CanStep(b(j), t)
  }

  ghost predicate StepsAgain(acts: nat -> Action, t: Party, i: nat) {
    exists j: nat :: j >= i && ActorOf(acts(j)) == By(t)
  }

  /** The task has been polled `k` times, or will never be polled again. */
  predicate Settled(s: State, k: nat) {
    s.polls >= k || s.status == Complete || s.dropped
  }

  /** Party `t` owes the `k`-th poll. */
  ghost predicate Owes(s: State, k: nat, t: Party) {
    && Inv(s)
    && !Settled(s, k)
    && s.polls + 1 == k
    && Active(s, t)
    && (s.status == Repoll || AboutToPoll(s, t))
  }

  /** How many steps of the owing parties remain before the poll starts. */
  function Rank(s: State, t: Party): nat {
    match t
    case Executor => 3
    case Notifier(n) => if NotifierAt(s, n, Won) then 5 else 4
    case Runner(w) =>
      if w !in s.runners then 0 else
        match s.runners[w]
        case Starting => 2
        case Beginning => 1
        case InPoll => 6
        case Finishing => 1
        case Parking => 5
        case Closing => 4
        case Retrying(_) => 3
        case Reclaiming => 2
  }

  lemma OwingPartyCanStep(s: State, k: nat, t: Party)
    requires Owes(s, k, t)
    ensures CanStep(s, t)
  {
    match t
    case Executor =>
      assert !Active(s, Runner(0));
      assert Enabled(s, Dequeue(0)) && ActorOf(Dequeue(0)) == By(Executor);
    case Notifier(n) =>
      var a := if NotifierAt(s, n, Won) then NotifyTake(n) else NotifyExecute(n);
      assert Enabled(s, a) && ActorOf(a) == By(t);
    case Runner(w) =>
      var a := match s.runners[w]
        case Starting => StartPoll(w)
        case Beginning => BeginPoll(w)
        case InPoll => PollDone(w)
        case Finishing => StoreComplete(w)
        case Parking => Park(w)
        case Closing => Close(w)
        case Retrying(_) => Reopen(w)
        case Reclaiming => Reclaim(w);
      assert Enabled(s, a) && ActorOf(a) == By(t);
  }

  lemma OthersKeepDebt(s: State, a: Action, k: nat, t: Party)
    requires Owes(s, k, t) && Enabled(s, a) && ActorOf(a) != By(t)
    ensures Owes(Apply(s, a), k, t) && Rank(Apply(s, a), t) == Rank(s, t)
  {
    StepKeepsInv(s, a);
    assert ActiveStatus(s, t);
    if ActorOf(a).By? {
      assert !Active(s, ActorOf(a).t);
    }
  }

  lemma OwnStepPaysOff(s: State, a: Action, k: nat, t: Party) returns (t': Party)
    requires Owes(s, k, t) && Enabled(s, a) && ActorOf(a) == By(t)
    ensures Settled(Apply(s, a), k) || (Owes(Apply(s, a), k, t') && Rank(Apply(s, a), t') < Rank(s, t))
  {
    StepKeepsInv(s, a);
    assert ActiveStatus(s, t);
    t' := if a.NotifyExecute? then Executor else if a.Dequeue? then Runner(a.w) else t;
  }

  lemma {:induction false} BehaviorInv(b: nat -> State, acts: nat -> Action, i: nat)
    requires Behavior(b, acts)
    ensures Inv(b(i))
  {
    if i == 0 {
      InitialInv();
    } else {
      BehaviorInv(b, acts, i - 1);
      StepKeepsInv(b(i - 1), acts(i - 1));
    }
  }

  /** Until the owing party steps, its debt stays. */
  lemma {:induction false} DebtUntilStep(b: nat -> State, acts: nat -> Action, i: nat, j: nat, k: nat, t: Party)
    requires Behavior(b, acts) && i <= j && Owes(b(i), k, t)
    requires forall l: nat :: i <= l < j ==> ActorOf(acts(l)) != By(t)
    ensures Owes(b(j), k, t) && Rank(b(j), t) == Rank(b(i), t)
    decreases j - i
  {
    if i < j {
      OthersKeepDebt(b(i), acts(i), k, t);
      DebtUntilStep(b, acts, i + 1, j, k, t);
    }
  }

  lemma UnpaidDebtStays(b: nat -> State, acts: nat -> Action, i: nat, k: nat, t: Party)
    requires Behavior(b, acts) && Owes(b(i), k, t) && !StepsAgain(acts, t, i)
    ensures CanAlwaysStep(b, t, i)
  {
    forall l: nat | l >= i
      ensures CanStep(b(l), t)
    {
      DebtUntilStep(b, acts, i, l, k, t);
      OwingPartyCanStep(b(l), k, t);
    }
  }

  /** Under fairness the owing party does step. */
  lemma OwingPartySteps(b: nat -> State, acts: nat -> Action, i: nat, k: nat, t: Party) returns (j: nat)
    requires Behavior(b, acts) && Fair(b, acts) && Owes(b(i), k, t)
    ensures j >= i && ActorOf(acts(j)) == By(t) && forall l: nat :: i <= l < j ==> ActorOf(acts(l)) != By(t)
  {
    if !StepsAgain(acts, t, i) {
      UnpaidDebtStays(b, acts, i, k, t);
    }
    var h: nat :| h >= i && ActorOf(acts(h)) == By(t);
    j := FirstStep(acts, i, h, t);
  }

  lemma FirstStep(acts: nat -> Action, i: nat, h: nat, t: Party) returns (j: nat)
    requires i <= h && ActorOf(acts(h)) == By(t)
    ensures i <= j <= h && ActorOf(acts(j)) == By(t) && forall l: nat :: i <= l < j ==> ActorOf(acts(l)) != By(t)
    decreases h - i
  {
    if ActorOf(acts(i)) == By(t) {
      j := i;
    } else {
      j := FirstStep(acts, i + 1, h, t);
    }
  }

  lemma {:induction false} DebtIsPaid(b: nat -> State, acts: nat -> Action, i: nat, k: nat, t: Party)
    returns (j: nat)
    requires Behavior(b, acts) && Fair(b, acts) && Owes(b(i), k, t)
    ensures j >= i && Settled(b(j), k)
    decreases Rank(b(i), t)
  {
    var m := OwingPartySteps(b, acts, i, k, t);
    DebtUntilStep(b, acts, i, m, k, t);
    var t' := OwnStepPaysOff(b(m), acts(m), k, t);
    if Settled(b(m + 1), k) {
      j := m + 1;
    } else {
      j := DebtIsPaid(b, acts, m + 1, k, t');
    }
  }

  /** The executor keeps accepting work as long as it has not been stopped. */
  lemma {:induction false} NeverStopped(b: nat -> State, acts: nat -> Action, i: nat)
    requires Behavior(b, acts) && forall j: nat :: acts(j) != StopExecutor
    ensures b(i).accepting
  {
    if i > 0 {
      NeverStopped(b, acts, i - 1);
      OnlyStopStops(b(i - 1), acts(i - 1));
    }
  }

  lemma OnlyStopStops(s: State, a: Action)
    requires Enabled(s, a) && a != StopExecutor
    ensures Apply(s, a).accepting == s.accepting
  {
    if ActorOf(a).By? && ActorOf(a).t.Runner? {
      RunnerNeverStops(s, a);
    }
  }

  lemma RunnerNeverStops(s: State, a: Action)
    requires Enabled(s, a) && ActorOf(a).By? && ActorOf(a).t.Runner?
    ensures Apply(s, a).accepting == s.accepting
  {
  }

  /**
    Every wake-up is answered: on every fair endless run of an executor that is not stopped,
    each notification is followed by a poll that starts after it, or by completion.
  */
  lemma WakeupIsAnswered(b: nat -> State, acts: nat -> Action, i: nat)
    requires Behavior(b, acts) && Fair(b, acts)
    requires forall j: nat :: acts(j) != StopExecutor
    ensures exists j: nat :: j >= i && (b(j).polls >= b(i).wanted || b(j).status == Complete)
  {
    BehaviorInv(b, acts, i);
    var s := b(i);
    if Settled(s, s.wanted) {
      NeverStopped(b, acts, i);
    } else {
      var t :| Active(s, t) && (s.status == Repoll || AboutToPoll(s, t));
      var j := DebtIsPaid(b, acts, i, s.wanted, t);
      BehaviorInv(b, acts, j);
      NeverStopped(b, acts, j);
    }
  }

  // ---------------------------------------------------------------- runs that come to rest

  /** Nobody is under way. */
  predicate AtRest(s: State) {
    s.queue == 0 && s.notifiers == map[] && s.runners == map[]
  }

  /** The steps of a list one after the other, and idling from then on. */
  function ActionAt(steps: seq<Action>, i: nat): Action {
    if i < |steps| then steps[i] else Idle
  }

  function StateAt(steps: seq<Action>, i: nat): State {
    if i == 0 then INITIAL
    else
      var s, a := StateAt(steps, i - 1), ActionAt(steps, i - 1);
      if Enabled(s, a) then Apply(s, a) else s
  }

  /** A list of steps that can be taken is what the first states of the endless run do. */
  lemma {:induction false} RunsFrom(steps: seq<Action>, i: nat, t: State)
    requires i <= |steps| && Runs(StateAt(steps, i), steps[i..], t)
    ensures StateAt(steps, |steps|) == t
    ensures forall k :: i <= k < |steps| ==> Enabled(StateAt(steps, k), steps[k])
    decreases |steps| - i
  {
    if i < |steps| {
      assert steps[i..][1..] == steps[i + 1..];
      RunsFrom(steps, i + 1, t);
    }
  }

  lemma {:induction false} StaysAtRest(steps: seq<Action>, i: nat)
    requires i >= |steps|
    ensures StateAt(steps, i) == StateAt(steps, |steps|)
  {
    if i > |steps| {
      StaysAtRest(steps, i - 1);
    }
  }

  lemma NobodyCanStep(s: State, t: Party)
    requires AtRest(s)
    ensures !CanStep(s, t)
  {
  }

  lemma StepAt(steps: seq<Action>, i: nat)
    requires i < |steps| ==> Enabled(StateAt(steps, i), steps[i])
    ensures Enabled(StateAt(steps, i), ActionAt(steps, i))
    ensures StateAt(steps, i + 1) == Apply(StateAt(steps, i), ActionAt(steps, i))
  {
  }

  /** The endless run that takes the steps and then idles. */
  ghost predicate Plays(b: nat -> State, acts: nat -> Action, steps: seq<Action>) {
    (forall i: nat :: b(i) == StateAt(steps, i)) && forall i: nat :: acts(i) == ActionAt(steps, i)
  }

  lemma PlaysStep(steps: seq<Action>, b: nat -> State, acts: nat -> Action, i: nat)
    requires Plays(b, acts, steps) && (i < |steps| ==> Enabled(StateAt(steps, i), steps[i]))
    ensures Enabled(b(i), acts(i)) && b(i + 1) == Apply(b(i), acts(i))
  {
    StepAt(steps, i);
    assert b(i + 1) == StateAt(steps, i + 1);
  }

  lemma PlaysIsBehavior(steps: seq<Action>, t: State, b: nat -> State, acts: nat -> Action)
    requires Runs(INITIAL, steps, t) && Plays(b, acts, steps)
    ensures Behavior(b, acts)
  {
    RunsPlayed(steps, t);
    forall i: nat ensures Enabled(b(i), acts(i)) && b(i + 1) == Apply(b(i), acts(i)) {
      PlaysStep(steps, b, acts, i);
    }
    assert b(0) == StateAt(steps, 0);
  }

  lemma RunsPlayed(steps: seq<Action>, t: State)
    requires Runs(INITIAL, steps, t)
    ensures forall k :: 0 <= k < |steps| ==> Enabled(StateAt(steps, k), steps[k])
    ensures forall j: nat :: j >= |steps| ==> StateAt(steps, j) == t
  {
    assert steps[0..] == steps;
    RunsFrom(steps, 0, t);
    forall j: nat | j >= |steps| ensures StateAt(steps, j) == t {
      StaysAtRest(steps, j);
    }
  }

  /** Any finite run that comes to rest is, with nobody notifying any more, a fair endless run. */
  lemma QuietRunIsFair(steps: seq<Action>, t: State, b: nat -> State, acts: nat -> Action)
    requires Runs(INITIAL, steps, t) && AtRest(t) && Plays(b, acts, steps)
    ensures Behavior(b, acts) && Fair(b, acts)
  {
    PlaysIsBehavior(steps, t, b, acts);
    RunsPlayed(steps, t);
    forall p, i: nat ensures !CanAlwaysStep(b, p, i) {
      var j := i + |steps|;
      NobodyCanStep(b(j), p);
      assert !CanStep(b(j), p);
    }
  }

  lemma RunsTwo(s: State, s1: State, s2: State, a: Action, a1: Action)
    requires Enabled(s, a) && s1 == Apply(s, a) && Enabled(s1, a1) && s2 == Apply(s1, a1)
    ensures Runs(s, [a, a1], s2)
  {
    assert [a, a1][1..] == [a1] && [a1][1..] == [];
    assert Runs(s2, [], s2);
    assert Runs(s1, [a1], s2);
  }

  lemma RunsThree(s: State, s1: State, s2: State, s3: State, a: Action, a1: Action, a2: Action)
    requires Enabled(s, a) && s1 == Apply(s, a) && Enabled(s1, a1) && s2 == Apply(s1, a1)
    requires Enabled(s2, a2) && s3 == Apply(s2, a2)
    ensures Runs(s, [a, a1, a2], s3)
  {
    assert [a, a1, a2][1..] == [a1, a2];
    RunsTwo(s1, s2, s3, a1, a2);
  }

  lemma {:induction false} RunsJoin(s: State, x: seq<Action>, t: State, y: seq<Action>, u: State)
    requires Runs(s, x, t) && Runs(t, y, u)
    ensures Runs(s, x + y, u)
    decreases |x|
  {
    if x == [] {
      assert x + y == y;
    } else {
      assert (x + y)[1..] == x[1..] + y;
      RunsJoin(Apply(s, x[0]), x[1..], t, y, u);
    }
  }

  /** The runnable is taken out of the queue, polled once and parked. */
  const POLL: seq<Action> := [Dequeue(0), StartPoll(0), BeginPoll(0)] + [PollNotReady(0), Park(0), Close(0)]

  lemma PollStarts(s: State, t: State)
    requires s.queue == 1 && s.runners == map[]
    requires t == s.(queue := 0, status := Polling, exposed := true, polls := s.polls + 1, runners := map[0 := InPoll])
    ensures Runs(s, [Dequeue(0), StartPoll(0), BeginPoll(0)], t)
  {
    var s1 := s.(queue := 0, runners := map[0 := Starting]);
    var s2 := s1.(status := Polling, runners := map[0 := Beginning]);
    assert s2.runners == map[0 := Starting][0 := Beginning] && t.runners == map[0 := Beginning][0 := InPoll];
    RunsThree(s, s1, s2, t, Dequeue(0), StartPoll(0), BeginPoll(0));
  }

  lemma PollEnds(s: State, t: State)
    requires s.status == Polling && s.runners == map[0 := InPoll]
    requires t == s.(status := Waiting, data := true, runners := map[])
    ensures Runs(s, [PollNotReady(0), Park(0), Close(0)], t)
  {
    var s1 := s.(runners := map[0 := Parking]);
    var s2 := s.(data := true, runners := map[0 := Closing]);
    assert map[0 := InPoll][0 := Parking] == s1.runners && map[0 := Parking][0 := Closing] == s2.runners;
    assert s2.runners - {0} == map[];
    RunsThree(s, s1, s2, t, PollNotReady(0), Park(0), Close(0));
  }

  lemma PollsOnce(s: State, t: State)
    requires s.queue == 1 && s.runners == map[]
    requires t == s.(queue := 0, status := Waiting, data := true, exposed := true, polls := s.polls + 1)
    ensures Runs(s, POLL, t)
  {
    var m := s.(queue := 0, status := Polling, exposed := true, polls := s.polls + 1, runners := map[0 := InPoll]);
    PollStarts(s, m);
    PollEnds(m, t);
    RunsJoin(s, [Dequeue(0), StartPoll(0), BeginPoll(0)], m, [PollNotReady(0), Park(0), Close(0)], t);
  }

  /** One thread notifies, finds the task parked and hands its runnable in. */
  const NOTIFY: seq<Action> := [NotifyBegin(0), NotifyLoad(0), NotifyExchange(0)] + [NotifyTake(0), NotifyExecute(0)]

  lemma NotifierWins(s: State, t: State)
    requires s.exposed && s.status == Waiting && s.notifiers == map[]
    requires t == s.(status := Polling, wanted := s.polls + 1, notifiers := map[0 := Won])
    ensures Runs(s, [NotifyBegin(0), NotifyLoad(0), NotifyExchange(0)], t)
  {
    var s1 := s.(notifiers := map[0 := Loading]);
    var s2 := s.(notifiers := map[0 := Deciding(Waiting)]);
    assert map[0 := Loading][0 := Deciding(Waiting)] == s2.notifiers;
    assert map[0 := Deciding(Waiting)][0 := Won] == t.notifiers;
    RunsThree(s, s1, s2, t, NotifyBegin(0), NotifyLoad(0), NotifyExchange(0));
  }

  lemma NotifierHandsIn(s: State, t: State)
    requires s.data && s.accepting && s.notifiers == map[0 := Won]
    requires t == s.(data := false, queue := s.queue + 1, notifiers := map[])
    ensures Runs(s, [NotifyTake(0), NotifyExecute(0)], t)
  {
    var s1 := s.(data := false, notifiers := map[0 := Carrying]);
    assert map[0 := Won][0 := Carrying] == s1.notifiers && s1.notifiers - {0} == map[];
    RunsTwo(s, s1, t, NotifyTake(0), NotifyExecute(0));
  }

  lemma NotifiesOnce(s: State, t: State)
    requires s.exposed && s.status == Waiting && s.data && s.accepting && s.notifiers == map[]
    requires t == s.(status := Polling, wanted := s.polls + 1, data := false, queue := s.queue + 1)
    ensures Runs(s, NOTIFY, t)
  {
    var m := s.(status := Polling, wanted := s.polls + 1, notifiers := map[0 := Won]);
    NotifierWins(s, m);
    NotifierHandsIn(m, t);
    RunsJoin(s, [NotifyBegin(0), NotifyLoad(0), NotifyExchange(0)], m, [NotifyTake(0), NotifyExecute(0)], t);
  }

  /** The task parked after `polls` polls. */
  function ParkedAfter(polls: nat, wanted: nat): State {
    State(Waiting, true, 0, map[], map[], true, true, false, polls, wanted)
  }

  lemma OneWakeupRuns()
    ensures Runs(INITIAL, POLL, ParkedAfter(1, 0))
    ensures Runs(ParkedAfter(1, 0), NOTIFY + POLL, ParkedAfter(2, 2))
    ensures Runs(INITIAL, POLL + (NOTIFY + POLL), ParkedAfter(2, 2))
  {
    var first, second := ParkedAfter(1, 0), ParkedAfter(2, 2);
    var queued := first.(status := Polling, wanted := 2, data := false, queue := 1);
    PollsOnce(INITIAL, first);
    NotifiesOnce(first, queued);
    PollsOnce(queued, second);
    RunsJoin(first, NOTIFY, queued, POLL, second);
    RunsJoin(INITIAL, POLL, first, NOTIFY + POLL, second);
  }

  const ONE_WAKEUP: seq<Action> := POLL + (NOTIFY + POLL)

  lemma OneNotification(i: nat)
    ensures ActionAt(ONE_WAKEUP, i).NotifyBegin? <==> i == 6
  {
    assert |POLL| == 6 && |NOTIFY| == 5;
    if i < 6 {
      assert ONE_WAKEUP[i] == POLL[i];
    } else if i < 11 {
      assert ONE_WAKEUP[i] == NOTIFY[i - 6];
    } else if i < 17 {
      assert ONE_WAKEUP[i] == POLL[i - 11];
    }
  }

  /**
    So the liveness theorem speaks of runs in which notifications stop: here is a fair one with
    a single notification, after which the task is polled once more and stays parked forever.
  */
  lemma SingleNotification(b: nat -> State, acts: nat -> Action)
    requires Plays(b, acts, ONE_WAKEUP)
    ensures Behavior(b, acts) && Fair(b, acts)
    ensures forall j: nat :: acts(j).NotifyBegin? <==> j == 6
    ensures forall j: nat :: j >= 17 ==> b(j) == ParkedAfter(2, 2)
  {
    OneWakeupRuns();
    QuietRunIsFair(ONE_WAKEUP, ParkedAfter(2, 2), b, acts);
    RunsPlayed(ONE_WAKEUP, ParkedAfter(2, 2));
    forall j: nat ensures acts(j).NotifyBegin? <==> j == 6 {
      OneNotification(j);
    }
  }
}
