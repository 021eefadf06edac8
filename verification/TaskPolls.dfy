/**
  The other side of the wake-up protocol: a task is polled no more often than it was asked to
  be, and when nobody notifies it any more it comes to rest.
*/
module TaskPolls {
  import opened TaskWakeup

  // ---------------------------------------------------------------- counting over the steps

  /** The step is a compare-exchange of notify() that succeeds; the task is owed one more poll by it. */
  predicate Grants(s: State, a: Action)
    requires Enabled(s, a)
  {
    a.NotifyExchange? && s.status == s.notifiers[a.n].seen
  }

  function Granted(s: State, steps: seq<Action>): nat
    decreases |steps|
  {
    if steps == [] || !Enabled(s, steps[0]) then 0
    else (if Grants(s, steps[0]) then 1 else 0) + Granted(Apply(s, steps[0]), steps[1..])
  }

  /** How often notify() was called. */
  function Begun(steps: seq<Action>): nat {
    if steps == [] then 0 else (if steps[0].NotifyBegin? then 1 else 0) + Begun(steps[1..])
  }

  // ---------------------------------------------------------------- at most one poll for each request

  /** The party is going to poll without looking for another request. */
  predicate Fresh(s: State, t: Party) {
    match t
    case Runner(w) => w in s.runners && s.runners[w] in {Starting, Beginning, Reclaiming}
    case _ => true
  }

  ghost predicate PollDue(s: State) {
    exists t :: Active(s, t) && Fresh(s, t)
  }

  /** The polls made and those that are sure to come. */
  ghost function PollsInSight(s: State): nat {
    s.polls + (if PollDue(s) then 1 else 0) + (if s.status == Repoll then 1 else 0)
  }

  lemma StepGrantsOne(s: State, a: Action)
    requires Inv(s) && Enabled(s, a)
    ensures PollsInSight(Apply(s, a)) <= PollsInSight(s) + if Grants(s, a) then 1 else 0
  {
    var s' := Apply(s, a);
    StepKeepsInv(s, a);
    NotifiersComeExposed(s);
    if PollDue(s') {
      var t :| Active(s', t) && Fresh(s', t);
      assert ActiveStatus(s', t);
      PollComesFrom(s, a, t);
    }
    if a.BeginPoll? {
      assert Active(s, Runner(a.w)) && Fresh(s, Runner(a.w));
      assert Active(s', Runner(a.w));
    }
  }

  /** A party that is sure to poll was so before the step, or took over from one, or was just granted it. */
  lemma PollComesFrom(s: State, a: Action, t: Party)
    requires Inv(s) && Enabled(s, a) && Active(Apply(s, a), t) && Fresh(Apply(s, a), t)
    ensures || PollDue(s)
            || (Grants(s, a) && Apply(s, a).status == Polling)
            || (s.status == Repoll && Apply(s, a).status == Polling)
  {
    if a.Dequeue? {
      assert Active(s, Executor) && Fresh(s, Executor);
    } else if a.NotifyTake? || a.NotifyExecute? {
      assert Active(s, Notifier(a.n)) && Fresh(s, Notifier(a.n));
    } else if a.Reopen? {
      assert Active(s, Runner(a.w));
      assert ActiveStatus(s, Runner(a.w));
    } else if !Grants(s, a) || s.status == Polling {
      assert Active(s, t) && Fresh(s, t);
    }
  }

  lemma {:induction false} PollsAreGranted(s: State, steps: seq<Action>, t: State)
    requires Inv(s) && Runs(s, steps, t)
    ensures PollsInSight(t) <= PollsInSight(s) + Granted(s, steps)
    decreases |steps|
  {
    if steps != [] {
      StepGrantsOne(s, steps[0]);
      StepKeepsInv(s, steps[0]);
      PollsAreGranted(Apply(s, steps[0]), steps[1..], t);
    }
  }

  // ---------------------------------------------------------------- each call grants at most one

  /** Calls of notify() that have not taken effect yet. */
  function Undecided(s: State): set<nat> {
    set n | n in s.notifiers && (s.notifiers[n] == Loading || s.notifiers[n].Deciding?)
  }

  lemma StepDecides(s: State, a: Action)
    requires Enabled(s, a)
    ensures var u, u' := Undecided(s), Undecided(Apply(s, a));
            if a.NotifyBegin? then u' == u + {a.n} && a.n !in u
            else if Grants(s, a) then u' == u - {a.n} && a.n in u
            else u' <= u
  {
  }

  lemma Removed(u: set<nat>, n: nat)
    requires n in u
    ensures |u - {n}| == |u| - 1
  {
  }

  lemma Fewer(u: set<nat>, v: set<nat>)
    requires u <= v
    ensures |u| <= |v|
  {
    assert v == u + (v - u);
  }

  lemma {:induction false} GrantsAreBegun(s: State, steps: seq<Action>, t: State)
    requires Runs(s, steps, t)
    ensures Granted(s, steps) + |Undecided(t)| <= Begun(steps) + |Undecided(s)|
    decreases |steps|
  {
    if steps != [] {
      var a := steps[0];
      var s' := Apply(s, a);
      StepDecides(s, a);
      if Grants(s, a) {
        Removed(Undecided(s), a.n);
      } else if !a.NotifyBegin? {
        Fewer(Undecided(s'), Undecided(s));
      }
      GrantsAreBegun(s', steps[1..], t);
    }
  }

  /**
    The task is polled once for having been spawned, and otherwise at most once for each
    compare-exchange of notify() that succeeded, of which each call makes at most one.
  */
  lemma PollsAreAskedFor(steps: seq<Action>, s: State)
    requires Runs(INITIAL, steps, s)
    ensures s.polls <= 1 + Granted(INITIAL, steps)
    ensures Granted(INITIAL, steps) <= Begun(steps)
  {
    InitialInv();
    PollsAreGranted(INITIAL, steps, s);
    GrantsAreBegun(INITIAL, steps, s);
    assert Undecided(INITIAL) == {};
  }

  // ---------------------------------------------------------------- what the executor drops

  predicate Stops(steps: seq<Action>) {
    exists i :: 0 <= i < |steps| && steps[i].StopExecutor?
  }

  /** A task is handed to an executor that has stopped, before the steps or among them. */
  predicate ComesTooLate(stopped: bool, steps: seq<Action>) {
    exists j :: 0 <= j < |steps| && steps[j].NotifyExecute? && (stopped || Stops(steps[..j]))
  }

  lemma StopsSplit(a: Action, steps: seq<Action>)
    ensures Stops([a] + steps) <==> a.StopExecutor? || Stops(steps)
  {
    var all := [a] + steps;
    assert all[0] == a && forall i :: 0 <= i < |steps| ==> all[i + 1] == steps[i];
  }

  lemma LateSplit(stopped: bool, a: Action, steps: seq<Action>)
    ensures ComesTooLate(stopped, [a] + steps) <==>
              (a.NotifyExecute? && stopped) || ComesTooLate(stopped || a.StopExecutor?, steps)
  {
    var all := [a] + steps;
    assert all[0] == a && !Stops(all[..0]);
    forall j | 0 <= j < |steps|
      ensures all[j + 1] == steps[j] && (Stops(all[..j + 1]) <==> a.StopExecutor? || Stops(steps[..j]))
    {
      assert all[..j + 1] == [a] + steps[..j];
      StopsSplit(a, steps[..j]);
    }
  }

  lemma StepTellsDrops(s: State, a: Action)
    requires Enabled(s, a)
    ensures Apply(s, a).accepting <==> s.accepting && !a.StopExecutor?
    ensures Apply(s, a).dropped <==> s.dropped || (a.NotifyExecute? && !s.accepting)
  {
    if a.NotifyLoad? || a.NotifyExchange? {
      assert var s' := Dispatch(s, a.n, s.status); s'.accepting == s.accepting && s'.dropped == s.dropped;
    }
  }

  lemma {:induction false} DropsAreTold(s: State, steps: seq<Action>, t: State)
    requires Runs(s, steps, t)
    ensures t.accepting <==> s.accepting && !Stops(steps)
    ensures t.dropped <==> s.dropped || ComesTooLate(!s.accepting, steps)
    decreases |steps|
  {
    if steps != [] {
      StepTellsDrops(s, steps[0]);
      DropsAreTold(Apply(s, steps[0]), steps[1..], t);
      assert steps == [steps[0]] + steps[1..];
      StopsSplit(steps[0], steps[1..]);
      LateSplit(!s.accepting, steps[0], steps[1..]);
    }
  }

  /** The executor accepts work until it is stopped, and a task is lost exactly when it is handed over after that. */
  lemma DroppedExactly(steps: seq<Action>, s: State)
    requires Runs(INITIAL, steps, s)
    ensures s.accepting <==> !Stops(steps)
    ensures s.dropped <==> exists i, j :: 0 <= i < j < |steps| && steps[i].StopExecutor? && steps[j].NotifyExecute?
  {
    DropsAreTold(INITIAL, steps, s);
    if i, j :| 0 <= i < j < |steps| && steps[i].StopExecutor? && steps[j].NotifyExecute? {
      assert steps[..j][i].StopExecutor?;
    }
  }

  // ---------------------------------------------------------------- work left

  /** How far the active party is from parking the task. */
  function Stage(s: State, t: Party): nat {
    match t
    case Notifier(n) => if NotifierAt(s, n, Won) then 12 else 11
    case Executor => 10
    case Runner(w) =>
      if w !in s.runners then 0 else
        match s.runners[w]
        case Starting => 9
        case Reclaiming => 9
        case Beginning => 8
        case InPoll => 7
        case Finishing => 6
        case Parking => 6
        case Closing => 5
        case Retrying(_) => 4
  }

  function Extra(s: State): nat {
    if s.status == Repoll then 10 else 0
  }

  ghost function Load(s: State): nat {
    Extra(s) + if exists t :: Active(s, t) then var t :| Active(s, t); Stage(s, t) else 0
  }

  lemma LoadIs(s: State, t: Party)
    requires Inv(s) && Active(s, t)
    ensures Load(s) == Extra(s) + Stage(s, t)
  {
  }

  /** Calls of notify() whose next step cannot take effect, because they have not read the present status. */
  function Stale(s: State): set<nat> {
    set n | n in Undecided(s) && s.notifiers[n] != Deciding(s.status)
  }

  /** What is left becomes less, in the order of what can start more of it. */
  ghost predicate Less(s': State, s: State) {
    || |Undecided(s')| < |Undecided(s)|
    || (|Undecided(s')| == |Undecided(s)| && Load(s') < Load(s))
    || (|Undecided(s')| == |Undecided(s)| && Load(s') == Load(s) && |Stale(s')| < |Stale(s)|)
  }

  lemma ActiveStepWorksOff(s: State, a: Action, t: Party)
    requires Inv(s) && Enabled(s, a) && ActorOf(a) == By(t) && Active(s, t)
    ensures Undecided(Apply(s, a)) == Undecided(s) && Load(Apply(s, a)) < Load(s)
  {
    var s' := Apply(s, a);
    StepKeepsInv(s, a);
    LoadIs(s, t);
    assert ActiveStatus(s, t);
    if t' :| Active(s', t') {
      LoadIs(s', t');
      ActiveMoves(s, a, t, t');
    }
  }

  /** Who is active after a step of the active party. */
  lemma ActiveMoves(s: State, a: Action, t: Party, t': Party)
    requires Inv(s) && Enabled(s, a) && ActorOf(a) == By(t) && Active(s, t) && Active(Apply(s, a), t')
    ensures t' == if a.NotifyExecute? then Executor else if a.Dequeue? then Runner(a.w) else t
  {
    assert Active(s, t') ==> t' == t;
    if a.Dequeue? {
      assert !Active(s, Runner(a.w));
    }
  }

  lemma SameLoad(s: State, s': State)
    requires Inv(s) && Inv(s') && s'.status == s.status
    requires forall t :: (Active(s', t) <==> Active(s, t)) && Stage(s', t) == Stage(s, t)
    ensures Load(s') == Load(s)
  {
    if t :| Active(s, t) {
      LoadIs(s, t);
      LoadIs(s', t);
    }
  }

  lemma SameParties(s: State, n: nat, read: Status)
    requires n in Undecided(s)
    ensures var s' := Move(s, n, Deciding(read));
            forall t :: (Active(s', t) <==> Active(s, t)) && Stage(s', t) == Stage(s, t)
  {
  }

  /** The call has read the present status and can go on, or has nothing left to do. */
  predicate CatchesUp(s: State, n: nat, s': State) {
    || s' == Return(Ask(s), n)
    || (s' == Move(s, n, Deciding(s.status)) && s.status in {Waiting, Polling})
  }

  lemma NotifierCatchesUp(s: State, a: Action)
    requires Enabled(s, a) && (a.NotifyLoad? || (a.NotifyExchange? && !Grants(s, a)))
    ensures a.n in Stale(s) && CatchesUp(s, a.n, Apply(s, a))
  {
  }

  /** Reading the status, or failing to exchange it, either ends the call or brings it up to date. */
  lemma CatchingUpLeavesLess(s: State, n: nat, s': State)
    requires Inv(s) && Inv(s') && n in Stale(s) && CatchesUp(s, n, s')
    ensures Less(s', s)
  {
    if s' == Return(Ask(s), n) {
      assert Undecided(s') == Undecided(s) - {n};
      Removed(Undecided(s), n);
    } else {
      assert Undecided(s') == Undecided(s) && Stale(s') == Stale(s) - {n};
      Removed(Stale(s), n);
      SameParties(s, n, s.status);
      SameLoad(s, s');
    }
  }

  lemma StepLeavesLess(s: State, a: Action)
    requires Inv(s) && Enabled(s, a) && ActorOf(a).By?
    ensures Less(Apply(s, a), s)
  {
    if a.NotifyLoad? || a.NotifyExchange? {
      if Grants(s, a) {
        StepDecides(s, a);
        Removed(Undecided(s), a.n);
      } else {
        NotifierCatchesUp(s, a);
        StepKeepsInv(s, a);
        CatchingUpLeavesLess(s, a.n, Apply(s, a));
      }
    } else {
      ActiveStepWorksOff(s, a, ActorOf(a).t);
    }
  }

  lemma SomebodyCanStep(s: State) returns (t: Party)
    requires Inv(s) && !AtRest(s)
    ensures CanStep(s, t)
  {
    if s.queue > 0 {
      t := Executor;
      assert Active(s, t);
      assert !Active(s, Runner(0));
      assert Enabled(s, Dequeue(0)) && ActorOf(Dequeue(0)) == By(t);
    } else if s.runners != map[] {
      var w :| w in s.runners;
      t := Runner(w);
      RunnerCanStep(s, w);
    } else {
      var n :| n in s.notifiers;
      t := Notifier(n);
      NotifierCanStep(s, n);
    }
  }

  lemma RunnerCanStep(s: State, w: nat)
    requires w in s.runners
    ensures CanStep(s, Runner(w))
  {
    var a := match s.runners[w]
      case Starting => StartPoll(w)
      case Beginning => BeginPoll(w)
      case InPoll => PollDone(w)
      case Finishing => StoreComplete(w)
      case Parking => Park(w)
      case Closing => Close(w)
      case Retrying(_) => Reopen(w)
      case Reclaiming => Reclaim(w);
    assert Enabled(s, a) && ActorOf(a) == By(Runner(w));
  }

  lemma NotifierCanStep(s: State, n: nat)
    requires n in s.notifiers
    ensures CanStep(s, Notifier(n))
  {
    var a := match s.notifiers[n]
      case Loading => NotifyLoad(n)
      case Deciding(_) => NotifyExchange(n)
      case Won => NotifyTake(n)
      case Carrying => NotifyExecute(n);
    assert Enabled(s, a) && ActorOf(a) == By(Notifier(n));
  }

  // ---------------------------------------------------------------- coming to rest

  ghost predicate NoMoreNotifications(acts: nat -> Action, i: nat) {
    forall l: nat :: l >= i ==> !acts(l).NotifyBegin?
  }

  /** While no party steps, nothing changes but whether the executor accepts work. */
  lemma {:induction false} NothingHappens(b: nat -> State, acts: nat -> Action, i: nat, l: nat)
    requires Behavior(b, acts) && NoMoreNotifications(acts, i) && i <= l
    requires forall k: nat :: i <= k < l ==> ActorOf(acts(k)) == Environment
    ensures b(l) == b(i).(accepting := b(l).accepting)
    decreases l - i
  {
    if i < l {
      NothingHappens(b, acts, i + 1, l);
    }
  }

  lemma StillCanStep(s: State, s': State, t: Party)
    requires CanStep(s, t) && s' == s.(accepting := s'.accepting)
    ensures CanStep(s', t)
  {
    var a :| ActorOf(a) == By(t) && Enabled(s, a);
    assert Enabled(s', a);
  }

  lemma IdlingIsUnfair(b: nat -> State, acts: nat -> Action, i: nat, t: Party)
    requires Behavior(b, acts) && NoMoreNotifications(acts, i) && CanStep(b(i), t)
    requires forall k: nat :: k >= i ==> ActorOf(acts(k)) == Environment
    ensures !Fair(b, acts)
  {
    forall l: nat | l >= i ensures CanStep(b(l), t) {
      NothingHappens(b, acts, i, l);
      StillCanStep(b(i), b(l), t);
    }
    assert CanAlwaysStep(b, t, i) && !StepsAgain(acts, t, i);
  }

  /** Under fairness somebody steps, unless the task is at rest. */
  lemma SomebodySteps(b: nat -> State, acts: nat -> Action, i: nat) returns (j: nat)
    requires Behavior(b, acts) && Fair(b, acts) && NoMoreNotifications(acts, i) && !AtRest(b(i))
    ensures j >= i && ActorOf(acts(j)).By? && forall k: nat :: i <= k < j ==> ActorOf(acts(k)) == Environment
  {
    BehaviorInv(b, acts, i);
    var t := SomebodyCanStep(b(i));
    if forall k: nat :: k >= i ==> ActorOf(acts(k)) == Environment {
      IdlingIsUnfair(b, acts, i, t);
    }
    var h: nat :| h >= i && ActorOf(acts(h)) != Environment;
    j := FirstParty(acts, i, h);
  }

  lemma FirstParty(acts: nat -> Action, i: nat, h: nat) returns (j: nat)
    requires i <= h && ActorOf(acts(h)) != Environment
    ensures i <= j <= h && ActorOf(acts(j)).By? && forall k: nat :: i <= k < j ==> ActorOf(acts(k)) == Environment
    decreases h - i
  {
    if ActorOf(acts(i)) != Environment {
      j := i;
    } else {
      j := FirstParty(acts, i + 1, h);
    }
  }

  lemma SameLeft(s: State, s': State)
    requires Inv(s) && Inv(s') && s' == s.(accepting := s'.accepting)
    ensures Undecided(s') == Undecided(s) && Load(s') == Load(s) && Stale(s') == Stale(s)
  {
    forall t ensures (Active(s', t) <==> Active(s, t)) && Stage(s', t) == Stage(s, t) {
    }
    SameLoad(s, s');
  }

  lemma {:induction false} RestComes(b: nat -> State, acts: nat -> Action, i: nat) returns (j: nat)
    requires Behavior(b, acts) && Fair(b, acts) && NoMoreNotifications(acts, i)
    ensures j >= i && AtRest(b(j))
    decreases |Undecided(b(i))|, Load(b(i)), |Stale(b(i))|
  {
    if AtRest(b(i)) {
      j := i;
    } else {
      var m := SomebodySteps(b, acts, i);
      NothingHappens(b, acts, i, m);
      BehaviorInv(b, acts, i);
      BehaviorInv(b, acts, m);
      SameLeft(b(i), b(m));
      StepLeavesLess(b(m), acts(m));
      j := RestComes(b, acts, m + 1);
    }
  }

  lemma {:induction false} RestStays(b: nat -> State, acts: nat -> Action, j: nat, l: nat)
    requires Behavior(b, acts) && NoMoreNotifications(acts, j) && AtRest(b(j)) && j <= l
    ensures b(l) == b(j).(accepting := b(l).accepting)
    decreases l - j
  {
    if j < l {
      if ActorOf(acts(j)).By? {
        NobodyCanStep(b(j), ActorOf(acts(j)).t);
      }
      RestStays(b, acts, j + 1, l);
    }
  }

  /** A future that never answers that it is ready. */
  ghost predicate NeverReady(acts: nat -> Action) {
    forall l: nat :: !acts(l).PollDone?
  }

  predicate Unfinished(s: State) {
    s.status != Complete && forall w :: w in s.runners ==> s.runners[w] != Finishing
  }

  lemma StepKeepsUnfinished(s: State, a: Action)
    requires Enabled(s, a) && Unfinished(s) && !a.PollDone?
    ensures Unfinished(Apply(s, a))
  {
  }

  lemma {:induction false} NeverFinishes(b: nat -> State, acts: nat -> Action, i: nat)
    requires Behavior(b, acts) && NeverReady(acts)
    ensures Unfinished(b(i))
  {
    if i > 0 {
      NeverFinishes(b, acts, i - 1);
      StepKeepsUnfinished(b(i - 1), acts(i - 1));
    }
  }

  /**
    When the notifications stop, the task comes to rest: from some point on nobody has anything
    to do with it and it is not polled again.  If the executor was not stopped all that was
    asked for has been answered by then, and a task that is never ready is parked.
  */
  lemma TaskComesToRest(b: nat -> State, acts: nat -> Action, i: nat) returns (j: nat)
    requires Behavior(b, acts) && Fair(b, acts) && NoMoreNotifications(acts, i)
    ensures j >= i && forall l: nat :: l >= j ==> AtRest(b(l)) && b(l) == b(j).(accepting := b(l).accepting)
    ensures (forall l: nat :: acts(l) != StopExecutor) ==> b(j).polls >= b(j).wanted || b(j).status == Complete
    ensures (forall l: nat :: acts(l) != StopExecutor) && NeverReady(acts) ==> b(j).status == Waiting && b(j).data
  {
    j := RestComes(b, acts, i);
    forall l: nat | l >= j ensures AtRest(b(l)) && b(l) == b(j).(accepting := b(l).accepting) {
      RestStays(b, acts, j, l);
    }
    BehaviorInv(b, acts, j);
    assert forall t :: !Active(b(j), t);
    if forall l: nat :: acts(l) != StopExecutor {
      NeverStopped(b, acts, j);
      if NeverReady(acts) {
        NeverFinishes(b, acts, j);
      }
    }
  }
}
