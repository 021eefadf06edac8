/**
  SharedFuture: many clones, polled by many tasks, over one inner future.  poll() and the
  destructor hold the lock throughout, so each is one step.
*/
module SharedFuture {
  import opened Wrappers

  /** What the inner future produces in the end: an item or an exception, by number. */
  type Outcome = nat

  /**
    `answers` records what the inner future said each time it was polled, `returned` what
    polls of clones returned.  `asleep` are the tasks that were told not-ready and have not
    been woken or polled again since; `registered` is the task the inner future would wake.
  */
  datatype State = State(
    clones: set<nat>,
    result: Option<Outcome>,
    waiters: seq<nat>,
    asleep: set<nat>,
    registered: Option<nat>,
    answers: seq<Option<Outcome>>,
    returned: seq<Outcome>)

  const INITIAL := State({0}, None, [], {}, None, [], [])

  datatype Action =
    | Poll(clone: nat, task: nat, answer: Option<Outcome>)
    | Copy(clone: nat, to: nat)
    | Drop(clone: nat)
    | InnerWakes

  predicate Enabled(s: State, a: Action) {
    match a
    case Poll(c, _, _) => c in s.clones
    case Copy(c, d) => c in s.clones && d !in s.clones
    case Drop(c) => c in s.clones
    case InnerWakes => s.registered.Some?
  }

  /** unpark_all() */
  function WakeAll(s: State): State {
    s.(asleep := s.asleep - (set t | t in s.waiters), waiters := [])
  }

  function Answered(s: State, task: nat, answer: Option<Outcome>): State {
    var t := s.(answers := s.answers + [answer], asleep := s.asleep - {task});
    match answer
    case Some(v) => WakeAll(t.(result := Some(v), registered := None, returned := s.returned + [v]))
    case None => t.(waiters := s.waiters + [task], asleep := t.asleep + {task}, registered := Some(task))
  }

  function Apply(s: State, a: Action): State
    requires Enabled(s, a)
  {
    match a
    case Poll(_, task, answer) =>
      if s.result.Some? then s.(returned := s.returned + [s.result.value], asleep := s.asleep - {task})
      else Answered(s, task, answer)
    case Copy(_, d) => s.(clones := s.clones + {d})
    case Drop(c) =>
      var t := s.(clones := s.clones - {c});
      if s.result.Some? then t else WakeAll(t)
    case InnerWakes => s.(asleep := s.asleep - {s.registered.value}, registered := None)
  }

  ghost predicate Runs(s: State, steps: seq<Action>, t: State)
    decreases |steps|
  {
    if steps == [] then s == t
    else Enabled(s, steps[0]) && Runs(Apply(s, steps[0]), steps[1..], t)
  }

  ghost predicate Reachable(t: State) {
    exists steps :: Runs(INITIAL, steps, t)
  }

  // ---------------------------------------------------------------- the invariant

  /** The inner future was polled until it was ready, and not again. */
  ghost predicate AnswersOk(s: State) {
    && (forall i :: 0 <= i < |s.answers| - 1 ==> s.answers[i] == None)
    && s.result == (if s.answers == [] then None else s.answers[|s.answers| - 1])
    && (s.result.Some? ==> s.registered == None)
    && forall i :: 0 <= i < |s.returned| ==> s.result == Some(s.returned[i])
  }

  /** Sleepers are on the list, and the last one on it is awake or registered with the inner future. */
  ghost predicate WaitersOk(s: State) {
    && (forall t :: t in s.asleep ==> t in s.waiters)
    && (s.result.Some? ==> s.waiters == [])
    && (s.waiters != [] ==>
          var last := s.waiters[|s.waiters| - 1];
          last in s.asleep ==> s.registered == Some(last))
  }

  ghost predicate Inv(s: State) {
    AnswersOk(s) && WaitersOk(s)
  }

  lemma StepKeepsInv(s: State, a: Action)
    requires Inv(s) && Enabled(s, a)
    ensures Inv(Apply(s, a))
  {
  }

  lemma {:induction false} RunKeepsInv(s: State, steps: seq<Action>, t: State)
    requires Inv(s) && Runs(s, steps, t)
    ensures Inv(t)
    decreases |steps|
  {
    if steps != [] {
      StepKeepsInv(s, steps[0]);
      RunKeepsInv(Apply(s, steps[0]), steps[1..], t);
    }
  }

  lemma ReachableInv(s: State)
    requires Reachable(s)
    ensures Inv(s)
  {
    var steps :| Runs(INITIAL, steps, s);
    RunKeepsInv(INITIAL, steps, s);
  }

  // ---------------------------------------------------------------- what holds in every run

  /** All polls that return a result return the same one: what the inner future produced. */
  lemma Agreement(s: State, i: nat, j: nat)
    requires Reachable(s) && i < |s.returned| && j < |s.returned|
    ensures s.returned[i] == s.returned[j]
    ensures s.answers != [] && s.answers[|s.answers| - 1] == Some(s.returned[i])
  {
    ReachableInv(s);
  }

  /** The inner future is never polled again once it has produced its result. */
  lemma PolledUntilReady(s: State, i: nat)
    requires Reachable(s) && i < |s.answers| && s.answers[i].Some?
    ensures i == |s.answers| - 1 && s.result == s.answers[i]
  {
    ReachableInv(s);
  }

  /** Nobody who was told not-ready is forgotten: they are on the list, or have been woken or polled since. */
  lemma NobodyForgotten(s: State, task: nat)
    requires Reachable(s) && task in s.asleep
    ensures task in s.waiters && s.result == None
  {
    ReachableInv(s);
  }

  /**
    The chain to the sleepers never breaks: while somebody sleeps, the last task to be told
    not-ready is registered with the inner future, or awake; and when a task finds the result,
    or gives up its clone, everybody is woken.
  */
  lemma SleepersAreReached(s: State)
    requires Reachable(s) && s.asleep != {}
    ensures s.waiters != []
    ensures var last := s.waiters[|s.waiters| - 1];
            last in s.asleep ==> s.registered == Some(last)
    ensures forall c, t, v :: Enabled(s, Poll(c, t, Some(v))) ==> Apply(s, Poll(c, t, Some(v))).asleep == {}
    ensures forall c :: Enabled(s, Drop(c)) ==> Apply(s, Drop(c)).asleep == {}
  {
    ReachableInv(s);
    var task :| task in s.asleep;
    assert task in s.waiters;
  }

  // ---------------------------------------------------------------- what the steps tell

  /**
    What a run has returned and who sleeps, as its steps alone tell it: the first ready answer
    is everybody's result, sleepers are those told not-ready since all were last woken, and the
    inner future wakes the last of them.
  */
  datatype Tale = Tale(
    clones: set<nat>,
    result: Option<Outcome>,
    asleep: set<nat>,
    last: Option<nat>,
    returned: seq<Outcome>)

  const OPENING := Tale({0}, None, {}, None, [])

  function Told(h: Tale, a: Action): Tale {
    match a
    case Poll(_, task, answer) =>
      var r := if h.result.Some? then h.result else answer;
      if r.Some? then Tale(h.clones, r, {}, None, h.returned + [r.value])
      else h.(asleep := h.asleep + {task}, last := Some(task))
    case Copy(_, d) => h.(clones := h.clones + {d})
    case Drop(c) => h.(clones := h.clones - {c}, asleep := {})
    case InnerWakes => h.(asleep := h.asleep - (if h.last.Some? then {h.last.value} else {}), last := None)
  }

  function ToldAll(h: Tale, steps: seq<Action>): Tale
    decreases |steps|
  {
    if steps == [] then h else ToldAll(Told(h, steps[0]), steps[1..])
  }

  predicate Matches(s: State, h: Tale) {
    && s.clones == h.clones
    && s.result == h.result
    && s.asleep == h.asleep
    && s.registered == h.last
    && s.returned == h.returned
  }

  lemma StepMatches(s: State, a: Action, h: Tale)
    requires Inv(s) && Enabled(s, a) && Matches(s, h)
    ensures Matches(Apply(s, a), Told(h, a))
  {
    if s.result.Some? {
      assert s.asleep == {};
    }
    assert s.asleep - (set t | t in s.waiters) == {};
  }

  lemma {:induction false} RunMatches(s: State, steps: seq<Action>, t: State, h: Tale)
    requires Inv(s) && Runs(s, steps, t) && Matches(s, h)
    ensures Matches(t, ToldAll(h, steps))
    decreases |steps|
  {
    if steps != [] {
      StepKeepsInv(s, steps[0]);
      StepMatches(s, steps[0], h);
      RunMatches(Apply(s, steps[0]), steps[1..], t, Told(h, steps[0]));
    }
  }

  /** Every poll from the first ready answer on returns it, earlier ones nothing, and the steps tell who sleeps. */
  lemma StepsTellAll(steps: seq<Action>, s: State)
    requires Runs(INITIAL, steps, s)
    ensures Matches(s, ToldAll(OPENING, steps))
  {
    RunMatches(INITIAL, steps, s, OPENING);
  }
}
