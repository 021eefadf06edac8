/**
  TimerKeeper: one event-loop timer and a list in order of arrival stand in for a priority
  queue.  That is right as long as tokens arrive in the order of their deadlines, as they do
  if every token waits equally long.  Times are real numbers.
*/
module TimerKeeper {
  import opened Wrappers

  datatype Token = Token(id: nat, deadline: real)

  predicate Sorted(tokens: seq<Token>) {
    forall i, j :: 0 <= i < j < |tokens| ==> tokens[i].deadline <= tokens[j].deadline
  }

  /** The timer is set, and for no later than any token waits; otherwise a token is missed. */
  predicate Covers(armed: Option<real>, tokens: seq<Token>) {
    tokens != [] ==> armed.Some? && forall i :: 0 <= i < |tokens| ==> armed.value <= tokens[i].deadline
  }

  /** The tokens that are due, and those that are not, in order. */
  function Due(tokens: seq<Token>, now: real): seq<Token> {
    if tokens == [] then []
    else (if tokens[0].deadline <= now then [tokens[0]] else []) + Due(tokens[1..], now)
  }

  function NotDue(tokens: seq<Token>, now: real): seq<Token> {
    if tokens == [] then []
    else (if tokens[0].deadline <= now then [] else [tokens[0]]) + NotDue(tokens[1..], now)
  }

  /** How many tokens at the front are due. */
  function DueFront(tokens: seq<Token>, now: real): (k: nat)
    ensures k <= |tokens| && (forall i :: 0 <= i < k ==> tokens[i].deadline <= now)
    ensures k < |tokens| ==> tokens[k].deadline > now
  {
    if tokens == [] || tokens[0].deadline > now then 0 else 1 + DueFront(tokens[1..], now)
  }

  lemma {:induction false} NoneDue(tokens: seq<Token>, now: real)
    ensures (Due(tokens, now) == []) <==> (forall i :: 0 <= i < |tokens| ==> tokens[i].deadline > now)
    ensures Due(tokens, now) == [] ==> NotDue(tokens, now) == tokens
  {
    if tokens != [] {
      NoneDue(tokens[1..], now);
    }
  }

  lemma {:induction false} DueSplit(tokens: seq<Token>, k: nat, now: real)
    requires k <= |tokens| && forall i :: 0 <= i < k ==> tokens[i].deadline <= now
    ensures Due(tokens, now) == tokens[..k] + Due(tokens[k..], now)
    ensures NotDue(tokens, now) == NotDue(tokens[k..], now)
  {
    if k > 0 {
      DueSplit(tokens[1..], k - 1, now);
      assert tokens[1..][k - 1..] == tokens[k..] && tokens[..k] == [tokens[0]] + tokens[1..][..k - 1];
    }
  }

  /** The tokens due are those at the front exactly if no other is due; in a sorted list none is. */
  lemma FrontIsDue(tokens: seq<Token>, now: real)
    ensures var k := DueFront(tokens, now);
            && (Due(tokens, now) == tokens[..k] <==> forall i :: k <= i < |tokens| ==> tokens[i].deadline > now)
            && (Due(tokens, now) == tokens[..k] ==> NotDue(tokens, now) == tokens[k..])
            && (Sorted(tokens) ==> Due(tokens, now) == tokens[..k])
  {
    var k := DueFront(tokens, now);
    DueSplit(tokens, k, now);
    NoneDue(tokens[k..], now);
    DueBehind(tokens, k, now);
    NothingBehind(tokens[..k], Due(tokens[k..], now));
  }

  lemma NothingBehind(front: seq<Token>, behind: seq<Token>)
    ensures front + behind == front <==> behind == []
  {
    assert |front + behind| == |front| + |behind|;
  }

  lemma DueBehind(tokens: seq<Token>, k: nat, now: real)
    requires k <= |tokens| && (k < |tokens| ==> tokens[k].deadline > now)
    ensures (forall i :: 0 <= i < |tokens[k..]| ==> tokens[k..][i].deadline > now)
       <==> (forall i :: k <= i < |tokens| ==> tokens[i].deadline > now)
    ensures Sorted(tokens) ==> forall i :: k <= i < |tokens| ==> tokens[i].deadline > now
  {
    assert forall i :: k <= i < |tokens| ==> tokens[k..][i - k] == tokens[i];
  }

  function Without(tokens: seq<Token>, id: nat): seq<Token> {
    if tokens == [] then []
    else (if tokens[0].id == id then [] else [tokens[0]]) + Without(tokens[1..], id)
  }

  lemma {:induction false} WithoutIsPart(tokens: seq<Token>, id: nat)
    ensures forall t :: t in Without(tokens, id) <==> t in tokens && t.id != id
    ensures Sorted(tokens) ==> Sorted(Without(tokens, id))
  {
    if tokens != [] {
      WithoutIsPart(tokens[1..], id);
      if Sorted(tokens) && tokens[0].id != id {
        var rest := Without(tokens[1..], id);
        forall j | 0 <= j < |rest| ensures tokens[0].deadline <= rest[j].deadline {
          assert rest[j] in tokens[1..];
        }
      }
    }
  }

  // ---------------------------------------------------------------- the keeper as a value

  /** The tokens in order of arrival, and when the event loop is going to call onTimer. */
  datatype Keeper = Keeper(pending: seq<Token>, armed: Option<real>)

  /** addTimer sets the timer only for a token that is alone. */
  function Added(k: Keeper, token: Token): Keeper {
    Keeper(k.pending + [token], if k.pending == [] then Some(token.deadline) else k.armed)
  }

  /** A cancelled token leaves the list, and the timer as it is. */
  function Dropped(k: Keeper, id: nat): Keeper {
    k.(pending := Without(k.pending, id))
  }

  /** onTimer takes the tokens due off the front and sets the timer for the first of the others. */
  function Fired(k: Keeper, now: real): Keeper {
    var left := k.pending[DueFront(k.pending, now)..];
    Keeper(left, if left == [] then None else Some(left[0].deadline))
  }

  /** What happens to a keeper besides new tokens; the timer may go off late. */
  datatype Event = Fire(now: real) | Drop(id: nat)

  predicate Possible(k: Keeper, e: Event) {
    e.Fire? ==> k.armed.Some? && k.armed.value <= e.now
  }

  function After(k: Keeper, e: Event): Keeper {
    match e
    case Fire(now) => Fired(k, now)
    case Drop(id) => Dropped(k, id)
  }

  ghost predicate Leads(k: Keeper, events: seq<Event>, k': Keeper)
    decreases |events|
  {
    if events == [] then k' == k
    else Possible(k, events[0]) && Leads(After(k, events[0]), events[1..], k')
  }

  /** Whenever the timer goes off and whichever tokens are cancelled, no token is ever missed. */
  ghost predicate NeverMisses(k: Keeper) {
    forall events, k' :: Leads(k, events, k') ==> Covers(k'.armed, k'.pending)
  }

  predicate InOrder(k: Keeper) {
    Sorted(k.pending) && Covers(k.armed, k.pending)
  }

  lemma EventKeepsOrder(k: Keeper, e: Event)
    requires InOrder(k)
    ensures InOrder(After(k, e))
  {
    match e
    case Fire(now) =>
      var n := DueFront(k.pending, now);
      assert forall i :: 0 <= i < |k.pending| - n ==> k.pending[n..][i] == k.pending[n + i];
    case Drop(id) =>
      WithoutIsPart(k.pending, id);
      var left := Without(k.pending, id);
      forall i | 0 <= i < |left| ensures k.armed.Some? && k.armed.value <= left[i].deadline {
        assert left[i] in k.pending;
      }
  }

  lemma {:induction false} OrderCovers(k: Keeper, events: seq<Event>, k': Keeper)
    requires InOrder(k) && Leads(k, events, k')
    ensures InOrder(k')
    decreases |events|
  {
    if events != [] {
      EventKeepsOrder(k, events[0]);
      OrderCovers(After(k, events[0]), events[1..], k');
    }
  }

  lemma SortedOn(tokens: seq<Token>, n: nat)
    requires 0 < n <= |tokens| && Sorted(tokens[..n - 1])
    requires n > 1 ==> tokens[n - 2].deadline <= tokens[n - 1].deadline
    ensures Sorted(tokens[..n])
  {
    assert forall i :: 0 <= i < n - 1 ==> tokens[..n][i] == tokens[..n - 1][i];
  }

  /** The first place where a deadline is before the one in front of it. */
  lemma {:induction false} FirstDescent(tokens: seq<Token>, n: nat) returns (d: nat)
    requires n <= |tokens| && !Sorted(tokens[..n])
    ensures 0 < d < n && tokens[d].deadline < tokens[d - 1].deadline && Sorted(tokens[..d])
  {
    if Sorted(tokens[..n - 1]) {
      d := n - 1;
      if n == 1 || tokens[n - 2].deadline <= tokens[n - 1].deadline {
        SortedOn(tokens, n);
      }
    } else {
      d := FirstDescent(tokens, n - 1);
    }
  }

  /** A timer that goes off at the deadline of a token behind a later one leaves it behind. */
  lemma DescentIsMissed(k: Keeper, d: nat)
    requires 0 < d < |k.pending| && k.pending[d].deadline < k.pending[d - 1].deadline && Sorted(k.pending[..d])
    ensures var k' := Fired(k, k.pending[d].deadline); !Covers(k'.armed, k'.pending)
  {
    var now := k.pending[d].deadline;
    var n := DueFront(k.pending, now);
    assert n <= d - 1;
    var left := k.pending[n..];
    assert left[d - n] == k.pending[d];
  }

  /** No token is ever missed exactly if the tokens are in order and the timer is no later than the first. */
  lemma NeverMissesExactly(k: Keeper)
    ensures NeverMisses(k) <==> InOrder(k)
  {
    if InOrder(k) {
      forall events, k' | Leads(k, events, k') ensures Covers(k'.armed, k'.pending) {
        OrderCovers(k, events, k');
      }
    } else if !Covers(k.armed, k.pending) {
      assert Leads(k, [], k);
    } else {
      assert k.pending[..|k.pending|] == k.pending;
      var d := FirstDescent(k.pending, |k.pending|);
      DescentIsMissed(k, d);
      var e := Fire(k.pending[d].deadline);
      assert Leads(After(k, e), [], After(k, e)) && [e][1..] == [];
      assert Leads(k, [e], After(k, e));
    }
  }

  /** A new token keeps it so exactly if its deadline is not before that of the last one. */
  lemma AddExactly(k: Keeper, token: Token)
    requires NeverMisses(k)
    ensures NeverMisses(Added(k, token)) <==>
              k.pending == [] || k.pending[|k.pending| - 1].deadline <= token.deadline
  {
    NeverMissesExactly(k);
    NeverMissesExactly(Added(k, token));
    var n, pending := |k.pending|, Added(k, token).pending;
    assert pending[n] == token && forall i :: 0 <= i < n ==> pending[i] == k.pending[i];
  }

  /** The timer that onTimer sets covers those left exactly if the first of them is due first. */
  lemma FiredExactly(k: Keeper, now: real)
    ensures var n, k' := DueFront(k.pending, now), Fired(k, now);
            Covers(k'.armed, k'.pending) <==>
              forall i :: n < i < |k.pending| ==> k.pending[n].deadline <= k.pending[i].deadline
    ensures NeverMisses(k) ==> NeverMisses(Fired(k, now)) && Sorted(k.pending)
  {
    var n := DueFront(k.pending, now);
    assert forall i :: n <= i < |k.pending| ==> k.pending[n..][i - n] == k.pending[i];
    NeverMissesExactly(k);
    NeverMissesExactly(Fired(k, now));
    if NeverMisses(k) {
      EventKeepsOrder(k, Fire(now));
    }
  }

  // ---------------------------------------------------------------- tokens that all wait equally long

  /** What happens to a keeper that is only used through doTimeout(), and to the clock. */
  datatype Call = Timeout(id: nat) | Elapse(later: real) | Other(event: Event)

  predicate Allowed(k: Keeper, now: real, c: Call) {
    match c
    case Timeout(_) => true
    case Elapse(later) => later >= now
    case Other(e) => Possible(k, e) && (e.Fire? ==> e.now == now)
  }

  function Next(k: Keeper, now: real, timeout: real, c: Call): Keeper {
    match c
    case Timeout(id) => Added(k, Token(id, now + timeout))
    case Elapse(_) => k
    case Other(e) => After(k, e)
  }

  function Clock(now: real, c: Call): real {
    if c.Elapse? then c.later else now
  }

  ghost predicate Reaches(k: Keeper, now: real, timeout: real, calls: seq<Call>, k': Keeper)
    decreases |calls|
  {
    if calls == [] then k' == k
    else
      Allowed(k, now, calls[0])
      && Reaches(Next(k, now, timeout, calls[0]), Clock(now, calls[0]), timeout, calls[1..], k')
  }

  predicate NoneLater(tokens: seq<Token>, latest: real) {
    forall i :: 0 <= i < |tokens| ==> tokens[i].deadline <= latest
  }

  lemma CallKeepsOrder(k: Keeper, now: real, timeout: real, c: Call)
    requires InOrder(k) && NoneLater(k.pending, now + timeout) && Allowed(k, now, c)
    ensures InOrder(Next(k, now, timeout, c)) && NoneLater(Next(k, now, timeout, c).pending, Clock(now, c) + timeout)
  {
    match c
    case Timeout(id) =>
      var token, pending := Token(id, now + timeout), k.pending + [Token(id, now + timeout)];
      assert pending[|k.pending|] == token && forall i :: 0 <= i < |k.pending| ==> pending[i] == k.pending[i];
    case Elapse(later) =>
    case Other(e) =>
      EventKeepsOrder(k, e);
      if e.Drop? {
        WithoutIsPart(k.pending, e.id);
        var left := Without(k.pending, e.id);
        forall i | 0 <= i < |left| ensures left[i].deadline <= now + timeout {
          assert left[i] in k.pending;
        }
      }
  }

  lemma {:induction false} CallsKeepOrder(k: Keeper, now: real, timeout: real, calls: seq<Call>, k': Keeper)
    requires InOrder(k) && NoneLater(k.pending, now + timeout) && Reaches(k, now, timeout, calls, k')
    ensures InOrder(k')
    decreases |calls|
  {
    if calls != [] {
      CallKeepsOrder(k, now, timeout, calls[0]);
      CallsKeepOrder(Next(k, now, timeout, calls[0]), Clock(now, calls[0]), timeout, calls[1..], k');
    }
  }

  /** A keeper whose tokens all come from doTimeout() never misses one. */
  lemma EqualWaitsNeverMiss(now: real, timeout: real, calls: seq<Call>, k: Keeper)
    requires Reaches(Keeper([], None), now, timeout, calls, k)
    ensures NeverMisses(k)
  {
    CallsKeepOrder(Keeper([], None), now, timeout, calls, k);
    NeverMissesExactly(k);
  }

  // ---------------------------------------------------------------- the object

  class TimerKeeper {
    const timeout: real
    /** The event loop's clock. */
    var now: real
    var pending: seq<Token>
    var armed: Option<real>

    function State(): Keeper
      reads this
    {
      Keeper(pending, armed)
    }

    constructor (timeout: real, now: real)
      ensures State() == Keeper([], None) && NeverMisses(State()) && this.timeout == timeout && this.now == now
    {
      this.timeout, this.now, pending, armed := timeout, now, [], None;
      new;
      NeverMissesExactly(Keeper([], None));
    }

    /** Time passes; it never runs backwards. */
    method Advance(later: real)
      requires later >= now
      modifies this`now
      ensures now == later
    {
      now := later;
    }

    /** doTimeout(): a token for `timeout` from now. */
    method DoTimeout(id: nat) returns (token: Token)
      modifies this`pending, this`armed
      ensures token == Token(id, now + timeout) && State() == Added(old(State()), token)
      ensures NeverMisses(old(State())) ==>
                (NeverMisses(State()) <==> old(pending == [] || pending[|pending| - 1].deadline <= now + timeout))
    {
      token := Token(id, now + timeout);
      AddTimer(token);
    }

    /**
      addTimer, with any deadline.  The list stays sorted exactly if the deadline is not before
      the last one, and the timer still covers everybody exactly if the deadline is not before
      the timer; the first is what keeps every token from being missed later on.
    */
    method AddTimer(token: Token)
      modifies this`pending, this`armed
      ensures State() == Added(old(State()), token)
      ensures Sorted(pending) <==>
                old(Sorted(pending) && (pending == [] || pending[|pending| - 1].deadline <= token.deadline))
      ensures Covers(armed, pending) <==>
                old(pending == [] || (Covers(armed, pending) && armed.value <= token.deadline))
      ensures NeverMisses(old(State())) ==>
                (NeverMisses(State()) <==> old(pending == [] || pending[|pending| - 1].deadline <= token.deadline))
    {
      if NeverMisses(State()) {
        AddExactly(State(), token);
      }
      pending := pending + [token];
      if |pending| == 1 {
        armed := Some(token.deadline);
      } else {
        assert pending[|pending| - 2] == old(pending[|pending| - 1]) && pending[|pending| - 1] == token;
        assert forall i :: 0 <= i < |pending| - 1 ==> pending[i] == old(pending[i]);
      }
    }

    /** A token is cancelled, wherever it stands; the timer is left as it is. */
    method Cancel(id: nat)
      modifies this`pending
      ensures State() == Dropped(old(State()), id)
      ensures NeverMisses(old(State())) ==> NeverMisses(State())
    {
      ghost var was := State();
      pending := Remove(pending, id);
      if NeverMisses(was) {
        NeverMissesExactly(was);
        EventKeepsOrder(was, Drop(id));
        NeverMissesExactly(State());
      }
    }

    static method Remove(tokens: seq<Token>, id: nat) returns (r: seq<Token>)
      ensures r == Without(tokens, id)
    {
      r := [];
      assert tokens[0..] == tokens;
      for i := 0 to |tokens|
        invariant r + Without(tokens[i..], id) == Without(tokens, id)
      {
        assert tokens[i..][1..] == tokens[i + 1..];
        if tokens[i].id != id {
          r := r + [tokens[i]];
        }
      }
    }

    /** The loop of onTimer. */
    method TakeDue() returns (done: seq<Token>)
      modifies this`pending
      ensures var k := DueFront(old(pending), now);
              done == old(pending)[..k] && pending == old(pending)[k..]
    {
      done := [];
      ghost var all := pending;
      ghost var k := DueFront(all, now);
      while pending != [] && now >= pending[0].deadline
        invariant |done| <= k && done == all[..|done|] && pending == all[|done|..]
        decreases |pending|
      {
        assert pending[0] == all[|done|];
        done := done + [pending[0]];
        pending := pending[1..];
      }
      assert pending != [] ==> pending[0] == all[|done|];
    }

    /**
      onTimer: completes the tokens due at the front of the list, in order, and sets the timer
      for the first of the others.  These are all the tokens due exactly if no token due stands
      behind one that is not, and the timer covers those left exactly if the first of them is
      due first.  With the tokens in order both hold.
    */
    method OnTimer() returns (done: seq<Token>)
      requires armed.Some? && armed.value <= now
      modifies this`pending, this`armed
      ensures State() == Fired(old(State()), now) && done + pending == old(pending)
      ensures var k, all := DueFront(old(pending), now), old(pending);
              && (done == Due(all, now) <==> forall i :: k <= i < |all| ==> all[i].deadline > now)
              && (Covers(armed, pending) <==> forall i :: k < i < |all| ==> all[k].deadline <= all[i].deadline)
      ensures NeverMisses(old(State())) ==>
                NeverMisses(State()) && done == Due(old(pending), now) && pending == NotDue(old(pending), now)
    {
      FrontIsDue(pending, now);
      FiredExactly(State(), now);
      done := TakeAndSet();
    }

    method TakeAndSet() returns (done: seq<Token>)
      modifies this`pending, this`armed
      ensures State() == Fired(old(State()), now) && done == old(pending)[..DueFront(old(pending), now)]
    {
      armed := None;
      done := TakeDue();
      if pending != [] {
        armed := Some(now + (pending[0].deadline - now));
      }
    }
  }

  // ---------------------------------------------------------------- tokens that are missed

  /** A token with a deadline of its own can be missed: it is due, and the timer is not. */
  method MissedToken() returns (keeper: TimerKeeper)
    ensures fresh(keeper) && keeper.armed == Some(10.0)
    ensures keeper.pending == [Token(0, 10.0), Token(1, 3.0)]
    ensures !Covers(keeper.armed, keeper.pending)
  {
    keeper := new TimerKeeper(10.0, 0.0);
    var first := keeper.DoTimeout(0);
    keeper.AddTimer(Token(1, 3.0));
    assert keeper.pending[1] == Token(1, 3.0);
  }

  /** So can one made by doTimeout(), behind a token with a deadline of its own. */
  method MissedTimeout() returns (keeper: TimerKeeper)
    ensures fresh(keeper) && keeper.armed == Some(100.0)
    ensures keeper.pending == [Token(1, 100.0), Token(2, 10.0)]
    ensures !Covers(keeper.armed, keeper.pending)
  {
    keeper := new TimerKeeper(10.0, 0.0);
    keeper.AddTimer(Token(1, 100.0));
    var second := keeper.DoTimeout(2);
    assert keeper.pending[1] == Token(2, 10.0);
  }

  /** And so can one that the timer covered at first, once the timer is set again. */
  method MissedWhenSetAgain() returns (covered: bool, keeper: TimerKeeper)
    ensures covered && fresh(keeper) && keeper.now == 11.0 && keeper.armed == Some(15.0)
    ensures keeper.pending == [Token(1, 15.0), Token(2, 12.0)]
    ensures !Covers(keeper.armed, keeper.pending)
  {
    keeper := new TimerKeeper(10.0, 0.0);
    var first := keeper.DoTimeout(0);
    keeper.AddTimer(Token(1, 15.0));
    keeper.AddTimer(Token(2, 12.0));
    var pending := [Token(0, 10.0), Token(1, 15.0), Token(2, 12.0)];
    assert keeper.State() == Keeper(pending, Some(10.0));
    covered := Covers(keeper.armed, keeper.pending);
    keeper.Advance(11.0);
    FrontIs(pending, 11.0, 1);
    assert pending[1..] == [Token(1, 15.0), Token(2, 12.0)];
    var done := keeper.OnTimer();
    assert keeper.pending[1] == Token(2, 12.0);
  }

  lemma FrontIs(tokens: seq<Token>, now: real, k: nat)
    requires k <= |tokens| && (forall i :: 0 <= i < k ==> tokens[i].deadline <= now)
    requires k < |tokens| ==> tokens[k].deadline > now
    ensures DueFront(tokens, now) == k
  {
    var n := DueFront(tokens, now);
    assert !(n < k) && !(k < n);
  }
}
