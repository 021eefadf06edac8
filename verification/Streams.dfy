/**
  Stream combinators.  A pipeline is one nested value that is polled from the outside; a
  source may answer "not ready" at any poll.  Whatever those answers are, the pipeline means
  the list function that its combinators spell.
*/
module Streams {
  import opened Wrappers

  /** Try: a value or a caught exception. */
  datatype Try<+T> = Ok(value: T) | Thrown(error: int)

  /** A future given to andThen: not ready `delay` more times, then its result. */
  datatype Future<+T> = Future(delay: nat, result: Try<T>)

  /** What the innermost stream will answer to its successive polls. */
  datatype Event<+T> = Next(item: T) | NotReady | Fail(error: int)

  /**
    The stream classes.  `inner` is the optional member stream_, empty once the stream has
    ended; `fut` is the future AndThenStream is waiting for.
  */
  datatype Stream<!T> =
    | Source(script: seq<Event<T>>)
    | MapStream(inner: Option<Stream<T>>, f: T -> Try<T>)
    | FilterStream(inner: Option<Stream<T>>, keep: T -> bool)
    | AndThenStream(inner: Option<Stream<T>>, g: T -> Try<Future<T>>, fut: Option<Future<T>>)
    | TakeStream(inner: Option<Stream<T>>, remain: nat)

  /** Poll<Optional<T>>; a poll of a cleared stream would throw OptionalEmptyException. */
  datatype Poll<+T> = Pending | Item(value: T) | End | Error(error: int)

  /** Every member stream is there, so no poll can run into an empty optional. */
  predicate Live<T>(s: Stream<T>) {
    s.Source? || (s.inner.Some? && Live(s.inner.value))
  }

  // ---------------------------------------------------------------- meaning

  datatype Finish = Eof | Failed(error: int)

  /** The items a stream delivers, and how it ends. */
  datatype Listing<T> = Listing(items: seq<T>, finish: Finish)

  function Cons<T>(x: T, l: Listing<T>): Listing<T> {
    Listing([x] + l.items, l.finish)
  }

  function OfScript<T>(script: seq<Event<T>>): Listing<T> {
    if script == [] then Listing([], Eof)
    else match script[0]
      case Next(x) => Cons(x, OfScript(script[1..]))
      case NotReady => OfScript(script[1..])
      case Fail(e) => Listing([], Failed(e))
  }

  function MapList<T>(f: T -> Try<T>, l: Listing<T>): Listing<T>
    decreases |l.items|
  {
    if l.items == [] then l
    else match f(l.items[0])
      case Ok(y) => Cons(y, MapList(f, Listing(l.items[1..], l.finish)))
      case Thrown(e) => Listing([], Failed(e))
  }

  function FilterList<T>(keep: T -> bool, l: Listing<T>): Listing<T>
    decreases |l.items|
  {
    if l.items == [] then l
    else
      var rest := FilterList(keep, Listing(l.items[1..], l.finish));
      if keep(l.items[0]) then Cons(l.items[0], rest) else rest
  }

  /** The result of the future in flight, then the rest. */
  function Settle<T>(r: Try<T>, rest: Listing<T>): Listing<T> {
    match r
    case Ok(y) => Cons(y, rest)
    case Thrown(e) => Listing([], Failed(e))
  }

  function AndThenList<T>(g: T -> Try<Future<T>>, l: Listing<T>): Listing<T>
    decreases |l.items|
  {
    if l.items == [] then l
    else match g(l.items[0])
      case Ok(fut) => Settle(fut.result, AndThenList(g, Listing(l.items[1..], l.finish)))
      case Thrown(e) => Listing([], Failed(e))
  }

  function TakeList<T>(n: nat, l: Listing<T>): Listing<T> {
    if n == 0 then Listing([], Eof)
    else if l.items == [] then l
    else Cons(l.items[0], TakeList(n - 1, Listing(l.items[1..], l.finish)))
  }

  function Meaning<T>(s: Stream<T>): Listing<T>
    requires Live(s)
  {
    match s
    case Source(script) => OfScript(script)
    case MapStream(inner, f) => MapList(f, Meaning(inner.value))
    case FilterStream(inner, keep) => FilterList(keep, Meaning(inner.value))
    case AndThenStream(inner, g, fut) =>
      var rest := AndThenList(g, Meaning(inner.value));
      if fut.Some? then Settle(fut.value.result, rest) else rest
    case TakeStream(inner, n) => TakeList(n, Meaning(inner.value))
  }

  // ---------------------------------------------------------------- progress

  /** Work left: halves at each andThen, so that an item outweighs the future made from it. */
  function Potential<T>(s: Stream<T>): nat
    requires Live(s)
  {
    match s
    case Source(script) => |script|
    case AndThenStream(inner, _, fut) => 2 * Potential(inner.value) + (if fut.Some? then 1 else 0)
    case _ => Potential(s.inner.value)
  }

  /** Not-ready answers left in the futures in flight. */
  function Delay<T>(s: Stream<T>): nat
    requires Live(s)
  {
    match s
    case Source(_) => 0
    case AndThenStream(inner, _, fut) => Delay(inner.value) + (if fut.Some? then fut.value.delay else 0)
    case _ => Delay(s.inner.value)
  }

  ghost predicate Progress<T>(s: Stream<T>, s': Stream<T>)
    requires Live(s) && Live(s')
  {
    Potential(s') < Potential(s) || (Potential(s') == Potential(s) && Delay(s') < Delay(s))
  }

  /** How many streams are nested. */
  function Depth<T>(s: Stream<T>): nat {
    if s.Source? || s.inner.None? then 0 else 1 + Depth(s.inner.value)
  }

  // ---------------------------------------------------------------- polling

  /**
    What a poll may do: answer "not ready" and lose nothing, deliver the first item of the
    meaning and keep the rest, or end exactly as the meaning ends.
  */
  ghost predicate Polled<T>(s: Stream<T>, r: Poll<T>, s': Stream<T>)
    requires Live(s)
  {
    && (r.Pending? || r.Item? ==> Live(s') && Depth(s') == Depth(s))
    && match r
       case Pending => Meaning(s') == Meaning(s) && Progress(s, s')
       case Item(x) => Meaning(s) == Cons(x, Meaning(s')) && Potential(s') < Potential(s)
       case End => Meaning(s) == Listing([], Eof)
       case Error(e) => Meaning(s) == Listing([], Failed(e))
  }

  /** No source and no future in the pipeline answers "not ready". */
  ghost predicate IsPrompt<T(!new)>(s: Stream<T>)
    requires Live(s)
  {
    match s
    case Source(script) => forall i :: 0 <= i < |script| ==> !script[i].NotReady?
    case AndThenStream(inner, g, fut) =>
      && IsPrompt(inner.value)
      && (forall x :: g(x).Ok? ==> g(x).value.delay == 0)
      && (fut.Some? ==> fut.value.delay == 0)
    case _ => IsPrompt(s.inner.value)
  }

  /** Then neither does the pipeline. */
  ghost predicate StaysPrompt<T(!new)>(s: Stream<T>, r: Poll<T>, s': Stream<T>)
    requires Live(s) && Polled(s, r, s')
  {
    IsPrompt(s) ==> !r.Pending? && (r.Item? ==> IsPrompt(s'))
  }

  /** The stream at the bottom of a pipeline. */
  method PollSource<T(!new)>(script: seq<Event<T>>) returns (r: Poll<T>, s': Stream<T>)
    ensures Polled(Source(script), r, s') && StaysPrompt(Source(script), r, s')
  {
    if script == [] {
      return End, Source([]);
    }
    s' := Source(script[1..]);
    match script[0]
    case Next(x) => r := Item(x);
    case NotReady => r := Pending;
    case Fail(e) => r := Error(e);
  }

  method PollMap<T(!new)>(s: Stream<T>) returns (r: Poll<T>, s': Stream<T>)
    requires Live(s) && s.MapStream?
    ensures Polled(s, r, s') && StaysPrompt(s, r, s')
    decreases Depth(s), 0
  {
    var inner;
    r, inner := PollStream(s.inner.value);
    match r {
      case Item(x) =>
        match s.f(x) {
          case Ok(y) =>
            return Item(y), MapStream(Some(inner), s.f);
          case Thrown(e) =>
            return Error(e), MapStream(None, s.f);
        }
      case Pending =>
        s' := MapStream(Some(inner), s.f);
      case _ =>
        s' := MapStream(None, s.f);
    }
  }

  method PollFilter<T(!new)>(s: Stream<T>) returns (r: Poll<T>, s': Stream<T>)
    requires Live(s) && s.FilterStream?
    ensures Polled(s, r, s') && StaysPrompt(s, r, s')
    decreases Depth(s), 0
  {
    var inner := s.inner.value;
    while true
      invariant Live(inner) && Depth(inner) == Depth(s.inner.value)
      invariant FilterList(s.keep, Meaning(inner)) == Meaning(s)
      invariant Potential(inner) < Potential(s) || inner == s.inner.value
      invariant IsPrompt(s) ==> IsPrompt(inner)
      decreases Potential(inner)
    {
      var inner';
      r, inner' := PollStream(inner);
      match r {
        case Item(x) =>
          inner := inner';
          if s.keep(x) {
            return r, FilterStream(Some(inner), s.keep);
          }
        case Pending =>
          return r, FilterStream(Some(inner'), s.keep);
        case _ =>
          return r, FilterStream(None, s.keep);
      }
    }
  }

  /** The branch on fut_: the stream itself is not touched while a future is in flight. */
  method PollFuture<T(!new)>(s: Stream<T>, fut: Future<T>) returns (r: Poll<T>, s': Stream<T>)
    requires Live(s) && s.AndThenStream? && s.fut == Some(fut)
    ensures Polled(s, r, s') && StaysPrompt(s, r, s')
    ensures r.Pending? || r.Item? ==> s'.AndThenStream? && s'.inner == s.inner
    ensures r.Pending? <==> fut.delay > 0
  {
    if fut.delay > 0 {
      return Pending, s.(fut := Some(fut.(delay := fut.delay - 1)));
    }
    match fut.result {
      case Ok(y) =>
        return Item(y), s.(fut := None);
      case Thrown(e) =>
        return Error(e), AndThenStream(None, s.g, None);
    }
  }

  method PollAndThen<T(!new)>(s: Stream<T>) returns (r: Poll<T>, s': Stream<T>)
    requires Live(s) && s.AndThenStream?
    ensures Polled(s, r, s') && StaysPrompt(s, r, s')
    ensures s.fut.Some? && (r.Pending? || r.Item?) ==> s'.AndThenStream? && s'.inner == s.inner
    ensures s.fut.Some? ==> (r.Pending? <==> s.fut.value.delay > 0)
    decreases Depth(s), 0
  {
    if s.fut.Some? {
      r, s' := PollFuture(s, s.fut.value);
      return;
    }
    var inner;
    r, inner := PollStream(s.inner.value);
    match r {
      case Item(x) =>
        match s.g(x) {
          case Ok(fut) =>
            r, s' := PollFuture(AndThenStream(Some(inner), s.g, Some(fut)), fut);
          case Thrown(e) =>
            return Error(e), AndThenStream(None, s.g, None);
        }
      case Pending =>
        s' := AndThenStream(Some(inner), s.g, None);
      case _ =>
        s' := AndThenStream(None, s.g, None);
    }
  }

  /** After the last item the member stream stays in place; the next poll clears it. */
  method PollTake<T(!new)>(s: Stream<T>) returns (r: Poll<T>, s': Stream<T>)
    requires Live(s) && s.TakeStream?
    ensures Polled(s, r, s') && StaysPrompt(s, r, s')
    decreases Depth(s), 0
  {
    if s.remain == 0 {
      return End, TakeStream(None, 0);
    }
    var inner;
    r, inner := PollStream(s.inner.value);
    match r {
      case Error(_) =>
        s' := TakeStream(None, s.remain);
      case Pending =>
        s' := TakeStream(Some(inner), s.remain);
      case _ =>
        s' := TakeStream(Some(inner), s.remain - 1);
    }
  }

  /** poll() of any pipeline. */
  method PollStream<T(!new)>(s: Stream<T>) returns (r: Poll<T>, s': Stream<T>)
    requires Live(s)
    ensures Polled(s, r, s') && StaysPrompt(s, r, s')
    decreases Depth(s), 1
  {
    match s
    case Source(script) => r, s' := PollSource(script);
    case MapStream(_, _) => r, s' := PollMap(s);
    case FilterStream(_, _) => r, s' := PollFilter(s);
    case AndThenStream(_, _, _) => r, s' := PollAndThen(s);
    case TakeStream(_, _) => r, s' := PollTake(s);
  }

  // ---------------------------------------------------------------- futures over a stream

  datatype FutPoll<+T> = Unready | Ready(value: T) | Raised(error: int)

  /** collect(): all the items, or the first error in order. */
  function Collected<T>(vals: seq<T>, l: Listing<T>): Try<seq<T>> {
    if l.finish.Eof? then Ok(vals + l.items) else Thrown(l.finish.error)
  }

  class CollectStreamFuture<T(!new)> {
    var stream: Option<Stream<T>>
    var vals: seq<T>

    predicate Unfinished()
      reads this
    {
      stream.Some? && Live(stream.value)
    }

    /** What the future will deliver in the end. */
    function Promise(): Try<seq<T>>
      reads this
      requires Unfinished()
    {
      Collected(vals, Meaning(stream.value))
    }

    constructor (s: Stream<T>)
      ensures stream == Some(s) && vals == []
    {
      stream, vals := Some(s), [];
    }

    /** A poll that is not ready keeps the promise; a poll that is ready keeps its word. */
    method Poll() returns (r: FutPoll<seq<T>>)
      requires Unfinished()
      modifies this
      ensures r.Unready? ==> Unfinished() && Promise() == old(Promise())
      ensures r.Unready? ==> Progress(old(stream.value), stream.value)
      ensures r.Ready? ==> old(Promise()) == Ok(r.value)
      ensures r.Raised? ==> old(Promise()) == Thrown(r.error)
      ensures r.Unready? <==> stream.Some?
      ensures old(IsPrompt(stream.value)) ==> !r.Unready?
    {
      while true
        invariant Unfinished() && Promise() == old(Promise())
        invariant old(IsPrompt(stream.value)) ==> IsPrompt(stream.value)
        invariant Potential(stream.value) < Potential(old(stream.value)) || stream == old(stream)
        decreases Potential(stream.value)
      {
        var p, s' := PollStream(stream.value);
        match p {
          case Error(e) =>
            stream := None;
            return Raised(e);
          case Item(x) =>
            ghost var rest := Meaning(s').items;
            assert vals + ([x] + rest) == (vals + [x]) + rest;
            stream, vals := Some(s'), vals + [x];
          case End =>
            assert vals + [] == vals;
            stream := None;
            return Ready(vals);
          case Pending =>
            stream := Some(s');
            return Unready;
        }
      }
    }
  }

  /** Polling collect() again and again always comes to the list that the pipeline means. */
  method WaitCollect<T(!new)>(s: Stream<T>) returns (r: Try<seq<T>>)
    requires Live(s)
    ensures r == Collected([], Meaning(s))
  {
    var fut := new CollectStreamFuture(s);
    while true
      invariant fut.Unfinished() && fut.Promise() == Collected([], Meaning(s))
      decreases Potential(fut.stream.value), Delay(fut.stream.value)
    {
      var p := fut.Poll();
      match p {
        case Ready(vals) =>
          return Ok(vals);
        case Raised(e) =>
          return Thrown(e);
        case Unready =>
      }
    }
  }

  /** forEach(): the calls made, in order, and how it ends; a throwing call is the last. */
  datatype Visit<T> = Visit(calls: seq<T>, finish: Finish)

  function Visited<T>(func: T -> Option<int>, calls: seq<T>, l: Listing<T>): Visit<T>
    decreases |l.items|
  {
    if l.items == [] then Visit(calls, l.finish)
    else if func(l.items[0]).Some? then Visit(calls + [l.items[0]], Failed(func(l.items[0]).value))
    else Visited(func, calls + [l.items[0]], Listing(l.items[1..], l.finish))
  }

  class ForEachFuture<T(!new)> {
    var stream: Stream<T>
    const func: T -> Option<int>
    var calls: seq<T>

    function Promise(): Visit<T>
      reads this
      requires Live(stream)
    {
      Visited(func, calls, Meaning(stream))
    }

    constructor (s: Stream<T>, func: T -> Option<int>)
      ensures stream == s && this.func == func && calls == []
    {
      stream, this.func, calls := s, func, [];
    }

    method Poll() returns (r: FutPoll<()>)
      requires Live(stream)
      modifies this
      ensures r.Unready? ==> Live(stream) && Promise() == old(Promise()) && Progress(old(stream), stream)
      ensures r.Ready? ==> old(Promise()) == Visit(calls, Eof)
      ensures r.Raised? ==> old(Promise()) == Visit(calls, Failed(r.error))
    {
      while true
        invariant Live(stream) && Promise() == old(Promise())
        invariant Potential(stream) < Potential(old(stream)) || stream == old(stream)
        decreases Potential(stream)
      {
        var p, s' := PollStream(stream);
        ghost var before := Meaning(stream);
        stream := s';
        match p {
          case Error(e) =>
            return Raised(e);
          case End =>
            return Ready(());
          case Pending =>
            return Unready;
          case Item(x) =>
            assert before.items[1..] == Meaning(s').items;
            calls := calls + [x];
            if func(x).Some? {
              return Raised(func(x).value);
            }
        }
      }
    }
  }

  // ---------------------------------------------------------------- not-ready answers do not matter

  function Prompt<T>(script: seq<Event<T>>): seq<Event<T>> {
    if script == [] then []
    else if script[0].NotReady? then Prompt(script[1..])
    else [script[0]] + Prompt(script[1..])
  }

  lemma {:induction false} PromptScript<T>(script: seq<Event<T>>)
    ensures OfScript(Prompt(script)) == OfScript(script)
    ensures forall i :: 0 <= i < |Prompt(script)| ==> !Prompt(script)[i].NotReady?
  {
    if script != [] {
      PromptScript(script[1..]);
    }
  }

  function PromptFuture<T>(fut: Future<T>): Future<T> {
    fut.(delay := 0)
  }

  /** The function given to andThen, making futures that are ready at once. */
  function PromptMaker<T>(g: T -> Try<Future<T>>): T -> Try<Future<T>> {
    x => match g(x)
      case Ok(fut) => Ok(PromptFuture(fut))
      case Thrown(e) => Thrown(e)
  }

  lemma {:induction false} PromptAndThen<T>(g: T -> Try<Future<T>>, l: Listing<T>)
    ensures AndThenList(PromptMaker(g), l) == AndThenList(g, l)
    decreases |l.items|
  {
    if l.items != [] {
      PromptAndThen(g, Listing(l.items[1..], l.finish));
    }
  }

  /** The same pipeline over a source that is always ready, with every future ready at once. */
  function PromptStream<T>(s: Stream<T>): (p: Stream<T>)
    requires Live(s)
    ensures Live(p)
  {
    match s
    case Source(script) => Source(Prompt(script))
    case MapStream(inner, f) => MapStream(Some(PromptStream(inner.value)), f)
    case FilterStream(inner, keep) => FilterStream(Some(PromptStream(inner.value)), keep)
    case AndThenStream(inner, g, fut) =>
      AndThenStream(Some(PromptStream(inner.value)), PromptMaker(g),
                    if fut.Some? then Some(PromptFuture(fut.value)) else None)
    case TakeStream(inner, n) => TakeStream(Some(PromptStream(inner.value)), n)
  }

  /** Wherever the source or a future answers "not ready", the pipeline delivers the same listing. */
  lemma {:induction false} ReadinessDoesNotMatter<T(!new)>(s: Stream<T>)
    requires Live(s)
    ensures Meaning(PromptStream(s)) == Meaning(s) && IsPrompt(PromptStream(s))
  {
    if s.Source? {
      PromptScript(s.script);
    } else {
      ReadinessDoesNotMatter(s.inner.value);
      if s.AndThenStream? {
        PromptAndThen(s.g, Meaning(s.inner.value));
      }
    }
  }

  // ---------------------------------------------------------------- what the list functions compute

  /** The items up to the first error, and how the script ends. */
  lemma {:induction false} ScriptIs<T>(script: seq<Event<T>>) returns (from: seq<nat>)
    ensures var l := OfScript(script);
            && |from| == |l.items|
            && (forall j :: 0 <= j < |from| ==> from[j] < |script| && script[from[j]] == Next(l.items[j]))
            && (forall j, k :: 0 <= j < k < |from| ==> from[j] < from[k])
            && (l.finish.Eof? ==> forall i :: 0 <= i < |script| ==> !script[i].Fail? && (script[i].Next? ==> i in from))
            && (l.finish.Failed? ==>
                  exists n :: 0 <= n < |script| && script[n] == Fail(l.finish.error)
                           && forall i :: 0 <= i < n ==> !script[i].Fail? && (script[i].Next? ==> i in from))
  {
    if script == [] || script[0].Fail? {
      from := [];
    } else {
      var rest := ScriptIs(script[1..]);
      from := Shifted(rest);
      if script[0].Next? {
        from := [0] + from;
      }
    }
  }

  function Shifted(from: seq<nat>): (r: seq<nat>)
    ensures |r| == |from| && forall j :: 0 <= j < |r| ==> r[j] == from[j] + 1
  {
    seq(|from|, j requires 0 <= j < |from| => from[j] + 1)
  }

  /** Each item is the image of the one in its place, up to the first on which the function throws. */
  lemma {:induction false} MapListIs<T>(f: T -> Try<T>, l: Listing<T>)
    ensures var m := MapList(f, l);
            && |m.items| <= |l.items|
            && (forall i :: 0 <= i < |m.items| ==> f(l.items[i]) == Ok(m.items[i]))
            && if |m.items| == |l.items| then m.finish == l.finish
               else m.finish.Failed? && f(l.items[|m.items|]) == Thrown(m.finish.error)
    decreases |l.items|
  {
    if l.items != [] {
      MapListIs(f, Listing(l.items[1..], l.finish));
    }
  }

  /** The items that are kept, all of them, in their order. */
  lemma {:induction false} FilterListIs<T>(keep: T -> bool, l: Listing<T>) returns (from: seq<nat>)
    ensures var m := FilterList(keep, l);
            && m.finish == l.finish && |from| == |m.items|
            && (forall j :: 0 <= j < |from| ==> from[j] < |l.items| && m.items[j] == l.items[from[j]])
            && (forall j, k :: 0 <= j < k < |from| ==> from[j] < from[k])
            && (forall i :: 0 <= i < |l.items| ==> (i in from <==> keep(l.items[i])))
    decreases |l.items|
  {
    if l.items == [] {
      from := [];
    } else {
      var rest := FilterListIs(keep, Listing(l.items[1..], l.finish));
      from := Shifted(rest);
      if keep(l.items[0]) {
        from := [0] + from;
      }
    }
  }

  /** Each item is what the future made from the one in its place came to, up to the first that throws. */
  lemma {:induction false} AndThenListIs<T>(g: T -> Try<Future<T>>, l: Listing<T>)
    ensures var m := AndThenList(g, l);
            && |m.items| <= |l.items|
            && (forall i :: 0 <= i < |m.items| ==> g(l.items[i]).Ok? && g(l.items[i]).value.result == Ok(m.items[i]))
            && if |m.items| == |l.items| then m.finish == l.finish
               else
                 var r := g(l.items[|m.items|]);
                 m.finish.Failed? && (if r.Ok? then r.value.result else Thrown(r.error)) == Thrown(m.finish.error)
    decreases |l.items|
  {
    if l.items != [] {
      AndThenListIs(g, Listing(l.items[1..], l.finish));
    }
  }

  /** The first n items; with n of them there, the end of the rest does not matter. */
  lemma {:induction false} TakeListIs<T>(n: nat, l: Listing<T>)
    ensures TakeList(n, l) == if n <= |l.items| then Listing(l.items[..n], Eof) else l
    decreases n
  {
    if n > 0 && l.items != [] {
      TakeListIs(n - 1, Listing(l.items[1..], l.finish));
      if n <= |l.items| {
        assert l.items[..n] == [l.items[0]] + l.items[1..][..n - 1];
      }
    }
  }

  /** The calls are made on the items in order, up to the first that throws, which is the last made. */
  lemma {:induction false} VisitedIs<T>(func: T -> Option<int>, calls: seq<T>, l: Listing<T>) returns (k: nat)
    ensures var v := Visited(func, calls, l);
            && k <= |l.items| && v.calls == calls + l.items[..k]
            && (forall i :: 0 <= i < k - 1 ==> func(l.items[i]).None?)
            && if k > 0 && func(l.items[k - 1]).Some? then v.finish == Failed(func(l.items[k - 1]).value)
               else k == |l.items| && v.finish == l.finish
    decreases |l.items|
  {
    if l.items == [] {
      k := 0;
      assert calls + l.items[..0] == calls;
    } else if func(l.items[0]).Some? {
      k := 1;
      assert l.items[..1] == [l.items[0]];
    } else {
      var rest := Listing(l.items[1..], l.finish);
      var n := VisitedIs(func, calls + [l.items[0]], rest);
      k := n + 1;
      assert (calls + [l.items[0]]) + rest.items[..n] == calls + l.items[..k];
    }
  }
}
