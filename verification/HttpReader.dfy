/** The parser object in its body states, called with pieces of input of any size. */
module HttpReader {
  import opened Bytes
  import opened HttpBody
  import opened HttpChunks
  import opened Wrappers

  // ---------------------------------------------------------------- calls

  /** One call: what is still marked at its end is handed to on_body, unless it ended with an error. */
  function Call(p: Parser, s: seq<byte>): Progress {
    var r := Run(p, s);
    if r.parser.phase == Failed then r else r.(parser := Flush(r.parser))
  }

  /** Call after call until the message is over or refused. */
  function Calls(p: Parser, pieces: seq<seq<byte>>): Progress
    decreases |pieces|
  {
    if pieces == [] then Progress(p, [])
    else
      var r := Call(p, pieces[0]);
      if Final(r.parser.phase) then Progress(r.parser, r.rest + Concat(pieces[1..]))
      else Calls(r.parser, pieces[1..])
  }

  lemma StepMerged(p: Parser, b: byte)
    requires !Final(p.phase)
    ensures Flush(Step(p, b)) == Flush(Step(Flush(p), b))
    ensures Step(p, b).phase == Step(Flush(p), b).phase
  {
    assert (p.body + p.pending) + ([] + [b]) == p.body + (p.pending + [b]);
    assert (p.body + p.pending) + [] == p.body + p.pending;
    assert (p.body + (p.pending + [b])) + [] == p.body + (p.pending + [b]);
    assert ((p.body + p.pending) + ([] + [b])) + [] == p.body + (p.pending + [b]);
  }

  lemma FlushTwice(p: Parser)
    ensures Flush(Flush(p)) == Flush(p)
  {
    assert Flush(p).body + [] == Flush(p).body;
  }

  /** How the bytes are spread over handed over and marked makes no difference to what comes. */
  lemma {:induction false} RunMerged(p: Parser, q: Parser, s: seq<byte>)
    requires Flush(p) == Flush(q)
    ensures Flush(Run(p, s).parser) == Flush(Run(q, s).parser)
    ensures Run(p, s).rest == Run(q, s).rest
    decreases |s|
  {
    if s != [] && !Final(p.phase) {
      StepMerged(p, s[0]);
      StepMerged(q, s[0]);
      if !Refused(Step(p, s[0]).phase) {
        RunMerged(Step(p, s[0]), Step(q, s[0]), s[1..]);
      }
    }
  }

  lemma {:induction false} CallsMerged(p: Parser, pieces: seq<seq<byte>>)
    requires !Final(p.phase)
    ensures Flush(Calls(p, pieces).parser) == Flush(Run(p, Concat(pieces)).parser)
    ensures Calls(p, pieces).rest == Run(p, Concat(pieces)).rest
    decreases |pieces|
  {
    if pieces != [] {
      var r := Call(p, pieces[0]);
      var tail := Concat(pieces[1..]);
      var raw := Run(p, pieces[0]);
      FlushTwice(raw.parser);
      RunAppend(p, pieces[0], tail);
      if !Final(r.parser.phase) {
        CallsMerged(r.parser, pieces[1..]);
        RunMerged(r.parser, raw.parser, tail);
      }
    }
  }

  lemma {:induction false} CallsLeaveNothing(p: Parser, pieces: seq<seq<byte>>)
    requires p.pending == []
    ensures Calls(p, pieces).parser.phase != Failed ==> Calls(p, pieces).parser.pending == []
    decreases |pieces|
  {
    if pieces != [] && Call(p, pieces[0]).parser.phase != Failed {
      CallsLeaveNothing(Call(p, pieces[0]).parser, pieces[1..]);
    }
  }

  /**
    However the input is cut into calls, the parser ends in the same state with the same bytes
    left over.  Unless it ends with an error, on_body has also been given the same bytes.
  */
  lemma SplitIndependence(p: Parser, pieces: seq<seq<byte>>)
    requires !Final(p.phase) && p.pending == []
    ensures var one, many := Call(p, Concat(pieces)), Calls(p, pieces);
            && many.rest == one.rest
            && Flush(many.parser) == Flush(one.parser)
            && (one.parser.phase != Failed ==> many == one)
  {
    CallsMerged(p, pieces);
    FlushTwice(Run(p, Concat(pieces)).parser);
    CallsLeaveNothing(p, pieces);
    var one, many := Call(p, Concat(pieces)), Calls(p, pieces);
    if one.parser.phase != Failed {
      assert many.parser.body + [] == many.parser.body;
      assert one.parser.body + [] == one.parser.body;
    }
  }

  // ---------------------------------------------------------------- what an error loses

  /** An error does lose bytes: here `A`, which a call that ends behind it would have handed over. */
  lemma ErrorDependsOnSplit()
    ensures var p := Begin(true, ULLONG_MAX, false, false);
            var line: seq<byte> := [0x31, CR, LF];
            var head, tail := line + [0x41], [0x58];
            && Call(p, head + tail).parser.phase == Failed && Call(p, head + tail).parser.body == []
            && Calls(p, [head, tail]).parser.phase == Failed && Calls(p, [head, tail]).parser.body == [0x41]
  {
    var p := Begin(true, ULLONG_MAX, false, false);
    var p1 := Step(p, 0x31);
    var p2 := Step(p1, CR);
    var p3 := Step(p2, LF);
    var p4 := Step(p3, 0x41);
    var line: seq<byte> := [0x31, CR, LF];
    var head: seq<byte>, tail: seq<byte> := line + [0x41], [0x58];
    RunOne(p, 0x31, [CR, LF, 0x41]);
    RunOne(p1, CR, [LF, 0x41]);
    RunOne(p2, LF, [0x41]);
    RunOne(p3, 0x41, []);
    assert head == [0x31] + [CR, LF, 0x41] && [CR, LF, 0x41] == [CR] + [LF, 0x41] && [LF, 0x41] == [LF] + [0x41];
    assert [0x41] == [0x41] + [];
    assert Run(p, head) == Progress(p4, []);
    RunAppend(p, head, tail);
    assert Step(p4, 0x58).phase == Failed;
    assert Step(Flush(p4), 0x58).phase == Failed;
    assert [head, tail][1..] == [tail];
    assert Calls(Flush(p4), [tail]) == Progress(Fail(Flush(p4)), tail + []);
  }

  lemma RunOne(p: Parser, b: byte, s: seq<byte>)
    requires !Final(p.phase) && !Refused(Step(p, b).phase)
    ensures Run(p, [b] + s) == Run(Step(p, b), s)
  {
    assert ([b] + s)[1..] == s;
  }

  /** How many bytes the machine takes. */
  function Used(p: Parser, s: seq<byte>): (n: nat)
    ensures n <= |s|
  {
    RunRest(p, s);
    |s| - |Run(p, s).rest|
  }

  lemma {:induction false} RunRest(p: Parser, s: seq<byte>)
    ensures |Run(p, s).rest| <= |s| && Run(p, s).rest == s[|s| - |Run(p, s).rest|..]
    decreases |s|
  {
    if s != [] && !Final(p.phase) && !Refused(Step(p, s[0]).phase) {
      RunRest(Step(p, s[0]), s[1..]);
    }
  }

  /** The state in which the input was refused. */
  function Before(p: Parser, s: seq<byte>): Parser {
    Run(p, s[..Used(p, s)]).parser
  }

  lemma {:induction false} RefusedByLast(p: Parser, s: seq<byte>)
    requires !Final(p.phase) && Run(p, s).parser.phase == Failed
    ensures !Final(Before(p, s).phase) && Used(p, s) < |s|
    ensures Step(Before(p, s), s[Used(p, s)]) == Run(p, s).parser
    decreases |s|
  {
    var q := Step(p, s[0]);
    if !Final(q.phase) {
      RefusedByLast(q, s[1..]);
      assert s[..Used(p, s)] == [s[0]] + s[1..][..Used(q, s[1..])];
      RunOne(p, s[0], s[1..][..Used(q, s[1..])]);
    }
  }

  /** Bytes are marked in the chunk terminator state exactly if the call brought some of the chunk. */
  lemma {:induction false} MarkedAtTerminator(p: Parser, s: seq<byte>)
    requires Sound(p) && !Final(p.phase) && Run(p, s).parser.phase == ChunkDataAlmostDone
    ensures Run(p, s).parser.pending != [] <==> s != [] || p.pending != []
    decreases |s|
  {
    if s != [] {
      var q := Step(p, s[0]);
      StepIsSound(p, s[0]);
      if !Final(q.phase) {
        MarkedAtTerminator(q, s[1..]);
        if s[1..] == [] {
          assert p.phase == ChunkData;
        }
      }
    }
  }

  /**
    Exactly when a call fails to hand over bytes it had marked: the byte behind a chunk's data
    is not CR, and the call began before that byte.
  */
  lemma LostExactly(p: Parser, s: seq<byte>)
    requires Sound(p) && !Final(p.phase) && p.pending == []
    ensures Call(p, s).parser.pending != [] <==>
              Run(p, s).parser.phase == Failed && Used(p, s) > 0 && Before(p, s).phase == ChunkDataAlmostDone
  {
    if Run(p, s).parser.phase == Failed {
      var front := s[..Used(p, s)];
      RefusedByLast(p, s);
      RunIsSound(p, front);
      if Before(p, s).phase == ChunkDataAlmostDone {
        MarkedAtTerminator(p, front);
      }
    }
  }

  /** However the input is cut into calls, on_body is given the same bytes. */
  ghost predicate CutsAgree(p: Parser, s: seq<byte>) {
    forall pieces: seq<seq<byte>> | Concat(pieces) == s :: Calls(p, pieces).parser.body == Call(p, s).parser.body
  }

  /** What is handed over early can only make the mark shorter. */
  lemma {:induction false} RunMarksLess(p: Parser, q: Parser, s: seq<byte>)
    requires Flush(p) == Flush(q) && |p.pending| <= |q.pending|
    ensures |Run(p, s).parser.pending| <= |Run(q, s).parser.pending|
    decreases |s|
  {
    if s != [] && !Final(p.phase) {
      StepMerged(p, s[0]);
      StepMerged(q, s[0]);
      if !Refused(Step(p, s[0]).phase) {
        RunMarksLess(Step(p, s[0]), Step(q, s[0]), s[1..]);
      }
    }
  }

  lemma {:induction false} CallsMarkLess(p: Parser, pieces: seq<seq<byte>>)
    requires !Final(p.phase)
    ensures |Calls(p, pieces).parser.pending| <= |Run(p, Concat(pieces)).parser.pending|
    decreases |pieces|
  {
    if pieces != [] {
      var r := Call(p, pieces[0]);
      var tail := Concat(pieces[1..]);
      var raw := Run(p, pieces[0]);
      FlushTwice(raw.parser);
      RunAppend(p, pieces[0], tail);
      if !Final(r.parser.phase) {
        CallsMarkLess(r.parser, pieces[1..]);
        RunMarksLess(r.parser, raw.parser, tail);
      }
    }
  }

  lemma NothingLost(p: Parser, pieces: seq<seq<byte>>)
    requires !Final(p.phase) && p.pending == [] && !Lost(Run(p, Concat(pieces)).parser)
    ensures Calls(p, pieces).parser.body == Call(p, Concat(pieces)).parser.body
  {
    SplitIndependence(p, pieces);
    CallsMarkLess(p, pieces);
    var one, many := Call(p, Concat(pieces)), Calls(p, pieces);
    if one.parser.phase == Failed {
      assert many.parser.body + [] == many.parser.body && one.parser.body + [] == one.parser.body;
    }
  }

  /** A call that ends just before the byte at fault hands over what would be lost. */
  lemma CutSaves(p: Parser, s: seq<byte>)
    requires !Final(p.phase) && p.pending == [] && Lost(Run(p, s).parser)
    ensures !CutsAgree(p, s)
  {
    RefusedByLast(p, s);
    var k := Used(p, s);
    var pieces := [s[..k], s[k..]];
    assert Concat(pieces) == s by {
      assert pieces[1..] == [s[k..]];
      assert Concat([s[k..]]) == s[k..] + Concat<byte>([]);
      assert s[..k] + (s[k..] + []) == s;
    }
    SplitIndependence(p, pieces);
    LastCallFails(p, s[..k], s[k..]);
    var one, many := Call(p, s), Calls(p, pieces);
    assert many.parser.body + [] == many.parser.body;
    assert |one.parser.body + one.parser.pending| > |one.parser.body|;
  }

  lemma LastCallFails(p: Parser, a: seq<byte>, b: seq<byte>)
    requires b != [] && !Final(Run(p, a).parser.phase) && Step(Run(p, a).parser, b[0]).phase == Failed
    ensures Calls(p, [a, b]).parser.pending == []
  {
    var q := Flush(Run(p, a).parser);
    StepMerged(Run(p, a).parser, b[0]);
    assert [a, b][1..] == [b];
    assert Run(q, b).parser == Step(q, b[0]);
  }

  lemma CutsAgreeUnlessLost(p: Parser, s: seq<byte>)
    requires !Final(p.phase) && p.pending == []
    ensures CutsAgree(p, s) <==> !Lost(Run(p, s).parser)
  {
    if Lost(Run(p, s).parser) {
      CutSaves(p, s);
    } else {
      forall pieces: seq<seq<byte>> | Concat(pieces) == s
        ensures Calls(p, pieces).parser.body == Call(p, s).parser.body
      {
        NothingLost(p, pieces);
      }
    }
  }

  /**
    The body that a message delivers depends on how its input was cut into calls exactly if it
    is sent in chunks, of which one is not followed by CR.
  */
  lemma CutMattersExactly(chunked: bool, length: nat, skipBody: bool, needsEof: bool, s: seq<byte>)
    requires length <= ULLONG_MAX
    ensures CutsAgree(Begin(chunked, length, skipBody, needsEof), s) <==> !(chunked && !skipBody && BrokenChunk(s))
  {
    var p := Begin(chunked, length, skipBody, needsEof);
    if Final(p.phase) {
      forall pieces: seq<seq<byte>> | Concat(pieces) == s
        ensures Calls(p, pieces).parser.body == Call(p, s).parser.body
      {
        assert p.body + [] == p.body;
      }
    } else {
      if chunked {
        LostIffBroken(p, s);
      } else {
        PlainLosesNothing(p, s);
      }
      CutsAgreeUnlessLost(p, s);
    }
  }

  lemma PlainLosesNothing(p: Parser, s: seq<byte>)
    requires p.phase in {Identity, UntilEof} && (p.phase == Identity ==> p.length > 0) && p.pending == []
    ensures !Lost(Run(p, s).parser)
  {
    if p.phase == UntilEof {
      RunUntilEof(p, s);
    } else if |s| < p.length {
      RunMarks(p, s);
    } else {
      RunMarksAll(p, s);
    }
  }

  // ---------------------------------------------------------------- the object

  predicate TakesData(phase: Phase) {
    phase in {ChunkData, Identity, UntilEof}
  }

  /** The bytes from the mark to the position `i`, if there is a mark. */
  function Marked(data: seq<byte>, mark: int, i: nat): seq<byte>
    requires mark < i <= |data| || mark < 0
  {
    if mark < 0 then [] else data[mark..i]
  }

  class HttpParser {
    var phase: Phase
    var length: nat
    var nread: nat
    var onBody: seq<seq<byte>>
    var completions: nat

    ghost function State(pending: seq<byte>): Parser
      reads this
    {
      Parser(phase, length, nread, Concat(onBody), pending, completions)
    }

    constructor (chunked: bool, contentLength: nat, skipBody: bool, needsEof: bool)
      ensures State([]) == Begin(chunked, contentLength, skipBody, needsEof)
      ensures contentLength <= ULLONG_MAX ==> Sound(State([]))
    {
      length, nread, onBody := contentLength, 0, [];
      if skipBody || (!chunked && (contentLength == 0 || (contentLength == ULLONG_MAX && !needsEof))) {
        phase, completions := Complete, 1;
      } else {
        phase := if chunked then ChunkSizeStart else if contentLength != ULLONG_MAX then Identity else UntilEof;
        completions := 0;
      }
    }

    /** CALLBACK_DATA(body) */
    method HandOver(data: seq<byte>, mark: int, i: nat)
      requires mark < i <= |data| || mark < 0
      modifies this`onBody
      ensures State([]) == old(Flush(State(Marked(data, mark, i))))
    {
      if mark >= 0 {
        ConcatSnoc(onBody, data[mark..i]);
        onBody := onBody + [data[mark..i]];
      } else {
        assert Concat(onBody) + [] == Concat(onBody);
      }
    }

    /** A byte in a state in which nothing is marked. */
    method OneByte(ch: byte) returns (taken: bool)
      requires !Final(phase) && !TakesData(phase) && phase != ChunkDataAlmostDone
      modifies this
      ensures State([]) == Step(old(State([])), ch)
      ensures taken == !Refused(phase)
    {
      taken := true;
      if Counts(phase) {
        nread := nread + 1;
        if nread > MAX_HEADER_SIZE {
          phase := Failed;
          return false;
        }
      }
      match phase
      case ChunkSizeStart =>
        if Unhex(ch) == -1 {
          phase, taken := Failed, false;
        } else {
          length, phase := Unhex(ch), ChunkSize;
        }
      case ChunkSize =>
        taken := ChunkSizeByte(ch);
      case ChunkParameters =>
        if ch == CR {
          phase := ChunkSizeAlmostDone;
        }
      case ChunkSizeAlmostDone =>
        if ch != LF {
          phase, taken := Failed, false;
        } else {
          nread := 0;
          phase := if length == 0 then TrailerStart else ChunkData;
        }
      case ChunkDataDone =>
        if ch != LF {
          phase, taken := Failed, false;
        } else {
          nread, phase := 0, ChunkSizeStart;
        }
      case TrailerStart =>
        if ch == CR {
          phase := TrailerAlmostDone;
        } else if ch == LF {
          phase, completions := Complete, completions + 1;
        } else {
          phase, taken := Trailer, false;
        }
      case TrailerAlmostDone =>
        if ch != LF {
          phase, taken := Failed, false;
        } else {
          phase, completions := Complete, completions + 1;
        }
    }

    method ChunkSizeByte(ch: byte) returns (taken: bool)
      requires phase == ChunkSize
      modifies this`phase, this`length
      ensures State([]) == Take(old(State([])), ch)
      ensures taken == !Refused(phase)
    {
      taken := true;
      if ch == CR {
        phase := ChunkSizeAlmostDone;
        return;
      }
      if Unhex(ch) == -1 {
        if ch == 0x3b || ch == SPACE {
          phase := ChunkParameters;
        } else {
          phase, taken := Failed, false;
        }
        return;
      }
      var t := Accumulate(16, length, Unhex(ch));
      if t.None? {
        phase, taken := Failed, false;
      } else {
        length := t.value;
      }
    }

    /** The byte at `i`, in a state that looks at bytes one by one; tells whether it is taken. */
    method LookAt(data: seq<byte>, mark: int, i: nat) returns (mark': int, taken: bool)
      requires i < |data| && mark < i && !Final(phase) && !TakesData(phase) && Sound(State(Marked(data, mark, i)))
      modifies this
      ensures taken == !Refused(phase) && mark' < i
      ensures State(Marked(data, mark', i)) == Step(old(State(Marked(data, mark, i))), data[i])
      ensures taken ==> mark' < 0
    {
      mark' := mark;
      if phase != ChunkDataAlmostDone {
        taken := OneByte(data[i]);
      } else if data[i] != CR {
        phase, taken := Failed, false;
      } else {
        HandOver(data, mark, i);
        mark', phase, taken := -1, ChunkDataDone, true;
      }
    }

    /** As much of the data due as is there, in one go. */
    method ReadData(data: seq<byte>, mark: int, i: nat) returns (mark': int, next: nat)
      requires TakesData(phase) && mark < i < |data| && (phase != UntilEof ==> length > 0)
      modifies this
      ensures next == old(NextData(State([]), data, i)) && mark' < next <= |data|
      ensures State(Marked(data, mark', next)) == old(AfterData(State([]), data, mark, i))
    {
      mark' := if mark < 0 then i else mark;
      next := |data|;
      if phase == UntilEof {
        return;
      }
      var toRead := if length < |data| - i then length else |data| - i;
      length := length - toRead;
      next := i + toRead;
      if length == 0 && phase == ChunkData {
        phase := ChunkDataAlmostDone;
      } else if length == 0 {
        HandOver(data, mark', next);
        mark' := -1;
        phase, completions := Complete, completions + 1;
      }
    }

    /**
      Takes a piece of input; an empty one would announce the end of the input.  After an error
      it takes nothing, and it stops behind the message.
    */
    method Execute(data: seq<byte>) returns (used: nat)
      requires data != [] && Sound(State([]))
      modifies this
      ensures var r := Call(old(State([])), data);
              State(r.parser.pending) == r.parser && used == |data| - |r.rest|
      ensures Sound(State([]))
    {
      CallIsSound(State([]), data);
      if Final(phase) {
        assert Concat(onBody) + [] == Concat(onBody);
        return 0;
      }
      used := Read(data);
    }

    method Read(data: seq<byte>) returns (used: nat)
      requires !Final(phase) && Sound(State([]))
      modifies this
      ensures var r := Call(old(State([])), data);
              State(r.parser.pending) == r.parser && used == |data| - |r.rest|
    {
      ghost var start := State([]);
      var i, mark := 0, -1;
      assert data[0..] == data;
      while i < |data| && phase != Complete
        invariant 0 <= i <= |data| && mark < i && !Refused(phase)
        invariant Sound(State(Marked(data, mark, i)))
        invariant Run(start, data) == Run(State(Marked(data, mark, i)), data[i..])
        decreases |data| - i
      {
        if TakesData(phase) {
          DataRuns(State(Marked(data, mark, i)), data, mark, i);
          mark, i := ReadData(data, mark, i);
        } else {
          StepIsSound(State(Marked(data, mark, i)), data[i]);
          assert data[i..][1..] == data[i + 1..];
          var taken;
          mark, taken := LookAt(data, mark, i);
          if !taken {
            return i;
          }
          i := i + 1;
        }
      }
      HandOver(data, mark, i);
      used := i;
    }
  }

  lemma CallIsSound(p: Parser, s: seq<byte>)
    requires Sound(p) && p.pending == []
    ensures Sound(Call(p, s).parser.(pending := []))
  {
    RunIsSound(p, s);
  }

  lemma MarkedOn(data: seq<byte>, mark: int, i: nat, next: nat)
    requires mark < i < next <= |data|
    ensures Marked(data, if mark < 0 then i else mark, next) == Marked(data, mark, i) + data[i..next]
  {
  }

  /** Where reading data from `i` on stops, and the state it stops in. */
  function NextData(p: Parser, data: seq<byte>, i: nat): (next: nat)
    requires i <= |data|
    ensures i <= next <= |data|
  {
    if p.phase != UntilEof && p.length <= |data| - i then i + p.length else |data|
  }

  function AfterData(p: Parser, data: seq<byte>, mark: int, i: nat): Parser
    requires mark < i < |data| && (p.phase != UntilEof ==> p.length > 0)
  {
    var next := NextData(p, data, i);
    var marked := Marked(data, if mark < 0 then i else mark, next);
    if p.phase != UntilEof && p.length <= |data| - i then AllMarked(p, marked)
    else p.(pending := marked, length := if p.phase == UntilEof then p.length else p.length - (next - i))
  }

  lemma Slices(data: seq<byte>, i: nat, next: nat)
    requires i <= next <= |data|
    ensures data[i..][..next - i] == data[i..next] && data[i..][next - i..] == data[next..]
    ensures next == |data| ==> data[i..] == data[i..next] && data[next..] == []
  {
  }

  lemma AllDataRuns(p: Parser, s: seq<byte>, marked: seq<byte>, rest: seq<byte>)
    requires p.phase in {ChunkData, Identity} && 0 < p.length <= |s| && Sound(p)
    requires marked == p.pending + s[..p.length] && rest == s[p.length..]
    ensures var q := AllMarked(p, marked);
            Sound(q) && !Refused(q.phase) && Run(p, s) == Run(q, rest)
  {
    RunMarksAll(p, s);
  }

  lemma SomeDataRuns(p: Parser, s: seq<byte>, marked: seq<byte>, rest: seq<byte>)
    requires TakesData(p.phase) && Sound(p) && (p.phase != UntilEof ==> |s| < p.length)
    requires marked == p.pending + s && rest == []
    ensures var q := p.(pending := marked, length := if p.phase == UntilEof then p.length else p.length - |s|);
            Sound(q) && Run(p, s) == Run(q, rest)
  {
    if p.phase == UntilEof {
      RunUntilEof(p, s);
    } else {
      RunMarks(p, s);
    }
  }

  /** Reading data in one go is what the machine does byte by byte. */
  lemma DataRuns(p: Parser, data: seq<byte>, mark: int, i: nat)
    requires mark < i < |data| && p.pending == Marked(data, mark, i) && TakesData(p.phase) && Sound(p)
    ensures var q, next := AfterData(p, data, mark, i), NextData(p, data, i);
            Sound(q) && !Refused(q.phase) && Run(p, data[i..]) == Run(q, data[next..])
  {
    var next := NextData(p, data, i);
    var marked := Marked(data, if mark < 0 then i else mark, next);
    assert marked == p.pending + data[i..next] by {
      MarkedOn(data, mark, i, next);
    }
    Slices(data, i, next);
    if p.phase != UntilEof && p.length <= |data| - i {
      assert next == i + p.length;
      AllDataRuns(p, data[i..], marked, data[next..]);
    } else {
      assert next == |data|;
      SomeDataRuns(p, data[i..], marked, data[next..]);
    }
  }
}
