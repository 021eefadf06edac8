/** The WebSocket encoder, and the decoder that turns buffers into frames. */
module WebSocketCodec {
  import opened Bytes
  import opened WebSocket
  import opened WebSocketFrames

  datatype FrameKind = Handshake | HandshakeResponse | Text | Binary | Close | Ping | Pong

  /** The numeric value of DataFrame::type_t. */
  function KindCode(k: FrameKind): int {
    match k
    case Handshake => 1
    case HandshakeResponse => 2
    case Text => 3
    case Binary => 4
    case Close => 5
    case Ping => 6
    case Pong => 7
  }

  datatype Encoded = Written(bytes: seq<byte>) | Unimplemented

  function TextFrame(text: seq<byte>): Frame {
    Frame(true, FRAME_TEXT, false, [0, 0, 0, 0], text)
  }

  /** encodeLength: the length field of an unmasked frame. */
  method EncodeLength(length: nat) returns (out: seq<byte>)
    requires length < Power256(8)
    ensures out == LengthField(false, length)
  {
    if length >= 126 {
      var count := 2;
      if length > 0xffff {
        count := 8;
        out := [127];
      } else {
        out := [126];
      }
      ghost var field := out + BigEndian(count, length);
      var c := count;
      while c > 0
        invariant 0 <= c <= count
        invariant out + BigEndian(c, length) == field
      {
        c := c - 1;
        out := out + [(length / Power256(c)) % 256];
      }
      assert out == field;
    } else {
      out := [length];
    }
  }

  /**
    RFC6455Encoder::encode for anything but a handshake response.  Only the first test looks
    at the frame's kind; the others compare the first header byte, 0x80, with a kind.
  */
  method EncodeDataFrame(kind: FrameKind, text: seq<byte>) returns (r: Encoded)
    requires kind != HandshakeResponse && |text| < Power256(8)
    ensures r.Written? <==> kind == Text
    ensures r.Written? ==> r.bytes == Encode(TextFrame(text))
  {
    var fsv: int := 0x80;
    if kind == Text {
      fsv := fsv + FRAME_TEXT;
    } else if fsv == KindCode(Close) {
      fsv := fsv + FRAME_CLOSE;
    } else if fsv == KindCode(Binary) {
      fsv := fsv + FRAME_BINARY;
    } else if fsv == KindCode(Ping) {
      fsv := fsv + FRAME_PING;
    } else if fsv == KindCode(Pong) {
      fsv := fsv + FRAME_PONG;
    } else {
      return Unimplemented;
    }
    var length := EncodeLength(|text|);
    r := Written([fsv] + length + text);
    assert Header(TextFrame(text)) == [fsv] + length + [];
  }

  // ---------------------------------------------------------------- round trip

  function TextFrames(texts: seq<seq<byte>>): (fs: seq<Frame>)
    ensures |fs| == |texts| && forall i :: 0 <= i < |fs| ==> fs[i] == TextFrame(texts[i])
  {
    if texts == [] then [] else [TextFrame(texts[0])] + TextFrames(texts[1..])
  }

  function TextMessages(texts: seq<seq<byte>>): seq<Message> {
    if texts == [] then []
    else TextMessages(texts[..|texts| - 1]) + [Message(FRAME_TEXT, texts[|texts| - 1])]
  }

  lemma {:induction false} MessagesOfTexts(texts: seq<seq<byte>>, k: nat)
    requires k <= |texts|
    ensures Messages(TextFrames(texts), k) == TextMessages(texts[..k])
    decreases k
  {
    if k > 0 {
      var fs := TextFrames(texts);
      MessagesOfTexts(texts, k - 1);
      assert texts[..k][..k - 1] == texts[..k - 1];
      TextAcceptable(texts, k - 1);
    }
  }

  lemma TextAcceptable(texts: seq<seq<byte>>, i: nat)
    requires i < |texts|
    ensures Acceptable(TextFrames(texts), i) <==> |texts[i]| <= DATA_LIMIT
    ensures Completed(TextFrames(texts), i) == [Message(FRAME_TEXT, texts[i])]
  {
    var fs := TextFrames(texts);
    assert LatestStart(fs, i + 1) == i;
    assert Assembled(fs, i, i) == [];
    assert Assembled(fs, i, i + 1) == texts[i];
  }

  /**
    Text messages written one after the other and cut into buffers in any way come back as
    the same messages in the same order, exactly when none is over the parser's limit.
  */
  lemma TextRoundTrip(texts: seq<seq<byte>>, buffers: seq<seq<byte>>)
    requires forall i :: 0 <= i < |texts| ==> |texts[i]| < Power256(8)
    requires AllWellFormed(TextFrames(texts)) && Concat(buffers) == EncodeAll(TextFrames(texts))
    ensures var r := RunCalls(Fresh(), buffers);
            && (r.Accepted? <==> forall i :: 0 <= i < |texts| ==> |texts[i]| <= DATA_LIMIT)
            && (r.Accepted? ==> r.parser.queue == TextMessages(texts))
  {
    var fs := TextFrames(texts);
    forall i | 0 <= i < |texts|
      ensures Acceptable(fs, i) <==> |texts[i]| <= DATA_LIMIT
    {
      TextAcceptable(texts, i);
    }
    Reassembly(fs, buffers);
    MessagesOfTexts(texts, |texts|);
    assert texts[..|texts|] == texts;
    assert AcceptableUpTo(fs, |fs|) ==> AcceptableCount(fs, 0) == |fs|;
  }

  // ---------------------------------------------------------------- the queue only grows

  function Prefixed(pre: seq<Message>, r: Outcome): Outcome {
    if r.Accepted? then Accepted(r.parser.(queue := pre + r.parser.queue)) else Rejected(r.code, pre + r.queue)
  }

  function Behind(pre: seq<Message>, p: Parser): Parser {
    p.(queue := pre + p.queue)
  }

  lemma EndKeepsQueue(pre: seq<Message>, p: Parser)
    ensures EndIfEmpty(Behind(pre, p)) == Behind(pre, EndIfEmpty(p))
  {
    assert forall m: Message :: (pre + p.queue) + [m] == pre + (p.queue + [m]);
  }

  lemma PayloadKeepsQueue(pre: seq<Message>, p: Parser, b: byte)
    requires Valid(p) && p.phase == Payload
    ensures Step(Behind(pre, p), b) == Prefixed(pre, Step(p, b))
  {
    var c := Unmasked(p, b);
    var p' := p.(remaining := p.remaining - 1, maskPos := if p.masked then (p.maskPos + 1) % 4 else p.maskPos);
    EndKeepsQueue(pre, p'.(controlData := p.controlData + [c]));
    EndKeepsQueue(pre, p'.(data := p.data + [c]));
  }

  lemma LengthKeepsQueue(pre: seq<Message>, p: Parser, b: byte)
    requires Valid(p) && p.phase == Length
    ensures Step(Behind(pre, p), b) == Prefixed(pre, Step(p, b))
  {
    var p' := p.(masked := b >= 128, maskPos := 0);
    EndKeepsQueue(pre, p'.(remaining := b % 128, phase := AfterLength(p')));
  }

  lemma MaskKeepsQueue(pre: seq<Message>, p: Parser, b: byte)
    requires Valid(p) && p.phase.Mask?
    ensures Step(Behind(pre, p), b) == Prefixed(pre, Step(p, b))
  {
    EndKeepsQueue(pre, p.(mask := p.mask[p.phase.i := b], phase := Payload));
  }

  /** The queue is write-only for the parser: what is already in it stays in front. */
  lemma StepKeepsQueue(pre: seq<Message>, p: Parser, b: byte)
    requires Valid(p)
    ensures Step(Behind(pre, p), b) == Prefixed(pre, Step(p, b))
  {
    match p.phase
    case Payload => PayloadKeepsQueue(pre, p, b);
    case Length => LengthKeepsQueue(pre, p, b);
    case Mask(_) => MaskKeepsQueue(pre, p, b);
    case Opcode => OpcodeKeepsQueue(pre, p, b);
    case _ => LongLengthKeepsQueue(pre, p, b);
  }

  lemma OpcodeKeepsQueue(pre: seq<Message>, p: Parser, b: byte)
    requires Valid(p) && p.phase == Opcode
    ensures Step(Behind(pre, p), b) == Prefixed(pre, Step(p, b))
  {
  }

  lemma LongLengthKeepsQueue(pre: seq<Message>, p: Parser, b: byte)
    requires Valid(p) && (p.phase.Length16? || p.phase.Length64?)
    ensures Step(Behind(pre, p), b) == Prefixed(pre, Step(p, b))
  {
  }

  lemma {:induction false} RunKeepsQueue(pre: seq<Message>, p: Parser, input: seq<byte>)
    requires Valid(p)
    ensures Run(Behind(pre, p), input) == Prefixed(pre, Run(p, input))
    decreases |input|
  {
    if input != [] {
      StepKeepsQueue(pre, p, input[0]);
      var r := Step(p, input[0]);
      if r.Accepted? {
        RunKeepsQueue(pre, r.parser, input[1..]);
      }
    }
  }

  lemma {:induction false} CallsKeepQueue(pre: seq<Message>, p: Parser, buffers: seq<seq<byte>>)
    requires Valid(p)
    ensures RunCalls(Behind(pre, p), buffers) == Prefixed(pre, RunCalls(p, buffers))
    decreases |buffers|
  {
    if buffers != [] {
      RunKeepsQueue(pre, p, buffers[0]);
      var r := Run(p, buffers[0]);
      if r.Accepted? {
        CallsKeepQueue(pre, r.parser, buffers[1..]);
      }
    }
  }

  // ---------------------------------------------------------------- the decoder

  datatype DecodeResult = NeedMore | Got(kind: FrameKind, payload: seq<byte>) | Failed(code: int)

  predicate KnownKinds(queue: seq<Message>) {
    forall m :: m in queue ==> m.kind in {FRAME_TEXT, FRAME_BINARY, FRAME_CLOSE, FRAME_PING, FRAME_PONG}
  }

  function KindOf(m: Message): FrameKind
    requires KnownKinds([m])
  {
    assert m in [m];
    if m.kind == FRAME_TEXT then Text
    else if m.kind == FRAME_BINARY then Binary
    else if m.kind == FRAME_CLOSE then Close
    else if m.kind == FRAME_PING then Ping
    else Pong
  }

  /** Only the five known kinds are ever queued, so pollFrame never meets an invalid one. */
  predicate Sane(p: Parser) {
    && Valid(p)
    && KnownKinds(p.queue)
    && (p.phase != Opcode ==> (if p.control then p.controlKind in {8, 9, 10} else p.dataKind in {1, 2}))
    && (p.fragment ==> p.dataKind in {1, 2})
  }

  lemma EndKeepsSane(p: Parser)
    requires Sane(p.(remaining := 1)) && p.phase == Payload
    ensures Sane(EndIfEmpty(p))
  {
  }

  ghost predicate SaneOutcome(r: Outcome) {
    match r
    case Accepted(p) => Sane(p)
    case Rejected(_, queue) => KnownKinds(queue)
  }

  lemma OpcodeKeepsSane(p: Parser, b: byte)
    requires Sane(p) && p.phase == Opcode
    ensures SaneOutcome(Step(p, b))
  {
  }

  lemma LongLengthKeepsSane(p: Parser, b: byte)
    requires Sane(p) && (p.phase.Length16? || p.phase.Length64?)
    ensures SaneOutcome(Step(p, b))
  {
  }

  lemma PayloadKeepsSane(p: Parser, b: byte)
    requires Sane(p) && p.phase == Payload
    ensures SaneOutcome(Step(p, b))
  {
    var c := Unmasked(p, b);
    var p' := p.(remaining := p.remaining - 1, maskPos := if p.masked then (p.maskPos + 1) % 4 else p.maskPos);
    if p.control {
      EndKeepsSane(p'.(controlData := p.controlData + [c]));
    } else {
      EndKeepsSane(p'.(data := p.data + [c]));
    }
  }

  lemma LengthKeepsSane(p: Parser, b: byte)
    requires Sane(p) && p.phase == Length
    ensures SaneOutcome(Step(p, b))
  {
    if b < 128 {
      EndKeepsSane(p.(masked := false, maskPos := 0, remaining := b, phase := Payload));
    }
  }

  lemma MaskKeepsSane(p: Parser, b: byte)
    requires Sane(p) && p.phase.Mask?
    ensures SaneOutcome(Step(p, b))
  {
    EndKeepsSane(p.(mask := p.mask[p.phase.i := b], phase := Payload));
  }

  lemma StepKeepsSane(p: Parser, b: byte)
    requires Sane(p)
    ensures SaneOutcome(Step(p, b))
  {
    match p.phase
    case Payload => PayloadKeepsSane(p, b);
    case Length => LengthKeepsSane(p, b);
    case Mask(_) => MaskKeepsSane(p, b);
    case Opcode => OpcodeKeepsSane(p, b);
    case _ => LongLengthKeepsSane(p, b);
  }

  lemma {:induction false} RunKeepsSane(p: Parser, input: seq<byte>)
    requires Sane(p)
    ensures SaneOutcome(Run(p, input))
    decreases |input|
  {
    if input != [] {
      StepKeepsSane(p, input[0]);
      var r := Step(p, input[0]);
      if r.Accepted? {
        RunKeepsSane(r.parser, input[1..]);
      }
    }
  }

  /** RFC6455Decoder after the handshake: the parser, and the buffers received so far. */
  class Decoder {
    const parser: WsParser
    var input: seq<seq<byte>>

    ghost predicate Ready()
      reads this, parser
    {
      Sane(parser.View())
    }

    /** The messages that all the buffered input will yield. */
    ghost function Due(): seq<Message>
      reads this, parser
      requires Ready()
    {
      QueueOf(RunCalls(parser.View(), input))
    }

    constructor ()
      ensures Ready() && fresh(parser) && parser.View() == Fresh() && input == [] && Due() == []
    {
      parser := new WsParser();
      input := [];
    }

    method PollFrame() returns (r: DecodeResult)
      requires Ready() && parser.queue != []
      modifies parser
      ensures r.Got? && KnownKinds(old(parser.queue)[..1]) && r.kind == KindOf(old(parser.queue)[0])
      ensures r.payload == old(parser.queue)[0].payload
      ensures parser.View() == old(parser.View()).(queue := old(parser.queue)[1..])
    {
      var m := parser.queue[0];
      parser.queue := parser.queue[1..];
      assert m in old(parser.queue);
      assert old(parser.queue)[..1] == [m];
      r := Got(KindOf(m), m.payload);
    }

    /**
      decode: hands out the next message due, in order; says it needs more exactly when the
      whole input yields none; fails only on input that the parser rejects.
    */
    method Decode() returns (r: DecodeResult)
      requires Ready()
      modifies this, parser
      ensures r.Got? ==>
                && Ready() && old(Due()) != [] && KnownKinds(old(Due())[..1])
                && r == Got(KindOf(old(Due())[0]), old(Due())[0].payload)
                && Due() == old(Due())[1..]
      ensures r.NeedMore? ==> Ready() && input == [] && old(Due()) == [] && Due() == []
      ensures r.Failed? ==>
                && RunCalls(old(parser.View()), old(input)).Rejected?
                && r.code == RunCalls(old(parser.View()), old(input)).code
                && parser.queue == old(Due())
    {
      ghost var p0, in0 := parser.View(), input;
      if parser.queue != [] {
        DueDropsFirst(p0, input);
        r := PollFrame();
        return;
      }
      while input != []
        invariant Ready() && parser.queue == []
        invariant RunCalls(parser.View(), input) == RunCalls(p0, in0)
        decreases |input|
      {
        var front := input[0];
        ghost var p, rest := parser.View(), input;
        input := input[1..];
        var buff := new byte[|front|](i requires 0 <= i < |front| => front[i]);
        assert buff[..] == front;
        RunKeepsSane(p, front);
        var rc := parser.Execute(buff);
        if rc != WS_OK {
          return Failed(rc);
        }
        if parser.queue != [] {
          DueDropsFirst(parser.View(), input);
          r := PollFrame();
          return;
        }
      }
      r := NeedMore;
    }
  }

  /** Handing out the first queued message takes it off the front of what is due. */
  lemma DueDropsFirst(p: Parser, input: seq<seq<byte>>)
    requires Sane(p) && p.queue != []
    ensures var due := QueueOf(RunCalls(p, input));
            && due != [] && due[0] == p.queue[0]
            && QueueOf(RunCalls(p.(queue := p.queue[1..]), input)) == due[1..]
    ensures KnownKinds(p.queue[..1]) && Sane(p.(queue := p.queue[1..]))
  {
    var p' := p.(queue := p.queue[1..]);
    assert p.queue == [p.queue[0]] + p'.queue;
    CallsKeepQueue([p.queue[0]], p', input);
    assert p == Behind([p.queue[0]], p');
  }
}
