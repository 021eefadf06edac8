/**
  The frame parser on arbitrary bytes: which headers it refuses and why, what it takes the
  others for, and the examples of section 5.7 of RFC 6455.
*/
module WebSocketBytes {
  import opened Arithmetic
  import opened Bytes
  import opened WebSocket
  import opened WebSocketFrames
  import Codec = WebSocketCodec

  // ---------------------------------------------------------------- headers

  /** The number that bytes write, the most significant first. */
  function Number(bytes: seq<byte>): nat {
    if bytes == [] then 0 else bytes[0] * Power256(|bytes| - 1) + Number(bytes[1..])
  }

  /** How many bytes of length follow the length byte. */
  function ExtraLength(b: byte): nat {
    if b % 128 == 126 then 2 else if b % 128 == 127 then 8 else 0
  }

  /** A header up to the masking key: opcode byte, length byte and the bytes of a longer length. */
  datatype Head = Head(opcode: byte, length: byte, more: seq<byte>)

  predicate Whole(h: Head) {
    |h.more| == ExtraLength(h.length)
  }

  function BytesOf(h: Head): seq<byte> {
    [h.opcode] + ([h.length] + h.more)
  }

  function PayloadLength(h: Head): nat {
    if h.length % 128 < 126 then h.length % 128 else Number(h.more)
  }

  predicate Finishes(h: Head) {
    Bit(h.opcode, 7) == 1
  }

  predicate Masks(h: Head) {
    Bit(h.length, 7) == 1
  }

  function Kind(h: Head): byte {
    h.opcode % 16
  }

  predicate ReservedBits(h: Head) {
    Bit(h.opcode, 4) == 1 || Bit(h.opcode, 5) == 1 || Bit(h.opcode, 6) == 1
  }

  /** What sections 5.2 and 5.5 and the parser's continuation flag have against a header; 0 if nothing. */
  function Verdict(fragment: bool, h: Head): int {
    if ReservedBits(h) then WS_RESERVED_BITS_SET
    else if Kind(h) in {3, 4, 5, 6, 7, 11, 12, 13, 14, 15} then WS_INVALID_OPCODE
    else if Kind(h) == 0 && !fragment then WS_INVALID_CONTINUATION
    else if Kind(h) >= 8 && !Finishes(h) then WS_FRAGMENTED_CONTROL
    else if Kind(h) >= 8 && h.length % 128 > 125 then WS_CONTROL_TOO_LONG
    else if h.length % 128 == 126 && Number(h.more) < 126 then WS_NON_CANONICAL_LENGTH
    else if h.length % 128 == 127 && Number(h.more) < 65536 then WS_NON_CANONICAL_LENGTH
    else 0
  }

  lemma HalvedFourTimes(x: nat)
    ensures x / 2 / 2 / 2 / 2 == x / 16
  {
  }

  lemma BitOfUpperHalf(x: nat, i: nat)
    ensures Bit(x, i + 4) == Bit(x / 16, i)
  {
    var x1 := x / 2;
    var x2 := x1 / 2;
    var x3 := x2 / 2;
    assert Bit(x, i + 4) == Bit(x1, i + 3);
    assert Bit(x1, i + 3) == Bit(x2, i + 2);
    assert Bit(x2, i + 2) == Bit(x3, i + 1);
    assert Bit(x3, i + 1) == Bit(x3 / 2, i);
    HalvedFourTimes(x);
  }

  lemma BitsOfNibble(q: nat, i: nat)
    requires q < 16 && i == 0
    ensures Bit(q, i + 3) == 1 <==> q >= 8
    ensures Bit(q, i) == 1 || Bit(q, i + 1) == 1 || Bit(q, i + 2) == 1 <==> q % 8 != 0
  {
    var h := q / 2;
    var k := h / 2;
    var l := k / 2;
    BitOfHalf(q, i + 2);
    BitOfHalf(h, i + 1);
    BitOfHalf(k, i);
    BitOfHalf(q, i + 1);
    BitOfHalf(h, i);
    BitOfHalf(q, i);
    assert q == 8 * l + 4 * (k % 2) + 2 * (h % 2) + q % 2;
  }

  lemma BitOfHalf(x: nat, i: nat)
    ensures Bit(x, i + 1) == Bit(x / 2, i)
  {
  }

  lemma TopBit(b: byte, i: nat)
    requires i == 7
    ensures Bit(b, i) == 1 <==> b >= 128
  {
    BitOfUpperHalf(b, i - 4);
    BitsOfNibble(b / 16, 0);
  }

  lemma MiddleBits(b: byte, i: nat)
    requires i == 4
    ensures Bit(b, i) == 1 || Bit(b, i + 1) == 1 || Bit(b, i + 2) == 1 <==> (b / 16) % 8 != 0
  {
    BitOfUpperHalf(b, i - 4);
    BitOfUpperHalf(b, i - 3);
    BitOfUpperHalf(b, i - 2);
    BitsOfNibble(b / 16, 0);
  }

  /** The bytes of a longer length, from any of them on. */
  lemma {:induction false} LongLengthRuns(p: Parser, last: nat, i: nat, more: seq<byte>)
    requires Valid(p) && (last == 1 || last == 7) && i <= last
    requires p.phase == LongPhase(last, i) && |more| == last + 1 - i
    ensures var n := LengthSoFar(p, i) + Number(more);
            Run(p, more) == if n < (if last == 1 then 126 else 65536) then Rejected(WS_NON_CANONICAL_LENGTH, p.queue)
                            else Accepted(p.(remaining := n, phase := AfterLength(p)))
    decreases |more|
  {
    var r := Step(p, more[0]);
    if i < last {
      LongLengthRuns(r.parser, last, i + 1, more[1..]);
    } else {
      assert more[1..] == [] && Power256(0) == 1;
    }
  }

  /** The parser behind a header that it accepts, with the masking key still to come if there is one. */
  function Behind(p: Parser, h: Head): Parser {
    var f := Frame(Finishes(h), Kind(h), Masks(h), [], []);
    BehindLength(AfterOpcode(p, f), h)
  }

  lemma OpcodeIsJudged(p: Parser, h: Head)
    requires Valid(p) && p.phase == Opcode && Whole(h)
    ensures var r := Run(p, [h.opcode]);
            if Verdict(p.fragment, h)
               in {WS_RESERVED_BITS_SET, WS_INVALID_OPCODE, WS_INVALID_CONTINUATION, WS_FRAGMENTED_CONTROL}
            then r == Rejected(Verdict(p.fragment, h), p.queue)
            else r == Accepted(AfterOpcode(p, Frame(Finishes(h), Kind(h), Masks(h), [], [])))
  {
    TopBit(h.opcode, 7);
    MiddleBits(h.opcode, 4);
    RunOne(p, h.opcode);
  }

  function LengthVerdict(control: bool, h: Head): int {
    if control && h.length % 128 > 125 then WS_CONTROL_TOO_LONG
    else if h.length % 128 == 126 && Number(h.more) < 126 then WS_NON_CANONICAL_LENGTH
    else if h.length % 128 == 127 && Number(h.more) < 65536 then WS_NON_CANONICAL_LENGTH
    else 0
  }

  function BehindLength(p: Parser, h: Head): Parser {
    var p1 := p.(masked := Masks(h), maskPos := 0, remaining := PayloadLength(h));
    p1.(phase := AfterLength(p1))
  }

  lemma LengthIsJudged(p: Parser, h: Head)
    requires Valid(p) && p.phase == Length && Whole(h)
    ensures var v := LengthVerdict(p.control, h);
            Run(p, [h.length] + h.more)
            == if v != 0 then Rejected(v, p.queue) else Accepted(EndIfEmpty(BehindLength(p, h)))
  {
    TopBit(h.length, 7);
    RunOne(p, h.length);
    RunAppend(p, [h.length], h.more);
    if h.length % 128 >= 126 && !p.control {
      LongLengthRuns(Step(p, h.length).parser, if h.length % 128 == 126 then 1 else 7, 0, h.more);
    }
  }

  /** Every header, whatever its bytes: refused for the first thing that is wrong with it, or read as it is. */
  lemma HeaderIsJudged(p: Parser, h: Head)
    requires Valid(p) && p.phase == Opcode && Whole(h)
    ensures var v := Verdict(p.fragment, h);
            Run(p, BytesOf(h)) == if v != 0 then Rejected(v, p.queue) else Accepted(EndIfEmpty(Behind(p, h)))
  {
    OpcodeIsJudged(p, h);
    RunAppend(p, [h.opcode], [h.length] + h.more);
    if Run(p, [h.opcode]).Accepted? {
      LengthIsJudged(Run(p, [h.opcode]).parser, h);
    }
  }

  // ---------------------------------------------------------------- frames

  /** The frame that a header, a masking key and payload bytes make up. */
  function FrameOf(h: Head, key: seq<byte>, body: seq<byte>): Frame
    requires |key| == 4
  {
    Frame(Finishes(h), Kind(h), Masks(h), key, if Masks(h) then UnmaskFrom(key, 0, body) else body)
  }

  lemma FrameIsWellFormed(p: Parser, h: Head, key: seq<byte>, body: seq<byte>)
    requires |key| == 4 && Whole(h) && Verdict(p.fragment, h) == 0 && |body| == PayloadLength(h)
    ensures WellFormed(FrameOf(h, key, body)) && !StrayContinuation(p, FrameOf(h, key, body))
    ensures Body(FrameOf(h, key, body)) == body
  {
    var f := FrameOf(h, key, body);
    NumberBound(h.more);
    assert Power256(2) == 65536 <= Power256(8) by {
      assert Power256(4) >= 65536 && Power256(8) >= Power256(4);
    }
    UnmaskTwice(key, 0, body);
  }

  lemma {:induction false} NumberBound(bytes: seq<byte>)
    ensures Number(bytes) < Power256(|bytes|)
  {
    if bytes != [] {
      NumberBound(bytes[1..]);
      MulMonotone(bytes[0], 255, Power256(|bytes| - 1));
    }
  }

  /** Behind the header and the key. */
  lemma HeaderIsRead(p: Parser, h: Head, key: seq<byte>, body: seq<byte>)
    requires Valid(p) && p.phase == Opcode && |key| == 4 && Whole(h)
    requires Verdict(p.fragment, h) == 0 && |body| == PayloadLength(h)
    ensures Run(p, BytesOf(h) + if Masks(h) then key else [])
         == Accepted(EndIfEmpty(AfterHeader(p, FrameOf(h, key, body))))
  {
    var f := FrameOf(h, key, body);
    HeaderIsJudged(p, h);
    assert Behind(p, h) == WithLength(AfterOpcode(p, f), f);
    RunAppend(p, BytesOf(h), if Masks(h) then key else []);
    if Masks(h) {
      ReadKey(Behind(p, h), key);
    }
  }

  /** Every accepted header, any key and as many bytes as it announces do what the frame they make up does. */
  lemma BytesAreFrame(p: Parser, h: Head, key: seq<byte>, body: seq<byte>)
    requires Valid(p) && p.phase == Opcode && |p.data| <= DATA_LIMIT && |key| == 4 && Whole(h)
    requires Verdict(p.fragment, h) == 0 && |body| == PayloadLength(h)
    ensures var f, input := FrameOf(h, key, body), (BytesOf(h) + if Masks(h) then key else []) + body;
            Matches(Run(p, input), Deliver(InboxOf(p), f), p.queue)
  {
    var f := FrameOf(h, key, body);
    HeaderIsRead(p, h, key, body);
    FrameIsWellFormed(p, h, key, body);
    RunAppend(p, BytesOf(h) + if Masks(h) then key else [], body);
    if body == [] {
      ReadEmptyFrame(p, f);
    } else if IsControl(f) {
      ReadBody(p, f);
      ReadControlFrame(p, f);
    } else {
      ReadBody(p, f);
      ReadDataFrame(p, f);
    }
  }

  /** The kinds of section 11.8, by opcode. */
  predicate Names(opcode: byte, kind: Codec.FrameKind) {
    || (opcode == 0x1 && kind == Codec.Text) || (opcode == 0x2 && kind == Codec.Binary)
    || (opcode == 0x8 && kind == Codec.Close) || (opcode == 0x9 && kind == Codec.Ping)
    || (opcode == 0xa && kind == Codec.Pong)
  }

  // ---------------------------------------------------------------- examples

  lemma MaskedH()
    ensures Xor(0x7f, 0x37) == 0x48
  {
    assert XorBits(4, 0x7, 0x3) == 0x4;
    assert XorBits(6, 0x1f, 0xd) == 0x12;
  }

  lemma MaskedE()
    ensures Xor(0x9f, 0xfa) == 0x65
  {
    assert XorBits(4, 0x9, 0xf) == 0x6;
    assert XorBits(6, 0x27, 0x3e) == 0x19;
  }

  lemma MaskedFirstL()
    ensures Xor(0x4d, 0x21) == 0x6c
  {
    assert XorBits(4, 0x4, 0x2) == 0x6;
    assert XorBits(6, 0x13, 0x8) == 0x1b;
  }

  lemma MaskedSecondL()
    ensures Xor(0x51, 0x3d) == 0x6c
  {
    assert XorBits(4, 0x5, 0x3) == 0x6;
    assert XorBits(6, 0x14, 0xf) == 0x1b;
  }

  lemma MaskedO()
    ensures Xor(0x58, 0x37) == 0x6f
  {
    assert XorBits(4, 0x5, 0x3) == 0x6;
    assert XorBits(6, 0x16, 0xd) == 0x1b;
  }

  /** The masking key and the masked bytes of the examples. */
  predicate IsKey(key: seq<byte>) {
    |key| == 4 && key[0] == 0x37 && key[1] == 0xfa && key[2] == 0x21 && key[3] == 0x3d
  }

  predicate IsMaskedHello(body: seq<byte>) {
    |body| == 5 && body[0] == 0x7f && body[1] == 0x9f && body[2] == 0x4d && body[3] == 0x51 && body[4] == 0x58
  }

  predicate IsHello(plain: seq<byte>) {
    |plain| == 5 && plain[0] == 0x48 && plain[1] == 0x65 && plain[2] == 0x6c && plain[3] == 0x6c && plain[4] == 0x6f
  }

  lemma HelloUnmasked(key: seq<byte>, body: seq<byte>)
    requires IsKey(key) && IsMaskedHello(body)
    ensures IsHello(UnmaskFrom(key, 0, body))
  {
    MaskedH();
    MaskedE();
    MaskedFirstL();
    MaskedSecondL();
    MaskedO();
    forall k | 0 <= k < 5 ensures UnmaskFrom(key, 0, body)[k] == Xor(body[k], key[k % 4]) {
      UnmaskFromAt(key, 0, body, k);
    }
    assert 4 % 4 == 0;
  }

  /** A single frame that is accepted by a new parser and ends a message. */
  lemma OneMessage(h: Head, key: seq<byte>, body: seq<byte>)
    requires |key| == 4 && Whole(h) && Verdict(false, h) == 0 && |body| == PayloadLength(h) <= DATA_LIMIT && Finishes(h)
    ensures var r := Run(Fresh(), (BytesOf(h) + if Masks(h) then key else []) + body);
            r.Accepted? && QueueOf(r) == [Message(Kind(h), FrameOf(h, key, body).payload)]
  {
    BytesAreFrame(Fresh(), h, key, body);
    var plain := FrameOf(h, key, body).payload;
    assert [] + plain == plain;
  }

  /** Five masked bytes behind an opcode byte, to a new parser. */
  method ReadAll(opcode: byte, key: seq<byte>, body: seq<byte>) returns (queue: seq<Message>)
    requires opcode in {0x81, 0x8a} && |key| == 4 && |body| == 5
    ensures queue == [Message(opcode % 16, UnmaskFrom(key, 0, body))]
  {
    var input := [opcode, 0x85, key[0], key[1], key[2], key[3], body[0], body[1], body[2], body[3], body[4]];
    var h := Head(opcode, 0x85, []);
    TopBit(opcode, 7);
    MiddleBits(opcode, 4);
    TopBit(0x85, 7);
    assert input == (BytesOf(h) + key) + body;
    OneMessage(h, key, body);
    var buff := new byte[|input|](i requires 0 <= i < |input| => input[i]);
    assert buff[..] == input;
    var parser := new WsParser();
    var rc := parser.Execute(buff);
    queue := parser.queue;
  }

  /** A new decoder that is given the bytes of one frame hands it out with the kind its opcode names. */
  method DecodeFrame(h: Head, key: seq<byte>, body: seq<byte>) returns (r: Codec.DecodeResult)
    requires |key| == 4 && Whole(h) && Verdict(false, h) == 0 && |body| == PayloadLength(h) <= DATA_LIMIT && Finishes(h)
    ensures r.Got? && Names(Kind(h), r.kind) && r.payload == FrameOf(h, key, body).payload
  {
    OneMessage(h, key, body);
    var decoder := new Codec.Decoder();
    var input := (BytesOf(h) + if Masks(h) then key else []) + body;
    decoder.input := [input];
    SplitIndependence(Fresh(), [input]);
    assert Concat([input]) == input;
    ghost var due := [Message(Kind(h), FrameOf(h, key, body).payload)];
    assert decoder.Due() == due && due[..1] == due;
    r := decoder.Decode();
  }

  /** Section 5.7: a single-frame masked text message, and a masked pong. */
  method MaskedExamples(key: seq<byte>, body: seq<byte>) returns (text: seq<Message>, pong: seq<Message>)
    requires IsKey(key) && IsMaskedHello(body)
    ensures |text| == 1 && text[0].kind == FRAME_TEXT && IsHello(text[0].payload)
    ensures |pong| == 1 && pong[0].kind == FRAME_PONG && IsHello(pong[0].payload)
  {
    HelloUnmasked(key, body);
    text := ReadAll(0x81, key, body);
    pong := ReadAll(0x8a, key, body);
  }
}
