/**
  The WebSocket frame parser: the byte machine of ws_parser_execute together with the
  callbacks that collect payloads and queue finished messages.
*/
module WebSocket {
  import opened Bytes

  const FRAME_TEXT := 1
  const FRAME_BINARY := 2
  const FRAME_CLOSE := 8
  const FRAME_PING := 9
  const FRAME_PONG := 10

  const WS_OK := 0
  const WS_RESERVED_BITS_SET := -1
  const WS_INVALID_OPCODE := -2
  const WS_INVALID_CONTINUATION := -3
  const WS_CONTROL_TOO_LONG := -4
  const WS_NON_CANONICAL_LENGTH := -5
  const WS_FRAGMENTED_CONTROL := -6

  /** The limit of the data payload callback on one reassembled message. */
  const DATA_LIMIT := 1024 * 1024

  datatype Message = Message(kind: nat, payload: seq<byte>)

  /** The 17 states of the machine. */
  datatype Phase = Opcode | Length | Length16(i: nat) | Length64(i: nat) | Mask(i: nat) | Payload

  /**
    The parser structure, the payloads collected by the callbacks and their message queue.
    `maskPos` is a two-bit counter and `remaining` the 64-bit count of payload bytes to come.
  */
  datatype Parser = Parser(
    phase: Phase,
    fragment: bool,
    fin: bool,
    control: bool,
    masked: bool,
    maskPos: nat,
    mask: seq<byte>,
    remaining: nat,
    dataKind: nat,
    data: seq<byte>,
    controlKind: nat,
    controlData: seq<byte>,
    queue: seq<Message>)

  /** A parser between calls: a call never stops in the payload state with nothing to read. */
  predicate Valid(p: Parser) {
    && |p.mask| == 4
    && p.maskPos < 4
    && (p.phase.Length16? ==> p.phase.i < 2)
    && (p.phase.Length64? ==> p.phase.i < 8)
    && (p.phase.Mask? ==> p.phase.i < 4)
    && (p.phase.Payload? ==> p.remaining > 0)
  }

  /** How a call ends: with a new parser, or with an error code and the messages queued before it. */
  datatype Outcome = Accepted(parser: Parser) | Rejected(code: int, queue: seq<Message>)

  function CodeOf(r: Outcome): int {
    if r.Accepted? then WS_OK else r.code
  }

  function QueueOf(r: Outcome): seq<Message> {
    if r.Accepted? then r.parser.queue else r.queue
  }

  // ---------------------------------------------------------------- one byte at a time

  function Reject(p: Parser, code: int): Outcome {
    Rejected(code, p.queue)
  }

  function ReadOpcode(p: Parser, b: byte): Outcome {
    var opcode := b % 16;
    var fin := b >= 128;
    if (b / 16) % 8 != 0 then Reject(p, WS_RESERVED_BITS_SET)
    else if opcode == 0 then
      if !p.fragment then Reject(p, WS_INVALID_CONTINUATION)
      else Accepted(p.(fin := fin, control := false, phase := Length))
    else if opcode >= 8 then
      if opcode != FRAME_PING && opcode != FRAME_PONG && opcode != FRAME_CLOSE then Reject(p, WS_INVALID_OPCODE)
      else if !fin then Reject(p, WS_FRAGMENTED_CONTROL)
      else Accepted(p.(fin := fin, control := true, controlData := [], controlKind := opcode, phase := Length))
    else if opcode != FRAME_TEXT && opcode != FRAME_BINARY then Reject(p, WS_INVALID_OPCODE)
    else Accepted(p.(fin := fin, control := false, fragment := !fin, data := [], dataKind := opcode, phase := Length))
  }

  /** The phase after the length is known. */
  function AfterLength(p: Parser): Phase {
    if p.masked then Mask(0) else Payload
  }

  /** The payload is complete: deliver the message unless more fragments follow. */
  function EndOfPayload(p: Parser): Parser {
    var q :=
      if p.control then p.queue + [Message(p.controlKind, p.controlData)]
      else if p.fin then p.queue + [Message(p.dataKind, p.data)]
      else p.queue;
    p.(queue := q, phase := Opcode)
  }

  function EndIfEmpty(p: Parser): Parser {
    if p.phase.Payload? && p.remaining == 0 then EndOfPayload(p) else p
  }

  function ReadLength(p: Parser, b: byte): Outcome {
    var length := b % 128;
    var p' := p.(masked := b >= 128, maskPos := 0);
    if p.control && length > 125 then Reject(p, WS_CONTROL_TOO_LONG)
    else if length < 126 then Accepted(EndIfEmpty(p'.(remaining := length, phase := AfterLength(p'))))
    else Accepted(p'.(phase := if length == 126 then Length16(0) else Length64(0)))
  }

  function Power256(n: nat): (r: nat)
    ensures r > 0
  {
    if n == 0 then 1 else 256 * Power256(n - 1)
  }

  /** The length bytes fill disjoint bit ranges, so the or of the source is an addition. */
  function ReadLongLength(p: Parser, b: byte, i: nat, last: nat, least: nat): Outcome
    requires i <= last
  {
    var soFar := (if i == 0 then 0 else p.remaining) + b * Power256(last - i);
    if i < last then
      Accepted(p.(remaining := soFar, phase := if last == 1 then Length16(i + 1) else Length64(i + 1)))
    else if soFar < least then Reject(p, WS_NON_CANONICAL_LENGTH)
    else Accepted(p.(remaining := soFar, phase := AfterLength(p)))
  }

  function ReadMask(p: Parser, b: byte, i: nat): Outcome
    requires i < 4 && |p.mask| == 4
  {
    var p' := p.(mask := p.mask[i := b]);
    if i < 3 then Accepted(p'.(phase := Mask(i + 1)))
    else Accepted(EndIfEmpty(p'.(phase := Payload)))
  }

  function Unmasked(p: Parser, b: byte): byte
    requires Valid(p)
  {
    if p.masked then Xor(b, p.mask[p.maskPos]) else b
  }

  function ReadPayload(p: Parser, b: byte): Outcome
    requires Valid(p) && p.phase.Payload?
  {
    var c := Unmasked(p, b);
    var p' := p.(remaining := p.remaining - 1, maskPos := if p.masked then (p.maskPos + 1) % 4 else p.maskPos);
    if p.control then Accepted(EndIfEmpty(p'.(controlData := p.controlData + [c])))
    else if |p.data| + 1 > DATA_LIMIT then Reject(p, WS_CONTROL_TOO_LONG)
    else Accepted(EndIfEmpty(p'.(data := p.data + [c])))
  }

  function Step(p: Parser, b: byte): (r: Outcome)
    requires Valid(p)
    ensures if r.Accepted? then Valid(r.parser) else r.code < 0
  {
    match p.phase
    case Opcode => ReadOpcode(p, b)
    case Length => ReadLength(p, b)
    case Length16(i) => ReadLongLength(p, b, i, 1, 126)
    case Length64(i) => ReadLongLength(p, b, i, 7, 65536)
    case Mask(i) => ReadMask(p, b, i)
    case Payload => ReadPayload(p, b)
  }

  function Run(p: Parser, input: seq<byte>): (r: Outcome)
    requires Valid(p)
    ensures if r.Accepted? then Valid(r.parser) else r.code < 0
    decreases |input|
  {
    if input == [] then Accepted(p)
    else
      var r := Step(p, input[0]);
      if r.Accepted? then Run(r.parser, input[1..]) else r
  }

  /** A sequence of calls, each on one buffer; the first error ends it. */
  function RunCalls(p: Parser, buffers: seq<seq<byte>>): (r: Outcome)
    requires Valid(p)
    ensures if r.Accepted? then Valid(r.parser) else r.code < 0
    decreases |buffers|
  {
    if buffers == [] then Accepted(p)
    else
      var r := Run(p, buffers[0]);
      if r.Accepted? then RunCalls(r.parser, buffers[1..]) else r
  }

  lemma {:induction false} RunAppend(p: Parser, a: seq<byte>, b: seq<byte>)
    requires Valid(p)
    ensures Run(p, a + b) == (if Run(p, a).Accepted? then Run(Run(p, a).parser, b) else Run(p, a))
    decreases |a|
  {
    if a == [] {
      assert a + b == b;
    } else {
      assert (a + b)[1..] == a[1..] + b;
      var r := Step(p, a[0]);
      if r.Accepted? {
        RunAppend(r.parser, a[1..], b);
      }
    }
  }

  /** Cutting the input into buffers in any way changes nothing. */
  lemma {:induction false} SplitIndependence(p: Parser, buffers: seq<seq<byte>>)
    requires Valid(p)
    ensures RunCalls(p, buffers) == Run(p, Concat(buffers))
    decreases |buffers|
  {
    if buffers != [] {
      RunAppend(p, buffers[0], Concat(buffers[1..]));
      var r := Run(p, buffers[0]);
      if r.Accepted? {
        SplitIndependence(r.parser, buffers[1..]);
      }
    }
  }

  // ---------------------------------------------------------------- whole payload chunks

  /** The chunk after unmasking it from position `pos` of the mask. */
  function UnmaskFrom(mask: seq<byte>, pos: nat, chunk: seq<byte>): (plain: seq<byte>)
    requires |mask| == 4 && pos < 4
    ensures |plain| == |chunk|
    decreases |chunk|
  {
    if chunk == [] then [] else [Xor(chunk[0], mask[pos])] + UnmaskFrom(mask, (pos + 1) % 4, chunk[1..])
  }

  lemma {:induction false} UnmaskFromAt(mask: seq<byte>, pos: nat, chunk: seq<byte>, k: nat)
    requires |mask| == 4 && pos < 4 && k < |chunk|
    ensures UnmaskFrom(mask, pos, chunk)[k] == Xor(chunk[k], mask[(pos + k) % 4])
    decreases k
  {
    if k > 0 {
      UnmaskFromAt(mask, (pos + 1) % 4, chunk[1..], k - 1);
      MaskPositions(pos, k);
    }
  }

  function PlainChunk(p: Parser, chunk: seq<byte>): seq<byte>
    requires Valid(p)
  {
    if p.masked then UnmaskFrom(p.mask, p.maskPos, chunk) else chunk
  }

  /** What the payload state does with a chunk in one go. */
  function TakeChunk(p: Parser, chunk: seq<byte>): Outcome
    requires Valid(p) && p.phase.Payload? && |chunk| <= p.remaining
  {
    var plain := PlainChunk(p, chunk);
    var p' := p.(remaining := p.remaining - |chunk|,
                 maskPos := if p.masked then (p.maskPos + |chunk|) % 4 else p.maskPos);
    if p.control then Accepted(EndIfEmpty(p'.(controlData := p.controlData + plain)))
    else if |p.data| + |chunk| > DATA_LIMIT then Reject(p, WS_CONTROL_TOO_LONG)
    else Accepted(EndIfEmpty(p'.(data := p.data + plain)))
  }

  lemma {:induction false} RunIsTakeChunk(p: Parser, chunk: seq<byte>)
    requires Valid(p) && p.phase.Payload? && 0 < |chunk| <= p.remaining
    ensures Run(p, chunk) == TakeChunk(p, chunk)
    decreases |chunk|
  {
    var c := Unmasked(p, chunk[0]);
    var r := Step(p, chunk[0]);
    var rest := chunk[1..];
    assert chunk == [chunk[0]] + rest;
    if rest == [] {
      assert PlainChunk(p, chunk) == [c];
    } else if r.Accepted? {
      RunIsTakeChunk(r.parser, rest);
      TakeChunkFirst(p, chunk);
    }
  }

  /** Taking the first byte of a chunk and then the rest is taking the chunk. */
  lemma TakeChunkFirst(p: Parser, chunk: seq<byte>)
    requires Valid(p) && p.phase.Payload? && 1 < |chunk| <= p.remaining
    requires Step(p, chunk[0]).Accepted?
    ensures TakeChunk(Step(p, chunk[0]).parser, chunk[1..]) == TakeChunk(p, chunk)
  {
    var c := Unmasked(p, chunk[0]);
    var p1 := Step(p, chunk[0]).parser;
    var tail := PlainChunk(p1, chunk[1..]);
    assert PlainChunk(p, chunk) == [c] + tail;
    assert p.controlData + ([c] + tail) == (p.controlData + [c]) + tail;
    assert p.data + ([c] + tail) == (p.data + [c]) + tail;
    if p.masked {
      MaskPositions(p.maskPos, |chunk|);
    }
  }

  lemma MaskPositions(pos: nat, n: nat)
    requires pos < 4 && 0 < n
    ensures ((pos + 1) % 4 + (n - 1)) % 4 == (pos + n) % 4
  {
    if pos + 1 == 4 {
      assert (pos + n) % 4 == (n - 1) % 4;
    }
  }

  // ---------------------------------------------------------------- the buffer is unmasked in place

  /** The buffer a call leaves behind: payload bytes unmasked, header bytes untouched. */
  function Image(p: Parser, input: seq<byte>): (out: seq<byte>)
    requires Valid(p)
    ensures |out| == |input|
    decreases |input|
  {
    if input == [] then []
    else
      var r := Step(p, input[0]);
      var c := if p.phase.Payload? then Unmasked(p, input[0]) else input[0];
      [c] + if r.Accepted? then Image(r.parser, input[1..]) else input[1..]
  }

  lemma {:induction false} ImageAppend(p: Parser, a: seq<byte>, b: seq<byte>)
    requires Valid(p) && Run(p, a).Accepted?
    ensures Image(p, a + b) == Image(p, a) + Image(Run(p, a).parser, b)
    decreases |a|
  {
    if a == [] {
      assert a + b == b;
    } else {
      assert (a + b)[1..] == a[1..] + b;
      ImageAppend(Step(p, a[0]).parser, a[1..], b);
    }
  }

  /** A call on `all`, begun in state `p0`, stands at `pos` with parser `p` and buffer `now`. */
  ghost predicate ReadUpTo(p0: Parser, all: seq<byte>, pos: nat, p: Parser, now: seq<byte>) {
    && Valid(p0)
    && pos <= |all|
    && Run(p0, all[..pos]) == Accepted(p)
    && now == Image(p0, all[..pos]) + all[pos..]
  }

  lemma Splice(done: seq<byte>, all: seq<byte>, pos: nat, used: nat)
    requires |done| == pos && pos + used <= |all|
    ensures var whole := done + all[pos..];
            && whole[..pos] == done
            && whole[pos..pos + used] == all[pos..pos + used]
            && whole[pos + used..] == all[pos + used..]
  {
  }

  /** A buffer unmasked byte by byte from `pos` on. */
  lemma UnmaskedInPlace(was: seq<byte>, now: seq<byte>, mask: seq<byte>, maskPos: nat, pos: nat, length: nat)
    requires |mask| == 4 && maskPos < 4 && |now| == |was| && pos + length <= |was|
    requires forall k :: 0 <= k < pos || pos + length <= k < |was| ==> now[k] == was[k]
    requires forall k :: pos <= k < pos + length ==> now[k] == Xor(was[k], mask[(maskPos + (k - pos)) % 4])
    ensures now == was[..pos] + UnmaskFrom(mask, maskPos, was[pos..pos + length]) + was[pos + length..]
  {
    var chunk := was[pos..pos + length];
    forall k | 0 <= k < length
      ensures UnmaskFrom(mask, maskPos, chunk)[k] == now[pos + k]
    {
      UnmaskFromAt(mask, maskPos, chunk, k);
    }
    assert now[..pos] == was[..pos] && now[pos + length..] == was[pos + length..];
    assert now[pos..pos + length] == UnmaskFrom(mask, maskPos, chunk);
    assert now == now[..pos] + now[pos..pos + length] + now[pos + length..];
  }

  /** One more chunk of a call that has got as far as `pos`. */
  lemma RunExtend(p0: Parser, all: seq<byte>, pos: nat, used: nat)
    requires Valid(p0) && pos + used <= |all| && Run(p0, all[..pos]).Accepted?
    ensures var r := Run(Run(p0, all[..pos]).parser, all[pos..pos + used]);
            && Run(p0, all[..pos + used]) == r
            && (r.Rejected? ==> Run(p0, all) == r)
            && (r.Accepted? ==>
                  Image(p0, all[..pos + used])
                  == Image(p0, all[..pos]) + Image(Run(p0, all[..pos]).parser, all[pos..pos + used]))
  {
    var front, chunk, rest := all[..pos], all[pos..pos + used], all[pos + used..];
    ThreeParts(all, pos, used);
    RunAppend(p0, front, chunk);
    RunAppend(p0, front + chunk, rest);
    ImageAppend(p0, front, chunk);
  }

  lemma ThreeParts(all: seq<byte>, pos: nat, used: nat)
    requires pos + used <= |all|
    ensures all[..pos + used] == all[..pos] + all[pos..pos + used]
    ensures all == (all[..pos] + all[pos..pos + used]) + all[pos + used..]
  {
  }

  lemma {:induction false} ImageOfChunk(p: Parser, chunk: seq<byte>)
    requires Valid(p) && p.phase.Payload? && 0 < |chunk| <= p.remaining && Run(p, chunk).Accepted?
    ensures Image(p, chunk) == PlainChunk(p, chunk)
    decreases |chunk|
  {
    var r := Step(p, chunk[0]).parser;
    PlainChunkFirst(p, chunk);
    if |chunk| > 1 {
      ImageOfChunk(r, chunk[1..]);
    }
  }

  lemma PlainChunkFirst(p: Parser, chunk: seq<byte>)
    requires Valid(p) && p.phase.Payload? && 0 < |chunk| <= p.remaining && Step(p, chunk[0]).Accepted?
    ensures var r := Step(p, chunk[0]).parser;
            && Valid(r)
            && PlainChunk(p, chunk) == [Unmasked(p, chunk[0])] + if |chunk| == 1 then [] else PlainChunk(r, chunk[1..])
  {
    assert |chunk| == 1 ==> chunk[1..] == [];
    assert chunk == [chunk[0]] + chunk[1..];
  }

  // ---------------------------------------------------------------- the parser object

  /** ws_parser_t with the callbacks' collector as its user data. */
  class WsParser {
    var phase: Phase
    var fragment: bool
    var fin: bool
    var control: bool
    var masked: bool
    var maskPos: nat
    var mask: seq<byte>
    var remaining: nat
    var dataKind: nat
    var data: seq<byte>
    var controlKind: nat
    var controlData: seq<byte>
    var queue: seq<Message>

    function View(): Parser
      reads this
    {
      Parser(phase, fragment, fin, control, masked, maskPos, mask, remaining,
             dataKind, data, controlKind, controlData, queue)
    }

    constructor ()
      ensures View() == Fresh()
    {
      phase, fragment, fin, control := Opcode, false, false, false;
      masked, maskPos, mask, remaining := false, 0, [0, 0, 0, 0], 0;
      dataKind, data, controlKind, controlData, queue := 0, [], 0, [], [];
    }

    /** data_begin_cb and control_begin_cb */
    method BeginData(kind: nat)
      modifies this`data, this`dataKind
      ensures data == [] && dataKind == kind
    {
      data, dataKind := [], kind;
    }

    method BeginControl(kind: nat)
      modifies this`controlData, this`controlKind
      ensures controlData == [] && controlKind == kind
    {
      controlData, controlKind := [], kind;
    }

    /** The opcode byte. */
    method OnOpcode(b: byte) returns (rc: int)
      requires Valid(View()) && phase == Opcode
      modifies this
      ensures rc == CodeOf(ReadOpcode(old(View()), b))
      ensures rc == WS_OK ==> View() == ReadOpcode(old(View()), b).parser
      ensures queue == old(queue)
    {
      var opcode := b % 16;
      if (b / 16) % 8 != 0 {
        return WS_RESERVED_BITS_SET;
      }
      fin := b >= 128;
      if opcode == 0 {
        if !fragment {
          return WS_INVALID_CONTINUATION;
        }
        control := false;
      } else if opcode >= 8 {
        if opcode != FRAME_PING && opcode != FRAME_PONG && opcode != FRAME_CLOSE {
          return WS_INVALID_OPCODE;
        }
        if !fin {
          return WS_FRAGMENTED_CONTROL;
        }
        control := true;
        BeginControl(opcode);
      } else {
        if opcode != FRAME_TEXT && opcode != FRAME_BINARY {
          return WS_INVALID_OPCODE;
        }
        control := false;
        fragment := !fin;
        BeginData(opcode);
      }
      phase := Length;
      rc := WS_OK;
    }

    /** The end_of_payload label. */
    method OnEndOfPayload()
      modifies this`queue, this`phase
      ensures View() == EndOfPayload(old(View()))
    {
      if control {
        queue := queue + [Message(controlKind, controlData)];
      } else if fin {
        queue := queue + [Message(dataKind, data)];
      }
      phase := Opcode;
    }

    /** The length, extended length and mask bytes. */
    method OnLengthOrMask(b: byte) returns (rc: int)
      requires Valid(View()) && phase != Opcode && phase != Payload
      modifies this
      ensures rc == CodeOf(Step(old(View()), b))
      ensures rc == WS_OK ==> View() == Step(old(View()), b).parser
      ensures rc != WS_OK ==> queue == old(queue)
    {
      rc := WS_OK;
      match phase {
        case Length =>
          var length := b % 128;
          masked := b >= 128;
          maskPos := 0;
          if control && length > 125 {
            return WS_CONTROL_TOO_LONG;
          }
          if length < 126 {
            remaining := length;
            phase := if masked then Mask(0) else Payload;
          } else if length == 126 {
            phase := Length16(0);
          } else {
            phase := Length64(0);
          }
          if phase == Payload && remaining == 0 {
            OnEndOfPayload();
          }
        case Length16(i) =>
          rc := OnLongLength(b, i, 1, 126);
        case Length64(i) =>
          rc := OnLongLength(b, i, 7, 65536);
        case Mask(i) =>
          mask := mask[i := b];
          if i < 3 {
            phase := Mask(i + 1);
          } else {
            phase := Payload;
            if remaining == 0 {
              OnEndOfPayload();
            }
          }
      }
    }

    method OnLongLength(b: byte, i: nat, last: nat, least: nat) returns (rc: int)
      requires i <= last
      modifies this`remaining, this`phase
      ensures rc == CodeOf(ReadLongLength(old(View()), b, i, last, least))
      ensures rc == WS_OK ==> View() == ReadLongLength(old(View()), b, i, last, least).parser
    {
      remaining := (if i == 0 then 0 else remaining) + b * Power256(last - i);
      if i < last {
        phase := if last == 1 then Length16(i + 1) else Length64(i + 1);
      } else {
        phase := if masked then Mask(0) else Payload;
        if remaining < least {
          return WS_NON_CANONICAL_LENGTH;
        }
      }
      rc := WS_OK;
    }

    /** Unmask a chunk of the buffer in place, advancing the two-bit mask position. */
    method Unmask(buff: array<byte>, pos: nat, length: nat)
      requires Valid(View()) && pos + length <= buff.Length
      modifies this`maskPos, buff
      ensures buff[..] == old(buff[..pos]) + UnmaskFrom(mask, old(maskPos), old(buff[pos..pos + length]))
                          + old(buff[pos + length..])
      ensures maskPos == (old(maskPos) + length) % 4
    {
      for i := 0 to length
        invariant maskPos == (old(maskPos) + i) % 4
        invariant forall k :: 0 <= k < pos || pos + i <= k < buff.Length ==> buff[k] == old(buff[k])
        invariant forall k :: pos <= k < pos + i ==> buff[k] == Xor(old(buff[k]), mask[(old(maskPos) + (k - pos)) % 4])
      {
        buff[pos + i] := Xor(buff[pos + i], mask[maskPos]);
        maskPos := (maskPos + 1) % 4;
      }
      UnmaskedInPlace(old(buff[..]), buff[..], mask, old(maskPos), pos, length);
    }

    /** The payload state on the next `length` bytes of the buffer. */
    method OnPayload(buff: array<byte>, pos: nat, length: nat) returns (rc: int)
      requires Valid(View()) && phase == Payload && pos + length <= buff.Length && length <= remaining
      modifies this, buff
      ensures var r := TakeChunk(old(View()), old(buff[pos..pos + length]));
              && rc == CodeOf(r)
              && (rc == WS_OK ==> View() == r.parser)
              && (rc != WS_OK ==> queue == old(queue))
      ensures buff[..] == old(buff[..pos]) + PlainChunk(old(View()), old(buff[pos..pos + length]))
                          + old(buff[pos + length..])
    {
      ghost var chunk := buff[pos..pos + length];
      if masked {
        Unmask(buff, pos, length);
      }
      assert buff[pos..pos + length] == PlainChunk(old(View()), chunk);
      if control {
        controlData := controlData + buff[pos..pos + length];
      } else {
        if |data| + length > DATA_LIMIT {
          return WS_CONTROL_TOO_LONG;
        }
        data := data + buff[pos..pos + length];
      }
      remaining := remaining - length;
      if remaining == 0 {
        OnEndOfPayload();
      }
      rc := WS_OK;
    }

    /** One round of the loop, at `pos` of the buffer. */
    method Consume(buff: array<byte>, pos: nat) returns (rc: int, used: nat)
      requires Valid(View()) && pos < buff.Length
      modifies this, buff
      ensures 1 <= used <= buff.Length - pos
      ensures var p, chunk := old(View()), old(buff[..])[pos..pos + used];
              && rc == CodeOf(Run(p, chunk))
              && queue == QueueOf(Run(p, chunk))
              && (rc == WS_OK ==> Accepted(View()) == Run(p, chunk))
              && (rc == WS_OK ==> buff[..] == old(buff[..])[..pos] + Image(p, chunk) + old(buff[..])[pos + used..])
    {
      if phase == Payload {
        used := if buff.Length - pos > remaining then remaining else buff.Length - pos;
        rc := ConsumeData(buff, pos, used);
      } else {
        used := 1;
        rc := ConsumeByte(buff, pos);
      }
    }

    method ConsumeData(buff: array<byte>, pos: nat, used: nat) returns (rc: int)
      requires Valid(View()) && phase == Payload && 1 <= used <= remaining && pos + used <= buff.Length
      modifies this, buff
      ensures var p, chunk := old(View()), old(buff[..])[pos..pos + used];
              && rc == CodeOf(Run(p, chunk))
              && queue == QueueOf(Run(p, chunk))
              && (rc == WS_OK ==> Accepted(View()) == Run(p, chunk))
              && (rc == WS_OK ==> buff[..] == old(buff[..])[..pos] + Image(p, chunk) + old(buff[..])[pos + used..])
    {
      ghost var p, all := View(), buff[..];
      RunIsTakeChunk(p, all[pos..pos + used]);
      if Run(p, all[pos..pos + used]).Accepted? {
        ImageOfChunk(p, all[pos..pos + used]);
      }
      assert buff[pos..pos + used] == all[pos..pos + used];
      assert buff[..pos] == all[..pos] && buff[pos + used..] == all[pos + used..];
      rc := OnPayload(buff, pos, used);
    }

    method ConsumeByte(buff: array<byte>, pos: nat) returns (rc: int)
      requires Valid(View()) && phase != Payload && pos < buff.Length
      modifies this
      ensures var p, chunk := old(View()), old(buff[..])[pos..pos + 1];
              && rc == CodeOf(Run(p, chunk))
              && queue == QueueOf(Run(p, chunk))
              && (rc == WS_OK ==> Accepted(View()) == Run(p, chunk))
              && (rc == WS_OK ==> buff[..] == old(buff[..])[..pos] + Image(p, chunk) + old(buff[..])[pos + 1..])
    {
      ghost var all := buff[..];
      RunOne(View(), buff[pos]);
      assert all[pos..pos + 1] == [buff[pos]];
      assert all == all[..pos] + [buff[pos]] + all[pos + 1..];
      if phase == Opcode {
        rc := OnOpcode(buff[pos]);
      } else {
        rc := OnLengthOrMask(buff[pos]);
      }
    }

    /** Extend a call on `all`, begun in state `p0`, that has got as far as `pos`. */
    method Round(buff: array<byte>, pos: nat, ghost p0: Parser, ghost all: seq<byte>) returns (rc: int, used: nat)
      requires ReadUpTo(p0, all, pos, View(), buff[..]) && pos < buff.Length
      modifies this, buff
      ensures 1 <= used <= buff.Length - pos
      ensures rc == WS_OK ==> ReadUpTo(p0, all, pos + used, View(), buff[..])
      ensures rc != WS_OK ==> Run(p0, all) == Rejected(rc, queue)
    {
      rc, used := Consume(buff, pos);
      Splice(Image(p0, all[..pos]), all, pos, used);
      RunExtend(p0, all, pos, used);
    }

    /**
      ws_parser_execute: reads the whole buffer, and reports, queues and keeps exactly what
      reading it byte by byte does, in whatever state the previous call left the parser.
    */
    method Execute(buff: array<byte>) returns (rc: int)
      requires Valid(View())
      modifies this, buff
      ensures var r := Run(old(View()), old(buff[..]));
              && rc == CodeOf(r)
              && queue == QueueOf(r)
              && (rc == WS_OK ==> r == Accepted(View()))
      ensures rc == WS_OK ==> buff[..] == Image(old(View()), old(buff[..]))
    {
      ghost var p0, all := View(), buff[..];
      var pos := 0;
      while pos < buff.Length
        invariant pos <= buff.Length == |all|
        invariant ReadUpTo(p0, all, pos, View(), buff[..])
        decreases buff.Length - pos
      {
        var used;
        rc, used := Round(buff, pos, p0, all);
        if rc != WS_OK {
          return;
        }
        pos := pos + used;
      }
      assert all[..pos] == all;
      rc := WS_OK;
    }
  }

  /** The parser right after ws_parser_init. */
  function Fresh(): Parser {
    Parser(Opcode, false, false, false, false, 0, [0, 0, 0, 0], 0, 0, [], 0, [], [])
  }

  lemma RunOne(p: Parser, b: byte)
    requires Valid(p)
    ensures Run(p, [b]) == Step(p, b)
    ensures !p.phase.Payload? ==> Image(p, [b]) == [b]
  {
    var r := Step(p, b);
    assert [b][1..] == [];
  }
}
