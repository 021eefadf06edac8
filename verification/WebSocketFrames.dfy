/**
  Frames as section 5.2 of RFC 6455 lays them out, and what the parser makes of any sequence
  of them: which sequences it accepts and which messages it queues.
*/
module WebSocketFrames {
  import opened Arithmetic
  import opened Bytes
  import opened WebSocket

  datatype Frame = Frame(fin: bool, opcode: byte, masked: bool, key: seq<byte>, payload: seq<byte>)

  predicate IsControl(f: Frame) {
    f.opcode >= 8
  }

  predicate StartsMessage(f: Frame) {
    f.opcode == FRAME_TEXT || f.opcode == FRAME_BINARY
  }

  /** A frame that is legal on its own; section 5.5 bounds control frames. */
  predicate WellFormed(f: Frame) {
    && f.opcode in {0, FRAME_TEXT, FRAME_BINARY, FRAME_CLOSE, FRAME_PING, FRAME_PONG}
    && |f.key| == 4
    && |f.payload| < Power256(8)
    && (IsControl(f) ==> f.fin && |f.payload| <= 125)
  }

  function BigEndian(k: nat, n: nat): (out: seq<byte>)
    ensures |out| == k
  {
    if k == 0 then [] else [(n / Power256(k - 1)) % 256] + BigEndian(k - 1, n)
  }

  /** The shortest length encoding, with the mask bit on top. */
  function LengthField(masked: bool, n: nat): seq<byte>
    requires n < Power256(8)
  {
    if n < 126 then [LengthByte(masked, n)]
    else if n < 65536 then [LengthByte(masked, 126)] + BigEndian(2, n)
    else [LengthByte(masked, 127)] + BigEndian(8, n)
  }

  function Header(f: Frame): seq<byte>
    requires WellFormed(f)
  {
    [OpcodeByte(f)] + LengthField(f.masked, |f.payload|) + (if f.masked then f.key else [])
  }

  /** Masking and unmasking are the same operation. */
  function Body(f: Frame): seq<byte>
    requires WellFormed(f)
  {
    if f.masked then UnmaskFrom(f.key, 0, f.payload) else f.payload
  }

  function Encode(f: Frame): seq<byte>
    requires WellFormed(f)
  {
    Header(f) + Body(f)
  }

  function EncodeAll(fs: seq<Frame>): seq<byte>
    requires forall i :: 0 <= i < |fs| ==> WellFormed(fs[i])
  {
    if fs == [] then [] else Encode(fs[0]) + EncodeAll(fs[1..])
  }

  // ---------------------------------------------------------------- arithmetic of the length bytes

  lemma Distribute(t: nat, b: nat, p: nat)
    ensures (256 * t + b) * p == t * (256 * p) + b * p
  {
  }

  /** The low bytes of n are its next byte followed by the lower ones. */
  lemma LowBytes(n: nat, p: nat)
    requires p > 0
    ensures n % (256 * p) == ((n / p) % 256) * p + n % p
  {
    var q, r := n / p, n % p;
    var b, t := q % 256, q / 256;
    assert n == q * p + r;
    assert q == 256 * t + b;
    assert q * p == t * (256 * p) + b * p by {
      Distribute(t, b, p);
    }
    MulMonotone(b, 255, p);
    DivisionIsUnique(n, 256 * p, t, b * p + r);
  }

  // ---------------------------------------------------------------- reading a frame back

  function LongPhase(last: nat, i: nat): Phase {
    if last == 1 then Length16(i) else Length64(i)
  }

  /** The value of the length bytes before the i-th. */
  function LengthSoFar(p: Parser, i: nat): nat {
    if i == 0 then 0 else p.remaining
  }

  /** The parser is about to read the i-th byte of the extended length n. */
  ghost predicate LengthPending(p: Parser, last: nat, i: nat, n: nat) {
    && Valid(p)
    && (last == 1 || last == 7)
    && i <= last
    && p.phase == LongPhase(last, i)
    && LengthSoFar(p, i) + n % Power256(last + 1 - i) == n
    && n >= (if last == 1 then 126 else 65536)
  }

  /** The `i`-th byte of the length goes to the place it came from. */
  lemma ReadLengthByte(p: Parser, last: nat, i: nat, n: nat)
    requires LengthPending(p, last, i, n)
    ensures var b := BigEndian(last + 1 - i, n)[0];
            && Step(p, b) == ReadLongLength(p, b, i, last, if last == 1 then 126 else 65536)
            && LengthSoFar(p, i) + b * Power256(last - i) + n % Power256(last - i) == n
  {
    NextLowByte(n, last - i);
  }

  lemma MiddleLengthByte(p: Parser, last: nat, i: nat, n: nat)
    requires LengthPending(p, last, i, n) && i < last
    ensures var r := Step(p, BigEndian(last + 1 - i, n)[0]);
            && r.Accepted? && LengthPending(r.parser, last, i + 1, n)
            && r.parser == p.(remaining := r.parser.remaining, phase := r.parser.phase)
  {
    ReadLengthByte(p, last, i, n);
  }

  lemma LastLengthByte(p: Parser, last: nat, n: nat)
    requires LengthPending(p, last, last, n)
    ensures Step(p, BigEndian(1, n)[0]) == Accepted(p.(remaining := n, phase := AfterLength(p)))
  {
    ReadLengthByte(p, last, last, n);
    assert Power256(0) == 1 && n % 1 == 0;
  }

  /** The first of the `k + 1` bytes of a length, and what they have to say together. */
  lemma NextLowByte(n: nat, k: nat)
    ensures n % Power256(k + 1) == BigEndian(k + 1, n)[0] * Power256(k) + n % Power256(k)
  {
    LowBytes(n, Power256(k));
  }

  /** The extended length comes out as the number that went in. */
  lemma {:induction false} ReadBigEndian(p: Parser, last: nat, i: nat, n: nat)
    requires LengthPending(p, last, i, n)
    ensures Run(p, BigEndian(last + 1 - i, n)) == Accepted(p.(remaining := n, phase := AfterLength(p)))
    decreases last - i
  {
    var bytes := BigEndian(last + 1 - i, n);
    assert bytes[1..] == BigEndian(last - i, n);
    var r := Step(p, bytes[0]);
    if i < last {
      MiddleLengthByte(p, last, i, n);
      ReadBigEndian(r.parser, last, i + 1, n);
      assert AfterLength(r.parser) == AfterLength(p);
    } else {
      LastLengthByte(p, last, n);
      assert bytes[1..] == [];
    }
  }

  /** The parser after the length field, before any mask. */
  function WithLength(p: Parser, f: Frame): Parser {
    var p' := p.(masked := f.masked, maskPos := 0, remaining := |f.payload|);
    p'.(phase := AfterLength(p'))
  }

  function LengthByte(masked: bool, v: nat): byte
    requires v < 128
  {
    (if masked then 128 else 0) + v
  }

  lemma ReadShortLength(p: Parser, f: Frame)
    requires Valid(p) && p.phase == Length && WellFormed(f) && |f.payload| < 126
    ensures Run(p, [LengthByte(f.masked, |f.payload|)]) == Accepted(EndIfEmpty(WithLength(p, f)))
  {
    var b := LengthByte(f.masked, |f.payload|);
    LengthByteParts(f.masked, |f.payload|);
    RunOne(p, b);
  }

  lemma LengthByteParts(masked: bool, n: nat)
    requires n < 128
    ensures LengthByte(masked, n) % 128 == n && (LengthByte(masked, n) >= 128 <==> masked)
  {
  }

  lemma ReadLongLengthField(p: Parser, f: Frame, last: nat)
    requires Valid(p) && p.phase == Length && !p.control && WellFormed(f)
    requires if last == 1 then 126 <= |f.payload| < 65536 else last == 7 && 65536 <= |f.payload|
    ensures Run(p, [LengthByte(f.masked, if last == 1 then 126 else 127)] + BigEndian(last + 1, |f.payload|))
            == Accepted(WithLength(p, f))
  {
    var n := |f.payload|;
    var b := LengthByte(f.masked, if last == 1 then 126 else 127);
    LengthByteParts(f.masked, if last == 1 then 126 else 127);
    RunOne(p, b);
    RunAppend(p, [b], BigEndian(last + 1, n));
    assert Power256(2) == 65536;
    assert n % Power256(last + 1) == n;
    ReadBigEndian(Step(p, b).parser, last, 0, n);
  }

  lemma ReadLengthField(p: Parser, f: Frame)
    requires Valid(p) && p.phase == Length && WellFormed(f) && p.control == IsControl(f)
    ensures Run(p, LengthField(f.masked, |f.payload|)) == Accepted(EndIfEmpty(WithLength(p, f)))
  {
    if |f.payload| < 126 {
      ReadShortLength(p, f);
    } else {
      ReadLongLengthField(p, f, if |f.payload| < 65536 then 1 else 7);
    }
  }

  lemma ReadKey(p: Parser, key: seq<byte>)
    requires Valid(p) && p.phase == Mask(0) && |key| == 4
    ensures Run(p, key) == Accepted(EndIfEmpty(p.(mask := key, phase := Payload)))
  {
    var p1 := Step(p, key[0]).parser;
    var p2 := Step(p1, key[1]).parser;
    var p3 := Step(p2, key[2]).parser;
    assert p3.mask[3 := key[3]] == key;
    RunOne(p3, key[3]);
    assert key[1..][1..][1..] == [key[3]];
    assert Run(p2, key[1..][1..]) == Run(p3, key[1..][1..][1..]);
  }

  // ---------------------------------------------------------------- what a frame does to the messages

  /** The part of the parser that outlives a frame. */
  datatype Inbox = Inbox(fragment: bool, kind: nat, data: seq<byte>, queue: seq<Message>)

  function InboxOf(p: Parser): Inbox {
    Inbox(p.fragment, p.dataKind, p.data, p.queue)
  }

  datatype Delivery = Delivered(inbox: Inbox) | Refused(code: int)

  function Deliver(box: Inbox, f: Frame): Delivery {
    if IsControl(f) then Delivered(box.(queue := box.queue + [Message(f.opcode, f.payload)]))
    else if f.opcode == 0 && !box.fragment then Refused(WS_INVALID_CONTINUATION)
    else
      var box' := if f.opcode == 0 then box else Inbox(!f.fin, f.opcode, [], box.queue);
      var data := box'.data + f.payload;
      if |data| > DATA_LIMIT then Refused(WS_CONTROL_TOO_LONG)
      else Delivered(box'.(data := data, queue := if f.fin then box.queue + [Message(box'.kind, data)] else box.queue))
  }

  function OpcodeByte(f: Frame): byte
    requires f.opcode < 16
  {
    (if f.fin then 128 else 0) + f.opcode
  }

  /** The parser has read the opcode byte of `f`. */
  function AfterOpcode(p: Parser, f: Frame): Parser {
    var p1 := p.(fin := f.fin, control := IsControl(f), phase := Length);
    if IsControl(f) then p1.(controlKind := f.opcode, controlData := [])
    else if f.opcode == 0 then p1
    else p1.(fragment := !f.fin, dataKind := f.opcode, data := [])
  }

  predicate StrayContinuation(p: Parser, f: Frame) {
    f.opcode == 0 && !p.fragment
  }

  lemma ReadOpcodeByte(p: Parser, f: Frame)
    requires Valid(p) && p.phase == Opcode && WellFormed(f)
    ensures Run(p, [OpcodeByte(f)]) == if StrayContinuation(p, f) then Rejected(WS_INVALID_CONTINUATION, p.queue)
                                       else Accepted(AfterOpcode(p, f))
  {
    var b := OpcodeByte(f);
    assert b % 16 == f.opcode && (b / 16) % 8 == 0 && (b >= 128) == f.fin;
    RunOne(p, b);
  }

  /** The parser has read the header of `f` and is about to read its payload, if there is any. */
  function AfterHeader(p: Parser, f: Frame): Parser {
    var p1 := WithLength(AfterOpcode(p, f), f);
    p1.(mask := if f.masked then f.key else p.mask, phase := Payload)
  }

  lemma ReadHeader(p: Parser, f: Frame)
    requires Valid(p) && p.phase == Opcode && WellFormed(f)
    ensures Run(p, Header(f)) == if StrayContinuation(p, f) then Rejected(WS_INVALID_CONTINUATION, p.queue)
                                 else Accepted(EndIfEmpty(AfterHeader(p, f)))
  {
    var field := LengthField(f.masked, |f.payload|);
    var key := if f.masked then f.key else [];
    ReadOpcodeByte(p, f);
    assert Header(f) == [OpcodeByte(f)] + (field + key);
    RunAppend(p, [OpcodeByte(f)], field + key);
    if !StrayContinuation(p, f) {
      var p1 := AfterOpcode(p, f);
      RunAppend(p1, field, key);
      ReadLengthField(p1, f);
      if f.masked {
        ReadKey(WithLength(p1, f), key);
      }
    }
  }

  lemma {:induction false} UnmaskTwice(key: seq<byte>, pos: nat, payload: seq<byte>)
    requires |key| == 4 && pos < 4
    ensures UnmaskFrom(key, pos, UnmaskFrom(key, pos, payload)) == payload
    decreases |payload|
  {
    if payload != [] {
      XorTwice(payload[0], key[pos]);
      UnmaskTwice(key, (pos + 1) % 4, payload[1..]);
    }
  }

  /** Reading the payload after the header. */
  lemma ReadBody(p: Parser, f: Frame)
    requires Valid(p) && p.phase == Opcode && WellFormed(f) && f.payload != []
    ensures Run(AfterHeader(p, f), Body(f)) == TakeChunk(AfterHeader(p, f), Body(f))
    ensures PlainChunk(AfterHeader(p, f), Body(f)) == f.payload
  {
    RunIsTakeChunk(AfterHeader(p, f), Body(f));
    UnmaskTwice(f.key, 0, f.payload);
  }

  ghost predicate Matches(r: Outcome, d: Delivery, queue: seq<Message>) {
    match d
    case Delivered(box) => r.Accepted? && r.parser.phase == Opcode && InboxOf(r.parser) == box
    case Refused(code) => r == Rejected(code, queue)
  }

  lemma ReadControlFrame(p: Parser, f: Frame)
    requires Valid(p) && p.phase == Opcode && WellFormed(f) && IsControl(f) && f.payload != []
    ensures Matches(TakeChunk(AfterHeader(p, f), Body(f)), Deliver(InboxOf(p), f), p.queue)
  {
    ReadBody(p, f);
    assert [] + f.payload == f.payload;
  }

  lemma ReadDataFrame(p: Parser, f: Frame)
    requires Valid(p) && p.phase == Opcode && WellFormed(f) && !IsControl(f) && f.payload != []
    requires !StrayContinuation(p, f)
    ensures Matches(TakeChunk(AfterHeader(p, f), Body(f)), Deliver(InboxOf(p), f), p.queue)
  {
    ReadBody(p, f);
  }

  lemma ReadEmptyFrame(p: Parser, f: Frame)
    requires Valid(p) && p.phase == Opcode && |p.data| <= DATA_LIMIT && WellFormed(f) && f.payload == []
    requires !StrayContinuation(p, f)
    ensures Matches(Accepted(EndOfPayload(AfterHeader(p, f))), Deliver(InboxOf(p), f), p.queue)
  {
    assert AfterHeader(p, f).data + f.payload == AfterHeader(p, f).data;
  }

  /** One frame: the parser delivers it, or refuses it with the messages so far intact. */
  lemma ReadFrame(p: Parser, f: Frame)
    requires Valid(p) && p.phase == Opcode && |p.data| <= DATA_LIMIT && WellFormed(f)
    ensures Matches(Run(p, Encode(f)), Deliver(InboxOf(p), f), p.queue)
  {
    RunAppend(p, Header(f), Body(f));
    ReadHeader(p, f);
    if !StrayContinuation(p, f) {
      if f.payload == [] {
        assert Body(f) == [];
        ReadEmptyFrame(p, f);
      } else {
        ReadBody(p, f);
        if IsControl(f) {
          ReadControlFrame(p, f);
        } else {
          ReadDataFrame(p, f);
        }
      }
    }
  }

  // ---------------------------------------------------------------- frame sequences

  /** The last of the first k frames that starts a data message, or -1. */
  function LatestStart(fs: seq<Frame>, k: nat): (j: int)
    requires k <= |fs|
    ensures -1 <= j < k && (j >= 0 ==> StartsMessage(fs[j]))
  {
    if k == 0 then -1 else if StartsMessage(fs[k - 1]) then k - 1 else LatestStart(fs, k - 1)
  }

  /** The data payloads of frames j to k-1, control frames skipped, in order. */
  function Assembled(fs: seq<Frame>, j: nat, k: nat): seq<byte>
    requires k <= |fs|
  {
    if k <= j then [] else Assembled(fs, j, k - 1) + (if IsControl(fs[k - 1]) then [] else fs[k - 1].payload)
  }

  /** The message that frame i completes, if any. */
  function Completed(fs: seq<Frame>, i: nat): seq<Message>
    requires i < |fs|
  {
    var f, s := fs[i], LatestStart(fs, i + 1);
    if IsControl(f) then [Message(f.opcode, f.payload)]
    else if f.fin && s >= 0 then [Message(fs[s].opcode, Assembled(fs, s, i + 1))]
    else []
  }

  /** The messages that the first k frames complete, in completion order. */
  function Messages(fs: seq<Frame>, k: nat): seq<Message>
    requires k <= |fs|
  {
    if k == 0 then [] else Messages(fs, k - 1) + Completed(fs, k - 1)
  }

  /**
    When the parser accepts frame i of a sequence: a continuation needs a latest start frame
    that was not final, and the message assembled so far must respect the limit.
  */
  predicate Acceptable(fs: seq<Frame>, i: nat)
    requires i < |fs|
  {
    var f, s := fs[i], LatestStart(fs, i + 1);
    IsControl(f) || (s >= 0 && (f.opcode == 0 ==> !fs[s].fin) && |Assembled(fs, s, i + 1)| <= DATA_LIMIT)
  }

  ghost predicate AcceptableUpTo(fs: seq<Frame>, k: nat)
    requires k <= |fs|
  {
    forall i :: 0 <= i < k ==> Acceptable(fs, i)
  }

  ghost predicate AllWellFormed(fs: seq<Frame>) {
    forall i :: 0 <= i < |fs| ==> WellFormed(fs[i])
  }

  lemma {:induction false} EncodeAllSnoc(fs: seq<Frame>, k: nat)
    requires AllWellFormed(fs) && k < |fs|
    ensures EncodeAll(fs[..k + 1]) == EncodeAll(fs[..k]) + Encode(fs[k])
    decreases k
  {
    if k == 0 {
      assert fs[..1] == [fs[0]] && fs[..1][1..] == [];
      assert EncodeAll(fs[..0]) == [];
    } else {
      EncodeAllSnoc(fs[1..], k - 1);
      assert fs[..k + 1][1..] == fs[1..][..k] && fs[..k][1..] == fs[1..][..k - 1];
      assert fs[..k + 1][0] == fs[0] && fs[..k][0] == fs[0];
      Reassociate(Encode(fs[0]), EncodeAll(fs[1..][..k - 1]), Encode(fs[k]));
    }
  }

  /** What the parser holds after the first k frames, told from the frames alone. */
  ghost predicate HoldsAfter(p: Parser, fs: seq<Frame>, k: nat)
    requires k <= |fs|
  {
    var s := LatestStart(fs, k);
    && Valid(p)
    && p.phase == Opcode
    && |p.data| <= DATA_LIMIT
    && p.fragment == (s >= 0 && !fs[s].fin)
    && (s >= 0 ==> p.dataKind == fs[s].opcode && p.data == Assembled(fs, s, k))
    && p.queue == Messages(fs, k)
  }

  /** Telling the messages apart frame by frame is what Deliver does. */
  lemma DeliverMatchesReference(p: Parser, fs: seq<Frame>, k: nat)
    requires AllWellFormed(fs) && k < |fs| && HoldsAfter(p, fs, k)
    ensures var d := Deliver(InboxOf(p), fs[k]);
            && (d.Delivered? <==> Acceptable(fs, k))
            && (d.Delivered? ==>
                  var s := LatestStart(fs, k + 1);
                  && d.inbox.fragment == (s >= 0 && !fs[s].fin)
                  && (s >= 0 ==> d.inbox.kind == fs[s].opcode && d.inbox.data == Assembled(fs, s, k + 1))
                  && |d.inbox.data| <= DATA_LIMIT
                  && d.inbox.queue == Messages(fs, k + 1))
  {
    var f, s := fs[k], LatestStart(fs, k + 1);
    if StartsMessage(f) {
      assert Assembled(fs, k, k) == [];
      assert Assembled(fs, k, k + 1) == f.payload;
      assert [] + f.payload == f.payload;
    } else if s >= 0 {
      assert Assembled(fs, s, k + 1) == Assembled(fs, s, k) + (if IsControl(f) then [] else f.payload);
    }
  }

  lemma ReadNextFrame(p0: Parser, p: Parser, fs: seq<Frame>, k: nat)
    requires Valid(p0) && AllWellFormed(fs) && k < |fs|
    requires Run(p0, EncodeAll(fs[..k])) == Accepted(p) && HoldsAfter(p, fs, k)
    ensures var r := Run(p0, EncodeAll(fs[..k + 1]));
            if Acceptable(fs, k) then r.Accepted? && HoldsAfter(r.parser, fs, k + 1)
            else r.Rejected? && r.queue == Messages(fs, k)
  {
    EncodeAllSnoc(fs, k);
    RunAppend(p0, EncodeAll(fs[..k]), Encode(fs[k]));
    ReadFrame(p, fs[k]);
    DeliverMatchesReference(p, fs, k);
  }

  lemma {:induction false} ReadFrames(fs: seq<Frame>, k: nat)
    requires AllWellFormed(fs) && k <= |fs| && AcceptableUpTo(fs, k)
    ensures var r := Run(Fresh(), EncodeAll(fs[..k])); r.Accepted? && HoldsAfter(r.parser, fs, k)
    decreases k
  {
    if k == 0 {
      assert fs[..0] == [];
    } else {
      ReadFrames(fs, k - 1);
      ReadNextFrame(Fresh(), Run(Fresh(), EncodeAll(fs[..k - 1])).parser, fs, k - 1);
    }
  }

  lemma {:induction false} EncodePrefix(fs: seq<Frame>, k: nat)
    requires AllWellFormed(fs) && k <= |fs|
    ensures EncodeAll(fs) == EncodeAll(fs[..k]) + EncodeAll(fs[k..])
    decreases |fs|
  {
    if k == 0 {
      assert fs[..0] == [] && fs[0..] == fs;
    } else {
      EncodePrefix(fs[1..], k - 1);
      assert fs[..k][1..] == fs[1..][..k - 1] && fs[1..][k - 1..] == fs[k..];
      Reassociate(Encode(fs[0]), EncodeAll(fs[1..][..k - 1]), EncodeAll(fs[k..]));
    }
  }

  lemma Reassociate(a: seq<byte>, b: seq<byte>, c: seq<byte>)
    ensures a + (b + c) == (a + b) + c
  {
  }

  lemma RejectedFrames(fs: seq<Frame>, k: nat)
    requires AllWellFormed(fs) && k < |fs| && AcceptableUpTo(fs, k) && !Acceptable(fs, k)
    ensures var r := Run(Fresh(), EncodeAll(fs)); r.Rejected? && r.queue == Messages(fs, k)
  {
    ReadFrames(fs, k);
    ReadNextFrame(Fresh(), Run(Fresh(), EncodeAll(fs[..k])).parser, fs, k);
    EncodePrefix(fs, k + 1);
    RunAppend(Fresh(), EncodeAll(fs[..k + 1]), EncodeAll(fs[k + 1..]));
  }

  lemma AcceptedFrames(fs: seq<Frame>)
    requires AllWellFormed(fs) && AcceptableUpTo(fs, |fs|)
    ensures var r := Run(Fresh(), EncodeAll(fs)); r.Accepted? && r.parser.queue == Messages(fs, |fs|)
  {
    ReadFrames(fs, |fs|);
    assert fs[..|fs|] == fs;
  }

  /** The number of frames before the first unacceptable one. */
  function AcceptableCount(fs: seq<Frame>, k: nat): (n: nat)
    requires k <= |fs| && AcceptableUpTo(fs, k)
    ensures k <= n <= |fs| && AcceptableUpTo(fs, n) && (n < |fs| ==> !Acceptable(fs, n))
    decreases |fs| - k
  {
    if k < |fs| && Acceptable(fs, k) then AcceptableCount(fs, k + 1) else k
  }

  /**
    Reassembly, exactly: however the encoded frames are cut into buffers, the parser accepts
    them if and only if every frame is acceptable, and the queue holds the messages completed
    by the frames before the first unacceptable one, each with its fragments concatenated.
  */
  lemma Reassembly(fs: seq<Frame>, buffers: seq<seq<byte>>)
    requires AllWellFormed(fs) && Concat(buffers) == EncodeAll(fs)
    ensures var r := RunCalls(Fresh(), buffers);
            && (r.Accepted? <==> AcceptableUpTo(fs, |fs|))
            && QueueOf(r) == Messages(fs, AcceptableCount(fs, 0))
  {
    SplitIndependence(Fresh(), buffers);
    var k := AcceptableCount(fs, 0);
    if k == |fs| {
      AcceptedFrames(fs);
    } else {
      RejectedFrames(fs, k);
    }
  }

  // ---------------------------------------------------------------- the order the RFC asks for

  /** Section 5.4: after the first k frames a fragmented message is open. */
  predicate Open(fs: seq<Frame>, k: nat)
    requires k <= |fs|
  {
    k > 0 && if IsControl(fs[k - 1]) then Open(fs, k - 1) else !fs[k - 1].fin
  }

  /** Continuations come exactly while a message is open. */
  ghost predicate InOrder(fs: seq<Frame>) {
    forall i :: 0 <= i < |fs| && !IsControl(fs[i]) ==> (fs[i].opcode == 0 <==> Open(fs, i))
  }

  lemma {:induction false} OpenMessageHasStart(fs: seq<Frame>, k: nat)
    requires AllWellFormed(fs) && InOrder(fs) && k <= |fs| && Open(fs, k)
    ensures LatestStart(fs, k) >= 0 && !fs[LatestStart(fs, k)].fin
    decreases k
  {
    if !StartsMessage(fs[k - 1]) {
      OpenMessageHasStart(fs, k - 1);
    }
  }

  predicate WithinLimit(fs: seq<Frame>, i: nat)
    requires i < |fs|
  {
    var s := LatestStart(fs, i + 1);
    s >= 0 ==> |Assembled(fs, s, i + 1)| <= DATA_LIMIT
  }

  /**
    Every well-ordered sequence whose messages respect the limit is accepted and delivered,
    whatever the cut.
  */
  lemma WellOrderedFramesAreDelivered(fs: seq<Frame>, buffers: seq<seq<byte>>)
    requires AllWellFormed(fs) && InOrder(fs) && Concat(buffers) == EncodeAll(fs)
    requires forall i :: 0 <= i < |fs| ==> WithinLimit(fs, i)
    ensures var r := RunCalls(Fresh(), buffers); r.Accepted? && r.parser.queue == Messages(fs, |fs|)
  {
    forall i | 0 <= i < |fs|
      ensures Acceptable(fs, i)
    {
      assert WithinLimit(fs, i);
      if fs[i].opcode == 0 {
        OpenMessageHasStart(fs, i);
      }
    }
    assert AcceptableCount(fs, 0) == |fs|;
    Reassembly(fs, buffers);
  }

  /**
    The parser is looser than the RFC: the fragment flag survives a final continuation, so a
    stray continuation after it is accepted and delivers the finished message once more with
    the stray payload attached.
  */
  lemma StrayContinuationAccepted(a: byte, b: byte, c: byte)
    ensures var key := [0, 0, 0, 0];
            var fs := [Frame(false, FRAME_TEXT, false, key, [a]), Frame(true, 0, false, key, [b]),
                       Frame(true, 0, false, key, [c])];
            && AllWellFormed(fs) && !InOrder(fs)
            && RunCalls(Fresh(), [EncodeAll(fs)]).Accepted?
            && QueueOf(RunCalls(Fresh(), [EncodeAll(fs)]))
            == [Message(FRAME_TEXT, [a, b]), Message(FRAME_TEXT, [a, b, c])]
  {
    var key := [0, 0, 0, 0];
    var fs := [Frame(false, FRAME_TEXT, false, key, [a]), Frame(true, 0, false, key, [b]),
               Frame(true, 0, false, key, [c])];
    assert Power256(8) > 2 by {
      assert Power256(4) > 2;
    }
    assert !Open(fs, 2) && fs[2].opcode == 0;
    StrayContinuationAssembled(fs, a, b, c);
    assert Concat([EncodeAll(fs)]) == EncodeAll(fs);
    Reassembly(fs, [EncodeAll(fs)]);
  }

  /** And a message that starts while another is open is accepted; the open one is dropped. */
  lemma OpenMessageDropped(a: byte, b: byte)
    ensures var key := [0, 0, 0, 0];
            var fs := [Frame(false, FRAME_TEXT, false, key, [a]), Frame(true, FRAME_TEXT, false, key, [b])];
            && AllWellFormed(fs) && !InOrder(fs)
            && RunCalls(Fresh(), [EncodeAll(fs)]).Accepted?
            && QueueOf(RunCalls(Fresh(), [EncodeAll(fs)])) == [Message(FRAME_TEXT, [b])]
  {
    var key := [0, 0, 0, 0];
    var fs := [Frame(false, FRAME_TEXT, false, key, [a]), Frame(true, FRAME_TEXT, false, key, [b])];
    assert Power256(8) > 2 by {
      assert Power256(4) > 2;
    }
    assert Open(fs, 1) && fs[1].opcode == FRAME_TEXT;
    OpenMessageLeftOut(fs, a, b);
    assert Concat([EncodeAll(fs)]) == EncodeAll(fs);
    Reassembly(fs, [EncodeAll(fs)]);
  }

  lemma OpenMessageLeftOut(fs: seq<Frame>, a: byte, b: byte)
    requires |fs| == 2 && fs[0].opcode == fs[1].opcode == FRAME_TEXT && !fs[0].fin && fs[1].fin
    requires fs[0].payload == [a] && fs[1].payload == [b]
    ensures Messages(fs, 2) == [Message(FRAME_TEXT, [b])]
    ensures Acceptable(fs, 0) && Acceptable(fs, 1)
  {
    assert LatestStart(fs, 1) == 0 && LatestStart(fs, 2) == 1;
    assert Assembled(fs, 0, 1) == [a] && Assembled(fs, 1, 2) == [b];
    assert Completed(fs, 0) == [] && Completed(fs, 1) == [Message(FRAME_TEXT, [b])];
    assert Messages(fs, 1) == [];
  }

  lemma StrayContinuationAssembled(fs: seq<Frame>, a: byte, b: byte, c: byte)
    requires |fs| == 3 && fs[0].opcode == FRAME_TEXT && fs[1].opcode == fs[2].opcode == 0
    requires !fs[0].fin && fs[1].fin && fs[2].fin
    requires fs[0].payload == [a] && fs[1].payload == [b] && fs[2].payload == [c]
    ensures Messages(fs, 3) == [Message(FRAME_TEXT, [a, b]), Message(FRAME_TEXT, [a, b, c])]
    ensures Acceptable(fs, 0) && Acceptable(fs, 1) && Acceptable(fs, 2)
  {
    assert LatestStart(fs, 1) == 0 && LatestStart(fs, 2) == 0 && LatestStart(fs, 3) == 0;
    assert Assembled(fs, 0, 1) == [a];
    assert Assembled(fs, 0, 2) == [a, b];
    assert Assembled(fs, 0, 3) == [a, b, c];
    assert Messages(fs, 1) == [];
    assert Messages(fs, 2) == [Message(FRAME_TEXT, [a, b])];
  }
}
