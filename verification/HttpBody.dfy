/**
  Where an HTTP message body ends: the guarded 64-bit lengths, the byte machine of the body
  states (strict mode), and the parser object that takes the input in calls of any size.
*/
module HttpBody {
  import opened Arithmetic
  import opened Bytes
  import opened Wrappers

  /** The content_length of a message that has none. */
  const ULLONG_MAX := 0xffff_ffff_ffff_ffff
  const WORD := 0x1_0000_0000_0000_0000

  const MAX_HEADER_SIZE := 81920

  const CR: byte := 0x0d
  const LF: byte := 0x0a
  const SPACE: byte := 0x20

  // ---------------------------------------------------------------- lengths

  /** A number being read digit by digit in 64 bits: the wrapping product, and the test that guards it. */
  function Accumulate(base: nat, length: nat, digit: nat): Option<nat>
    requires base > 0
  {
    var t := (length * base % WORD + digit) % WORD;
    if (ULLONG_MAX - base) / base < length then None else Some(t)
  }

  function AccumulateAll(base: nat, length: nat, digits: seq<nat>): Option<nat>
    requires base > 0
    decreases digits
  {
    if digits == [] then Some(length)
    else match Accumulate(base, length, digits[0])
      case None => None
      case Some(t) => AccumulateAll(base, t, digits[1..])
  }

  /** The number that the digits write, read behind the number `n`. */
  function Value(base: nat, n: nat, digits: seq<nat>): nat
    decreases digits
  {
    if digits == [] then n else Value(base, n * base + digits[0], digits[1..])
  }

  /** The largest length that the guard lets through. */
  function Ceiling(base: nat): nat
    requires base in {10, 16}
  {
    if base == 10 then 18446744073709551609 else 0xffff_ffff_ffff_ffef
  }

  predicate Digits(base: nat, digits: seq<nat>) {
    forall i :: 0 <= i < |digits| ==> digits[i] < base
  }

  lemma {:induction false} ValueGrows(base: nat, n: nat, digits: seq<nat>)
    requires base > 0
    ensures Value(base, n, digits) >= n
    decreases digits
  {
    if digits != [] {
      MulMonotone(1, base, n);
      ValueGrows(base, n * base + digits[0], digits[1..]);
    }
  }

  lemma AccumulateOne(base: nat, n: nat, digit: nat)
    requires base in {10, 16} && digit < base && n <= Ceiling(base)
    ensures Accumulate(base, n, digit)
         == if n * base + digit <= Ceiling(base) then Some(n * base + digit) else None
  {
    if base == 10 {
      assert (ULLONG_MAX - 10) / 10 == 1844674407370955160;
    } else {
      assert (ULLONG_MAX - 16) / 16 == 0xfff_ffff_ffff_fffe;
    }
  }

  /** The guard cuts exactly: a length is read as it is written, or refused for being above the ceiling. */
  lemma {:induction false} LengthIsExactOrRefused(base: nat, n: nat, digits: seq<nat>)
    requires base in {10, 16} && Digits(base, digits) && n <= Ceiling(base)
    ensures AccumulateAll(base, n, digits)
         == if Value(base, n, digits) <= Ceiling(base) then Some(Value(base, n, digits)) else None
    decreases digits
  {
    if digits != [] {
      var m := n * base + digits[0];
      AccumulateOne(base, n, digits[0]);
      ValueGrows(base, m, digits[1..]);
      if m <= Ceiling(base) {
        LengthIsExactOrRefused(base, m, digits[1..]);
      }
    }
  }

  predicate IsDigit(b: byte) {
    0x30 <= b <= 0x39
  }

  function DigitValue(b: byte): (d: nat)
    requires IsDigit(b)
    ensures d < 10
  {
    b - 0x30
  }

  function DigitsOf(value: seq<byte>): (digits: seq<nat>)
    requires forall i :: 0 <= i < |value| ==> IsDigit(value[i]) || value[i] == SPACE
    ensures Digits(10, digits)
  {
    if value == [] then []
    else (if IsDigit(value[0]) then [DigitValue(value[0])] else []) + DigitsOf(value[1..])
  }

  /** Spaces are passed over wherever they stand behind the first digit. */
  predicate LengthText(value: seq<byte>) {
    value != [] && IsDigit(value[0]) && forall i :: 0 <= i < |value| ==> IsDigit(value[i]) || value[i] == SPACE
  }

  /** The value of a Content-Length field: exact, or refused; never the mark of an absent length. */
  method ContentLength(value: seq<byte>) returns (r: Option<nat>)
    requires value != []
    ensures r == if LengthText(value) && Value(10, 0, DigitsOf(value)) <= Ceiling(10)
                 then Some(Value(10, 0, DigitsOf(value))) else None
    ensures r.Some? ==> r.value < ULLONG_MAX
  {
    if !IsDigit(value[0]) {
      return None;
    }
    var length: nat := DigitValue(value[0]);
    TakeDigit(value, 0, 0);
    assert value[0..] == value;
    for i := 1 to |value|
      invariant forall j :: 0 <= j < i ==> IsDigit(value[j]) || value[j] == SPACE
      invariant length <= Ceiling(10)
      invariant LengthText(value) ==> Value(10, 0, DigitsOf(value)) == Value(10, length, DigitsOf(value[i..]))
    {
      if value[i] == SPACE {
        TakeSpace(value, i);
      } else if !IsDigit(value[i]) {
        return None;
      } else {
        TakeDigit(value, i, length);
        var t := Accumulate(10, length, DigitValue(value[i]));
        if t.None? {
          return None;
        }
        length := t.value;
      }
    }
    r := Some(length);
  }

  lemma TakeSpace(value: seq<byte>, i: nat)
    requires i < |value| && value[i] == SPACE
    ensures LengthText(value) ==> DigitsOf(value[i..]) == DigitsOf(value[i + 1..])
  {
    assert value[i..][1..] == value[i + 1..];
  }

  lemma TakeDigit(value: seq<byte>, i: nat, length: nat)
    requires i < |value| && IsDigit(value[i]) && length <= Ceiling(10)
    ensures var m := length * 10 + DigitValue(value[i]);
            && Accumulate(10, length, DigitValue(value[i])) == (if m <= Ceiling(10) then Some(m) else None)
            && (LengthText(value) ==>
                  && Value(10, length, DigitsOf(value[i..])) == Value(10, m, DigitsOf(value[i + 1..]))
                  && Value(10, m, DigitsOf(value[i + 1..])) >= m)
  {
    var m := length * 10 + DigitValue(value[i]);
    AccumulateOne(10, length, DigitValue(value[i]));
    assert value[i..][1..] == value[i + 1..];
    if LengthText(value) {
      var rest := DigitsOf(value[i + 1..]);
      assert DigitsOf(value[i..]) == [DigitValue(value[i])] + rest;
      ValueGrows(10, m, rest);
    }
  }

  // ---------------------------------------------------------------- the byte machine

  datatype Phase =
    | ChunkSizeStart | ChunkSize | ChunkParameters | ChunkSizeAlmostDone
    | ChunkData | ChunkDataAlmostDone | ChunkDataDone
    | TrailerStart | TrailerAlmostDone
    | Identity | UntilEof
    | Complete    // message_complete was called; what follows is another message
    | Failed
    | Trailer     // a trailer field starts here; its parsing is not followed

  /**
    The parser between two bytes.  `body` is what on_body has been given; `pending` is what is
    marked as body in the current call but has not been handed over yet.
  */
  datatype Parser = Parser(phase: Phase, length: nat, nread: nat, body: seq<byte>, pending: seq<byte>, completions: nat)

  predicate Final(phase: Phase) {
    phase in {Complete, Failed, Trailer}
  }

  /** The state after the byte is refused, and stays unread. */
  predicate Refused(phase: Phase) {
    phase in {Failed, Trailer}
  }

  /** Phases whose bytes count towards the header size. */
  predicate Counts(phase: Phase) {
    phase in {ChunkSizeStart, ChunkSize, ChunkParameters, ChunkSizeAlmostDone, TrailerStart, TrailerAlmostDone}
  }

  /** The unhex table: -1 for anything but a hexadecimal digit. */
  function Unhex(b: byte): (v: int)
    ensures -1 <= v < 16
  {
    if 0x30 <= b <= 0x39 then b as int - 0x30
    else if 0x41 <= b <= 0x46 then b as int - 0x41 + 10
    else if 0x61 <= b <= 0x66 then b as int - 0x61 + 10
    else -1
  }

  /** How a message starts its body, once its header is complete and it is not an upgrade. */
  function Begin(chunked: bool, length: nat, skipBody: bool, needsEof: bool): Parser {
    var p := Parser(Complete, length, 0, [], [], 1);
    if skipBody then p
    else if chunked then p.(phase := ChunkSizeStart, completions := 0)
    else if length == 0 then p
    else if length != ULLONG_MAX then p.(phase := Identity, completions := 0)
    else if !needsEof then p
    else p.(phase := UntilEof, completions := 0)
  }

  function Fail(p: Parser): Parser {
    p.(phase := Failed)
  }

  function Finish(p: Parser): Parser {
    p.(phase := Complete, completions := p.completions + 1)
  }

  /** Hands the marked bytes to on_body. */
  function Flush(p: Parser): Parser {
    p.(body := p.body + p.pending, pending := [])
  }

  /** One byte, its header-size count already made. */
  function Take(p: Parser, b: byte): Parser
    requires !Final(p.phase)
  {
    match p.phase
    case ChunkSizeStart => if Unhex(b) == -1 then Fail(p) else p.(phase := ChunkSize, length := Unhex(b))
    case ChunkSize =>
      if b == CR then p.(phase := ChunkSizeAlmostDone)
      else if Unhex(b) == -1 then
        if b == 0x3b || b == SPACE then p.(phase := ChunkParameters) else Fail(p)
      else
        (match Accumulate(16, p.length, Unhex(b))
         case None => Fail(p)
         case Some(t) => p.(length := t))
    case ChunkParameters => if b == CR then p.(phase := ChunkSizeAlmostDone) else p
    case ChunkSizeAlmostDone =>
      if b != LF then Fail(p) else p.(nread := 0, phase := if p.length == 0 then TrailerStart else ChunkData)
    case ChunkData => Mark(p, b, ChunkDataAlmostDone)
    case ChunkDataAlmostDone => if b != CR then Fail(p) else Flush(p).(phase := ChunkDataDone)
    case ChunkDataDone => if b != LF then Fail(p) else p.(nread := 0, phase := ChunkSizeStart)
    case TrailerStart =>
      if b == CR then p.(phase := TrailerAlmostDone) else if b == LF then Finish(p) else p.(phase := Trailer)
    case TrailerAlmostDone => if b != LF then Fail(p) else Finish(p)
    case Identity => var q := Mark(p, b, Complete); if q.phase == Complete then Finish(Flush(q)) else q
    case UntilEof => p.(pending := p.pending + [b])
  }

  /** One byte of data with a known length; `next` comes behind the last one. */
  function Mark(p: Parser, b: byte, next: Phase): Parser {
    var left := if p.length == 0 then ULLONG_MAX else p.length - 1;
    p.(pending := p.pending + [b], length := left, phase := if left == 0 then next else p.phase)
  }

  function Step(p: Parser, b: byte): Parser
    requires !Final(p.phase)
  {
    if !Counts(p.phase) then Take(p, b)
    else
      var q := p.(nread := p.nread + 1);
      if q.nread > MAX_HEADER_SIZE then Fail(q) else Take(q, b)
  }

  datatype Progress = Progress(parser: Parser, rest: seq<byte>)

  /** The machine on a whole input: where it stops, and the bytes it does not take. */
  function Run(p: Parser, s: seq<byte>): Progress
    decreases |s|
  {
    if s == [] || Final(p.phase) then Progress(p, s)
    else
      var q := Step(p, s[0]);
      if Refused(q.phase) then Progress(q, s) else Run(q, s[1..])
  }

  lemma {:induction false} RunAppend(p: Parser, a: seq<byte>, b: seq<byte>)
    ensures var r := Run(p, a);
            Run(p, a + b) == if Final(r.parser.phase) then Progress(r.parser, r.rest + b) else Run(r.parser, b)
    decreases |a|
  {
    if a == [] {
      assert a + b == b;
    } else {
      assert (a + b)[1..] == a[1..] + b;
      if !Final(p.phase) && !Refused(Step(p, a[0]).phase) {
        RunAppend(Step(p, a[0]), a[1..], b);
      }
    }
  }

  lemma {:induction false} RunTakesAll(p: Parser, s: seq<byte>)
    ensures !Final(Run(p, s).parser.phase) ==> Run(p, s).rest == []
    decreases |s|
  {
    if s != [] && !Final(p.phase) && !Refused(Step(p, s[0]).phase) {
      RunTakesAll(Step(p, s[0]), s[1..]);
    }
  }

  // ---------------------------------------------------------------- lengths stay in range

  /** What every state keeps: lengths are exact 64-bit lengths and never the mark of an absent one. */
  predicate Sound(p: Parser) {
    && p.length <= ULLONG_MAX
    && (p.phase in {ChunkSize, ChunkParameters, ChunkSizeAlmostDone} ==> p.length <= Ceiling(16))
    && (p.phase in {Identity, ChunkData} ==> p.length != 0 && p.length != ULLONG_MAX)
    && (p.phase == ChunkDataAlmostDone ==> p.length == 0)
    && (p.phase == ChunkSizeStart ==> p.nread == 0)
    && (p.pending != [] ==> p.phase in {ChunkData, ChunkDataAlmostDone, Identity, UntilEof, Failed})
  }

  lemma StepIsSound(p: Parser, b: byte)
    requires Sound(p) && !Final(p.phase)
    ensures Sound(Step(p, b))
  {
    if p.phase == ChunkSize && Unhex(b) != -1 {
      AccumulateOne(16, p.length, Unhex(b));
    }
  }

  /** So the assertions on content_length in the body and chunk-data states hold in every run. */
  lemma {:induction false} RunIsSound(p: Parser, s: seq<byte>)
    requires Sound(p)
    ensures Sound(Run(p, s).parser)
    decreases |s|
  {
    if s != [] && !Final(p.phase) {
      StepIsSound(p, s[0]);
      if !Refused(Step(p, s[0]).phase) {
        RunIsSound(Step(p, s[0]), s[1..]);
      }
    }
  }

  // ---------------------------------------------------------------- data of a known length

  /** Fewer bytes than are due are just marked. */
  lemma {:induction false} RunMarks(p: Parser, s: seq<byte>)
    requires p.phase in {ChunkData, Identity} && |s| < p.length
    ensures Run(p, s) == Progress(p.(pending := p.pending + s, length := p.length - |s|), [])
    decreases |s|
  {
    if s == [] {
      assert p.pending + s == p.pending;
    } else {
      var q := Step(p, s[0]);
      RunMarks(q, s[1..]);
      assert (p.pending + [s[0]]) + s[1..] == p.pending + s;
    }
  }

  /** The state when all the bytes due are marked. */
  function AllMarked(p: Parser, marked: seq<byte>): Parser {
    var q := p.(pending := marked, length := 0);
    if p.phase == ChunkData then q.(phase := ChunkDataAlmostDone) else Finish(Flush(q))
  }

  lemma {:induction false} RunMarksAll(p: Parser, s: seq<byte>)
    requires p.phase in {ChunkData, Identity} && 0 < p.length <= |s|
    ensures Run(p, s) == Run(AllMarked(p, p.pending + s[..p.length]), s[p.length..])
    decreases |s|
  {
    var q := Step(p, s[0]);
    if p.length == 1 {
      assert s[..1] == [s[0]];
    } else {
      RunMarksAll(q, s[1..]);
      MarkedTogether(p, s);
      assert s[1..][p.length - 1..] == s[p.length..];
    }
  }

  lemma MarkedTogether(p: Parser, s: seq<byte>)
    requires p.phase in {ChunkData, Identity} && 1 < p.length <= |s|
    ensures var q := Step(p, s[0]);
            AllMarked(q, q.pending + s[1..][..p.length - 1]) == AllMarked(p, p.pending + s[..p.length])
  {
    assert s[..p.length] == [s[0]] + s[1..][..p.length - 1];
    assert (p.pending + [s[0]]) + s[1..][..p.length - 1] == p.pending + s[..p.length];
  }

  /** A body with a Content-Length is exactly that many bytes; the message ends with the last of them. */
  lemma IdentityBody(length: nat, needsEof: bool, s: seq<byte>)
    requires 0 < length < ULLONG_MAX
    ensures var p := Begin(false, length, false, needsEof);
            if |s| < length then
              Flush(Run(p, s).parser) == p.(length := length - |s|, body := s) && Run(p, s).rest == []
            else Run(p, s) == Progress(Parser(Complete, 0, 0, s[..length], [], 1), s[length..])
  {
    var p := Begin(false, length, false, needsEof);
    assert [] + s == s;
    if |s| < length {
      RunMarks(p, s);
    } else {
      RunMarksAll(p, s);
      assert [] + ([] + s[..length]) == s[..length];
    }
  }

  /** Without a length the body is everything up to the end of the input. */
  lemma {:induction false} RunUntilEof(p: Parser, s: seq<byte>)
    requires p.phase == UntilEof
    ensures Run(p, s) == Progress(p.(pending := p.pending + s), [])
    decreases |s|
  {
    if s == [] {
      assert p.pending + s == p.pending;
    } else {
      RunUntilEof(Step(p, s[0]), s[1..]);
      assert (p.pending + [s[0]]) + s[1..] == p.pending + s;
    }
  }
}
