/**
  The chunked transfer coding as a format, section 4.1 of RFC 7230 with an empty trailer, and
  the proof that the byte machine reads exactly that format.
*/
module HttpChunks {
  import opened Bytes
  import opened HttpBody
  import opened Wrappers

  predicate IsHex(b: byte) {
    Unhex(b) != -1
  }

  function HexRun(s: seq<byte>): (h: nat)
    ensures h <= |s| && (forall i :: 0 <= i < h ==> IsHex(s[i])) && (h < |s| ==> !IsHex(s[h]))
  {
    if s == [] || !IsHex(s[0]) then 0 else 1 + HexRun(s[1..])
  }

  function Nibble(b: byte): (d: nat)
    requires IsHex(b)
    ensures d < 16 && d == Unhex(b)
  {
    Unhex(b)
  }

  function HexDigits(s: seq<byte>): (d: seq<nat>)
    requires forall i :: 0 <= i < |s| ==> IsHex(s[i])
    ensures |d| == |s| && Digits(16, d)
  {
    seq(|s|, i requires 0 <= i < |s| => Nibble(s[i]))
  }

  function SizeOf(s: seq<byte>): nat
    requires forall i :: 0 <= i < |s| ==> IsHex(s[i])
  {
    Value(16, 0, HexDigits(s))
  }

  /** The first CR at or behind `i`, or the end. */
  function FirstCr(s: seq<byte>, i: nat): (k: nat)
    requires i <= |s|
    ensures i <= k <= |s| && CR !in s[i..k] && (k < |s| ==> s[k] == CR)
    decreases |s| - i
  {
    if i == |s| || s[i] == CR then i
    else
      var k := FirstCr(s, i + 1);
      assert s[i..k] == [s[i]] + s[i + 1..k];
      k
  }

  predicate StartsExtension(b: byte) {
    b == 0x3b || b == SPACE
  }

  /** A chunk-size line: its number and its length with the line end; malformed; or cut short. */
  datatype Line = Line(size: nat, length: nat) | BadLine | OpenLine

  function SizeLine(s: seq<byte>): (l: Line)
    ensures l.Line? ==> 3 <= l.length <= |s|
  {
    var h := HexRun(s);
    if h == 0 then (if s == [] then OpenLine else BadLine)
    else if SizeOf(s[..h]) > Ceiling(16) then BadLine
    else LineEnd(s, SizeOf(s[..h]), if h < |s| && StartsExtension(s[h]) then FirstCr(s, h) else h)
  }

  /** The end of a line whose number and extension end at `k`. */
  function LineEnd(s: seq<byte>, size: nat, k: nat): (l: Line)
    requires 1 <= k <= |s|
    ensures l.Line? ==> 3 <= l.length <= |s|
  {
    if k == |s| then (if k <= MAX_HEADER_SIZE then OpenLine else BadLine)
    else if s[k] != CR || k + 1 > MAX_HEADER_SIZE then BadLine
    else if k + 1 == |s| then OpenLine
    else if s[k + 1] != LF || k + 2 > MAX_HEADER_SIZE then BadLine
    else Line(size, k + 2)
  }

  /** A whole chunked body, with the bytes found in it. */
  datatype Decoded =
    | Message(body: seq<byte>, rest: seq<byte>)
    | Malformed(body: seq<byte>)
    | Unfinished(body: seq<byte>)
    | TrailerField(body: seq<byte>, rest: seq<byte>)

  function Dechunk(s: seq<byte>, body: seq<byte>): Decoded
    decreases |s|, 1
  {
    match SizeLine(s)
    case BadLine => Malformed(body)
    case OpenLine => Unfinished(body)
    case Line(size, n) =>
      if size == 0 then LastChunk(s[n..], body)
      else if |s[n..]| < size then Unfinished(body + s[n..])
      else ChunkEnd(s[n..][size..], body + s[n..][..size])
  }

  /** A chunk's data is followed by a line end, and then by the next chunk. */
  function ChunkEnd(s: seq<byte>, body: seq<byte>): Decoded
    decreases |s|, 0
  {
    if s == [] then Unfinished(body)
    else if s[0] != CR then Malformed(body)
    else if |s| == 1 then Unfinished(body)
    else if s[1] != LF then Malformed(body)
    else Dechunk(s[2..], body)
  }

  /** The empty trailer, which may end with a bare LF. */
  function LastChunk(s: seq<byte>, body: seq<byte>): Decoded {
    if s == [] then Unfinished(body)
    else if s[0] == LF then Message(body, s[1..])
    else if s[0] != CR then TrailerField(body, s)
    else if |s| == 1 then Unfinished(body)
    else if s[1] != LF then Malformed(body)
    else Message(body, s[2..])
  }

  /** Some chunk's data ends within the input, and the byte behind it is not CR. */
  predicate BrokenChunk(s: seq<byte>)
    decreases |s|
  {
    match SizeLine(s)
    case Line(size, n) =>
      && size > 0 && |s[n..]| > size
      && var end := s[n..][size..];
         end[0] != CR || (Terminated(end) && BrokenChunk(end[2..]))
    case _ => false
  }

  // ---------------------------------------------------------------- the machine reads a size line

  /** The machine stopped with an error and gave out nothing since `p`. */
  ghost predicate Broken(r: Progress, p: Parser) {
    r.parser == Fail(p).(length := r.parser.length, nread := r.parser.nread)
  }

  lemma {:induction false} RunHex(p: Parser, s: seq<byte>)
    requires p.phase == ChunkSize && p.length <= Ceiling(16) && p.nread <= MAX_HEADER_SIZE
    requires forall i :: 0 <= i < |s| ==> IsHex(s[i])
    ensures var v := Value(16, p.length, HexDigits(s));
            if v <= Ceiling(16) && p.nread + |s| <= MAX_HEADER_SIZE
            then Run(p, s) == Progress(p.(length := v, nread := p.nread + |s|), [])
            else Broken(Run(p, s), p)
    decreases |s|
  {
    if s != [] {
      var d := Unhex(s[0]);
      AccumulateOne(16, p.length, d);
      var v := p.length * 16 + d;
      assert HexDigits(s)[1..] == HexDigits(s[1..]);
      ValueGrows(16, v, HexDigits(s[1..]));
      if v <= Ceiling(16) && p.nread < MAX_HEADER_SIZE {
        RunHex(p.(length := v, nread := p.nread + 1), s[1..]);
      }
    }
  }

  lemma RunHexStart(p: Parser, s: seq<byte>)
    requires p.phase == ChunkSizeStart && p.nread == 0 && s != []
    requires forall i :: 0 <= i < |s| ==> IsHex(s[i])
    ensures if SizeOf(s) <= Ceiling(16) && |s| <= MAX_HEADER_SIZE
            then Run(p, s) == Progress(p.(phase := ChunkSize, length := SizeOf(s), nread := |s|), [])
            else Broken(Run(p, s), p)
  {
    assert HexDigits(s)[1..] == HexDigits(s[1..]);
    RunHex(p.(phase := ChunkSize, length := Unhex(s[0]), nread := 1), s[1..]);
  }

  lemma {:induction false} RunExtension(p: Parser, s: seq<byte>)
    requires p.phase == ChunkParameters && p.nread <= MAX_HEADER_SIZE && CR !in s
    ensures if p.nread + |s| <= MAX_HEADER_SIZE then Run(p, s) == Progress(p.(nread := p.nread + |s|), [])
            else Broken(Run(p, s), p)
    decreases |s|
  {
    if s != [] && p.nread < MAX_HEADER_SIZE {
      RunExtension(p.(nread := p.nread + 1), s[1..]);
    }
  }

  /** The state behind a chunk-size line. */
  function BehindLine(p: Parser, size: nat): Parser {
    p.(phase := if size == 0 then TrailerStart else ChunkData, length := size, nread := 0)
  }

  /** What the machine makes of a line, or of what is there of it. */
  ghost predicate LineRead(p: Parser, r: Progress, l: Line, s: seq<byte>) {
    match l
    case OpenLine =>
      && !Final(r.parser.phase) && r.rest == []
      && r.parser == p.(phase := r.parser.phase, length := r.parser.length, nread := r.parser.nread)
    case BadLine => Broken(r, p)
    case Line(size, n) => n <= |s| && r == Run(BehindLine(p, size), s[n..])
  }

  lemma RunLineEnd(p: Parser, s: seq<byte>, k: nat)
    requires p.phase in {ChunkSize, ChunkParameters} && p.nread == k <= MAX_HEADER_SIZE
    requires 1 <= k <= |s| && (k < |s| ==> s[k] == CR)
    ensures LineRead(p, Run(p, s[k..]), LineEnd(s, p.length, k), s)
  {
    if k + 2 <= |s| {
      var t := s[k..];
      assert t[0] == CR && t[1] == s[k + 1];
      assert t[1..][1..] == s[k + 2..];
    }
  }

  lemma ExtensionSlices(s: seq<byte>, h: nat, k: nat)
    requires h < k <= |s|
    ensures s[h..][1..] == s[h + 1..k] + s[k..]
    ensures CR !in s[h..k] ==> CR !in s[h + 1..k]
  {
    assert s[h + 1..k] == s[h..k][1..];
  }

  /** An extension, from its first byte at `h` to the CR at `k`. */
  lemma RunPastExtension(p: Parser, s: seq<byte>, h: nat, k: nat)
    requires p.phase == ChunkSize && p.nread == h < MAX_HEADER_SIZE && h < |s| && StartsExtension(s[h])
    requires k == FirstCr(s, h)
    ensures k <= MAX_HEADER_SIZE ==> Run(p, s[h..]) == Run(p.(phase := ChunkParameters, nread := k), s[k..])
    ensures k > MAX_HEADER_SIZE ==> Broken(Run(p, s[h..]), p)
  {
    var q := p.(phase := ChunkParameters, nread := h + 1);
    var e := s[h + 1..k];
    ExtensionSlices(s, h, k);
    assert Step(p, s[h]) == q;
    RunExtension(q, e);
    RunAppend(q, e, s[k..]);
  }

  /** From the end of the number: the extension, if there is one, and the line end. */
  lemma RunBehindNumber(p: Parser, s: seq<byte>, h: nat)
    requires p.phase == ChunkSize && p.nread == h <= MAX_HEADER_SIZE && 1 <= h <= |s| && (h < |s| ==> !IsHex(s[h]))
    ensures var k := if h < |s| && StartsExtension(s[h]) then FirstCr(s, h) else h;
            LineRead(p, Run(p, s[h..]), LineEnd(s, p.length, k), s)
  {
    if h < |s| && StartsExtension(s[h]) {
      var k := FirstCr(s, h);
      if h == MAX_HEADER_SIZE {
        assert s[h] != CR;
        assert LineEnd(s, p.length, k) == BadLine;
      } else {
        RunPastExtension(p, s, h, k);
        if k <= MAX_HEADER_SIZE {
          RunLineEnd(p.(phase := ChunkParameters, nread := k), s, k);
        } else {
          assert LineEnd(s, p.length, k) == BadLine;
        }
      }
    } else if h == |s| || s[h] == CR {
      RunLineEnd(p, s, h);
    }
  }

  lemma LineRuns(p: Parser, s: seq<byte>)
    requires p.phase == ChunkSizeStart && p.nread == 0
    ensures LineRead(p, Run(p, s), SizeLine(s), s)
  {
    var h := HexRun(s);
    if h > 0 {
      var a := s[..h];
      assert a + s[h..] == s;
      RunHexStart(p, a);
      RunAppend(p, a, s[h..]);
      if SizeOf(a) <= Ceiling(16) && h <= MAX_HEADER_SIZE {
        RunBehindNumber(p.(phase := ChunkSize, length := SizeOf(a), nread := h), s, h);
      }
    }
  }

  // ---------------------------------------------------------------- the machine reads the format

  /** The machine's state says what the format says of the same input. */
  ghost predicate Agrees(r: Progress, d: Decoded, completions: nat) {
    var q := Flush(r.parser);
    && q.body == d.body
    && match d
       case Message(_, rest) => q.phase == Complete && r.rest == rest && q.completions == completions + 1
       case Malformed(_) => q.phase == Failed && q.completions == completions
       case Unfinished(_) => !Final(q.phase) && r.rest == [] && q.completions == completions
       case TrailerField(_, rest) => q.phase == Trailer && r.rest == rest && q.completions == completions
  }

  lemma LastChunkRuns(p: Parser, s: seq<byte>)
    requires p.phase == TrailerStart && p.nread == 0 && p.pending == []
    ensures Agrees(Run(p, s), LastChunk(s, p.body), p.completions)
  {
    assert p.body + [] == p.body;
    if |s| >= 2 && s[0] == CR {
      var q := Step(p, CR);
      assert s[1..][0] == s[1] && s[1..][1..] == s[2..];
      assert Run(p, s) == Run(q, s[1..]);
      if s[1] == LF {
        assert Run(q, s[1..]) == Run(Step(q, LF), s[2..]);
      }
    }
  }

  function NextChunk(body: seq<byte>, completions: nat): Parser {
    Parser(ChunkSizeStart, 0, 0, body, [], completions)
  }

  predicate Terminated(s: seq<byte>) {
    |s| >= 2 && s[0] == CR && s[1] == LF
  }

  /** Behind a chunk's data. */
  lemma ChunkEndRuns(p: Parser, s: seq<byte>, body: seq<byte>)
    requires p.phase == ChunkDataAlmostDone && p.length == 0 && body == p.body + p.pending
    ensures if Terminated(s) then Run(p, s) == Run(NextChunk(body, p.completions), s[2..])
            else Agrees(Run(p, s), ChunkEnd(s, body), p.completions)
  {
    assert body + [] == body;
    if |s| >= 2 && s[0] == CR {
      var q := Step(p, CR);
      assert s[1..][0] == s[1] && s[1..][1..] == s[2..];
      assert Run(p, s) == Run(q, s[1..]);
      if s[1] == LF {
        assert Run(q, s[1..]) == Run(Step(q, LF), s[2..]);
      }
    }
  }

  /** All of a chunk's data is there. */
  lemma ChunkMarked(p: Parser, data: seq<byte>)
    requires p.phase == ChunkData && 0 < p.length <= |data| && p.pending == []
    ensures Run(p, data)
         == Run(p.(phase := ChunkDataAlmostDone, length := 0, pending := data[..p.length]), data[p.length..])
  {
    var chunk := data[..p.length];
    assert AllMarked(p, p.pending + chunk) == p.(phase := ChunkDataAlmostDone, length := 0, pending := chunk) by {
      assert [] + chunk == chunk;
    }
    RunMarksAll(p, data);
  }

  /** Only some of it is there. */
  lemma ChunkCutShort(p: Parser, data: seq<byte>)
    requires p.phase == ChunkData && |data| < p.length && p.pending == []
    ensures Agrees(Run(p, data), Unfinished(p.body + data), p.completions)
  {
    RunMarks(p, data);
    assert [] + data == data;
  }

  /** One chunk with data in it: either the next one follows, or the input ends or breaks within it. */
  lemma ChunkRuns(p: Parser, s: seq<byte>, size: nat, n: nat)
    requires p.phase == ChunkSizeStart && p.nread == 0 && p.pending == []
    requires SizeLine(s) == Line(size, n) && size > 0
    ensures if |s[n..]| >= size && Terminated(s[n..][size..]) then
              Run(p, s) == Run(NextChunk(p.body + s[n..][..size], p.completions), s[n..][size..][2..])
            else Agrees(Run(p, s), Dechunk(s, p.body), p.completions)
  {
    LineRuns(p, s);
    var q, data := BehindLine(p, size), s[n..];
    if |data| < size {
      ChunkCutShort(q, data);
    } else {
      ChunkMarked(q, data);
      var chunk := data[..size];
      ChunkEndRuns(q.(phase := ChunkDataAlmostDone, length := 0, pending := chunk), data[size..], p.body + chunk);
    }
  }

  /**
    On every input the body states do what the chunked format says: the bytes for on_body are
    the chunks' data, the message ends once and where the format ends it, and anything else
    is an error.
  */
  lemma {:induction false} ChunkedBody(p: Parser, s: seq<byte>)
    requires p.phase == ChunkSizeStart && p.nread == 0 && p.pending == []
    ensures Agrees(Run(p, s), Dechunk(s, p.body), p.completions)
    decreases |s|
  {
    match SizeLine(s)
    case Line(size, n) =>
      if size == 0 {
        LineRuns(p, s);
        LastChunkRuns(BehindLine(p, size), s[n..]);
      } else {
        ChunkRuns(p, s, size, n);
        var data := s[n..];
        if |data| >= size && Terminated(data[size..]) {
          ChunkedBody(NextChunk(p.body + data[..size], p.completions), data[size..][2..]);
        }
      }
    case _ =>
      LineRuns(p, s);
      assert p.body + [] == p.body;
  }

  /** The machine stopped with an error while bytes were marked. */
  predicate Lost(p: Parser) {
    p.phase == Failed && p.pending != []
  }

  lemma LastChunkLosesNothing(p: Parser, s: seq<byte>)
    requires p.phase == TrailerStart && p.nread == 0 && p.pending == []
    ensures !Lost(Run(p, s).parser)
  {
    if |s| >= 2 && s[0] == CR {
      var q := Step(p, CR);
      assert s[1..][0] == s[1];
      assert Run(p, s) == Run(q, s[1..]);
      if s[1] == LF {
        assert Run(q, s[1..]) == Run(Step(q, LF), s[1..][1..]);
      }
    }
  }

  lemma ChunkEndLoses(p: Parser, s: seq<byte>)
    requires p.phase == ChunkDataAlmostDone && p.length == 0 && p.pending != [] && !Terminated(s)
    ensures Lost(Run(p, s).parser) <==> s != [] && s[0] != CR
  {
    if |s| >= 2 && s[0] == CR {
      var q := Step(p, CR);
      assert s[1..][0] == s[1];
      assert Run(p, s) == Run(q, s[1..]);
    }
  }

  lemma ChunkLoses(p: Parser, s: seq<byte>, size: nat, n: nat)
    requires p.phase == ChunkSizeStart && p.nread == 0 && p.pending == []
    requires SizeLine(s) == Line(size, n) && size > 0
    requires |s[n..]| < size || !Terminated(s[n..][size..])
    ensures Lost(Run(p, s).parser) <==> |s[n..]| > size && s[n..][size..][0] != CR
  {
    LineRuns(p, s);
    var q, data := BehindLine(p, size), s[n..];
    if |data| < size {
      RunMarks(q, data);
    } else {
      ChunkMarked(q, data);
      ChunkEndLoses(q.(phase := ChunkDataAlmostDone, length := 0, pending := data[..size]), data[size..]);
    }
  }

  /** The machine drops marked bytes exactly on the inputs in which a chunk is not followed by CR. */
  lemma {:induction false} LostIffBroken(p: Parser, s: seq<byte>)
    requires p.phase == ChunkSizeStart && p.nread == 0 && p.pending == []
    ensures Lost(Run(p, s).parser) <==> BrokenChunk(s)
    decreases |s|
  {
    match SizeLine(s)
    case Line(size, n) =>
      var data := s[n..];
      if size == 0 {
        LineRuns(p, s);
        LastChunkLosesNothing(BehindLine(p, size), data);
      } else if |data| < size || !Terminated(data[size..]) {
        ChunkLoses(p, s, size, n);
      } else {
        ChunkRuns(p, s, size, n);
        LostIffBroken(NextChunk(p.body + data[..size], p.completions), data[size..][2..]);
      }
    case _ =>
      LineRuns(p, s);
  }

  // ---------------------------------------------------------------- writing the format

  /** A chunk as a sender may write it: any spelling of its size, and any extension. */
  datatype Chunk = Chunk(size: seq<byte>, extension: seq<byte>, data: seq<byte>)

  predicate WellFormed(c: Chunk) {
    && c.size != [] && (forall i :: 0 <= i < |c.size| ==> IsHex(c.size[i]))
    && SizeOf(c.size) == |c.data| <= Ceiling(16)
    && (c.extension != [] ==> StartsExtension(c.extension[0]) && CR !in c.extension)
    && |c.size| + |c.extension| + 2 <= MAX_HEADER_SIZE
  }

  const CRLF: seq<byte> := [CR, LF]

  function Encode(c: Chunk): seq<byte> {
    c.size + c.extension + CRLF + (if c.data == [] then [] else c.data + CRLF)
  }

  function EncodeAll(chunks: seq<Chunk>): seq<byte> {
    if chunks == [] then [] else Encode(chunks[0]) + EncodeAll(chunks[1..])
  }

  function DataOf(chunks: seq<Chunk>): seq<byte> {
    if chunks == [] then [] else chunks[0].data + DataOf(chunks[1..])
  }

  lemma {:induction false} HexRunIs(s: seq<byte>, h: nat)
    requires h <= |s| && (forall i :: 0 <= i < h ==> IsHex(s[i])) && (h < |s| ==> !IsHex(s[h]))
    ensures HexRun(s) == h
  {
    if h > 0 {
      HexRunIs(s[1..], h - 1);
    }
  }

  lemma {:induction false} FirstCrIs(s: seq<byte>, i: nat, k: nat)
    requires i <= k < |s| && s[k] == CR && CR !in s[i..k]
    ensures FirstCr(s, i) == k
    decreases k - i
  {
    if i < k {
      assert s[i] in s[i..k];
      assert s[i..k][1..] == s[i + 1..k];
      FirstCrIs(s, i + 1, k);
    }
  }

  lemma SizeLineOf(c: Chunk, more: seq<byte>)
    requires WellFormed(c)
    ensures SizeLine(c.size + c.extension + CRLF + more) == Line(|c.data|, |c.size| + |c.extension| + 2)
  {
    var s := c.size + c.extension + CRLF + more;
    var h, k := |c.size|, |c.size| + |c.extension|;
    assert s[..h] == c.size;
    assert s[h..k] == c.extension;
    assert s[k] == CR && s[k + 1] == LF;
    if c.extension != [] {
      assert s[h] == c.extension[0];
      FirstCrIs(s, h, k);
    }
    HexRunIs(s, h);
  }

  lemma ChunkSplits(c: Chunk, more: seq<byte>)
    requires c.data != []
    ensures Encode(c) + more == c.size + c.extension + CRLF + (c.data + CRLF + more)
    ensures (Encode(c) + more)[|c.size| + |c.extension| + 2..] == c.data + CRLF + more
  {
  }

  lemma DechunkOne(c: Chunk, more: seq<byte>, body: seq<byte>)
    requires WellFormed(c) && c.data != []
    ensures Dechunk(Encode(c) + more, body) == Dechunk(more, body + c.data)
  {
    ChunkSplits(c, more);
    SizeLineOf(c, c.data + CRLF + more);
    var data := c.data + CRLF + more;
    var size := |c.data|;
    assert data[..size] == c.data;
    var end := data[size..];
    assert end[0] == CR && end[1] == LF && end[2..] == more;
  }

  lemma EncodedInTurn(chunks: seq<Chunk>, more: seq<byte>, body: seq<byte>)
    requires chunks != []
    ensures EncodeAll(chunks) + more == Encode(chunks[0]) + (EncodeAll(chunks[1..]) + more)
    ensures (body + chunks[0].data) + DataOf(chunks[1..]) == body + DataOf(chunks)
  {
    var e, t := Encode(chunks[0]), EncodeAll(chunks[1..]);
    assert (e + t) + more == e + (t + more);
  }

  lemma {:induction false} DechunkAll(chunks: seq<Chunk>, more: seq<byte>, body: seq<byte>)
    requires forall i :: 0 <= i < |chunks| ==> WellFormed(chunks[i]) && chunks[i].data != []
    ensures Dechunk(EncodeAll(chunks) + more, body) == Dechunk(more, body + DataOf(chunks))
    decreases |chunks|
  {
    if chunks == [] {
      assert [] + more == more && body + [] == body;
    } else {
      var c, tail := chunks[0], chunks[1..];
      EncodedInTurn(chunks, more, body);
      DechunkOne(c, EncodeAll(tail) + more, body);
      DechunkAll(tail, more, body + c.data);
    }
  }

  lemma DechunkLast(last: Chunk, rest: seq<byte>, body: seq<byte>)
    requires WellFormed(last) && last.data == []
    ensures Dechunk(Encode(last) + (CRLF + rest), body) == Message(body, rest)
  {
    var tail := Encode(last) + (CRLF + rest);
    assert tail == last.size + last.extension + CRLF + (CRLF + rest);
    SizeLineOf(last, CRLF + rest);
    assert tail[|last.size| + |last.extension| + 2..] == CRLF + rest;
    assert (CRLF + rest)[2..] == rest;
  }

  /** Whatever a sender writes in chunks arrives as the concatenation of their data, and no more. */
  lemma ChunkedRoundTrip(chunks: seq<Chunk>, last: Chunk, rest: seq<byte>)
    requires forall i :: 0 <= i < |chunks| ==> WellFormed(chunks[i]) && chunks[i].data != []
    requires WellFormed(last) && last.data == []
    ensures var p := Begin(true, ULLONG_MAX, false, false);
            var r := Run(p, EncodeAll(chunks) + (Encode(last) + (CRLF + rest)));
            && r.parser.phase == Complete && r.parser.completions == 1
            && Flush(r.parser).body == DataOf(chunks)
            && r.rest == rest
  {
    var p := Begin(true, ULLONG_MAX, false, false);
    var tail := Encode(last) + (CRLF + rest);
    DechunkAll(chunks, tail, []);
    assert [] + DataOf(chunks) == DataOf(chunks);
    DechunkLast(last, rest, DataOf(chunks));
    ChunkedBody(p, EncodeAll(chunks) + tail);
  }

  // ---------------------------------------------------------------- every kind of message

  /** What a message's header says about its body. */
  datatype Framing = NoBody | Chunked | Sized(length: nat) | ToTheEnd

  /** Section 3.3.3 of RFC 7230, once it is known whether the message can have a body at all. */
  function FramingOf(chunked: bool, length: nat, skipBody: bool, needsEof: bool): Framing {
    if skipBody then NoBody
    else if chunked then Chunked
    else if length == ULLONG_MAX then (if needsEof then ToTheEnd else NoBody)
    else if length == 0 then NoBody
    else Sized(length)
  }

  /** What is to become of the bytes behind the header. */
  function Expected(f: Framing, s: seq<byte>): Decoded {
    match f
    case NoBody => Message([], s)
    case Chunked => Dechunk(s, [])
    case Sized(n) => if |s| < n then Unfinished(s) else Message(s[..n], s[n..])
    case ToTheEnd => Unfinished(s)
  }

  /** Whatever the header says and whatever follows, the body ends where it should, and the message once. */
  lemma EveryMessage(chunked: bool, length: nat, skipBody: bool, needsEof: bool, s: seq<byte>)
    requires length <= ULLONG_MAX
    ensures var r, d := Run(Begin(chunked, length, skipBody, needsEof), s),
                        Expected(FramingOf(chunked, length, skipBody, needsEof), s);
            Agrees(r, d, 0)
  {
    var p := Begin(chunked, length, skipBody, needsEof);
    match FramingOf(chunked, length, skipBody, needsEof)
    case NoBody =>
      assert p.body + p.pending == [];
    case Chunked =>
      ChunkedBody(p, s);
    case Sized(n) =>
      IdentityBody(length, needsEof, s);
      if |s| >= length {
        assert s[..length] + [] == s[..length];
      } else {
        RunMarks(p, s);
      }
    case ToTheEnd =>
      RunUntilEof(p, s);
      assert [] + ([] + s) == s;
  }

  // ---------------------------------------------------------------- printed numbers

  lemma {:induction false} ValueAppend(base: nat, n: nat, digits: seq<nat>, d: nat)
    ensures Value(base, n, digits + [d]) == Value(base, n, digits) * base + d
    decreases |digits|
  {
    if digits == [] {
      assert ([] + [d])[1..] == [];
    } else {
      assert (digits + [d])[1..] == digits[1..] + [d];
      ValueAppend(base, n * base + digits[0], digits[1..], d);
    }
  }

  /** A number in decimal, without leading zeros. */
  function Decimal(n: nat): (t: seq<byte>)
    ensures t != [] && forall i :: 0 <= i < |t| ==> IsDigit(t[i])
  {
    if n < 10 then [0x30 + n] else Decimal(n / 10) + [0x30 + n % 10]
  }

  lemma {:induction false} DigitsOfAppend(t: seq<byte>, b: byte)
    requires (forall i :: 0 <= i < |t| ==> IsDigit(t[i])) && IsDigit(b)
    ensures forall i :: 0 <= i < |t + [b]| ==> IsDigit((t + [b])[i])
    ensures DigitsOf(t + [b]) == DigitsOf(t) + [DigitValue(b)]
  {
    if t == [] {
      assert t + [b] == [b] && [b][1..] == [];
    } else {
      assert (t + [b])[1..] == t[1..] + [b];
      DigitsOfAppend(t[1..], b);
    }
  }

  lemma {:induction false} DecimalReads(n: nat)
    ensures Value(10, 0, DigitsOf(Decimal(n))) == n
  {
    if n < 10 {
      assert Decimal(n)[1..] == [];
      assert DigitsOf(Decimal(n)) == [n];
    } else {
      DecimalReads(n / 10);
      DigitsOfAppend(Decimal(n / 10), 0x30 + n % 10);
      ValueAppend(10, 0, DigitsOf(Decimal(n / 10)), n % 10);
    }
  }

  /** A Content-Length as a sender prints it is read as that number, or refused above the ceiling. */
  method PrintedLength(n: nat) returns (r: Option<nat>)
    ensures r == if n <= Ceiling(10) then Some(n) else None
  {
    DecimalReads(n);
    r := ContentLength(Decimal(n));
  }

  /** A number in hexadecimal, each letter in the case that `upper` says for its place. */
  function Hexadecimal(n: nat, upper: seq<bool>): (t: seq<byte>) {
    var up := upper != [] && upper[0];
    var d := n % 16;
    var last: byte := if d < 10 then 0x30 + d else if up then 0x37 + d else 0x57 + d;
    if n < 16 then [last] else Hexadecimal(n / 16, if upper == [] then [] else upper[1..]) + [last]
  }

  lemma {:induction false} HexadecimalReads(n: nat, upper: seq<bool>)
    ensures Hexadecimal(n, upper) != []
    ensures forall i :: 0 <= i < |Hexadecimal(n, upper)| ==> IsHex(Hexadecimal(n, upper)[i])
    ensures SizeOf(Hexadecimal(n, upper)) == n
    decreases n
  {
    var up := upper != [] && upper[0];
    var d := n % 16;
    var last: byte := if d < 10 then 0x30 + d else if up then 0x37 + d else 0x57 + d;
    assert Unhex(last) == d;
    if n < 16 {
      assert HexDigits([last]) == [n];
      assert Value(16, 0, [n]) == Value(16, 0 * 16 + n, [n][1..]);
    } else {
      var front := Hexadecimal(n / 16, if upper == [] then [] else upper[1..]);
      HexadecimalReads(n / 16, if upper == [] then [] else upper[1..]);
      assert HexDigits(front + [last]) == HexDigits(front) + [d];
      ValueAppend(16, 0, HexDigits(front), d);
    }
  }
}
