/**
  Writing a vector of buffers to a socket.  The plain channel makes one writev call; the SSL
  channel joins small buffers, stealing bytes from the following ones, so that each SSL
  record is at least minWriteSize bytes where possible.  Both must report how far the write
  got as a number of complete buffers and a number of bytes into the next.
*/
module SocketWrite {
  import opened Bytes

  // ---------------------------------------------------------------- positions in a vector of buffers

  /** The length of the first j buffers. */
  function Upto(vec: seq<seq<byte>>, j: nat): nat
    requires j <= |vec|
  {
    if j == 0 then 0 else Upto(vec, j - 1) + |vec[j - 1]|
  }

  lemma {:induction false} UptoTail(vec: seq<seq<byte>>, j: nat)
    requires 0 < j <= |vec|
    ensures Upto(vec, j) == |vec[0]| + Upto(vec[1..], j - 1)
  {
    if j > 1 {
      UptoTail(vec, j - 1);
    }
  }

  lemma {:induction false} UptoIsConcat(vec: seq<seq<byte>>, j: nat)
    requires j <= |vec|
    ensures Upto(vec, j) == |Concat(vec[..j])|
  {
    if j == 0 {
      assert vec[..0] == [];
    } else {
      UptoIsConcat(vec, j - 1);
      assert vec[..j] == vec[..j - 1] + [vec[j - 1]];
      ConcatSnoc(vec[..j - 1], vec[j - 1]);
    }
  }

  lemma SliceInTwo(s: seq<byte>, a: nat, b: nat, c: nat)
    requires a <= b <= c <= |s|
    ensures s[a..c] == s[a..b] + s[b..c]
  {
  }

  lemma SliceMiddle(front: seq<byte>, middle: seq<byte>, back: seq<byte>, a: nat, b: nat)
    requires a <= b <= |middle|
    ensures (front + (middle + back))[|front| + a..|front| + b] == middle[a..b]
  {
  }

  lemma ConcatAround(vec: seq<seq<byte>>, j: nat) returns (front: seq<byte>, back: seq<byte>)
    requires j < |vec|
    ensures Concat(vec) == front + (vec[j] + back) && |front| == Upto(vec, j)
  {
    front, back := Concat(vec[..j]), Concat(vec[j..][1..]);
    assert vec == vec[..j] + vec[j..];
    ConcatSplit(vec[..j], vec[j..]);
    UptoIsConcat(vec, j);
  }

  /** Buffer j sits at Upto(vec, j) in the flat byte string. */
  lemma BufferInConcat(vec: seq<seq<byte>>, j: nat, a: nat, b: nat)
    requires j < |vec| && a <= b <= |vec[j]|
    ensures Upto(vec, j) + b <= |Concat(vec)|
    ensures Concat(vec)[Upto(vec, j) + a..Upto(vec, j) + b] == vec[j][a..b]
  {
    var front, back := ConcatAround(vec, j);
    SliceMiddle(front, vec[j], back, a, b);
  }

  lemma {:induction false} UptoMonotone(vec: seq<seq<byte>>, i: nat, j: nat)
    requires i <= j <= |vec|
    ensures Upto(vec, i) <= Upto(vec, j)
    decreases j
  {
    if i < j {
      UptoMonotone(vec, i, j - 1);
    }
  }

  /** `count` whole buffers and `partial` bytes of the next make up exactly n bytes. */
  ghost predicate IsPosition(vec: seq<seq<byte>>, n: nat, count: int, partial: int) {
    && 0 <= count <= |vec|
    && 0 <= partial
    && Upto(vec, count) + partial == n
    && (if count < |vec| then partial < |vec[count]| else partial == 0)
  }

  /** A position names the number of bytes, and the number of bytes names the position. */
  lemma PositionIsUnique(vec: seq<seq<byte>>, n: nat, c: int, p: int, c': int, p': int)
    requires IsPosition(vec, n, c, p) && IsPosition(vec, n, c', p')
    ensures c == c' && p == p'
  {
    if c < c' {
      UptoMonotone(vec, c + 1, c');
    } else if c' < c {
      UptoMonotone(vec, c' + 1, c);
    }
  }

  // ---------------------------------------------------------------- the plain channel

  /**
    SocketChannel::performWrite after writev accepted `total` bytes: the progress it reports
    is the position of `total`.
  */
  method PlainProgress(vec: seq<seq<byte>>, total: nat) returns (count: nat, partial: nat)
    requires total <= Upto(vec, |vec|)
    ensures IsPosition(vec, total, count, partial)
  {
    var written := total;
    var n := 0;
    while n < |vec|
      invariant 0 <= n <= |vec| && written >= 0
      invariant Upto(vec, n) + written == total
    {
      if |vec[n]| > written {
        return n, written;
      }
      written := written - |vec[n]|;
      n := n + 1;
    }
    return n, 0;
  }

  // ---------------------------------------------------------------- the SSL channel

  /** What SSL_write returns if it has taken nothing. */
  type EndCode = rc: int | rc <= 0

  /** How SSL_write answers a record: bytes taken, try later, clean end with its return code, or an error. */
  datatype Answer = Took(bytes: nat) | WantWrite | Ended(rc: EndCode) | Broken(error: int)

  /** What a clean end adds to the reported numbers. */
  function Excess(a: Answer): int {
    if a.Ended? then a.rc else 0
  }

  datatype WriteResult = Wrote(total: int, count: nat, partial: int) | WriteFailed(error: int)

  function Min(a: nat, b: nat): nat {
    if a < b then a else b
  }

  /** The buffer that holds flat byte n. */
  function BufferAt(vec: seq<seq<byte>>, n: nat, from: nat): (i: nat)
    requires from < |vec| && Upto(vec, from) <= n < Upto(vec, |vec|)
    ensures from <= i < |vec| && Upto(vec, i) <= n < Upto(vec, i + 1)
    decreases |vec| - from
  {
    if n < Upto(vec, from + 1) then from else BufferAt(vec, n, from + 1)
  }

  /**
    How many bytes the record that begins at flat byte n has: what is left of its buffer, or,
    if that is too little and other buffers follow, up to `min` bytes of all that is left.
  */
  function RecordLength(vec: seq<seq<byte>>, min: nat, n: nat): (len: nat)
    requires n < Upto(vec, |vec|)
    ensures 0 < len <= Upto(vec, |vec|) - n
  {
    var i := BufferAt(vec, n, 0);
    UptoMonotone(vec, i + 1, |vec|);
    var own := Upto(vec, i + 1) - n;
    if own < min && i + 1 < |vec| then Min(min, Upto(vec, |vec|) - n) else own
  }

  lemma BufferAtIs(vec: seq<seq<byte>>, n: nat, i: nat)
    requires i < |vec| && Upto(vec, i) <= n < Upto(vec, i + 1)
    ensures n < Upto(vec, |vec|) && BufferAt(vec, n, 0) == i
  {
    UptoMonotone(vec, i + 1, |vec|);
    var j := BufferAt(vec, n, 0);
    if j < i {
      UptoMonotone(vec, j + 1, i);
    } else if i < j {
      UptoMonotone(vec, i + 1, j);
    }
  }

  /** Where a write stops, and the answer that stopped it; WantWrite if none did. */
  datatype Stop = Stop(n: nat, answer: Answer)

  /**
    The course of a write that has got to flat byte n: full records are followed by the next
    one, and the first answer that is not one decides.
  */
  function Course(vec: seq<seq<byte>>, min: nat, n: nat, answers: seq<Answer>): (d: Stop)
    requires n <= Upto(vec, |vec|)
    ensures n <= d.n <= Upto(vec, |vec|)
    ensures d.answer == WantWrite || d.answer in answers
    decreases |answers|
  {
    if n == Upto(vec, |vec|) || answers == [] then Stop(n, WantWrite)
    else
      var len := RecordLength(vec, min, n);
      if !answers[0].Took? then Stop(n, answers[0])
      else if answers[0].bytes < len then Stop(n + answers[0].bytes, answers[0])
      else Course(vec, min, n + len, answers[1..])
  }

  /** The state of a write: everything accepted so far is the flat prefix that ends at (i, offset). */
  ghost predicate SentUpTo(vec: seq<seq<byte>>, sent: seq<byte>, i: nat, offset: nat) {
    && i <= |vec|
    && (if i < |vec| then offset == 0 || offset < |vec[i]| else offset == 0)
    && |sent| == Upto(vec, i) + offset
    && |sent| <= |Concat(vec)|
    && sent == Concat(vec)[..|sent|]
  }

  /** The first `len` bytes of the buffer are the flat bytes from `start` on. */
  ghost predicate Gathered(vec: seq<seq<byte>>, start: nat, len: nat, buffer: seq<byte>) {
    && len <= |buffer|
    && start + len <= |Concat(vec)|
    && buffer[..len] == Concat(vec)[start..start + len]
  }

  lemma GatherMore(vec: seq<seq<byte>>, start: nat, len: nat, buffer: seq<byte>,
                   j: nat, a: nat, b: nat, buffer': seq<byte>)
    requires Gathered(vec, start, len, buffer)
    requires j < |vec| && a <= b <= |vec[j]| && start + len == Upto(vec, j) + a
    requires len + (b - a) <= |buffer'| && buffer'[..len] == buffer[..len]
    requires buffer'[len..len + (b - a)] == vec[j][a..b]
    ensures Gathered(vec, start, len + (b - a), buffer')
  {
    var n, flat := b - a, Concat(vec);
    BufferInConcat(vec, j, a, b);
    assert buffer'[..len + n] == buffer'[..len] + buffer'[len..len + n];
    SliceInTwo(flat, start, start + len, start + len + n);
  }

  /** Copy bytes a to b of buffer j behind the bytes gathered so far. */
  method Gather(vec: seq<seq<byte>>, j: nat, a: nat, b: nat, combined: array<byte>, len: nat, ghost start: nat)
    requires j < |vec| && a <= b <= |vec[j]| && len + (b - a) <= combined.Length
    requires Gathered(vec, start, len, combined[..]) && start + len == Upto(vec, j) + a
    modifies combined
    ensures Gathered(vec, start, len + (b - a), combined[..])
  {
    CopyInto(combined, len, vec[j][a..b]);
    GatherMore(vec, start, len, old(combined[..]), j, a, b, combined[..]);
  }

  /**
    The joining loop: fill `combined` from buffer i at `offset` with whole following buffers,
    and with part of one more if it does not fit.
  */
  method Join(vec: seq<seq<byte>>, i: nat, offset: nat, combined: array<byte>)
    returns (len: nat, buffersStolen: nat, bytesStolen: nat)
    requires i + 1 < |vec| && offset < |vec[i]| && |vec[i]| - offset < combined.Length
    modifies combined
    ensures |vec[i]| - offset <= len <= combined.Length
    ensures i + buffersStolen < |vec|
    ensures Gathered(vec, Upto(vec, i) + offset, len, combined[..])
    ensures Upto(vec, i) + offset + len == Upto(vec, i + 1 + buffersStolen) + bytesStolen
    ensures bytesStolen > 0 ==> i + 1 + buffersStolen < |vec| && bytesStolen < |vec[i + 1 + buffersStolen]|
    ensures len == combined.Length || Upto(vec, i) + offset + len == Upto(vec, |vec|)
  {
    ghost var start := Upto(vec, i) + offset;
    BufferInConcat(vec, i, offset, offset);
    Gather(vec, i, offset, |vec[i]|, combined, 0, start);
    len := |vec[i]| - offset;
    buffersStolen, bytesStolen := 0, 0;
    while i + buffersStolen + 1 < |vec| && len < combined.Length
      invariant |vec[i]| - offset <= len <= combined.Length
      invariant i + buffersStolen + 1 <= |vec|
      invariant bytesStolen == 0
      invariant start + len == Upto(vec, i + 1 + buffersStolen)
      invariant Gathered(vec, start, len, combined[..])
      decreases |vec| - buffersStolen
    {
      var next := i + buffersStolen + 1;
      bytesStolen := Min(|vec[next]|, combined.Length - len);
      Gather(vec, next, 0, bytesStolen, combined, len, start);
      len := len + bytesStolen;
      if bytesStolen < |vec[next]| {
        break;
      }
      bytesStolen := 0;
      buffersStolen := buffersStolen + 1;
    }
  }

  lemma FlatLength(vec: seq<seq<byte>>)
    ensures Upto(vec, |vec|) == |Concat(vec)|
  {
    UptoIsConcat(vec, |vec|);
    assert vec[..|vec|] == vec;
  }

  /** memcpy */
  method CopyInto(dst: array<byte>, at: nat, src: seq<byte>)
    requires at + |src| <= dst.Length
    modifies dst
    ensures dst[..] == old(dst[..at]) + src + old(dst[at + |src|..])
    ensures dst[..at] == old(dst[..at]) && dst[at..at + |src|] == src
  {
    forall k | 0 <= k < |src| {
      dst[at + k] := src[k];
    }
  }

  /** The bytes behind those already sent. */
  lemma SendMore(vec: seq<seq<byte>>, sent: seq<byte>, record: seq<byte>, bytes: nat)
    requires |sent| + |record| <= |Concat(vec)| && sent == Concat(vec)[..|sent|] && bytes <= |record|
    requires record == Concat(vec)[|sent|..|sent| + |record|]
    ensures sent + record[..bytes] == Concat(vec)[..|sent| + bytes]
  {
    var flat := Concat(vec);
    SliceInTwo(flat, 0, |sent|, |sent| + bytes);
    assert flat[0..|sent| + bytes] == flat[..|sent| + bytes] && flat[0..|sent|] == sent;
    assert record[..bytes] == flat[|sent|..|sent| + bytes];
  }

  /**
    The loop that finds where a partly written record stopped: from buffer i, `bytes` bytes
    counted from the beginning of buffer i have been written.
  */
  method Locate(vec: seq<seq<byte>>, i: nat, bytes: nat) returns (count: nat, partial: nat)
    requires i < |vec| && Upto(vec, i) + bytes < Upto(vec, |vec|)
    ensures IsPosition(vec, Upto(vec, i) + bytes, count, partial)
  {
    count, partial := i, bytes;
    while partial >= |vec[count]|
      invariant i <= count < |vec|
      invariant Upto(vec, count) + partial == Upto(vec, i) + bytes
      decreases |vec| - count
    {
      partial := partial - |vec[count]|;
      count := count + 1;
    }
  }

  /** The flat bytes from n up to `stolen` bytes into buffer j. */
  ghost predicate IsSlice(vec: seq<seq<byte>>, n: nat, record: seq<byte>, j: nat, stolen: nat) {
    && n + |record| <= |Concat(vec)|
    && record == Concat(vec)[n..n + |record|]
    && j <= |vec| && n + |record| == Upto(vec, j) + stolen
    && (stolen > 0 ==> j < |vec| && stolen < |vec[j]|)
  }

  /** The record at flat byte n. */
  ghost predicate IsRecord(vec: seq<seq<byte>>, min: nat, n: nat, record: seq<byte>, j: nat, stolen: nat) {
    && n < Upto(vec, |vec|) == |Concat(vec)|
    && |record| == RecordLength(vec, min, n)
    && IsSlice(vec, n, record, j, stolen)
  }

  /** The bytes of the next SSL_write call, beginning at `offset` of buffer i. */
  method NextRecord(vec: seq<seq<byte>>, i: nat, offset: nat, combined: array<byte>)
    returns (record: seq<byte>, buffersStolen: nat, bytesStolen: nat)
    requires i < |vec| && offset < |vec[i]|
    modifies combined
    ensures |record| <= combined.Length || record == vec[i][offset..]
    ensures IsRecord(vec, combined.Length, Upto(vec, i) + offset, record, i + 1 + buffersStolen, bytesStolen)
  {
    if |vec[i]| - offset < combined.Length && i + 1 < |vec| {
      var len;
      len, buffersStolen, bytesStolen := Join(vec, i, offset, combined);
      record := combined[..len];
      FlatLength(vec);
      JoinedLength(vec, combined.Length, i, offset, len);
    } else {
      record, buffersStolen, bytesStolen := vec[i][offset..], 0, 0;
      PlainRecord(vec, combined.Length, i, offset);
    }
  }

  lemma RecordLengthIs(vec: seq<seq<byte>>, min: nat, i: nat, offset: nat)
    requires i < |vec| && offset < |vec[i]|
    ensures var n, all, own := Upto(vec, i) + offset, Upto(vec, |vec|), |vec[i]| - offset;
            && n < all
            && RecordLength(vec, min, n) == if own < min && i + 1 < |vec| then Min(min, all - n) else own
  {
    BufferAtIs(vec, Upto(vec, i) + offset, i);
  }

  lemma SliceToEnd(vec: seq<seq<byte>>, i: nat, offset: nat, end: nat)
    requires i < |vec| && offset <= |vec[i]| && end == Upto(vec, i) + |vec[i]|
    ensures end <= |Concat(vec)| && Concat(vec)[Upto(vec, i) + offset..end] == vec[i][offset..]
  {
    BufferInConcat(vec, i, offset, |vec[i]|);
    assert vec[i][offset..|vec[i]|] == vec[i][offset..];
  }

  lemma PlainSlice(vec: seq<seq<byte>>, i: nat, offset: nat)
    requires i < |vec| && offset < |vec[i]|
    ensures IsSlice(vec, Upto(vec, i) + offset, vec[i][offset..], i + 1, 0)
  {
    SliceToEnd(vec, i, offset, Upto(vec, i) + offset + |vec[i][offset..]|);
  }

  lemma PlainRecord(vec: seq<seq<byte>>, min: nat, i: nat, offset: nat)
    requires i < |vec| && offset < |vec[i]| && (|vec[i]| - offset >= min || i + 1 == |vec|)
    ensures IsRecord(vec, min, Upto(vec, i) + offset, vec[i][offset..], i + 1, 0)
  {
    FlatLength(vec);
    RecordLengthIs(vec, min, i, offset);
    PlainSlice(vec, i, offset);
  }

  lemma JoinedLength(vec: seq<seq<byte>>, min: nat, i: nat, offset: nat, len: nat)
    requires i + 1 < |vec| && offset < |vec[i]| && |vec[i]| - offset < min
    requires len <= min && Upto(vec, i) + offset + len <= Upto(vec, |vec|)
    requires len == min || Upto(vec, i) + offset + len == Upto(vec, |vec|)
    ensures Upto(vec, i) + offset < Upto(vec, |vec|)
    ensures len == RecordLength(vec, min, Upto(vec, i) + offset)
  {
    RecordLengthIs(vec, min, i, offset);
  }

  /** The write is reported as the plain channel would report it. */
  ghost predicate Canonical(vec: seq<seq<byte>>, r: WriteResult, sent: nat) {
    r.Wrote? && r.total == sent && IsPosition(vec, sent, r.count, r.partial)
  }

  /** What a write that stopped at d returns, and what the peer has then. */
  ghost predicate Outcome(vec: seq<seq<byte>>, d: Stop, r: WriteResult, sent: seq<byte>) {
    && d.n <= |Concat(vec)| && sent == Concat(vec)[..d.n]
    && if d.answer.Broken? then r == WriteFailed(d.answer.error)
       else r.Wrote? && r.total == d.n + Excess(d.answer)
            && IsPosition(vec, d.n, r.count, r.partial - Excess(d.answer))
  }

  /** A write under way, about to look at buffer i: what the remaining answers lead to is d. */
  ghost predicate Underway(
    vec: seq<seq<byte>>, min: nat, rest: seq<Answer>, sent: seq<byte>, i: nat, offset: nat, d: Stop)
  {
    SentUpTo(vec, sent, i, offset) && |sent| <= Upto(vec, |vec|) && d == Course(vec, min, |sent|, rest)
  }

  lemma SkipEmpty(vec: seq<seq<byte>>, min: nat, rest: seq<Answer>, sent: seq<byte>, i: nat, offset: nat, d: Stop)
    requires Underway(vec, min, rest, sent, i, offset, d) && i < |vec| && offset == |vec[i]|
    ensures Underway(vec, min, rest, sent, i + 1, 0, d)
  {
  }

  lemma NothingTaken(vec: seq<seq<byte>>, min: nat, rest: seq<Answer>, sent: seq<byte>, i: nat, offset: nat, d: Stop)
    requires Underway(vec, min, rest, sent, i, offset, d) && i < |vec| && offset < |vec[i]|
    requires |sent| < Upto(vec, |vec|)
    ensures rest == [] || rest[0] == WantWrite ==> Outcome(vec, d, Wrote(|sent|, i, offset), sent)
    ensures rest != [] && rest[0].Broken? ==> Outcome(vec, d, WriteFailed(rest[0].error), sent)
    ensures rest != [] && rest[0].Ended? ==>
              Outcome(vec, d, Wrote(|sent| + rest[0].rc, i, offset + rest[0].rc), sent)
  {
    assert IsPosition(vec, |sent|, i, offset);
  }

  lemma SentGrows(vec: seq<seq<byte>>, min: nat, sent: seq<byte>, i: nat, offset: nat,
                  record: seq<byte>, j: nat, stolen: nat)
    requires SentUpTo(vec, sent, i, offset) && IsRecord(vec, min, |sent|, record, j, stolen)
    ensures SentUpTo(vec, sent + record, j, stolen)
  {
    SendMore(vec, sent, record, |record|);
    assert record[..|record|] == record;
  }

  lemma RecordTaken(vec: seq<seq<byte>>, min: nat, rest: seq<Answer>, sent: seq<byte>, i: nat, offset: nat, d: Stop,
                    record: seq<byte>, j: nat, stolen: nat)
    requires Underway(vec, min, rest, sent, i, offset, d) && IsRecord(vec, min, |sent|, record, j, stolen)
    requires rest != [] && rest[0].Took? && rest[0].bytes >= |record|
    ensures Underway(vec, min, rest[1..], sent + record, j, stolen, d)
  {
    SentGrows(vec, min, sent, i, offset, record, j, stolen);
  }

  lemma PartTaken(vec: seq<seq<byte>>, min: nat, rest: seq<Answer>, sent: seq<byte>, i: nat, offset: nat, d: Stop,
                  record: seq<byte>, j: nat, stolen: nat, count: nat, partial: nat)
    requires Underway(vec, min, rest, sent, i, offset, d) && IsRecord(vec, min, |sent|, record, j, stolen)
    requires rest != [] && rest[0].Took? && rest[0].bytes < |record|
    requires IsPosition(vec, |sent| + rest[0].bytes, count, partial)
    ensures Outcome(vec, d, Wrote(|sent| + rest[0].bytes, count, partial), sent + record[..rest[0].bytes])
  {
    SendMore(vec, sent, record, rest[0].bytes);
  }

  /** One SSL_write call and what its answer makes of the counters; `r` only once the write is over. */
  method WriteRecord(vec: seq<seq<byte>>, combined: array<byte>, rest: seq<Answer>, i: nat, offset: nat,
                     total: nat, sent: seq<byte>, ghost d: Stop)
    returns (over: bool, r: WriteResult, sent': seq<byte>, buffersStolen: nat, stolen: nat)
    requires Underway(vec, combined.Length, rest, sent, i, offset, d) && total == |sent|
    requires i < |vec| && offset < |vec[i]|
    modifies combined
    ensures over ==> Outcome(vec, d, r, sent')
    ensures !over ==> rest != [] && Underway(vec, combined.Length, rest[1..], sent', i + 1 + buffersStolen, stolen, d)
  {
    var record;
    record, buffersStolen, stolen := NextRecord(vec, i, offset, combined);
    NothingTaken(vec, combined.Length, rest, sent, i, offset, d);
    over, r, sent' := true, Wrote(total, i, offset), sent;
    if rest != [] {
      match rest[0] {
        case WantWrite =>
        case Broken(error) =>
          r := WriteFailed(error);
        case Ended(rc) =>
          r := Wrote(total + rc, i, offset + rc);
        case Took(n) =>
          if n < |record| {
            var count, partial := Locate(vec, i, n + offset);
            PartTaken(vec, combined.Length, rest, sent, i, offset, d,
                      record, i + 1 + buffersStolen, stolen, count, partial);
            r, sent' := Wrote(total + n, count, partial), sent + record[..n];
          } else {
            RecordTaken(vec, combined.Length, rest, sent, i, offset, d, record, i + 1 + buffersStolen, stolen);
            over, sent' := false, sent + record;
          }
      }
    }
  }

  /**
    SSLSocketChannel::performWrite on an established connection.  `answers` are the replies of
    the successive SSL_write calls; when they run out the connection would block.  What the
    peer got is the flat prefix `sent`, as long as the answers let it get.  The reported
    progress is canonical if and only if the answer that stopped the write is neither an error
    nor a clean end with a negative return code, which is added to total and partial count.
  */
  method SslWrite(vec: seq<seq<byte>>, minWriteSize: nat, answers: seq<Answer>)
    returns (r: WriteResult, sent: seq<byte>)
    ensures var d := Course(vec, minWriteSize, 0, answers);
            && Outcome(vec, d, r, sent)
            && (Canonical(vec, r, |sent|) <==> !d.answer.Broken? && Excess(d.answer) == 0)
    ensures (forall a :: a in answers ==> !a.Broken? && Excess(a) == 0) ==> Canonical(vec, r, |sent|)
  {
    var combined := new byte[minWriteSize];
    var total, rest := 0, answers;
    var i, stolen := 0, 0;
    sent := [];
    FlatLength(vec);
    ghost var d := Course(vec, minWriteSize, 0, answers);
    while i < |vec|
      invariant i <= |vec| && total == |sent|
      invariant Underway(vec, minWriteSize, rest, sent, i, stolen, d)
      decreases |vec| - i
    {
      var offset := stolen;
      stolen := 0;
      if |vec[i]| - offset == 0 {
        SkipEmpty(vec, minWriteSize, rest, sent, i, offset, d);
        i := i + 1;
        continue;
      }
      var over, buffersStolen;
      over, r, sent, buffersStolen, stolen := WriteRecord(vec, combined, rest, i, offset, total, sent, d);
      if over {
        return;
      }
      total := |sent|;
      i := i + 1 + buffersStolen;
      rest := rest[1..];
    }
    r := Wrote(total, i, 0);
  }

  /** A clean end with a negative return code is reported as a negative number of bytes. */
  method NegativeProgress() returns (r: WriteResult)
    ensures r == Wrote(-1, 0, -1)
  {
    var sent;
    r, sent := SslWrite([[1]], 1, [Ended(-1)]);
    FlatLength([[1]]);
    assert Upto([[1]], 1) == 1;
    assert Course([[1]], 1, 0, [Ended(-1)]) == Stop(0, Ended(-1));
  }
}
