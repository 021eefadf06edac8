/**
  IOBufQueue: a chain of views onto reference-counted blocks of memory that must behave like
  one byte string, while the chains it has handed out keep their bytes.
*/
module BufferQueue {
  import opened Bytes

  const MIN_ALLOC_SIZE := 2000
  const MAX_ALLOC_SIZE := 8000
  const MAX_PACK_COPY := 4096

  function Least(a: nat, b: nat): nat {
    if a < b then a else b
  }

  function Greatest(a: nat, b: nat): nat {
    if a < b then b else a
  }

  // ---------------------------------------------------------------- views and memory

  /** A block of memory and the number of IOBufs on it. */
  datatype Block = Block(bytes: seq<byte>, refs: nat)

  /** One IOBuf: the bytes [start, start + length) of the block with the number `store`. */
  datatype IOBuf = IOBuf(store: nat, start: nat, length: nat, maybeShared: bool)

  predicate Fits(m: seq<Block>, b: IOBuf) {
    b.store < |m| && b.start + b.length <= |m[b.store].bytes|
  }

  function Content(m: seq<Block>, b: IOBuf): (s: seq<byte>)
    requires Fits(m, b)
    ensures |s| == b.length
  {
    m[b.store].bytes[b.start..b.start + b.length]
  }

  predicate AllFit(m: seq<Block>, bufs: seq<IOBuf>) {
    forall i :: 0 <= i < |bufs| ==> Fits(m, bufs[i])
  }

  /** The bytes of a chain. */
  function BytesOf(m: seq<Block>, bufs: seq<IOBuf>): seq<byte>
    requires AllFit(m, bufs)
  {
    if bufs == [] then [] else Content(m, bufs[0]) + BytesOf(m, bufs[1..])
  }

  /** How many IOBufs of a list are on a block. */
  function Count(bufs: seq<IOBuf>, store: nat): nat {
    if bufs == [] then 0 else (if bufs[0].store == store then 1 else 0) + Count(bufs[1..], store)
  }

  /**
    Every IOBuf of the program is within its block, every block counts its IOBufs, and an IOBuf
    that shares its block has the flag that makes isSharedOne look at the count.
  */
  ghost predicate Sound(m: seq<Block>, bufs: seq<IOBuf>) {
    && AllFit(m, bufs)
    && (forall k :: 0 <= k < |m| ==> m[k].refs == Count(bufs, k))
    && (forall i :: 0 <= i < |bufs| ==> m[bufs[i].store].refs > 1 ==> bufs[i].maybeShared)
  }

  lemma {:induction false} CountSplit(a: seq<IOBuf>, b: seq<IOBuf>, store: nat)
    ensures Count(a + b, store) == Count(a, store) + Count(b, store)
  {
    if a == [] {
      assert a + b == b;
    } else {
      assert (a + b)[1..] == a[1..] + b;
      CountSplit(a[1..], b, store);
    }
  }

  lemma CountOne(b: IOBuf, store: nat)
    ensures Count([b], store) == if b.store == store then 1 else 0
  {
    assert [b][1..] == [];
  }

  lemma {:induction false} CountPositive(bufs: seq<IOBuf>, i: nat)
    requires i < |bufs|
    ensures Count(bufs, bufs[i].store) >= 1
  {
    if i > 0 {
      CountPositive(bufs[1..], i - 1);
    }
  }

  lemma {:induction false} CountZero(bufs: seq<IOBuf>, store: nat)
    requires forall i :: 0 <= i < |bufs| ==> bufs[i].store != store
    ensures Count(bufs, store) == 0
  {
    if bufs != [] {
      CountZero(bufs[1..], store);
    }
  }

  lemma {:induction false} BytesSplit(m: seq<Block>, a: seq<IOBuf>, b: seq<IOBuf>)
    requires AllFit(m, a) && AllFit(m, b)
    ensures AllFit(m, a + b)
    ensures BytesOf(m, a + b) == BytesOf(m, a) + BytesOf(m, b)
  {
    if a == [] {
      assert a + b == b;
    } else {
      assert (a + b)[1..] == a[1..] + b;
      BytesSplit(m, a[1..], b);
    }
  }

  lemma BytesOne(m: seq<Block>, b: IOBuf)
    requires Fits(m, b)
    ensures BytesOf(m, [b]) == Content(m, b)
  {
    assert [b][1..] == [];
  }

  /** What one IOBuf sees is the same in both memories. */
  ghost predicate Kept(m: seq<Block>, m': seq<Block>, bufs: seq<IOBuf>) {
    forall i :: 0 <= i < |bufs| && Fits(m, bufs[i]) ==>
      Fits(m', bufs[i]) && Content(m', bufs[i]) == Content(m, bufs[i])
  }

  lemma {:induction false} BytesKept(m: seq<Block>, m': seq<Block>, bufs: seq<IOBuf>)
    requires AllFit(m, bufs) && Kept(m, m', bufs)
    ensures AllFit(m', bufs) && BytesOf(m', bufs) == BytesOf(m, bufs)
  {
    if bufs != [] {
      BytesKept(m, m', bufs[1..]);
    }
  }

  // ---------------------------------------------------------------- changes of memory

  function Allocate(m: seq<Block>, capacity: nat): seq<Block> {
    m + [Block(seq(capacity, i => 0), 1)]
  }

  /** memcpy */
  function Write(m: seq<Block>, store: nat, at: nat, data: seq<byte>): (m': seq<Block>)
    requires store < |m| && at + |data| <= |m[store].bytes|
    ensures |m'| == |m|
    ensures forall k :: 0 <= k < |m| ==> |m'[k].bytes| == |m[k].bytes| && m'[k].refs == m[k].refs
  {
    var was := m[store].bytes;
    m[store := m[store].(bytes := was[..at] + data + was[at + |data|..])]
  }

  function Retain(m: seq<Block>, store: nat): seq<Block>
    requires store < |m|
  {
    m[store := m[store].(refs := m[store].refs + 1)]
  }

  function Release(m: seq<Block>, store: nat): seq<Block>
    requires store < |m| && m[store].refs > 0
  {
    m[store := m[store].(refs := m[store].refs - 1)]
  }

  /** The IOBuf sees none of the `n` bytes from `at` on. */
  predicate Apart(b: IOBuf, store: nat, at: nat, n: nat) {
    b.store != store || b.length == 0 || n == 0 || b.start + b.length <= at || at + n <= b.start
  }

  predicate AllApart(bufs: seq<IOBuf>, store: nat, at: nat, n: nat) {
    forall i :: 0 <= i < |bufs| ==> Apart(bufs[i], store, at, n)
  }

  lemma ApartKeeps(m: seq<Block>, store: nat, at: nat, data: seq<byte>, bufs: seq<IOBuf>)
    requires store < |m| && at + |data| <= |m[store].bytes| && AllApart(bufs, store, at, |data|)
    ensures Kept(m, Write(m, store, at, data), bufs)
  {
  }

  lemma AllocateIsSound(m: seq<Block>, front: seq<IOBuf>, back: seq<IOBuf>, capacity: nat)
    requires Sound(m, front + back)
    ensures var b := IOBuf(|m|, 0, 0, false);
            Sound(Allocate(m, capacity), front + [b] + back) && Kept(m, Allocate(m, capacity), front + back)
  {
    var b := IOBuf(|m|, 0, 0, false);
    var m' := Allocate(m, capacity);
    var all := front + [b] + back;
    forall k | 0 <= k < |m'| ensures m'[k].refs == Count(all, k) {
      CountInserted(front, b, back, k);
      if k == |m| {
        CountZero(front + back, k);
      }
    }
    forall i | 0 <= i < |all| ensures Fits(m', all[i]) && (m'[all[i].store].refs > 1 ==> all[i].maybeShared) {
      if i < |front| {
        assert all[i] == (front + back)[i];
      } else if i > |front| {
        assert all[i] == (front + back)[i - 1];
      }
    }
  }

  lemma CountInserted(front: seq<IOBuf>, b: IOBuf, back: seq<IOBuf>, store: nat)
    ensures Count(front + [b] + back, store) == Count(front + back, store) + if b.store == store then 1 else 0
  {
    CountSplit(front + [b], back, store);
    CountSplit(front, [b], store);
    CountSplit(front, back, store);
    CountOne(b, store);
  }

  /** On an unshared block there is nobody else. */
  lemma OnlyUser(m: seq<Block>, front: seq<IOBuf>, b: IOBuf, back: seq<IOBuf>)
    requires Sound(m, front + [b] + back) && Fits(m, b) && m[b.store].refs == 1
    ensures forall i :: 0 <= i < |front| ==> front[i].store != b.store
    ensures forall i :: 0 <= i < |back| ==> back[i].store != b.store
  {
    CountInserted(front, b, back, b.store);
    CountSplit(front, back, b.store);
    forall i | 0 <= i < |front| ensures front[i].store != b.store {
      if front[i].store == b.store {
        CountPositive(front, i);
      }
    }
    forall i | 0 <= i < |back| ensures back[i].store != b.store {
      if back[i].store == b.store {
        CountPositive(back, i);
      }
    }
  }

  /** Replacing an IOBuf by another one on the same block. */
  lemma ReplaceIsSound(m: seq<Block>, m': seq<Block>, front: seq<IOBuf>, b: IOBuf, c: IOBuf, back: seq<IOBuf>)
    requires Sound(m, front + [b] + back) && Fits(m, b)
    requires c.store == b.store && (m[b.store].refs > 1 ==> c.maybeShared)
    requires |m'| == |m| && forall k :: 0 <= k < |m| ==> m'[k].refs == m[k].refs && |m'[k].bytes| == |m[k].bytes|
    requires Fits(m', c)
    ensures Sound(m', front + [c] + back)
  {
    var all, all' := front + [b] + back, front + [c] + back;
    forall k | 0 <= k < |m'| ensures m'[k].refs == Count(all', k) {
      CountInserted(front, b, back, k);
      CountInserted(front, c, back, k);
    }
    forall i | 0 <= i < |all'| ensures Fits(m', all'[i]) && (m'[all'[i].store].refs > 1 ==> all'[i].maybeShared) {
      assert all[i] == if i == |front| then b else all'[i];
    }
  }

  lemma SoundRearranged(m: seq<Block>, x: seq<IOBuf>, y: seq<IOBuf>)
    requires Sound(m, x)
    requires forall k :: Count(y, k) == Count(x, k)
    requires forall b :: b in y ==> b in x
    ensures Sound(m, y)
  {
    forall i | 0 <= i < |y| ensures Fits(m, y[i]) && (m[y[i].store].refs > 1 ==> y[i].maybeShared) {
      assert y[i] in x;
    }
  }

  /** The IOBufs `c` change hands, from behind `b` to before it. */
  lemma SoundSwapped(m: seq<Block>, a: seq<IOBuf>, b: seq<IOBuf>, c: seq<IOBuf>)
    requires Sound(m, a + (b + c))
    ensures Sound(m, (a + c) + b)
  {
    forall k ensures Count((a + c) + b, k) == Count(a + (b + c), k) {
      CountSplit(a + c, b, k);
      CountSplit(a, c, k);
      CountSplit(a, b + c, k);
      CountSplit(b, c, k);
    }
    SoundRearranged(m, a + (b + c), (a + c) + b);
  }

  lemma SoundMoved(m: seq<Block>, b: seq<IOBuf>, rest: seq<IOBuf>, held: seq<IOBuf>)
    requires Sound(m, b + (rest + held))
    ensures Sound(m, rest + (held + b))
  {
    forall k ensures Count(rest + (held + b), k) == Count(b + (rest + held), k) {
      CountSplit(rest, held + b, k);
      CountSplit(held, b, k);
      CountSplit(b, rest + held, k);
      CountSplit(rest, held, k);
    }
    SoundRearranged(m, b + (rest + held), rest + (held + b));
  }

  /** An IOBuf is destroyed. */
  lemma DropIsSound(m: seq<Block>, front: seq<IOBuf>, b: IOBuf, back: seq<IOBuf>)
    requires Sound(m, front + [b] + back)
    ensures Fits(m, b) && m[b.store].refs > 0
    ensures Sound(Release(m, b.store), front + back)
  {
    MiddleFits(m, front, b, back);
    var m' := Release(m, b.store);
    var all, less := front + [b] + back, front + back;
    forall k | 0 <= k < |m'| ensures m'[k].refs == Count(less, k) {
      CountInserted(front, b, back, k);
    }
    forall i | 0 <= i < |less| ensures Fits(m', less[i]) && (m'[less[i].store].refs > 1 ==> less[i].maybeShared) {
      assert less[i] == all[if i < |front| then i else i + 1];
    }
  }

  /** An IOBuf is cloned; it and the clone now know that they may be shared. */
  lemma CloneIsSound(m: seq<Block>, front: seq<IOBuf>, b: IOBuf, c: IOBuf, d: IOBuf, back: seq<IOBuf>)
    requires Sound(m, front + [b] + back) && Fits(m, b)
    requires c.store == d.store == b.store && c.maybeShared && d.maybeShared
    requires Fits(m, c) && Fits(m, d)
    ensures Sound(Retain(m, b.store), front + [c] + back + [d])
  {
    var m' := Retain(m, b.store);
    var mid, all := front + [c] + back, front + [c] + back + [d];
    forall k | 0 <= k < |m'| ensures m'[k].refs == Count(all, k) {
      CountSplit(mid, [d], k);
      CountOne(d, k);
      CountInserted(front, b, back, k);
      CountInserted(front, c, back, k);
    }
    OthersAreShared(m, front, b, back);
    forall i | 0 <= i < |all| ensures Fits(m', all[i]) && (m'[all[i].store].refs > 1 ==> all[i].maybeShared) {
      var was := front + [b] + back;
      if i < |was| && i != |front| {
        assert all[i] == was[i];
      }
    }
  }

  /** Whoever is on the same block as another IOBuf has the flag set. */
  lemma OthersAreShared(m: seq<Block>, front: seq<IOBuf>, b: IOBuf, back: seq<IOBuf>)
    requires Sound(m, front + [b] + back)
    ensures forall i :: 0 <= i < |front| && front[i].store == b.store ==> front[i].maybeShared
    ensures forall i :: 0 <= i < |back| && back[i].store == b.store ==> back[i].maybeShared
  {
    var all := front + [b] + back;
    MiddleFits(m, front, b, back);
    CountInserted(front, b, back, b.store);
    CountSplit(front, back, b.store);
    forall i | 0 <= i < |front| && front[i].store == b.store ensures front[i].maybeShared {
      CountPositive(front, i);
      assert all[i] == front[i];
    }
    forall i | 0 <= i < |back| && back[i].store == b.store ensures back[i].maybeShared {
      CountPositive(back, i);
      assert all[|front| + 1 + i] == back[i];
    }
  }

  lemma MiddleFits(m: seq<Block>, front: seq<IOBuf>, b: IOBuf, back: seq<IOBuf>)
    requires Sound(m, front + [b] + back)
    ensures Fits(m, b) && AllFit(m, front) && AllFit(m, back)
    ensures m[b.store].refs >= 1 && (m[b.store].refs > 1 ==> b.maybeShared)
  {
    var all := front + [b] + back;
    assert all[|front|] == b;
    CountPositive(all, |front|);
    forall i | 0 <= i < |front| ensures Fits(m, front[i]) {
      assert all[i] == front[i];
    }
    forall i | 0 <= i < |back| ensures Fits(m, back[i]) {
      assert all[|front| + 1 + i] == back[i];
    }
  }

  /** Writing behind the data of an unshared IOBuf makes it longer and changes nothing else. */
  lemma WriteBehind(m: seq<Block>, front: seq<IOBuf>, b: IOBuf, back: seq<IOBuf>, data: seq<byte>)
    requires Sound(m, front + [b] + back) && Fits(m, b) && m[b.store].refs == 1
    requires b.start + b.length + |data| <= |m[b.store].bytes|
    ensures var m' := Write(m, b.store, b.start + b.length, data);
            var c := b.(length := b.length + |data|);
            && Sound(m', front + [c] + back) && Kept(m, m', back)
            && AllFit(m, front + [b]) && AllFit(m', front + [c])
            && BytesOf(m', front + [c]) == BytesOf(m, front + [b]) + data
  {
    OnlyUser(m, front, b, back);
    var m' := Write(m, b.store, b.start + b.length, data);
    var c := b.(length := b.length + |data|);
    MiddleFits(m, front, b, back);
    ReplaceIsSound(m, m', front, b, c, back);
    ApartKeeps(m, b.store, b.start + b.length, data, back);
    LongerBytes(m, front, b, data);
  }

  lemma LongerContent(m: seq<Block>, b: IOBuf, data: seq<byte>)
    requires Fits(m, b) && b.start + b.length + |data| <= |m[b.store].bytes|
    ensures var m', c := Write(m, b.store, b.start + b.length, data), b.(length := b.length + |data|);
            Fits(m', c) && Content(m', c) == Content(m, b) + data
  {
  }

  lemma LongerBytes(m: seq<Block>, front: seq<IOBuf>, b: IOBuf, data: seq<byte>)
    requires AllFit(m, front) && Fits(m, b) && b.start + b.length + |data| <= |m[b.store].bytes|
    requires AllApart(front, b.store, b.start + b.length, |data|)
    ensures var m' := Write(m, b.store, b.start + b.length, data);
            var c := b.(length := b.length + |data|);
            && AllFit(m, front + [b]) && AllFit(m', front + [c]) && Kept(m, m', front)
            && BytesOf(m', front + [c]) == BytesOf(m, front + [b]) + data
  {
    var m' := Write(m, b.store, b.start + b.length, data);
    var c := b.(length := b.length + |data|);
    ApartKeeps(m, b.store, b.start + b.length, data, front);
    BytesKept(m, m', front);
    BytesEnd(m, front, b);
    BytesEnd(m', front, c);
    LongerContent(m, b, data);
    assert BytesOf(m, front) + (Content(m, b) + data) == (BytesOf(m, front) + Content(m, b)) + data;
  }

  // ---------------------------------------------------------------- what the operations do

  /** The two parts of an IOBuf that was cloned to be split at `n`. */
  function Head(b: IOBuf, n: nat): IOBuf {
    b.(length := n, maybeShared := true)
  }

  function Tail(b: IOBuf, n: nat): IOBuf
    requires n <= b.length
  {
    b.(start := b.start + n, length := b.length - n, maybeShared := true)
  }

  lemma CloneHeadIsSound(m: seq<Block>, chain: seq<IOBuf>, held: seq<IOBuf>, n: nat)
    requires Sound(m, chain + held) && chain != [] && n <= chain[0].length && Fits(m, chain[0])
    ensures Sound(Retain(m, chain[0].store), ([Tail(chain[0], n)] + chain[1..]) + (held + [Head(chain[0], n)]))
  {
    var b := chain[0];
    var c, d, tail := Head(b, n), Tail(b, n), chain[1..];
    assert chain + held == [] + [b] + (tail + held);
    CloneIsSound(m, [], b, d, c, tail + held);
    assert [] + [d] + (tail + held) + [c] == ([d] + tail) + (held + [c]);
  }

  /** `c` sees a part of what `b` sees, or nothing at the start of its block. */
  predicate Narrowed(b: IOBuf, c: IOBuf) {
    && c.store == b.store && c.maybeShared == b.maybeShared
    && c.start + c.length <= b.start + b.length && c.length <= b.length
  }

  lemma {:induction false} BytesLong(m: seq<Block>, bufs: seq<IOBuf>, k: nat)
    requires AllFit(m, bufs) && k < |bufs|
    ensures |BytesOf(m, bufs)| >= bufs[k].length
  {
    if k > 0 {
      BytesLong(m, bufs[1..], k - 1);
    }
  }

  lemma {:induction false} LengthNarrowed(m: seq<Block>, bufs: seq<IOBuf>, k: nat, c: IOBuf)
    requires AllFit(m, bufs) && k < |bufs| && Fits(m, c) && c.length <= bufs[k].length
    ensures AllFit(m, bufs[k := c])
    ensures |BytesOf(m, bufs[k := c])| == |BytesOf(m, bufs)| - (bufs[k].length - c.length)
  {
    if k == 0 {
      assert bufs[k := c][1..] == bufs[1..];
    } else {
      assert bufs[k := c][1..] == bufs[1..][k - 1 := c];
      LengthNarrowed(m, bufs[1..], k - 1, c);
    }
  }

  lemma {:induction false} EmptyBytes(m: seq<Block>, bufs: seq<IOBuf>)
    requires AllFit(m, bufs) && forall i :: 0 <= i < |bufs| ==> bufs[i].length == 0
    ensures BytesOf(m, bufs) == []
  {
    if bufs != [] {
      EmptyBytes(m, bufs[1..]);
    }
  }

  lemma TrimmedBytes(m: seq<Block>, front: seq<IOBuf>, b: IOBuf, n: nat)
    requires AllFit(m, front + [b]) && n <= b.length
    ensures var c := b.(length := b.length - n);
            && AllFit(m, front + [c]) && n <= |BytesOf(m, front + [b])|
            && BytesOf(m, front + [c]) == BytesOf(m, front + [b])[..|BytesOf(m, front + [b])| - n]
  {
    var c := b.(length := b.length - n);
    AllFitParts(m, front, [b]);
    assert [b][0] == b;
    BytesEnd(m, front, b);
    BytesEnd(m, front, c);
    SliceOfSlice(m[b.store].bytes, b.start, b.start + b.length, c.length);
    CutEnd(BytesOf(m, front), Content(m, b), n);
  }

  lemma SliceOfSlice(s: seq<byte>, i: nat, j: nat, k: nat)
    requires i + k <= j <= |s|
    ensures s[i..j][..k] == s[i..i + k]
  {
  }

  lemma CutEnd(x: seq<byte>, y: seq<byte>, n: nat)
    requires n <= |y|
    ensures (x + y)[..|x + y| - n] == x + y[..|y| - n]
  {
  }

  function Joined(m: seq<Block>, a: seq<IOBuf>, b: seq<IOBuf>): seq<byte>
    requires AllFit(m, a) && AllFit(m, b)
  {
    BytesOf(m, a) + BytesOf(m, b)
  }

  /** The sum of the lengths. */
  function Total(bufs: seq<IOBuf>): nat {
    if bufs == [] then 0 else bufs[0].length + Total(bufs[1..])
  }

  lemma {:induction false} TotalIs(m: seq<Block>, bufs: seq<IOBuf>)
    requires AllFit(m, bufs)
    ensures |BytesOf(m, bufs)| == Total(bufs)
  {
    if bufs != [] {
      TotalIs(m, bufs[1..]);
    }
  }

  lemma {:induction false} TotalSplit(a: seq<IOBuf>, b: seq<IOBuf>)
    ensures Total(a + b) == Total(a) + Total(b)
  {
    if a == [] {
      assert a + b == b;
    } else {
      assert (a + b)[1..] == a[1..] + b;
      TotalSplit(a[1..], b);
    }
  }

  lemma TotalEnd(front: seq<IOBuf>, last: IOBuf)
    ensures Total(front + [last]) == Total(front) + last.length
  {
    TotalSplit(front, [last]);
    assert [last][1..] == [];
  }

  lemma TotalPacked(chain: seq<IOBuf>, src: seq<IOBuf>, k: nat)
    requires chain != [] && k <= |src|
    ensures Total(Longer(chain, Total(src[..k]))) + Total(src[k..]) == Total(chain) + Total(src)
  {
    var front, last := chain[..|chain| - 1], chain[|chain| - 1];
    assert chain == front + [last] && src == src[..k] + src[k..];
    TotalEnd(front, last);
    TotalEnd(front, last.(length := last.length + Total(src[..k])));
    TotalSplit(src[..k], src[k..]);
  }

  lemma AllFitParts(m: seq<Block>, a: seq<IOBuf>, b: seq<IOBuf>)
    requires AllFit(m, a + b)
    ensures AllFit(m, a) && AllFit(m, b)
  {
    forall i | 0 <= i < |a| ensures Fits(m, a[i]) {
      assert (a + b)[i] == a[i];
    }
    forall i | 0 <= i < |b| ensures Fits(m, b[i]) {
      assert (a + b)[|a| + i] == b[i];
    }
  }

  /** The chain with `n` more bytes in its last buffer. */
  function Longer(chain: seq<IOBuf>, n: nat): (c: seq<IOBuf>)
    requires chain != []
    ensures |c| == |chain|
  {
    var k := |chain| - 1;
    chain[..k] + [chain[k].(length := chain[k].length + n)]
  }

  function RoomBehind(m: seq<Block>, b: IOBuf): nat
    requires Fits(m, b)
  {
    |m[b.store].bytes| - b.start - b.length
  }

  /** How many of the buffers the packing loop copies. */
  function PackCount(src: seq<IOBuf>, copyRemaining: nat, room: nat): (k: nat)
    ensures k <= |src| && Total(src[..k]) <= room
  {
    if src != [] && src[0].length < copyRemaining && src[0].length < room then
      var k := PackCount(src[1..], copyRemaining - src[0].length, room - src[0].length);
      assert src[..k + 1][1..] == src[1..][..k];
      k + 1
    else 0
  }

  /** The memory after the buffers `src` were copied behind `b`, one after the other. */
  function Copied(m: seq<Block>, b: IOBuf, src: seq<IOBuf>): (m': seq<Block>)
    requires Fits(m, b) && AllFit(m, src) && Total(src) <= RoomBehind(m, b)
    decreases |src|
  {
    if src == [] then m
    else
      var m1 := Write(m, b.store, b.start + b.length, Content(m, src[0]));
      Copied(m1, b.(length := b.length + src[0].length), src[1..])
  }

  /** The memories differ at most in their counts. */
  predicate SameBytes(m: seq<Block>, m': seq<Block>) {
    |m| == |m'| && forall k :: 0 <= k < |m| ==> m[k].bytes == m'[k].bytes
  }

  /** The buffers were copied behind the last one of the chain. */
  ghost predicate CopiedBehind(m: seq<Block>, chain: seq<IOBuf>, copied: seq<IOBuf>, m': seq<Block>, chain': seq<IOBuf>)
    requires chain != [] && Fits(m, chain[|chain| - 1]) && AllFit(m, copied)
    requires Total(copied) <= RoomBehind(m, chain[|chain| - 1])
  {
    chain' == Longer(chain, Total(copied)) && SameBytes(m', Copied(m, chain[|chain| - 1], copied))
  }

  /** What the packing loop makes of memory and chain, and the buffers it leaves. */
  ghost predicate PackedTo(m: seq<Block>, chain: seq<IOBuf>, src: seq<IOBuf>, copyRemaining: nat,
                           m': seq<Block>, chain': seq<IOBuf>, more: seq<IOBuf>)
    requires chain != [] && Fits(m, chain[|chain| - 1]) && AllFit(m, src)
  {
    var k := PackCount(src, copyRemaining, RoomBehind(m, chain[|chain| - 1]));
    more == src[k..] && CopiedBehind(m, chain, src[..k], m', chain')
  }

  /** What appending makes of memory and chain. */
  ghost predicate Appended(m: seq<Block>, chain: seq<IOBuf>, src: seq<IOBuf>, pack: bool,
                           m': seq<Block>, chain': seq<IOBuf>)
    requires AllFit(m, chain) && AllFit(m, src)
  {
    if !pack || chain == [] then m' == m && chain' == chain + src
    else
      var last := chain[|chain| - 1];
      var k := PackCount(src, MAX_PACK_COPY, RoomBehind(m, last));
      chain' == Longer(chain, Total(src[..k])) + src[k..] && SameBytes(m', Copied(m, last, src[..k]))
  }

  /** The memory after `data` was written behind `b` and an IOBuf on `store` destroyed. */
  function Packed(m: seq<Block>, b: IOBuf, data: seq<byte>, store: nat): seq<Block>
    requires Fits(m, b) && b.start + b.length + |data| <= |m[b.store].bytes|
    requires store < |m| && m[store].refs > 0
  {
    Release(Write(m, b.store, b.start + b.length, data), store)
  }

  lemma PackIsSound(m: seq<Block>, front: seq<IOBuf>, b: IOBuf, rest: seq<IOBuf>, more: seq<IOBuf>)
    requires Sound(m, front + [b] + (rest + more)) && more != [] && Fits(m, b) && Fits(m, more[0])
    requires b.start + b.length + more[0].length <= |m[b.store].bytes|
    ensures m[more[0].store].refs > 0
    ensures Sound(Packed(m, b, Content(m, more[0]), more[0].store),
                  (front + [b.(length := b.length + more[0].length)]) + (rest + more[1..]))
  {
    var data := Content(m, more[0]);
    var c := b.(length := b.length + |data|);
    var m' := Write(m, b.store, b.start + b.length, data);
    MiddleFits(m, front, b, rest + more);
    ReplaceIsSound(m, m', front, b, c, rest + more);
    assert front + [c] + (rest + more) == (front + [c] + rest) + [more[0]] + more[1..];
    DropIsSound(m', front + [c] + rest, more[0], more[1..]);
    assert (front + [c] + rest) + more[1..] == (front + [c]) + (rest + more[1..]);
  }

  lemma {:induction false} CopiedSame(m: seq<Block>, m': seq<Block>, b: IOBuf, src: seq<IOBuf>)
    requires SameBytes(m, m') && Fits(m, b) && AllFit(m, src) && Total(src) <= RoomBehind(m, b)
    ensures SameBytes(Copied(m, b, src), Copied(m', b, src))
    decreases |src|
  {
    if src != [] {
      var at, data := b.start + b.length, Content(m, src[0]);
      CopiedSame(Write(m, b.store, at, data), Write(m', b.store, at, data),
                 b.(length := b.length + src[0].length), src[1..]);
    }
  }

  /** One buffer packed, the rest is as far from being packed as the whole was. */
  lemma PackStep(m: seq<Block>, chain: seq<IOBuf>, more: seq<IOBuf>, copyRemaining: nat,
                 m': seq<Block>, chain': seq<IOBuf>, less: seq<IOBuf>)
    requires chain != [] && Fits(m, chain[|chain| - 1]) && AllFit(m, more)
    requires PackedTo(m, chain, more, copyRemaining, m', chain', less)
    requires more != [] && m[more[0].store].refs > 0
    requires more[0].length < copyRemaining && more[0].length < RoomBehind(m, chain[|chain| - 1])
    ensures var m1 := Packed(m, chain[|chain| - 1], Content(m, more[0]), more[0].store);
            && AllFit(m1, more[1..])
            && PackedTo(m1, Longer(chain, more[0].length), more[1..], copyRemaining - more[0].length, m', chain', less)
  {
    var last, n := chain[|chain| - 1], more[0].length;
    var k := PackCount(more[1..], copyRemaining - n, RoomBehind(m, last) - n);
    CountStep(more, copyRemaining, RoomBehind(m, last));
    CopyStep(m, chain, more[..k + 1], m', chain');
  }

  lemma CountStep(more: seq<IOBuf>, copyRemaining: nat, room: nat)
    requires more != [] && more[0].length < copyRemaining && more[0].length < room
    ensures var k := PackCount(more[1..], copyRemaining - more[0].length, room - more[0].length);
            && PackCount(more, copyRemaining, room) == k + 1
            && more[..k + 1][1..] == more[1..][..k] && more[k + 1..] == more[1..][k..]
            && Total(more[..k + 1]) == more[0].length + Total(more[1..][..k])
  {
    var k := PackCount(more[1..], copyRemaining - more[0].length, room - more[0].length);
    assert more[..k + 1][1..] == more[1..][..k];
  }

  lemma CopyStep(m: seq<Block>, chain: seq<IOBuf>, copied: seq<IOBuf>, m': seq<Block>, chain': seq<IOBuf>)
    requires chain != [] && Fits(m, chain[|chain| - 1]) && AllFit(m, copied)
    requires copied != [] && m[copied[0].store].refs > 0
    requires Total(copied) <= RoomBehind(m, chain[|chain| - 1]) && CopiedBehind(m, chain, copied, m', chain')
    ensures var b, longer := chain[|chain| - 1], Longer(chain, copied[0].length);
            var m1 := Packed(m, b, Content(m, copied[0]), copied[0].store);
            var c := longer[|longer| - 1];
            && Fits(m1, c) && AllFit(m1, copied[1..]) && RoomBehind(m1, c) == RoomBehind(m, b) - copied[0].length
            && CopiedBehind(m1, longer, copied[1..], m', chain')
  {
    MemoryStep(m, chain[|chain| - 1], copied);
    LongerTwice(chain, copied[0].length, Total(copied[1..]));
  }

  lemma MemoryStep(m: seq<Block>, b: IOBuf, src: seq<IOBuf>)
    requires Fits(m, b) && AllFit(m, src) && Total(src) <= RoomBehind(m, b)
    requires src != [] && m[src[0].store].refs > 0
    ensures var m1, c := Packed(m, b, Content(m, src[0]), src[0].store), b.(length := b.length + src[0].length);
            && Fits(m1, c) && AllFit(m1, src[1..]) && RoomBehind(m1, c) == RoomBehind(m, b) - src[0].length
            && SameBytes(Copied(m, b, src), Copied(m1, c, src[1..]))
  {
    var c := b.(length := b.length + src[0].length);
    var w := Write(m, b.store, b.start + b.length, Content(m, src[0]));
    CopiedSame(w, Release(w, src[0].store), c, src[1..]);
  }

  lemma LongerTwice(chain: seq<IOBuf>, n: nat, k: nat)
    requires chain != []
    ensures Longer(Longer(chain, n), k) == Longer(chain, n + k)
  {
  }

  /** However often it writes, copying behind `b` is one write of as many bytes as the buffers have. */
  lemma {:induction false} CopiedIsWrite(m: seq<Block>, b: IOBuf, src: seq<IOBuf>)
    requires Fits(m, b) && AllFit(m, src) && Total(src) <= RoomBehind(m, b)
    ensures var m', at := Copied(m, b, src), b.start + b.length;
            && b.store < |m'| && |m'[b.store].bytes| == |m[b.store].bytes|
            && m' == Write(m, b.store, at, m'[b.store].bytes[at..at + Total(src)])
    decreases |src|
  {
    var at := b.start + b.length;
    if src == [] {
      WriteNothing(m, b.store, at);
    } else {
      var m1 := Write(m, b.store, at, Content(m, src[0]));
      var longer := b.(length := b.length + src[0].length);
      CopiedIsWrite(m1, longer, src[1..]);
      var m' := Copied(m, b, src);
      var data := m'[b.store].bytes[at + src[0].length..at + Total(src)];
      WriteTwice(m, b.store, at, Content(m, src[0]), data);
      assert m'[b.store].bytes[at..at + Total(src)] == Content(m, src[0]) + data;
    }
  }

  lemma WriteNothing(m: seq<Block>, store: nat, at: nat)
    requires store < |m| && at <= |m[store].bytes|
    ensures Write(m, store, at, m[store].bytes[at..at]) == m
  {
    var was := m[store].bytes;
    assert was[..at] + was[at..at] + was[at..] == was;
  }

  lemma WriteTwice(m: seq<Block>, store: nat, at: nat, x: seq<byte>, y: seq<byte>)
    requires store < |m| && at + |x| + |y| <= |m[store].bytes|
    ensures Write(Write(m, store, at, x), store, at + |x|, y) == Write(m, store, at, x + y)
  {
    var was, n := m[store].bytes, at + |x|;
    var first := was[..at] + x + was[n..];
    assert first[..n] + y + first[n + |y|..] == was[..at] + (x + y) + was[at + |x + y|..];
  }

  /** If the buffers do not reach into the room themselves, what is written is their bytes. */
  lemma {:induction false} CopiedIsBytes(m: seq<Block>, b: IOBuf, src: seq<IOBuf>)
    requires Fits(m, b) && AllFit(m, src) && Total(src) <= RoomBehind(m, b)
    requires AllApart(src, b.store, b.start + b.length, Total(src))
    ensures |BytesOf(m, src)| == Total(src)
    ensures Copied(m, b, src) == Write(m, b.store, b.start + b.length, BytesOf(m, src))
    decreases |src|
  {
    var at := b.start + b.length;
    TotalIs(m, src);
    if src == [] {
      WriteNothing(m, b.store, at);
    } else {
      var data, rest := Content(m, src[0]), src[1..];
      var m1 := Write(m, b.store, at, data);
      ApartShorter(rest, b.store, at, |data|, Total(rest));
      ApartKeeps(m, b.store, at, data, rest);
      BytesKept(m, m1, rest);
      CopiedIsBytes(m1, b.(length := b.length + |data|), rest);
      WriteTwice(m, b.store, at, data, BytesOf(m, rest));
    }
  }

  lemma ApartShorter(bufs: seq<IOBuf>, store: nat, at: nat, n: nat, k: nat)
    requires AllApart(bufs, store, at, n + k)
    ensures AllApart(bufs, store, at, n) && AllApart(bufs, store, at + n, k)
  {
  }

  lemma SameBytesKeep(m: seq<Block>, m': seq<Block>, bufs: seq<IOBuf>)
    requires SameBytes(m', m)
    ensures Kept(m, m', bufs)
  {
  }

  /** Of the bytes that packing would write, nobody sees any. */
  ghost predicate RoomIsFree(m: seq<Block>, chain: seq<IOBuf>, src: seq<IOBuf>, rest: seq<IOBuf>)
    requires chain != [] && Fits(m, chain[|chain| - 1])
  {
    var last := chain[|chain| - 1];
    var n := Total(src[..PackCount(src, MAX_PACK_COPY, RoomBehind(m, last))]);
    && AllApart(chain, last.store, last.start + last.length, n)
    && AllApart(src, last.store, last.start + last.length, n)
    && AllApart(rest, last.store, last.start + last.length, n)
  }

  lemma UnsharedRoomIsFree(m: seq<Block>, chain: seq<IOBuf>, src: seq<IOBuf>, rest: seq<IOBuf>)
    requires chain != [] && Sound(m, chain + (rest + src)) && Fits(m, chain[|chain| - 1])
    requires m[chain[|chain| - 1].store].refs == 1
    ensures RoomIsFree(m, chain, src, rest)
  {
    var front, last := chain[..|chain| - 1], chain[|chain| - 1];
    assert chain == front + [last];
    OnlyUser(m, front, last, rest + src);
    assert forall i :: 0 <= i < |rest| ==> rest[i] == (rest + src)[i];
    assert forall i :: 0 <= i < |src| ==> src[i] == (rest + src)[|rest| + i];
  }

  /** With the room free, packing adds the bytes of the buffers and disturbs nobody. */
  lemma PackingAdds(m: seq<Block>, chain: seq<IOBuf>, src: seq<IOBuf>, rest: seq<IOBuf>,
                    m': seq<Block>, chain': seq<IOBuf>, more: seq<IOBuf>)
    requires chain != [] && AllFit(m, chain) && AllFit(m, src) && RoomIsFree(m, chain, src, rest)
    requires PackedTo(m, chain, src, MAX_PACK_COPY, m', chain', more)
    ensures Kept(m, m', rest) && AllFit(m', chain') && AllFit(m', more)
    ensures Joined(m', chain', more) == Joined(m, chain, src)
  {
    var last := chain[|chain| - 1];
    var front := ChainEnds(chain);
    var copied := PackedIsWrite(m, chain, src, rest, m', chain', more);
    AllFitParts(m, copied, more);
    AllFitParts(m, front, [last]);
    ApartParts(copied, more, last.store, last.start + last.length, |BytesOf(m, copied)|);
    ApartParts(front, [last], last.store, last.start + last.length, |BytesOf(m, copied)|);
    WrittenAdds(m, front, last, copied, BytesOf(m, copied), m', more);
    FreeKeeps(m, last.store, last.start + last.length, BytesOf(m, copied), m', rest);
  }

  lemma AppendedAdds(m: seq<Block>, chain: seq<IOBuf>, src: seq<IOBuf>, pack: bool, rest: seq<IOBuf>,
                     m': seq<Block>, chain': seq<IOBuf>)
    requires AllFit(m, chain) && AllFit(m, src) && Appended(m, chain, src, pack, m', chain')
    requires !pack || chain == [] || RoomIsFree(m, chain, src, rest)
    ensures Kept(m, m', rest) && AllFit(m', chain') && BytesOf(m', chain') == BytesOf(m, chain) + BytesOf(m, src)
  {
    if !pack || chain == [] {
      BytesSplit(m, chain, src);
    } else {
      var last := chain[|chain| - 1];
      var k := PackCount(src, MAX_PACK_COPY, RoomBehind(m, last));
      var packed, more := Longer(chain, Total(src[..k])), src[k..];
      PackingAdds(m, chain, src, rest, m', packed, more);
      BytesSplit(m', packed, more);
    }
  }

  lemma ChainEnds(chain: seq<IOBuf>) returns (front: seq<IOBuf>)
    requires chain != []
    ensures front == chain[..|chain| - 1] && chain == front + [chain[|chain| - 1]]
  {
    front := chain[..|chain| - 1];
  }

  lemma PackedIsWrite(m: seq<Block>, chain: seq<IOBuf>, src: seq<IOBuf>, rest: seq<IOBuf>,
                      m': seq<Block>, chain': seq<IOBuf>, more: seq<IOBuf>)
    returns (copied: seq<IOBuf>)
    requires chain != [] && AllFit(m, chain) && AllFit(m, src) && RoomIsFree(m, chain, src, rest)
    requires PackedTo(m, chain, src, MAX_PACK_COPY, m', chain', more)
    ensures src == copied + more && AllFit(m, copied)
    ensures var last := chain[|chain| - 1];
            var at, n := last.start + last.length, |BytesOf(m, copied)|;
            && AllApart(chain, last.store, at, n) && AllApart(src, last.store, at, n)
            && AllApart(rest, last.store, at, n)
            && n <= RoomBehind(m, last) && chain' == Longer(chain, n)
            && SameBytes(m', Write(m, last.store, at, BytesOf(m, copied)))
  {
    var last := chain[|chain| - 1];
    var k := PackCount(src, MAX_PACK_COPY, RoomBehind(m, last));
    copied := src[..k];
    CopiedIsBytes(m, last, copied);
  }

  lemma WrittenAdds(m: seq<Block>, front: seq<IOBuf>, last: IOBuf, copied: seq<IOBuf>, data: seq<byte>,
                    m': seq<Block>, more: seq<IOBuf>)
    requires AllFit(m, front) && Fits(m, last) && AllFit(m, copied) && AllFit(m, more)
    requires data == BytesOf(m, copied) && |data| <= RoomBehind(m, last)
    requires SameBytes(m', Write(m, last.store, last.start + last.length, data))
    requires AllApart(front, last.store, last.start + last.length, |data|)
    requires AllApart(more, last.store, last.start + last.length, |data|)
    ensures var longer := last.(length := last.length + |data|);
            && AllFit(m', front + [longer]) && AllFit(m', more) && AllFit(m, front + [last]) && AllFit(m, copied + more)
            && Joined(m', front + [longer], more) == Joined(m, front + [last], copied + more)
  {
    WriteAdds(m, front, last, data, m', more);
    JoinedSplit(m, front + [last], copied, more);
  }

  lemma JoinedSplit(m: seq<Block>, a: seq<IOBuf>, b: seq<IOBuf>, c: seq<IOBuf>)
    requires AllFit(m, a) && AllFit(m, b) && AllFit(m, c)
    ensures AllFit(m, b + c) && Joined(m, a, b + c) == (BytesOf(m, a) + BytesOf(m, b)) + BytesOf(m, c)
  {
    BytesSplit(m, b, c);
    JoinAgain(BytesOf(m, a), BytesOf(m, b), BytesOf(m, c));
  }

  lemma CopyingKeeps(m: seq<Block>, b: IOBuf, src: seq<IOBuf>, m': seq<Block>, bufs: seq<IOBuf>)
    requires Fits(m, b) && AllFit(m, src) && Total(src) <= RoomBehind(m, b) && m' == Copied(m, b, src)
    requires AllApart(bufs, b.store, b.start + b.length, Total(src))
    ensures Kept(m, m', bufs)
  {
    var at := b.start + b.length;
    CopiedIsWrite(m, b, src);
    ApartKeeps(m, b.store, at, m'[b.store].bytes[at..at + Total(src)], bufs);
  }

  lemma ApartParts(a: seq<IOBuf>, b: seq<IOBuf>, store: nat, at: nat, n: nat)
    requires AllApart(a + b, store, at, n)
    ensures AllApart(a, store, at, n) && AllApart(b, store, at, n)
  {
    assert forall i :: 0 <= i < |a| ==> a[i] == (a + b)[i];
    assert forall i :: 0 <= i < |b| ==> b[i] == (a + b)[|a| + i];
  }

  lemma JoinAgain(x: seq<byte>, y: seq<byte>, z: seq<byte>)
    ensures x + (y + z) == (x + y) + z
  {
  }

  lemma WriteAdds(m: seq<Block>, front: seq<IOBuf>, b: IOBuf, data: seq<byte>, m': seq<Block>, more: seq<IOBuf>)
    requires AllFit(m, front) && Fits(m, b) && |data| <= RoomBehind(m, b) && AllFit(m, more)
    requires AllApart(front, b.store, b.start + b.length, |data|)
    requires AllApart(more, b.store, b.start + b.length, |data|)
    requires SameBytes(m', Write(m, b.store, b.start + b.length, data))
    ensures var c := b.(length := b.length + |data|);
            && AllFit(m', front + [c]) && AllFit(m, front + [b]) && AllFit(m', more)
            && BytesOf(m', front + [c]) == BytesOf(m, front + [b]) + data
            && BytesOf(m', more) == BytesOf(m, more)
  {
    var at, c := b.start + b.length, b.(length := b.length + |data|);
    var w := Write(m, b.store, at, data);
    LongerBytes(m, front, b, data);
    SameBytesKeep(w, m', front + [c]);
    BytesKept(w, m', front + [c]);
    FreeKeeps(m, b.store, at, data, m', more);
    BytesKept(m, m', more);
  }

  lemma FreeKeeps(m: seq<Block>, store: nat, at: nat, data: seq<byte>, m': seq<Block>, bufs: seq<IOBuf>)
    requires store < |m| && at + |data| <= |m[store].bytes| && AllApart(bufs, store, at, |data|)
    requires SameBytes(m', Write(m, store, at, data))
    ensures Kept(m, m', bufs)
  {
    ApartKeeps(m, store, at, data, bufs);
    SameBytesKeep(Write(m, store, at, data), m', bufs);
    KeptThrough(m, Write(m, store, at, data), m', bufs);
  }

  lemma PrependIsSound(m: seq<Block>, b: IOBuf, tail: seq<IOBuf>, held: seq<IOBuf>, data: seq<byte>)
    requires Sound(m, [] + [b] + (tail + held)) && Fits(m, b) && |data| <= b.start
    ensures Sound(Write(m, b.store, b.start - |data|, data), ([Earlier(b, |data|)] + tail) + held)
  {
    var c := Earlier(b, |data|);
    var m' := Write(m, b.store, b.start - |data|, data);
    MiddleFits(m, [], b, tail + held);
    ReplaceIsSound(m, m', [], b, c, tail + held);
    assert [] + [c] + (tail + held) == ([c] + tail) + held;
  }

  /** Of the `n` bytes before the first buffer's data, the IOBufs see none. */
  ghost predicate HeadroomIsFree(chain: seq<IOBuf>, n: nat, bufs: seq<IOBuf>)
    requires chain != []
  {
    n <= chain[0].start && AllApart(bufs, chain[0].store, chain[0].start - n, n)
  }

  lemma UnsharedHeadroomIsFree(m: seq<Block>, b: IOBuf, tail: seq<IOBuf>, held: seq<IOBuf>, n: nat)
    requires Sound(m, [] + [b] + (tail + held)) && Fits(m, b) && m[b.store].refs == 1 && n <= b.start
    ensures HeadroomIsFree([b] + tail, n, tail) && HeadroomIsFree([b] + tail, n, held)
  {
    OnlyUser(m, [], b, tail + held);
    assert forall i :: 0 <= i < |tail| ==> tail[i] == (tail + held)[i];
    assert forall i :: 0 <= i < |held| ==> held[i] == (tail + held)[|tail| + i];
  }

  lemma PrependWorks(m: seq<Block>, chain: seq<IOBuf>, held: seq<IOBuf>, data: seq<byte>)
    requires chain != [] && Sound(m, chain + held) && AllFit(m, chain) && |data| <= chain[0].start
    ensures var b := chain[0];
            var m', chain' := Write(m, b.store, b.start - |data|, data), [Earlier(b, |data|)] + chain[1..];
            && Sound(m', chain' + held) && AllFit(m', chain') && |BytesOf(m', chain')| == |BytesOf(m, chain)| + |data|
            && (HeadroomIsFree(chain, |data|, chain[1..]) ==> BytesOf(m', chain') == data + BytesOf(m, chain))
            && (HeadroomIsFree(chain, |data|, held) ==> Kept(m, m', held))
    ensures m[chain[0].store].refs == 1 ==>
              HeadroomIsFree(chain, |data|, chain[1..]) && HeadroomIsFree(chain, |data|, held)
  {
    var b, tail := chain[0], chain[1..];
    var m' := Write(m, b.store, b.start - |data|, data);
    assert chain == [b] + tail && chain + held == [] + [b] + (tail + held);
    PrependIsSound(m, b, tail, held, data);
    PrependSees(m, b, tail, data);
    TotalIs(m, tail);
    TotalIs(m', tail);
    if m[b.store].refs == 1 {
      UnsharedHeadroomIsFree(m, b, tail, held, |data|);
    }
    if HeadroomIsFree(chain, |data|, tail) {
      PrependAdds(m, b, tail, data);
    }
    if HeadroomIsFree(chain, |data|, held) {
      ApartKeeps(m, b.store, b.start - |data|, data, held);
    }
  }

  /** What prepending makes of the first buffer. */
  function Earlier(b: IOBuf, n: nat): IOBuf
    requires n <= b.start
  {
    b.(start := b.start - n, length := b.length + n)
  }

  lemma PrependSees(m: seq<Block>, b: IOBuf, tail: seq<IOBuf>, data: seq<byte>)
    requires Fits(m, b) && |data| <= b.start && AllFit(m, tail)
    ensures var c, m' := Earlier(b, |data|), Write(m, b.store, b.start - |data|, data);
            && AllFit(m', tail) && AllFit(m', [c] + tail) && AllFit(m, [b] + tail)
            && BytesOf(m, [b] + tail) == Content(m, b) + BytesOf(m, tail)
            && BytesOf(m', [c] + tail) == (data + Content(m, b)) + BytesOf(m', tail)
  {
    var c, m' := Earlier(b, |data|), Write(m, b.store, b.start - |data|, data);
    BytesSplit(m, [b], tail);
    BytesOne(m, b);
    BytesSplit(m', [c], tail);
    BytesOne(m', c);
    assert Content(m', c) == data + Content(m, b);
  }

  lemma PrependAdds(m: seq<Block>, b: IOBuf, tail: seq<IOBuf>, data: seq<byte>)
    requires Fits(m, b) && AllFit(m, tail) && HeadroomIsFree([b] + tail, |data|, tail)
    ensures var c, m' := Earlier(b, |data|), Write(m, b.store, b.start - |data|, data);
            && AllFit(m', [c] + tail) && AllFit(m, [b] + tail)
            && BytesOf(m', [c] + tail) == data + BytesOf(m, [b] + tail)
  {
    var m' := Write(m, b.store, b.start - |data|, data);
    PrependSees(m, b, tail, data);
    ApartKeeps(m, b.store, b.start - |data|, data, tail);
    BytesKept(m, m', tail);
    JoinAgain(data, Content(m, b), BytesOf(m, tail));
  }

  // ---------------------------------------------------------------- writes into shared blocks

  /** Whatever `n` bytes are written there, the IOBufs see no change. */
  ghost predicate Harmless(m: seq<Block>, store: nat, at: nat, n: nat, bufs: seq<IOBuf>)
    requires store < |m| && at + n <= |m[store].bytes|
  {
    forall data: seq<byte> :: |data| == n ==> Kept(m, Write(m, store, at, data), bufs)
  }

  /** A byte string that differs from what is there in every place. */
  function Different(bytes: seq<byte>): (d: seq<byte>)
    ensures |d| == |bytes| && forall i :: 0 <= i < |d| ==> d[i] != bytes[i]
  {
    seq(|bytes|, i requires 0 <= i < |bytes| => if bytes[i] == 0 then 1 else 0)
  }

  lemma OverlapHarms(m: seq<Block>, store: nat, at: nat, n: nat, bufs: seq<IOBuf>, i: nat)
    requires store < |m| && at + n <= |m[store].bytes| && i < |bufs| && Fits(m, bufs[i])
    requires !Apart(bufs[i], store, at, n)
    ensures !Harmless(m, store, at, n, bufs)
  {
    OverwriteShows(m, store, at, Different(m[store].bytes[at..at + n]), bufs[i]);
  }

  /** A write is harmless to IOBufs exactly if none of them reaches into the bytes that are written. */
  lemma HarmlessExactly(m: seq<Block>, store: nat, at: nat, n: nat, bufs: seq<IOBuf>)
    requires store < |m| && at + n <= |m[store].bytes| && AllFit(m, bufs)
    ensures Harmless(m, store, at, n, bufs) <==> AllApart(bufs, store, at, n)
  {
    if i :| 0 <= i < |bufs| && !Apart(bufs[i], store, at, n) {
      OverlapHarms(m, store, at, n, bufs, i);
    } else {
      forall data: seq<byte> | |data| == n ensures Kept(m, Write(m, store, at, data), bufs) {
        ApartKeeps(m, store, at, data, bufs);
      }
    }
  }

  lemma {:induction false} BytesTell(m: seq<Block>, m': seq<Block>, bufs: seq<IOBuf>)
    requires AllFit(m, bufs) && AllFit(m', bufs) && BytesOf(m', bufs) == BytesOf(m, bufs)
    ensures Kept(m, m', bufs)
  {
    if bufs != [] {
      PartsTell(Content(m, bufs[0]), BytesOf(m, bufs[1..]), Content(m', bufs[0]), BytesOf(m', bufs[1..]));
      BytesTell(m, m', bufs[1..]);
    }
  }

  lemma PartsTell(x: seq<byte>, y: seq<byte>, x': seq<byte>, y': seq<byte>)
    requires |x| == |x'| && x + y == x' + y'
    ensures x == x' && y == y'
  {
    assert (x + y)[..|x|] == x && (x + y)[|x|..] == y;
    assert (x' + y')[..|x|] == x' && (x' + y')[|x|..] == y';
  }

  /** Prepending any `n` bytes puts them before the bytes of the chain. */
  ghost predicate PrependIsRight(m: seq<Block>, b: IOBuf, tail: seq<IOBuf>, n: nat)
    requires Fits(m, b) && AllFit(m, tail) && n <= b.start
  {
    forall data: seq<byte> | |data| == n ::
      PrependSees(m, b, tail, data);
      BytesOf(Write(m, b.store, b.start - n, data), [Earlier(b, n)] + tail) == data + BytesOf(m, [b] + tail)
  }

  /**
    prepend does not look at the reference count: it is right whatever the data exactly if no
    other buffer of the chain reaches into the room before the first.
  */
  lemma PrependExactly(m: seq<Block>, b: IOBuf, tail: seq<IOBuf>, n: nat)
    requires Fits(m, b) && AllFit(m, tail) && n <= b.start
    ensures PrependIsRight(m, b, tail, n) <==> AllApart(tail, b.store, b.start - n, n)
  {
    HarmlessExactly(m, b.store, b.start - n, n, tail);
    if AllApart(tail, b.store, b.start - n, n) {
      forall data: seq<byte> | |data| == n
        ensures (PrependSees(m, b, tail, data);
                 BytesOf(Write(m, b.store, b.start - n, data), [Earlier(b, n)] + tail) == data + BytesOf(m, [b] + tail))
      {
        PrependAdds(m, b, tail, data);
      }
    }
    if PrependIsRight(m, b, tail, n) {
      forall data: seq<byte> | |data| == n ensures Kept(m, Write(m, b.store, b.start - n, data), tail) {
        PrependSees(m, b, tail, data);
        var m' := Write(m, b.store, b.start - n, data);
        JoinAgain(data, Content(m, b), BytesOf(m, tail));
        PartsTell(data + Content(m, b), BytesOf(m', tail), data + Content(m, b), BytesOf(m, tail));
        BytesTell(m, m', tail);
      }
    }
  }

  /** Whatever the room behind `b` held before, copying the buffers there changes nothing for the IOBufs. */
  ghost predicate CopyIsHarmless(m: seq<Block>, b: IOBuf, src: seq<IOBuf>, bufs: seq<IOBuf>)
    requires Fits(m, b) && AllFit(m, src) && Total(src) <= RoomBehind(m, b)
  {
    forall room: seq<byte> | |room| == Total(src) ::
      var m0 := Write(m, b.store, b.start + b.length, room);
      Kept(m0, Copied(m0, b, src), bufs)
  }

  /**
    Packing does not look at the reference count either: buffers that do not themselves reach
    into the room are packed harmlessly exactly if nobody reaches into it.
  */
  lemma PackExactly(m: seq<Block>, b: IOBuf, src: seq<IOBuf>, bufs: seq<IOBuf>)
    requires Fits(m, b) && AllFit(m, src) && Total(src) <= RoomBehind(m, b) && AllFit(m, bufs)
    requires AllApart(src, b.store, b.start + b.length, Total(src))
    ensures CopyIsHarmless(m, b, src, bufs) <==> AllApart(bufs, b.store, b.start + b.length, Total(src))
  {
    if AllApart(bufs, b.store, b.start + b.length, Total(src)) {
      PackApartKeeps(m, b, src, bufs);
    } else {
      var i :| 0 <= i < |bufs| && !Apart(bufs[i], b.store, b.start + b.length, Total(src));
      PackOverlapHarms(m, b, src, bufs, i);
    }
  }

  lemma PackApartKeeps(m: seq<Block>, b: IOBuf, src: seq<IOBuf>, bufs: seq<IOBuf>)
    requires Fits(m, b) && AllFit(m, src) && Total(src) <= RoomBehind(m, b)
    requires AllApart(bufs, b.store, b.start + b.length, Total(src))
    ensures CopyIsHarmless(m, b, src, bufs)
  {
    forall room: seq<byte> | |room| == Total(src)
      ensures var m0 := Write(m, b.store, b.start + b.length, room); Kept(m0, Copied(m0, b, src), bufs)
    {
      var m0 := Write(m, b.store, b.start + b.length, room);
      CopyingKeeps(m0, b, src, Copied(m0, b, src), bufs);
    }
  }

  lemma PackOverlapHarms(m: seq<Block>, b: IOBuf, src: seq<IOBuf>, bufs: seq<IOBuf>, i: nat)
    requires Fits(m, b) && AllFit(m, src) && Total(src) <= RoomBehind(m, b) && i < |bufs| && Fits(m, bufs[i])
    requires AllApart(src, b.store, b.start + b.length, Total(src))
    requires !Apart(bufs[i], b.store, b.start + b.length, Total(src))
    ensures !CopyIsHarmless(m, b, src, bufs)
  {
    var at, data := b.start + b.length, BytesOf(m, src);
    TotalIs(m, src);
    var room := Different(data);
    var m0 := Write(m, b.store, at, room);
    assert BytesOf(m0, src) == data by {
      ApartKeeps(m, b.store, at, room, src);
      BytesKept(m, m0, src);
    }
    assert Copied(m0, b, src) == Write(m0, b.store, at, data) by {
      CopiedIsBytes(m0, b, src);
    }
    assert Content(Copied(m0, b, src), bufs[i]) != Content(m0, bufs[i]) by {
      WriteReads(m, b.store, at, room);
      OverwriteShows(m0, b.store, at, data, bufs[i]);
    }
  }

  lemma WriteReads(m: seq<Block>, store: nat, at: nat, data: seq<byte>)
    requires store < |m| && at + |data| <= |m[store].bytes|
    ensures forall k :: 0 <= k < |data| ==> Write(m, store, at, data)[store].bytes[at + k] == data[k]
  {
  }

  lemma OverwriteShows(m: seq<Block>, store: nat, at: nat, data: seq<byte>, b: IOBuf)
    requires store < |m| && at + |data| <= |m[store].bytes| && Fits(m, b) && !Apart(b, store, at, |data|)
    requires forall k :: 0 <= k < |data| ==> m[store].bytes[at + k] != data[k]
    ensures Content(Write(m, store, at, data), b) != Content(m, b)
  {
    var m' := Write(m, store, at, data);
    var k := Greatest(b.start, at) - at;
    assert Content(m, b)[at + k - b.start] == m[store].bytes[at + k];
    assert Content(m', b)[at + k - b.start] == m'[store].bytes[at + k] == data[k];
  }

  /** So prepending to a buffer that split has just cut in two overwrites the part that was handed out. */
  lemma PrependAfterSplitHarms(m: seq<Block>, b: IOBuf, n: nat, k: nat)
    requires Fits(m, b) && 1 <= k <= n < b.length
    ensures !Harmless(m, b.store, Tail(b, n).start - k, k, [Head(b, n)])
  {
    OverlapHarms(m, b.store, Tail(b, n).start - k, k, [Head(b, n)], 0);
  }

  /**
    Packing behind the part that stays is harmless to the part that was handed out; packing
    behind the part that was handed out overwrites the one that stays.
  */
  lemma PackAfterSplit(m: seq<Block>, b: IOBuf, n: nat, k: nat)
    requires Fits(m, b) && n < b.length && 1 <= k
    ensures k <= RoomBehind(m, b) ==> Harmless(m, b.store, Tail(b, n).start + Tail(b, n).length, k, [Head(b, n)])
    ensures k <= RoomBehind(m, Head(b, n)) ==>
              !Harmless(m, b.store, Head(b, n).start + Head(b, n).length, k, [Tail(b, n)])
  {
    var head, tail := Head(b, n), Tail(b, n);
    if k <= RoomBehind(m, b) {
      assert AllApart([head], b.store, tail.start + tail.length, k);
      HarmlessExactly(m, b.store, tail.start + tail.length, k, [head]);
    }
    if k <= RoomBehind(m, head) {
      assert Fits(m, [tail][0]) && !Apart([tail][0], b.store, head.start + head.length, k);
      OverlapHarms(m, b.store, head.start + head.length, k, [tail], 0);
    }
  }

  lemma CountThree(a: IOBuf, b: IOBuf, c: IOBuf, store: nat)
    ensures Count([a, b, c], store) == (if a.store == store then 1 else 0)
            + (if b.store == store then 1 else 0) + (if c.store == store then 1 else 0)
  {
    assert [a, b, c] == [a, b] + [c] && [a, b] == [a] + [b];
    CountSplit([a, b], [c], store);
    CountSplit([a], [b], store);
    CountOne(a, store);
    CountOne(b, store);
    CountOne(c, store);
  }

  lemma CopiedOne(m: seq<Block>, b: IOBuf, c: IOBuf)
    requires Fits(m, b) && Fits(m, c) && c.length <= RoomBehind(m, b)
    ensures Total([c]) == c.length && AllFit(m, [c])
    ensures Copied(m, b, [c]) == Write(m, b.store, b.start + b.length, Content(m, c))
  {
    assert [c][1..] == [];
  }

  lemma ContentSplit(m: seq<Block>, b: IOBuf, n: nat)
    requires Fits(m, b) && n <= b.length
    ensures Fits(m, Head(b, n)) && Fits(m, Tail(b, n))
    ensures Content(m, b) == Content(m, Head(b, n)) + Content(m, Tail(b, n))
  {
  }

  /** Cutting the first buffer in two at `n`, its block counted once more, cuts the chain's bytes there. */
  lemma CloneHeadBytes(m: seq<Block>, chain: seq<IOBuf>, n: nat)
    requires chain != [] && AllFit(m, chain) && n <= chain[0].length
    ensures var m' := Retain(m, chain[0].store);
            var c, rest := Head(chain[0], n), [Tail(chain[0], n)] + chain[1..];
            && Fits(m', c) && AllFit(m', rest) && n <= |BytesOf(m, chain)|
            && Content(m', c) == BytesOf(m, chain)[..n]
            && BytesOf(m', rest) == BytesOf(m, chain)[n..]
  {
    var b := chain[0];
    var c, d, tail := Head(b, n), Tail(b, n), chain[1..];
    ContentSplit(m, b, n);
    BytesFront(m, chain);
    BytesSplit(m, [d], tail);
    BytesOne(m, d);
    CutAt(Content(m, c), Content(m, d), BytesOf(m, tail));
    CountsKeep(m, b.store, m[b.store].refs + 1, [c]);
    CountsKeep(m, b.store, m[b.store].refs + 1, [d] + tail);
    BytesKept(m, Retain(m, b.store), [d] + tail);
    assert [c][0] == c;
  }

  lemma CutAt(x: seq<byte>, y: seq<byte>, z: seq<byte>)
    ensures ((x + y) + z)[..|x|] == x && ((x + y) + z)[|x|..] == y + z
  {
  }

  lemma BytesFront(m: seq<Block>, bufs: seq<IOBuf>)
    requires bufs != [] && AllFit(m, bufs)
    ensures BytesOf(m, bufs) == Content(m, bufs[0]) + BytesOf(m, bufs[1..])
  {
  }

  lemma SoundFits(m: seq<Block>, a: seq<IOBuf>, b: seq<IOBuf>)
    requires Sound(m, a + b)
    ensures AllFit(m, a) && AllFit(m, b)
  {
    forall i | 0 <= i < |a| ensures Fits(m, a[i]) {
      assert (a + b)[i] == a[i];
    }
    forall i | 0 <= i < |b| ensures Fits(m, b[i]) {
      assert (a + b)[|a| + i] == b[i];
    }
  }

  /** Counting references moves no bytes. */
  lemma CountsKeep(m: seq<Block>, store: nat, refs: nat, bufs: seq<IOBuf>)
    requires store < |m|
    ensures Kept(m, m[store := m[store].(refs := refs)], bufs)
  {
  }

  lemma KeptThrough(m: seq<Block>, m1: seq<Block>, m2: seq<Block>, bufs: seq<IOBuf>)
    requires Kept(m, m1, bufs) && Kept(m1, m2, bufs)
    ensures Kept(m, m2, bufs)
  {
  }

  lemma BytesEnd(m: seq<Block>, front: seq<IOBuf>, last: IOBuf)
    requires AllFit(m, front) && Fits(m, last)
    ensures AllFit(m, front + [last])
    ensures BytesOf(m, front + [last]) == BytesOf(m, front) + Content(m, last)
  {
    BytesSplit(m, front, [last]);
    BytesOne(m, last);
  }

  lemma KeptParts(m: seq<Block>, m': seq<Block>, a: seq<IOBuf>, b: seq<IOBuf>)
    requires Kept(m, m', a + b)
    ensures Kept(m, m', a) && Kept(m, m', b)
  {
    forall i | 0 <= i < |a| ensures a[i] == (a + b)[i] {
    }
    forall i | 0 <= i < |b| ensures b[i] == (a + b)[|a| + i] {
    }
  }

  // ---------------------------------------------------------------- the queue

  class IOBufQueue {
    /** The memory that the IOBufs of the whole program live in. */
    var memory: seq<Block>
    var chain: seq<IOBuf>
    var chainLength: nat

    /** The IOBufs that the rest of the program holds, those handed out by this queue among them. */
    ghost var outside: seq<IOBuf>

    ghost predicate Linked()
      reads this
    {
      Sound(memory, chain + outside) && AllFit(memory, chain) && AllFit(memory, outside)
    }

    ghost predicate Valid()
      reads this
    {
      Linked() && chainLength == |BytesOf(memory, chain)|
    }

    ghost function Contents(): seq<byte>
      requires Valid()
      reads this
    {
      BytesOf(memory, chain)
    }

    constructor (m: seq<Block>, ghost held: seq<IOBuf>)
      requires Sound(m, held)
      ensures Valid() && chain == [] && memory == m && outside == held
    {
      memory, chain, chainLength, outside := m, [], 0, held;
      new;
      assert chain + outside == held;
    }

    /** appendToChain of a new buffer. */
    method AddBlock(capacity: nat)
      requires Valid()
      modifies this
      ensures Valid() && Contents() == old(Contents())
      ensures outside == old(outside) && Kept(old(memory), memory, outside)
      ensures |memory| == |old(memory)| + 1 && chain == old(chain) + [IOBuf(|old(memory)|, 0, 0, false)]
      ensures memory[|memory| - 1].refs == 1 && |memory[|memory| - 1].bytes| == capacity
    {
      var b := IOBuf(|memory|, 0, 0, false);
      AllocateIsSound(memory, chain, outside, capacity);
      ghost var was := memory;
      memory := Allocate(memory, capacity);
      KeptParts(was, memory, chain, outside);
      BytesKept(was, memory, chain);
      BytesKept(was, memory, outside);
      BytesSplit(memory, chain, [b]);
      BytesOne(memory, b);
      assert BytesOf(memory, chain) + [] == BytesOf(memory, chain);
      chain := chain + [b];
    }

    /** memcpy behind the last buffer's data, which is then that much longer. */
    method WriteTail(data: seq<byte>)
      requires Valid() && chain != []
      requires var last := chain[|chain| - 1];
               memory[last.store].refs == 1 && last.start + last.length + |data| <= |memory[last.store].bytes|
      modifies this
      ensures Valid() && Contents() == old(Contents()) + data
      ensures outside == old(outside) && Kept(old(memory), memory, outside)
      ensures chain != []
    {
      var front, last := chain[..|chain| - 1], chain[|chain| - 1];
      assert chain == front + [last];
      WriteBehind(memory, front, last, outside, data);
      MiddleFits(memory, front, last, outside);
      memory := Write(memory, last.store, last.start + last.length, data);
      chain := front + [last.(length := last.length + |data|)];
      chainLength := chainLength + |data|;
      SoundFits(memory, chain, outside);
    }

    /** isSharedOne on the last buffer, which forgets a flag that turns out to be out of date. */
    method TailIsShared() returns (shared: bool)
      requires Valid() && chain != []
      modifies this`chain
      ensures Valid() && Contents() == old(Contents()) && chain != []
      ensures var last := old(chain[|chain| - 1]);
              && chain[|chain| - 1] == last.(maybeShared := chain[|chain| - 1].maybeShared)
              && shared == (memory[last.store].refs > 1)
    {
      var front, last := chain[..|chain| - 1], chain[|chain| - 1];
      assert chain == front + [last];
      MiddleFits(memory, front, last, outside);
      if !last.maybeShared {
        return false;
      }
      shared := memory[last.store].refs > 1;
      if !shared {
        var plain := last.(maybeShared := false);
        ReplaceIsSound(memory, memory, front, last, plain, outside);
        BytesEnd(memory, front, last);
        BytesEnd(memory, front, plain);
        chain := front + [plain];
      }
    }

    /** Makes sure that the last buffer can be written to; a new one may be larger than asked for. */
    method Room(len: nat) returns (room: nat)
      requires Valid() && len > 0
      modifies this
      ensures Valid() && Contents() == old(Contents())
      ensures outside == old(outside) && Kept(old(memory), memory, outside)
      ensures chain != [] && room > 0
      ensures var last := chain[|chain| - 1];
              memory[last.store].refs == 1 && last.start + last.length + room == |memory[last.store].bytes|
    {
      var full := true;
      if chain != [] {
        var shared := TailIsShared();
        assert chain == chain[..|chain| - 1] + [chain[|chain| - 1]];
        MiddleFits(memory, chain[..|chain| - 1], chain[|chain| - 1], outside);
        var last := chain[|chain| - 1];
        full := shared || last.start + last.length == |memory[last.store].bytes|;
      }
      if full {
        var wanted := Greatest(MIN_ALLOC_SIZE, Least(len, MAX_ALLOC_SIZE));
        var capacity :| capacity >= wanted;
        AddBlock(capacity);
      }
      var last := chain[|chain| - 1];
      room := |memory[last.store].bytes| - last.start - last.length;
    }

    /** append(buf, len): the bytes are added, and no IOBuf outside sees a change. */
    method Append(data: seq<byte>)
      requires Valid()
      modifies this
      ensures Valid() && Contents() == old(Contents()) + data
      ensures outside == old(outside) && Kept(old(memory), memory, outside)
    {
      var i := 0;
      assert old(Contents()) + data[..0] == old(Contents());
      while i < |data|
        invariant 0 <= i <= |data| && Valid()
        invariant Contents() == old(Contents()) + data[..i]
        invariant outside == old(outside) && Kept(old(memory), memory, outside)
      {
        ghost var m0 := memory;
        var room := Room(|data| - i);
        ghost var m1 := memory;
        var n := Least(|data| - i, room);
        WriteTail(data[i..i + n]);
        KeptThrough(m0, m1, memory, outside);
        KeptThrough(old(memory), m0, memory, outside);
        assert data[..i] + data[i..i + n] == data[..i + n];
        i := i + n;
      }
      assert data[..i] == data;
    }

    /** Takes the first buffer off the chain, for the caller to keep. */
    method TakeHead() returns (b: IOBuf)
      requires Valid() && chain != []
      modifies this`chain, this`chainLength, this`outside
      ensures Valid() && b == old(chain[0]) && chain == old(chain[1..]) && outside == old(outside) + [b]
      ensures Fits(memory, b) && old(Contents()) == Content(memory, b) + Contents()
    {
      b := chain[0];
      assert chain + outside == [b] + (chain[1..] + outside);
      SoundMoved(memory, [b], chain[1..], outside);
      BytesFront(memory, chain);
      chainLength := chainLength - b.length;
      chain, outside := chain[1..], outside + [b];
      SoundFits(memory, chain, outside);
    }

    /** pop_front() */
    method PopFront() returns (r: seq<IOBuf>)
      requires Valid()
      modifies this`chain, this`chainLength, this`outside
      ensures Valid() && r == old(if chain == [] then [] else [chain[0]]) && outside == old(outside) + r
      ensures AllFit(memory, r) && old(Contents()) == BytesOf(memory, r) + Contents()
    {
      if chain == [] {
        r := [];
        assert outside + r == outside && [] + Contents() == Contents();
      } else {
        var b := TakeHead();
        BytesOne(memory, b);
        r := [b];
      }
    }

    /** The first `n` bytes of the first buffer, as a clone that shares its block. */
    method CloneHead(n: nat) returns (c: IOBuf)
      requires Valid() && chain != [] && n < chain[0].length
      modifies this
      ensures Valid() && outside == old(outside) + [c]
      ensures Fits(memory, c) && Content(memory, c) == old(Contents())[..n]
      ensures n <= |old(Contents())| && Contents() == old(Contents())[n..]
      ensures Kept(old(memory), memory, old(outside))
    {
      CloneHeadIsSound(memory, chain, outside, n);
      CloneHeadBytes(memory, chain, n);
      var b := chain[0];
      c := Head(b, n);
      CountsKeep(memory, b.store, memory[b.store].refs + 1, outside);
      memory := Retain(memory, b.store);
      chain, outside := [Tail(b, n)] + chain[1..], outside + [c];
      chainLength := chainLength - n;
      SoundFits(memory, chain, outside);
    }

    /** The first buffer is destroyed. */
    method DropHead()
      requires Valid() && chain != []
      modifies this
      ensures Valid() && chain == old(chain[1..]) && outside == old(outside)
      ensures chain == old(chain)[1..] && old(chain[0].length) <= |old(Contents())|
      ensures Contents() == old(Contents())[old(chain[0].length)..]
      ensures Kept(old(memory), memory, outside)
    {
      var b := chain[0];
      ghost var was := memory;
      var tail := chain[1..];
      assert chain + outside == [] + [b] + (tail + outside);
      DropIsSound(memory, [], b, tail + outside);
      BytesFront(memory, chain);
      memory := Release(memory, b.store);
      CountsKeep(was, b.store, was[b.store].refs - 1, tail + outside);
      KeptParts(was, memory, tail, outside);
      assert [] + (tail + outside) == tail + outside;
      chainLength := chainLength - b.length;
      chain := tail;
      BytesKept(was, memory, tail);
      BytesKept(was, memory, outside);
    }

    /** The rest of the program destroys one of its IOBufs. */
    method Discard(b: IOBuf, ghost front: seq<IOBuf>, ghost back: seq<IOBuf>)
      requires Valid() && outside == front + [b] + back
      modifies this`memory, this`outside
      ensures Valid() && Contents() == old(Contents()) && outside == front + back
      ensures Kept(old(memory), memory, front + back)
    {
      assert chain + outside == (chain + front) + [b] + back;
      DropIsSound(memory, chain + front, b, back);
      assert (chain + front) + back == chain + (front + back);
      ghost var was := memory;
      memory := Release(memory, b.store);
      CountsKeep(was, b.store, was[b.store].refs - 1, chain);
      CountsKeep(was, b.store, was[b.store].refs - 1, front + back);
      BytesKept(was, memory, chain);
      outside := front + back;
      SoundFits(memory, chain, outside);
    }

    method DiscardAll(bufs: seq<IOBuf>, ghost rest: seq<IOBuf>)
      requires Valid() && outside == rest + bufs
      modifies this`memory, this`outside
      ensures Valid() && Contents() == old(Contents()) && outside == rest
      ensures Kept(old(memory), memory, rest)
    {
      var i := |bufs|;
      assert bufs[..i] == bufs;
      while i > 0
        invariant 0 <= i <= |bufs| && Valid() && Contents() == old(Contents())
        invariant outside == rest + bufs[..i]
        invariant Kept(old(memory), memory, rest)
      {
        i := i - 1;
        ghost var m := memory;
        assert rest + bufs[..i + 1] == (rest + bufs[..i]) + [bufs[i]] + [];
        Discard(bufs[i], rest + bufs[..i], []);
        assert outside == rest + bufs[..i];
        KeptParts(m, memory, rest, bufs[..i]);
        KeptThrough(old(memory), m, memory, rest);
      }
      assert rest + bufs[..0] == rest;
    }

    /**
      split(n): hands out exactly the first n bytes and keeps the rest.  If there are not that
      many it throws, and the bytes it had taken off by then are gone.
    */
    method Split(n: nat) returns (ok: bool, result: seq<IOBuf>)
      requires Valid()
      modifies this
      ensures Valid() && ok == (n <= |old(Contents())|)
      ensures outside == old(outside) + result && AllFit(memory, result)
      ensures ok ==> BytesOf(memory, result) == old(Contents())[..n] && Contents() == old(Contents())[n..]
      ensures !ok ==> result == [] && chain == []
      ensures Kept(old(memory), memory, old(outside))
    {
      ghost var all := Contents();
      var left: nat := n;
      result, ok := [], true;
      while left != 0
        invariant Valid() && memory == old(memory) && left <= n
        invariant outside == old(outside) + result && AllFit(memory, result)
        invariant Joined(memory, result, chain) == all && |BytesOf(memory, result)| + left == n
        decreases left, |chain|
      {
        if chain == [] {
          DiscardAll(result, old(outside));
          result, ok := [], false;
          return;
        }
        if chain[0].length > left {
          result := SplitHead(left, result, old(outside));
          return;
        }
        left := left - chain[0].length;
        result := MoveHead(result, old(outside));
      }
    }

    /** Any other turn, which takes a whole buffer over. */
    method MoveHead(taken: seq<IOBuf>, ghost rest: seq<IOBuf>) returns (result: seq<IOBuf>)
      requires Valid() && chain != [] && outside == rest + taken && AllFit(memory, taken)
      modifies this`chain, this`chainLength, this`outside
      ensures Valid() && chain == old(chain[1..]) && outside == rest + result && AllFit(memory, result)
      ensures Joined(memory, result, chain) == old(Joined(memory, taken, chain))
      ensures |BytesOf(memory, result)| == |BytesOf(memory, taken)| + old(chain[0].length)
    {
      var b := TakeHead();
      BytesEnd(memory, taken, b);
      result := taken + [b];
      assert (BytesOf(memory, taken) + Content(memory, b)) + Contents()
          == BytesOf(memory, taken) + (Content(memory, b) + Contents());
      assert (rest + taken) + [b] == rest + result;
    }

    /** The last turn of the loop of split, which cuts a buffer in two. */
    method SplitHead(n: nat, taken: seq<IOBuf>, ghost rest: seq<IOBuf>) returns (result: seq<IOBuf>)
      requires Valid() && chain != [] && n < chain[0].length && outside == rest + taken && AllFit(memory, taken)
      modifies this
      ensures Valid() && outside == rest + result && AllFit(memory, result)
      ensures n <= |old(Contents())| && Contents() == old(Contents())[n..]
      ensures BytesOf(memory, result) == old(BytesOf(memory, taken)) + old(Contents())[..n]
      ensures Kept(old(memory), memory, rest)
    {
      ghost var was := memory;
      var c := CloneHead(n);
      KeptParts(was, memory, rest, taken);
      BytesKept(was, memory, taken);
      BytesEnd(memory, taken, c);
      result := taken + [c];
      assert (rest + taken) + [c] == rest + result;
    }

    /** One buffer of the chain is narrowed to a part of what it sees. */
    method Narrow(k: nat, c: IOBuf)
      requires Valid() && k < |chain| && Narrowed(chain[k], c)
      modifies this`chain, this`chainLength
      ensures Sound(memory, chain + outside) && AllFit(memory, chain) && chain == old(chain)[k := c]
      ensures chainLength == old(chainLength) - (old(chain[k].length) - c.length)
    {
      var b := chain[k];
      assert chain + outside == chain[..k] + [b] + (chain[k + 1..] + outside);
      MiddleFits(memory, chain[..k], b, chain[k + 1..] + outside);
      ReplaceIsSound(memory, memory, chain[..k], b, c, chain[k + 1..] + outside);
      BytesLong(memory, chain, k);
      chainLength := chainLength - (b.length - c.length);
      assert chain[k := c] + outside == chain[..k] + [c] + (chain[k + 1..] + outside);
      chain := chain[k := c];
      SoundFits(memory, chain, outside);
    }

    /** trimStart(amount): exactly the first `amount` bytes go, or everything and an exception. */
    method TrimStart(amount: nat) returns (ok: bool)
      requires Valid()
      modifies this
      ensures Valid() && ok == (amount <= |old(Contents())|)
      ensures ok ==> Contents() == old(Contents())[amount..]
      ensures !ok ==> chain == []
      ensures outside == old(outside) && Kept(old(memory), memory, outside)
    {
      ghost var all := Contents();
      var left: nat := amount;
      ok := true;
      while left > 0
        invariant Valid() && left <= amount && amount - left <= |all|
        invariant Contents() == all[amount - left..]
        invariant outside == old(outside) && Kept(old(memory), memory, outside)
        decreases left, |chain|
      {
        if chain == [] {
          return false;
        }
        if chain[0].length > left {
          var b := chain[0];
          BytesFront(memory, chain);
          Narrow(0, b.(start := b.start + left, length := b.length - left));
          BytesFront(memory, chain);
          return;
        }
        ghost var m := memory;
        left := left - chain[0].length;
        DropHead();
        KeptThrough(old(memory), m, memory, outside);
      }
    }

    /** The last buffer is unlinked and destroyed. */
    method DropTail()
      requires Valid() && chain != []
      modifies this
      ensures Valid() && chain == old(chain[..|chain| - 1]) && outside == old(outside)
      ensures var n := old(chain[|chain| - 1].length);
              n <= |old(Contents())| && Contents() == old(Contents())[..|old(Contents())| - n]
      ensures Kept(old(memory), memory, outside)
    {
      var front, b := chain[..|chain| - 1], chain[|chain| - 1];
      ghost var was := memory;
      assert chain == front + [b];
      DropIsSound(memory, front, b, outside);
      MiddleFits(memory, front, b, outside);
      BytesEnd(memory, front, b);
      memory := Release(memory, b.store);
      CountsKeep(was, b.store, was[b.store].refs - 1, front);
      CountsKeep(was, b.store, was[b.store].refs - 1, outside);
      chainLength := chainLength - b.length;
      chain := front;
      BytesKept(was, memory, front);
      BytesKept(was, memory, outside);
    }

    /** trimEnd(amount): exactly the last `amount` bytes go, or everything and an exception. */
    method TrimEnd(amount: nat) returns (ok: bool)
      requires Valid()
      modifies this
      ensures Valid() && ok == (amount <= |old(Contents())|)
      ensures ok ==> Contents() == old(Contents())[..|old(Contents())| - amount]
      ensures !ok ==> chain == []
      ensures outside == old(outside) && Kept(old(memory), memory, outside)
    {
      ghost var all := Contents();
      var left: nat := amount;
      ok := true;
      while left > 0
        invariant Valid() && left <= amount && amount - left <= |all|
        invariant Contents() == all[..|all| - (amount - left)]
        invariant outside == old(outside) && Kept(old(memory), memory, outside)
        decreases left, |chain|
      {
        if chain == [] {
          return false;
        }
        var k := |chain| - 1;
        if chain[k].length > left {
          TrimTail(left);
          return;
        }
        ghost var m := memory;
        left := left - chain[k].length;
        DropTail();
        KeptThrough(old(memory), m, memory, outside);
      }
    }

    method TrimTail(n: nat)
      requires Valid() && chain != [] && n <= chain[|chain| - 1].length
      modifies this`chain, this`chainLength
      ensures Valid() && n <= |old(Contents())| && Contents() == old(Contents())[..|old(Contents())| - n]
    {
      var k := |chain| - 1;
      var b := chain[k];
      ghost var front := chain[..k];
      assert chain == front + [b];
      TrimmedBytes(memory, front, b, n);
      Narrow(k, b.(length := b.length - n));
      assert chain == front + [b.(length := b.length - n)];
    }

    /** clear(): the buffers stay, empty and from their beginning. */
    method Clear()
      requires Valid()
      modifies this`chain, this`chainLength
      ensures Valid() && Contents() == [] && |chain| == |old(chain)|
      ensures forall j :: 0 <= j < |chain| ==> chain[j] == old(chain)[j].(start := 0, length := 0)
    {
      if chain == [] {
        return;
      }
      var k := 0;
      while k < |chain|
        invariant 0 <= k <= |chain| == |old(chain)|
        invariant Sound(memory, chain + outside) && AllFit(memory, chain) && chainLength == |BytesOf(memory, chain)|
        invariant forall j :: 0 <= j < k ==> chain[j] == old(chain)[j].(start := 0, length := 0)
        invariant forall j :: k <= j < |chain| ==> chain[j] == old(chain)[j]
      {
        ghost var was := chain;
        Narrow(k, chain[k].(start := 0, length := 0));
        LengthNarrowed(memory, was, k, chain[k]);
        k := k + 1;
      }
      EmptyBytes(memory, chain);
      chainLength := 0;
    }

    /** move(): the whole chain is handed out. */
    method MoveOut() returns (r: seq<IOBuf>)
      requires Valid()
      modifies this`chain, this`chainLength, this`outside
      ensures Valid() && Contents() == [] && r == old(chain) && outside == old(outside) + r
      ensures AllFit(memory, r) && BytesOf(memory, r) == old(Contents())
    {
      assert chain + outside == chain + ([] + outside);
      SoundMoved(memory, chain, [], outside);
      r := chain;
      chain, chainLength, outside := [], 0, outside + chain;
      SoundFits(memory, [], outside);
    }

    /** The last buffer has its block to itself. */
    ghost predicate TailUnshared()
      requires Linked() && chain != []
      reads this
    {
      memory[chain[|chain| - 1].store].refs == 1
    }

    /** One turn of the packing loop: the next buffer is copied behind the last one and destroyed. */
    method PackOne(more: seq<IOBuf>, ghost rest: seq<IOBuf>)
      requires Linked() && chain != [] && more != [] && outside == rest + more && AllFit(memory, more)
      requires more[0].length <= TailRoom()
      modifies this`memory, this`chain, this`outside
      ensures Linked() && outside == rest + more[1..] && AllFit(memory, more[1..])
      ensures chain == Longer(old(chain), more[0].length)
      ensures old(memory[more[0].store].refs) > 0
      ensures memory == old(Packed(memory, chain[|chain| - 1], Content(memory, more[0]), more[0].store))
    {
      var front, last := chain[..|chain| - 1], chain[|chain| - 1];
      assert chain == front + [last];
      PackIsSound(memory, front, last, rest, more);
      var packed := Packed(memory, last, Content(memory, more[0]), more[0].store);
      SoundFits(packed, Longer(chain, more[0].length), rest + more[1..]);
      AllFitParts(packed, rest, more[1..]);
      memory, chain, outside := packed, Longer(chain, more[0].length), rest + more[1..];
    }

    /** The packing loop of appendToChain, which copies the first buffers and leaves `more`. */
    method Pack(src: seq<IOBuf>, ghost rest: seq<IOBuf>) returns (more: seq<IOBuf>)
      requires Linked() && chain != [] && outside == rest + src && AllFit(memory, src)
      modifies this`memory, this`chain, this`outside
      ensures Linked() && outside == rest + more && AllFit(memory, more)
      ensures PackedTo(old(memory), old(chain), src, MAX_PACK_COPY, memory, chain, more)
    {
      ghost var k := PackCount(src, MAX_PACK_COPY, TailRoom());
      ghost var m, c, l := Copied(memory, chain[|chain| - 1], src[..k]), Longer(chain, Total(src[..k])), src[k..];
      more := src;
      var copyRemaining: nat := MAX_PACK_COPY;
      while more != [] && more[0].length < copyRemaining && more[0].length < TailRoom()
        invariant Linked() && chain != [] && outside == rest + more && AllFit(memory, more)
        invariant PackedTo(memory, chain, more, copyRemaining, m, c, l)
        decreases |more|
      {
        ghost var m0, c0 := memory, chain;
        PackOne(more, rest);
        PackStep(m0, c0, more, copyRemaining, m, c, l);
        copyRemaining := copyRemaining - more[0].length;
        more := more[1..];
      }
      assert more[..0] == [] && more[0..] == more && Longer(chain, 0) == chain;
    }

    /** appendToChain: the buffers are linked in, with `pack` as many as fit copied instead. */
    method AppendToChain(src: seq<IOBuf>, pack: bool, ghost rest: seq<IOBuf>)
      requires Linked() && outside == rest + src && AllFit(memory, src)
      modifies this`memory, this`chain, this`outside
      ensures Linked() && outside == rest && Total(chain) == old(Total(chain)) + Total(src)
      ensures Appended(old(memory), old(chain), src, pack, memory, chain)
    {
      var more := src;
      if chain != [] && pack {
        more := Pack(src, rest);
        TotalPacked(old(chain), src, |src| - |more|);
      }
      Link(more, rest);
    }

    /**
      append(buf, pack): the buffers `src`, so far held outside, join the chain; with `pack`,
      the first ones are copied behind the last buffer instead, shared or not.  The bytes are
      added and nobody sees a change if no IOBuf reaches into the room that is written.
    */
    method AppendChain(src: seq<IOBuf>, pack: bool, ghost rest: seq<IOBuf>)
      requires Valid() && outside == rest + src && AllFit(memory, src)
      modifies this
      ensures Valid() && outside == rest
      ensures Appended(old(memory), old(chain), src, pack, memory, chain)
      ensures old(!pack || chain == [] || TailUnshared() || RoomIsFree(memory, chain, src, rest)) ==>
                Contents() == old(Contents()) + old(BytesOf(memory, src)) && Kept(old(memory), memory, rest)
    {
      TotalIs(memory, chain);
      TotalIs(memory, src);
      if chain != [] && TailUnshared() {
        UnsharedRoomIsFree(memory, chain, src, rest);
      }
      chainLength := chainLength + |BytesOf(memory, src)|;
      AppendToChain(src, pack, rest);
      TotalIs(memory, chain);
      if old(!pack || chain == [] || RoomIsFree(memory, chain, src, rest)) {
        AppendedAdds(old(memory), old(chain), src, pack, rest, memory, chain);
      }
    }

    /** The buffers are linked in behind the last one. */
    method Link(more: seq<IOBuf>, ghost rest: seq<IOBuf>)
      requires Linked() && outside == rest + more && AllFit(memory, more)
      modifies this`chain, this`outside
      ensures Linked() && chain == old(chain) + more && outside == rest
      ensures BytesOf(memory, chain) == old(Joined(memory, chain, more))
      ensures Total(chain) == Total(old(chain)) + Total(more)
    {
      SoundSwapped(memory, chain, rest, more);
      AllFitParts(memory, rest, more);
      BytesSplit(memory, chain, more);
      TotalSplit(chain, more);
      chain, outside := chain + more, rest;
    }

    function TailRoom(): nat
      requires Linked() && chain != []
      reads this
    {
      RoomBehind(memory, chain[|chain| - 1])
    }

    /**
      prepend(buf, n): the bytes go into the room before the first buffer's data, shared or not;
      without enough room it throws and changes nothing.
    */
    method Prepend(data: seq<byte>) returns (ok: bool)
      requires Valid()
      modifies this
      ensures Valid() && outside == old(outside)
      ensures ok == (|data| <= old(if chain == [] then 0 else chain[0].start))
      ensures !ok ==> memory == old(memory) && chain == old(chain)
      ensures ok && old(chain) != [] ==> memory == old(Write(memory, chain[0].store, chain[0].start - |data|, data))
      ensures ok && old(chain != [] && HeadroomIsFree(chain, |data|, chain[1..])) ==>
                Contents() == data + old(Contents())
      ensures ok && old(chain != [] && HeadroomIsFree(chain, |data|, outside)) ==> Kept(old(memory), memory, outside)
      ensures ok && old(chain != [] && memory[chain[0].store].refs == 1) ==>
                Contents() == data + old(Contents()) && Kept(old(memory), memory, outside)
    {
      var room := if chain == [] then 0 else chain[0].start;
      if |data| > room {
        return false;
      }
      ok := true;
      if chain != [] {
        PrependWorks(memory, chain, outside, data);
        var b := chain[0];
        memory := Write(memory, b.store, b.start - |data|, data);
        chain := [Earlier(b, |data|)] + chain[1..];
        chainLength := chainLength + |data|;
        SoundFits(memory, chain, outside);
      }
    }
  }

  /**
    And so it happens: a buffer with the bytes 1, 2, 3, 4 was cut in the middle, the first half
    is appended to a queue and a byte 9 is packed behind it.  The other half, which is still
    held elsewhere, then begins with 9.
  */
  method PackOverwrites() returns (before: seq<byte>, after: seq<byte>)
    ensures before == [3, 4] && after == [9, 4]
  {
    var m := [Block([1, 2, 3, 4], 2), Block([9], 1)];
    var b := IOBuf(0, 0, 4, false);
    var head, tail, nine := Head(b, 2), Tail(b, 2), IOBuf(1, 0, 1, false);
    before := Content(m, tail);
    CountThree(tail, nine, head, 0);
    CountThree(tail, nine, head, 1);
    var m' := PackBehind(m, head, nine, tail);
    after := Content(m', tail);
  }

  /** A queue to which one buffer is appended and another packed behind it. */
  method PackBehind(m: seq<Block>, head: IOBuf, extra: IOBuf, tail: IOBuf) returns (m': seq<Block>)
    requires Sound(m, [tail, extra, head]) && Fits(m, head) && Fits(m, extra)
    requires extra.length < RoomBehind(m, head) && extra.length < MAX_PACK_COPY
    ensures SameBytes(m', Write(m, head.store, head.start + head.length, Content(m, extra)))
  {
    var q := new IOBufQueue(m, [tail, extra, head]);
    assert [tail, extra, head] == [tail, extra] + [head];
    q.AppendChain([head], false, [tail, extra]);
    assert [tail, extra] == [tail] + [extra];
    q.AppendChain([extra], true, [tail]);
    OneIsCopied(m, head, extra, q.memory, q.chain);
    m' := q.memory;
  }

  lemma OneIsCopied(m: seq<Block>, head: IOBuf, extra: IOBuf, m': seq<Block>, chain: seq<IOBuf>)
    requires Fits(m, head) && Fits(m, extra) && extra.length < RoomBehind(m, head) && extra.length < MAX_PACK_COPY
    requires Appended(m, [head], [extra], true, m', chain)
    ensures SameBytes(m', Write(m, head.store, head.start + head.length, Content(m, extra)))
  {
    assert [extra][..1] == [extra] && [extra][1..] == [];
    CopiedOne(m, head, extra);
  }
}
