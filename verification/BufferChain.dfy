/**
  The chain of IOBufs: a ring of objects linked both ways, relinked in place.  A ring is
  described by the list of its members from some member on.
*/
module BufferChain {
  import opened Bytes

  ghost predicate Distinct(nodes: seq<IOBuf>) {
    forall i, j :: 0 <= i < j < |nodes| ==> nodes[i] != nodes[j]
  }

  ghost predicate Apart(a: seq<IOBuf>, b: seq<IOBuf>) {
    forall i, j :: 0 <= i < |a| && 0 <= j < |b| ==> a[i] != b[j]
  }

  /** `b` comes right behind `a`. */
  ghost predicate Joins(a: IOBuf, b: IOBuf)
    reads a, b
  {
    a.next == b && b.prev == a
  }

  /** Each member is linked to the one behind it, and back. */
  ghost predicate Linked(nodes: seq<IOBuf>)
    reads nodes
  {
    forall i, j :: 0 <= i && j == i + 1 && j < |nodes| ==> Joins(nodes[i], nodes[j])
  }

  ghost predicate Ring(nodes: seq<IOBuf>)
    reads nodes
  {
    nodes != [] && Distinct(nodes) && Linked(nodes) && Joins(nodes[|nodes| - 1], nodes[0])
  }

  lemma LinkedJoined(a: seq<IOBuf>, b: seq<IOBuf>)
    requires a != [] && b != [] && Linked(a) && Linked(b) && Joins(a[|a| - 1], b[0])
    ensures Linked(a + b)
  {
    var nodes, n := a + b, |a|;
    forall i, j | 0 <= i && j == i + 1 && j < |nodes| ensures Joins(nodes[i], nodes[j]) {
      if j < n {
        assert Joins(a[i], a[j]);
      } else if i >= n {
        assert Joins(b[i - n], b[j - n]);
      }
    }
  }

  lemma LinkedParts(nodes: seq<IOBuf>, lo: nat, hi: nat)
    requires Linked(nodes) && lo <= hi <= |nodes|
    ensures Linked(nodes[lo..hi])
  {
    var part := nodes[lo..hi];
    forall i, j | 0 <= i && j == i + 1 && j < |part| ensures Joins(part[i], part[j]) {
      assert Joins(nodes[lo + i], nodes[lo + j]);
    }
  }

  /** A ring can be told from any of its members on. */
  lemma RingTurns(nodes: seq<IOBuf>, k: nat)
    requires Ring(nodes) && k < |nodes|
    ensures Ring(nodes[k..] + nodes[..k])
  {
    if k == 0 {
      assert nodes[0..] + nodes[..0] == nodes;
    } else {
      LinkedParts(nodes, k, |nodes|);
      LinkedParts(nodes, 0, k);
      LinkedJoined(nodes[k..], nodes[..k]);
      assert Joins(nodes[k - 1], nodes[k]);
    }
  }

  /** The bytes of a list of members. */
  ghost function Contents(nodes: seq<IOBuf>): seq<byte>
    reads nodes
  {
    if nodes == [] then [] else Contents(nodes[..|nodes| - 1]) + nodes[|nodes| - 1].data
  }

  class IOBuf {
    var next: IOBuf
    var prev: IOBuf
    var data: seq<byte>

    constructor (bytes: seq<byte>)
      ensures Ring([this]) && data == bytes
    {
      next, prev, data := this, this, bytes;
    }

    /** Puts the chain `other` before this member, which is behind the last one. */
    method PrependChain(other: IOBuf, ghost mine: seq<IOBuf>, ghost theirs: seq<IOBuf>)
      requires Ring(mine) && mine[0] == this && Ring(theirs) && theirs[0] == other && Apart(mine, theirs)
      modifies this`prev, prev`next, other`prev, other.prev`next
      ensures Ring(mine + theirs)
    {
      var otherTail := other.prev;
      prev.next := other;
      other.prev := prev;
      otherTail.next := this;
      prev := otherTail;
      forall i, j | 0 <= i && j == i + 1 && j < |mine| ensures Joins(mine[i], mine[j]) {
        assert old(Joins(mine[i], mine[j]));
      }
      forall i, j | 0 <= i && j == i + 1 && j < |theirs| ensures Joins(theirs[i], theirs[j]) {
        assert old(Joins(theirs[i], theirs[j]));
      }
      LinkedJoined(mine, theirs);
    }

    /** Puts the chain `other` right behind this member. */
    method AppendChain(other: IOBuf, ghost mine: seq<IOBuf>, ghost theirs: seq<IOBuf>)
      requires Ring(mine) && mine[0] == this && Ring(theirs) && theirs[0] == other && Apart(mine, theirs)
      modifies this`next, next`prev, other`prev, other.prev`next
      ensures Ring([this] + theirs + mine[1..])
    {
      ghost var turned := if |mine| == 1 then mine else mine[1..] + mine[..1];
      if |mine| > 1 {
        RingTurns(mine, 1);
        assert Joins(mine[0], mine[1]);
      }
      next.PrependChain(other, turned, theirs);
      ghost var all := turned + theirs;
      RingTurns(all, |mine| - 1);
      assert all[|mine| - 1..] + all[..|mine| - 1] == [this] + theirs + mine[1..];
    }

    /** Takes this member out of its ring. */
    method Unlink(ghost mine: seq<IOBuf>)
      requires Ring(mine) && mine[0] == this
      modifies this`next, this`prev, next`prev, prev`next
      ensures Ring([this]) && (|mine| > 1 ==> Ring(mine[1..]))
    {
      ghost var rest := mine[1..];
      if |mine| > 1 {
        assert Joins(mine[0], mine[1]);
      }
      next.prev := prev;
      prev.next := next;
      prev := this;
      next := this;
      forall i, j | 0 <= i && j == i + 1 && j < |rest| ensures Joins(rest[i], rest[j]) {
        assert old(Joins(mine[i + 1], mine[j + 1]));
      }
    }

    /** The same; returns what is left of the chain, if anything is. */
    method Pop(ghost mine: seq<IOBuf>) returns (rest: IOBuf?)
      requires Ring(mine) && mine[0] == this
      modifies this`next, this`prev, next`prev, prev`next
      ensures Ring([this]) && (rest == null <==> |mine| == 1)
      ensures rest != null ==> rest == mine[1] && Ring(mine[1..])
    {
      if |mine| > 1 {
        assert Joins(mine[0], mine[1]);
      }
      var following := next;
      Unlink(mine);
      rest := if following == this then null else following;
    }

    /** Takes the members from `head` to `tail` out, as a ring of their own. */
    method SeparateChain(head: IOBuf, tail: IOBuf, ghost mine: seq<IOBuf>, ghost lo: nat, ghost hi: nat)
      requires Ring(mine) && mine[0] == this && 0 < lo < hi <= |mine| && mine[lo] == head && mine[hi - 1] == tail
      modifies head`prev, head.prev`next, tail`next, tail.next`prev
      ensures Ring(mine[lo..hi]) && Ring(mine[..lo] + mine[hi..])
    {
      assert Joins(mine[lo - 1], mine[lo]);
      assert hi < |mine| ==> Joins(mine[hi - 1], mine[hi]);
      head.prev.next := tail.next;
      tail.next.prev := head.prev;
      head.prev := tail;
      tail.next := head;
      ghost var part, front, back := mine[lo..hi], mine[..lo], mine[hi..];
      forall i, j | 0 <= i && j == i + 1 && j < |part| ensures Joins(part[i], part[j]) {
        assert old(Joins(mine[lo + i], mine[lo + j]));
      }
      forall i, j | 0 <= i && j == i + 1 && j < |front| ensures Joins(front[i], front[j]) {
        assert old(Joins(mine[i], mine[j]));
      }
      forall i, j | 0 <= i && j == i + 1 && j < |back| ensures Joins(back[i], back[j]) {
        assert old(Joins(mine[hi + i], mine[hi + j]));
      }
      if back == [] {
        assert front + back == front;
      } else {
        LinkedJoined(front, back);
      }
    }

    /** computeChainDataLength() */
    method ChainLength(ghost mine: seq<IOBuf>) returns (length: nat)
      requires Ring(mine) && mine[0] == this
      ensures length == |Contents(mine)|
    {
      length := |data|;
      var current := next;
      ghost var k := 1;
      ContentsOne(this);
      assert mine[..1] == [this];
      WalkOn(mine, 0);
      while current != this
        invariant 1 <= k <= |mine| && current == Nth(mine, k)
        invariant length == |Contents(mine[..k])|
        decreases |mine| - k
      {
        ContentsMore(mine, k);
        length := length + |current.data|;
        WalkOn(mine, k);
        current := current.next;
        k := k + 1;
      }
      assert mine[..k] == mine;
    }

    /** The copying loop of coalesceAndReallocate: the data of the first `k` members. */
    method Gather(end: IOBuf, ghost mine: seq<IOBuf>, ghost k: nat) returns (bytes: seq<byte>, current: IOBuf)
      requires Ring(mine) && mine[0] == this && 1 <= k <= |mine| && end == Nth(mine, k)
      ensures bytes == Contents(mine[..k]) && current == end
    {
      bytes := data;
      current := next;
      ghost var i := 1;
      ContentsOne(this);
      assert mine[..1] == [this];
      WalkOn(mine, 0);
      while current != end
        invariant 1 <= i <= k && current == Nth(mine, i)
        invariant bytes == Contents(mine[..i])
        decreases k - i
      {
        ContentsMore(mine, i);
        bytes := bytes + current.data;
        WalkOn(mine, i);
        current := current.next;
        i := i + 1;
      }
      NthIsUnique(mine, i, k);
    }

    /** Puts the data of the first `k` members into this one and drops the others. */
    method CoalesceAndReallocate(end: IOBuf, ghost mine: seq<IOBuf>, ghost k: nat)
      requires Ring(mine) && mine[0] == this && 2 <= k <= |mine| && end == Nth(mine, k)
      modifies this, next`prev, end`prev, end.prev`next
      ensures data == old(Contents(mine[..k]))
      ensures Ring([this] + mine[k..]) && Ring(mine[1..k])
      ensures Contents([this] + mine[k..]) == old(Contents(mine))
    {
      var bytes, current := Gather(end, mine, k);
      ghost var rest := mine[k..];
      ContentsCut(mine, k);
      assert forall i :: 0 <= i < |rest| ==> rest[i] != this;
      data := bytes;
      Detach(current, mine, k);
      ContentsKept(rest);
      ContentsFirst(this, rest);
    }

    /** The members behind this one, up to `end`, leave the ring. */
    method Detach(end: IOBuf, ghost mine: seq<IOBuf>, ghost k: nat)
      requires Ring(mine) && mine[0] == this && 2 <= k <= |mine| && end == Nth(mine, k)
      modifies this`next, next`prev, end`prev, end.prev`next
      ensures Ring([this] + mine[k..]) && Ring(mine[1..k])
    {
      InRing(mine, k);
      WalkOn(mine, k - 1);
      SeparateChain(next, end.prev, mine, 1, k);
      assert mine[..1] == [this];
    }

    /** coalesceSlow(): the whole chain in one buffer. */
    method CoalesceSlow(ghost mine: seq<IOBuf>)
      requires Ring(mine) && mine[0] == this && |mine| > 1
      modifies mine
      ensures Ring([this]) && data == old(Contents(mine))
    {
      assert mine[..|mine|] == mine;
      InRing(mine, |mine|);
      CoalesceAndReallocate(this, mine, |mine|);
      assert [this] + mine[|mine|..] == [this];
    }

    /**
      coalesceSlow(maxLength): as few members as hold that many bytes, in one buffer; it throws
      if the whole chain does not hold them.
    */
    method CoalesceUpTo(maxLength: nat, ghost mine: seq<IOBuf>) returns (ok: bool, ghost k: nat)
      requires Ring(mine) && mine[0] == this && |mine| > 1 && |data| < maxLength
      modifies mine
      ensures ok <==> maxLength <= |old(Contents(mine))|
      ensures !ok ==> Ring(mine) && unchanged(mine)
      ensures ok ==> 2 <= k <= |mine| && |old(Contents(mine[..k - 1]))| < maxLength <= |data|
      ensures ok ==> data == old(Contents(mine[..k])) && Ring([this] + mine[k..])
      ensures ok ==> Contents([this] + mine[k..]) == old(Contents(mine))
    {
      var end;
      ok, end, k := FindEnd(maxLength, mine);
      if ok {
        InRing(mine, k);
        CoalesceAndReallocate(end, mine, k);
      }
    }

    /** The member behind the first ones that together hold `maxLength` bytes. */
    method FindEnd(maxLength: nat, ghost mine: seq<IOBuf>) returns (ok: bool, end: IOBuf, ghost k: nat)
      requires Ring(mine) && mine[0] == this && |mine| > 1 && |data| < maxLength
      ensures ok <==> maxLength <= |Contents(mine)|
      ensures ok ==> 2 <= k <= |mine| && end == Nth(mine, k)
      ensures ok ==> |Contents(mine[..k - 1])| < maxLength <= |Contents(mine[..k])|
    {
      var length: nat := |data|;
      end, k := next, 1;
      ContentsOne(this);
      assert mine[..1] == [this];
      WalkOn(mine, 0);
      while length < maxLength
        invariant 1 <= k <= |mine| && end == Nth(mine, k) && length == |Contents(mine[..k])|
        invariant k > 1 ==> |Contents(mine[..k - 1])| < maxLength
        invariant k == 1 ==> length < maxLength
        decreases |mine| - k
      {
        if end == this {
          NthIsUnique(mine, k, |mine|);
          assert mine[..k] == mine;
          return false, end, k;
        }
        ContentsMore(mine, k);
        length := length + |end.data|;
        WalkOn(mine, k);
        end := end.next;
        k := k + 1;
      }
      ContentsGrow(mine, k);
      ok := true;
    }

    /** The k-th member leaves the ring of this member and those from the k-th on. */
    method UnlinkNext(ghost mine: seq<IOBuf>, ghost k: nat)
      requires 1 <= k < |mine| && Ring([this] + mine[k..]) && next != this
      modifies this`next, next`next, next`prev, next.next`prev
      ensures Ring([this] + mine[k + 1..]) && Joins(mine[k], mine[k])
    {
      LeavesOne(this, mine, k);
      next.Unlink(mine[k..] + [this]);
      assert (mine[k..] + [this])[1..] == mine[k + 1..] + [this];
      RingTurns(mine[k + 1..] + [this], |mine| - k - 1);
      RotatedBack(this, mine[k + 1..]);
    }

    /** The destructor of a chain's head unlinks every other member, each of which is destroyed alone. */
    method DestroyRest(ghost mine: seq<IOBuf>)
      requires Ring(mine) && mine[0] == this
      modifies mine
      ensures forall i :: 0 <= i < |mine| ==> Joins(mine[i], mine[i])
    {
      ghost var k := 1;
      assert [this] + mine[1..] == mine;
      while next != this
        invariant 1 <= k <= |mine| && Ring([this] + mine[k..])
        invariant forall i :: 1 <= i < k ==> Joins(mine[i], mine[i])
        decreases |mine| - k
      {
        LeavesOne(this, mine, k);
        UnlinkNext(mine, k);
        k := k + 1;
      }
      if k < |mine| {
        LeavesOne(this, mine, k);
      }
      assert [this] + mine[|mine|..] == [this];
    }
  }

  /** While members from the k-th on are left, the next one is the k-th. */
  lemma LeavesOne(b: IOBuf, nodes: seq<IOBuf>, k: nat)
    requires k < |nodes| && Ring([b] + nodes[k..])
    ensures b.next == nodes[k] && b.next != b && nodes[k].prev == b && Ring(nodes[k..] + [b])
    ensures nodes[k].next in nodes[k..] + [b]
  {
    var now := [b] + nodes[k..];
    assert Joins(now[0], now[1]);
    RingTurns(now, 1);
    assert now[1..] + now[..1] == nodes[k..] + [b];
    WalkOn(now, 1);
  }

  lemma RotatedBack(b: IOBuf, rest: seq<IOBuf>)
    ensures (rest + [b])[|rest|..] + (rest + [b])[..|rest|] == [b] + rest
  {
  }

  /** Members that coalescing relinks are members of the ring. */
  lemma InRing(nodes: seq<IOBuf>, k: nat)
    requires Ring(nodes) && 2 <= k <= |nodes|
    ensures nodes[0].next == nodes[1] && Nth(nodes, k).prev == nodes[k - 1]
    ensures Nth(nodes, k) in nodes
  {
    assert Joins(nodes[0], nodes[1]);
    assert k < |nodes| ==> Joins(nodes[k - 1], nodes[k]);
  }

  /** The k-th member, the first one coming around again behind the last. */
  ghost function Nth(nodes: seq<IOBuf>, k: nat): IOBuf
    requires nodes != [] && k <= |nodes|
  {
    if k < |nodes| then nodes[k] else nodes[0]
  }

  lemma WalkOn(nodes: seq<IOBuf>, k: nat)
    requires Ring(nodes) && k < |nodes|
    ensures nodes[k].next == Nth(nodes, k + 1)
  {
    assert k + 1 < |nodes| ==> Joins(nodes[k], nodes[k + 1]);
  }

  lemma NthIsUnique(nodes: seq<IOBuf>, i: nat, k: nat)
    requires Ring(nodes) && 1 <= i <= |nodes| && 1 <= k <= |nodes| && Nth(nodes, i) == Nth(nodes, k)
    ensures i == k
  {
  }

  twostate lemma {:induction false} ContentsKept(nodes: seq<IOBuf>)
    requires forall i :: 0 <= i < |nodes| ==> nodes[i].data == old(nodes[i].data)
    ensures Contents(nodes) == old(Contents(nodes))
  {
    if nodes != [] {
      ContentsKept(nodes[..|nodes| - 1]);
    }
  }

  lemma {:induction false} ContentsSplit(a: seq<IOBuf>, b: seq<IOBuf>)
    ensures Contents(a + b) == Contents(a) + Contents(b)
    decreases |b|
  {
    if b == [] {
      assert a + b == a;
    } else {
      var n := |b| - 1;
      assert (a + b)[..|a + b| - 1] == a + b[..n];
      ContentsSplit(a, b[..n]);
      assert (Contents(a) + Contents(b[..n])) + b[n].data == Contents(a) + (Contents(b[..n]) + b[n].data);
    }
  }

  lemma ContentsCut(nodes: seq<IOBuf>, k: nat)
    requires k <= |nodes|
    ensures Contents(nodes) == Contents(nodes[..k]) + Contents(nodes[k..])
  {
    assert nodes[..k] + nodes[k..] == nodes;
    ContentsSplit(nodes[..k], nodes[k..]);
  }

  lemma ContentsFirst(b: IOBuf, rest: seq<IOBuf>)
    ensures Contents([b] + rest) == b.data + Contents(rest)
  {
    ContentsSplit([b], rest);
    ContentsOne(b);
  }

  lemma ContentsOne(b: IOBuf)
    ensures Contents([b]) == b.data
  {
    assert [b][..0] == [];
  }

  lemma ContentsMore(nodes: seq<IOBuf>, k: nat)
    requires k < |nodes|
    ensures Contents(nodes[..k + 1]) == Contents(nodes[..k]) + nodes[k].data
  {
    assert nodes[..k + 1][..k] == nodes[..k];
  }

  lemma {:induction false} ContentsGrow(nodes: seq<IOBuf>, k: nat)
    requires k <= |nodes|
    ensures |Contents(nodes[..k])| <= |Contents(nodes)|
    decreases |nodes| - k
  {
    if k == |nodes| {
      assert nodes[..k] == nodes;
    } else {
      ContentsMore(nodes, k);
      ContentsGrow(nodes, k + 1);
    }
  }
}
