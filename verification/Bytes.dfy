/** Bytes, the exclusive or of two bytes, and concatenation of byte strings. */
module Bytes {

  type byte = x: int | 0 <= x < 256

  /** The concatenation of a list of sequences. */
  function Concat<T>(parts: seq<seq<T>>): seq<T> {
    if parts == [] then [] else parts[0] + Concat(parts[1..])
  }

  lemma {:induction false} ConcatSnoc<T>(parts: seq<seq<T>>, last: seq<T>)
    ensures Concat(parts + [last]) == Concat(parts) + last
  {
    if parts == [] {
      assert parts + [last] == [last];
      assert Concat([last]) == last;
    } else {
      assert (parts + [last])[1..] == parts[1..] + [last];
      ConcatSnoc(parts[1..], last);
    }
  }

  lemma {:induction false} ConcatSplit<T>(front: seq<seq<T>>, back: seq<seq<T>>)
    ensures Concat(front + back) == Concat(front) + Concat(back)
  {
    if front == [] {
      assert front + back == back;
    } else {
      assert (front + back)[1..] == front[1..] + back;
      ConcatSplit(front[1..], back);
    }
  }

  /** Exclusive or, bit by bit from the lowest. */
  function XorBits(n: nat, a: nat, b: nat): nat {
    if n == 0 then 0 else 2 * XorBits(n - 1, a / 2, b / 2) + (if a % 2 == b % 2 then 0 else 1)
  }

  lemma {:induction false} XorBitsBelow(n: nat, a: nat, b: nat, bound: nat)
    requires a < bound && b < bound && bound == Power2(n)
    ensures XorBits(n, a, b) < bound
  {
    if n > 0 {
      XorBitsBelow(n - 1, a / 2, b / 2, Power2(n - 1));
    }
  }

  function Power2(n: nat): nat {
    if n == 0 then 1 else 2 * Power2(n - 1)
  }

  lemma {:induction false} XorBitsTwice(n: nat, a: nat, b: nat)
    requires a < Power2(n)
    ensures XorBits(n, XorBits(n, a, b), b) == a
  {
    if n > 0 {
      var half := XorBits(n - 1, a / 2, b / 2);
      var x := XorBits(n, a, b);
      assert x / 2 == half && x % 2 == (if a % 2 == b % 2 then 0 else 1);
      XorBitsTwice(n - 1, a / 2, b / 2);
    }
  }

  function Xor(a: byte, b: byte): byte {
    assert Power2(8) == 256 by {
      assert Power2(4) == 16;
    }
    XorBitsBelow(8, a, b, 256);
    XorBits(8, a, b)
  }

  /** Bit i of a number, the lowest being bit 0. */
  function Bit(x: nat, i: nat): nat {
    if i == 0 then x % 2 else Bit(x / 2, i - 1)
  }

  lemma {:induction false} XorBitsAt(n: nat, a: nat, b: nat, i: nat)
    requires i < n
    ensures Bit(XorBits(n, a, b), i) == if Bit(a, i) == Bit(b, i) then 0 else 1
    decreases n
  {
    var low := if a % 2 == b % 2 then 0 else 1;
    assert XorBits(n, a, b) / 2 == XorBits(n - 1, a / 2, b / 2) && XorBits(n, a, b) % 2 == low;
    if i > 0 {
      XorBitsAt(n - 1, a / 2, b / 2, i - 1);
    }
  }

  /** Each bit of the result is set exactly if the two bits differ. */
  lemma XorIsBitwise(a: byte, b: byte, i: nat)
    requires i < 8
    ensures Bit(Xor(a, b), i) == if Bit(a, i) == Bit(b, i) then 0 else 1
  {
    XorBitsAt(8, a, b, i);
  }

  /** Masking twice with the same byte gives the byte back. */
  lemma XorTwice(a: byte, b: byte)
    ensures Xor(Xor(a, b), b) == a
  {
    assert Power2(8) == 256 by {
      assert Power2(4) == 16;
    }
    XorBitsTwice(8, a, b);
  }
}
