/**
  Unicode in JSON strings: the bytes written for \u escapes, against a reader of UTF-8 as
  section 3 of RFC 3629 defines it.
*/
module JsonUnicode {
  import opened Bytes
  import opened JsonText
  import opened JsonLexer
  import opened JsonReader
  import opened Wrappers

  // ---------------------------------------------------------------- reading UTF-8

  /** The first code point of a byte string and how many bytes it takes. */
  datatype Reading = Read(code: nat, used: nat) | NotUtf8

  predicate IsSurrogate(c: nat) {
    0xd800 <= c <= 0xdfff
  }

  /** Six more bits from each of the next `n` bytes. */
  function Continue(v: nat, s: seq<byte>, n: nat): Option<nat>
    decreases n
  {
    if n == 0 then Some(v)
    else if s == [] || !(0x80 <= s[0] < 0xc0) then None
    else Continue(v * 64 + (s[0] - 0x80), s[1..], n - 1)
  }

  /** A code point of `n` bytes, which is not written in more bytes than it needs. */
  function Sequence(v: nat, s: seq<byte>, n: nat, least: nat): Reading
    requires n > 0
  {
    var c := Continue(v, s, n - 1);
    if c.None? || c.value < least || c.value > 0x10ffff || IsSurrogate(c.value) then NotUtf8 else Read(c.value, n)
  }

  function ReadUtf8(s: seq<byte>): (r: Reading)
    ensures r.Read? ==> 1 <= r.used <= 4
  {
    if s == [] then NotUtf8
    else if s[0] < 0x80 then Read(s[0], 1)
    else if 0xc0 <= s[0] < 0xe0 then Sequence(s[0] - 0xc0, s[1..], 2, 0x80)
    else if 0xe0 <= s[0] < 0xf0 then Sequence(s[0] - 0xe0, s[1..], 3, 0x800)
    else if 0xf0 <= s[0] < 0xf8 then Sequence(s[0] - 0xf0, s[1..], 4, 0x10000)
    else NotUtf8
  }

  /** All the code points of a byte string, if it is UTF-8. */
  function ReadAll(s: seq<byte>): Option<seq<nat>>
    decreases |s|
  {
    if s == [] then Some([])
    else
      var r := ReadUtf8(s);
      if r.NotUtf8? then None
      else
        var rest := ReadAll(s[Least(r.used, |s|)..]);
        if rest.Some? then Some([r.code] + rest.value) else None
  }

  // ---------------------------------------------------------------- writing it

  lemma Sextets(c: nat)
    ensures c == c / 64 * 64 + c % 64
    ensures c / 64 == c / 4096 * 64 + c / 64 % 64
    ensures c / 4096 == c / 262144 * 64 + c / 4096 % 64
  {
    assert c / 64 / 64 == c / 4096;
    assert c / 4096 / 64 == c / 262144;
  }

  lemma ContinueMore(v: nat, b: byte, rest: seq<byte>, n: nat)
    requires 0x80 <= b < 0xc0 && n > 0
    ensures Continue(v, [b] + rest, n) == Continue(v * 64 + (b - 0x80), rest, n - 1)
  {
    assert ([b] + rest)[1..] == rest;
  }

  /** What a reader makes of the number in a sequence of `n` bytes. */
  function Judged(v: nat, n: nat, least: nat): Reading {
    if v < least || v > 0x10ffff || IsSurrogate(v) then NotUtf8 else Read(v, n)
  }

  lemma TwoBytes(x: nat, y: nat, rest: seq<byte>)
    requires x < 32 && y < 64
    ensures ReadUtf8([0xc0 + x, 0x80 + y] + rest) == Judged(x * 64 + y, 2, 0x80)
  {
    assert ([0xc0 + x, 0x80 + y] + rest)[1..] == [0x80 + y] + rest;
    ContinueMore(x, 0x80 + y, rest, 1);
  }

  lemma ThreeBytes(x: nat, y: nat, z: nat, rest: seq<byte>)
    requires x < 16 && y < 64 && z < 64
    ensures ReadUtf8([0xe0 + x, 0x80 + y, 0x80 + z] + rest) == Judged((x * 64 + y) * 64 + z, 3, 0x800)
  {
    assert ([0xe0 + x, 0x80 + y, 0x80 + z] + rest)[1..] == [0x80 + y] + ([0x80 + z] + rest);
    ContinueMore(x, 0x80 + y, [0x80 + z] + rest, 2);
    ContinueMore(x * 64 + y, 0x80 + z, rest, 1);
  }

  lemma FourBytes(w: nat, x: nat, y: nat, z: nat, rest: seq<byte>)
    requires w < 8 && x < 64 && y < 64 && z < 64
    ensures ReadUtf8([0xf0 + w, 0x80 + x, 0x80 + y, 0x80 + z] + rest)
         == Judged(((w * 64 + x) * 64 + y) * 64 + z, 4, 0x10000)
  {
    var tail := [0x80 + y] + ([0x80 + z] + rest);
    assert ([0xf0 + w, 0x80 + x, 0x80 + y, 0x80 + z] + rest)[1..] == [0x80 + x] + tail;
    ContinueMore(w, 0x80 + x, tail, 3);
    ContinueMore(w * 64 + x, 0x80 + y, [0x80 + z] + rest, 2);
    ContinueMore((w * 64 + x) * 64 + y, 0x80 + z, rest, 1);
  }

  /** What to_unicode writes for a code point is what it is read as, and a surrogate is no code point. */
  lemma CodeReads(c: nat, rest: seq<byte>)
    requires c <= 0x10ffff && !(0xd800 <= c <= 0xdbff)
    ensures Utf8(c, 0).Some?
    ensures ReadUtf8(Utf8(c, 0).value + rest) == if IsSurrogate(c) then NotUtf8 else Read(c, |Utf8(c, 0).value|)
  {
    Sextets(c);
    if 0x80 <= c <= 0x7ff {
      TwoBytes(c / 64, c % 64, rest);
    } else if 0x7ff < c <= 0xffff {
      ThreeBytes(c / 4096, c / 64 % 64, c % 64, rest);
    } else if 0xffff < c {
      FourBytes(c / 262144, c / 4096 % 64, c / 64 % 64, c % 64, rest);
    }
  }

  predicate IsHigh(c: nat) {
    0xd800 <= c <= 0xdbff
  }

  predicate IsLow(c: nat) {
    0xdc00 <= c <= 0xdfff
  }

  /** The code point of a surrogate pair, as section 7 of RFC 8259 writes it. */
  function PairCode(high: nat, low: nat): nat
    requires IsHigh(high) && IsLow(low)
  {
    0x10000 + (high - 0xd800) * 1024 + (low - 0xdc00)
  }

  lemma PairReads(high: nat, low: nat, rest: seq<byte>)
    requires IsHigh(high)
    ensures Utf8(high, low).Some? <==> IsLow(low)
    ensures IsLow(low) ==>
              |Utf8(high, low).value| == 4 && ReadUtf8(Utf8(high, low).value + rest) == Read(PairCode(high, low), 4)
  {
    if IsLow(low) {
      var c := PairCode(high, low);
      assert Utf8(high, low) == Utf8(c, 0);
      CodeReads(c, rest);
    }
  }

  // ---------------------------------------------------------------- strings of escapes

  function DigitOf(v: nat, upper: bool): byte
    requires v < 16
  {
    if v < 10 then 0x30 + v else (if upper then 0x41 else 0x61) + (v - 10)
  }

  /** Four hexadecimal digits, each letter in either case. */
  function WriteHex(c: nat, upper: seq<bool>): seq<byte>
    requires c < 0x10000 && |upper| == 4
  {
    [DigitOf(c / 4096, upper[0]), DigitOf(c / 256 % 16, upper[1]),
     DigitOf(c / 16 % 16, upper[2]), DigitOf(c % 16, upper[3])]
  }

  function WriteUnit(c: nat, upper: seq<bool>): seq<byte>
    requires c < 0x10000 && |upper| == 4
  {
    [BACKSLASH, 0x75] + WriteHex(c, upper)
  }

  lemma DigitReads(v: nat, upper: bool)
    requires v < 16
    ensures HexValue(DigitOf(v, upper)) == v
  {
  }

  lemma Nibbles(c: nat)
    ensures c == ((c / 4096 * 16 + c / 256 % 16) * 16 + c / 16 % 16) * 16 + c % 16
  {
    assert c / 16 / 16 == c / 256;
    assert c / 256 / 16 == c / 4096;
  }

  lemma HexReads(c: nat, upper: seq<bool>, rest: seq<byte>)
    requires c < 0x10000 && |upper| == 4
    ensures Code(WriteHex(c, upper) + rest) == c
  {
    DigitReads(c / 4096, upper[0]);
    DigitReads(c / 256 % 16, upper[1]);
    DigitReads(c / 16 % 16, upper[2]);
    DigitReads(c % 16, upper[3]);
    Nibbles(c);
  }

  lemma UnitDecodes(c: nat, upper: seq<bool>, rest: seq<byte>)
    requires c < 0x10000 && |upper| == 4 && !IsHigh(c)
    ensures Utf8(c, 0).Some? && DecodeChar(WriteUnit(c, upper) + rest) == Decoded(Utf8(c, 0).value, 6)
  {
    var s := WriteUnit(c, upper) + rest;
    assert s[2..] == WriteHex(c, upper) + rest;
    HexReads(c, upper, rest);
    CodeReads(c, []);
  }

  lemma PairSlices(x: seq<byte>, y: seq<byte>, rest: seq<byte>)
    requires |x| == |y| == 4
    ensures var tail := [BACKSLASH, 0x75] + y + rest;
            var s := [BACKSLASH, 0x75] + x + tail;
            s[2..] == x + tail && s[6] == BACKSLASH && s[7] == 0x75 && s[8..] == y + rest
  {
  }

  lemma PairDecodes(s: seq<byte>, high: nat, low: nat, up: seq<bool>, up': seq<bool>, rest: seq<byte>)
    requires IsHigh(high) && IsLow(low) && |up| == |up'| == 4
    requires s == WriteUnit(high, up) + (WriteUnit(low, up') + rest)
    ensures Utf8(PairCode(high, low), 0).Some? && DecodeChar(s) == Decoded(Utf8(PairCode(high, low), 0).value, 12)
  {
    PairSlices(WriteHex(high, up), WriteHex(low, up'), rest);
    HexReads(high, up, WriteUnit(low, up') + rest);
    HexReads(low, up', rest);
    PairReads(high, low, []);
    assert Utf8(high, low) == Utf8(PairCode(high, low), 0);
  }

  /** A code point and the case of the digits it is written with. */
  datatype Point = Point(code: nat, upper: seq<bool>)

  predicate IsPoint(p: Point) {
    p.code <= 0x10ffff && !IsSurrogate(p.code) && |p.upper| == 8
  }

  /** One escape, or two for a code point that needs a surrogate pair. */
  function WritePoint(p: Point): seq<byte>
    requires IsPoint(p)
  {
    if p.code < 0x10000 then WriteUnit(p.code, p.upper[..4])
    else
      var c := p.code - 0x10000;
      WriteUnit(0xd800 + c / 1024, p.upper[..4]) + WriteUnit(0xdc00 + c % 1024, p.upper[4..])
  }

  function WriteAll(points: seq<Point>): seq<byte>
    requires forall i :: 0 <= i < |points| ==> IsPoint(points[i])
  {
    if points == [] then [] else WritePoint(points[0]) + WriteAll(points[1..])
  }

  function Codes(points: seq<Point>): seq<nat> {
    if points == [] then [] else [points[0].code] + Codes(points[1..])
  }

  lemma PointDecodes(p: Point, rest: seq<byte>)
    requires IsPoint(p)
    ensures Utf8(p.code, 0).Some?
    ensures DecodeChar(WritePoint(p) + rest) == Decoded(Utf8(p.code, 0).value, |WritePoint(p)|)
  {
    CodeReads(p.code, []);
    if p.code < 0x10000 {
      UnitDecodes(p.code, p.upper[..4], rest);
    } else {
      PairPointDecodes(p, rest);
    }
  }

  lemma PairSplit(c: nat)
    requires c < 0x100000
    ensures IsHigh(0xd800 + c / 1024) && IsLow(0xdc00 + c % 1024)
    ensures PairCode(0xd800 + c / 1024, 0xdc00 + c % 1024) == 0x10000 + c
  {
  }

  lemma PairPointDecodes(p: Point, rest: seq<byte>)
    requires IsPoint(p) && p.code >= 0x10000
    ensures DecodeChar(WritePoint(p) + rest) == Decoded(Utf8(p.code, 0).value, 12) && |WritePoint(p)| == 12
  {
    var c := p.code - 0x10000;
    var high, low := 0xd800 + c / 1024, 0xdc00 + c % 1024;
    PairSplit(c);
    Regroup(WriteUnit(high, p.upper[..4]), WriteUnit(low, p.upper[4..]), rest);
    PairDecodes(WritePoint(p) + rest, high, low, p.upper[..4], p.upper[4..], rest);
  }

  lemma Regroup(x: seq<byte>, y: seq<byte>, z: seq<byte>)
    ensures (x + y) + z == x + (y + z)
  {
  }

  /** Any code points, written as escapes, decode to UTF-8 that is read as just those code points. */
  lemma {:induction false} EscapesDecode(points: seq<Point>)
    requires forall i :: 0 <= i < |points| ==> IsPoint(points[i])
    ensures var r := DecodeBody(WriteAll(points));
            r.Some? && ReadAll(r.value) == Some(Codes(points))
  {
    if points != [] {
      var rest := WriteAll(points[1..]);
      var s, n := WritePoint(points[0]) + rest, |WritePoint(points[0])|;
      EscapesDecode(points[1..]);
      PointDecodes(points[0], rest);
      assert s[n..] == rest;
      var out, more := Utf8(points[0].code, 0).value, DecodeBody(rest).value;
      assert DecodeBody(s) == Some(out + more);
      CodeReads(points[0].code, more);
      assert (out + more)[|out|..] == more;
    }
  }

  /** get_string on a string of escapes. */
  method GetEscapedString(points: seq<Point>) returns (r: Option<seq<byte>>)
    requires forall i :: 0 <= i < |points| ==> IsPoint(points[i])
    ensures r.Some? && ReadAll(r.value) == Some(Codes(points))
  {
    EscapesDecode(points);
    r := GetString(WriteAll(points));
  }

  /** A low surrogate on its own is let through, as three bytes that are not UTF-8; a high one is not. */
  lemma LoneSurrogates(c: nat, upper: seq<bool>)
    requires IsSurrogate(c) && |upper| == 4
    ensures var r := DecodeBody(WriteUnit(c, upper));
            (r.Some? <==> IsLow(c)) && (IsLow(c) ==> |r.value| == 3 && ReadAll(r.value) == None)
  {
    var s := WriteUnit(c, upper);
    assert s + [] == s && s[2..] == WriteHex(c, upper) && WriteHex(c, upper) + [] == WriteHex(c, upper);
    HexReads(c, upper, []);
    if IsLow(c) {
      UnitDecodes(c, upper, []);
      var out := Utf8(c, 0).value;
      assert s[6..] == [] && out + [] == out;
      CodeReads(c, []);
    }
  }
}
