/** JSON values, string escaping and the serializer. */
module JsonText {
  import opened Bytes

  const QUOTE: byte := 0x22
  const BACKSLASH: byte := 0x5c
  const SPACE: byte := 0x20
  const NEWLINE: byte := 0x0a

  const INT_MIN := -0x8000_0000_0000_0000
  const INT_MAX := 0x7fff_ffff_ffff_ffff

  /** Indentation is an unsigned int, so it wraps around. */
  const UINT := 0x1_0000_0000

  /** A value without floating point; the members of an object are ordered by key. */
  datatype Json =
    | Null
    | Bool(b: bool)
    | Int(n: int)
    | Str(s: seq<byte>)
    | Arr(items: seq<Json>)
    | Obj(members: seq<Member>)

  datatype Member = Member(key: seq<byte>, value: Json)

  /** The order of std::less on byte strings. */
  predicate Less(a: seq<byte>, b: seq<byte>) {
    b != [] && (a == [] || a[0] < b[0] || (a[0] == b[0] && Less(a[1..], b[1..])))
  }

  ghost predicate Ascending(members: seq<Member>) {
    forall i, j :: 0 <= i < j < |members| ==> Less(members[i].key, members[j].key)
  }

  ghost predicate WellFormed(v: Json)
    decreases v
  {
    match v
    case Int(n) => INT_MIN <= n <= INT_MAX
    case Arr(items) => forall i :: 0 <= i < |items| ==> WellFormed(items[i])
    case Obj(members) => Ascending(members) && forall i :: 0 <= i < |members| ==> WellFormed(members[i].value)
    case _ => true
  }

  // ---------------------------------------------------------------- escaping

  /** Bytes with a two-character escape, and the letter they take. */
  function ShortEscape(b: byte): byte {
    match b
    case 0x22 => 0x22
    case 0x5c => 0x5c
    case 0x08 => 0x62
    case 0x0c => 0x66
    case 0x0a => 0x6e
    case 0x0d => 0x72
    case 0x09 => 0x74
    case _ => 0
  }

  predicate HasShortEscape(b: byte) {
    b in {0x22, 0x5c, 0x08, 0x0c, 0x0a, 0x0d, 0x09}
  }

  function HexDigit(v: nat): byte
    requires v < 16
  {
    if v < 10 then 0x30 + v else 0x61 + v - 10
  }

  function Escape(b: byte): (t: seq<byte>)
    ensures |t| >= 1
  {
    if HasShortEscape(b) then [BACKSLASH, ShortEscape(b)]
    else if b <= 0x1f then [BACKSLASH, 0x75, 0x30, 0x30, HexDigit(b / 16), HexDigit(b % 16)]
    else [b]
  }

  function EscapeAll(s: seq<byte>): seq<byte> {
    if s == [] then [] else Escape(s[0]) + EscapeAll(s[1..])
  }

  /** extra_space: exactly by how much escaping makes the string grow. */
  method ExtraSpace(s: seq<byte>) returns (result: nat)
    ensures |s| + result == |EscapeAll(s)|
  {
    result := 0;
    assert s[0..] == s;
    for i := 0 to |s|
      invariant i + result + |EscapeAll(s[i..])| == |EscapeAll(s)|
    {
      assert s[i..][1..] == s[i + 1..];
      if HasShortEscape(s[i]) {
        result := result + 1;
      } else if s[i] <= 0x1f {
        result := result + 5;
      }
    }
  }

  /** Writing one escape at `pos` into a buffer that is all backslashes from there on. */
  method PutEscape(b: byte, result: array<byte>, pos: nat)
    requires pos + |Escape(b)| <= result.Length
    requires forall k :: pos <= k < result.Length ==> result[k] == BACKSLASH
    modifies result
    ensures result[..pos + |Escape(b)|] == old(result[..pos]) + Escape(b)
    ensures forall k :: pos + |Escape(b)| <= k < result.Length ==> result[k] == BACKSLASH
  {
    if b == BACKSLASH {
      // the buffer already holds two backslashes
    } else if HasShortEscape(b) {
      result[pos + 1] := ShortEscape(b);
    } else if b <= 0x1f {
      result[pos + 1], result[pos + 2], result[pos + 3] := 0x75, 0x30, 0x30;
      result[pos + 4], result[pos + 5] := HexDigit(b / 16), HexDigit(b % 16);
    } else {
      result[pos] := b;
    }
  }

  /** escape_string: fills a buffer of the size extra_space counted, never outside it. */
  method EscapeString(s: seq<byte>) returns (t: seq<byte>)
    ensures t == EscapeAll(s)
  {
    var space := ExtraSpace(s);
    if space == 0 {
      NothingToEscape(s);
      return s;
    }
    var result := new byte[|s| + space](i => BACKSLASH);
    var pos := 0;
    assert s[0..] == s;
    for i := 0 to |s|
      invariant 0 <= pos && pos + |EscapeAll(s[i..])| == result.Length
      invariant result[..pos] + EscapeAll(s[i..]) == EscapeAll(s)
      invariant forall k :: pos <= k < result.Length ==> result[k] == BACKSLASH
    {
      TakeEscape(result[..pos], s, i);
      PutEscape(s[i], result, pos);
      pos := pos + |Escape(s[i])|;
    }
    assert EscapeAll(s[|s|..]) == [];
    t := result[..];
    assert result[..pos] == t;
  }

  lemma TakeEscape(done: seq<byte>, s: seq<byte>, i: nat)
    requires i < |s|
    ensures done + EscapeAll(s[i..]) == (done + Escape(s[i])) + EscapeAll(s[i + 1..])
    ensures |EscapeAll(s[i..])| == |Escape(s[i])| + |EscapeAll(s[i + 1..])|
  {
    assert s[i..][1..] == s[i + 1..];
  }

  lemma {:induction false} EscapeGrows(s: seq<byte>)
    ensures |EscapeAll(s)| >= |s|
  {
    if s != [] {
      EscapeGrows(s[1..]);
    }
  }

  lemma {:induction false} NothingToEscape(s: seq<byte>)
    requires |EscapeAll(s)| == |s|
    ensures EscapeAll(s) == s
  {
    if s != [] {
      EscapeGrows(s[1..]);
      NothingToEscape(s[1..]);
    }
  }

  // ---------------------------------------------------------------- the serializer

  function Spaces(n: nat): (t: seq<byte>)
    ensures |t| == n && forall i :: 0 <= i < n ==> t[i] == SPACE
  {
    seq(n, i => SPACE)
  }

  function Quoted(s: seq<byte>): seq<byte> {
    [QUOTE] + EscapeAll(s) + [QUOTE]
  }

  function Digits(n: nat): (t: seq<byte>)
    ensures |t| >= 1
  {
    if n < 10 then [0x30 + n] else Digits(n / 10) + [0x30 + n % 10]
  }

  function IntText(n: int): seq<byte> {
    if n < 0 then [0x2d] + Digits(-n) else Digits(n)
  }

  const NULL_TEXT: seq<byte> := [0x6e, 0x75, 0x6c, 0x6c]
  const TRUE_TEXT: seq<byte> := [0x74, 0x72, 0x75, 0x65]
  const FALSE_TEXT: seq<byte> := [0x66, 0x61, 0x6c, 0x73, 0x65]

  /** How dump lays out: whether it pretty-prints, and by how much it indents each level. */
  datatype Layout = Layout(pretty: bool, step: nat)

  function Deeper(o: Layout, indent: nat): nat {
    if o.pretty then (indent + o.step) % UINT else indent
  }

  function LineBreak(o: Layout): seq<byte> {
    if o.pretty then [NEWLINE] else []
  }

  /** dump, as the bytes it writes. */
  function Dump(v: Json, o: Layout, indent: nat): seq<byte>
    decreases v, 1
  {
    match v
    case Null => NULL_TEXT
    case Bool(b) => if b then TRUE_TEXT else FALSE_TEXT
    case Int(n) => IntText(n)
    case Str(s) => Quoted(s)
    case Arr(items) =>
      if items == [] then [0x5b, 0x5d]
      else
        [0x5b] + (LineBreak(o) + (DumpItems(items, o, Deeper(o, indent))
        + (LineBreak(o) + (Spaces(indent) + [0x5d]))))
    case Obj(members) =>
      if members == [] then [0x7b, 0x7d]
      else
        [0x7b] + (LineBreak(o) + (DumpMembers(members, o, Deeper(o, indent))
        + (LineBreak(o) + (Spaces(indent) + [0x7d]))))
  }

  function Separator(o: Layout): seq<byte> {
    [0x2c] + LineBreak(o)
  }

  function DumpItems(items: seq<Json>, o: Layout, indent: nat): seq<byte>
    requires items != []
    decreases items, 0
  {
    Spaces(indent) + (Dump(items[0], o, indent)
    + if |items| == 1 then [] else Separator(o) + DumpItems(items[1..], o, indent))
  }

  function Gap(o: Layout): seq<byte> {
    if o.pretty then [SPACE] else []
  }

  function DumpMembers(members: seq<Member>, o: Layout, indent: nat): seq<byte>
    requires members != []
    decreases members, 0
  {
    Spaces(indent) + (Quoted(members[0].key) + ([0x3a] + (Gap(o) + (Dump(members[0].value, o, indent)
    + if |members| == 1 then [] else Separator(o) + DumpMembers(members[1..], o, indent)))))
  }
}
