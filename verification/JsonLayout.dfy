/** How serialized JSON is laid out: in lines, each with its depth, or without any. */
module JsonLayout {
  import opened Bytes
  import opened JsonText

  /** A line without its indentation; `depth` is the number of brackets around it. */
  datatype Line = Line(depth: nat, text: seq<byte>)

  function Scalar(v: Json): seq<byte>
    requires !v.Arr? && !v.Obj?
  {
    match v
    case Null => NULL_TEXT
    case Bool(b) => if b then TRUE_TEXT else FALSE_TEXT
    case Int(n) => IntText(n)
    case Str(s) => Quoted(s)
  }

  /** Text put in front of the first line, or behind the last one. */
  function Before(t: seq<byte>, lines: seq<Line>): seq<Line>
    requires lines != []
  {
    [Line(lines[0].depth, t + lines[0].text)] + lines[1..]
  }

  function Behind(lines: seq<Line>, t: seq<byte>): seq<Line>
    requires lines != []
  {
    var k := |lines| - 1;
    lines[..k] + [Line(lines[k].depth, lines[k].text + t)]
  }

  /**
    The lines of a value: a bracket of its own line before and behind the items, each item one
    deeper, commas behind all but the last, and a key with its colon in front of its value.
  */
  function Lines(v: Json, depth: nat, gap: seq<byte>): (lines: seq<Line>)
    ensures lines != []
    decreases v, 1
  {
    match v
    case Arr(items) =>
      if items == [] then [Line(depth, [0x5b, 0x5d])]
      else [Line(depth, [0x5b])] + ItemLines(items, depth + 1, gap) + [Line(depth, [0x5d])]
    case Obj(members) =>
      if members == [] then [Line(depth, [0x7b, 0x7d])]
      else [Line(depth, [0x7b])] + MemberLines(members, depth + 1, gap) + [Line(depth, [0x7d])]
    case _ => [Line(depth, Scalar(v))]
  }

  function ItemLines(items: seq<Json>, depth: nat, gap: seq<byte>): (lines: seq<Line>)
    requires items != []
    ensures lines != []
    decreases items, 0
  {
    var first := Lines(items[0], depth, gap);
    if |items| == 1 then first else Behind(first, [0x2c]) + ItemLines(items[1..], depth, gap)
  }

  function MemberLines(members: seq<Member>, depth: nat, gap: seq<byte>): (lines: seq<Line>)
    requires members != []
    ensures lines != []
    decreases members, 0
  {
    var first := Before(Quoted(members[0].key) + ([0x3a] + gap), Lines(members[0].value, depth, gap));
    if |members| == 1 then first else Behind(first, [0x2c]) + MemberLines(members[1..], depth, gap)
  }

  // ---------------------------------------------------------------- joined lines

  /** The lines, each behind `step` spaces for every bracket around it, with line breaks between them. */
  function Page(lines: seq<Line>, step: nat): seq<byte>
    requires lines != []
  {
    Spaces(lines[0].depth * step) + Rest(lines, step)
  }

  /** The same without the indentation of the first. */
  function Rest(lines: seq<Line>, step: nat): seq<byte>
    requires lines != []
    decreases |lines|
  {
    lines[0].text + if |lines| == 1 then [] else [NEWLINE] + (Spaces(lines[1].depth * step) + Rest(lines[1..], step))
  }

  lemma {:induction false} RestJoin(a: seq<Line>, b: seq<Line>, step: nat)
    requires a != [] && b != []
    ensures Rest(a + b, step) == Rest(a, step) + ([NEWLINE] + Page(b, step))
    decreases |a|
  {
    assert (a + b)[1..] == a[1..] + b;
    if |a| == 1 {
      assert a[1..] + b == b;
      assert a[0].text + [] == a[0].text;
    } else {
      RestJoin(a[1..], b, step);
      var x, y, z := [NEWLINE] + Spaces(a[1].depth * step), Rest(a[1..], step), [NEWLINE] + Page(b, step);
      assert a[0].text + (x + (y + z)) == (a[0].text + (x + y)) + z;
      assert [NEWLINE] + (Spaces(a[1].depth * step) + (y + z)) == x + (y + z);
      assert [NEWLINE] + (Spaces(a[1].depth * step) + y) == x + y;
    }
  }

  lemma {:induction false} RestBehind(lines: seq<Line>, t: seq<byte>, step: nat)
    requires lines != []
    ensures Rest(Behind(lines, t), step) == Rest(lines, step) + t
    decreases |lines|
  {
    var k := |lines| - 1;
    if k == 0 {
      assert lines[0].text + [] == lines[0].text && (lines[0].text + t) + [] == lines[0].text + t;
    } else {
      assert Behind(lines, t)[1..] == Behind(lines[1..], t);
      RestBehind(lines[1..], t, step);
      var x := [NEWLINE];
      var y, z := Spaces(lines[1].depth * step), Rest(lines[1..], step);
      assert lines[0].text + (x + (y + (z + t))) == (lines[0].text + (x + (y + z))) + t;
    }
  }

  lemma RestBefore(t: seq<byte>, lines: seq<Line>, step: nat)
    requires lines != []
    ensures Rest(Before(t, lines), step) == t + Rest(lines, step)
  {
    assert Before(t, lines)[1..] == lines[1..];
  }

  lemma FirstDepth(v: Json, depth: nat, gap: seq<byte>)
    ensures Lines(v, depth, gap)[0].depth == depth
  {
  }

  // ---------------------------------------------------------------- pretty-printed

  /** How deep a value is nested. */
  function Height(v: Json): nat
    decreases v, 1
  {
    match v
    case Arr(items) => if items == [] then 0 else 1 + ItemHeight(items)
    case Obj(members) => if members == [] then 0 else 1 + MemberHeight(members)
    case _ => 0
  }

  function ItemHeight(items: seq<Json>): nat
    decreases items, 0
  {
    if items == [] then 0 else Most(Height(items[0]), ItemHeight(items[1..]))
  }

  function MemberHeight(members: seq<Member>): nat
    decreases members, 0
  {
    if members == [] then 0 else Most(Height(members[0].value), MemberHeight(members[1..]))
  }

  function Most(a: nat, b: nat): nat {
    if a < b then b else a
  }

  function Pretty(step: nat): Layout {
    Layout(true, step)
  }

  const GAP: seq<byte> := [SPACE]

  lemma Indented(d: nat, h: nat, step: nat)
    requires (d + h) * step < UINT && h > 0
    ensures Deeper(Pretty(step), d * step) == (d + 1) * step && (d + 1 + (h - 1)) * step < UINT
  {
    assert (d + h) * step == (d + 1) * step + (h - 1) * step;
    assert (d + 1) * step == d * step + step;
  }

  lemma Lower(d: nat, h: nat, k: nat, step: nat)
    requires (d + h) * step < UINT && k <= h
    ensures (d + k) * step < UINT
  {
    assert (d + h) * step == (d + k) * step + (h - k) * step;
  }

  /** An opening bracket, lines, and the closing bracket. */
  lemma Bracketed(open: byte, inner: seq<Line>, close: byte, d: nat, step: nat)
    requires inner != []
    ensures Rest([Line(d, [open])] + inner + [Line(d, [close])], step)
         == [open] + ([NEWLINE] + (Page(inner, step) + ([NEWLINE] + (Spaces(d * step) + [close]))))
  {
    var head, last := [Line(d, [open])], [Line(d, [close])];
    RestJoin(head + inner, last, step);
    RestJoin(head, inner, step);
    assert Rest(head, step) == [open] && Rest(last, step) == [close];
    var x, y := [NEWLINE] + Page(inner, step), [NEWLINE] + (Spaces(d * step) + [close]);
    assert ([open] + x) + y == [open] + ([NEWLINE] + (Page(inner, step) + y));
  }

  /**
    A pretty-printed value is its lines, each indented by `step` spaces for every bracket around
    it, as long as no indentation reaches 2^32.
  */
  lemma {:induction false} DumpIsLines(v: Json, d: nat, step: nat)
    requires (d + Height(v)) * step < UINT
    ensures Dump(v, Pretty(step), d * step) == Rest(Lines(v, d, GAP), step)
    decreases v, 1
  {
    if v.Arr? && v.items != [] {
      Indented(d, Height(v), step);
      ItemsAreLines(v.items, d + 1, step);
      Bracketed(0x5b, ItemLines(v.items, d + 1, GAP), 0x5d, d, step);
    } else if v.Obj? && v.members != [] {
      Indented(d, Height(v), step);
      MembersAreLines(v.members, d + 1, step);
      Bracketed(0x7b, MemberLines(v.members, d + 1, GAP), 0x7d, d, step);
    } else {
      assert Rest(Lines(v, d, GAP), step) == Lines(v, d, GAP)[0].text + [];
    }
  }

  lemma {:induction false} ItemsAreLines(items: seq<Json>, d: nat, step: nat)
    requires items != [] && (d + ItemHeight(items)) * step < UINT
    ensures DumpItems(items, Pretty(step), d * step) == Page(ItemLines(items, d, GAP), step)
    ensures ItemLines(items, d, GAP)[0].depth == d
    decreases items, 0
  {
    var first := Lines(items[0], d, GAP);
    FirstDepth(items[0], d, GAP);
    Lower(d, ItemHeight(items), Height(items[0]), step);
    DumpIsLines(items[0], d, step);
    if |items| == 1 {
      assert Dump(items[0], Pretty(step), d * step) + [] == Dump(items[0], Pretty(step), d * step);
    } else {
      Lower(d, ItemHeight(items), ItemHeight(items[1..]), step);
      ItemsAreLines(items[1..], d, step);
      CommaThen(first, ItemLines(items[1..], d, GAP), step);
    }
  }

  lemma CommaThen(first: seq<Line>, more: seq<Line>, step: nat)
    requires first != [] && more != []
    ensures Rest(Behind(first, [0x2c]) + more, step) == Rest(first, step) + (([0x2c] + [NEWLINE]) + Page(more, step))
    ensures Behind(first, [0x2c]) != [] && (Behind(first, [0x2c]) + more)[0].depth == first[0].depth
  {
    RestJoin(Behind(first, [0x2c]), more, step);
    RestBehind(first, [0x2c], step);
    var x, y := Rest(first, step), Page(more, step);
    assert (x + [0x2c]) + ([NEWLINE] + y) == x + (([0x2c] + [NEWLINE]) + y);
  }

  lemma {:induction false} MembersAreLines(members: seq<Member>, d: nat, step: nat)
    requires members != [] && (d + MemberHeight(members)) * step < UINT
    ensures DumpMembers(members, Pretty(step), d * step) == Page(MemberLines(members, d, GAP), step)
    ensures MemberLines(members, d, GAP)[0].depth == d
    decreases members, 0
  {
    var key, value := Quoted(members[0].key), Lines(members[0].value, d, GAP);
    var first := Before(key + ([0x3a] + GAP), value);
    FirstDepth(members[0].value, d, GAP);
    Lower(d, MemberHeight(members), Height(members[0].value), step);
    DumpIsLines(members[0].value, d, step);
    RestBefore(key + ([0x3a] + GAP), value, step);
    var more := if |members| == 1 then [] else [0x2c] + [NEWLINE] + Page(MemberLines(members[1..], d, GAP), step);
    if |members| > 1 {
      Lower(d, MemberHeight(members), MemberHeight(members[1..]), step);
      MembersAreLines(members[1..], d, step);
      CommaThen(first, MemberLines(members[1..], d, GAP), step);
    }
    KeyThenValue(key, Rest(value, step), more);
  }

  lemma KeyThenValue(key: seq<byte>, value: seq<byte>, more: seq<byte>)
    ensures key + ([0x3a] + (GAP + (value + more))) == ((key + ([0x3a] + GAP)) + value) + more
  {
  }

  // ---------------------------------------------------------------- compact

  /** The lines without line breaks and indentation. */
  function Flat(lines: seq<Line>): seq<byte> {
    if lines == [] then [] else lines[0].text + Flat(lines[1..])
  }

  lemma {:induction false} FlatJoin(a: seq<Line>, b: seq<Line>)
    ensures Flat(a + b) == Flat(a) + Flat(b)
  {
    if a == [] {
      assert a + b == b;
    } else {
      assert (a + b)[1..] == a[1..] + b;
      FlatJoin(a[1..], b);
    }
  }

  lemma FlatOne(line: Line)
    ensures Flat([line]) == line.text
  {
    assert [line][1..] == [];
  }

  lemma FlatBehind(lines: seq<Line>, t: seq<byte>)
    requires lines != []
    ensures Flat(Behind(lines, t)) == Flat(lines) + t
  {
    var k := |lines| - 1;
    var front, last := lines[..k], lines[k];
    assert lines == front + [last];
    FlatJoin(front, [last]);
    FlatJoin(front, [Line(last.depth, last.text + t)]);
    FlatOne(last);
    FlatOne(Line(last.depth, last.text + t));
    assert Flat(front) + (last.text + t) == (Flat(front) + last.text) + t;
  }

  lemma FlatBefore(t: seq<byte>, lines: seq<Line>)
    requires lines != []
    ensures Flat(Before(t, lines)) == t + Flat(lines)
  {
    assert Before(t, lines)[1..] == lines[1..];
    assert (t + lines[0].text) + Flat(lines[1..]) == t + (lines[0].text + Flat(lines[1..]));
  }

  function Compact(n: nat): Layout {
    Layout(false, n)
  }

  lemma FlatBracketed(open: byte, inner: seq<Line>, close: byte, d: nat)
    ensures Flat([Line(d, [open])] + inner + [Line(d, [close])]) == [open] + (Flat(inner) + [close])
  {
    FlatJoin([Line(d, [open])] + inner, [Line(d, [close])]);
    FlatJoin([Line(d, [open])], inner);
    FlatOne(Line(d, [open]));
    FlatOne(Line(d, [close]));
    assert ([open] + Flat(inner)) + [close] == [open] + (Flat(inner) + [close]);
  }

  /** A compact value is its lines in one, without a space behind the colons. */
  lemma {:induction false} CompactIsLines(v: Json, d: nat, n: nat)
    ensures Dump(v, Compact(n), 0) == Flat(Lines(v, d, []))
    decreases v, 1
  {
    if v.Arr? && v.items != [] {
      CompactItems(v.items, d + 1, n);
      FlatBracketed(0x5b, ItemLines(v.items, d + 1, []), 0x5d, d);
      Unspaced(0x5b, DumpItems(v.items, Compact(n), 0), 0x5d);
    } else if v.Obj? && v.members != [] {
      CompactMembers(v.members, d + 1, n);
      FlatBracketed(0x7b, MemberLines(v.members, d + 1, []), 0x7d, d);
      Unspaced(0x7b, DumpMembers(v.members, Compact(n), 0), 0x7d);
    } else {
      FlatOne(Lines(v, d, [])[0]);
    }
  }

  lemma Unspaced(open: byte, t: seq<byte>, close: byte)
    ensures [open] + ([] + (t + ([] + (Spaces(0) + [close])))) == [open] + (t + [close])
  {
  }

  lemma {:induction false} CompactItems(items: seq<Json>, d: nat, n: nat)
    requires items != []
    ensures DumpItems(items, Compact(n), 0) == Flat(ItemLines(items, d, []))
    decreases items, 0
  {
    var first := Lines(items[0], d, []);
    CompactIsLines(items[0], d, n);
    if |items| == 1 {
      UnspacedItem(Flat(first), []);
    } else {
      CompactItems(items[1..], d, n);
      FlatJoin(Behind(first, [0x2c]), ItemLines(items[1..], d, []));
      FlatBehind(first, [0x2c]);
      UnspacedItem(Flat(first), [0x2c] + [] + Flat(ItemLines(items[1..], d, [])));
    }
  }

  lemma UnspacedItem(x: seq<byte>, more: seq<byte>)
    ensures Spaces(0) + (x + more) == x + more && x + [] == x && [0x2c] + [] == [0x2c]
    ensures forall y :: (x + [0x2c]) + y == x + ([0x2c] + y)
  {
  }

  lemma {:induction false} CompactMembers(members: seq<Member>, d: nat, n: nat)
    requires members != []
    ensures DumpMembers(members, Compact(n), 0) == Flat(MemberLines(members, d, []))
    decreases members, 0
  {
    var key, value := Quoted(members[0].key), Lines(members[0].value, d, []);
    var first := Before(key + ([0x3a] + []), value);
    CompactIsLines(members[0].value, d, n);
    FlatBefore(key + ([0x3a] + []), value);
    var more := [];
    if |members| > 1 {
      CompactMembers(members[1..], d, n);
      FlatJoin(Behind(first, [0x2c]), MemberLines(members[1..], d, []));
      FlatBehind(first, [0x2c]);
      more := ([0x2c] + []) + Flat(MemberLines(members[1..], d, []));
    }
    UnspacedMember(key, Flat(value), more);
  }

  lemma UnspacedMember(key: seq<byte>, value: seq<byte>, more: seq<byte>)
    ensures Spaces(0) + (key + ([0x3a] + ([] + (value + more)))) == ((key + ([0x3a] + [])) + value) + more
    ensures forall x, y :: (x + [0x2c]) + y == x + (([0x2c] + []) + y)
  {
  }
}
