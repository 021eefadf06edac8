/**
  Domain names in wire form and in text form: dns_dnlen, dns_ptodn, dns_dntop_size and
  dns_dntop.  Sizes and label limits are those of section 2.3.4 of RFC 1035.
*/
module DomainName {
  import opened Bytes
  import opened Wrappers

  const MAX_DN := 255
  const MAX_LABEL := 63
  const MAX_NAME := 1024

  const DOT: byte := 46
  const BACKSLASH: byte := 92
  const ZERO: byte := 48

  type Label = seq<byte>

  // ---------------------------------------------------------------- wire form

  /** The labels in wire form, without the terminating zero byte. */
  function Chain(labels: seq<Label>): seq<byte>
    requires LabelsFit(labels, 255)
  {
    if labels == [] then [] else [|labels[0]|] + labels[0] + Chain(labels[1..])
  }

  predicate LabelsFit(labels: seq<Label>, max: nat) {
    forall i :: 0 <= i < |labels| ==> 0 < |labels[i]| <= max
  }

  function Wire(labels: seq<Label>): seq<byte>
    requires LabelsFit(labels, 255)
  {
    Chain(labels) + [0]
  }

  /** A well-formed name. */
  ghost predicate IsName(labels: seq<Label>) {
    LabelsFit(labels, MAX_LABEL) && |Wire(labels)| <= MAX_DN
  }

  lemma {:induction false} ChainSnoc(labels: seq<Label>, last: Label)
    requires LabelsFit(labels, 255) && 0 < |last| <= 255
    ensures LabelsFit(labels + [last], 255)
    ensures Chain(labels + [last]) == Chain(labels) + [|last|] + last
  {
    if labels == [] {
      assert labels + [last] == [last];
      assert Chain([last]) == [|last|] + last + Chain([]);
    } else {
      assert (labels + [last])[1..] == labels[1..] + [last];
      ChainSnoc(labels[1..], last);
    }
  }

  lemma {:induction false} ChainSplit(labels: seq<Label>, k: nat)
    requires LabelsFit(labels, 255) && k <= |labels|
    ensures Chain(labels) == Chain(labels[..k]) + Chain(labels[k..])
    decreases |labels|
  {
    if k == 0 {
      assert labels[..0] == [] && labels[0..] == labels;
    } else {
      ChainSplit(labels[1..], k - 1);
      assert labels[..k][1..] == labels[1..][..k - 1] && labels[1..][k - 1..] == labels[k..];
    }
  }

  /** Position d of `dn` is where label k begins, or the terminator if there are only k labels. */
  ghost predicate AtLabel(dn: seq<byte>, labels: seq<Label>, k: nat, d: nat) {
    && LabelsFit(labels, 255)
    && Wire(labels) <= dn
    && k <= |labels|
    && d == |Chain(labels[..k])| <= |Chain(labels)|
    && dn[d] == if k < |labels| then |labels[k]| else 0
  }

  lemma AtFirstLabel(dn: seq<byte>, labels: seq<Label>)
    requires LabelsFit(labels, 255) && Wire(labels) <= dn
    ensures AtLabel(dn, labels, 0, 0)
  {
    assert labels[..0] == [];
  }

  lemma AtEnd(dn: seq<byte>, labels: seq<Label>, k: nat, d: nat)
    requires AtLabel(dn, labels, k, d) && dn[d] == 0
    ensures k == |labels| && d + 1 == |Wire(labels)|
  {
    assert k == |labels| ==> labels[..k] == labels;
  }

  /** The wire form around label k. */
  lemma ChainParts(labels: seq<Label>, k: nat)
    requires LabelsFit(labels, 255) && k < |labels|
    ensures Chain(labels[..k + 1]) == Chain(labels[..k]) + [|labels[k]|] + labels[k]
    ensures Chain(labels) == Chain(labels[..k + 1]) + Chain(labels[k + 1..])
  {
    assert labels[..k + 1] == labels[..k] + [labels[k]];
    ChainSnoc(labels[..k], labels[k]);
    ChainSplit(labels, k + 1);
  }

  lemma NextLabel(dn: seq<byte>, labels: seq<Label>, k: nat, d: nat)
    requires AtLabel(dn, labels, k, d) && dn[d] != 0
    ensures k < |labels|
    ensures d + 1 + dn[d] < |dn| && dn[d + 1..d + 1 + dn[d]] == labels[k]
    ensures AtLabel(dn, labels, k + 1, d + 1 + dn[d])
  {
    ChainParts(labels, k);
    var front, rest := Chain(labels[..k]), labels[k + 1..];
    assert dn[..|Chain(labels)|] == Chain(labels);
    assert dn[d + 1..d + 1 + dn[d]] == labels[k];
    if rest != [] {
      assert Chain(rest)[0] == |rest[0]|;
    }
  }

  /** dns_dnlen: the length of a name, whatever bytes follow it. */
  method Dnlen(dn: seq<byte>, ghost labels: seq<Label>) returns (length: nat)
    requires LabelsFit(labels, 255) && Wire(labels) <= dn
    ensures length == |Wire(labels)|
  {
    AtFirstLabel(dn, labels);
    var d: nat := 0;
    ghost var k := 0;
    while dn[d] != 0
      invariant AtLabel(dn, labels, k, d)
      decreases |labels| - k
    {
      NextLabel(dn, labels, k, d);
      d := d + 1 + dn[d];
      k := k + 1;
    }
    AtEnd(dn, labels, k, d);
    length := d + 1;
  }

  // ---------------------------------------------------------------- text form

  /** Characters that zone files give a meaning to. */
  predicate Special(b: byte) {
    b in {DOT, BACKSLASH, 34, 59, 64, 36}
  }

  predicate Unprintable(b: byte) {
    b <= 0x20 || b >= 0x7f
  }

  function Escape(b: byte): (t: seq<byte>)
    ensures 1 <= |t| <= 4
  {
    if Special(b) then [BACKSLASH, b]
    else if Unprintable(b) then [BACKSLASH, ZERO + b / 100, ZERO + b % 100 / 10, ZERO + b % 10]
    else [b]
  }

  function EscapeAll(lab: Label): seq<byte> {
    if lab == [] then [] else Escape(lab[0]) + EscapeAll(lab[1..])
  }

  /** The labels from the k-th on, each preceded by a dot except the very first. */
  function TextFrom(labels: seq<Label>, k: nat): seq<byte>
    requires k <= |labels|
    decreases |labels| - k
  {
    if k == |labels| then []
    else (if k == 0 then [] else [DOT]) + EscapeAll(labels[k]) + TextFrom(labels, k + 1)
  }

  function Text(labels: seq<Label>): seq<byte> {
    TextFrom(labels, 0)
  }

  lemma {:induction false} EscapedLabelNotEmpty(lab: Label)
    ensures |lab| <= |EscapeAll(lab)| <= 4 * |lab|
  {
    if lab != [] {
      EscapedLabelNotEmpty(lab[1..]);
    }
  }

  /** The inner loop of dns_dntop_size over one label. */
  method LabelSize(lab: Label) returns (size: nat)
    ensures size == |EscapeAll(lab)|
  {
    size := 0;
    for d := 0 to |lab|
      invariant size + |EscapeAll(lab[d..])| == |EscapeAll(lab)|
    {
      assert lab[d..][1..] == lab[d + 1..];
      if Special(lab[d]) {
        size := size + 2;
      } else if Unprintable(lab[d]) {
        size := size + 4;
      } else {
        size := size + 1;
      }
    }
  }

  lemma TextStep(labels: seq<Label>, k: nat)
    requires LabelsFit(labels, 255) && k < |labels|
    ensures |EscapeAll(labels[k])| >= 1
    ensures |TextFrom(labels, k)| == (if k == 0 then 0 else 1) + |EscapeAll(labels[k])| + |TextFrom(labels, k + 1)|
  {
    EscapedLabelNotEmpty(labels[k]);
  }

  /** The room for the text of the labels before the k-th. */
  ghost predicate Sized(size: nat, labels: seq<Label>, k: nat) {
    k <= |labels| && size + |TextFrom(labels, k)| == |Text(labels)| && (size == 0 <==> k == 0)
  }

  method SizeNext(dn: seq<byte>, d: nat, before: nat, ghost labels: seq<Label>, ghost k: nat)
    returns (size: nat, le: nat)
    requires LabelsFit(labels, 255) && AtLabel(dn, labels, k, d) && dn[d] != 0 && Sized(before, labels, k)
    ensures k < |labels| && AtLabel(dn, labels, k + 1, le) && Sized(size, labels, k + 1)
  {
    NextLabel(dn, labels, k, d);
    TextStep(labels, k);
    le := d + 1 + dn[d];
    var room := LabelSize(dn[d + 1..le]);
    size := (if before > 0 then before + 1 else before) + room;
  }

  /** dns_dntop_size: the room the text and its terminator need, or 0 if over the limit. */
  method DntopSize(dn: seq<byte>, ghost labels: seq<Label>) returns (size: nat)
    requires LabelsFit(labels, 255) && Wire(labels) <= dn
    ensures size == if |Text(labels)| + 1 > MAX_NAME then 0 else |Text(labels)| + 1
  {
    AtFirstLabel(dn, labels);
    size := 0;
    var d: nat := 0;
    ghost var k := 0;
    while dn[d] != 0
      invariant AtLabel(dn, labels, k, d)
      invariant Sized(size, labels, k)
      decreases |labels| - k
    {
      size, d := SizeNext(dn, d, size, labels, k);
      k := k + 1;
    }
    AtEnd(dn, labels, k, d);
    size := size + 1;
    if size > MAX_NAME {
      size := 0;
    }
  }

  /** A well-formed name never needs more than 1004 bytes of text. */
  lemma TextIsBounded(labels: seq<Label>)
    requires IsName(labels)
    ensures |Text(labels)| + 1 <= 1004
  {
    TextLength(labels, 0);
    ChainLength(labels);
    assert labels[0..] == labels;
  }

  function Content(labels: seq<Label>): nat {
    if labels == [] then 0 else |labels[0]| + Content(labels[1..])
  }

  lemma {:induction false} ChainLength(labels: seq<Label>)
    requires LabelsFit(labels, MAX_LABEL)
    ensures |Chain(labels)| == |labels| + Content(labels)
    ensures Content(labels) <= MAX_LABEL * |labels|
  {
    if labels != [] {
      ChainLength(labels[1..]);
    }
  }

  lemma {:induction false} TextLength(labels: seq<Label>, k: nat)
    requires k <= |labels|
    ensures |TextFrom(labels, k)|
         <= 4 * Content(labels[k..]) + (|labels| - k) - (if k == 0 && labels != [] then 1 else 0)
    decreases |labels| - k
  {
    if k < |labels| {
      EscapedLabelNotEmpty(labels[k]);
      TextLength(labels, k + 1);
      assert labels[k..][1..] == labels[k + 1..];
    }
  }

  // ---------------------------------------------------------------- printing

  /**
    Print one byte at np.  An escape in decimal digits is refused already when it would leave
    no room for the terminator.
  */
  method PutByte(b: byte, name: array<byte>, np: nat) returns (ok: bool)
    requires np <= name.Length
    modifies name
    ensures ok ==> np + |Escape(b)| <= name.Length && name[..np + |Escape(b)|] == old(name[..np]) + Escape(b)
    ensures !ok ==> np + |Escape(b)| + 1 > name.Length
  {
    if Special(b) {
      if np + 2 > name.Length {
        return false;
      }
      name[np], name[np + 1] := BACKSLASH, b;
    } else if Unprintable(b) {
      if np + 4 >= name.Length {
        return false;
      }
      name[np], name[np + 1], name[np + 2], name[np + 3] :=
        BACKSLASH, ZERO + b / 100, ZERO + b % 100 / 10, ZERO + b % 10;
    } else {
      if np >= name.Length {
        return false;
      }
      name[np] := b;
    }
    ok := true;
  }

  /** The inner loop of dns_dntop: print one label behind the text in name[..at]. */
  method PutLabel(lab: Label, name: array<byte>, at: nat) returns (ok: bool, np: nat)
    requires at <= name.Length
    modifies name
    ensures ok ==> np == at + |EscapeAll(lab)| <= name.Length && name[..np] == old(name[..at]) + EscapeAll(lab)
    ensures !ok ==> at + |EscapeAll(lab)| + 1 > name.Length
  {
    ghost var goal := name[..at] + EscapeAll(lab);
    np := at;
    assert lab[0..] == lab;
    for d := 0 to |lab|
      invariant np <= name.Length
      invariant name[..np] + EscapeAll(lab[d..]) == goal
    {
      TakeEscape(name[..np], lab, d);
      ok := PutByte(lab[d], name, np);
      if !ok {
        return;
      }
      np := np + |Escape(lab[d])|;
    }
    assert EscapeAll(lab[|lab|..]) == [];
    ok := true;
  }

  /** A label, behind a dot unless it is the first. */
  method PutDotted(lab: Label, name: array<byte>, at: nat) returns (ok: bool, np: nat)
    requires at <= name.Length
    modifies name
    ensures var dot := if at == 0 then [] else [DOT];
            && (ok ==> np == at + |dot| + |EscapeAll(lab)| <= name.Length)
            && (ok ==> name[..np] == (old(name[..at]) + dot) + EscapeAll(lab))
            && (!ok ==> at + |dot| + |EscapeAll(lab)| + 1 > name.Length)
  {
    np := at;
    if np != 0 {
      if np >= name.Length {
        return false, np;
      }
      name[np] := DOT;
      np := np + 1;
    }
    assert name[..np] == old(name[..at]) + (if at == 0 then [] else [DOT]);
    ok, np := PutLabel(lab, name, np);
  }

  lemma TakeEscape(done: seq<byte>, lab: Label, d: nat)
    requires d < |lab|
    ensures done + EscapeAll(lab[d..]) == (done + Escape(lab[d])) + EscapeAll(lab[d + 1..])
  {
    assert lab[d..][1..] == lab[d + 1..];
  }

  /** The text of the labels before the k-th. */
  ghost predicate Printed(text: seq<byte>, labels: seq<Label>, k: nat) {
    k <= |labels| && text + TextFrom(labels, k) == Text(labels) && (text == [] <==> k == 0)
  }

  lemma PrintNext(text: seq<byte>, labels: seq<Label>, k: nat)
    requires LabelsFit(labels, 255) && k < |labels| && Printed(text, labels, k)
    ensures var dot := if text == [] then [] else [DOT];
            && Printed((text + dot) + EscapeAll(labels[k]), labels, k + 1)
            && |text| + |dot| + |EscapeAll(labels[k])| <= |Text(labels)|
  {
    EscapedLabelNotEmpty(labels[k]);
    var dot := if text == [] then [] else [DOT];
    assert text + (dot + EscapeAll(labels[k]) + TextFrom(labels, k + 1))
        == ((text + dot) + EscapeAll(labels[k])) + TextFrom(labels, k + 1);
  }

  /** One turn of the outer loop. */
  method PutNext(dn: seq<byte>, d: nat, name: array<byte>, at: nat, ghost labels: seq<Label>, ghost k: nat)
    returns (ok: bool, np: nat, le: nat)
    requires LabelsFit(labels, 255) && AtLabel(dn, labels, k, d) && dn[d] != 0
    requires at <= name.Length && Printed(name[..at], labels, k)
    modifies name
    ensures k < |labels| && AtLabel(dn, labels, k + 1, le)
    ensures ok ==> np <= name.Length && Printed(name[..np], labels, k + 1)
    ensures !ok ==> |Text(labels)| + 1 > name.Length
  {
    NextLabel(dn, labels, k, d);
    PrintNext(name[..at], labels, k);
    le := d + 1 + dn[d];
    ok, np := PutDotted(dn[d + 1..le], name, at);
  }

  /**
    dns_dntop: prints the name and its terminator when they fit, which is exactly when the
    buffer has the size that dns_dntop_size counts, and returns that size.
  */
  method Dntop(dn: seq<byte>, name: array<byte>, ghost labels: seq<Label>) returns (r: int)
    requires LabelsFit(labels, 255) && Wire(labels) <= dn
    modifies name
    ensures r > 0 <==> |Text(labels)| + 1 <= name.Length
    ensures r > 0 ==> r == |Text(labels)| + 1 && name[..r] == Text(labels) + [0]
    ensures r <= 0 ==> r == if name.Length >= MAX_NAME then -1 else 0
  {
    AtFirstLabel(dn, labels);
    var toolong := if name.Length >= MAX_NAME then -1 else 0;
    var np, d: nat := 0, 0;
    ghost var k := 0;
    while dn[d] != 0
      invariant AtLabel(dn, labels, k, d)
      invariant 0 <= np <= name.Length && Printed(name[..np], labels, k)
      decreases |labels| - k
    {
      var ok;
      ok, np, d := PutNext(dn, d, name, np, labels, k);
      if !ok {
        return toolong;
      }
      k := k + 1;
    }
    AtEnd(dn, labels, k, d);
    if np >= name.Length {
      return toolong;
    }
    name[np] := 0;
    r := np + 1;
  }

  /**
    Counting first and then printing into a buffer of any size.  Printing succeeds just where
    the count says that it fits, except for a text beyond MAX_NAME in a buffer that holds it;
    a well-formed name never has such a text.
  */
  method CountAndPrint(dn: seq<byte>, name: array<byte>, ghost labels: seq<Label>) returns (size: nat, r: int)
    requires LabelsFit(labels, 255) && Wire(labels) <= dn
    modifies name
    ensures (r > 0 <==> 0 < size <= name.Length) <==> !(MAX_NAME < |Text(labels)| + 1 <= name.Length)
    ensures r > 0 ==> r == |Text(labels)| + 1 <= name.Length && name[..r] == Text(labels) + [0]
    ensures size == if |Text(labels)| + 1 > MAX_NAME then 0 else |Text(labels)| + 1
    ensures IsName(labels) ==> 0 < size <= 1004 && (r > 0 <==> size <= name.Length)
  {
    size := DntopSize(dn, labels);
    r := Dntop(dn, name, labels);
    if IsName(labels) {
      TextIsBounded(labels);
    }
  }

  lemma {:induction false} ZerosEscaped(lab: Label)
    requires forall i :: 0 <= i < |lab| ==> lab[i] == 0
    ensures |EscapeAll(lab)| == 4 * |lab|
  {
    if lab != [] {
      ZerosEscaped(lab[1..]);
    }
  }

  lemma {:induction false} ZerosText(labels: seq<Label>, k: nat)
    requires k <= |labels|
    requires forall i :: 0 <= i < |labels| ==> |labels[i]| == 63 && forall j :: 0 <= j < 63 ==> labels[i][j] == 0
    ensures |TextFrom(labels, k)| == 253 * (|labels| - k) - if k == 0 && labels != [] then 1 else 0
    decreases |labels| - k
  {
    if k < |labels| {
      ZerosEscaped(labels[k]);
      ZerosText(labels, k + 1);
    }
  }

  /** Five labels of 63 zero bytes: counting refuses what printing into 2000 bytes does. */
  method PrintedBeyondLimit() returns (size: nat, r: int)
    ensures size == 0 && r == 1265
  {
    var zeros: Label := seq(63, i => 0);
    var labels := [zeros, zeros, zeros, zeros, zeros];
    ZerosText(labels, 0);
    var name := new byte[2000];
    var dn := Wire(labels);
    size, r := CountAndPrint(dn, name, labels);
  }

  // ---------------------------------------------------------------- parsing

  predicate Digit(b: byte) {
    ZERO <= b <= ZERO + 9
  }

  /** One byte of a label as it is written: its value and how many characters it takes. */
  datatype Unit = BadEscape | Unit(b: byte, used: nat)

  /** An escape is a backslash with one to three decimal digits, or with any other character. */
  function ReadUnit(t: seq<byte>): (u: Unit)
    requires t != []
    ensures u.Unit? ==> 1 <= u.used <= |t|
  {
    if t[0] != BACKSLASH then Unit(t[0], 1)
    else if |t| == 1 then BadEscape
    else if !Digit(t[1]) then Unit(t[1], 2)
    else
      var one := t[1] - ZERO;
      if |t| == 2 || !Digit(t[2]) then Unit(one, 2)
      else
        var two := one * 10 + (t[2] - ZERO);
        if |t| == 3 || !Digit(t[3]) then Unit(two, 3)
        else
          var three := two * 10 + (t[3] - ZERO);
          if three > 255 then BadEscape else Unit(three, 4)
  }

  /** The labels a text denotes, and whether it ends with the root. */
  datatype Parsed = Parsed(labels: seq<Label>, isAbs: bool)

  /** Read on after the labels `done` and the beginning `cur` of the next. */
  function Parse(t: seq<byte>, done: seq<Label>, cur: Label): Option<Parsed>
    decreases |t|
  {
    if t == [] then Some(if cur == [] then Parsed(done, true) else Parsed(done + [cur], false))
    else if t[0] == DOT then
      if cur == [] then None else Parse(t[1..], done + [cur], [])
    else
      var u := ReadUnit(t);
      if u.BadEscape? then None else Parse(t[u.used..], done, cur + [u.b])
  }

  function ParseName(t: seq<byte>): Option<Parsed> {
    if t == [DOT] then Some(Parsed([], true)) else Parse(t, [], [])
  }

  lemma EscapeReadsBack(b: byte, rest: seq<byte>)
    ensures ReadUnit(Escape(b) + rest) == Unit(b, |Escape(b)|)
    ensures Escape(b)[0] != DOT
  {
    if !Special(b) && Unprintable(b) {
      var t := Escape(b) + rest;
      assert t[1] == ZERO + b / 100 && t[2] == ZERO + b % 100 / 10 && t[3] == ZERO + b % 10;
      assert b == (b / 100) * 100 + b % 100 && b % 100 == (b % 100 / 10) * 10 + b % 10;
    }
  }

  lemma {:induction false} LabelReadsBack(lab: Label, rest: seq<byte>, done: seq<Label>, cur: Label)
    ensures Parse(EscapeAll(lab) + rest, done, cur) == Parse(rest, done, cur + lab)
    decreases |lab|
  {
    if lab == [] {
      assert EscapeAll(lab) + rest == rest && cur + lab == cur;
    } else {
      var more := EscapeAll(lab[1..]) + rest;
      assert EscapeAll(lab) + rest == Escape(lab[0]) + more;
      EscapeReadsBack(lab[0], more);
      assert (Escape(lab[0]) + more)[|Escape(lab[0])|..] == more;
      LabelReadsBack(lab[1..], rest, done, cur + [lab[0]]);
      assert cur + [lab[0]] + lab[1..] == cur + lab;
    }
  }

  /** After label k, the rest of the text gives the other labels back. */
  lemma {:induction false} RestReadsBack(labels: seq<Label>, k: nat)
    requires LabelsFit(labels, 255) && k < |labels|
    ensures Parse(TextFrom(labels, k + 1), labels[..k], labels[k]) == Some(Parsed(labels, false))
    decreases |labels| - k
  {
    assert labels[..k] + [labels[k]] == labels[..k + 1];
    if k + 1 == |labels| {
      assert labels[..k + 1] == labels;
    } else {
      var more := EscapeAll(labels[k + 1]) + TextFrom(labels, k + 2);
      assert TextFrom(labels, k + 1) == [DOT] + more;
      LabelReadsBack(labels[k + 1], TextFrom(labels, k + 2), labels[..k + 1], []);
      assert [] + labels[k + 1] == labels[k + 1];
      RestReadsBack(labels, k + 1);
    }
  }

  lemma TextIsNotRoot(labels: seq<Label>)
    requires LabelsFit(labels, 255)
    ensures Text(labels) != [DOT]
  {
    if labels != [] {
      var lab := labels[0];
      EscapeReadsBack(lab[0], []);
      assert Text(labels)[0] == EscapeAll(lab)[0] == Escape(lab[0])[0];
    }
  }

  lemma LabelsReadBack(labels: seq<Label>)
    requires LabelsFit(labels, 255) && labels != []
    ensures Parse(Text(labels), [], []) == Some(Parsed(labels, false))
  {
    var first, rest := labels[0], TextFrom(labels, 1);
    assert labels[..0] == [];
    RestReadsBack(labels, 0);
    LabelReadsBack(first, rest, [], []);
    assert [] + first == first;
    TextFirst(labels);
  }

  lemma TextFirst(labels: seq<Label>)
    requires labels != []
    ensures Text(labels) == EscapeAll(labels[0]) + TextFrom(labels, 1)
  {
    assert [] + EscapeAll(labels[0]) == EscapeAll(labels[0]);
  }

  /** Parsing the text of a name gives its labels back; the text is a proper C string. */
  lemma TextReadsBack(labels: seq<Label>)
    requires LabelsFit(labels, 255)
    ensures ParseName(Text(labels)) == Some(Parsed(labels, labels == []))
    ensures 0 !in Text(labels)
  {
    TextIsNotRoot(labels);
    TextHasNoZero(labels, 0);
    if labels != [] {
      LabelsReadBack(labels);
    }
  }

  lemma {:induction false} EscapesHaveNoZero(lab: Label)
    ensures 0 !in EscapeAll(lab)
  {
    if lab != [] {
      EscapesHaveNoZero(lab[1..]);
    }
  }

  /** The text is a proper zero-terminated string. */
  lemma {:induction false} TextHasNoZero(labels: seq<Label>, k: nat)
    requires k <= |labels|
    ensures 0 !in TextFrom(labels, k)
    decreases |labels| - k
  {
    if k < |labels| {
      EscapesHaveNoZero(labels[k]);
      TextHasNoZero(labels, k + 1);
    }
  }

  // ---------------------------------------------------------------- the parser's buffer

  /** Parsing only ever extends what it has read. */
  lemma {:induction false} ParseExtends(t: seq<byte>, done: seq<Label>, cur: Label)
    requires Parse(t, done, cur).Some?
    ensures var labels := Parse(t, done, cur).value.labels;
            && done <= labels
            && (cur != [] ==> |done| < |labels| && cur <= labels[|done|])
    decreases |t|
  {
    if t != [] {
      if t[0] == DOT {
        ParseExtends(t[1..], done + [cur], []);
      } else {
        var u := ReadUnit(t);
        ParseExtends(t[u.used..], done, cur + [u.b]);
      }
    }
  }

  /** What is left to write after `done` and `cur` when another byte follows. */
  lemma ParseGrows(t: seq<byte>, done: seq<Label>, cur: Label)
    requires t != [] && t[0] != DOT && LabelsFit(done, MAX_LABEL)
    requires Parse(t, done, cur).Some? && LabelsFit(Parse(t, done, cur).value.labels, MAX_LABEL)
    ensures |Wire(Parse(t, done, cur).value.labels)| >= |Chain(done)| + 1 + |cur| + 2
  {
    var u := ReadUnit(t);
    var labels := Parse(t, done, cur).value.labels;
    var n := |done|;
    ParseExtends(t[u.used..], done, cur + [u.b]);
    assert labels[..n] == done;
    ChainSplit(labels, n);
    assert Chain(labels[n..]) == [|labels[n]|] + labels[n] + Chain(labels[n..][1..]);
  }

  /** The success condition of dns_ptodn: the text denotes labels that fit the limits and the buffer. */
  ghost predicate Representable(p: Option<Parsed>, limit: nat) {
    p.Some? && LabelsFit(p.value.labels, MAX_LABEL) && |Wire(p.value.labels)| <= limit
  }

  /** The part of the buffer written so far: finished labels, a length slot, the current label. */
  ghost predicate Laid(dn: seq<byte>, done: seq<Label>, cur: Label, llab: nat, dp: nat) {
    && LabelsFit(done, MAX_LABEL)
    && llab == |Chain(done)| + 1
    && dp == llab + |cur|
    && dp <= |dn|
    && dn[..llab - 1] == Chain(done)
    && dn[llab..dp] == cur
  }

  /** Fill in the length of the current label. */
  method CloseLabel(dn: array<byte>, llab: nat, dp: nat, ghost done: seq<Label>, ghost cur: Label)
    requires Laid(dn[..], done, cur, llab, dp) && 0 < |cur| <= MAX_LABEL
    modifies dn
    ensures LabelsFit(done + [cur], MAX_LABEL)
    ensures dn[..dp] == Chain(done + [cur]) && dn[dp..] == old(dn[dp..])
  {
    ChainSnoc(done, cur);
    dn[llab - 1] := dp - llab;
    assert dn[..dp] == dn[..llab - 1] + [dn[llab - 1]] + dn[llab..dp];
  }

  /** The text of `name` from np on continues the labels `done` and `cur`. */
  ghost predicate Continues(name: seq<byte>, np: nat, done: seq<Label>, cur: Label) {
    && np <= |name|
    && if name == [DOT] then np == 0 && done == [] && cur == []
       else ParseName(name) == Parse(name[np..], done, cur)
  }

  lemma ContinueWithDot(name: seq<byte>, np: nat, done: seq<Label>, cur: Label)
    requires Continues(name, np, done, cur) && np < |name| && name[np] == DOT
    ensures cur != [] ==> Continues(name, np + 1, done + [cur], [])
    ensures cur == [] && !(np == 0 && |name| == 1) ==> ParseName(name).None?
    ensures |cur| > MAX_LABEL ==> !Representable(ParseName(name), MAX_DN)
  {
    assert name[np..][1..] == name[np + 1..];
    if |cur| > MAX_LABEL {
      LongLabelFails(name[np..], done, cur);
    }
  }

  lemma ContinueWithByte(name: seq<byte>, np: nat, done: seq<Label>, cur: Label, limit: nat)
    requires Continues(name, np, done, cur) && np < |name| && name[np] != DOT && LabelsFit(done, MAX_LABEL)
    ensures var u := ReadUnit(name[np..]);
            && (u.Unit? ==> Continues(name, np + u.used, done, cur + [u.b]))
            && (u.BadEscape? ==> ParseName(name).None?)
    ensures |Chain(done)| + 1 + |cur| + 1 >= limit ==> !Representable(ParseName(name), limit)
  {
    var t := name[np..];
    var u := ReadUnit(t);
    if u.Unit? {
      assert t[u.used..] == name[np + u.used..];
    }
    if Parse(t, done, cur).Some? && LabelsFit(Parse(t, done, cur).value.labels, MAX_LABEL) {
      ParseGrows(t, done, cur);
    }
  }

  /** Reading one byte of a label, moving past it. */
  method TakeUnit(name: seq<byte>, at: nat) returns (ok: bool, c: byte, np: nat)
    requires at < |name| && name[at] != DOT
    ensures ok <==> ReadUnit(name[at..]).Unit?
    ensures ok ==> c == ReadUnit(name[at..]).b && np == at + ReadUnit(name[at..]).used
  {
    np, c := at, 0;
    if name[np] != BACKSLASH {
      return true, name[np], np + 1;
    }
    np := np + 1;
    if np == |name| {
      return false, c, np;
    }
    if Digit(name[np]) {
      var v := name[np] - ZERO;
      np := np + 1;
      if np < |name| && Digit(name[np]) {
        v := v * 10 + (name[np] - ZERO);
        np := np + 1;
        if np < |name| && Digit(name[np]) {
          v := v * 10 + (name[np] - ZERO);
          np := np + 1;
          if v > 255 {
            return false, c, np;
          }
        }
      }
      return true, v, np;
    }
    return true, name[np], np + 1;
  }

  /** The parser has read `name` up to np and laid it out in the first `limit` bytes of `dn`. */
  ghost predicate Parsing(name: seq<byte>, np: nat, dn: seq<byte>, limit: nat, done: seq<Label>, cur: Label,
                          llab: nat, dp: nat)
  {
    && limit <= |dn|
    && Laid(dn, done, cur, llab, dp)
    && dp <= limit && (cur != [] ==> dp < limit)
    && Continues(name, np, done, cur)
  }

  /** A dot behind a label. */
  method OnDot(name: seq<byte>, np: nat, dn: array<byte>, limit: nat, llab: nat, dp: nat,
               ghost done: seq<Label>, ghost cur: Label)
    returns (ok: bool)
    requires Parsing(name, np, dn[..], limit, done, cur, llab, dp) && np < |name| && name[np] == DOT && llab < dp
    modifies dn
    ensures ok ==> Parsing(name, np + 1, dn[..], limit, done + [cur], [], dp + 1, dp + 1)
    ensures !ok ==> !Representable(ParseName(name), MAX_DN)
    ensures dn[limit..] == old(dn[limit..])
  {
    ContinueWithDot(name, np, done, cur);
    if dp - llab > MAX_LABEL {
      return false;
    }
    CloseLabel(dn, llab, dp, done, cur);
    assert dn[limit..] == dn[dp..][limit - dp..];
    ok := true;
  }

  /** A byte of a label, which must leave room for the terminator. */
  method OnByte(name: seq<byte>, np: nat, dn: array<byte>, limit: nat, llab: nat, dp: nat,
                ghost done: seq<Label>, ghost cur: Label)
    returns (ok: bool, c: byte, np': nat)
    requires Parsing(name, np, dn[..], limit, done, cur, llab, dp) && np < |name| && name[np] != DOT && dp + 1 < limit
    modifies dn
    ensures ok ==> np' > np && Parsing(name, np', dn[..], limit, done, cur + [c], llab, dp + 1)
    ensures !ok ==> ParseName(name).None?
    ensures dn[limit..] == old(dn[limit..])
  {
    ContinueWithByte(name, np, done, cur, limit);
    ok, c, np' := TakeUnit(name, np);
    if ok {
      dn[dp] := c;
      assert dn[llab..dp + 1] == dn[llab..dp] + [c];
    }
  }

  /**
    dns_ptodn: succeeds exactly when the text denotes labels of 1 to 63 bytes whose wire form
    fits the buffer and the 255-byte limit, and then writes that wire form and returns its
    length; it never writes beyond the limit.
  */
  method Ptodn(name: seq<byte>, dn: array<byte>) returns (r: int, isAbs: bool)
    modifies dn
    ensures var limit := if dn.Length >= MAX_DN then MAX_DN else dn.Length;
            && (r > 0 <==> Representable(ParseName(name), limit))
            && (r > 0 ==>
                  var p := ParseName(name).value;
                  r == |Wire(p.labels)| && dn[..r] == Wire(p.labels) && isAbs == p.isAbs)
            && dn[limit..] == old(dn[limit..])
    ensures r <= 0 ==> r == -1 || (r == 0 && dn.Length < MAX_DN)
  {
    isAbs := false;
    if dn.Length == 0 {
      return 0, isAbs;
    }
    var limit := if dn.Length >= MAX_DN then MAX_DN else dn.Length;
    var dp, llab: nat := 1, 1;
    var np: nat := 0;
    ghost var done: seq<Label>, cur: Label := [], [];
    while np < |name|
      invariant Parsing(name, np, dn[..], limit, done, cur, llab, dp)
      invariant dn[limit..] == old(dn[limit..])
      decreases |name| - np
    {
      var ok;
      if name[np] == DOT {
        if dp == llab {
          ContinueWithDot(name, np, done, cur);
          if np == 0 && |name| == 1 {
            np := np + 1;
            break;
          }
          return -1, isAbs;
        }
        ok := OnDot(name, np, dn, limit, llab, dp, done, cur);
        np, dp, llab := np + 1, dp + 1, dp + 1;
        done, cur := done + [cur], [];
      } else {
        if dp + 1 >= limit {
          ContinueWithByte(name, np, done, cur, limit);
          return if dn.Length >= MAX_DN then -1 else 0, isAbs;
        }
        var c;
        ok, c, np := OnByte(name, np, dn, limit, llab, dp, done, cur);
        dp, cur := dp + 1, cur + [c];
      }
      if !ok {
        return -1, isAbs;
      }
    }
    r, isAbs := Finish(name, dn, llab, dp, limit, done, cur);
  }

  /** The end of the text: close the last label and terminate the name. */
  method Finish(name: seq<byte>, dn: array<byte>, llab: nat, dp: nat, limit: nat,
                ghost done: seq<Label>, ghost cur: Label)
    returns (r: int, isAbs: bool)
    requires Laid(dn[..], done, cur, llab, dp) && limit <= dn.Length
    requires dp <= limit && (cur != [] ==> dp < limit)
    requires ParseName(name) == Parse([], done, cur)
    modifies dn
    ensures if |cur| > MAX_LABEL then r == -1 && !Representable(ParseName(name), MAX_DN)
            else
              && Representable(ParseName(name), limit)
              && r == |Wire(ParseName(name).value.labels)| && dn[..r] == Wire(ParseName(name).value.labels)
              && isAbs == ParseName(name).value.isAbs
    ensures dn[limit..] == old(dn[limit..])
  {
    isAbs := false;
    if dp - llab > MAX_LABEL {
      assert (done + [cur])[|done|] == cur;
      return -1, isAbs;
    }
    if dp != llab {
      CloseLabel(dn, llab, dp, done, cur);
      assert dn[limit..] == dn[dp..][limit - dp..];
      dn[dp] := 0;
      r := dp + 1;
    } else {
      dn[llab - 1] := 0;
      isAbs := true;
      r := dp;
    }
  }

  lemma LongLabelFails(t: seq<byte>, done: seq<Label>, cur: Label)
    requires t != [] && t[0] == DOT && |cur| > MAX_LABEL
    ensures Parse(t, done, cur).Some? ==> !LabelsFit(Parse(t, done, cur).value.labels, MAX_LABEL)
  {
    if Parse(t, done, cur).Some? {
      ParseExtends(t[1..], done + [cur], []);
      assert Parse(t, done, cur).value.labels[|done|] == cur;
    }
  }

  /**
    Round trip: the text that dns_dntop prints for a well-formed name is one that dns_ptodn
    accepts with a full-size buffer, and it denotes the same labels, hence the same bytes.
  */
  lemma NameRoundTrip(labels: seq<Label>)
    requires IsName(labels)
    ensures Representable(ParseName(Text(labels)), MAX_DN)
    ensures Wire(ParseName(Text(labels)).value.labels) == Wire(labels)
    ensures |Text(labels)| + 1 <= MAX_NAME
  {
    TextReadsBack(labels);
    TextIsBounded(labels);
  }

  /** The same of the two routines: a name printed and parsed again is the name, byte for byte. */
  method PrintAndParse(dn: seq<byte>, name: array<byte>, out: array<byte>, ghost labels: seq<Label>)
    returns (length: int)
    requires IsName(labels) && Wire(labels) <= dn && name.Length >= 1004 && out.Length >= MAX_DN
    modifies name, out
    ensures length == |Wire(labels)| && out[..length] == Wire(labels)
  {
    NameRoundTrip(labels);
    TextIsBounded(labels);
    var printed := Dntop(dn, name, labels);
    var text := name[..printed - 1];
    assert text == Text(labels);
    var isAbs;
    length, isAbs := Ptodn(text, out);
  }

  // ---------------------------------------------------------------- names as people write them

  /** One byte of a label as it may be written: as it is, behind a backslash, or in up to three digits. */
  datatype Spelling = AsIs(b: byte) | Quoted(b: byte) | Decimal(b: byte, digits: nat)

  function Spell(u: Spelling): (t: seq<byte>)
    ensures 1 <= |t|
  {
    match u
    case AsIs(b) => [b]
    case Quoted(b) => [BACKSLASH, b]
    case Decimal(b, digits) =>
      if digits == 1 then [BACKSLASH, ZERO + b % 10]
      else if digits == 2 then [BACKSLASH, ZERO + b / 10 % 10, ZERO + b % 10]
      else [BACKSLASH, ZERO + b / 100, ZERO + b / 10 % 10, ZERO + b % 10]
  }

  /** The spelling is one, in front of the text that follows: fewer than three digits must not run on. */
  predicate Spells(u: Spelling, rest: seq<byte>) {
    match u
    case AsIs(b) => b != DOT && b != BACKSLASH
    case Quoted(b) => !Digit(b)
    case Decimal(b, digits) =>
      || digits == 3
      || ((rest == [] || !Digit(rest[0])) && ((digits == 2 && b < 100) || (digits == 1 && b < 10)))
  }

  lemma SpellingReads(u: Spelling, rest: seq<byte>)
    requires Spells(u, rest)
    ensures ReadUnit(Spell(u) + rest) == Unit(u.b, |Spell(u)|) && Spell(u)[0] != DOT
  {
    var t := Spell(u) + rest;
    if u.Decimal? {
      var b := u.b;
      assert b == b / 10 * 10 + b % 10 && b / 10 == b / 100 * 10 + b / 10 % 10;
      assert |t| > |Spell(u)| ==> t[|Spell(u)|] == rest[0];
    }
  }

  function SpellLabel(lab: seq<Spelling>): seq<byte> {
    if lab == [] then [] else Spell(lab[0]) + SpellLabel(lab[1..])
  }

  function LabelOf(lab: seq<Spelling>): Label {
    if lab == [] then [] else [lab[0].b] + LabelOf(lab[1..])
  }

  ghost predicate LabelSpells(lab: seq<Spelling>, rest: seq<byte>) {
    lab != [] ==> Spells(lab[0], SpellLabel(lab[1..]) + rest) && LabelSpells(lab[1..], rest)
  }

  lemma {:induction false} SpelledLabelReads(lab: seq<Spelling>, rest: seq<byte>, done: seq<Label>, cur: Label)
    requires LabelSpells(lab, rest)
    ensures Parse(SpellLabel(lab) + rest, done, cur) == Parse(rest, done, cur + LabelOf(lab))
    decreases |lab|
  {
    if lab == [] {
      assert SpellLabel(lab) + rest == rest && cur + LabelOf(lab) == cur;
    } else {
      var u, more := lab[0], SpellLabel(lab[1..]) + rest;
      assert SpellLabel(lab) + rest == Spell(u) + more;
      SpellingReads(u, more);
      assert (Spell(u) + more)[|Spell(u)|..] == more;
      SpelledLabelReads(lab[1..], rest, done, cur + [u.b]);
      assert cur + [u.b] + LabelOf(lab[1..]) == cur + LabelOf(lab);
    }
  }

  /** Labels separated by dots, with one more dot at the end if the name is absolute. */
  function SpellName(labels: seq<seq<Spelling>>, isAbs: bool): seq<byte>
    requires labels != []
  {
    SpellLabel(labels[0])
    + if |labels| > 1 then [DOT] + SpellName(labels[1..], isAbs) else if isAbs then [DOT] else []
  }

  function LabelsOf(labels: seq<seq<Spelling>>): seq<Label> {
    if labels == [] then [] else [LabelOf(labels[0])] + LabelsOf(labels[1..])
  }

  /** No label is empty; the dot behind a label is never a digit, so what follows a label is no matter. */
  ghost predicate NameSpells(labels: seq<seq<Spelling>>) {
    forall i :: 0 <= i < |labels| ==> labels[i] != [] && LabelSpells(labels[i], [])
  }

  lemma {:induction false} DotEndsLabel(lab: seq<Spelling>, rest: seq<byte>)
    requires LabelSpells(lab, []) && rest != [] && rest[0] == DOT
    ensures LabelSpells(lab, rest)
  {
    if lab != [] {
      DotEndsLabel(lab[1..], rest);
      var tail := SpellLabel(lab[1..]);
      assert tail + [] == tail;
      assert (tail + rest)[0] == if tail == [] then DOT else tail[0];
    }
  }

  lemma {:induction false} SpelledNameReads(labels: seq<seq<Spelling>>, isAbs: bool, done: seq<Label>)
    requires labels != [] && NameSpells(labels)
    ensures Parse(SpellName(labels, isAbs), done, []) == Some(Parsed(done + LabelsOf(labels), isAbs))
    decreases |labels|
  {
    var first, tail := LabelOf(labels[0]), SpellName(labels, isAbs)[|SpellLabel(labels[0])|..];
    assert SpellName(labels, isAbs) == SpellLabel(labels[0]) + tail;
    if tail != [] {
      DotEndsLabel(labels[0], tail);
    }
    SpelledLabelReads(labels[0], tail, done, []);
    assert [] + first == first && first != [];
    if |labels| > 1 {
      assert tail[1..] == SpellName(labels[1..], isAbs);
      SpelledNameReads(labels[1..], isAbs, done + [first]);
      assert (done + [first]) + LabelsOf(labels[1..]) == done + LabelsOf(labels);
    } else {
      assert LabelsOf(labels) == [first];
      if isAbs {
        assert tail[1..] == [];
      }
    }
  }

  /** However the bytes of a name are spelled, and with or without the last dot, the text denotes its labels. */
  lemma AnySpellingReads(labels: seq<seq<Spelling>>, isAbs: bool)
    requires labels != [] && NameSpells(labels)
    ensures ParseName(SpellName(labels, isAbs)) == Some(Parsed(LabelsOf(labels), isAbs))
  {
    SpelledNameReads(labels, isAbs, []);
    assert [] + LabelsOf(labels) == LabelsOf(labels);
    var t := SpellName(labels, isAbs);
    SpellingReads(labels[0][0], SpellLabel(labels[0][1..]));
    assert t[0] == Spell(labels[0][0])[0];
  }

  /** And every text that denotes labels is such a spelling. */
  function SpellingOf(t: seq<byte>): Spelling
    requires t != [] && ReadUnit(t).Unit?
  {
    var u := ReadUnit(t);
    if t[0] != BACKSLASH then AsIs(u.b) else if !Digit(t[1]) then Quoted(u.b) else Decimal(u.b, u.used - 1)
  }

  lemma UnitIsSpelling(t: seq<byte>)
    requires t != [] && t[0] != DOT && ReadUnit(t).Unit?
    ensures var n := ReadUnit(t).used;
            && Spells(SpellingOf(t), t[n..]) && SpellingOf(t).b == ReadUnit(t).b
            && Spell(SpellingOf(t)) == t[..n]
  {
    var u := ReadUnit(t);
    if t[0] == BACKSLASH && Digit(t[1]) {
      DecimalIsSpelling(t);
    }
  }

  lemma DecimalIsSpelling(t: seq<byte>)
    requires |t| >= 2 && t[0] == BACKSLASH && Digit(t[1]) && ReadUnit(t).Unit?
    ensures var u := ReadUnit(t);
            Spells(Decimal(u.b, u.used - 1), t[u.used..]) && Spell(Decimal(u.b, u.used - 1)) == t[..u.used]
  {
    var u := ReadUnit(t);
    if u.used == 4 {
      var x, y, z := t[1] - ZERO, t[2] - ZERO, t[3] - ZERO;
      assert u.b == (x * 10 + y) * 10 + z;
      assert u.b % 10 == z && u.b / 10 == x * 10 + y && u.b / 100 == x;
    } else if u.used == 3 {
      var x, y := t[1] - ZERO, t[2] - ZERO;
      assert u.b == x * 10 + y && u.b % 10 == y && u.b / 10 == x;
    }
  }

  lemma {:induction false} ParsesAreSpellings(t: seq<byte>, done: seq<Label>, cur: Label)
    returns (first: seq<Spelling>, more: seq<seq<Spelling>>, isAbs: bool)
    requires Parse(t, done, cur).Some? && (t != [] || cur != [])
    ensures t == SpellName([first] + more, isAbs) && LabelSpells(first, []) && NameSpells(more)
    ensures cur + LabelOf(first) != []
    decreases |t|
  {
    if t == [] {
      first, more, isAbs := [], [], false;
    } else if t[0] == DOT {
      first := [];
      if |t| == 1 {
        more, isAbs := [], true;
      } else {
        var next, rest;
        next, rest, isAbs := ParsesAreSpellings(t[1..], done + [cur], []);
        more := [next] + rest;
        DotThenName(t, more, isAbs);
      }
    } else {
      var u := ReadUnit(t);
      var tail;
      tail, more, isAbs := ParsesAreSpellings(t[u.used..], done, cur + [u.b]);
      first := [SpellingOf(t)] + tail;
      UnitThenName(t, tail, more, isAbs);
    }
  }

  lemma DotThenName(t: seq<byte>, more: seq<seq<Spelling>>, isAbs: bool)
    requires t != [] && t[0] == DOT && more != [] && t[1..] == SpellName(more, isAbs)
    ensures t == SpellName([[]] + more, isAbs)
  {
    assert ([[]] + more)[1..] == more;
    assert t == [DOT] + t[1..];
  }

  lemma UnitThenName(t: seq<byte>, tail: seq<Spelling>, more: seq<seq<Spelling>>, isAbs: bool)
    requires t != [] && t[0] != DOT && ReadUnit(t).Unit?
    requires t[ReadUnit(t).used..] == SpellName([tail] + more, isAbs) && LabelSpells(tail, [])
    ensures var first := [SpellingOf(t)] + tail;
            && t == SpellName([first] + more, isAbs) && LabelSpells(first, [])
            && LabelOf(first) == [ReadUnit(t).b] + LabelOf(tail)
  {
    var u, n := SpellingOf(t), ReadUnit(t).used;
    UnitIsSpelling(t);
    assert t == SpellName([[u] + tail] + more, isAbs) by {
      assert t == t[..n] + t[n..];
      NameGrows(u, tail, more, isAbs);
    }
    assert LabelSpells([u] + tail, []) && LabelOf([u] + tail) == [u.b] + LabelOf(tail) by {
      FollowedBy(u, tail, t[n..], more, isAbs);
      assert ([u] + tail)[1..] == tail;
    }
  }

  lemma NameGrows(u: Spelling, tail: seq<Spelling>, more: seq<seq<Spelling>>, isAbs: bool)
    ensures SpellName([[u] + tail] + more, isAbs) == Spell(u) + SpellName([tail] + more, isAbs)
  {
    assert ([u] + tail)[1..] == tail;
    assert ([[u] + tail] + more)[1..] == more && ([tail] + more)[1..] == more;
    var end := if more != [] then [DOT] + SpellName(more, isAbs) else if isAbs then [DOT] else [];
    assert (Spell(u) + SpellLabel(tail)) + end == Spell(u) + (SpellLabel(tail) + end);
  }

  /** What may be written in front of a whole text may be written in front of its first label. */
  lemma FollowedBy(u: Spelling, tail: seq<Spelling>, t: seq<byte>, more: seq<seq<Spelling>>, isAbs: bool)
    requires t == SpellName([tail] + more, isAbs) && Spells(u, t)
    ensures Spells(u, SpellLabel(tail) + [])
  {
    var text := SpellLabel(tail);
    assert text + [] == text;
    if text != [] {
      assert t[0] == text[0];
    }
  }

  /** A text is accepted exactly if it is the root or spells a name: no empty label, no bad escape. */
  lemma ParsesExactly(t: seq<byte>)
    ensures ParseName(t).Some? <==>
              || t == [] || t == [DOT]
              || exists labels, isAbs :: labels != [] && NameSpells(labels) && t == SpellName(labels, isAbs)
  {
    if t != [] && t != [DOT] {
      if ParseName(t).Some? {
        var first, more, isAbs := ParsesAreSpellings(t, [], []);
        assert NameSpells([first] + more);
      }
      forall labels, isAbs | labels != [] && NameSpells(labels) && t == SpellName(labels, isAbs)
        ensures ParseName(t).Some?
      {
        AnySpellingReads(labels, isAbs);
      }
    }
  }

  /** Which bytes are printed as they are, behind a backslash, and in three decimal digits. */
  lemma EscapedExactly(b: byte)
    ensures var special := {0x22, 0x24, 0x2e, 0x3b, 0x40, 0x5c};
            Escape(b) == Spell(if b in special then Quoted(b) else if 0x21 <= b <= 0x7e then AsIs(b) else Decimal(b, 3))
  {
    MiddleDigit(b);
  }

  lemma MiddleDigit(b: byte)
    ensures b % 100 / 10 == b / 10 % 10
  {
    assert b == b / 100 * 100 + b % 100;
  }
}
