/** The scanner and parser objects: a cursor over the text, and one token of lookahead. */
module JsonReader {
  import opened Bytes
  import opened JsonText
  import opened JsonLexer
  import opened JsonParser
  import opened Wrappers

  // ---------------------------------------------------------------- token values

  function Prepend(out: seq<byte>, r: Option<seq<byte>>): Option<seq<byte>> {
    if r.Some? then Some(out + r.value) else None
  }

  lemma PrependNothing(r: Option<seq<byte>>)
    ensures Prepend([], r) == r
  {
    if r.Some? {
      assert [] + r.value == r.value;
    }
  }

  lemma DecodeTurn(result: seq<byte>, s: seq<byte>)
    requires s != []
    ensures match DecodeChar(s)
            case BadCode => Prepend(result, DecodeBody(s)) == None
            case Decoded(out, used) =>
              Prepend(result, DecodeBody(s)) == Prepend(result + out, DecodeBody(s[Least(used, |s|)..]))
  {
    match DecodeChar(s)
    case BadCode =>
    case Decoded(out, used) =>
      var rest := DecodeBody(s[Least(used, |s|)..]);
      if rest.Some? {
        assert result + (out + rest.value) == (result + out) + rest.value;
      }
  }

  /** get_string, on the bytes between the quotes: it throws, or appends one character after another. */
  method GetString(body: seq<byte>) returns (r: Option<seq<byte>>)
    ensures r == DecodeBody(body)
  {
    var result := [];
    var i := 0;
    assert body[0..] == body;
    PrependNothing(DecodeBody(body));
    while i < |body|
      invariant 0 <= i <= |body|
      invariant DecodeBody(body) == Prepend(result, DecodeBody(body[i..]))
    {
      DecodeTurn(result, body[i..]);
      match DecodeChar(body[i..])
      case BadCode =>
        return None;
      case Decoded(out, used) =>
        assert body[i..][Least(used, |body| - i)..] == body[i + Least(used, |body| - i)..];
        result := result + out;
        i := i + Least(used, |body| - i);
    }
    assert body[i..] == [] && result + [] == result;
    r := Some(result);
  }

  // ---------------------------------------------------------------- the scanner

  function Plus(n: nat, r: Option<nat>): Option<nat> {
    if r.Some? then Some(n + r.value) else None
  }

  lemma BodyTurn(s: seq<byte>, i: nat, n: nat)
    requires i <= |s| && n == CharLength(s[i..]) && n > 0
    ensures Plus(i, BodyLength(s[i..])) == Plus(i + n, BodyLength(s[i + n..]))
  {
    var t := s[i..];
    assert t[n..] == s[i + n..];
    assert BodyLength(t) == Plus(n, BodyLength(t[n..]));
  }

  method StringBody(s: seq<byte>) returns (r: Option<nat>)
    ensures r == BodyLength(s)
  {
    var i := 0;
    assert s[0..] == s;
    var n := CharLength(s);
    while n > 0
      invariant 0 <= i <= |s| && n == CharLength(s[i..])
      invariant BodyLength(s) == Plus(i, BodyLength(s[i..]))
      decreases |s| - i
    {
      BodyTurn(s, i, n);
      i := i + n;
      n := CharLength(s[i..]);
    }
    BodyEnd(s[i..]);
    r := if At(s, i) == QUOTE then Some(i) else None;
  }

  lemma BodyEnd(s: seq<byte>)
    requires CharLength(s) == 0
    ensures BodyLength(s) == if At(s, 0) == QUOTE then Some(0) else None
  {
  }

  method DigitRun(s: seq<byte>, i: nat) returns (e: nat)
    requires i <= |s|
    ensures e == DigitsEnd(s, i)
  {
    e := i;
    while e < |s| && IsDigit(s[e])
      invariant i <= e <= |s| && DigitsEnd(s, i) == DigitsEnd(s, e)
    {
      e := e + 1;
    }
  }

  /** The optional exponent; without digits in it, the scanner goes back to its marker. */
  method Exponent(s: seq<byte>, i: nat) returns (e: nat)
    requires i <= |s|
    ensures e == ExponentEnd(s, i)
  {
    e := i;
    if At(s, i) == 0x65 || At(s, i) == 0x45 {
      var d := i + 1;
      if At(s, d) == 0x2b || At(s, d) == 0x2d {
        d := d + 1;
      }
      if IsDigit(At(s, d)) {
        e := DigitRun(s, d);
      }
    }
  }

  method NumberToken(s: seq<byte>, start: nat) returns (t: Token, n: nat)
    requires start < |s| && IsDigit(s[start])
    ensures Scanned(t, n) == ScanNumber(s, start)
  {
    n := start + 1;
    if s[start] != 0x30 {
      n := DigitRun(s, start);
    }
    if At(s, n) != 0x2e {
      n := Exponent(s, n);
    } else if IsDigit(At(s, n + 1)) {
      n := DigitRun(s, n + 1);
      n := Exponent(s, n);
    }
    t := ValueNumber(NumberValue(s, start, n));
  }

  method StringToken(s: seq<byte>) returns (t: Token, n: nat)
    requires s != []
    ensures Scanned(t, n) == ScanString(s)
  {
    var body := StringBody(s[1..]);
    if body.None? {
      return ParseError, 1;
    }
    var text := GetString(s[1..][..body.value]);
    return ValueString(text), body.value + 2;
  }

  predicate IsBlankAt(s: seq<byte>, i: nat) {
    i < |s| && (IsSpace(s[i]) || StartsWith(s[i..], BYTE_ORDER_MARK))
  }

  function BlankLength(s: seq<byte>, i: nat): (n: nat)
    requires IsBlankAt(s, i)
    ensures n >= 1 && i + n <= |s|
  {
    if IsSpace(s[i]) then 1 else 3
  }

  lemma BlankTurn(s: seq<byte>, i: nat, n: nat, skipped: nat)
    requires IsBlankAt(s, i) && n == BlankLength(s, i)
    ensures Skipped(skipped, Scan(s[i..])) == Skipped(skipped + n, Scan(s[i + n..]))
  {
    assert s[i..][n..] == s[i + n..];
    assert Scan(s[i..]) == Skipped(n, Scan(s[i + n..]));
  }

  lemma TokensAt(s: seq<byte>, i: nat, t: Token, used: nat)
    requires i <= |s| && Scan(s[i..]) == Scanned(t, used)
    ensures if IsFinal(t) then Tokens(s[i..]) == [t]
            else i + used <= |s| && Tokens(s[i..]) == [t] + Tokens(s[i + used..])
  {
    if !IsFinal(t) {
      assert s[i..][used..] == s[i + used..];
    }
  }

  lemma Behind(t: Token, ts: seq<Token>)
    ensures ([t] + ts)[1..] == ts
  {
  }

  method TakeToken(s: seq<byte>) returns (t: Token, n: nat)
    requires s != []
    ensures Scanned(t, n) == ScanHere(s)
  {
    t, n := ParseError, 1;
    if s[0] == QUOTE {
      t, n := StringToken(s);
    } else if IsDigit(s[0]) {
      t, n := NumberToken(s, 0);
    } else if s[0] == 0x2d && IsDigit(At(s, 1)) {
      t, n := NumberToken(s, 1);
    } else if s[0] == 0x6e && StartsWith(s, NULL_TEXT) {
      t, n := LiteralNull, 4;
    } else if s[0] == 0x74 && StartsWith(s, TRUE_TEXT) {
      t, n := LiteralTrue, 4;
    } else if s[0] == 0x66 && StartsWith(s, FALSE_TEXT) {
      t, n := LiteralFalse, 5;
    } else {
      match s[0] {
        case 0x5b => t := BeginArray;
        case 0x5d => t := EndArray;
        case 0x7b => t := BeginObject;
        case 0x7d => t := EndObject;
        case 0x2c => t := ValueSeparator;
        case 0x3a => t := NameSeparator;
        case _ =>
      }
    }
  }

  class Lexer {
    const content: seq<byte>
    var cursor: nat

    constructor (s: seq<byte>)
      ensures content == s && cursor == 0
    {
      content := s;
      cursor := 0;
    }

    /** Moves over white space and byte order marks. */
    method SkipBlanks()
      requires cursor <= |content|
      modifies this
      ensures old(cursor) <= cursor <= |content|
      ensures JsonLexer.Scan(old(content[cursor..]))
           == Skipped(cursor - old(cursor), JsonLexer.Scan(content[cursor..]))
      ensures !IsBlankAt(content, cursor)
    {
      ghost var start, scanned := cursor, JsonLexer.Scan(content[cursor..]);
      while IsBlankAt(content, cursor)
        invariant start <= cursor <= |content|
        invariant scanned == Skipped(cursor - start, JsonLexer.Scan(content[cursor..]))
        decreases |content| - cursor
      {
        var n := BlankLength(content, cursor);
        BlankTurn(content, cursor, n, cursor - start);
        cursor := cursor + n;
      }
    }

    /** scan(): one token, the cursor moved behind it. */
    method Scan() returns (t: Token)
      requires cursor <= |content|
      modifies this
      ensures cursor >= old(cursor)
      ensures Scanned(t, cursor - old(cursor)) == JsonLexer.Scan(old(content[cursor..]))
    {
      SkipBlanks();
      var n := 1;
      if At(content, cursor) == 0 {
        t := EndOfInput;
      } else {
        t, n := TakeToken(content[cursor..]);
      }
      cursor := cursor + n;
    }
  }

  // ---------------------------------------------------------------- the parser

  datatype Result = Value(value: Json) | Thrown | Unfollowed

  class Parser {
    const lexer: Lexer
    var last: Token

    ghost predicate Valid()
      reads this, lexer
    {
      !IsFinal(last) ==> lexer.cursor <= |lexer.content|
    }

    /** The tokens from the lookahead on. */
    ghost function Left(): (ts: seq<Token>)
      requires Valid()
      reads this, lexer
      ensures Ends(ts) && ts[0] == last
    {
      if IsFinal(last) then [last] else [last] + Tokens(lexer.content[lexer.cursor..])
    }

    ghost predicate Agrees(r: Result, o: Outcome)
      reads this, lexer
    {
      match o
      case Parsed(v, rest) => r == Value(v) && Valid() && Left() == rest
      case Rejected => r == Thrown
      case Inexact => r == Unfollowed
    }

    /** The constructor reads the first token. */
    constructor (s: seq<byte>)
      ensures fresh(lexer) && lexer.content == s && Valid() && Left() == Tokens(s)
    {
      var l := new Lexer(s);
      var t := l.Scan();
      assert s[0..] == s;
      lexer := l;
      last := t;
    }

    method GetToken()
      requires Valid() && !IsFinal(last)
      modifies this`last, lexer
      ensures Valid() && Left() == old(Left())[1..]
    {
      ghost var start := lexer.cursor;
      Behind(last, Tokens(lexer.content[start..]));
      last := lexer.Scan();
      TokensAt(lexer.content, start, last, lexer.cursor - start);
    }

    /** parse() */
    method Parse() returns (r: Result)
      requires Valid()
      modifies this`last, lexer
      ensures var o := ParseValue(old(Left()));
              r == if o.Parsed? && o.rest[0] == EndOfInput then Value(o.value)
                   else if o == Inexact then Unfollowed else Thrown
    {
      r := ParseInternal();
      if r.Value? && last != EndOfInput {
        r := Thrown;
      }
    }

    method ParseInternal() returns (r: Result)
      requires Valid()
      modifies this`last, lexer
      ensures Agrees(r, ParseValue(old(Left())))
      decreases |Left()|, 1
    {
      match last
      case BeginObject =>
        r := ParseObject();
      case BeginArray =>
        r := ParseArray();
      case LiteralNull =>
        GetToken();
        r := Value(Null);
      case LiteralTrue =>
        GetToken();
        r := Value(Bool(true));
      case LiteralFalse =>
        GetToken();
        r := Value(Bool(false));
      case ValueString(text) =>
        if text.None? {
          return Thrown;
        }
        GetToken();
        r := Value(Str(text.value));
      case ValueNumber(number) =>
        if number == NotANumber {
          return Thrown;
        }
        GetToken();
        r := if number.Integer? then Value(Int(number.n)) else Unfollowed;
      case _ =>
        r := Thrown;
    }

    /** One key, its colon and its value. */
    method ParseMember() returns (key: seq<byte>, r: Result)
      requires Valid()
      modifies this`last, lexer
      ensures var ts := old(Left());
              if !ts[0].ValueString? || ts[0].text.None? || ts[1] != NameSeparator then r == Thrown
              else key == ts[0].text.value && Agrees(r, ParseValue(ts[2..]))
      decreases |Left()|, 0
    {
      key := [];
      if !last.ValueString? || last.text.None? {
        return key, Thrown;
      }
      key := last.text.value;
      GetToken();
      if last != NameSeparator {
        return key, Thrown;
      }
      GetToken();
      r := ParseInternal();
    }

    /** The body of the member loop. */
    method NextMember(done: seq<Member>) returns (r: Result, members: seq<Member>)
      requires Valid()
      modifies this`last, lexer
      ensures var before := old(MembersOutcome(Left(), done, true));
              if r.Value? then
                Valid() && |Left()| < |old(Left())| && MembersOutcome(Left(), members, last == ValueSeparator) == before
              else Agrees(r, before)
      decreases |Left()|, 2
    {
      members := done;
      if last == ValueSeparator {
        GetToken();
      }
      MemberLoopTurn(Left(), done);
      var key;
      key, r := ParseMember();
      if r.Value? {
        members := Insert(done, key, r.value);
      }
    }

    /** The body of the item loop. */
    method NextItem(done: seq<Json>) returns (r: Result, items: seq<Json>)
      requires Valid()
      modifies this`last, lexer
      ensures var before := old(ItemsOutcome(Left(), done, true));
              if r.Value? then
                Valid() && |Left()| < |old(Left())| && ItemsOutcome(Left(), items, last == ValueSeparator) == before
              else Agrees(r, before)
      decreases |Left()|, 2
    {
      items := done;
      if last == ValueSeparator {
        GetToken();
      }
      ItemLoopTurn(Left(), done);
      r := ParseInternal();
      if r.Value? {
        items := done + [r.value];
      }
    }

    method ParseObject() returns (r: Result)
      requires Valid() && last == BeginObject
      modifies this`last, lexer
      ensures Agrees(r, ParseValue(old(Left())))
      decreases |Left()|, 0
    {
      ghost var all := Left();
      GetToken();
      ObjectStart(all);
      if last == EndObject {
        GetToken();
        return Value(Obj([]));
      }
      if last == ValueSeparator {
        return Thrown;
      }
      var members := [];
      var more := true;
      while more
        invariant Valid() && |Left()| < |all|
        invariant ParseMembers(all[1..], []) == MembersOutcome(Left(), members, more)
        decreases more, |Left()|
      {
        r, members := NextMember(members);
        if !r.Value? {
          return;
        }
        more := last == ValueSeparator;
      }
      if last != EndObject {
        return Thrown;
      }
      GetToken();
      r := Value(Obj(members));
    }

    method ParseArray() returns (r: Result)
      requires Valid() && last == BeginArray
      modifies this`last, lexer
      ensures Agrees(r, ParseValue(old(Left())))
      decreases |Left()|, 0
    {
      ghost var all := Left();
      GetToken();
      ArrayStart(all);
      if last == EndArray {
        GetToken();
        return Value(Arr([]));
      }
      if last == ValueSeparator {
        return Thrown;
      }
      var items := [];
      var more := true;
      while more
        invariant Valid() && |Left()| < |all|
        invariant ParseItems(all[1..], []) == ItemsOutcome(Left(), items, more)
        decreases more, |Left()|
      {
        r, items := NextItem(items);
        if !r.Value? {
          return;
        }
        more := last == ValueSeparator;
      }
      if last != EndArray {
        return Thrown;
      }
      GetToken();
      r := Value(Arr(items));
    }
  }

  /** What is still to come of a member loop that has `more` to read, or has not. */
  ghost function MembersOutcome(ts: seq<Token>, members: seq<Member>, more: bool): Outcome
    requires Ends(ts)
  {
    if more then ParseMembers(if ts[0] == ValueSeparator then ts[1..] else ts, members)
    else if ts[0] == EndObject then Parsed(Obj(members), ts[1..])
    else Rejected
  }

  ghost function ItemsOutcome(ts: seq<Token>, items: seq<Json>, more: bool): Outcome
    requires Ends(ts)
  {
    if more then ParseItems(if ts[0] == ValueSeparator then ts[1..] else ts, items)
    else if ts[0] == EndArray then Parsed(Arr(items), ts[1..])
    else Rejected
  }

  lemma ItemLoopTurn(ts: seq<Token>, done: seq<Json>)
    requires Ends(ts)
    ensures var o := ParseValue(ts);
            ParseItems(ts, done)
            == if o.Parsed? then ItemsOutcome(o.rest, done + [o.value], o.rest[0] == ValueSeparator) else o
  {
  }

  lemma MemberLoopTurn(ts: seq<Token>, done: seq<Member>)
    requires Ends(ts)
    ensures if !ts[0].ValueString? || ts[0].text.None? || ts[1] != NameSeparator then ParseMembers(ts, done) == Rejected
            else
              var o := ParseValue(ts[2..]);
              if !o.Parsed? then ParseMembers(ts, done) == o
              else
                var members := Insert(done, ts[0].text.value, o.value);
                ParseMembers(ts, done) == MembersOutcome(o.rest, members, o.rest[0] == ValueSeparator)
  {
  }

  lemma ObjectStart(ts: seq<Token>)
    requires Ends(ts) && ts[0] == BeginObject
    ensures ParseValue(ts) == if ts[1] == EndObject then Parsed(Obj([]), ts[2..]) else ParseMembers(ts[1..], [])
    ensures ts[1] == ValueSeparator ==> ParseValue(ts) == Rejected
  {
  }

  lemma ArrayStart(ts: seq<Token>)
    requires Ends(ts) && ts[0] == BeginArray
    ensures ParseValue(ts) == if ts[1] == EndArray then Parsed(Arr([]), ts[2..]) else ParseItems(ts[1..], [])
    ensures ts[1] == ValueSeparator ==> ParseValue(ts) == Rejected
  {
  }

  /** Reading a text with the two objects computes its parse. */
  method Read(s: seq<byte>) returns (r: Result)
    ensures match JsonParser.Parse(s)
            case Parsed(v, _) => r == Value(v)
            case Rejected => r == Thrown
            case Inexact => r == Unfollowed
  {
    var p := new Parser(s);
    r := p.Parse();
  }
}
