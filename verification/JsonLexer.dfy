/**
  The scanner: the tokens of a text, and the value of string and number tokens.
*/
module JsonLexer {
  import opened Bytes
  import opened JsonText
  import opened Wrappers

  /** The value of a number token: a 64-bit integer, another number, or not a number after all. */
  datatype Number = Integer(n: int) | Other(lexeme: seq<byte>) | NotANumber

  /**
    A token with the value the parser may ask for; a string that get_string rejects has none.
    EndOfInput and ParseError end the token list: the parser never reads past them.
  */
  datatype Token =
    | BeginArray | EndArray | BeginObject | EndObject | NameSeparator | ValueSeparator
    | LiteralNull | LiteralTrue | LiteralFalse
    | ValueString(text: Option<seq<byte>>)
    | ValueNumber(number: Number)
    | EndOfInput
    | ParseError

  /** A token and how many bytes the scanner moved, white space included. */
  datatype Scanned = Scanned(token: Token, used: nat)

  predicate IsSpace(b: byte) {
    b in {0x20, 0x09, 0x0a, 0x0d}
  }

  predicate IsDigit(b: byte) {
    0x30 <= b <= 0x39
  }

  predicate IsHex(b: byte) {
    IsDigit(b) || 0x41 <= b <= 0x46 || 0x61 <= b <= 0x66
  }

  /** The byte at position i of a buffer that ends with a zero byte. */
  function At(s: seq<byte>, i: nat): byte {
    if i < |s| then s[i] else 0
  }

  // ---------------------------------------------------------------- strings

  /** Characters that may follow a backslash, `u` apart. */
  predicate IsEscapeLetter(b: byte) {
    b in {0x22, 0x5c, 0x2f, 0x62, 0x66, 0x6e, 0x72, 0x74}
  }

  /** Characters that may stand for themselves in a string; 0x10 to 0x1f are let through. */
  predicate IsPlain(b: byte) {
    b >= 0x10 && b != QUOTE && b != BACKSLASH
  }

  /** How many bytes the next character of a string takes, or 0 if it is malformed or the quote. */
  function CharLength(s: seq<byte>): (n: nat)
    ensures n <= |s|
  {
    if s == [] then 0
    else if IsPlain(s[0]) then 1
    else if s[0] != BACKSLASH then 0
    else if IsEscapeLetter(At(s, 1)) then 2
    else if At(s, 1) == 0x75 && IsHex(At(s, 2)) && IsHex(At(s, 3)) && IsHex(At(s, 4)) && IsHex(At(s, 5)) then 6
    else 0
  }

  /** The length of the string body up to the closing quote, if it is well formed. */
  function BodyLength(s: seq<byte>): (r: Option<nat>)
    ensures r.Some? ==> r.value < |s| && s[r.value] == QUOTE
    decreases |s|
  {
    var n := CharLength(s);
    if n > 0 then
      var rest := BodyLength(s[n..]);
      if rest.Some? then Some(n + rest.value) else None
    else if At(s, 0) == QUOTE then Some(0)
    else None
  }

  function HexValue(b: byte): nat {
    if b <= 0x39 then (if b >= 0x30 then b - 0x30 else 0)
    else if b <= 0x46 then (if b >= 0x41 then b - 0x41 + 10 else 0)
    else if 0x61 <= b <= 0x66 then b - 0x61 + 10 else 0
  }

  /** The code of a four-digit escape. */
  function Code(s: seq<byte>): nat {
    ((HexValue(At(s, 0)) * 16 + HexValue(At(s, 1))) * 16 + HexValue(At(s, 2))) * 16 + HexValue(At(s, 3))
  }

  /** to_unicode: the UTF-8 bytes of a code point, possibly given as a surrogate pair. */
  function Utf8(high: nat, low: nat): Option<seq<byte>> {
    if 0xd800 <= high <= 0xdbff && !(0xdc00 <= low <= 0xdfff) then None
    else
      var c := if 0xd800 <= high <= 0xdbff then high * 1024 + low - 0x35fdc00 else high;
      if c < 0x80 then Some([c])
      else if c <= 0x7ff then Some([0xc0 + c / 64, 0x80 + c % 64])
      else if c <= 0xffff then Some([0xe0 + c / 4096, 0x80 + c / 64 % 64, 0x80 + c % 64])
      else if c <= 0x10ffff then
        Some([0xf0 + c / 262144, 0x80 + c / 4096 % 64, 0x80 + c / 64 % 64, 0x80 + c % 64])
      else None
  }

  function UnescapeLetter(b: byte): byte {
    match b
    case 0x74 => 0x09
    case 0x62 => 0x08
    case 0x66 => 0x0c
    case 0x6e => 0x0a
    case 0x72 => 0x0d
    case _ => b
  }

  /** One step of get_string: the bytes produced and how many body bytes they come from. */
  datatype Decoded = Decoded(out: seq<byte>, used: nat) | BadCode

  function Least(a: nat, b: nat): nat {
    if a < b then a else b
  }

  function DecodeChar(s: seq<byte>): (d: Decoded)
    requires s != []
    ensures d.Decoded? ==> 1 <= d.used
  {
    if s[0] != BACKSLASH then Decoded([s[0]], 1)
    else if IsEscapeLetter(At(s, 1)) then Decoded([UnescapeLetter(s[1])], 2)
    else if At(s, 1) != 0x75 then Decoded([], 2)
    else
      var high := Code(s[Least(2, |s|)..]);
      if 0xd800 <= high <= 0xdbff then
        if At(s, 6) != BACKSLASH || At(s, 7) != 0x75 then BadCode
        else
          var u := Utf8(high, Code(s[Least(8, |s|)..]));
          if u.Some? then Decoded(u.value, 12) else BadCode
      else
        var u := Utf8(high, 0);
        if u.Some? then Decoded(u.value, 6) else BadCode
  }

  /** get_string on the body of a string token. */
  function DecodeBody(s: seq<byte>): Option<seq<byte>>
    decreases |s|
  {
    if s == [] then Some([])
    else match DecodeChar(s)
      case BadCode => None
      case Decoded(out, used) =>
        var rest := DecodeBody(s[Least(used, |s|)..]);
        if rest.Some? then Some(out + rest.value) else None
  }

  // ---------------------------------------------------------------- numbers

  /** The end of a run of digits. */
  function DigitsEnd(s: seq<byte>, i: nat): (e: nat)
    ensures e >= i
    ensures i <= |s| ==> e <= |s|
    decreases |s| - i
  {
    if i < |s| && IsDigit(s[i]) then DigitsEnd(s, i + 1) else i
  }

  /** The end of an exponent that starts at i, or i itself if it is malformed. */
  function ExponentEnd(s: seq<byte>, i: nat): (e: nat)
    requires i <= |s|
    ensures i <= e <= |s|
  {
    if At(s, i) != 0x65 && At(s, i) != 0x45 then i
    else
      var d := if At(s, i + 1) == 0x2b || At(s, i + 1) == 0x2d then i + 2 else i + 1;
      if IsDigit(At(s, d)) then DigitsEnd(s, d) else i
  }

  /** The end of the fraction and exponent behind the integer part that ends at i. */
  function NumberTailEnd(s: seq<byte>, i: nat): (e: nat)
    requires i <= |s|
    ensures i <= e <= |s|
  {
    if At(s, i) == 0x2e then
      if IsDigit(At(s, i + 1)) then ExponentEnd(s, DigitsEnd(s, i + 1)) else i
    else ExponentEnd(s, i)
  }

  function IntegerEnd(s: seq<byte>, i: nat): (e: nat)
    requires i < |s| && IsDigit(s[i])
    ensures i < e <= |s|
  {
    if s[i] == 0x30 then i + 1 else DigitsEnd(s, i)
  }

  function DigitsValue(t: seq<byte>): (v: int)
    ensures v >= 0
  {
    if t == [] then 0 else DigitsValue(t[..|t| - 1]) * 10 + HexValue(t[|t| - 1])
  }

  /**
    strtold, which get_number runs on the buffer from the start of the token, reads on behind
    the token: a point without digits after an integer, digits behind a leading zero, or a
    hexadecimal number.
  */
  predicate ReadsOn(s: seq<byte>, start: nat, end: nat)
    requires start < |s| && IsDigit(s[start])
  {
    || (At(s, end) == 0x2e && IntegerEnd(s, start) == end)
    || (start + 1 == end && s[start] == 0x30 && (IsDigit(At(s, end)) || HexBehind(s, end)))
  }

  /** What makes a zero in front of it a hexadecimal number. */
  predicate HexBehind(s: seq<byte>, i: nat) {
    && (At(s, i) == 0x78 || At(s, i) == 0x58)
    && (IsHex(At(s, i + 1)) || (At(s, i + 1) == 0x2e && IsHex(At(s, i + 2))))
  }

  /** get_number on the token s[..end], whose digits start at `start`. */
  function NumberValue(s: seq<byte>, start: nat, end: nat): Number
    requires start < end <= |s| && IsDigit(s[start])
  {
    if ReadsOn(s, start, end) then NotANumber
    else if IntegerEnd(s, start) != end then Other(s[..end])
    else
      var n: int := if start == 0 then DigitsValue(s[..end]) else -DigitsValue(s[start..end]);
      if INT_MIN <= n <= INT_MAX then Integer(n) else Other(s[..end])
  }

  // ---------------------------------------------------------------- tokens

  predicate StartsWith(s: seq<byte>, word: seq<byte>) {
    |word| <= |s| && s[..|word|] == word
  }

  function ScanWord(s: seq<byte>, word: seq<byte>, token: Token): Scanned {
    if StartsWith(s, word) then Scanned(token, |word|) else Scanned(ParseError, 1)
  }

  function ScanString(s: seq<byte>): Scanned
    requires s != []
  {
    var body := BodyLength(s[1..]);
    if body.Some? then Scanned(ValueString(DecodeBody(s[1..][..body.value])), body.value + 2)
    else Scanned(ParseError, 1)
  }

  function ScanNumber(s: seq<byte>, start: nat): (r: Scanned)
    requires start < |s| && IsDigit(s[start])
  {
    var e := NumberTailEnd(s, IntegerEnd(s, start));
    Scanned(ValueNumber(NumberValue(s, start, e)), e)
  }

  const BYTE_ORDER_MARK: seq<byte> := [0xef, 0xbb, 0xbf]

  /** scan(): skips white space and byte order marks, then takes one token. */
  function Scan(s: seq<byte>): (r: Scanned)
    ensures r.token != EndOfInput ==> 1 <= r.used <= |s|
    decreases |s|
  {
    if s == [] || s[0] == 0 then Scanned(EndOfInput, 1)
    else if IsSpace(s[0]) then Skipped(1, Scan(s[1..]))
    else if StartsWith(s, BYTE_ORDER_MARK) then Skipped(3, Scan(s[3..]))
    else ScanHere(s)
  }

  function Skipped(n: nat, r: Scanned): Scanned {
    r.(used := n + r.used)
  }

  function ScanHere(s: seq<byte>): (r: Scanned)
    requires s != []
    ensures 1 <= r.used <= |s|
  {
    if s[0] == 0x5b then Scanned(BeginArray, 1)
    else if s[0] == 0x5d then Scanned(EndArray, 1)
    else if s[0] == 0x7b then Scanned(BeginObject, 1)
    else if s[0] == 0x7d then Scanned(EndObject, 1)
    else if s[0] == 0x2c then Scanned(ValueSeparator, 1)
    else if s[0] == 0x3a then Scanned(NameSeparator, 1)
    else if s[0] == 0x6e then ScanWord(s, NULL_TEXT, LiteralNull)
    else if s[0] == 0x74 then ScanWord(s, TRUE_TEXT, LiteralTrue)
    else if s[0] == 0x66 then ScanWord(s, FALSE_TEXT, LiteralFalse)
    else if s[0] == 0x2d then if IsDigit(At(s, 1)) then ScanNumber(s, 1) else Scanned(ParseError, 1)
    else if IsDigit(s[0]) then ScanNumber(s, 0)
    else if s[0] == QUOTE then ScanString(s)
    else Scanned(ParseError, 1)
  }

  predicate IsFinal(t: Token) {
    t == EndOfInput || t == ParseError
  }

  /** All the tokens of a text. */
  function Tokens(s: seq<byte>): (ts: seq<Token>)
    ensures |ts| >= 1 && IsFinal(ts[|ts| - 1])
    decreases |s|
  {
    var r := Scan(s);
    if IsFinal(r.token) then [r.token] else [r.token] + Tokens(s[r.used..])
  }

  // ---------------------------------------------------------------- the tokens of a serialized value

  function TokensOf(v: Json): seq<Token>
    decreases v, 1
  {
    match v
    case Null => [LiteralNull]
    case Bool(b) => [if b then LiteralTrue else LiteralFalse]
    case Int(n) => [ValueNumber(Integer(n))]
    case Str(s) => [ValueString(Some(s))]
    case Arr(items) => [BeginArray] + (ItemTokens(items) + [EndArray])
    case Obj(members) => [BeginObject] + (MemberTokens(members) + [EndObject])
  }

  function ItemTokens(items: seq<Json>): seq<Token>
    decreases items, 0
  {
    if items == [] then []
    else TokensOf(items[0]) + if |items| == 1 then [] else [ValueSeparator] + ItemTokens(items[1..])
  }

  function MemberTokens(members: seq<Member>): seq<Token>
    decreases members, 0
  {
    if members == [] then []
    else [ValueString(Some(members[0].key))] + ([NameSeparator] + (TokensOf(members[0].value)
         + if |members| == 1 then [] else [ValueSeparator] + MemberTokens(members[1..])))
  }

  /** Text that cannot prolong the token before it. */
  predicate Delimits(post: seq<byte>) {
    post == [] || (!IsDigit(post[0]) && post[0] !in {0x2e, 0x65, 0x45, 0x78, 0x58})
  }

  predicate Blank(ws: seq<byte>) {
    forall i :: 0 <= i < |ws| ==> IsSpace(ws[i])
  }

  lemma {:induction false} TokensSkipBlank(ws: seq<byte>, s: seq<byte>)
    requires Blank(ws)
    ensures Tokens(ws + s) == Tokens(s)
    decreases |ws|
  {
    if ws == [] {
      assert ws + s == s;
    } else {
      TokensSkipBlank(ws[1..], s);
      TokensSkipOne(ws[0], ws[1..] + s);
      assert ws + s == [ws[0]] + (ws[1..] + s);
    }
  }

  lemma TokensSkipOne(w: byte, s: seq<byte>)
    requires IsSpace(w)
    ensures Tokens([w] + s) == Tokens(s)
  {
    var t := [w] + s;
    assert t[1..] == s;
    var r := Scan(s);
    assert Scan(t) == Skipped(1, r);
    if !IsFinal(r.token) {
      assert t[1 + r.used..] == s[r.used..];
    }
  }

  /** A token that the scanner finds right at the front of the text. */
  lemma TokensFront(t: seq<byte>, s: seq<byte>, token: Token)
    requires t != [] && t[0] != 0 && !IsSpace(t[0]) && t[0] != 0xef && !IsFinal(token)
    requires ScanHere(t + s) == Scanned(token, |t|)
    ensures Tokens(t + s) == [token] + Tokens(s)
  {
    assert (t + s)[0] == t[0];
    assert (t + s)[|t|..] == s;
  }

  lemma PunctuationTokens(b: byte, s: seq<byte>, token: Token)
    requires ScanHere([b]) == Scanned(token, 1) && b in {0x5b, 0x5d, 0x7b, 0x7d, 0x2c, 0x3a}
    ensures Tokens([b] + s) == [token] + Tokens(s)
  {
    assert ScanHere([b] + s) == Scanned(token, 1);
    TokensFront([b], s, token);
  }

  lemma WordTokens(s: seq<byte>)
    ensures Tokens(NULL_TEXT + s) == [LiteralNull] + Tokens(s)
    ensures Tokens(TRUE_TEXT + s) == [LiteralTrue] + Tokens(s)
    ensures Tokens(FALSE_TEXT + s) == [LiteralFalse] + Tokens(s)
  {
    assert (NULL_TEXT + s)[..4] == NULL_TEXT;
    assert (TRUE_TEXT + s)[..4] == TRUE_TEXT;
    assert (FALSE_TEXT + s)[..5] == FALSE_TEXT;
    TokensFront(NULL_TEXT, s, LiteralNull);
    TokensFront(TRUE_TEXT, s, LiteralTrue);
    TokensFront(FALSE_TEXT, s, LiteralFalse);
  }

  // ---------------------------------------------------------------- integers read back

  predicate AllDigits(t: seq<byte>) {
    forall i :: 0 <= i < |t| ==> IsDigit(t[i])
  }

  lemma {:induction false} DigitsReadBack(n: nat)
    ensures AllDigits(Digits(n)) && DigitsValue(Digits(n)) == n
    ensures Digits(n)[0] == 0x30 ==> n == 0
    ensures n == 0 ==> Digits(n) == [0x30]
  {
    if n >= 10 {
      DigitsReadBack(n / 10);
      var t := Digits(n);
      assert t[..|t| - 1] == Digits(n / 10);
      assert HexValue(t[|t| - 1]) == n % 10;
    } else {
      assert Digits(n)[..0] == [];
    }
  }

  lemma {:induction false} DigitsEndAt(s: seq<byte>, i: nat, e: nat)
    requires i <= e <= |s| && (forall k :: i <= k < e ==> IsDigit(s[k])) && !IsDigit(At(s, e))
    ensures DigitsEnd(s, i) == e
    decreases e - i
  {
    if i < e {
      DigitsEndAt(s, i + 1, e);
    }
  }

  /** An integer, behind its sign if it has one, ends where its digits end. */
  lemma IntegerScans(pre: seq<byte>, n: nat, post: seq<byte>)
    requires |pre| <= 1 && Delimits(post)
    ensures var s := pre + Digits(n) + post;
            && IsDigit(s[|pre|])
            && IntegerEnd(s, |pre|) == |pre| + |Digits(n)|
            && NumberTailEnd(s, |pre| + |Digits(n)|) == |pre| + |Digits(n)|
            && !ReadsOn(s, |pre|, |pre| + |Digits(n)|)
            && s[|pre|..|pre| + |Digits(n)|] == Digits(n)
  {
    DigitsReadBack(n);
    var s := pre + Digits(n) + post;
    var e := |pre| + |Digits(n)|;
    assert At(s, e) == At(post, 0);
    assert forall k :: |pre| <= k < e ==> s[k] == Digits(n)[k - |pre|];
    DigitsEndAt(s, |pre|, e);
  }

  lemma NaturalRead(s: seq<byte>, n: nat)
    requires n <= INT_MAX && s != [] && IsDigit(s[0])
    requires var e := IntegerEnd(s, 0);
             NumberTailEnd(s, e) == e && !ReadsOn(s, 0, e) && DigitsValue(s[..e]) == n
    ensures ScanNumber(s, 0) == Scanned(ValueNumber(Integer(n)), IntegerEnd(s, 0))
  {
  }

  lemma NaturalEnds(n: nat, post: seq<byte>)
    requires Delimits(post)
    ensures var s, e := Digits(n) + post, |Digits(n)|;
            && IsDigit(s[0]) && IntegerEnd(s, 0) == e && NumberTailEnd(s, e) == e && !ReadsOn(s, 0, e)
            && s[..e] == Digits(n)
  {
    IntegerScans([], n, post);
    assert [] + Digits(n) + post == Digits(n) + post;
  }

  lemma NaturalScans(n: nat, post: seq<byte>)
    requires n <= INT_MAX && Delimits(post)
    ensures ScanHere(Digits(n) + post) == Scanned(ValueNumber(Integer(n)), |Digits(n)|)
  {
    var s := Digits(n) + post;
    NaturalEnds(n, post);
    assert DigitsValue(s[..|Digits(n)|]) == n by {
      DigitsReadBack(n);
    }
    NaturalRead(s, n);
    assert ScanHere(s) == ScanNumber(s, 0);
  }

  lemma NegativeScans(m: int, post: seq<byte>)
    requires 0 <= m && INT_MIN <= -m && Delimits(post)
    ensures ScanHere([0x2d] + Digits(m) + post) == Scanned(ValueNumber(Integer(-m)), 1 + |Digits(m)|)
  {
    var s := [0x2d] + Digits(m) + post;
    IntegerScans([0x2d], m, post);
    DigitsReadBack(m);
    assert ScanHere(s) == ScanNumber(s, 1);
  }

  lemma IntTokens(n: int, post: seq<byte>)
    requires INT_MIN <= n <= INT_MAX && Delimits(post)
    ensures Tokens(IntText(n) + post) == [ValueNumber(Integer(n))] + Tokens(post)
  {
    if n < 0 {
      NegativeScans(-n, post);
    } else {
      NaturalScans(n, post);
      DigitsReadBack(n);
    }
    TokensFront(IntText(n), post, ValueNumber(Integer(n)));
  }

  // ---------------------------------------------------------------- strings read back

  lemma EscapeScans(b: byte, rest: seq<byte>)
    ensures CharLength(Escape(b) + rest) == |Escape(b)|
  {
    var s := Escape(b) + rest;
    if !HasShortEscape(b) && b <= 0x1f {
      assert s[1] == 0x75 && s[2] == 0x30 && s[3] == 0x30 && s[4] == HexDigit(b / 16) && s[5] == HexDigit(b % 16);
    } else if HasShortEscape(b) {
      assert s[1] == ShortEscape(b);
    }
  }

  lemma {:induction false} BodyScans(t: seq<byte>, post: seq<byte>)
    ensures BodyLength(EscapeAll(t) + ([QUOTE] + post)) == Some(|EscapeAll(t)|)
    decreases |t|
  {
    if t == [] {
      assert EscapeAll(t) + ([QUOTE] + post) == [QUOTE] + post;
    } else {
      var more := EscapeAll(t[1..]) + ([QUOTE] + post);
      assert EscapeAll(t) + ([QUOTE] + post) == Escape(t[0]) + more;
      EscapeScans(t[0], more);
      assert (Escape(t[0]) + more)[|Escape(t[0])|..] == more;
      BodyScans(t[1..], post);
    }
  }

  lemma EscapeDecodes(b: byte, rest: seq<byte>)
    ensures DecodeChar(Escape(b) + rest) == Decoded([b], |Escape(b)|)
  {
    var s := Escape(b) + rest;
    if HasShortEscape(b) {
      assert s[1] == ShortEscape(b);
    } else if b <= 0x1f {
      var t := s[2..];
      assert t[0] == 0x30 && t[1] == 0x30 && t[2] == HexDigit(b / 16) && t[3] == HexDigit(b % 16);
      assert HexValue(t[2]) == b / 16 && HexValue(t[3]) == b % 16;
      assert Code(t) == b;
    }
  }

  lemma {:induction false} BodyDecodes(t: seq<byte>)
    ensures DecodeBody(EscapeAll(t)) == Some(t)
  {
    if t != [] {
      var more := EscapeAll(t[1..]);
      EscapeDecodes(t[0], more);
      assert (Escape(t[0]) + more)[|Escape(t[0])|..] == more;
      BodyDecodes(t[1..]);
      assert [t[0]] + t[1..] == t;
    }
  }

  lemma StringScans(t: seq<byte>, post: seq<byte>)
    ensures ScanString(Quoted(t) + post) == Scanned(ValueString(Some(t)), |Quoted(t)|)
  {
    var body := EscapeAll(t) + ([QUOTE] + post);
    var s := Quoted(t) + post;
    assert s[1..] == body;
    BodyScans(t, post);
    assert body[..|EscapeAll(t)|] == EscapeAll(t);
    BodyDecodes(t);
  }

  /** Any byte string, quoted, scans as one token whose value is that string. */
  lemma StringTokens(t: seq<byte>, post: seq<byte>)
    ensures Tokens(Quoted(t) + post) == [ValueString(Some(t))] + Tokens(post)
  {
    StringScans(t, post);
    assert (Quoted(t) + post)[0] == QUOTE;
    TokensFront(Quoted(t), post, ValueString(Some(t)));
  }

  // ---------------------------------------------------------------- a serialized value scans as its tokens

  /** The text `s` gives the tokens `ts` and then those of `rest`. */
  ghost predicate Reads(s: seq<byte>, ts: seq<Token>, rest: seq<byte>) {
    Tokens(s) == ts + Tokens(rest)
  }

  lemma ReadsThen(s: seq<byte>, ts: seq<Token>, mid: seq<byte>, ts': seq<Token>, rest: seq<byte>)
    requires Reads(s, ts, mid) && Reads(mid, ts', rest)
    ensures Reads(s, ts + ts', rest)
  {
    assert ts + (ts' + Tokens(rest)) == (ts + ts') + Tokens(rest);
  }

  lemma ReadsBlank(ws: seq<byte>, s: seq<byte>, ts: seq<Token>, rest: seq<byte>)
    requires Blank(ws) && Reads(s, ts, rest)
    ensures Reads(ws + s, ts, rest)
  {
    TokensSkipBlank(ws, s);
  }

  lemma ReadsPunctuation(b: byte, token: Token, s: seq<byte>, ts: seq<Token>, rest: seq<byte>)
    requires b in {0x5b, 0x5d, 0x7b, 0x7d, 0x2c, 0x3a} && ScanHere([b]) == Scanned(token, 1)
    requires Reads(s, ts, rest)
    ensures Reads([b] + s, [token] + ts, rest)
  {
    PunctuationTokens(b, s, token);
    assert [token] + (ts + Tokens(rest)) == ([token] + ts) + Tokens(rest);
  }

  lemma ReadsNothing(s: seq<byte>)
    ensures Reads(s, [], s)
  {
    assert [] + Tokens(s) == Tokens(s);
  }

  /** What closes a non-empty array or object, followed by `post`. */
  function Closing(o: Layout, indent: nat, b: byte, post: seq<byte>): seq<byte> {
    LineBreak(o) + (Spaces(indent) + ([b] + post))
  }

  lemma ReadsClosing(o: Layout, indent: nat, b: byte, token: Token, post: seq<byte>)
    requires (b == 0x5d && token == EndArray) || (b == 0x7d && token == EndObject)
    ensures Reads(Closing(o, indent, b, post), [token], post)
    ensures Delimits(Closing(o, indent, b, post))
  {
    ReadsNothing(post);
    ReadsPunctuation(b, token, post, [], post);
    assert [token] + [] == [token];
    ReadsBlank(Spaces(indent), [b] + post, [token], post);
    ReadsBlank(LineBreak(o), Spaces(indent) + ([b] + post), [token], post);
    if !o.pretty {
      assert Closing(o, indent, b, post)[0] == if indent == 0 then b else SPACE;
    }
  }

  /** What follows an item that is not the last. */
  function Following(o: Layout, more: seq<byte>): seq<byte> {
    [0x2c] + (LineBreak(o) + more)
  }

  lemma ReadsFollowing(o: Layout, more: seq<byte>, ts: seq<Token>, rest: seq<byte>)
    requires Reads(more, ts, rest)
    ensures Reads(Following(o, more), [ValueSeparator] + ts, rest)
    ensures Delimits(Following(o, more))
  {
    ReadsBlank(LineBreak(o), more, ts, rest);
    ReadsPunctuation(0x2c, ValueSeparator, LineBreak(o) + more, ts, rest);
  }

  // The texts below, bracketed the way the scanner takes them.

  lemma Assoc(a: seq<byte>, b: seq<byte>, c: seq<byte>)
    ensures (a + b) + c == a + (b + c)
  {
  }

  lemma ClosingText(o: Layout, indent: nat, b: byte, post: seq<byte>)
    ensures (LineBreak(o) + (Spaces(indent) + [b])) + post == Closing(o, indent, b, post)
  {
    Assoc(LineBreak(o), Spaces(indent) + [b], post);
    Assoc(Spaces(indent), [b], post);
  }

  lemma BracketText(open: byte, body: seq<byte>, o: Layout, indent: nat, close: byte, post: seq<byte>)
    ensures ([open] + (LineBreak(o) + (body + (LineBreak(o) + (Spaces(indent) + [close]))))) + post
         == [open] + (LineBreak(o) + (body + Closing(o, indent, close, post)))
  {
    var end := LineBreak(o) + (Spaces(indent) + [close]);
    ClosingText(o, indent, close, post);
    Assoc([open], LineBreak(o) + (body + end), post);
    Assoc(LineBreak(o), body + end, post);
    Assoc(body, end, post);
  }

  function AfterItem(items: seq<Json>, o: Layout, indent: nat, post: seq<byte>): seq<byte>
    requires items != []
  {
    if |items| == 1 then post else Following(o, DumpItems(items[1..], o, indent) + post)
  }

  lemma FollowingText(o: Layout, more: seq<byte>, post: seq<byte>)
    ensures (Separator(o) + more) + post == Following(o, more + post)
  {
    Assoc(Separator(o), more, post);
    Assoc([0x2c], LineBreak(o), more + post);
  }

  lemma ItemsText(items: seq<Json>, o: Layout, indent: nat, post: seq<byte>)
    requires items != []
    ensures DumpItems(items, o, indent) + post
         == Spaces(indent) + (Dump(items[0], o, indent) + AfterItem(items, o, indent, post))
  {
    var d := Dump(items[0], o, indent);
    var more := if |items| == 1 then [] else Separator(o) + DumpItems(items[1..], o, indent);
    if |items| == 1 {
      assert more + post == post;
    } else {
      FollowingText(o, DumpItems(items[1..], o, indent), post);
    }
    Assoc(Spaces(indent), d + more, post);
    Assoc(d, more, post);
  }

  function AfterMember(members: seq<Member>, o: Layout, indent: nat, post: seq<byte>): seq<byte>
    requires members != []
  {
    if |members| == 1 then post else Following(o, DumpMembers(members[1..], o, indent) + post)
  }

  /** A key, its colon and the blank after it, before `s`. */
  function KeyText(key: seq<byte>, o: Layout, indent: nat, s: seq<byte>): seq<byte> {
    Spaces(indent) + (Quoted(key) + ([0x3a] + (Gap(o) + s)))
  }

  lemma KeyTextThen(key: seq<byte>, o: Layout, indent: nat, s: seq<byte>, post: seq<byte>)
    ensures KeyText(key, o, indent, s) + post == KeyText(key, o, indent, s + post)
  {
    Assoc(Spaces(indent), Quoted(key) + ([0x3a] + (Gap(o) + s)), post);
    Assoc(Quoted(key), [0x3a] + (Gap(o) + s), post);
    Assoc([0x3a], Gap(o) + s, post);
    Assoc(Gap(o), s, post);
  }

  lemma MembersText(members: seq<Member>, o: Layout, indent: nat, post: seq<byte>)
    requires members != []
    ensures DumpMembers(members, o, indent) + post
         == KeyText(members[0].key, o, indent,
                    Dump(members[0].value, o, indent) + AfterMember(members, o, indent, post))
  {
    var d := Dump(members[0].value, o, indent);
    var more := if |members| == 1 then [] else Separator(o) + DumpMembers(members[1..], o, indent);
    if |members| == 1 {
      assert more + post == post;
    } else {
      FollowingText(o, DumpMembers(members[1..], o, indent), post);
    }
    KeyTextThen(members[0].key, o, indent, d + more, post);
    Assoc(d, more, post);
  }

  lemma ReadsKey(key: seq<byte>, o: Layout, indent: nat, s: seq<byte>, ts: seq<Token>, rest: seq<byte>)
    requires Reads(s, ts, rest)
    ensures Reads(KeyText(key, o, indent, s), [ValueString(Some(key))] + ([NameSeparator] + ts), rest)
  {
    ReadsBlank(Gap(o), s, ts, rest);
    ReadsPunctuation(0x3a, NameSeparator, Gap(o) + s, ts, rest);
    StringTokens(key, [0x3a] + (Gap(o) + s));
    ReadsThen(Quoted(key) + ([0x3a] + (Gap(o) + s)), [ValueString(Some(key))], [0x3a] + (Gap(o) + s),
              [NameSeparator] + ts, rest);
    ReadsBlank(Spaces(indent), Quoted(key) + ([0x3a] + (Gap(o) + s)),
               [ValueString(Some(key))] + ([NameSeparator] + ts), rest);
  }

  /** The serialized form of a value, followed by anything that delimits it, scans as its tokens. */
  lemma {:induction false} DumpReads(v: Json, o: Layout, indent: nat, post: seq<byte>)
    requires WellFormed(v) && Delimits(post)
    ensures Reads(Dump(v, o, indent) + post, TokensOf(v), post)
    decreases v, 1
  {
    match v
    case Null => WordTokens(post);
    case Bool(_) => WordTokens(post);
    case Int(n) => IntTokens(n, post);
    case Str(s) => StringTokens(s, post);
    case Arr(items) => ArrayReads(items, o, indent, post);
    case Obj(members) => ObjectReads(members, o, indent, post);
  }

  /** A bracketed list of tokens. */
  lemma ReadsBracket(open: byte, begin: Token, body: seq<byte>, ts: seq<Token>, o: Layout, indent: nat,
                     close: byte, end: Token, post: seq<byte>)
    requires (open == 0x5b && begin == BeginArray) || (open == 0x7b && begin == BeginObject)
    requires (close == 0x5d && end == EndArray) || (close == 0x7d && end == EndObject)
    requires Reads(body + Closing(o, indent, close, post), ts, Closing(o, indent, close, post))
    ensures Reads([open] + (LineBreak(o) + (body + Closing(o, indent, close, post))), [begin] + (ts + [end]), post)
  {
    var rest := Closing(o, indent, close, post);
    ReadsClosing(o, indent, close, end, post);
    ReadsThen(body + rest, ts, rest, [end], post);
    ReadsBlank(LineBreak(o), body + rest, ts + [end], post);
    ReadsPunctuation(open, begin, LineBreak(o) + (body + rest), ts + [end], post);
  }

  lemma ReadsEmptyBrackets(open: byte, begin: Token, close: byte, end: Token, post: seq<byte>)
    requires (open == 0x5b && begin == BeginArray) || (open == 0x7b && begin == BeginObject)
    requires (close == 0x5d && end == EndArray) || (close == 0x7d && end == EndObject)
    ensures Reads([open, close] + post, [begin] + ([] + [end]), post)
  {
    PunctuationTokens(close, post, end);
    ReadsPunctuation(open, begin, [close] + post, [end], post);
    assert [open, close] + post == [open] + ([close] + post);
    assert [] + [end] == [end];
  }

  lemma {:induction false} ArrayReads(items: seq<Json>, o: Layout, indent: nat, post: seq<byte>)
    requires WellFormed(Arr(items))
    ensures Reads(Dump(Arr(items), o, indent) + post, TokensOf(Arr(items)), post)
    decreases items, 1
  {
    if items == [] {
      ReadsEmptyBrackets(0x5b, BeginArray, 0x5d, EndArray, post);
    } else {
      var body := DumpItems(items, o, Deeper(o, indent));
      ReadsClosing(o, indent, 0x5d, EndArray, post);
      ItemsRead(items, o, Deeper(o, indent), Closing(o, indent, 0x5d, post));
      ReadsBracket(0x5b, BeginArray, body, ItemTokens(items), o, indent, 0x5d, EndArray, post);
      BracketText(0x5b, body, o, indent, 0x5d, post);
    }
  }

  lemma {:induction false} ItemsRead(items: seq<Json>, o: Layout, indent: nat, post: seq<byte>)
    requires items != [] && Delimits(post) && forall i :: 0 <= i < |items| ==> WellFormed(items[i])
    ensures Reads(DumpItems(items, o, indent) + post, ItemTokens(items), post)
    decreases items, 0
  {
    var rest := AfterItem(items, o, indent, post);
    var more := if |items| == 1 then [] else [ValueSeparator] + ItemTokens(items[1..]);
    if |items| == 1 {
      ReadsNothing(post);
    } else {
      ItemsRead(items[1..], o, indent, post);
      ReadsFollowing(o, DumpItems(items[1..], o, indent) + post, ItemTokens(items[1..]), post);
    }
    var d := Dump(items[0], o, indent) + rest;
    DumpReads(items[0], o, indent, rest);
    ReadsThen(d, TokensOf(items[0]), rest, more, post);
    ReadsBlank(Spaces(indent), d, TokensOf(items[0]) + more, post);
    ItemsText(items, o, indent, post);
  }

  lemma {:induction false} ObjectReads(members: seq<Member>, o: Layout, indent: nat, post: seq<byte>)
    requires WellFormed(Obj(members))
    ensures Reads(Dump(Obj(members), o, indent) + post, TokensOf(Obj(members)), post)
    decreases members, 1
  {
    if members == [] {
      ReadsEmptyBrackets(0x7b, BeginObject, 0x7d, EndObject, post);
    } else {
      var body := DumpMembers(members, o, Deeper(o, indent));
      ReadsClosing(o, indent, 0x7d, EndObject, post);
      MembersRead(members, o, Deeper(o, indent), Closing(o, indent, 0x7d, post));
      ReadsBracket(0x7b, BeginObject, body, MemberTokens(members), o, indent, 0x7d, EndObject, post);
      BracketText(0x7b, body, o, indent, 0x7d, post);
    }
  }

  lemma {:induction false} MembersRead(members: seq<Member>, o: Layout, indent: nat, post: seq<byte>)
    requires members != [] && Delimits(post) && forall i :: 0 <= i < |members| ==> WellFormed(members[i].value)
    ensures Reads(DumpMembers(members, o, indent) + post, MemberTokens(members), post)
    decreases members, 0
  {
    var m := members[0];
    var rest := AfterMember(members, o, indent, post);
    var more := if |members| == 1 then [] else [ValueSeparator] + MemberTokens(members[1..]);
    if |members| == 1 {
      ReadsNothing(post);
    } else {
      MembersRead(members[1..], o, indent, post);
      ReadsFollowing(o, DumpMembers(members[1..], o, indent) + post, MemberTokens(members[1..]), post);
    }
    var d := Dump(m.value, o, indent) + rest;
    DumpReads(m.value, o, indent, rest);
    ReadsThen(d, TokensOf(m.value), rest, more, post);
    ReadsKey(m.key, o, indent, d, TokensOf(m.value) + more, post);
    MembersText(members, o, indent, post);
  }
}
