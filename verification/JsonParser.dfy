/** The recursive-descent parser over tokens, and the round trip through the serializer. */
module JsonParser {
  import opened Bytes
  import opened JsonText
  import opened JsonLexer
  import opened Wrappers

  /**
    What parse_internal does: it returns a value with the tokens that are left, it throws, or
    it meets a number that is not a 64-bit integer, whose value this model does not follow.
  */
  datatype Outcome = Parsed(value: Json, rest: seq<Token>) | Rejected | Inexact

  /** A token list as the scanner delivers it: the parser cannot run past its end. */
  predicate Ends(ts: seq<Token>) {
    |ts| >= 1 && IsFinal(ts[|ts| - 1])
  }

  lemma EndsBehind(ts: seq<Token>)
    requires Ends(ts)
    ensures !IsFinal(ts[0]) ==> |ts| >= 2 && Ends(ts[1..])
  {
    if |ts| >= 2 {
      assert ts[1..][|ts| - 2] == ts[|ts| - 1];
    }
  }

  ghost predicate Shorter(o: Outcome, ts: seq<Token>) {
    o.Parsed? ==> Ends(o.rest) && |o.rest| < |ts|
  }

  /** Assigning to a key of a std::map: replaces the value of the key or inserts it in order. */
  function Insert(members: seq<Member>, key: seq<byte>, value: Json): seq<Member> {
    if members == [] || Less(key, members[0].key) then [Member(key, value)] + members
    else if key == members[0].key then [Member(key, value)] + members[1..]
    else [members[0]] + Insert(members[1..], key, value)
  }

  function ParseValue(ts: seq<Token>): (o: Outcome)
    requires Ends(ts)
    ensures Shorter(o, ts)
    decreases |ts|, 1
  {
    match ts[0]
    case BeginObject =>
      if ts[1] == EndObject then Parsed(Obj([]), ts[2..]) else ParseMembers(ts[1..], [])
    case BeginArray =>
      if ts[1] == EndArray then Parsed(Arr([]), ts[2..]) else ParseItems(ts[1..], [])
    case LiteralNull => Parsed(Null, ts[1..])
    case LiteralTrue => Parsed(Bool(true), ts[1..])
    case LiteralFalse => Parsed(Bool(false), ts[1..])
    case ValueString(text) => if text.Some? then Parsed(Str(text.value), ts[1..]) else Rejected
    case ValueNumber(number) =>
      (match number
       case Integer(n) => Parsed(Int(n), ts[1..])
       case Other(_) => Inexact
       case NotANumber => Rejected)
    case _ => Rejected
  }

  /** The members still to come; `done` are those read before them. */
  function ParseMembers(ts: seq<Token>, done: seq<Member>): (o: Outcome)
    requires Ends(ts)
    ensures Shorter(o, ts)
    decreases |ts|, 0
  {
    if !ts[0].ValueString? || ts[0].text.None? || ts[1] != NameSeparator then Rejected
    else match ParseValue(ts[2..])
      case Parsed(v, rest) =>
        var members := Insert(done, ts[0].text.value, v);
        EndsBehind(rest);
        if rest[0] == ValueSeparator then ParseMembers(rest[1..], members)
        else if rest[0] == EndObject then Parsed(Obj(members), rest[1..])
        else Rejected
      case other => other
  }

  function ParseItems(ts: seq<Token>, done: seq<Json>): (o: Outcome)
    requires Ends(ts)
    ensures Shorter(o, ts)
    decreases |ts|, 2
  {
    match ParseValue(ts)
    case Parsed(v, rest) =>
      EndsBehind(rest);
      if rest[0] == ValueSeparator then ParseItems(rest[1..], done + [v])
      else if rest[0] == EndArray then Parsed(Arr(done + [v]), rest[1..])
      else Rejected
    case other => other
  }

  /** parse(): one value and then the end of the input. */
  function Parse(s: seq<byte>): (o: Outcome)
    ensures o.Parsed? ==> o.rest != [] && o.rest[0] == EndOfInput
  {
    var o := ParseValue(Tokens(s));
    if o.Parsed? && o.rest[0] != EndOfInput then Rejected else o
  }

  // ---------------------------------------------------------------- parsing undoes serializing

  lemma {:induction false} InsertLast(members: seq<Member>, key: seq<byte>, value: Json)
    requires Ascending(members + [Member(key, value)])
    ensures Insert(members, key, value) == members + [Member(key, value)]
  {
    if members != [] {
      var all := members + [Member(key, value)];
      assert Less(all[0].key, all[|all| - 1].key);
      LessIsStrict(members[0].key, key);
      assert members[1..] + [Member(key, value)] == all[1..];
      InsertLast(members[1..], key, value);
    }
  }

  lemma {:induction false} LessIsStrict(a: seq<byte>, b: seq<byte>)
    requires Less(a, b)
    ensures a != b && !Less(b, a)
  {
    if a != [] && a[0] == b[0] {
      LessIsStrict(a[1..], b[1..]);
    }
  }

  lemma EndsTail(ts: seq<Token>, more: seq<Token>)
    requires Ends(more)
    ensures Ends(ts + more)
  {
    assert (ts + more)[|ts + more| - 1] == more[|more| - 1];
  }

  /** The tokens of a value, followed by anything, parse to the value. */
  lemma {:induction false} TokensParse(v: Json, rest: seq<Token>)
    requires WellFormed(v) && Ends(rest)
    ensures Ends(TokensOf(v) + rest)
    ensures ParseValue(TokensOf(v) + rest) == Parsed(v, rest)
    decreases v, 1
  {
    EndsTail(TokensOf(v), rest);
    var ts := TokensOf(v) + rest;
    match v
    case Arr(items) => ArrayParses(items, rest);
    case Obj(members) => ObjectParses(members, rest);
    case _ => assert ts[1..] == rest;
  }

  lemma TokenAssoc(a: seq<Token>, b: seq<Token>, c: seq<Token>)
    ensures (a + b) + c == a + (b + c)
  {
  }

  /** What follows an item among its tokens, and how the bracketing is shifted to it. */
  function AfterItemTokens(items: seq<Json>, end: seq<Token>): seq<Token>
    requires items != []
  {
    if |items| == 1 then end else [ValueSeparator] + (ItemTokens(items[1..]) + end)
  }

  lemma ItemTokensThen(items: seq<Json>, end: seq<Token>)
    requires items != []
    ensures ItemTokens(items) + end == TokensOf(items[0]) + AfterItemTokens(items, end)
  {
    var first := TokensOf(items[0]);
    if |items| == 1 {
      assert first + [] == first;
    } else {
      TokenAssoc(first, [ValueSeparator] + ItemTokens(items[1..]), end);
      TokenAssoc([ValueSeparator], ItemTokens(items[1..]), end);
    }
  }

  lemma FirstToken(v: Json)
    ensures TokensOf(v) != [] && TokensOf(v)[0] !in {EndArray, EndObject, ValueSeparator}
  {
  }

  lemma {:induction false} ArrayParses(items: seq<Json>, rest: seq<Token>)
    requires WellFormed(Arr(items)) && Ends(rest)
    ensures Ends(TokensOf(Arr(items)) + rest)
    ensures ParseValue(TokensOf(Arr(items)) + rest) == Parsed(Arr(items), rest)
    decreases items, 1
  {
    EndsTail(TokensOf(Arr(items)), rest);
    var ts := TokensOf(Arr(items)) + rest;
    TokenAssoc([BeginArray], ItemTokens(items) + [EndArray], rest);
    TokenAssoc(ItemTokens(items), [EndArray], rest);
    if items == [] {
      assert ts[1] == EndArray && ts[2..] == rest;
    } else {
      ItemsParse(items, [], rest);
      ItemTokensThen(items, [EndArray] + rest);
      FirstToken(items[0]);
      assert ts[1..] == ItemTokens(items) + ([EndArray] + rest);
      assert [] + items == items;
    }
  }

  /** One turn of the item loop. */
  lemma ItemTurn(ts: seq<Token>, done: seq<Json>, v: Json, after: seq<Token>)
    requires Ends(ts) && Ends(after) && ParseValue(ts) == Parsed(v, after)
    ensures after[0] == ValueSeparator ==> ParseItems(ts, done) == ParseItems(after[1..], done + [v])
    ensures after[0] == EndArray ==> ParseItems(ts, done) == Parsed(Arr(done + [v]), after[1..])
  {
  }

  lemma {:induction false} ItemsParse(items: seq<Json>, done: seq<Json>, rest: seq<Token>)
    requires items != [] && (forall i :: 0 <= i < |items| ==> WellFormed(items[i])) && Ends(rest)
    ensures Ends(ItemTokens(items) + ([EndArray] + rest))
    ensures ParseItems(ItemTokens(items) + ([EndArray] + rest), done) == Parsed(Arr(done + items), rest)
    decreases items, 0
  {
    var end := [EndArray] + rest;
    EndsTail([EndArray], rest);
    EndsTail(ItemTokens(items), end);
    ItemTokensThen(items, end);
    var after := AfterItemTokens(items, end);
    if |items| == 1 {
      TokensParse(items[0], after);
      ItemTurn(TokensOf(items[0]) + after, done, items[0], after);
      assert after[1..] == rest && items == [items[0]];
    } else {
      ItemsParse(items[1..], done + [items[0]], rest);
      AppendFirst(done, items);
      EndsTail([ValueSeparator], ItemTokens(items[1..]) + end);
      TokensParse(items[0], after);
      ItemTurn(TokensOf(items[0]) + after, done, items[0], after);
      assert after[1..] == ItemTokens(items[1..]) + end;
    }
  }

  lemma AppendFirst(done: seq<Json>, items: seq<Json>)
    requires items != []
    ensures (done + [items[0]]) + items[1..] == done + items
  {
  }

  function AfterMemberTokens(members: seq<Member>, end: seq<Token>): seq<Token>
    requires members != []
  {
    if |members| == 1 then end else [ValueSeparator] + (MemberTokens(members[1..]) + end)
  }

  lemma MemberTokensThen(members: seq<Member>, end: seq<Token>)
    requires members != []
    ensures MemberTokens(members) + end
         == [ValueString(Some(members[0].key))]
            + ([NameSeparator] + (TokensOf(members[0].value) + AfterMemberTokens(members, end)))
  {
    var first := TokensOf(members[0].value);
    var more := if |members| == 1 then [] else [ValueSeparator] + MemberTokens(members[1..]);
    if |members| == 1 {
      assert more + end == end;
    } else {
      TokenAssoc([ValueSeparator], MemberTokens(members[1..]), end);
    }
    TokenAssoc(first, more, end);
    TokenAssoc([NameSeparator], first + more, end);
    TokenAssoc([ValueString(Some(members[0].key))], [NameSeparator] + (first + more), end);
  }

  lemma {:induction false} ObjectParses(members: seq<Member>, rest: seq<Token>)
    requires WellFormed(Obj(members)) && Ends(rest)
    ensures Ends(TokensOf(Obj(members)) + rest)
    ensures ParseValue(TokensOf(Obj(members)) + rest) == Parsed(Obj(members), rest)
    decreases members, 1
  {
    EndsTail(TokensOf(Obj(members)), rest);
    var ts := TokensOf(Obj(members)) + rest;
    TokenAssoc([BeginObject], MemberTokens(members) + [EndObject], rest);
    TokenAssoc(MemberTokens(members), [EndObject], rest);
    if members == [] {
      assert ts[1] == EndObject && ts[2..] == rest;
    } else {
      assert [] + members == members;
      MembersParse(members, [], rest);
      MemberTokensThen(members, [EndObject] + rest);
      assert ts[1..] == MemberTokens(members) + ([EndObject] + rest);
    }
  }

  /** One turn of the member loop. */
  lemma MemberTurn(ts: seq<Token>, key: seq<byte>, done: seq<Member>, v: Json, after: seq<Token>)
    requires Ends(ts) && Ends(after) && ParseValue(ts) == Parsed(v, after)
    ensures Ends([ValueString(Some(key))] + ([NameSeparator] + ts))
    ensures var all := [ValueString(Some(key))] + ([NameSeparator] + ts);
            var members := Insert(done, key, v);
            && (after[0] == ValueSeparator ==> ParseMembers(all, done) == ParseMembers(after[1..], members))
            && (after[0] == EndObject ==> ParseMembers(all, done) == Parsed(Obj(members), after[1..]))
  {
    var all := [ValueString(Some(key))] + ([NameSeparator] + ts);
    EndsTail([NameSeparator], ts);
    assert all[2..] == ts;
  }

  lemma {:induction false} MembersParse(members: seq<Member>, done: seq<Member>, rest: seq<Token>)
    requires members != [] && (forall i :: 0 <= i < |members| ==> WellFormed(members[i].value)) && Ends(rest)
    requires Ascending(done + members)
    ensures Ends(MemberTokens(members) + ([EndObject] + rest))
    ensures ParseMembers(MemberTokens(members) + ([EndObject] + rest), done) == Parsed(Obj(done + members), rest)
    decreases members, 0
  {
    var end := [EndObject] + rest;
    EndsTail([EndObject], rest);
    EndsTail(MemberTokens(members), end);
    MemberTokensThen(members, end);
    var after := AfterMemberTokens(members, end);
    var m := members[0];
    InsertNext(done, members);
    if |members| == 1 {
      TokensParse(m.value, after);
      MemberTurn(TokensOf(m.value) + after, m.key, done, m.value, after);
      assert after[1..] == rest && members == [m];
    } else {
      MembersParse(members[1..], done + [m], rest);
      EndsTail([ValueSeparator], MemberTokens(members[1..]) + end);
      TokensParse(m.value, after);
      MemberTurn(TokensOf(m.value) + after, m.key, done, m.value, after);
      assert after[1..] == MemberTokens(members[1..]) + end;
    }
  }

  lemma InsertNext(done: seq<Member>, members: seq<Member>)
    requires members != [] && Ascending(done + members)
    ensures Insert(done, members[0].key, members[0].value) == done + [members[0]]
    ensures (done + [members[0]]) + members[1..] == done + members
  {
    var m := members[0];
    assert Member(m.key, m.value) == m;
    assert done + [m] == (done + members)[..|done| + 1];
    InsertLast(done, m.key, m.value);
  }

  /** Parsing what dump wrote, compact or at any indentation, gives the value back. */
  lemma RoundTrip(v: Json, o: Layout)
    requires WellFormed(v)
    ensures Parse(Dump(v, o, 0)) == Parsed(v, [EndOfInput])
  {
    DumpReads(v, o, 0, []);
    assert Dump(v, o, 0) + [] == Dump(v, o, 0);
    TokensParse(v, [EndOfInput]);
  }

  // ---------------------------------------------------------------- what the parser accepts is well formed

  lemma {:induction false} LessIsTotal(a: seq<byte>, b: seq<byte>)
    ensures Less(a, b) || a == b || Less(b, a)
  {
    if a != [] && b != [] && a[0] == b[0] {
      LessIsTotal(a[1..], b[1..]);
      assert a == [a[0]] + a[1..] && b == [b[0]] + b[1..];
    }
  }

  lemma {:induction false} LessIsTransitive(a: seq<byte>, b: seq<byte>, c: seq<byte>)
    requires Less(a, b) && Less(b, c)
    ensures Less(a, c)
  {
    if a != [] && a[0] == b[0] == c[0] {
      LessIsTransitive(a[1..], b[1..], c[1..]);
    }
  }

  ghost predicate SoundMembers(members: seq<Member>) {
    Ascending(members) && forall i :: 0 <= i < |members| ==> WellFormed(members[i].value)
  }

  /** Keys of `Insert(members, key, _)` come from `members` or are `key`. */
  lemma {:induction false} InsertKeys(members: seq<Member>, key: seq<byte>, value: Json)
    ensures forall m :: m in Insert(members, key, value) ==> m in members || m == Member(key, value)
  {
    if members != [] && !Less(key, members[0].key) && key != members[0].key {
      InsertKeys(members[1..], key, value);
    }
  }

  lemma {:induction false} InsertKeepsOrder(members: seq<Member>, key: seq<byte>, value: Json)
    requires Ascending(members)
    ensures Ascending(Insert(members, key, value))
  {
    var r := Insert(members, key, value);
    if members != [] {
      var tail := r[1..];
      if Less(key, members[0].key) {
        assert tail == members;
        forall i | 0 < i < |members| ensures Less(key, members[i].key) {
          LessIsTransitive(key, members[0].key, members[i].key);
        }
      } else if key != members[0].key {
        LessIsTotal(key, members[0].key);
        InsertKeepsOrder(members[1..], key, value);
        InsertKeys(members[1..], key, value);
        assert tail == Insert(members[1..], key, value);
        forall j | 0 <= j < |tail| ensures Less(r[0].key, tail[j].key) {
          assert tail[j] in tail;
        }
        AscendingCons(r[0], tail);
      }
    }
  }

  lemma AscendingCons(m: Member, tail: seq<Member>)
    requires Ascending(tail) && forall j :: 0 <= j < |tail| ==> Less(m.key, tail[j].key)
    ensures Ascending([m] + tail)
  {
    var all := [m] + tail;
    forall i, j | 0 <= i < j < |all| ensures Less(all[i].key, all[j].key) {
      assert all[j] == tail[j - 1];
    }
  }

  /** Integer tokens hold 64-bit values. */
  ghost predicate IntegersFit(ts: seq<Token>) {
    forall i :: 0 <= i < |ts| && ts[i].ValueNumber? && ts[i].number.Integer? ==> INT_MIN <= ts[i].number.n <= INT_MAX
  }

  /** A parsed value is well formed, and so are the tokens behind it. */
  ghost predicate Sound(o: Outcome) {
    o.Parsed? ==> WellFormed(o.value) && IntegersFit(o.rest)
  }

  lemma {:induction false} ValueIsSound(ts: seq<Token>)
    requires Ends(ts) && IntegersFit(ts)
    ensures Sound(ParseValue(ts))
    decreases |ts|, 1
  {
    if ts[0] == BeginObject {
      if ts[1] == EndObject {
        assert WellFormed(Obj([]));
      } else {
        MembersAreSound(ts[1..], []);
      }
    } else if ts[0] == BeginArray {
      if ts[1] == EndArray {
        assert WellFormed(Arr([]));
      } else {
        ItemsAreSound(ts[1..], []);
      }
    }
  }

  lemma {:induction false} MembersAreSound(ts: seq<Token>, done: seq<Member>)
    requires Ends(ts) && IntegersFit(ts) && SoundMembers(done)
    ensures Sound(ParseMembers(ts, done))
    decreases |ts|, 0
  {
    if ts[0].ValueString? && ts[0].text.Some? && ts[1] == NameSeparator {
      ValueIsSound(ts[2..]);
      var o := ParseValue(ts[2..]);
      if o.Parsed? {
        InsertKeepsSound(done, ts[0].text.value, o.value);
        var members := Insert(done, ts[0].text.value, o.value);
        if o.rest[0] == ValueSeparator {
          MembersAreSound(o.rest[1..], members);
        } else {
          assert WellFormed(Obj(members));
        }
      }
    }
  }

  lemma InsertKeepsSound(members: seq<Member>, key: seq<byte>, value: Json)
    requires SoundMembers(members) && WellFormed(value)
    ensures SoundMembers(Insert(members, key, value))
  {
    InsertKeepsOrder(members, key, value);
    InsertKeys(members, key, value);
    var r := Insert(members, key, value);
    forall i | 0 <= i < |r| ensures WellFormed(r[i].value) {
      assert r[i] in r;
    }
  }

  lemma {:induction false} ItemsAreSound(ts: seq<Token>, done: seq<Json>)
    requires Ends(ts) && IntegersFit(ts) && forall i :: 0 <= i < |done| ==> WellFormed(done[i])
    ensures Sound(ParseItems(ts, done))
    decreases |ts|, 2
  {
    ValueIsSound(ts);
    var o := ParseValue(ts);
    if o.Parsed? {
      var items := done + [o.value];
      if o.rest[0] == ValueSeparator {
        ItemsAreSound(o.rest[1..], items);
      } else {
        assert WellFormed(Arr(items));
      }
    }
  }

  lemma ScanFits(s: seq<byte>)
    ensures IntegersFit([Scan(s).token])
    decreases |s|
  {
    if s != [] && s[0] != 0 {
      if IsSpace(s[0]) {
        ScanFits(s[1..]);
      } else if StartsWith(s, BYTE_ORDER_MARK) {
        ScanFits(s[3..]);
      }
    }
  }

  lemma {:induction false} TokensFit(s: seq<byte>)
    ensures IntegersFit(Tokens(s))
    decreases |s|
  {
    ScanFits(s);
    var r := Scan(s);
    assert [r.token][0] == r.token;
    if !IsFinal(r.token) {
      TokensFit(s[r.used..]);
    }
  }

  /** Whatever text parses, its value is well formed and survives being written out and parsed again. */
  lemma ParseIsStable(s: seq<byte>, o: Layout)
    requires Parse(s).Parsed?
    ensures WellFormed(Parse(s).value)
    ensures Parse(Dump(Parse(s).value, o, 0)) == Parsed(Parse(s).value, [EndOfInput])
  {
    TokensFit(s);
    ValueIsSound(Tokens(s));
    RoundTrip(Parse(s).value, o);
  }

  /** Serializing loses nothing: different values never get the same text, whatever the layouts. */
  lemma DumpIsInjective(v: Json, o: Layout, v': Json, o': Layout)
    requires WellFormed(v) && WellFormed(v') && Dump(v, o, 0) == Dump(v', o', 0)
    ensures v == v'
  {
    RoundTrip(v, o);
    RoundTrip(v', o');
  }

  /** The object as a map from keys to values; a repeated key overwrites. */
  function AsMap(members: seq<Member>): map<seq<byte>, Json> {
    if members == [] then map[] else AsMap(members[1..])[members[0].key := members[0].value]
  }

  /** Ordered insertion is the map update that the parser's assignment to a key performs. */
  lemma {:induction false} InsertUpdates(members: seq<Member>, key: seq<byte>, value: Json)
    requires Ascending(members)
    ensures AsMap(Insert(members, key, value)) == AsMap(members)[key := value]
  {
    var r := Insert(members, key, value);
    if members == [] || Less(key, members[0].key) {
      assert r[1..] == members;
    } else if key == members[0].key {
      assert r[1..] == members[1..];
    } else {
      assert r[1..] == Insert(members[1..], key, value);
      InsertUpdates(members[1..], key, value);
    }
  }
}
