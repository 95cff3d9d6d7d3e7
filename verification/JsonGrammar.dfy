/**
 * What a JSON document may look like, apart from how it is parsed: values in any layout, with
 * whitespace around every token and strings in any spelling (section 2 of RFC 8259, with the
 * numbers that pxcutils/pxc/utils/JsonBuilder.cpp takes).  The parser accepts exactly these
 * documents, if they are not nested too deeply, and gives the value that is written.
 */
module JsonGrammar {
  import opened Utf8
  import opened JsonString
  import opened JsonValue
  import opened JsonSpelling
  import R = JsonRoundTrip

  const SPACES: string := " \t\r\n"
  const NUMBER_STARTS: string := "-+.0123456789"
  const NUMBER_CHARS: string := "-+.0123456789eE"

  predicate AllSpace(t: Text) { forall i :: 0 <= i < |t| ==> t[i] as char in SPACES }

  predicate NumberToken(t: Text) {
    t != [] && t[0] as char in NUMBER_STARTS && forall i :: 0 <= i < |t| ==> t[i] as char in NUMBER_CHARS
  }

  /** A value as it is written; space is the whitespace in an empty array or object. */
  datatype Syntax =
    | NullWord
    | TrueWord
    | FalseWord
    | Num(token: Text)
    | Str(us: seq<Unit>)
    | Arr(space: Text, items: seq<Item>)
    | Obj(space: Text, members: seq<Member>)

  datatype Item = Item(before: Text, x: Syntax, after: Text)

  /** Whitespace, a name, whitespace, a colon, and a value between whitespace. */
  datatype Member = Member(before: Text, name: seq<Unit>, mid: Text, item: Item)

  ghost predicate Fits(x: Syntax) {
    match x
    case Num(token) => NumberToken(token)
    case Str(us) => WellSpelled(us)
    case Arr(space, items) => AllSpace(space) && forall i :: 0 <= i < |items| ==> FitsItem(items[i])
    case Obj(space, members) => AllSpace(space) && forall i :: 0 <= i < |members| ==> FitsMember(members[i])
    case _ => true
  }

  ghost predicate FitsItem(i: Item) { AllSpace(i.before) && AllSpace(i.after) && Fits(i.x) }

  ghost predicate FitsMember(m: Member) { AllSpace(m.before) && WellSpelled(m.name) && AllSpace(m.mid) && FitsItem(m.item) }

  // ----- its text

  function InQuotes(us: seq<Unit>): Text { ['"' as int] + (SpelledAll(us) + ['"' as int]) }

  function Written(x: Syntax): Text {
    match x
    case NullWord => ['n' as int, 'u' as int, 'l' as int, 'l' as int]
    case TrueWord => ['t' as int, 'r' as int, 'u' as int, 'e' as int]
    case FalseWord => ['f' as int, 'a' as int, 'l' as int, 's' as int, 'e' as int]
    case Num(token) => token
    case Str(us) => InQuotes(us)
    case Arr(space, items) => ['[' as int] + ((if items == [] then space else WrittenItems(items)) + [']' as int])
    case Obj(space, members) => ['{' as int] + ((if members == [] then space else WrittenMembers(members)) + ['}' as int])
  }

  function WrittenItem(i: Item): Text { i.before + (Written(i.x) + i.after) }

  function WrittenItems(items: seq<Item>): Text {
    if items == [] then [] else WrittenItem(items[0]) + MoreItems(items[1..])
  }

  function MoreItems(items: seq<Item>): Text {
    if items == [] then [] else [',' as int] + (WrittenItem(items[0]) + MoreItems(items[1..]))
  }

  function WrittenMember(m: Member): Text { m.before + (InQuotes(m.name) + (m.mid + ([':' as int] + WrittenItem(m.item)))) }

  function WrittenMembers(members: seq<Member>): Text {
    if members == [] then [] else WrittenMember(members[0]) + MoreMembers(members[1..])
  }

  function MoreMembers(members: seq<Member>): Text {
    if members == [] then [] else [',' as int] + (WrittenMember(members[0]) + MoreMembers(members[1..]))
  }

  // ----- its value

  ghost function ValueOf(x: Syntax): Value
    requires Fits(x)
  {
    match x
    case NullWord => Null
    case TrueWord => Boolean(true)
    case FalseWord => Boolean(false)
    case Num(token) => Number(token)
    case Str(us) => String(MeaningAll(us))
    case Arr(_, items) => Array(ItemValues(items))
    case Obj(_, members) => Object(MemberValues(members))
  }

  ghost function ItemValues(items: seq<Item>): (vs: seq<Value>)
    requires forall i :: 0 <= i < |items| ==> FitsItem(items[i])
    ensures |vs| == |items|
  {
    if items == [] then []
    else
      assert FitsItem(items[0]);
      [ValueOf(items[0].x)] + ItemValues(items[1..])
  }

  ghost function FieldOf(m: Member): Field
    requires FitsMember(m)
  {
    assert FitsItem(m.item);
    Field(MeaningAll(m.name), ValueOf(m.item.x))
  }

  ghost function MemberValues(members: seq<Member>): (fs: seq<Field>)
    requires forall i :: 0 <= i < |members| ==> FitsMember(members[i])
    ensures |fs| == |members|
  {
    if members == [] then [] else [FieldOf(members[0])] + MemberValues(members[1..])
  }

  // ----- characters

  lemma SpaceIs(c: Byte)
    ensures c as char in SPACES <==> IsSpace(c)
  {
    assert SPACES[0] == ' ' && SPACES[1] == '\t' && SPACES[2] == '\r' && SPACES[3] == '\n';
  }

  lemma NumberCharIs(c: Byte)
    ensures c as char in NUMBER_CHARS <==> InNumber(c)
  {
    var t := NUMBER_CHARS;
    assert t[0] == '-' && t[1] == '+' && t[2] == '.' && t[3] == '0' && t[4] == '1' && t[5] == '2' && t[6] == '3' && t[7] == '4';
    assert t[8] == '5' && t[9] == '6' && t[10] == '7' && t[11] == '8' && t[12] == '9' && t[13] == 'e' && t[14] == 'E';
  }

  lemma NumberStartIs(c: Byte)
    ensures c as char in NUMBER_STARTS <==> StartsNumber(c)
  {
    var t := NUMBER_STARTS;
    assert t[0] == '-' && t[1] == '+' && t[2] == '.' && t[3] == '0' && t[4] == '1' && t[5] == '2' && t[6] == '3' && t[7] == '4';
    assert t[8] == '5' && t[9] == '6' && t[10] == '7' && t[11] == '8' && t[12] == '9';
  }

  lemma TokenIs(t: Text)
    ensures NumberToken(t) <==> IsToken(t)
  {
    if t != [] { NumberStartIs(t[0]); }
    forall i | 0 <= i < |t| ensures t[i] as char in NUMBER_CHARS <==> InNumber(t[i]) {
      NumberCharIs(t[i]);
    }
  }

  // ----- whitespace

  lemma {:induction false} SkipAll(t: Text, s: Text)
    requires AllSpace(t)
    ensures Skip(t + s) == Skip(s)
  {
    if t == [] {
      assert t + s == s;
    } else {
      SpaceIs(t[0]);
      assert t + s == [t[0]] + (t[1..] + s);
      R.SkipOne(t[0], t[1..] + s);
      SkipAll(t[1..], s);
    }
  }

  lemma {:induction false} Skipped(s: Text) returns (t: Text)
    ensures AllSpace(t) && s == t + Skip(s) && (Skip(s) != [] ==> !IsSpace(Skip(s)[0]))
  {
    t := [];
    if s != [] && IsSpace(s[0]) {
      SpaceIs(s[0]);
      var u := Skipped(s[1..]);
      t := [s[0]] + u;
      assert s == [s[0]] + s[1..];
    }
  }

  lemma SkipTwice(s: Text)
    ensures Skip(Skip(s)) == Skip(s)
  {
    var t := Skipped(s);
  }

  /** What can follow a value: it ends a number, and is not whitespace. */
  predicate Mark(more: Text) { more != [] && !IsSpace(more[0]) && !InNumber(more[0]) }

  lemma SpaceThenMark(after: Text, more: Text)
    requires AllSpace(after) && Mark(more)
    ensures R.EndsNumber(after + more) && Skip(after + more) == more
  {
    SkipAll(after, more);
    if after != [] { SpaceIs(after[0]); }
  }

  // ----- every layout is parsed

  lemma {:induction false} QuotedParsed(us: seq<Unit>, rest: Text)
    requires WellSpelled(us)
    ensures ParseString(InQuotes(us) + rest) == Got(MeaningAll(us), rest)
  {
    var s := InQuotes(us) + rest;
    assert s[1..] == SpelledAll(us) + [QUOTE] + rest;
    DecodeSpelled(us, rest);
    assert s[1 + (|SpelledAll(us)| + 1)..] == rest;
  }

  lemma WrittenStarts(x: Syntax, rest: Text)
    requires Fits(x)
    ensures var s := Written(x);
      s != [] && !IsSpace(s[0]) && s[0] != CLOSE_ARRAY && s[0] != CLOSE_OBJECT && Skip(s + rest) == s + rest
  {
    if x.Num? { TokenIs(x.token); }
  }

  lemma {:induction false} ParseSkips(before: Text, x: Syntax, rest: Text, depth: int)
    requires Fits(x) && AllSpace(before)
    ensures Parse(before + (Written(x) + rest), depth) == if depth < 0 then Rejected else ParseAt(Written(x) + rest, depth)
  {
    SkipAll(before, Written(x) + rest);
    WrittenStarts(x, rest);
  }

  lemma {:induction false} ParseWritten(before: Text, x: Syntax, rest: Text, depth: int)
    requires Fits(x) && AllSpace(before) && R.EndsNumber(rest)
    ensures Parse(before + (Written(x) + rest), depth) == if Depth(ValueOf(x)) <= depth then Got(ValueOf(x), rest) else Rejected
    decreases x, 3
  {
    ParseSkips(before, x, rest, depth);
    if depth >= 0 { ParseAtWritten(x, rest, depth); }
  }

  lemma {:induction false} ParseAtWritten(x: Syntax, rest: Text, depth: nat)
    requires Fits(x) && R.EndsNumber(rest)
    ensures ParseAt(Written(x) + rest, depth) == if Depth(ValueOf(x)) <= depth then Got(ValueOf(x), rest) else Rejected
    decreases x, 2
  {
    match x
    case NullWord => R.WordBack(NULL_WORD, rest, Null);
    case TrueWord => R.WordBack(TRUE_WORD, rest, Boolean(true));
    case FalseWord => R.WordBack(FALSE_WORD, rest, Boolean(false));
    case Num(token) => NumberParsed(token, rest, depth);
    case Str(us) => QuotedParsed(us, rest);
    case Arr(space, items) => ArrayWritten(space, items, rest, depth);
    case Obj(space, members) => ObjectWritten(space, members, rest, depth);
  }

  lemma NumberParsed(token: Text, rest: Text, depth: nat)
    requires NumberToken(token) && R.EndsNumber(rest)
    ensures ParseAt(token + rest, depth) == Got(Number(token), rest)
  {
    TokenIs(token);
    R.NumberLengthIs(token, rest);
    assert (token + rest)[..|token|] == token && (token + rest)[|token|..] == rest;
  }

  /** An array or object without its opening. */
  lemma Opened(open: Byte, body: Text, close: Byte, rest: Text)
    ensures var s := [open] + (body + [close]) + rest;
      s != [] && s[0] == open && s[1..] == body + ([close] + rest)
  {
    Regroup(body, [close], rest);
    assert ([open] + (body + [close]) + rest)[1..] == (body + [close]) + rest;
  }

  lemma {:induction false} ArrayWritten(space: Text, items: seq<Item>, rest: Text, depth: nat)
    requires Fits(Arr(space, items))
    ensures var x := Arr(space, items);
      ParseAt(Written(x) + rest, depth) == if Depth(ValueOf(x)) <= depth then Got(ValueOf(x), rest) else Rejected
    decreases items, 3
  {
    var body, tail := if items == [] then space else WrittenItems(items), [CLOSE_ARRAY] + rest;
    Opened(OPEN_ARRAY, body, CLOSE_ARRAY, rest);
    ArrayBody(space, items, body, tail, rest, depth);
  }

  lemma {:induction false} ArrayBody(space: Text, items: seq<Item>, body: Text, tail: Text, rest: Text, depth: nat)
    requires Fits(Arr(space, items)) && tail == [CLOSE_ARRAY] + rest
    requires body == if items == [] then space else WrittenItems(items)
    ensures var v := ValueOf(Arr(space, items));
      ParseArray(Skip(body + tail), depth) == if Depth(v) <= depth then Got(v, rest) else Rejected
    decreases items, 2
  {
    if items == [] {
      SkipAll(space, tail);
      assert tail[1..] == rest;
    } else {
      ItemsStart(items, tail);
      ItemsWritten(items, rest, depth - 1);
      ParseItemsSkips(body + tail, depth - 1);
    }
  }

  lemma ParseItemsSkips(s: Text, depth: int)
    ensures ParseItems(Skip(s), depth) == ParseItems(s, depth)
  {
    SkipTwice(s);
  }

  /** The text from the first item on. */
  lemma {:induction false} FirstItem(items: seq<Item>, tail: Text)
    requires items != []
    ensures var i := items[0];
      WrittenItems(items) + tail == i.before + (Written(i.x) + (i.after + (MoreItems(items[1..]) + tail)))
  {
    var i := items[0];
    Regroup(WrittenItem(i), MoreItems(items[1..]), tail);
    Regroup(i.before, Written(i.x) + i.after, MoreItems(items[1..]) + tail);
    Regroup(Written(i.x), i.after, MoreItems(items[1..]) + tail);
  }

  lemma {:induction false} ItemsStart(items: seq<Item>, tail: Text)
    requires items != [] && forall i :: 0 <= i < |items| ==> FitsItem(items[i])
    ensures var t := Skip(WrittenItems(items) + tail); t != [] && t[0] != CLOSE_ARRAY
  {
    var i := items[0];
    var more := i.after + (MoreItems(items[1..]) + tail);
    FirstItem(items, tail);
    SkipAll(i.before, Written(i.x) + more);
    WrittenStarts(i.x, more);
  }

  /** What follows an item. */
  lemma {:induction false} MoreItemsStart(items: seq<Item>, rest: Text)
    ensures var more := MoreItems(items) + ([CLOSE_ARRAY] + rest);
      Mark(more) && more == if items == [] then [CLOSE_ARRAY] + rest else [COMMA] + (WrittenItems(items) + ([CLOSE_ARRAY] + rest))
  {
    if items == [] {
      assert [] + ([CLOSE_ARRAY] + rest) == [CLOSE_ARRAY] + rest;
    } else {
      Regroup([COMMA], WrittenItems(items), [CLOSE_ARRAY] + rest);
    }
  }

  lemma {:induction false} ItemsWritten(items: seq<Item>, rest: Text, depth: int)
    requires items != [] && forall i :: 0 <= i < |items| ==> FitsItem(items[i])
    ensures var vs := ItemValues(items);
      ParseItems(WrittenItems(items) + ([CLOSE_ARRAY] + rest), depth) == if MaxDepth(vs) <= depth then Got(vs, rest) else Rejected
    decreases items, 1
  {
    var i, others, tail := items[0], items[1..], [CLOSE_ARRAY] + rest;
    var more := MoreItems(others) + tail;
    FirstItem(items, tail);
    MoreItemsStart(others, rest);
    SpaceThenMark(i.after, more);
    ParseWritten(i.before, i.x, i.after + more, depth);
    var vs := ItemValues(items);
    assert vs[0] == ValueOf(i.x) && vs[1..] == ItemValues(others);
    if Depth(vs[0]) <= depth {
      OtherItemsWritten(vs[0], others, WrittenItems(items) + tail, i.after + more, rest, depth);
      assert [vs[0]] + vs[1..] == vs;
    }
  }

  /** With the first item read, the others are. */
  lemma {:induction false} OtherItemsWritten(v: Value, items: seq<Item>, t: Text, more: Text, rest: Text, depth: int)
    requires (forall i :: 0 <= i < |items| ==> FitsItem(items[i])) && Parse(t, depth) == Got(v, more)
    requires Skip(more) == if items == [] then [CLOSE_ARRAY] + rest else [COMMA] + (WrittenItems(items) + ([CLOSE_ARRAY] + rest))
    ensures var vs := ItemValues(items);
      ParseItems(t, depth) == if vs == [] || MaxDepth(vs) <= depth then Got([v] + vs, rest) else Rejected
    decreases items, 2
  {
    if items == [] {
      assert [v] + ItemValues(items) == [v];
      R.OneItem(t, v, more, rest, depth);
    } else {
      var u := WrittenItems(items) + ([CLOSE_ARRAY] + rest);
      R.NextItem(t, v, more, u, depth);
      ParseItemsSkips(u, depth);
      ItemsWritten(items, rest, depth);
    }
  }

  // ----- objects

  lemma {:induction false} ObjectWritten(space: Text, members: seq<Member>, rest: Text, depth: nat)
    requires Fits(Obj(space, members))
    ensures var x := Obj(space, members);
      ParseAt(Written(x) + rest, depth) == if Depth(ValueOf(x)) <= depth then Got(ValueOf(x), rest) else Rejected
    decreases members, 3
  {
    var body, tail := if members == [] then space else WrittenMembers(members), [CLOSE_OBJECT] + rest;
    Opened(OPEN_OBJECT, body, CLOSE_OBJECT, rest);
    ObjectBody(space, members, body, tail, rest, depth);
  }

  lemma {:induction false} ObjectBody(space: Text, members: seq<Member>, body: Text, tail: Text, rest: Text, depth: nat)
    requires Fits(Obj(space, members)) && tail == [CLOSE_OBJECT] + rest
    requires body == if members == [] then space else WrittenMembers(members)
    ensures var v := ValueOf(Obj(space, members));
      ParseObject(Skip(body + tail), depth) == if Depth(v) <= depth then Got(v, rest) else Rejected
    decreases members, 2
  {
    if members == [] {
      SkipAll(space, tail);
      assert tail[1..] == rest;
    } else {
      MembersWritten(members, rest, depth - 1);
    }
  }

  /** The text from the first member on. */
  lemma {:induction false} FirstMember(members: seq<Member>, tail: Text)
    requires members != []
    ensures var m := members[0];
      WrittenMembers(members) + tail
      == m.before + (InQuotes(m.name) + (m.mid + ([COLON] + (WrittenItem(m.item) + (MoreMembers(members[1..]) + tail)))))
  {
    var m, more := members[0], MoreMembers(members[1..]) + tail;
    var item := [COLON] + WrittenItem(m.item);
    Regroup(WrittenMember(m), MoreMembers(members[1..]), tail);
    Regroup(m.before, InQuotes(m.name) + (m.mid + item), more);
    Regroup(InQuotes(m.name), m.mid + item, more);
    Regroup(m.mid, item, more);
    Regroup([COLON], WrittenItem(m.item), more);
  }

  lemma {:induction false} MoreMembersStart(members: seq<Member>, rest: Text)
    ensures var more := MoreMembers(members) + ([CLOSE_OBJECT] + rest);
      Mark(more) && more == if members == [] then [CLOSE_OBJECT] + rest else [COMMA] + (WrittenMembers(members) + ([CLOSE_OBJECT] + rest))
  {
    if members == [] {
      assert [] + ([CLOSE_OBJECT] + rest) == [CLOSE_OBJECT] + rest;
    } else {
      Regroup([COMMA], WrittenMembers(members), [CLOSE_OBJECT] + rest);
    }
  }

  lemma {:induction false} ItemText(i: Item, more: Text)
    ensures WrittenItem(i) + more == i.before + (Written(i.x) + (i.after + more))
  {
    Regroup(i.before, Written(i.x) + i.after, more);
    Regroup(Written(i.x), i.after, more);
  }

  /** One member: its name is read, and its value if it is not too deep. */
  lemma {:induction false} MemberWritten(m: Member, more: Text, depth: int)
    requires FitsMember(m) && Mark(more)
    ensures var s := InQuotes(m.name) + (m.mid + ([COLON] + (WrittenItem(m.item) + more)));
      ParseFields(s, depth) == if Depth(FieldOf(m).value) <= depth then FieldsAfter(FieldOf(m), more, depth) else Rejected
    decreases m, 4
  {
    var i := m.item;
    var value := WrittenItem(i) + more;
    QuotedParsed(m.name, m.mid + ([COLON] + value));
    assert Mark([COLON] + value);
    SpaceThenMark(m.mid, [COLON] + value);
    assert ([COLON] + value)[1..] == value;
    ItemText(i, more);
    SpaceThenMark(i.after, more);
    ParseWritten(i.before, i.x, i.after + more, depth);
  }

  lemma {:induction false} MembersWritten(members: seq<Member>, rest: Text, depth: int)
    requires members != [] && forall i :: 0 <= i < |members| ==> FitsMember(members[i])
    ensures var fs := MemberValues(members);
      var t := Skip(WrittenMembers(members) + ([CLOSE_OBJECT] + rest));
      && t != [] && t[0] != CLOSE_OBJECT
      && ParseFields(t, depth) == if MaxFieldDepth(fs) <= depth then Got(fs, rest) else Rejected
    decreases members, 1
  {
    var m, others, tail := members[0], members[1..], [CLOSE_OBJECT] + rest;
    var more := MoreMembers(others) + tail;
    var s := InQuotes(m.name) + (m.mid + ([COLON] + (WrittenItem(m.item) + more)));
    FirstMember(members, tail);
    SkipAll(m.before, s);
    assert s[0] == QUOTE && Skip(s) == s;
    MoreMembersStart(others, rest);
    MemberWritten(m, more, depth);
    var fs := MemberValues(members);
    assert fs[0] == FieldOf(m) && fs[1..] == MemberValues(others);
    if Depth(fs[0].value) <= depth {
      if others == [] {
        assert fs == [fs[0]] && MaxFieldDepth(fs[1..]) == 0;
        assert more[1..] == rest;
      } else {
        MembersWritten(others, rest, depth);
        assert more[1..] == WrittenMembers(others) + tail;
      }
    }
  }

  // ----- nothing else is parsed

  /** s is x and then rest, and v is what it means; a number does not go on in rest. */
  ghost predicate ReadsValue(s: Text, x: Syntax, v: Value, rest: Text) {
    Fits(x) && s == Written(x) + rest && ValueOf(x) == v && (x.Num? ==> R.EndsNumber(rest))
  }

  ghost predicate ReadsSpaced(s: Text, before: Text, x: Syntax, v: Value, rest: Text) {
    AllSpace(before) && s == before + (Written(x) + rest) && Fits(x) && ValueOf(x) == v && (x.Num? ==> R.EndsNumber(rest))
  }

  ghost predicate ReadsItems(s: Text, items: seq<Item>, vs: seq<Value>, rest: Text) {
    && items != [] && (forall i :: 0 <= i < |items| ==> FitsItem(items[i]))
    && ItemValues(items) == vs && s == WrittenItems(items) + ([CLOSE_ARRAY] + rest)
  }

  ghost predicate ReadsMembers(s: Text, members: seq<Member>, fs: seq<Field>, rest: Text) {
    && members != [] && (forall i :: 0 <= i < |members| ==> FitsMember(members[i]))
    && MemberValues(members) == fs && s == WrittenMembers(members) + ([CLOSE_OBJECT] + rest)
  }

  lemma WordRead(s: Text, word: Text)
    requires word <= s
    ensures s == word + s[|word|..]
  {
  }

  lemma {:induction false} QuotedRead(s: Text) returns (us: seq<Unit>)
    requires ParseString(s).Got?
    ensures WellSpelled(us) && MeaningAll(us) == ParseString(s).value && s == InQuotes(us) + ParseString(s).rest
  {
    var t := s[1..];
    us := SpellingOfDecoded(t);
    var len := Decode(t).len;
    assert t == t[..len] + t[len..];
    assert s == [QUOTE] + t && s[1 + len..] == t[len..];
    assert InQuotes(us) + t[len..] == [QUOTE] + (SpelledAll(us) + [QUOTE]) + t[len..];
  }

  lemma CutAt(s: Text, n: nat)
    requires n <= |s|
    ensures s == s[..n] + s[n..] && forall i :: 0 <= i < n ==> s[..n][i] == s[i]
  {
  }

  lemma NumberRead(s: Text, n: nat)
    requires s != [] && StartsNumber(s[0]) && n == NumberLength(s)
    ensures NumberToken(s[..n]) && s == s[..n] + s[n..] && R.EndsNumber(s[n..])
  {
    CutAt(s, n);
    TokenIs(s[..n]);
  }

  lemma {:induction false} WrittenOfParsed(s: Text, depth: int) returns (before: Text, x: Syntax)
    requires Parse(s, depth).Got?
    ensures ReadsSpaced(s, before, x, Parse(s, depth).value, Parse(s, depth).rest)
    decreases |s|, 4
  {
    before := Skipped(s);
    x := WrittenAtOfParsed(Skip(s), depth);
  }

  lemma {:induction false} WrittenAtOfParsed(s: Text, depth: nat) returns (x: Syntax)
    requires ParseAt(s, depth).Got?
    ensures ReadsValue(s, x, ParseAt(s, depth).value, ParseAt(s, depth).rest)
    decreases |s|, 3
  {
    if s[0] == 102 {
      WordRead(s, FALSE_WORD);
      x := FalseWord;
    } else if s[0] == 116 {
      WordRead(s, TRUE_WORD);
      x := TrueWord;
    } else if s[0] == 110 {
      WordRead(s, NULL_WORD);
      x := NullWord;
    } else if s[0] == QUOTE {
      var us := QuotedRead(s);
      x := Str(us);
    } else if s[0] == OPEN_ARRAY {
      x := ArrayOfParsed(s, depth);
    } else if s[0] == OPEN_OBJECT {
      x := ObjectOfParsed(s, depth);
    } else {
      NumberRead(s, NumberLength(s));
      x := Num(s[..NumberLength(s)]);
    }
  }

  lemma HeadOf(t: Text, c: Byte)
    requires t != [] && t[0] == c
    ensures t == [c] + t[1..]
  {
  }

  lemma {:induction false} Closed(open: Byte, s: Text, body: Text, close: Byte, rest: Text)
    requires s != [] && s[0] == open && s[1..] == body + ([close] + rest)
    ensures s == [open] + (body + [close]) + rest
  {
    Regroup(body, [close], rest);
    Regroup([open], body + [close], rest);
  }

  lemma {:induction false} ArrayReads(s: Text, items: seq<Item>, vs: seq<Value>, rest: Text)
    requires s != [] && s[0] == OPEN_ARRAY && ReadsItems(s[1..], items, vs, rest)
    ensures ReadsValue(s, Arr([], items), Array(vs), rest)
  {
    Closed(OPEN_ARRAY, s, WrittenItems(items), CLOSE_ARRAY, rest);
  }

  lemma {:induction false} EmptyArrayReads(s: Text, space: Text, rest: Text)
    requires s != [] && s[0] == OPEN_ARRAY && AllSpace(space) && s[1..] == space + ([CLOSE_ARRAY] + rest)
    ensures ReadsValue(s, Arr(space, []), Array([]), rest)
  {
    Closed(OPEN_ARRAY, s, space, CLOSE_ARRAY, rest);
  }

  /** What the parser does with an array. */
  lemma {:induction false} ArrayStep(s: Text, depth: nat)
    requires s != [] && s[0] == OPEN_ARRAY
    ensures var t := Skip(s[1..]);
      ParseAt(s, depth) ==
        if t != [] && t[0] == CLOSE_ARRAY then Got(Array([]), t[1..])
        else match ParseItems(s[1..], depth - 1)
          case Rejected => Rejected
          case Got(vs, rest) => Got(Array(vs), rest)
  {
    ParseItemsSkips(s[1..], depth - 1);
  }

  lemma {:induction false} EmptyArray(s: Text, t: Text) returns (space: Text)
    requires s != [] && s[0] == OPEN_ARRAY && t == Skip(s[1..]) && t != [] && t[0] == CLOSE_ARRAY
    ensures ReadsValue(s, Arr(space, []), Array([]), t[1..])
  {
    space := Skipped(s[1..]);
    HeadOf(t, CLOSE_ARRAY);
    EmptyArrayReads(s, space, t[1..]);
  }

  lemma {:induction false} ArrayOfParsed(s: Text, depth: nat) returns (x: Syntax)
    requires ParseAt(s, depth).Got? && s[0] == OPEN_ARRAY
    ensures ReadsValue(s, x, ParseAt(s, depth).value, ParseAt(s, depth).rest)
    decreases |s|, 2
  {
    var t := Skip(s[1..]);
    ArrayStep(s, depth);
    if t != [] && t[0] == CLOSE_ARRAY {
      var space := EmptyArray(s, t);
      x := Arr(space, []);
    } else {
      var items := ItemsOfParsed(s[1..], depth - 1);
      var r := ParseItems(s[1..], depth - 1);
      ArrayReads(s, items, r.value, r.rest);
      x := Arr([], items);
    }
  }

  lemma {:induction false} LastItem(s: Text, i: Item, v: Value, more: Text, rest: Text)
    requires FitsItem(i) && ValueOf(i.x) == v && s == i.before + (Written(i.x) + (i.after + more)) && more == [CLOSE_ARRAY] + rest
    ensures ReadsItems(s, [i], [v], rest)
  {
    ItemText(i, more);
    assert [i][1..] == [];
    assert WrittenItem(i) + MoreItems([]) == WrittenItem(i);
    assert WrittenItems([i]) == WrittenItem(i);
  }

  lemma {:induction false} ItemBefore(s: Text, i: Item, v: Value, more: Text, u: Text, items: seq<Item>, vs: seq<Value>, rest: Text)
    requires FitsItem(i) && ValueOf(i.x) == v && s == i.before + (Written(i.x) + (i.after + more)) && more == [COMMA] + u
    requires ReadsItems(u, items, vs, rest)
    ensures ReadsItems(s, [i] + items, [v] + vs, rest)
  {
    var all := [i] + items;
    assert all[1..] == items;
    MoreItemsStart(items, rest);
    FirstItem(all, [CLOSE_ARRAY] + rest);
    assert forall j :: 1 <= j < |all| ==> all[j] == items[j - 1];
  }

  lemma {:induction false} ItemsOfParsed(s: Text, depth: int) returns (items: seq<Item>)
    requires ParseItems(s, depth).Got?
    ensures ReadsItems(s, items, ParseItems(s, depth).value, ParseItems(s, depth).rest)
    decreases |s|, 5
  {
    var v, r := Parse(s, depth).value, Parse(s, depth).rest;
    var before, x := WrittenOfParsed(s, depth);
    var after := Skipped(r);
    var t := Skip(r);
    var i := Item(before, x, after);
    assert t == [t[0]] + t[1..];
    if t[0] == CLOSE_ARRAY {
      LastItem(s, i, v, t, t[1..]);
      items := [i];
    } else {
      ParseItemsSkips(t[1..], depth);
      items := ItemsOfParsed(t[1..], depth);
      ItemBefore(s, i, v, t, t[1..], items, ParseItems(t[1..], depth).value, ParseItems(t[1..], depth).rest);
      items := [i] + items;
    }
  }

  lemma {:induction false} ObjectReads(s: Text, members: seq<Member>, fs: seq<Field>, rest: Text)
    requires s != [] && s[0] == OPEN_OBJECT && ReadsMembers(s[1..], members, fs, rest)
    ensures ReadsValue(s, Obj([], members), Object(fs), rest)
  {
    Closed(OPEN_OBJECT, s, WrittenMembers(members), CLOSE_OBJECT, rest);
  }

  lemma {:induction false} EmptyObjectReads(s: Text, space: Text, rest: Text)
    requires s != [] && s[0] == OPEN_OBJECT && AllSpace(space) && s[1..] == space + ([CLOSE_OBJECT] + rest)
    ensures ReadsValue(s, Obj(space, []), Object([]), rest)
  {
    Closed(OPEN_OBJECT, s, space, CLOSE_OBJECT, rest);
  }

  /** What the parser does with an object. */
  lemma {:induction false} ObjectStep(s: Text, depth: nat)
    requires s != [] && s[0] == OPEN_OBJECT
    ensures var t := Skip(s[1..]);
      ParseAt(s, depth) ==
        if t != [] && t[0] == CLOSE_OBJECT then Got(Object([]), t[1..])
        else match ParseFields(Skip(s[1..]), depth - 1)
          case Rejected => Rejected
          case Got(fs, rest) => Got(Object(fs), rest)
  {
  }

  lemma {:induction false} EmptyObject(s: Text, t: Text) returns (space: Text)
    requires s != [] && s[0] == OPEN_OBJECT && t == Skip(s[1..]) && t != [] && t[0] == CLOSE_OBJECT
    ensures ReadsValue(s, Obj(space, []), Object([]), t[1..])
  {
    space := Skipped(s[1..]);
    HeadOf(t, CLOSE_OBJECT);
    EmptyObjectReads(s, space, t[1..]);
  }

  lemma {:induction false} ObjectOfParsed(s: Text, depth: nat) returns (x: Syntax)
    requires ParseAt(s, depth).Got? && s[0] == OPEN_OBJECT
    ensures ReadsValue(s, x, ParseAt(s, depth).value, ParseAt(s, depth).rest)
    decreases |s|, 2
  {
    var t := Skip(s[1..]);
    ObjectStep(s, depth);
    if t != [] && t[0] == CLOSE_OBJECT {
      var space := EmptyObject(s, t);
      x := Obj(space, []);
    } else {
      var members := MembersOfParsed(s[1..], depth - 1);
      var r := ParseFields(Skip(s[1..]), depth - 1);
      ObjectReads(s, members, r.value, r.rest);
      x := Obj([], members);
    }
  }

  ghost predicate MemberAt(s: Text, m: Member, f: Field, more: Text) {
    && FitsMember(m) && FieldOf(m) == f
    && s == m.before + (InQuotes(m.name) + (m.mid + ([COLON] + (WrittenItem(m.item) + more))))
  }

  lemma {:induction false} LastMember(s: Text, m: Member, f: Field, more: Text, rest: Text)
    requires MemberAt(s, m, f, more) && more == [CLOSE_OBJECT] + rest
    ensures ReadsMembers(s, [m], [f], rest)
  {
    var all := [m];
    assert all[1..] == [];
    MoreMembersStart([], rest);
    FirstMember(all, [CLOSE_OBJECT] + rest);
  }

  lemma {:induction false} MemberBefore(s: Text, m: Member, f: Field, more: Text, u: Text, members: seq<Member>, fs: seq<Field>, rest: Text)
    requires MemberAt(s, m, f, more) && more == [COMMA] + u && ReadsMembers(u, members, fs, rest)
    ensures ReadsMembers(s, [m] + members, [f] + fs, rest)
  {
    var all := [m] + members;
    assert all[1..] == members;
    MoreMembersStart(members, rest);
    FirstMember(all, [CLOSE_OBJECT] + rest);
    assert forall j :: 1 <= j < |all| ==> all[j] == members[j - 1];
  }

  /** What the parser does with one member. */
  lemma {:induction false} FieldsStep(s: Text, depth: int)
    requires ParseFields(s, depth).Got?
    ensures ParseString(s).Got?
    ensures var t := Skip(ParseString(s).rest);
      && t != [] && t[0] == COLON && Parse(t[1..], depth).Got? && |Parse(t[1..], depth).rest| < |s|
      && ParseFields(s, depth)
         == FieldsAfter(Field(ParseString(s).value, Parse(t[1..], depth).value), Skip(Parse(t[1..], depth).rest), depth)
  {
  }

  lemma {:induction false} MemberIs(s: Text, m: Member, name: Text, v: Value, q: Text, r: Text, t: Text, end: Text, more: Text)
    requires FitsMember(m) && FitsItem(m.item) && MeaningAll(m.name) == name && ValueOf(m.item.x) == v
    requires s == m.before + q && q == InQuotes(m.name) + r && r == m.mid + ([COLON] + t)
    requires t == m.item.before + (Written(m.item.x) + end) && end == m.item.after + more
    ensures MemberAt(s, m, Field(name, v), more)
  {
    ItemText(m.item, more);
  }

  /** One member of an object, with the whitespace around it. */
  lemma {:induction false} MemberOfParsed(s: Text, depth: int) returns (m: Member, f: Field, more: Text)
    requires ParseFields(Skip(s), depth).Got?
    ensures MemberAt(s, m, f, more) && ParseFields(Skip(s), depth) == FieldsAfter(f, more, depth) && |more| < |s|
    decreases |s|, 6
  {
    var q := Skip(s);
    var before := Skipped(s);
    FieldsStep(q, depth);
    var name := QuotedRead(q);
    var r := ParseString(q).rest;
    var t := Skip(r);
    var mid := Skipped(r);
    assert t == [COLON] + t[1..];
    var space, x := WrittenOfParsed(t[1..], depth);
    var end := Parse(t[1..], depth).rest;
    var after := Skipped(end);
    more := Skip(end);
    m := Member(before, name, mid, Item(space, x, after));
    f := Field(ParseString(q).value, Parse(t[1..], depth).value);
    MemberIs(s, m, ParseString(q).value, Parse(t[1..], depth).value, q, r, t[1..], end, more);
  }

  lemma {:induction false} AfterMember(f: Field, t: Text, depth: int)
    requires FieldsAfter(f, t, depth).Got?
    ensures t != [] && t == [t[0]] + t[1..] && (t[0] == CLOSE_OBJECT || t[0] == COMMA)
    ensures t[0] == CLOSE_OBJECT ==> FieldsAfter(f, t, depth) == Got([f], t[1..])
    ensures t[0] == COMMA ==> ParseFields(Skip(t[1..]), depth).Got?
    ensures t[0] == COMMA ==> FieldsAfter(f, t, depth) == Before([f], ParseFields(Skip(t[1..]), depth))
  {
  }

  lemma {:induction false} MembersOfParsed(s: Text, depth: int) returns (members: seq<Member>)
    requires ParseFields(Skip(s), depth).Got?
    ensures ReadsMembers(s, members, ParseFields(Skip(s), depth).value, ParseFields(Skip(s), depth).rest)
    decreases |s|, 7
  {
    var m, f, t := MemberOfParsed(s, depth);
    AfterMember(f, t, depth);
    if t[0] == CLOSE_OBJECT {
      LastMember(s, m, f, t, t[1..]);
      members := [m];
    } else {
      members := MembersOfParsed(t[1..], depth);
      var r := ParseFields(Skip(t[1..]), depth);
      MemberBefore(s, m, f, t, t[1..], members, r.value, r.rest);
      members := [m] + members;
    }
  }

  // ----- whole documents

  /** s is x between whitespace. */
  ghost predicate IsDocument(s: Text, before: Text, x: Syntax, after: Text) {
    AllSpace(before) && AllSpace(after) && Fits(x) && s == before + (Written(x) + after)
  }

  lemma OnlySpace(after: Text)
    requires AllSpace(after)
    ensures Skip(after) == [] && R.EndsNumber(after)
  {
    assert after + [] == after;
    SkipAll(after, []);
    if after != [] { SpaceIs(after[0]); }
  }

  /** A document in any layout is decoded to its value exactly if that is not nested too deeply. */
  lemma {:induction false} DecodeDocument(s: Text, before: Text, x: Syntax, after: Text)
    requires IsDocument(s, before, x, after)
    ensures R.Decode(s) == if Depth(ValueOf(x)) <= MAX_DEPTH then Got(ValueOf(x), []) else Rejected
  {
    OnlySpace(after);
    ParseWritten(before, x, after, MAX_DEPTH);
  }

  ghost predicate Writes(s: Text, v: Value) {
    exists before, x, after :: IsDocument(s, before, x, after) && ValueOf(x) == v
  }

  /** And json_decode accepts nothing else: it gives v exactly if the text writes v, with at most 100 levels. */
  lemma {:induction false} DecodesDocuments(s: Text, v: Value)
    ensures R.Decode(s) == Got(v, []) <==> Writes(s, v) && Depth(v) <= MAX_DEPTH
  {
    if R.Decode(s) == Got(v, []) {
      var before, x := WrittenOfParsed(s, MAX_DEPTH);
      var rest := Parse(s, MAX_DEPTH).rest;
      var after := Skipped(rest);
      assert after + [] == after;
      assert IsDocument(s, before, x, rest);
      R.ParsedIsPrintable(s, MAX_DEPTH);
    }
    if Writes(s, v) {
      var before, x, after :| IsDocument(s, before, x, after) && ValueOf(x) == v;
      DecodeDocument(s, before, x, after);
    }
  }
}
