/** Parsing what was printed, in compact or pretty form. */
module JsonRoundTrip {
  import opened Utf8
  import opened JsonString
  import opened JsonValue

  // ----- whitespace

  lemma {:induction false} SkipSpaces(n: nat, s: Text)
    ensures Skip(Spaces(n) + s) == Skip(s)
    decreases n
  {
    if n == 0 {
      assert Spaces(0) + s == s;
    } else {
      var t := [32, 32, 32] + s;
      assert Spaces(n) + s == Spaces(n - 1) + t;
      SkipSpaces(n - 1, t);
      ThreeSpaces(s);
    }
  }

  lemma SkipOne(c: Byte, s: Text)
    requires IsSpace(c)
    ensures Skip([c] + s) == Skip(s)
  {
    assert ([c] + s)[1..] == s;
  }

  lemma ThreeSpaces(s: Text)
    ensures Skip([32, 32, 32] + s) == Skip(s)
  {
    assert [32, 32, 32] + s == [32] + ([32] + ([32] + s));
    SkipOne(32, s);
    SkipOne(32, [32] + s);
    SkipOne(32, [32] + ([32] + s));
  }

  /** What print_offset prints is skipped. */
  lemma SkipLine(offset: int, s: Text)
    ensures Skip(Line(offset) + s) == Skip(s)
  {
    if offset >= 0 {
      assert Line(offset) + s == [10] + (Spaces(offset) + s);
      SkipOne(10, Spaces(offset) + s);
      SkipSpaces(offset, s);
    } else {
      assert Line(offset) + s == s;
    }
  }

  // ----- tokens and strings

  predicate EndsNumber(s: Text) { s == [] || !InNumber(s[0]) }

  lemma {:induction false} NumberLengthIs(token: Text, rest: Text)
    requires (forall i :: 0 <= i < |token| ==> InNumber(token[i])) && EndsNumber(rest)
    ensures NumberLength(token + rest) == |token|
  {
    if token == [] {
      assert token + rest == rest;
    } else {
      assert (token + rest)[1..] == token[1..] + rest;
      NumberLengthIs(token[1..], rest);
    }
  }

  lemma QuotedTail(p: Text, rest: Text)
    ensures ([QUOTE] + p + [QUOTE] + rest)[1..] == p + [QUOTE] + rest
    ensures ([QUOTE] + p + [QUOTE] + rest)[1 + (|p| + 1)..] == rest
  {
  }

  lemma QuotedBack(s: Text, rest: Text)
    requires Valid(s)
    ensures ParseString(Quoted(s) + rest) == Got(s, rest)
  {
    var cs := Chars(s);
    QuotedTail(PrintAll(cs), rest);
    DecodePrinted(cs, rest);
  }

  lemma WordBack(word: Text, rest: Text, v: Value)
    ensures Word(word + rest, word, v) == Got(v, rest)
  {
    assert (word + rest)[..|word|] == word;
    assert word <= word + rest;
  }

  /** A printed value does not start with whitespace or what closes an array. */
  lemma StoreStarts(v: Value, offset: int, rest: Text)
    requires Tokens(v) && Texts(v)
    ensures var s := Store(v, offset);
      s != [] && !IsSpace(s[0]) && s[0] != CLOSE_ARRAY && Skip(s + rest) == s + rest
  {
  }

  // ----- the round trip

  lemma {:induction false} ParseStored(v: Value, offset: int, rest: Text, depth: int)
    requires Tokens(v) && Texts(v) && EndsNumber(rest)
    ensures Parse(Store(v, offset) + rest, depth) == if Depth(v) <= depth then Got(v, rest) else Rejected
    decreases v
  {
    var s := Store(v, offset) + rest;
    StoreStarts(v, offset, rest);
    if depth >= 0 {
      match v
      case Null => WordBack(NULL_WORD, rest, Null);
      case Boolean(b) => WordBack(if b then TRUE_WORD else FALSE_WORD, rest, v);
      case Number(token) =>
        NumberLengthIs(token, rest);
        assert s[..|token|] == token && s[|token|..] == rest;
      case String(text) => QuotedBack(text, rest);
      case Array(items) => ArrayStored(items, offset, rest, depth);
      case Object(fields) => ObjectStored(fields, offset, rest, depth);
    }
  }

  lemma Regroup(a: Text, b: Text, c: Text)
    ensures (a + b) + c == a + (b + c)
  {
  }

  /** The text of an array or object, without its opening. */
  lemma Opened(open: Byte, body: Text, line: Text, close: Byte, rest: Text)
    ensures var s := [open] + (body + (line + [close])) + rest;
      s != [] && s[0] == open && s[1..] == body + (line + ([close] + rest))
  {
    Regroup(body, line + [close], rest);
    Regroup(line, [close], rest);
    assert ([open] + (body + (line + [close])) + rest)[1..] == (body + (line + [close])) + rest;
  }

  lemma {:induction false} ArrayStored(vs: seq<Value>, offset: int, rest: Text, depth: nat)
    requires Tokens(Array(vs)) && Texts(Array(vs))
    ensures ParseAt(Store(Array(vs), offset) + rest, depth)
         == if Depth(Array(vs)) <= depth then Got(Array(vs), rest) else Rejected
    decreases vs, 3
  {
    var body, tail := StoreItems(vs, Inner(offset), false), Line(offset) + ([CLOSE_ARRAY] + rest);
    Opened(OPEN_ARRAY, body, Line(offset), CLOSE_ARRAY, rest);
    ArrayBody(vs, offset, tail, rest, depth);
  }

  lemma {:induction false} ArrayBody(vs: seq<Value>, offset: int, tail: Text, rest: Text, depth: nat)
    requires Tokens(Array(vs)) && Texts(Array(vs))
    requires tail == Line(offset) + ([CLOSE_ARRAY] + rest)
    ensures ParseArray(Skip(StoreItems(vs, Inner(offset), false) + tail), depth)
         == if Depth(Array(vs)) <= depth then Got(Array(vs), rest) else Rejected
    decreases vs, 2
  {
    if vs == [] {
      assert [] + tail == tail;
      SkipLine(offset, [CLOSE_ARRAY] + rest);
      assert ([CLOSE_ARRAY] + rest)[1..] == rest;
    } else {
      ItemsStored(vs, Inner(offset), tail, rest, offset, depth - 1);
    }
  }

  lemma OneItem(t: Text, v: Value, more: Text, rest: Text, depth: int)
    requires Parse(t, depth) == Got(v, more) && Skip(more) == [CLOSE_ARRAY] + rest
    ensures ParseItems(t, depth) == Got([v], rest)
  {
    assert Skip(more)[1..] == rest;
  }

  lemma NextItem(t: Text, v: Value, more: Text, u: Text, depth: int)
    requires Parse(t, depth) == Got(v, more) && Skip(more) == [COMMA] + u
    ensures ParseItems(t, depth) == Before([v], ParseItems(Skip(u), depth))
  {
    assert Skip(more)[1..] == u;
  }

  /** Where the items start. */
  lemma ItemsStart(vs: seq<Value>, inner: int, tail: Text)
    requires vs != [] && forall i :: 0 <= i < |vs| ==> Tokens(vs[i]) && Texts(vs[i])
    ensures var t := Store(vs[0], inner) + (StoreItems(vs[1..], inner, true) + tail);
      Skip(StoreItems(vs, inner, false) + tail) == t && t != [] && t[0] != CLOSE_ARRAY
  {
    var first, others := Store(vs[0], inner), StoreItems(vs[1..], inner, true);
    assert [] + (Line(inner) + (first + others)) == Line(inner) + (first + others);
    Regroup(Line(inner), first + others, tail);
    Regroup(first, others, tail);
    SkipLine(inner, first + (others + tail));
    StoreStarts(vs[0], inner, others + tail);
  }

  /** The first item is read if it is not too deep, and more is left then. */
  lemma {:induction false} FirstItemStored(vs: seq<Value>, inner: int, more: Text, depth: int)
    requires vs != [] && (forall i :: 0 <= i < |vs| ==> Tokens(vs[i]) && Texts(vs[i])) && EndsNumber(more)
    ensures Parse(Store(vs[0], inner) + more, depth) == if Depth(vs[0]) <= depth then Got(vs[0], more) else Rejected
    decreases vs, 0
  {
    ParseStored(vs[0], inner, more, depth);
  }

  lemma {:induction false} ItemsStored(vs: seq<Value>, inner: int, tail: Text, rest: Text, offset: int, depth: int)
    requires vs != [] && (forall i :: 0 <= i < |vs| ==> Tokens(vs[i]) && Texts(vs[i]))
    requires tail == Line(offset) + ([CLOSE_ARRAY] + rest)
    ensures var t := Skip(StoreItems(vs, inner, false) + tail);
      && t != [] && t[0] != CLOSE_ARRAY
      && ParseItems(t, depth) == if MaxDepth(vs) <= depth then Got(vs, rest) else Rejected
    decreases vs, 1
  {
    var more := StoreItems(vs[1..], inner, true) + tail;
    ItemsStart(vs, inner, tail);
    MoreStarts(vs[1..], inner, tail, rest, offset);
    FirstItemStored(vs, inner, more, depth);
    if Depth(vs[0]) <= depth {
      OtherItemsStored(vs[0], vs[1..], Store(vs[0], inner) + more, inner, more, tail, rest, offset, depth);
      assert [vs[0]] + vs[1..] == vs;
    }
  }

  /** With the first item read, the others are. */
  lemma {:induction false} OtherItemsStored(v: Value, vs: seq<Value>, t: Text, inner: int, more: Text, tail: Text, rest: Text, offset: int, depth: int)
    requires forall i :: 0 <= i < |vs| ==> Tokens(vs[i]) && Texts(vs[i])
    requires tail == Line(offset) + ([CLOSE_ARRAY] + rest) && Parse(t, depth) == Got(v, more)
    requires Skip(more) == if vs == [] then [CLOSE_ARRAY] + rest else [COMMA] + (StoreItems(vs, inner, false) + tail)
    ensures ParseItems(t, depth) == if vs == [] || MaxDepth(vs) <= depth then Got([v] + vs, rest) else Rejected
    decreases vs, 2
  {
    if vs == [] {
      assert [v] + vs == [v];
      OneItem(t, v, more, rest, depth);
    } else {
      NextItem(t, v, more, StoreItems(vs, inner, false) + tail, depth);
      ItemsStored(vs, inner, tail, rest, offset, depth);
    }
  }

  /** What follows a value ends a number, and is the close or a comma once whitespace is skipped. */
  lemma MoreStarts(vs: seq<Value>, inner: int, tail: Text, rest: Text, offset: int)
    requires forall i :: 0 <= i < |vs| ==> Texts(vs[i])
    requires tail == Line(offset) + ([CLOSE_ARRAY] + rest)
    ensures var more := StoreItems(vs, inner, true) + tail;
      && EndsNumber(more)
      && Skip(more) == if vs == [] then [CLOSE_ARRAY] + rest else [COMMA] + (StoreItems(vs, inner, false) + tail)
  {
    if vs == [] {
      assert [] + tail == tail;
      SkipLine(offset, [CLOSE_ARRAY] + rest);
    } else {
      var text := Line(inner) + (Store(vs[0], inner) + StoreItems(vs[1..], inner, true));
      assert [] + text == text;
      Regroup([COMMA], text, tail);
    }
  }

  lemma {:induction false} ObjectStored(fs: seq<Field>, offset: int, rest: Text, depth: nat)
    requires Tokens(Object(fs)) && Texts(Object(fs))
    ensures ParseAt(Store(Object(fs), offset) + rest, depth)
         == if Depth(Object(fs)) <= depth then Got(Object(fs), rest) else Rejected
    decreases fs, 3
  {
    var body, tail := StoreFields(fs, Inner(offset), false), Line(offset) + ([CLOSE_OBJECT] + rest);
    Opened(OPEN_OBJECT, body, Line(offset), CLOSE_OBJECT, rest);
    ObjectBody(fs, offset, tail, rest, depth);
  }

  lemma {:induction false} ObjectBody(fs: seq<Field>, offset: int, tail: Text, rest: Text, depth: nat)
    requires Tokens(Object(fs)) && Texts(Object(fs))
    requires tail == Line(offset) + ([CLOSE_OBJECT] + rest)
    ensures ParseObject(Skip(StoreFields(fs, Inner(offset), false) + tail), depth)
         == if Depth(Object(fs)) <= depth then Got(Object(fs), rest) else Rejected
    decreases fs, 2
  {
    if fs == [] {
      assert [] + tail == tail;
      SkipLine(offset, [CLOSE_OBJECT] + rest);
      assert ([CLOSE_OBJECT] + rest)[1..] == rest;
    } else {
      FieldsStored(fs, Inner(offset), tail, rest, offset, depth - 1);
    }
  }

  lemma ColonSkipped(offset: int, t: Text)
    ensures var c := Skip(Colon(offset) + t);
      c != [] && c[0] == COLON && Skip(c[1..]) == Skip(t)
  {
    if offset >= 0 {
      assert Colon(offset) + t == [32] + ([COLON] + ([32] + t));
      SkipOne(32, [COLON] + ([32] + t));
      SkipOne(32, t);
      assert ([COLON] + ([32] + t))[1..] == [32] + t;
    } else {
      assert (Colon(offset) + t)[1..] == t;
    }
  }

  /** The printed field: its name is read, and its value if it is not too deep. */
  lemma {:induction false} FieldStored(f: Field, inner: int, more: Text, depth: int)
    requires Valid(f.name) && Tokens(f.value) && Texts(f.value) && EndsNumber(more)
    ensures var t := StoreField(f, inner) + more;
      && t != [] && t[0] == QUOTE && !IsSpace(t[0])
      && ParseFields(t, depth) == if Depth(f.value) <= depth then FieldsAfter(f, Skip(more), depth) else Rejected
    decreases f, 0
  {
    var v := Store(f.value, inner);
    Regroup(Quoted(f.name), Colon(inner) + v, more);
    Regroup(Colon(inner), v, more);
    QuotedBack(f.name, Colon(inner) + (v + more));
    ColonSkipped(inner, v + more);
    ParseStored(f.value, inner, more, depth);
    SameParse(Skip(Colon(inner) + (v + more))[1..], v + more, depth);
    assert f == Field(f.name, f.value);
  }

  lemma SameParse(s: Text, t: Text, depth: int)
    requires Skip(s) == Skip(t)
    ensures Parse(s, depth) == Parse(t, depth)
  {
  }

  lemma LastField(f: Field, more: Text, rest: Text, depth: int)
    requires Skip(more) == [CLOSE_OBJECT] + rest
    ensures FieldsAfter(f, Skip(more), depth) == Got([f], rest)
  {
    assert Skip(more)[1..] == rest;
  }

  lemma NextField(f: Field, more: Text, u: Text, depth: int)
    requires Skip(more) == [COMMA] + u
    ensures FieldsAfter(f, Skip(more), depth) == Before([f], ParseFields(Skip(u), depth))
  {
    assert Skip(more)[1..] == u;
  }

  /** Where the fields start. */
  lemma FieldsStart(fs: seq<Field>, inner: int, tail: Text)
    requires fs != [] && forall i :: 0 <= i < |fs| ==> Valid(fs[i].name) && Texts(fs[i].value)
    ensures Skip(StoreFields(fs, inner, false) + tail)
         == Skip(StoreField(fs[0], inner) + (StoreFields(fs[1..], inner, true) + tail))
  {
    var first, others := StoreField(fs[0], inner), StoreFields(fs[1..], inner, true);
    assert [] + (Line(inner) + (first + others)) == Line(inner) + (first + others);
    Regroup(Line(inner), first + others, tail);
    Regroup(first, others, tail);
    SkipLine(inner, first + (others + tail));
  }

  lemma {:induction false} FieldsStored(fs: seq<Field>, inner: int, tail: Text, rest: Text, offset: int, depth: int)
    requires fs != [] && forall i :: 0 <= i < |fs| ==> Valid(fs[i].name) && Tokens(fs[i].value) && Texts(fs[i].value)
    requires tail == Line(offset) + ([CLOSE_OBJECT] + rest)
    ensures var t := Skip(StoreFields(fs, inner, false) + tail);
      && t != [] && t[0] != CLOSE_OBJECT
      && ParseFields(t, depth) == if MaxFieldDepth(fs) <= depth then Got(fs, rest) else Rejected
    decreases fs, 1
  {
    var more := StoreFields(fs[1..], inner, true) + tail;
    FieldsStart(fs, inner, tail);
    MoreFields(fs[1..], inner, tail, rest, offset);
    FieldStored(fs[0], inner, more, depth);
    if Depth(fs[0].value) <= depth {
      OtherFieldsStored(fs[0], fs[1..], Skip(StoreField(fs[0], inner) + more), inner, more, tail, rest, offset, depth);
      assert [fs[0]] + fs[1..] == fs;
    }
  }

  /** With the first field read, the others are. */
  lemma {:induction false} OtherFieldsStored(f: Field, fs: seq<Field>, t: Text, inner: int, more: Text, tail: Text, rest: Text, offset: int, depth: int)
    requires forall i :: 0 <= i < |fs| ==> Valid(fs[i].name) && Tokens(fs[i].value) && Texts(fs[i].value)
    requires tail == Line(offset) + ([CLOSE_OBJECT] + rest) && ParseFields(t, depth) == FieldsAfter(f, Skip(more), depth)
    requires Skip(more) == if fs == [] then [CLOSE_OBJECT] + rest else [COMMA] + (StoreFields(fs, inner, false) + tail)
    ensures ParseFields(t, depth) == if fs == [] || MaxFieldDepth(fs) <= depth then Got([f] + fs, rest) else Rejected
    decreases fs, 2
  {
    if fs == [] {
      assert [f] + fs == [f];
      LastField(f, more, rest, depth);
    } else {
      NextField(f, more, StoreFields(fs, inner, false) + tail, depth);
      FieldsStored(fs, inner, tail, rest, offset, depth);
    }
  }

  lemma MoreFields(fs: seq<Field>, inner: int, tail: Text, rest: Text, offset: int)
    requires forall i :: 0 <= i < |fs| ==> Valid(fs[i].name) && Texts(fs[i].value)
    requires tail == Line(offset) + ([CLOSE_OBJECT] + rest)
    ensures var more := StoreFields(fs, inner, true) + tail;
      && EndsNumber(more)
      && Skip(more) == if fs == [] then [CLOSE_OBJECT] + rest else [COMMA] + (StoreFields(fs, inner, false) + tail)
  {
    if fs == [] {
      assert [] + tail == tail;
      SkipLine(offset, [CLOSE_OBJECT] + rest);
    } else {
      var text := Line(inner) + (StoreField(fs[0], inner) + StoreFields(fs[1..], inner, true));
      assert [] + text == text;
      Regroup([COMMA], text, tail);
    }
  }

  // ----- whole documents

  /** json_decode */
  function Decode(s: Text): Parsed<Value> {
    match Parse(s, MAX_DEPTH)
    case Rejected => Rejected
    case Got(v, rest) => if Skip(rest) == [] then Got(v, []) else Rejected
  }

  /** json_encode */
  ghost function Encode(v: Value, pretty: bool): Text
    requires Texts(v)
  {
    if pretty then Store(v, 0) + [10] else Store(v, -1)
  }

  /** Every printable value comes back exactly if its depth is at most 100, and is refused otherwise. */
  lemma DecodeEncoded(v: Value, pretty: bool)
    requires Tokens(v) && Texts(v)
    ensures Decode(Encode(v, pretty)) == if Depth(v) <= MAX_DEPTH then Got(v, []) else Rejected
  {
    if pretty {
      ParseStored(v, 0, [10], MAX_DEPTH);
      assert Skip([10]) == Skip([10][1..]) == [];
    } else {
      ParseStored(v, -1, [], MAX_DEPTH);
      assert Store(v, -1) + [] == Store(v, -1);
    }
  }

  /** Arrays around an array: n of them. */
  function Nested(n: nat): Value { if n == 0 then Array([]) else Array([Nested(n - 1)]) }

  lemma {:induction false} NestedDepth(n: nat)
    ensures Depth(Nested(n)) == n && Tokens(Nested(n)) && Texts(Nested(n))
  {
    if n > 0 {
      NestedDepth(n - 1);
      var items := [Nested(n - 1)];
      assert items[1..] == [] && MaxDepth([]) == 0;
      assert MaxDepth(items) == Max(Depth(items[0]), MaxDepth(items[1..]));
      assert Nested(n) == Array(items);
    }
  }

  /** An empty array inside 101 arrays prints, and its printed form is refused; inside 100 it comes back. */
  lemma NestedRefused(pretty: bool)
    ensures Texts(Nested(101)) && Decode(Encode(Nested(101), pretty)) == Rejected
    ensures Texts(Nested(100)) && Decode(Encode(Nested(100), pretty)) == Got(Nested(100), [])
  {
    NestedDepth(101);
    NestedDepth(100);
    DecodeEncoded(Nested(101), pretty);
    DecodeEncoded(Nested(100), pretty);
  }

  /** So the printed form determines the value, and neither form is the other's. */
  lemma EncodeInjective(v: Value, w: Value, pretty: bool)
    requires Tokens(v) && Texts(v) && Tokens(w) && Texts(w)
    requires Encode(v, pretty) == Encode(w, pretty)
    ensures v == w
  {
    var d := Max(Depth(v), Depth(w));
    if pretty {
      ParseStored(v, 0, [10], d);
      ParseStored(w, 0, [10], d);
    } else {
      ParseStored(v, -1, [], d);
      ParseStored(w, -1, [], d);
      assert Store(v, -1) + [] == Store(v, -1) && Store(w, -1) + [] == Store(w, -1);
    }
  }

  // ----- what the parser yields

  /** Every parsed value has the nesting that was allowed, and its numbers are tokens. */
  lemma {:induction false} ParsedIsPrintable(s: Text, depth: int)
    requires Parse(s, depth).Got?
    ensures var v := Parse(s, depth).value; Tokens(v) && Depth(v) <= depth
    decreases |s|, 1
  {
    ParsedAtIsPrintable(Skip(s), depth);
  }

  lemma {:induction false} ParsedAtIsPrintable(s: Text, depth: nat)
    requires ParseAt(s, depth).Got?
    ensures var v := ParseAt(s, depth).value; Tokens(v) && Depth(v) <= depth
    decreases |s|, 0
  {
    if s[0] == OPEN_ARRAY {
      var t := Skip(s[1..]);
      if t == [] || t[0] != CLOSE_ARRAY { ParsedItems(t, depth - 1); }
    } else if s[0] == OPEN_OBJECT {
      var t := Skip(s[1..]);
      if t == [] || t[0] != CLOSE_OBJECT { ParsedFields(t, depth - 1); }
    } else if StartsNumber(s[0]) {
      var n := NumberLength(s);
      assert n > 0 && s[..n][0] == s[0];
    }
  }

  lemma {:induction false} ParsedItems(s: Text, depth: int)
    requires ParseItems(s, depth).Got?
    ensures var vs := ParseItems(s, depth).value;
      vs != [] && Tokens(Array(vs)) && MaxDepth(vs) <= depth
    decreases |s|, 2
  {
    ParsedIsPrintable(s, depth);
    var v, t := Parse(s, depth).value, Skip(Parse(s, depth).rest);
    if t[0] == CLOSE_ARRAY {
      assert [v][1..] == [];
    } else {
      ParsedItems(Skip(t[1..]), depth);
      var ws := ParseItems(Skip(t[1..]), depth).value;
      assert ([v] + ws)[1..] == ws;
    }
  }

  lemma {:induction false} ParsedFields(s: Text, depth: int)
    requires ParseFields(s, depth).Got?
    ensures var fs := ParseFields(s, depth).value;
      fs != [] && Tokens(Object(fs)) && MaxFieldDepth(fs) <= depth
    decreases |s|, 2
  {
    var u := Skip(ParseString(s).rest)[1..];
    ParsedIsPrintable(u, depth);
    var f, t := Field(ParseString(s).value, Parse(u, depth).value), Skip(Parse(u, depth).rest);
    if t[0] == CLOSE_OBJECT {
      assert [f][1..] == [];
    } else {
      ParsedFields(Skip(t[1..]), depth);
      var ws := ParseFields(Skip(t[1..]), depth).value;
      assert ([f] + ws)[1..] == ws;
    }
  }

  /** Printing a decoded document whose texts are valid UTF-8, and decoding it again, changes nothing. */
  lemma DecodeAgain(s: Text, pretty: bool)
    requires Decode(s).Got? && Texts(Decode(s).value)
    ensures Decode(Encode(Decode(s).value, pretty)) == Decode(s)
  {
    ParsedIsPrintable(s, MAX_DEPTH);
    DecodeEncoded(Decode(s).value, pretty);
  }

  /** A line of the pretty form begins with three spaces a level. */
  lemma {:induction false} LineIs(offset: int)
    ensures Line(offset) == if offset >= 0 then [10] + seq(3 * offset, _ => 32) else []
  {
    if offset >= 0 { SpacesAre(offset); }
  }

  lemma {:induction false} SpacesAre(n: nat)
    ensures Spaces(n) == seq(3 * n, _ => 32)
  {
    if n > 0 { SpacesAre(n - 1); }
  }
}
