/** JsonBuilder and its scopes of pxcutils/pxc/utils/JsonBuilder.h: the printer appends to a text. */
module JsonBuilder {
  import opened Utf8
  import opened JsonString
  import opened JsonValue
  import R = JsonRoundTrip

  lemma Joined(a: Text, b: Text, c: Text, d: Text)
    ensures a + (b + (c + d)) == ((a + b) + c) + d
  {
  }

  lemma Bracketed(a: Text, open: Byte, body: Text, line: Text, close: Byte)
    ensures (((a + [open]) + body) + line) + [close] == a + ([open] + (body + (line + [close])))
  {
  }

  /** The printed items, and what is still to print. */
  ghost predicate ItemsLeft(start: Text, text: Text, vs: seq<Value>, i: nat, offset: int) {
    && i <= |vs| && (forall j :: 0 <= j < |vs| ==> Texts(vs[j]))
    && text + StoreItems(vs[i..], offset, i > 0) == start + StoreItems(vs, offset, false)
  }

  lemma ItemPrinted(start: Text, text: Text, vs: seq<Value>, i: nat, offset: int, text': Text)
    requires ItemsLeft(start, text, vs, i, offset) && i < |vs|
    requires text' == ((text + Comma(i > 0)) + Line(offset)) + Store(vs[i], offset)
    ensures ItemsLeft(start, text', vs, i + 1, offset)
  {
    assert vs[i..][1..] == vs[i + 1..];
    JoinedFour(text, Comma(i > 0), Line(offset), Store(vs[i], offset), StoreItems(vs[i + 1..], offset, true));
  }

  lemma JoinedFour(a: Text, b: Text, c: Text, d: Text, e: Text)
    ensures a + (b + (c + (d + e))) == (((a + b) + c) + d) + e
  {
  }

  ghost predicate FieldsLeft(start: Text, text: Text, fs: seq<Field>, i: nat, offset: int) {
    && i <= |fs| && (forall j :: 0 <= j < |fs| ==> Valid(fs[j].name) && Texts(fs[j].value))
    && text + StoreFields(fs[i..], offset, i > 0) == start + StoreFields(fs, offset, false)
  }

  lemma FieldPrinted(start: Text, text: Text, fs: seq<Field>, i: nat, offset: int, text': Text)
    requires FieldsLeft(start, text, fs, i, offset) && i < |fs|
    requires text' == ((text + Comma(i > 0)) + Line(offset)) + StoreField(fs[i], offset)
    ensures FieldsLeft(start, text', fs, i + 1, offset)
  {
    assert fs[i..][1..] == fs[i + 1..];
    JoinedFour(text, Comma(i > 0), Line(offset), StoreField(fs[i], offset), StoreFields(fs[i + 1..], offset, true));
  }

  class JsonBuilder {
    var text: Text
    var offset: int

    constructor (offset: int)
      ensures text == [] && this.offset == offset
    {
      text := [];
      this.offset := offset;
    }

    method PrintOffset()
      modifies `text
      ensures text == old(text) + Line(offset)
    {
      if offset >= 0 {
        text := text + [10];
        ghost var start := text;
        for x := 0 to offset
          invariant text == start + Spaces(x)
        {
          text := text + [32, 32, 32];
        }
      }
    }

    /** Its check that the offset is positive holds, as it is called after IncOffset. */
    method DecOffset()
      requires offset != 0
      modifies `offset
      ensures Inner(offset) == old(offset)
    {
      if offset >= 0 {
        offset := offset - 1;
      }
    }

    method IncOffset()
      modifies `offset
      ensures offset == Inner(old(offset)) && offset != 0
    {
      if offset >= 0 {
        offset := offset + 1;
      }
    }

    /** JsonScope::operator<< for a JsonString */
    method PutString(s: Text)
      requires Valid(s)
      modifies `text
      ensures text == old(text) + Quoted(s)
    {
      var out, cs := Print(s);
      EncodeAllInjective(cs, Chars(s));
      text := text + out;
    }

    /** JsonValue::store into a value scope */
    method Put(v: Value)
      requires Texts(v)
      modifies this
      ensures offset == old(offset) && text == old(text) + Store(v, offset)
      decreases v, 0
    {
      match v
      case Null => text := text + NULL_WORD;
      case Boolean(b) => text := text + if b then TRUE_WORD else FALSE_WORD;
      case Number(token) => text := text + token;
      case String(s) => PutString(s);
      case Array(items) => PutArray(items);
      case Object(fields) => PutObject(fields);
    }

    /** JsonArrayScope, from its constructor to leave() */
    method PutArray(vs: seq<Value>)
      requires forall i :: 0 <= i < |vs| ==> Texts(vs[i])
      modifies this
      ensures offset == old(offset) && text == old(text) + Store(Array(vs), offset)
      decreases vs, 2
    {
      ghost var a, o := text, offset;
      IncOffset();
      text := text + [OPEN_ARRAY];
      PutItems(vs);
      DecOffset();
      PrintOffset();
      text := text + [CLOSE_ARRAY];
      Bracketed(a, OPEN_ARRAY, StoreItems(vs, Inner(o), false), Line(o), CLOSE_ARRAY);
    }

    method PutItems(vs: seq<Value>)
      requires forall i :: 0 <= i < |vs| ==> Texts(vs[i])
      modifies this
      ensures offset == old(offset) && text == old(text) + StoreItems(vs, offset, false)
      decreases vs, 1
    {
      ghost var start := text;
      var was := false;
      assert vs[0..] == vs;
      for i := 0 to |vs|
        invariant was == (i > 0) && offset == old(offset) && ItemsLeft(start, text, vs, i, offset)
      {
        ghost var before := text;
        PutItem(vs[i], was);
        ItemPrinted(start, before, vs, i, offset, text);
        was := true;
      }
      assert text + [] == text;
    }

    /** JsonArrayScope::enter_value, and the value */
    method PutItem(v: Value, was: bool)
      requires Texts(v)
      modifies this
      ensures offset == old(offset) && text == ((old(text) + Comma(was)) + Line(offset)) + Store(v, offset)
      decreases v, 1
    {
      text := text + Comma(was);
      PrintOffset();
      Put(v);
    }

    /** JsonObjectScope, from its constructor to leave() */
    method PutObject(fs: seq<Field>)
      requires forall i :: 0 <= i < |fs| ==> Valid(fs[i].name) && Texts(fs[i].value)
      modifies this
      ensures offset == old(offset) && text == old(text) + Store(Object(fs), offset)
      decreases fs, 2
    {
      ghost var a, o := text, offset;
      IncOffset();
      text := text + [OPEN_OBJECT];
      PutFields(fs);
      DecOffset();
      PrintOffset();
      text := text + [CLOSE_OBJECT];
      Bracketed(a, OPEN_OBJECT, StoreFields(fs, Inner(o), false), Line(o), CLOSE_OBJECT);
    }

    method PutFields(fs: seq<Field>)
      requires forall i :: 0 <= i < |fs| ==> Valid(fs[i].name) && Texts(fs[i].value)
      modifies this
      ensures offset == old(offset) && text == old(text) + StoreFields(fs, offset, false)
      decreases fs, 1
    {
      ghost var start := text;
      var was := false;
      assert fs[0..] == fs;
      for i := 0 to |fs|
        invariant was == (i > 0) && offset == old(offset) && FieldsLeft(start, text, fs, i, offset)
      {
        ghost var before := text;
        PutField(fs[i], was);
        FieldPrinted(start, before, fs, i, offset, text);
        was := true;
      }
      assert text + [] == text;
    }

    /** JsonObjectScope::operator() */
    method PutField(f: Field, was: bool)
      requires Valid(f.name) && Texts(f.value)
      modifies this
      ensures offset == old(offset) && text == ((old(text) + Comma(was)) + Line(offset)) + StoreField(f, offset)
      decreases f, 1
    {
      text := text + Comma(was);
      PrintOffset();
      ghost var before := text;
      PutString(f.name);
      text := text + if offset >= 0 then [32, COLON, 32] else [COLON];
      Put(f.value);
      Joined(before, Quoted(f.name), Colon(offset), Store(f.value, offset));
    }
  }

  /** json_encode: what it prints is read back. */
  method JsonEncode(v: Value, pretty: bool) returns (text: Text)
    requires Texts(v)
    ensures text == R.Encode(v, pretty)
    ensures Tokens(v) ==> R.Decode(text) == if Depth(v) <= MAX_DEPTH then Got(v, []) else Rejected
  {
    var jb := new JsonBuilder(if pretty then 0 else -1);
    jb.Put(v);
    text := jb.text;
    assert [] + Store(v, jb.offset) == Store(v, jb.offset);
    if pretty {
      text := text + [10];
    }
    if Tokens(v) { R.DecodeEncoded(v, pretty); }
  }
}
