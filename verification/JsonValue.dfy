/**
 * JSON values as pxcutils/pxc/utils/JsonBuilder.h prints them and pxcutils/pxc/utils/JsonBuilder.cpp
 * reads them: parsing what was printed gives the value back exactly if it is not nested too deeply.
 */
module JsonValue {
  import opened Utf8
  import opened JsonString

  datatype Value =
    | Null
    | Boolean(value: bool)
    | Number(token: Text)
    | String(text: Text)
    | Array(items: seq<Value>)
    | Object(fields: seq<Field>)

  datatype Field = Field(name: Text, value: Value)

  const NULL_WORD: Text := [110, 117, 108, 108]
  const TRUE_WORD: Text := [116, 114, 117, 101]
  const FALSE_WORD: Text := [102, 97, 108, 115, 101]

  const COMMA: Byte := 44
  const COLON: Byte := 58
  const OPEN_ARRAY: Byte := 91
  const CLOSE_ARRAY: Byte := 93
  const OPEN_OBJECT: Byte := 123
  const CLOSE_OBJECT: Byte := 125

  const MAX_DEPTH := 100

  predicate IsSpace(c: Byte) { c == 32 || c == 9 || c == 13 || c == 10 }

  predicate IsDigit(c: Byte) { 48 <= c <= 57 }

  predicate InNumber(c: Byte) { c == 45 || IsDigit(c) || c == 101 || c == 69 || c == 43 || c == 46 }

  predicate StartsNumber(c: Byte) { c == 45 || c == 43 || c == 46 || IsDigit(c) }

  // ----- which values can be printed

  predicate IsToken(t: Text) {
    t != [] && StartsNumber(t[0]) && forall i :: 0 <= i < |t| ==> InNumber(t[i])
  }

  /** Every number is a token, and every text satisfies the predicate. */
  ghost predicate Tokens(v: Value) {
    match v
    case Number(token) => IsToken(token)
    case Array(items) => forall i :: 0 <= i < |items| ==> Tokens(items[i])
    case Object(fields) => forall i :: 0 <= i < |fields| ==> Tokens(fields[i].value)
    case _ => true
  }

  /** Every text is valid UTF-8. */
  ghost predicate Texts(v: Value) {
    match v
    case String(text) => Valid(text)
    case Array(items) => forall i :: 0 <= i < |items| ==> Texts(items[i])
    case Object(fields) => forall i :: 0 <= i < |fields| ==> Valid(fields[i].name) && Texts(fields[i].value)
    case _ => true
  }

  /** How many levels of non-empty arrays and objects there are around the innermost value. */
  function Depth(v: Value): (d: nat) {
    match v
    case Array(items) => if items == [] then 0 else 1 + MaxDepth(items)
    case Object(fields) => if fields == [] then 0 else 1 + MaxFieldDepth(fields)
    case _ => 0
  }

  function Max(a: nat, b: nat): nat { if a < b then b else a }

  function MaxDepth(vs: seq<Value>): (d: nat) {
    if vs == [] then 0 else Max(Depth(vs[0]), MaxDepth(vs[1..]))
  }

  function MaxFieldDepth(fs: seq<Field>): (d: nat) {
    if fs == [] then 0 else Max(Depth(fs[0].value), MaxFieldDepth(fs[1..]))
  }

  // ----- printing

  /** The characters of a valid text. */
  ghost function Chars(s: Text): (cs: seq<nat>)
    requires Valid(s)
    ensures AllScalar(cs) && EncodeAll(cs) == s
  {
    var cs :| AllScalar(cs) && EncodeAll(cs) == s;
    cs
  }

  ghost function Quoted(s: Text): Text
    requires Valid(s)
  {
    [QUOTE] + PrintAll(Chars(s)) + [QUOTE]
  }

  function Spaces(n: nat): Text { if n == 0 then [] else Spaces(n - 1) + [32, 32, 32] }

  /** print_offset: a negative offset means compact printing. */
  function Line(offset: int): Text { if offset >= 0 then [10] + Spaces(offset) else [] }

  /** inc_offset */
  function Inner(offset: int): int { if offset >= 0 then offset + 1 else offset }

  function Colon(offset: int): Text { if offset >= 0 then [32, COLON, 32] else [COLON] }

  function Comma(was: bool): Text { if was then [COMMA] else [] }

  /** JsonValue::store */
  ghost function Store(v: Value, offset: int): Text
    requires Texts(v)
    decreases v
  {
    match v
    case Null => NULL_WORD
    case Boolean(value) => if value then TRUE_WORD else FALSE_WORD
    case Number(token) => token
    case String(text) => Quoted(text)
    case Array(items) => [OPEN_ARRAY] + (StoreItems(items, Inner(offset), false) + (Line(offset) + [CLOSE_ARRAY]))
    case Object(fields) => [OPEN_OBJECT] + (StoreFields(fields, Inner(offset), false) + (Line(offset) + [CLOSE_OBJECT]))
  }

  ghost function StoreItems(vs: seq<Value>, offset: int, was: bool): Text
    requires forall i :: 0 <= i < |vs| ==> Texts(vs[i])
    decreases vs
  {
    if vs == [] then []
    else Comma(was) + (Line(offset) + (Store(vs[0], offset) + StoreItems(vs[1..], offset, true)))
  }

  ghost function StoreField(f: Field, offset: int): Text
    requires Valid(f.name) && Texts(f.value)
    decreases f
  {
    Quoted(f.name) + (Colon(offset) + Store(f.value, offset))
  }

  ghost function StoreFields(fs: seq<Field>, offset: int, was: bool): Text
    requires forall i :: 0 <= i < |fs| ==> Valid(fs[i].name) && Texts(fs[i].value)
    decreases fs
  {
    if fs == [] then []
    else Comma(was) + (Line(offset) + (StoreField(fs[0], offset) + StoreFields(fs[1..], offset, true)))
  }

  // ----- parsing

  datatype Parsed<T> = Rejected | Got(value: T, rest: Text)

  /** skip_whitespaces */
  function Skip(s: Text): (r: Text)
    ensures |r| <= |s|
  {
    if s != [] && IsSpace(s[0]) then Skip(s[1..]) else s
  }

  function NumberLength(s: Text): (n: nat)
    ensures n <= |s| && forall i :: 0 <= i < n ==> InNumber(s[i])
    ensures n < |s| ==> !InNumber(s[n])
  {
    if s != [] && InNumber(s[0]) then 1 + NumberLength(s[1..]) else 0
  }

  /** try_skip of a word */
  function Word(s: Text, word: Text, v: Value): Parsed<Value> {
    if word <= s then Got(v, s[|word|..]) else Rejected
  }

  /** do_json_decode */
  function Parse(s: Text, depth: int): (r: Parsed<Value>)
    ensures r.Got? ==> |r.rest| < |s|
    decreases |s|, 2
  {
    if depth < 0 then Rejected else ParseAt(Skip(s), depth)
  }

  function ParseAt(s: Text, depth: nat): (r: Parsed<Value>)
    ensures r.Got? ==> |r.rest| < |s|
    decreases |s|, 1
  {
    if s == [] then Rejected
    else if s[0] == 102 then Word(s, FALSE_WORD, Boolean(false))
    else if s[0] == 116 then Word(s, TRUE_WORD, Boolean(true))
    else if s[0] == 110 then Word(s, NULL_WORD, Null)
    else if s[0] == QUOTE then
      match ParseString(s)
      case Rejected => Rejected
      case Got(text, rest) => Got(String(text), rest)
    else if s[0] == OPEN_ARRAY then ParseArray(Skip(s[1..]), depth)
    else if s[0] == OPEN_OBJECT then ParseObject(Skip(s[1..]), depth)
    else if StartsNumber(s[0]) then Got(Number(s[..NumberLength(s)]), s[NumberLength(s)..])
    else Rejected
  }

  /** json_string_decode */
  function ParseString(s: Text): (r: Parsed<Text>)
    ensures r.Got? ==> |r.rest| < |s|
  {
    if s == [] || s[0] != QUOTE then Rejected
    else
      match Decode(s[1..])
      case Error => Rejected
      case Ok(text, len) => Got(text, s[1 + len..])
  }

  /** An array without its opening. */
  function ParseArray(t: Text, depth: nat): (r: Parsed<Value>)
    ensures r.Got? ==> |r.rest| < |t|
    decreases |t|, 5
  {
    if t != [] && t[0] == CLOSE_ARRAY then Got(Array([]), t[1..])
    else
      match ParseItems(t, depth - 1)
      case Rejected => Rejected
      case Got(vs, rest) => Got(Array(vs), rest)
  }

  /** An object without its opening. */
  function ParseObject(t: Text, depth: nat): (r: Parsed<Value>)
    ensures r.Got? ==> |r.rest| < |t|
    decreases |t|, 5
  {
    if t != [] && t[0] == CLOSE_OBJECT then Got(Object([]), t[1..])
    else
      match ParseFields(t, depth - 1)
      case Rejected => Rejected
      case Got(fs, rest) => Got(Object(fs), rest)
  }

  /** The rest of a non-empty array. */
  function ParseItems(s: Text, depth: int): (r: Parsed<seq<Value>>)
    ensures r.Got? ==> |r.rest| < |s|
    decreases |s|, 3
  {
    match Parse(s, depth)
    case Rejected => Rejected
    case Got(v, rest) => ItemsAfter(v, Skip(rest), depth)
  }

  function ItemsAfter(v: Value, t: Text, depth: int): (r: Parsed<seq<Value>>)
    ensures r.Got? ==> |r.rest| < |t|
    decreases |t|, 4
  {
    if t != [] && t[0] == CLOSE_ARRAY then Got([v], t[1..])
    else if t != [] && t[0] == COMMA then Before([v], ParseItems(Skip(t[1..]), depth))
    else Rejected
  }

  function Before<T>(vs: seq<T>, r: Parsed<seq<T>>): Parsed<seq<T>> {
    match r
    case Rejected => Rejected
    case Got(ws, rest) => Got(vs + ws, rest)
  }

  /** The rest of a non-empty object. */
  function ParseFields(s: Text, depth: int): (r: Parsed<seq<Field>>)
    ensures r.Got? ==> |r.rest| < |s|
    decreases |s|, 3
  {
    match ParseString(s)
    case Rejected => Rejected
    case Got(name, rest) =>
      var t := Skip(rest);
      if t == [] || t[0] != COLON then Rejected
      else
        match Parse(t[1..], depth)
        case Rejected => Rejected
        case Got(v, after) => FieldsAfter(Field(name, v), Skip(after), depth)
  }

  function FieldsAfter(f: Field, t: Text, depth: int): (r: Parsed<seq<Field>>)
    ensures r.Got? ==> |r.rest| < |t|
    decreases |t|, 4
  {
    if t != [] && t[0] == CLOSE_OBJECT then Got([f], t[1..])
    else if t != [] && t[0] == COMMA then Before([f], ParseFields(Skip(t[1..]), depth))
    else Rejected
  }
}
