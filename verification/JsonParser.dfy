/** The parser of pxcutils/pxc/utils/JsonBuilder.cpp, which decodes strings in place as it goes. */
module JsonParser {
  import opened Utf8
  import opened JsonString
  import opened JsonValue
  import opened JsonSlices
  import R = JsonRoundTrip
  import G = JsonGrammar

  // ----- the items of an array

  /** rs are read, and the items from p on are still to read. */
  ghost predicate ItemsSoFar(b0: Text, p0: nat, b: Text, p: nat, rs: seq<Raw>, d: int) {
    var all := Read(b0, b, p0, p) && AllInside(rs, p0, p)
      && ParseItems(b0[p0..], d) == Before(Meanings(b, rs), ParseItems(b0[p..], d));
    all
  }

  /** What follows an item, when vs are read. */
  ghost function AfterItems(vs: seq<Value>, t: Text, d: int): Parsed<seq<Value>> {
    if t != [] && t[0] == CLOSE_ARRAY then Got(vs, t[1..])
    else if t != [] && t[0] == COMMA then Before(vs, ParseItems(Skip(t[1..]), d))
    else Rejected
  }

  ghost predicate ItemEnds(b0: Text, p0: nat, b: Text, p: nat, rs: seq<Raw>, d: int) {
    var all := Read(b0, b, p0, p) && AllInside(rs, p0, p)
      && ParseItems(b0[p0..], d) == AfterItems(Meanings(b, rs), Skip(b0[p..]), d);
    all
  }

  lemma NothingYet(b: Text, p: nat, d: int)
    requires p <= |b|
    ensures ItemsSoFar(b, p, b, p, [], d)
  {
    match ParseItems(b[p..], d)
    case Rejected =>
    case Got(vs, rest) => assert [] + vs == vs;
  }

  lemma BeforeItem(vs: seq<Value>, v: Value, t: Text, d: int)
    ensures Before(vs, ItemsAfter(v, t, d)) == AfterItems(vs + [v], t, d)
  {
    if t != [] && t[0] == COMMA && t[0] != CLOSE_ARRAY {
      match ParseItems(Skip(t[1..]), d)
      case Rejected =>
      case Got(ws, rest) => assert vs + ([v] + ws) == (vs + [v]) + ws;
    }
  }

  lemma ItemRead(b0: Text, p0: nat, b1: Text, p1: nat, rs: seq<Raw>, d: int, b2: Text, p2: nat, r: Raw, rs': seq<Raw>)
    requires ItemsSoFar(b0, p0, b1, p1, rs, d) && DecodedTo(Parse(b1[p1..], d), b1, p1, b2, p2, true, r)
    requires rs' == rs + [r]
    ensures ItemEnds(b0, p0, b2, p2, rs', d)
  {
    ReadTwice(b0, b1, b2, p0, p1, p2);
    ReadOn(b0, b1, p0, p1, p2);
    MeaningsKept(b1, b2, rs, p0, p1);
    AllInsideWider(rs, p0, p1, p0, p2);
    InsideWider(r, p1, p2, p0, p2);
    OneMore(b2, rs, r, p0, p2);
    BeforeItem(Meanings(b2, rs), Meaning(b2, r), Skip(b0[p2..]), d);
  }

  lemma ItemFails(b0: Text, p0: nat, b1: Text, p1: nat, rs: seq<Raw>, d: int, b2: Text, p2: nat, r: Raw)
    requires ItemsSoFar(b0, p0, b1, p1, rs, d) && DecodedTo(Parse(b1[p1..], d), b1, p1, b2, p2, false, r)
    ensures ParseItems(b0[p0..], d) == Rejected
  {
    ReadOn(b0, b1, p0, p1, p1);
  }

  /** How an item or field ended. */
  datatype End = More | Done | Broken

  /** From t on, with the whitespace skipped: what ends, and what is left to read. */
  ghost predicate Ended(t: Text, close: Byte, end: End, left: Text) {
    match end
    case Done => t != [] && t[0] == close && left == t[1..]
    case More => t != [] && t[0] == COMMA && left == Skip(t[1..])
    case Broken => t == [] || (t[0] != close && t[0] != COMMA)
  }

  lemma ItemsGoOn(b0: Text, p0: nat, b: Text, p: nat, rs: seq<Raw>, d: int, end: End, p': nat)
    requires ItemEnds(b0, p0, b, p, rs, d) && p <= p' <= |b| && Ended(Skip(b[p..]), CLOSE_ARRAY, end, b[p'..])
    ensures end.More? ==> ItemsSoFar(b0, p0, b, p', rs, d)
    ensures end.Done? ==> Read(b0, b, p0, p') && AllInside(rs, p0, p')
    ensures end.Done? ==> ParseItems(b0[p0..], d) == Got(Meanings(b, rs), b0[p'..])
    ensures end.Broken? ==> ParseItems(b0[p0..], d) == Rejected
  {
    ReadOn(b0, b, p0, p, p);
    ReadOn(b0, b, p0, p, p');
    AllInsideWider(rs, p0, p, p0, p');
  }

  // ----- the fields of an object

  ghost predicate FieldsSoFar(b0: Text, p0: nat, b: Text, p: nat, fs: seq<RawField>, d: int) {
    var all := Read(b0, b, p0, p) && FieldsInside(fs, p0, p)
      && ParseFields(b0[p0..], d) == Before(FieldMeanings(b, fs), ParseFields(b0[p..], d));
    all
  }

  ghost function AfterFields(vs: seq<Field>, t: Text, d: int): Parsed<seq<Field>> {
    if t != [] && t[0] == CLOSE_OBJECT then Got(vs, t[1..])
    else if t != [] && t[0] == COMMA then Before(vs, ParseFields(Skip(t[1..]), d))
    else Rejected
  }

  ghost predicate FieldEnds(b0: Text, p0: nat, b: Text, p: nat, fs: seq<RawField>, d: int) {
    var all := Read(b0, b, p0, p) && FieldsInside(fs, p0, p)
      && ParseFields(b0[p0..], d) == AfterFields(FieldMeanings(b, fs), Skip(b0[p..]), d);
    all
  }

  lemma NoFieldYet(b: Text, p: nat, d: int)
    requires p <= |b|
    ensures FieldsSoFar(b, p, b, p, [], d)
  {
    match ParseFields(b[p..], d)
    case Rejected =>
    case Got(vs, rest) => assert [] + vs == vs;
  }

  lemma BeforeField(vs: seq<Field>, v: Field, t: Text, d: int)
    ensures Before(vs, FieldsAfter(v, t, d)) == AfterFields(vs + [v], t, d)
  {
    if t != [] && t[0] == COMMA && t[0] != CLOSE_OBJECT {
      match ParseFields(Skip(t[1..]), d)
      case Rejected =>
      case Got(ws, rest) => assert vs + ([v] + ws) == (vs + [v]) + ws;
    }
  }

  /** One field: its name is at from..to, and its value is read up to p2. */
  ghost predicate FieldDecoded(b1: Text, p1: nat, b2: Text, p2: nat, d: int, ok: bool, f: RawField)
    requires p1 <= |b1|
  {
    if ok then
      && Read(b1, b2, p1, p2) && FieldInside(f, p1, p2)
      && ParseFields(b1[p1..], d) == FieldsAfter(FieldMeaning(b2, f), Skip(b2[p2..]), d)
    else ParseFields(b1[p1..], d) == Rejected
  }

  lemma FieldRead(b0: Text, p0: nat, b1: Text, p1: nat, fs: seq<RawField>, d: int, b2: Text, p2: nat, f: RawField, fs': seq<RawField>)
    requires FieldsSoFar(b0, p0, b1, p1, fs, d) && p1 <= |b1| && FieldDecoded(b1, p1, b2, p2, d, true, f)
    requires fs' == fs + [f]
    ensures FieldEnds(b0, p0, b2, p2, fs', d)
  {
    ReadTwice(b0, b1, b2, p0, p1, p2);
    FieldMeaningsKept(b1, b2, fs, p0, p1);
    FieldsInsideWider(fs, p0, p1, p0, p2);
    FieldInsideWider(f, p1, p2, p0, p2);
    OneMoreField(b2, fs, f, p0, p2);
    BeforeField(FieldMeanings(b2, fs), FieldMeaning(b2, f), Skip(b0[p2..]), d);
  }

  lemma FieldFails(b0: Text, p0: nat, b1: Text, p1: nat, fs: seq<RawField>, d: int, b2: Text, p2: nat, f: RawField)
    requires FieldsSoFar(b0, p0, b1, p1, fs, d) && p1 <= |b1| && FieldDecoded(b1, p1, b2, p2, d, false, f)
    ensures ParseFields(b0[p0..], d) == Rejected
  {
    ReadOn(b0, b1, p0, p1, p1);
  }

  lemma FieldsGoOn(b0: Text, p0: nat, b: Text, p: nat, fs: seq<RawField>, d: int, end: End, p': nat)
    requires FieldEnds(b0, p0, b, p, fs, d) && p <= p' <= |b| && Ended(Skip(b[p..]), CLOSE_OBJECT, end, b[p'..])
    ensures end.More? ==> FieldsSoFar(b0, p0, b, p', fs, d)
    ensures end.Done? ==> Read(b0, b, p0, p') && FieldsInside(fs, p0, p')
    ensures end.Done? ==> ParseFields(b0[p0..], d) == Got(FieldMeanings(b, fs), b0[p'..])
    ensures end.Broken? ==> ParseFields(b0[p0..], d) == Rejected
  {
    ReadOn(b0, b, p0, p, p);
    ReadOn(b0, b, p0, p, p');
    FieldsInsideWider(fs, p0, p, p0, p');
  }

  lemma FieldText(s: Text, name: Text, t: Text, d: int, v: Value, rest: Text)
    requires ParseString(s).Got? && ParseString(s).value == name && Skip(ParseString(s).rest) == t
    requires t != [] && t[0] == COLON && Parse(t[1..], d) == Got(v, rest)
    ensures ParseFields(s, d) == FieldsAfter(Field(name, v), Skip(rest), d)
  {
  }

  /** The name is read up to p1, the colon stands at p2, and the value is read up to p3. */
  lemma FieldParts(b0: Text, p0: nat, to: nat, b1: Text, p1: nat, p2: nat, d: int, b3: Text, p3: nat, r: Raw, f: RawField)
    requires p0 <= |b0| && Read(b0, b1, p0, p1) && p0 < to < p1 <= p2 < |b1|
    requires ParseString(b0[p0..]) == Got(Slice(b1, p0 + 1, to), b0[p1..])
    requires b1[p2..] == Skip(b1[p1..]) && b1[p2] == COLON
    requires DecodedTo(Parse(b1[p2 + 1..], d), b1, p2 + 1, b3, p3, true, r)
    requires f == RawField(p0 + 1, to, r)
    ensures FieldDecoded(b0, p0, b3, p3, d, true, f)
  {
    var name, v := Slice(b1, p0 + 1, to), Meaning(b3, r);
    assert ParseFields(b0[p0..], d) == FieldsAfter(Field(name, v), Skip(b3[p3..]), d) by {
      ReadOn(b0, b1, p0, p1, p1);
      ReadTwice(b1, b1, b3, p2 + 1, p2 + 1, p3);
      assert b1[p2..][1..] == b1[p2 + 1..];
      FieldText(b0[p0..], name, b1[p2..], d, v, b3[p3..]);
    }
    FieldKept(b0, p0, to, b1, p1, p2, b3, p3, r, f);
  }

  lemma FieldKept(b0: Text, p0: nat, to: nat, b1: Text, p1: nat, p2: nat, b3: Text, p3: nat, r: Raw, f: RawField)
    requires Read(b0, b1, p0, p1) && p0 < to < p1 <= p2 < |b1| && Read(b1, b3, p2 + 1, p3) && Inside(r, p2 + 1, p3)
    requires f == RawField(p0 + 1, to, r)
    ensures Read(b0, b3, p0, p3) && FieldInside(f, p0, p3)
    ensures FieldMeaning(b3, f) == Field(Slice(b1, p0 + 1, to), Meaning(b3, r))
  {
    ReadOn(b0, b1, p0, p1, p2 + 1);
    ReadTwice(b0, b1, b3, p0, p2 + 1, p3);
    SliceKept(b1, b3, p0, p2 + 1, p0 + 1, to);
    InsideWider(r, p2 + 1, p3, p0, p3);
  }

  lemma FieldValueFails(b0: Text, p0: nat, to: nat, b1: Text, p1: nat, p2: nat, d: int, b3: Text, p3: nat, r: Raw, f: RawField)
    requires p0 <= |b0| && Read(b0, b1, p0, p1) && p0 < to < p1 <= p2 < |b1|
    requires ParseString(b0[p0..]) == Got(Slice(b1, p0 + 1, to), b0[p1..])
    requires b1[p2..] == Skip(b1[p1..]) && b1[p2] == COLON
    requires DecodedTo(Parse(b1[p2 + 1..], d), b1, p2 + 1, b3, p3, false, r)
    ensures FieldDecoded(b0, p0, b3, p3, d, false, f)
  {
    ReadOn(b0, b1, p0, p1, p1);
    assert Skip(b0[p1..])[1..] == b1[p2 + 1..];
  }

  lemma NoColon(b0: Text, p0: nat, to: nat, b1: Text, p1: nat, p2: nat, d: int, f: RawField)
    requires p0 <= |b0| && Read(b0, b1, p0, p1) && p0 < to < p1 <= p2 <= |b1|
    requires ParseString(b0[p0..]) == Got(Slice(b1, p0 + 1, to), b0[p1..])
    requires b1[p2..] == Skip(b1[p1..]) && (p2 < |b1| ==> b1[p2] != COLON)
    ensures FieldDecoded(b0, p0, b1, p2, d, false, f)
  {
    ReadOn(b0, b1, p0, p1, p1);
  }

  // ----- whole values

  /** The same value, read from an earlier place. */
  lemma Earlier(result: Parsed<Value>, b0: Text, p0: nat, p1: nat, b: Text, p: nat, ok: bool, r: Raw)
    requires DecodedTo(result, b0, p1, b, p, ok, r) && p0 <= p1
    ensures DecodedTo(result, b0, p0, b, p, ok, r)
  {
    if ok { InsideWider(r, p1, p, p0, p); }
  }

  lemma ArrayRead(b0: Text, p0: nat, b: Text, p: nat, d: nat, rs: seq<Raw>)
    requires p0 <= |b0| && (p0 < |b0| ==> b0[p0] != CLOSE_ARRAY)
    requires Read(b0, b, p0, p) && AllInside(rs, p0, p)
    requires ParseItems(b0[p0..], d - 1) == Got(Meanings(b, rs), b0[p..])
    ensures DecodedTo(ParseArray(b0[p0..], d), b0, p0, b, p, true, RawArray(rs))
  {
  }

  lemma ObjectRead(b0: Text, p0: nat, b: Text, p: nat, d: nat, fs: seq<RawField>)
    requires p0 <= |b0| && (p0 < |b0| ==> b0[p0] != CLOSE_OBJECT)
    requires Read(b0, b, p0, p) && FieldsInside(fs, p0, p)
    requires ParseFields(b0[p0..], d - 1) == Got(FieldMeanings(b, fs), b0[p..])
    ensures DecodedTo(ParseObject(b0[p0..], d), b0, p0, b, p, true, RawObject(fs))
  {
  }

  lemma NothingWritten(b: Text, p0: nat, p: nat)
    requires p0 <= p <= |b|
    ensures Read(b, b, p0, p) && b[p0..][p - p0..] == b[p..]
  {
  }

  /** A parser over a buffer; what is before ptr has been read. */
  class Parser {
    const buf: array<Byte>
    var ptr: nat

    constructor (buf: array<Byte>)
      ensures this.buf == buf && ptr == 0
    {
      this.buf := buf;
      ptr := 0;
    }

    /** *cur_dest++ = ... for the bytes of one character. */
    method WriteBytes(at: nat, bytes: Text)
      requires at + |bytes| <= buf.Length
      modifies buf
      ensures Overwritten(old(buf[..]), buf[..], at, bytes)
    {
      ghost var b := buf[..];
      for i := 0 to |bytes|
        invariant forall j :: 0 <= j < buf.Length ==> buf[j] == if at <= j < at + i then bytes[j - at] else b[j]
      {
        buf[at + i] := bytes[i];
      }
    }

    /** The turn that emits: it overwrites only what was read. */
    method EmitTurn(ghost b0: Text, ghost start: nat, src: nat, ghost out: Text, dst: nat, bytes: Text, n: nat)
      returns (src': nat, ghost out': Text, dst': nat)
      requires Progress(b0, buf[..], start, src, out) && dst == start + |out| && EmitsAt(b0, src, bytes, n)
      modifies buf
      ensures Progress(b0, buf[..], start, src', out') && dst' == start + |out'| && src < src'
    {
      ghost var b := buf[..];
      TurnFits(b0, b, start, src, out, bytes, n);
      WriteBytes(dst, bytes);
      src', out', dst' := src + n, out + bytes, dst + |bytes|;
      TurnEmits(b0, b, buf[..], start, src, out, dst, bytes, n, src', out');
    }

    /** The loop: the decoded text goes to the front of what is decoded. */
    method DecodeFrom(start: nat) returns (ok: bool, to: nat, next: nat)
      requires start <= buf.Length
      modifies buf
      ensures DecodedInPlace(old(buf[..]), buf[..], start, ok, to, next)
    {
      ok, to, next := false, 0, 0;
      ghost var b0, out: Text := buf[..], [];
      var src: nat, dst: nat := start, start;
      while true
        invariant dst == start + |out| && start <= src <= buf.Length && Progress(b0, buf[..], start, src, out)
        decreases buf.Length - src
      {
        UnreadSame(b0, buf[..], start, src, out);
        var t := TurnOf(buf[src..]);
        assert buf[..][src..] == buf[src..];
        if t.Fail? {
          TurnFails(b0, buf[..], start, src, out);
          return;
        }
        if t.Stop? {
          TurnStops(b0, buf[..], start, src, out);
          ok, to, next := true, dst, src + 1;
          return;
        }
        src, out, dst := EmitTurn(b0, start, src, out, dst, t.bytes, t.n);
      }
    }

    /**
     * json_string_decode: the decoded text is at buf[from..to]; nothing before it and nothing
     * unread is overwritten.
     */
    method StringDecode() returns (ok: bool, from: nat, to: nat)
      requires ptr <= buf.Length
      modifies buf, this`ptr
      ensures old(ptr) <= ptr <= buf.Length
      ensures from == old(ptr) + 1
      ensures if old(ptr) < buf.Length && old(buf[ptr]) == QUOTE then
                DecodedInPlace(old(buf[..]), buf[..], from, ok, to, if ok then ptr else 0)
              else !ok && buf[..] == old(buf[..])
    {
      from, to := ptr + 1, 0;
      if ptr == buf.Length || buf[ptr] != QUOTE {
        return false, from, 0;
      }
      var next;
      ok, to, next := DecodeFrom(from);
      if ok {
        ptr := next;
      }
    }

    /** skip_whitespaces */
    method SkipWhitespaces()
      requires ptr <= buf.Length
      modifies `ptr
      ensures old(ptr) <= ptr <= buf.Length && buf[ptr..] == Skip(buf[old(ptr)..])
    {
      ghost var s := buf[ptr..];
      while ptr < buf.Length && IsSpace(buf[ptr])
        invariant old(ptr) <= ptr <= buf.Length && Skip(s) == Skip(buf[ptr..])
      {
        assert buf[ptr..][1..] == buf[ptr + 1..];
        ptr := ptr + 1;
      }
    }

    method TrySkip(c: Byte) returns (ok: bool)
      requires ptr <= buf.Length
      modifies `ptr
      ensures ok == (old(ptr) < buf.Length && buf[old(ptr)] == c)
      ensures ptr == if ok then old(ptr) + 1 else old(ptr)
    {
      ok := ptr < buf.Length && buf[ptr] == c;
      if ok {
        ptr := ptr + 1;
      }
    }

    /** try_skip of a word that stands for v */
    method TrySkipWord(word: Text, ghost r: Raw, ghost v: Value) returns (ok: bool)
      requires ptr <= buf.Length && word != []
      requires (r.RawNull? && v.Null?) || (r.RawBoolean? && v == Boolean(r.value))
      modifies `ptr
      ensures old(ptr) <= ptr <= buf.Length && (ok ==> old(ptr) < ptr)
      ensures DecodedTo(Word(buf[old(ptr)..], word, v), buf[..], old(ptr), buf[..], ptr, ok, r)
    {
      ghost var p0 := ptr;
      ok := word <= buf[ptr..];
      if ok {
        ptr := ptr + |word|;
        NothingWritten(buf[..], p0, ptr);
      }
    }

    /** read_while with the characters of a number */
    method ReadNumber() returns (from: nat)
      requires ptr <= buf.Length
      modifies `ptr
      ensures from == old(ptr) && ptr == from + NumberLength(buf[from..])
    {
      from := ptr;
      while ptr < buf.Length && InNumber(buf[ptr])
        invariant from <= ptr <= buf.Length
        invariant NumberLength(buf[from..]) == ptr - from + NumberLength(buf[ptr..])
      {
        assert buf[ptr..][1..] == buf[ptr + 1..];
        ptr := ptr + 1;
      }
    }

    /** What comes after an item or a field. */
    method EndOf(close: Byte) returns (end: End)
      requires ptr <= buf.Length
      modifies `ptr
      ensures old(ptr) <= ptr <= buf.Length
      ensures Ended(Skip(buf[old(ptr)..]), close, end, buf[ptr..])
    {
      SkipWhitespaces();
      ghost var t := buf[ptr..];
      var closed := TrySkip(close);
      if closed { return Done; }
      var comma := TrySkip(COMMA);
      if !comma { return Broken; }
      SkipWhitespaces();
      return More;
    }

    /** do_json_decode */
    method DoDecode(depth: int) returns (ok: bool, r: Raw)
      requires ptr <= buf.Length
      modifies buf, `ptr
      ensures old(ptr) <= ptr <= buf.Length && (ok ==> old(ptr) < ptr)
      ensures DecodedTo(Parse(old(buf[ptr..]), depth), old(buf[..]), old(ptr), buf[..], ptr, ok, r)
      decreases buf.Length - ptr, 3
    {
      ok, r := false, RawNull;
      if depth >= 0 {
        ghost var b0, p0 := buf[..], ptr;
        SkipWhitespaces();
        ghost var p1 := ptr;
        ok, r := DecodeAt(depth);
        Earlier(ParseAt(b0[p1..], depth), b0, p0, p1, buf[..], ptr, ok, r);
      }
    }

    /** The switch of do_json_decode. */
    method DecodeAt(depth: nat) returns (ok: bool, r: Raw)
      requires ptr <= buf.Length
      modifies buf, `ptr
      ensures old(ptr) <= ptr <= buf.Length && (ok ==> old(ptr) < ptr)
      ensures DecodedTo(ParseAt(old(buf[ptr..]), depth), old(buf[..]), old(ptr), buf[..], ptr, ok, r)
      decreases buf.Length - ptr, 2
    {
      ok, r := false, RawNull;
      if ptr < buf.Length {
        var c := buf[ptr];
        if c == 102 {
          r := RawBoolean(false);
          ok := TrySkipWord(FALSE_WORD, r, Boolean(false));
        } else if c == 116 {
          r := RawBoolean(true);
          ok := TrySkipWord(TRUE_WORD, r, Boolean(true));
        } else if c == 110 {
          ok := TrySkipWord(NULL_WORD, r, Null);
        } else if c == QUOTE {
          ok, r := DecodeString();
        } else if c == OPEN_ARRAY {
          ok, r := DecodeArray(depth);
        } else if c == OPEN_OBJECT {
          ok, r := DecodeObject(depth);
        } else if StartsNumber(c) {
          r := DecodeNumber();
          ok := true;
        }
      }
    }

    method DecodeNumber() returns (r: Raw)
      requires ptr < buf.Length && StartsNumber(buf[ptr])
      modifies `ptr
      ensures old(ptr) < ptr <= buf.Length
      ensures var n := NumberLength(buf[old(ptr)..]);
        DecodedTo(Got(Number(buf[old(ptr)..][..n]), buf[old(ptr)..][n..]), buf[..], old(ptr), buf[..], ptr, true, r)
    {
      var from := ReadNumber();
      NothingWritten(buf[..], from, ptr);
      r := RawNumber(from, ptr);
    }

    method DecodeString() returns (ok: bool, r: Raw)
      requires ptr < buf.Length && buf[ptr] == QUOTE
      modifies buf, `ptr
      ensures old(ptr) <= ptr <= buf.Length && (ok ==> old(ptr) < ptr)
      ensures DecodedTo(ParseAt(old(buf[ptr..]), 0), old(buf[..]), old(ptr), buf[..], ptr, ok, r)
    {
      ghost var b0, p0 := buf[..], ptr;
      var from, to;
      ok, from, to := StringDecode();
      StringRead(b0, buf[..], p0, ok, to, if ok then ptr else 0);
      r := RawString(from, to);
    }

    method DecodeArray(depth: nat) returns (ok: bool, r: Raw)
      requires ptr < buf.Length && buf[ptr] == OPEN_ARRAY
      modifies buf, `ptr
      ensures old(ptr) <= ptr <= buf.Length && (ok ==> old(ptr) < ptr)
      ensures DecodedTo(ParseArray(Skip(old(buf[ptr + 1..])), depth), old(buf[..]), old(ptr), buf[..], ptr, ok, r)
      decreases buf.Length - ptr, 1
    {
      ghost var b0, p0 := buf[..], ptr;
      ptr := ptr + 1;
      SkipWhitespaces();
      ghost var p1 := ptr;
      var closed := TrySkip(CLOSE_ARRAY);
      ok, r := true, RawArray([]);
      if closed {
        NothingWritten(b0, p1, ptr);
      } else {
        var rs;
        ok, rs := DecodeItems(depth - 1);
        r := RawArray(rs);
        if ok { ArrayRead(b0, p1, buf[..], ptr, depth, rs); }
      }
      Earlier(ParseArray(b0[p1..], depth), b0, p0, p1, buf[..], ptr, ok, r);
    }

    /** The loop over the items. */
    method DecodeItems(d: int) returns (ok: bool, rs: seq<Raw>)
      requires ptr <= buf.Length
      modifies buf, `ptr
      ensures old(ptr) <= ptr <= buf.Length
      ensures if ok then
          Read(old(buf[..]), buf[..], old(ptr), ptr) && AllInside(rs, old(ptr), ptr)
          && ParseItems(old(buf[ptr..]), d) == Got(Meanings(buf[..], rs), old(buf[..])[ptr..])
        else ParseItems(old(buf[ptr..]), d) == Rejected
      decreases buf.Length - ptr, 5
    {
      ghost var b0, p0 := buf[..], ptr;
      ok, rs := true, [];
      NothingYet(b0, p0, d);
      while true
        invariant p0 <= ptr <= buf.Length && ItemsSoFar(b0, p0, buf[..], ptr, rs, d)
        decreases buf.Length - ptr
      {
        ok, rs := DecodeItem(b0, p0, rs, d);
        if !ok { return; }
        ghost var p := ptr;
        var end := EndOf(CLOSE_ARRAY);
        ItemsGoOn(b0, p0, buf[..], p, rs, d, end, ptr);
        if end != More { return end == Done, rs; }
      }
    }

    method DecodeItem(ghost b0: Text, ghost p0: nat, rs: seq<Raw>, d: int) returns (ok: bool, rs': seq<Raw>)
      requires ptr <= buf.Length && ItemsSoFar(b0, p0, buf[..], ptr, rs, d)
      modifies buf, `ptr
      ensures old(ptr) <= ptr <= buf.Length
      ensures if ok then old(ptr) < ptr && ItemEnds(b0, p0, buf[..], ptr, rs', d) else ParseItems(b0[p0..], d) == Rejected
      decreases buf.Length - ptr, 4
    {
      ghost var b, p := buf[..], ptr;
      var r;
      ok, r := DoDecode(d);
      rs' := rs + [r];
      if ok {
        ItemRead(b0, p0, b, p, rs, d, buf[..], ptr, r, rs');
      } else {
        ItemFails(b0, p0, b, p, rs, d, buf[..], ptr, r);
      }
    }

    method DecodeObject(depth: nat) returns (ok: bool, r: Raw)
      requires ptr < buf.Length && buf[ptr] == OPEN_OBJECT
      modifies buf, `ptr
      ensures old(ptr) <= ptr <= buf.Length && (ok ==> old(ptr) < ptr)
      ensures DecodedTo(ParseObject(Skip(old(buf[ptr + 1..])), depth), old(buf[..]), old(ptr), buf[..], ptr, ok, r)
      decreases buf.Length - ptr, 1
    {
      ghost var b0, p0 := buf[..], ptr;
      ptr := ptr + 1;
      SkipWhitespaces();
      ghost var p1 := ptr;
      var closed := TrySkip(CLOSE_OBJECT);
      ok, r := true, RawObject([]);
      if closed {
        NothingWritten(b0, p1, ptr);
      } else {
        var fs;
        ok, fs := DecodeFields(depth - 1);
        r := RawObject(fs);
        if ok { ObjectRead(b0, p1, buf[..], ptr, depth, fs); }
      }
      Earlier(ParseObject(b0[p1..], depth), b0, p0, p1, buf[..], ptr, ok, r);
    }

    /** The loop over the fields. */
    method DecodeFields(d: int) returns (ok: bool, fs: seq<RawField>)
      requires ptr <= buf.Length
      modifies buf, `ptr
      ensures old(ptr) <= ptr <= buf.Length
      ensures if ok then
          Read(old(buf[..]), buf[..], old(ptr), ptr) && FieldsInside(fs, old(ptr), ptr)
          && ParseFields(old(buf[ptr..]), d) == Got(FieldMeanings(buf[..], fs), old(buf[..])[ptr..])
        else ParseFields(old(buf[ptr..]), d) == Rejected
      decreases buf.Length - ptr, 5
    {
      ghost var b0, p0 := buf[..], ptr;
      ok, fs := true, [];
      NoFieldYet(b0, p0, d);
      while true
        invariant p0 <= ptr <= buf.Length && FieldsSoFar(b0, p0, buf[..], ptr, fs, d)
        decreases buf.Length - ptr
      {
        ghost var b1, p1 := buf[..], ptr;
        var f;
        ok, f := DecodeField(d);
        if !ok {
          FieldFails(b0, p0, b1, p1, fs, d, buf[..], ptr, f);
          return;
        }
        ghost var fs0 := fs;
        fs := fs + [f];
        FieldRead(b0, p0, b1, p1, fs0, d, buf[..], ptr, f, fs);
        ghost var p := ptr;
        var end := EndOf(CLOSE_OBJECT);
        FieldsGoOn(b0, p0, buf[..], p, fs, d, end, ptr);
        if end != More { return end == Done, fs; }
      }
    }

    method DecodeField(d: int) returns (ok: bool, f: RawField)
      requires ptr <= buf.Length
      modifies buf, `ptr
      ensures old(ptr) <= ptr <= buf.Length && (ok ==> old(ptr) < ptr)
      ensures FieldDecoded(old(buf[..]), old(ptr), buf[..], ptr, d, ok, f)
      decreases buf.Length - ptr, 4
    {
      ghost var b0, p0 := buf[..], ptr;
      var from, to;
      ok, from, to := StringDecode();
      f := RawField(from, to, RawNull);
      if p0 < |b0| && b0[p0] == QUOTE { StringRead(b0, buf[..], p0, ok, to, if ok then ptr else 0); }
      if !ok { return; }
      ok, f := FieldValue(b0, p0, from, to, d);
    }

    /** What follows the name of a field. */
    method FieldValue(ghost b0: Text, ghost p0: nat, from: nat, to: nat, d: int) returns (ok: bool, f: RawField)
      requires p0 <= |b0| && Read(b0, buf[..], p0, ptr) && p0 < to < ptr <= buf.Length && from == p0 + 1
      requires ParseString(b0[p0..]) == Got(Slice(buf[..], from, to), b0[ptr..])
      modifies buf, `ptr
      ensures old(ptr) <= ptr <= buf.Length
      ensures FieldDecoded(b0, p0, buf[..], ptr, d, ok, f)
      decreases buf.Length - ptr, 4
    {
      ghost var b1, p1 := buf[..], ptr;
      f := RawField(from, to, RawNull);
      SkipWhitespaces();
      ghost var p2 := ptr;
      ok := TrySkip(COLON);
      if !ok {
        NoColon(b0, p0, to, b1, p1, p2, d, f);
        return;
      }
      var r;
      ok, r := DoDecode(d);
      if ok {
        f := RawField(from, to, r);
        FieldParts(b0, p0, to, b1, p1, p2, d, buf[..], ptr, r, f);
      } else {
        FieldValueFails(b0, p0, to, b1, p1, p2, d, buf[..], ptr, r, f);
      }
    }
  }

  /** What json_decode says of a text, by what the text writes. */
  ghost predicate Answers(s: Text, ok: bool, v: Value) {
    if ok then G.Writes(s, v) && Depth(v) <= MAX_DEPTH else forall w :: G.Writes(s, w) ==> Depth(w) > MAX_DEPTH
  }

  lemma AnswersDecode(s: Text, ok: bool, v: Value)
    requires R.Decode(s) == if ok then Got(v, []) else Rejected
    ensures Answers(s, ok, v)
  {
    if ok {
      G.DecodesDocuments(s, v);
    } else {
      forall w | G.Writes(s, w) ensures Depth(w) > MAX_DEPTH { G.DecodesDocuments(s, w); }
    }
  }

  /**
   * json_decode: what the buffer then holds at the value's slices is the value that the document
   * wrote; it is refused exactly if it writes no value with at most 100 levels.
   */
  method JsonDecode(json: array<Byte>) returns (ok: bool, r: Raw)
    modifies json
    ensures R.Decode(old(json[..])) == if ok then Got(Meaning(json[..], r), []) else Rejected
    ensures ok ==> Inside(r, 0, json.Length)
    ensures Answers(old(json[..]), ok, Meaning(json[..], r))
  {
    var parser := new Parser(json);
    ghost var b0 := json[..];
    assert json[0..] == json[..];
    ok, r := parser.DoDecode(MAX_DEPTH);
    if ok {
      ghost var p := parser.ptr;
      InsideWider(r, 0, p, 0, json.Length);
      ReadOn(b0, json[..], 0, p, p);
      parser.SkipWhitespaces();
      ok := parser.ptr == json.Length;
    }
    AnswersDecode(b0, ok, Meaning(json[..], r));
  }
}
