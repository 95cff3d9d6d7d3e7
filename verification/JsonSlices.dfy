/**
 * The parser of pxcutils/pxc/utils/JsonBuilder.cpp decodes strings into the text it reads, and its
 * values point into that text.  Here is what such values mean, and what reading on leaves of them.
 */
module JsonSlices {
  import opened Utf8
  import opened JsonString
  import opened JsonValue

  // ----- strings decoded in place

  ghost predicate Overwritten(b: Text, b': Text, at: nat, bytes: Text) {
    var all := |b'| == |b| && at + |bytes| <= |b|
      && forall j :: 0 <= j < |b| ==> b'[j] == if at <= j < at + |bytes| then bytes[j - at] else b[j];
    all
  }

  /** The text b0 is read up to src; what was decoded is at start; what is unread, and what is before start, is as it was. */
  ghost predicate Progress(b0: Text, b: Text, start: nat, src: nat, out: Text) {
    var all := |b| == |b0| && start + |out| <= src <= |b0|
      && (forall j :: 0 <= j < |b| && !(start <= j < src) ==> b[j] == b0[j])
      && (forall j :: 0 <= j < |out| ==> b[start + j] == out[j])
      && Decode(b0[start..]) == Prepend(out, src - start, Decode(b0[src..]));
    all
  }

  lemma UnreadSame(b0: Text, b: Text, start: nat, src: nat, out: Text)
    requires Progress(b0, b, start, src, out)
    ensures src <= |b| == |b0| && b[src..] == b0[src..]
  {
  }

  lemma TurnFails(b0: Text, b: Text, start: nat, src: nat, out: Text)
    requires Progress(b0, b, start, src, out) && TurnOf(b0[src..]).Fail?
    ensures DecodedInPlace(b0, b, start, false, 0, 0)
  {
  }

  lemma TurnStops(b0: Text, b: Text, start: nat, src: nat, out: Text)
    requires Progress(b0, b, start, src, out) && TurnOf(b0[src..]).Stop?
    ensures DecodedInPlace(b0, b, start, true, start + |out|, src + 1)
  {
    assert out + [] == out;
    assert b[start..start + |out|] == out;
    assert b[src + 1..] == b0[src + 1..];
  }

  lemma PrependTwice(a: Text, m: nat, c: Text, n: nat, d: Decoded)
    ensures Prepend(a, m, Prepend(c, n, d)) == Prepend(a + c, m + n, d)
  {
    if d.Ok? {
      assert a + (c + d.text) == (a + c) + d.text;
    }
  }

  /** The turn at src emits these bytes for the next n. */
  predicate EmitsAt(b0: Text, src: nat, bytes: Text, n: nat) {
    var all := src <= |b0| && TurnOf(b0[src..]) == Emit(bytes, n);
    all
  }

  lemma TurnFits(b0: Text, b: Text, start: nat, src: nat, out: Text, bytes: Text, n: nat)
    requires Progress(b0, b, start, src, out) && EmitsAt(b0, src, bytes, n)
    ensures start + |out| + |bytes| <= src + n <= |b|
  {
  }

  /** A turn emits no more than it reads, so what is unread stays. */
  lemma TurnEmits(b0: Text, b: Text, b': Text, start: nat, src: nat, out: Text, at: nat, bytes: Text, n: nat, src': nat, out': Text)
    requires Progress(b0, b, start, src, out) && EmitsAt(b0, src, bytes, n)
    requires at == start + |out| && Overwritten(b, b', at, bytes)
    requires src' == src + n && out' == out + bytes
    ensures Progress(b0, b', start, src', out')
  {
    TurnFits(b0, b, start, src, out, bytes, n);
    TurnDecodes(b0, start, src, out, bytes, n, src', out');
    TurnKeeps(b, b', start, out, at, bytes, out');
  }

  lemma TurnDecodes(b0: Text, start: nat, src: nat, out: Text, bytes: Text, n: nat, src': nat, out': Text)
    requires start <= src <= |b0| && EmitsAt(b0, src, bytes, n) && src' == src + n <= |b0| && out' == out + bytes
    requires Decode(b0[start..]) == Prepend(out, src - start, Decode(b0[src..]))
    ensures Decode(b0[start..]) == Prepend(out', src' - start, Decode(b0[src'..]))
  {
    PrependTwice(out, src - start, bytes, n, Decode(b0[src..][n..]));
    assert b0[src..][n..] == b0[src'..];
    assert src - start + n == src' - start;
  }

  lemma TurnKeeps(b: Text, b': Text, start: nat, out: Text, at: nat, bytes: Text, out': Text)
    requires at == start + |out| && Overwritten(b, b', at, bytes) && out' == out + bytes
    requires forall j :: 0 <= j < |out| ==> b[start + j] == out[j]
    ensures forall j :: 0 <= j < |out'| ==> b'[start + j] == out'[j]
  {
    forall j | 0 <= j < |out'| ensures b'[start + j] == out'[j] {
      if j < |out| { assert b[start + j] == out[j]; }
    }
  }

  /** Decoding from start on: its outcome, the text left behind, and what was not touched. */
  ghost predicate DecodedInPlace(b: Text, b': Text, start: nat, ok: bool, to: nat, next: nat) {
    && |b'| == |b| && start <= |b| && (forall i :: 0 <= i < start ==> b'[i] == b[i])
    && (var d := Decode(b[start..]);
        && ok == d.Ok?
        && (ok ==> start <= to < next <= |b| && b'[start..to] == d.text && next == start + d.len && b'[next..] == b[next..]))
  }

  // ----- values that point into the text

  /** JsonValue: numbers and strings are slices of the parsed text. */
  datatype Raw =
    | RawNull
    | RawBoolean(value: bool)
    | RawNumber(from: nat, to: nat)
    | RawString(from: nat, to: nat)
    | RawArray(items: seq<Raw>)
    | RawObject(fields: seq<RawField>)

  datatype RawField = RawField(from: nat, to: nat, value: Raw)

  function Slice(b: Text, from: nat, to: nat): Text { if from <= to <= |b| then b[from..to] else [] }

  function Meaning(b: Text, r: Raw): Value {
    match r
    case RawNull => Null
    case RawBoolean(value) => Boolean(value)
    case RawNumber(from, to) => Number(Slice(b, from, to))
    case RawString(from, to) => String(Slice(b, from, to))
    case RawArray(items) => Array(Meanings(b, items))
    case RawObject(fields) => Object(FieldMeanings(b, fields))
  }

  function Meanings(b: Text, rs: seq<Raw>): seq<Value> {
    if rs == [] then [] else [Meaning(b, rs[0])] + Meanings(b, rs[1..])
  }

  function FieldMeaning(b: Text, f: RawField): Field { Field(Slice(b, f.from, f.to), Meaning(b, f.value)) }

  function FieldMeanings(b: Text, fs: seq<RawField>): seq<Field> {
    if fs == [] then [] else [FieldMeaning(b, fs[0])] + FieldMeanings(b, fs[1..])
  }

  /** Everything the value points at is between lo and hi. */
  predicate Inside(r: Raw, lo: nat, hi: nat) {
    match r
    case RawNumber(from, to) => lo <= from <= to <= hi
    case RawString(from, to) => lo <= from <= to <= hi
    case RawArray(items) => AllInside(items, lo, hi)
    case RawObject(fields) => FieldsInside(fields, lo, hi)
    case _ => true
  }

  predicate AllInside(rs: seq<Raw>, lo: nat, hi: nat) {
    rs != [] ==> Inside(rs[0], lo, hi) && AllInside(rs[1..], lo, hi)
  }

  predicate FieldInside(f: RawField, lo: nat, hi: nat) { lo <= f.from <= f.to <= hi && Inside(f.value, lo, hi) }

  predicate FieldsInside(fs: seq<RawField>, lo: nat, hi: nat) {
    fs != [] ==> FieldInside(fs[0], lo, hi) && FieldsInside(fs[1..], lo, hi)
  }

  /** The texts agree between lo and hi. */
  ghost predicate Agree(b: Text, b': Text, lo: nat, hi: nat) {
    |b'| == |b| && hi <= |b| && forall j :: lo <= j < hi ==> b'[j] == b[j]
  }

  lemma SliceKept(b: Text, b': Text, lo: nat, hi: nat, from: nat, to: nat)
    requires Agree(b, b', lo, hi) && lo <= from <= to <= hi
    ensures Slice(b', from, to) == Slice(b, from, to)
  {
  }

  /** A value keeps its meaning while the text it lies in is kept. */
  lemma {:induction false} MeaningKept(b: Text, b': Text, r: Raw, lo: nat, hi: nat)
    requires Agree(b, b', lo, hi) && Inside(r, lo, hi)
    ensures Meaning(b', r) == Meaning(b, r)
    decreases r
  {
    match r
    case RawNumber(from, to) => SliceKept(b, b', lo, hi, from, to);
    case RawString(from, to) => SliceKept(b, b', lo, hi, from, to);
    case RawArray(items) => MeaningsKept(b, b', items, lo, hi);
    case RawObject(fields) => FieldMeaningsKept(b, b', fields, lo, hi);
    case _ =>
  }

  lemma {:induction false} MeaningsKept(b: Text, b': Text, rs: seq<Raw>, lo: nat, hi: nat)
    requires Agree(b, b', lo, hi) && AllInside(rs, lo, hi)
    ensures Meanings(b', rs) == Meanings(b, rs)
    decreases rs
  {
    if rs != [] {
      MeaningKept(b, b', rs[0], lo, hi);
      MeaningsKept(b, b', rs[1..], lo, hi);
    }
  }

  lemma {:induction false} FieldMeaningKept(b: Text, b': Text, f: RawField, lo: nat, hi: nat)
    requires Agree(b, b', lo, hi) && FieldInside(f, lo, hi)
    ensures FieldMeaning(b', f) == FieldMeaning(b, f)
    decreases f
  {
    SliceKept(b, b', lo, hi, f.from, f.to);
    MeaningKept(b, b', f.value, lo, hi);
  }

  lemma {:induction false} FieldMeaningsKept(b: Text, b': Text, fs: seq<RawField>, lo: nat, hi: nat)
    requires Agree(b, b', lo, hi) && FieldsInside(fs, lo, hi)
    ensures FieldMeanings(b', fs) == FieldMeanings(b, fs)
    decreases fs
  {
    if fs != [] {
      FieldMeaningKept(b, b', fs[0], lo, hi);
      FieldMeaningsKept(b, b', fs[1..], lo, hi);
    }
  }

  lemma {:induction false} InsideWider(r: Raw, lo: nat, hi: nat, lo': nat, hi': nat)
    requires Inside(r, lo, hi) && lo' <= lo && hi <= hi'
    ensures Inside(r, lo', hi')
    decreases r
  {
    match r
    case RawArray(items) => AllInsideWider(items, lo, hi, lo', hi');
    case RawObject(fields) => FieldsInsideWider(fields, lo, hi, lo', hi');
    case _ =>
  }

  lemma {:induction false} AllInsideWider(rs: seq<Raw>, lo: nat, hi: nat, lo': nat, hi': nat)
    requires AllInside(rs, lo, hi) && lo' <= lo && hi <= hi'
    ensures AllInside(rs, lo', hi')
    decreases rs
  {
    if rs != [] {
      InsideWider(rs[0], lo, hi, lo', hi');
      AllInsideWider(rs[1..], lo, hi, lo', hi');
    }
  }

  lemma {:induction false} FieldInsideWider(f: RawField, lo: nat, hi: nat, lo': nat, hi': nat)
    requires FieldInside(f, lo, hi) && lo' <= lo && hi <= hi'
    ensures FieldInside(f, lo', hi')
    decreases f
  {
    InsideWider(f.value, lo, hi, lo', hi');
  }

  lemma {:induction false} FieldsInsideWider(fs: seq<RawField>, lo: nat, hi: nat, lo': nat, hi': nat)
    requires FieldsInside(fs, lo, hi) && lo' <= lo && hi <= hi'
    ensures FieldsInside(fs, lo', hi')
    decreases fs
  {
    if fs != [] {
      FieldInsideWider(fs[0], lo, hi, lo', hi');
      FieldsInsideWider(fs[1..], lo, hi, lo', hi');
    }
  }

  lemma {:induction false} OneMore(b: Text, rs: seq<Raw>, r: Raw, lo: nat, hi: nat)
    requires AllInside(rs, lo, hi) && Inside(r, lo, hi)
    ensures AllInside(rs + [r], lo, hi) && Meanings(b, rs + [r]) == Meanings(b, rs) + [Meaning(b, r)]
    decreases rs
  {
    if rs == [] {
      assert rs + [r] == [r] && [r][1..] == [];
      assert Meanings(b, [r]) == [Meaning(b, r)] + Meanings(b, []);
    } else {
      assert (rs + [r])[1..] == rs[1..] + [r];
      OneMore(b, rs[1..], r, lo, hi);
    }
  }

  lemma {:induction false} OneMoreField(b: Text, fs: seq<RawField>, f: RawField, lo: nat, hi: nat)
    requires FieldsInside(fs, lo, hi) && FieldInside(f, lo, hi)
    ensures FieldsInside(fs + [f], lo, hi) && FieldMeanings(b, fs + [f]) == FieldMeanings(b, fs) + [FieldMeaning(b, f)]
    decreases fs
  {
    if fs == [] {
      assert fs + [f] == [f] && [f][1..] == [];
      assert FieldMeanings(b, [f]) == [FieldMeaning(b, f)] + FieldMeanings(b, []);
    } else {
      assert (fs + [f])[1..] == fs[1..] + [f];
      OneMoreField(b, fs[1..], f, lo, hi);
    }
  }

  // ----- reading on

  /** Reading from p0 up to p changed nothing else. */
  ghost predicate Read(b0: Text, b: Text, p0: nat, p: nat) {
    var all := |b| == |b0| && p0 <= p <= |b0| && (forall j :: 0 <= j < |b| && !(p0 <= j < p) ==> b[j] == b0[j]);
    all
  }

  lemma ReadTwice(b0: Text, b1: Text, b2: Text, p0: nat, p1: nat, p2: nat)
    requires Read(b0, b1, p0, p1) && Read(b1, b2, p1, p2)
    ensures Read(b0, b2, p0, p2) && Agree(b1, b2, p0, p1) && b1[p1..] == b0[p1..] && b2[p2..] == b0[p2..]
  {
  }

  lemma ReadOn(b0: Text, b: Text, p0: nat, p1: nat, p2: nat)
    requires Read(b0, b, p0, p1) && p1 <= p2 <= |b0|
    ensures Read(b0, b, p0, p2) && b[p2..] == b0[p2..]
  {
  }

  /** The value the parser returned, and where it stands, are those of the result. */
  ghost predicate DecodedTo(result: Parsed<Value>, b0: Text, p0: nat, b: Text, p: nat, ok: bool, r: Raw) {
    match result
    case Rejected => !ok
    case Got(v, rest) => ok && Read(b0, b, p0, p) && rest == b0[p..] && Inside(r, p0, p) && Meaning(b, r) == v
  }

  /** A string decoded in place is what ParseString says. */
  lemma StringRead(b0: Text, b: Text, p0: nat, ok: bool, to: nat, p: nat)
    requires p0 < |b0| && b0[p0] == QUOTE && DecodedInPlace(b0, b, p0 + 1, ok, to, p)
    ensures match ParseString(b0[p0..])
            case Rejected => !ok
            case Got(text, rest) => ok && p0 < to < p && Read(b0, b, p0, p) && rest == b0[p..] && Slice(b, p0 + 1, to) == text
  {
    assert b0[p0..][1..] == b0[p0 + 1..];
    if ok { assert b0[p0..][1 + (p - (p0 + 1))..] == b0[p..]; }
  }
}
