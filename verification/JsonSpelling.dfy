/**
 * What a JSON string may look like, apart from how it is decoded: raw bytes, two-character escapes,
 * four hexadecimal digits of either case, and pairs of surrogates (section 7 of RFC 8259).  The
 * decoder of pxcutils/pxc/utils/JsonBuilder.cpp reads every spelling, and nothing else.
 */
module JsonSpelling {
  import opened Utf8
  import opened JsonString

  const LOWER: string := "0123456789abcdef"
  const UPPER: string := "0123456789ABCDEF"

  predicate DigitOf(b: Byte, d: nat) {
    d < 16 && (b == LOWER[d] as int || b == UPPER[d] as int)
  }

  /** The four digits of x. */
  predicate Reads(ds: Text, x: nat) {
    |ds| == 4 && x < 0x10000
    && DigitOf(ds[0], x / 4096) && DigitOf(ds[1], x / 256 % 16) && DigitOf(ds[2], x / 16 % 16) && DigitOf(ds[3], x % 16)
  }

  datatype Unit =
    | Raw(b: Byte)
    | Short(letter: Byte)
    | Code(x: nat, ds: Text)
    | Pair(hi: nat, ds: Text, lo: nat, es: Text)

  predicate UnitOK(u: Unit) {
    match u
    case Raw(b) => b != '"' as int && b != '\\' as int
    case Short(letter) => letter != 'u' as int
    case Code(x, ds) => Reads(ds, x)
    case Pair(hi, ds, lo, es) => Surrogate(hi) && Reads(ds, hi) && Surrogate(lo) && Reads(es, lo)
  }

  /** A lone surrogate is not followed by another one: they would be a pair. */
  predicate Clash(u: Unit, w: Unit) {
    u.Code? && Surrogate(u.x) && (w.Pair? || (w.Code? && Surrogate(w.x)))
  }

  predicate WellSpelled(us: seq<Unit>) {
    (forall i :: 0 <= i < |us| ==> UnitOK(us[i])) && forall i :: 0 < i < |us| ==> !Clash(us[i - 1], us[i])
  }

  const ESCAPE: Text := ['\\' as int, 'u' as int]

  function Spelled(u: Unit): Text {
    match u
    case Raw(b) => [b]
    case Short(letter) => ['\\' as int, letter]
    case Code(_, ds) => ESCAPE + ds
    case Pair(_, ds, _, es) => ESCAPE + ds + ESCAPE + es
  }

  const SHORTS: map<char, Byte> := map['"' := 34, '\\' := 92, '/' := 47, 'b' := 8, 'f' := 12, 'n' := 10, 'r' := 13, 't' := 9]

  /** Any other character after the backslash stands for itself, which RFC 8259 does not allow. */
  function ShortOf(letter: Byte): Byte {
    if letter as char in SHORTS then SHORTS[letter as char] else letter
  }

  /** The code point of two surrogates. */
  function PairOf(hi: nat, lo: nat): (c: nat)
    ensures 0x10000 <= c <= 0x10FFFF
  {
    0x10000 + hi % 0x400 * 0x400 + lo % 0x400
  }

  function MeaningOf(u: Unit): (t: Text)
    requires UnitOK(u)
    ensures 1 <= |t| <= |Spelled(u)|
  {
    match u
    case Raw(b) => [b]
    case Short(letter) => [ShortOf(letter)]
    case Code(x, _) => Encode(x)
    case Pair(hi, _, lo, _) => Encode(PairOf(hi, lo))
  }

  function SpelledAll(us: seq<Unit>): Text { if us == [] then [] else Spelled(us[0]) + SpelledAll(us[1..]) }

  function MeaningAll(us: seq<Unit>): Text
    requires forall i :: 0 <= i < |us| ==> UnitOK(us[i])
  {
    if us == [] then [] else MeaningOf(us[0]) + MeaningAll(us[1..])
  }

  // ----- digits

  lemma DigitHas(b: Byte, d: nat)
    requires DigitOf(b, d)
    ensures HexValue(b) == d
  {
    var low: seq<int>, up: seq<int> := [48, 49, 50, 51, 52, 53, 54, 55, 56, 57, 97, 98, 99, 100, 101, 102],
      [48, 49, 50, 51, 52, 53, 54, 55, 56, 57, 65, 66, 67, 68, 69, 70];
    assert LOWER[d] as int == low[d] && UPPER[d] as int == up[d];
  }

  lemma DigitIs(b: Byte)
    requires HexValue(b) < 16
    ensures DigitOf(b, HexValue(b))
  {
    var low: seq<int>, up: seq<int> := [48, 49, 50, 51, 52, 53, 54, 55, 56, 57, 97, 98, 99, 100, 101, 102],
      [48, 49, 50, 51, 52, 53, 54, 55, 56, 57, 65, 66, 67, 68, 69, 70];
    var d := HexValue(b);
    assert LOWER[d] as int == low[d] && UPPER[d] as int == up[d];
  }

  lemma ReadsHex4(s: Text, i: nat, x: nat)
    requires i + 4 <= |s| && Reads(s[i..i + 4], x)
    ensures IsHex4(s, i) && Hex4(s, i) == x
  {
    var ds := s[i..i + 4];
    assert ds[0] == s[i] && ds[1] == s[i + 1] && ds[2] == s[i + 2] && ds[3] == s[i + 3];
    DigitHas(ds[0], x / 4096);
    DigitHas(ds[1], x / 256 % 16);
    DigitHas(ds[2], x / 16 % 16);
    DigitHas(ds[3], x % 16);
    HexDigits(x);
  }

  lemma FourOf(a: nat, b: nat, c: nat, d: nat)
    requires a < 16 && b < 16 && c < 16 && d < 16
    ensures var x := ((a * 16 + b) * 16 + c) * 16 + d; x < 0x10000 && x / 4096 == a && x / 256 % 16 == b && x / 16 % 16 == c && x % 16 == d
  {
  }

  lemma ReadsFrom(ds: Text, a: nat, b: nat, c: nat, d: nat, x: nat)
    requires |ds| == 4 && DigitOf(ds[0], a) && DigitOf(ds[1], b) && DigitOf(ds[2], c) && DigitOf(ds[3], d)
    requires x == ((a * 16 + b) * 16 + c) * 16 + d
    ensures Reads(ds, x)
  {
    FourOf(a, b, c, d);
  }

  lemma FourAt(s: Text, i: nat)
    requires i + 4 <= |s|
    ensures var ds := s[i..i + 4]; |ds| == 4 && ds[0] == s[i] && ds[1] == s[i + 1] && ds[2] == s[i + 2] && ds[3] == s[i + 3]
  {
  }

  lemma Hex4Reads(s: Text, i: nat)
    requires i + 4 <= |s| && IsHex4(s, i)
    ensures Reads(s[i..i + 4], Hex4(s, i))
  {
    FourAt(s, i);
    var a, b, c, d := HexValue(s[i]), HexValue(s[i + 1]), HexValue(s[i + 2]), HexValue(s[i + 3]);
    DigitIs(s[i]);
    DigitIs(s[i + 1]);
    DigitIs(s[i + 2]);
    DigitIs(s[i + 3]);
    ReadsFrom(s[i..i + 4], a, b, c, d, Hex4(s, i));
  }

  // ----- one unit is one turn

  /** What follows a lone surrogate does not make it a pair. */
  predicate NoLow(rest: Text) {
    6 <= |rest| && rest[0] == BACKSLASH && rest[1] == LETTER_U ==> IsHex4(rest, 2) && !Surrogate(Hex4(rest, 2))
  }

  predicate StaysAlone(u: Unit, rest: Text) { u.Code? && Surrogate(u.x) ==> NoLow(rest) }

  lemma ShortTurn(letter: Byte, rest: Text)
    requires letter != 'u' as int
    ensures TurnOf([BACKSLASH, letter] + rest) == Emit([ShortOf(letter)], 2)
  {
  }

  lemma ShiftHex4(s: Text, rest: Text, n: nat)
    requires n + 6 <= |s| && s[n..] == rest
    ensures IsHex4(s, n + 2) == IsHex4(rest, 2)
    ensures IsHex4(rest, 2) ==> Hex4(s, n + 2) == Hex4(rest, 2)
  {
  }

  lemma CodeTurn(x: nat, ds: Text, rest: Text)
    requires Reads(ds, x) && (Surrogate(x) ==> NoLow(rest))
    ensures TurnOf(ESCAPE + ds + rest) == Emit(Encode(x), 6)
  {
    var s := ESCAPE + ds + rest;
    assert s[2..6] == ds && s[6..] == rest;
    ReadsHex4(s, 2, x);
    if 12 <= |s| { ShiftHex4(s, rest, 6); }
  }

  lemma PairParts(ds: Text, es: Text, rest: Text)
    requires |ds| == 4 && |es| == 4
    ensures var s := ESCAPE + ds + ESCAPE + es + rest;
      && |s| == 12 + |rest| && s[0] == s[6] == BACKSLASH && s[1] == s[7] == LETTER_U && s[2..6] == ds && s[8..12] == es
  {
  }

  lemma {:induction false} PairTurn(hi: nat, ds: Text, lo: nat, es: Text, rest: Text)
    requires Surrogate(hi) && Reads(ds, hi) && Surrogate(lo) && Reads(es, lo)
    ensures TurnOf(ESCAPE + ds + ESCAPE + es + rest) == Emit(Encode(PairOf(hi, lo)), 12)
  {
    var s := ESCAPE + ds + ESCAPE + es + rest;
    PairParts(ds, es, rest);
    ReadsHex4(s, 2, hi);
    ReadsHex4(s, 8, lo);
  }

  /** A spelled unit is one turn of the decoder, which emits its meaning. */
  lemma TurnOfSpelled(u: Unit, rest: Text)
    requires UnitOK(u) && StaysAlone(u, rest)
    ensures TurnOf(Spelled(u) + rest) == Emit(MeaningOf(u), |Spelled(u)|)
  {
    match u
    case Raw(_) =>
    case Short(letter) => ShortTurn(letter, rest);
    case Code(x, ds) => CodeTurn(x, ds, rest);
    case Pair(hi, ds, lo, es) => PairTurn(hi, ds, lo, es, rest);
  }

  /** And a turn that emits has read a unit. */
  ghost predicate IsUnit(u: Unit, s: Text, bytes: Text, n: nat) {
    UnitOK(u) && n <= |s| && s[..n] == Spelled(u) && MeaningOf(u) == bytes && StaysAlone(u, s[n..])
  }

  lemma UnitOfTurn(s: Text) returns (u: Unit)
    requires TurnOf(s).Emit?
    ensures IsUnit(u, s, TurnOf(s).bytes, TurnOf(s).n)
  {
    if s[0] != BACKSLASH {
      u := Raw(s[0]);
    } else if s[1] != LETTER_U {
      u := Short(s[1]);
      assert s[..2] == [BACKSLASH, s[1]] && s == s[..2] + s[2..];
      ShortTurn(s[1], s[2..]);
    } else {
      u := CodeOfTurn(s);
    }
  }

  lemma EscapeAt(s: Text, i: nat)
    requires i + 6 <= |s| && s[i] == BACKSLASH && s[i + 1] == LETTER_U
    ensures s[i..i + 6] == ESCAPE + s[i + 2..i + 6]
  {
  }

  lemma PairUnit(s: Text, hi: nat, lo: nat) returns (u: Unit)
    requires 12 <= |s| && s[0] == BACKSLASH && s[1] == LETTER_U && s[6] == BACKSLASH && s[7] == LETTER_U
    requires Reads(s[2..6], hi) && Reads(s[8..12], lo) && Surrogate(hi) && Surrogate(lo)
    ensures IsUnit(u, s, Encode(PairOf(hi, lo)), 12)
  {
    EscapeAt(s, 0);
    EscapeAt(s, 6);
    u := Pair(hi, s[2..6], lo, s[8..12]);
    assert s[..12] == s[0..6] + s[6..12];
    assert Spelled(u) == (ESCAPE + s[2..6]) + (ESCAPE + s[8..12]);
  }

  lemma AloneUnit(s: Text, x: nat) returns (u: Unit)
    requires 6 <= |s| && s[0] == BACKSLASH && s[1] == LETTER_U && Reads(s[2..6], x) && (Surrogate(x) ==> NoLow(s[6..]))
    ensures IsUnit(u, s, Encode(x), 6)
  {
    EscapeAt(s, 0);
    u := Code(x, s[2..6]);
  }

  lemma PairRead(s: Text)
    requires TurnOf(s).Emit? && s[0] == BACKSLASH && s[1] == LETTER_U && TurnOf(s).n == 12
    ensures 12 <= |s| && s[6] == BACKSLASH && s[7] == LETTER_U && IsHex4(s, 2) && IsHex4(s, 8)
    ensures Surrogate(Hex4(s, 2)) && Surrogate(Hex4(s, 8)) && TurnOf(s).bytes == Encode(PairOf(Hex4(s, 2), Hex4(s, 8)))
  {
  }

  lemma AloneRead(s: Text)
    requires TurnOf(s).Emit? && s[0] == BACKSLASH && s[1] == LETTER_U && TurnOf(s).n != 12
    ensures 6 <= |s| && IsHex4(s, 2) && TurnOf(s) == Emit(Encode(Hex4(s, 2)), 6)
  {
  }

  lemma CodeOfTurn(s: Text) returns (u: Unit)
    requires TurnOf(s).Emit? && s[0] == BACKSLASH && s[1] == LETTER_U
    ensures IsUnit(u, s, TurnOf(s).bytes, TurnOf(s).n)
  {
    if TurnOf(s).n == 12 {
      PairRead(s);
      Hex4Reads(s, 2);
      Hex4Reads(s, 8);
      u := PairUnit(s, Hex4(s, 2), Hex4(s, 8));
    } else {
      AloneRead(s);
      Hex4Reads(s, 2);
      LowAfter(s);
      u := AloneUnit(s, Hex4(s, 2));
    }
  }

  /** If the decoder reads a surrogate alone, what follows does not make it a pair. */
  lemma LowAfter(s: Text)
    requires TurnOf(s).Emit? && s[0] == BACKSLASH && s[1] == LETTER_U && TurnOf(s).n == 6 && IsHex4(s, 2)
    ensures Surrogate(Hex4(s, 2)) ==> NoLow(s[6..])
  {
    if 12 <= |s| { ShiftHex4(s, s[6..], 6); }
  }

  // ----- whole strings

  /** A spelling with its closing quote, from its first unit on. */
  lemma FirstUnit(us: seq<Unit>, rest: Text)
    requires us != []
    ensures SpelledAll(us) + [QUOTE] + rest == Spelled(us[0]) + (SpelledAll(us[1..]) + [QUOTE] + rest)
    ensures (SpelledAll(us) + [QUOTE] + rest)[|Spelled(us[0])|..] == SpelledAll(us[1..]) + [QUOTE] + rest
  {
  }

  /** Only a clash makes a lone surrogate a pair. */
  lemma LowIsClash(u: Unit, w: Unit, tail: Text)
    requires UnitOK(w) && u.Code? && Surrogate(u.x)
    ensures NoLow(Spelled(w) + tail) <==> !Clash(u, w)
  {
    var s := Spelled(w) + tail;
    if w.Code? || w.Pair? {
      CodeFront(w, tail);
    }
  }

  lemma CodeFront(w: Unit, tail: Text)
    requires UnitOK(w) && (w.Code? || w.Pair?)
    ensures var s := Spelled(w) + tail;
      && 6 <= |s| && s[0] == BACKSLASH && s[1] == LETTER_U
      && IsHex4(s, 2) && Hex4(s, 2) == if w.Code? then w.x else w.hi
  {
    var s := Spelled(w) + tail;
    assert s[2..6] == w.ds;
    ReadsHex4(s, 2, if w.Code? then w.x else w.hi);
  }

  /** What comes after a unit of a well spelled string. */
  lemma AloneBefore(u: Unit, us: seq<Unit>, rest: Text)
    requires forall i :: 0 <= i < |us| ==> UnitOK(us[i])
    ensures StaysAlone(u, SpelledAll(us) + [QUOTE] + rest) <==> us == [] || !Clash(u, us[0])
  {
    if us == [] {
      assert (SpelledAll(us) + [QUOTE] + rest)[0] == QUOTE;
    } else {
      FirstUnit(us, rest);
      if u.Code? && Surrogate(u.x) { LowIsClash(u, us[0], SpelledAll(us[1..]) + [QUOTE] + rest); }
    }
  }

  lemma Stops(rest: Text)
    ensures Decode(SpelledAll([]) + [QUOTE] + rest) == Ok([], 1)
  {
    assert (SpelledAll([]) + [QUOTE] + rest)[0] == QUOTE;
  }

  lemma GoesOn(s: Text, bytes: Text, n: nat, tail: Text, text: Text, len: nat)
    requires TurnOf(s) == Emit(bytes, n) && s[n..] == tail && Decode(tail) == Ok(text, len)
    ensures Decode(s) == Ok(bytes + text, n + len)
  {
  }

  /** Every spelling is decoded to its meaning, whatever follows the closing quote. */
  lemma {:induction false} DecodeSpelled(us: seq<Unit>, rest: Text)
    requires WellSpelled(us)
    ensures Decode(SpelledAll(us) + [QUOTE] + rest) == Ok(MeaningAll(us), |SpelledAll(us)| + 1)
  {
    if us == [] {
      Stops(rest);
    } else {
      var tail := SpelledAll(us[1..]) + [QUOTE] + rest;
      FirstUnit(us, rest);
      AloneBefore(us[0], us[1..], rest);
      TurnOfSpelled(us[0], tail);
      DecodeSpelled(us[1..], rest);
      GoesOn(Spelled(us[0]) + tail, MeaningOf(us[0]), |Spelled(us[0])|, tail, MeaningAll(us[1..]), |SpelledAll(us[1..])| + 1);
    }
  }

  /** s begins with a spelling of text and a closing quote, len bytes in all. */
  ghost predicate IsSpelling(us: seq<Unit>, s: Text, text: Text, len: nat) {
    && WellSpelled(us) && len == |SpelledAll(us)| + 1 && len <= |s|
    && s[..len] == SpelledAll(us) + [QUOTE] && text == MeaningAll(us)
  }

  lemma OneMoreText(s: Text, n: nat, len: nat, p: Text, tail: Text)
    requires n + len <= |s| && s[..n] == p && s[n..][..len] == tail
    ensures s[..n + len] == p + tail
  {
  }

  lemma OneMoreUnit(u: Unit, us: seq<Unit>, s: Text, n: nat, bytes: Text, text: Text, len: nat)
    requires n <= |s| && IsUnit(u, s, bytes, n) && IsSpelling(us, s[n..], text, len)
    ensures IsSpelling([u] + us, s, bytes + text, n + len)
  {
    var all, t := [u] + us, s[n..];
    assert all[1..] == us;
    assert t == SpelledAll(us) + [QUOTE] + t[len..];
    AloneBefore(u, us, t[len..]);
    OneMoreText(s, n, len, Spelled(u), SpelledAll(us) + [QUOTE]);
    assert SpelledAll(all) + [QUOTE] == Spelled(u) + (SpelledAll(us) + [QUOTE]);
  }

  /** Nothing else is decoded. */
  lemma {:induction false} SpellingOfDecoded(s: Text) returns (us: seq<Unit>)
    requires Decode(s).Ok?
    ensures IsSpelling(us, s, Decode(s).text, Decode(s).len)
    decreases |s|
  {
    us := [];
    if TurnOf(s).Stop? {
      assert s[..1] == [QUOTE];
    } else {
      var n := TurnOf(s).n;
      var u := UnitOfTurn(s);
      us := SpellingOfDecoded(s[n..]);
      OneMoreUnit(u, us, s, n, TurnOf(s).bytes, Decode(s[n..]).text, Decode(s[n..]).len);
      us := [u] + us;
    }
  }

  lemma SpellingDecodes(us: seq<Unit>, s: Text, text: Text, len: nat)
    requires IsSpelling(us, s, text, len)
    ensures Decode(s) == Ok(text, len)
  {
    assert s == SpelledAll(us) + [QUOTE] + s[len..];
    DecodeSpelled(us, s[len..]);
  }

  /** The decoder accepts exactly the spellings, and gives their meaning. */
  lemma DecodesExactly(s: Text, text: Text, len: nat)
    ensures Decode(s) == Ok(text, len) <==> exists us :: IsSpelling(us, s, text, len)
  {
    if Decode(s) == Ok(text, len) {
      var us := SpellingOfDecoded(s);
    }
    forall us | IsSpelling(us, s, text, len) ensures Decode(s) == Ok(text, len) {
      SpellingDecodes(us, s, text, len);
    }
  }

  // ----- characters

  /** The ways to write one character: itself, a short escape, four digits, or its two surrogates. */
  predicate CharSpelling(piece: Text, c: nat) {
    Scalar(c) &&
    ((piece == Encode(c) && c != '"' as int && c != '\\' as int)
     || (|piece| == 2 && piece[0] == BACKSLASH && piece[1] as char in SHORTS && SHORTS[piece[1] as char] == c)
     || (|piece| == 6 && piece[..2] == ESCAPE && Reads(piece[2..], c))
     || (c >= 0x10000 && |piece| == 12 && piece[..2] == ESCAPE && piece[6..8] == ESCAPE
         && Reads(piece[2..6], 0xD800 + (c - 0x10000) / 0x400) && Reads(piece[8..], 0xDC00 + (c - 0x10000) % 0x400)))
  }

  function Concat(pieces: seq<Text>): Text { if pieces == [] then [] else pieces[0] + Concat(pieces[1..]) }

  /** The text writes these characters, each in one of its ways. */
  ghost predicate Spells(text: Text, cs: seq<nat>) {
    exists pieces :: SpellsBy(text, cs, pieces)
  }

  ghost predicate SpellsBy(text: Text, cs: seq<nat>, pieces: seq<Text>) {
    |pieces| == |cs| && Concat(pieces) == text && forall i :: 0 <= i < |cs| ==> CharSpelling(pieces[i], cs[i])
  }

  lemma PairSpelling(c: nat)
    requires 0x10000 <= c <= 0x10FFFF
    ensures var hi, lo := 0xD800 + (c - 0x10000) / 0x400, 0xDC00 + (c - 0x10000) % 0x400;
      Surrogate(hi) && Surrogate(lo) && PairOf(hi, lo) == c
  {
  }

  /** u alone spells the piece, for this character. */
  predicate SpellsChar(u: Unit, piece: Text, c: nat) {
    UnitOK(u) && (u.Code? ==> !Surrogate(u.x)) && Spelled(u) == piece && c <= 0x10FFFF && MeaningOf(u) == Encode(c)
  }

  lemma ShortSpells(piece: Text, c: nat)
    requires |piece| == 2 && piece[0] == BACKSLASH && piece[1] as char in SHORTS && SHORTS[piece[1] as char] == c
    ensures SpellsChar(Short(piece[1]), piece, c)
  {
  }

  lemma CodeSpells(piece: Text, c: nat)
    requires |piece| == 6 && piece[..2] == ESCAPE && Reads(piece[2..], c) && !Surrogate(c)
    ensures SpellsChar(Code(c, piece[2..]), piece, c)
  {
    assert piece == piece[..2] + piece[2..];
  }

  lemma PairSpells(piece: Text, c: nat, hi: nat, lo: nat)
    requires |piece| == 12 && piece[..2] == ESCAPE && piece[6..8] == ESCAPE && Reads(piece[2..6], hi) && Reads(piece[8..], lo)
    requires Surrogate(hi) && Surrogate(lo) && PairOf(hi, lo) == c
    ensures SpellsChar(Pair(hi, piece[2..6], lo, piece[8..]), piece, c)
  {
    assert piece == piece[..2] + piece[2..6] + piece[6..8] + piece[8..];
  }

  /** Each of the other ways is one unit. */
  lemma UnitOfChar(piece: Text, c: nat) returns (u: Unit)
    requires CharSpelling(piece, c) && (piece == Encode(c) ==> c == '"' as int || c == '\\' as int)
    ensures SpellsChar(u, piece, c)
  {
    if |piece| == 2 {
      ShortSpells(piece, c);
      u := Short(piece[1]);
    } else if |piece| == 6 {
      CodeSpells(piece, c);
      u := Code(c, piece[2..]);
    } else {
      var hi, lo := 0xD800 + (c - 0x10000) / 0x400, 0xDC00 + (c - 0x10000) % 0x400;
      PairSpelling(c);
      PairSpells(piece, c, hi, lo);
      u := Pair(hi, piece[2..6], lo, piece[8..]);
    }
  }

  predicate NoMarks(t: Text) { forall i :: 0 <= i < |t| ==> t[i] != QUOTE && t[i] != BACKSLASH }

  lemma FirstByte(t: Text, tail: Text)
    requires t != [] && NoMarks(t)
    ensures Decode(t + tail) == Prepend([t[0]], 1, Decode(t[1..] + tail)) && NoMarks(t[1..])
  {
    assert (t + tail)[1..] == t[1..] + tail;
  }

  lemma PrependMore(b: Byte, t: Text, n: nat, d: Decoded)
    ensures Prepend([b], 1, Prepend(t, n, d)) == Prepend([b] + t, 1 + n, d)
  {
    if d.Ok? { Regroup([b], t, d.text); }
  }

  lemma {:induction false} RawDecodes(t: Text, tail: Text)
    requires NoMarks(t)
    ensures Decode(t + tail) == Prepend(t, |t|, Decode(tail))
  {
    if t == [] {
      assert t + tail == tail;
      match Decode(tail)
      case Error =>
      case Ok(text, len) => assert [] + text == text;
    } else {
      FirstByte(t, tail);
      RawDecodes(t[1..], tail);
      PrependMore(t[0], t[1..], |t[1..]|, Decode(tail));
      assert [t[0]] + t[1..] == t;
    }
  }

  lemma UnitDecodes(u: Unit, piece: Text, c: nat, tail: Text)
    requires SpellsChar(u, piece, c)
    ensures Decode(piece + tail) == Prepend(Encode(c), |piece|, Decode(tail))
  {
    TurnOfSpelled(u, tail);
    assert (piece + tail)[|piece|..] == tail;
  }

  /** A character in whichever way is decoded to its encoding, whatever follows. */
  lemma CharDecodes(piece: Text, c: nat, tail: Text)
    requires CharSpelling(piece, c)
    ensures Decode(piece + tail) == Prepend(Encode(c), |piece|, Decode(tail))
  {
    if piece == Encode(c) && c != '"' as int && c != '\\' as int {
      RawDecodes(piece, tail);
    } else {
      var u := UnitOfChar(piece, c);
      UnitDecodes(u, piece, c, tail);
    }
  }

  lemma FirstPiece(p: Text, others: Text, rest: Text)
    ensures (p + others) + [QUOTE] + rest == p + (others + [QUOTE] + rest)
  {
  }

  lemma {:induction false} CharsDecode(cs: seq<nat>, pieces: seq<Text>, rest: Text)
    requires SpellsBy(Concat(pieces), cs, pieces)
    ensures AllScalar(cs) && Decode(Concat(pieces) + [QUOTE] + rest) == Ok(EncodeAll(cs), |Concat(pieces)| + 1)
  {
    if cs == [] {
      Stops(rest);
      assert Concat(pieces) == [];
    } else {
      var p, others := pieces[0], Concat(pieces[1..]);
      assert CharSpelling(p, cs[0]);
      CharsDecode(cs[1..], pieces[1..], rest);
      CharDecodes(p, cs[0], others + [QUOTE] + rest);
      FirstPiece(p, others, rest);
    }
  }

  /** A text that writes characters, in whichever ways, is decoded to them. */
  lemma DecodeSpells(text: Text, cs: seq<nat>, rest: Text)
    requires Spells(text, cs)
    ensures AllScalar(cs) && Decode(text + [QUOTE] + rest) == Ok(EncodeAll(cs), |text| + 1)
  {
    var pieces :| SpellsBy(text, cs, pieces);
    CharsDecode(cs, pieces, rest);
  }

  // ----- the printer

  lemma LowerDigit(d: nat)
    requires d < 16
    ensures HexDigit(d) == LOWER[d] as int && DigitOf(HexDigit(d), d)
  {
  }

  predicate Ascii(s: Text) { forall i :: 0 <= i < |s| ==> 32 <= s[i] <= 127 }

  lemma PairPrinted(hi: nat, lo: nat)
    requires hi < 0x10000 && lo < 0x10000
    ensures var s := OneChar(hi) + OneChar(lo);
      Ascii(s) && |s| == 12 && s[..2] == ESCAPE && s[6..8] == ESCAPE && Reads(s[2..6], hi) && Reads(s[8..], lo)
  {
    var a, b := OneChar(hi), OneChar(lo);
    OneCharReads(hi);
    OneCharReads(lo);
    assert (a + b)[..2] == a[..2] && (a + b)[2..6] == a[2..] && (a + b)[6..8] == b[..2] && (a + b)[8..] == b[2..];
  }

  lemma PairCharSpelling(c: nat, piece: Text, hi: nat, lo: nat)
    requires 0x10000 <= c <= 0x10FFFF && hi == 0xD7C0 + c / 1024 && lo == 0xDC00 + c % 1024
    requires |piece| == 12 && piece[..2] == ESCAPE && piece[6..8] == ESCAPE && Reads(piece[2..6], hi) && Reads(piece[8..], lo)
    ensures CharSpelling(piece, c)
  {
  }

  /** The printer writes ASCII only, and every character in one of its ways. */
  lemma PrintSpells(c: nat)
    requires Scalar(c)
    ensures CharSpelling(PrintChar(c), c) && Ascii(PrintChar(c))
  {
    if c >= 0x10000 {
      var hi, lo := 0xD7C0 + c / 1024, 0xDC00 + c % 1024;
      PairPrinted(hi, lo);
      PairCharSpelling(c, PrintChar(c), hi, lo);
    } else if Letter(c) != 0 {
      LetterSpells(c);
    } else if c <= 31 || 128 <= c {
      OneCharReads(c);
    }
  }

  lemma LetterSpells(c: nat)
    requires Scalar(c) && Letter(c) != 0
    ensures CharSpelling([BACKSLASH, Letter(c)], c) && Ascii([BACKSLASH, Letter(c)])
  {
  }

  lemma OneCharReads(x: nat)
    requires x < 0x10000
    ensures OneChar(x)[..2] == ESCAPE && Reads(OneChar(x)[2..], x)
    ensures Ascii(OneChar(x))
  {
    LowerDigit(x / 4096);
    LowerDigit(x / 256 % 16);
    LowerDigit(x / 16 % 16);
    LowerDigit(x % 16);
  }

  lemma {:induction false} PrintedSpells(cs: seq<nat>) returns (pieces: seq<Text>)
    requires AllScalar(cs)
    ensures SpellsBy(PrintAll(cs), cs, pieces)
  {
    pieces := [];
    if cs != [] {
      PrintSpells(cs[0]);
      var others := PrintedSpells(cs[1..]);
      pieces := [PrintChar(cs[0])] + others;
      assert pieces[1..] == others;
    }
  }

  lemma Acute(ds: Text, rest: Text)
    requires Reads(ds, 0xE9)
    ensures Decode(ESCAPE + ds + ([QUOTE] + rest)) == Ok([0xC3, 0xA9], 7)
  {
    CodeTurn(0xE9, ds, [QUOTE] + rest);
    assert (ESCAPE + ds + ([QUOTE] + rest))[6..] == [QUOTE] + rest;
  }

  /** The digits may be of either case: u00E9 and u00e9 are both the letter e with an acute accent. */
  lemma EitherCase(rest: Text)
    ensures Decode(ESCAPE + [48, 48, 69, 57] + ([QUOTE] + rest)) == Ok([0xC3, 0xA9], 7)
    ensures Decode(ESCAPE + [48, 48, 101, 57] + ([QUOTE] + rest)) == Ok([0xC3, 0xA9], 7)
  {
    Acute([48, 48, 69, 57], rest);
    Acute([48, 48, 101, 57], rest);
  }
}
