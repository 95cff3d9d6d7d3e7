/**
 * JSON strings as pxcutils/pxc/utils/JsonBuilder.cpp prints and decodes them; the escapes are
 * those of section 7 of RFC 8259.
 */
module JsonString {
  import opened Utf8

  const QUOTE: Byte := 34
  const BACKSLASH: Byte := 92
  const LETTER_U: Byte := 117

  // ----- printing

  /** A digit of "0123456789abcdef". */
  function HexDigit(d: nat): Byte
    requires d < 16
  {
    if d < 10 then 48 + d else 87 + d
  }

  /** JsonOneChar */
  function OneChar(x: nat): (s: Text)
    requires x < 0x10000
    ensures |s| == 6
  {
    [BACKSLASH, LETTER_U, HexDigit(x / 4096), HexDigit(x / 256 % 16), HexDigit(x / 16 % 16), HexDigit(x % 16)]
  }

  /** The letter of a two-character escape. */
  function Letter(c: nat): (l: Byte)
  {
    if c == QUOTE then QUOTE
    else if c == BACKSLASH then BACKSLASH
    else if c == 8 then 98
    else if c == 12 then 102
    else if c == 10 then 110
    else if c == 13 then 114
    else if c == 9 then 116
    else 0
  }

  function PrintChar(c: nat): (s: Text)
    requires Scalar(c)
    ensures s != []
  {
    if Letter(c) != 0 then [BACKSLASH, Letter(c)]
    else if c <= 31 then OneChar(c)
    else if c < 128 then [c]
    else if c < 0x10000 then OneChar(c)
    else OneChar(0xD7C0 + c / 1024) + OneChar(0xDC00 + c % 1024)
  }

  function PrintAll(cs: seq<nat>): Text
    requires AllScalar(cs)
  {
    if cs == [] then [] else PrintChar(cs[0]) + PrintAll(cs[1..])
  }

  lemma {:induction false} PrintAppend(cs: seq<nat>, c: nat)
    requires AllScalar(cs) && Scalar(c)
    ensures AllScalar(cs + [c]) && PrintAll(cs + [c]) == PrintAll(cs) + PrintChar(c)
  {
    if cs == [] {
      assert cs + [c] == [c] && [c][1..] == [];
      assert PrintAll([c]) == PrintChar(c) + PrintAll([]);
    } else {
      assert (cs + [c])[1..] == cs[1..] + [c];
      PrintAppend(cs[1..], c);
    }
  }

  lemma {:induction false} EncodeAppend(cs: seq<nat>, c: nat)
    requires AllScalar(cs) && Scalar(c)
    ensures AllScalar(cs + [c]) && EncodeAll(cs + [c]) == EncodeAll(cs) + Encode(c)
  {
    if cs == [] {
      assert cs + [c] == [c] && [c][1..] == [];
      assert EncodeAll([c]) == Encode(c) + EncodeAll([]);
    } else {
      assert (cs + [c])[1..] == cs[1..] + [c];
      EncodeAppend(cs[1..], c);
    }
  }

  /** The checks that the printer makes on a character of several bytes. */
  predicate Checked(s: Text)
    requires s != [] && s[0] >= 128
  {
    var a, b := s[0], At(s, 1);
    && a / 64 % 2 == 1 && 1 < |s| && Continues(b)
    && (if a / 32 % 2 == 0 then a / 2 % 16 > 0
        else
          && 2 < |s| && Continues(At(s, 2))
          && (if a / 16 % 2 == 0 then a % 16 > 0 || b / 32 % 2 > 0
              else 3 < |s| && Continues(At(s, 3)) && a / 8 % 2 == 0 && (a % 8 > 0 || b / 16 % 4 > 0)))
  }

  lemma ChecksHold(s: Text)
    requires s != [] && s[0] >= 128 && Valid(s)
    ensures Checked(s)
  {
    ValidFront(s);
    FirstIsEncode(s);
  }

  /** The character at the front of a valid text. */
  lemma FrontOf(t: Text)
    requires t != [] && Valid(t)
    ensures var f := Next(t);
      f.Good? && Scalar(f.code) && f.len <= |t| && t[..f.len] == Encode(f.code) && Valid(t[f.len..])
    ensures t[0] >= 128 ==> Checked(t)
  {
    ValidFront(t);
    NextIsFirst(t);
    FirstIsEncode(t);
    if t[0] >= 128 { ChecksHold(t); }
  }

  /** The first pos bytes are printed; they are the characters cs. */
  ghost predicate Printed(s: Text, pos: nat, cs: seq<nat>, out: Text) {
    var all := pos <= |s| && Valid(s[pos..]) && AllScalar(cs) && EncodeAll(cs) == s[..pos] && out == [QUOTE] + PrintAll(cs);
    all
  }

  lemma PrintedMore(s: Text, pos: nat, cs: seq<nat>, out: Text)
    requires Printed(s, pos, cs, out) && pos < |s|
    ensures var f := Next(s[pos..]);
      f.Good? && Scalar(f.code) && f.len >= 1 && Printed(s, pos + f.len, cs + [f.code], out + PrintChar(f.code))
  {
    FrontOf(s[pos..]);
    var f := Next(s[pos..]);
    Cut(s, pos, f.len);
    AppendedMore(s[..pos], cs, out, f.code);
  }

  lemma Cut(s: Text, pos: nat, n: nat)
    requires pos + n <= |s|
    ensures s[..pos + n] == s[..pos] + s[pos..][..n] && s[pos + n..] == s[pos..][n..]
  {
  }

  lemma AppendedMore(done: Text, cs: seq<nat>, out: Text, c: nat)
    requires AllScalar(cs) && Scalar(c) && EncodeAll(cs) == done && out == [QUOTE] + PrintAll(cs)
    ensures AllScalar(cs + [c]) && EncodeAll(cs + [c]) == done + Encode(c)
    ensures out + PrintChar(c) == [QUOTE] + PrintAll(cs + [c])
  {
    EncodeAppend(cs, c);
    PrintAppend(cs, c);
    Regroup([QUOTE], PrintAll(cs), PrintChar(c));
  }

  lemma Regroup(a: Text, b: Text, c: Text)
    ensures (a + b) + c == a + (b + c)
  {
  }

  /** operator<< for JsonString: on valid text its checks pass, and it prints character by character. */
  method Print(s: Text) returns (out: Text, ghost cs: seq<nat>)
    requires Valid(s)
    ensures AllScalar(cs) && EncodeAll(cs) == s && out == [QUOTE] + PrintAll(cs) + [QUOTE]
  {
    out, cs := [QUOTE], [];
    var pos := 0;
    assert s[0..] == s;
    while pos < |s|
      invariant Printed(s, pos, cs, out)
      decreases |s| - pos
    {
      PrintedMore(s, pos, cs, out);
      FrontOf(s[pos..]);
      assert s[pos..][0] >= 128 ==> Checked(s[pos..]);
      var f := Next(s[pos..]);
      out, cs := out + PrintChar(f.code), cs + [f.code];
      pos := pos + f.len;
    }
    assert s[..pos] == s;
    out := out + [QUOTE];
  }

  // ----- decoding

  /** hex_to_int: 16 for what is not a digit. */
  function HexValue(b: Byte): (d: nat)
    ensures d <= 16
  {
    var c := if b / 32 % 2 == 0 then b + 32 else b;
    if 48 <= b <= 57 then b - 48 else if 97 <= c <= 102 then c - 87 else 16
  }

  predicate IsHex4(s: Text, i: nat)
    requires i + 4 <= |s|
  {
    HexValue(s[i]) < 16 && HexValue(s[i + 1]) < 16 && HexValue(s[i + 2]) < 16 && HexValue(s[i + 3]) < 16
  }

  function Hex4(s: Text, i: nat): (x: nat)
    requires i + 4 <= |s| && IsHex4(s, i)
    ensures x < 0x10000
  {
    ((HexValue(s[i]) * 16 + HexValue(s[i + 1])) * 16 + HexValue(s[i + 2])) * 16 + HexValue(s[i + 3])
  }

  predicate Surrogate(x: nat) { 0xD7FF < x < 0xE000 }

  /** What the decoder does with the front of the text: it emits bytes for n bytes read. */
  datatype Turn = Fail | Stop | Emit(bytes: Text, n: nat)

  /** The escape with u. */
  function UnicodeTurn(s: Text): (t: Turn)
    requires |s| >= 2
    ensures t != Stop && (t.Emit? ==> 1 <= |t.bytes| <= t.n <= |s|)
  {
    if |s| < 6 || !IsHex4(s, 2) then Fail
    else
      var num := Hex4(s, 2);
      if Surrogate(num) && 12 <= |s| && s[6] == BACKSLASH && s[7] == LETTER_U then
        if !IsHex4(s, 8) then Fail
        else
          var low := Hex4(s, 8);
          if Surrogate(low) then Emit(Encode(num % 1024 * 1024 + low % 1024 + 0x10000), 12) else Emit(Encode(num), 6)
      else Emit(Encode(num), 6)
  }

  /** One turn of json_string_decode; it never emits more than it reads. */
  function TurnOf(s: Text): (t: Turn)
    ensures t.Emit? ==> 1 <= |t.bytes| <= t.n <= |s|
  {
    if s == [] then Fail
    else if s[0] == QUOTE then Stop
    else if s[0] != BACKSLASH then Emit([s[0]], 1)
    else if |s| == 1 then Fail
    else if s[1] == LETTER_U then UnicodeTurn(s)
    else if s[1] == 98 then Emit([8], 2)
    else if s[1] == 102 then Emit([12], 2)
    else if s[1] == 110 then Emit([10], 2)
    else if s[1] == 114 then Emit([13], 2)
    else if s[1] == 116 then Emit([9], 2)
    else Emit([s[1]], 2)
  }

  datatype Decoded = Error | Ok(text: Text, len: nat)

  function Prepend(bytes: Text, n: nat, d: Decoded): Decoded {
    match d
    case Error => Error
    case Ok(text, len) => Ok(bytes + text, n + len)
  }

  /** The text up to the closing quote, and how many bytes that took. */
  function Decode(s: Text): (d: Decoded)
    ensures d.Ok? ==> |d.text| < d.len <= |s|
    decreases |s|
  {
    match TurnOf(s)
    case Fail => Error
    case Stop => Ok([], 1)
    case Emit(bytes, n) => Prepend(bytes, n, Decode(s[n..]))
  }

  // ----- the round trip

  lemma HexOfDigit(d: nat)
    requires d < 16
    ensures HexValue(HexDigit(d)) == d
  {
  }

  lemma HexDigits(x: nat)
    requires x < 0x10000
    ensures ((x / 4096 * 16 + x / 256 % 16) * 16 + x / 16 % 16) * 16 + x % 16 == x
  {
  }

  lemma Hex4OfOneChar(x: nat, s: Text, i: nat)
    requires x < 0x10000 && i + 6 <= |s| && s[i..i + 6] == OneChar(x)
    ensures s[i] == BACKSLASH && s[i + 1] == LETTER_U && IsHex4(s, i + 2) && Hex4(s, i + 2) == x
  {
    var t := s[i..i + 6];
    assert t[0] == s[i] && t[1] == s[i + 1] && t[2] == s[i + 2] && t[3] == s[i + 3] && t[4] == s[i + 4] && t[5] == s[i + 5];
    HexOfDigit(x / 4096);
    HexOfDigit(x / 256 % 16);
    HexOfDigit(x / 16 % 16);
    HexOfDigit(x % 16);
    HexDigits(x);
  }

  /** The two halves of a code point beyond 16 bits. */
  lemma Halves(c: nat)
    requires 0x10000 <= c <= 0x10FFFF
    ensures var hi, lo := 0xD7C0 + c / 1024, 0xDC00 + c % 1024;
      Surrogate(hi) && Surrogate(lo) && hi % 1024 * 1024 + lo % 1024 + 0x10000 == c
  {
  }

  /** A printed character is one turn of the decoder, which emits its encoding. */
  lemma TurnOfPrinted(c: nat, rest: Text)
    requires Scalar(c)
    ensures TurnOf(PrintChar(c) + rest) == Emit(Encode(c), |PrintChar(c)|)
  {
    var s := PrintChar(c) + rest;
    if Letter(c) != 0 || 31 < c < 128 {
    } else if c < 0x10000 {
      assert s[0..6] == OneChar(c);
      Hex4OfOneChar(c, s, 0);
    } else {
      PairOfPrinted(c, rest);
    }
  }

  lemma PairOfPrinted(c: nat, rest: Text)
    requires 0x10000 <= c <= 0x10FFFF
    ensures TurnOf(PrintChar(c) + rest) == Emit(Encode(c), 12)
  {
    var s := PrintChar(c) + rest;
    Halves(c);
    assert s[0..6] == OneChar(0xD7C0 + c / 1024);
    assert s[6..12] == OneChar(0xDC00 + c % 1024);
    Hex4OfOneChar(0xD7C0 + c / 1024, s, 0);
    Hex4OfOneChar(0xDC00 + c % 1024, s, 6);
  }

  /** Decoding what was printed gives the text back, whatever follows. */
  lemma {:induction false} DecodePrinted(cs: seq<nat>, rest: Text)
    requires AllScalar(cs)
    ensures Decode(PrintAll(cs) + [QUOTE] + rest) == Ok(EncodeAll(cs), |PrintAll(cs)| + 1)
  {
    if cs == [] {
      assert (PrintAll(cs) + [QUOTE] + rest)[0] == QUOTE;
    } else {
      var p, tail := PrintChar(cs[0]), PrintAll(cs[1..]) + [QUOTE] + rest;
      var s := p + tail;
      assert PrintAll(cs) + [QUOTE] + rest == s;
      TurnOfPrinted(cs[0], tail);
      assert s[|p|..] == tail;
      DecodePrinted(cs[1..], rest);
    }
  }
}
