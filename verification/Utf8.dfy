/**
 * UTF-8 as pxcutils/pxc/utils/utf8.cpp checks, reads and writes it.  Bit operations on bytes
 * are written with division and remainder.
 */
module Utf8 {
  type Byte = b: nat | b < 256

  type Text = seq<Byte>

  /** A code point that is not a surrogate. */
  predicate Scalar(c: nat) { c <= 0x10FFFF && !(0xD7FF < c < 0xE000) }

  predicate AllScalar(cs: seq<nat>) { forall i :: 0 <= i < |cs| ==> Scalar(cs[i]) }

  /** append_utf8_character_unsafe */
  function Encode(c: nat): (e: Text)
    requires c <= 0x10FFFF
    ensures 1 <= |e| <= 4
  {
    if c <= 0x7F then [c]
    else if c <= 0x7FF then [0xC0 + c / 64, 0x80 + c % 64]
    else if c <= 0xFFFF then [0xE0 + c / 4096, 0x80 + c / 64 % 64, 0x80 + c % 64]
    else [0xF0 + c / 262144, 0x80 + c / 4096 % 64, 0x80 + c / 64 % 64, 0x80 + c % 64]
  }

  function EncodeAll(cs: seq<nat>): Text
    requires AllScalar(cs)
  {
    if cs == [] then [] else Encode(cs[0]) + EncodeAll(cs[1..])
  }

  ghost predicate Valid(s: Text) {
    exists cs :: AllScalar(cs) && EncodeAll(cs) == s
  }

  // ----- reading one character

  /** The character at the front, if the checks of check_utf8 accept it. */
  datatype Front = Bad | Good(len: nat, code: nat)

  /** The byte at i, or the terminating zero. */
  function At(s: Text, i: nat): Byte { if i < |s| then s[i] else 0 }

  predicate Continues(b: Byte) { b / 64 == 2 }

  function First(s: Text): Front
    requires s != []
  {
    var a, b, c, d := s[0], At(s, 1), At(s, 2), At(s, 3);
    if a < 128 then Good(1, a)
    else if a / 64 % 2 == 0 || !Continues(b) then Bad
    else if a / 32 % 2 == 0 then
      if a / 2 % 16 > 0 then Good(2, a % 32 * 64 + b % 64) else Bad
    else if !Continues(c) then Bad
    else if a / 16 % 2 == 0 then
      var x := a % 16 * 64 + b / 32 % 2 * 32;
      if x != 0 && x != 0x360 then Good(3, a % 16 * 4096 + b % 64 * 64 + c % 64) else Bad
    else if !Continues(d) then Bad
    else if a / 8 % 2 == 0 then
      var t := a % 8 * 64 + b / 16 % 4 * 16;
      if 0 < t < 0x110 then Good(4, a % 8 * 262144 + b % 64 * 4096 + c % 64 * 64 + d % 64) else Bad
    else Bad
  }

  // Bytes and six-bit digits.

  lemma Lead2(h: nat)
    requires h < 32
    ensures var a := 0xC0 + h; a / 64 % 2 == 1 && a / 32 % 2 == 0 && a % 32 == h && a / 2 % 16 == h / 2
  {
  }

  lemma Lead3(h: nat)
    requires h < 16
    ensures var a := 0xE0 + h; a / 64 % 2 == 1 && a / 32 % 2 == 1 && a / 16 % 2 == 0 && a % 16 == h
  {
  }

  lemma Lead4(h: nat)
    requires h < 8
    ensures var a := 0xF0 + h; a / 64 % 2 == 1 && a / 32 % 2 == 1 && a / 16 % 2 == 1 && a / 8 % 2 == 0 && a % 8 == h
  {
  }

  lemma Tail(m: nat)
    requires m < 64
    ensures var b := 0x80 + m; Continues(b) && b % 64 == m && b / 32 % 2 == m / 32 && b / 16 % 4 == m / 16
  {
  }

  lemma TailOf(b: Byte)
    requires Continues(b)
    ensures b == 0x80 + b % 64 && b % 64 < 64
  {
  }

  lemma Digit(q: nat, l: nat)
    requires l < 64
    ensures (q * 64 + l) / 64 == q && (q * 64 + l) % 64 == l
  {
  }

  lemma Digits(c: nat)
    ensures c / 4096 == c / 64 / 64 && c / 262144 == c / 64 / 64 / 64
    ensures c == c / 64 * 64 + c % 64
  {
  }

  /** The digits of a number of three digits. */
  lemma ThreeDigits(h: nat, m: nat, l: nat)
    requires m < 64 && l < 64
    ensures var c := h * 4096 + m * 64 + l; c / 4096 == h && c / 64 % 64 == m && c % 64 == l
  {
    var c := h * 4096 + m * 64 + l;
    Digits(c);
    Digit(h * 64 + m, l);
    Digit(h, m);
    assert c == (h * 64 + m) * 64 + l;
  }

  lemma FourDigits(h: nat, m: nat, n: nat, l: nat)
    requires m < 64 && n < 64 && l < 64
    ensures var c := h * 262144 + m * 4096 + n * 64 + l; c / 262144 == h && c / 4096 % 64 == m && c / 64 % 64 == n && c % 64 == l
  {
    var c := h * 262144 + m * 4096 + n * 64 + l;
    Digits(c);
    Digit(h * 4096 + m * 64 + n, l);
    Digit(h * 64 + m, n);
    Digit(h, m);
    assert c == (h * 4096 + m * 64 + n) * 64 + l;
    assert h * 4096 + m * 64 + n == (h * 64 + m) * 64 + n;
  }

  /** What First reads from bytes with these digits. */
  lemma First2(s: Text, h: nat, l: nat)
    requires h < 32 && l < 64 && |s| >= 2 && s[0] == 0xC0 + h && s[1] == 0x80 + l
    ensures First(s) == if h >= 2 then Good(2, h * 64 + l) else Bad
  {
    Lead2(h);
    Tail(l);
  }

  lemma First3(s: Text, h: nat, m: nat, l: nat)
    requires h < 16 && m < 64 && l < 64 && |s| >= 3 && s[0] == 0xE0 + h && s[1] == 0x80 + m && s[2] == 0x80 + l
    ensures First(s) == if h * 64 + m / 32 * 32 != 0 && h * 64 + m / 32 * 32 != 0x360 then Good(3, h * 4096 + m * 64 + l) else Bad
  {
    Lead3(h);
    Tail(m);
    Tail(l);
  }

  lemma First4(s: Text, h: nat, m: nat, n: nat, l: nat)
    requires h < 8 && m < 64 && n < 64 && l < 64 && |s| >= 4
    requires s[0] == 0xF0 + h && s[1] == 0x80 + m && s[2] == 0x80 + n && s[3] == 0x80 + l
    ensures First(s) == if 0 < h * 64 + m / 16 * 16 < 0x110 then Good(4, h * 262144 + m * 4096 + n * 64 + l) else Bad
  {
    Lead4(h);
    Tail(m);
    Tail(n);
    Tail(l);
  }

  /** An encoded scalar is read back, whatever follows. */
  lemma FirstOfEncode(c: nat, rest: Text)
    requires Scalar(c)
    ensures First(Encode(c) + rest) == Good(|Encode(c)|, c)
  {
    if c <= 0x7F {
    } else if c <= 0x7FF {
      EncodeTwo(c, rest);
    } else if c <= 0xFFFF {
      EncodeThree(c, rest);
    } else {
      EncodeFour(c, rest);
    }
  }

  lemma EncodeTwo(c: nat, rest: Text)
    requires 0x7F < c <= 0x7FF
    ensures First(Encode(c) + rest) == Good(2, c)
  {
    Digits(c);
    First2(Encode(c) + rest, c / 64, c % 64);
  }

  lemma EncodeThree(c: nat, rest: Text)
    requires 0x7FF < c <= 0xFFFF && Scalar(c)
    ensures First(Encode(c) + rest) == Good(3, c)
  {
    Digits(c);
    Digits(c / 64);
    First3(Encode(c) + rest, c / 4096, c / 64 % 64, c % 64);
  }

  lemma EncodeFour(c: nat, rest: Text)
    requires 0xFFFF < c <= 0x10FFFF
    ensures First(Encode(c) + rest) == Good(4, c)
  {
    Digits(c);
    Digits(c / 64);
    Digits(c / 4096);
    First4(Encode(c) + rest, c / 262144, c / 4096 % 64, c / 64 % 64, c % 64);
  }

  /** What is accepted at the front is the shortest encoding of a scalar. */
  lemma FirstIsEncode(s: Text)
    requires s != [] && First(s).Good?
    ensures var f := First(s); Scalar(f.code) && f.len <= |s| && s[..f.len] == Encode(f.code)
  {
    var a := s[0];
    if a < 128 {
      assert s[..1] == [a];
    } else if a / 32 % 2 == 0 {
      TwoAgain(s);
    } else if a / 16 % 2 == 0 {
      ThreeAgain(s);
    } else {
      FourAgain(s);
    }
  }

  lemma TwoAgain(s: Text)
    requires s != [] && s[0] >= 128 && s[0] / 32 % 2 == 0 && First(s).Good?
    ensures var f := First(s); f.len == 2 <= |s| && Scalar(f.code) && s[..2] == Encode(f.code)
  {
    var a, b := s[0], At(s, 1);
    TailOf(b);
    var h, l := a - 0xC0, b % 64;
    First2(s, h, l);
    Digit(h, l);
    assert s[..2] == [a, b];
  }

  lemma ThreeAgain(s: Text)
    requires s != [] && s[0] >= 128 && s[0] / 32 % 2 == 1 && s[0] / 16 % 2 == 0 && First(s).Good?
    ensures var f := First(s); f.len == 3 <= |s| && Scalar(f.code) && s[..3] == Encode(f.code)
  {
    var a, b, c := s[0], At(s, 1), At(s, 2);
    TailOf(b);
    TailOf(c);
    var h, m, l := a - 0xE0, b % 64, c % 64;
    First3(s, h, m, l);
    ThreeDigits(h, m, l);
    assert s[..3] == [a, b, c];
  }

  lemma FourAgain(s: Text)
    requires s != [] && s[0] >= 128 && s[0] / 32 % 2 == 1 && s[0] / 16 % 2 == 1 && First(s).Good?
    ensures var f := First(s); f.len == 4 <= |s| && Scalar(f.code) && s[..4] == Encode(f.code)
  {
    var a, b, c, d := s[0], At(s, 1), At(s, 2), At(s, 3);
    TailOf(b);
    TailOf(c);
    TailOf(d);
    var h, m, n, l := a - 0xF0, b % 64, c % 64, d % 64;
    First4(s, h, m, n, l);
    FourDigits(h, m, n, l);
    assert s[..4] == [a, b, c, d];
  }

  // ----- checking

  lemma ValidEmpty()
    ensures Valid([])
  {
    assert AllScalar([]) && EncodeAll([]) == [];
  }

  /** A text is valid exactly if its front is accepted and the rest is valid. */
  lemma ValidFront(s: Text)
    requires s != []
    ensures Valid(s) <==> First(s).Good? && First(s).len <= |s| && Valid(s[First(s).len..])
  {
    if Valid(s) {
      var cs :| AllScalar(cs) && EncodeAll(cs) == s;
      FirstOfEncode(cs[0], EncodeAll(cs[1..]));
      assert s[|Encode(cs[0])|..] == EncodeAll(cs[1..]);
    }
    if First(s).Good? {
      FirstIsEncode(s);
      var f := First(s);
      if Valid(s[f.len..]) {
        var ds :| AllScalar(ds) && EncodeAll(ds) == s[f.len..];
        var cs := [f.code] + ds;
        assert cs[1..] == ds;
        assert EncodeAll(cs) == s;
      }
    }
  }

  /** check_utf8: accepts exactly the texts that are sequences of encoded scalars. */
  method Check(s: Text) returns (ok: bool)
    ensures ok <==> Valid(s)
  {
    var pos := 0;
    while pos < |s|
      invariant pos <= |s| && (Valid(s) <==> Valid(s[pos..]))
      decreases |s| - pos
    {
      ValidFront(s[pos..]);
      var f := First(s[pos..]);
      if f.Bad? {
        return false;
      }
      FirstIsEncode(s[pos..]);
      assert s[pos..][f.len..] == s[pos + f.len..];
      pos := pos + f.len;
    }
    assert s[pos..] == [];
    ValidEmpty();
    ok := true;
  }

  /** next_utf8_unsafe, which does not check. */
  function Next(s: Text): (r: Front)
    requires s != []
  {
    var a, b, c, d := s[0], At(s, 1), At(s, 2), At(s, 3);
    if a < 128 then Good(1, a)
    else if a / 32 % 2 == 0 then Good(2, a % 32 * 64 + b % 64)
    else if a / 16 % 2 == 0 then Good(3, a % 16 * 4096 + b % 64 * 64 + c % 64)
    else if a / 8 % 2 == 0 then Good(4, a % 8 * 262144 + b % 64 * 4096 + c % 64 * 64 + d % 64)
    else Bad
  }

  /** On valid text the unchecked reader agrees with the checks. */
  lemma NextIsFirst(s: Text)
    requires s != [] && Valid(s)
    ensures Next(s) == First(s)
  {
    ValidFront(s);
  }

  /** There is one way to read a text as scalars. */
  lemma {:induction false} EncodeAllInjective(cs: seq<nat>, ds: seq<nat>)
    requires AllScalar(cs) && AllScalar(ds) && EncodeAll(cs) == EncodeAll(ds)
    ensures cs == ds
  {
    if cs != [] && ds != [] {
      FirstOfEncode(cs[0], EncodeAll(cs[1..]));
      FirstOfEncode(ds[0], EncodeAll(ds[1..]));
      var n := |Encode(cs[0])|;
      assert EncodeAll(cs)[n..] == EncodeAll(cs[1..]) && EncodeAll(ds)[n..] == EncodeAll(ds[1..]);
      EncodeAllInjective(cs[1..], ds[1..]);
    }
  }
}
