/** Bytes and UTF-8 validity, as section 4 of RFC 3629 defines it. */
module Utf8 {

  type byte = b: int | 0 <= b < 0x100

  type Text = seq<byte>

  predicate IsTail(b: byte) {
    0x80 <= b <= 0xBF
  }

  /** The length of the character `s` starts with, or 0 when `s` starts with none. */
  function CharLength(s: Text): (n: nat)
    ensures n <= |s| && n <= 4
  {
    if |s| >= 1 && s[0] <= 0x7F then 1
    else if |s| >= 2 && 0xC2 <= s[0] <= 0xDF && IsTail(s[1]) then 2
    else if |s| >= 3 && ThreeByteLead(s[0], s[1]) && IsTail(s[2]) then 3
    else if |s| >= 4 && FourByteLead(s[0], s[1]) && IsTail(s[2]) && IsTail(s[3]) then 4
    else 0
  }

  predicate ThreeByteLead(b0: byte, b1: byte) {
    || (b0 == 0xE0 && 0xA0 <= b1 <= 0xBF)
    || (0xE1 <= b0 <= 0xEC && IsTail(b1))
    || (b0 == 0xED && 0x80 <= b1 <= 0x9F)
    || (0xEE <= b0 <= 0xEF && IsTail(b1))
  }

  predicate FourByteLead(b0: byte, b1: byte) {
    || (b0 == 0xF0 && 0x90 <= b1 <= 0xBF)
    || (0xF1 <= b0 <= 0xF3 && IsTail(b1))
    || (b0 == 0xF4 && 0x80 <= b1 <= 0x8F)
  }

  predicate Valid(s: Text) {
    s == [] || (CharLength(s) > 0 && Valid(s[CharLength(s)..]))
  }

  predicate Ascii(b: byte) {
    b < 0x80
  }

  /** Valid text may be cut in front of any ASCII byte, and both halves stay valid. */
  lemma {:induction false} CutBeforeAscii(s: Text, i: nat)
    requires Valid(s) && i <= |s|
    requires i < |s| ==> Ascii(s[i])
    ensures Valid(s[..i]) && Valid(s[i..])
    decreases |s|
  {
    hide CharLength;
    if i == 0 {
      assert s[0..] == s;
    } else {
      var n := CharLength(s);
      CharOfPrefix(s, i);
      assert i < |s| ==> s[n..][i - n] == s[i];
      CutBeforeAscii(s[n..], i - n);
      assert s[..i][n..] == s[n..][..i - n];
      assert s[i..] == s[n..][i - n..];
    }
  }

  /** A cut in front of an ASCII byte does not split the first character. */
  lemma CharOfPrefix(s: Text, i: nat)
    requires 0 < i <= |s| && CharLength(s) > 0
    requires i < |s| ==> Ascii(s[i])
    ensures CharLength(s) <= i && CharLength(s[..i]) == CharLength(s)
  {
    TailsAreHigh(s);
  }

  lemma TailsAreHigh(s: Text)
    ensures forall k :: 1 <= k < CharLength(s) ==> s[k] >= 0x80
  {
  }

  /** Dropping a leading ASCII byte keeps text valid. */
  lemma DropAscii(s: Text)
    requires Valid(s) && s != [] && Ascii(s[0])
    ensures Valid(s[1..])
  {
    assert CharLength(s) == 1;
  }

  /** The bytes of a string of ASCII characters. */
  function Bytes(s: string): (b: Text)
    requires forall i :: 0 <= i < |s| ==> s[i] < 128 as char
    ensures |b| == |s|
    ensures forall i :: 0 <= i < |s| ==> b[i] == s[i] as int
  {
    seq(|s|, i requires 0 <= i < |s| => s[i] as int)
  }

  /** Text made of ASCII bytes only is valid. */
  lemma {:induction false} AsciiIsValid(s: Text)
    requires forall i :: 0 <= i < |s| ==> Ascii(s[i])
    ensures Valid(s)
  {
    if s != [] {
      assert CharLength(s) == 1;
      AsciiIsValid(s[1..]);
    }
  }

  // ---------- The characters valid text encodes ----------

  /** A Unicode scalar value: any code point but the surrogates. */
  predicate Scalar(c: int) {
    0 <= c < 0x11_0000 && !(0xD800 <= c < 0xE000)
  }

  /** The bytes of a character: a lead byte that tells how many follow, and six bits in each of them. */
  function Encode(c: int): Text
    requires Scalar(c)
  {
    if c < 0x80 then [c]
    else if c < 0x800 then [0xC0 + c / 64, 0x80 + c % 64]
    else if c < 0x1_0000 then [0xE0 + c / 4096, 0x80 + c / 64 % 64, 0x80 + c % 64]
    else [0xF0 + c / 262144, 0x80 + c / 4096 % 64, 0x80 + c / 64 % 64, 0x80 + c % 64]
  }

  predicate Scalars(cs: seq<int>) {
    forall i :: 0 <= i < |cs| ==> Scalar(cs[i])
  }

  function EncodeAll(cs: seq<int>): Text
    requires Scalars(cs)
  {
    if cs == [] then [] else Encode(cs[0]) + EncodeAll(cs[1..])
  }

  lemma EncodedIsCharacter(c: int, rest: Text)
    requires Scalar(c)
    ensures CharLength(Encode(c) + rest) == |Encode(c)|
  {
    var s := Encode(c) + rest;
    if c < 0x80 {
    } else if c < 0x800 {
      assert s[0] == 0xC0 + c / 64 && s[1] == 0x80 + c % 64;
    } else if c < 0x1_0000 {
      ThreeBytes(c);
      assert s[0] == 0xE0 + c / 4096 && s[1] == 0x80 + c / 64 % 64 && s[2] == 0x80 + c % 64;
    } else {
      FourBytes(c);
      assert s[0] == 0xF0 + c / 262144 && s[1] == 0x80 + c / 4096 % 64;
      assert s[2] == 0x80 + c / 64 % 64 && s[3] == 0x80 + c % 64;
    }
  }

  lemma ThreeBytes(c: int)
    requires Scalar(c) && 0x800 <= c < 0x1_0000
    ensures ThreeByteLead(0xE0 + c / 4096, 0x80 + c / 64 % 64)
  {
  }

  lemma FourBytes(c: int)
    requires Scalar(c) && 0x1_0000 <= c
    ensures FourByteLead(0xF0 + c / 262144, 0x80 + c / 4096 % 64)
  {
  }

  lemma CharacterIsEncoded(s: Text) returns (c: int)
    requires CharLength(s) > 0
    ensures Scalar(c) && Encode(c) == s[..CharLength(s)]
  {
    var n := CharLength(s);
    if n == 1 {
      c := s[0];
    } else if n == 2 {
      var lead: int, last: int := s[0], s[1];
      c := (lead - 0xC0) * 64 + (last - 0x80);
    } else if n == 3 {
      var lead: int, second: int, last: int := s[0], s[1], s[2];
      c := Joined3(lead - 0xE0, second - 0x80, last - 0x80);
    } else {
      var lead: int, second: int, third: int, last: int := s[0], s[1], s[2], s[3];
      c := Joined4(lead - 0xF0, second - 0x80, third - 0x80, last - 0x80);
    }
  }

  lemma Joined3(x: int, y: int, z: int) returns (c: int)
    requires 0 <= x < 16 && 0 <= y < 64 && 0 <= z < 64
    ensures c == x * 4096 + y * 64 + z && c / 4096 == x && c / 64 % 64 == y && c % 64 == z
  {
    c := x * 4096 + y * 64 + z;
    assert c / 64 == x * 64 + y;
  }

  lemma Joined4(w: int, x: int, y: int, z: int) returns (c: int)
    requires 0 <= w < 8 && 0 <= x < 64 && 0 <= y < 64 && 0 <= z < 64
    ensures c == w * 262144 + x * 4096 + y * 64 + z
    ensures c / 262144 == w && c / 4096 % 64 == x && c / 64 % 64 == y && c % 64 == z
  {
    c := w * 262144 + x * 4096 + y * 64 + z;
    assert c / 64 == w * 4096 + x * 64 + y;
    assert c / 4096 == w * 64 + x;
  }

  /** Text is valid if and only if it encodes a sequence of Unicode scalar values. */
  lemma ValidExactly(s: Text)
    ensures Valid(s) <==> exists cs :: Scalars(cs) && EncodeAll(cs) == s
  {
    if Valid(s) { var cs := Decoded(s); }
    if cs :| Scalars(cs) && EncodeAll(cs) == s { EncodedIsValid(cs); }
  }

  lemma {:induction false} Decoded(s: Text) returns (cs: seq<int>)
    requires Valid(s)
    ensures Scalars(cs) && EncodeAll(cs) == s
    decreases |s|
  {
    hide CharLength, Scalar, Encode;
    cs := [];
    if s != [] {
      var n := CharLength(s);
      var c := CharacterIsEncoded(s);
      var rest := Decoded(s[n..]);
      cs := [c] + rest;
      assert cs[1..] == rest && s == s[..n] + s[n..];
    }
  }

  lemma {:induction false} EncodedIsValid(cs: seq<int>)
    requires Scalars(cs)
    ensures Valid(EncodeAll(cs))
    decreases |cs|
  {
    hide CharLength, Scalar, Encode;
    if cs != [] {
      var rest := EncodeAll(cs[1..]);
      EncodedIsValid(cs[1..]);
      EncodedIsCharacter(cs[0], rest);
      EncodedLength(cs[0]);
      assert (Encode(cs[0]) + rest)[|Encode(cs[0])|..] == rest;
    }
  }

  lemma EncodedLength(c: int)
    requires Scalar(c)
    ensures 1 <= |Encode(c)| <= 4
  {
  }
}
