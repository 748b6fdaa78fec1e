/**
 Byte strings read as UTF-8 the way a Go range loop does: a well-formed sequence of section 4 of RFC 3629 decodes to its
 scalar value, and every byte that does not begin one decodes, alone, to U+FFFD.
 */
module Utf8 {

  type byte = x: int | 0 <= x < 256

  const RUNE_ERROR := 0xFFFD

  /** Unicode scalar values: code points that are not surrogates. */
  predicate Scalar(r: int) { 0 <= r < 0xD800 || 0xE000 <= r < 0x110000 }

  predicate Tail(b: byte) { 0x80 <= b < 0xC0 }

  // ---- Decoding ----

  predicate Two(s: seq<byte>) { |s| >= 2 && 0xC2 <= s[0] < 0xE0 && Tail(s[1]) }

  predicate Three(s: seq<byte>) {
    && |s| >= 3 && 0xE0 <= s[0] < 0xF0 && Tail(s[1]) && Tail(s[2])
    && (s[0] == 0xE0 ==> s[1] >= 0xA0)
    && (s[0] == 0xED ==> s[1] < 0xA0)
  }

  predicate Four(s: seq<byte>) {
    && |s| >= 4 && 0xF0 <= s[0] < 0xF5 && Tail(s[1]) && Tail(s[2]) && Tail(s[3])
    && (s[0] == 0xF0 ==> s[1] >= 0x90)
    && (s[0] == 0xF4 ==> s[1] < 0x90)
  }

  predicate WellFormed(s: seq<byte>) { (s != [] && s[0] < 0x80) || Two(s) || Three(s) || Four(s) }

  /** The number of bytes the first rune takes. */
  function Width(s: seq<byte>): (w: nat)
    requires s != []
    ensures 1 <= w <= |s| && w <= 4
  {
    if Two(s) then 2 else if Three(s) then 3 else if Four(s) then 4 else 1
  }

  function Rune(s: seq<byte>): int
    requires s != []
  {
    if s[0] < 0x80 then s[0]
    else if Two(s) then (s[0] - 0xC0) * 64 + (s[1] - 0x80)
    else if Three(s) then (s[0] - 0xE0) * 4096 + (s[1] - 0x80) * 64 + (s[2] - 0x80)
    else if Four(s) then (s[0] - 0xF0) * 262144 + (s[1] - 0x80) * 4096 + (s[2] - 0x80) * 64 + (s[3] - 0x80)
    else RUNE_ERROR
  }

  function Runes(s: seq<byte>): seq<int> {
    if s == [] then [] else [Rune(s)] + Runes(s[Width(s)..])
  }

  /** Positions where a rune begins, or the end. */
  predicate Boundary(s: seq<byte>, i: nat)
    decreases |s|
  {
    i == 0 || (s != [] && Width(s) <= i && Boundary(s[Width(s)..], i - Width(s)))
  }

  // ---- Encoding ----

  function Encode(r: int): seq<byte>
    requires Scalar(r)
  {
    if r < 0x80 then [r]
    else if r < 0x800 then [0xC0 + r / 64, 0x80 + r % 64]
    else if r < 0x10000 then [0xE0 + r / 64 / 64, 0x80 + r / 64 % 64, 0x80 + r % 64]
    else [0xF0 + r / 64 / 64 / 64, 0x80 + r / 64 / 64 % 64, 0x80 + r / 64 % 64, 0x80 + r % 64]
  }

  function EncodeAll(rs: seq<int>): seq<byte>
    requires forall r :: r in rs ==> Scalar(r)
  {
    if rs == [] then [] else Encode(rs[0]) + EncodeAll(rs[1..])
  }

  /** The value spelt by a lead digit and six-bit digits, and the digits of that value. */
  lemma Digits(a: int, b: int, c: int, d: int)
    requires 0 <= a && 0 <= b < 64 && 0 <= c < 64 && 0 <= d < 64
    ensures (a * 64 + b) / 64 == a && (a * 64 + b) % 64 == b
    ensures var t := (a * 64 + b) * 64 + c; t == a * 4096 + b * 64 + c && t / 64 == a * 64 + b && t % 64 == c
    ensures var f := ((a * 64 + b) * 64 + c) * 64 + d;
            f == a * 262144 + b * 4096 + c * 64 + d && f / 64 == (a * 64 + b) * 64 + c && f % 64 == d
  {
  }

  /** Decoding undoes encoding, whatever follows. */
  lemma DecodeEncode(r: int, rest: seq<byte>)
    requires Scalar(r)
    ensures WellFormed(Encode(r) + rest)
    ensures Rune(Encode(r) + rest) == r && Width(Encode(r) + rest) == |Encode(r)|
  {
    var s := Encode(r) + rest;
    if r < 0x800 {
    } else if r < 0x10000 {
      Digits(r / 64 / 64, r / 64 % 64, r % 64, 0);
      assert Three(s);
    } else {
      Digits(r / 64 / 64 / 64, r / 64 / 64 % 64, r / 64 % 64, r % 64);
      assert Four(s);
    }
  }

  /** Encoding undoes decoding of well-formed input, so no scalar value has two well-formed spellings. */
  lemma EncodeDecode(s: seq<byte>)
    requires WellFormed(s)
    ensures Scalar(Rune(s)) && Encode(Rune(s)) == s[..Width(s)]
  {
    if s[0] < 0x80 || Two(s) {
    } else if Three(s) {
      EncodeDecodeThree(s);
    } else {
      EncodeDecodeFour(s);
    }
  }

  lemma EncodeDecodeThree(s: seq<byte>)
    requires Three(s)
    ensures Scalar(Rune(s)) && Encode(Rune(s)) == s[..3]
  {
    Digits(s[0] - 0xE0, s[1] - 0x80, s[2] - 0x80, 0);
    assert s[..3] == [s[0], s[1], s[2]];
  }

  lemma EncodeDecodeFour(s: seq<byte>)
    requires Four(s)
    ensures Scalar(Rune(s)) && Encode(Rune(s)) == s[..4]
  {
    Digits(s[0] - 0xF0, s[1] - 0x80, s[2] - 0x80, s[3] - 0x80);
    assert s[..4] == [s[0], s[1], s[2], s[3]];
  }

  lemma EncodedHead(rs: seq<int>)
    requires rs != [] && forall r :: r in rs ==> Scalar(r)
    ensures var s := EncodeAll(rs);
            && s != [] && Rune(s) == rs[0] && Width(s) == |Encode(rs[0])| && s[..Width(s)] == Encode(rs[0])
            && s[Width(s)..] == EncodeAll(rs[1..])
  {
    var head, tail := Encode(rs[0]), EncodeAll(rs[1..]);
    DecodeEncode(rs[0], tail);
    assert (head + tail)[|head|..] == tail && (head + tail)[..|head|] == head;
  }

  lemma {:induction false} RunesOfEncoded(rs: seq<int>)
    requires forall r :: r in rs ==> Scalar(r)
    ensures Runes(EncodeAll(rs)) == rs
  {
    if rs != [] {
      EncodedHead(rs);
      RunesOfEncoded(rs[1..]);
    }
  }

  /** The encoding of some scalar value stands at the front. */
  ghost predicate BeginsCharacter(s: seq<byte>) { exists r :: Scalar(r) && Encode(r) <= s }

  /**
   What a range loop over any bytes finds first: the character whose encoding stands at the front, with just its bytes,
   or, when there is none, U+FFFD for one byte alone, so that a malformed byte never takes a good character with it.
   */
  lemma FirstRune(s: seq<byte>)
    requires s != []
    ensures forall r :: Scalar(r) && Encode(r) <= s ==>
              Width(s) == |Encode(r)| && Runes(s) == [r] + Runes(s[|Encode(r)|..])
    ensures !BeginsCharacter(s) ==> Width(s) == 1 && Runes(s) == [0xFFFD] + Runes(s[1..])
  {
    forall r | Scalar(r) && Encode(r) <= s ensures Rune(s) == r && Width(s) == |Encode(r)| {
      assert s == Encode(r) + s[|Encode(r)|..];
      DecodeEncode(r, s[|Encode(r)|..]);
    }
    if !BeginsCharacter(s) && WellFormed(s) {
      EncodeDecode(s);
      assert false;
    }
  }

  /** The first rune depends on nothing after it, and shortening the input never makes a malformed byte well-formed. */
  lemma PrefixKeepsFirst(s: seq<byte>, i: nat)
    requires s != [] && Width(s) <= i <= |s|
    ensures Rune(s[..i]) == Rune(s) && Width(s[..i]) == Width(s)
  {
    var p := s[..i];
    assert forall k :: 0 <= k < i ==> p[k] == s[k];
  }
}
