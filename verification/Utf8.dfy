/**
  Well-formed UTF-8, which toUtf8String asks for (packages/solidity-mapper/src/storage.ts): the test goes byte
  by byte and accepts exactly the encodings of texts.
*/
module Utf8 {
  import opened ByteNumbers

  /** The byte sequences of section 4 of RFC 3629. */
  predicate WellFormed(bs: seq<Byte>) {
    || bs == []
    || (bs[0] < 0x80 && WellFormed(bs[1..]))
    || (|bs| >= 2 && 0xC2 <= bs[0] <= 0xDF && IsTail(bs[1]) && WellFormed(bs[2..]))
    || (|bs| >= 3 && IsTriple(bs[0], bs[1]) && IsTail(bs[2]) && WellFormed(bs[3..]))
    || (|bs| >= 4 && IsQuad(bs[0], bs[1]) && IsTail(bs[2]) && IsTail(bs[3]) && WellFormed(bs[4..]))
  }

  predicate IsTail(b: Byte) {
    0x80 <= b <= 0xBF
  }

  predicate IsTriple(b: Byte, c: Byte) {
    || (b == 0xE0 && 0xA0 <= c <= 0xBF)
    || (b == 0xED && 0x80 <= c <= 0x9F)
    || (0xE1 <= b <= 0xEF && b != 0xED && IsTail(c))
  }

  predicate IsQuad(b: Byte, c: Byte) {
    || (b == 0xF0 && 0x90 <= c <= 0xBF)
    || (0xF1 <= b <= 0xF3 && IsTail(c))
    || (b == 0xF4 && 0x80 <= c <= 0x8F)
  }

  // ---- Encodings ----

  /** A Unicode scalar value: any code point but the surrogates. */
  predicate IsScalar(cp: nat) {
    cp < 0x11_0000 && !(0xD800 <= cp < 0xE000)
  }

  /** Section 3 of RFC 3629. */
  function Encode(cp: nat): (bs: seq<Byte>)
    requires IsScalar(cp)
    ensures |bs| >= 1
  {
    if cp < 0x80 then [cp]
    else if cp < 0x800 then [0xC0 + cp / 64, 0x80 + cp % 64]
    else if cp < 0x1_0000 then [0xE0 + cp / 64 / 64, 0x80 + cp / 64 % 64, 0x80 + cp % 64]
    else [0xF0 + cp / 64 / 64 / 64, 0x80 + cp / 64 / 64 % 64, 0x80 + cp / 64 % 64, 0x80 + cp % 64]
  }

  predicate IsText(cps: seq<nat>) {
    forall i | 0 <= i < |cps| :: IsScalar(cps[i])
  }

  function EncodeAll(cps: seq<nat>): seq<Byte>
    requires IsText(cps)
  {
    if cps == [] then [] else Encode(cps[0]) + EncodeAll(cps[1..])
  }

  /** What the bytes of one code point look like. */
  predicate IsUnit(e: seq<Byte>) {
    || (|e| == 1 && e[0] < 0x80)
    || (|e| == 2 && 0xC2 <= e[0] <= 0xDF && IsTail(e[1]))
    || (|e| == 3 && IsTriple(e[0], e[1]) && IsTail(e[2]))
    || (|e| == 4 && IsQuad(e[0], e[1]) && IsTail(e[2]) && IsTail(e[3]))
  }

  lemma EncodeUnit(cp: nat)
    requires IsScalar(cp)
    ensures IsUnit(Encode(cp))
  {
    Digits64(cp, cp / 64, cp % 64);
    Digits64(cp / 64, cp / 64 / 64, cp / 64 % 64);
  }

  lemma Digits64(x: int, q: int, r: int)
    requires x == 64 * q + r && 0 <= r < 64
    ensures x / 64 == q && x % 64 == r
  {}

  lemma UnitFirst(e: seq<Byte>, rest: seq<Byte>)
    requires IsUnit(e) && WellFormed(rest)
    ensures WellFormed(e + rest)
  {
    var bs := e + rest;
    assert bs[|e|..] == rest;
    assert forall i | 0 <= i < |e| :: bs[i] == e[i];
  }

  lemma {:induction false} EncodedWellFormed(cps: seq<nat>)
    requires IsText(cps)
    ensures WellFormed(EncodeAll(cps))
  {
    if cps != [] {
      EncodedWellFormed(cps[1..]);
      EncodeUnit(cps[0]);
      UnitFirst(Encode(cps[0]), EncodeAll(cps[1..]));
    }
  }

  function Point2(a: int, b: int): int {
    (a - 0xC0) * 64 + (b - 0x80)
  }

  function Point3(a: int, b: int, c: int): int {
    ((a - 0xE0) * 64 + (b - 0x80)) * 64 + (c - 0x80)
  }

  function Point4(a: int, b: int, c: int, d: int): int {
    (((a - 0xF0) * 64 + (b - 0x80)) * 64 + (c - 0x80)) * 64 + (d - 0x80)
  }

  lemma TwoBytes(a: Byte, b: Byte)
    requires 0xC2 <= a <= 0xDF && IsTail(b)
    ensures var cp := Point2(a, b); 0 <= cp && IsScalar(cp) && Encode(cp) == [a, b]
  {}

  lemma ThreeBytes(a: Byte, b: Byte, c: Byte)
    requires IsTriple(a, b) && IsTail(c)
    ensures var cp := Point3(a, b, c); 0 <= cp && IsScalar(cp) && Encode(cp) == [a, b, c]
  {
    Digits64(Point3(a, b, c), (a - 0xE0) * 64 + (b - 0x80), c - 0x80);
    Digits64((a - 0xE0) * 64 + (b - 0x80), a - 0xE0, b - 0x80);
  }

  lemma FourBytes(a: Byte, b: Byte, c: Byte, d: Byte)
    requires IsQuad(a, b) && IsTail(c) && IsTail(d)
    ensures var cp := Point4(a, b, c, d); 0 <= cp && IsScalar(cp) && Encode(cp) == [a, b, c, d]
  {
    var high := (a - 0xF0) * 64 + (b - 0x80);
    Digits64(Point4(a, b, c, d), high * 64 + (c - 0x80), d - 0x80);
    Digits64(high * 64 + (c - 0x80), high, c - 0x80);
    Digits64(high, a - 0xF0, b - 0x80);
  }

  /** The code point at the front. */
  lemma FirstPoint(bs: seq<Byte>) returns (cp: nat, n: nat)
    requires bs != [] && WellFormed(bs)
    ensures IsScalar(cp) && 0 < n <= |bs| && Encode(cp) == bs[..n] && WellFormed(bs[n..])
  {
    if bs[0] < 0x80 {
      cp, n := bs[0], 1;
    } else if bs[0] < 0xE0 {
      TwoBytes(bs[0], bs[1]);
      cp, n := Point2(bs[0], bs[1]), 2;
    } else if bs[0] < 0xF0 {
      ThreeBytes(bs[0], bs[1], bs[2]);
      cp, n := Point3(bs[0], bs[1], bs[2]), 3;
    } else {
      FourBytes(bs[0], bs[1], bs[2], bs[3]);
      cp, n := Point4(bs[0], bs[1], bs[2], bs[3]), 4;
    }
  }

  lemma {:induction false} WellFormedEncodes(bs: seq<Byte>) returns (cps: seq<nat>)
    requires WellFormed(bs)
    ensures IsText(cps) && EncodeAll(cps) == bs
    decreases |bs|
  {
    cps := [];
    if bs != [] {
      var cp, n := FirstPoint(bs);
      cps := WellFormedEncodes(bs[n..]);
      OneMore(cp, cps, bs, n);
      cps := [cp] + cps;
    }
  }

  lemma OneMore(cp: nat, cps: seq<nat>, bs: seq<Byte>, n: nat)
    requires IsScalar(cp) && IsText(cps) && n <= |bs| && Encode(cp) == bs[..n] && EncodeAll(cps) == bs[n..]
    ensures IsText([cp] + cps) && EncodeAll([cp] + cps) == bs
  {
    assert ([cp] + cps)[1..] == cps && bs[..n] + bs[n..] == bs;
  }

  /** Well-formed are exactly the encodings of texts. */
  lemma WellFormedExact(bs: seq<Byte>)
    ensures WellFormed(bs) <==> exists cps :: IsText(cps) && EncodeAll(cps) == bs
  {
    if WellFormed(bs) {
      var cps := WellFormedEncodes(bs);
    }
    if cps :| IsText(cps) && EncodeAll(cps) == bs {
      EncodedWellFormed(cps);
    }
  }
}
