/**
  Numbers as digits in base 256, and two's complement numbers of any size: the host functions
  bigInt.fromString and typeConversion.bigIntToString (packages/graph-node/src/loader.ts), which hand
  integers to WASM as little-endian byte arrays.
*/
module ByteNumbers {
  import opened Wrappers

  type Byte = b: int | 0 <= b < 256

  /** The number before n is chosen, not computed: otherwise the verifier unfolds powers of literals. */
  function Pow256(n: nat): (p: nat)
    ensures p >= 1 && (n > 0 ==> p >= 256)
  {
    if n == 0 then 1
    else
      var m: nat :| 0 <= m < n && m + 1 == n;
      256 * Pow256(m)
  }

  /** BN's toArray('le', n): the lowest n digits, least significant first. */
  function ToLittleEndian(v: nat, n: nat): (bs: seq<Byte>)
    ensures |bs| == n
    decreases n, v
  {
    if n == 0 then [] else [v % 256] + ToLittleEndian(v / 256, n - 1)
  }

  function FromLittleEndian(bs: seq<Byte>): (v: nat)
    ensures v < Pow256(|bs|)
  {
    if bs == [] then 0 else bs[0] + 256 * FromLittleEndian(bs[1..])
  }

  lemma {:induction false} FromToLittleEndian(v: nat, n: nat)
    requires v < Pow256(n)
    ensures FromLittleEndian(ToLittleEndian(v, n)) == v
  {
    if n > 0 {
      FromToLittleEndian(v / 256, n - 1);
      assert ToLittleEndian(v, n)[1..] == ToLittleEndian(v / 256, n - 1);
    }
  }

  lemma {:induction false} ToFromLittleEndian(bs: seq<Byte>)
    ensures ToLittleEndian(FromLittleEndian(bs), |bs|) == bs
  {
    if bs != [] {
      ToFromLittleEndian(bs[1..]);
      var rest := FromLittleEndian(bs[1..]);
      assert (256 * rest + bs[0]) / 256 == rest && (256 * rest + bs[0]) % 256 == bs[0];
      assert bs == [bs[0]] + bs[1..];
    }
  }

  /** One more byte at the top. */
  lemma {:induction false} FromLittleEndianSnoc(bs: seq<Byte>, b: Byte)
    ensures FromLittleEndian(bs + [b]) == FromLittleEndian(bs) + b * Pow256(|bs|)
  {
    if bs == [] {
      assert FromLittleEndian([b]) == b;
    } else {
      FromLittleEndianSnoc(bs[1..], b);
      assert (bs + [b])[1..] == bs[1..] + [b];
      var p := Pow256(|bs| - 1);
      assert 256 * (b * p) == b * (256 * p);
    }
  }

  // ---- Two's complement ----

  /** BN's notn: every one of the `bytes` * 8 bits flipped. */
  function NotN(v: nat, bytes: nat): (r: nat)
    requires v < Pow256(bytes)
  {
    Pow256(bytes) - 1 - v
  }

  /** BN's toTwos. */
  function ToTwos(v: int, bytes: nat): nat
    requires -v < Pow256(bytes)
  {
    if v < 0 then NotN(-v, bytes) + 1 else v
  }

  /** BN's fromTwos, which tests the highest bit. */
  function FromTwos(v: nat, bytes: nat): int
    requires v < Pow256(bytes)
  {
    if v >= Pow256(bytes) / 2 then -(NotN(v, bytes) + 1) else v
  }

  /** Number of bytes of a magnitude, none for zero. */
  function ByteLength(v: nat): (n: nat)
    ensures v < Pow256(n)
  {
    if v == 0 then 0 else 1 + ByteLength(v / 256)
  }

  /** bigInt.fromString: one byte more than the magnitude needs. */
  function BigIntFromString(v: int): (bs: seq<Byte>)
    ensures |bs| == ByteLength(if v < 0 then -v else v) + 1
  {
    var size := ByteLength(if v < 0 then -v else v) + 1;
    ToLittleEndian(ToTwos(v, size), size)
  }

  /** typeConversion.bigIntToString: BN refuses to test a bit of an empty array. */
  function BigIntToString(bs: seq<Byte>): (r: Result<int>)
    ensures r.Failure? <==> bs == []
  {
    if bs == [] then Failure("assertion failed")
    else Success(FromTwos(FromLittleEndian(bs), |bs|))
  }

  /** The numbers that `bytes` bytes can hold. */
  ghost predicate InRange(v: int, bytes: nat) {
    -(Pow256(bytes) / 2) <= v < Pow256(bytes) / 2
  }

  lemma TwosRoundTrip(v: int, bytes: nat)
    requires bytes > 0 && InRange(v, bytes)
    ensures -v < Pow256(bytes) && ToTwos(v, bytes) < Pow256(bytes)
    ensures FromTwos(ToTwos(v, bytes), bytes) == v
  {
    assert Pow256(bytes) == 256 * Pow256(bytes - 1);
  }

  /** Every integer survives the way into WASM memory and back. */
  lemma BigIntRoundTrip(v: int)
    ensures BigIntToString(BigIntFromString(v)) == Success(v)
  {
    var size := ByteLength(if v < 0 then -v else v) + 1;
    TwosRoundTrip(v, size);
    FromToLittleEndian(ToTwos(v, size), size);
  }

  lemma TwosInRange(v: nat, bytes: nat)
    requires bytes > 0 && v < Pow256(bytes)
    ensures var w := FromTwos(v, bytes);
      InRange(w, bytes) && -w < Pow256(bytes) && ToTwos(w, bytes) == v
  {
    assert Pow256(bytes) == 256 * Pow256(bytes - 1);
  }

  /** An array of n bytes stands for exactly one number of its range, and no other array of that
      length does. */
  lemma BigIntBytesUnique(bs: seq<Byte>)
    requires bs != []
    ensures var v := BigIntToString(bs).value;
      InRange(v, |bs|) && -v < Pow256(|bs|) && ToLittleEndian(ToTwos(v, |bs|), |bs|) == bs
  {
    TwosInRange(FromLittleEndian(bs), |bs|);
    ToFromLittleEndian(bs);
  }

  /** The byte that continues the sign of an array. */
  function SignByte(bs: seq<Byte>): Byte {
    if FromLittleEndian(bs) < Pow256(|bs|) / 2 then 0 else 255
  }

  /** Sign extension does not change the number: a size chosen larger than needed is harmless. */
  lemma BigIntSignExtend(bs: seq<Byte>)
    requires bs != []
    ensures BigIntToString(bs + [SignByte(bs)]) == BigIntToString(bs)
  {
    FromLittleEndianSnoc(bs, SignByte(bs));
    SignExtendTwos(FromLittleEndian(bs), |bs|);
  }

  lemma SignExtendTwos(v: nat, bytes: nat)
    requires bytes > 0 && v < Pow256(bytes)
    ensures var w := if v < Pow256(bytes) / 2 then v else v + 255 * Pow256(bytes);
      w < Pow256(bytes + 1) && FromTwos(w, bytes + 1) == FromTwos(v, bytes)
  {
    assert Pow256(bytes) == 256 * Pow256(bytes - 1);
  }

  // ---- Big-endian strings ----

  /** The bytes of a hex string, most significant first. */
  function ToBigEndian(v: nat, n: nat): (bs: seq<Byte>)
    ensures |bs| == n
    decreases n, v
  {
    if n == 0 then [] else ToBigEndian(v / 256, n - 1) + [v % 256]
  }

  function FromBigEndian(bs: seq<Byte>): (v: nat)
    ensures v < Pow256(|bs|)
  {
    if bs == [] then 0 else 256 * FromBigEndian(bs[..|bs| - 1]) + bs[|bs| - 1]
  }

  lemma {:induction false} FromToBigEndian(v: nat, n: nat)
    requires v < Pow256(n)
    ensures FromBigEndian(ToBigEndian(v, n)) == v
  {
    if n > 0 {
      FromToBigEndian(v / 256, n - 1);
      assert ToBigEndian(v, n)[..n - 1] == ToBigEndian(v / 256, n - 1);
    }
  }
}
