/**
  The decoder undoes the writer: for every type and value, and every path of keys into the value, it
  returns the part of the value that the path names.
*/
module StorageRoundTrip {
  import opened Wrappers
  import opened ByteNumbers
  import opened StorageLabels
  import opened StorageLayout
  import opened StorageDecoder
  import opened Utf8

  // ---- Scalars ----

  lemma InplaceAt(st: Storage, slot: Slot, offset: nat, bs: seq<Byte>)
    requires offset + |bs| <= 32 && BytesAt(st, slot, offset, bs)
    ensures GetInplaceValue(st, slot, offset, |bs|) == bs
  {
    var got := GetInplaceValue(st, slot, offset, |bs|);
    forall j | 0 <= j < |bs|
      ensures got[j] == bs[j]
    {
      assert got[j] == Word(st, slot)[32 - (offset + |bs|) + j];
      assert 31 - (32 - (offset + |bs|) + j) == offset + |bs| - 1 - j;
    }
  }

  // ---- Byte strings ----

  lemma LastByteParity(w: seq<Byte>)
    requires |w| == SlotBytes() && w[|w| - 1] % 2 == 0
    ensures StringLength(w) == w[|w| - 1] / 2
  {
    EvenLastByte(FromBigEndian(w[..|w| - 1]), w[|w| - 1]);
  }

  lemma EvenLastByte(high: nat, last: Byte)
    requires last % 2 == 0
    ensures (256 * high + last) % 2 == 0
  {}

  lemma ShortRoundTrip(st: Storage, slot: Slot, bs: seq<Byte>)
    requires |bs| < 32 && HoldsString(st, slot, bs)
    ensures StringBytes(st, slot) == bs
  {
    LastByteParity(Word(st, slot));
  }

  lemma LongLength(st: Storage, slot: Slot, header: seq<Byte>, n: nat)
    requires |header| == SlotBytes() && BytesAt(st, slot, 0, header) && FromBigEndian(header) == 2 * n + 1
    ensures StringLength(Word(st, slot)) == n
  {
    WordAt(st, slot, header);
    OddLength(header, n);
  }

  lemma WordAt(st: Storage, slot: Slot, bs: seq<Byte>)
    requires |bs| == SlotBytes() && BytesAt(st, slot, 0, bs)
    ensures Word(st, slot) == bs
  {
    InplaceAt(st, slot, 0, bs);
    assert Word(st, slot) == GetInplaceValue(st, slot, 0, |bs|);
  }

  lemma OddLength(w: seq<Byte>, n: nat)
    requires |w| == SlotBytes() && FromBigEndian(w) == 2 * n + 1
    ensures StringLength(w) == n
  {
    OddHalf(FromBigEndian(w), n);
  }

  lemma OddHalf(v: nat, n: nat)
    requires v == 2 * n + 1
    ensures v % 2 != 0 && (v - 1) / 2 == n
  {}

  lemma LongData(st: Storage, slot: Slot, bs: seq<Byte>, n: nat)
    requires |bs| <= 32 * n && forall j | 0 <= j < |bs| :: Get(st, DataCell(slot, j)) == bs[j]
    ensures DataWords(st, slot, n)[..|bs|] == bs
  {
    forall j | 0 <= j < |bs|
      ensures DataWords(st, slot, n)[j] == bs[j]
    {
      DataWordsAt(st, slot, n, j);
    }
  }

  lemma LongRoundTrip(st: Storage, slot: Slot, bs: seq<Byte>, header: seq<Byte>)
    requires |bs| >= 32 && |header| == SlotBytes() && BytesAt(st, slot, 0, header)
        && FromBigEndian(header) == 2 * |bs| + 1
    requires forall j | 0 <= j < |bs| :: Get(st, DataCell(slot, j)) == bs[j]
    ensures StringBytes(st, slot) == bs
  {
    LongLength(st, slot, header, |bs|);
    LongData(st, slot, bs, (|bs| + 31) / 32);
  }

  /** Reading a byte string back returns exactly the bytes written, for every length. */
  lemma StringRoundTrip(st: Storage, slot: Slot, bs: seq<Byte>)
    requires HoldsString(st, slot, bs) && 2 * |bs| + 1 < Pow256(SlotBytes())
    ensures StringBytes(st, slot) == bs
  {
    if |bs| < 32 {
      ShortRoundTrip(st, slot, bs);
    } else {
      var n := 2 * |bs| + 1;
      FromToBigEndian(n, SlotBytes());
      LongRoundTrip(st, slot, bs, ToBigEndian(n, SlotBytes()));
    }
  }

  lemma {:induction false} DataWordsAt(st: Storage, slot: Slot, n: nat, j: nat)
    requires j < 32 * n
    ensures DataWords(st, slot, n)[j] == Get(st, DataCell(slot, j))
  {
    if j < 32 * (n - 1) {
      DataWordsAt(st, slot, n - 1, j);
    } else {
      assert DataWords(st, slot, n)[j] == Word(st, Slot(Data(slot), n - 1))[j - 32 * (n - 1)];
      assert j / 32 == n - 1;
    }
  }

  // ---- Mapping keys ----

  /** The key value that a caller means by a path key. */
  function KeyMeant(key: KeyTy, k: PathKey): Option<Key> {
    match key
    case KBool => Some(KeyFlag(Truthy(k)))
    case KString => if k.TextKey? then Some(KeyBytes(k.text)) else None
    case KInt(signed) =>
      if k.NumKey? then Some(KeyNum(k.n))
      else if !signed && HexGiven(k).Some? then Some(KeyNum(FromBigEndian(HexGiven(k).value)))
      else None
    case _ => if HexGiven(k).Some? then Some(KeyBytes(HexGiven(k).value)) else None
  }

  function HexGiven(k: PathKey): Option<seq<Byte>> {
    if k.TextKey? then ParseHex(k.text) else None
  }

  const LOWER_DIGITS := "0123456789abcdef"
  const UPPER_DIGITS := "0123456789ABCDEF"

  /** The digits of a byte string in hexadecimal, each in either case. */
  ghost predicate Spells(text: seq<Byte>, bs: seq<Byte>) {
    && |text| == 2 * |bs|
    && forall i | 0 <= i < |bs| :: IsDigitOf(text[2 * i], bs[i] / 16) && IsDigitOf(text[2 * i + 1], bs[i] % 16)
  }

  predicate IsDigitOf(c: Byte, n: nat)
    requires n < 16
  {
    c == LOWER_DIGITS[n] as int || c == UPPER_DIGITS[n] as int
  }

  lemma HexValueExact(c: Byte, n: nat)
    requires n < 16
    ensures HexValue(c) == Some(n) <==> IsDigitOf(c, n)
  {
    if n < 10 {
      assert LOWER_DIGITS[n] as int == 48 + n && UPPER_DIGITS[n] as int == 48 + n;
    } else {
      assert LOWER_DIGITS[n] as int == 87 + n && UPPER_DIGITS[n] as int == 55 + n;
    }
  }

  lemma ParseFirst(text: seq<Byte>, b: Byte, rest: seq<Byte>)
    requires |text| >= 2
    ensures ParseDigits(text) == Some([b] + rest)
      <==> HexValue(text[0]) == Some(b / 16) && HexValue(text[1]) == Some(b % 16)
           && ParseDigits(text[2..]) == Some(rest)
  {
    assert ([b] + rest)[0] == b && ([b] + rest)[1..] == rest;
    if ParseDigits(text).Some? {
      var bs := ParseDigits(text[2..]).value;
      var first := 16 * HexValue(text[0]).value + HexValue(text[1]).value;
      assert ([first] + bs)[0] == first && ([first] + bs)[1..] == bs;
    }
  }

  /** The bytes of hexadecimal text are exactly those that it spells. */
  lemma {:induction false} ParseDigitsExact(text: seq<Byte>, bs: seq<Byte>)
    ensures ParseDigits(text) == Some(bs) <==> Spells(text, bs)
    decreases |text|
  {
    if |text| >= 2 && bs != [] {
      assert bs == [bs[0]] + bs[1..];
      ParseFirst(text, bs[0], bs[1..]);
      ParseDigitsExact(text[2..], bs[1..]);
      HexValueExact(text[0], bs[0] / 16);
      HexValueExact(text[1], bs[0] % 16);
      SpellsFirst(text, bs);
    }
  }

  /** A key text is taken exactly if it is "0x" followed by such digits. */
  lemma ParseHexExact(text: seq<Byte>, bs: seq<Byte>)
    ensures ParseHex(text) == Some(bs)
      <==> |text| >= 2 && text[0] == '0' as int && text[1] == 'x' as int && Spells(text[2..], bs)
  {
    if |text| >= 2 {
      ParseDigitsExact(text[2..], bs);
    }
  }

  lemma SpellsFirst(text: seq<Byte>, bs: seq<Byte>)
    requires |text| >= 2 && bs != []
    ensures Spells(text, bs)
      <==> IsDigitOf(text[0], bs[0] / 16) && IsDigitOf(text[1], bs[0] % 16) && Spells(text[2..], bs[1..])
  {
    var rest, tail := text[2..], bs[1..];
    assert forall i | 0 <= i < |tail| && |text| == 2 * |bs| ::
        tail[i] == bs[i + 1] && rest[2 * i] == text[2 * (i + 1)] && rest[2 * i + 1] == text[2 * (i + 1) + 1];
    if Spells(rest, tail) {
      forall i | 1 <= i < |bs|
        ensures IsDigitOf(text[2 * i], bs[i] / 16) && IsDigitOf(text[2 * i + 1], bs[i] % 16)
      {
        assert tail[i - 1] == bs[i];
      }
    }
  }

  /** The path keys for which getMappingSlot follows the rules: numbers that hexlify takes, hex data that
      fits a slot, and for a bytesN key data that fills the slot or consists of zeros, since it gets padded
      on the left instead of the right. */
  ghost predicate Supported(key: KeyTy, k: PathKey) {
    && KeyMeant(key, k).Some? && KeyHasType(key, KeyMeant(key, k).value)
    && (key.KInt? && k.NumKey? ==> k.n < MAX_SAFE)
    && (key.KInt? && k.TextKey? ==> |HexGiven(k).value| <= SlotBytes())
    && (key.KFixed? ==> |HexGiven(k).value| == SlotBytes() || AllZero(HexGiven(k).value))
  }

  ghost predicate AllZero(bs: seq<Byte>) {
    forall i | 0 <= i < |bs| :: bs[i] == 0
  }

  /** Leading zeros do not matter. */
  lemma {:induction false} PadBigEndian(v: nat, n: nat, m: nat)
    requires v < Pow256(n) && n <= m
    ensures Zeros(m - n) + ToBigEndian(v, n) == ToBigEndian(v, m)
  {
    if m > n {
      if n == 0 {
        PadBigEndian(v, 0, m - 1);
        assert Zeros(m) == Zeros(m - 1) + [0];
      } else {
        PadBigEndian(v / 256, n - 1, m - 1);
        assert Zeros(m - n) + ToBigEndian(v, n) == Zeros(m - n) + ToBigEndian(v / 256, n - 1) + [v % 256];
      }
    } else {
      assert Zeros(0) + ToBigEndian(v, n) == ToBigEndian(v, n);
    }
  }

  lemma {:induction false} ToFromBigEndian(bs: seq<Byte>)
    ensures ToBigEndian(FromBigEndian(bs), |bs|) == bs
  {
    if bs != [] {
      ToFromBigEndian(bs[..|bs| - 1]);
      assert bs == bs[..|bs| - 1] + [bs[|bs| - 1]];
    }
  }

  lemma {:induction false} ByteLengthFits(v: nat, n: nat)
    requires v < Pow256(n)
    ensures ByteLength(v) <= n
  {
    if v > 0 {
      ByteLengthFits(v / 256, n - 1);
    }
  }

  lemma ZeroPadded()
    ensures Zeros(SlotBytes() - 1) + [0] == ToBigEndian(0, SlotBytes())
  {
    assert ToBigEndian(0, 1) == [0];
    PadBigEndian(0, 1, SlotBytes());
  }

  lemma NumberPadded(n: nat)
    requires n < Pow256(SlotBytes())
    ensures |NumBytes(n)| <= SlotBytes() && Zeros(SlotBytes() - |NumBytes(n)|) + NumBytes(n)
        == ToBigEndian(n, SlotBytes())
  {
    if n == 0 {
      ZeroPadded();
    } else {
      ByteLengthFits(n, SlotBytes());
      PadBigEndian(n, ByteLength(n), SlotBytes());
    }
  }

  lemma PaddedTo(bs: seq<Byte>, m: nat)
    requires |bs| <= m
    ensures Zeros(m - |bs|) + bs == ToBigEndian(FromBigEndian(bs), m)
  {
    ToFromBigEndian(bs);
    PadBigEndian(FromBigEndian(bs), |bs|, m);
  }

  lemma HexPadded(bs: seq<Byte>)
    requires |bs| <= SlotBytes()
    ensures Zeros(SlotBytes() - |bs|) + bs == ToBigEndian(FromBigEndian(bs), SlotBytes())
  {
    PaddedTo(bs, SlotBytes());
  }

  lemma NumKeyAgrees(signed: bool, n: nat)
    requires n < MAX_SAFE && n < Pow256(SlotBytes())
    ensures DecoderKey(KInt(signed), NumKey(n)) == Success(ToBigEndian(n, SlotBytes()))
  {
    NumberPadded(n);
  }

  lemma HexKeyAgrees(text: seq<Byte>)
    requires ParseHex(text).Some? && |ParseHex(text).value| <= SlotBytes()
    ensures DecoderKey(KInt(false), TextKey(text)) == Success(ToBigEndian(FromBigEndian(ParseHex(text).value),
        SlotBytes()))
  {
    HexPadded(ParseHex(text).value);
  }

  lemma SolidityNumber(signed: bool, n: nat)
    requires KeyHasType(KInt(signed), KeyNum(n))
    ensures SolidityKey(KInt(signed), KeyNum(n)) == ToBigEndian(n, SlotBytes()) && n < Pow256(SlotBytes())
  {}

  lemma IntKeyAgrees(signed: bool, k: PathKey)
    requires Supported(KInt(signed), k)
    ensures DecoderKey(KInt(signed), k) == Success(SolidityKey(KInt(signed), KeyMeant(KInt(signed), k).value))
  {
    if k.NumKey? {
      SolidityNumber(signed, k.n);
      NumKeyAgrees(signed, k.n);
    } else {
      SolidityNumber(false, FromBigEndian(HexGiven(k).value));
      HexKeyAgrees(k.text);
    }
  }

  lemma FixedKeyAgrees(size: nat, k: PathKey)
    requires Supported(KFixed(size), k)
    ensures DecoderKey(KFixed(size), k) == Success(SolidityKey(KFixed(size), KeyMeant(KFixed(size), k).value))
  {
    FixedBytesKeyExact(size, k.text, HexGiven(k).value);
  }

  /** The decoder hashes the bytes that Solidity hashes. */
  lemma KeysAgree(key: KeyTy, k: PathKey)
    requires Supported(key, k)
    ensures DecoderKey(key, k) == Success(SolidityKey(key, KeyMeant(key, k).value))
  {
    match key
    case KBool => FlagKeyAgrees(Truthy(k));
    case KInt(signed) => IntKeyAgrees(signed, k);
    case KFixed(size) => FixedKeyAgrees(size, k);
    case _ =>
  }

  lemma FlagKeyAgrees(b: bool)
    ensures NumBytes(if b then 1 else 0) == [if b then 1 else 0]
  {
    var n := if b then 1 else 0;
    assert n / 256 == 0 && n % 256 == n;
    assert ByteLength(n) == n;
  }

  /** A bytesN key that is shorter than a slot and not all zeros is looked up in the wrong slot. */
  lemma FixedBytesKeyExact(size: nat, text: seq<Byte>, bs: seq<Byte>)
    requires ParseHex(text) == Some(bs) && |bs| == size <= SlotBytes()
    ensures DecoderKey(KFixed(size), TextKey(text)) == Success(SolidityKey(KFixed(size), KeyBytes(bs)))
        <==> size == SlotBytes() || AllZero(bs)
  {
    var pad := SlotBytes() - size;
    if Zeros(pad) + bs == bs + Zeros(pad) && pad > 0 {
      ShiftedZeros(bs, pad, size);
    }
    if size == SlotBytes() || AllZero(bs) {
      assert Zeros(pad) + bs == bs + Zeros(pad);
    }
  }

  /** Bytes that stay the same when moved to the right behind zeros are zeros. */
  lemma {:induction false} ShiftedZeros(bs: seq<Byte>, pad: nat, n: nat)
    requires pad > 0 && n <= |bs| && Zeros(pad) + bs == bs + Zeros(pad)
    ensures forall i | 0 <= i < n :: bs[i] == 0
  {
    if n > 0 {
      ShiftedZeros(bs, pad, n - 1);
      var i := n - 1;
      assert (bs + Zeros(pad))[i] == bs[i];
      assert (Zeros(pad) + bs)[i] == if i < pad then 0 else bs[i - pad];
    }
  }

  // ---- The part of a value that a path names ----

  /** The path leads into the value: indices inside arrays, present and supported mapping keys; and what it
      names is readable: contracts by their names, text by its encoding. */
  ghost predicate Answerable(ty: Ty, v: Val, keys: seq<PathKey>)
    decreases ty, 0
  {
    match ty
    case FixedArray(base, _) => v.Arr? && AnswerableElems(base, v.elems, keys)
    case DynArray(base) => v.Arr? && AnswerableElems(base, v.elems, keys)
    case Struct(members, _) =>
      v.Rec? &&
      (match FindMember(members, keys)
       case Some(i) => members[i].name in v.fields && Answerable(members[i].ty, v.fields[members[i].name], keys[1..])
       case None =>
         forall i | 0 <= i < |members| :: members[i].name in v.fields
             && Answerable(members[i].ty, v.fields[members[i].name], keys))
    case Mapping(key, value) =>
      && v.Table? && keys != [] && Supported(key, keys[0]) && KeyMeant(key, keys[0]).value in v.entries
      && Answerable(value, v.entries[KeyMeant(key, keys[0]).value], keys[1..])
    case Scalar(kind, _) => Readable(kind)
    case Bytes(text) => text ==> v.Text? && WellFormed(v.bytes)
  }

  ghost predicate AnswerableElems(base: Ty, elems: seq<Val>, keys: seq<PathKey>)
    decreases base, 1
  {
    if keys != [] && keys[0].NumKey? then keys[0].n < |elems| && Answerable(base, elems[keys[0].n], keys[1..])
    else forall i | 0 <= i < |elems| :: Answerable(base, elems[i], keys)
  }

  /** Arrays without an index and structs without a member name are read element by element. */
  ghost function Select(ty: Ty, v: Val, keys: seq<PathKey>): Val
    requires Answerable(ty, v, keys)
    decreases ty, 0
  {
    match ty
    case FixedArray(base, _) => SelectArray(base, v.elems, keys)
    case DynArray(base) => SelectArray(base, v.elems, keys)
    case Struct(members, _) =>
      (match FindMember(members, keys)
       case Some(i) => Select(members[i].ty, v.fields[members[i].name], keys[1..])
       case None => Rec(SelectMembers(members, v.fields, |members|, keys)))
    case Mapping(key, value) => Select(value, v.entries[KeyMeant(key, keys[0]).value], keys[1..])
    case _ => v
  }

  ghost function SelectArray(base: Ty, elems: seq<Val>, keys: seq<PathKey>): Val
    requires AnswerableElems(base, elems, keys)
    decreases base, 2
  {
    if keys != [] && keys[0].NumKey? then Select(base, elems[keys[0].n], keys[1..])
    else Arr(SelectElems(base, elems, |elems|, keys))
  }

  ghost function SelectElems(base: Ty, elems: seq<Val>, n: nat, keys: seq<PathKey>): seq<Val>
    requires n <= |elems| && forall i | 0 <= i < n :: Answerable(base, elems[i], keys)
    decreases base, 1, n
  {
    if n == 0 then [] else SelectElems(base, elems, n - 1, keys) + [Select(base, elems[n - 1], keys)]
  }

  ghost function SelectMembers(members: seq<Member>, fields: map<Label, Val>, n: nat,
      keys: seq<PathKey>): map<Label, Val>
    requires n <= |members|
    requires forall i | 0 <= i < n ::
               members[i].name in fields && Answerable(members[i].ty, fields[members[i].name], keys)
    decreases members, 1, n
  {
    if n == 0 then map[]
    else
      var m := members[n - 1];
      SelectMembers(members, fields, n - 1, keys)[m.name := Select(m.ty, fields[m.name], keys)]
  }

  // ---- The decoder reads what is held ----

  lemma ScalarDecodes(st: Storage, slot: Slot, offset: nat, kind: Kind, size: nat, v: Val)
    requires Fits(offset, Scalar(kind, size)) && Holds(st, slot, offset, Scalar(kind, size), v)
    ensures GetValueByType(GetInplaceValue(st, slot, offset, size), TypeLabel(kind, size)) == Success(v)
        <==> Readable(kind)
  {
    InplaceAt(st, slot, offset, ScalarBytes(kind, size, v));
    ScalarRoundTrip(kind, size, v);
  }

  lemma BytesDecode(st: Storage, slot: Slot, text: bool, v: Val)
    requires Holds(st, slot, 0, Bytes(text), v)
    ensures GetValueByType(StringBytes(st, slot), ByteStringLabel(text)) == Success(v) <==> text ==> WellFormed(v.bytes)
  {
    StringRoundTrip(st, slot, v.bytes);
    ByteStringRoundTrip(text, v.bytes);
  }

  /** Wherever a value is held, decoding with a path returns the part that the path names. */
  lemma {:induction false} DecodeHeld(st: Storage, slot: Slot, offset: nat, ty: Ty, v: Val, keys: seq<PathKey>)
    requires ValidTy(ty) && Fits(offset, ty) && Holds(st, slot, offset, ty, v) && Answerable(ty, v, keys)
    ensures Decode(st, slot, offset, ty, keys) == Success(Select(ty, v, keys))
    decreases ty, 0
  {
    match ty
    case Scalar(kind, size) => ScalarDecodes(st, slot, offset, kind, size, v);
    case Bytes(text) => BytesDecode(st, slot, text, v);
    case FixedArray(base, length) => DecodeHeldArray(st, slot, base, v.elems, keys);
    case DynArray(base) =>
      LengthHeld(st, slot, |v.elems|);
      DecodeHeldArray(st, Slot(Data(slot), 0), base, v.elems, keys);
    case Struct(members, slots) => DecodeHeldStruct(st, slot, members, slots, v, keys);
    case Mapping(key, value) =>
      KeysAgree(key, keys[0]);
      var k := KeyMeant(key, keys[0]).value;
      DecodeHeldEntry(st, slot, key, value, k, v.entries[k], keys[1..]);
  }

  lemma {:induction false} DecodeHeldEntry(st: Storage, slot: Slot, key: KeyTy, value: Ty, k: Key, v: Val,
      keys: seq<PathKey>)
    requires ValidTy(value) && EntryHeld(st, slot, key, value, k, v) && Answerable(value, v, keys)
    ensures DecodeEntry(st, slot, value, SolidityKey(key, k), keys) == Success(Select(value, v, keys))
    decreases value, 1
  {
    EntryFits(value);
    DecodeHeld(st, EntryPlace(slot, SolidityKey(key, k)), 0, value, v, keys);
  }

  lemma LengthHeld(st: Storage, slot: Slot, n: nat)
    requires n < Pow256(SlotBytes()) && BytesAt(st, slot, 0, ToBigEndian(n, SlotBytes()))
    ensures GetDynamicArraySize(st, slot, 0) == n
  {
    InplaceAt(st, slot, 0, ToBigEndian(n, SlotBytes()));
    FromToBigEndian(n, SlotBytes());
  }

  lemma {:induction false} DecodeHeldElem(st: Storage, slot: Slot, base: Ty, i: nat, v: Val, keys: seq<PathKey>)
    requires ValidTy(base) && ElementHeld(st, slot, base, i, v) && Answerable(base, v, keys)
    ensures DecodeElem(st, slot, base, i, keys) == Success(Select(base, v, keys))
    decreases base, 1, 0
  {
    ElementFits(base, i);
    DecodeHeld(st, ElementPlace(slot, SizeOf(base), i), ElementOffset(SizeOf(base), i), base, v, keys);
  }

  lemma {:induction false} DecodeHeldArray(st: Storage, slot: Slot, base: Ty, elems: seq<Val>, keys: seq<PathKey>)
    requires ValidTy(base) && HoldsElems(st, slot, base, elems) && AnswerableElems(base, elems, keys)
    ensures DecodeArray(st, slot, base, |elems|, keys) == Success(SelectArray(base, elems, keys))
    decreases base, 3
  {
    if keys != [] && keys[0].NumKey? {
      DecodeHeldElem(st, slot, base, keys[0].n, elems[keys[0].n], keys[1..]);
    } else {
      DecodeHeldElems(st, slot, base, elems, |elems|, keys);
    }
  }

  lemma {:induction false} HeldElem(st: Storage, slot: Slot, base: Ty, elems: seq<Val>, n: nat, keys: seq<PathKey>)
    requires ValidTy(base) && HoldsElems(st, slot, base, elems) && 0 < n <= |elems|
        && Answerable(base, elems[n - 1], keys)
    ensures DecodeElem(st, slot, base, n - 1, keys) == Success(Select(base, elems[n - 1], keys))
    decreases base, 1, 1
  {
    DecodeHeldElem(st, slot, base, n - 1, elems[n - 1], keys);
  }

  lemma NextElem(st: Storage, slot: Slot, base: Ty, elems: seq<Val>, n: nat, keys: seq<PathKey>)
    requires ValidTy(base) && 0 < n <= |elems| && forall i | 0 <= i < n :: Answerable(base, elems[i], keys)
    requires DecodeElems(st, slot, base, n - 1, keys) == Success(SelectElems(base, elems, n - 1, keys))
    requires DecodeElem(st, slot, base, n - 1, keys) == Success(Select(base, elems[n - 1], keys))
    ensures DecodeElems(st, slot, base, n, keys) == Success(SelectElems(base, elems, n, keys))
  {}

  lemma {:induction false} DecodeHeldElems(st: Storage, slot: Slot, base: Ty, elems: seq<Val>, n: nat,
      keys: seq<PathKey>)
    requires ValidTy(base) && HoldsElems(st, slot, base, elems) && n <= |elems|
    requires forall i | 0 <= i < |elems| :: Answerable(base, elems[i], keys)
    ensures DecodeElems(st, slot, base, n, keys) == Success(SelectElems(base, elems, n, keys))
    decreases base, 2, n
  {
    if n > 0 {
      DecodeHeldElems(st, slot, base, elems, n - 1, keys);
      HeldElem(st, slot, base, elems, n, keys);
      NextElem(st, slot, base, elems, n, keys);
    }
  }

  lemma {:induction false} DecodeHeldMember(st: Storage, slot: Slot, members: seq<Member>, slots: nat, v: Val, i: nat,
      keys: seq<PathKey>)
    requires ValidTy(Struct(members, slots)) && Holds(st, slot, 0, Struct(members, slots), v) && i < |members|
    requires members[i].name in v.fields && Answerable(members[i].ty, v.fields[members[i].name], keys)
    ensures DecodeMember(st, slot, members, slots, i, keys)
        == Success(Select(members[i].ty, v.fields[members[i].name], keys))
    decreases members, 1, 0
  {
    assert MemberHeld(st, slot, members[i], v.fields[members[i].name]);
    DecodeHeld(st, MemberPlace(slot, members[i]), members[i].offset, members[i].ty, v.fields[members[i].name], keys);
  }

  lemma {:induction false} DecodeHeldStruct(st: Storage, slot: Slot, members: seq<Member>, slots: nat, v: Val,
      keys: seq<PathKey>)
    requires var ty := Struct(members, slots);
      ValidTy(ty) && Holds(st, slot, 0, ty, v) && Answerable(ty, v, keys)
    ensures var ty := Struct(members, slots);
      Decode(st, slot, 0, ty, keys) == Success(Select(ty, v, keys))
    decreases members, 3
  {
    match FindMember(members, keys)
    case Some(i) => DecodeHeldMember(st, slot, members, slots, v, i, keys[1..]);
    case None => DecodeHeldMembers(st, slot, members, slots, v, |members|, keys);
  }

  lemma NextMember(st: Storage, slot: Slot, members: seq<Member>, slots: nat, fields: map<Label, Val>, n: nat,
      keys: seq<PathKey>)
    requires ValidTy(Struct(members, slots)) && 0 < n <= |members|
    requires forall i | 0 <= i < |members| ::
               members[i].name in fields && Answerable(members[i].ty, fields[members[i].name], keys)
    requires DecodeMembers(st, slot, members, slots, n - 1, keys)
        == Success(SelectMembers(members, fields, n - 1, keys))
    requires DecodeMember(st, slot, members, slots, n - 1, keys)
        == Success(Select(members[n - 1].ty, fields[members[n - 1].name], keys))
    ensures DecodeMembers(st, slot, members, slots, n, keys) == Success(SelectMembers(members, fields, n, keys))
  {}

  lemma {:induction false} HeldMember(st: Storage, slot: Slot, members: seq<Member>, slots: nat, v: Val, n: nat,
      keys: seq<PathKey>)
    requires ValidTy(Struct(members, slots)) && Holds(st, slot, 0, Struct(members, slots), v) && 0 < n <= |members|
    requires members[n - 1].name in v.fields && Answerable(members[n - 1].ty, v.fields[members[n - 1].name], keys)
    ensures DecodeMember(st, slot, members, slots, n - 1, keys)
        == Success(Select(members[n - 1].ty, v.fields[members[n - 1].name], keys))
    decreases members, 1, 1
  {
    DecodeHeldMember(st, slot, members, slots, v, n - 1, keys);
  }

  lemma {:induction false} DecodeHeldMembers(st: Storage, slot: Slot, members: seq<Member>, slots: nat, v: Val, n: nat,
      keys: seq<PathKey>)
    requires ValidTy(Struct(members, slots)) && Holds(st, slot, 0, Struct(members, slots), v) && n <= |members|
    requires forall i | 0 <= i < |members| ::
               members[i].name in v.fields && Answerable(members[i].ty, v.fields[members[i].name], keys)
    ensures DecodeMembers(st, slot, members, slots, n, keys) == Success(SelectMembers(members, v.fields, n, keys))
    decreases members, 2, n
  {
    if n > 0 {
      DecodeHeldMembers(st, slot, members, slots, v, n - 1, keys);
      HeldMember(st, slot, members, slots, v, n, keys);
      NextMember(st, slot, members, slots, v.fields, n, keys);
    }
  }

  /** The decoder undoes the writer, whatever the storage held before. */
  lemma DecodeUndoesWrite(st: Storage, slot: Slot, offset: nat, ty: Ty, v: Val, keys: seq<PathKey>)
    requires ValidTy(ty) && Fits(offset, ty) && HasType(ty, v) && Answerable(ty, v, keys)
    ensures Decode(Write(st, slot, offset, ty, v), slot, offset, ty, keys) == Success(Select(ty, v, keys))
  {
    WrittenHolds(st, slot, offset, ty, v);
    DecodeHeld(Write(st, slot, offset, ty, v), slot, offset, ty, v, keys);
  }

  /** The elements of an array, each of them read whole. */
  lemma {:induction false} SelectedElems(base: Ty, elems: seq<Val>, n: nat)
    requires n <= |elems| && forall i | 0 <= i < |elems| :: WholePart(base, elems[i])
    ensures forall i | 0 <= i < n :: Answerable(base, elems[i], [])
    ensures SelectElems(base, elems, n, []) == elems[..n]
    decreases n
  {
    if n > 0 {
      SelectedElems(base, elems, n - 1);
      assert WholePart(base, elems[n - 1]);
    }
  }

  lemma {:induction false} WholeElems(base: Ty, elems: seq<Val>)
    requires AnswerableElems(base, elems, []) && forall i | 0 <= i < |elems| :: HasType(base, elems[i])
    ensures SelectElems(base, elems, |elems|, []) == elems
    decreases base, 1
  {
    forall i | 0 <= i < |elems|
      ensures WholePart(base, elems[i])
    {
      WholeValue(base, elems[i]);
    }
    SelectedElems(base, elems, |elems|);
    assert elems[..|elems|] == elems;
  }

  /** The fields of a struct, each of them read whole. */
  lemma {:induction false} SelectedMembers(members: seq<Member>, fields: map<Label, Val>, n: nat)
    requires n <= |members|
    requires forall i | 0 <= i < |members| ::
               members[i].name in fields && WholePart(members[i].ty, fields[members[i].name])
    ensures forall i | 0 <= i < n :: Answerable(members[i].ty, fields[members[i].name], [])
    ensures var r := SelectMembers(members, fields, n, []);
      && (forall f | f in r :: f in fields && r[f] == fields[f])
      && (forall i | 0 <= i < n :: members[i].name in r)
  {
    if n > 0 {
      SelectedMembers(members, fields, n - 1);
    }
  }

  ghost predicate WholePart(ty: Ty, v: Val) {
    Answerable(ty, v, []) && Select(ty, v, []) == v
  }

  /** Without keys the part named is the value itself. */
  lemma {:induction false} WholeValue(ty: Ty, v: Val)
    requires HasType(ty, v) && Answerable(ty, v, [])
    ensures Select(ty, v, []) == v
    decreases ty, 0
  {
    match ty
    case FixedArray(base, _) =>
      WholeElems(base, v.elems);
    case DynArray(base) => WholeElems(base, v.elems);
    case Struct(members, _) =>
      forall i | 0 <= i < |members|
        ensures WholePart(members[i].ty, v.fields[members[i].name])
      {
        WholeValue(members[i].ty, v.fields[members[i].name]);
      }
      SelectedMembers(members, v.fields, |members|);
      assert SelectMembers(members, v.fields, |members|, []) == v.fields;
    case _ =>
  }

  // ---- Nothing else is read back whole ----

  /** The first `n` of the elements. */
  ghost predicate FirstDecoded(st: Storage, slot: Slot, base: Ty, elems: seq<Val>, n: nat)
    requires ValidTy(base)
  {
    n <= |elems| && DecodeElems(st, slot, base, n, []) == Success(elems[..n])
  }

  lemma LastDecoded(st: Storage, slot: Slot, base: Ty, elems: seq<Val>, n: nat)
    requires ValidTy(base) && n > 0 && FirstDecoded(st, slot, base, elems, n)
    ensures FirstDecoded(st, slot, base, elems, n - 1)
    ensures DecodeElem(st, slot, base, n - 1, []) == Success(elems[n - 1])
  {
    var before, last := DecodeElems(st, slot, base, n - 1, []), DecodeElem(st, slot, base, n - 1, []);
    SnocParts(before.value, last.value, elems, n);
  }

  lemma SnocParts(before: seq<Val>, last: Val, elems: seq<Val>, n: nat)
    requires 0 < n <= |elems| && elems[..n] == before + [last]
    ensures before == elems[..n - 1] && last == elems[n - 1]
  {
    assert |before| == n - 1 && last == elems[..n][n - 1];
    assert elems[..n][..n - 1] == before;
  }

  lemma {:induction false} DecodedElem(st: Storage, slot: Slot, base: Ty, elems: seq<Val>, n: nat, i: nat)
    requires ValidTy(base) && i < n && FirstDecoded(st, slot, base, elems, n)
    ensures DecodeElem(st, slot, base, i, []) == Success(elems[i])
  {
    LastDecoded(st, slot, base, elems, n);
    if i < n - 1 {
      DecodedElem(st, slot, base, elems, n - 1, i);
    }
  }

  ghost predicate MemberDecoded(st: Storage, slot: Slot, members: seq<Member>, slots: nat, fields: map<Label, Val>,
      i: nat)
    requires ValidTy(Struct(members, slots)) && i < |members|
  {
    members[i].name in fields && DecodeMember(st, slot, members, slots, i, []) == Success(fields[members[i].name])
  }

  lemma NamesDiffer(members: seq<Member>, slots: nat, i: nat, j: nat)
    requires ValidTy(Struct(members, slots)) && i < j < |members|
    ensures members[i].name != members[j].name
  {}

  lemma {:induction false} DecodedMembers(st: Storage, slot: Slot, members: seq<Member>, slots: nat, fields: map<Label,
      Val>, n: nat, i: nat)
    requires ValidTy(Struct(members, slots)) && i < n <= |members|
    requires DecodeMembers(st, slot, members, slots, n, []) == Success(fields)
    ensures MemberDecoded(st, slot, members, slots, fields, i)
  {
    if i < n - 1 {
      DecodedMembers(st, slot, members, slots, DecodeMembers(st, slot, members, slots, n - 1, []).value, n - 1, i);
      NamesDiffer(members, slots, i, n - 1);
    }
  }

  /** Without keys a mapping is never returned as a whole. */
  lemma {:induction false} NeverTable(st: Storage, slot: Slot, offset: nat, ty: Ty)
    requires ValidTy(ty) && Fits(offset, ty)
    ensures NoTable(Decode(st, slot, offset, ty, []))
    decreases ty, 0
  {
    match ty
    case Scalar(kind, size) => ReadNoTable(GetInplaceValue(st, slot, offset, size), TypeLabel(kind, size));
    case Bytes(text) => ReadNoTable(StringBytes(st, slot), ByteStringLabel(text));
    case Mapping(key, value) => EntryNoTable(st, slot, key, value);
    case Struct(members, _) => assert FindMember(members, []).None?;
    case _ =>
  }

  predicate NoTable(r: Result<Val>) {
    r.Success? ==> !r.value.Table?
  }

  lemma ReadNoTable(bs: seq<Byte>, typeLabel: string)
    ensures NoTable(GetValueByType(bs, typeLabel))
  {}

  lemma {:induction false} EntryNoTable(st: Storage, slot: Slot, key: KeyTy, value: Ty)
    requires ValidTy(value)
    ensures NoTable(DecodeMapping(st, slot, key, value, []))
    decreases value, 1
  {
    if key.KBool? {
      EntryFits(value);
      NeverTable(st, EntryPlace(slot, Zeros(32)), 0, value);
    }
  }

  lemma {:induction false} OnlyElems(st: Storage, slot: Slot, base: Ty, elems: seq<Val>)
    requires ValidTy(base) && HoldsElems(st, slot, base, elems)
    requires DecodeElems(st, slot, base, |elems|, []) == Success(elems)
    ensures AnswerableElems(base, elems, [])
    decreases base, 1
  {
    forall i | 0 <= i < |elems|
      ensures Answerable(base, elems[i], [])
    {
      assert elems[..|elems|] == elems;
      DecodedElem(st, slot, base, elems, |elems|, i);
      assert ElementHeld(st, slot, base, i, elems[i]);
      ElementFits(base, i);
      OnlyAnswerable(st, ElementPlace(slot, SizeOf(base), i), ElementOffset(SizeOf(base), i), base, elems[i]);
    }
  }

  lemma {:induction false} OnlyMembers(st: Storage, slot: Slot, members: seq<Member>, slots: nat, v: Val)
    requires ValidTy(Struct(members, slots)) && Holds(st, slot, 0, Struct(members, slots), v)
    requires Decode(st, slot, 0, Struct(members, slots), []) == Success(v)
    ensures Answerable(Struct(members, slots), v, [])
    decreases members, 1
  {
    forall i | 0 <= i < |members|
      ensures Answerable(members[i].ty, v.fields[members[i].name], [])
    {
      var m := members[i];
      DecodedMembers(st, slot, members, slots, v.fields, |members|, i);
      assert MemberHeld(st, slot, m, v.fields[m.name]);
      OnlyAnswerable(st, MemberPlace(slot, m), m.offset, m.ty, v.fields[m.name]);
    }
  }

  lemma {:induction false} OnlyAnswerable(st: Storage, slot: Slot, offset: nat, ty: Ty, v: Val)
    requires ValidTy(ty) && Fits(offset, ty) && Holds(st, slot, offset, ty, v)
    requires Decode(st, slot, offset, ty, []) == Success(v)
    ensures Answerable(ty, v, [])
    decreases ty, 0
  {
    match ty
    case Scalar(kind, size) => ScalarDecodes(st, slot, offset, kind, size, v);
    case Bytes(text) => BytesDecode(st, slot, text, v);
    case FixedArray(base, _) => OnlyElems(st, slot, base, v.elems);
    case DynArray(base) =>
      LengthHeld(st, slot, |v.elems|);
      OnlyElems(st, Slot(Data(slot), 0), base, v.elems);
    case Struct(members, slots) => OnlyMembers(st, slot, members, slots, v);
    case Mapping(_, _) => NeverTable(st, slot, offset, ty);
  }

  /** A variable is read back exactly as it was written if and only if it can be read without keys: it has
      no mapping in it, its contracts have readable names and its texts are well-formed. */
  lemma WholeRoundTrip(st: Storage, slot: Slot, offset: nat, ty: Ty, v: Val)
    requires ValidTy(ty) && Fits(offset, ty) && HasType(ty, v)
    ensures Decode(Write(st, slot, offset, ty, v), slot, offset, ty, []) == Success(v) <==> Answerable(ty, v, [])
  {
    WrittenHolds(st, slot, offset, ty, v);
    if Answerable(ty, v, []) {
      WholeValue(ty, v);
      DecodeUndoesWrite(st, slot, offset, ty, v, []);
    } else if Decode(Write(st, slot, offset, ty, v), slot, offset, ty, []) == Success(v) {
      OnlyAnswerable(Write(st, slot, offset, ty, v), slot, offset, ty, v);
    }
  }

  // ---- Where things are read ----

  /** The bytes of a slot from `offset` up, highest-order first. */
  function SlotPart(st: Storage, slot: Slot, offset: nat, size: nat): (bs: seq<Byte>)
    requires offset + size <= 32
    ensures |bs| == size
  {
    seq(size, j requires 0 <= j < size => Get(st, Cell(slot, offset + size - 1 - j)))
  }

  lemma InplacePart(st: Storage, slot: Slot, offset: nat, size: nat)
    requires offset + size <= 32
    ensures GetInplaceValue(st, slot, offset, size) == SlotPart(st, slot, offset, size)
  {
    InplaceAt(st, slot, offset, SlotPart(st, slot, offset, size));
  }

  lemma ElementRead(st: Storage, slot: Slot, base: Ty, n: nat, i: nat, keys: seq<PathKey>)
    requires ValidTy(base)
    ensures Fits(ElementOffset(SizeOf(base), i), base)
    ensures DecodeArray(st, slot, base, n, [NumKey(i)] + keys)
         == Decode(st, ElementPlace(slot, SizeOf(base), i), ElementOffset(SizeOf(base), i), base, keys)
  {
    ElementFits(base, i);
    assert ([NumKey(i)] + keys)[1..] == keys;
  }

  lemma ScalarRead(st: Storage, slot: Slot, offset: nat, kind: Kind, size: nat)
    requires 1 <= size && offset + size <= 32
    ensures Decode(st, slot, offset, Scalar(kind, size), [])
         == GetValueByType(SlotPart(st, slot, offset, size), TypeLabel(kind, size))
  {
    InplacePart(st, slot, offset, size);
  }

  lemma SharedRead(st: Storage, slot: Slot, kind: Kind, size: nat, n: nat, i: nat)
    requires 1 <= size && ElementOffset(size, i) + size <= 32
    ensures DecodeArray(st, slot, Scalar(kind, size), n, [NumKey(i)])
         == GetValueByType(SlotPart(st, ElementPlace(slot, size, i), ElementOffset(size, i), size),
                           TypeLabel(kind, size))
  {
    ElementRead(st, slot, Scalar(kind, size), n, i, []);
    assert [NumKey(i)] + [] == [NumKey(i)];
    ScalarRead(st, ElementPlace(slot, size, i), ElementOffset(size, i), kind, size);
  }

  lemma PackedRead(st: Storage, slot: Slot, kind: Kind, size: nat, n: nat, per: nat, j: nat, k: nat)
    requires 1 <= size <= 32 && per == 32 / size && k < per
    ensures k * size + size <= 32 && j * per + k >= 0
    ensures DecodeArray(st, slot, Scalar(kind, size), n, [NumKey(j * per + k)])
         == GetValueByType(SlotPart(st, Slot(slot.region, slot.index + j), k * size, size), TypeLabel(kind, size))
  {
    ElementIs(size, per, j, k);
    SharedRead(st, slot, kind, size, n, j * per + k);
    assert ElementPlace(slot, size, j * per + k) == Slot(slot.region, slot.index + j);
  }

  /** With `per` elements to a slot, as many as fit, element `k` of slot `j` of a packed array is read from the
      bytes after the `k` elements before it in that slot. */
  lemma PackedElementRead(st: Storage, slot: Slot, kind: Kind, size: nat, length: nat, per: nat, j: nat, k: nat)
    requires 1 <= size <= 32 && length > 0 && per == 32 / size && k < per
    ensures k * size + size <= 32 && j * per + k >= 0
    ensures Decode(st, slot, 0, FixedArray(Scalar(kind, size), length), [NumKey(j * per + k)])
         == GetValueByType(SlotPart(st, Slot(slot.region, slot.index + j), k * size, size), TypeLabel(kind, size))
  {
    PackedRead(st, slot, kind, size, length, per, j, k);
  }

  /** The same in a dynamic array, in the area that hangs from its slot. */
  lemma PackedDynElementRead(st: Storage, slot: Slot, kind: Kind, size: nat, per: nat, j: nat, k: nat)
    requires 1 <= size <= 32 && per == 32 / size && k < per
    ensures k * size + size <= 32 && j * per + k >= 0
    ensures Decode(st, slot, 0, DynArray(Scalar(kind, size)), [NumKey(j * per + k)])
         == GetValueByType(SlotPart(st, Slot(Data(slot), j), k * size, size), TypeLabel(kind, size))
  {
    PackedRead(st, Slot(Data(slot), 0), kind, size, GetDynamicArraySize(st, slot, 0), per, j, k);
  }

  /** Arrays that take whole slots for each element, such as those of large structs: element `i` starts `i`
      times as many slots after the first. */
  lemma LargeElementRead(st: Storage, slot: Slot, base: Ty, length: nat, i: nat, keys: seq<PathKey>)
    requires ValidTy(base) && length > 0 && SizeOf(base) > 32
    ensures Fits(0, base)
    ensures var n := (SizeOf(base) + 31) / 32;
      && Decode(st, slot, 0, FixedArray(base, length), [NumKey(i)] + keys)
         == Decode(st, Slot(slot.region, slot.index + n * i), 0, base, keys)
      && Decode(st, slot, 0, DynArray(base), [NumKey(i)] + keys) == Decode(st, Slot(Data(slot), n * i), 0, base, keys)
  {
    ElementRead(st, slot, base, length, i, keys);
    ElementRead(st, Slot(Data(slot), 0), base, GetDynamicArraySize(st, slot, 0), i, keys);
  }

  /** The length of a dynamic array is the number in its slot. */
  lemma DynLengthRead(st: Storage, slot: Slot, base: Ty)
    requires ValidTy(base)
    ensures Decode(st, slot, 0, DynArray(base), [])
         == DecodeArray(st, Slot(Data(slot), 0), base, FromBigEndian(SlotPart(st, slot, 0, 32)), [])
  {
    InplacePart(st, slot, 0, 32);
  }

  lemma WordPart(st: Storage, slot: Slot)
    ensures Word(st, slot) == SlotPart(st, slot, 0, 32)
  {}

  lemma LengthRead(w: seq<Byte>, v: nat)
    requires |w| == 32 && v == FromBigEndian(w)
    ensures StringLength(w) == if v % 2 == 1 then (v - 1) / 2 else v % 256 / 2
  {
    assert v == 256 * FromBigEndian(w[..31]) + w[31];
  }

  lemma ByteRead(st: Storage, slot: Slot, j: nat)
    requires j < |StringBytes(st, slot)|
    ensures |StringBytes(st, slot)| == StringLength(Word(st, slot))
    ensures StringBytes(st, slot)[j]
         == if |StringBytes(st, slot)| < 32 then Get(st, Cell(slot, 31 - j))
            else Get(st, Cell(Slot(Data(slot), j / 32), 31 - j % 32))
  {
    var length := StringLength(Word(st, slot));
    if length >= 32 {
      DataWordsAt(st, slot, (length + 31) / 32, j);
    }
  }

  /** The length of a byte string is half the number in its slot if that is odd, and half the lowest byte
      otherwise. Less than 32 bytes are read from the high end of the slot, more from the slots of the area
      that hangs from it, each from its high end. */
  lemma StringBytesRead(st: Storage, slot: Slot, j: nat)
    ensures var header, bs := FromBigEndian(SlotPart(st, slot, 0, 32)), StringBytes(st, slot);
      && |bs| == (if header % 2 == 1 then (header - 1) / 2 else header % 256 / 2)
      && (j < |bs| < 32 ==> bs[j] == Get(st, Cell(slot, 31 - j)))
      && (j < |bs| && |bs| >= 32 ==> bs[j] == Get(st, Cell(Slot(Data(slot), j / 32), 31 - j % 32)))
  {
    WordPart(st, slot);
    LengthRead(Word(st, slot), FromBigEndian(Word(st, slot)));
    if j < |StringBytes(st, slot)| {
      ByteRead(st, slot, j);
    }
  }

  /** The entry of a mapping is read from the first slot of its own area. */
  lemma EntryRead(st: Storage, slot: Slot, key: KeyTy, value: Ty, k: PathKey, keys: seq<PathKey>)
    requires ValidTy(value) && DecoderKey(key, k).Success?
    ensures Fits(0, value)
    ensures Decode(st, slot, 0, Mapping(key, value), [k] + keys)
         == Decode(st, Slot(Entry(DecoderKey(key, k).value, slot), 0), 0, value, keys)
  {
    EntryFits(value);
    KeyTaken(st, slot, key, value, k, keys);
  }

  lemma KeyTaken(st: Storage, slot: Slot, key: KeyTy, value: Ty, k: PathKey, keys: seq<PathKey>)
    requires ValidTy(value) && DecoderKey(key, k).Success?
    ensures DecodeMapping(st, slot, key, value, [k] + keys)
         == DecodeEntry(st, slot, value, DecoderKey(key, k).value, keys)
  {
    assert ([k] + keys)[1..] == keys;
  }

  /** A member of a struct is read from the place that the layout gives it. */
  lemma MemberRead(st: Storage, slot: Slot, members: seq<Member>, slots: nat, i: nat, keys: seq<PathKey>)
    requires ValidTy(Struct(members, slots)) && i < |members|
    ensures var m := members[i];
      Decode(st, slot, 0, Struct(members, slots), [TextKey(m.name)] + keys)
      == Decode(st, Slot(slot.region, slot.index + m.slot), m.offset, m.ty, keys)
  {
    var path := [TextKey(members[i].name)] + keys;
    assert path[1..] == keys;
    FoundByName(members, slots, i, path);
    ByMember(st, slot, members, slots, i, path);
    MemberAt(st, slot, members, slots, i, keys, members[i], Slot(slot.region, slot.index + members[i].slot));
  }

  lemma ByMember(st: Storage, slot: Slot, members: seq<Member>, slots: nat, i: nat, keys: seq<PathKey>)
    requires ValidTy(Struct(members, slots)) && i < |members| && keys != [] && FindMember(members, keys) == Some(i)
    ensures Decode(st, slot, 0, Struct(members, slots), keys) == DecodeMember(st, slot, members, slots, i, keys[1..])
  {}

  lemma MemberAt(st: Storage, slot: Slot, members: seq<Member>, slots: nat, i: nat, keys: seq<PathKey>, m: Member,
      place: Slot)
    requires ValidTy(Struct(members, slots)) && i < |members| && m == members[i] && place == MemberPlace(slot, m)
    ensures ValidTy(m.ty) && Fits(m.offset, m.ty)
    ensures DecodeMember(st, slot, members, slots, i, keys) == Decode(st, place, m.offset, m.ty, keys)
  {}

  lemma {:induction false} FoundByName(members: seq<Member>, slots: nat, i: nat, keys: seq<PathKey>)
    requires Placed(members, slots) && i < |members| && keys != [] && keys[0] == TextKey(members[i].name)
    ensures FindMember(members, keys) == Some(i)
  {
    var found := FindMember(members, keys);
    assert found.Some? && members[found.value].name == members[i].name;
  }

  lemma SafeNumber(n: nat)
    requires n < MAX_SAFE
    ensures |NumBytes(n)| <= 7
  {
    NextPower(0);
    NextPower(1);
    NextPower(2);
    NextPower(3);
    NextPower(4);
    NextPower(5);
    NextPower(6);
    ByteLengthFits(n, 7);
  }

  lemma NextPower(n: nat)
    ensures Pow256(n + 1) == 256 * Pow256(n) && Pow256(0) == 1
  {}

  /** The keys that a mapping refuses: a flag where the key is none, a number from 2^53 - 1 on, and text that is
      not hexadecimal data, or for a value type more than 32 bytes of it. */
  lemma KeyRefusedExact(key: KeyTy, k: PathKey)
    ensures DecoderKey(key, k).Failure?
      <==> !key.KBool? &&
           match k
           case BoolKey(_) => true
           case NumKey(n) => n >= 0x1F_FFFF_FFFF_FFFF
           case TextKey(text) =>
             !key.KString? && (ParseHex(text).None? || (!key.KBytes? && |ParseHex(text).value| > 32))
  {
    if key.KBool? {
      FlagKeyAgrees(Truthy(k));
    } else if k.NumKey? && k.n < MAX_SAFE {
      SafeNumber(k.n);
    }
  }

  /** Without a key a mapping with boolean keys answers for false. */
  lemma NoKeyIsFalse(st: Storage, slot: Slot, value: Ty)
    requires ValidTy(value)
    ensures Decode(st, slot, 0, Mapping(KBool, value), [])
         == Decode(st, slot, 0, Mapping(KBool, value), [BoolKey(false)])
  {
    FlagKeyAgrees(false);
    assert [BoolKey(false)][1..] == [];
    assert Zeros(31) + [0] == Zeros(32);
  }

  /** For a boolean key, zero, the empty string and false stand for false, and all else for true. */
  lemma FlagMeant(k: PathKey)
    ensures DecoderKey(KBool, k)
         == Success(Zeros(31) + [if k in [NumKey(0), BoolKey(false), TextKey([])] then 0 else 1])
  {
    FlagKeyAgrees(Truthy(k));
  }
}
