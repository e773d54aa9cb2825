/**
  The typed decoder over storage slots (packages/solidity-mapper/src/storage.ts): `Decode` says what
  getDecodedValue returns, the methods at the end compute it with the loops of the source.
  It undoes every writer that follows the layout rules.
*/
module StorageDecoder {
  import opened Wrappers
  import opened ByteNumbers
  import opened StorageLabels
  import opened StorageLayout

  /** One of the keys passed after the variable name: a number, a boolean, or a string, given by its
      UTF-8 bytes. */
  datatype PathKey = NumKey(n: nat) | BoolKey(b: bool) | TextKey(text: seq<Byte>)

  // ---- Slots ----

  /** What getStorageAt returns, highest-order byte first. */
  function Word(st: Storage, slot: Slot): (w: seq<Byte>)
    ensures |w| == 32
  {
    seq(32, i requires 0 <= i < 32 => Get(st, Cell(slot, 31 - i)))
  }

  function GetInplaceValue(st: Storage, slot: Slot, offset: nat, numberOfBytes: nat): (bs: seq<Byte>)
    requires offset + numberOfBytes <= 32
    ensures |bs| == numberOfBytes
  {
    Word(st, slot)[32 - (offset + numberOfBytes)..32 - offset]
  }

  function GetDynamicArraySize(st: Storage, slot: Slot, offset: nat): nat
    requires offset == 0
  {
    FromBigEndian(GetInplaceValue(st, slot, offset, 32))
  }

  /** Length of a byte string from its slot: by the lowest bit, from the whole word or from its last byte. */
  function StringLength(w: seq<Byte>): nat
    requires |w| == 32
  {
    if FromBigEndian(w) % 2 != 0 then (FromBigEndian(w) - 1) / 2 else w[31] / 2
  }

  /** The first `n` words of the area that hangs from a slot. */
  function DataWords(st: Storage, slot: Slot, n: nat): (bs: seq<Byte>)
    ensures |bs| == 32 * n
  {
    if n == 0 then [] else DataWords(st, slot, n - 1) + Word(st, Slot(Data(slot), n - 1))
  }

  function StringBytes(st: Storage, slot: Slot): seq<Byte> {
    var length := StringLength(Word(st, slot));
    if length < 32 then Word(st, slot)[..length] else DataWords(st, slot, (length + 31) / 32)[..length]
  }

  // ---- Mapping keys ----

  predicate Truthy(k: PathKey) {
    match k
    case NumKey(n) => n != 0
    case BoolKey(b) => b
    case TextKey(text) => text != []
  }

  /** The value of a hexadecimal digit in either case. */
  function HexValue(c: Byte): (v: Option<nat>)
    ensures v.Some? ==> v.value < 16
  {
    if 48 <= c <= 57 then Some(c - 48)
    else if 97 <= c <= 102 then Some(c - 87)
    else if 65 <= c <= 70 then Some(c - 55)
    else None
  }

  function ParseDigits(text: seq<Byte>): Option<seq<Byte>> {
    if text == [] then Some([])
    else if |text| == 1 || HexValue(text[0]).None? || HexValue(text[1]).None? then None
    else
      match ParseDigits(text[2..])
      case None => None
      case Some(bs) => Some([16 * HexValue(text[0]).value + HexValue(text[1]).value] + bs)
  }

  /** The bytes of a text that starts with "0x" and goes on with pairs of digits. */
  function ParseHex(text: seq<Byte>): Option<seq<Byte>> {
    if [48, 120] <= text then ParseDigits(text[2..]) else None
  }

  /** hexlify refuses numbers from here on: 2^53 - 1. */
  const MAX_SAFE := 0x1F_FFFF_FFFF_FFFF

  function NumBytes(n: nat): seq<Byte> {
    if n == 0 then [0] else ToBigEndian(n, ByteLength(n))
  }

  /** The first argument of the hash in getMappingSlot. */
  function DecoderKey(key: KeyTy, k: PathKey): Result<seq<Byte>> {
    if key.KBool? then PadKey(key, NumBytes(if Truthy(k) then 1 else 0))
    else
      match k
      case BoolKey(_) => Failure("Invalid key.")
      case NumKey(n) => if n < MAX_SAFE then PadKey(key, NumBytes(n)) else Failure("invalid hexlify value")
      case TextKey(text) =>
        if key.KString? then PadKey(key, text)
        else
          match ParseHex(text)
          case Some(bs) => PadKey(key, bs)
          case None => Failure("invalid hexlify value")
  }

  function PadKey(key: KeyTy, bs: seq<Byte>): Result<seq<Byte>> {
    if key.KString? || key.KBytes? then Success(bs)
    else if |bs| > SlotBytes() then Failure("value out of range")
    else Success(Zeros(SlotBytes() - |bs|) + bs)
  }

  // ---- The decoder ----

  function FindMember(members: seq<Member>, keys: seq<PathKey>): (i: Option<nat>)
    ensures i.Some? ==> i.value < |members| && keys != [] && keys[0] == TextKey(members[i.value].name)
    ensures i.None? ==> keys == [] || forall j | 0 <= j < |members| :: keys[0] != TextKey(members[j].name)
  {
    if keys == [] || members == [] then None
    else if keys[0] == TextKey(members[0].name) then Some(0)
    else
      match FindMember(members[1..], keys)
      case None => None
      case Some(j) => Some(j + 1)
  }

  function Decode(st: Storage, slot: Slot, offset: nat, ty: Ty, keys: seq<PathKey>): Result<Val>
    requires ValidTy(ty) && Fits(offset, ty)
    decreases ty, 0, 0
  {
    match ty
    case FixedArray(base, length) => DecodeArray(st, slot, base, length, keys)
    case Struct(members, slots) =>
      (match FindMember(members, keys)
       case Some(i) => DecodeMember(st, slot, members, slots, i, keys[1..])
       case None =>
         match DecodeMembers(st, slot, members, slots, |members|, keys)
         case Success(fields) => Success(Rec(fields))
         case Failure(e) => Failure(e))
    case Scalar(kind, size) => GetValueByType(GetInplaceValue(st, slot, offset, size), TypeLabel(kind, size))
    case Bytes(text) => GetValueByType(StringBytes(st, slot), ByteStringLabel(text))
    case Mapping(key, value) => DecodeMapping(st, slot, key, value, keys)
    case DynArray(base) =>
      DecodeArray(st, Slot(Data(slot), 0), base, GetDynamicArraySize(st, slot, offset), keys)
  }

  /** Without a key left, only a boolean key has a value: false. */
  function DecodeMapping(st: Storage, slot: Slot, key: KeyTy, value: Ty, keys: seq<PathKey>): Result<Val>
    requires ValidTy(value)
    decreases value, 2, 0
  {
    if keys != [] then
      match DecoderKey(key, keys[0])
      case Success(kb) => DecodeEntry(st, slot, value, kb, keys[1..])
      case Failure(e) => Failure(e)
    else if key.KBool? then DecodeEntry(st, slot, value, Zeros(32), [])
    else Failure("invalid hexlify value")
  }

  function DecodeEntry(st: Storage, slot: Slot, value: Ty, kb: seq<Byte>, keys: seq<PathKey>): Result<Val>
    requires ValidTy(value)
    decreases value, 1, 0
  {
    EntryFits(value);
    Decode(st, EntryPlace(slot, kb), 0, value, keys)
  }

  function DecodeMember(st: Storage, slot: Slot, members: seq<Member>, slots: nat, i: nat,
      keys: seq<PathKey>): Result<Val>
    requires ValidTy(Struct(members, slots)) && i < |members|
    decreases members, 1, 0
  {
    Decode(st, MemberPlace(slot, members[i]), members[i].offset, members[i].ty, keys)
  }

  function DecodeMembers(st: Storage, slot: Slot, members: seq<Member>, slots: nat, n: nat,
      keys: seq<PathKey>): Result<map<Label, Val>>
    requires ValidTy(Struct(members, slots)) && n <= |members|
    decreases members, 2, n
  {
    if n == 0 then Success(map[])
    else
      match DecodeMembers(st, slot, members, slots, n - 1, keys)
      case Failure(e) => Failure(e)
      case Success(fields) =>
        match DecodeMember(st, slot, members, slots, n - 1, keys)
        case Failure(e) => Failure(e)
        case Success(v) => Success(fields[members[n - 1].name := v])
  }

  function DecodeArray(st: Storage, slot: Slot, base: Ty, size: nat, keys: seq<PathKey>): Result<Val>
    requires ValidTy(base)
    decreases base, 3, 0
  {
    if keys != [] && keys[0].NumKey? then DecodeElem(st, slot, base, keys[0].n, keys[1..])
    else
      match DecodeElems(st, slot, base, size, keys)
      case Success(elems) => Success(Arr(elems))
      case Failure(e) => Failure(e)
  }

  function DecodeElem(st: Storage, slot: Slot, base: Ty, i: nat, keys: seq<PathKey>): Result<Val>
    requires ValidTy(base)
    decreases base, 1, 0
  {
    ElementFits(base, i);
    Decode(st, ElementPlace(slot, SizeOf(base), i), ElementOffset(SizeOf(base), i), base, keys)
  }

  function DecodeElems(st: Storage, slot: Slot, base: Ty, n: nat, keys: seq<PathKey>): Result<seq<Val>>
    requires ValidTy(base)
    decreases base, 2, n
  {
    if n == 0 then Success([])
    else
      match DecodeElems(st, slot, base, n - 1, keys)
      case Failure(e) => Failure(e)
      case Success(elems) =>
        match DecodeElem(st, slot, base, n - 1, keys)
        case Failure(e) => Failure(e)
        case Success(v) => Success(elems + [v])
  }

  // ---- The same with loops ----

  method GetBytesValue(st: Storage, slot: Slot) returns (bs: seq<Byte>)
    ensures bs == StringBytes(st, slot)
  {
    var value := Word(st, slot);
    var slotValue := FromBigEndian(value);
    var length := 0;
    if slotValue % 2 != 0 {
      length := (slotValue - 1) / 2;
    } else {
      length := value[31] / 2;
    }
    if length < 32 {
      return value[..length];
    }
    var hexStringArray: seq<Byte> := [];
    var i := 0;
    while 32 * i < length
      invariant 0 <= i <= (length + 31) / 32
      invariant hexStringArray == DataWords(st, slot, i)
    {
      hexStringArray := hexStringArray + Word(st, Slot(Data(slot), i));
      i := i + 1;
    }
    bs := hexStringArray[..length];
  }

  method GetArrayElement(st: Storage, slot: Slot, base: Ty, mappingKeys: seq<PathKey>, index: nat)
    returns (r: Result<Val>)
    requires ValidTy(base)
    ensures r == DecodeElem(st, slot, base, index, mappingKeys)
    decreases base, 1
  {
    ElementFits(base, index);
    r := GetDecodedValue(st, ElementPlace(slot, SizeOf(base), index), ElementOffset(SizeOf(base), index), base,
        mappingKeys);
  }

  method GetArrayValue(st: Storage, slot: Slot, base: Ty, arraySize: nat, mappingKeys: seq<PathKey>)
    returns (r: Result<Val>)
    requires ValidTy(base)
    ensures r == DecodeArray(st, slot, base, arraySize, mappingKeys)
    decreases base, 3
  {
    if mappingKeys != [] && mappingKeys[0].NumKey? {
      r := GetArrayElement(st, slot, base, mappingKeys[1..], mappingKeys[0].n);
    } else {
      var elems := GetArrayElements(st, slot, base, arraySize, mappingKeys);
      r := if elems.Success? then Success(Arr(elems.value)) else Failure(elems.error);
    }
  }

  method GetArrayElements(st: Storage, slot: Slot, base: Ty, arraySize: nat, mappingKeys: seq<PathKey>)
    returns (r: Result<seq<Val>>)
    requires ValidTy(base)
    ensures r == DecodeElems(st, slot, base, arraySize, mappingKeys)
    decreases base, 2
  {
    var resultArray := [];
    for i := 0 to arraySize
      invariant DecodeElems(st, slot, base, i, mappingKeys) == Success(resultArray)
    {
      var v := GetArrayElement(st, slot, base, mappingKeys, i);
      if v.Failure? {
        ElemsFail(st, slot, base, i + 1, arraySize, mappingKeys);
        return Failure(v.error);
      }
      resultArray := resultArray + [v.value];
    }
    r := Success(resultArray);
  }

  lemma {:induction false} ElemsFail(st: Storage, slot: Slot, base: Ty, i: nat, n: nat, keys: seq<PathKey>)
    requires ValidTy(base) && i <= n && DecodeElems(st, slot, base, i, keys).Failure?
    ensures DecodeElems(st, slot, base, n, keys) == DecodeElems(st, slot, base, i, keys)
    decreases n
  {
    if i < n {
      ElemsFail(st, slot, base, i, n - 1, keys);
    }
  }

  method GetStructureValue(st: Storage, slot: Slot, members: seq<Member>, slots: nat, mappingKeys: seq<PathKey>)
    returns (r: Result<Val>)
    requires ValidTy(Struct(members, slots))
    ensures r == Decode(st, slot, 0, Struct(members, slots), mappingKeys)
    decreases members, 3
  {
    var found := FindMember(members, mappingKeys);
    if found.Some? {
      r := GetMember(st, slot, members, slots, found.value, mappingKeys[1..]);
      return;
    }
    var fields := GetMembers(st, slot, members, slots, mappingKeys);
    r := match fields case Success(f) => Success(Rec(f)) case Failure(e) => Failure(e);
  }

  method GetMember(st: Storage, slot: Slot, members: seq<Member>, slots: nat, i: nat, mappingKeys: seq<PathKey>)
    returns (r: Result<Val>)
    requires ValidTy(Struct(members, slots)) && i < |members|
    ensures r == DecodeMember(st, slot, members, slots, i, mappingKeys)
    decreases members, 1
  {
    r := GetDecodedValue(st, MemberPlace(slot, members[i]), members[i].offset, members[i].ty, mappingKeys);
  }

  /** The loop over the members of a struct. */
  method GetMembers(st: Storage, slot: Slot, members: seq<Member>, slots: nat, mappingKeys: seq<PathKey>)
    returns (r: Result<map<Label, Val>>)
    requires ValidTy(Struct(members, slots))
    ensures r == DecodeMembers(st, slot, members, slots, |members|, mappingKeys)
    decreases members, 2
  {
    var fields: map<Label, Val> := map[];
    for i := 0 to |members|
      invariant DecodeMembers(st, slot, members, slots, i, mappingKeys) == Success(fields)
    {
      var v := GetMember(st, slot, members, slots, i, mappingKeys);
      if v.Failure? {
        MembersFail(st, slot, members, slots, i + 1, |members|, mappingKeys);
        return Failure(v.error);
      }
      fields := fields[members[i].name := v.value];
    }
    r := Success(fields);
  }

  lemma {:induction false} MembersFail(st: Storage, slot: Slot, members: seq<Member>, slots: nat, i: nat, n: nat,
      keys: seq<PathKey>)
    requires ValidTy(Struct(members, slots)) && i <= n <= |members|
        && DecodeMembers(st, slot, members, slots, i, keys).Failure?
    ensures DecodeMembers(st, slot, members, slots, n, keys) == DecodeMembers(st, slot, members, slots, i, keys)
    decreases n
  {
    if i < n {
      MembersFail(st, slot, members, slots, i, n - 1, keys);
    }
  }

  method GetMappingValue(st: Storage, slot: Slot, key: KeyTy, value: Ty, mappingKeys: seq<PathKey>)
    returns (r: Result<Val>)
    requires ValidTy(value)
    ensures r == DecodeMapping(st, slot, key, value, mappingKeys)
    decreases value, 2
  {
    if mappingKeys == [] {
      if !key.KBool? {
        return Failure("invalid hexlify value");
      }
      r := GetEntry(st, slot, value, Zeros(32), []);
      return;
    }
    var kb := DecoderKey(key, mappingKeys[0]);
    if kb.Failure? {
      return Failure(kb.error);
    }
    r := GetEntry(st, slot, value, kb.value, mappingKeys[1..]);
  }

  method GetEntry(st: Storage, slot: Slot, value: Ty, kb: seq<Byte>, mappingKeys: seq<PathKey>)
    returns (r: Result<Val>)
    requires ValidTy(value)
    ensures r == DecodeEntry(st, slot, value, kb, mappingKeys)
    decreases value, 1
  {
    EntryFits(value);
    r := GetDecodedValue(st, EntryPlace(slot, kb), 0, value, mappingKeys);
  }

  method GetDecodedValue(st: Storage, slot: Slot, offset: nat, ty: Ty, mappingKeys: seq<PathKey>)
    returns (r: Result<Val>)
    requires ValidTy(ty) && Fits(offset, ty)
    ensures r == Decode(st, slot, offset, ty, mappingKeys)
    decreases ty, 0
  {
    match ty
    case FixedArray(base, length) =>
      r := GetArrayValue(st, slot, base, length, mappingKeys);
    case Struct(members, slots) =>
      r := GetStructureValue(st, slot, members, slots, mappingKeys);
    case Scalar(kind, size) =>
      r := GetValueByType(GetInplaceValue(st, slot, offset, size), TypeLabel(kind, size));
    case Bytes(text) =>
      var bs := GetBytesValue(st, slot);
      r := GetValueByType(bs, ByteStringLabel(text));
    case Mapping(key, value) =>
      r := GetMappingValue(st, slot, key, value, mappingKeys);
    case DynArray(base) =>
      r := GetArrayValue(st, Slot(Data(slot), 0), base, GetDynamicArraySize(st, slot, offset), mappingKeys);
  }
}
