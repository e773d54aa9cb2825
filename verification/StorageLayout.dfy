/**
  "Layout of State Variables in Storage" of the Solidity 0.8.4 documentation: which bytes of a
  contract's storage hold a value. `Holds` states the rules and `Write` lays a value out by them.

  A slot is named by how it is reached: a number of the contract's own slots, of the data area of a
  dynamic array or a byte string, or of the entry of a mapping. Areas reached by different keccak256
  preimages are thereby different areas, as Solidity assumes of the hashed slot numbers.
*/
module StorageLayout {
  import opened Wrappers
  import opened ByteNumbers

  datatype Region = Root | Data(slot: Slot) | Entry(key: seq<Byte>, slot: Slot)

  datatype Slot = Slot(region: Region, index: nat)

  function SlotBytes(): nat {
    32
  }

  /** One byte of a slot; offset 0 is the lowest-order byte. */
  datatype Cell = Cell(slot: Slot, offset: nat)

  /** Bytes that were never written are zero. */
  type Storage = map<Cell, Byte>

  function Get(st: Storage, c: Cell): Byte {
    if c in st then st[c] else 0
  }

  type Label = seq<Byte>

  datatype KeyTy = KBool | KString | KBytes | KInt(signed: bool) | KAddress | KFixed(size: nat)

  /** Types that lie inside one slot. Enums and contracts have the names that the source gives them, function
      types the rest of their label, such as "(uint256) external". */
  datatype Kind =
    | Unsigned
    | Signed
    | Enum(name: string)
    | Boolean
    | Address(payable: bool)
    | FixedBytes
    | Contract(name: string)
    | Function(signature: string)

  datatype Ty =
    | Scalar(kind: Kind, size: nat)
    | Bytes(text: bool)  // bytes and string
    | FixedArray(base: Ty, length: nat)
    | DynArray(base: Ty)
    | Struct(members: seq<Member>, slots: nat)
    | Mapping(key: KeyTy, value: Ty)

  /** A struct member with the place the compiler gave it inside the struct. */
  datatype Member = Member(name: Label, slot: nat, offset: nat, ty: Ty)

  /** The value of a mapping key in a contract. */
  datatype Key = KeyNum(n: int) | KeyFlag(b: bool) | KeyBytes(bytes: seq<Byte>)

  datatype Val =
    | Num(n: int)
    | Flag(b: bool)
    | Str(bytes: seq<Byte>)
    | Text(bytes: seq<Byte>)  // a string, by its UTF-8 bytes
    | Arr(elems: seq<Val>)
    | Rec(fields: map<Label, Val>)
    | Table(entries: map<Key, Val>)

  // ---- Sizes and places ----

  /** How many elements of `size` bytes share a slot; larger elements take whole slots. */
  function ElementSlot(size: nat, i: nat): nat {
    if 1 <= size <= 32 then i / (32 / size) else (size + 31) / 32 * i
  }

  function ElementOffset(size: nat, i: nat): nat {
    if 1 <= size <= 32 then i % (32 / size) * size else 0
  }

  /** numberOfBytes: compound types take whole slots. */
  function SizeOf(ty: Ty): nat {
    match ty
    case Scalar(_, size) => size
    case Bytes(_) => 32
    case FixedArray(base, length) =>
      if length == 0 then 0 else 32 * (ElementSlot(SizeOf(base), length - 1) + (SizeOf(base) + 31) / 32)
    case DynArray(_) => 32
    case Struct(_, slots) => 32 * slots
    case Mapping(_, _) => 32
  }

  /** A place where a value of the type may start. */
  predicate Fits(offset: nat, ty: Ty) {
    if ty.Scalar? then offset + SizeOf(ty) <= 32 else offset == 0
  }

  /** What is wrong with a type, if it is not one that the compiler emits. */
  ghost function Flaw(ty: Ty): Option<string> {
    match ty
    case Scalar(_, size) => if 1 <= size <= 32 then None else Some("size")
    case Bytes(_) => None
    case FixedArray(base, length) => if length > 0 then Flaw(base) else Some("length")
    case DynArray(base) => Flaw(base)
    case Struct(members, slots) =>
      if slots > 0 && Placed(members, slots) && forall i | 0 <= i < |members| :: Flaw(members[i].ty).None? then None
          else Some("members")
    case Mapping(_, value) => Flaw(value)
  }

  ghost predicate ValidTy(ty: Ty) {
    Flaw(ty).None?
  }

  /** The members lie one after the other inside the slots of the struct, under different names. */
  ghost predicate Placed(members: seq<Member>, slots: nat) {
    && (forall i | 0 <= i < |members| :: Fits(members[i].offset, members[i].ty) && MemberEnd(members[i]) <= 32 * slots)
    && (forall i, j | 0 <= i < j < |members| ::
          MemberEnd(members[i]) <= MemberStart(members[j]) && members[i].name != members[j].name)
  }

  function MemberStart(m: Member): nat {
    32 * m.slot + m.offset
  }

  function MemberEnd(m: Member): nat {
    MemberStart(m) + SizeOf(m.ty)
  }

  lemma WholeSlots(slots: nat)
    requires slots > 0
    ensures 32 * slots > 0 && 32 * slots % 32 == 0
  {}

  lemma ElementSlots(size: nat, i: nat)
    requires size > 0
    ensures ElementSlot(size, i) + (size + 31) / 32 > 0
  {}

  lemma {:induction false} SizeShape(ty: Ty)
    requires ValidTy(ty)
    ensures SizeOf(ty) > 0 && (ty.Scalar? ==> SizeOf(ty) <= 32) && (!ty.Scalar? ==> SizeOf(ty) % 32 == 0)
  {
    match ty
    case FixedArray(base, length) =>
      SizeShape(base);
      ElementSlots(SizeOf(base), length - 1);
      WholeSlots(ElementSlot(SizeOf(base), length - 1) + (SizeOf(base) + 31) / 32);
    case Struct(_, slots) => WholeSlots(slots);
    case _ =>
  }

  // ---- Values ----

  ghost predicate HasType(ty: Ty, v: Val) {
    match ty
    case Scalar(kind, size) => ScalarHasType(kind, size, v)
    case Bytes(text) => IsByteString(text, v) && 2 * |v.bytes| + 1 < Pow256(SlotBytes())
    case FixedArray(base, length) => v.Arr? && |v.elems| == length && forall i | 0 <= i < length ::
        HasType(base, v.elems[i])
    case DynArray(base) => v.Arr? && |v.elems| < Pow256(SlotBytes()) && forall i | 0 <= i < |v.elems| ::
        HasType(base, v.elems[i])
    case Struct(members, _) =>
      && v.Rec? && (forall f | f in v.fields :: IsMember(members, f))
      && forall i | 0 <= i < |members| :: members[i].name in v.fields
          && HasType(members[i].ty, v.fields[members[i].name])
    case Mapping(key, value) =>
      v.Table? && forall k | k in v.entries :: KeyHasType(key, k) && HasType(value, v.entries[k])
  }

  predicate IsByteString(text: bool, v: Val) {
    if text then v.Text? else v.Str?
  }

  ghost predicate IsMember(members: seq<Member>, f: Label) {
    exists i | 0 <= i < |members| :: members[i].name == f
  }

  /** Read as the bytes that are there. */
  predicate IsRaw(kind: Kind) {
    kind.Address? || kind.FixedBytes? || kind.Contract? || kind.Function?
  }

  ghost predicate ScalarHasType(kind: Kind, size: nat, v: Val) {
    || (kind.Boolean? && v.Flag?)
    || (kind.Signed? && v.Num? && InRange(v.n, size))
    || ((kind.Unsigned? || kind.Enum?) && v.Num? && 0 <= v.n < Pow256(size))
    || (IsRaw(kind) && v.Str? && |v.bytes| == size)
  }

  ghost predicate KeyHasType(key: KeyTy, k: Key) {
    match key
    case KBool => k.KeyFlag?
    case KString => k.KeyBytes?
    case KBytes => k.KeyBytes?
    case KInt(signed) => k.KeyNum? && if signed then InRange(k.n, SlotBytes()) else 0 <= k.n < Pow256(SlotBytes())
    case KAddress => k.KeyBytes? && |k.bytes| == 20
    case KFixed(size) => k.KeyBytes? && |k.bytes| == size <= SlotBytes()
  }

  /** The bytes of a scalar, highest-order byte first. */
  ghost function ScalarBytes(kind: Kind, size: nat, v: Val): (bs: seq<Byte>)
    requires 1 <= size && ScalarHasType(kind, size, v)
    ensures |bs| == size
  {
    match kind
    case Boolean => ToBigEndian(if v.b then 1 else 0, size)
    case Signed => ToBigEndian(ToTwos(v.n, size), size)
    case Unsigned => ToBigEndian(v.n, size)
    case Enum(_) => ToBigEndian(v.n, size)
    case _ => v.bytes
  }

  /** The first argument of the hash for a mapping entry: byte strings as they are, value types padded
      to 32 bytes as in memory, which for bytesN means on the right. */
  ghost function SolidityKey(key: KeyTy, k: Key): seq<Byte> {
    if !KeyHasType(key, k) then []
    else match key
    case KBool => Zeros(SlotBytes() - 1) + [if k.b then 1 else 0]
    case KString => k.bytes
    case KBytes => k.bytes
    case KInt(_) => ToBigEndian(ToTwos(k.n, SlotBytes()), SlotBytes())
    case KAddress => Zeros(SlotBytes() - 20) + k.bytes
    case KFixed(size) => k.bytes + Zeros(SlotBytes() - size)
  }

  function Zeros(n: nat): (z: seq<Byte>)
    ensures |z| == n
  {
    seq(n, _ => 0)
  }

  // ---- The rules ----

  /** The bytes `bs` lie at `offset`, highest-order first. */
  ghost predicate BytesAt(st: Storage, slot: Slot, offset: nat, bs: seq<Byte>) {
    forall j | 0 <= j < |bs| :: Get(st, Cell(slot, offset + |bs| - 1 - j)) == bs[j]
  }

  /** Byte `j` of a long byte string. */
  function DataCell(slot: Slot, j: nat): Cell {
    Cell(Slot(Data(slot), j / 32), 31 - j % 32)
  }

  function ElementPlace(slot: Slot, size: nat, i: nat): Slot {
    Slot(slot.region, slot.index + ElementSlot(size, i))
  }

  function MemberPlace(slot: Slot, m: Member): Slot {
    Slot(slot.region, slot.index + m.slot)
  }

  function EntryPlace(slot: Slot, key: seq<Byte>): Slot {
    Slot(Entry(key, slot), 0)
  }

  /** A byte string: up to 31 bytes at the high end of its slot with twice the length in the lowest
      byte; a longer one in the area that hangs from the slot, with twice the length plus one in it. */
  ghost predicate HoldsString(st: Storage, slot: Slot, bs: seq<Byte>) {
    if |bs| < SlotBytes() then
      Get(st, Cell(slot, 0)) == 2 * |bs| && forall j | 0 <= j < |bs| :: Get(st, Cell(slot, 31 - j)) == bs[j]
    else
      BytesAt(st, slot, 0, ToBigEndian(2 * |bs| + 1, SlotBytes())) && forall j | 0 <= j < |bs| ::
          Get(st, DataCell(slot, j)) == bs[j]
  }

  /** The storage holds the value `v` of type `ty` at the given place. */
  ghost predicate Holds(st: Storage, slot: Slot, offset: nat, ty: Ty, v: Val)
    decreases ty, 0
  {
    match ty
    case Scalar(kind, size) => size > 0 && ScalarHasType(kind, size, v)
        && BytesAt(st, slot, offset, ScalarBytes(kind, size, v))
    case Bytes(text) => IsByteString(text, v) && 2 * |v.bytes| + 1 < Pow256(SlotBytes())
        && HoldsString(st, slot, v.bytes)
    case FixedArray(base, length) => v.Arr? && |v.elems| == length && HoldsElems(st, slot, base, v.elems)
    case DynArray(base) => v.Arr? && DynHeld(st, slot, base, v.elems)
    case Struct(members, _) =>
      v.Rec? && forall i | 0 <= i < |members| ::
                  members[i].name in v.fields && MemberHeld(st, slot, members[i], v.fields[members[i].name])
    case Mapping(key, value) =>
      v.Table? && forall k | k in v.entries :: KeyHasType(key, k) && EntryHeld(st, slot, key, value, k, v.entries[k])
  }

  /** A dynamic array: its length in the slot, its elements in the area that hangs from it. */
  ghost predicate DynHeld(st: Storage, slot: Slot, base: Ty, elems: seq<Val>)
    decreases base, 3
  {
    && |elems| < Pow256(SlotBytes())
    && BytesAt(st, slot, 0, ToBigEndian(|elems|, SlotBytes()))
    && HoldsElems(st, Slot(Data(slot), 0), base, elems)
  }

  ghost predicate HoldsElems(st: Storage, slot: Slot, base: Ty, elems: seq<Val>)
    decreases base, 2
  {
    forall i | 0 <= i < |elems| :: ElementHeld(st, slot, base, i, elems[i])
  }

  ghost predicate ElementHeld(st: Storage, slot: Slot, base: Ty, i: nat, v: Val)
    decreases base, 1
  {
    Holds(st, ElementPlace(slot, SizeOf(base), i), ElementOffset(SizeOf(base), i), base, v)
  }

  ghost predicate MemberHeld(st: Storage, slot: Slot, m: Member, v: Val)
    decreases m.ty, 1
  {
    Holds(st, MemberPlace(slot, m), m.offset, m.ty, v)
  }

  ghost predicate EntryHeld(st: Storage, slot: Slot, key: KeyTy, value: Ty, k: Key, v: Val)
    decreases value, 1
  {
    Holds(st, EntryPlace(slot, SolidityKey(key, k)), 0, value, v)
  }

  // ---- The writer ----

  /** Lays `v` out at the given place, part by part. */
  ghost function Write(st: Storage, slot: Slot, offset: nat, ty: Ty, v: Val): Storage
    decreases ty, 0, 0
  {
    match ty
    case Scalar(kind, size) => if size > 0 && ScalarHasType(kind, size, v) then
        WriteBytes(st, slot, offset, ScalarBytes(kind, size, v)) else st
    case Bytes(text) => if IsByteString(text, v) then WriteString(st, slot, v.bytes) else st
    case FixedArray(base, length) => if v.Arr? && |v.elems| == length then WriteElems(st, slot, base, v.elems, length)
        else st
    case DynArray(base) =>
      if v.Arr?
      then WriteElems(WriteBytes(st, slot, 0, ToBigEndian(|v.elems|, SlotBytes())), Slot(Data(slot), 0), base, v.elems,
          |v.elems|)
      else st
    case Struct(members, _) => if v.Rec? then WriteMembers(st, slot, members, v.fields, |members|) else st
    case Mapping(key, value) => if v.Table? then WriteEntries(st, slot, key, value, v.entries, v.entries.Keys) else st
  }

  ghost function WriteString(st: Storage, slot: Slot, bs: seq<Byte>): Storage {
    if |bs| < SlotBytes() then
      WriteBytes(WriteBytes(st, slot, 0, [2 * |bs|]), slot, SlotBytes() - |bs|, bs)
    else
      WriteData(WriteBytes(st, slot, 0, ToBigEndian(2 * |bs| + 1, SlotBytes())), slot, bs)
  }

  function CellAfter(slot: Slot, offset: nat, j: nat): Cell {
    Cell(slot, offset + j)
  }

  ghost function WriteBytes(st: Storage, slot: Slot, offset: nat, bs: seq<Byte>): Storage {
    st + map j | 0 <= j < |bs| :: CellAfter(slot, offset, j) := bs[|bs| - 1 - j]
  }

  ghost function WriteData(st: Storage, slot: Slot, bs: seq<Byte>): Storage {
    st + map j | 0 <= j < |bs| :: DataCell(slot, j) := bs[j]
  }

  ghost function WriteElems(st: Storage, slot: Slot, base: Ty, elems: seq<Val>, n: nat): Storage
    requires n <= |elems|
    decreases base, 2, n
  {
    if n == 0 then st else WriteElement(WriteElems(st, slot, base, elems, n - 1), slot, base, n - 1, elems[n - 1])
  }

  ghost function WriteElement(st: Storage, slot: Slot, base: Ty, i: nat, v: Val): Storage
    decreases base, 1, 0
  {
    Write(st, ElementPlace(slot, SizeOf(base), i), ElementOffset(SizeOf(base), i), base, v)
  }

  ghost function WriteMembers(st: Storage, slot: Slot, members: seq<Member>, fields: map<Label, Val>, n: nat): Storage
    requires n <= |members|
    decreases members, 1, n
  {
    if n == 0 then st
    else
      var m := members[n - 1];
      var before := WriteMembers(st, slot, members, fields, n - 1);
      if m.name in fields then WriteMember(before, slot, m, fields[m.name]) else before
  }

  ghost function WriteMember(st: Storage, slot: Slot, m: Member, v: Val): Storage
    decreases m.ty, 1, 0
  {
    Write(st, MemberPlace(slot, m), m.offset, m.ty, v)
  }

  ghost function WriteEntries(st: Storage, slot: Slot, key: KeyTy, value: Ty, entries: map<Key, Val>,
      keys: set<Key>): Storage
    requires keys <= entries.Keys
    decreases value, 2, |keys|
  {
    if keys == {} then st
    else
      var k := SomeKey(keys);
      WriteEntry(WriteEntries(st, slot, key, value, entries, keys - {k}), slot, key, value, k, entries[k])
  }

  ghost function WriteEntry(st: Storage, slot: Slot, key: KeyTy, value: Ty, k: Key, v: Val): Storage
    decreases value, 1, 0
  {
    Write(st, EntryPlace(slot, SolidityKey(key, k)), 0, value, v)
  }

  ghost function SomeKey(keys: set<Key>): (k: Key)
    requires keys != {}
    ensures k in keys
  {
    var k :| k in keys; k
  }

  // ---- Where a cell belongs ----

  /** The place of a cell as seen from a region: its own byte address in it, or that of the slot of the
      region through which it is reached. */
  ghost function Address(r: Region, slot: Slot, offset: nat): Option<nat>
    decreases slot
  {
    if slot.region == r then Some(32 * slot.index + offset)
    else match slot.region
      case Root => None
      case Data(s) => Address(r, s, 0)
      case Entry(_, s) => Address(r, s, 0)
  }

  ghost predicate Within(r: Region, lo: nat, hi: nat, c: Cell) {
    match Address(r, c.slot, c.offset)
    case None => false
    case Some(a) => lo <= a < hi
  }

  /** A place of the given type covers these cells. */
  ghost predicate Covers(slot: Slot, offset: nat, ty: Ty, c: Cell) {
    var lo := 32 * slot.index + offset;
    Within(slot.region, lo, lo + SizeOf(ty), c)
  }

  ghost function Depth(r: Region): nat {
    match r
    case Root => 0
    case Data(s) => 1 + Depth(s.region)
    case Entry(_, s) => 1 + Depth(s.region)
  }

  lemma {:induction false} AddressDepth(r: Region, slot: Slot, offset: nat)
    requires Address(r, slot, offset).Some?
    ensures Depth(r) <= Depth(slot.region)
    decreases slot
  {
    if slot.region != r {
      match slot.region
      case Data(s) => AddressDepth(r, s, 0);
      case Entry(_, s) => AddressDepth(r, s, 0);
    }
  }

  /** A hashed area belongs to the slot it hangs from. */
  lemma {:induction false} AddressThrough(r: Region, s: Slot, slot: Slot, offset: nat)
    requires r == Data(s) || (r.Entry? && r.slot == s)
    requires Address(r, slot, offset).Some?
    ensures Address(s.region, slot, offset) == Some(32 * s.index)
    decreases slot
  {
    AddressDepth(r, slot, offset);
    if slot.region != r {
      match slot.region
      case Data(t) => AddressThrough(r, s, t, 0);
      case Entry(_, t) => AddressThrough(r, s, t, 0);
    }
  }

  /** A slot is not part of the areas that hang from it. */
  lemma OwnSlotOutside(r: Region, s: Slot, offset: nat)
    requires r == Data(s) || (r.Entry? && r.slot == s)
    ensures Address(r, s, offset).None?
  {
    if Address(r, s, offset).Some? {
      AddressDepth(r, s, offset);
    }
  }

  /** Entries of one mapping under different keys do not share a cell. */
  lemma {:induction false} EntriesApart(k1: seq<Byte>, k2: seq<Byte>, s: Slot, slot: Slot, offset: nat)
    requires Address(Entry(k1, s), slot, offset).Some? && Address(Entry(k2, s), slot, offset).Some?
    ensures k1 == k2
    decreases slot
  {
    if k1 != k2 {
      OwnSlotOutside(Entry(k1, s), s, 0);
      OwnSlotOutside(Entry(k2, s), s, 0);
      match slot.region
      case Data(t) => EntriesApart(k1, k2, s, t, 0);
      case Entry(_, t) =>
        if slot.region != Entry(k1, s) && slot.region != Entry(k2, s) {
          EntriesApart(k1, k2, s, t, 0);
        }
    }
  }

  // ---- Elements and members do not overlap ----

  lemma TimesInOrder(a: nat, b: nat, k: nat)
    requires a <= b
    ensures a * k <= b * k
  {}

  /** Packed elements: quotient and remainder of the index by the number of elements in a slot. */
  lemma PackedInOrder(size: nat, p: nat, qi: nat, ri: nat, qj: nat, rj: nat)
    requires ri < p && p * size <= 32 && qi * p + ri < qj * p + rj && rj < p
    ensures 32 * qi + ri * size + size <= 32 * qj + rj * size
  {
    assert (ri + 1) * size == ri * size + size;
    if qi > qj {
      TimesInOrder(qj + 1, qi, p);
      assert false;
    } else if qi == qj {
      TimesInOrder(ri + 1, rj, size);
    } else {
      TimesInOrder(ri + 1, p, size);
    }
  }

  lemma PerSlot(size: nat)
    requires 1 <= size <= 32
    ensures 32 / size >= 1 && 32 / size * size <= 32
  {}

  lemma PackedElements(size: nat, p: nat, i: nat, j: nat)
    requires p > 0 && p * size <= 32 && i < j
    ensures 32 * (i / p) + i % p * size + size <= 32 * (j / p) + j % p * size
  {
    PackedInOrder(size, p, i / p, i % p, j / p, j % p);
  }

  lemma LargeElements(n: nat, i: nat, j: nat)
    requires i < j
    ensures n * i + n <= n * j
  {
    assert n * (i + 1) <= n * j;
  }

  lemma ElementsInOrder(size: nat, i: nat, j: nat)
    requires size > 0 && i < j
    ensures 32 * ElementSlot(size, i) + ElementOffset(size, i) + size <= 32 * ElementSlot(size, j)
        + ElementOffset(size, j)
  {
    if size <= 32 {
      PerSlot(size);
      PackedElements(size, 32 / size, i, j);
    } else {
      LargeElements((size + 31) / 32, i, j);
    }
  }

  /** Elements that fit into a slot leave no gap in it: counting only the bytes that a slot has for them, the
      elements lie one after the other. */
  lemma ElementsPacked(size: nat, i: nat)
    requires 1 <= size <= 32
    ensures var used := 32 / size * size;
      ElementSlot(size, i) * used + ElementOffset(size, i) == i * size && ElementOffset(size, i) + size <= used
  {
    PerSlot(size);
    PackedBytes(i, 32 / size, size);
  }

  lemma PackedBytes(i: nat, p: nat, size: nat)
    requires p > 0
    ensures i / p * (p * size) + i % p * size == i * size && i % p * size + size <= p * size
  {
    assert i == i / p * p + i % p;
    Regrouped(i / p, p, i % p, size);
    TimesInOrder(i % p + 1, p, size);
    assert (i % p + 1) * size == i % p * size + size;
  }

  lemma Regrouped(q: nat, p: nat, r: nat, size: nat)
    ensures q * (p * size) + r * size == (q * p + r) * size
  {
    assert q * (p * size) == q * p * size;
  }

  /** Larger elements start where the slots of the one before end. */
  lemma LargeElementsFollow(size: nat, i: nat)
    requires size > 32
    ensures ElementSlot(size, 0) == 0 && ElementOffset(size, i) == 0
    ensures 32 * ElementSlot(size, i + 1) == 32 * ElementSlot(size, i) + (size + 31) / 32 * 32
  {
    var n := (size + 31) / 32;
    assert n * (i + 1) == n * i + n;
  }

  /** An array of a fixed length takes as many slots as its elements need: several to a slot if they fit, or
      several slots each. */
  lemma FixedArraySize(base: Ty, length: nat)
    requires SizeOf(base) > 0
    ensures var size := SizeOf(base);
      SizeOf(FixedArray(base, length))
      == if size <= 32 then 32 * ((length + 32 / size - 1) / (32 / size)) else 32 * (length * ((size + 31) / 32))
  {
    var size := SizeOf(base);
    if size <= 32 {
      PerSlot(size);
      LastSlot(length, 32 / size);
    } else if length > 0 {
      LargeElementsFollow(size, length - 1);
      assert ElementSlot(size, length) == length * ((size + 31) / 32);
    }
  }

  lemma QuotientIs(x: nat, p: nat, q: nat, r: nat)
    requires r < p && x == q * p + r
    ensures x / p == q
  {
    assert x == x / p * p + x % p;
    if x / p > q {
      TimesInOrder(q + 1, x / p, p);
    } else if x / p < q {
      TimesInOrder(x / p + 1, q, p);
    }
  }

  /** With `per` elements to a slot, element `k` of slot `j`. */
  lemma ElementIs(size: nat, per: nat, j: nat, k: nat)
    requires 1 <= size <= 32 && per == 32 / size && k < per
    ensures k * size + size <= 32 && j * per + k >= 0
    ensures ElementSlot(size, j * per + k) == j && ElementOffset(size, j * per + k) == k * size
  {
    PerSlot(size);
    TimesInOrder(k + 1, per, size);
    var i := j * per + k;
    QuotientIs(i, per, j, k);
    assert i == i / per * per + i % per;
  }

  lemma LastSlot(length: nat, p: nat)
    requires p > 0
    ensures (length + p - 1) / p == if length == 0 then 0 else (length - 1) / p + 1
  {
    if length == 0 {
      QuotientIs(p - 1, p, 0, p - 1);
    } else {
      var q, r := (length - 1) / p, (length - 1) % p;
      assert length + p - 1 == (q + 1) * p + r;
      QuotientIs(length + p - 1, p, q + 1, r);
    }
  }

  lemma ElementInSlot(size: nat, i: nat)
    requires 1 <= size <= 32
    ensures ElementOffset(size, i) + size <= 32 && (size == 32 ==> ElementOffset(size, i) == 0)
  {
    var p := 32 / size;
    assert (i % p + 1) * size <= p * size <= 32;
  }

  lemma ElementFits(base: Ty, i: nat)
    requires ValidTy(base)
    ensures SizeOf(base) > 0 && Fits(ElementOffset(SizeOf(base), i), base)
  {
    SizeShape(base);
    if SizeOf(base) <= 32 {
      ElementInSlot(SizeOf(base), i);
    }
  }

  lemma LastElementEnd(base: Ty, length: nat, i: nat)
    requires ValidTy(base) && i < length
    ensures SizeOf(base) > 0
    ensures 32 * ElementSlot(SizeOf(base), i) + ElementOffset(SizeOf(base), i)
        + SizeOf(base) <= SizeOf(FixedArray(base, length))
  {
    SizeShape(base);
    var size := SizeOf(base);
    ElementFits(base, length - 1);
    if i < length - 1 {
      ElementsInOrder(size, i, length - 1);
    }
    if size <= 32 {
      assert ElementOffset(size, length - 1) + size <= 32;
    } else {
      assert size <= 32 * ((size + 31) / 32);
    }
  }

  // ---- A write changes only the cells that its place covers ----

  lemma WriteBytesFrame(st: Storage, slot: Slot, offset: nat, bs: seq<Byte>, c: Cell)
    requires !Within(slot.region, 32 * slot.index + offset, 32 * slot.index + offset + |bs|, c)
    ensures Get(WriteBytes(st, slot, offset, bs), c) == Get(st, c)
  {
    assert c.slot == slot ==> Address(slot.region, c.slot, c.offset) == Some(32 * slot.index + c.offset);
  }

  lemma WriteDataFrame(st: Storage, slot: Slot, bs: seq<Byte>, c: Cell)
    requires Address(Data(slot), c.slot, c.offset).None?
    ensures Get(WriteData(st, slot, bs), c) == Get(st, c)
  {}

  /** A cell of an area that hangs from a slot is covered by what lies in the slot. */
  lemma AreaCovered(r: Region, slot: Slot, ty: Ty, c: Cell)
    requires r == Data(slot) || (r.Entry? && r.slot == slot)
    requires SizeOf(ty) == 32 && Address(r, c.slot, c.offset).Some?
    ensures Covers(slot, 0, ty, c)
  {
    AddressThrough(r, slot, c.slot, c.offset);
  }

  lemma {:induction false} WriteFrame(st: Storage, slot: Slot, offset: nat, ty: Ty, v: Val, c: Cell)
    requires ValidTy(ty) && Fits(offset, ty) && !Covers(slot, offset, ty, c)
    ensures Get(Write(st, slot, offset, ty, v), c) == Get(st, c)
    decreases ty, 0, 0
  {
    match ty
    case Scalar(kind, size) =>
      if ScalarHasType(kind, size, v) {
        WriteBytesFrame(st, slot, offset, ScalarBytes(kind, size, v), c);
      }
    case Bytes(text) =>
      if IsByteString(text, v) {
        StringFrame(st, slot, ty, v.bytes, c);
      }
    case FixedArray(base, length) =>
      if v.Arr? && |v.elems| == length {
        FixedOutside(slot, base, length, c);
        ElemsFrame(st, slot, base, v.elems, length, c);
      }
    case DynArray(base) =>
      if v.Arr? {
        var len := ToBigEndian(|v.elems|, SlotBytes());
        WriteBytesFrame(st, slot, 0, len, c);
        AreaOutside(slot, ty, c);
        ElemsFrame(WriteBytes(st, slot, 0, len), Slot(Data(slot), 0), base, v.elems, |v.elems|, c);
      }
    case Struct(members, slots) =>
      if v.Rec? {
        MembersFrame(st, slot, members, v.fields, slots, |members|, c);
      }
    case Mapping(key, value) =>
      if v.Table? {
        AreaOutside(slot, ty, c);
        EntriesFrame(st, slot, key, value, v.entries, v.entries.Keys, c);
      }
  }

  lemma FixedOutside(slot: Slot, base: Ty, length: nat, c: Cell)
    requires ValidTy(base) && !Covers(slot, 0, FixedArray(base, length), c)
    ensures forall i | 0 <= i < length :: !ElementCovers(slot, base, i, c)
  {
    forall i | 0 <= i < length
      ensures !ElementCovers(slot, base, i, c)
    {
      LastElementEnd(base, length, i);
    }
  }

  lemma AreaOutside(slot: Slot, ty: Ty, c: Cell)
    requires SizeOf(ty) == 32 && !Covers(slot, 0, ty, c)
    ensures Address(Data(slot), c.slot, c.offset).None?
    ensures forall k: seq<Byte> :: Address(Entry(k, slot), c.slot, c.offset).None?
  {
    if Address(Data(slot), c.slot, c.offset).Some? {
      AreaCovered(Data(slot), slot, ty, c);
    }
    forall k: seq<Byte>
      ensures Address(Entry(k, slot), c.slot, c.offset).None?
    {
      if Address(Entry(k, slot), c.slot, c.offset).Some? {
        AreaCovered(Entry(k, slot), slot, ty, c);
      }
    }
  }

  lemma StringFrame(st: Storage, slot: Slot, ty: Ty, bs: seq<Byte>, c: Cell)
    requires SizeOf(ty) == 32 && !Covers(slot, 0, ty, c)
    ensures Get(WriteString(st, slot, bs), c) == Get(st, c)
  {
    var header := if |bs| < 32 then [2 * |bs|] else ToBigEndian(2 * |bs| + 1, SlotBytes());
    WriteBytesFrame(st, slot, 0, header, c);
    if |bs| < 32 {
      WriteBytesFrame(WriteBytes(st, slot, 0, header), slot, 32 - |bs|, bs, c);
    } else {
      if Address(Data(slot), c.slot, c.offset).Some? {
        AreaCovered(Data(slot), slot, ty, c);
      }
      WriteDataFrame(WriteBytes(st, slot, 0, header), slot, bs, c);
    }
  }

  ghost predicate ElementCovers(slot: Slot, base: Ty, i: nat, c: Cell) {
    Covers(ElementPlace(slot, SizeOf(base), i), ElementOffset(SizeOf(base), i), base, c)
  }

  lemma {:induction false} ElemsFrame(st: Storage, slot: Slot, base: Ty, elems: seq<Val>, n: nat, c: Cell)
    requires ValidTy(base) && n <= |elems|
    requires forall i | 0 <= i < n :: !ElementCovers(slot, base, i, c)
    ensures Get(WriteElems(st, slot, base, elems, n), c) == Get(st, c)
    decreases base, 1, n
  {
    if n > 0 {
      ElemsFrame(st, slot, base, elems, n - 1, c);
      ElementFits(base, n - 1);
      assert !ElementCovers(slot, base, n - 1, c);
      WriteFrame(WriteElems(st, slot, base, elems, n - 1),
                 ElementPlace(slot, SizeOf(base), n - 1), ElementOffset(SizeOf(base), n - 1), base, elems[n - 1], c);
    }
  }

  lemma {:induction false} MembersFrame(st: Storage, slot: Slot, members: seq<Member>, fields: map<Label, Val>,
      slots: nat, n: nat, c: Cell)
    requires n <= |members| && ValidTy(Struct(members, slots)) && !Covers(slot, 0, Struct(members, slots), c)
    ensures Get(WriteMembers(st, slot, members, fields, n), c) == Get(st, c)
    decreases members, 1, n
  {
    if n > 0 {
      var m := members[n - 1];
      MembersFrame(st, slot, members, fields, slots, n - 1, c);
      if m.name in fields {
        assert !Covers(MemberPlace(slot, m), m.offset, m.ty, c);
        WriteFrame(WriteMembers(st, slot, members, fields, n - 1), MemberPlace(slot, m), m.offset, m.ty,
            fields[m.name], c);
      }
    }
  }

  lemma {:induction false} EntriesFrame(st: Storage, slot: Slot, key: KeyTy, value: Ty, entries: map<Key, Val>,
      keys: set<Key>, c: Cell)
    requires ValidTy(value) && keys <= entries.Keys
    requires forall k: seq<Byte> :: Address(Entry(k, slot), c.slot, c.offset).None?
    ensures Get(WriteEntries(st, slot, key, value, entries, keys), c) == Get(st, c)
    decreases value, 1, |keys|
  {
    if keys != {} {
      var k := SomeKey(keys);
      EntriesFrame(st, slot, key, value, entries, keys - {k}, c);
      EntryFits(value);
      WriteFrame(WriteEntries(st, slot, key, value, entries, keys - {k}), EntryPlace(slot, SolidityKey(key, k)), 0,
          value, entries[k], c);
    }
  }

  // ---- What is held depends only on the cells that the place covers ----

  ghost predicate SameOn(st: Storage, st': Storage, slot: Slot, offset: nat, ty: Ty) {
    forall c | Covers(slot, offset, ty, c) :: Get(st, c) == Get(st', c)
  }

  lemma OwnCovered(slot: Slot, offset: nat, ty: Ty, o: nat)
    requires offset <= o < offset + SizeOf(ty)
    ensures Covers(slot, offset, ty, Cell(slot, o))
  {
    assert Address(slot.region, slot, o) == Some(32 * slot.index + o);
  }

  lemma DataCovered(slot: Slot, ty: Ty, j: nat)
    requires SizeOf(ty) == 32
    ensures Covers(slot, 0, ty, DataCell(slot, j))
  {
    var c := DataCell(slot, j);
    assert Address(Data(slot), c.slot, c.offset) == Some(32 * (j / 32) + c.offset);
    AreaCovered(Data(slot), slot, ty, c);
  }

  lemma BytesAtFrame(st: Storage, st': Storage, slot: Slot, offset: nat, ty: Ty, bs: seq<Byte>)
    requires SameOn(st, st', slot, offset, ty) && |bs| <= SizeOf(ty) && BytesAt(st, slot, offset, bs)
    ensures BytesAt(st', slot, offset, bs)
  {
    forall j | 0 <= j < |bs|
      ensures Get(st', Cell(slot, offset + |bs| - 1 - j)) == bs[j]
    {
      OwnCovered(slot, offset, ty, offset + |bs| - 1 - j);
    }
  }

  lemma {:induction false} HoldsFrame(st: Storage, st': Storage, slot: Slot, offset: nat, ty: Ty, v: Val)
    requires ValidTy(ty) && Fits(offset, ty) && SameOn(st, st', slot, offset, ty) && Holds(st, slot, offset, ty, v)
    ensures Holds(st', slot, offset, ty, v)
    decreases ty, 0
  {
    match ty
    case Scalar(kind, size) => ScalarHoldsFrame(st, st', slot, offset, kind, size, v);
    case Bytes(text) => StringHoldsFrame(st, st', slot, text, v);
    case FixedArray(base, length) => FixedHoldsFrame(st, st', slot, base, length, v);
    case DynArray(base) => DynHoldsFrame(st, st', slot, base, v.elems);
    case Struct(members, slots) => MembersHoldFrame(st, st', slot, members, slots, v);
    case Mapping(key, value) => EntriesHoldFrame(st, st', slot, key, value, v);
  }

  lemma ScalarHoldsFrame(st: Storage, st': Storage, slot: Slot, offset: nat, kind: Kind, size: nat, v: Val)
    requires SameOn(st, st', slot, offset, Scalar(kind, size)) && Holds(st, slot, offset, Scalar(kind, size), v)
    ensures Holds(st', slot, offset, Scalar(kind, size), v)
  {
    BytesAtFrame(st, st', slot, offset, Scalar(kind, size), ScalarBytes(kind, size, v));
  }

  lemma {:induction false} FixedHoldsFrame(st: Storage, st': Storage, slot: Slot, base: Ty, length: nat, v: Val)
    requires ValidTy(base) && SameOn(st, st', slot, 0, FixedArray(base, length))
    requires Holds(st, slot, 0, FixedArray(base, length), v)
    ensures Holds(st', slot, 0, FixedArray(base, length), v)
    decreases base, 2
  {
    forall i | 0 <= i < length
      ensures ElementSame(st, st', slot, base, i)
    {
      LastElementEnd(base, length, i);
    }
    ElemsHoldFrame(st, st', slot, base, v.elems);
  }

  lemma {:induction false} DynHoldsFrame(st: Storage, st': Storage, slot: Slot, base: Ty, elems: seq<Val>)
    requires ValidTy(base) && SameOn(st, st', slot, 0, DynArray(base)) && DynHeld(st, slot, base, elems)
    ensures DynHeld(st', slot, base, elems)
    decreases base, 2
  {
    BytesAtFrame(st, st', slot, 0, DynArray(base), ToBigEndian(|elems|, SlotBytes()));
    AreaSame(st, st', Data(slot), slot, DynArray(base));
    ElemsHoldFrame(st, st', Slot(Data(slot), 0), base, elems);
  }

  lemma {:induction false} MembersHoldFrame(st: Storage, st': Storage, slot: Slot, members: seq<Member>, slots: nat,
      v: Val)
    requires ValidTy(Struct(members, slots)) && SameOn(st, st', slot, 0, Struct(members, slots))
    requires Holds(st, slot, 0, Struct(members, slots), v)
    ensures Holds(st', slot, 0, Struct(members, slots), v)
    decreases members, 1
  {
    forall i | 0 <= i < |members|
      ensures MemberHeld(st', slot, members[i], v.fields[members[i].name])
    {
      var m := members[i];
      assert MemberHeld(st, slot, m, v.fields[m.name]);
      assert SameOn(st, st', MemberPlace(slot, m), m.offset, m.ty);
      HoldsFrame(st, st', MemberPlace(slot, m), m.offset, m.ty, v.fields[m.name]);
    }
  }

  lemma {:induction false} EntriesHoldFrame(st: Storage, st': Storage, slot: Slot, key: KeyTy, value: Ty, v: Val)
    requires ValidTy(value) && SameOn(st, st', slot, 0, Mapping(key, value))
        && Holds(st, slot, 0, Mapping(key, value), v)
    ensures Holds(st', slot, 0, Mapping(key, value), v)
    decreases value, 2
  {
    forall k | k in v.entries
      ensures EntryHeld(st', slot, key, value, k, v.entries[k])
    {
      EntryHoldFrame(st, st', slot, Mapping(key, value), SolidityKey(key, k), value, v.entries[k]);
    }
  }

  lemma {:induction false} EntryHoldFrame(st: Storage, st': Storage, slot: Slot, ty: Ty, k: seq<Byte>, value: Ty,
      v: Val)
    requires ValidTy(value) && SizeOf(ty) == 32 && SameOn(st, st', slot, 0, ty)
        && Holds(st, EntryPlace(slot, k), 0, value, v)
    ensures Holds(st', EntryPlace(slot, k), 0, value, v)
    decreases value, 1
  {
    EntryFits(value);
    AreaSame(st, st', Entry(k, slot), slot, ty);
    HoldsFrame(st, st', EntryPlace(slot, k), 0, value, v);
  }

  lemma EntryFits(value: Ty)
    requires ValidTy(value)
    ensures Fits(0, value)
  {
    SizeShape(value);
  }

  /** A whole area that hangs from a slot is covered by what lies in the slot. */
  lemma AreaSame(st: Storage, st': Storage, r: Region, slot: Slot, ty: Ty)
    requires r == Data(slot) || (r.Entry? && r.slot == slot)
    requires SizeOf(ty) == 32 && SameOn(st, st', slot, 0, ty)
    ensures forall c: Cell | Address(r, c.slot, c.offset).Some? :: Get(st, c) == Get(st', c)
  {
    forall c: Cell | Address(r, c.slot, c.offset).Some?
      ensures Get(st, c) == Get(st', c)
    {
      AreaCovered(r, slot, ty, c);
    }
  }

  lemma StringHoldsFrame(st: Storage, st': Storage, slot: Slot, text: bool, v: Val)
    requires SameOn(st, st', slot, 0, Bytes(text)) && Holds(st, slot, 0, Bytes(text), v)
    ensures Holds(st', slot, 0, Bytes(text), v)
  {
    var ty, bs := Bytes(text), v.bytes;
    forall o | 0 <= o < 32
      ensures Get(st', Cell(slot, o)) == Get(st, Cell(slot, o))
    {
      OwnCovered(slot, 0, ty, o);
    }
    if |bs| >= 32 {
      BytesAtFrame(st, st', slot, 0, ty, ToBigEndian(2 * |bs| + 1, SlotBytes()));
      forall j | 0 <= j < |bs|
        ensures Get(st', DataCell(slot, j)) == Get(st, DataCell(slot, j))
      {
        DataCovered(slot, ty, j);
      }
    }
  }

  ghost predicate ElementSame(st: Storage, st': Storage, slot: Slot, base: Ty, i: nat) {
    SameOn(st, st', ElementPlace(slot, SizeOf(base), i), ElementOffset(SizeOf(base), i), base)
  }

  lemma {:induction false} ElemsHoldFrame(st: Storage, st': Storage, slot: Slot, base: Ty, elems: seq<Val>)
    requires ValidTy(base) && HoldsElems(st, slot, base, elems)
    requires forall i | 0 <= i < |elems| :: ElementSame(st, st', slot, base, i)
    ensures HoldsElems(st', slot, base, elems)
    decreases base, 1
  {
    forall i | 0 <= i < |elems|
      ensures ElementHeld(st', slot, base, i, elems[i])
    {
      ElementFits(base, i);
      assert ElementHeld(st, slot, base, i, elems[i]) && ElementSame(st, st', slot, base, i);
      HoldsFrame(st, st', ElementPlace(slot, SizeOf(base), i), ElementOffset(SizeOf(base), i), base, elems[i]);
    }
  }

  // ---- What was written is held ----

  lemma WrittenBytes(st: Storage, slot: Slot, offset: nat, bs: seq<Byte>)
    ensures BytesAt(WriteBytes(st, slot, offset, bs), slot, offset, bs)
  {
    forall j | 0 <= j < |bs|
      ensures Get(WriteBytes(st, slot, offset, bs), Cell(slot, offset + |bs| - 1 - j)) == bs[j]
    {
      assert Cell(slot, offset + |bs| - 1 - j) == CellAfter(slot, offset, |bs| - 1 - j);
    }
  }

  lemma WrittenShort(st: Storage, slot: Slot, bs: seq<Byte>)
    requires |bs| < 32
    ensures HoldsString(WriteString(st, slot, bs), slot, bs)
  {
    var st1 := WriteBytes(st, slot, 0, [2 * |bs|]);
    var st2 := WriteBytes(st1, slot, 32 - |bs|, bs);
    assert Get(st1, CellAfter(slot, 0, 0)) == 2 * |bs|;
    assert Get(st2, Cell(slot, 0)) == 2 * |bs|;
    forall j | 0 <= j < |bs|
      ensures Get(st2, Cell(slot, 31 - j)) == bs[j]
    {
      assert Cell(slot, 31 - j) == CellAfter(slot, 32 - |bs|, |bs| - 1 - j);
    }
  }

  lemma WrittenString(st: Storage, slot: Slot, bs: seq<Byte>)
    ensures HoldsString(WriteString(st, slot, bs), slot, bs)
  {
    if |bs| < 32 {
      WrittenShort(st, slot, bs);
    } else {
      var header := ToBigEndian(2 * |bs| + 1, SlotBytes());
      var st1 := WriteBytes(st, slot, 0, header);
      WrittenBytes(st, slot, 0, header);
      forall o: nat
        ensures Get(WriteData(st1, slot, bs), Cell(slot, o)) == Get(st1, Cell(slot, o))
      {
        OwnSlotOutside(Data(slot), slot, o);
      }
    }
  }

  /** The writer follows the rules. */
  lemma {:induction false} WrittenHolds(st: Storage, slot: Slot, offset: nat, ty: Ty, v: Val)
    requires ValidTy(ty) && HasType(ty, v) && Fits(offset, ty)
    ensures Holds(Write(st, slot, offset, ty, v), slot, offset, ty, v)
    decreases ty, 0, 0
  {
    match ty
    case Scalar(kind, size) => WrittenBytes(st, slot, offset, ScalarBytes(kind, size, v));
    case Bytes(_) => WrittenString(st, slot, v.bytes);
    case FixedArray(base, length) => WrittenElems(st, slot, base, v.elems);
    case DynArray(base) => WrittenDyn(st, slot, base, v);
    case Struct(members, slots) => WrittenStruct(st, slot, members, slots, v);
    case Mapping(key, value) => WrittenMapping(st, slot, key, value, v);
  }

  lemma {:induction false} WrittenDyn(st: Storage, slot: Slot, base: Ty, v: Val)
    requires ValidTy(base) && HasType(DynArray(base), v)
    ensures Holds(Write(st, slot, 0, DynArray(base), v), slot, 0, DynArray(base), v)
    decreases base, 3
  {
    var header := ToBigEndian(|v.elems|, SlotBytes());
    WrittenBytes(st, slot, 0, header);
    WrittenElems(WriteBytes(st, slot, 0, header), Slot(Data(slot), 0), base, v.elems);
    HeaderKept(WriteBytes(st, slot, 0, header), slot, base, v.elems, header);
  }

  lemma {:induction false} WrittenStruct(st: Storage, slot: Slot, members: seq<Member>, slots: nat, v: Val)
    requires ValidTy(Struct(members, slots)) && HasType(Struct(members, slots), v)
    ensures Holds(Write(st, slot, 0, Struct(members, slots), v), slot, 0, Struct(members, slots), v)
    decreases members, 2
  {
    forall i | 0 <= i < |members|
      ensures MemberHeld(WriteMembers(st, slot, members, v.fields, |members|), slot, members[i],
          v.fields[members[i].name])
    {
      WrittenMember(st, slot, members, slots, v.fields, |members|, i);
    }
  }

  lemma {:induction false} WrittenMapping(st: Storage, slot: Slot, key: KeyTy, value: Ty, v: Val)
    requires ValidTy(value) && HasType(Mapping(key, value), v)
    ensures Holds(Write(st, slot, 0, Mapping(key, value), v), slot, 0, Mapping(key, value), v)
    decreases value, 2
  {
    forall k | k in v.entries
      ensures EntryHeld(WriteEntries(st, slot, key, value, v.entries, v.entries.Keys), slot, key, value, k,
          v.entries[k])
    {
      WrittenEntry(st, slot, key, value, v.entries, v.entries.Keys, k);
    }
  }

  lemma ElementsApart(slot: Slot, base: Ty, i: nat, j: nat, c: Cell)
    requires ValidTy(base) && i < j && ElementCovers(slot, base, i, c)
    ensures !ElementCovers(slot, base, j, c)
  {
    SizeShape(base);
    ElementsInOrder(SizeOf(base), i, j);
  }

  /** Writing element `j` keeps element `i`. */
  lemma ElementKept(st: Storage, slot: Slot, base: Ty, i: nat, v: Val, j: nat, w: Val)
    requires ValidTy(base) && i < j && ElementHeld(st, slot, base, i, v)
    ensures ElementHeld(WriteElement(st, slot, base, j, w), slot, base, i, v)
  {
    ElementFits(base, i);
    ElementFits(base, j);
    var st' := WriteElement(st, slot, base, j, w);
    forall c | ElementCovers(slot, base, i, c)
      ensures Get(st, c) == Get(st', c)
    {
      ElementsApart(slot, base, i, j, c);
      WriteFrame(st, ElementPlace(slot, SizeOf(base), j), ElementOffset(SizeOf(base), j), base, w, c);
    }
    assert ElementSame(st, st', slot, base, i);
    HoldsFrame(st, st', ElementPlace(slot, SizeOf(base), i), ElementOffset(SizeOf(base), i), base, v);
  }

  lemma {:induction false} WrittenElems(st: Storage, slot: Slot, base: Ty, elems: seq<Val>)
    requires ValidTy(base) && forall i | 0 <= i < |elems| :: HasType(base, elems[i])
    ensures HoldsElems(WriteElems(st, slot, base, elems, |elems|), slot, base, elems)
    decreases base, 2
  {
    forall i | 0 <= i < |elems|
      ensures ElementHeld(WriteElems(st, slot, base, elems, |elems|), slot, base, i, elems[i])
    {
      WrittenElement(st, slot, base, elems, |elems|, i);
    }
  }

  lemma {:induction false} WrittenElement(st: Storage, slot: Slot, base: Ty, elems: seq<Val>, n: nat, i: nat)
    requires ValidTy(base) && i < n <= |elems| && HasType(base, elems[i])
    ensures ElementHeld(WriteElems(st, slot, base, elems, n), slot, base, i, elems[i])
    decreases base, 1, n
  {
    if i < n - 1 {
      WrittenElement(st, slot, base, elems, n - 1, i);
      WrittenKept(st, slot, base, elems, n, i);
    } else {
      LastWritten(st, slot, base, elems, n);
      WrittenLast(WriteElems(st, slot, base, elems, n - 1), slot, base, i, elems[i]);
    }
  }

  lemma WrittenKept(st: Storage, slot: Slot, base: Ty, elems: seq<Val>, n: nat, i: nat)
    requires ValidTy(base) && i < n - 1 < |elems| && ElementHeld(WriteElems(st, slot, base, elems, n - 1), slot, base,
        i, elems[i])
    ensures ElementHeld(WriteElems(st, slot, base, elems, n), slot, base, i, elems[i])
  {
    LastWritten(st, slot, base, elems, n);
    ElementKept(WriteElems(st, slot, base, elems, n - 1), slot, base, i, elems[i], n - 1, elems[n - 1]);
  }

  lemma LastWritten(st: Storage, slot: Slot, base: Ty, elems: seq<Val>, n: nat)
    requires 0 < n <= |elems|
    ensures WriteElems(st, slot, base, elems, n) == WriteElement(WriteElems(st, slot, base, elems, n - 1), slot, base,
        n - 1, elems[n - 1])
  {}

  lemma {:induction false} WrittenLast(before: Storage, slot: Slot, base: Ty, i: nat, v: Val)
    requires ValidTy(base) && HasType(base, v)
    ensures ElementHeld(WriteElement(before, slot, base, i, v), slot, base, i, v)
    decreases base, 1, 0
  {
    ElementFits(base, i);
    WrittenHolds(before, ElementPlace(slot, SizeOf(base), i), ElementOffset(SizeOf(base), i), base, v);
  }

  /** Writing the elements of a dynamic array keeps its length. */
  lemma HeaderKept(st: Storage, slot: Slot, base: Ty, elems: seq<Val>, header: seq<Byte>)
    requires ValidTy(base) && BytesAt(st, slot, 0, header)
    ensures BytesAt(WriteElems(st, Slot(Data(slot), 0), base, elems, |elems|), slot, 0, header)
  {
    forall o: nat
      ensures Get(WriteElems(st, Slot(Data(slot), 0), base, elems, |elems|), Cell(slot, o)) == Get(st, Cell(slot, o))
    {
      OwnSlotOutside(Data(slot), slot, o);
      ElemsFrame(st, Slot(Data(slot), 0), base, elems, |elems|, Cell(slot, o));
    }
  }

  ghost predicate Writable(m: Member, fields: map<Label, Val>) {
    ValidTy(m.ty) && Fits(m.offset, m.ty) && m.name in fields && HasType(m.ty, fields[m.name])
  }

  lemma {:induction false} WrittenMember(st: Storage, slot: Slot, members: seq<Member>, slots: nat, fields: map<Label,
      Val>, n: nat, i: nat)
    requires Placed(members, slots) && i < n <= |members| && forall k | 0 <= k < |members| ::
        Writable(members[k], fields)
    ensures members[i].name in fields
    ensures MemberHeld(WriteMembers(st, slot, members, fields, n), slot, members[i], fields[members[i].name])
    decreases members, 1, n
  {
    var before, last := WriteMembers(st, slot, members, fields, n - 1), members[n - 1];
    assert Writable(last, fields);
    if i < n - 1 {
      WrittenMember(st, slot, members, slots, fields, n - 1, i);
      MemberKept(before, slot, members[i], last, fields[members[i].name], fields[last.name]);
    } else {
      WrittenHolds(before, MemberPlace(slot, last), last.offset, last.ty, fields[last.name]);
    }
  }

  /** Writing a later member keeps an earlier one. */
  lemma MemberKept(st: Storage, slot: Slot, m: Member, later: Member, v: Val, w: Val)
    requires ValidTy(m.ty) && ValidTy(later.ty) && Fits(m.offset, m.ty) && Fits(later.offset, later.ty)
    requires MemberEnd(m) <= MemberStart(later) && MemberHeld(st, slot, m, v)
    ensures MemberHeld(WriteMember(st, slot, later, w), slot, m, v)
  {
    var st' := WriteMember(st, slot, later, w);
    forall c | Covers(MemberPlace(slot, m), m.offset, m.ty, c)
      ensures Get(st, c) == Get(st', c)
    {
      WriteFrame(st, MemberPlace(slot, later), later.offset, later.ty, w, c);
    }
    HoldsFrame(st, st', MemberPlace(slot, m), m.offset, m.ty, v);
  }

  lemma {:induction false} WrittenEntry(st: Storage, slot: Slot, key: KeyTy, value: Ty, entries: map<Key, Val>,
      keys: set<Key>, k: Key)
    requires ValidTy(value) && k in keys && keys <= entries.Keys
    requires forall j | j in entries :: KeyHasType(key, j) && HasType(value, entries[j])
    ensures EntryHeld(WriteEntries(st, slot, key, value, entries, keys), slot, key, value, k, entries[k])
    decreases value, 1, |keys|
  {
    var last := SomeKey(keys);
    var before := WriteEntries(st, slot, key, value, entries, keys - {last});
    if k != last {
      WrittenEntry(st, slot, key, value, entries, keys - {last}, k);
      OtherEntryKept(before, slot, key, value, k, entries[k], last, entries[last]);
    } else {
      EntryFits(value);
      WrittenHolds(before, EntryPlace(slot, SolidityKey(key, k)), 0, value, entries[k]);
    }
  }

  lemma OtherEntryKept(st: Storage, slot: Slot, key: KeyTy, value: Ty, k: Key, v: Val, other: Key, w: Val)
    requires ValidTy(value) && KeyHasType(key, k) && KeyHasType(key, other) && k != other
        && EntryHeld(st, slot, key, value, k, v)
    ensures EntryHeld(WriteEntry(st, slot, key, value, other, w), slot, key, value, k, v)
  {
    KeysApart(key, k, other);
    EntryKept(st, slot, SolidityKey(key, k), value, v, SolidityKey(key, other), w);
  }

  /** Writing one entry changes no cell of another. */
  lemma EntrySame(st: Storage, slot: Slot, k: seq<Byte>, value: Ty, other: seq<Byte>, w: Val)
    requires ValidTy(value) && k != other
    ensures SameOn(st, Write(st, EntryPlace(slot, other), 0, value, w), EntryPlace(slot, k), 0, value)
  {
    EntryFits(value);
    forall c | Covers(EntryPlace(slot, k), 0, value, c)
      ensures Get(st, c) == Get(Write(st, EntryPlace(slot, other), 0, value, w), c)
    {
      if Covers(EntryPlace(slot, other), 0, value, c) {
        EntriesApart(k, other, slot, c.slot, c.offset);
      }
      WriteFrame(st, EntryPlace(slot, other), 0, value, w, c);
    }
  }

  lemma EntryKept(st: Storage, slot: Slot, k: seq<Byte>, value: Ty, v: Val, other: seq<Byte>, w: Val)
    requires ValidTy(value) && k != other && Holds(st, EntryPlace(slot, k), 0, value, v)
    ensures Holds(Write(st, EntryPlace(slot, other), 0, value, w), EntryPlace(slot, k), 0, value, v)
  {
    EntryFits(value);
    EntrySame(st, slot, k, value, other, w);
    HoldsFrame(st, Write(st, EntryPlace(slot, other), 0, value, w), EntryPlace(slot, k), 0, value, v);
  }

  lemma BigEndianApart(v: nat, w: nat, n: nat)
    requires v < Pow256(n) && w < Pow256(n) && v != w
    ensures ToBigEndian(v, n) != ToBigEndian(w, n)
  {
    FromToBigEndian(v, n);
    FromToBigEndian(w, n);
  }

  /** Different keys are hashed from different bytes. */
  lemma KeysApart(key: KeyTy, k: Key, other: Key)
    requires KeyHasType(key, k) && KeyHasType(key, other) && k != other
    ensures SolidityKey(key, k) != SolidityKey(key, other)
  {
    match key
    case KBool => assert SolidityKey(key, k)[31] != SolidityKey(key, other)[31];
    case KInt(signed) =>
      if signed {
        TwosRoundTrip(k.n, SlotBytes());
        TwosRoundTrip(other.n, SlotBytes());
      }
      BigEndianApart(ToTwos(k.n, SlotBytes()), ToTwos(other.n, SlotBytes()), SlotBytes());
    case KAddress =>
      assert SolidityKey(key, k)[12..] == k.bytes && SolidityKey(key, other)[12..] == other.bytes;
    case KFixed(size) =>
      assert SolidityKey(key, k)[..size] == k.bytes && SolidityKey(key, other)[..size] == other.bytes;
    case _ =>
  }
}
