/**
  Where the compiler puts the members of a struct, by the rules of "Layout of State Variables in Storage"
  of the Solidity 0.8.4 documentation: in order, packed into a slot while they fit, and compound types in
  slots of their own. The decoder gets these places with the storage layout.
*/
module StoragePlacement {
  import opened StorageLayout
  import opened Wrappers

  datatype Field = Field(name: Label, ty: Ty)

  function RoundUp(pos: nat): (r: nat)
    ensures pos <= r && r % 32 == 0
  {
    (pos + 31) / 32 * 32
  }

  /** The byte at which a member starts when the ones before it end at `pos`. */
  function StartAt(pos: nat, ty: Ty): (start: nat)
    ensures pos <= start
  {
    if ty.Scalar? && pos % 32 + SizeOf(ty) <= 32 then pos else RoundUp(pos)
  }

  /** Where the rules let a member start: a value in one slot, anything else at the start of a slot. */
  predicate MayStart(start: nat, ty: Ty) {
    if ty.Scalar? then start % 32 + SizeOf(ty) <= 32 else start % 32 == 0
  }

  lemma RoundsUp(pos: nat, start: nat)
    requires pos <= start
    ensures RoundUp(pos) % 32 == 0 && (start % 32 == 0 || start % 32 < pos % 32 ==> RoundUp(pos) <= start)
  {
    assert start == start / 32 * 32 + start % 32;
  }

  /** A member starts at the first byte from the end of the one before at which it may. */
  lemma StartsFirst(pos: nat, ty: Ty, start: nat)
    requires ValidTy(ty) && pos <= start && MayStart(start, ty)
    ensures MayStart(StartAt(pos, ty), ty) && pos <= StartAt(pos, ty) <= start
  {
    SizeShape(ty);
    RoundsUp(pos, start);
  }

  function EndOf(fields: seq<Field>): nat {
    if fields == [] then 0
    else
      var ty := fields[|fields| - 1].ty;
      StartAt(EndOf(fields[..|fields| - 1]), ty) + SizeOf(ty)
  }

  function Assign(fields: seq<Field>): (r: seq<Member>)
    ensures |r| == |fields|
  {
    if fields == [] then []
    else
      var last, start := fields[|fields| - 1], StartAt(EndOf(fields[..|fields| - 1]), fields[|fields| - 1].ty);
      Assign(fields[..|fields| - 1]) + [Member(last.name, start / 32, start % 32, last.ty)]
  }

  /** The struct type that the compiler makes of its fields. */
  function Compiled(fields: seq<Field>): Ty {
    Struct(Assign(fields), RoundUp(EndOf(fields)) / 32)
  }

  lemma PlacedLast(pos: nat, ty: Ty)
    requires ValidTy(ty)
    ensures var start := StartAt(pos, ty); Fits(start % 32, ty)
  {
    SizeShape(ty);
  }

  lemma {:induction false} AssignAt(fields: seq<Field>, i: nat)
    requires i < |fields| && forall k | 0 <= k < |fields| :: ValidTy(fields[k].ty)
    ensures var m := Assign(fields)[i];
      && m.name == fields[i].name && m.ty == fields[i].ty && Fits(m.offset, m.ty)
      && MemberStart(m) == StartAt(EndOf(fields[..i]), m.ty) && MemberEnd(m) == EndOf(fields[..i + 1]) <= EndOf(fields)
  {
    var init := fields[..|fields| - 1];
    if i < |init| {
      AssignAt(init, i);
      assert init[..i] == fields[..i] && init[..i + 1] == fields[..i + 1];
    } else {
      PlacedLast(EndOf(init), fields[i].ty);
      assert fields[..i] == init && fields[..i + 1] == fields;
    }
  }

  /** Members placed by the rules do not overlap, whatever fields there are. */
  lemma CompiledIsValid(fields: seq<Field>)
    requires fields != [] && (forall k | 0 <= k < |fields| :: ValidTy(fields[k].ty))
    requires forall i, j | 0 <= i < j < |fields| :: fields[i].name != fields[j].name
    ensures ValidTy(Compiled(fields))
  {
    var members, slots := Assign(fields), RoundUp(EndOf(fields)) / 32;
    SizeShape(fields[|fields| - 1].ty);
    forall i | 0 <= i < |members|
      ensures Fits(members[i].offset, members[i].ty) && MemberEnd(members[i]) <= 32 * slots && Flaw(members[i].ty).None?
    {
      AssignAt(fields, i);
    }
    forall i, j | 0 <= i < j < |members|
      ensures MemberEnd(members[i]) <= MemberStart(members[j]) && members[i].name != members[j].name
    {
      InOrder(fields, i, j);
    }
  }

  lemma {:induction false} InOrder(fields: seq<Field>, i: nat, j: nat)
    requires i < j < |fields| && (forall k | 0 <= k < |fields| :: ValidTy(fields[k].ty))
    requires fields[i].name != fields[j].name
    ensures var a, b := Assign(fields)[i], Assign(fields)[j]; MemberEnd(a) <= MemberStart(b) && a.name != b.name
  {
    AssignAt(fields, i);
    AssignAt(fields, j);
    AssignAt(fields[..j], i);
    assert fields[..j][..i + 1] == fields[..i + 1];
  }
}
