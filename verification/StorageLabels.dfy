/**
  Labels of types and getValueByType (packages/solidity-mapper/src/storage.ts), which reads the kind of a
  value off the label of its type: the kind comes out right for every type except contracts of some names.
*/
module StorageLabels {
  import opened Wrappers
  import opened ByteNumbers
  import opened StorageLayout
  import opened Utf8

  // ---- Numerals ----

  predicate IsDigit(c: char) {
    '0' <= c <= '9'
  }

  function Digit(n: nat): (c: char)
    requires n < 10
    ensures IsDigit(c)
  {
    '0' + n as char
  }

  function Numeral(n: nat): (s: string)
    ensures s != "" && forall i | 0 <= i < |s| :: IsDigit(s[i])
  {
    if n < 10 then [Digit(n)] else Numeral(n / 10) + [Digit(n % 10)]
  }

  /** The digits at the front. */
  function LeadingDigits(s: string): (t: string)
    ensures forall i | 0 <= i < |t| :: IsDigit(t[i])
  {
    if s != "" && IsDigit(s[0]) then [s[0]] + LeadingDigits(s[1..]) else ""
  }

  function NumberOf(s: string): nat
    requires forall i | 0 <= i < |s| :: IsDigit(s[i])
  {
    if s == "" then 0
    else
      assert IsDigit(s[|s| - 1]);
      10 * NumberOf(s[..|s| - 1]) + (s[|s| - 1] as int - '0' as int)
  }

  lemma {:induction false} AllLeading(s: string)
    requires forall i | 0 <= i < |s| :: IsDigit(s[i])
    ensures LeadingDigits(s) == s
  {
    if s != "" {
      AllLeading(s[1..]);
    }
  }

  lemma {:induction false} NumeralRoundTrip(n: nat)
    ensures NumberOf(LeadingDigits(Numeral(n))) == n
  {
    AllLeading(Numeral(n));
    if n < 10 {
      assert NumberOf("") == 0;
      assert Numeral(n)[..0] == "";
    } else {
      NumeralRoundTrip(n / 10);
      AllLeading(Numeral(n / 10));
      assert Numeral(n)[..|Numeral(n)| - 1] == Numeral(n / 10);
    }
  }

  // ---- Labels ----

  /** The label of a type that lies inside one slot. */
  function TypeLabel(kind: Kind, size: nat): string {
    match kind
    case Unsigned => "uint" + Numeral(8 * size)
    case Signed => "int" + Numeral(8 * size)
    case Enum(name) => "enum " + name
    case Boolean => "bool"
    case Address(payable) => if payable then "address payable" else "address"
    case FixedBytes => "bytes" + Numeral(size)
    case Contract(name) => "contract " + name
    case Function(signature) => "function " + signature
  }

  /** What the integer part of the pattern /^enum|((u?)int([0-9]+))/ captures. */
  datatype IntMatch = IntMatch(unsigned: bool, size: nat)

  predicate IntFront(s: string) {
    "int" < s && IsDigit(s[3])
  }

  function MatchFront(s: string): Option<IntMatch> {
    if s != "" && s[0] == 'u' && IntFront(s[1..]) then Some(IntMatch(true, NumberOf(LeadingDigits(s[4..]))))
    else if IntFront(s) then Some(IntMatch(false, NumberOf(LeadingDigits(s[3..]))))
    else None
  }

  /** The leftmost match: only the alternative for enums is tied to the front. */
  function FirstInt(s: string): Option<IntMatch> {
    if s == "" then None else if MatchFront(s).Some? then MatchFront(s) else FirstInt(s[1..])
  }

  predicate Includes(s: string, t: string) {
    t <= s || (s != "" && Includes(s[1..], t))
  }

  function Pow2(n: nat): (p: nat)
    ensures p >= 1
  {
    if n == 0 then 1 else 2 * Pow2(n - 1)
  }

  /** BN's notn flips the lowest `bits` bits. It clears those above them in the same word of 26 bits, and
      keeps the words above. */
  function NotBits(v: nat, bits: nat): int {
    var words := Pow2((bits + 25) / 26 * 26);
    v / words * words + (Pow2(bits) - 1 - v % Pow2(bits))
  }

  function FromTwosBits(v: nat, bits: nat): int
    requires bits > 0
  {
    if v / Pow2(bits - 1) % 2 == 1 then -(NotBits(v, bits) + 1) else v
  }

  function GetValueByType(storageValue: seq<Byte>, typeLabel: string): Result<Val> {
    if typeLabel == "bool" then Success(Flag(FromBigEndian(storageValue) != 0))
    else if "enum" <= typeLabel then Success(Num(FromBigEndian(storageValue)))
    else
      match FirstInt(typeLabel)
      case Some(m) => IntegerValue(FromBigEndian(storageValue), m)
      case None =>
        if !Includes(typeLabel, "string") then Success(Str(storageValue))
        else if WellFormed(storageValue) then Success(Text(storageValue))
        else Failure("invalid codepoint")
  }

  function IntegerValue(v: nat, m: IntMatch): Result<Val> {
    if m.unsigned then Success(Num(v))
    else if m.size == 0 then Failure("assertion failed")
    else Success(Num(FromTwosBits(v, m.size)))
  }

  // ---- Where the pattern matches ----

  ghost predicate MentionedAt(s: string, i: nat) {
    i <= |s| && IntFront(s[i..])
  }

  /** `int` and a digit somewhere in it. */
  ghost predicate MentionsInt(s: string) {
    exists i: nat :: MentionedAt(s, i)
  }

  lemma {:induction false} FirstIntExact(s: string)
    ensures FirstInt(s).Some? <==> MentionsInt(s)
  {
    if s != "" {
      FirstIntExact(s[1..]);
      MentionsTail(s);
      assert s[0..] == s;
      if MatchFront(s).Some? && !IntFront(s) {
        assert MentionedAt(s, 1);
      } else if IntFront(s) {
        assert MentionedAt(s, 0);
      }
    }
  }

  lemma MentionsTail(s: string)
    requires s != ""
    ensures MentionsInt(s) <==> IntFront(s) || MentionsInt(s[1..])
  {
    assert s[0..] == s;
    if IntFront(s) {
      assert MentionedAt(s, 0);
    }
    forall i: nat | MentionedAt(s, i) && i > 0
      ensures MentionedAt(s[1..], i - 1)
    {
      assert s[1..][i - 1..] == s[i..];
    }
    forall i: nat | MentionedAt(s[1..], i)
      ensures MentionedAt(s, i + 1)
    {
      assert s[1..][i..] == s[i + 1..];
    }
  }

  lemma InFront(s: string)
    ensures IntFront(s) ==> s[0] == 'i' && s[1] == 'n'
    ensures "string" <= s ==> s[0] == 's' && s[3] == 'i'
  {
    if "int" < s {
      assert s[0] == "int"[0] && s[1] == "int"[1];
    } else if "string" <= s {
      assert s[0] == "string"[0] && s[3] == "string"[3];
    }
  }

  /** A text without an `i` names no integer and no string. */
  lemma {:induction false} NothingIn(s: string)
    requires 'i' !in s
    ensures FirstInt(s).None? && !Includes(s, "string")
  {
    if s != "" {
      NothingIn(s[1..]);
      InFront(s);
      InFront(s[1..]);
    }
  }

  /** No match of "string" or of an integer type begins in the text: an `i` in it does not begin "int", a `u`
      does not begin "uint", and there is no `s`. */
  predicate Inert(p: string) {
    p == "" || (InertFirst(p) && Inert(p[1..]))
  }

  predicate InertFirst(p: string)
    requires p != ""
  {
    p[0] != 's' && (p[0] == 'i' ==> |p| > 1 && p[1] != 'n') && (p[0] == 'u' ==> |p| > 1 && p[1] != 'i')
  }

  lemma InertFront(p: string, s: string)
    requires p != "" && InertFirst(p)
    ensures FirstInt(p + s) == FirstInt((p + s)[1..])
    ensures Includes(p + s, "string") <==> Includes((p + s)[1..], "string")
  {
    var t := p + s;
    assert t[0] == p[0] && (|p| > 1 ==> t[1] == p[1]) && (|t| > 1 ==> t[1..][0] == t[1]);
    InFront(t);
    InFront(t[1..]);
  }

  /** A prefix in which no match can begin can be skipped. */
  lemma {:induction false} SkipPrefix(p: string, s: string)
    requires Inert(p)
    ensures FirstInt(p + s) == FirstInt(s) && (Includes(p + s, "string") <==> Includes(s, "string"))
  {
    if p == "" {
      assert p + s == s;
    } else {
      SkipPrefix(p[1..], s);
      assert (p + s)[1..] == p[1..] + s;
      InertFront(p, s);
    }
  }

  // ---- The kind comes out right ----

  /** What the source's own names and signatures put into a label. */
  function OwnText(kind: Kind): string {
    match kind
    case Contract(name) => name
    case Function(signature) => signature
    case _ => ""
  }

  /** A contract's name or a function's signature neither mentions an integer type nor a string. */
  ghost predicate Readable(kind: Kind) {
    kind.Contract? || kind.Function? ==> !MentionsInt(OwnText(kind)) && !Includes(OwnText(kind), "string")
  }

  lemma {:induction false} Pow2Bytes(n: nat)
    ensures Pow2(8 * n) == Pow256(n)
  {
    if n > 0 {
      Pow2Bytes(n - 1);
      Pow2Eight(8 * (n - 1));
    }
  }

  lemma Pow2Eight(n: nat)
    ensures Pow2(n + 8) == 256 * Pow2(n)
  {
    assert Pow2(n + 4) == 16 * Pow2(n) by {
      assert Pow2(n + 2) == 4 * Pow2(n);
    }
    assert Pow2(n + 6) == 64 * Pow2(n) by {
      assert Pow2(n + 6) == 4 * Pow2(n + 4);
    }
  }

  lemma {:induction false} Pow2Grows(m: nat, n: nat)
    requires m <= n
    ensures Pow2(m) <= Pow2(n)
  {
    if m < n {
      Pow2Grows(m, n - 1);
    }
  }

  /** On numbers of that size the bitwise form is the one by bytes. */
  lemma FromTwosAgrees(v: nat, size: nat)
    requires size > 0 && v < Pow256(size)
    ensures FromTwosBits(v, 8 * size) == FromTwos(v, size)
  {
    var bits, half := 8 * size, Pow2(8 * size - 1);
    Pow2Bytes(size);
    assert Pow256(size) == 2 * half;
    TopBit(v, half);
    var words := Pow2((bits + 25) / 26 * 26);
    Pow2Grows(bits, (bits + 25) / 26 * 26);
    SmallQuotient(v, words);
    SmallQuotient(v, Pow2(bits));
  }

  lemma TopBit(v: nat, half: nat)
    requires v < 2 * half
    ensures half > 0 && (v / half % 2 == 1 <==> v >= half)
  {
    if v < half {
      SmallQuotient(v, half);
    } else {
      assert v == v / half * half + v % half;
      QuotientBelow(v / half, 2, half);
    }
  }

  lemma QuotientBelow(q: nat, k: nat, d: nat)
    ensures q >= k ==> q * d >= k * d
  {
    if q >= k {
      assert (q - k) * d >= 0;
    }
  }

  lemma SmallQuotient(v: nat, d: nat)
    requires v < d
    ensures v / d == 0 && v % d == v
  {}

  lemma IntegerLabel(size: nat)
    ensures MatchFront("uint" + Numeral(8 * size)).Some? && MatchFront("uint" + Numeral(8 * size)).value.unsigned
    ensures MatchFront("int" + Numeral(8 * size)) == Some(IntMatch(false, 8 * size))
  {
    var d := Numeral(8 * size);
    assert ("uint" + d)[1..] == "int" + d;
    assert ("int" + d)[3..] == d;
    NumeralRoundTrip(8 * size);
  }

  lemma SignedRoundTrip(size: nat, v: int)
    requires 1 <= size && InRange(v, size)
    ensures GetValueByType(ScalarBytes(Signed, size, Num(v)), TypeLabel(Signed, size)) == Success(Num(v))
  {
    IntegerLabel(size);
    TwosRoundTrip(v, size);
    FromToBigEndian(ToTwos(v, size), size);
    FromTwosAgrees(ToTwos(v, size), size);
  }

  lemma UnsignedRoundTrip(size: nat, v: int)
    requires 1 <= size && 0 <= v < Pow256(size)
    ensures GetValueByType(ScalarBytes(Unsigned, size, Num(v)), TypeLabel(Unsigned, size)) == Success(Num(v))
  {
    IntegerLabel(size);
    FromToBigEndian(v, size);
  }

  lemma {:induction false} InertBefore(p: string, q: string)
    requires 'i' !in p && 'u' !in p && 's' !in p && Inert(q)
    ensures Inert(p + q)
  {
    if p == "" {
      assert p + q == q;
    } else {
      InertBefore(p[1..], q);
      assert (p + q)[0] == p[0] && (p + q)[1..] == p[1..] + q;
    }
  }

  lemma ContractInert()
    ensures Inert("contract ")
  {
    InertBefore("contract ", "");
    assert "contract " + "" == "contract ";
  }

  lemma IonInert()
    ensures Inert("ion ")
  {
    InertBefore("on ", "");
    assert "on " + "" == "on " && "ion "[1..] == "on ";
  }

  lemma UnctionInert()
    ensures Inert("unction ")
  {
    IonInert();
    InertBefore("nct", "ion ");
    assert "nct" + "ion " == "nction " && "unction "[1..] == "nction ";
  }

  lemma FunctionInert()
    ensures Inert("function ")
  {
    UnctionInert();
    InertBefore("f", "unction ");
    assert "f" + "unction " == "function ";
  }

  lemma ContractLabelExact(name: string, size: nat)
    ensures var t := TypeLabel(Contract(name), size);
      && t[0] == 'c' && (FirstInt(t).None? <==> !MentionsInt(name))
      && (Includes(t, "string") <==> Includes(name, "string"))
  {
    ContractInert();
    SkipPrefix("contract ", name);
    FirstIntExact(name);
  }

  lemma FunctionLabelExact(signature: string, size: nat)
    ensures var t := TypeLabel(Function(signature), size);
      && t[0] == 'f' && (FirstInt(t).None? <==> !MentionsInt(signature))
      && (Includes(t, "string") <==> Includes(signature, "string"))
  {
    FunctionInert();
    SkipPrefix("function ", signature);
    FirstIntExact(signature);
  }

  lemma RawLabel(kind: Kind, size: nat)
    requires IsRaw(kind)
    ensures TypeLabel(kind, size) != "bool" && !("enum" <= TypeLabel(kind, size))
    ensures FirstInt(TypeLabel(kind, size)).None? && !Includes(TypeLabel(kind, size), "string") <==> Readable(kind)
  {
    match kind
    case Contract(name) => ContractLabelExact(name, size);
    case Function(signature) => FunctionLabelExact(signature, size);
    case Address(payable) =>
      assert TypeLabel(kind, size)[0] == 'a';
      NothingIn(TypeLabel(kind, size));
    case FixedBytes =>
      assert TypeLabel(kind, size)[1] == 'y';
      assert 'i' !in Numeral(size);
      NothingIn("bytes" + Numeral(size));
  }

  lemma BooleanRoundTrip(size: nat, b: bool)
    requires 1 <= size
    ensures GetValueByType(ScalarBytes(Boolean, size, Flag(b)), "bool") == Success(Flag(b))
  {
    assert Pow256(size) == 256 * Pow256(size - 1);
    FromToBigEndian(if b then 1 else 0, size);
  }

  lemma EnumRoundTrip(name: string, size: nat, v: int)
    requires 1 <= size && 0 <= v < Pow256(size)
    ensures GetValueByType(ScalarBytes(Enum(name), size, Num(v)), TypeLabel(Enum(name), size)) == Success(Num(v))
  {
    assert TypeLabel(Enum(name), size)[0] == 'e';
    assert "enum" <= "enum " + name;
    FromToBigEndian(v, size);
  }

  lemma RawRoundTrip(kind: Kind, size: nat, bs: seq<Byte>)
    requires IsRaw(kind)
    ensures GetValueByType(bs, TypeLabel(kind, size)) == Success(Str(bs)) <==> Readable(kind)
  {
    RawLabel(kind, size);
  }

  /** Reading back the bytes of a value by the label of its type returns the value if and only if the type
      is neither a contract whose name nor a function whose signature mentions an integer type or a string. */
  lemma ScalarRoundTrip(kind: Kind, size: nat, v: Val)
    requires 1 <= size && ScalarHasType(kind, size, v)
    ensures GetValueByType(ScalarBytes(kind, size, v), TypeLabel(kind, size)) == Success(v) <==> Readable(kind)
  {
    match kind
    case Unsigned => UnsignedRoundTrip(size, v.n);
    case Signed => SignedRoundTrip(size, v.n);
    case Boolean => BooleanRoundTrip(size, v.b);
    case Enum(name) => EnumRoundTrip(name, size, v.n);
    case _ => RawRoundTrip(kind, size, v.bytes);
  }

  function ByteStringLabel(text: bool): string {
    if text then "string" else "bytes"
  }

  /** Byte strings come back as they are; text does if and only if it is well-formed. */
  lemma ByteStringRoundTrip(text: bool, bs: seq<Byte>)
    ensures GetValueByType(bs, ByteStringLabel(text)) == Success(if text then Text(bs) else Str(bs))
        <==> text ==> WellFormed(bs)
  {
    if text {
      assert "string"[0] == 's';
      NoDigitNoInt("string");
    } else {
      assert "bytes"[0] == 'b' && "bytes"[1] == 'y';
      NothingIn("bytes");
    }
  }

  lemma {:induction false} NoDigitNoInt(s: string)
    requires forall i | 0 <= i < |s| :: !IsDigit(s[i])
    ensures FirstInt(s).None?
  {
    if s != "" {
      NoDigitNoInt(s[1..]);
    }
  }

  lemma {:induction false} LeadingNumeral(d: string, q: string)
    requires (forall i | 0 <= i < |d| :: IsDigit(d[i])) && (q == "" || !IsDigit(q[0]))
    ensures LeadingDigits(d + q) == d
  {
    if d == "" {
      assert d + q == q;
    } else {
      LeadingNumeral(d[1..], q);
      assert (d + q)[1..] == d[1..] + q;
    }
  }

  lemma IntInFront(n: nat, q: string)
    requires q == "" || !IsDigit(q[0])
    ensures FirstInt("int" + Numeral(n) + q) == Some(IntMatch(false, n))
  {
    var s := "int" + Numeral(n) + q;
    assert s[3..] == Numeral(n) + q;
    LeadingNumeral(Numeral(n), q);
    AllLeading(Numeral(n));
    NumeralRoundTrip(n);
    assert s[0] == 'i' && "int" < s;
  }

  lemma ContractLabel(p: string, s: string)
    requires Inert(p)
    ensures var typeLabel := TypeLabel(Contract(p + s), 20);
      typeLabel != "bool" && !("enum" <= typeLabel) && FirstInt(typeLabel) == FirstInt(s)
  {
    assert TypeLabel(Contract(p + s), 20)[0] == 'c';
    ContractInert();
    SkipPrefix("contract ", p + s);
    SkipPrefix(p, s);
  }

  /** A boolean is read as true exactly if one of its bytes is not zero. */
  lemma {:induction false} BooleanRead(bs: seq<Byte>, size: nat)
    ensures GetValueByType(bs, TypeLabel(Boolean, size)) == Success(Flag(exists i | 0 <= i < |bs| :: bs[i] != 0))
  {
    NotZeroExact(bs);
  }

  lemma {:induction false} NotZeroExact(bs: seq<Byte>)
    ensures FromBigEndian(bs) != 0 <==> exists i | 0 <= i < |bs| :: bs[i] != 0
  {
    if bs != [] {
      NotZeroExact(bs[..|bs| - 1]);
      assert bs[|bs| - 1] == bs[|bs| - 1];
    }
  }

  /** A contract with a name such as Point3D is decoded as a signed number of three bits, and one such as Int0
      not at all. */
  lemma ContractReadAsNumber(p: string, n: nat, q: string, bs: seq<Byte>)
    requires Inert(p) && (q == "" || !IsDigit(q[0]))
    ensures var answer := GetValueByType(bs, TypeLabel(Contract(p + ("int" + Numeral(n) + q)), 20));
      if n > 0 then answer == Success(Num(FromTwosBits(FromBigEndian(bs), n))) else answer.Failure?
  {
    ContractLabel(p, "int" + Numeral(n) + q);
    IntInFront(n, q);
  }
}
