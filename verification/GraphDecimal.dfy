/**
  Digits and exponent of a decimal number in graph-node's format (packages/util/src/graph/graph-decimal.ts),
  taken from the base 10^7 words and the exponent that decimal.js holds.
*/
module GraphDecimals {
  import opened Wrappers

  const LOG_BASE: nat := 7
  const WORD: nat := 10000000
  const MIN_EXP: int := -6143
  const MAX_EXP: int := 6144

  type Digits = seq<nat>

  function Pow10(k: nat): (r: nat)
    ensures r >= 1
  {
    if k == 0 then 1 else 10 * Pow10(k - 1)
  }

  /** m times 10^z. */
  function Amount(m: nat, z: int): real
    decreases if z < 0 then -z else z
  {
    if z == 0 then m as real else if z > 0 then Amount(10 * m, z - 1) else Amount(m, z + 1) / 10.0
  }

  /** The number that digits stand for. */
  function Value(ds: Digits): nat {
    if ds == [] then 0 else Value(ds[..|ds| - 1]) * 10 + ds[|ds| - 1]
  }

  /** The decimal digits of a number, as JavaScript writes it. */
  function Decimal(n: nat): (r: Digits)
    ensures r != []
  {
    if n < 10 then [n] else Decimal(n / 10) + [n % 10]
  }

  ghost predicate AllDigits(ds: Digits) {
    forall i | 0 <= i < |ds| :: ds[i] < 10
  }

  function Zeros(k: nat): (r: Digits)
    ensures |r| == k
  {
    seq(k, _ => 0)
  }

  // ---- decimal.js numbers ----

  /** Words as decimal.js keeps them: no zero word in front or at the back, except for zero itself. */
  ghost predicate Normalised(d: seq<nat>, e: int) {
    && d != [] && (forall i | 0 <= i < |d| :: d[i] < WORD)
    && (d == [0] ==> e == 0) && (d != [0] ==> d[0] != 0 && d[|d| - 1] != 0)
  }

  /** The number whose base 10^7 digits are the words. */
  function Words(d: seq<nat>): nat {
    if d == [] then 0 else Words(d[..|d| - 1]) * WORD + d[|d| - 1]
  }

  /** How many decimal digits the words stand for: seven each, but the first has no zeros in front. */
  function Length(d: seq<nat>): nat
    requires d != []
  {
    |Decimal(d[0])| + LOG_BASE * (|d| - 1)
  }

  /** The absolute value: the words with the decimal point set so that the first digit counts 10^e. */
  function Magnitude(d: seq<nat>, e: int): real
    requires d != []
  {
    Amount(Words(d), e - Length(d) + 1)
  }

  /** A word with zeros in front. */
  function Padded(w: nat): Digits {
    if |Decimal(w)| < LOG_BASE then Zeros(LOG_BASE - |Decimal(w)|) + Decimal(w) else Decimal(w)
  }

  function AllPadded(d: seq<nat>): Digits
    requires d != []
  {
    if |d| == 1 then Decimal(d[0]) else AllPadded(d[..|d| - 1]) + Padded(d[|d| - 1])
  }

  /** Without the zeros at the end. */
  function Strip(ds: Digits): Digits {
    if ds != [] && ds[|ds| - 1] == 0 then Strip(ds[..|ds| - 1]) else ds
  }

  function GraphDigits(d: seq<nat>): Digits
    requires d != []
  {
    if d == [0] then [0] else Strip(AllPadded(d))
  }

  /** getGraphDigitsAndExp. */
  function DigitsAndExp(d: seq<nat>, e: int): (Digits, int)
    requires d != []
  {
    var digits := GraphDigits(d);
    (digits, e - |digits| + 1)
  }

  // ---- Facts about digits ----

  lemma ShiftDigits(x: nat, power: nat, y: nat, digit: nat)
    ensures (x * power + y) * 10 + digit == x * (10 * power) + (y * 10 + digit)
  {}

  lemma {:induction false} ValueAppend(a: Digits, b: Digits)
    ensures Value(a + b) == Value(a) * Pow10(|b|) + Value(b)
  {
    if b == [] {
      assert a + b == a;
    } else {
      var init, last := b[..|b| - 1], b[|b| - 1];
      ValueAppend(a, init);
      assert (a + b)[..|a + b| - 1] == a + init;
      ShiftDigits(Value(a), Pow10(|init|), Value(init), last);
    }
  }

  lemma {:induction false} ValueZeros(k: nat)
    ensures Value(Zeros(k)) == 0
  {
    if k > 0 {
      assert Zeros(k)[..k - 1] == Zeros(k - 1);
      ValueZeros(k - 1);
    }
  }

  /** Writing a number and reading it gives it back; it has no zero in front, and as many digits as its
      size asks for. */
  lemma {:induction false} DecimalValue(n: nat)
    ensures var ds := Decimal(n); Value(ds) == n && AllDigits(ds) && (n > 0 ==> ds[0] != 0) && n < Pow10(|ds|)
  {
    if n < 10 {
      assert [n][..0] == [];
    } else {
      DecimalValue(n / 10);
      var ds := Decimal(n / 10);
      assert (ds + [n % 10])[..|ds|] == ds;
    }
  }

  lemma {:induction false} DecimalShort(n: nat, k: nat)
    requires n < Pow10(k) && k > 0
    ensures |Decimal(n)| <= k
  {
    if n >= 10 {
      assert k > 1;
      DecimalShort(n / 10, k - 1);
    }
  }

  lemma WordIsPower()
    ensures Pow10(LOG_BASE) == WORD
  {
    assert Pow10(3) == 1000;
    assert Pow10(6) == 1000 * Pow10(3);
  }

  lemma PaddedValue(w: nat)
    requires w < WORD
    ensures |Padded(w)| == LOG_BASE && Value(Padded(w)) == w && AllDigits(Padded(w))
  {
    WordIsPower();
    DecimalShort(w, LOG_BASE);
    DecimalValue(w);
    ZerosInFront(LOG_BASE - |Decimal(w)|, Decimal(w));
  }

  lemma ZerosInFront(k: nat, ds: Digits)
    requires AllDigits(ds)
    ensures Value(Zeros(k) + ds) == Value(ds) && AllDigits(Zeros(k) + ds) && |Zeros(k) + ds| == k + |ds|
  {
    ValueAppend(Zeros(k), ds);
    ValueZeros(k);
  }

  /** All words written out: the digits stand for the same number, and none in front is zero. */
  lemma {:induction false} AllPaddedValue(d: seq<nat>)
    requires d != [] && d[0] != 0 && forall i | 0 <= i < |d| :: d[i] < WORD
    ensures var ds := AllPadded(d); Value(ds) == Words(d) && |ds| == Length(d) && AllDigits(ds) && ds[0] != 0
  {
    if |d| == 1 {
      DecimalValue(d[0]);
      assert d[..0] == [];
    } else {
      var init, w := d[..|d| - 1], d[|d| - 1];
      AllPaddedValue(init);
      PaddedValue(w);
      ValueAppend(AllPadded(init), Padded(w));
      WordIsPower();
    }
  }

  lemma {:induction false} WordsPositive(d: seq<nat>)
    requires d != [] && d[0] != 0
    ensures Words(d) > 0
  {
    if |d| == 1 {
      assert d[..0] == [];
    } else {
      WordsPositive(d[..|d| - 1]);
    }
  }

  /** Stripping divides by a power of ten and leaves a last digit that is not zero. */
  lemma {:induction false} StripValue(ds: Digits)
    requires Value(ds) > 0
    ensures var r := Strip(ds);
      && r != [] && r <= ds && r[|r| - 1] != 0 && Value(ds) == Value(r) * Pow10(|ds| - |r|)
  {
    if ds[|ds| - 1] == 0 {
      StripValue(ds[..|ds| - 1]);
    }
  }

  lemma {:induction false} AmountStep(m: nat, z: int)
    ensures Amount(m, z + 1) == Amount(10 * m, z)
    decreases if z < 0 then -z else z
  {
    if z < -1 {
      AmountStep(m, z + 1);
    }
  }

  lemma {:induction false} AmountShift(m: nat, z: int, k: nat)
    ensures Amount(m, z + k) == Amount(m * Pow10(k), z)
    decreases k
  {
    if k > 0 {
      AmountStep(m, z + k - 1);
      AmountShift(10 * m, z, k - 1);
      assert 10 * m * Pow10(k - 1) == m * Pow10(k);
    }
  }

  lemma {:induction false} AmountGrows(m: nat, n: nat, z: int)
    requires m < n
    ensures Amount(m, z) < Amount(n, z)
    decreases if z < 0 then -z else z
  {
    if z > 0 {
      AmountGrows(10 * m, 10 * n, z - 1);
    } else if z < 0 {
      AmountGrows(m, n, z + 1);
    }
  }

  lemma AmountEqual(m: nat, x: int, n: nat, y: int)
    requires x <= y && Amount(m, x) == Amount(n, y)
    ensures m == n * Pow10(y - x)
  {
    AmountShift(n, x, y - x);
    var shifted := n * Pow10(y - x);
    if m < shifted {
      AmountGrows(m, shifted, x);
    } else if m > shifted {
      AmountGrows(shifted, m, x);
    }
  }

  // ---- What the digits and the exponent mean ----

  /** Digits without a zero in front or at the end, except for zero itself. */
  ghost predicate Canonical(ds: Digits) {
    AllDigits(ds) && ds != [] && (ds == [0] || (ds[0] != 0 && ds[|ds| - 1] != 0))
  }

  /** The digits that are left once the zeros at the end of all words are gone. */
  lemma StrippedWords(d: seq<nat>)
    requires d != [] && d[0] != 0 && forall i | 0 <= i < |d| :: d[i] < WORD
    ensures var r := Strip(AllPadded(d));
      && |r| <= Length(d) && Words(d) == Value(r) * Pow10(Length(d) - |r|)
      && AllDigits(r) && r != [] && r[0] != 0 && r[|r| - 1] != 0
  {
    AllPaddedValue(d);
    WordsPositive(d);
    StripValue(AllPadded(d));
  }

  lemma StrippedAmount(d: seq<nat>, e: int)
    requires d != [] && d[0] != 0 && forall i | 0 <= i < |d| :: d[i] < WORD
    ensures var r := Strip(AllPadded(d)); Amount(Value(r), e - |r| + 1) == Magnitude(d, e)
  {
    StrippedWords(d);
    var r := Strip(AllPadded(d));
    AmountShift(Value(r), e - Length(d) + 1, Length(d) - |r|);
  }

  lemma {:induction false} ZeroAmount(z: int)
    ensures Amount(0, z) == 0.0
    decreases if z < 0 then -z else z
  {
    if z > 0 {
      ZeroAmount(z - 1);
    } else if z < 0 {
      ZeroAmount(z + 1);
    }
  }

  lemma ZeroWord(d: seq<nat>, e: int)
    requires |d| == 1 && d[0] == 0
    ensures Magnitude(d, e) == Amount(Value(d), e) == 0.0
  {
    assert d[..|d| - 1] == [] && Value(d) == Words(d) == 0;
    ZeroAmount(e);
    ZeroAmount(e - Length(d) + 1);
  }

  /** The digits, read as an integer and scaled by the exponent, are the absolute value. */
  lemma DigitsAndExpValue(d: seq<nat>, e: int)
    requires Normalised(d, e)
    ensures var (digits, exp) := DigitsAndExp(d, e); Amount(Value(digits), exp) == Magnitude(d, e)
  {
    if d[0] == 0 {
      ZeroWord(d, e);
    } else {
      StrippedAmount(d, e);
    }
  }

  lemma GraphDigitsCanonical(d: seq<nat>, e: int)
    requires Normalised(d, e)
    ensures Canonical(GraphDigits(d)) && (GraphDigits(d) == [0] <==> d == [0])
  {
    if d != [0] {
      StrippedWords(d);
    }
  }

  /** The first digit counts 10^e, as it does in decimal.js. */
  lemma {:induction false} LeadingDigit(ds: Digits)
    requires ds != [] && AllDigits(ds) && ds[0] != 0
    ensures Pow10(|ds| - 1) <= Value(ds) < Pow10(|ds|)
  {
    if |ds| == 1 {
      assert ds[..0] == [];
    } else {
      LeadingDigit(ds[..|ds| - 1]);
    }
  }

  lemma MagnitudeBounds(d: seq<nat>, e: int)
    requires Normalised(d, e) && d != [0]
    ensures Amount(1, e) <= Magnitude(d, e) < Amount(1, e + 1)
  {
    AllPaddedValue(d);
    LeadingDigit(AllPadded(d));
    AmountBounds(Words(d), Length(d), e);
  }

  lemma AmountBounds(m: nat, n: nat, e: int)
    requires n > 0 && Pow10(n - 1) <= m < Pow10(n)
    ensures Amount(1, e) <= Amount(m, e - n + 1) < Amount(1, e + 1)
  {
    var low := e - n + 1;
    AmountShift(1, low, n - 1);
    AmountShift(1, low, n);
    AmountGrows(m, Pow10(n), low);
    if Pow10(n - 1) < m {
      AmountGrows(Pow10(n - 1), m, low);
    }
  }

  // ---- The form is unique ----

  lemma LastDigit(ds: Digits)
    requires ds != [] && AllDigits(ds)
    ensures Value(ds) % 10 == ds[|ds| - 1]
  {}

  lemma {:induction false} DigitsUnique(a: Digits, b: Digits)
    requires AllDigits(a) && AllDigits(b) && Value(a) == Value(b) && (a != [] ==> a[0] != 0) && (b != [] ==> b[0] != 0)
    ensures a == b
  {
    if a == [] || b == [] {
      if a != [] {
        LeadingDigit(a);
      }
      if b != [] {
        LeadingDigit(b);
      }
    } else {
      LastDigit(a);
      LastDigit(b);
      DigitsUnique(a[..|a| - 1], b[..|b| - 1]);
      assert a == a[..|a| - 1] + [a[|a| - 1]];
    }
  }

  lemma TenDivides(n: nat, k: nat)
    requires k > 0
    ensures n * Pow10(k) % 10 == 0
  {
    assert n * Pow10(k) == 10 * (n * Pow10(k - 1));
  }

  lemma CanonicalUnique(a: Digits, x: int, b: Digits, y: int)
    requires Canonical(a) && Canonical(b) && a != [0] && b != [0] && x <= y
        && Amount(Value(a), x) == Amount(Value(b), y)
    ensures a == b && x == y
  {
    AmountEqual(Value(a), x, Value(b), y);
    LastDigit(a);
    if x < y {
      TenDivides(Value(b), y - x);
      assert false;
    }
    DigitsUnique(a, b);
  }

  /** Two numbers other than zero have the same digits and exponent exactly if they are equal. */
  lemma SameDigitsIffEqual(d: seq<nat>, e: int, d': seq<nat>, e': int)
    requires Normalised(d, e) && Normalised(d', e') && d != [0] && d' != [0]
    ensures DigitsAndExp(d, e) == DigitsAndExp(d', e') <==> Magnitude(d, e) == Magnitude(d', e')
  {
    DigitsAndExpValue(d, e);
    DigitsAndExpValue(d', e');
    GraphDigitsCanonical(d, e);
    GraphDigitsCanonical(d', e');
    var (a, x) := DigitsAndExp(d, e);
    var (b, y) := DigitsAndExp(d', e');
    if Magnitude(d, e) == Magnitude(d', e') {
      if x <= y {
        CanonicalUnique(a, x, b, y);
      } else {
        CanonicalUnique(b, y, a, x);
      }
    }
  }

  // ---- The loops ----

  /** _getZeroString. */
  method GetZeroString(k: nat) returns (zs: Digits)
    ensures zs == Zeros(k)
  {
    zs := [];
    var left: nat := k;
    while left != 0
      invariant left <= k && zs == Zeros(k - left)
      decreases left
    {
      left := left - 1;
      zs := zs + [0];
    }
  }

  /** A word with the zeros in front that it lacks. */
  method PadWord(w: nat) returns (ws: Digits)
    requires w < WORD
    ensures ws == Padded(w)
  {
    ws := Decimal(w);
    PaddedValue(w);
    WordIsPower();
    DecimalShort(w, LOG_BASE);
    var k := LOG_BASE - |ws|;
    if k != 0 {
      var zs := GetZeroString(k);
      ws := zs + ws;
    }
  }

  lemma StripLast(s: Digits, w: nat)
    requires w > 0
    ensures Strip(s + Decimal(w)) == if w % 10 == 0 then Strip(s + Decimal(w / 10)) else s + Decimal(w)
  {
    if w % 10 == 0 {
      var ds := s + Decimal(w);
      assert ds[|ds| - 1] == 0;
      assert ds[..|ds| - 1] == s + Decimal(w / 10);
    }
  }

  /** The digits in front, then the last word without the zeros at its end. */
  method StripWord(s: Digits, last: nat) returns (r: Digits)
    requires last > 0
    ensures r == Strip(s + Decimal(last))
  {
    var w: nat := last;
    while w % 10 == 0
      invariant w > 0 && Strip(s + Decimal(last)) == Strip(s + Decimal(w))
      decreases w
    {
      StripLast(s, w);
      w := w / 10;
    }
    StripLast(s, w);
    r := s + Decimal(w);
  }

  /** _digitsToString; the last loop ends because the last word is not zero. */
  method DigitsToString(d: seq<nat>) returns (r: Digits)
    requires d != [] && (forall i | 0 <= i < |d| :: d[i] < WORD) && (|d| > 1 ==> d[|d| - 1] != 0)
    ensures r == GraphDigits(d)
  {
    var indexOfLastWord := |d| - 1;
    if indexOfLastWord == 0 {
      if d[0] == 0 {
        return [0];
      }
      r := StripWord([], d[0]);
      assert [] + Decimal(d[0]) == Decimal(d[0]);
    } else {
      var str := Decimal(d[0]);
      for i := 1 to indexOfLastWord
        invariant str == AllPadded(d[..i])
      {
        var ws := PadWord(d[i]);
        assert d[..i + 1][..i] == d[..i];
        str := str + ws;
      }
      var w := d[indexOfLastWord];
      var padded := PadWord(w);
      var zs := padded[..|padded| - |Decimal(w)|];
      assert str + padded == str + zs + Decimal(w);
      r := StripWord(str + zs, w);
    }
  }

  /** _checkOutOfRange, for the exponent of the digits. */
  method CheckOutOfRange(d: seq<nat>, e: int) returns (r: Result<int>)
    requires Normalised(d, e)
    ensures match r
      case Success(exp) => exp == DigitsAndExp(d, e).1 && -6143 <= exp <= 6144
      case Failure(_) => !(-6143 <= DigitsAndExp(d, e).1 <= 6144)
  {
    var digits := DigitsToString(d);
    var exp := e - |digits| + 1;
    if exp < MIN_EXP || exp > MAX_EXP {
      return Failure("Big decimal exponent is outside the range");
    }
    return Success(exp);
  }

  /** A number other than zero is in range exactly if it is an integer that ten does not divide, scaled by
      a power of ten in the range. */
  lemma InRangeExact(d: seq<nat>, e: int)
    requires Normalised(d, e) && d != [0]
    ensures MIN_EXP <= DigitsAndExp(d, e).1 <= MAX_EXP <==>
      exists m: nat, z: int :: m % 10 != 0 && MIN_EXP <= z <= MAX_EXP && Amount(m, z) == Magnitude(d, e)
  {
    DigitsAndExpValue(d, e);
    GraphDigitsCanonical(d, e);
    var (digits, exp) := DigitsAndExp(d, e);
    LastDigit(digits);
    forall m: nat, z: int | m % 10 != 0 && Amount(m, z) == Magnitude(d, e)
      ensures z == exp
    {
      SameExponent(m, z, Value(digits), exp);
    }
    if MIN_EXP <= exp <= MAX_EXP {
      assert Value(digits) % 10 != 0 && Amount(Value(digits), exp) == Magnitude(d, e);
    }
  }

  lemma SameExponent(m: nat, x: int, n: nat, y: int)
    requires m % 10 != 0 && n % 10 != 0 && Amount(m, x) == Amount(n, y)
    ensures x == y
  {
    if x < y {
      AmountEqual(m, x, n, y);
      TenDivides(n, y - x);
    } else if y < x {
      AmountEqual(n, y, m, x);
      TenDivides(m, x - y);
    }
  }
}
