/**
 What a number field of the printf engine says: which value its digits read back as,
 with and without '#', and when the field is the one section 7.21.6.1 of ISO C11
 prescribes.
 */
module PrintfFields {
  import opened PrintfModel

  // --------------------------------------------------------- reading a field back

  /** The k lowest digits of v, by those of v / base. */
  lemma LowDigitsSplit(v: nat, base: nat, upper: bool, room: nat, k: nat)
    requires 2 <= base <= 16 && room > 0 && 0 < k <= |DigitsOf(v, base, upper, room)|
    ensures DigitsOf(v, base, upper, room)[..k] == [DigitChar(v % base, upper)] +
            if k == 1 then "" else DigitsOf(v / base, base, upper, room - 1)[..k - 1]
    ensures k > 1 ==> room > 1 && k - 1 <= |DigitsOf(v / base, base, upper, room - 1)|
    ensures k == 1 || v / base != 0
  {
    var d := [DigitChar(v % base, upper)];
    if k > 1 {
      var rest := DigitsOf(v / base, base, upper, room - 1);
      assert (d + rest)[..k] == d + rest[..k - 1];
    }
  }

  /** The k lowest digits read back as the value modulo base^k. */
  lemma {:induction false} LowDigitsRead(v: nat, base: nat, upper: bool, room: nat, k: nat)
    requires 2 <= base <= 16 && room > 0 && k <= |DigitsOf(v, base, upper, room)|
    ensures Power(base, k) >= 1 && ReadLow(DigitsOf(v, base, upper, room)[..k], base) == v % Power(base, k)
    decreases room
  {
    if k > 0 {
      PowerPositive(base, k - 1);
      ModStep(v, base, Power(base, k - 1), Power(base, k));
      LowDigitsSplit(v, base, upper, room, k);
      var low := if k == 1 then "" else DigitsOf(v / base, base, upper, room - 1)[..k - 1];
      if k > 1 { LowDigitsRead(v / base, base, upper, room - 1, k - 1); }
      LowSplit(DigitsOf(v, base, upper, room)[..k], base, v % base, upper, low);
    }
  }

  lemma {:induction false} HighZeros(ds: string, z: nat, base: nat)
    ensures ReadLow(ds + Repeat('0', z), base) == ReadLow(ds, base)
    decreases |ds| + z
  {
    var t := ds + Repeat('0', z);
    if ds != "" {
      assert t[1..] == ds[1..] + Repeat('0', z);
      HighZeros(ds[1..], z, base);
    } else if z > 0 {
      assert t[1..] == "" + Repeat('0', z - 1);
      HighZeros("", z - 1, base);
    }
  }

  /** How many digits '#' leaves of n under z zeros when it cuts c characters. */
  function DigitsKept(n: nat, z: nat, c: nat): (k: nat)
    requires c <= n + z
    ensures k <= n
  {
    if c <= z then n else n - (c - z)
  }

  lemma RemainingIs(ds: string, z: nat, c: nat)
    requires c <= |ds| + z
    ensures (ds + Repeat('0', z))[..|ds| + z - c] ==
            if c <= z then ds + Repeat('0', z - c) else ds[..DigitsKept(|ds|, z, c)]
  {
    var buf := ds + Repeat('0', z);
    if c <= z { assert buf[..|ds| + z - c] == ds + Repeat('0', z - c); }
  }

  /** The zeros and digits of a number field, in printing order. */
  function Numeral(v: nat, f: Flags, base: nat, w: nat, precision: nat): string
    requires 2 <= base <= 16
  {
    Reverse(Remaining(Padded(OwnDigits(v, OwnFlags(v, f), base), OwnFlags(v, f), w, precision), OwnFlags(v, f), w, precision, base))
  }

  /** They read back as the value modulo base^48 when '#' cuts zeros at most, and
      else as the value modulo base^k for the k digits that are left. */
  lemma {:induction false} FieldReads(v: nat, f: Flags, base: nat, w: nat, precision: nat, g: Flags, n: nat, z: nat, c: nat)
    requires 2 <= base <= 16 && g == OwnFlags(v, f) && n == |OwnDigits(v, g, base)|
    requires z == ZeroCount(n, g, w, precision) && c == CutCount(n + z, g, w, precision, base)
    ensures var k := if c <= z then NTOA_MAX else DigitsKept(n, z, c);
            Power(base, k) >= 1 && ReadNumber(Numeral(v, f, base, w, precision), base) == v % Power(base, k)
  {
    NumeralIs(v, f, base, w, precision, g, z, c);
    var ds := OwnDigits(v, g, base);
    if c <= z {
      ReadReversed(ds + Repeat('0', z - c), base);
      HighZeros(ds, z - c, base);
      AllDigitsRead(v, g, base);
    } else {
      ReadReversed(ds[..DigitsKept(n, z, c)], base);
      LowDigitsRead(v, base, Upper in g, NTOA_MAX, DigitsKept(n, z, c));
    }
  }

  lemma NumeralIs(v: nat, f: Flags, base: nat, w: nat, precision: nat, g: Flags, z: nat, c: nat)
    requires 2 <= base <= 16 && g == OwnFlags(v, f)
    requires z == ZeroCount(|OwnDigits(v, g, base)|, g, w, precision)
    requires c == CutCount(|OwnDigits(v, g, base)| + z, g, w, precision, base)
    ensures var ds := OwnDigits(v, g, base);
            Numeral(v, f, base, w, precision) ==
            Reverse(if c <= z then ds + Repeat('0', z - c) else ds[..DigitsKept(|ds|, z, c)])
  {
    PaddedIs(OwnDigits(v, g, base), g, w, precision);
    RemainingIs(OwnDigits(v, g, base), z, c);
  }

  lemma {:induction false} AllDigitsRead(v: nat, f: Flags, base: nat)
    requires 2 <= base <= 16
    ensures Power(base, NTOA_MAX) >= 1 && ReadLow(OwnDigits(v, f, base), base) == v % Power(base, NTOA_MAX)
  {
    DigitsRead(v, base, Upper in f, NTOA_MAX);
    PowerPositive(base, NTOA_MAX);
    if v == 0 { ModSmall(v, Power(base, NTOA_MAX)); }
  }

  lemma {:induction false} PowerUp(base: nat, k: nat, n: nat)
    requires base >= 1 && k <= n
    ensures 1 <= Power(base, k) <= Power(base, n)
  {
    PowerSum(base, k, n - k);
    PowerPositive(base, k);
    PowerPositive(base, n - k);
    MulMonotone(Power(base, k), 1, Power(base, n - k));
  }

  /** Reducing to fewer digits keeps a number just when it has no more. */
  lemma {:induction false} FewerDigits(v: nat, base: nat, k: nat, n: nat)
    requires base >= 1 && k <= n
    ensures Power(base, k) >= 1 && Power(base, n) >= 1
    ensures v % Power(base, k) == v % Power(base, n) <==> v % Power(base, n) < Power(base, k)
  {
    PowerUp(base, k, n);
    PowerPositive(base, n);
    var a, q := v % Power(base, n), v / Power(base, n);
    DivMod(v, Power(base, n));
    DivMod(v, Power(base, k));
    PowerSum(base, k, n - k);
    MulAssoc(Power(base, k), Power(base, n - k), q);
    if a < Power(base, k) { ModUnique(v, Power(base, k), Power(base, n - k) * q, a); }
  }

  /** So the field of a value that fits in 48 digits reads back as that value if and
      only if '#' cuts no more than there are zeros; longer values, which are binary,
      do so modulo 2^48 also when the digits that are lost are zero. */
  lemma {:induction false} FieldReadsIff(v: nat, f: Flags, base: nat, w: nat, precision: nat, g: Flags, n: nat, z: nat, c: nat)
    requires 2 <= base <= 16 && g == OwnFlags(v, f) && n == |OwnDigits(v, g, base)|
    requires z == ZeroCount(n, g, w, precision) && c == CutCount(n + z, g, w, precision, base)
    ensures Power(base, NTOA_MAX) >= 1
    ensures ReadNumber(Numeral(v, f, base, w, precision), base) == v % Power(base, NTOA_MAX) <==>
            c <= z || v % Power(base, NTOA_MAX) < Power(base, DigitsKept(n, z, c))
    ensures v < Power(base, NTOA_MAX) ==>
              (ReadNumber(Numeral(v, f, base, w, precision), base) == v <==> c <= z)
    ensures v < 0x1_0000_0000_0000_0000 && base > 2 ==> v < Power(base, NTOA_MAX)
  {
    FieldReads(v, f, base, w, precision, g, n, z, c);
    PowerPositive(base, NTOA_MAX);
    if base > 2 { PowerGrows(base, NTOA_MAX); }
    FewerDigits(v, base, DigitsKept(n, z, c), NTOA_MAX);
    if v < Power(base, NTOA_MAX) { ModUnique(v, Power(base, NTOA_MAX), 0, v); }
    if c > z { LeadingDigitCounts(v, base, Upper in g, DigitsKept(n, z, c)); }
  }

  /** A number other than 0 is not less than the power its leading digit stands for. */
  lemma {:induction false} LeadingDigitCounts(v: nat, base: nat, upper: bool, k: nat)
    requires 2 <= base <= 16 && v != 0 && k < |DigitsOf(v, base, upper, NTOA_MAX)|
    ensures Power(base, k) <= v
  {
    var n := |DigitsOf(v, base, upper, NTOA_MAX)|;
    DigitsNeeded(v, base, upper, NTOA_MAX);
    PowerUp(base, k, n - 1);
    assert n == 1 ==> Power(base, k) == 1;
  }

  lemma FourDigits()
    ensures OwnDigits(0x1234, {Hash}, 16) == "4321"
  {
    DigitsStep(0x1234, 16, false, 0);
    DigitsStep(0x123, 16, false, 1);
    DigitsStep(0x12, 16, false, 2);
    DigitsStep(0x1, 16, false, 3);
    assert DigitsLeft(0, 16, false, 4) == "";
  }

  lemma CutToTwo(f: Flags)
    requires f == {Hash}
    ensures Remaining(Padded("4321", f, 4, 0), f, 4, 0, 16) == "43" && Mark(2, f, 16) == "0x"
  {
    assert ZerosTo("4321", 0) == "4321";
    assert Padded("4321", f, 4, 0) == "4321";
    assert "0" + "x" == "0x" && Letter(2, f, 16) == "x" && ZeroMark(2, f, 16) == "0";
  }

  lemma CutField(v: nat, f: Flags)
    requires f == {Hash} && v != 0 && OwnDigits(v, f, 16) == "4321"
    ensures NumberField(v, f, 16, 4, 0, false) == "0x34"
  {
    CutToTwo(f);
    FieldShape(v, f, 16, 4, 0, false, f, 4);
    ReverseConcat("4", "3");
    ReverseShort("4");
    ReverseShort("3");
    assert "4" + "3" == "43" && "3" + "4" == "34" && "" + ("0x" + "34") == "0x34";
    assert Repeat(' ', 0) + "0x34" + "" == "0x34";
  }

  /** %#4x of 0x1234 prints 0x34. */
  lemma HashLosesDigits()
    ensures NumberField(0x1234, {Hash}, 16, 4, 0, false) == "0x34"
  {
    FourDigits();
    CutField(0x1234, {Hash});
  }
}
