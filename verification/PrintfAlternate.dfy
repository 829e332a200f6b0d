/**
 Octal and hexadecimal conversions with '#' as section 7.21.6.1 of ISO C11 has them, and
 exactly when __ntoa (lethe-libc/stdio.c:95-204) prints the same.
 */
module PrintfAlternate {
  import opened PrintfModel
  import opened PrintfFields
  import opened PrintfStandard

  // -------------------------------------------------------------- the standard

  /** What '#' puts before a hexadecimal number other than 0. */
  function Prefix(v: nat, f: Flags, base: nat): string {
    if base != 16 || v == 0 then "" else if Upper in f then "0X" else "0x"
  }

  /** '#' makes an octal number start with 0. */
  function AltDigits(v: nat, f: Flags, base: nat, precision: nat): string
    requires 2 <= base <= 16
  {
    var digits := Digits(v, f, base, precision);
    if base == 8 && (digits == "" || digits[0] != '0') then "0" + digits else digits
  }

  /** The field of an unsigned conversion. */
  function AltField(v: nat, f: Flags, base: nat, width: nat, precision: nat): string
    requires 2 <= base <= 16
  {
    var prefix, digits := Prefix(v, f, base), AltDigits(v, f, base, precision);
    var gap := width - |prefix| - |digits|;
    if Left in f then prefix + digits + Repeat(' ', gap)
    else if ZeroPad in f && Prec !in f then prefix + Repeat('0', gap) + digits
    else Repeat(' ', gap) + prefix + digits
  }

  /** What vprintf sees to before it calls for such a conversion. */
  predicate Ready(f: Flags, precision: nat) {
    Hash in f && Plus !in f && Blank !in f && Prepared(f - {Hash}, precision)
  }

  /** When the two agree on a hexadecimal number of n digits other than 0: lower case, no
      digit is cut off, '-' meets no larger precision, and the prefix fits. */
  predicate HexAgrees(n: nat, f: Flags, width: nat, precision: nat) {
    && Upper !in f
    && if Left in f then precision <= n <= 46 && (Prec in f || n != width)
       else if ZeroPad in f then n <= 46 && width <= 48 && width != n && width != n + 1
       else n <= 46 && precision <= 46 && (Prec in f || n != width)
  }

  /** And on an octal one: __ntoa adds its zero also to the zeros of a precision, but for
      the precision 48, where it has no room. */
  predicate OctalAgrees(n: nat, f: Flags, width: nat, precision: nat) {
    if Left in f then precision <= n + 1 && n <= 47 && (Prec in f || n != width)
    else if ZeroPad in f then n <= 47 && width <= 48 && width != n
    else if precision > n then precision == 48
    else n <= 47 && (Prec in f || n != width)
  }

  /** 0 gets no '#' at all, which is wrong for the octal 0 of precision 0 alone. */
  predicate ZeroAgrees(f: Flags, base: nat, width: nat, precision: nat)
    requires 2 <= base <= 16
  {
    Agrees(0, f - {Hash}, base, width, precision, false) && !(base == 8 && Prec in f && precision == 0)
  }

  predicate AltAgrees(v: nat, f: Flags, base: nat, width: nat, precision: nat)
    requires base == 8 || base == 16
  {
    if v == 0 then ZeroAgrees(f, base, width, precision)
    else
      && v < Power(base, NTOA_MAX)
      && var n := OwnCount(v, f, base);
         if base == 16 then HexAgrees(n, f, width, precision) else OctalAgrees(n, f, width, precision)
  }

  // ------------------------------------------------------------------ counting

  /** Only figures, and no capital X. */
  predicate Plain(s: string) {
    forall c :: c in s ==> c != ' ' && c != '+' && c != '-' && c != 'X'
  }

  lemma {:induction false} PlainCount(s: string)
    requires Plain(s)
    ensures Figures(s) == |s|
  {
    if s != "" {
      assert s[0] in s;
      assert forall c :: c in s[1..] ==> c in s;
      PlainCount(s[1..]);
    }
  }

  lemma {:induction false} ReversePlain(s: string)
    requires Plain(s)
    ensures Plain(Reverse(s))
  {
    if s != "" {
      assert s[0] in s;
      assert forall c :: c in s[1..] ==> c in s;
      ReversePlain(s[1..]);
    }
  }

  lemma {:induction false} DigitsPlain(v: nat, base: nat, upper: bool, room: nat)
    requires 2 <= base <= 16 && room > 0
    ensures Plain(DigitsOf(v, base, upper, room))
    decreases room
  {
    DigitIsFigure(v % base, upper);
    assert DigitChar(v % base, upper) != 'X';
    if v / base != 0 && room > 1 { DigitsPlain(v / base, base, upper, room - 1); }
  }

  lemma ZerosPlain(n: int)
    ensures Plain(Repeat('0', n))
  {
  }

  // ----------------------------------------------------------------- the own field

  /** How many zeros __ntoa pads with, how many characters '#' cuts, and how many are
      left then. */
  predicate Buffered(n: nat, f: Flags, base: nat, width: nat, precision: nat, z: nat, c: nat, left: nat) {
    && n <= NTOA_MAX && z == ZeroCount(n, f, width, precision)
    && c == CutCount(n + z, f, width, precision, base) && left == n + z - c
  }

  /** What is left, in printing order. */
  function Body(ds: string, z: nat, c: nat): string
    requires c <= |ds| + z
  {
    Reverse(if c <= z then ds + Repeat('0', z - c) else ds[..DigitsKept(|ds|, z, c)])
  }

  lemma {:induction false} BodyIs(ds: string, z: nat, c: nat)
    requires c <= |ds| + z && Plain(ds)
    ensures |Body(ds, z, c)| == |ds| + z - c && Plain(Body(ds, z, c))
    ensures c <= z ==> Body(ds, z, c) == Repeat('0', z - c) + Reverse(ds)
  {
    if c <= z {
      ReverseConcat(ds, Repeat('0', z - c));
      ReverseRepeat('0', z - c);
      ZerosPlain(z - c);
      ReversePlain(ds + Repeat('0', z - c));
    } else {
      assert forall x :: x in ds[..DigitsKept(|ds|, z, c)] ==> x in ds;
      ReversePlain(ds[..DigitsKept(|ds|, z, c)]);
    }
  }

  lemma {:induction false} OwnShape(v: nat, f: Flags, base: nat, width: nat, precision: nat, ds: string, z: nat, c: nat, left: nat)
    requires (base == 8 || base == 16) && v != 0 && Ready(f, precision) && ds == OwnDigits(v, f, base)
    requires Buffered(|ds|, f, base, width, precision, z, c, left)
    ensures NumberField(v, f, base, width, precision, false) == Framed(Mark(left, f, base) + Body(ds, z, c), f, width)
  {
    NoSign(f, width, left + |Mark(left, f, base)|);
    FieldShape(v, f, base, width, precision, false, f, width);
    LeftIs(ds, f, base, width, precision, z, c, left);
    var all := Mark(left, f, base) + Body(ds, z, c);
    assert "" + all == all;
  }

  lemma NoSign(f: Flags, width: nat, k: nat)
    requires Plus !in f && Blank !in f
    ensures NarrowWidth(f, width, false) == width && FittingSign(k, f, false) == ""
  {
  }

  lemma {:induction false} LeftIs(ds: string, f: Flags, base: nat, width: nat, precision: nat, z: nat, c: nat, left: nat)
    requires Buffered(|ds|, f, base, width, precision, z, c, left)
    ensures var rest := Remaining(Padded(ds, f, width, precision), f, width, precision, base);
            |rest| == left && Reverse(rest) == Body(ds, z, c)
  {
    PaddedIs(ds, f, width, precision);
    RemainingIs(ds, z, c);
  }

  lemma {:induction false} OwnCounts(v: nat, f: Flags, base: nat, width: nat, precision: nat, ds: string, z: nat, c: nat, left: nat)
    requires (base == 8 || base == 16) && v != 0 && Ready(f, precision) && ds == OwnDigits(v, f, base)
    requires Buffered(|ds|, f, base, width, precision, z, c, left)
    ensures Figures(NumberField(v, f, base, width, precision, false)) == |Mark(left, f, base)| + left <= NTOA_MAX
    ensures 'X' !in NumberField(v, f, base, width, precision, false)
  {
    OwnShape(v, f, base, width, precision, ds, z, c, left);
    DigitsPlain(v, base, Upper in f, NTOA_MAX);
    BodyIs(ds, z, c);
    var mark, body := Mark(left, f, base), Body(ds, z, c);
    PlainMark(left, f, base);
    PlainCount(mark + body);
    CountFramed(mark + body, f, width);
    FramedLetters(mark + body, f, width);
  }

  lemma PlainMark(n: nat, f: Flags, base: nat)
    ensures Plain(Mark(n, f, base)) && (n <= NTOA_MAX ==> |Mark(n, f, base)| + n <= NTOA_MAX)
  {
  }

  lemma FramedLetters(text: string, f: Flags, width: nat)
    ensures 'X' in Framed(text, f, width) <==> 'X' in text
  {
    var gap := Repeat(' ', width - |text|);
    assert 'X' !in gap && 'X' !in "";
  }

  // ------------------------------------------------------------ the standard's field

  /** The zeros the standard puts before n digits. */
  function AltZeros(n: nat, f: Flags, base: nat, width: nat, precision: nat): nat {
    if ZeroPad in f && Left !in f then Max(width - (if base == 16 then 2 else 0) - n, if base == 8 then 1 else 0)
    else Max(precision - n, if base == 8 then 1 else 0)
  }

  lemma {:induction false} NaturalLeads(v: nat, base: nat, upper: bool)
    requires 2 <= base <= 16 && v != 0
    ensures Natural(v, base, upper) != "" && Natural(v, base, upper)[0] != '0'
  {
    DivMod(v, base);
    if v / base != 0 {
      assert v / base < v by { if v / base >= v { MulMonotone(base, v, v / base); MulMonotone(v, 2, base); } }
      NaturalLeads(v / base, base, upper);
    } else {
      assert Natural(0, base, upper) == "" && Natural(v, base, upper) == "" + [DigitChar(v % base, upper)];
    }
  }

  /** The digits of a number other than 0. */
  lemma {:induction false} AltDigitsIs(v: nat, f: Flags, base: nat, precision: nat, own: string)
    requires (base == 8 || base == 16) && v != 0 && Ready(f, precision) && v < Power(base, NTOA_MAX)
    requires own == Reverse(OwnDigits(v, f, base))
    ensures AltDigits(v, f, base, precision) ==
            Repeat('0', Max(precision - |own|, if base == 8 then 1 else 0)) + own
  {
    var g, n := f - {Hash}, |own|;
    SameDigits(v, g, base, precision, n);
    assert Digits(v, f, base, precision) == Digits(v, g, base, precision) == Repeat('0', precision - n) + own;
    NaturalIs(v, base, Upper in f, NTOA_MAX);
    NaturalLeads(v, base, Upper in f);
    Led(own, base, precision, Digits(v, f, base, precision), AltDigits(v, f, base, precision));
  }

  lemma Led(own: string, base: nat, precision: nat, digits: string, alt: string)
    requires own != "" && own[0] != '0' && digits == Repeat('0', precision - |own|) + own
    requires alt == if base == 8 && (digits == "" || digits[0] != '0') then "0" + digits else digits
    ensures alt == Repeat('0', Max(precision - |own|, if base == 8 then 1 else 0)) + own
  {
    if precision <= |own| {
      assert Repeat('0', precision - |own|) == "" && "" + own == own && Repeat('0', 0) == "" && Repeat('0', 1) == "0";
    }
  }

  lemma {:induction false} AltShape(v: nat, f: Flags, base: nat, width: nat, precision: nat, own: string, z: nat)
    requires (base == 8 || base == 16) && v != 0 && Ready(f, precision) && v < Power(base, NTOA_MAX)
    requires own == Reverse(OwnDigits(v, f, base)) && z == AltZeros(|own|, f, base, width, precision)
    ensures AltField(v, f, base, width, precision) == Framed(Prefix(v, f, base) + (Repeat('0', z) + own), f, width)
  {
    AltDigitsIs(v, f, base, precision, own);
    AltJoined(Prefix(v, f, base), own, f, base, width, precision, z, AltDigits(v, f, base, precision));
  }

  /** The zeros that fill up the width join those of the digits. */
  lemma AltJoined(prefix: string, own: string, f: Flags, base: nat, width: nat, precision: nat, z: nat, digits: string)
    requires |prefix| == (if base == 16 then 2 else 0) && Ready(f, precision) && (base == 8 || base == 16)
    requires digits == Repeat('0', Max(precision - |own|, if base == 8 then 1 else 0)) + own
    requires z == AltZeros(|own|, f, base, width, precision)
    ensures var gap := width - |prefix| - |digits|;
            Framed(prefix + (Repeat('0', z) + own), f, width) ==
            if Left in f then prefix + digits + Repeat(' ', gap)
            else if ZeroPad in f && Prec !in f then prefix + Repeat('0', gap) + digits
            else Repeat(' ', gap) + prefix + digits
  {
    if Left !in f && ZeroPad in f {
      ZerosJoin(prefix, own, width - |prefix| - |digits|, if base == 8 then 1 else 0, z);
    } else {
      Joined(prefix, digits, f, width, width - |prefix| - |digits|);
    }
  }

  lemma ZerosJoin(prefix: string, own: string, gap: int, k: nat, z: nat)
    requires z == Max(gap, 0) + k
    ensures "" + (prefix + (Repeat('0', z) + own)) + "" == prefix + Repeat('0', gap) + (Repeat('0', k) + own)
  {
    assert Repeat('0', z) == Repeat('0', gap) + Repeat('0', k);
  }

  lemma {:induction false} AltCounts(v: nat, f: Flags, base: nat, width: nat, precision: nat, own: string, z: nat)
    requires (base == 8 || base == 16) && v != 0 && Ready(f, precision) && v < Power(base, NTOA_MAX)
    requires own == Reverse(OwnDigits(v, f, base)) && z == AltZeros(|own|, f, base, width, precision)
    ensures Figures(AltField(v, f, base, width, precision)) == |Prefix(v, f, base)| + z + |own|
    ensures 'X' in AltField(v, f, base, width, precision) <==> base == 16 && Upper in f
  {
    AltShape(v, f, base, width, precision, own, z);
    DigitsPlain(v, base, Upper in f, NTOA_MAX);
    ReversePlain(OwnDigits(v, f, base));
    ZerosPlain(z);
    var prefix, tail := Prefix(v, f, base), Repeat('0', z) + own;
    PlainCount(tail);
    PrefixCount(v, f, base);
    CountConcat(prefix, tail);
    CountFramed(prefix + tail, f, width);
    FramedLetters(prefix + tail, f, width);
  }

  lemma PrefixCount(v: nat, f: Flags, base: nat)
    ensures Figures(Prefix(v, f, base)) == |Prefix(v, f, base)|
    ensures 'X' in Prefix(v, f, base) <==> base == 16 && v != 0 && Upper in f
  {
    assert "0X"[1..] == "X" && "0x"[1..] == "x" && "X"[1..] == "" && "x"[1..] == "";
    assert "0X"[1] == 'X';
  }

  // -------------------------------------------------------------------- agreement

  /** The two print equally many figures just when the conditions above hold, but for the
      case of the prefix. */
  lemma CountsIff(n: nat, f: Flags, base: nat, width: nat, precision: nat, z: nat, c: nat, left: nat, s: nat)
    requires (base == 8 || base == 16) && Ready(f, precision) && n > 0 && Buffered(n, f, base, width, precision, z, c, left)
    requires s == AltZeros(n, f, base, width, precision)
    ensures |Mark(left, f, base)| + left == (if base == 16 then 2 else 0) + s + n <==>
            if base == 16 then HexAgrees(n, f - {Upper}, width, precision) else OctalAgrees(n, f, width, precision)
  {
  }

  /** And then the same ones. */
  lemma SameText(n: nat, f: Flags, base: nat, width: nat, precision: nat, z: nat, c: nat, left: nat, s: nat, own: string)
    requires (base == 8 || base == 16) && Ready(f, precision) && n > 0 && Buffered(n, f, base, width, precision, z, c, left)
    requires s == AltZeros(n, f, base, width, precision) && |own| == n && (base == 16 ==> Upper !in f)
    requires |Mark(left, f, base)| + left == (if base == 16 then 2 else 0) + s + n
    ensures c <= z
    ensures Mark(left, f, base) + (Repeat('0', z - c) + own) == (if base == 16 then "0x" else "") + (Repeat('0', s) + own)
  {
  }

  lemma {:induction false} NonzeroIff(v: nat, f: Flags, base: nat, width: nat, precision: nat, ds: string, z: nat, c: nat,
                                      left: nat, s: nat)
    requires (base == 8 || base == 16) && v != 0 && Ready(f, precision) && ds == OwnDigits(v, f, base)
    requires Buffered(|ds|, f, base, width, precision, z, c, left) && s == AltZeros(|ds|, f, base, width, precision)
    requires v < Power(base, NTOA_MAX)
    ensures NumberField(v, f, base, width, precision, false) == AltField(v, f, base, width, precision) <==>
            if base == 16 then HexAgrees(|ds|, f, width, precision) else OctalAgrees(|ds|, f, width, precision)
  {
    CountsIff(|ds|, f, base, width, precision, z, c, left, s);
    LowerCase(|ds|, f, width, precision);
    if |Mark(left, f, base)| + left == (if base == 16 then 2 else 0) + s + |ds| && (base == 16 ==> Upper !in f) {
      NonzeroSame(v, f, base, width, precision, ds, z, c, left, s);
    } else {
      NonzeroDiffers(v, f, base, width, precision, ds, z, c, left, s);
    }
  }

  lemma LowerCase(n: nat, f: Flags, width: nat, precision: nat)
    ensures HexAgrees(n, f, width, precision) <==> Upper !in f && HexAgrees(n, f - {Upper}, width, precision)
  {
  }

  lemma {:induction false} NonzeroDiffers(v: nat, f: Flags, base: nat, width: nat, precision: nat, ds: string, z: nat, c: nat,
                                          left: nat, s: nat)
    requires (base == 8 || base == 16) && v != 0 && Ready(f, precision) && ds == OwnDigits(v, f, base)
    requires Buffered(|ds|, f, base, width, precision, z, c, left) && s == AltZeros(|ds|, f, base, width, precision)
    requires v < Power(base, NTOA_MAX)
    requires |Mark(left, f, base)| + left != (if base == 16 then 2 else 0) + s + |ds| || (base == 16 && Upper in f)
    ensures NumberField(v, f, base, width, precision, false) != AltField(v, f, base, width, precision)
  {
    OwnCounts(v, f, base, width, precision, ds, z, c, left);
    AltCounts(v, f, base, width, precision, Reverse(ds), s);
  }

  lemma {:induction false} NonzeroSame(v: nat, f: Flags, base: nat, width: nat, precision: nat, ds: string, z: nat, c: nat,
                                       left: nat, s: nat)
    requires (base == 8 || base == 16) && v != 0 && Ready(f, precision) && ds == OwnDigits(v, f, base)
    requires Buffered(|ds|, f, base, width, precision, z, c, left) && s == AltZeros(|ds|, f, base, width, precision)
    requires v < Power(base, NTOA_MAX) && (base == 16 ==> Upper !in f)
    requires |Mark(left, f, base)| + left == (if base == 16 then 2 else 0) + s + |ds|
    ensures NumberField(v, f, base, width, precision, false) == AltField(v, f, base, width, precision)
  {
    SameText(|ds|, f, base, width, precision, z, c, left, s, Reverse(ds));
    OwnShape(v, f, base, width, precision, ds, z, c, left);
    AltShape(v, f, base, width, precision, Reverse(ds), s);
    DigitsPlain(v, base, Upper in f, NTOA_MAX);
    BodyIs(ds, z, c);
  }

  /** Beyond 48 digits the standard prints more than __ntoa can. */
  lemma {:induction false} TooLong(v: nat, f: Flags, base: nat, width: nat, precision: nat, ds: string, z: nat, c: nat, left: nat)
    requires (base == 8 || base == 16) && v >= Power(base, NTOA_MAX) && Ready(f, precision) && ds == OwnDigits(v, f, base)
    requires v != 0 && Buffered(|ds|, f, base, width, precision, z, c, left)
    ensures NumberField(v, f, base, width, precision, false) != AltField(v, f, base, width, precision)
  {
    OwnCounts(v, f, base, width, precision, ds, z, c, left);
    NaturalLong(v, base, Upper in f, NTOA_MAX);
    AltFigures(v, f, base, width, precision);
  }

  lemma {:induction false} AltFigures(v: nat, f: Flags, base: nat, width: nat, precision: nat)
    requires base == 8 || base == 16
    ensures Figures(AltField(v, f, base, width, precision)) >= |Natural(v, base, Upper in f)|
  {
    var digits := AltDigits(v, f, base, precision);
    DigitsFigures(v, f, base, precision);
    CountConcat("0", Digits(v, f, base, precision));
    PlacedFigures(Prefix(v, f, base), digits, f, width - |Prefix(v, f, base)| - |digits|, AltField(v, f, base, width, precision));
  }

  lemma {:induction false} PlacedFigures(prefix: string, digits: string, f: Flags, gap: int, field: string)
    requires field == if Left in f then prefix + digits + Repeat(' ', gap)
                      else if ZeroPad in f && Prec !in f then prefix + Repeat('0', gap) + digits
                      else Repeat(' ', gap) + prefix + digits
    ensures Figures(field) >= Figures(digits)
  {
    PartsFigures(prefix, digits, gap);
  }

  lemma {:induction false} DigitsFigures(v: nat, f: Flags, base: nat, precision: nat)
    requires 2 <= base <= 16
    ensures Figures(Digits(v, f, base, precision)) >= |Natural(v, base, Upper in f)|
  {
    var natural := Natural(v, base, Upper in f);
    CountNatural(v, base, Upper in f);
    CountConcat(Repeat('0', (if Prec in f then precision else 1) - |natural|), natural);
  }

  lemma {:induction false} PartsFigures(prefix: string, digits: string, gap: int)
    ensures Figures(prefix + digits + Repeat(' ', gap)) >= Figures(digits)
    ensures Figures(prefix + Repeat('0', gap) + digits) >= Figures(digits)
    ensures Figures(Repeat(' ', gap) + prefix + digits) >= Figures(digits)
  {
    CountConcat(prefix, digits);
    CountConcat(prefix + digits, Repeat(' ', gap));
    CountConcat(prefix + Repeat('0', gap), digits);
    CountConcat(Repeat(' ', gap) + prefix, digits);
  }

  /** 0 is printed without '#'. */
  lemma {:induction false} ZeroIff(f: Flags, base: nat, width: nat, precision: nat)
    requires (base == 8 || base == 16) && Ready(f, precision)
    ensures NumberField(0, f, base, width, precision, false) == AltField(0, f, base, width, precision) <==>
            ZeroAgrees(f, base, width, precision)
  {
    var g := f - {Hash};
    assert g - {Hash} == g && OwnFlags(0, f) == g == OwnFlags(0, g);
    assert NumberField(0, f, base, width, precision, false) == NumberField(0, g, base, width, precision, false);
    FieldIffStandard(0, g, base, width, precision, false);
    ZeroDigits(f, base, precision);
    if base == 8 && Prec in f && precision == 0 {
      ZeroLost(f, width);
    } else {
      ZeroSame(f, base, width, precision);
    }
  }

  lemma ZeroDigits(f: Flags, base: nat, precision: nat)
    requires (base == 8 || base == 16) && Ready(f, precision)
    ensures Digits(0, f, base, precision) == Digits(0, f - {Hash}, base, precision) ==
            Repeat('0', if Prec in f then precision else 1)
  {
    assert Natural(0, base, Upper in f) == "";
    assert Repeat('0', if Prec in f then precision else 1) + "" == Repeat('0', if Prec in f then precision else 1);
  }

  lemma {:induction false} ZeroSame(f: Flags, base: nat, width: nat, precision: nat)
    requires (base == 8 || base == 16) && Ready(f, precision) && !(base == 8 && Prec in f && precision == 0)
    ensures AltField(0, f, base, width, precision) == Field(0, f - {Hash}, base, width, precision, false)
  {
    ZeroDigits(f, base, precision);
    var digits := Digits(0, f, base, precision);
    assert AltDigits(0, f, base, precision) == digits;
    var gap := width - |digits|;
    assert "" + digits == digits && "" + Repeat('0', gap) == Repeat('0', gap) && Repeat(' ', gap) + "" == Repeat(' ', gap);
  }

  lemma {:induction false} ZeroLost(f: Flags, width: nat)
    requires Ready(f, 0) && Prec in f
    ensures NumberField(0, f, 8, width, 0, false) != AltField(0, f, 8, width, 0)
  {
    var g := f - {Hash};
    assert OwnFlags(0, f) == g == OwnFlags(0, g);
    NoSign(g, width, 0);
    OwnFigures(0, g, 8, width, 0, false, 0, width, ZeroCount(0, g, width, 0));
    assert NumberField(0, f, 8, width, 0, false) == NumberField(0, g, 8, width, 0, false);
    ZeroDigits(f, 8, 0);
    assert Repeat('0', 0) == "" && AltDigits(0, f, 8, 0) == "0" + "" == "0";
    AltZeroCount(f, width);
  }

  lemma AltZeroCount(f: Flags, width: nat)
    requires AltDigits(0, f, 8, 0) == "0" && Ready(f, 0) && Prec in f
    ensures Figures(AltField(0, f, 8, width, 0)) == 1
  {
    var gap := width - 1;
    CountOne('0');
    if gap > 0 { CountRepeat(' ', gap); }
    CountConcat("" + "0", Repeat(' ', gap));
    CountConcat(Repeat(' ', gap) + "", "0");
    assert "" + "0" == "0" && Repeat(' ', gap) + "" == Repeat(' ', gap) && Figures("") == 0;
    assert gap <= 0 ==> Repeat(' ', gap) == "";
  }

  /** For every value, width, precision and flags of %#o, %#x and %#X: __ntoa prints what
      the standard prescribes if and only if they agree in the sense above. */
  lemma {:induction false} AlternateIff(v: nat, f: Flags, base: nat, width: nat, precision: nat)
    requires (base == 8 || base == 16) && Ready(f, precision)
    ensures NumberField(v, f, base, width, precision, false) == AltField(v, f, base, width, precision) <==>
            AltAgrees(v, f, base, width, precision)
  {
    if v == 0 {
      ZeroIff(f, base, width, precision);
    } else {
      var ds := OwnDigits(v, f, base);
      var z := ZeroCount(|ds|, f, width, precision);
      var c := CutCount(|ds| + z, f, width, precision, base);
      if v < Power(base, NTOA_MAX) {
        NonzeroIff(v, f, base, width, precision, ds, z, c, |ds| + z - c, AltZeros(|ds|, f, base, width, precision));
      } else {
        TooLong(v, f, base, width, precision, ds, z, c, |ds| + z - c);
      }
    }
  }

  lemma {:induction false} TenIsA(f: Flags)
    requires f == {Hash, Upper}
    ensures OwnDigits(0xA, f, 16) == "A" && Natural(0xA, 16, true) == "A"
  {
    DigitsStep(0xA, 16, true, 0);
    assert DigitsLeft(0, 16, true, 1) == "" && Natural(0, 16, true) == "";
  }

  lemma {:induction false} ShortHex(v: nat, f: Flags, d: char)
    requires f == {Hash, Upper} && v != 0 && v < Power(16, NTOA_MAX) && OwnDigits(v, f, 16) == [d]
    ensures NumberField(v, f, 16, 0, 0, false) == "0x" + [d] && AltField(v, f, 16, 0, 0) == "0X" + [d]
  {
    OwnShape(v, f, 16, 0, 0, [d], 0, 0, 1);
    ReverseShort([d]);
    AltShape(v, f, 16, 0, 0, [d], 0);
    assert [d] + Repeat('0', 0) == [d] && Repeat('0', 0) + [d] == [d];
    assert Mark(1, f, 16) == "0" + "x" == "0x";
    Bare("0x" + [d], f);
    Bare("0X" + [d], f);
  }

  lemma Bare(text: string, f: Flags)
    requires Left !in f && ZeroPad !in f
    ensures Framed(text, f, 0) == text
  {
    assert Repeat(' ', 0 - |text|) == "" && "" + text + "" == text;
  }

  /** %#X of 0xA prints 0xA, where the standard has 0XA. */
  lemma {:induction false} CapitalPrefix()
    ensures NumberField(0xA, {Hash, Upper}, 16, 0, 0, false) == "0xA" && AltField(0xA, {Hash, Upper}, 16, 0, 0) == "0XA"
  {
    TenIsA({Hash, Upper});
    PowerGrows(16, NTOA_MAX);
    ShortHex(0xA, {Hash, Upper}, 'A');
    assert "0x" + "A" == "0xA" && "0X" + "A" == "0XA";
  }

  lemma {:induction false} EightIsTen(f: Flags)
    requires f == {Hash, Prec}
    ensures OwnDigits(8, f, 8) == "01" && 8 < Power(8, NTOA_MAX)
  {
    DigitsStep(8, 8, false, 0);
    DigitsStep(1, 8, false, 1);
    PowerGrows(8, NTOA_MAX);
    assert DigitsLeft(0, 8, false, 2) == "";
  }

  /** %#.3o of 8 prints 0010, where the standard has 010. */
  lemma {:induction false} OctalZeroTooMany()
    ensures NumberField(8, {Hash, Prec}, 8, 0, 3, false) == "0010" && AltField(8, {Hash, Prec}, 8, 0, 3) == "010"
  {
    EightIsTen({Hash, Prec});
    ThreeOctal(8, {Hash, Prec});
  }

  lemma {:induction false} ThreeOctal(v: nat, f: Flags)
    requires f == {Hash, Prec} && v != 0 && v < Power(8, NTOA_MAX) && OwnDigits(v, f, 8) == "01"
    ensures NumberField(v, f, 8, 0, 3, false) == "0010" && AltField(v, f, 8, 0, 3) == "010"
  {
    ReverseTwo();
    OwnShape(v, f, 8, 0, 3, "01", 1, 0, 3);
    AltShape(v, f, 8, 0, 3, "10", 1);
    OctalTexts(f);
  }

  lemma {:induction false} OctalTexts(f: Flags)
    requires f == {Hash, Prec}
    ensures Framed(Mark(3, f, 8) + Body("01", 1, 0), f, 0) == "0010"
    ensures Framed("" + (Repeat('0', 1) + "10"), f, 0) == "010"
  {
    ReverseTwo();
    assert "01" + Repeat('0', 1) == "010" && Repeat('0', 1) + "10" == "010" && Mark(3, f, 8) == "0" + "" == "0";
    Bare("0010", f);
    Bare("010", f);
    assert "0" + "010" == "0010" && "" + "010" == "010";
  }

  lemma {:induction false} ReverseTwo()
    ensures Reverse("01") == "10" && Reverse("010") == "010"
  {
    ReverseConcat("0", "1");
    ReverseConcat("01", "0");
    ReverseShort("0");
    ReverseShort("1");
    assert "0" + "1" == "01" && "1" + "0" == "10" && "01" + "0" == "010" && "0" + "10" == "010";
  }
}
