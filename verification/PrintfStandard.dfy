/**
 Integer conversions without '#' as section 7.21.6.1 of ISO C11 has them, and exactly
 when __ntoa (lethe-libc/stdio.c:95-204) prints the same.
 */
module PrintfStandard {
  import opened PrintfModel
  import opened PrintfFields

  // -------------------------------------------------------------- the standard

  /** The value without leading zeros; nothing for 0. */
  function Natural(v: nat, base: nat, upper: bool): string
    requires 2 <= base <= 16
  {
    if v == 0 then "" else Natural(v / base, base, upper) + [DigitChar(v % base, upper)]
  }

  /** At least as many digits as the precision says, by default one. */
  function Digits(v: nat, f: Flags, base: nat, precision: nat): string
    requires 2 <= base <= 16
  {
    var natural := Natural(v, base, Upper in f);
    Repeat('0', (if Prec in f then precision else 1) - |natural|) + natural
  }

  /** '-' fills up with spaces behind, otherwise '0' with zeros behind the sign, unless
      a precision is given, and otherwise spaces fill up in front. */
  function Field(v: nat, f: Flags, base: nat, width: nat, precision: nat, negative: bool): string
    requires 2 <= base <= 16
  {
    var sign, digits := Sign(f, negative), Digits(v, f, base, precision);
    var gap := width - |sign| - |digits|;
    if Left in f then sign + digits + Repeat(' ', gap)
    else if ZeroPad in f && Prec !in f then sign + Repeat('0', gap) + digits
    else Repeat(' ', gap) + sign + digits
  }

  /** The zeros it puts before n digits. */
  function Zeros(n: nat, f: Flags, width: nat, precision: nat, negative: bool): nat {
    Max((if ZeroPad in f && Left !in f then width - |Sign(f, negative)| else precision) - n, 0)
  }

  /** How many digits of v __ntoa starts with. */
  function OwnCount(v: nat, f: Flags, base: nat): (n: nat)
    requires 2 <= base <= 16
    ensures n <= NTOA_MAX
  {
    |OwnDigits(v, f, base)|
  }

  /** The flags, width and precision with which the two agree: the value fits in the
      buffer, zeros and a sign fit behind it, and '-' meets no larger precision.  A
      blank that does not fit is made good by a padding space. */
  predicate Agrees(v: nat, f: Flags, base: nat, width: nat, precision: nat, negative: bool)
    requires 2 <= base <= 16
  {
    var n, sign := OwnCount(v, f, base), Sign(f, negative);
    var total := n + Zeros(n, f, width, precision, negative);
    && v < Power(base, NTOA_MAX)
    && (if Left in f then precision <= n else total <= NTOA_MAX)
    && (sign == "" || total < NTOA_MAX || (sign == " " && Left !in f && ZeroPad !in f && width > NTOA_MAX))
  }

  /** What vprintf sees to before it calls: no precision counts as 0, and a precision
      switches the zeros off. */
  predicate Prepared(f: Flags, precision: nat) {
    Hash !in f && (Prec !in f ==> precision == 0) && !(Prec in f && ZeroPad in f)
  }

  // ------------------------------------------------------------- the same digits

  lemma {:induction false} NaturalIs(v: nat, base: nat, upper: bool, room: nat)
    requires 2 <= base <= 16 && room > 0 && v < Power(base, room)
    ensures Reverse(DigitsOf(v, base, upper, room)) == if v == 0 then "0" else Natural(v, base, upper)
    decreases room
  {
    var q, d := v / base, DigitChar(v % base, upper);
    DivMod(v, base);
    var ds := DigitsOf(v, base, upper, room);
    if q != 0 {
      if Power(base, room - 1) <= q { MulMonotone(base, Power(base, room - 1), q); }
      assert room > 1;
      NaturalIs(q, base, upper, room - 1);
      assert ds[1..] == DigitsOf(q, base, upper, room - 1);
    } else {
      assert Natural(0, base, upper) == "" && ds == [d] && ds[1..] == "" && Reverse("") + [d] == [d];
    }
  }

  /** The standard's digits are zeros and the digits of __ntoa. */
  lemma {:induction false} SameDigits(v: nat, f: Flags, base: nat, precision: nat, n: nat)
    requires 2 <= base <= 16 && v < Power(base, NTOA_MAX) && Prepared(f, precision) && n == OwnCount(v, f, base)
    ensures Digits(v, f, base, precision) == Repeat('0', precision - n) + Reverse(OwnDigits(v, f, base))
  {
    NaturalIs(v, base, Upper in f, NTOA_MAX);
    assert Natural(0, base, Upper in f) == "" && Reverse("") == "";
    assert Repeat('0', 1) + "" == "0" && Repeat('0', 0) + "0" == "0";
    if v != 0 { assert n == |Natural(v, base, Upper in f)|; }
    assert Prec !in f ==> Repeat('0', precision - n) == "" && Repeat('0', 1 - n) == "";
  }

  lemma Joined(sign: string, digits: string, f: Flags, width: nat, gap: int)
    requires gap == width - |sign| - |digits|
    ensures Framed(sign + digits, f, width) ==
            if Left in f then sign + digits + Repeat(' ', gap)
            else if ZeroPad in f then sign + digits
            else Repeat(' ', gap) + sign + digits
  {
    assert Repeat(' ', gap) + (sign + digits) == Repeat(' ', gap) + sign + digits;
    assert "" + (sign + digits) + "" == sign + digits;
    assert Repeat(' ', gap) + (sign + digits) + "" == Repeat(' ', gap) + (sign + digits);
    assert "" + (sign + digits) + Repeat(' ', gap) == sign + digits + Repeat(' ', gap);
  }

  /** So its field has the shape of a field of __ntoa, with its own count of zeros. */
  lemma {:induction false} StandardShape(v: nat, f: Flags, base: nat, width: nat, precision: nat, negative: bool, n: nat, z: nat, ds: string)
    requires 2 <= base <= 16 && v < Power(base, NTOA_MAX) && Prepared(f, precision)
    requires ds == OwnDigits(v, f, base) && n == |ds| && z == Zeros(n, f, width, precision, negative)
    ensures Field(v, f, base, width, precision, negative) ==
            Framed(Sign(f, negative) + (Repeat('0', z) + Reverse(ds)), f, width)
  {
    SameDigits(v, f, base, precision, n);
    ShapeJoined(v, f, base, width, precision, negative, n, z, Reverse(ds));
  }

  lemma ShapeJoined(v: nat, f: Flags, base: nat, width: nat, precision: nat, negative: bool, n: nat, z: nat, own: string)
    requires 2 <= base <= 16 && Prepared(f, precision) && n == |own| && z == Zeros(n, f, width, precision, negative)
    requires Digits(v, f, base, precision) == Repeat('0', precision - n) + own
    ensures Field(v, f, base, width, precision, negative) == Framed(Sign(f, negative) + (Repeat('0', z) + own), f, width)
  {
    var sign, digits := Sign(f, negative), Repeat('0', z) + own;
    Joined(sign, digits, f, width, width - |sign| - |digits|);
    if Left !in f && ZeroPad in f {
      NoZeros(own, precision - n);
      ZerosFill(sign, own, Digits(v, f, base, precision), width, n, z);
    } else {
      SameRepeat('0', precision - n, z);
    }
  }

  lemma SameRepeat(c: char, k: int, z: nat)
    requires z == Max(k, 0)
    ensures Repeat(c, k) == Repeat(c, z)
  {
  }

  lemma ZerosFill(sign: string, own: string, digits: string, width: nat, n: nat, z: nat)
    requires digits == own && n == |own| && z == Max(width - |sign| - n, 0)
    ensures sign + Repeat('0', width - |sign| - |digits|) + digits == sign + (Repeat('0', z) + own)
  {
    ZerosBehindSign(sign, own, width - |sign| - n, z);
  }

  lemma NoZeros(body: string, k: int)
    requires k <= 0
    ensures Repeat('0', k) + body == body
  {
    assert Repeat('0', k) == "" && "" + body == body;
  }

  lemma ZerosBehindSign(sign: string, body: string, gap: int, z: nat)
    requires z == Max(gap, 0)
    ensures sign + Repeat('0', gap) + body == sign + (Repeat('0', z) + body)
  {
    var zeros := Repeat('0', gap);
    assert zeros == Repeat('0', z);
    assert (sign + zeros) + body == sign + (zeros + body);
  }

  // ------------------------------------------------------------ counting characters

  /** How many characters of s are neither blank nor a sign. */
  function Figures(s: string): nat {
    if s == "" then 0 else (if s[0] == ' ' || s[0] == '+' || s[0] == '-' then 0 else 1) + Figures(s[1..])
  }

  function Signs(s: string): nat {
    if s == "" then 0 else (if s[0] == '+' || s[0] == '-' then 1 else 0) + Signs(s[1..])
  }

  lemma {:induction false} CountConcat(s: string, t: string)
    ensures Figures(s + t) == Figures(s) + Figures(t) && Signs(s + t) == Signs(s) + Signs(t)
  {
    if s == "" {
      assert s + t == t;
    } else {
      assert (s + t)[1..] == s[1..] + t;
      CountConcat(s[1..], t);
    }
  }

  lemma {:induction false} CountRepeat(c: char, n: nat)
    ensures Figures(Repeat(c, n)) == if c == ' ' || c == '+' || c == '-' then 0 else n
    ensures Signs(Repeat(c, n)) == if c == '+' || c == '-' then n else 0
  {
    if n > 0 {
      assert Repeat(c, n)[1..] == Repeat(c, n - 1);
      CountRepeat(c, n - 1);
    }
  }

  lemma CountOne(c: char)
    ensures Figures([c]) == if c == ' ' || c == '+' || c == '-' then 0 else 1
    ensures Signs([c]) == if c == '+' || c == '-' then 1 else 0
  {
    assert [c][1..] == "";
  }

  lemma DigitIsFigure(d: nat, upper: bool)
    requires d < 16
    ensures DigitChar(d, upper) != ' ' && DigitChar(d, upper) != '+' && DigitChar(d, upper) != '-'
  {
  }

  /** The digits of __ntoa, in printing order, are all figures. */
  lemma {:induction false} CountDigits(v: nat, base: nat, upper: bool, room: nat)
    requires 2 <= base <= 16 && room > 0
    ensures var ds := DigitsOf(v, base, upper, room);
            Figures(Reverse(ds)) == |ds| && Signs(Reverse(ds)) == 0 && Reverse(ds)[0] != ' '
    decreases room
  {
    var ds, d := DigitsOf(v, base, upper, room), DigitChar(v % base, upper);
    DigitIsFigure(v % base, upper);
    CountOne(d);
    CountConcat(Reverse(ds[1..]), [d]);
    if v / base != 0 && room > 1 {
      CountDigits(v / base, base, upper, room - 1);
      assert ds[1..] == DigitsOf(v / base, base, upper, room - 1);
    } else {
      assert ds[1..] == "" && Reverse("") == "" && Figures("") == 0;
    }
  }

  lemma {:induction false} CountAppend(s: string, d: nat, upper: bool)
    requires d < 16
    ensures Figures(s + [DigitChar(d, upper)]) == Figures(s) + 1
  {
    DigitIsFigure(d, upper);
    CountOne(DigitChar(d, upper));
    CountConcat(s, [DigitChar(d, upper)]);
  }

  lemma {:induction false} CountNatural(v: nat, base: nat, upper: bool)
    requires 2 <= base <= 16
    ensures Figures(Natural(v, base, upper)) == |Natural(v, base, upper)|
  {
    if v != 0 {
      DivMod(v, base);
      var q, d := v / base, v % base;
      assert q < v by { if q >= v { MulMonotone(base, v, q); MulMonotone(v, 2, base); } }
      CountNatural(q, base, upper);
      CountAppend(Natural(q, base, upper), d, upper);
    }
  }

  /** A number needs more digits than room when it is no less than that power. */
  lemma {:induction false} NaturalLong(v: nat, base: nat, upper: bool, room: nat)
    requires 2 <= base <= 16 && v >= Power(base, room)
    ensures |Natural(v, base, upper)| > room
    decreases room
  {
    PowerPositive(base, room);
    if room > 0 {
      DivMod(v, base);
      if v / base < Power(base, room - 1) {
        MulMonotone(base, v / base, Power(base, room - 1) - 1);
        MulDist(base, Power(base, room - 1) - 1, 1);
      }
      NaturalLong(v / base, base, upper, room - 1);
    }
  }

  lemma CountSign(f: Flags, negative: bool)
    ensures Figures(Sign(f, negative)) == 0 && |Sign(f, negative)| <= 1
    ensures Signs(Sign(f, negative)) == if Sign(f, negative) == "" || Sign(f, negative) == " " then 0 else 1
  {
    CountOne('-');
    CountOne('+');
    CountOne(' ');
  }

  lemma {:induction false} CountFramed(text: string, f: Flags, width: nat)
    ensures Figures(Framed(text, f, width)) == Figures(text) && Signs(Framed(text, f, width)) == Signs(text)
    ensures |Framed(text, f, width)| == if Left in f || ZeroPad !in f then Max(width, |text|) else |text|
  {
    var pad := Repeat(' ', width - |text|);
    CountRepeat(' ', |pad|);
    assert Repeat(' ', |pad|) == pad;
    CountConcat(if Left in f || ZeroPad in f then "" else pad, text);
    CountConcat((if Left in f || ZeroPad in f then "" else pad) + text, if Left in f then pad else "");
  }

  // ------------------------------------------------------------------ agreement

  /** The standard prints every digit. */
  lemma {:induction false} StandardFigures(v: nat, f: Flags, base: nat, width: nat, precision: nat, negative: bool)
    requires 2 <= base <= 16
    ensures Figures(Field(v, f, base, width, precision, negative)) >= |Natural(v, base, Upper in f)|
  {
    var natural, digits, sign := Natural(v, base, Upper in f), Digits(v, f, base, precision), Sign(f, negative);
    var gap := width - |sign| - |digits|;
    CountNatural(v, base, Upper in f);
    CountConcat(Repeat('0', (if Prec in f then precision else 1) - |natural|), natural);
    CountConcat(sign, digits);
    CountConcat(sign + digits, Repeat(' ', gap));
    CountConcat(sign + Repeat('0', gap), digits);
    CountConcat(Repeat(' ', gap) + sign, digits);
  }

  lemma {:induction false} TextFigures(v: nat, f: Flags, base: nat, sign: string, z: nat)
    requires 2 <= base <= 16 && Figures(sign) == 0 && |sign| <= 1
    ensures var text := sign + (Repeat('0', z) + Reverse(OwnDigits(v, f, base)));
            && Figures(text) == z + OwnCount(v, f, base) && Signs(text) == Signs(sign)
            && |text| == |sign| + z + OwnCount(v, f, base)
  {
    var ds := OwnDigits(v, f, base);
    CountConcat(sign, Repeat('0', z) + Reverse(ds));
    CountConcat(Repeat('0', z), Reverse(ds));
    CountRepeat('0', z);
    CountDigits(v, base, Upper in f, NTOA_MAX);
    assert Figures("") == 0 && Signs("") == 0 && Reverse("") == "";
  }

  /** __ntoa puts as many zeros as the standard just when they fit, or '-' allows. */
  lemma SameZeros(n: nat, f: Flags, width: nat, precision: nat, negative: bool)
    requires n <= NTOA_MAX && Prepared(f, precision)
    ensures var z := Zeros(n, f, width, precision, negative);
            ZeroCount(n, f, NarrowWidth(f, width, negative), precision) == z <==>
            if Left in f then precision <= n else n + z <= NTOA_MAX
  {
  }

  /** With the same zeros and the same sign the fields are the same. */
  lemma SameFrame(text: string, f: Flags, width: nat, negative: bool)
    ensures Framed(text, f, NarrowWidth(f, width, negative)) == Framed(text, f, width)
  {
  }

  /** A sign that does not fit is missed, but for a blank among padding spaces. */
  lemma {:induction false} LostSign(sign: string, body: string, f: Flags, width: nat, w: nat)
    requires |sign| == 1 && |body| == NTOA_MAX && Figures(sign) == 0 && (Left in f ==> body[0] != ' ')
    requires Signs(body) == 0 && Signs(sign + body) == Signs(sign) && Signs(sign) == if sign == " " then 0 else 1
    requires w <= width
    requires w == width || (ZeroPad in f && Left !in f)
    ensures Framed(body, f, w) == Framed(sign + body, f, width) <==>
            sign == " " && Left !in f && ZeroPad !in f && width > NTOA_MAX
  {
    CountFramed(body, f, w);
    CountFramed(sign + body, f, width);
    if sign == " " { LostBlank(body, f, width, w); }
  }

  lemma LostBlank(body: string, f: Flags, width: nat, w: nat)
    requires |body| == NTOA_MAX && (Left in f ==> body[0] != ' ')
    requires w <= width
    requires w == width || (ZeroPad in f && Left !in f)
    ensures Framed(body, f, w) == Framed(" " + body, f, width) <==> Left !in f && ZeroPad !in f && width > NTOA_MAX
  {
    if Left in f {
      assert Framed(body, f, w)[0] == body[0] && Framed(" " + body, f, width)[0] == ' ';
    } else {
      CountFramed(body, f, w);
      CountFramed(" " + body, f, width);
      if ZeroPad !in f && width > NTOA_MAX { BlankIsPadding(body, width - NTOA_MAX); }
    }
  }

  lemma BlankIsPadding(body: string, k: nat)
    requires k > 0
    ensures Repeat(' ', k) + body == Repeat(' ', k - 1) + (" " + body)
  {
    assert Repeat(' ', k) == Repeat(' ', k - 1) + " ";
    assert Repeat(' ', k - 1) + " " + body == Repeat(' ', k - 1) + (" " + body);
  }

  /** The field of a value that fits in the buffer, when the zeros are the same. */
  lemma {:induction false} ZerosSettled(v: nat, f: Flags, base: nat, width: nat, precision: nat, negative: bool, n: nat, z: nat, ds: string)
    requires 2 <= base <= 16 && v < Power(base, NTOA_MAX) && Prepared(f, precision)
    requires ds == OwnDigits(v, f, base) && n == |ds| && z == Zeros(n, f, width, precision, negative)
    requires z == ZeroCount(n, f, NarrowWidth(f, width, negative), precision)
    ensures NumberField(v, f, base, width, precision, negative) == Field(v, f, base, width, precision, negative) <==>
            Sign(f, negative) == "" || n + z < NTOA_MAX ||
            (Sign(f, negative) == " " && Left !in f && ZeroPad !in f && width > NTOA_MAX)
  {
    var w, sign, body := NarrowWidth(f, width, negative), Sign(f, negative), Repeat('0', z) + Reverse(ds);
    PlainShape(v, f, base, width, precision, negative, w, z);
    StandardShape(v, f, base, width, precision, negative, n, z, ds);
    CountSign(f, negative);
    if sign == "" || n + z < NTOA_MAX {
      SameFrame(sign + body, f, width, negative);
    } else {
      TextFigures(v, f, base, "", z);
      TextFigures(v, f, base, sign, z);
      assert "" + body == body;
      if Left in f {
        CountDigits(v, base, Upper in f, NTOA_MAX);
        assert body == Reverse(ds);
      }
      LostSign(sign, body, f, width, w);
    }
  }

  /** How many figures __ntoa prints. */
  lemma OwnFigures(v: nat, f: Flags, base: nat, width: nat, precision: nat, negative: bool, n: nat, w: nat, z: nat)
    requires 2 <= base <= 16 && Prepared(f, precision) && n == OwnCount(v, f, base)
    requires w == NarrowWidth(f, width, negative) && z == ZeroCount(n, f, w, precision)
    ensures Figures(NumberField(v, f, base, width, precision, negative)) == n + z <= NTOA_MAX
  {
    PlainShape(v, f, base, width, precision, negative, w, z);
    FittingFigures(n + z, f, negative);
    TextFigures(v, f, base, FittingSign(n + z, f, negative), z);
    CountFramed(FittingSign(n + z, f, negative) + (Repeat('0', z) + Reverse(OwnDigits(v, f, base))), f, w);
  }

  /** And how many the standard does, for a value that fits in the buffer. */
  lemma {:induction false} StandardCount(v: nat, f: Flags, base: nat, width: nat, precision: nat, negative: bool, n: nat, z: nat)
    requires 2 <= base <= 16 && v < Power(base, NTOA_MAX) && Prepared(f, precision)
    requires n == OwnCount(v, f, base) && z == Zeros(n, f, width, precision, negative)
    ensures Figures(Field(v, f, base, width, precision, negative)) == n + z
  {
    var ds := OwnDigits(v, f, base);
    CountSign(f, negative);
    StandardShape(v, f, base, width, precision, negative, n, z, ds);
    TextFigures(v, f, base, Sign(f, negative), z);
    CountFramed(Sign(f, negative) + (Repeat('0', z) + Reverse(ds)), f, width);
  }

  /** For every value, base, width, precision and sign: __ntoa prints what the standard
      prescribes if and only if they agree in the sense above. */
  lemma FieldIffStandard(v: nat, f: Flags, base: nat, width: nat, precision: nat, negative: bool)
    requires 2 <= base <= 16 && Prepared(f, precision)
    ensures NumberField(v, f, base, width, precision, negative) == Field(v, f, base, width, precision, negative) <==>
            Agrees(v, f, base, width, precision, negative)
  {
    var n, w := OwnCount(v, f, base), NarrowWidth(f, width, negative);
    var z, own := Zeros(n, f, width, precision, negative), ZeroCount(n, f, w, precision);
    SameZeros(n, f, width, precision, negative);
    if v >= Power(base, NTOA_MAX) {
      OwnFigures(v, f, base, width, precision, negative, n, w, own);
      NaturalLong(v, base, Upper in f, NTOA_MAX);
      StandardFigures(v, f, base, width, precision, negative);
    } else if z == own {
      ZerosSettled(v, f, base, width, precision, negative, n, z, OwnDigits(v, f, base));
    } else {
      OwnFigures(v, f, base, width, precision, negative, n, w, own);
      StandardCount(v, f, base, width, precision, negative, n, z);
    }
  }

  lemma FittingFigures(n: nat, f: Flags, negative: bool)
    ensures Figures(FittingSign(n, f, negative)) == 0
  {
    CountSign(f, negative);
  }

  /** %-.3d of 5 prints 5, where the standard has 005. */
  lemma {:induction false} LeftDropsPrecision()
    ensures NumberField(5, {Left, Prec}, 10, 0, 3, false) == "5" && Field(5, {Left, Prec}, 10, 0, 3, false) == "005"
  {
    DigitsStep(5, 10, false, 0);
    assert DigitsLeft(0, 10, false, 1) == "";
    PowerGrows(10, NTOA_MAX);
    OneDigit(5, {Left, Prec}, '5');
  }

  lemma {:induction false} OneDigit(v: nat, f: Flags, d: char)
    requires f == {Left, Prec} && v < 10 && OwnDigits(v, f, 10) == [d] && v < Power(10, NTOA_MAX)
    ensures NumberField(v, f, 10, 0, 3, false) == [d] && Field(v, f, 10, 0, 3, false) == "00" + [d]
  {
    PlainShape(v, f, 10, 0, 3, false, 0, 0);
    ReverseShort([d]);
    assert "" + (Repeat('0', 0) + [d]) == [d] && "" + [d] + Repeat(' ', 0 - 1) == [d];
    SameDigits(v, f, 10, 3, 1);
    assert Repeat('0', 2) == "00" && "" + ("00" + [d]) + Repeat(' ', 0 - 3) == "00" + [d];
  }
}
