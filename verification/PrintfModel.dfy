/**
 What the printf engine prints (lethe-libc/stdio.c; section 7.21.6.1 of ISO C11):
 digits into a 48-character buffer, padding, and the directives of a format.
 */
module PrintfModel {
  const NTOA_MAX: nat := 48

  datatype Flag = ZeroPad | Left | Plus | Blank | Hash | Upper | CharLen | ShortLen | LongLen | LongLongLen | Prec

  type Flags = set<Flag>

  function Max(a: int, b: int): int {
    if a < b then b else a
  }

  function Min(a: int, b: int): int {
    if a < b then a else b
  }

  function Repeat(c: char, n: int): (s: string)
    ensures |s| == Max(n, 0)
  {
    seq(Max(n, 0), _ => c)
  }

  // --------------------------------------------------------------------- digits

  function DigitChar(d: nat, upper: bool): char
    requires d < 16
  {
    if upper then "0123456789ABCDEF"[d] else "0123456789abcdef"[d]
  }

  function DigitValue(c: char): nat {
    if '0' <= c <= '9' then (c as int - '0' as int)
    else if 'a' <= c <= 'f' then (c as int - 'a' as int + 10)
    else if 'A' <= c <= 'F' then (c as int - 'A' as int + 10)
    else 0
  }

  lemma DigitReads(d: nat, upper: bool)
    requires d < 16
    ensures DigitValue(DigitChar(d, upper)) == d
  {
  }

  /** The digits of v, least significant first, but no more than room. */
  function DigitsOf(v: nat, base: nat, upper: bool, room: nat): (ds: string)
    requires 2 <= base <= 16 && room > 0
    ensures 0 < |ds| <= room
    decreases room, v
  {
    [DigitChar(v % base, upper)] +
    (if v / base != 0 && room > 1 then DigitsOf(v / base, base, upper, room - 1) else [])
  }

  /** The digits still to come when `made` are made and v is left. */
  function DigitsLeft(v: nat, base: nat, upper: bool, made: nat): string
    requires 2 <= base <= 16
  {
    if v != 0 && made < NTOA_MAX then DigitsOf(v, base, upper, NTOA_MAX - made) else ""
  }

  lemma DigitsStep(v: nat, base: nat, upper: bool, made: nat)
    requires 2 <= base <= 16 && made < NTOA_MAX
    ensures v / base >= 0 && v % base < 16
    ensures DigitsOf(v, base, upper, NTOA_MAX - made) ==
            [DigitChar(v % base, upper)] + DigitsLeft(v / base, base, upper, made + 1)
  {
  }

  lemma DigitsMore(made: string, v: nat, base: nat, upper: bool, n: nat, goal: string)
    requires 2 <= base <= 16 && n < NTOA_MAX && v != 0 && made + DigitsLeft(v, base, upper, n) == goal
    ensures v / base >= 0 && v % base < 16
    ensures (made + [DigitChar(v % base, upper)]) + DigitsLeft(v / base, base, upper, n + 1) == goal
  {
    DigitsStep(v, base, upper, n);
    var digit, rest := [DigitChar(v % base, upper)], DigitsLeft(v / base, base, upper, n + 1);
    assert (made + digit) + rest == made + (digit + rest);
  }

  function Power(base: nat, n: nat): nat {
    if n == 0 then 1 else base * Power(base, n - 1)
  }

  /** The number that digits, least significant first, stand for. */
  function ReadLow(ds: string, base: nat): nat {
    if ds == [] then 0 else DigitValue(ds[0]) + base * ReadLow(ds[1..], base)
  }

  /** The number that digits in printing order stand for. */
  function ReadNumber(ds: string, base: nat): nat {
    if ds == [] then 0 else base * ReadNumber(ds[..|ds| - 1], base) + DigitValue(ds[|ds| - 1])
  }

  function Reverse(s: string): (r: string)
    ensures |r| == |s|
  {
    if s == [] then [] else Reverse(s[1..]) + [s[0]]
  }

  lemma {:induction false} ReadReversed(ds: string, base: nat)
    ensures ReadNumber(Reverse(ds), base) == ReadLow(ds, base)
  {
    if ds != [] {
      var r := Reverse(ds);
      assert r[..|r| - 1] == Reverse(ds[1..]);
      ReadReversed(ds[1..], base);
    }
  }

  lemma {:induction false} LeadingZeros(z: nat, s: string, base: nat)
    ensures ReadNumber(Repeat('0', z) + s, base) == ReadNumber(s, base)
    decreases z + |s|
  {
    var t := Repeat('0', z) + s;
    if s != [] {
      assert t[..|t| - 1] == Repeat('0', z) + s[..|s| - 1];
      LeadingZeros(z, s[..|s| - 1], base);
    } else if z > 0 {
      assert t[..|t| - 1] == Repeat('0', z - 1) + s;
      LeadingZeros(z - 1, s, base);
    }
  }

  lemma PowerPositive(base: nat, n: nat)
    requires base >= 1
    ensures Power(base, n) >= 1
  {
  }

  lemma MulDist(b: nat, x: nat, y: nat)
    ensures b * (x + y) == b * x + b * y
  {
  }

  /** Digit by digit: a number below base * p is one digit and a number below p. */
  lemma Compose(base: nat, p: nat, q: nat, r: nat, a: nat, b: nat)
    requires r < base && q == p * a + b && b < p
    ensures base * q + r == (base * p) * a + (base * b + r) && base * b + r < base * p
  {
    MulDist(base, p * a, b);
    MulAssoc(base, p, a);
    MulMonotone(base, b, p - 1);
    MulDist(base, p - 1, 1);
  }

  lemma DivMod(v: nat, m: nat)
    requires m >= 1
    ensures v == m * (v / m) + v % m && 0 <= v % m < m && v / m >= 0
  {
  }

  /** Taking a digit off and reducing the rest is reducing the whole. */
  lemma ModStep(v: nat, base: nat, p: nat, m: nat)
    requires base >= 1 && p >= 1 && m == base * p
    ensures m >= 1 && v % m == v % base + base * ((v / base) % p)
  {
    DivMod(v, base);
    DivMod(v / base, p);
    var q, r := v / base, v % base;
    Compose(base, p, q, r, q / p, q % p);
    ModUnique(v, m, q / p, base * (q % p) + r);
  }

  lemma MulAssoc(a: nat, b: nat, c: nat)
    ensures a * (b * c) == (a * b) * c
  {
  }

  lemma MulMonotone(a: nat, x: nat, y: nat)
    requires x <= y
    ensures a * x <= a * y
  {
  }

  lemma ModUnique(v: nat, m: nat, a: nat, r: nat)
    requires m >= 1 && v == m * a + r && r < m
    ensures v % m == r
  {
    var q := v / m;
    assert v == m * q + v % m;
    if q < a {
      assert m * (q + 1) <= m * a by { MulMonotone(m, q + 1, a); }
      MulDist(m, q, 1);
    } else if a < q {
      assert m * (a + 1) <= m * q by { MulMonotone(m, a + 1, q); }
      MulDist(m, a, 1);
    }
  }

  lemma {:induction false} LowSplit(ds: string, base: nat, d: nat, upper: bool, rest: string)
    requires d < 16 && ds == [DigitChar(d, upper)] + rest
    ensures ReadLow(ds, base) == d + base * ReadLow(rest, base)
  {
    DigitReads(d, upper);
    assert ds[1..] == rest;
  }

  lemma ModSmall(x: nat, p: nat)
    requires p >= 1
    ensures x == 0 || p == 1 ==> x % p == 0
  {
  }

  /** The digits read back as the value, modulo the power the buffer has room for. */
  lemma {:induction false} DigitsRead(v: nat, base: nat, upper: bool, room: nat)
    requires 2 <= base <= 16 && room > 0
    ensures Power(base, room) >= 1 && ReadLow(DigitsOf(v, base, upper, room), base) == v % Power(base, room)
    decreases room
  {
    var q, d, p := v / base, v % base, Power(base, room - 1);
    PowerPositive(base, room - 1);
    ModStep(v, base, p, Power(base, room));
    if q != 0 && room > 1 {
      LowSplit(DigitsOf(v, base, upper, room), base, d, upper, DigitsOf(q, base, upper, room - 1));
      DigitsRead(q, base, upper, room - 1);
    } else {
      ModSmall(q, p);
      LowSplit(DigitsOf(v, base, upper, room), base, d, upper, []);
    }
  }

  /** 48 digits are enough for every 64-bit value, except in base 2. */
  lemma {:induction false} RoomSuffices(v: nat, base: nat)
    requires v < 0x1_0000_0000_0000_0000 && 3 <= base <= 16
    ensures Power(base, NTOA_MAX) >= 1 && v % Power(base, NTOA_MAX) == v
  {
    PowerGrows(base, NTOA_MAX);
    ModUnique(v, Power(base, NTOA_MAX), 0, v);
  }

  lemma {:induction false} PowerMonotone(a: nat, b: nat, n: nat)
    requires a <= b
    ensures Power(a, n) <= Power(b, n)
  {
    if n > 0 {
      PowerMonotone(a, b, n - 1);
      MulMonotone(a, Power(a, n - 1), Power(b, n - 1));
      assert a * Power(b, n - 1) <= b * Power(b, n - 1);
    }
  }

  lemma {:induction false} PowerGrows(base: nat, n: nat)
    requires base >= 3 && n >= 47
    ensures Power(base, n) > 0x1_0000_0000_0000_0000
  {
    PowerMonotone(3, base, n);
    PowerSum(3, 47, n - 47);
    PowerPositive(3, n - 47);
    MulMonotone(Power(3, 47), 1, Power(3, n - 47));
    PowerOfThree();
  }

  lemma PowerOfThree()
    ensures Power(3, 47) > 0x1_0000_0000_0000_0000
  {
    assert Power(3, 8) == 6561;
    PowerSum(3, 8, 8);
    assert Power(3, 16) == 43046721;
    PowerSum(3, 16, 16);
    PowerSum(3, 8, 7);
    assert Power(3, 15) == 14348907;
    PowerSum(3, 32, 15);
  }

  lemma {:induction false} PowerSum(base: nat, m: nat, n: nat)
    ensures Power(base, m + n) == Power(base, m) * Power(base, n)
  {
    if m > 0 {
      PowerSum(base, m - 1, n);
      MulAssoc(base, Power(base, m - 1), Power(base, n));
    }
  }

  // -------------------------------------------------------------- number fields

  /** Zeros on top of the buffer, up to n characters and never beyond its end. */
  function ZerosTo(buf: string, n: nat): (r: string)
    ensures |buf| <= NTOA_MAX ==> |r| == Max(|buf|, Min(n, NTOA_MAX))
  {
    buf + Repeat('0', Min(n, NTOA_MAX) - |buf|)
  }

  /** The width __ntoa goes on with: one less when zeros must leave room for a sign. */
  function NarrowWidth(f: Flags, width: nat, negative: bool): nat {
    if Left !in f && width > 0 && ZeroPad in f && (negative || Plus in f || Blank in f) then width - 1 else width
  }

  function Padded(ds: string, f: Flags, width: nat, precision: nat): string {
    if Left in f then ds
    else
      var b := ZerosTo(ds, precision);
      if ZeroPad in f then ZerosTo(b, width) else b
  }

  function Push(buf: string, c: char): string {
    if |buf| < NTOA_MAX then buf + [c] else buf
  }

  /** The '#' form, on the buffer as it stands. */
  function Hashed(buf: string, f: Flags, width: nat, precision: nat, base: nat): string {
    if Hash !in f then buf
    else
      var cut := if Prec !in f && |buf| > 0 && (|buf| == precision || |buf| == width)
                 then buf[..if |buf| > 1 && base == 16 then |buf| - 2 else |buf| - 1]
                 else buf;
      var marked := if base == 16 then Push(cut, 'x') else if base == 2 then Push(cut, 'b') else cut;
      Push(marked, '0')
  }

  function Sign(f: Flags, negative: bool): string {
    if negative then "-" else if Plus in f then "+" else if Blank in f then " " else ""
  }

  function Signed(buf: string, f: Flags, negative: bool): string {
    if |buf| < NTOA_MAX then buf + Sign(f, negative) else buf
  }

  /** The buffer that is printed, last character first. */
  function Buffer(ds: string, f: Flags, width: nat, precision: nat, base: nat, negative: bool): string {
    var w := NarrowWidth(f, width, negative);
    Signed(Hashed(Padded(ds, f, w, precision), f, w, precision, base), f, negative)
  }

  /** print_reverse. */
  function Reversed(buf: string, f: Flags, width: nat): string {
    (if Left !in f && ZeroPad !in f then Repeat(' ', width - |buf|) else "") + Reverse(buf) +
    (if Left in f then Repeat(' ', width - |buf|) else "")
  }

  /** The flags and the digits ntoa_long starts with. */
  function OwnFlags(v: nat, f: Flags): Flags {
    if v == 0 then f - {Hash} else f
  }

  function OwnDigits(v: nat, f: Flags, base: nat): string
    requires 2 <= base <= 16
  {
    if Prec !in f || v != 0 then DigitsOf(v, base, Upper in f, NTOA_MAX) else ""
  }

  /** ntoa_long and ntoa_long_long: what is printed for a number. */
  function NumberField(v: nat, f: Flags, base: nat, width: nat, precision: nat, negative: bool): string
    requires 2 <= base <= 16
  {
    var g := OwnFlags(v, f);
    Reversed(Buffer(OwnDigits(v, g, base), g, width, precision, base, negative), g, NarrowWidth(g, width, negative))
  }

  lemma {:induction false} ReverseConcat(a: string, b: string)
    ensures Reverse(a + b) == Reverse(b) + Reverse(a)
  {
    if a == [] {
      assert a + b == b;
    } else {
      assert (a + b)[1..] == a[1..] + b;
      ReverseConcat(a[1..], b);
    }
  }

  lemma {:induction false} ReverseRepeat(c: char, n: nat)
    ensures Reverse(Repeat(c, n)) == Repeat(c, n)
  {
    if n > 0 {
      assert Repeat(c, n)[1..] == Repeat(c, n - 1);
      ReverseRepeat(c, n - 1);
      assert Repeat(c, n - 1) + [c] == Repeat(c, n);
    }
  }

  /** How many zeros stand before the digits. */
  function ZeroCount(n: nat, f: Flags, width: nat, precision: nat): nat {
    if Left in f then 0
    else Max(Min(Max(precision, if ZeroPad in f then width else 0), NTOA_MAX) - n, 0)
  }

  lemma PaddedIs(ds: string, f: Flags, width: nat, precision: nat)
    requires |ds| <= NTOA_MAX
    ensures Padded(ds, f, width, precision) == ds + Repeat('0', ZeroCount(|ds|, f, width, precision))
  {
  }

  lemma {:induction false} ReverseShort(s: string)
    requires |s| <= 1
    ensures Reverse(s) == s
  {
    if s != "" { assert s[1..] == "" && Reverse(s) == [] + [s[0]]; }
  }

  /** The sign that fits behind n characters. */
  function FittingSign(n: nat, f: Flags, negative: bool): (s: string)
    ensures |s| <= 1
  {
    if n < NTOA_MAX then Sign(f, negative) else ""
  }

  /** How many characters '#' takes off a buffer of n: one or two when the buffer is
      as long as the width and no precision was given. */
  function CutCount(n: nat, f: Flags, width: nat, precision: nat, base: nat): (c: nat)
    ensures c <= n && c <= 2
  {
    if Hash in f && Prec !in f && n > 0 && (n == precision || n == width) then (if n > 1 && base == 16 then 2 else 1) else 0
  }

  /** The characters of the buffer that '#' leaves. */
  function Remaining(buf: string, f: Flags, width: nat, precision: nat, base: nat): string {
    buf[..|buf| - CutCount(|buf|, f, width, precision, base)]
  }

  /** The letter and the zero that '#' puts before n characters, as far as they fit. */
  function Letter(n: nat, f: Flags, base: nat): (s: string)
    ensures |s| <= 1
  {
    if Hash in f && n < NTOA_MAX then (if base == 16 then "x" else if base == 2 then "b" else "") else ""
  }

  function ZeroMark(n: nat, f: Flags, base: nat): (s: string)
    ensures |s| <= 1
  {
    if Hash in f && n + |Letter(n, f, base)| < NTOA_MAX then "0" else ""
  }

  function Mark(n: nat, f: Flags, base: nat): (s: string)
    ensures |s| <= 2
  {
    ZeroMark(n, f, base) + Letter(n, f, base)
  }

  lemma MarkReversed(n: nat, f: Flags, base: nat)
    ensures Reverse(Mark(n, f, base)) == Letter(n, f, base) + ZeroMark(n, f, base)
  {
    ReverseConcat(ZeroMark(n, f, base), Letter(n, f, base));
    ReverseShort(Letter(n, f, base));
    ReverseShort(ZeroMark(n, f, base));
  }

  lemma Pushed(left: string, letter: string, zero: string)
    ensures (left + letter) + zero == left + (letter + zero) && left + "" == left
  {
  }

  lemma HashedIs(buf: string, f: Flags, width: nat, precision: nat, base: nat, left: string)
    requires left == Remaining(buf, f, width, precision, base)
    ensures Hashed(buf, f, width, precision, base) == left + (Letter(|left|, f, base) + ZeroMark(|left|, f, base))
  {
    Pushed(left, Letter(|left|, f, base), ZeroMark(|left|, f, base));
    Pushed(left, "", "");
    Pushed(left, "", "0");
    assert left + Letter(|left|, f, base) + "" == left + Letter(|left|, f, base);
  }

  /** The characters before and behind a text in a field. */
  function Framed(text: string, f: Flags, width: nat): string {
    (if Left in f || ZeroPad in f then "" else Repeat(' ', width - |text|)) + text +
    (if Left in f then Repeat(' ', width - |text|) else "")
  }

  lemma {:induction false} FramedIs(buf: string, text: string, f: Flags, width: nat)
    requires Reverse(buf) == text && |buf| == |text|
    ensures Reversed(buf, f, width) == Framed(text, f, width)
  {
  }

  lemma {:induction false} ReverseParts(left: string, mark: string, sign: string)
    requires |sign| <= 1
    ensures Reverse((left + Reverse(mark)) + sign) == sign + (mark + Reverse(left))
  {
    ReverseConcat(left + Reverse(mark), sign);
    ReverseConcat(left, Reverse(mark));
    ReverseTwice(mark);
    ReverseShort(sign);
  }

  lemma {:induction false} ReverseTwice(s: string)
    ensures Reverse(Reverse(s)) == s
  {
    if s != "" {
      ReverseConcat(Reverse(s[1..]), [s[0]]);
      ReverseTwice(s[1..]);
      ReverseShort([s[0]]);
    }
  }

  /** A number field is spaces, a sign, the '#' mark, zeros and digits as far as '#'
      leaves them, and spaces, nothing else. */
  lemma FieldShape(v: nat, f: Flags, base: nat, width: nat, precision: nat, negative: bool, g: Flags, w: nat)
    requires 2 <= base <= 16 && g == OwnFlags(v, f) && w == NarrowWidth(g, width, negative)
    ensures var left := Remaining(Padded(OwnDigits(v, g, base), g, w, precision), g, w, precision, base);
            var mark := Mark(|left|, g, base);
            var text := FittingSign(|left| + |mark|, g, negative) + (mark + Reverse(left));
            NumberField(v, f, base, width, precision, negative) == Framed(text, g, w)
  {
    var buf := Padded(OwnDigits(v, g, base), g, w, precision);
    var left := Remaining(buf, g, w, precision, base);
    var mark := Mark(|left|, g, base);
    var sign := FittingSign(|left| + |mark|, g, negative);
    HashedIs(buf, g, w, precision, base, left);
    MarkReversed(|left|, g, base);
    ReverseParts(left, mark, sign);
    var all := Buffer(OwnDigits(v, g, base), g, width, precision, base, negative);
    assert left + Reverse(mark) + "" == left + Reverse(mark);
    assert all == (left + Reverse(mark)) + sign;
    FramedIs(all, sign + (mark + Reverse(left)), g, w);
  }

  /** The buffer in printing order, before '#'. */
  lemma {:induction false} PaddedReversed(ds: string, f: Flags, width: nat, precision: nat, z: nat)
    requires |ds| <= NTOA_MAX && z == ZeroCount(|ds|, f, width, precision)
    ensures Reverse(Padded(ds, f, width, precision)) == Repeat('0', z) + Reverse(ds)
    ensures |Padded(ds, f, width, precision)| == |ds| + z
  {
    PaddedIs(ds, f, width, precision);
    ReverseConcat(ds, Repeat('0', z));
    ReverseRepeat('0', z);
  }

  /** Without '#' there are all the zeros and all the digits, and no mark. */
  lemma PlainShape(v: nat, f: Flags, base: nat, width: nat, precision: nat, negative: bool, w: nat, z: nat)
    requires 2 <= base <= 16 && Hash !in f && w == NarrowWidth(f, width, negative)
    requires z == ZeroCount(|OwnDigits(v, f, base)|, f, w, precision)
    ensures var ds := OwnDigits(v, f, base);
            var text := FittingSign(|ds| + z, f, negative) + (Repeat('0', z) + Reverse(ds));
            NumberField(v, f, base, width, precision, negative) == Framed(text, f, w)
  {
    var ds := OwnDigits(v, f, base);
    assert OwnFlags(v, f) == f;
    FieldShape(v, f, base, width, precision, negative, f, w);
    PaddedReversed(ds, f, w, precision, z);
    var buf := Padded(ds, f, w, precision);
    assert Remaining(buf, f, w, precision, base) == buf;
    assert Mark(|buf|, f, base) + Reverse(buf) == Reverse(buf);
  }

  // ------------------------------------------------------------ how long it gets

  /** The digits are no more than needed. */
  lemma {:induction false} DigitsNeeded(v: nat, base: nat, upper: bool, room: nat)
    requires 2 <= base <= 16 && room > 0
    ensures var n := |DigitsOf(v, base, upper, room)|; n == 1 || Power(base, n - 1) <= v
    decreases room
  {
    var q := v / base;
    DivMod(v, base);
    if q != 0 && room > 1 {
      DigitsNeeded(q, base, upper, room - 1);
      var n := |DigitsOf(q, base, upper, room - 1)|;
      assert Power(base, n - 1) <= q;
      MulMonotone(base, Power(base, n - 1), q);
    }
  }

  lemma DigitsFit(v: nat, f: Flags, base: nat)
    requires v < 0x1_0000_0000_0000_0000 && 3 <= base <= 16
    ensures |OwnDigits(v, f, base)| < NTOA_MAX
  {
    var n := |DigitsOf(v, base, Upper in f, NTOA_MAX)|;
    DigitsNeeded(v, base, Upper in f, NTOA_MAX);
    PowerGrows(base, 47);
  }

  /** The arithmetic of padding. */
  lemma PaddedLength(n: nat, f: Flags, width: nat, precision: nat, negative: bool, s: nat)
    requires n <= NTOA_MAX && width < NTOA_MAX && precision < NTOA_MAX && s == |Sign(f, negative)|
    requires n < NTOA_MAX || s == 0
    ensures var w := NarrowWidth(f, width, negative);
            var z := ZeroCount(n, f, w, precision);
            && (s > 0 ==> n + z < NTOA_MAX)
            && (if Left in f || ZeroPad !in f then Max(w, n + z + s) else n + z + s) ==
               Max(width, (if Left in f then n else Max(n, precision)) + s)
  {
  }

  lemma ShapeLength(v: nat, f: Flags, base: nat, width: nat, precision: nat, negative: bool, n: nat, w: nat, z: nat)
    requires 2 <= base <= 16 && Hash !in f && n == |OwnDigits(v, f, base)|
    requires w == NarrowWidth(f, width, negative) && z == ZeroCount(n, f, w, precision)
    ensures var s := |FittingSign(n + z, f, negative)|;
            |NumberField(v, f, base, width, precision, negative)| ==
            if Left in f || ZeroPad !in f then Max(w, n + z + s) else n + z + s
  {
    PlainShape(v, f, base, width, precision, negative, w, z);
    var text := FittingSign(n + z, f, negative) + (Repeat('0', z) + Reverse(OwnDigits(v, f, base)));
    assert |text| == |FittingSign(n + z, f, negative)| + z + n;
  }

  /** The length of a number field: the width, or the digits (at least as many as
      the precision says, except under '-') and the sign, whichever is more. */
  lemma FieldLength(v: nat, f: Flags, base: nat, width: nat, precision: nat, negative: bool, n: nat)
    requires 2 <= base <= 16 && Hash !in f && width < NTOA_MAX && precision < NTOA_MAX
    requires v < 0x1_0000_0000_0000_0000 && (base > 2 || Sign(f, negative) == "")
    requires n == |OwnDigits(v, f, base)|
    ensures |NumberField(v, f, base, width, precision, negative)| ==
            Max(width, (if Left in f then n else Max(n, precision)) + |Sign(f, negative)|)
  {
    if base > 2 { DigitsFit(v, f, base); }
    var w := NarrowWidth(f, width, negative);
    ShapeLength(v, f, base, width, precision, negative, n, w, ZeroCount(n, f, w, precision));
    PaddedLength(n, f, width, precision, negative, |Sign(f, negative)|);
  }

  /** The bound on the width is needed: zeros stop at the end of the buffer. */
  lemma WideZeros(v: nat, f: Flags, base: nat, width: nat, precision: nat)
    requires 2 <= base <= 16 && Hash !in f && ZeroPad in f && Left !in f && Sign(f, false) == "" && width > NTOA_MAX
    ensures |NumberField(v, f, base, width, precision, false)| == NTOA_MAX
  {
    var n := |OwnDigits(v, f, base)|;
    ShapeLength(v, f, base, width, precision, false, n, width, ZeroCount(n, f, width, precision));
  }
}
