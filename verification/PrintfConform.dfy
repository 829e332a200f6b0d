/**
 What ISO C11 (section 7.21.6.1) prints for a whole format of the conversions d, i, u,
 o, x, X, c, s and %, and when vprintf (lethe-libc/stdio.c:206-564) prints the same.
 Formats it leaves undefined have no text here.
 */
module PrintfConform {
  import opened Wrappers
  import opened PrintfModel
  import opened PrintfStandard
  import opened PrintfAlternate
  import opened PrintfFormat

  // -------------------------------------------------------------- the standard

  /** A negative precision argument is as if there were no precision. */
  function StandardPrecision(fmt: string, va: Args, d: Dir): (r: Option<Dir>)
    requires d.pos <= |fmt|
    ensures r.Some? ==> d.pos <= r.value.pos <= |fmt|
  {
    if NegativePrecision(fmt, va, d) then Some(d.(pos := d.pos + 2, arg := d.arg + 1)) else PrecisionAt(fmt, va, d)
  }

  predicate NegativePrecision(fmt: string, va: Args, d: Dir) {
    && Peek(fmt, d.pos) == '.' && Peek(fmt, d.pos + 1) == '*'
    && va(d.arg).Word? && SignedPart(va(d.arg).word, 0x8000_0000) < 0
  }

  function StandardDirective(fmt: string, i: nat, va: Args, a: nat): (r: Option<Dir>)
    requires i <= |fmt|
    ensures r.Some? ==> i <= r.value.pos <= |fmt|
  {
    var (g, j) := FlagsAt(fmt, i, {});
    match WidthAt(fmt, va, Dir(g, 0, 0, j, a))
    case None => None
    case Some(d) =>
      match StandardPrecision(fmt, va, d)
      case None => None
      case Some(e) => Some(LengthAt(fmt, e))
  }

  predicate SignedConversion(c: char) {
    c == 'd' || c == 'i'
  }

  /** '+' and ' ' are for signed conversions, X prints in capitals. */
  function StandardFlags(c: char, f: Flags): Flags {
    var g := if SignedConversion(c) then f else f - {Plus, Blank};
    if c == 'X' then g + {Upper} else g - {Upper}
  }

  /** '#' is undefined for decimal conversions. */
  function StandardInteger(c: char, d: Dir, a: Arg): Option<string>
    requires a.Word?
  {
    var f, base := StandardFlags(c, d.flags), BaseOf(c);
    var (n, half) := Reading(d.flags, a);
    var v := if SignedConversion(c) then SignedPart(n, half) else n;
    if Hash !in f then Some(Field(if v < 0 then -v else v, f, base, d.width, d.precision, v < 0))
    else if base == 10 then None
    else Some(AltField(n, f, base, d.width, d.precision))
  }

  function Padding(s: string, d: Dir): string {
    if Left in d.flags then s + Repeat(' ', d.width - |s|) else Repeat(' ', d.width - |s|) + s
  }

  predicate Bare(d: Dir) {
    d.flags == {} && d.width == 0 && d.precision == 0
  }

  /** The text of one conversion and the argument behind it. */
  function StandardConvert(va: Args, c: char, d: Dir): Option<(string, nat)> {
    if c == '%' then if Bare(d) then Some(("%", d.arg)) else None
    else if Integer(c) && c != 'b' && va(d.arg).Word? then
      match StandardInteger(c, d, va(d.arg)) case None => None case Some(s) => Some((s, d.arg + 1))
    else if LongLen in d.flags then None
    else if c == 'c' && va(d.arg).Word? then Some((Padding([CharOf(va(d.arg).byte)], d), d.arg + 1))
    else if c == 's' && va(d.arg).Text? then
      var s := va(d.arg).chars;
      Some((Padding(if Prec in d.flags && d.precision < |s| then s[..d.precision] else s, d), d.arg + 1))
    else None
  }

  /** The text of the piece at i, where the next begins, and its argument. */
  function StandardPiece(fmt: string, i: nat, va: Args, a: nat): (r: Option<(string, nat, nat)>)
    requires i < |fmt|
    ensures r.Some? ==> i < r.value.1 <= |fmt|
  {
    if fmt[i] != '%' then Some(([fmt[i]], i + 1, a))
    else
      match StandardDirective(fmt, i + 1, va, a)
      case None => None
      case Some(d) =>
        if d.pos == |fmt| then None
        else match StandardConvert(va, fmt[d.pos], d) case None => None case Some((s, b)) => Some((s, d.pos + 1, b))
  }

  function StandardText(fmt: string, i: nat, va: Args, a: nat): (r: Option<string>)
    requires i <= |fmt|
    decreases |fmt| - i
  {
    if i == |fmt| then Some("")
    else
      match StandardPiece(fmt, i, va, a)
      case None => None
      case Some((s, j, b)) => PrintfFormat.Joined(s, StandardText(fmt, j, va, b))
  }

  // ---------------------------------------------------------------- when they agree

  /** Flags, width, precision and value are such that __ntoa prints what the standard
      does, and the value has an absolute value there. */
  predicate IntegerAgrees(c: char, d: Dir, a: Arg)
    requires Integer(c) && c != 'b' && a.Word?
  {
    var g := IntegerFlags(c, d.flags);
    match Magnitude(c, g, a)
    case None => false
    case Some((v, negative)) =>
      if Hash in g then AltAgrees(v, g, BaseOf(c), d.width, d.precision)
      else Agrees(v, g, BaseOf(c), d.width, d.precision, negative)
  }

  predicate ConversionAgrees(va: Args, c: char, d: Dir) {
    if c == '%' then Bare(d)
    else if Integer(c) then
      c != 'b' && va(d.arg).Word? && !(Hash in d.flags && BaseOf(c) == 10) && IntegerAgrees(c, d, va(d.arg))
    else if LongLen in d.flags then false
    else if c == 'c' then va(d.arg).Word?
    else c == 's' && va(d.arg).Text? && |va(d.arg).chars| < 0x1_0000_0000
  }

  /** The directive at i, if there is one, is complete, takes no negative precision from
      an argument, and its conversion agrees. */
  predicate PieceAgrees(fmt: string, i: nat, va: Args, a: nat)
    requires i < |fmt|
  {
    fmt[i] == '%' ==>
      var d := DirectiveAt(fmt, i + 1, {}, va, a);
      && d.Some? && d == StandardDirective(fmt, i + 1, va, a)
      && d.value.pos < |fmt| && ConversionAgrees(va, fmt[d.value.pos], d.value)
  }

  predicate AllAgree(fmt: string, i: nat, va: Args, a: nat)
    requires i <= |fmt|
    decreases |fmt| - i
  {
    i == |fmt| ||
    (PieceAgrees(fmt, i, va, a) &&
     match StandardPiece(fmt, i, va, a) case None => true case Some((_, j, b)) => AllAgree(fmt, j, va, b))
  }

  // -------------------------------------------------------------- one conversion

  predicate SameLook(f: Flags, g: Flags) {
    && (Left in f <==> Left in g) && (Prec in f <==> Prec in g) && (Upper in f <==> Upper in g)
    && (Plus in f <==> Plus in g) && (Blank in f <==> Blank in g) && (Prec !in f ==> (ZeroPad in f <==> ZeroPad in g))
  }

  /** No other flags matter to the field. */
  lemma FieldByFlags(v: nat, f: Flags, g: Flags, base: nat, width: nat, precision: nat, negative: bool)
    requires 2 <= base <= 16 && SameLook(f, g)
    ensures Field(v, f, base, width, precision, negative) == Field(v, g, base, width, precision, negative)
  {
    DigitsByFlags(v, f, g, base, precision);
    assert Sign(f, negative) == Sign(g, negative);
    if Left !in f && Prec in f { assert ZeroPad in f && Prec !in f <==> ZeroPad in g && Prec !in g; }
  }

  lemma DigitsByFlags(v: nat, f: Flags, g: Flags, base: nat, precision: nat)
    requires 2 <= base <= 16 && SameLook(f, g)
    ensures Digits(v, f, base, precision) == Digits(v, g, base, precision)
  {
  }

  lemma AltFieldByFlags(v: nat, f: Flags, g: Flags, base: nat, width: nat, precision: nat)
    requires 2 <= base <= 16 && SameLook(f, g)
    ensures AltField(v, f, base, width, precision) == AltField(v, g, base, width, precision)
  {
    DigitsByFlags(v, f, g, base, precision);
  }

  lemma FlagsLook(c: char, f: Flags)
    requires Integer(c) && Upper !in f
    ensures SameLook(StandardFlags(c, f), IntegerFlags(c, f))
    ensures Hash in IntegerFlags(c, f) <==> Hash in StandardFlags(c, f) && BaseOf(c) != 10
    ensures !SignedConversion(c) ==> Plus !in IntegerFlags(c, f) && Blank !in IntegerFlags(c, f)
    ensures !(Prec in IntegerFlags(c, f) && ZeroPad in IntegerFlags(c, f))
  {
  }

  lemma SameReading(c: char, f: Flags, a: Arg)
    requires a.Word?
    ensures Reading(IntegerFlags(c, f), a) == Reading(f, a)
  {
  }

  /** What an argument is worth to the code, if it has an absolute value there. */
  lemma MagnitudeIs(c: char, f: Flags, a: Arg, v: nat, negative: bool)
    requires a.Word? && Magnitude(c, IntegerFlags(c, f), a) == Some((v, negative))
    ensures var (n, half) := Reading(f, a);
            var x := if SignedConversion(c) then SignedPart(n, half) else n;
            v == (if x < 0 then -x else x) && negative == (x < 0)
  {
    SameReading(c, f, a);
  }

  lemma OwnText(va: Args, c: char, d: Dir, g: Flags, v: nat, negative: bool)
    requires va(d.arg).Word? && g == IntegerFlags(c, d.flags) && Magnitude(c, g, va(d.arg)) == Some((v, negative))
    ensures IntegerPiece(va, c, d) == Some(Piece(NumberField(v, g, BaseOf(c), d.width, d.precision, negative), g, d.arg + 1))
  {
  }

  lemma NoText(va: Args, c: char, d: Dir)
    requires Integer(c) && c != 'b' && va(d.arg).Word? && Magnitude(c, IntegerFlags(c, d.flags), va(d.arg)) == None
    ensures IntegerPiece(va, c, d) == None && !IntegerAgrees(c, d, va(d.arg))
  {
  }

  lemma AgreesIs(c: char, d: Dir, a: Arg, g: Flags, v: nat, negative: bool)
    requires Integer(c) && c != 'b' && a.Word? && g == IntegerFlags(c, d.flags) && Magnitude(c, g, a) == Some((v, negative))
    ensures IntegerAgrees(c, d, a) <==>
            if Hash in g then AltAgrees(v, g, BaseOf(c), d.width, d.precision)
            else Agrees(v, g, BaseOf(c), d.width, d.precision, negative)
  {
  }

  lemma StandardIs(c: char, d: Dir, a: Arg, v: nat, negative: bool)
    requires Integer(c) && a.Word? && !(Hash in d.flags && BaseOf(c) == 10)
    requires Magnitude(c, IntegerFlags(c, d.flags), a) == Some((v, negative))
    ensures var f := StandardFlags(c, d.flags);
            StandardInteger(c, d, a) ==
            Some(if Hash in f then AltField(v, f, BaseOf(c), d.width, d.precision)
                 else Field(v, f, BaseOf(c), d.width, d.precision, negative))
    ensures Hash in d.flags ==> !negative
  {
    MagnitudeIs(c, d.flags, a, v, negative);
  }

  /** The piece has the text. */
  predicate Prints(p: Option<Piece>, s: Option<string>) {
    p.Some? && s.Some? && p.value.text == s.value
  }

  /** An integer conversion prints what the standard prescribes if and only if the two
      agree on it. */
  lemma IntegerIff(va: Args, c: char, d: Dir)
    requires Integer(c) && c != 'b' && va(d.arg).Word? && Upper !in d.flags && (Prec !in d.flags ==> d.precision == 0)
    requires !(Hash in d.flags && BaseOf(c) == 10)
    ensures Prints(IntegerPiece(va, c, d), StandardInteger(c, d, va(d.arg))) <==> IntegerAgrees(c, d, va(d.arg))
  {
    match Magnitude(c, IntegerFlags(c, d.flags), va(d.arg)) {
      case None => NoText(va, c, d);
      case Some((v, negative)) => SomeTextIff(va, c, d, StandardFlags(c, d.flags), IntegerFlags(c, d.flags), v, negative);
    }
  }

  lemma SomeTextIff(va: Args, c: char, d: Dir, f: Flags, g: Flags, v: nat, negative: bool)
    requires Integer(c) && c != 'b' && va(d.arg).Word? && Upper !in d.flags && (Prec !in d.flags ==> d.precision == 0)
    requires !(Hash in d.flags && BaseOf(c) == 10) && f == StandardFlags(c, d.flags) && g == IntegerFlags(c, d.flags)
    requires Magnitude(c, g, va(d.arg)) == Some((v, negative))
    ensures Prints(IntegerPiece(va, c, d), StandardInteger(c, d, va(d.arg))) <==> IntegerAgrees(c, d, va(d.arg))
  {
    OwnText(va, c, d, g, v, negative);
    FlagsLook(c, d.flags);
    HashKept(c, d.flags);
    StandardIs(c, d, va(d.arg), v, negative);
    AgreesIs(c, d, va(d.arg), g, v, negative);
    TextIff(c, f, g, v, negative, d.width, d.precision);
  }

  lemma HashKept(c: char, f: Flags)
    requires Integer(c) && !(Hash in f && BaseOf(c) == 10)
    ensures Hash in StandardFlags(c, f) <==> Hash in f
    ensures Hash in IntegerFlags(c, f) <==> Hash in f
    ensures Prec in IntegerFlags(c, f) <==> Prec in f
  {
  }

  lemma TextIff(c: char, f: Flags, g: Flags, v: nat, negative: bool, width: nat, precision: nat)
    requires Integer(c) && c != 'b' && SameLook(f, g) && !(Prec in g && ZeroPad in g) && (Prec !in g ==> precision == 0)
    requires (Hash in f <==> Hash in g) && (Hash in g ==> !negative && BaseOf(c) != 10 && Plus !in g && Blank !in g)
    ensures NumberField(v, g, BaseOf(c), width, precision, negative) ==
            (if Hash in f then AltField(v, f, BaseOf(c), width, precision) else Field(v, f, BaseOf(c), width, precision, negative)) <==>
            if Hash in g then AltAgrees(v, g, BaseOf(c), width, precision) else Agrees(v, g, BaseOf(c), width, precision, negative)
  {
    if Hash in g {
      AltFieldByFlags(v, f, g, BaseOf(c), width, precision);
      AlternateIff(v, g, BaseOf(c), width, precision);
    } else {
      FieldByFlags(v, f, g, BaseOf(c), width, precision, negative);
      FieldIffStandard(v, g, BaseOf(c), width, precision, negative);
    }
  }

  // -------------------------------------------------------------- whole formats

  lemma {:induction false} FlagsNoUpper(fmt: string, i: nat, f: Flags)
    requires i <= |fmt| && Upper !in f
    ensures Upper !in FlagsAt(fmt, i, f).0
    decreases |fmt| - i
  {
    var g := FlagOf(Peek(fmt, i), f);
    if g.Some? { FlagsNoUpper(fmt, i + 1, g.value); }
  }

  /** A directive on its own asks for no capitals before its conversion character. */
  lemma NoUpper(fmt: string, i: nat, va: Args, a: nat)
    requires i <= |fmt|
    ensures DirectiveAt(fmt, i, {}, va, a).Some? ==> Upper !in DirectiveAt(fmt, i, {}, va, a).value.flags
  {
    FlagsNoUpper(fmt, i, {});
  }

  lemma TextIs(va: Args, d: Dir)
    requires va(d.arg).Text? && |va(d.arg).chars| < 0x1_0000_0000
    ensures var s := va(d.arg).chars;
            var t := if Prec in d.flags && d.precision < |s| then s[..d.precision] else s;
            TextPiece(va, d) == Some(Piece(Padding(t, d), d.flags, d.arg + 1))
  {
    var s := va(d.arg).chars;
    var t := if Prec in d.flags && d.precision < |s| then s[..d.precision] else s;
    assert s[..TextLength(s, d)] == t && PadFrom(s, d) == |t|;
  }

  lemma CharIs(va: Args, d: Dir)
    requires va(d.arg).Word?
    ensures CharPiece(va, d) == Some(Piece(Padding([CharOf(va(d.arg).byte)], d), d.flags, d.arg + 1))
  {
  }

  lemma ArgumentTaken(va: Args, c: char, d: Dir)
    ensures IntegerPiece(va, c, d).Some? ==> IntegerPiece(va, c, d).value.arg == d.arg + 1
  {
  }

  /** Conversions that agree print the standard's text and take the same arguments. */
  lemma ConversionIs(va: Args, c: char, d: Dir)
    requires ConversionAgrees(va, c, d) && Upper !in d.flags && (Prec !in d.flags ==> d.precision == 0)
    ensures Convert(va, c, d).Some?
    ensures StandardConvert(va, c, d) == Some((Convert(va, c, d).value.text, Convert(va, c, d).value.arg))
  {
    if Integer(c) {
      IntegerIff(va, c, d);
      ArgumentTaken(va, c, d);
    } else if c == 'c' {
      CharIs(va, d);
    } else if c == 's' {
      TextIs(va, d);
    }
  }

  lemma PieceIs(fmt: string, i: nat, va: Args, a: nat)
    requires i < |fmt| && PieceAgrees(fmt, i, va, a)
    ensures PieceAt(fmt, i, {}, va, a).Some?
    ensures var (p, j) := PieceAt(fmt, i, {}, va, a).value;
            StandardPiece(fmt, i, va, a) == Some((p.text, j, p.arg))
  {
    if fmt[i] == '%' {
      NoUpper(fmt, i + 1, va, a);
      NoPrecisionIsZero(fmt, i + 1, {}, va, a);
      var d := DirectiveAt(fmt, i + 1, {}, va, a).value;
      ConversionIs(va, fmt[d.pos], d);
      var p := Convert(va, fmt[d.pos], d).value;
      PieceFrom(fmt, i, va, a, d, p);
      StandardFrom(fmt, i, va, a, d, p.text, p.arg);
    }
  }

  lemma PieceFrom(fmt: string, i: nat, va: Args, a: nat, d: Dir, p: Piece)
    requires i < |fmt| && fmt[i] == '%' && DirectiveAt(fmt, i + 1, {}, va, a) == Some(d)
    requires d.pos < |fmt| && Convert(va, fmt[d.pos], d) == Some(p)
    ensures PieceAt(fmt, i, {}, va, a) == Some((p, d.pos + 1))
  {
  }

  lemma StandardFrom(fmt: string, i: nat, va: Args, a: nat, d: Dir, s: string, b: nat)
    requires i < |fmt| && fmt[i] == '%' && StandardDirective(fmt, i + 1, va, a) == Some(d)
    requires d.pos < |fmt| && StandardConvert(va, fmt[d.pos], d) == Some((s, b))
    ensures StandardPiece(fmt, i, va, a) == Some((s, d.pos + 1, b))
  {
  }

  /** If everything agrees, clearing the flags per directive prints what the standard
      has for the format. */
  lemma {:induction false} FreshIsStandard(fmt: string, i: nat, va: Args, a: nat)
    requires i <= |fmt| && AllAgree(fmt, i, va, a)
    ensures StandardText(fmt, i, va, a).Some? && RenderFresh(fmt, i, va, a) == StandardText(fmt, i, va, a)
    decreases |fmt| - i
  {
    if i < |fmt| {
      PieceIs(fmt, i, va, a);
      var (p, j) := PieceAt(fmt, i, {}, va, a).value;
      FreshIsStandard(fmt, j, va, p.arg);
    }
  }

  /** So vprintf prints the text of the standard for every format whose directives leave
      nothing over and agree. */
  lemma {:induction false} PrintsStandard(fmt: string, va: Args)
    requires NothingLeftOver(fmt, 0, {}, va, 0) && AllAgree(fmt, 0, va, 0)
    ensures StandardText(fmt, 0, va, 0).Some? && Render(fmt, 0, {}, va, 0) == StandardText(fmt, 0, va, 0)
  {
    FreshWhenNothingLeftOver(fmt, 0, {}, va, 0);
    FreshIsStandard(fmt, 0, va, 0);
  }

  /** A directive is read as the standard reads it if and only if no negative precision
      comes from an argument. */
  lemma {:induction false} DirectiveIff(fmt: string, i: nat, va: Args, a: nat)
    requires i <= |fmt|
    ensures var (g, j) := FlagsAt(fmt, i, {});
            var w := WidthAt(fmt, va, Dir(g, 0, 0, j, a));
            DirectiveAt(fmt, i, {}, va, a) == StandardDirective(fmt, i, va, a) <==>
            w.Some? ==> !NegativePrecision(fmt, va, w.value)
  {
    var (g, j) := FlagsAt(fmt, i, {});
    var w := WidthAt(fmt, va, Dir(g, 0, 0, j, a));
    FlagsNoPrec(fmt, i, {});
    if w.Some? && NegativePrecision(fmt, va, w.value) { LengthKeepsPrec(fmt, w.value); }
  }

  lemma {:induction false} FlagsNoPrec(fmt: string, i: nat, f: Flags)
    requires i <= |fmt| && Prec !in f
    ensures Prec !in FlagsAt(fmt, i, f).0
    decreases |fmt| - i
  {
    var g := FlagOf(Peek(fmt, i), f);
    if g.Some? { FlagsNoPrec(fmt, i + 1, g.value); }
  }

  lemma LengthKeepsPrec(fmt: string, d: Dir)
    requires d.pos + 2 <= |fmt|
    ensures Prec in LengthAt(fmt, d.(flags := d.flags + {Prec}, pos := d.pos + 2)).flags
    ensures Prec in LengthAt(fmt, d.(pos := d.pos + 2, arg := d.arg + 1)).flags <==> Prec in d.flags
  {
  }

  // ------------------------------------------------------------ a negative precision

  lemma {:induction false} ZeroField(own: Flags, std: Flags)
    requires own == {Prec} && std == {}
    ensures NumberField(0, own, 10, 0, 0, false) == "" && Field(0, std, 10, 0, 0, false) == "0"
  {
    PlainShape(0, own, 10, 0, 0, false, 0, 0);
    assert OwnDigits(0, own, 10) == "" && Reverse("") == "" && Repeat('0', 0) == "" && "" + ("" + "") == "";
    assert Repeat(' ', 0) == "" && "" + "" + "" == "";
    assert Natural(0, 10, false) == "" && Repeat('0', 1) == "0" && "0" + "" == "0";
    assert Digits(0, std, 10, 0) == "0" && Repeat(' ', 0 - 1) == "" && "" + "" + "0" == "0";
  }

  /** "%.*d" as both read it, when -1 and 0 are given. */
  lemma StarRead(fmt: string, va: Args)
    requires fmt == "%.*d" && va(0) == WordOf(0xFFFF_FFFF)
    ensures DirectiveAt(fmt, 1, {}, va, 0) == Some(Dir({Prec}, 0, 0, 3, 1))
    ensures StandardDirective(fmt, 1, va, 0) == Some(Dir({}, 0, 0, 3, 1))
  {
    var none: Flags := {};
    assert FlagsAt(fmt, 1, none) == (none, 1);
    assert none + {Prec} == {Prec};
  }

  lemma StarPieces(fmt: string, va: Args, own: Flags, std: Flags)
    requires fmt == "%.*d" && va(0) == WordOf(0xFFFF_FFFF) && va(1) == WordOf(0) && own == {Prec} && std == {}
    ensures PieceAt(fmt, 0, {}, va, 0) == Some((Piece("", own, 2), 4))
    ensures StandardPiece(fmt, 0, va, 0) == Some(("0", 4, 2))
  {
    StarRead(fmt, va);
    StarOwn(va, Dir(own, 0, 0, 3, 1), own);
    StarStandard(va, Dir(std, 0, 0, 3, 1), std);
    PieceFrom(fmt, 0, va, 0, Dir(own, 0, 0, 3, 1), Piece("", own, 2));
    StandardFrom(fmt, 0, va, 0, Dir(std, 0, 0, 3, 1), "0", 2);
  }

  lemma StarOwn(va: Args, d: Dir, own: Flags)
    requires own == {Prec} && d == Dir(own, 0, 0, 3, 1) && va(1) == WordOf(0)
    ensures Convert(va, 'd', d) == Some(Piece("", own, 2))
  {
    ZeroField(own, {});
    assert WordOf(0) == Word(0, 0, 0, 0);
    assert IntegerFlags('d', own) == own;
    OwnText(va, 'd', d, own, 0, false);
  }

  lemma StarStandard(va: Args, e: Dir, std: Flags)
    requires std == {} && e == Dir(std, 0, 0, 3, 1) && va(1) == WordOf(0)
    ensures StandardConvert(va, 'd', e) == Some(("0", 2))
  {
    ZeroField({Prec}, std);
    assert WordOf(0) == Word(0, 0, 0, 0);
    assert StandardFlags('d', std) == std;
  }

  /** Called with "%.*d", -1 and 0, vprintf prints nothing, where the standard has 0. */
  lemma {:induction false} NegativePrecisionExample(fmt: string, va: Args)
    requires fmt == "%.*d" && va(0) == WordOf(0xFFFF_FFFF) && va(1) == WordOf(0)
    ensures Render(fmt, 0, {}, va, 0) == Some("") && StandardText(fmt, 0, va, 0) == Some("0")
  {
    StarPieces(fmt, va, {Prec}, {});
    RenderUnfolds(fmt, 0, {}, va, 0, Piece("", {Prec}, 2), 4);
    assert Render(fmt, 4, {Prec}, va, 2) == Some("") && StandardText(fmt, 4, va, 2) == Some("");
    assert "" + "" == "" && "0" + "" == "0";
  }
}
