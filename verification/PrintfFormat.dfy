/**
 The directives of a format (lethe-libc/stdio.c:206-564) and what vprintf prints.
 The flags are cleared once per call, not once per directive, so every directive
 also sees the flags of those before it.
 */
module PrintfFormat {
  import opened Wrappers
  import opened PrintfModel
  import Standard = PrintfStandard

  /** A variable argument: a number, as a type of 8, 16, 32 or 64 bits without sign
      reads it, or a pointer to a string. */
  datatype Arg = Word(byte: nat, short: nat, word: nat, long: nat) | Text(chars: string) | Missing

  /** The arguments, by their number. */
  type Args = nat -> Arg

  /** The argument that eight bytes make. */
  function WordOf(bits: nat): Arg {
    Word(bits % 0x100, bits % 0x1_0000, bits % 0x1_0000_0000, bits % 0x1_0000_0000_0000_0000)
  }

  /** A number as a uint32_t keeps it. */
  function Wrap32(n: nat): nat {
    if n < 0x1_0000_0000 then n else n % 0x1_0000_0000
  }

  /** A number of a type with 2 * half values, read with sign. */
  function SignedPart(n: nat, half: nat): int {
    if n >= half then n - 2 * half else n
  }

  /** The character at i; a string ends with a zero. */
  function Peek(fmt: string, i: nat): char {
    if i < |fmt| then fmt[i] else '\0'
  }

  predicate IsDigit(c: char) {
    '0' <= c <= '9'
  }

  function FlagOf(c: char, f: Flags): Option<Flags> {
    if c == '0' then Some(f + {ZeroPad})
    else if c == '-' then Some(f + {Left})
    else if c == '+' then Some(f + {Plus})
    else if c == ' ' then Some(f + {Blank})
    else if c == '#' then Some(f + {Hash})
    else None
  }

  /** The flag characters from i on. */
  function FlagsAt(fmt: string, i: nat, f: Flags): (r: (Flags, nat))
    requires i <= |fmt|
    ensures i <= r.1 <= |fmt|
    decreases |fmt| - i
  {
    var g := FlagOf(Peek(fmt, i), f);
    if g.Some? then FlagsAt(fmt, i + 1, g.value) else (f, i)
  }

  /** atoi from i on, in 32 bits. */
  function NumberAt(fmt: string, i: nat, acc: nat): (r: (nat, nat))
    requires i <= |fmt|
    ensures i <= r.1 <= |fmt|
    decreases |fmt| - i
  {
    if i < |fmt| && IsDigit(fmt[i]) then NumberAt(fmt, i + 1, Wrap32(acc * 10 + (fmt[i] as int - '0' as int))) else (acc, i)
  }

  /** The decimal number a string of digits spells. */
  function Decimal(s: string): nat {
    if s == "" then 0 else 10 * Decimal(s[..|s| - 1]) + (if IsDigit(s[|s| - 1]) then s[|s| - 1] as int - '0' as int else 0)
  }

  lemma WrapStep(a: nat, d: nat)
    ensures Wrap32(Wrap32(a) * 10 + d) == (a * 10 + d) % 0x1_0000_0000
  {
    var q := a / 0x1_0000_0000;
    assert a * 10 + d == (a % 0x1_0000_0000 * 10 + d) + 0x1_0000_0000 * (10 * q);
  }

  lemma {:induction false} DecimalStep(s: string, c: char)
    requires IsDigit(c)
    ensures Decimal(s + [c]) == 10 * Decimal(s) + (c as int - '0' as int)
  {
    assert (s + [c])[..|s|] == s;
  }

  lemma {:induction false} NumberStep(fmt: string, i: nat, n: nat)
    requires i < |fmt| && IsDigit(fmt[i])
    ensures NumberAt(fmt, i, Wrap32(n)) == NumberAt(fmt, i + 1, Wrap32(10 * n + (fmt[i] as int - '0' as int)))
  {
    WrapStep(n, fmt[i] as int - '0' as int);
  }

  /** atoi reads all the digits there are. */
  lemma {:induction false} NumberDigits(fmt: string, i: nat, acc: nat)
    requires i <= |fmt|
    ensures var j := NumberAt(fmt, i, acc).1;
            !IsDigit(Peek(fmt, j)) && forall k :: i <= k < j ==> IsDigit(fmt[k])
    decreases |fmt| - i
  {
    if i < |fmt| && IsDigit(fmt[i]) {
      NumberDigits(fmt, i + 1, Wrap32(acc * 10 + (fmt[i] as int - '0' as int)));
    }
  }

  /** And what they spell modulo 2^32. */
  lemma {:induction false} NumberIsDecimal(fmt: string, start: nat, i: nat)
    requires start <= i <= |fmt|
    ensures var (n, j) := NumberAt(fmt, i, Wrap32(Decimal(fmt[start..i])));
            n == Decimal(fmt[start..j]) % 0x1_0000_0000
    decreases |fmt| - i
  {
    if i < |fmt| && IsDigit(fmt[i]) {
      NumberStep(fmt, i, Decimal(fmt[start..i]));
      assert fmt[start..i + 1] == fmt[start..i] + [fmt[i]];
      DecimalStep(fmt[start..i], fmt[i]);
      NumberIsDecimal(fmt, start, i + 1);
    }
  }

  /** So for every string atoi gives the number that the digits at i spell, modulo
      2^32, and stops behind the last of them. */
  lemma {:induction false} NumberMeans(fmt: string, i: nat)
    requires i <= |fmt|
    ensures var (n, j) := NumberAt(fmt, i, 0);
            && n == Decimal(fmt[i..j]) % 0x1_0000_0000
            && !IsDigit(Peek(fmt, j)) && forall k :: i <= k < j ==> IsDigit(fmt[k])
  {
    assert fmt[i..i] == "" && Decimal("") == 0;
    NumberIsDecimal(fmt, i, i);
    NumberDigits(fmt, i, 0);
  }

  /** A directive as far as it is read. */
  datatype Dir = Dir(flags: Flags, width: nat, precision: nat, pos: nat, arg: nat)

  function WidthAt(fmt: string, va: Args, d: Dir): (r: Option<Dir>)
    requires d.pos <= |fmt|
    ensures r.Some? ==> d.pos <= r.value.pos <= |fmt|
  {
    if IsDigit(Peek(fmt, d.pos)) then
      var (n, i) := NumberAt(fmt, d.pos, 0);
      Some(d.(width := n, pos := i))
    else if Peek(fmt, d.pos) == '*' then
      if !va(d.arg).Word? then None
      else
        var n := SignedPart(va(d.arg).word, 0x8000_0000);
        Some(Dir(if n < 0 then d.flags + {Left} else d.flags, if n < 0 then -n else n, d.precision, d.pos + 1, d.arg + 1))
    else Some(d)
  }

  function PrecisionAt(fmt: string, va: Args, d: Dir): (r: Option<Dir>)
    requires d.pos <= |fmt|
    ensures r.Some? ==> d.pos <= r.value.pos <= |fmt|
  {
    if Peek(fmt, d.pos) != '.' then Some(d)
    else
      var g, i := d.flags + {Prec}, d.pos + 1;
      if IsDigit(Peek(fmt, i)) then
        var (n, j) := NumberAt(fmt, i, 0);
        Some(d.(flags := g, precision := n, pos := j))
      else if Peek(fmt, i) == '*' then
        if !va(d.arg).Word? then None
        else
          var n := SignedPart(va(d.arg).word, 0x8000_0000);
          Some(Dir(g, d.width, if n > 0 then n else 0, i + 1, d.arg + 1))
      else Some(d.(flags := g, pos := i))
  }

  function LengthAt(fmt: string, d: Dir): (r: Dir)
    requires d.pos <= |fmt|
    ensures d.pos <= r.pos <= |fmt|
  {
    var c, f, i := Peek(fmt, d.pos), d.flags, d.pos;
    if c == 'l' then
      if Peek(fmt, i + 1) == 'l' then d.(flags := f + {LongLen, LongLongLen}, pos := i + 2)
      else d.(flags := f + {LongLen}, pos := i + 1)
    else if c == 'h' then
      if Peek(fmt, i + 1) == 'h' then d.(flags := f + {ShortLen, CharLen}, pos := i + 2)
      else d.(flags := f + {ShortLen}, pos := i + 1)
    else if c == 't' || c == 'j' || c == 'z' then d.(flags := f + {LongLen}, pos := i + 1)
    else d
  }

  /** Everything between '%' and the conversion character. */
  function DirectiveAt(fmt: string, i: nat, f: Flags, va: Args, a: nat): (r: Option<Dir>)
    requires i <= |fmt|
    ensures r.Some? ==> i <= r.value.pos <= |fmt|
  {
    var (g, j) := FlagsAt(fmt, i, f);
    match WidthAt(fmt, va, Dir(g, 0, 0, j, a))
    case None => None
    case Some(d) =>
      match PrecisionAt(fmt, va, d)
      case None => None
      case Some(e) => Some(LengthAt(fmt, e))
  }

  // ----------------------------------------------------------------- conversions

  /** What one directive prints, and what it leaves for the next. */
  datatype Piece = Piece(text: string, flags: Flags, arg: nat)

  predicate Integer(c: char) {
    c == 'd' || c == 'i' || c == 'u' || c == 'x' || c == 'X' || c == 'o' || c == 'b'
  }

  function BaseOf(c: char): (b: nat)
    ensures 2 <= b <= 16
  {
    if c == 'x' || c == 'X' then 16 else if c == 'o' then 8 else if c == 'b' then 2 else 10
  }

  /** The flags of an integer conversion. */
  function IntegerFlags(c: char, f: Flags): Flags {
    var g := if BaseOf(c) == 10 then f - {Hash} else f;
    var h := if c == 'X' then g + {Upper} else g;
    var k := if c != 'i' && c != 'd' then h - {Plus, Blank} else h;
    if Prec in k then k - {ZeroPad} else k
  }

  /** An integer argument, as the type its length flags name reads it, and half the
      number of values of that type. */
  function Reading(f: Flags, a: Arg): (r: (nat, nat))
    requires a.Word?
  {
    if LongLongLen in f || LongLen in f then (a.long, 0x8000_0000_0000_0000)
    else if CharLen in f then (a.byte, 0x80)
    else if ShortLen in f then (a.short, 0x8000)
    else (a.word, 0x8000_0000)
  }

  /** Absolute value and sign of an integer argument.  The least int and the least
      long have no absolute value there. */
  function Magnitude(c: char, f: Flags, a: Arg): Option<(nat, bool)>
    requires a.Word?
  {
    var (n, half) := Reading(f, a);
    if c != 'i' && c != 'd' then Some((n, false))
    else
      var v := SignedPart(n, half);
      if half >= 0x8000_0000 && v + half == 0 then None else Some((if v > 0 then v else -v, v < 0))
  }

  function IntegerPiece(va: Args, c: char, d: Dir): Option<Piece> {
    if !va(d.arg).Word? then None
    else
      var f := IntegerFlags(c, d.flags);
      match Magnitude(c, f, va(d.arg))
      case None => None
      case Some((v, negative)) => Some(Piece(NumberField(v, f, BaseOf(c), d.width, d.precision, negative), f, d.arg + 1))
  }

  function CharOf(n: nat): char {
    if n < 256 then n as char else (n % 256) as char
  }

  function CharPiece(va: Args, d: Dir): Option<Piece> {
    if !va(d.arg).Word? then None
    else
      var pad := Repeat(' ', d.width - 1);
      var c := CharOf(va(d.arg).byte);
      Some(Piece(if Left in d.flags then [c] + pad else pad + [c], d.flags, d.arg + 1))
  }

  /** How many characters of a string are printed. */
  function TextLength(s: string, d: Dir): nat {
    if Prec in d.flags then Min(|s|, d.precision) else |s|
  }

  /** The length the padding is computed from, in 32 bits. */
  function PadFrom(s: string, d: Dir): nat {
    if Prec in d.flags then Min(Wrap32(|s|), d.precision) else Wrap32(|s|)
  }

  function TextPiece(va: Args, d: Dir): Option<Piece> {
    if !va(d.arg).Text? then None
    else
      var s := va(d.arg).chars;
      var pad := Repeat(' ', d.width - PadFrom(s, d));
      var text := s[..TextLength(s, d)];
      Some(Piece(if Left in d.flags then text + pad else pad + text, d.flags, d.arg + 1))
  }

  function PointerPiece(va: Args, d: Dir): Option<Piece> {
    if !va(d.arg).Word? then None
    else
      var f := d.flags + {ZeroPad, Upper};
      Some(Piece(NumberField(va(d.arg).long, f, 16, 16, d.precision, false), f, d.arg + 1))
  }

  function Convert(va: Args, c: char, d: Dir): Option<Piece> {
    if Integer(c) then IntegerPiece(va, c, d)
    else if c == 'c' then CharPiece(va, d)
    else if c == 's' then TextPiece(va, d)
    else if c == 'p' then PointerPiece(va, d)
    else Some(Piece([c], d.flags, d.arg))
  }

  /** The piece at position i and where the next begins: a plain character or a
      directive.  None when a directive is cut short by the end of the format, lacks
      its argument, or has an undefined value. */
  function PieceAt(fmt: string, i: nat, f: Flags, va: Args, a: nat): (r: Option<(Piece, nat)>)
    requires i < |fmt|
    ensures r.Some? ==> i < r.value.1 <= |fmt|
  {
    if fmt[i] != '%' then Some((Piece([fmt[i]], f, a), i + 1))
    else
      match DirectiveAt(fmt, i + 1, f, va, a)
      case None => None
      case Some(d) => Converted(fmt, va, d)
  }

  /** A directive with its conversion character. */
  function Converted(fmt: string, va: Args, d: Dir): (r: Option<(Piece, nat)>)
    requires d.pos <= |fmt|
    ensures r.Some? ==> r.value.1 == d.pos + 1 <= |fmt|
  {
    if d.pos == |fmt| then None
    else match Convert(va, fmt[d.pos], d) case None => None case Some(p) => Some((p, d.pos + 1))
  }

  /** What vprintf prints from position i on. */
  function Render(fmt: string, i: nat, f: Flags, va: Args, a: nat): (r: Option<string>)
    requires i <= |fmt|
    decreases |fmt| - i
  {
    if i == |fmt| then Some("")
    else
      match PieceAt(fmt, i, f, va, a)
      case None => None
      case Some((p, j)) => Joined(p.text, Render(fmt, j, p.flags, va, p.arg))
  }

  function Joined(s: string, r: Option<string>): Option<string> {
    match r case None => None case Some(t) => Some(s + t)
  }

  // ------------------------------------------------------ what the standard prints

  /** Without a precision a directive has precision 0. */
  lemma NoPrecisionIsZero(fmt: string, i: nat, f: Flags, va: Args, a: nat)
    requires i <= |fmt|
    ensures var d := DirectiveAt(fmt, i, f, va, a);
            d.Some? && Prec !in d.value.flags ==> d.value.precision == 0
  {
  }

  /** An integer conversion without '#' prints what the standard prescribes for its
      flags, width and precision if and only if the two agree on them. */
  lemma IntegerIffStandard(fmt: string, i: nat, f: Flags, va: Args, a: nat, c: char, d: Dir, v: nat, negative: bool)
    requires i <= |fmt| && DirectiveAt(fmt, i, f, va, a) == Some(d) && Integer(c) && va(d.arg).Word?
    requires Magnitude(c, IntegerFlags(c, d.flags), va(d.arg)) == Some((v, negative)) && Hash !in IntegerFlags(c, d.flags)
    ensures var g, base := IntegerFlags(c, d.flags), BaseOf(c);
            && IntegerPiece(va, c, d).Some?
            && (IntegerPiece(va, c, d).value.text == Standard.Field(v, g, base, d.width, d.precision, negative) <==>
                Standard.Agrees(v, g, base, d.width, d.precision, negative))
  {
    NoPrecisionIsZero(fmt, i, f, va, a);
    Standard.FieldIffStandard(v, IntegerFlags(c, d.flags), BaseOf(c), d.width, d.precision, negative);
  }

  // ------------------------------------------------------- flags that are left over

  /** A directive with flags f already set. */
  function With(f: Flags, d: Dir): Dir {
    d.(flags := f + d.flags)
  }

  lemma UnionAdds(f: Flags, g: Flags, h: Flags)
    ensures f + (g + h) == (f + g) + h
  {
  }

  lemma FlagOfUnion(c: char, f: Flags, g: Flags)
    ensures FlagOf(c, f + g) == match FlagOf(c, g) case None => None case Some(h) => Some(f + h)
  {
    if c == '0' { UnionAdds(f, g, {ZeroPad}); }
    if c == '-' { UnionAdds(f, g, {Left}); }
    if c == '+' { UnionAdds(f, g, {Plus}); }
    if c == ' ' { UnionAdds(f, g, {Blank}); }
    if c == '#' { UnionAdds(f, g, {Hash}); }
  }

  lemma {:induction false} FlagsAccumulate(fmt: string, i: nat, f: Flags, g: Flags)
    requires i <= |fmt|
    ensures FlagsAt(fmt, i, f + g).0 == f + FlagsAt(fmt, i, g).0
    ensures FlagsAt(fmt, i, f + g).1 == FlagsAt(fmt, i, g).1
    decreases |fmt| - i
  {
    var c := Peek(fmt, i);
    FlagOfUnion(c, f, g);
    if FlagOf(c, g).Some? { FlagsAccumulate(fmt, i + 1, f, FlagOf(c, g).value); }
  }

  lemma WidthAccumulates(fmt: string, va: Args, d: Dir, f: Flags)
    requires d.pos <= |fmt|
    ensures WidthAt(fmt, va, With(f, d)) == match WidthAt(fmt, va, d) case None => None case Some(e) => Some(With(f, e))
  {
    UnionAdds(f, d.flags, {Left});
  }

  lemma PrecisionAccumulates(fmt: string, va: Args, d: Dir, f: Flags)
    requires d.pos <= |fmt|
    ensures PrecisionAt(fmt, va, With(f, d)) == match PrecisionAt(fmt, va, d) case None => None case Some(e) => Some(With(f, e))
  {
    UnionAdds(f, d.flags, {Prec});
  }

  lemma LengthAccumulates(fmt: string, d: Dir, f: Flags)
    requires d.pos <= |fmt|
    ensures LengthAt(fmt, With(f, d)) == With(f, LengthAt(fmt, d))
  {
    UnionAdds(f, d.flags, {LongLen});
    UnionAdds(f, d.flags, {LongLen, LongLongLen});
    UnionAdds(f, d.flags, {ShortLen});
    UnionAdds(f, d.flags, {ShortLen, CharLen});
  }

  /** A directive is read with its own flags and all that are left over, and is
      otherwise read the same. */
  lemma DirectiveAccumulates(fmt: string, i: nat, f: Flags, va: Args, a: nat)
    requires i <= |fmt|
    ensures DirectiveAt(fmt, i, f, va, a) ==
            match DirectiveAt(fmt, i, {}, va, a) case None => None case Some(d) => Some(With(f, d))
  {
    assert f + {} == f;
    FlagsAccumulate(fmt, i, f, {});
    var (g, j) := FlagsAt(fmt, i, {});
    var d0 := Dir(g, 0, 0, j, a);
    WidthAccumulates(fmt, va, d0, f);
    if WidthAt(fmt, va, d0).Some? {
      var d1 := WidthAt(fmt, va, d0).value;
      PrecisionAccumulates(fmt, va, d1, f);
      if PrecisionAt(fmt, va, d1).Some? { LengthAccumulates(fmt, PrecisionAt(fmt, va, d1).value, f); }
    }
  }

  /** The same format with the flags cleared for each directive. */
  function RenderFresh(fmt: string, i: nat, va: Args, a: nat): (r: Option<string>)
    requires i <= |fmt|
    decreases |fmt| - i
  {
    if i == |fmt| then Some("")
    else
      match PieceAt(fmt, i, {}, va, a)
      case None => None
      case Some((p, j)) => Joined(p.text, RenderFresh(fmt, j, va, p.arg))
  }

  /** Every directive from i on sets each flag that is left over when it is reached. */
  predicate NothingLeftOver(fmt: string, i: nat, f: Flags, va: Args, a: nat)
    requires i <= |fmt|
    decreases |fmt| - i
  {
    if i == |fmt| then true
    else if fmt[i] != '%' then NothingLeftOver(fmt, i + 1, f, va, a)
    else
      && (DirectiveAt(fmt, i + 1, {}, va, a).Some? ==> f <= DirectiveAt(fmt, i + 1, {}, va, a).value.flags)
      && match PieceAt(fmt, i, {}, va, a) case None => true case Some((p, j)) => NothingLeftOver(fmt, j, p.flags, va, p.arg)
  }

  /** Every directive from i on is read as it would be on its own. */
  predicate ReadAsWritten(fmt: string, i: nat, f: Flags, va: Args, a: nat)
    requires i <= |fmt|
    decreases |fmt| - i
  {
    if i == |fmt| then true
    else if fmt[i] != '%' then ReadAsWritten(fmt, i + 1, f, va, a)
    else
      && DirectiveAt(fmt, i + 1, f, va, a) == DirectiveAt(fmt, i + 1, {}, va, a)
      && match PieceAt(fmt, i, {}, va, a) case None => true case Some((p, j)) => ReadAsWritten(fmt, j, p.flags, va, p.arg)
  }

  lemma AloneIff(fmt: string, i: nat, f: Flags, va: Args, a: nat)
    requires i <= |fmt|
    ensures var d := DirectiveAt(fmt, i, {}, va, a);
            DirectiveAt(fmt, i, f, va, a) == d <==> (d.Some? ==> f <= d.value.flags)
  {
    DirectiveAccumulates(fmt, i, f, va, a);
    var d := DirectiveAt(fmt, i, {}, va, a);
    if d.Some? { assert f + d.value.flags == d.value.flags <==> f <= d.value.flags; }
  }

  /** That is so if and only if nothing is left over anywhere. */
  lemma {:induction false} ReadAsWrittenIff(fmt: string, i: nat, f: Flags, va: Args, a: nat)
    requires i <= |fmt|
    ensures ReadAsWritten(fmt, i, f, va, a) <==> NothingLeftOver(fmt, i, f, va, a)
    decreases |fmt| - i
  {
    if i < |fmt| && fmt[i] != '%' {
      ReadAsWrittenIff(fmt, i + 1, f, va, a);
    } else if i < |fmt| {
      AloneIff(fmt, i + 1, f, va, a);
      if PieceAt(fmt, i, {}, va, a).Some? {
        var (p, j) := PieceAt(fmt, i, {}, va, a).value;
        ReadAsWrittenIff(fmt, j, p.flags, va, p.arg);
      }
    }
  }

  /** Then vprintf prints what it would print with the flags cleared. */
  lemma {:induction false} FreshWhenNothingLeftOver(fmt: string, i: nat, f: Flags, va: Args, a: nat)
    requires i <= |fmt| && NothingLeftOver(fmt, i, f, va, a)
    ensures Render(fmt, i, f, va, a) == RenderFresh(fmt, i, va, a)
    decreases |fmt| - i
  {
    if i < |fmt| && fmt[i] != '%' {
      FreshWhenNothingLeftOver(fmt, i + 1, f, va, a);
    } else if i < |fmt| {
      SamePiece(fmt, i, f, va, a);
      if PieceAt(fmt, i, {}, va, a).Some? {
        var (p, j) := PieceAt(fmt, i, {}, va, a).value;
        FreshWhenNothingLeftOver(fmt, j, p.flags, va, p.arg);
      }
    }
  }

  lemma SamePiece(fmt: string, i: nat, f: Flags, va: Args, a: nat)
    requires i < |fmt| && fmt[i] == '%'
    requires DirectiveAt(fmt, i + 1, {}, va, a).Some? ==> f <= DirectiveAt(fmt, i + 1, {}, va, a).value.flags
    ensures PieceAt(fmt, i, f, va, a) == PieceAt(fmt, i, {}, va, a)
  {
    DirectiveAccumulates(fmt, i + 1, f, va, a);
    if DirectiveAt(fmt, i + 1, {}, va, a).Some? {
      var d := DirectiveAt(fmt, i + 1, {}, va, a).value;
      assert f + d.flags == d.flags;
    }
  }

  lemma BareDirective(fmt: string, i: nat, f: Flags, va: Args, a: nat)
    requires i < |fmt| && fmt[i] == 's'
    ensures DirectiveAt(fmt, i, f, va, a) == Some(Dir(f, 0, 0, i, a))
  {
    assert FlagsAt(fmt, i, f) == (f, i);
  }

  lemma BareText(va: Args, d: Dir)
    requires va(d.arg).Text? && d.width == 0 && d.precision == 0
    ensures TextPiece(va, d) == Some(Piece(if Prec in d.flags then "" else va(d.arg).chars, d.flags, d.arg + 1))
  {
    var s := va(d.arg).chars;
    assert Repeat(' ', d.width - PadFrom(s, d)) == "";
    var text := s[..TextLength(s, d)];
    assert text == if Prec in d.flags then "" else s;
    assert text + "" == text && "" + text == text;
  }

  lemma BarePiece(fmt: string, i: nat, f: Flags, va: Args, a: nat)
    requires i + 1 < |fmt| && fmt[i] == '%' && fmt[i + 1] == 's' && va(a).Text?
    ensures PieceAt(fmt, i, f, va, a) == Some((Piece(if Prec in f then "" else va(a).chars, f, a + 1), i + 2))
  {
    BareDirective(fmt, i + 1, f, va, a);
    BareText(va, Dir(f, 0, 0, i + 1, a));
  }

  lemma {:induction false} RenderUnfolds(fmt: string, i: nat, f: Flags, va: Args, a: nat, p: Piece, j: nat)
    requires i < |fmt| && PieceAt(fmt, i, f, va, a) == Some((p, j))
    ensures Render(fmt, i, f, va, a) == Joined(p.text, Render(fmt, j, p.flags, va, p.arg))
    ensures f == {} ==> RenderFresh(fmt, i, va, a) == Joined(p.text, RenderFresh(fmt, j, va, p.arg))
  {
  }

  lemma JoinedEmpty(r: Option<string>)
    ensures Joined("", r) == r
  {
    if r.Some? { assert "" + r.value == r.value; }
  }

  /** A precision that is left over, and is zero by then, swallows a string. */
  lemma PrecisionSwallowsText(fmt: string, i: nat, f: Flags, va: Args, a: nat)
    requires i + 1 < |fmt| && fmt[i] == '%' && fmt[i + 1] == 's' && Prec in f && va(a).Text?
    ensures Render(fmt, i, f, va, a) == Render(fmt, i + 2, f, va, a + 1)
    ensures RenderFresh(fmt, i, va, a) == Joined(va(a).chars, RenderFresh(fmt, i + 2, va, a + 1))
  {
    BarePiece(fmt, i, f, va, a);
    RenderUnfolds(fmt, i, f, va, a, Piece("", f, a + 1), i + 2);
    JoinedEmpty(Render(fmt, i + 2, f, va, a + 1));
    BarePiece(fmt, i, {}, va, a);
    RenderUnfolds(fmt, i, {}, va, a, Piece(va(a).chars, {}, a + 1), i + 2);
  }

  lemma FiveAsWritten()
    ensures NumberField(5, {Prec}, 10, 0, 1, false) == "5"
  {
    DigitsStep(5, 10, false, 0);
    assert DigitsLeft(0, 10, false, 1) == "";
    assert OwnDigits(5, {Prec}, 10) == "5";
    PlainShape(5, {Prec}, 10, 0, 1, false, 0, 0);
    ReverseShort("5");
    assert "" + (Repeat('0', 0) + "5") == "5" && Repeat(' ', 0 - 1) + "5" + "" == "5";
  }

  lemma ReadsFive(f: Flags)
    requires f == {Prec}
    ensures IntegerFlags('d', f) == f && Magnitude('d', f, WordOf(5)) == Some((5, false))
  {
    assert WordOf(5) == Word(5, 5, 5, 5);
    assert f - {Hash} == f && f - {ZeroPad} == f;
    assert Reading(f, Word(5, 5, 5, 5)) == (5, 0x8000_0000);
  }

  lemma PlainNumber(va: Args, d: Dir, v: nat, f: Flags, negative: bool)
    requires va(d.arg).Word? && IntegerFlags('d', d.flags) == f && Magnitude('d', f, va(d.arg)) == Some((v, negative))
    ensures Convert(va, 'd', d) == Some(Piece(NumberField(v, f, 10, d.width, d.precision, negative), f, d.arg + 1))
  {
  }

  lemma FirstPrecision(fmt: string, va: Args)
    requires fmt == "%.1d%s"
    ensures DirectiveAt(fmt, 1, {}, va, 0) == Some(Dir({Prec}, 0, 1, 3, 0))
  {
    var none: Flags := {};
    assert FlagsAt(fmt, 1, none) == (none, 1);
    assert NumberAt(fmt, 3, 1) == (1, 3);
    assert NumberAt(fmt, 2, 0) == (1, 3);
    assert none + {Prec} == {Prec};
  }

  /** The number of "%.1d%s". */
  lemma FirstDirective(fmt: string, va: Args)
    requires fmt == "%.1d%s" && va(0) == WordOf(5)
    ensures PieceAt(fmt, 0, {}, va, 0) == Some((Piece("5", {Prec}, 1), 4))
  {
    FirstPrecision(fmt, va);
    ReadsFive({Prec});
    FiveAsWritten();
    PlainNumber(va, Dir({Prec}, 0, 1, 3, 0), 5, {Prec}, false);
  }

  /** Called with "%.1d%s", 5 and any text, vprintf prints 5 alone. */
  lemma {:induction false} TextVanishes(fmt: string, va: Args)
    requires fmt == "%.1d%s" && va(0) == WordOf(5) && va(1).Text?
    ensures Render(fmt, 0, {}, va, 0) == Some("5")
    ensures RenderFresh(fmt, 0, va, 0) == Some("5" + va(1).chars)
    ensures va(1).chars != "" ==> Render(fmt, 0, {}, va, 0) != RenderFresh(fmt, 0, va, 0)
  {
    FirstDirective(fmt, va);
    RenderUnfolds(fmt, 0, {}, va, 0, Piece("5", {Prec}, 1), 4);
    PrecisionSwallowsText(fmt, 4, {Prec}, va, 1);
    assert Render(fmt, 6, {Prec}, va, 2) == Some("") && RenderFresh(fmt, 6, va, 2) == Some("");
    assert "5" + "" == "5" && va(1).chars + "" == va(1).chars;
  }
}
