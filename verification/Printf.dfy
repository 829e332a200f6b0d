/**
 The printf engine as it runs (lethe-libc/stdio.c): loops over a 48-character buffer
 and over the format, with putchar appending to the output.
 */
module Printf {
  import opened Wrappers
  import opened PrintfModel
  import opened PrintfFormat

  const WORD32: nat := 0x1_0000_0000

  class Terminal {
    var out: string

    constructor ()
      ensures out == ""
    {
      out := "";
    }

    method Putchar(c: char)
      modifies this
      ensures out == old(out) + [c]
    {
      out := out + [c];
    }

    /** Spaces, counted in idx. */
    method Spaces(n: int, idx: nat) returns (idx': nat)
      modifies this
      ensures out == old(out) + Repeat(' ', n) && idx' == idx + |Repeat(' ', n)|
    {
      idx' := idx;
      var i := 0;
      while i < n
        invariant 0 <= i <= Max(n, 0) && idx' == idx + i && out == old(out) + Repeat(' ', i)
      {
        Putchar(' ');
        idx' := idx' + 1;
        i := i + 1;
        assert Repeat(' ', i - 1) + [' '] == Repeat(' ', i);
      }
    }

    /** The characters of the buffer, last one first. */
    method PrintBackwards(buf: array<char>, len: nat, idx: nat) returns (idx': nat)
      requires len <= buf.Length
      modifies this
      ensures out == old(out) + Reverse(buf[..len]) && idx' == idx + len
    {
      idx' := idx;
      var n := len;
      assert buf[n..len] == "";
      while n > 0
        invariant 0 <= n <= len && idx' == idx + (len - n) && out == old(out) + Reverse(buf[n..len])
      {
        n := n - 1;
        Putchar(buf[n]);
        idx' := idx' + 1;
        assert buf[n..len][1..] == buf[n + 1..len];
      }
      assert buf[0..len] == buf[..len];
    }

    /** print_reverse: the buffer from its end, padded to the width. */
    method PrintReverse(buf: array<char>, len: nat, f: Flags, width: nat, idx: nat) returns (idx': nat)
      requires len <= buf.Length
      modifies this
      ensures out == old(out) + Reversed(buf[..len], f, width) && idx' == idx + |Reversed(buf[..len], f, width)|
    {
      idx' := idx;
      if Left !in f && ZeroPad !in f { idx' := Spaces(width - len, idx); }
      idx' := PrintBackwards(buf, len, idx');
      if Left in f { idx' := Spaces(width - (idx' - idx), idx'); }
    }

    /** Zeros on top of the buffer. */
    method AddZeros(buf: array<char>, len: nat, n: nat) returns (len': nat)
      requires len <= buf.Length == NTOA_MAX
      modifies buf
      ensures len' <= NTOA_MAX && buf[..len'] == ZerosTo(old(buf[..len]), n)
    {
      len' := len;
      while len' < n && len' < NTOA_MAX
        invariant len <= len' <= NTOA_MAX && (len' > len ==> len' <= n)
        invariant buf[..len'] == old(buf[..len]) + Repeat('0', len' - len)
      {
        buf[len'] := '0';
        len' := len' + 1;
        assert buf[..len'] == buf[..len' - 1] + ['0'];
        assert Repeat('0', len' - 1 - len) + ['0'] == Repeat('0', len' - len);
      }
    }

    /** One more character, if there is room. */
    method AddChar(buf: array<char>, len: nat, c: char) returns (len': nat)
      requires len <= buf.Length == NTOA_MAX
      modifies buf
      ensures len' <= NTOA_MAX && buf[..len'] == Push(old(buf[..len]), c)
    {
      len' := len;
      if len < NTOA_MAX {
        buf[len] := c;
        len' := len + 1;
      }
    }

    /** The '#' part of __ntoa. */
    method AddHash(buf: array<char>, len: nat, f: Flags, width: nat, precision: nat, base: nat) returns (len': nat)
      requires len <= buf.Length == NTOA_MAX
      modifies buf
      ensures len' <= NTOA_MAX && buf[..len'] == Hashed(old(buf[..len]), f, width, precision, base)
    {
      len' := len;
      if Hash in f {
        ghost var all := buf[..len];
        if Prec !in f && len > 0 && (len == precision || len == width) {
          len' := len - 1;
          if len' > 0 && base == 16 { len' := len' - 1; }
        }
        assert buf[..len'] == all[..len'] && all == all[..len];
        if base == 16 {
          len' := AddChar(buf, len', 'x');
        } else if base == 2 {
          len' := AddChar(buf, len', 'b');
        }
        len' := AddChar(buf, len', '0');
      }
    }

    /** __ntoa. */
    method Ntoa(buf: array<char>, len: nat, f: Flags, width: nat, precision: nat, base: nat, negative: bool, idx: nat)
      returns (idx': nat)
      requires len <= buf.Length == NTOA_MAX
      modifies buf, this
      ensures var w := NarrowWidth(f, width, negative);
              var field := Reversed(Buffer(old(buf[..len]), f, width, precision, base, negative), f, w);
              out == old(out) + field && idx' == idx + |field|
    {
      ghost var ds := buf[..len];
      var w, n := NarrowWidth(f, width, negative), len;
      if Left !in f {
        n := AddZeros(buf, n, precision);
        if ZeroPad in f { n := AddZeros(buf, n, w); }
      }
      assert buf[..n] == Padded(ds, f, w, precision);
      n := AddHash(buf, n, f, w, precision, base);
      if negative {
        n := AddChar(buf, n, '-');
      } else if Plus in f {
        n := AddChar(buf, n, '+');
      } else if Blank in f {
        n := AddChar(buf, n, ' ');
      }
      assert buf[..n] == Buffer(ds, f, width, precision, base, negative);
      idx' := PrintReverse(buf, n, f, w, idx);
    }

    /** ntoa_long and ntoa_long_long, which differ in nothing but the type of v. */
    method NtoaLong(v: nat, f: Flags, base: nat, width: nat, precision: nat, idx: nat, negative: bool) returns (idx': nat)
      requires 2 <= base <= 16
      modifies this
      ensures var field := NumberField(v, f, base, width, precision, negative);
              out == old(out) + field && idx' == idx + |field|
    {
      var buf := new char[NTOA_MAX](_ => '\0');
      var g, len := OwnFlags(v, f), 0;
      if Prec !in g || v != 0 { len := Digits(buf, v, base, Upper in g); }
      assert buf[..len] == OwnDigits(v, g, base);
      idx' := Ntoa(buf, len, g, width, precision, base, negative, idx);
    }

    /** The do-while loop that makes the digits. */
    method Digits(buf: array<char>, v: nat, base: nat, upper: bool) returns (len: nat)
      requires 2 <= base <= 16 && buf.Length == NTOA_MAX
      modifies buf
      ensures len <= NTOA_MAX && buf[..len] == DigitsOf(v, base, upper, NTOA_MAX)
    {
      DigitsStep(v, base, upper, 0);
      buf[0] := DigitChar(v % base, upper);
      assert buf[..1] == [buf[0]];
      len := MoreDigits(buf, v / base, base, upper, 1);
    }

    method MoreDigits(buf: array<char>, v: nat, base: nat, upper: bool, n: nat) returns (len: nat)
      requires 2 <= base <= 16 && n <= buf.Length == NTOA_MAX
      modifies buf
      ensures len <= NTOA_MAX && buf[..len] == old(buf[..n]) + DigitsLeft(v, base, upper, n)
    {
      ghost var goal := buf[..n] + DigitsLeft(v, base, upper, n);
      var value: nat := v;
      len := n;
      while value != 0 && len < NTOA_MAX
        invariant len <= NTOA_MAX && buf[..len] + DigitsLeft(value, base, upper, len) == goal
        decreases NTOA_MAX - len
      {
        DigitsMore(buf[..len], value, base, upper, len, goal);
        buf[len] := DigitChar(value % base, upper);
        assert buf[..len + 1] == buf[..len] + [buf[len]];
        len, value := len + 1, value / base;
      }
      assert buf[..len] + "" == buf[..len];
    }

    // ------------------------------------------------------------- the directives

    method ReadFlags(fmt: string, i: nat, f: Flags) returns (g: Flags, j: nat)
      requires i <= |fmt|
      ensures (g, j) == FlagsAt(fmt, i, f)
    {
      g, j := f, i;
      while true
        invariant i <= j <= |fmt| && FlagsAt(fmt, i, f) == FlagsAt(fmt, j, g)
        decreases |fmt| - j
      {
        var next := FlagOf(Peek(fmt, j), g);
        if next.None? { return; }
        g, j := next.value, j + 1;
      }
    }

    /** atoi. */
    method Atoi(fmt: string, i: nat) returns (n: nat, j: nat)
      requires i <= |fmt|
      ensures (n, j) == NumberAt(fmt, i, 0)
    {
      n, j := 0, i;
      while IsDigit(Peek(fmt, j))
        invariant i <= j <= |fmt| && NumberAt(fmt, i, 0) == NumberAt(fmt, j, n)
        decreases |fmt| - j
      {
        n, j := Wrap32(n * 10 + (fmt[j] as int - '0' as int)), j + 1;
      }
    }

    method ReadWidth(fmt: string, va: Args, d: Dir) returns (r: Option<Dir>)
      requires d.pos <= |fmt|
      ensures r == WidthAt(fmt, va, d)
    {
      if IsDigit(Peek(fmt, d.pos)) {
        var n, i := Atoi(fmt, d.pos);
        r := Some(d.(width := n, pos := i));
      } else if Peek(fmt, d.pos) == '*' {
        if !va(d.arg).Word? { return None; }
        var n := SignedPart(va(d.arg).word, 0x8000_0000);
        if n < 0 {
          r := Some(Dir(d.flags + {Left}, -n, d.precision, d.pos + 1, d.arg + 1));
        } else {
          r := Some(Dir(d.flags, n, d.precision, d.pos + 1, d.arg + 1));
        }
      } else {
        r := Some(d);
      }
    }

    method ReadPrecision(fmt: string, va: Args, d: Dir) returns (r: Option<Dir>)
      requires d.pos <= |fmt|
      ensures r == PrecisionAt(fmt, va, d)
    {
      if Peek(fmt, d.pos) != '.' { return Some(d); }
      var f, i := d.flags + {Prec}, d.pos + 1;
      if IsDigit(Peek(fmt, i)) {
        var n, j := Atoi(fmt, i);
        r := Some(d.(flags := f, precision := n, pos := j));
      } else if Peek(fmt, i) == '*' {
        if !va(d.arg).Word? { return None; }
        var n := SignedPart(va(d.arg).word, 0x8000_0000);
        r := Some(Dir(f, d.width, if n > 0 then n else 0, i + 1, d.arg + 1));
      } else {
        r := Some(d.(flags := f, pos := i));
      }
    }

    /** Flags, width, precision and length of a directive. */
    method ReadDirective(fmt: string, i: nat, f: Flags, va: Args, a: nat) returns (r: Option<Dir>)
      requires i <= |fmt|
      ensures r == DirectiveAt(fmt, i, f, va, a)
    {
      var g, j := ReadFlags(fmt, i, f);
      var d := ReadWidth(fmt, va, Dir(g, 0, 0, j, a));
      if d.None? { return None; }
      var e := ReadPrecision(fmt, va, d.value);
      if e.None? { return None; }
      r := Some(LengthAt(fmt, e.value));
    }

    // ----------------------------------------------------------- the conversions

    /** A string argument: as much of it as the precision lets through, one
        character at a time. */
    method PrintText(s: string, n: nat, idx: nat) returns (idx': nat)
      requires n <= |s|
      modifies this
      ensures out == old(out) + s[..n] && idx' == idx + n
    {
      idx' := idx;
      var i := 0;
      while i < n
        invariant 0 <= i <= n && idx' == idx + i && out == old(out) + s[..i]
      {
        Putchar(s[i]);
        idx' := idx' + 1;
        i := i + 1;
        assert s[..i] == s[..i - 1] + [s[i - 1]];
      }
    }

    /** The same with spaces before or behind. */
    method PrintPadded(s: string, n: nat, pad: int, left: bool, idx: nat) returns (idx': nat)
      requires n <= |s|
      modifies this
      ensures var text := if left then s[..n] + Repeat(' ', pad) else Repeat(' ', pad) + s[..n];
              out == old(out) + text && idx' == idx + |text|
    {
      idx' := idx;
      if !left { idx' := Spaces(pad, idx'); }
      idx' := PrintText(s, n, idx');
      if left { idx' := Spaces(pad, idx'); }
    }

    method EmitText(va: Args, d: Dir, idx: nat) returns (r: Option<(Flags, nat)>, idx': nat)
      modifies this
      ensures Emitted(old(out), out, idx, idx', TextPiece(va, d), r)
    {
      if !va(d.arg).Text? { return None, idx; }
      var s := va(d.arg).chars;
      idx' := PrintPadded(s, TextLength(s, d), d.width - PadFrom(s, d), Left in d.flags, idx);
      r := Some((d.flags, d.arg + 1));
    }

    method EmitChar(va: Args, d: Dir, idx: nat) returns (r: Option<(Flags, nat)>, idx': nat)
      modifies this
      ensures Emitted(old(out), out, idx, idx', CharPiece(va, d), r)
    {
      idx' := idx;
      if !va(d.arg).Word? { return None, idx; }
      if Left !in d.flags { idx' := Spaces(d.width - 1, idx'); }
      Putchar(CharOf(va(d.arg).byte));
      idx' := idx' + 1;
      if Left in d.flags { idx' := Spaces(d.width - 1, idx'); }
      r := Some((d.flags, d.arg + 1));
    }

    method EmitInteger(va: Args, c: char, d: Dir, idx: nat) returns (r: Option<(Flags, nat)>, idx': nat)
      modifies this
      ensures Emitted(old(out), out, idx, idx', IntegerPiece(va, c, d), r)
    {
      idx' := idx;
      if !va(d.arg).Word? { return None, idx; }
      var f := IntegerFlags(c, d.flags);
      var value := Magnitude(c, f, va(d.arg));
      if value.None? { return None, idx; }
      idx' := NtoaLong(value.value.0, f, BaseOf(c), d.width, d.precision, idx, value.value.1);
      r := Some((f, d.arg + 1));
    }

    method EmitPointer(va: Args, d: Dir, idx: nat) returns (r: Option<(Flags, nat)>, idx': nat)
      modifies this
      ensures Emitted(old(out), out, idx, idx', PointerPiece(va, d), r)
    {
      idx' := idx;
      if !va(d.arg).Word? { return None, idx; }
      var f := d.flags + {ZeroPad, Upper};
      idx' := NtoaLong(va(d.arg).long, f, 16, 16, d.precision, idx, false);
      r := Some((f, d.arg + 1));
    }

    method Emit(va: Args, c: char, d: Dir, idx: nat) returns (r: Option<(Flags, nat)>, idx': nat)
      modifies this
      ensures Emitted(old(out), out, idx, idx', Convert(va, c, d), r)
    {
      if Integer(c) {
        r, idx' := EmitInteger(va, c, d, idx);
      } else if c == 'c' {
        r, idx' := EmitChar(va, d, idx);
      } else if c == 's' {
        r, idx' := EmitText(va, d, idx);
      } else if c == 'p' {
        r, idx' := EmitPointer(va, d, idx);
      } else {
        Putchar(c);
        r, idx' := Some((d.flags, d.arg)), idx + 1;
      }
    }

    /** What a piece prints, leaves and leads to. */
    method PrintConverted(fmt: string, va: Args, d: Dir, idx: nat)
      returns (ok: bool, f': Flags, a': nat, idx': nat, ghost text: string)
      requires d.pos <= |fmt|
      modifies this
      ensures Converted(fmt, va, d) == if ok then Some((Piece(text, f', a'), d.pos + 1)) else None
      ensures ok ==> out == old(out) + text && idx' == idx + |text|
    {
      ok, f', a', idx', text := false, d.flags, d.arg, idx, "";
      if d.pos < |fmt| {
        ghost var piece := Convert(va, fmt[d.pos], d);
        var r;
        r, idx' := Emit(va, fmt[d.pos], d, idx);
        ok := r.Some?;
        if ok { f', a', text := r.value.0, r.value.1, piece.value.text; }
      }
    }

    /** A plain character or a directive, and where the next begins. */
    method PrintPiece(fmt: string, i: nat, f: Flags, va: Args, a: nat, idx: nat)
      returns (ok: bool, f': Flags, a': nat, j: nat, idx': nat, ghost text: string)
      requires i < |fmt|
      modifies this
      ensures PieceAt(fmt, i, f, va, a) == if ok then Some((Piece(text, f', a'), j)) else None
      ensures ok ==> out == old(out) + text && idx' == idx + |text|
    {
      if fmt[i] != '%' {
        Putchar(fmt[i]);
        ok, f', a', j, idx', text := true, f, a, i + 1, idx + 1, [fmt[i]];
      } else {
        var d := ReadDirective(fmt, i + 1, f, va, a);
        if d.None? { return false, f, a, i, idx, ""; }
        ok, f', a', idx', text := PrintConverted(fmt, va, d.value, idx);
        j := d.value.pos + 1;
      }
    }

    /** vprintf: what it prints, and the count it returns, in 32 bits.  None when it
        reads past the format, or takes an argument that is not there.  fmt has the
        characters before the terminating zero. */
    method Vprintf(fmt: string, va: Args) returns (r: Option<nat>)
      modifies this
      ensures r.Some? == Render(fmt, 0, {}, va, 0).Some?
      ensures r.Some? ==> out == old(out) + Render(fmt, 0, {}, va, 0).value
      ensures r.Some? ==> |out| >= |old(out)| && r.value == Count32(|out| - |old(out)|)
    {
      r := PrintFrom(fmt, 0, {}, va, 0, Render(fmt, 0, {}, va, 0));
    }

    /** The loop of vprintf. */
    method PrintFrom(fmt: string, start: nat, f: Flags, va: Args, first: nat, ghost goal: Option<string>) returns (r: Option<nat>)
      requires start <= |fmt| && goal == Render(fmt, start, f, va, first)
      modifies this
      ensures r.Some? == goal.Some?
      ensures r.Some? ==> out == old(out) + goal.value && r.value == Count32(|goal.value|)
    {
      var flags, a, i, idx := f, first, start, 0;
      ghost var done := "";
      JoinedEmpty(goal);
      while i < |fmt|
        invariant 0 <= i <= |fmt| && 0 <= a && out == old(out) + done && idx == Count32(|done|)
        invariant goal == Joined(done, Render(fmt, i, flags, va, a))
      {
        var ok;
        ok, flags, a, i, idx, done := Step(fmt, i, flags, va, a, idx, old(out), done, goal);
        if !ok { return None; }
      }
      JoinedEnd(fmt, flags, va, a, done);
      r := Some(idx);
    }

    /** One turn of the loop. */
    method Step(fmt: string, i: nat, f: Flags, va: Args, a: nat, idx: nat,
                ghost base: string, ghost done: string, ghost goal: Option<string>)
      returns (ok: bool, f': Flags, a': nat, i': nat, idx': nat, ghost done': string)
      requires i < |fmt| && out == base + done && idx == Count32(|done|) && goal == Joined(done, Render(fmt, i, f, va, a))
      modifies this
      ensures !ok ==> goal.None?
      ensures ok ==> i < i' <= |fmt| && idx' == Count32(|done'|) && goal == Joined(done', Render(fmt, i', f', va, a'))
      ensures ok ==> out == base + done'
    {
      ghost var text;
      ok, f', a', i', idx', text := PrintPiece(fmt, i, f, va, a, idx);
      done' := done + text;
      RenderMore(fmt, i, f, va, a, done, goal, ok, text, f', a', i');
      if ok {
        Extends(base, done, text, idx, idx');
        idx' := Count32(idx');
      }
    }
  }

  lemma {:induction false} JoinedEnd(fmt: string, f: Flags, va: Args, a: nat, done: string)
    ensures Joined(done, Render(fmt, |fmt|, f, va, a)) == Some(done)
  {
    assert done + "" == done;
  }

  lemma {:induction false} RenderMore(fmt: string, i: nat, f: Flags, va: Args, a: nat, done: string, goal: Option<string>,
                   ok: bool, text: string, f': Flags, a': nat, j: nat)
    requires i < |fmt| && goal == Joined(done, Render(fmt, i, f, va, a))
    requires PieceAt(fmt, i, f, va, a) == if ok then Some((Piece(text, f', a'), j)) else None
    ensures !ok ==> goal.None?
    ensures ok ==> i < j <= |fmt| && goal == Joined(done + text, Render(fmt, j, f', va, a'))
  {
    if ok {
      RenderUnfolds(fmt, i, f, va, a, Piece(text, f', a'), j);
      JoinedTwice(done, text, Render(fmt, j, f', va, a'));
    }
  }

  /** A count as a uint32_t has it. */
  function Count32(n: nat): (r: nat)
    ensures n < WORD32 ==> r == n
  {
    n % WORD32
  }

  lemma Extends(base: string, done: string, text: string, idx: nat, idx': nat)
    requires idx == Count32(|done|) && idx' == idx + |text|
    ensures (base + done) + text == base + (done + text) && Count32(idx') == Count32(|done + text|)
  {
  }

  /** A conversion printed its piece, counted it, and left what the piece says. */
  predicate Emitted(out: string, out': string, idx: nat, idx': nat, piece: Option<Piece>, r: Option<(Flags, nat)>) {
    && r.Some? == piece.Some?
    && (r.Some? ==>
          && out' == out + piece.value.text && idx' == idx + |piece.value.text|
          && r.value == (piece.value.flags, piece.value.arg))
  }

  lemma JoinedTwice(s: string, t: string, r: Option<string>)
    ensures Joined(s, Joined(t, r)) == Joined(s + t, r)
  {
    if r.Some? { assert s + (t + r.value) == (s + t) + r.value; }
  }
}
