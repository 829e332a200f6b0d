/**
 The 64-bit FNV-1a hash (lethe-utils/hash_64a.c) over numbers below 2^64, with
 its three ways of multiplying by the FNV prime.
 */
module Fnv {
  import opened Bits

  type Byte = b: nat | b < 256

  const WORD: nat := 0x1_0000_0000_0000_0000
  const PRIME: nat := 0x100_0000_01B3
  const INIT: nat := 0xCBF2_9CE4_8422_2325
  /** PRIME * INVERSE is 1 + WORD * CARRY. */
  const INVERSE: nat := 0xCE96_5057_AFF6_957B
  const CARRY: nat := 887285111055

  // ---------------------------------------------------------------- arithmetic

  lemma ModShift(r: int, q: int)
    requires 0 <= r < WORD
    ensures (r + WORD * q) % WORD == r
  {
  }

  lemma WordPow()
    ensures Pow2(8) == 256 && Pow2(16) == 65536 && Pow2(64) == WORD
  {
    assert Pow2(4) == 16;
    assert Pow2(8) == 256;
    assert Pow2(12) == 4096;
    assert Pow2(16) == 65536;
    Pow2Sum(16, 16);
    Pow2Sum(32, 32);
  }

  // ---------------------------------------------------------------- the hash

  /** One round: exclusive-or the byte in, multiply by the prime. */
  function Round(h: nat, b: Byte): nat {
    Xor(h, b) * PRIME % WORD
  }

  function HashFrom(h: nat, bytes: seq<Byte>): nat
    decreases |bytes|
  {
    if bytes == [] then h else HashFrom(Round(h, bytes[0]), bytes[1..])
  }

  function Hash(bytes: seq<Byte>): nat {
    HashFrom(INIT, bytes)
  }

  lemma {:induction false} HashFromAppend(h: nat, xs: seq<Byte>, ys: seq<Byte>)
    ensures HashFrom(h, xs + ys) == HashFrom(HashFrom(h, xs), ys)
    decreases |xs|
  {
    if xs == [] {
      assert xs + ys == ys;
    } else {
      assert (xs + ys)[1..] == xs[1..] + ys;
      HashFromAppend(Round(h, xs[0]), xs[1..], ys);
    }
  }

  /** fnv_64a_buf. */
  method Fnv64aBuf(buf: seq<Byte>) returns (hval: nat)
    ensures hval == Hash(buf) < WORD
  {
    hval := INIT;
    var bp := 0;
    while bp < |buf|
      invariant 0 <= bp <= |buf| && hval == HashFrom(INIT, buf[..bp]) < WORD
    {
      HashFromAppend(INIT, buf[..bp], [buf[bp]]);
      assert buf[..bp + 1] == buf[..bp] + [buf[bp]];
      assert HashFrom(hval, [buf[bp]]) == Round(hval, buf[bp]);
      hval := Xor(hval, buf[bp]);
      bp := bp + 1;
      hval := hval * PRIME % WORD;
    }
    assert buf[..bp] == buf;
  }

  /** Multiplying by the prime is undone by multiplying by its inverse. */
  lemma PrimeInvertible(x: nat)
    requires x < WORD
    ensures (x * PRIME % WORD) * INVERSE % WORD == x
  {
    var q := x * PRIME / WORD;
    var r := x * PRIME % WORD;
    assert r == x * PRIME - WORD * q;
    assert PRIME * INVERSE == 1 + WORD * CARRY;
    assert r * INVERSE == x + WORD * (x * CARRY - q * INVERSE);
    ModShift(x, x * CARRY - q * INVERSE);
  }

  lemma {:induction false} RoundInjective(h: nat, g: nat, b: Byte, c: Byte)
    requires h < WORD && g < WORD && Round(h, b) == Round(g, c)
    ensures Xor(h, b) == Xor(g, c)
  {
    WordPow();
    XorBound(h, b, 64);
    XorBound(g, c, 64);
    PrimeInvertible(Xor(h, b));
    PrimeInvertible(Xor(g, c));
  }

  /** Different states stay different under the same bytes. */
  lemma {:induction false} HashKeepsApart(h: nat, g: nat, bytes: seq<Byte>)
    requires h < WORD && g < WORD && h != g
    ensures HashFrom(h, bytes) != HashFrom(g, bytes)
    decreases |bytes|
  {
    if bytes != [] {
      if Round(h, bytes[0]) == Round(g, bytes[0]) {
        RoundInjective(h, g, bytes[0], bytes[0]);
        XorTwice(h, bytes[0]);
        XorTwice(g, bytes[0]);
      }
      HashKeepsApart(Round(h, bytes[0]), Round(g, bytes[0]), bytes[1..]);
    }
  }

  /** Two buffers of one length that differ in exactly one byte never collide. */
  lemma OneByteNeverCollides(xs: seq<Byte>, i: nat, b: Byte)
    requires i < |xs| && xs[i] != b
    ensures Hash(xs) != Hash(xs[i := b])
  {
    var ys := xs[i := b];
    assert xs == xs[..i] + ([xs[i]] + xs[i + 1..]);
    assert ys == xs[..i] + ([b] + xs[i + 1..]);
    HashFromAppend(INIT, xs[..i], [xs[i]] + xs[i + 1..]);
    HashFromAppend(INIT, xs[..i], [b] + xs[i + 1..]);
    var h := HashFrom(INIT, xs[..i]);
    HashBound(INIT, xs[..i]);
    assert ([xs[i]] + xs[i + 1..])[1..] == xs[i + 1..] && ([b] + xs[i + 1..])[1..] == xs[i + 1..];
    if Round(h, xs[i]) == Round(h, b) {
      RoundInjective(h, h, xs[i], b);
      XorCommutes(h, xs[i]);
      XorCommutes(h, b);
      XorTwice(xs[i], h);
      XorTwice(b, h);
    }
    HashKeepsApart(Round(h, xs[i]), Round(h, b), xs[i + 1..]);
  }

  lemma {:induction false} HashBound(h: nat, bytes: seq<Byte>)
    requires h < WORD
    ensures HashFrom(h, bytes) < WORD
    decreases |bytes|
  {
    if bytes != [] { HashBound(Round(h, bytes[0]), bytes[1..]); }
  }

  // ------------------------------------------------------- the multiply forms

  /** The shift-add form of the multiplication, each shift and sum modulo 2^64. */
  function ShiftAdd(h: nat): nat {
    (h + (h * 2 % WORD + h * 16 % WORD + h * 32 % WORD + h * 128 % WORD + h * 256 % WORD + h * 0x100_0000_0000 % WORD)) % WORD
  }

  lemma ShiftAddIsMultiply(h: nat)
    ensures ShiftAdd(h) == h * PRIME % WORD
  {
    var sum := h + (h * 2 % WORD + h * 16 % WORD + h * 32 % WORD + h * 128 % WORD + h * 256 % WORD + h * 0x100_0000_0000 % WORD);
    var q := h * 2 / WORD + h * 16 / WORD + h * 32 / WORD + h * 128 / WORD + h * 256 / WORD + h * 0x100_0000_0000 / WORD;
    assert sum == h * PRIME - WORD * q;
    SameMod(sum, h * PRIME, q);
  }

  /** fnv_64a_str with the shift-add form, over the bytes before the terminator. */
  method Fnv64aStr(s: seq<Byte>) returns (hval: nat)
    ensures hval == Hash(s) < WORD
  {
    hval := INIT;
    var i := 0;
    while i < |s|
      invariant 0 <= i <= |s| && hval == HashFrom(INIT, s[..i]) < WORD
    {
      HashFromAppend(INIT, s[..i], [s[i]]);
      assert s[..i + 1] == s[..i] + [s[i]];
      assert HashFrom(hval, [s[i]]) == Round(hval, s[i]);
      hval := Xor(hval, s[i]);
      ShiftAddIsMultiply(hval);
      hval := ShiftAdd(hval);
      i := i + 1;
    }
    assert s[..i] == s;
  }

  lemma SameMod(a: nat, b: nat, q: int)
    requires b == a + WORD * q
    ensures a % WORD == b % WORD
  {
    ModShift(a % WORD, a / WORD + q);
  }

  /** The value of four base-2^16 limbs; the top one is not masked. */
  function Limbs(v0: nat, v1: nat, v2: nat, v3: nat): nat {
    v0 + v1 * 0x1_0000 + v2 * 0x1_0000_0000 + v3 * 0x1_0000_0000_0000
  }

  datatype Limb4 = Limb4(v0: nat, v1: nat, v2: nat, v3: nat)

  /** The multiply step of the limb form, in 64-bit words. */
  function LimbMultiply(v: Limb4): (r: Limb4)
    ensures r.v0 < 0x1_0000 && r.v1 < 0x1_0000 && r.v2 < 0x1_0000 && r.v3 < WORD
  {
    var t0 := v.v0 * 0x1B3;
    var t1 := v.v1 * 0x1B3 + t0 / 0x1_0000;
    var t2 := v.v2 * 0x1B3 + v.v0 * 0x100 + t1 / 0x1_0000;
    var t3 := v.v3 * 0x1B3 + v.v1 * 0x100;
    Limb4(t0 % 0x1_0000, t1 % 0x1_0000, t2 % 0x1_0000, (t3 + t2 / 0x1_0000) % WORD)
  }

  function Value(v: Limb4): nat {
    Limbs(v.v0, v.v1, v.v2, v.v3)
  }

  /** The limb step multiplies by the prime modulo 2^64, whatever is in the top. */
  lemma LimbMultiplyIsMultiply(v: Limb4)
    ensures Value(LimbMultiply(v)) % WORD == Value(v) * PRIME % WORD
  {
    var t0 := v.v0 * 0x1B3;
    var t1 := v.v1 * 0x1B3 + t0 / 0x1_0000;
    var t2 := v.v2 * 0x1B3 + v.v0 * 0x100 + t1 / 0x1_0000;
    var top := v.v3 * 0x1B3 + v.v1 * 0x100 + t2 / 0x1_0000;
    var r := LimbMultiply(v);
    assert r.v3 == top - WORD * (top / WORD);
    assert r.v0 == t0 - 0x1_0000 * (t0 / 0x1_0000) && r.v1 == t1 - 0x1_0000 * (t1 / 0x1_0000);
    assert r.v2 == t2 - 0x1_0000 * (t2 / 0x1_0000);
    var q := 0x1_0000_0000_0000 * (top / WORD) + v.v2 * 0x100 + v.v3 * 0x100_0000;
    assert Value(v) * PRIME == Value(r) + WORD * q;
    SameMod(Value(r), Value(v) * PRIME, q);
  }

  /** The round of the limb branch: it multiplies first, then exclusive-ors. */
  function LimbRound(h: nat, b: Byte): nat {
    Xor(h * PRIME % WORD, b)
  }

  function LimbHashFrom(h: nat, bytes: seq<Byte>): nat
    decreases |bytes|
  {
    if bytes == [] then h else LimbRound(LimbHashFrom(h, bytes[..|bytes| - 1]), bytes[|bytes| - 1])
  }

  /** Exclusive-oring a byte does not reach beyond the word. */
  lemma {:induction false} XorInWord(x: nat, c: Byte)
    ensures Xor(x, c) % WORD == Xor(x % WORD, c)
  {
    WordPow();
    var k, r := x / WORD, x % WORD;
    XorLow(k, r, c, 64);
    XorBound(r, c, 64);
    ModShift(Xor(r, c), k);
  }

  lemma {:induction false} XorInLimb(v: Limb4, c: Byte)
    requires v.v0 < 0x1_0000
    ensures Xor(v.v0, c) < 0x1_0000 && Value(v.(v0 := Xor(v.v0, c))) == Xor(Value(v), c)
  {
    WordPow();
    XorBound(v.v0, c, 16);
    XorLow(v.v1 + v.v2 * 0x1_0000 + v.v3 * 0x1_0000_0000, v.v0, c, 16);
  }

  /** Exclusive-oring a byte into the lowest limb is exclusive-oring it into the value. */
  lemma {:induction false} LimbXor(v: Limb4, c: Byte)
    requires v.v0 < 0x1_0000
    ensures Xor(v.v0, c) < 0x1_0000
    ensures Value(v.(v0 := Xor(v.v0, c))) % WORD == Xor(Value(v) % WORD, c)
  {
    XorInLimb(v, c);
    XorInWord(Value(v), c);
  }

  /** The limb branch of fnv_64a_str, over the bytes before the terminator. */
  method LimbHash(s: seq<Byte>) returns (hval: nat)
    ensures hval == LimbHashFrom(INIT, s)
  {
    var v := Limb4(INIT % 0x1_0000, INIT / 0x1_0000 % 0x1_0000, INIT / 0x1_0000_0000 % 0x1_0000, INIT / 0x1_0000_0000_0000);
    var i := 0;
    while i < |s|
      invariant 0 <= i <= |s|
      invariant v.v0 < 0x1_0000 && v.v1 < 0x1_0000 && v.v2 < 0x1_0000
      invariant Value(v) % WORD == LimbHashFrom(INIT, s[..i])
    {
      ghost var h := Value(v) % WORD;
      LimbMultiplyIsMultiply(v);
      ModTimes(Value(v));
      v := LimbMultiply(v);
      LimbXor(v, s[i]);
      v := v.(v0 := Xor(v.v0, s[i]));
      assert s[..i + 1][..i] == s[..i];
      i := i + 1;
    }
    assert s[..i] == s;
    hval := (v.v3 * 0x1_0000 + v.v2) % 0x1_0000_0000 * 0x1_0000_0000 + (v.v1 * 0x1_0000 + v.v0);
    Join(v, hval);
  }

  lemma ModTimes(a: nat)
    ensures a * PRIME % WORD == a % WORD * PRIME % WORD
  {
    var q := a / WORD;
    assert a * PRIME == a % WORD * PRIME + WORD * (q * PRIME);
    SameMod(a % WORD * PRIME, a * PRIME, q * PRIME);
  }

  lemma Join(v: Limb4, hval: nat)
    requires v.v0 < 0x1_0000 && v.v1 < 0x1_0000 && v.v2 < 0x1_0000
    requires hval == (v.v3 * 0x1_0000 + v.v2) % 0x1_0000_0000 * 0x1_0000_0000 + (v.v1 * 0x1_0000 + v.v0)
    ensures Value(v) % WORD == hval
  {
    var high := v.v3 * 0x1_0000 + v.v2;
    var q := high / 0x1_0000_0000;
    assert Value(v) == hval + WORD * q;
    ModShift(hval, q);
  }

  // ------------------------------------------------ how far the limb branch is off

  /** A byte changes a number by less than 256, and by nothing just when it is 0. */
  lemma {:induction false} XorSmall(x: nat, b: Byte)
    ensures -256 < Xor(x, b) - x < 256 && (Xor(x, b) == x <==> b == 0)
  {
    WordPow();
    XorLow(x / 256, x % 256, b, 8);
    XorBound(x % 256, b, 8);
    XorZero(x);
    if Xor(x, b) == x {
      XorCommutes(x, b);
      XorTwice(b, x);
      XorSelf(x);
    }
  }

  lemma {:induction false} XorSelf(x: nat)
    ensures Xor(x, x) == 0
  {
    if x != 0 { XorSelf(x / 2); }
  }

  /** A small difference times the prime is no small difference modulo 2^64. */
  lemma SmallTimesPrime(d: int, e: int, t: int)
    requires -256 < d < 256 && -256 < e < 256 && d * PRIME == e + WORD * t
    ensures d == 0 && e == 0
  {
  }

  /** On every state the round of the limb branch is that of FNV-1a for the byte 0 alone,
      which is no character of a string. */
  lemma {:induction false} LimbRoundIff(h: nat, b: Byte)
    requires h < WORD
    ensures LimbRound(h, b) == Round(h, b) <==> b == 0
  {
    var x, y := Xor(h, b), h * PRIME % WORD;
    XorSmall(h, b);
    XorSmall(y, b);
    var d, e := x - h, Xor(y, b) - y;
    var q := h * PRIME / WORD;
    assert x * PRIME == y + d * PRIME + WORD * q by { assert x * PRIME == h * PRIME + d * PRIME; }
    if LimbRound(h, b) == Round(h, b) {
      SmallTimesPrime(d, e, x * PRIME / WORD - q);
    }
  }

  /** So the hashes of a string of one character always differ. */
  lemma {:induction false} OneCharacterDiffers(c: Byte)
    requires c != 0
    ensures LimbHashFrom(INIT, [c]) != Hash([c])
  {
    assert [c][..0] == [] && [c][1..] == [];
    assert LimbHashFrom(INIT, [c]) == LimbRound(INIT, c) && HashFrom(Round(INIT, c), []) == Round(INIT, c);
    LimbRoundIff(INIT, c);
  }

  /** For every string the two are related all the same: one more multiplication makes
      of the limb hash the FNV-1a hash from a multiplied start. */
  lemma {:induction false} LimbHashShifted(h: nat, bytes: seq<Byte>)
    ensures LimbHashFrom(h, bytes) * PRIME % WORD == HashFrom(h * PRIME % WORD, bytes)
    decreases |bytes|
  {
    if bytes != [] {
      var n := |bytes| - 1;
      var start, b := bytes[..n], bytes[n];
      LimbHashShifted(h, start);
      HashFromAppend(h * PRIME % WORD, start, [b]);
      assert bytes == start + [b] && [b][1..] == [];
      var g := HashFrom(h * PRIME % WORD, start);
      assert HashFrom(g, [b]) == Round(g, b);
    }
  }

  /** So the hashes of a string agree if and only if multiplying the start, or the hash,
      comes to the same. */
  lemma {:induction false} LimbHashIff(bytes: seq<Byte>)
    ensures LimbHashFrom(INIT, bytes) == Hash(bytes) <==> HashFrom(INIT * PRIME % WORD, bytes) == Hash(bytes) * PRIME % WORD
  {
    LimbHashShifted(INIT, bytes);
    LimbBound(INIT, bytes);
    HashBound(INIT, bytes);
    PrimeInvertible(LimbHashFrom(INIT, bytes));
    PrimeInvertible(Hash(bytes));
  }

  lemma {:induction false} LimbBound(h: nat, bytes: seq<Byte>)
    requires h < WORD
    ensures LimbHashFrom(h, bytes) < WORD
    decreases |bytes|
  {
    if bytes != [] {
      WordPow();
      XorBound(LimbHashFrom(h, bytes[..|bytes| - 1]) * PRIME % WORD, bytes[|bytes| - 1], 64);
    }
  }
}
