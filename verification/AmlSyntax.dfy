/**
 The byte-level readers of the AML parser (lethe-aml/aml/helpers.c and name.c):
 package lengths, name strings and integer arguments, over a finite memory.
 Reading past its end is a fault, which ends the parse like debug_exit does.
 Each reader is the inverse of the encoding the ACPI Specification gives
 (sections 20.2.2, 20.2.4 and 20.2.5).
 */
module AmlSyntax {
  import opened Wrappers
  import opened Bits
  import opened Fnv

  /** Four characters: a name segment, and the key of every hash map. */
  type Seg = s: seq<Byte> | |s| == 4 witness [0, 0, 0, 0]

  datatype Read<+T> = Fault | Ok(value: T, pos: nat)

  predicate Same(m: seq<Byte>, p: nat, bs: seq<Byte>, i: nat) {
    i < |bs| && p + i < |m| && m[p + i] == bs[i]
  }

  /** Memory m holds the bytes bs at position p. */
  predicate Stands(m: seq<Byte>, p: nat, bs: seq<Byte>) {
    p + |bs| <= |m| && forall i {:trigger Same(m, p, bs, i)} :: 0 <= i < |bs| ==> Same(m, p, bs, i)
  }

  lemma StandsSplit(m: seq<Byte>, p: nat, xs: seq<Byte>, ys: seq<Byte>)
    ensures Stands(m, p, xs + ys) <==> Stands(m, p, xs) && Stands(m, p + |xs|, ys)
  {
    var bs := xs + ys;
    if Stands(m, p, bs) {
      forall i | 0 <= i < |xs| ensures Same(m, p, xs, i) { assert Same(m, p, bs, i); }
      var q := p + |xs|;
      forall i | 0 <= i < |ys| ensures Same(m, q, ys, i) { assert Same(m, p, bs, |xs| + i); }
    }
    if Stands(m, p, xs) && Stands(m, p + |xs|, ys) {
      forall i | 0 <= i < |bs| ensures Same(m, p, bs, i) {
        if i < |xs| { assert Same(m, p, xs, i); } else { assert Same(m, p + |xs|, ys, i - |xs|); }
      }
    }
  }

  lemma StandsParts(m: seq<Byte>, p: nat, all: seq<Byte>, xs: seq<Byte>, ys: seq<Byte>, q: nat)
    requires Stands(m, p, all) && all == xs + ys && q == p + |xs|
    ensures Stands(m, p, xs) && Stands(m, q, ys)
  {
    StandsSplit(m, p, xs, ys);
  }

  lemma StandsAt(m: seq<Byte>, p: nat, bs: seq<Byte>, i: nat)
    requires Stands(m, p, bs) && i < |bs|
    ensures m[p + i] == bs[i]
  {
    assert Same(m, p, bs, i);
  }

  lemma StandsSlice(m: seq<Byte>, p: nat, bs: seq<Byte>)
    requires Stands(m, p, bs)
    ensures m[p..p + |bs|] == bs
  {
    forall i | 0 <= i < |bs| ensures m[p..p + |bs|][i] == bs[i] { assert Same(m, p, bs, i); }
  }

  /** The byte at p, as a number. */
  function Fetch(m: seq<Byte>, p: nat): (b: nat)
    requires p < |m|
    ensures b < 256
  {
    m[p]
  }

  // -------------------------------------------------------------- PkgLength

  /** low | b << 4 for a low below 64, whose bits 4 and 5 may meet those of b. */
  function Overlay(low: nat, b: nat): nat {
    var h, l := low / 16, b % 4;
    low % 16 + 16 * (b - l + if h == 0 then l else if l == 0 || l == h then h else 3)
  }

  /** parse_length: a lead byte and up to three more. */
  function ParseLength(m: seq<Byte>, p: nat): (r: Read<nat>)
    ensures r.Ok? ==> p < r.pos <= p + 4 && r.pos <= |m|
  {
    if p >= |m| then Fault
    else
      var count, low := Fetch(m, p) / 64, Fetch(m, p) % 64;
      if p + 1 + count > |m| then Fault
      else if count == 0 then Ok(low, p + 1)
      else
        var len := Overlay(low, Fetch(m, p + 1));
        if count == 1 then Ok(len, p + 2)
        else if count == 2 then Ok(len + Fetch(m, p + 2) * 4096, p + 3)
        else Ok(len + Fetch(m, p + 2) * 4096 + Fetch(m, p + 3) * 1048576, p + 4)
  }

  lemma {:induction false} OrByHalves(a: nat, b: nat)
    ensures Or(a, 2 * b) == 2 * Or(a / 2, b) + a % 2
  {
  }

  lemma {:induction false} OrByFours(a: nat, b: nat)
    ensures Or(a, 4 * b) == 4 * Or(a / 4, b) + a % 4
  {
    OrByHalves(a, 2 * b);
    OrByHalves(a / 2, b);
    assert a / 2 / 2 == a / 4 && a % 4 == 2 * (a / 2 % 2) + a % 2;
  }

  lemma {:induction false} OrBySixteens(a: nat, b: nat)
    ensures Or(a, b * 16) == 16 * Or(a / 16, b) + a % 16
  {
    OrByFours(a, b * 4);
    OrByFours(a / 4, b);
    assert a / 4 / 4 == a / 16 && a % 16 == 4 * (a / 4 % 4) + a % 4;
  }

  lemma {:induction false} OverlayIsOr(low: nat, b: nat)
    requires low < 64 && b < 256
    ensures Or(low, b * 16) == Overlay(low, b) < 4096
  {
    OrBySixteens(low, b);
    OrLowTwo(low / 16, b);
  }

  lemma {:induction false} OrLowTwo(h: nat, b: nat)
    requires h < 4
    ensures Or(h, b) == b - b % 4 + if h == 0 then b % 4 else if b % 4 == 0 || b % 4 == h then h else 3
  {
    OrZero(b / 4);
    assert b / 2 / 2 == b / 4 && h / 2 / 2 == 0;
    assert Or(h / 2, b / 2) == 2 * Or(0, b / 4) + if h / 2 % 2 == 1 || b / 2 % 2 == 1 then 1 else 0;
  }

  /** The length is what or-ing the shifted bytes one by one gives. */
  lemma LengthIsOr(m: seq<Byte>, p: nat)
    requires p < |m| && p + 1 + Fetch(m, p) / 64 <= |m|
    ensures ParseLength(m, p).Ok?
    ensures var count, low := Fetch(m, p) / 64, Fetch(m, p) % 64;
            var len1 := if count == 0 then low else Or(low, Fetch(m, p + 1) * 16);
            var len2 := if count <= 1 then len1 else Or(len1, Fetch(m, p + 2) * 4096);
            ParseLength(m, p).value == if count <= 2 then len2 else Or(len2, Fetch(m, p + 3) * 1048576)
  {
    var count, low := Fetch(m, p) / 64, Fetch(m, p) % 64;
    if count >= 1 { OverlayIsOr(low, Fetch(m, p + 1)); }
    if count >= 2 { OrShifted(Overlay(low, Fetch(m, p + 1)), Fetch(m, p + 2)); }
    if count >= 3 { OrShifted(Overlay(low, Fetch(m, p + 1)) + Fetch(m, p + 2) * 4096, Fetch(m, p + 3)); }
  }

  lemma {:induction false} OrShifted(low: nat, b: nat)
    ensures low < 4096 ==> Or(low, b * 4096) == low + b * 4096
    ensures low < 1048576 ==> Or(low, b * 1048576) == low + b * 1048576
  {
    assert Pow2(4) == 16 && Pow2(8) == 256 && Pow2(12) == 4096 && Pow2(16) == 65536 && Pow2(20) == 1048576;
    if low < 4096 { OrDisjoint(low, b, 12); }
    if low < 1048576 { OrDisjoint(low, b, 20); }
  }

  /** n can be written with k bytes after the lead byte. */
  predicate LengthFits(n: nat, k: nat) {
    (k == 0 && n < 64) || (k == 1 && n < 4096) || (k == 2 && n < 1048576) || (k == 3 && n < 268435456)
  }

  function EncodeLength(n: nat, k: nat): (bs: seq<Byte>)
    requires LengthFits(n, k)
    ensures |bs| == k + 1
  {
    if k == 0 then [n]
    else if k == 1 then [64 + n % 16, n / 16]
    else if k == 2 then [128 + n % 16, n / 16 % 256, n / 4096]
    else [192 + n % 16, n / 16 % 256, n / 4096 % 256, n / 1048576]
  }

  lemma LengthDigits(n: nat)
    ensures n < 4096 ==> n == n % 16 + n / 16 * 16
    ensures n == n % 16 + n / 16 % 256 * 16 + n / 4096 * 4096
    ensures n == n % 16 + n / 16 % 256 * 16 + n / 4096 % 256 * 4096 + n / 1048576 * 1048576
  {
    assert n / 16 / 256 == n / 4096 && n / 4096 / 256 == n / 1048576;
  }

  /** The bytes of a length, digit by digit. */
  lemma ReadLength(m: seq<Byte>, p: nat, k: nat, low: nat)
    requires k <= 3 && p + k < |m| && low < 64 && Fetch(m, p) == 64 * k + low
    requires k > 0 ==> low < 16
    ensures k == 0 ==> ParseLength(m, p) == Ok(low, p + 1)
    ensures k == 1 ==> ParseLength(m, p) == Ok(low + Fetch(m, p + 1) * 16, p + 2)
    ensures k == 2 ==> ParseLength(m, p) == Ok(low + Fetch(m, p + 1) * 16 + Fetch(m, p + 2) * 4096, p + 3)
    ensures k == 3 ==>
              ParseLength(m, p) ==
              Ok(low + Fetch(m, p + 1) * 16 + Fetch(m, p + 2) * 4096 + Fetch(m, p + 3) * 1048576, p + 4)
  {
  }

  /** Reading back an encoded length gives the length and stops right after it. */
  lemma LengthRoundTrip(m: seq<Byte>, p: nat, n: nat, k: nat)
    requires LengthFits(n, k) && Stands(m, p, EncodeLength(n, k))
    ensures ParseLength(m, p) == Ok(n, p + k + 1)
  {
    var bs := EncodeLength(n, k);
    StandsAt(m, p, bs, 0);
    LengthDigits(n);
    ReadLength(m, p, k, if k == 0 then n else n % 16);
    if k >= 1 { StandsAt(m, p, bs, 1); }
    if k >= 2 { StandsAt(m, p, bs, 2); }
    if k >= 3 { StandsAt(m, p, bs, 3); }
  }

  // ------------------------------------------------------------- NameString

  const ROOT_CHAR: Byte := 0x5C
  const PARENT_CHAR: Byte := 0x5E
  const DUAL_NAME: Byte := 0x2E
  const MULTI_NAME: Byte := 0x2F

  predicate PrefixChar(b: Byte) {
    b == ROOT_CHAR || b == PARENT_CHAR
  }

  /** Where the run of prefix characters from p on ends. */
  function SkipPrefix(m: seq<Byte>, p: nat): (q: nat)
    requires p <= |m|
    ensures p <= q <= |m| && (q < |m| ==> !PrefixChar(m[q]))
    ensures q > p <==> p < |m| && PrefixChar(m[p])
    decreases |m| - p
  {
    if p < |m| && PrefixChar(m[p]) then SkipPrefix(m, p + 1) else p
  }

  /** parse_namestring: the first prefix character, if any, then the segments. */
  function ParseName(m: seq<Byte>, p: nat): (r: Read<seq<Byte>>)
    ensures r.Ok? ==> p < r.pos <= |m| && (|r.value| % 4 == 0 || |r.value| % 4 == 1)
  {
    if p > |m| then Fault
    else
      var q := SkipPrefix(m, p);
      var prefix := if q > p then [m[p]] else [];
      if q >= |m| then Fault else ParseBody(m, prefix, q)
  }

  function Segments(m: seq<Byte>, prefix: seq<Byte>, p: nat, count: nat): (r: Read<seq<Byte>>)
    requires |prefix| <= 1
    ensures r.Ok? ==> r.pos == p + 4 * count <= |m| && |r.value| == |prefix| + 4 * count
  {
    if p + 4 * count > |m| then Fault else Ok(prefix + m[p..p + 4 * count], p + 4 * count)
  }

  /** A name as the grammar has it, with at most one prefix character. */
  datatype Name = Name(prefix: seq<Byte>, segs: seq<Seg>)

  predicate LeadChar(b: Byte) {
    65 <= b <= 90 || b == 95
  }

  predicate NameOk(n: Name) {
    && (n.prefix == [] || n.prefix == [ROOT_CHAR] || n.prefix == [PARENT_CHAR])
    && |n.segs| < 256
    && (|n.segs| == 1 ==> LeadChar(n.segs[0][0]))
  }

  function Flat(segs: seq<Seg>): (bs: seq<Byte>)
    ensures |bs| == 4 * |segs|
  {
    if segs == [] then [] else segs[0] + Flat(segs[1..])
  }

  /** The characters of a name, without the encoding's marks. */
  function Chars(n: Name): seq<Byte> {
    n.prefix + Flat(n.segs)
  }

  function NameSize(n: Name): nat {
    |n.prefix| + (if |n.segs| == 0 then 1 else if |n.segs| == 1 then 4 else if |n.segs| == 2 then 9 else 2 + 4 * |n.segs|)
  }

  function EncodeName(n: Name): (bs: seq<Byte>)
    requires NameOk(n)
    ensures |bs| == NameSize(n)
  {
    n.prefix + EncodeSegs(n.segs)
  }

  function EncodeSegs(segs: seq<Seg>): (bs: seq<Byte>)
    requires |segs| < 256
    ensures |bs| == if |segs| == 0 then 1 else if |segs| == 1 then 4 else if |segs| == 2 then 9 else 2 + 4 * |segs|
  {
    if |segs| == 0 then [0]
    else if |segs| == 1 then segs[0]
    else if |segs| == 2 then [DUAL_NAME] + Flat(segs)
    else [MULTI_NAME, |segs|] + Flat(segs)
  }

  /** The part of parse_namestring behind the prefix characters. */
  function ParseBody(m: seq<Byte>, prefix: seq<Byte>, q: nat): (r: Read<seq<Byte>>)
    requires q < |m| && |prefix| <= 1
    ensures r.Ok? ==> q < r.pos <= |m| && (|r.value| % 4 == 0 || |r.value| % 4 == 1)
  {
    if m[q] == DUAL_NAME then Segments(m, prefix, q + 1, 2)
    else if m[q] == MULTI_NAME then
      if q + 1 >= |m| then Fault else Segments(m, prefix, q + 2, Fetch(m, q + 1))
    else if m[q] == 0 then Segments(m, prefix, q + 1, 0)
    else Segments(m, prefix, q, 1)
  }

  lemma {:induction false} SegmentsStand(m: seq<Byte>, prefix: seq<Byte>, p: nat, segs: seq<Seg>)
    requires |prefix| <= 1 && Stands(m, p, Flat(segs))
    ensures Segments(m, prefix, p, |segs|) == Ok(prefix + Flat(segs), p + 4 * |segs|)
  {
    StandsSlice(m, p, Flat(segs));
  }

  lemma {:induction false} MarkedStands(m: seq<Byte>, q: nat, mark: seq<Byte>, segs: seq<Seg>)
    requires |mark| > 0 && Stands(m, q, mark + Flat(segs))
    ensures q + |mark| + 4 * |segs| <= |m| && m[q] == mark[0] && (|mark| > 1 ==> m[q + 1] == mark[1])
    ensures Stands(m, q + |mark|, Flat(segs))
  {
    StandsSplit(m, q, mark, Flat(segs));
    StandsAt(m, q, mark, 0);
    if |mark| > 1 { StandsAt(m, q, mark, 1); }
  }

  lemma NoSegment(m: seq<Byte>, prefix: seq<Byte>, q: nat)
    requires |prefix| <= 1 && Stands(m, q, [0])
    ensures q < |m| && m[q] == 0 && ParseBody(m, prefix, q) == Ok(prefix, q + 1)
  {
    StandsAt(m, q, [0], 0);
    assert prefix + m[q + 1..q + 1] == prefix;
  }

  lemma OneSegment(m: seq<Byte>, prefix: seq<Byte>, q: nat, seg: Seg)
    requires |prefix| <= 1 && Stands(m, q, seg) && LeadChar(seg[0])
    ensures q < |m| && m[q] == seg[0] && ParseBody(m, prefix, q) == Ok(prefix + seg, q + 4)
  {
    StandsAt(m, q, seg, 0);
    StandsSlice(m, q, seg);
  }

  lemma {:induction false} TwoSegments(m: seq<Byte>, prefix: seq<Byte>, q: nat, segs: seq<Seg>)
    requires |prefix| <= 1 && |segs| == 2 && Stands(m, q, [DUAL_NAME] + Flat(segs))
    ensures q < |m| && m[q] == DUAL_NAME && ParseBody(m, prefix, q) == Ok(prefix + Flat(segs), q + 9)
  {
    MarkedStands(m, q, [DUAL_NAME], segs);
    SegmentsStand(m, prefix, q + 1, segs);
  }

  lemma {:induction false} ManySegments(m: seq<Byte>, prefix: seq<Byte>, q: nat, segs: seq<Seg>, n: Byte)
    requires |prefix| <= 1 && |segs| == n && Stands(m, q, [MULTI_NAME, n] + Flat(segs))
    ensures q < |m| && m[q] == MULTI_NAME && ParseBody(m, prefix, q) == Ok(prefix + Flat(segs), q + 2 + 4 * n)
  {
    MarkedStands(m, q, [MULTI_NAME, n], segs);
    SegmentsStand(m, prefix, q + 2, segs);
  }

  lemma {:induction false} FlatOne(segs: seq<Seg>)
    requires |segs| == 1
    ensures Flat(segs) == segs[0]
  {
    assert Flat(segs[1..]) == [] && segs[0] + [] == segs[0];
  }

  lemma {:induction false} NameBody(m: seq<Byte>, q: nat, prefix: seq<Byte>, segs: seq<Seg>)
    requires |prefix| <= 1 && |segs| < 256 && (|segs| == 1 ==> LeadChar(segs[0][0])) && Stands(m, q, EncodeSegs(segs))
    ensures q < |m| && !PrefixChar(m[q])
    ensures ParseBody(m, prefix, q) == Ok(prefix + Flat(segs), q + |EncodeSegs(segs)|)
  {
    if |segs| == 0 {
      NoSegment(m, prefix, q);
      assert prefix + [] == prefix;
    } else if |segs| == 1 {
      OneSegment(m, prefix, q, segs[0]);
      FlatOne(segs);
    } else if |segs| == 2 {
      TwoSegments(m, prefix, q, segs);
    } else {
      ManySegments(m, prefix, q, segs, |segs|);
    }
  }

  /** Reading back an encoded name gives its characters and stops right after it. */
  lemma NameRoundTrip(m: seq<Byte>, p: nat, n: Name)
    requires NameOk(n) && Stands(m, p, EncodeName(n))
    ensures ParseName(m, p) == Ok(Chars(n), p + |EncodeName(n)|)
  {
    var q := p + |n.prefix|;
    StandsSplit(m, p, n.prefix, EncodeSegs(n.segs));
    if n.prefix != [] { StandsAt(m, p, n.prefix, 0); }
    NameBody(m, q, n.prefix, n.segs);
    SkipsPrefix(m, p, n.prefix);
  }

  lemma SkipsPrefix(m: seq<Byte>, p: nat, prefix: seq<Byte>)
    requires |prefix| <= 1 && p + |prefix| < |m| && !PrefixChar(m[p + |prefix|])
    requires prefix != [] ==> m[p] == prefix[0] && PrefixChar(prefix[0])
    ensures SkipPrefix(m, p) == p + |prefix|
    ensures prefix == if SkipPrefix(m, p) > p then [m[p]] else []
  {
    assert SkipPrefix(m, p + |prefix|) == p + |prefix|;
  }
}
