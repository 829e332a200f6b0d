/**
 Well-formed AML: terms as a tree, their encoding, and what it means for a term to
 stand at a position in memory (section 20.2 of the ACPI Specification).
 */
module AmlGrammar {
  import opened Fnv
  import opened AmlSyntax
  import opened AmlNames
  import opened AmlTerms
  import opened AmlParse
  import opened AmlData

  // --------------------------------------------------------------------- terms

  /** Terms.  `k` is the number of bytes after the lead byte of the length. */
  datatype Term =
    | NameTerm(key: Seg, data: DataExpr)
    | RegionTerm(key: Seg, space: Byte, offset: Expr, len: Expr)
    | AliasTerm(source: Seg, key: Seg)
    | SkipTerm(op: Byte, k: nat, bytes: seq<Byte>)
    | MethodTerm(k: nat, name: Name, flags: Byte, bytes: seq<Byte>)
    | ScopeTerm(k: nat, name: Name, body: seq<Term>)
    | DeviceTerm(k: nat, name: Name, body: seq<Term>)

  predicate SegOk(s: Seg) {
    LeadChar(s[0])
  }

  predicate TermOk(t: Term) {
    match t
    case NameTerm(key, d) => SegOk(key) && DataOk(d)
    case RegionTerm(key, _, offset, len) => SegOk(key) && ExprOk(offset) && ExprOk(len)
    case AliasTerm(source, key) => SegOk(source) && SegOk(key)
    case SkipTerm(op, k, bytes) => (op == EXT_PROCESSOR || op == EXT_INDEX_FIELD) && PackageFits(k, |bytes|)
    case MethodTerm(k, name, _, bytes) => NameOk(name) && |name.segs| > 0 && PackageFits(k, NameSize(name) + 1 + |bytes|)
    case ScopeTerm(k, name, body) => NameOk(name) && TermsOk(body) && PackageFits(k, NameSize(name) + TermsSize(body))
    case DeviceTerm(k, name, body) => NameOk(name) && TermsOk(body) && PackageFits(k, NameSize(name) + TermsSize(body))
  }

  predicate TermsOk(ts: seq<Term>) {
    ts == [] || (TermOk(ts[0]) && TermsOk(ts[1..]))
  }

  function TermSize(t: Term): (r: nat)
    ensures r >= 2
  {
    match t
    case NameTerm(_, d) => 5 + DataSize(d)
    case RegionTerm(_, _, offset, len) => 7 + Size(offset) + Size(len)
    case AliasTerm(_, _) => 9
    case SkipTerm(_, k, bytes) => k + 3 + |bytes|
    case MethodTerm(k, name, _, bytes) => k + 3 + NameSize(name) + |bytes|
    case ScopeTerm(k, name, body) => k + 2 + NameSize(name) + TermsSize(body)
    case DeviceTerm(k, name, body) => k + 3 + NameSize(name) + TermsSize(body)
  }

  /** How much memory has to lie behind a term, for a package at its end. */
  function Behind(t: Term): (n: nat) {
    match t
    case NameTerm(_, d) => Look(d)
    case ScopeTerm(_, _, body) => AllBehind(body)
    case DeviceTerm(_, _, body) => AllBehind(body)
    case _ => 0
  }

  function AllBehind(ts: seq<Term>): nat {
    if ts == [] then 0 else if Behind(ts[0]) > AllBehind(ts[1..]) then Behind(ts[0]) else AllBehind(ts[1..])
  }

  function TermsSize(ts: seq<Term>): nat {
    if ts == [] then 0 else TermSize(ts[0]) + TermsSize(ts[1..])
  }

  function EncodeTerm(t: Term): (bs: seq<Byte>)
    requires TermOk(t)
    ensures |bs| == TermSize(t)
  {
    match t
    case NameTerm(key, d) => [NAME_OP] + (key + EncodeData(d))
    case RegionTerm(key, space, offset, len) => EncodeRegion(key, space, offset, len)
    case AliasTerm(source, key) => [ALIAS_OP] + (source + key)
    case SkipTerm(op, k, bytes) => [EXT_PREFIX, op] + Package(k, bytes)
    case MethodTerm(k, name, flags, bytes) => [METHOD_OP] + Package(k, EncodeName(name) + ([flags] + bytes))
    case ScopeTerm(k, name, body) => [SCOPE_OP] + Package(k, EncodeName(name) + EncodeTerms(body))
    case DeviceTerm(k, name, body) => [EXT_PREFIX, EXT_DEVICE] + Package(k, EncodeName(name) + EncodeTerms(body))
  }

  function EncodeRegion(key: Seg, space: Byte, offset: Expr, len: Expr): (bs: seq<Byte>)
    requires ExprOk(offset) && ExprOk(len)
    ensures |bs| == 7 + Size(offset) + Size(len)
  {
    SizeOfEncoding(offset);
    SizeOfEncoding(len);
    [EXT_PREFIX, EXT_OP_REGION] + (key + ([space] + (EncodeExpr(offset) + EncodeExpr(len))))
  }

  function EncodeTerms(ts: seq<Term>): (bs: seq<Byte>)
    requires TermsOk(ts)
    ensures |bs| == TermsSize(ts)
  {
    if ts == [] then [] else EncodeTerm(ts[0]) + EncodeTerms(ts[1..])
  }

  // ----------------------------------------------- where the parts of a term stand

  predicate NameAt(m: seq<Byte>, p: nat, key: Seg, d: DataExpr)
    requires DataOk(d)
  {
    p < |m| && m[p] == NAME_OP && ParseName(m, p + 1) == Ok(key, p + 5) && DataAt(m, p + 5, d)
  }

  predicate RegionAt(m: seq<Byte>, p: nat, key: Seg, space: Byte, a: Expr, b: Expr) {
    && p + 6 < |m| && m[p] == EXT_PREFIX && m[p + 1] == EXT_OP_REGION
    && ParseName(m, p + 2) == Ok(key, p + 6) && m[p + 6] == space && ExprAt(m, p + 7, a) && ExprAt(m, p + 7 + Size(a), b)
  }

  predicate AliasAt(m: seq<Byte>, p: nat, source: Seg, key: Seg) {
    p < |m| && m[p] == ALIAS_OP && ParseName(m, p + 1) == Ok(source, p + 5) && ParseName(m, p + 5) == Ok(key, p + 9)
  }

  predicate SkipAt(m: seq<Byte>, p: nat, op: Byte, len: nat) {
    p + 1 < |m| && m[p] == EXT_PREFIX && m[p + 1] == op && ParseLength(m, p + 2).Ok? && ParseLength(m, p + 2).value == len
  }

  /** A package of length len at q that starts with a name, which ends at e. */
  predicate HeadAt(m: seq<Byte>, q: nat, name: Name, len: nat, e: nat) {
    ParseLength(m, q).Ok? && ParseLength(m, q).value == len && ParseName(m, ParseLength(m, q).pos) == Ok(Chars(name), e)
  }

  /** Where the body of a term at p begins. */
  function BodyStart(p: nat, x: Term): nat
    requires x.MethodTerm? || x.ScopeTerm? || x.DeviceTerm?
  {
    p + TermSize(x) - (if x.MethodTerm? then |x.bytes| else TermsSize(x.body))
  }

  predicate TermAt(m: seq<Byte>, p: nat, x: Term)
    requires TermOk(x)
    decreases x
  {
    match x
    case NameTerm(key, d) => NameAt(m, p, key, d)
    case RegionTerm(key, space, offset, len) => RegionAt(m, p, key, space, offset, len)
    case AliasTerm(source, key) => AliasAt(m, p, source, key)
    case SkipTerm(op, _, _) => SkipAt(m, p, op, TermSize(x) - 2)
    case MethodTerm(_, name, flags, bytes) =>
      var e := BodyStart(p, x) - 1;
      p < |m| && m[p] == METHOD_OP && HeadAt(m, p + 1, name, TermSize(x) - 1, e) && e < |m| && m[e] == flags
    case ScopeTerm(_, name, body) =>
      var e := BodyStart(p, x);
      p < |m| && m[p] == SCOPE_OP && HeadAt(m, p + 1, name, TermSize(x) - 1, e) && TermsAt(m, e, body)
    case DeviceTerm(_, name, body) =>
      var e := BodyStart(p, x);
      p + 1 < |m| && m[p] == EXT_PREFIX && m[p + 1] == EXT_DEVICE && HeadAt(m, p + 2, name, TermSize(x) - 2, e) && TermsAt(m, e, body)
  }

  predicate TermsAt(m: seq<Byte>, p: nat, ts: seq<Term>)
    requires TermsOk(ts)
    decreases ts
  {
    ts == [] || (TermAt(m, p, ts[0]) && TermsAt(m, p + TermSize(ts[0]), ts[1..]))
  }

  // ------------------------------------------------- an encoded term stands there

  /** A bare segment is its own encoding. */
  lemma SegReads(m: seq<Byte>, p: nat, key: Seg)
    requires SegOk(key) && Stands(m, p, key)
    ensures ParseName(m, p) == Ok(key, p + 4)
  {
    var name := Name([], [key]);
    assert Flat([key]) == key + Flat([]) == key;
    assert Chars(name) == [] + key == key;
    assert EncodeName(name) == [] + key == key;
    NameRoundTrip(m, p, name);
  }

  lemma KeyReads(m: seq<Byte>, p: nat, key: Seg, rest: seq<Byte>)
    requires SegOk(key) && Stands(m, p, key + rest)
    ensures ParseName(m, p) == Ok(key, p + 4) && Stands(m, p + 4, rest)
  {
    StandsSplit(m, p, key, rest);
    SegReads(m, p, key);
  }

  lemma ExtStands(m: seq<Byte>, p: nat, op: Byte, xs: seq<Byte>)
    requires Stands(m, p, [EXT_PREFIX, op] + xs)
    ensures p + 1 < |m| && m[p] == EXT_PREFIX && m[p + 1] == op && Stands(m, p + 2, xs)
  {
    StandsAt(m, p, [EXT_PREFIX, op] + xs, 0);
    StandsAt(m, p, [EXT_PREFIX, op] + xs, 1);
    StandsSplit(m, p, [EXT_PREFIX, op], xs);
  }

  lemma {:induction false} TwoExprs(m: seq<Byte>, q: nat, a: Expr, b: Expr)
    requires ExprOk(a) && ExprOk(b) && Stands(m, q, EncodeExpr(a) + EncodeExpr(b))
    ensures ExprAt(m, q, a) && ExprAt(m, q + Size(a), b)
  {
    SizeOfEncoding(a);
    StandsParts(m, q, EncodeExpr(a) + EncodeExpr(b), EncodeExpr(a), EncodeExpr(b), q + Size(a));
    ExprStandsThere(m, q, a);
    ExprStandsThere(m, q + Size(a), b);
  }

  lemma {:induction false} ExprStandsThere(m: seq<Byte>, q: nat, e: Expr)
    requires ExprOk(e) && Stands(m, q, EncodeExpr(e))
    ensures ExprAt(m, q, e)
  {
    StandsExpr(m, q, e);
  }

  lemma {:induction false} RegionTail(m: seq<Byte>, q: nat, space: Byte, a: Expr, b: Expr)
    requires ExprOk(a) && ExprOk(b) && Stands(m, q, [space] + (EncodeExpr(a) + EncodeExpr(b)))
    ensures q < |m| && m[q] == space && ExprAt(m, q + 1, a) && ExprAt(m, q + 1 + Size(a), b)
  {
    OpStands(m, q, space, EncodeExpr(a) + EncodeExpr(b));
    TwoExprs(m, q + 1, a, b);
  }

  /** A package that starts with a name. */
  lemma {:induction false} HeadStands(m: seq<Byte>, q: nat, k: nat, name: Name, rest: seq<Byte>, len: nat, e: nat)
    requires NameOk(name) && PackageFits(k, NameSize(name) + |rest|) && Stands(m, q, Package(k, EncodeName(name) + rest))
    requires len == k + 1 + NameSize(name) + |rest| && e == q + k + 1 + NameSize(name)
    ensures HeadAt(m, q, name, len, e) && Stands(m, e, rest)
  {
    var b := q + k + 1;
    PackageBody(m, q, k, EncodeName(name) + rest, len, b);
    NameThen(m, b, name, rest, e);
    HeadFrom(m, q, name, len, b, e);
  }

  lemma {:induction false} PackageBody(m: seq<Byte>, q: nat, k: nat, bytes: seq<Byte>, len: nat, b: nat)
    requires PackageFits(k, |bytes|) && Stands(m, q, Package(k, bytes)) && len == k + 1 + |bytes| && b == q + k + 1
    ensures ParseLength(m, q) == Ok(len, b) && Stands(m, b, bytes)
  {
    PackageStands(m, q, k, bytes);
  }

  lemma {:induction false} HeadFrom(m: seq<Byte>, q: nat, name: Name, len: nat, b: nat, e: nat)
    requires ParseLength(m, q) == Ok(len, b) && ParseName(m, b) == Ok(Chars(name), e)
    ensures HeadAt(m, q, name, len, e)
  {
  }

  lemma {:induction false} NameStands(m: seq<Byte>, p: nat, x: Term)
    requires TermOk(x) && x.NameTerm? && Stands(m, p, EncodeTerm(x)) && p + TermSize(x) + Behind(x) <= |m|
    ensures NameAt(m, p, x.key, x.data)
  {
    OpStands(m, p, NAME_OP, x.key + EncodeData(x.data));
    KeyReads(m, p + 1, x.key, EncodeData(x.data));
    DataStands(m, p + 5, x.data);
  }

  lemma {:induction false} RegionStands(m: seq<Byte>, p: nat, x: Term)
    requires TermOk(x) && x.RegionTerm? && Stands(m, p, EncodeTerm(x))
    ensures RegionAt(m, p, x.key, x.space, x.offset, x.len)
  {
    var tail := [x.space] + (EncodeExpr(x.offset) + EncodeExpr(x.len));
    ExtStands(m, p, EXT_OP_REGION, x.key + tail);
    KeyReads(m, p + 2, x.key, tail);
    RegionTail(m, p + 6, x.space, x.offset, x.len);
  }

  lemma {:induction false} AliasStands(m: seq<Byte>, p: nat, x: Term)
    requires TermOk(x) && x.AliasTerm? && Stands(m, p, EncodeTerm(x))
    ensures AliasAt(m, p, x.source, x.key)
  {
    OpStands(m, p, ALIAS_OP, x.source + x.key);
    KeyReads(m, p + 1, x.source, x.key);
    SegReads(m, p + 5, x.key);
  }

  lemma {:induction false} SkipStands(m: seq<Byte>, p: nat, x: Term)
    requires TermOk(x) && x.SkipTerm? && Stands(m, p, EncodeTerm(x))
    ensures SkipAt(m, p, x.op, TermSize(x) - 2)
  {
    ExtStands(m, p, x.op, Package(x.k, x.bytes));
    PackageStands(m, p + 2, x.k, x.bytes);
  }

  lemma {:induction false} MethodStands(m: seq<Byte>, p: nat, x: Term)
    requires TermOk(x) && x.MethodTerm? && Stands(m, p, EncodeTerm(x))
    ensures TermAt(m, p, x)
  {
    var tail, e := [x.flags] + x.bytes, BodyStart(p, x) - 1;
    OpStands(m, p, METHOD_OP, Package(x.k, EncodeName(x.name) + tail));
    HeadStands(m, p + 1, x.k, x.name, tail, TermSize(x) - 1, e);
    OpStands(m, e, x.flags, x.bytes);
  }

  lemma {:induction false} ScopeStands(m: seq<Byte>, p: nat, x: Term, e: nat)
    requires TermOk(x) && x.ScopeTerm? && Stands(m, p, EncodeTerm(x)) && e == BodyStart(p, x)
    ensures p < |m| && m[p] == SCOPE_OP && HeadAt(m, p + 1, x.name, TermSize(x) - 1, e) && Stands(m, e, EncodeTerms(x.body))
  {
    OpStands(m, p, SCOPE_OP, Package(x.k, EncodeName(x.name) + EncodeTerms(x.body)));
    HeadStands(m, p + 1, x.k, x.name, EncodeTerms(x.body), TermSize(x) - 1, e);
  }

  lemma {:induction false} DeviceStands(m: seq<Byte>, p: nat, x: Term, e: nat)
    requires TermOk(x) && x.DeviceTerm? && Stands(m, p, EncodeTerm(x)) && e == BodyStart(p, x)
    ensures p + 1 < |m| && m[p] == EXT_PREFIX && m[p + 1] == EXT_DEVICE && HeadAt(m, p + 2, x.name, TermSize(x) - 2, e)
    ensures Stands(m, e, EncodeTerms(x.body))
  {
    ExtStands(m, p, EXT_DEVICE, Package(x.k, EncodeName(x.name) + EncodeTerms(x.body)));
    HeadStands(m, p + 2, x.k, x.name, EncodeTerms(x.body), TermSize(x) - 2, e);
  }

  lemma {:induction false} TermStands(m: seq<Byte>, p: nat, x: Term)
    requires TermOk(x) && Stands(m, p, EncodeTerm(x)) && p + TermSize(x) + Behind(x) <= |m|
    ensures TermAt(m, p, x)
    decreases x, 0
  {
    match x {
      case NameTerm(_, _) => NameStands(m, p, x);
      case RegionTerm(_, _, _, _) => RegionStands(m, p, x);
      case AliasTerm(_, _) => AliasStands(m, p, x);
      case SkipTerm(_, _, _) => SkipStands(m, p, x);
      case MethodTerm(_, _, _, _) => MethodStands(m, p, x);
      case ScopeTerm(_, _, body) =>
        ScopeStands(m, p, x, BodyStart(p, x));
        TermsStand(m, BodyStart(p, x), body);
      case DeviceTerm(_, _, body) =>
        DeviceStands(m, p, x, BodyStart(p, x));
        TermsStand(m, BodyStart(p, x), body);
    }
  }

  lemma {:induction false} EncodedSplit(m: seq<Byte>, p: nat, ts: seq<Term>, q: nat)
    requires ts != [] && TermsOk(ts) && Stands(m, p, EncodeTerms(ts)) && q == p + TermSize(ts[0])
    ensures TermOk(ts[0]) && TermsOk(ts[1..]) && Stands(m, p, EncodeTerm(ts[0])) && Stands(m, q, EncodeTerms(ts[1..]))
    ensures p + TermsSize(ts) == q + TermsSize(ts[1..]) && Behind(ts[0]) <= AllBehind(ts) && AllBehind(ts[1..]) <= AllBehind(ts)
  {
    TermsUnfold(ts);
    StandsParts(m, p, EncodeTerms(ts), EncodeTerm(ts[0]), EncodeTerms(ts[1..]), q);
  }

  lemma {:induction false} TermsUnfold(ts: seq<Term>)
    requires ts != [] && TermsOk(ts)
    ensures TermOk(ts[0]) && TermsOk(ts[1..]) && EncodeTerms(ts) == EncodeTerm(ts[0]) + EncodeTerms(ts[1..])
    ensures TermsSize(ts) == TermSize(ts[0]) + TermsSize(ts[1..]) && |EncodeTerm(ts[0])| == TermSize(ts[0])
    ensures Behind(ts[0]) <= AllBehind(ts) && AllBehind(ts[1..]) <= AllBehind(ts)
  {
  }

  lemma {:induction false} TermsStand(m: seq<Byte>, p: nat, ts: seq<Term>)
    requires TermsOk(ts) && Stands(m, p, EncodeTerms(ts)) && p + TermsSize(ts) + AllBehind(ts) <= |m|
    ensures TermsAt(m, p, ts)
    decreases ts, 1
  {
    if ts != [] {
      var q := p + TermSize(ts[0]);
      EncodedSplit(m, p, ts, q);
      HeadStandsThere(m, p, ts);
      TailStandsThere(m, q, ts);
      TermsJoin(m, p, ts, q);
    }
  }

  lemma {:induction false} HeadStandsThere(m: seq<Byte>, p: nat, ts: seq<Term>)
    requires ts != [] && TermOk(ts[0]) && Stands(m, p, EncodeTerm(ts[0])) && p + TermSize(ts[0]) + Behind(ts[0]) <= |m|
    ensures TermAt(m, p, ts[0])
    decreases ts, 0
  {
    TermStands(m, p, ts[0]);
  }

  lemma {:induction false} TailStandsThere(m: seq<Byte>, q: nat, ts: seq<Term>)
    requires ts != [] && TermsOk(ts[1..]) && Stands(m, q, EncodeTerms(ts[1..]))
    requires q + TermsSize(ts[1..]) + AllBehind(ts[1..]) <= |m|
    ensures TermsAt(m, q, ts[1..])
    decreases ts, 0
  {
    TermsStand(m, q, ts[1..]);
  }

  lemma {:induction false} TermsJoin(m: seq<Byte>, p: nat, ts: seq<Term>, q: nat)
    requires ts != [] && TermsOk(ts) && q == p + TermSize(ts[0])
    ensures TermsAt(m, p, ts) <==> TermAt(m, p, ts[0]) && TermsAt(m, q, ts[1..])
  {
  }

  /** A list in its place is its first term and the rest in theirs. */
  lemma {:induction false} TermsSplit(m: seq<Byte>, p: nat, ts: seq<Term>, q: nat)
    requires ts != [] && TermsOk(ts) && TermsAt(m, p, ts) && q == p + TermSize(ts[0])
    ensures TermOk(ts[0]) && TermAt(m, p, ts[0]) && TermsOk(ts[1..]) && TermsAt(m, q, ts[1..])
    ensures p + TermsSize(ts) == q + TermsSize(ts[1..])
  {
    TermsJoin(m, p, ts, q);
  }

  // The parts of a term that starts with a package.

  lemma {:induction false} MethodParts(m: seq<Byte>, p: nat, x: Term, q: nat, len: nat, e: nat, end: nat)
    requires TermOk(x) && x.MethodTerm? && TermAt(m, p, x)
    requires q == p + 1 && len == TermSize(x) - 1 && e == BodyStart(p, x) - 1 && end == p + TermSize(x)
    ensures q + len == end && e + 1 + |x.bytes| == end && q <= e
    ensures p < |m| && m[p] == METHOD_OP && HeadAt(m, q, x.name, len, e) && e < |m| && m[e] == x.flags
  {
  }

  lemma {:induction false} ScopeParts(m: seq<Byte>, p: nat, x: Term, q: nat, len: nat, e: nat, end: nat)
    requires TermOk(x) && x.ScopeTerm? && TermAt(m, p, x)
    requires q == p + 1 && len == TermSize(x) - 1 && e == BodyStart(p, x) && end == p + TermSize(x)
    ensures q + len == end == e + TermsSize(x.body)
    ensures p < |m| && m[p] == SCOPE_OP && HeadAt(m, q, x.name, len, e) && TermsAt(m, e, x.body)
  {
  }

  lemma DeviceParts(m: seq<Byte>, p: nat, x: Term, q: nat, len: nat, e: nat, end: nat)
    requires TermOk(x) && x.DeviceTerm? && TermAt(m, p, x)
    requires q == p + 2 && len == TermSize(x) - 2 && e == BodyStart(p, x) && end == p + TermSize(x)
    ensures q + len == end == e + TermsSize(x.body)
    ensures p + 1 < |m| && m[p] == EXT_PREFIX && m[p + 1] == EXT_DEVICE && HeadAt(m, q, x.name, len, e) && TermsAt(m, e, x.body)
  {
  }
}
