/**
 Data objects: their encoding, with packages of data objects and names, what they
 mean, and exactly when parse_data_object (lethe-aml/aml/helpers.c:623-768) reads
 that (section 20.2.3 of the ACPI Specification).
 */
module AmlData {
  import opened Wrappers
  import opened Fnv
  import opened AmlSyntax
  import opened AmlNames
  import opened AmlTerms
  import opened AmlParse

  /** A package's length counts its own k + 1 bytes. */
  predicate PackageFits(k: nat, size: nat) {
    LengthFits(k + 1 + size, k)
  }

  /** A package: its length and what it holds. */
  function Package(k: nat, bytes: seq<Byte>): (bs: seq<Byte>)
    requires PackageFits(k, |bytes|)
    ensures |bs| == k + 1 + |bytes|
  {
    EncodeLength(k + 1 + |bytes|, k) + bytes
  }

  // ------------------------------------------------------------------ data objects

  /** `k` is the number of bytes after the lead byte of a length; `num` and `count` say
      how many elements there are. */
  datatype DataExpr = DPlain(code: Byte) | DNumber(prefix: Byte, v: nat) | DString(chars: seq<Byte>)
                    | DBuffer(k: nat, size: Byte, bytes: seq<Byte>)
                    | DPackage(k: nat, num: Byte, elems: seq<Elem>)
                    | DVarPackage(k: nat, count: Expr, elems: seq<Elem>)

  datatype Elem = DataElem(d: DataExpr) | NameElem(name: Name)

  predicate DataOk(d: DataExpr) {
    match d
    case DPlain(op) => Simple(op)
    case DNumber(op, v) => (Width(op) > 0 || op == QWORD_PREFIX) && v < Pow256(DataWidth(op))
    case DString(chars) => forall i :: 0 <= i < |chars| ==> chars[i] != 0
    case DBuffer(k, op, bytes) =>
      Width(op) > 0 && |bytes| < Pow256(Width(op)) && LengthFits(k + 2 + Width(op) + |bytes|, k)
    case DPackage(k, _, elems) => ElemsOk(elems) && PackageFits(k, 1 + ElemsSize(elems))
    case DVarPackage(k, count, elems) => ExprOk(count) && ElemsOk(elems) && PackageFits(k, Size(count) + ElemsSize(elems))
  }

  /** A name of an element has at least a prefix or a segment. */
  predicate ElemOk(x: Elem) {
    match x
    case DataElem(d) => DataOk(d)
    case NameElem(name) => NameOk(name) && ValidName(Chars(name)) && Chars(name) != []
  }

  predicate ElemsOk(xs: seq<Elem>) {
    xs == [] || (ElemOk(xs[0]) && ElemsOk(xs[1..]))
  }

  function DataSize(d: DataExpr): (n: nat)
    ensures n > 0
  {
    match d
    case DPlain(op) => 1
    case DNumber(op, v) => 1 + DataWidth(op)
    case DString(chars) => |chars| + 2
    case DBuffer(k, op, bytes) => k + 3 + Width(op) + |bytes|
    case DPackage(k, _, elems) => k + 3 + ElemsSize(elems)
    case DVarPackage(k, count, elems) => k + 2 + Size(count) + ElemsSize(elems)
  }

  function ElemSize(x: Elem): nat {
    match x
    case DataElem(d) => DataSize(d)
    case NameElem(name) => NameSize(name)
  }

  function ElemsSize(xs: seq<Elem>): nat {
    if xs == [] then 0 else ElemSize(xs[0]) + ElemsSize(xs[1..])
  }

  function EncodeData(d: DataExpr): (bs: seq<Byte>)
    requires DataOk(d)
    ensures |bs| == DataSize(d)
  {
    match d
    case DPlain(op) => [op]
    case DNumber(op, v) => [op] + EncodeWord(v, DataWidth(op))
    case DString(chars) => [STRING_PREFIX] + (chars + [0])
    case DBuffer(k, op, bytes) =>
      [BUFFER_OP] + (EncodeLength(k + 2 + Width(op) + |bytes|, k) + (EncodeExpr(Number(op, |bytes|)) + bytes))
    case DPackage(k, num, elems) => [PACKAGE_OP] + Package(k, [num] + EncodeElems(elems))
    case DVarPackage(k, count, elems) =>
      SizeOfEncoding(count);
      [VAR_PACKAGE_OP] + Package(k, EncodeExpr(count) + EncodeElems(elems))
  }

  function EncodeElem(x: Elem): (bs: seq<Byte>)
    requires ElemOk(x)
    ensures |bs| == ElemSize(x)
  {
    match x
    case DataElem(d) => EncodeData(d)
    case NameElem(name) => EncodeName(name)
  }

  function EncodeElems(xs: seq<Elem>): (bs: seq<Byte>)
    requires ElemsOk(xs)
    ensures |bs| == ElemsSize(xs)
  {
    if xs == [] then [] else EncodeElem(xs[0]) + EncodeElems(xs[1..])
  }

  /** What a data object is worth: a package all its elements, with their names made
      absolute. */
  function DataValue(ctx: Ctx, d: DataExpr): Data {
    match d
    case DPlain(op) => ByteData(if op == ZERO_OP then 0 else if op == ONE_OP then 1 else 0xFF)
    case DNumber(op, v) => NumberData(op, v)
    case DString(chars) => StrData(chars + [0])
    case DBuffer(_, _, bytes) => BufData(bytes)
    case DPackage(_, _, elems) => PkgData(ElemValues(ctx, elems))
    case DVarPackage(_, _, elems) => PkgData(ElemValues(ctx, elems))
  }

  function ElemValue(ctx: Ctx, x: Elem): Data {
    match x
    case DataElem(d) => DataValue(ctx, d)
    case NameElem(name) => RefData(match ctx.resolve(Chars(name)) case Some(full) => full case None => [])
  }

  function ElemValues(ctx: Ctx, xs: seq<Elem>): (ds: seq<Data>)
    ensures |ds| == |xs|
  {
    if xs == [] then [] else [ElemValue(ctx, xs[0])] + ElemValues(ctx, xs[1..])
  }

  /** Every package in d says how many elements it has, modulo 256, and every name among
      the elements can be made absolute. */
  predicate Exact(ctx: Ctx, d: DataExpr) {
    match d
    case DPackage(_, num, elems) => num == |elems| && AllExact(ctx, elems)
    case DVarPackage(_, count, elems) =>
      var v := Eval(ctx.value, count);
      v.Some? && v.value % 256 == |elems| && AllExact(ctx, elems)
    case _ => true
  }

  predicate ElemExact(ctx: Ctx, x: Elem) {
    match x
    case DataElem(d) => Exact(ctx, d)
    case NameElem(name) => ctx.resolve(Chars(name)).Some?
  }

  predicate AllExact(ctx: Ctx, xs: seq<Elem>) {
    xs == [] || (ElemExact(ctx, xs[0]) && AllExact(ctx, xs[1..]))
  }

  /** The same of the numbers alone, so far as they have a value. */
  predicate Numbered(ctx: Ctx, d: DataExpr) {
    match d
    case DPackage(_, num, elems) => num == |elems| && AllNumbered(ctx, elems)
    case DVarPackage(_, count, elems) =>
      var v := Eval(ctx.value, count);
      v.Some? ==> v.value % 256 == |elems| && AllNumbered(ctx, elems)
    case _ => true
  }

  predicate ElemNumbered(ctx: Ctx, x: Elem) {
    match x
    case DataElem(d) => Numbered(ctx, d)
    case NameElem(_) => true
  }

  predicate AllNumbered(ctx: Ctx, xs: seq<Elem>) {
    xs == [] || (ElemNumbered(ctx, xs[0]) && AllNumbered(ctx, xs[1..]))
  }

  /** That can be told without the namespaces when no count uses a name. */
  predicate Counted(d: DataExpr) {
    match d
    case DPackage(_, num, elems) => num == |elems| && AllCounted(elems)
    case DVarPackage(_, count, elems) => Constant(count) && Count(count) % 256 == |elems| && AllCounted(elems)
    case _ => true
  }

  predicate ElemCounted(x: Elem) {
    match x
    case DataElem(d) => Counted(d)
    case NameElem(_) => true
  }

  predicate AllCounted(xs: seq<Elem>) {
    xs == [] || (ElemCounted(xs[0]) && AllCounted(xs[1..]))
  }

  /** An expression without names. */
  predicate Constant(e: Expr) {
    match e
    case Plain(_) => true
    case Number(_, _) => true
    case NameRef(_) => false
    case Not(e1) => Constant(e1)
    case Op2(_, a, b) => Constant(a) && Constant(b)
  }

  function NoNames(): Env {
    key => None
  }

  lemma {:induction false} ConstantEval(env: Env, e: Expr)
    requires Constant(e)
    ensures Eval(env, e).Some? && Eval(env, e) == Eval(NoNames(), e)
    decreases e
  {
    match e {
      case Not(e1) => ConstantEval(env, e1);
      case Op2(_, a, b) =>
        ConstantEval(env, a);
        ConstantEval(env, b);
      case _ =>
    }
  }

  function Count(e: Expr): nat
    requires Constant(e)
  {
    ConstantEval(NoNames(), e);
    Eval(NoNames(), e).value
  }

  // --------------------------------------------------------- one data object alone

  lemma {:induction false} ZeroAt(m: seq<Byte>, p: nat, q: nat)
    requires p <= q < |m| && m[q] == 0 && forall i :: p <= i < q ==> m[i] != 0
    ensures ZeroFrom(m, p) == q
  {
    var z := ZeroFrom(m, p);
    assert z < |m| ==> m[z] == 0;
  }

  lemma {:induction false} StringReads(m: seq<Byte>, ctx: Ctx, p: nat, chars: seq<Byte>)
    requires (forall i :: 0 <= i < |chars| ==> chars[i] != 0) && Stands(m, p, [STRING_PREFIX] + (chars + [0]))
    ensures ParseData(m, ctx, p) == Ok(StrData(chars + [0]), p + 2 + |chars|)
  {
    OpStands(m, p, STRING_PREFIX, chars + [0]);
    StandsSlice(m, p + 1, chars + [0]);
    StandsSplit(m, p + 1, chars, [0]);
    StandsAt(m, p + 1 + |chars|, [0], 0);
    forall i | p + 1 <= i < p + 1 + |chars| ensures m[i] != 0 {
      StandsAt(m, p + 1, chars, i - p - 1);
    }
    ZeroAt(m, p + 1, p + 1 + |chars|);
  }

  lemma {:induction false} BufferStep(m: seq<Byte>, ctx: Ctx, p: nat, len: nat, q: nat, b: nat, bytes: seq<Byte>)
    requires p < |m| && m[p] == BUFFER_OP && ParseLength(m, p + 1) == Ok(len, q)
    requires TermArg(m, ctx.value, q) == Ok(|bytes|, b) && Stands(m, b, bytes)
    ensures ParseData(m, ctx, p) == Ok(BufData(bytes), b + |bytes|)
  {
    StandsSlice(m, b, bytes);
  }

  lemma {:induction false} NumberThen(m: seq<Byte>, env: Env, q: nat, op: Byte, bytes: seq<Byte>)
    requires Width(op) > 0 && |bytes| < Pow256(Width(op)) && Stands(m, q, EncodeExpr(Number(op, |bytes|)) + bytes)
    ensures TermArg(m, env, q) == Ok(|bytes|, q + 1 + Width(op)) && Stands(m, q + 1 + Width(op), bytes)
  {
    StandsSplit(m, q, EncodeExpr(Number(op, |bytes|)), bytes);
    ExprRoundTrip(m, env, q, Number(op, |bytes|));
  }

  lemma {:induction false} LengthStands(m: seq<Byte>, p: nat, op: Byte, n: nat, k: nat, rest: seq<Byte>, q: nat)
    requires LengthFits(n, k) && Stands(m, p, [op] + (EncodeLength(n, k) + rest)) && q == p + 2 + k
    ensures p < |m| && m[p] == op && ParseLength(m, p + 1) == Ok(n, q) && Stands(m, q, rest)
  {
    OpStands(m, p, op, EncodeLength(n, k) + rest);
    StandsSplit(m, p + 1, EncodeLength(n, k), rest);
    LengthRoundTrip(m, p + 1, n, k);
  }

  lemma {:induction false} BufferReads(m: seq<Byte>, ctx: Ctx, p: nat, k: nat, op: Byte, bytes: seq<Byte>, n: nat, q: nat, b: nat)
    requires Width(op) > 0 && |bytes| < Pow256(Width(op)) && LengthFits(n, k) && q == p + 2 + k && b == q + 1 + Width(op)
    requires Stands(m, p, [BUFFER_OP] + (EncodeLength(n, k) + (EncodeExpr(Number(op, |bytes|)) + bytes)))
    ensures ParseData(m, ctx, p) == Ok(BufData(bytes), b + |bytes|)
  {
    LengthStands(m, p, BUFFER_OP, n, k, EncodeExpr(Number(op, |bytes|)) + bytes, q);
    NumberThen(m, ctx.value, q, op, bytes);
    BufferStep(m, ctx, p, n, q, b, bytes);
  }

  lemma {:induction false} PlainReads(m: seq<Byte>, ctx: Ctx, p: nat, d: DataExpr)
    requires DataOk(d) && !d.DPackage? && !d.DVarPackage? && Stands(m, p, EncodeData(d))
    ensures ParseData(m, ctx, p) == Ok(DataValue(ctx, d), p + DataSize(d))
  {
    match d {
      case DPlain(op) => StandsAt(m, p, EncodeData(d), 0);
      case DNumber(op, v) =>
        OpStands(m, p, op, EncodeWord(v, DataWidth(op)));
        WordRoundTrip(m, p + 1, v, DataWidth(op));
      case DString(chars) => StringReads(m, ctx, p, chars);
      case DBuffer(k, op, bytes) =>
        BufferReads(m, ctx, p, k, op, bytes, k + 2 + Width(op) + |bytes|, p + 2 + k, p + 3 + k + Width(op));
    }
  }

  // ------------------------------------------------- where a data object stands

  /** An element that is no name is first tried as one, which takes four bytes. */
  const PEEK: nat := 4

  /** How much memory has to lie behind a data object for that. */
  function Look(d: DataExpr): nat {
    if d.DPackage? || d.DVarPackage? then PEEK - 1 else 0
  }

  predicate HasOp(m: seq<Byte>, p: nat) {
    p < |m| && (Simple(m[p]) || NumberPrefix(m[p]) || m[p] == STRING_PREFIX || m[p] == BUFFER_OP ||
                m[p] == PACKAGE_OP || m[p] == VAR_PACKAGE_OP)
  }

  /** A package of op at p holds its elements from e on. */
  predicate PackageAt(m: seq<Byte>, p: nat, op: Byte, q: nat) {
    p < |m| && m[p] == op && ParseLength(m, p + 1).Ok? && ParseLength(m, p + 1).pos == q
  }

  predicate DataAt(m: seq<Byte>, p: nat, d: DataExpr)
    requires DataOk(d)
    decreases d
  {
    match d
    case DPackage(k, num, elems) =>
      var q := p + k + 2;
      PackageAt(m, p, PACKAGE_OP, q) && q < |m| && m[q] == num && ElemsAt(m, q + 1, elems)
    case DVarPackage(k, count, elems) =>
      var q := p + k + 2;
      PackageAt(m, p, VAR_PACKAGE_OP, q) && ExprAt(m, q, count) && ElemsAt(m, q + Size(count), elems)
    case _ => Stands(m, p, EncodeData(d))
  }

  predicate ElemAt(m: seq<Byte>, p: nat, x: Elem)
    requires ElemOk(x)
    decreases x
  {
    match x
    case DataElem(d) => p + PEEK <= |m| && HasOp(m, p) && DataAt(m, p, d)
    case NameElem(name) => ParseName(m, p) == Ok(Chars(name), p + NameSize(name))
  }

  predicate ElemsAt(m: seq<Byte>, p: nat, xs: seq<Elem>)
    requires ElemsOk(xs)
    decreases xs
  {
    p <= |m| && (xs == [] || (ElemAt(m, p, xs[0]) && ElemsAt(m, p + ElemSize(xs[0]), xs[1..])))
  }

  lemma PackageStands(m: seq<Byte>, p: nat, k: nat, bytes: seq<Byte>)
    requires PackageFits(k, |bytes|) && Stands(m, p, Package(k, bytes))
    ensures ParseLength(m, p) == Ok(k + 1 + |bytes|, p + k + 1) && Stands(m, p + k + 1, bytes)
  {
    StandsSplit(m, p, EncodeLength(k + 1 + |bytes|, k), bytes);
    LengthRoundTrip(m, p, k + 1 + |bytes|, k);
  }

  lemma NameThen(m: seq<Byte>, p: nat, name: Name, rest: seq<Byte>, e: nat)
    requires NameOk(name) && Stands(m, p, EncodeName(name) + rest) && e == p + NameSize(name)
    ensures ParseName(m, p) == Ok(Chars(name), e) && Stands(m, e, rest)
  {
    StandsSplit(m, p, EncodeName(name), rest);
    NameRoundTrip(m, p, name);
  }

  lemma {:induction false} OpOfData(m: seq<Byte>, p: nat, d: DataExpr)
    requires DataOk(d) && Stands(m, p, EncodeData(d))
    ensures HasOp(m, p)
  {
    StandsAt(m, p, EncodeData(d), 0);
  }

  lemma {:induction false} FixedStands(m: seq<Byte>, p: nat, k: nat, num: Byte, bytes: seq<Byte>, q: nat)
    requires PackageFits(k, 1 + |bytes|) && Stands(m, p, [PACKAGE_OP] + Package(k, [num] + bytes)) && q == p + k + 2
    ensures PackageAt(m, p, PACKAGE_OP, q) && q < |m| && m[q] == num && Stands(m, q + 1, bytes)
  {
    OpStands(m, p, PACKAGE_OP, Package(k, [num] + bytes));
    PackageStands(m, p + 1, k, [num] + bytes);
    OpStands(m, q, num, bytes);
  }

  lemma {:induction false} CountStands(m: seq<Byte>, q: nat, count: Expr, bytes: seq<Byte>)
    requires ExprOk(count) && Stands(m, q, EncodeExpr(count) + bytes)
    ensures ExprAt(m, q, count) && Stands(m, q + Size(count), bytes)
  {
    SizeOfEncoding(count);
    StandsSplit(m, q, EncodeExpr(count), bytes);
    StandsExpr(m, q, count);
  }

  lemma {:induction false} PackageHead(m: seq<Byte>, p: nat, op: Byte, k: nat, bytes: seq<Byte>, q: nat)
    requires PackageFits(k, |bytes|) && q == p + k + 2 && Stands(m, p, [op] + Package(k, bytes))
    ensures PackageAt(m, p, op, q) && Stands(m, q, bytes)
  {
    OpStands(m, p, op, Package(k, bytes));
    PackageStands(m, p + 1, k, bytes);
  }

  /** An encoded data object, with memory enough behind it, puts each of its parts where
      the reader will look. */
  lemma {:induction false} DataStands(m: seq<Byte>, p: nat, d: DataExpr)
    requires DataOk(d) && Stands(m, p, EncodeData(d)) && p + DataSize(d) + Look(d) <= |m|
    ensures DataAt(m, p, d)
    decreases d, 0
  {
    match d {
      case DPackage(_, _, _) => FixedPackageStands(m, p, d, p + d.k + 2);
      case DVarPackage(_, _, _) => VarPackageStands(m, p, d, p + d.k + 2, p + d.k + 2 + Size(d.count));
      case _ =>
    }
  }

  lemma {:induction false} FixedPackageStands(m: seq<Byte>, p: nat, d: DataExpr, q: nat)
    requires d.DPackage? && DataOk(d) && Stands(m, p, EncodeData(d)) && p + DataSize(d) + Look(d) <= |m| && q == p + d.k + 2
    ensures DataAt(m, p, d)
    decreases d.elems, 1
  {
    FixedStands(m, p, d.k, d.num, EncodeElems(d.elems), q);
    ElemsStand(m, q + 1, d.elems);
  }

  lemma {:induction false} VarPackageStands(m: seq<Byte>, p: nat, d: DataExpr, q: nat, e: nat)
    requires d.DVarPackage? && DataOk(d) && Stands(m, p, EncodeData(d)) && p + DataSize(d) + Look(d) <= |m|
    requires q == p + d.k + 2 && e == q + Size(d.count)
    ensures DataAt(m, p, d)
    decreases d.elems, 2
  {
    VarEncoding(d);
    PackageHead(m, p, VAR_PACKAGE_OP, d.k, EncodeExpr(d.count) + EncodeElems(d.elems), q);
    VarBodyStands(m, d.count, d.elems, q, e);
    VarAt(m, p, d, q, e);
  }

  lemma {:induction false} VarBodyStands(m: seq<Byte>, count: Expr, elems: seq<Elem>, q: nat, e: nat)
    requires ExprOk(count) && ElemsOk(elems) && Stands(m, q, EncodeExpr(count) + EncodeElems(elems))
    requires e == q + Size(count) && e + ElemsSize(elems) + PEEK - 1 <= |m|
    ensures ExprAt(m, q, count) && ElemsAt(m, e, elems)
    decreases elems, 1
  {
    CountStands(m, q, count, EncodeElems(elems));
    ElemsStand(m, e, elems);
  }

  lemma {:induction false} VarEncoding(d: DataExpr)
    requires d.DVarPackage? && DataOk(d)
    ensures ExprOk(d.count) && ElemsOk(d.elems) && PackageFits(d.k, |EncodeExpr(d.count)| + |EncodeElems(d.elems)|)
    ensures EncodeData(d) == [VAR_PACKAGE_OP] + Package(d.k, EncodeExpr(d.count) + EncodeElems(d.elems))
    ensures DataSize(d) + Look(d) == d.k + 2 + Size(d.count) + ElemsSize(d.elems) + PEEK - 1
  {
    SizeOfEncoding(d.count);
  }

  lemma {:induction false} VarAt(m: seq<Byte>, p: nat, d: DataExpr, q: nat, e: nat)
    requires d.DVarPackage? && DataOk(d) && q == p + d.k + 2 && e == q + Size(d.count)
    requires PackageAt(m, p, VAR_PACKAGE_OP, q) && ExprAt(m, q, d.count) && ElemsAt(m, e, d.elems)
    ensures DataAt(m, p, d)
  {
  }

  lemma {:induction false} ElemStands(m: seq<Byte>, p: nat, x: Elem)
    requires ElemOk(x) && Stands(m, p, EncodeElem(x)) && p + ElemSize(x) + PEEK - 1 <= |m|
    ensures ElemAt(m, p, x)
    decreases x, 0
  {
    match x {
      case DataElem(d) =>
        OpOfData(m, p, d);
        DataStands(m, p, d);
      case NameElem(name) => NameRoundTrip(m, p, name);
    }
  }

  lemma {:induction false} ElemsSplit(m: seq<Byte>, p: nat, xs: seq<Elem>, q: nat)
    requires xs != [] && ElemsOk(xs) && Stands(m, p, EncodeElems(xs)) && q == p + ElemSize(xs[0])
    ensures ElemOk(xs[0]) && ElemsOk(xs[1..]) && Stands(m, p, EncodeElem(xs[0])) && Stands(m, q, EncodeElems(xs[1..]))
    ensures p + ElemsSize(xs) == q + ElemsSize(xs[1..])
  {
    ElemsUnfold(xs);
    StandsParts(m, p, EncodeElems(xs), EncodeElem(xs[0]), EncodeElems(xs[1..]), q);
  }

  lemma {:induction false} ElemsUnfold(xs: seq<Elem>)
    requires xs != [] && ElemsOk(xs)
    ensures ElemOk(xs[0]) && ElemsOk(xs[1..]) && EncodeElems(xs) == EncodeElem(xs[0]) + EncodeElems(xs[1..])
    ensures ElemsSize(xs) == ElemSize(xs[0]) + ElemsSize(xs[1..]) && |EncodeElem(xs[0])| == ElemSize(xs[0])
  {
  }

  lemma {:induction false} ElemsStand(m: seq<Byte>, p: nat, xs: seq<Elem>)
    requires ElemsOk(xs) && Stands(m, p, EncodeElems(xs)) && p + ElemsSize(xs) + PEEK - 1 <= |m|
    ensures ElemsAt(m, p, xs)
    decreases xs, 0
  {
    if xs != [] {
      var q := p + ElemSize(xs[0]);
      ElemsSplit(m, p, xs, q);
      ElemStands(m, p, xs[0]);
      ElemsStand(m, q, xs[1..]);
    }
  }

  // ------------------------------------------------------------- reading it back

  /** r is v, read up to end, if d is exact.  If not, it is not v; and if at least the
      numbers are right, there is no result. */
  predicate Reads<T(==)>(r: Read<T>, v: T, end: nat, exact: bool, numbered: bool) {
    if exact then r == Ok(v, end) else (r.Ok? ==> r.value != v && !numbered)
  }

  /** No data object reads as a name. */
  lemma {:induction false} NotAName(m: seq<Byte>, ctx: Ctx, p: nat)
    requires HasOp(m, p) && p + PEEK <= |m|
    ensures Element(m, ctx, p) == ParseData(m, ctx, p)
  {
    var r := ParseName(m, p);
    assert SkipPrefix(m, p) == p;
    if m[p] == 0 {
      assert r == ParseBody(m, [], p) == Segments(m, [], p + 1, 0);
      assert r.value == [] + m[p + 1..p + 1] == [];
    } else {
      assert r == ParseBody(m, [], p) == Segments(m, [], p, 1);
      assert r.value == [] + m[p..p + 4] && r.value[0] == m[p];
      assert !CharOk(r.value, 0);
    }
  }

  lemma {:induction false} NameElemReads(m: seq<Byte>, ctx: Ctx, p: nat, name: Name, q: nat)
    requires NameOk(name) && ValidName(Chars(name)) && Chars(name) != [] && ParseName(m, p) == Ok(Chars(name), q) && p <= |m|
    ensures Reads(Element(m, ctx, p), ElemValue(ctx, NameElem(name)), q, ElemExact(ctx, NameElem(name)), true)
  {
  }

  lemma {:induction false} PackageStep(m: seq<Byte>, ctx: Ctx, p: nat, op: Byte, q: nat, count: nat, e: nat, r: Read<seq<Data>>)
    requires (op == PACKAGE_OP || op == VAR_PACKAGE_OP) && PackageAt(m, p, op, q)
    requires ElementCount(m, ctx, op, q) == Ok(count, e) && r == Elements(m, ctx, e, count)
    ensures ParseData(m, ctx, p) == match r case Fault => Fault case Ok(ds, f) => Ok(PkgData(ds), f)
  {
  }

  lemma {:induction false} CountFaults(m: seq<Byte>, ctx: Ctx, p: nat, q: nat)
    requires PackageAt(m, p, VAR_PACKAGE_OP, q) && ElementCount(m, ctx, VAR_PACKAGE_OP, q).Fault?
    ensures ParseData(m, ctx, p).Fault?
  {
  }

  /** A package whose elements start at e and are numbered as n. */
  lemma {:induction false} PackageReads(m: seq<Byte>, ctx: Ctx, p: nat, op: Byte, q: nat, n: nat, e: nat, xs: seq<Elem>, end: nat,
                                        v: Data, numbered: bool)
    requires (op == PACKAGE_OP || op == VAR_PACKAGE_OP) && PackageAt(m, p, op, q) && ElementCount(m, ctx, op, q) == Ok(n, e)
    requires v == PkgData(ElemValues(ctx, xs)) && (numbered ==> n == |xs|)
    requires n == |xs| ==> Reads(Elements(m, ctx, e, n), ElemValues(ctx, xs), end, AllExact(ctx, xs), numbered)
    ensures Reads(ParseData(m, ctx, p), v, end, n == |xs| && AllExact(ctx, xs), numbered)
  {
    PackageStep(m, ctx, p, op, q, n, e, Elements(m, ctx, e, n));
  }

  lemma {:induction false} DataReads(m: seq<Byte>, ctx: Ctx, p: nat, d: DataExpr, end: nat)
    requires DataOk(d) && DataAt(m, p, d) && end == p + DataSize(d)
    ensures Reads(ParseData(m, ctx, p), DataValue(ctx, d), end, Exact(ctx, d), Numbered(ctx, d))
    decreases d, 0
  {
    match d {
      case DPackage(k, num, elems) =>
        var q := p + k + 2;
        if num == |elems| { ElemsRead(m, ctx, q + 1, elems, end); }
        PackageReads(m, ctx, p, PACKAGE_OP, q, num, q + 1, elems, end, DataValue(ctx, d), Numbered(ctx, d));
      case DVarPackage(k, count, elems) =>
        var q := p + k + 2;
        var e, v := q + Size(count), Eval(ctx.value, count);
        VariableParts(m, p, d, q, e, end);
        VariableJudged(ctx, d, v);
        CountReads(m, ctx, q, count, e);
        VariableReads(m, ctx, p, q, v, e, elems, end, Numbered(ctx, d));
      case _ => PlainReads(m, ctx, p, d);
    }
  }

  lemma {:induction false} CountReads(m: seq<Byte>, ctx: Ctx, q: nat, count: Expr, e: nat)
    requires ExprOk(count) && ExprAt(m, q, count) && e == q + Size(count)
    ensures ElementCount(m, ctx, VAR_PACKAGE_OP, q) ==
            match Eval(ctx.value, count) case None => Fault case Some(v) => Ok(v % 256, e)
  {
    ExprReads(m, ctx.value, q, count);
  }

  lemma {:induction false} VariableParts(m: seq<Byte>, p: nat, d: DataExpr, q: nat, e: nat, end: nat)
    requires d.DVarPackage? && DataOk(d) && DataAt(m, p, d) && q == p + d.k + 2 && e == q + Size(d.count) && end == p + DataSize(d)
    ensures PackageAt(m, p, VAR_PACKAGE_OP, q) && ExprOk(d.count) && ExprAt(m, q, d.count)
    ensures ElemsOk(d.elems) && ElemsAt(m, e, d.elems) && end == e + ElemsSize(d.elems)
  {
  }

  lemma {:induction false} VariableJudged(ctx: Ctx, d: DataExpr, v: Option<nat>)
    requires d.DVarPackage? && v == Eval(ctx.value, d.count)
    ensures Exact(ctx, d) <==> v.Some? && v.value % 256 == |d.elems| && AllExact(ctx, d.elems)
    ensures Numbered(ctx, d) && v.Some? ==> v.value % 256 == |d.elems| && AllNumbered(ctx, d.elems)
    ensures DataValue(ctx, d) == PkgData(ElemValues(ctx, d.elems))
  {
  }

  /** A package with its number of elements as an expression worth v. */
  lemma {:induction false} VariableReads(m: seq<Byte>, ctx: Ctx, p: nat, q: nat, v: Option<nat>, e: nat, xs: seq<Elem>, end: nat,
                                         numbered: bool)
    requires PackageAt(m, p, VAR_PACKAGE_OP, q) && ElemsOk(xs) && ElemsAt(m, e, xs) && end == e + ElemsSize(xs)
    requires ElementCount(m, ctx, VAR_PACKAGE_OP, q) == match v case None => Fault case Some(n) => Ok(n % 256, e)
    requires numbered && v.Some? ==> v.value % 256 == |xs| && AllNumbered(ctx, xs)
    ensures Reads(ParseData(m, ctx, p), PkgData(ElemValues(ctx, xs)), end,
                  v.Some? && v.value % 256 == |xs| && AllExact(ctx, xs), numbered)
    decreases xs, 2
  {
    match v {
      case None => CountFaults(m, ctx, p, q);
      case Some(n) =>
        if n % 256 == |xs| { ElemsRead(m, ctx, e, xs, end); }
        PackageReads(m, ctx, p, VAR_PACKAGE_OP, q, n % 256, e, xs, end, PkgData(ElemValues(ctx, xs)), numbered);
    }
  }

  lemma {:induction false} ElemReads(m: seq<Byte>, ctx: Ctx, p: nat, x: Elem, end: nat)
    requires ElemOk(x) && ElemAt(m, p, x) && end == p + ElemSize(x) && p <= |m|
    ensures Reads(Element(m, ctx, p), ElemValue(ctx, x), end, ElemExact(ctx, x), ElemNumbered(ctx, x))
    decreases x, 0
  {
    match x {
      case DataElem(d) =>
        NotAName(m, ctx, p);
        DataReads(m, ctx, p, d, end);
      case NameElem(name) => NameElemReads(m, ctx, p, name, end);
    }
  }

  lemma {:induction false} ElemsStep(m: seq<Byte>, ctx: Ctx, p: nat, count: nat, h: Read<Data>, r: Read<seq<Data>>)
    requires p <= |m| && count > 0 && h == Element(m, ctx, p) && (h.Ok? ==> r == Elements(m, ctx, h.pos, count - 1))
    ensures Elements(m, ctx, p, count) ==
            if h.Fault? || r.Fault? then Fault else Ok([h.value] + r.value, r.pos)
  {
  }

  lemma {:induction false} ElemsRead(m: seq<Byte>, ctx: Ctx, p: nat, xs: seq<Elem>, end: nat)
    requires ElemsOk(xs) && ElemsAt(m, p, xs) && end == p + ElemsSize(xs)
    ensures Reads(Elements(m, ctx, p, |xs|), ElemValues(ctx, xs), end, AllExact(ctx, xs), AllNumbered(ctx, xs))
    decreases xs, 1
  {
    if xs == [] {
      NoElements(m, ctx, p);
    } else {
      var q, h := p + ElemSize(xs[0]), Element(m, ctx, p);
      HeadRead(m, ctx, p, xs, q, end, h);
      var r := if h.Ok? then Elements(m, ctx, h.pos, |xs| - 1) else Fault;
      if ElemExact(ctx, xs[0]) { TailRead(m, ctx, p, xs, q, end); }
      ElemsStep(m, ctx, p, |xs|, h, r);
      ElemsJoin(ctx, xs, q, end, h, r, Elements(m, ctx, p, |xs|));
    }
  }

  lemma {:induction false} HeadRead(m: seq<Byte>, ctx: Ctx, p: nat, xs: seq<Elem>, q: nat, end: nat, h: Read<Data>)
    requires xs != [] && ElemsOk(xs) && ElemsAt(m, p, xs) && q == p + ElemSize(xs[0]) && end == p + ElemsSize(xs)
    requires h == Element(m, ctx, p)
    ensures Reads(h, ElemValue(ctx, xs[0]), q, ElemExact(ctx, xs[0]), ElemNumbered(ctx, xs[0]))
    decreases xs, 0
  {
    ElemsParts(m, p, xs, q, end);
    ElemReads(m, ctx, p, xs[0], q);
  }

  lemma {:induction false} TailRead(m: seq<Byte>, ctx: Ctx, p: nat, xs: seq<Elem>, q: nat, end: nat)
    requires xs != [] && ElemsOk(xs) && ElemsAt(m, p, xs) && q == p + ElemSize(xs[0]) && end == p + ElemsSize(xs)
    ensures q <= |m|
    ensures Reads(Elements(m, ctx, q, |xs| - 1), ElemValues(ctx, xs[1..]), end, AllExact(ctx, xs[1..]), AllNumbered(ctx, xs[1..]))
    decreases xs, 0
  {
    ElemsParts(m, p, xs, q, end);
    ElemsRead(m, ctx, q, xs[1..], end);
  }

  lemma {:induction false} NoElements(m: seq<Byte>, ctx: Ctx, p: nat)
    requires p <= |m|
    ensures Elements(m, ctx, p, 0) == Ok(ElemValues(ctx, []), p)
  {
  }

  lemma {:induction false} ElemsParts(m: seq<Byte>, p: nat, xs: seq<Elem>, q: nat, end: nat)
    requires xs != [] && ElemsOk(xs) && ElemsAt(m, p, xs) && q == p + ElemSize(xs[0]) && end == p + ElemsSize(xs)
    ensures p <= |m| && ElemOk(xs[0]) && ElemAt(m, p, xs[0])
    ensures ElemsOk(xs[1..]) && ElemsAt(m, q, xs[1..]) && end == q + ElemsSize(xs[1..])
  {
  }

  lemma {:induction false} ElemsJoin(ctx: Ctx, xs: seq<Elem>, q: nat, end: nat, h: Read<Data>, r: Read<seq<Data>>, whole: Read<seq<Data>>)
    requires xs != [] && whole == if h.Fault? || r.Fault? then Fault else Ok([h.value] + r.value, r.pos)
    requires Reads(h, ElemValue(ctx, xs[0]), q, ElemExact(ctx, xs[0]), ElemNumbered(ctx, xs[0]))
    requires ElemExact(ctx, xs[0]) ==> Reads(r, ElemValues(ctx, xs[1..]), end, AllExact(ctx, xs[1..]), AllNumbered(ctx, xs[1..]))
    ensures Reads(whole, ElemValues(ctx, xs), end, AllExact(ctx, xs), AllNumbered(ctx, xs))
  {
    var v, vs := ElemValue(ctx, xs[0]), ElemValues(ctx, xs[1..]);
    assert ElemValues(ctx, xs) == [v] + vs;
    if h.Ok? && r.Ok? {
      assert ([h.value] + r.value)[0] == h.value && ([h.value] + r.value)[1..] == r.value;
      assert ([v] + vs)[0] == v && ([v] + vs)[1..] == vs;
    }
  }

  /** parse_data_object reads an encoded data object, and stops right behind it, if and
      only if that is exact.  When only the numbers are right it stops the program. */
  lemma {:induction false} DataReadsIff(m: seq<Byte>, ctx: Ctx, p: nat, d: DataExpr)
    requires DataOk(d) && Stands(m, p, EncodeData(d)) && p + DataSize(d) + Look(d) <= |m|
    ensures ParseData(m, ctx, p) == Ok(DataValue(ctx, d), p + |EncodeData(d)|) <==> Exact(ctx, d)
    ensures Numbered(ctx, d) && !Exact(ctx, d) ==> ParseData(m, ctx, p) == Fault
  {
    DataStands(m, p, d);
    DataReads(m, ctx, p, d, p + DataSize(d));
  }

  /** Two elements that are both OneOp. */
  function TwoOnes(): (xs: seq<Elem>)
    ensures |xs| == 2 && xs[0] == xs[1] == DataElem(DPlain(ONE_OP))
  {
    [DataElem(DPlain(ONE_OP)), DataElem(DPlain(ONE_OP))]
  }

  lemma {:induction false} OnesEncoded()
    ensures ElemsOk(TwoOnes()) && ElemsSize(TwoOnes()) == 2 && EncodeElems(TwoOnes()) == [ONE_OP, ONE_OP]
  {
    var xs := TwoOnes();
    assert xs[1..][1..] == [] && xs[1..][0] == xs[0];
    assert ElemsOk(xs[1..][1..]) && ElemsSize(xs[1..][1..]) == 0 && EncodeElems(xs[1..][1..]) == [];
    assert ElemOk(xs[0]) && ElemSize(xs[0]) == 1 && EncodeElem(xs[0]) == [ONE_OP];
    assert ElemsOk(xs[1..]) && ElemsSize(xs[1..]) == 1;
    assert EncodeElems(xs[1..]) == [ONE_OP];
  }

  /** Counts without names are right wherever they are read. */
  lemma {:induction false} CountedIsNumbered(ctx: Ctx, d: DataExpr)
    requires Counted(d)
    ensures Numbered(ctx, d)
    decreases d
  {
    match d {
      case DPackage(_, _, elems) => AllCountedNumbered(ctx, elems);
      case DVarPackage(_, count, elems) =>
        ConstantEval(ctx.value, count);
        AllCountedNumbered(ctx, elems);
      case _ =>
    }
  }

  lemma {:induction false} AllCountedNumbered(ctx: Ctx, xs: seq<Elem>)
    requires AllCounted(xs)
    ensures AllNumbered(ctx, xs)
    decreases xs
  {
    if xs != [] {
      ElemCountedNumbered(ctx, xs[0]);
      AllCountedNumbered(ctx, xs[1..]);
    }
  }

  lemma {:induction false} ElemCountedNumbered(ctx: Ctx, x: Elem)
    requires ElemCounted(x)
    ensures ElemNumbered(ctx, x)
    decreases x
  {
    match x {
      case DataElem(d) => CountedIsNumbered(ctx, d);
      case NameElem(_) =>
    }
  }

  /** A package of two elements that says it has one is left one byte early. */
  lemma {:induction false} CountTooSmall(ctx: Ctx)
    ensures var d := DPackage(0, 1, TwoOnes());
            && DataOk(d) && EncodeData(d) == [PACKAGE_OP, 4, 1, ONE_OP, ONE_OP] && !Exact(ctx, d)
            && ParseData(EncodeData(d) + [0, 0, 0], ctx, 0) == Ok(PkgData([ByteData(1)]), 4)
  {
    OnesEncoded();
    var d := DPackage(0, 1, TwoOnes());
    assert EncodeLength(4, 0) == [4];
    assert EncodeData(d) == [PACKAGE_OP] + ([4] + ([1] + [ONE_OP, ONE_OP]));
    OneByteEarly(EncodeData(d) + [0, 0, 0], ctx, 3);
  }

  lemma {:induction false} OneByteEarly(m: seq<Byte>, ctx: Ctx, p: nat)
    requires m == [PACKAGE_OP, 4, 1, ONE_OP, ONE_OP, 0, 0, 0] && p == 3
    ensures ParseData(m, ctx, 0) == Ok(PkgData([ByteData(1)]), 4)
  {
    NotAName(m, ctx, p);
    assert ParseLength(m, 1) == Ok(4, 2);
    assert Element(m, ctx, p) == Ok(ByteData(1), 4);
    NoElements(m, ctx, 4);
    ElemsStep(m, ctx, p, 1, Element(m, ctx, p), Elements(m, ctx, 4, 0));
    assert ElementCount(m, ctx, PACKAGE_OP, 2) == Ok(1, p);
    assert [ByteData(1)] + [] == [ByteData(1)];
    PackageStep(m, ctx, 0, PACKAGE_OP, 2, 1, p, Elements(m, ctx, p, 1));
  }
}
