/**
 What the AML parser computes (lethe-aml/aml/helpers.c and defs.c), as functions
 of the memory, the namespaces and their cursors: integer arguments, data objects
 and term lists.  None stands for debug_exit, a failed assertion or a fault.
 */
module AmlTerms {
  import opened Wrappers
  import opened Fnv
  import opened AmlSyntax
  import opened AmlNames

  /** The table in memory, and what reading field `id` from the hardware gives. */
  datatype Table = Table(mem: seq<Byte>, io: nat -> nat)

  const ZERO_OP: Byte := 0x00
  const ONE_OP: Byte := 0x01
  const ONES_OP: Byte := 0xFF
  const BYTE_PREFIX: Byte := 0x0A
  const WORD_PREFIX: Byte := 0x0B
  const DWORD_PREFIX: Byte := 0x0C
  const STRING_PREFIX: Byte := 0x0D
  const QWORD_PREFIX: Byte := 0x0E
  const BUFFER_OP: Byte := 0x11
  const PACKAGE_OP: Byte := 0x12
  const VAR_PACKAGE_OP: Byte := 0x13
  const LAND_OP: Byte := 0x90
  const LNOT_OP: Byte := 0x92
  const LEQUAL_OP: Byte := 0x93
  const LGREATER_OP: Byte := 0x94
  const LLESS_OP: Byte := 0x95

  const ALL_ONES: nat := 0xFFFF_FFFF_FFFF_FFFF
  const SIZE_WORD: nat := 0x1_0000_0000_0000_0000

  // ------------------------------------------------------- little-endian words

  /** The number in k bytes at p, low byte first. */
  function ReadWord(m: seq<Byte>, p: nat, k: nat): (r: Read<nat>)
    ensures r.Ok? ==> r.pos == p + k <= |m|
    decreases k
  {
    if k == 0 then if p <= |m| then Ok(0, p) else Fault
    else if p >= |m| then Fault
    else
      match ReadWord(m, p + 1, k - 1)
      case Ok(v, q) => Ok(Fetch(m, p) + 256 * v, q)
      case Fault => Fault
  }

  function EncodeWord(v: nat, k: nat): (bs: seq<Byte>)
    ensures |bs| == k
  {
    if k == 0 then [] else [v % 256] + EncodeWord(v / 256, k - 1)
  }

  function Pow256(k: nat): nat {
    if k == 0 then 1 else 256 * Pow256(k - 1)
  }

  lemma {:induction false} WordRoundTrip(m: seq<Byte>, p: nat, v: nat, k: nat)
    requires v < Pow256(k) && Stands(m, p, EncodeWord(v, k))
    ensures ReadWord(m, p, k) == Ok(v, p + k)
    decreases k
  {
    if k > 0 {
      StandsAt(m, p, EncodeWord(v, k), 0);
      StandsSplit(m, p, [v % 256], EncodeWord(v / 256, k - 1));
      WordRoundTrip(m, p + 1, v / 256, k - 1);
    }
  }

  // --------------------------------------------------------- integer arguments

  function IntOf(t: Table, o: Obj): (r: Option<nat>) {
    match o
    case Var(ByteData(b)) => Some(b)
    case Var(ShortData(v)) => Some(v)
    case Var(IntData(d)) => Some(d)
    case Var(_) => None
    case Field(id) => Some(t.io(id))
    case Region(_, _, _) => Some(0)
    case Method(_, _, _, _) => Some(0)
  }

  /** The value of a name used as an integer. */
  function NameValue(t: Table, w: World, n: nat, key: Seg): (r: Option<nat>)
    requires Forest(w) && n < |w|
  {
    match Locate(w, n, key, false)
    case IsObj(o) => IntOf(t, o)
    case IsSpace(_) => None
    case Missing => None
    case Exit => None
  }

  function Truth(b: bool): nat {
    if b then 1 else 0
  }

  /** The binary operators of term_arg_to_int. */
  function Apply(op: Byte, a: nat, b: nat): nat {
    if op == LEQUAL_OP then Truth(a == b)
    else if op == LAND_OP then Truth(a != 0 && b != 0)
    else if op == LLESS_OP then Truth(a < b)
    else Truth(a > b)
  }

  predicate Binary(op: Byte) {
    op == LEQUAL_OP || op == LAND_OP || op == LLESS_OP || op == LGREATER_OP
  }

  /** What each name is worth as an integer, from where the reader stands. */
  type Env = Seg -> Option<nat>

  function EnvOf(t: Table, w: World, n: nat): Env
    requires Forest(w) && n < |w|
  {
    (key: Seg) => if Forest(w) && n < |w| then NameValue(t, w, n, key) else None
  }

  /** What each name is resolved to, from where the reader stands. */
  type Resolver = seq<Byte> -> Option<seq<Byte>>

  function ResolverOf(w: World, n: nat): Resolver
    requires Forest(w) && n < |w|
  {
    (key: seq<Byte>) => if Forest(w) && n < |w| then ResolveName(w, n, key) else None
  }

  /** All that the reader of a data object has to know of the namespaces. */
  datatype Ctx = Ctx(value: Env, resolve: Resolver)

  function CtxOf(t: Table, w: World, n: nat): Ctx
    requires Forest(w) && n < |w|
  {
    Ctx(EnvOf(t, w, n), ResolverOf(w, n))
  }

  /** ZeroOp, OneOp and OnesOp stand for themselves. */
  predicate Simple(op: Byte) {
    op == ZERO_OP || op == ONE_OP || op == ONES_OP
  }

  function SimpleValue(op: Byte): nat {
    if op == ZERO_OP then 0 else if op == ONE_OP then 1 else ALL_ONES
  }

  /** How many bytes of number follow the opcode, 0 if it is no number prefix. */
  function Width(op: Byte): nat {
    if op == BYTE_PREFIX then 1 else if op == WORD_PREFIX then 2 else if op == DWORD_PREFIX then 4 else 0
  }

  /** term_arg_to_int at position p. */
  function TermArg(m: seq<Byte>, env: Env, p: nat): (r: Read<nat>)
    ensures r.Ok? ==> p < r.pos <= |m|
    decreases |m| - p
  {
    if p >= |m| then Fault
    else
      var op := m[p];
      if Simple(op) then Ok(SimpleValue(op), p + 1)
      else if Width(op) > 0 then ReadWord(m, p + 1, Width(op))
      else if op == LNOT_OP then
        match TermArg(m, env, p + 1)
        case Ok(v, q) => Ok(Truth(v == 0), q)
        case Fault => Fault
      else if Binary(op) then
        match TermArg(m, env, p + 1)
        case Ok(a, q) => (match TermArg(m, env, q) case Ok(b, q') => Ok(Apply(op, a, b), q') case Fault => Fault)
        case Fault => Fault
      else if p + 4 > |m| then Fault
      else
        match env(m[p..p + 4])
        case Some(v) => Ok(v, p + 4)
        case None => Fault
  }

  /** Integer expressions: a plain opcode, a number with its prefix, a name, and the
      logical operators. */
  datatype Expr = Plain(code: Byte) | Number(prefix: Byte, v: nat) | NameRef(key: Seg)
                | Not(e: Expr) | Op2(op: Byte, left: Expr, right: Expr)

  predicate ExprOk(e: Expr) {
    match e
    case Plain(op) => Simple(op)
    case Number(op, v) => Width(op) > 0 && v < Pow256(Width(op))
    case NameRef(key) => LeadChar(key[0])
    case Not(e1) => ExprOk(e1)
    case Op2(op, a, b) => Binary(op) && ExprOk(a) && ExprOk(b)
  }

  function EncodeExpr(e: Expr): (bs: seq<Byte>)
    ensures |bs| > 0
  {
    match e
    case Plain(op) => [op]
    case Number(op, v) => [op] + EncodeWord(v, Width(op))
    case NameRef(key) => key
    case Not(e1) => [LNOT_OP] + EncodeExpr(e1)
    case Op2(op, a, b) => [op] + (EncodeExpr(a) + EncodeExpr(b))
  }

  function Both(op: Byte, a: Option<nat>, b: Option<nat>): Option<nat> {
    if a.Some? && b.Some? then Some(Apply(op, a.value, b.value)) else None
  }

  /** The value of an expression; None if a name in it has none. */
  function Eval(env: Env, e: Expr): (r: Option<nat>) {
    match e
    case Plain(op) => Some(SimpleValue(op))
    case Number(_, v) => Some(v)
    case NameRef(key) => env(key)
    case Not(e1) => (match Eval(env, e1) case Some(v) => Some(Truth(v == 0)) case None => None)
    case Op2(op, a, b) => Both(op, Eval(env, a), Eval(env, b))
  }

  function Result(v: Option<nat>, q: nat): Read<nat> {
    match v case Some(x) => Ok(x, q) case None => Fault
  }

  /** The memory spells out e from p on. */
  predicate ExprAt(m: seq<Byte>, p: nat, e: Expr)
    decreases e
  {
    p < |m| &&
    match e
    case Plain(op) => m[p] == op
    case Number(op, v) => m[p] == op && ReadWord(m, p + 1, Width(op)) == Ok(v, p + 1 + Width(op))
    case NameRef(key) => p + 4 <= |m| && m[p..p + 4] == key
    case Not(e1) => m[p] == LNOT_OP && ExprAt(m, p + 1, e1)
    case Op2(op, a, b) => m[p] == op && ExprAt(m, p + 1, a) && ExprAt(m, p + 1 + Size(a), b)
  }

  function Size(e: Expr): nat {
    match e
    case Plain(_) => 1
    case Number(op, _) => 1 + Width(op)
    case NameRef(_) => 4
    case Not(e1) => 1 + Size(e1)
    case Op2(_, a, b) => 1 + Size(a) + Size(b)
  }

  lemma OpStands(m: seq<Byte>, p: nat, op: Byte, xs: seq<Byte>)
    requires Stands(m, p, [op] + xs)
    ensures p < |m| && m[p] == op && Stands(m, p + 1, xs)
  {
    StandsAt(m, p, [op] + xs, 0);
    StandsSplit(m, p, [op], xs);
  }

  lemma {:induction false} StandsLeaf(m: seq<Byte>, p: nat, e: Expr)
    requires ExprOk(e) && Stands(m, p, EncodeExpr(e)) && !e.Not? && !e.Op2?
    ensures ExprAt(m, p, e)
  {
    match e {
      case Plain(op) => StandsAt(m, p, EncodeExpr(e), 0);
      case Number(op, v) =>
        OpStands(m, p, op, EncodeWord(v, Width(op)));
        WordRoundTrip(m, p + 1, v, Width(op));
      case NameRef(key) => StandsSlice(m, p, key);
    }
  }

  lemma {:induction false} SizeOfEncoding(e: Expr)
    requires ExprOk(e)
    ensures |EncodeExpr(e)| == Size(e)
    decreases e
  {
    match e {
      case Not(e1) => SizeOfEncoding(e1);
      case Op2(_, a, b) =>
        SizeOfEncoding(a);
        SizeOfEncoding(b);
      case _ =>
    }
  }

  lemma TwoStand(m: seq<Byte>, p: nat, op: Byte, xs: seq<Byte>, ys: seq<Byte>, q: nat)
    requires Stands(m, p, [op] + (xs + ys)) && q == p + 1 + |xs|
    ensures p < |m| && m[p] == op && Stands(m, p + 1, xs) && Stands(m, q, ys)
  {
    OpStands(m, p, op, xs + ys);
    StandsSplit(m, p + 1, xs, ys);
  }

  lemma {:induction false} StandsExpr(m: seq<Byte>, p: nat, e: Expr)
    requires ExprOk(e) && Stands(m, p, EncodeExpr(e))
    ensures ExprAt(m, p, e)
    decreases e
  {
    match e {
      case Not(e1) =>
        OpStands(m, p, LNOT_OP, EncodeExpr(e1));
        StandsExpr(m, p + 1, e1);
      case Op2(op, a, b) =>
        SizeOfEncoding(a);
        TwoStand(m, p, op, EncodeExpr(a), EncodeExpr(b), p + 1 + Size(a));
        StandsExpr(m, p + 1, a);
        StandsExpr(m, p + 1 + Size(a), b);
      case _ => StandsLeaf(m, p, e);
    }
  }

  lemma {:induction false} LeafReads(m: seq<Byte>, env: Env, p: nat, e: Expr)
    requires ExprOk(e) && ExprAt(m, p, e) && !e.Not? && !e.Op2?
    ensures TermArg(m, env, p) == Result(Eval(env, e), p + Size(e))
  {
  }

  lemma NotStep(m: seq<Byte>, env: Env, p: nat, v: Option<nat>, q: nat)
    requires p < |m| && m[p] == LNOT_OP && TermArg(m, env, p + 1) == Result(v, q)
    ensures TermArg(m, env, p) == Result(match v case Some(x) => Some(Truth(x == 0)) case None => None, q)
  {
  }

  lemma BinaryStep(m: seq<Byte>, env: Env, p: nat, a: Option<nat>, qa: nat, b: Option<nat>, qb: nat)
    requires p < |m| && Binary(m[p])
    requires TermArg(m, env, p + 1) == Result(a, qa) && TermArg(m, env, qa) == Result(b, qb)
    ensures TermArg(m, env, p) == Result(Both(m[p], a, b), qb)
  {
  }

  lemma {:induction false} ExprReads(m: seq<Byte>, env: Env, p: nat, e: Expr)
    requires ExprOk(e) && ExprAt(m, p, e)
    ensures TermArg(m, env, p) == Result(Eval(env, e), p + Size(e))
    decreases e, 1
  {
    match e {
      case Not(e1) =>
        ExprReads(m, env, p + 1, e1);
        NotStep(m, env, p, Eval(env, e1), p + 1 + Size(e1));
      case Op2(_, _, _) => Op2Reads(m, env, p, e, p + 1, p + 1 + Size(e.left), p + Size(e));
      case _ => LeafReads(m, env, p, e);
    }
  }

  /** The parts of a binary expression, where they stand. */
  lemma {:induction false} Op2Parts(m: seq<Byte>, p: nat, e: Expr, q: nat, r: nat, end: nat)
    requires ExprOk(e) && ExprAt(m, p, e) && e.Op2?
    requires q == p + 1 && r == p + 1 + Size(e.left) && end == p + Size(e)
    ensures p < |m| && m[p] == e.op && Binary(e.op) && ExprOk(e.left) && ExprOk(e.right)
    ensures ExprAt(m, q, e.left) && ExprAt(m, r, e.right) && r == q + Size(e.left) && end == r + Size(e.right)
  {
  }

  lemma {:induction false} PartReads(m: seq<Byte>, env: Env, q: nat, e: Expr, r: nat, whole: Expr)
    requires ExprOk(e) && ExprAt(m, q, e) && r == q + Size(e) && whole.Op2? && (e == whole.left || e == whole.right)
    ensures TermArg(m, env, q) == Result(Eval(env, e), r)
    decreases whole, 0, 0
  {
    ExprReads(m, env, q, e);
  }

  lemma {:induction false} Op2Reads(m: seq<Byte>, env: Env, p: nat, e: Expr, q: nat, r: nat, end: nat)
    requires ExprOk(e) && ExprAt(m, p, e) && e.Op2?
    requires q == p + 1 && r == p + 1 + Size(e.left) && end == p + Size(e)
    ensures TermArg(m, env, p) == Result(Eval(env, e), end)
    decreases e, 0, 1
  {
    Op2Parts(m, p, e, q, r, end);
    PartReads(m, env, q, e.left, r, e);
    PartReads(m, env, r, e.right, end, e);
    Op2Result(m, env, p, e, q, r, end);
  }

  lemma {:induction false} Op2Result(m: seq<Byte>, env: Env, p: nat, e: Expr, q: nat, r: nat, end: nat)
    requires e.Op2? && p < |m| && m[p] == e.op && Binary(e.op) && q == p + 1
    requires TermArg(m, env, q) == Result(Eval(env, e.left), r) && TermArg(m, env, r) == Result(Eval(env, e.right), end)
    ensures TermArg(m, env, p) == Result(Eval(env, e), end)
  {
    BinaryStep(m, env, p, Eval(env, e.left), r, Eval(env, e.right), end);
  }

  /** Evaluating the encoding of an expression gives the expression's value and
      stops exactly behind the encoding, whatever follows it. */
  lemma {:induction false} ExprRoundTrip(m: seq<Byte>, env: Env, p: nat, e: Expr)
    requires ExprOk(e) && Stands(m, p, EncodeExpr(e))
    ensures TermArg(m, env, p) == Result(Eval(env, e), p + |EncodeExpr(e)|)
  {
    SizeOfEncoding(e);
    StandsExpr(m, p, e);
    ExprReads(m, env, p, e);
  }
}
