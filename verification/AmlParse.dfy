/**
 The term-list parser (lethe-aml/aml/helpers.c and defs.c) as functions on the
 namespaces, each of which carries its own cursor.  Modelled terms: Name, Method,
 OperationRegion, IndexField, Scope, Device, Processor and Alias; None stands for
 anything that does not return.
 */
module AmlParse {
  import opened Wrappers
  import opened Fnv
  import opened AmlSyntax
  import opened AmlNames
  import opened AmlTerms

  const ALIAS_OP: Byte := 0x06
  const NAME_OP: Byte := 0x08
  const SCOPE_OP: Byte := 0x10
  const METHOD_OP: Byte := 0x14
  const EXT_PREFIX: Byte := 0x5B
  const EXT_OP_REGION: Byte := 0x80
  const EXT_DEVICE: Byte := 0x82
  const EXT_PROCESSOR: Byte := 0x83
  const EXT_INDEX_FIELD: Byte := 0x86

  // -------------------------------------------------------------- data objects

  /** The position of the first zero byte from p on, |m| if there is none. */
  function ZeroFrom(m: seq<Byte>, p: nat): (q: nat)
    requires p <= |m|
    ensures p <= q <= |m| && (q < |m| ==> m[q] == 0) && forall i :: p <= i < q ==> m[i] != 0
    decreases |m| - p
  {
    if p == |m| || m[p] == 0 then p else ZeroFrom(m, p + 1)
  }

  /** How much memory lies before p. */
  function Ahead(m: seq<Byte>, p: nat): nat {
    if p < |m| then |m| - p else 0
  }

  /** parse_data_object. */
  function ParseData(m: seq<Byte>, ctx: Ctx, p: nat): (r: Read<Data>)
    ensures r.Ok? ==> p < r.pos <= |m|
    decreases Ahead(m, p), 0
  {
    if p >= |m| then Fault
    else
      var op := m[p];
      if Simple(op) then Ok(SimpleData(op), p + 1)
      else if NumberPrefix(op) then ParseNumber(m, op, p + 1)
      else if op == STRING_PREFIX then ParseString(m, p + 1)
      else if op == BUFFER_OP then ParseBuffer(m, ctx.value, p + 1)
      else if op == PACKAGE_OP || op == VAR_PACKAGE_OP then ParsePackage(m, ctx, op, p + 1)
      else Fault
  }

  /** The cases of a package: its length, which is not looked at any more, how many
      elements there are, and those. */
  function ParsePackage(m: seq<Byte>, ctx: Ctx, op: Byte, p: nat): (r: Read<Data>)
    ensures r.Ok? ==> p < r.pos <= |m|
    decreases Ahead(m, p), 3
  {
    match ParseLength(m, p)
    case Fault => Fault
    case Ok(_, q) =>
      match ElementCount(m, ctx, op, q)
      case Fault => Fault
      case Ok(count, e) =>
        match Elements(m, ctx, e, count)
        case Fault => Fault
        case Ok(elements, f) => Ok(PkgData(elements), f)
  }

  /** num_elements, which is a byte. */
  function ElementCount(m: seq<Byte>, ctx: Ctx, op: Byte, p: nat): (r: Read<nat>)
    ensures r.Ok? ==> p < r.pos <= |m|
  {
    if op == PACKAGE_OP then if p < |m| then Ok(Fetch(m, p), p + 1) else Fault
    else match TermArg(m, ctx.value, p) case Fault => Fault case Ok(v, e) => Ok(v % 256, e)
  }

  /** populate_package. */
  function Elements(m: seq<Byte>, ctx: Ctx, p: nat, count: nat): (r: Read<seq<Data>>)
    requires p <= |m|
    ensures r.Ok? ==> p <= r.pos <= |m| && |r.value| == count
    decreases Ahead(m, p), 2
  {
    if count == 0 then Ok([], p)
    else
      match Element(m, ctx, p)
      case Fault => Fault
      case Ok(d, q) =>
        match Elements(m, ctx, q, count - 1)
        case Fault => Fault
        case Ok(ds, e) => Ok([d] + ds, e)
  }

  /** One element: what reads as a name is one, and anything else a data object. */
  function Element(m: seq<Byte>, ctx: Ctx, p: nat): (r: Read<Data>)
    requires p <= |m|
    ensures r.Ok? ==> p < r.pos <= |m|
    decreases Ahead(m, p), 1
  {
    match ParseName(m, p)
    case Fault => Fault
    case Ok(name, q) =>
      if !ValidName(name) || name == [] then ParseData(m, ctx, p)
      else match ctx.resolve(name) case None => Fault case Some(full) => Ok(RefData(full), q)
  }

  function SimpleData(op: Byte): Data {
    ByteData(if op == ZERO_OP then 0 else if op == ONE_OP then 1 else 0xFF)
  }

  predicate NumberPrefix(op: Byte) {
    op == BYTE_PREFIX || op == WORD_PREFIX || op == DWORD_PREFIX || op == QWORD_PREFIX
  }

  function ParseNumber(m: seq<Byte>, op: Byte, p: nat): (r: Read<Data>)
    ensures r.Ok? ==> p < r.pos <= |m|
  {
    match ReadWord(m, p, DataWidth(op))
    case Ok(v, q) => Ok(NumberData(op, v), q)
    case Fault => Fault
  }

  function ParseString(m: seq<Byte>, p: nat): (r: Read<Data>)
    requires p <= |m|
    ensures r.Ok? ==> p < r.pos <= |m|
  {
    var z := ZeroFrom(m, p);
    if z == |m| then Fault else Ok(StrData(m[p..z + 1]), z + 1)
  }

  function ParseBuffer(m: seq<Byte>, env: Env, p: nat): (r: Read<Data>)
    ensures r.Ok? ==> p < r.pos <= |m|
  {
    match ParseLength(m, p)
    case Fault => Fault
    case Ok(_, q) =>
      match TermArg(m, env, q)
      case Fault => Fault
      case Ok(size, b) => if b + size > |m| then Fault else Ok(BufData(m[b..b + size]), b + size)
  }

  function DataWidth(op: Byte): nat {
    if op == BYTE_PREFIX then 1 else if op == WORD_PREFIX then 2 else if op == DWORD_PREFIX then 4 else 8
  }

  function NumberData(op: Byte, v: nat): Data {
    if op == BYTE_PREFIX then ByteData(v)
    else if op == WORD_PREFIX then ShortData(v)
    else if op == DWORD_PREFIX then IntData(v)
    else LongData(v)
  }

  // ------------------------------------------------------- changes to the world

  function SetCode(w: World, n: nat, p: nat): World
    requires n < |w|
  {
    w[n := w[n].(code := p)]
  }

  function AddChild(w: World, n: nat, key: Seg, o: Obj): World
    requires n < |w|
  {
    w[n := w[n].(children := w[n].children[key := o])]
  }

  /** create_namespace: the new namespace is number |w|. */
  function Create(w: World, parent: Option<nat>, name: Seg, code: nat): World
    requires parent.Some? ==> parent.value < |w|
  {
    var added := Space(parent, name, code, map[], map[]);
    match parent
    case None => w + [added]
    case Some(q) => w[q := w[q].(namespaces := w[q].namespaces[name := |w|])] + [added]
  }

  /** Namespace i keeps its place and name, and its cursor unless it is n. */
  predicate Kept(w: World, w': World, n: nat, i: nat) {
    && i < |w| && i < |w'| && w'[i].parent == w[i].parent && w'[i].name == w[i].name
    && (i != n ==> w'[i].code == w[i].code)
  }

  /** Namespaces are only ever added, and keep their place and name; no cursor
      moves, except perhaps that of namespace n. */
  predicate Grows(w: World, w': World, n: nat) {
    |w| <= |w'| && forall i {:trigger Kept(w, w', n, i)} :: 0 <= i < |w| ==> Kept(w, w', n, i)
  }

  lemma SetCodeKeeps(w: World, n: nat, p: nat)
    requires Forest(w) && n < |w|
    ensures Forest(SetCode(w, n, p)) && Grows(w, SetCode(w, n, p), n)
  {
    var w' := SetCode(w, n, p);
    forall i | 0 <= i < |w'| ensures SpaceOk(w', i) {
      assert SpaceOk(w, i);
    }
  }

  lemma AddChildKeeps(w: World, n: nat, key: Seg, o: Obj)
    requires Forest(w) && n < |w|
    ensures Forest(AddChild(w, n, key, o)) && Grows(w, AddChild(w, n, key, o), |w|)
  {
    var w' := AddChild(w, n, key, o);
    forall i | 0 <= i < |w'| ensures SpaceOk(w', i) {
      assert SpaceOk(w, i);
    }
  }

  lemma CreateKeeps(w: World, parent: Option<nat>, name: Seg, code: nat)
    requires Forest(w) && (parent.Some? ==> parent.value < |w|)
    ensures Forest(Create(w, parent, name, code)) && Grows(w, Create(w, parent, name, code), |w|)
    ensures |Create(w, parent, name, code)| == |w| + 1
  {
    var w' := Create(w, parent, name, code);
    forall i | 0 <= i < |w'| ensures SpaceOk(w', i) {
      if i < |w| { assert SpaceOk(w, i); }
    }
  }

  lemma GrowsTwice(w: World, w1: World, w2: World, n: nat, m: nat)
    requires Grows(w, w1, n) && Grows(w1, w2, m) && (m == n || m >= |w|)
    ensures Grows(w, w2, n)
  {
    forall i | 0 <= i < |w| ensures Kept(w, w2, n, i) {
      assert Kept(w, w1, n, i) && Kept(w1, w2, m, i);
    }
  }

  /** A cursor put back is a cursor kept. */
  lemma GrowsBack(w: World, w': World, s: nat)
    requires Grows(w, w', s) && s < |w| && w'[s].code == w[s].code
    ensures Grows(w, w', |w|)
  {
    forall i | 0 <= i < |w| ensures Kept(w, w', |w|, i) {
      assert Kept(w, w', s, i);
    }
  }

  lemma GrowsMore(w: World, w': World, n: nat)
    requires Grows(w, w', |w|)
    ensures Grows(w, w', n)
  {
    forall i | 0 <= i < |w| ensures Kept(w, w', n, i) {
      assert Kept(w, w', |w|, i);
    }
  }

  // ---------------------------------------------------- terms without a body

  /** What a handler leaves: more namespaces, and its own cursor further on. */
  predicate Handled(w: World, w': World, n: nat, p: nat)
    requires n < |w|
  {
    Forest(w') && Grows(w, w', n) && p <= w'[n].code
  }

  /** Add an object and move the cursor. */
  function Bind(w: World, n: nat, key: Seg, o: Obj, p: nat): (w': World)
    requires Forest(w) && n < |w|
    ensures Handled(w, w', n, p) && w'[n].code == p
  {
    SetCodeKeeps(w, n, p);
    AddChildKeeps(SetCode(w, n, p), n, key, o);
    AddChild(SetCode(w, n, p), n, key, o)
  }

  /** def_name. */
  function DefName(t: Table, w: World, n: nat, p: nat): (r: Option<World>)
    requires Forest(w) && n < |w|
    ensures r.Some? ==> Handled(w, r.value, n, p)
  {
    match ParseName(t.mem, p)
    case Fault => None
    case Ok(name, q) =>
      if |name| != 4 then None
      else
        match ParseData(t.mem, CtxOf(t, w, n), q)
        case Fault => None
        case Ok(d, e) => Some(Bind(w, n, name, Var(d), e))
  }

  /** def_op_region. */
  function DefOpRegion(t: Table, w: World, n: nat, p: nat): (r: Option<World>)
    requires Forest(w) && n < |w|
    ensures r.Some? ==> Handled(w, r.value, n, p)
  {
    match ParseName(t.mem, p)
    case Fault => None
    case Ok(name, q) => if |name| != 4 || q >= |t.mem| then None else RegionArgs(t, w, n, name, q)
  }

  /** The address space of a region at q, and behind it offset and length. */
  function RegionArgs(t: Table, w: World, n: nat, name: Seg, q: nat): (r: Option<World>)
    requires Forest(w) && n < |w| && q < |t.mem|
    ensures r.Some? ==> Handled(w, r.value, n, q)
  {
    var env := EnvOf(t, w, n);
    match TermArg(t.mem, env, q + 1)
    case Fault => None
    case Ok(offset, e) =>
      match TermArg(t.mem, env, e)
      case Fault => None
      case Ok(len, f) => Some(Bind(w, n, name, Region(Fetch(t.mem, q), offset, len), f))
  }

  /** def_alias. */
  function DefAlias(t: Table, w: World, n: nat, p: nat): (r: Option<World>)
    requires Forest(w) && n < |w|
    ensures r.Some? ==> Handled(w, r.value, n, p)
  {
    match ParseName(t.mem, p)
    case Fault => None
    case Ok(source, q) =>
      match ParseName(t.mem, q)
      case Fault => None
      case Ok(name, e) =>
        if |source| != 4 || |name| != 4 || source !in w[n].children then None
        else Some(Bind(w, n, name, w[n].children[source], e))
  }

  /** def_index_field and the Processor case: skip the package. */
  function DefSkip(t: Table, w: World, n: nat, p: nat): (r: Option<World>)
    requires Forest(w) && n < |w|
    ensures r.Some? ==> Handled(w, r.value, n, p)
  {
    match ParseLength(t.mem, p)
    case Fault => None
    case Ok(len, _) => SetCodeKeeps(w, n, p + len); Some(SetCode(w, n, p + len))
  }

  /** Where def_method files the method. */
  function MethodScope(w: World, n: nat, name: seq<Byte>): (r: Option<nat>)
    requires Forest(w) && n < |w| && |name| >= 4
    ensures r.Some? ==> r.value < |w|
  {
    if |name| <= 5 then
      assert SpaceOk(w, n);
      if name[0] == ROOT_CHAR then Some(0) else if name[0] == PARENT_CHAR then w[n].parent else Some(n)
    else
      match Locate(w, n, name[..|name| - 4], true)
      case IsSpace(s) => Some(s)
      case _ => None
  }

  /** A namespace of its own for a method, not filed with its parent. */
  function MethodSpace(w: World, scope: nat, key: Seg, flags: nat, len: nat, code: nat): (w': World)
    requires Forest(w) && scope < |w|
    ensures Forest(w') && Grows(w, w', |w|) && |w'| == |w| + 1
  {
    var w1 := w + [Space(Some(scope), key, code, map[], map[])];
    assert Forest(w1) by {
      forall i | 0 <= i < |w1| ensures SpaceOk(w1, i) {
        if i < |w| { assert SpaceOk(w, i); }
      }
    }
    AddChildKeeps(w1, scope, key, Method(flags, len, code, |w|));
    AddChild(w1, scope, key, Method(flags, len, code, |w|))
  }

  /** File a method under `key` in the scope its name leads to, and go on at `end`. */
  function FileMethod(w: World, n: nat, name: seq<Byte>, key: Seg, flags: nat, len: nat, code: nat, end: nat): (r: Option<World>)
    requires Forest(w) && n < |w| && |name| >= 4
    ensures r.Some? ==> Forest(r.value) && Grows(w, r.value, n) && r.value[n].code == end
  {
    match MethodScope(w, n, name)
    case None => None
    case Some(scope) =>
      var w1 := MethodSpace(w, scope, key, flags, len, code);
      SetCodeKeeps(w1, n, end);
      GrowsTwice(w, w1, SetCode(w1, n, end), n, n);
      Some(SetCode(w1, n, end))
  }

  /** How long the source takes a method's body to be: a size_t subtraction, which
      wraps around when the package is shorter than its own head. */
  function BodyLength(len: nat, head: nat): nat {
    if head <= len then len - head else (len - head) % SIZE_WORD
  }

  /** def_method. */
  function DefMethod(t: Table, w: World, n: nat, p: nat): (r: Option<World>)
    requires Forest(w) && n < |w|
    ensures r.Some? ==> Handled(w, r.value, n, p)
  {
    match ParseLength(t.mem, p)
    case Fault => None
    case Ok(len, q) =>
      match ParseName(t.mem, q)
      case Fault => None
      case Ok(name, e) => MethodAt(t, w, n, p, len, name, e)
  }

  function MethodAt(t: Table, w: World, n: nat, p: nat, len: nat, name: seq<Byte>, e: nat): (r: Option<World>)
    requires Forest(w) && n < |w| && p <= e
    ensures r.Some? ==> Handled(w, r.value, n, p)
  {
    if |name| < 4 || e >= |t.mem| then None
    else FileMethod(w, n, name, name[|name| - 4..], Fetch(t.mem, e), BodyLength(len, e + 1 - p), e + 1, p + len)
  }

  // ------------------------------------------------------ terms with a body

  /** The namespace a Device term opens, created if it is not found. */
  function DeviceSpace(w: World, n: nat, name: seq<Byte>, code: nat): (r: Option<(World, nat)>)
    requires Forest(w) && n < |w|
    ensures r.Some? ==> Forest(r.value.0) && Grows(w, r.value.0, |w|) && r.value.1 < |r.value.0|
  {
    match Locate(w, n, name, true)
    case IsSpace(s) => Some((w, s))
    case IsObj(_) => None
    case Exit => None
    case Missing =>
      var left := Shifted(w, n, name);
      if |name| < 4 then None
      else if |name| == 4 then
        CreateKeeps(w, Some(n), name, code);
        Some((Create(w, Some(n), name, code), |w|))
      else
        var key := left[|left| - 4..];
        match Locate(w, n, left[..|left| - 4], true)
        case Exit => None
        case IsObj(_) => None
        case IsSpace(s) => CreateKeeps(w, Some(s), key, code); Some((Create(w, Some(s), key, code), |w|))
        case Missing => CreateKeeps(w, None, key, code); Some((Create(w, None, key, code), |w|))
  }

  /** How much memory lies before the cursor. */
  function Rest(t: Table, p: nat): nat {
    if p < |t.mem| then |t.mem| - p else 0
  }

  /** def_scope. */
  function DefScope(t: Table, w: World, n: nat, p: nat): (r: Option<World>)
    requires Forest(w) && n < |w|
    ensures r.Some? ==> Handled(w, r.value, n, p)
    decreases Rest(t, p), 3
  {
    match ParseLength(t.mem, p)
    case Fault => None
    case Ok(len, q) =>
      match ParseName(t.mem, q)
      case Fault => None
      case Ok(name, e) => ScopeAt(t, w, n, p, len, name, e)
  }

  function ScopeAt(t: Table, w: World, n: nat, p: nat, len: nat, name: seq<Byte>, e: nat): (r: Option<World>)
    requires Forest(w) && n < |w|
    ensures r.Some? ==> Forest(r.value) && Grows(w, r.value, n) && r.value[n].code == p + len
    decreases Rest(t, e), 3
  {
    var at := if |name| == 0 then IsSpace(0) else Locate(w, n, name, true);
    if !at.IsSpace? then None else Inside(t, w, n, at.id, e, p + len)
  }

  /** def_device. */
  function DefDevice(t: Table, w: World, n: nat, p: nat): (r: Option<World>)
    requires Forest(w) && n < |w|
    ensures r.Some? ==> Handled(w, r.value, n, p)
    decreases Rest(t, p), 3
  {
    match ParseLength(t.mem, p)
    case Fault => None
    case Ok(len, q) =>
      match ParseName(t.mem, q)
      case Fault => None
      case Ok(name, e) => DeviceAt(t, w, n, p, len, name, e)
  }

  function DeviceAt(t: Table, w: World, n: nat, p: nat, len: nat, name: seq<Byte>, e: nat): (r: Option<World>)
    requires Forest(w) && n < |w|
    ensures r.Some? ==> Forest(r.value) && Grows(w, r.value, n) && r.value[n].code == p + len
    decreases Rest(t, e), 3
  {
    match DeviceSpace(w, n, name, e)
    case None => None
    case Some((w1, s)) =>
      match Inside(t, w1, n, s, e, p + len)
      case None => None
      case Some(w2) => GrowsMore(w, w1, n); GrowsTwice(w, w1, w2, n, n); Some(w2)
  }

  /** Parse a body in namespace s, then go on behind it in namespace n, whose cursor
      stands at the start of the body meanwhile. */
  function Inside(t: Table, w: World, n: nat, s: nat, start: nat, end: nat): (r: Option<World>)
    requires Forest(w) && n < |w| && s < |w|
    ensures r.Some? ==> Forest(r.value) && Grows(w, r.value, n) && r.value[n].code == end
    decreases Rest(t, start), 2
  {
    SetCodeKeeps(w, n, start);
    match ParseTermlist(t, SetCode(w, n, start), s, start, end)
    case None => None
    case Some(w1) =>
      SetCodeKeeps(w1, n, end);
      GrowsMore(SetCode(w, n, start), w1, n);
      GrowsTwice(w, SetCode(w, n, start), w1, n, n);
      GrowsTwice(w, w1, SetCode(w1, n, end), n, n);
      Some(SetCode(w1, n, end))
  }

  /** parse_termlist: the cursor is put back at the end. */
  function ParseTermlist(t: Table, w: World, s: nat, start: nat, end: nat): (r: Option<World>)
    requires Forest(w) && s < |w|
    ensures r.Some? ==> Forest(r.value) && Grows(w, r.value, |w|)
    decreases Rest(t, start), 1
  {
    SetCodeKeeps(w, s, start);
    match Loop(t, SetCode(w, s, start), s, end)
    case None => None
    case Some(w1) =>
      SetCodeKeeps(w1, s, w[s].code);
      GrowsTwice(w, SetCode(w, s, start), w1, s, s);
      GrowsTwice(w, w1, SetCode(w1, s, w[s].code), s, s);
      GrowsBack(w, SetCode(w1, s, w[s].code), s);
      Some(SetCode(w1, s, w[s].code))
  }

  /** The loop of parse_termlist. */
  function Loop(t: Table, w: World, s: nat, end: nat): (r: Option<World>)
    requires Forest(w) && s < |w|
    ensures r.Some? ==> Handled(w, r.value, s, w[s].code) && end <= r.value[s].code
    decreases Rest(t, w[s].code), 0, 1
  {
    if w[s].code >= end then Some(w)
    else
      match ParseNext(t, w, s)
      case None => None
      case Some(w1) =>
        match Loop(t, w1, s, end)
        case None => None
        case Some(w2) => GrowsTwice(w, w1, w2, s, s); Some(w2)
  }

  /** parse_next: one term at the cursor of namespace n. */
  function ParseNext(t: Table, w: World, n: nat): (r: Option<World>)
    requires Forest(w) && n < |w|
    ensures r.Some? ==> Handled(w, r.value, n, w[n].code + 1) && w[n].code < |t.mem|
    decreases Rest(t, w[n].code), 0, 0
  {
    var m, p := t.mem, w[n].code;
    if p >= |m| then None
    else if m[p] == NAME_OP then DefName(t, w, n, p + 1)
    else if m[p] == METHOD_OP then DefMethod(t, w, n, p + 1)
    else if m[p] == SCOPE_OP then DefScope(t, w, n, p + 1)
    else if m[p] == ALIAS_OP then DefAlias(t, w, n, p + 1)
    else if m[p] != EXT_PREFIX || p + 1 >= |m| then None
    else if m[p + 1] == EXT_OP_REGION then DefOpRegion(t, w, n, p + 2)
    else if m[p + 1] == EXT_DEVICE then DefDevice(t, w, n, p + 2)
    else if m[p + 1] == EXT_PROCESSOR || m[p + 1] == EXT_INDEX_FIELD then DefSkip(t, w, n, p + 2)
    else None
  }

  lemma {:induction false} LoopUnfolds(t: Table, w: World, s: nat, end: nat)
    requires Forest(w) && s < |w| && w[s].code < end
    ensures Loop(t, w, s, end) ==
            match ParseNext(t, w, s) case None => None case Some(w1) => Loop(t, w1, s, end)
  {
  }

  // ------------------------------------------------------------ the first tree

  const ROOT_NAME: Seg := [0x5C, 0x5F, 0x5F, 0x5F]

  /** _GPE, _PR_, _SB_, _SI_ and _TZ_. */
  function Predefined(): (r: seq<Seg>)
    ensures |r| == 5
  {
    [[0x5F, 0x47, 0x50, 0x45], [0x5F, 0x50, 0x52, 0x5F], [0x5F, 0x53, 0x42, 0x5F], [0x5F, 0x53, 0x49, 0x5F], [0x5F, 0x54, 0x5A, 0x5F]]
  }

  /** init_aml_namespaces, after k predefined names. */
  function FirstSpaces(k: nat): (w: World)
    requires k <= 5
    ensures |w| == k + 1 && Forest(w)
  {
    if k == 0 then
      assert SpaceOk([Space(None, ROOT_NAME, 0, map[], map[])], 0);
      [Space(None, ROOT_NAME, 0, map[], map[])]
    else
      CreateKeeps(FirstSpaces(k - 1), Some(0), Predefined()[k - 1], 0);
      Create(FirstSpaces(k - 1), Some(0), Predefined()[k - 1], 0)
  }

  /** Every predefined namespace is found, from anywhere, under its absolute name. */
  lemma {:induction false} FirstSpacesFound(k: nat, i: nat)
    requires i < k <= 5
    ensures FirstSpaces(k)[i + 1].name == Predefined()[i] && FirstSpaces(k)[i + 1].parent == Some(0)
    ensures Predefined()[i] in FirstSpaces(k)[0].namespaces && FirstSpaces(k)[0].namespaces[Predefined()[i]] == i + 1
  {
    if i < k - 1 {
      FirstSpacesFound(k - 1, i);
      PredefinedDiffer(i, k - 1);
    }
  }

  lemma PredefinedDiffer(i: nat, j: nat)
    requires i < j < 5
    ensures Predefined()[i] != Predefined()[j]
  {
    assert Predefined()[i][1..3] != Predefined()[j][1..3] by {
      assert Predefined()[0][1..3] == [0x47, 0x50];
      assert Predefined()[1][1..3] == [0x50, 0x52];
      assert Predefined()[2][1..3] == [0x53, 0x42];
      assert Predefined()[3][1..3] == [0x53, 0x49];
      assert Predefined()[4][1..3] == [0x54, 0x5A];
    }
  }
}
