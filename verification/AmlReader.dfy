/**
 The AML reader as it runs (lethe-aml/aml/helpers.c, name.c, defs.c and
 namespace.c): one object holds the namespaces, each with its own cursor, and every
 method moves cursors and adds to the maps in place.  Each is proved against the
 function of the same name in AmlSyntax, AmlTerms or AmlParse.
 */
module AmlReader {
  import opened Wrappers
  import opened Bits
  import opened Fnv
  import S = AmlSyntax
  import opened AmlSyntax
  import opened AmlNames
  import opened AmlTerms
  import P = AmlParse
  import opened AmlParse
  import opened AmlLookup
  import opened AmlCursor

  /** A reader of namespace n did what `spec` says: None, or the value with the
      cursor behind it. */
  predicate Moved<T(==)>(w: World, w': World, n: nat, spec: Read<T>, r: Option<T>)
    requires n < |w|
  {
    match spec
    case Fault => r.None?
    case Ok(v, q) => r == Some(v) && w' == SetCode(w, n, q)
  }

  /** A handler did what `spec` says. */
  predicate Did(spec: Option<World>, w': World, ok: bool) {
    ok == spec.Some? && (ok ==> w' == spec.value)
  }

  /** env gives each name its value in namespace n. */
  ghost predicate Knows(env: Env, t: Table, w: World, n: nat)
    requires Forest(w) && n < |w|
  {
    forall key: Seg {:trigger env(key)} :: env(key) == NameValue(t, w, n, key)
  }

  lemma KnowsMoved(env: Env, t: Table, w: World, n: nat, p: nat)
    requires Forest(w) && n < |w| && Knows(env, t, w, n)
    ensures Forest(SetCode(w, n, p)) && Knows(env, t, SetCode(w, n, p), n)
  {
    SetCodeKeeps(w, n, p);
    forall key: Seg ensures env(key) == NameValue(t, SetCode(w, n, p), n, key) {
      LocateMoved(w, n, p, n, key, false);
    }
  }

  lemma EnvKnows(t: Table, w: World, n: nat)
    requires Forest(w) && n < |w|
    ensures Knows(EnvOf(t, w, n), t, w, n)
  {
  }

  /** And each name what it resolves to. */
  ghost predicate KnowsAll(ctx: Ctx, t: Table, w: World, n: nat)
    requires Forest(w) && n < |w|
  {
    Knows(ctx.value, t, w, n) && forall key: seq<Byte> {:trigger ctx.resolve(key)} :: ctx.resolve(key) == ResolveName(w, n, key)
  }

  lemma KnowsAllMoved(ctx: Ctx, t: Table, w: World, n: nat, p: nat)
    requires Forest(w) && n < |w| && KnowsAll(ctx, t, w, n)
    ensures Forest(SetCode(w, n, p)) && KnowsAll(ctx, t, SetCode(w, n, p), n)
  {
    KnowsMoved(ctx.value, t, w, n, p);
    forall key: seq<Byte> ensures ctx.resolve(key) == ResolveName(SetCode(w, n, p), n, key) {
      ResolveMoved(w, n, p, n, key);
    }
  }

  lemma CtxKnows(t: Table, w: World, n: nat)
    requires Forest(w) && n < |w|
    ensures KnowsAll(CtxOf(t, w, n), t, w, n)
  {
    EnvKnows(t, w, n);
  }

  /** Elements read before those of r. */
  function Behind(before: seq<Data>, r: Read<seq<Data>>): Read<seq<Data>> {
    match r case Fault => Fault case Ok(ds, e) => Ok(before + ds, e)
  }

  lemma BehindNone(r: Read<seq<Data>>)
    ensures Behind([], r) == r
  {
    if r.Ok? { assert [] + r.value == r.value; }
  }

  /** What reading some elements from a position on gives. */
  type Reads = (nat, nat) -> Read<seq<Data>>

  function ReadsOf(m: seq<Byte>, ctx: Ctx): Reads {
    (p: nat, count: nat) => if p <= |m| then P.Elements(m, ctx, p, count) else Fault
  }

  predicate Agree(next: Reads, m: seq<Byte>, ctx: Ctx, p: nat, count: nat) {
    p <= |m| ==> next(p, count) == P.Elements(m, ctx, p, count)
  }

  ghost predicate Follows(next: Reads, m: seq<Byte>, ctx: Ctx) {
    forall p: nat, count: nat {:trigger Agree(next, m, ctx, p, count)} :: Agree(next, m, ctx, p, count)
  }

  lemma ReadsFollow(m: seq<Byte>, ctx: Ctx)
    ensures Follows(ReadsOf(m, ctx), m, ctx)
  {
  }

  lemma BehindAll(before: seq<Data>, m: seq<Byte>, ctx: Ctx, p: nat, next: Reads, whole: Read<seq<Data>>)
    requires p <= |m| && Follows(next, m, ctx) && whole == Behind(before, next(p, 0))
    ensures whole == Ok(before, p)
  {
    assert Agree(next, m, ctx, p, 0);
    assert before + [] == before;
  }

  /** One more element read. */
  lemma {:induction false} BehindMore(before: seq<Data>, m: seq<Byte>, ctx: Ctx, p: nat, count: nat, next: Reads, whole: Read<seq<Data>>)
    requires p <= |m| && count > 0 && Follows(next, m, ctx) && whole == Behind(before, next(p, count))
    ensures match P.Element(m, ctx, p)
            case Fault => whole == Fault
            case Ok(d, q) => whole == Behind(before + [d], next(q, count - 1))
  {
    assert Agree(next, m, ctx, p, count);
    match P.Element(m, ctx, p)
    case Fault =>
    case Ok(d, q) =>
      assert Agree(next, m, ctx, q, count - 1);
      var rest := P.Elements(m, ctx, q, count - 1);
      if rest.Ok? { assert before + ([d] + rest.value) == before + [d] + rest.value; }
  }

  class Reader {
    const table: Table
    var spaces: World

    ghost predicate Valid()
      reads this
    {
      Forest(spaces)
    }

    /** init_aml_namespaces. */
    constructor (table: Table)
      ensures Valid() && this.table == table && spaces == FirstSpaces(5)
    {
      this.table := table;
      this.spaces := [Space(None, ROOT_NAME, 0, map[], map[])];
      new;
      var k := 0;
      while k < 5
        invariant 0 <= k <= 5 && this.table == table && spaces == FirstSpaces(k)
      {
        var name := Predefined()[k];
        var root := spaces[0].(namespaces := spaces[0].namespaces[name := |spaces|]);
        spaces := spaces[0 := root] + [Space(Some(0), name, 0, map[], map[])];
        k := k + 1;
      }
    }

    /** parse_table: the whole table, in the root namespace. */
    method ParseTable(data: nat, len: nat) returns (ok: bool)
      requires Valid()
      modifies this
      ensures Forest(SetCode(old(spaces), 0, data))
      ensures Did(P.ParseTermlist(table, SetCode(old(spaces), 0, data), 0, data, data + len), spaces, ok)
      ensures ok ==> Valid()
    {
      SetCursor(0, data);
      ok := ParseTermlist(0, data, data + len);
    }

    method SetCursor(n: nat, p: nat)
      requires Valid() && n < |spaces|
      modifies this
      ensures Valid() && spaces == SetCode(old(spaces), n, p)
    {
      SetCodeKeeps(spaces, n, p);
      spaces := SetCode(spaces, n, p);
    }

    /** parse_length. */
    method ParseLength(n: nat) returns (r: Option<nat>)
      requires Valid() && n < |spaces|
      modifies this
      ensures Valid() && Moved(old(spaces), spaces, n, S.ParseLength(table.mem, old(spaces[n].code)), r)
    {
      var m, p := table.mem, spaces[n].code;
      if p >= |m| { return None; }
      var count, length := Fetch(m, p) / 64, Fetch(m, p) % 64;
      if p + 1 + count > |m| { return None; }
      LengthIsOr(m, p);
      if count >= 1 { length := Or(length, Fetch(m, p + 1) * 16); }
      if count >= 2 { length := Or(length, Fetch(m, p + 2) * 4096); }
      if count >= 3 { length := Or(length, Fetch(m, p + 3) * 1048576); }
      SetCursor(n, p + 1 + count);
      r := Some(length);
    }

    /** The prefix characters from p on: only the first is kept. */
    method Prefixes(p: nat) returns (copy: nat, prefix: seq<Byte>)
      requires p <= |table.mem|
      ensures copy == SkipPrefix(table.mem, p) && prefix == if copy > p then [table.mem[p]] else []
    {
      var m := table.mem;
      copy, prefix := p, [];
      while copy < |m| && PrefixChar(m[copy])
        invariant p <= copy <= |m| && SkipPrefix(m, p) == SkipPrefix(m, copy)
        invariant prefix == if copy > p then [m[p]] else []
      {
        if prefix == [] { prefix := [m[copy]]; }
        copy := copy + 1;
      }
    }

    /** parse_namestring. */
    method ParseNamestring(n: nat) returns (r: Option<seq<Byte>>)
      requires Valid() && n < |spaces|
      modifies this
      ensures Valid() && Moved(old(spaces), spaces, n, ParseName(table.mem, old(spaces[n].code)), r)
    {
      var m := table.mem;
      if spaces[n].code > |m| { return None; }
      var copy, prefix := Prefixes(spaces[n].code);
      if copy >= |m| { return None; }
      var count := 1;
      if m[copy] == DUAL_NAME {
        copy, count := copy + 1, 2;
      } else if m[copy] == MULTI_NAME {
        if copy + 1 >= |m| { return None; }
        copy, count := copy + 2, Fetch(m, copy + 1);
      } else if m[copy] == 0 {
        copy, count := copy + 1, 0;
      }
      if copy + 4 * count > |m| { return None; }
      SetCursor(n, copy + 4 * count);
      r := Some(prefix + m[copy..copy + 4 * count]);
    }

    /** The bytes of a number at position p, low byte first. */
    method ReadBytes(p: nat, k: nat) returns (r: Option<nat>)
      ensures match ReadWord(table.mem, p, k) case Ok(v, _) => r == Some(v) case Fault => r.None?
    {
      var m := table.mem;
      if p + k > |m| {
        ReadTooFar(m, p, k);
        return None;
      }
      var v, i := 0, k;
      while i > 0
        invariant 0 <= i <= k && ReadWord(m, p + i, k - i) == Ok(v, p + k)
      {
        i := i - 1;
        v := Fetch(m, p + i) + 256 * v;
      }
      r := Some(v);
    }

    /** The integer a name stands for. */
    method IntegerAt(n: nat, p: nat) returns (r: Option<nat>)
      requires Valid() && n < |spaces| && p + 4 <= |table.mem|
      ensures r == NameValue(table, spaces, n, table.mem[p..p + 4])
    {
      var name := new Byte[4](_ => 0);
      Fill(name, 0, table.mem[p..p + 4]);
      assert name[..] == table.mem[p..p + 4];
      var obj := LocateObject(spaces, n, name, false);
      if obj.IsObj? { r := IntOf(table, obj.obj); } else { r := None; }
    }

    /** term_arg_to_int. */
    method TermArgToInt(n: nat, ghost env: Env) returns (r: Option<nat>)
      requires Valid() && n < |spaces| && Knows(env, table, spaces, n)
      modifies this
      ensures Valid() && Moved(old(spaces), spaces, n, TermArg(table.mem, env, old(spaces[n].code)), r)
      decreases Rest(table, spaces[n].code), 0
    {
      var m, p := table.mem, spaces[n].code;
      if p >= |m| { return None; }
      var op := m[p];
      if Simple(op) {
        SetCursor(n, p + 1);
        r := Some(SimpleValue(op));
      } else if Width(op) > 0 {
        r := ReadBytes(p + 1, Width(op));
        SetCursor(n, p + 1 + Width(op));
      } else if op == LNOT_OP {
        var value := Operand(n, p + 1, env);
        if value.None? { return None; }
        r := Some(Truth(value.value == 0));
      } else if Binary(op) {
        var a := Operand(n, p + 1, env);
        if a.None? { return None; }
        var b := Operand(n, spaces[n].code, env);
        if b.None? { return None; }
        r := Some(Apply(op, a.value, b.value));
      } else if p + 4 > |m| {
        return None;
      } else {
        r := IntegerAt(n, p);
        SetCursor(n, p + 4);
      }
    }

    /** The argument at position p. */
    method Operand(n: nat, p: nat, ghost env: Env) returns (r: Option<nat>)
      requires Valid() && n < |spaces| && Knows(env, table, spaces, n)
      modifies this
      ensures Valid() && Moved(old(spaces), spaces, n, TermArg(table.mem, env, p), r)
      ensures r.Some? ==> n < |spaces| && Knows(env, table, spaces, n)
      decreases Rest(table, p), 1
    {
      ghost var w := spaces;
      KnowsMoved(env, table, w, n, p);
      SetCursor(n, p);
      r := TermArgToInt(n, env);
      if r.Some? {
        SetCodeTwice(w, n, p, spaces[n].code);
        KnowsMoved(env, table, w, n, spaces[n].code);
      }
    }

    /** parse_data_object. */
    method ParseDataObject(n: nat, ghost ctx: Ctx) returns (r: Option<Data>)
      requires Valid() && n < |spaces| && KnowsAll(ctx, table, spaces, n)
      modifies this
      ensures Valid() && Moved(old(spaces), spaces, n, ParseData(table.mem, ctx, old(spaces[n].code)), r)
      decreases Rest(table, spaces[n].code), 0
    {
      var m, p := table.mem, spaces[n].code;
      if p >= |m| { return None; }
      var op := m[p];
      if Simple(op) {
        SetCursor(n, p + 1);
        r := Some(SimpleData(op));
      } else if NumberPrefix(op) {
        r := ParseNumber(n, op, p + 1);
      } else if op == STRING_PREFIX {
        r := ParseString(n, p + 1);
      } else if op == BUFFER_OP {
        r := ParseBuffer(n, p + 1, ctx.value);
      } else if op == PACKAGE_OP || op == VAR_PACKAGE_OP {
        r := ParsePackage(n, op, p + 1, ctx);
      } else {
        r := None;
      }
    }

    method ParsePackage(n: nat, op: Byte, p: nat, ghost ctx: Ctx) returns (r: Option<Data>)
      requires Valid() && n < |spaces| && KnowsAll(ctx, table, spaces, n)
      modifies this
      ensures Valid() && Moved(old(spaces), spaces, n, P.ParsePackage(table.mem, ctx, op, p), r)
      decreases Rest(table, p), 5
    {
      ghost var w := spaces;
      SetCursor(n, p);
      var len := ParseLength(n);
      if len.None? { return None; }
      ghost var q := spaces[n].code;
      SetCodeTwice(w, n, p, q);
      KnowsAllMoved(ctx, table, w, n, q);
      var count := ElementCount(n, op, ctx);
      if count.None? { return None; }
      ghost var e := spaces[n].code;
      SetCodeTwice(w, n, q, e);
      KnowsAllMoved(ctx, table, w, n, e);
      var elements := PopulatePackage(n, count.value, ctx);
      if elements.None? { return None; }
      SetCodeTwice(w, n, e, spaces[n].code);
      r := Some(PkgData(elements.value));
    }

    method ElementCount(n: nat, op: Byte, ghost ctx: Ctx) returns (r: Option<nat>)
      requires Valid() && n < |spaces| && Knows(ctx.value, table, spaces, n)
      modifies this
      ensures Valid() && Moved(old(spaces), spaces, n, P.ElementCount(table.mem, ctx, op, old(spaces[n].code)), r)
    {
      if op == PACKAGE_OP {
        var p := spaces[n].code;
        if p >= |table.mem| { return None; }
        SetCursor(n, p + 1);
        r := Some(Fetch(table.mem, p));
      } else {
        var v := TermArgToInt(n, ctx.value);
        if v.None? { return None; }
        r := Some(v.value % 256);
      }
    }

    /** `left` more elements will complete `whole`; the cursor of n is all that differs
        from w. */
    ghost predicate Reading(n: nat, ctx: Ctx, w: World, next: Reads, whole: Read<seq<Data>>, elements: seq<Data>, left: nat)
      reads this
    {
      && Valid() && n < |w| && n < |spaces| && w[n].code <= spaces[n].code <= |table.mem|
      && spaces == SetCode(w, n, spaces[n].code) && KnowsAll(ctx, table, spaces, n)
      && whole == Behind(elements, next(spaces[n].code, left))
    }

    /** populate_package. */
    method PopulatePackage(n: nat, count: nat, ghost ctx: Ctx) returns (r: Option<seq<Data>>)
      requires Valid() && n < |spaces| && KnowsAll(ctx, table, spaces, n) && spaces[n].code <= |table.mem|
      modifies this
      ensures Valid() && Moved(old(spaces), spaces, n, P.Elements(table.mem, ctx, old(spaces[n].code), count), r)
      decreases Rest(table, spaces[n].code), 4
    {
      ghost var next := ReadsOf(table.mem, ctx);
      ghost var whole := next(spaces[n].code, count);
      ReadsFollow(table.mem, ctx);
      SetCodeSame(spaces, n);
      BehindNone(whole);
      r := Populate(n, count, ctx, spaces, next, whole);
    }

    /** Its loop. */
    method Populate(n: nat, count: nat, ghost ctx: Ctx, ghost w: World, ghost next: Reads, ghost whole: Read<seq<Data>>)
      returns (r: Option<seq<Data>>)
      requires Reading(n, ctx, w, next, whole, [], count) && Follows(next, table.mem, ctx)
      modifies this
      ensures Valid() && n < |w| && Moved(w, spaces, n, whole, r)
      decreases Rest(table, w[n].code), 3
    {
      var elements, i := [], 0;
      while i < count
        invariant 0 <= i <= count && Reading(n, ctx, w, next, whole, elements, count - i)
      {
        var x := OneMore(n, count - i, ctx, w, next, whole, elements);
        if x.None? { return None; }
        elements := elements + [x.value];
        i := i + 1;
      }
      BehindAll(elements, table.mem, ctx, spaces[n].code, next, whole);
      r := Some(elements);
    }

    method OneMore(n: nat, left: nat, ghost ctx: Ctx, ghost w: World, ghost next: Reads, ghost whole: Read<seq<Data>>,
                   ghost elements: seq<Data>)
      returns (x: Option<Data>)
      requires left > 0 && Reading(n, ctx, w, next, whole, elements, left) && Follows(next, table.mem, ctx)
      modifies this
      ensures Valid() && (x.None? ==> whole == Fault)
      ensures x.Some? ==> Reading(n, ctx, w, next, whole, elements + [x.value], left - 1)
      decreases Rest(table, spaces[n].code), 2
    {
      ghost var p, before := spaces[n].code, spaces;
      BehindMore(elements, table.mem, ctx, p, left, next, whole);
      x := Element(n, ctx);
      if x.Some? {
        SetCodeTwice(w, n, p, spaces[n].code);
        KnowsAllMoved(ctx, table, before, n, spaces[n].code);
      }
    }

    /** One element: a name, or the cursor goes back and a data object is read. */
    method Element(n: nat, ghost ctx: Ctx) returns (r: Option<Data>)
      requires Valid() && n < |spaces| && KnowsAll(ctx, table, spaces, n) && spaces[n].code <= |table.mem|
      modifies this
      ensures Valid() && Moved(old(spaces), spaces, n, P.Element(table.mem, ctx, old(spaces[n].code)), r)
      decreases Rest(table, spaces[n].code), 1
    {
      ghost var w := spaces;
      var copy := spaces[n].code;
      var name := ParseNamestring(n);
      if name.None? { return None; }
      var valid := CheckName(name.value);
      if !valid || |name.value| == 0 {
        ghost var q := spaces[n].code;
        SetCursor(n, copy);
        SetCodeTwice(w, n, q, copy);
        SetCodeSame(w, n);
        r := ParseDataObject(n, ctx);
      } else {
        KnowsAllMoved(ctx, table, w, n, spaces[n].code);
        var full := MakeAbsolute(spaces, n, name.value);
        if full.None? { return None; }
        r := Some(RefData(full.value));
      }
    }

    method ParseNumber(n: nat, op: Byte, p: nat) returns (r: Option<Data>)
      requires Valid() && n < |spaces|
      modifies this
      ensures Valid() && Moved(old(spaces), spaces, n, P.ParseNumber(table.mem, op, p), r)
    {
      var v := ReadBytes(p, DataWidth(op));
      if v.None? { return None; }
      SetCursor(n, p + DataWidth(op));
      r := Some(NumberData(op, v.value));
    }

    method ParseString(n: nat, p: nat) returns (r: Option<Data>)
      requires Valid() && n < |spaces| && p <= |table.mem|
      modifies this
      ensures Valid() && Moved(old(spaces), spaces, n, P.ParseString(table.mem, p), r)
    {
      var m, i := table.mem, p;
      while i < |m| && m[i] != 0
        invariant p <= i <= |m| && ZeroFrom(m, p) == ZeroFrom(m, i)
      {
        i := i + 1;
      }
      if i == |m| { return None; }
      SetCursor(n, i + 1);
      r := Some(StrData(m[p..i + 1]));
    }

    method ParseBuffer(n: nat, p: nat, ghost env: Env) returns (r: Option<Data>)
      requires Valid() && n < |spaces| && Knows(env, table, spaces, n)
      modifies this
      ensures Valid() && Moved(old(spaces), spaces, n, P.ParseBuffer(table.mem, env, p), r)
    {
      ghost var w := spaces;
      SetCursor(n, p);
      var len := ParseLength(n);
      if len.None? { return None; }
      ghost var q := spaces[n].code;
      SetCodeTwice(w, n, p, q);
      KnowsMoved(env, table, w, n, q);
      var size := TermArgToInt(n, env);
      if size.None? { return None; }
      var b := spaces[n].code;
      SetCodeTwice(w, n, q, b);
      if b + size.value > |table.mem| { return None; }
      SetCursor(n, b + size.value);
      SetCodeTwice(w, n, b, b + size.value);
      r := Some(BufData(table.mem[b..b + size.value]));
    }

    // ---------------------------------------------------- terms without a body
    //
    // When a handler starts, the namespaces are those of w with the cursor of n
    // behind the opcode, at p.

    /** add_child_to_namespace, with the cursor of n at e. */
    method AddObject(n: nat, key: Seg, o: Obj, e: nat, ghost w: World)
      requires Forest(w) && n < |w| && spaces == SetCode(w, n, e)
      modifies this
      ensures Valid() && spaces == Bind(w, n, key, o, e)
    {
      SetCodeKeeps(w, n, e);
      AddChildKeeps(spaces, n, key, o);
      spaces := AddChild(spaces, n, key, o);
    }

    /** def_name. */
    method DefName(n: nat, ghost w: World) returns (ok: bool)
      requires Forest(w) && n < |w| && n < |spaces| && spaces == SetCode(w, n, spaces[n].code)
      modifies this
      ensures Did(P.DefName(table, w, n, old(spaces[n].code)), spaces, ok)
    {
      ghost var p := spaces[n].code;
      SetCodeKeeps(w, n, p);
      var name := ParseNamestring(n);
      if name.None? || |name.value| != 4 { return false; }
      ghost var q, ctx := spaces[n].code, CtxOf(table, w, n);
      SetCodeTwice(w, n, p, q);
      CtxKnows(table, w, n);
      KnowsAllMoved(ctx, table, w, n, q);
      var data := ParseDataObject(n, ctx);
      if data.None? { return false; }
      var e := spaces[n].code;
      SetCodeTwice(w, n, q, e);
      AddObject(n, name.value, Var(data.value), e, w);
      ok := true;
    }

    /** def_op_region. */
    method DefOpRegion(n: nat, ghost w: World) returns (ok: bool)
      requires Forest(w) && n < |w| && n < |spaces| && spaces == SetCode(w, n, spaces[n].code)
      modifies this
      ensures Did(P.DefOpRegion(table, w, n, old(spaces[n].code)), spaces, ok)
    {
      ghost var p := spaces[n].code;
      SetCodeKeeps(w, n, p);
      var name := ParseNamestring(n);
      if name.None? || |name.value| != 4 { return false; }
      SetCodeTwice(w, n, p, spaces[n].code);
      if spaces[n].code >= |table.mem| { return false; }
      ok := RegionArgs(n, name.value, w);
    }

    method RegionArgs(n: nat, name: Seg, ghost w: World) returns (ok: bool)
      requires Forest(w) && n < |w| && n < |spaces| && spaces == SetCode(w, n, spaces[n].code)
      requires spaces[n].code < |table.mem|
      modifies this
      ensures Did(P.RegionArgs(table, w, n, name, old(spaces[n].code)), spaces, ok)
    {
      var q := spaces[n].code;
      ghost var env := EnvOf(table, w, n);
      EnvKnows(table, w, n);
      KnowsMoved(env, table, w, n, q);
      var offset := Operand(n, q + 1, env);
      if offset.None? { return false; }
      ghost var e := spaces[n].code;
      SetCodeTwice(w, n, q, e);
      var len := Operand(n, spaces[n].code, env);
      if len.None? { return false; }
      SetCodeTwice(w, n, e, spaces[n].code);
      AddObject(n, name, Region(Fetch(table.mem, q), offset.value, len.value), spaces[n].code, w);
      ok := true;
    }

    /** def_alias: the source object is looked for in n alone. */
    method DefAlias(n: nat, ghost w: World) returns (ok: bool)
      requires Forest(w) && n < |w| && n < |spaces| && spaces == SetCode(w, n, spaces[n].code)
      modifies this
      ensures Did(P.DefAlias(table, w, n, old(spaces[n].code)), spaces, ok)
    {
      ghost var p := spaces[n].code;
      SetCodeKeeps(w, n, p);
      var source := ParseNamestring(n);
      if source.None? { return false; }
      ghost var q := spaces[n].code;
      SetCodeTwice(w, n, p, q);
      var name := ParseNamestring(n);
      if name.None? { return false; }
      SetCodeTwice(w, n, q, spaces[n].code);
      if |source.value| != 4 || |name.value| != 4 || source.value !in spaces[n].children { return false; }
      AddObject(n, name.value, spaces[n].children[source.value], spaces[n].code, w);
      ok := true;
    }

    /** def_index_field and the Processor case. */
    method DefSkip(n: nat, ghost w: World) returns (ok: bool)
      requires Forest(w) && n < |w| && n < |spaces| && spaces == SetCode(w, n, spaces[n].code)
      modifies this
      ensures Did(P.DefSkip(table, w, n, old(spaces[n].code)), spaces, ok)
    {
      var copy := spaces[n].code;
      SetCodeKeeps(w, n, copy);
      var len := ParseLength(n);
      if len.None? { return false; }
      SetCodeTwice(w, n, copy, spaces[n].code);
      SetCodeTwice(w, n, spaces[n].code, copy + len.value);
      SetCursor(n, copy + len.value);
      ok := true;
    }

    /** Where def_method files the method. */
    method FindMethodScope(n: nat, name: seq<Byte>, ghost w: World, ghost p: nat) returns (scope: Option<nat>)
      requires Forest(w) && n < |w| && spaces == SetCode(w, n, p) && |name| >= 4
      ensures scope == MethodScope(w, n, name)
    {
      SetCodeKeeps(w, n, p);
      assert SpaceOk(w, n);
      if |name| <= 5 {
        if name[0] == ROOT_CHAR { return Some(0); }
        if name[0] == PARENT_CHAR { return spaces[n].parent; }
        return Some(n);
      }
      var key := new Byte[|name| - 4](_ => 0);
      Fill(key, 0, name[..|name| - 4]);
      assert key[..] == name[..|name| - 4];
      LocateMoved(w, n, p, n, name[..|name| - 4], true);
      var found := LocateObject(spaces, n, key, true);
      scope := if found.IsSpace? then Some(found.id) else None;
    }

    /** create_namespace and add_child_to_namespace for a method, and the cursor. */
    method AddMethod(n: nat, scope: nat, key: Seg, flags: nat, len: nat, code: nat, end: nat, ghost w: World, ghost p: nat)
      requires Forest(w) && n < |w| && spaces == SetCode(w, n, p) && scope < |w|
      modifies this
      ensures Valid() && spaces == SetCode(MethodSpace(w, scope, key, flags, len, code), n, end)
    {
      ghost var w1 := MethodSpace(w, scope, key, flags, len, code);
      var made := |spaces|;
      spaces := spaces + [Space(None, key, code, map[], map[])];
      spaces := AddChild(spaces, scope, key, Method(flags, len, code, made));
      spaces := spaces[made := spaces[made].(parent := Some(scope))];
      assert spaces == SetCode(w1, n, p);
      SetCodeTwice(w1, n, p, end);
      SetCodeKeeps(w1, n, end);
      spaces := SetCode(spaces, n, end);
    }

    /** A package length and the name behind it. */
    method ReadHead(n: nat, p: nat, ghost w: World) returns (len: Option<nat>, name: Option<seq<Byte>>)
      requires Forest(w) && n < |w| && spaces == SetCode(w, n, p)
      modifies this
      ensures len.None? ==> S.ParseLength(table.mem, p) == Fault
      ensures len.Some? ==>
                && S.ParseLength(table.mem, p).Ok? && S.ParseLength(table.mem, p).value == len.value
                && (name.None? ==> ParseName(table.mem, S.ParseLength(table.mem, p).pos) == Fault)
                && (name.Some? ==>
                      && n < |spaces| && spaces == SetCode(w, n, spaces[n].code)
                      && ParseName(table.mem, S.ParseLength(table.mem, p).pos) == Ok(name.value, spaces[n].code))
    {
      SetCodeKeeps(w, n, p);
      name := None;
      len := ParseLength(n);
      if len.None? { return; }
      ghost var q := spaces[n].code;
      SetCodeTwice(w, n, p, q);
      name := ParseNamestring(n);
      if name.Some? { SetCodeTwice(w, n, q, spaces[n].code); }
    }

    /** def_method. */
    method DefMethod(n: nat, ghost w: World) returns (ok: bool)
      requires Forest(w) && n < |w| && n < |spaces| && spaces == SetCode(w, n, spaces[n].code)
      modifies this
      ensures Did(P.DefMethod(table, w, n, old(spaces[n].code)), spaces, ok)
    {
      var copy := spaces[n].code;
      var len, name := ReadHead(n, copy, w);
      if len.None? || name.None? { return false; }
      ok := FinishMethod(n, copy, len.value, name.value, w);
    }

    method FinishMethod(n: nat, copy: nat, len: nat, name: seq<Byte>, ghost w: World) returns (ok: bool)
      requires Forest(w) && n < |w| && n < |spaces| && spaces == SetCode(w, n, spaces[n].code) && copy <= spaces[n].code
      modifies this
      ensures Did(MethodAt(table, w, n, copy, len, name, old(spaces[n].code)), spaces, ok)
    {
      var e := spaces[n].code;
      if |name| < 4 || e >= |table.mem| { return false; }
      var scope := FindMethodScope(n, name, w, e);
      if scope.None? { return false; }
      AddMethod(n, scope.value, name[|name| - 4..], Fetch(table.mem, e), BodyLength(len, e + 1 - copy), e + 1, copy + len, w, e);
      ok := true;
    }

    // ------------------------------------------------------ terms with a body

    /** def_scope. */
    method DefScope(n: nat, ghost w: World) returns (ok: bool)
      requires Forest(w) && n < |w| && n < |spaces| && spaces == SetCode(w, n, spaces[n].code)
      modifies this
      ensures Did(P.DefScope(table, w, n, old(spaces[n].code)), spaces, ok)
      decreases Rest(table, spaces[n].code), 3
    {
      var copy := spaces[n].code;
      var len, name := ReadHead(n, copy, w);
      if len.None? || name.None? { return false; }
      ok := FinishScope(n, copy, len.value, name.value, w);
    }

    method FinishScope(n: nat, copy: nat, len: nat, name: seq<Byte>, ghost w: World) returns (ok: bool)
      requires Forest(w) && n < |w| && n < |spaces| && spaces == SetCode(w, n, spaces[n].code)
      modifies this
      ensures Did(ScopeAt(table, w, n, copy, len, name, old(spaces[n].code)), spaces, ok)
      decreases Rest(table, spaces[n].code), 3
    {
      var e := spaces[n].code;
      var scope := FindScope(n, name, w, e);
      if !scope.IsSpace? { return false; }
      ok := Inside(n, scope.id, e, copy + len, w);
    }

    method FindScope(n: nat, name: seq<Byte>, ghost w: World, ghost p: nat) returns (r: Found)
      requires Forest(w) && n < |w| && spaces == SetCode(w, n, p)
      ensures r == if |name| == 0 then IsSpace(0) else Locate(w, n, name, true)
    {
      if |name| == 0 { return IsSpace(0); }
      LocateMoved(w, n, p, n, name, true);
      var key := new Byte[|name|](_ => 0);
      Fill(key, 0, name);
      assert key[..] == name;
      r := LocateObject(spaces, n, key, true);
    }

    /** def_device. */
    method DefDevice(n: nat, ghost w: World) returns (ok: bool)
      requires Forest(w) && n < |w| && n < |spaces| && spaces == SetCode(w, n, spaces[n].code)
      modifies this
      ensures Did(P.DefDevice(table, w, n, old(spaces[n].code)), spaces, ok)
      decreases Rest(table, spaces[n].code), 3
    {
      var copy := spaces[n].code;
      var len, name := ReadHead(n, copy, w);
      if len.None? || name.None? { return false; }
      ok := FinishDevice(n, copy, len.value, name.value, w);
    }

    method FinishDevice(n: nat, copy: nat, len: nat, name: seq<Byte>, ghost w: World) returns (ok: bool)
      requires Forest(w) && n < |w| && n < |spaces| && spaces == SetCode(w, n, spaces[n].code)
      modifies this
      ensures Did(DeviceAt(table, w, n, copy, len, name, old(spaces[n].code)), spaces, ok)
      decreases Rest(table, spaces[n].code), 3
    {
      var e := spaces[n].code;
      var device := OpenDevice(n, name, e, w);
      if device.None? { return false; }
      ghost var w1 := DeviceSpace(w, n, name, e).value.0;
      ok := Inside(n, device.value, e, copy + len, w1);
    }

    /** The namespace of a device; the buffer of its name is reused after the search. */
    method OpenDevice(n: nat, name: seq<Byte>, e: nat, ghost w: World) returns (r: Option<nat>)
      requires Forest(w) && n < |w| && spaces == SetCode(w, n, e)
      modifies this
      ensures var spec := DeviceSpace(w, n, name, e);
              && r.Some? == spec.Some?
              && (r.Some? ==> r.value == spec.value.1 && n < |spec.value.0| && spaces == SetCode(spec.value.0, n, e))
    {
      LocateMoved(w, n, e, n, name, true);
      var buf := new Byte[|name|](_ => 0);
      Fill(buf, 0, name);
      assert buf[..] == name;
      var device := LocateObject(spaces, n, buf, true);
      assert buf[..] == Shifted(w, n, name);
      if device.IsSpace? { return Some(device.id); }
      if !device.Missing? || |name| < 4 { return None; }
      if |name| == 4 {
        r := CreateNamespace(Some(n), buf[..], n, e, w);
        return;
      }
      var key := new Byte[|name| - 4](_ => 0);
      Fill(key, 0, buf[..|name| - 4]);
      assert key[..] == buf[..|name| - 4];
      LocateMoved(w, n, e, n, key[..], true);
      var parent := LocateObject(spaces, n, key, true);
      if parent.Exit? || parent.IsObj? { return None; }
      r := CreateNamespace(if parent.IsSpace? then Some(parent.id) else None, buf[|name| - 4..], n, e, w);
    }

    /** create_namespace, while the cursor of n stands at e. */
    method CreateNamespace(parent: Option<nat>, name: Seg, n: nat, e: nat, ghost w: World) returns (r: Option<nat>)
      requires Forest(w) && n < |w| && spaces == SetCode(w, n, e) && (parent.Some? ==> parent.value < |w|)
      modifies this
      ensures r == Some(|w|) && spaces == SetCode(Create(w, parent, name, e), n, e)
    {
      CreateMoved(w, n, e, parent, name, e);
      r := Some(|spaces|);
      var added := Space(parent, name, e, map[], map[]);
      if parent.Some? {
        var q := parent.value;
        spaces := spaces[q := spaces[q].(namespaces := spaces[q].namespaces[name := |spaces|])];
      }
      spaces := spaces + [added];
    }

    /** The body of a term, and the cursor behind it. */
    method Inside(n: nat, s: nat, start: nat, end: nat, ghost w: World) returns (ok: bool)
      requires Forest(w) && n < |w| && s < |w| && spaces == SetCode(w, n, start)
      modifies this
      ensures Did(P.Inside(table, w, n, s, start, end), spaces, ok)
      decreases Rest(table, start), 2
    {
      SetCodeKeeps(w, n, start);
      ok := ParseTermlist(s, start, end);
      if ok { SetCursor(n, end); }
    }

    /** parse_termlist. */
    method ParseTermlist(s: nat, start: nat, end: nat) returns (ok: bool)
      requires Valid() && s < |spaces|
      modifies this
      ensures Did(P.ParseTermlist(table, old(spaces), s, start, end), spaces, ok)
      ensures ok ==> Valid() && |old(spaces)| <= |spaces|
      decreases Rest(table, start), 1
    {
      var copy := spaces[s].code;
      SetCursor(s, start);
      ghost var w := spaces;
      while spaces[s].code < end
        invariant Valid() && s < |spaces| && start <= spaces[s].code && Loop(table, w, s, end) == Loop(table, spaces, s, end)
        decreases Rest(table, spaces[s].code)
      {
        LoopUnfolds(table, spaces, s, end);
        ok := ParseNext(s);
        if !ok { return; }
      }
      SetCursor(s, copy);
      ok := true;
    }

    /** parse_next. */
    method ParseNext(n: nat) returns (ok: bool)
      requires Valid() && n < |spaces|
      modifies this
      ensures Did(P.ParseNext(table, old(spaces), n), spaces, ok)
      ensures ok ==> Valid() && n < |spaces| && old(spaces[n].code) < spaces[n].code && old(spaces[n].code) < |table.mem|
      decreases Rest(table, spaces[n].code), 0
    {
      var m, p := table.mem, spaces[n].code;
      ghost var w := spaces;
      if p >= |m| { return false; }
      ok := false;
      if m[p] == EXT_PREFIX {
        if p + 1 >= |m| { return; }
        SetCursor(n, p + 2);
        if m[p + 1] == EXT_OP_REGION {
          ok := DefOpRegion(n, w);
        } else if m[p + 1] == EXT_DEVICE {
          ok := DefDevice(n, w);
        } else if m[p + 1] == EXT_PROCESSOR || m[p + 1] == EXT_INDEX_FIELD {
          ok := DefSkip(n, w);
        }
      } else {
        SetCursor(n, p + 1);
        if m[p] == NAME_OP {
          ok := DefName(n, w);
        } else if m[p] == METHOD_OP {
          ok := DefMethod(n, w);
        } else if m[p] == SCOPE_OP {
          ok := DefScope(n, w);
        } else if m[p] == ALIAS_OP {
          ok := DefAlias(n, w);
        }
      }
    }
  }

  lemma {:induction false} ReadTooFar(m: seq<Byte>, p: nat, k: nat)
    requires p + k > |m|
    ensures ReadWord(m, p, k) == Fault
    decreases k
  {
    if k > 0 { ReadTooFar(m, p + 1, k - 1); }
  }
}
