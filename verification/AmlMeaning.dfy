/**
 What AML terms mean for the namespaces, and the proof that parsing an encoded
 term list has exactly that meaning and stops exactly at its end.
 */
module AmlMeaning {
  import opened Wrappers
  import opened Fnv
  import opened AmlSyntax
  import opened AmlNames
  import opened AmlTerms
  import opened AmlParse
  import opened AmlData
  import opened AmlGrammar

  // ------------------------------------------------------------------- meaning

  /** What a term does: it changes the namespaces, or stops the program, or goes astray,
      when a package in it does not say its number of elements. */
  datatype Outcome = Does(world: World) | Stops | Astray

  function Settled(r: Option<World>): Outcome {
    match r case Some(w) => Does(w) case None => Stops
  }

  /** The parser does as a term means, whenever that does not go astray. */
  predicate Follows(r: Option<World>, o: Outcome) {
    o == Astray || o == Settled(r)
  }

  /** What term `x`, standing at position p, does in namespace n. */
  function Means(t: Table, w: World, n: nat, p: nat, x: Term): (r: Outcome)
    requires Forest(w) && n < |w| && TermOk(x)
    ensures r.Does? ==> Handled(w, r.world, n, p) && r.world[n].code == p + TermSize(x)
    decreases x, 3
  {
    var end := p + TermSize(x);
    match x
    case NameTerm(key, d) => MeansName(t, w, n, key, d, end)
    case RegionTerm(_, _, _, _) => Settled(MeansRegion(t, w, n, x, end))
    case AliasTerm(source, key) => Settled(MeansAlias(w, n, source, key, end))
    case SkipTerm(_, _, _) => SetCodeKeeps(w, n, end); Does(SetCode(w, n, end))
    case MethodTerm(_, _, _, _) => Settled(MeansMethod(w, n, x, end))
    case ScopeTerm(_, name, body) => MeansScope(t, w, n, Chars(name), end, body)
    case DeviceTerm(_, name, body) => MeansDevice(t, w, n, Chars(name), end, body)
  }

  /** A name is bound to its value as read from here, if each name in that can be made
      absolute. */
  function MeansName(t: Table, w: World, n: nat, key: Seg, d: DataExpr, end: nat): (r: Outcome)
    requires Forest(w) && n < |w|
    ensures r.Does? ==> Forest(r.world) && Grows(w, r.world, n) && r.world[n].code == end
  {
    var ctx := CtxOf(t, w, n);
    if Exact(ctx, d) then Does(Bind(w, n, key, Var(DataValue(ctx, d)), end))
    else if Numbered(ctx, d) then Stops
    else Astray
  }

  function MeansRegion(t: Table, w: World, n: nat, x: Term, end: nat): (r: Option<World>)
    requires Forest(w) && n < |w| && x.RegionTerm?
    ensures r.Some? ==> Forest(r.value) && Grows(w, r.value, n) && r.value[n].code == end
  {
    var a, b := Eval(EnvOf(t, w, n), x.offset), Eval(EnvOf(t, w, n), x.len);
    if a.Some? && b.Some? then Some(Bind(w, n, x.key, Region(x.space, a.value, b.value), end)) else None
  }

  function MeansAlias(w: World, n: nat, source: Seg, key: Seg, end: nat): (r: Option<World>)
    requires Forest(w) && n < |w|
    ensures r.Some? ==> Forest(r.value) && Grows(w, r.value, n) && r.value[n].code == end
  {
    if source in w[n].children then Some(Bind(w, n, key, w[n].children[source], end)) else None
  }

  /** The body of a Scope is read in the namespace of that name, which must exist. */
  function MeansScope(t: Table, w: World, n: nat, name: seq<Byte>, end: nat, body: seq<Term>): (r: Outcome)
    requires Forest(w) && n < |w| && TermsOk(body) && TermsSize(body) <= end
    ensures r.Does? ==> Forest(r.world) && Grows(w, r.world, n) && r.world[n].code == end
    decreases body, 3
  {
    var at := if name == [] then IsSpace(0) else Locate(w, n, name, true);
    if at.IsSpace? then MeansInside(t, w, n, at.id, end - TermsSize(body), body) else Stops
  }

  /** The body of a Device is read in the namespace of that name, new or not. */
  function MeansDevice(t: Table, w: World, n: nat, name: seq<Byte>, end: nat, body: seq<Term>): (r: Outcome)
    requires Forest(w) && n < |w| && TermsOk(body) && TermsSize(body) <= end
    ensures r.Does? ==> Forest(r.world) && Grows(w, r.world, n) && r.world[n].code == end
    decreases body, 3
  {
    match DeviceSpace(w, n, name, end - TermsSize(body))
    case None => Stops
    case Some((w1, s)) =>
      match MeansInside(t, w1, n, s, end - TermsSize(body), body)
      case Stops => Stops
      case Astray => Astray
      case Does(w2) => GrowsMore(w, w1, n); GrowsTwice(w, w1, w2, n, n); Does(w2)
  }

  /** A method is filed with exactly its body: position and length. */
  function MeansMethod(w: World, n: nat, x: Term, end: nat): (r: Option<World>)
    requires Forest(w) && n < |w| && x.MethodTerm? && |x.name.segs| > 0 && |x.bytes| <= end
    ensures r.Some? ==> Forest(r.value) && Grows(w, r.value, n) && r.value[n].code == end
  {
    FileMethod(w, n, Chars(x.name), LastSeg(x.name), x.flags, |x.bytes|, end - |x.bytes|, end)
  }

  function LastSeg(name: Name): Seg
    requires |name.segs| > 0
  {
    name.segs[|name.segs| - 1]
  }

  /** A body, read from `start` in namespace s, for namespace n. */
  function MeansInside(t: Table, w: World, n: nat, s: nat, start: nat, body: seq<Term>): (r: Outcome)
    requires Forest(w) && n < |w| && s < |w| && TermsOk(body)
    ensures r.Does? ==> Forest(r.world) && Grows(w, r.world, n) && r.world[n].code == start + TermsSize(body)
    decreases body, 2, 1
  {
    SetCodeKeeps(w, n, start);
    match MeansThere(t, SetCode(w, n, start), s, start, body)
    case Stops => Stops
    case Astray => Astray
    case Does(w1) =>
      SetCodeKeeps(w1, n, start + TermsSize(body));
      GrowsMore(SetCode(w, n, start), w1, n);
      GrowsTwice(w, SetCode(w, n, start), w1, n, n);
      GrowsTwice(w, w1, SetCode(w1, n, start + TermsSize(body)), n, n);
      Does(SetCode(w1, n, start + TermsSize(body)))
  }

  /** The terms of a body in namespace s, whose own cursor is put back. */
  function MeansThere(t: Table, w: World, s: nat, start: nat, body: seq<Term>): (r: Outcome)
    requires Forest(w) && s < |w| && TermsOk(body)
    ensures r.Does? ==> Forest(r.world) && Grows(w, r.world, |w|)
    decreases body, 2, 0
  {
    SetCodeKeeps(w, s, start);
    match MeansList(t, SetCode(w, s, start), s, start, body)
    case Stops => Stops
    case Astray => Astray
    case Does(w1) =>
      SetCodeKeeps(w1, s, w[s].code);
      var w2 := SetCode(w1, s, w[s].code);
      GrowsTwice(w, SetCode(w, s, start), w1, s, s);
      GrowsTwice(w, w1, w2, s, s);
      GrowsBack(w, w2, s);
      Does(w2)
  }

  /** Terms one after the other. */
  function MeansList(t: Table, w: World, s: nat, p: nat, ts: seq<Term>): (r: Outcome)
    requires Forest(w) && s < |w| && TermsOk(ts)
    ensures r.Does? ==> Forest(r.world) && Grows(w, r.world, s)
    ensures r.Does? && w[s].code == p ==> r.world[s].code == p + TermsSize(ts)
    decreases ts, 1
  {
    if ts == [] then Does(w)
    else
      match Means(t, w, s, p, ts[0])
      case Stops => Stops
      case Astray => Astray
      case Does(w1) =>
        match MeansList(t, w1, s, p + TermSize(ts[0]), ts[1..])
        case Stops => Stops
        case Astray => Astray
        case Does(w2) => GrowsTwice(w, w1, w2, s, s); Does(w2)
  }

  // -------------------------------------------------------------- terms one by one

  lemma {:induction false} LastOfFlat(segs: seq<Seg>)
    requires |segs| > 0
    ensures Flat(segs)[4 * |segs| - 4..] == segs[|segs| - 1]
  {
    if |segs| == 1 {
      assert Flat(segs) == segs[0] + Flat(segs[1..]) == segs[0] + [];
    } else {
      LastOfFlat(segs[1..]);
      assert Flat(segs)[4 * |segs| - 4..] == Flat(segs[1..])[4 * |segs| - 8..];
    }
  }

  lemma LastSegment(name: Name)
    requires |name.segs| > 0
    ensures |Chars(name)| >= 4 && Chars(name)[|Chars(name)| - 4..] == LastSeg(name)
  {
    LastOfFlat(name.segs);
    assert Chars(name)[|Chars(name)| - 4..] == Flat(name.segs)[4 * |name.segs| - 4..];
  }
  // Which handler the first byte of a term selects, and what the term means.

  lemma {:induction false} NextName(t: Table, w: World, n: nat, p: nat, q: nat)
    requires q == p + 1 && Forest(w) && n < |w| && w[n].code == p && p < |t.mem| && t.mem[p] == NAME_OP
    ensures ParseNext(t, w, n) == DefName(t, w, n, q)
  {
  }

  lemma {:induction false} NextMethod(t: Table, w: World, n: nat, p: nat, q: nat)
    requires q == p + 1 && Forest(w) && n < |w| && w[n].code == p && p < |t.mem| && t.mem[p] == METHOD_OP
    ensures ParseNext(t, w, n) == DefMethod(t, w, n, q)
  {
  }

  lemma {:induction false} NextScope(t: Table, w: World, n: nat, p: nat, q: nat)
    requires q == p + 1 && Forest(w) && n < |w| && w[n].code == p && p < |t.mem| && t.mem[p] == SCOPE_OP
    ensures ParseNext(t, w, n) == DefScope(t, w, n, q)
  {
  }

  lemma {:induction false} NextAlias(t: Table, w: World, n: nat, p: nat, q: nat)
    requires q == p + 1 && Forest(w) && n < |w| && w[n].code == p && p < |t.mem| && t.mem[p] == ALIAS_OP
    ensures ParseNext(t, w, n) == DefAlias(t, w, n, q)
  {
  }

  lemma NextRegion(t: Table, w: World, n: nat, p: nat, q: nat)
    requires q == p + 2 && Forest(w) && n < |w| && w[n].code == p && p + 1 < |t.mem| && t.mem[p] == EXT_PREFIX && t.mem[p + 1] == EXT_OP_REGION
    ensures ParseNext(t, w, n) == DefOpRegion(t, w, n, q)
  {
  }

  lemma {:induction false} NextDevice(t: Table, w: World, n: nat, p: nat, q: nat)
    requires q == p + 2 && Forest(w) && n < |w| && w[n].code == p && p + 1 < |t.mem| && t.mem[p] == EXT_PREFIX && t.mem[p + 1] == EXT_DEVICE
    ensures ParseNext(t, w, n) == DefDevice(t, w, n, q)
  {
  }

  lemma NextSkip(t: Table, w: World, n: nat, p: nat, q: nat)
    requires q == p + 2 && Forest(w) && n < |w| && w[n].code == p && p + 1 < |t.mem| && t.mem[p] == EXT_PREFIX
    requires t.mem[p + 1] == EXT_PROCESSOR || t.mem[p + 1] == EXT_INDEX_FIELD
    ensures ParseNext(t, w, n) == DefSkip(t, w, n, q)
  {
  }

  lemma {:induction false} NameMeans(t: Table, w: World, n: nat, p: nat, x: Term, end: nat)
    requires Forest(w) && n < |w| && end == p + TermSize(x) && TermOk(x) && x.NameTerm?
    ensures Means(t, w, n, p, x) == MeansName(t, w, n, x.key, x.data, end)
  {
  }

  lemma {:induction false} RegionMeans(t: Table, w: World, n: nat, p: nat, x: Term, end: nat)
    requires Forest(w) && n < |w| && end == p + TermSize(x) && TermOk(x) && x.RegionTerm?
    ensures Means(t, w, n, p, x) == Settled(MeansRegion(t, w, n, x, end))
  {
  }

  lemma {:induction false} AliasMeans(t: Table, w: World, n: nat, p: nat, x: Term, end: nat)
    requires Forest(w) && n < |w| && end == p + TermSize(x) && TermOk(x) && x.AliasTerm?
    ensures Means(t, w, n, p, x) == Settled(MeansAlias(w, n, x.source, x.key, end))
  {
  }

  lemma {:induction false} MethodMeans(t: Table, w: World, n: nat, p: nat, x: Term, end: nat)
    requires Forest(w) && n < |w| && end == p + TermSize(x) && TermOk(x) && x.MethodTerm?
    ensures Means(t, w, n, p, x) == Settled(MeansMethod(w, n, x, end))
  {
  }

  lemma {:induction false} ScopeMeans(t: Table, w: World, n: nat, p: nat, x: Term, end: nat)
    requires Forest(w) && n < |w| && end == p + TermSize(x) && TermOk(x) && x.ScopeTerm?
    ensures Means(t, w, n, p, x) == MeansScope(t, w, n, Chars(x.name), end, x.body)
  {
  }

  lemma {:induction false} DeviceMeans(t: Table, w: World, n: nat, p: nat, x: Term, end: nat)
    requires Forest(w) && n < |w| && end == p + TermSize(x) && TermOk(x) && x.DeviceTerm?
    ensures Means(t, w, n, p, x) == MeansDevice(t, w, n, Chars(x.name), end, x.body)
  {
  }

  lemma {:induction false} NameStep(t: Table, w: World, n: nat, q: nat, key: Seg, r: Read<Data>)
    requires Forest(w) && n < |w| && ParseName(t.mem, q) == Ok(key, q + 4) && r == ParseData(t.mem, CtxOf(t, w, n), q + 4)
    ensures DefName(t, w, n, q) == match r case Fault => None case Ok(d, e) => Some(Bind(w, n, key, Var(d), e))
  {
  }

  lemma {:induction false} NameReads(t: Table, w: World, n: nat, p: nat, key: Seg, d: DataExpr, q: nat, e: nat)
    requires Forest(w) && n < |w| && DataOk(d) && NameAt(t.mem, p, key, d)
    requires q == p + 1 && e == p + 5 + DataSize(d)
    ensures Follows(DefName(t, w, n, q), MeansName(t, w, n, key, d, e))
  {
    var ctx := CtxOf(t, w, n);
    DataReads(t.mem, ctx, p + 5, d, e);
    NameStep(t, w, n, q, key, ParseData(t.mem, ctx, p + 5));
  }

  lemma {:induction false} NameNext(t: Table, w: World, n: nat, p: nat, x: Term, q: nat, end: nat)
    requires Forest(w) && n < |w| && TermOk(x) && x.NameTerm? && w[n].code == p && p < |t.mem| && t.mem[p] == NAME_OP
    requires q == p + 1 && end == p + TermSize(x)
    requires Follows(DefName(t, w, n, q), MeansName(t, w, n, x.key, x.data, end))
    ensures Follows(ParseNext(t, w, n), Means(t, w, n, p, x))
  {
    NextName(t, w, n, p, q);
    NameMeans(t, w, n, p, x, end);
  }

  lemma {:induction false} NameParses(t: Table, w: World, n: nat, p: nat, x: Term, q: nat, end: nat)
    requires Forest(w) && n < |w| && TermOk(x) && x.NameTerm? && w[n].code == p && NameAt(t.mem, p, x.key, x.data)
    requires q == p + 1 && end == p + TermSize(x) && end == p + 5 + DataSize(x.data)
    ensures Follows(ParseNext(t, w, n), Means(t, w, n, p, x))
  {
    NameReads(t, w, n, p, x.key, x.data, q, end);
    NameNext(t, w, n, p, x, q, end);
  }

  lemma RegionStep(t: Table, w: World, n: nat, q: nat, x: Term, e: nat, f: nat)
    requires Forest(w) && n < |w| && x.RegionTerm?
    requires ParseName(t.mem, q) == Ok(x.key, q + 4) && q + 4 < |t.mem| && t.mem[q + 4] == x.space
    requires TermArg(t.mem, EnvOf(t, w, n), q + 5) == Result(Eval(EnvOf(t, w, n), x.offset), e)
    requires TermArg(t.mem, EnvOf(t, w, n), e) == Result(Eval(EnvOf(t, w, n), x.len), f)
    ensures DefOpRegion(t, w, n, q) == MeansRegion(t, w, n, x, f)
  {
  }

  lemma {:induction false} ArgReads(m: seq<Byte>, env: Env, q: nat, a: Expr, e: nat)
    requires ExprOk(a) && ExprAt(m, q, a) && e == q + Size(a)
    ensures TermArg(m, env, q) == Result(Eval(env, a), e)
  {
    ExprReads(m, env, q, a);
  }

  lemma {:induction false} RegionReads(t: Table, w: World, n: nat, q: nat, x: Term, e: nat, f: nat)
    requires Forest(w) && n < |w| && x.RegionTerm? && ExprOk(x.offset) && ExprOk(x.len)
    requires ParseName(t.mem, q) == Ok(x.key, q + 4) && q + 4 < |t.mem| && t.mem[q + 4] == x.space
    requires ExprAt(t.mem, q + 5, x.offset) && ExprAt(t.mem, e, x.len)
    requires e == q + 5 + Size(x.offset) && f == e + Size(x.len)
    ensures DefOpRegion(t, w, n, q) == MeansRegion(t, w, n, x, f)
  {
    ArgReads(t.mem, EnvOf(t, w, n), q + 5, x.offset, e);
    ArgReads(t.mem, EnvOf(t, w, n), e, x.len, f);
    RegionStep(t, w, n, q, x, e, f);
  }

  lemma RegionNext(t: Table, w: World, n: nat, p: nat, x: Term, q: nat, end: nat)
    requires Forest(w) && n < |w| && TermOk(x) && x.RegionTerm? && w[n].code == p
    requires p + 1 < |t.mem| && t.mem[p] == EXT_PREFIX && t.mem[p + 1] == EXT_OP_REGION
    requires q == p + 2 && end == p + TermSize(x) && DefOpRegion(t, w, n, q) == MeansRegion(t, w, n, x, end)
    ensures Follows(ParseNext(t, w, n), Means(t, w, n, p, x))
  {
    NextRegion(t, w, n, p, q);
    RegionMeans(t, w, n, p, x, end);
  }

  lemma {:induction false} RegionParses(t: Table, w: World, n: nat, p: nat, x: Term, q: nat, e: nat, end: nat)
    requires Forest(w) && n < |w| && TermOk(x) && x.RegionTerm? && w[n].code == p
    requires q == p + 2 && e == q + 5 + Size(x.offset) && end == e + Size(x.len) && end == p + TermSize(x)
    requires RegionAt(t.mem, p, x.key, x.space, x.offset, x.len)
    ensures Follows(ParseNext(t, w, n), Means(t, w, n, p, x))
  {
    RegionReads(t, w, n, q, x, e, end);
    RegionNext(t, w, n, p, x, q, end);
  }

  lemma AliasReads(t: Table, w: World, n: nat, q: nat, source: Seg, key: Seg, end: nat)
    requires Forest(w) && n < |w| && end == q + 8
    requires ParseName(t.mem, q) == Ok(source, q + 4) && ParseName(t.mem, q + 4) == Ok(key, end)
    ensures DefAlias(t, w, n, q) == MeansAlias(w, n, source, key, end)
  {
  }

  lemma {:induction false} AliasParses(t: Table, w: World, n: nat, p: nat, x: Term, q: nat, end: nat)
    requires Forest(w) && n < |w| && TermOk(x) && x.AliasTerm? && w[n].code == p && AliasAt(t.mem, p, x.source, x.key)
    requires q == p + 1 && end == q + 8
    ensures Follows(ParseNext(t, w, n), Means(t, w, n, p, x))
  {
    NextAlias(t, w, n, p, q);
    AliasReads(t, w, n, q, x.source, x.key, end);
    AliasMeans(t, w, n, p, x, end);
  }

  lemma {:induction false} SkipParses(t: Table, w: World, n: nat, p: nat, x: Term, q: nat)
    requires Forest(w) && n < |w| && TermOk(x) && x.SkipTerm? && w[n].code == p && SkipAt(t.mem, p, x.op, TermSize(x) - 2)
    requires q == p + 2
    ensures Follows(ParseNext(t, w, n), Means(t, w, n, p, x))
  {
    NextSkip(t, w, n, p, q);
  }

  // ------------------------------------------------------------- terms with a name

  lemma MethodDef(t: Table, w: World, n: nat, q: nat, name: Name, len: nat, e: nat)
    requires Forest(w) && n < |w| && q <= e && HeadAt(t.mem, q, name, len, e)
    ensures DefMethod(t, w, n, q) == MethodAt(t, w, n, q, len, Chars(name), e)
  {
  }

  lemma {:induction false} ScopeDef(t: Table, w: World, n: nat, q: nat, name: Name, len: nat, e: nat)
    requires Forest(w) && n < |w| && HeadAt(t.mem, q, name, len, e)
    ensures DefScope(t, w, n, q) == ScopeAt(t, w, n, q, len, Chars(name), e)
  {
  }

  lemma {:induction false} DeviceDef(t: Table, w: World, n: nat, q: nat, name: Name, len: nat, e: nat)
    requires Forest(w) && n < |w| && HeadAt(t.mem, q, name, len, e)
    ensures DefDevice(t, w, n, q) == DeviceAt(t, w, n, q, len, Chars(name), e)
  {
  }

  /** Exactly the bytes behind the flags are filed as the method's body. */
  lemma {:induction false} MethodFiled(t: Table, w: World, n: nat, q: nat, x: Term, len: nat, e: nat, end: nat)
    requires Forest(w) && n < |w| && TermOk(x) && x.MethodTerm? && end == q + len && e + 1 + |x.bytes| == end && q <= e
    requires e < |t.mem| && t.mem[e] == x.flags
    ensures MethodAt(t, w, n, q, len, Chars(x.name), e) == MeansMethod(w, n, x, end)
  {
    LastSegment(x.name);
    assert BodyLength(len, e + 1 - q) == |x.bytes| && e + 1 == end - |x.bytes|;
  }

  lemma {:induction false} MethodReads(t: Table, w: World, n: nat, q: nat, x: Term, len: nat, e: nat, end: nat)
    requires Forest(w) && n < |w| && TermOk(x) && x.MethodTerm? && end == q + len && e + 1 + |x.bytes| == end && q <= e
    requires HeadAt(t.mem, q, x.name, len, e) && e < |t.mem| && t.mem[e] == x.flags
    ensures DefMethod(t, w, n, q) == MeansMethod(w, n, x, end)
  {
    MethodDef(t, w, n, q, x.name, len, e);
    MethodFiled(t, w, n, q, x, len, e, end);
  }

  lemma {:induction false} MethodNext(t: Table, w: World, n: nat, p: nat, x: Term, q: nat, end: nat)
    requires Forest(w) && n < |w| && TermOk(x) && x.MethodTerm? && w[n].code == p && p < |t.mem| && t.mem[p] == METHOD_OP
    requires q == p + 1 && end == p + TermSize(x) && DefMethod(t, w, n, q) == MeansMethod(w, n, x, end)
    ensures Follows(ParseNext(t, w, n), Means(t, w, n, p, x))
  {
    NextMethod(t, w, n, p, q);
    MethodMeans(t, w, n, p, x, end);
  }

  lemma {:induction false} MethodParses(t: Table, w: World, n: nat, p: nat, x: Term, q: nat, len: nat, e: nat, end: nat)
    requires Forest(w) && n < |w| && TermOk(x) && x.MethodTerm? && w[n].code == p
    requires q == p + 1 && end == p + TermSize(x) && end == q + len && e + 1 + |x.bytes| == end && q <= e
    requires p < |t.mem| && t.mem[p] == METHOD_OP && HeadAt(t.mem, q, x.name, len, e) && e < |t.mem| && t.mem[e] == x.flags
    ensures Follows(ParseNext(t, w, n), Means(t, w, n, p, x))
  {
    MethodReads(t, w, n, q, x, len, e, end);
    MethodNext(t, w, n, p, x, q, end);
  }

  // ------------------------------------------------------------- terms with a body

  /** The body of a term parses as it should, in whichever namespace it is read. */
  predicate BodyParses(t: Table, w: World, s: nat, start: nat, body: seq<Term>, end: nat)
    requires Forest(w) && s < |w| && TermsOk(body)
  {
    SetCodeKeeps(w, s, start);
    Follows(Loop(t, SetCode(w, s, start), s, end), MeansList(t, SetCode(w, s, start), s, start, body))
  }

  lemma {:induction false} ThereParses(t: Table, w: World, s: nat, start: nat, body: seq<Term>, end: nat)
    requires Forest(w) && s < |w| && TermsOk(body) && BodyParses(t, w, s, start, body, end)
    ensures Follows(ParseTermlist(t, w, s, start, end), MeansThere(t, w, s, start, body))
  {
  }

  lemma {:induction false} InsideParses(t: Table, w: World, n: nat, s: nat, start: nat, body: seq<Term>, end: nat)
    requires Forest(w) && n < |w| && s < |w| && TermsOk(body) && end == start + TermsSize(body)
    requires Forest(SetCode(w, n, start))
    requires Follows(ParseTermlist(t, SetCode(w, n, start), s, start, end), MeansThere(t, SetCode(w, n, start), s, start, body))
    ensures Follows(Inside(t, w, n, s, start, end), MeansInside(t, w, n, s, start, body))
  {
  }

  lemma MeansListUnfolds(t: Table, w: World, s: nat, p: nat, ts: seq<Term>, q: nat)
    requires Forest(w) && s < |w| && ts != [] && TermsOk(ts) && q == p + TermSize(ts[0])
    ensures MeansList(t, w, s, p, ts) ==
            match Means(t, w, s, p, ts[0])
            case Does(w1) => MeansList(t, w1, s, q, ts[1..])
            case Stops => Stops
            case Astray => Astray
  {
  }

  lemma {:induction false} LoopStep(t: Table, w: World, s: nat, p: nat, ts: seq<Term>, q: nat, end: nat, r: Option<World>)
    requires Forest(w) && s < |w| && w[s].code == p && ts != [] && TermsOk(ts) && p < end && q == p + TermSize(ts[0])
    requires r == ParseNext(t, w, s) && Follows(r, Means(t, w, s, p, ts[0]))
    requires r.Some? && Means(t, w, s, p, ts[0]).Does? ==>
               Follows(Loop(t, r.value, s, end), MeansList(t, r.value, s, q, ts[1..]))
    ensures Follows(Loop(t, w, s, end), MeansList(t, w, s, p, ts))
  {
    LoopUnfolds(t, w, s, end);
    MeansListUnfolds(t, w, s, p, ts, q);
  }

  lemma {:induction false} ScopeStep(t: Table, w: World, n: nat, q: nat, len: nat, name: seq<Byte>, e: nat, body: seq<Term>, at: Found, end: nat)
    requires Forest(w) && n < |w| && TermsOk(body) && q + len == end == e + TermsSize(body)
    requires at == if |name| == 0 then IsSpace(0) else Locate(w, n, name, true)
    requires at.IsSpace? ==> Follows(Inside(t, w, n, at.id, e, end), MeansInside(t, w, n, at.id, e, body))
    ensures Follows(ScopeAt(t, w, n, q, len, name, e), MeansScope(t, w, n, name, end, body))
  {
  }

  lemma {:induction false} DeviceStep(t: Table, w: World, n: nat, q: nat, len: nat, name: seq<Byte>, e: nat, body: seq<Term>,
                   at: Option<(World, nat)>, end: nat)
    requires Forest(w) && n < |w| && TermsOk(body) && q + len == end == e + TermsSize(body)
    requires at == DeviceSpace(w, n, name, e)
    requires at.Some? ==> Follows(Inside(t, at.value.0, n, at.value.1, e, end), MeansInside(t, at.value.0, n, at.value.1, e, body))
    ensures Follows(DeviceAt(t, w, n, q, len, name, e), MeansDevice(t, w, n, name, end, body))
  {
  }

  lemma {:induction false} ScopeDefMeans(t: Table, w: World, n: nat, q: nat, x: Term, len: nat, e: nat, end: nat)
    requires Forest(w) && n < |w| && TermOk(x) && x.ScopeTerm? && TermsSize(x.body) <= end && HeadAt(t.mem, q, x.name, len, e)
    requires Follows(ScopeAt(t, w, n, q, len, Chars(x.name), e), MeansScope(t, w, n, Chars(x.name), end, x.body))
    ensures Follows(DefScope(t, w, n, q), MeansScope(t, w, n, Chars(x.name), end, x.body))
  {
    ScopeDef(t, w, n, q, x.name, len, e);
  }

  lemma {:induction false} DeviceDefMeans(t: Table, w: World, n: nat, q: nat, x: Term, len: nat, e: nat, end: nat)
    requires Forest(w) && n < |w| && TermOk(x) && x.DeviceTerm? && TermsSize(x.body) <= end && HeadAt(t.mem, q, x.name, len, e)
    requires Follows(DeviceAt(t, w, n, q, len, Chars(x.name), e), MeansDevice(t, w, n, Chars(x.name), end, x.body))
    ensures Follows(DefDevice(t, w, n, q), MeansDevice(t, w, n, Chars(x.name), end, x.body))
  {
    DeviceDef(t, w, n, q, x.name, len, e);
  }

  lemma {:induction false} ScopeNext(t: Table, w: World, n: nat, p: nat, x: Term, q: nat, end: nat)
    requires Forest(w) && n < |w| && TermOk(x) && x.ScopeTerm? && w[n].code == p && p < |t.mem| && t.mem[p] == SCOPE_OP
    requires q == p + 1 && end == p + TermSize(x)
    requires Follows(DefScope(t, w, n, q), MeansScope(t, w, n, Chars(x.name), end, x.body))
    ensures Follows(ParseNext(t, w, n), Means(t, w, n, p, x))
  {
    NextScope(t, w, n, p, q);
    ScopeMeans(t, w, n, p, x, end);
  }

  lemma DeviceNext(t: Table, w: World, n: nat, p: nat, x: Term, q: nat, end: nat)
    requires Forest(w) && n < |w| && TermOk(x) && x.DeviceTerm? && w[n].code == p
    requires p + 1 < |t.mem| && t.mem[p] == EXT_PREFIX && t.mem[p + 1] == EXT_DEVICE
    requires q == p + 2 && end == p + TermSize(x)
    requires Follows(DefDevice(t, w, n, q), MeansDevice(t, w, n, Chars(x.name), end, x.body))
    ensures Follows(ParseNext(t, w, n), Means(t, w, n, p, x))
  {
    NextDevice(t, w, n, p, q);
    DeviceMeans(t, w, n, p, x, end);
  }

  // The recursion: terms need their bodies, lists their terms.

  lemma {:induction false} ThereReads(t: Table, w: World, s: nat, start: nat, body: seq<Term>, end: nat)
    requires Forest(w) && s < |w| && TermsOk(body) && TermsAt(t.mem, start, body) && end == start + TermsSize(body)
    ensures Follows(ParseTermlist(t, w, s, start, end), MeansThere(t, w, s, start, body))
    decreases body, 2
  {
    SetCodeKeeps(w, s, start);
    LoopParses(t, SetCode(w, s, start), s, start, body, end);
    ThereParses(t, w, s, start, body, end);
  }

  lemma {:induction false} BodyReads(t: Table, w: World, n: nat, s: nat, start: nat, body: seq<Term>, end: nat)
    requires Forest(w) && n < |w| && s < |w| && TermsOk(body) && TermsAt(t.mem, start, body)
    requires end == start + TermsSize(body)
    ensures Follows(Inside(t, w, n, s, start, end), MeansInside(t, w, n, s, start, body))
    decreases body, 3
  {
    SetCodeKeeps(w, n, start);
    ThereReads(t, SetCode(w, n, start), s, start, body, end);
    InsideParses(t, w, n, s, start, body, end);
  }

  lemma {:induction false} ScopeReads(t: Table, w: World, n: nat, q: nat, name: seq<Byte>, len: nat, e: nat, body: seq<Term>, end: nat)
    requires Forest(w) && n < |w| && TermsOk(body) && TermsAt(t.mem, e, body) && q + len == end == e + TermsSize(body)
    ensures Follows(ScopeAt(t, w, n, q, len, name, e), MeansScope(t, w, n, name, end, body))
    decreases body, 4
  {
    var at := if |name| == 0 then IsSpace(0) else Locate(w, n, name, true);
    if at.IsSpace? { BodyReads(t, w, n, at.id, e, body, end); }
    ScopeStep(t, w, n, q, len, name, e, body, at, end);
  }

  lemma {:induction false} DeviceReads(t: Table, w: World, n: nat, q: nat, name: seq<Byte>, len: nat, e: nat, body: seq<Term>, end: nat)
    requires Forest(w) && n < |w| && TermsOk(body) && TermsAt(t.mem, e, body) && q + len == end == e + TermsSize(body)
    ensures Follows(DeviceAt(t, w, n, q, len, name, e), MeansDevice(t, w, n, name, end, body))
    decreases body, 4
  {
    var at := DeviceSpace(w, n, name, e);
    if at.Some? { BodyReads(t, at.value.0, n, at.value.1, e, body, end); }
    DeviceStep(t, w, n, q, len, name, e, body, at, end);
  }

  lemma {:induction false} ScopeParses(t: Table, w: World, n: nat, p: nat, x: Term, q: nat, len: nat, e: nat, end: nat)
    requires Forest(w) && n < |w| && TermOk(x) && x.ScopeTerm? && w[n].code == p
    requires q == p + 1 && end == p + TermSize(x) && q + len == end == e + TermsSize(x.body)
    requires p < |t.mem| && t.mem[p] == SCOPE_OP && HeadAt(t.mem, q, x.name, len, e) && TermsAt(t.mem, e, x.body)
    ensures Follows(ParseNext(t, w, n), Means(t, w, n, p, x))
    decreases x, 0
  {
    ScopeReads(t, w, n, q, Chars(x.name), len, e, x.body, end);
    ScopeDefMeans(t, w, n, q, x, len, e, end);
    ScopeNext(t, w, n, p, x, q, end);
  }

  lemma {:induction false} DeviceParses(t: Table, w: World, n: nat, p: nat, x: Term, q: nat, len: nat, e: nat, end: nat)
    requires Forest(w) && n < |w| && TermOk(x) && x.DeviceTerm? && w[n].code == p
    requires q == p + 2 && end == p + TermSize(x) && q + len == end == e + TermsSize(x.body)
    requires p + 1 < |t.mem| && t.mem[p] == EXT_PREFIX && t.mem[p + 1] == EXT_DEVICE
    requires HeadAt(t.mem, q, x.name, len, e) && TermsAt(t.mem, e, x.body)
    ensures Follows(ParseNext(t, w, n), Means(t, w, n, p, x))
    decreases x, 0
  {
    DeviceReads(t, w, n, q, Chars(x.name), len, e, x.body, end);
    DeviceDefMeans(t, w, n, q, x, len, e, end);
    DeviceNext(t, w, n, p, x, q, end);
  }

  lemma {:induction false} PlainParses(t: Table, w: World, n: nat, p: nat, x: Term, end: nat)
    requires Forest(w) && n < |w| && TermOk(x) && TermAt(t.mem, p, x) && w[n].code == p && end == p + TermSize(x)
    requires !x.MethodTerm? && !x.ScopeTerm? && !x.DeviceTerm?
    ensures Follows(ParseNext(t, w, n), Means(t, w, n, p, x))
  {
    match x {
      case NameTerm(_, _) => NameParses(t, w, n, p, x, p + 1, end);
      case RegionTerm(_, _, _, _) => RegionParses(t, w, n, p, x, p + 2, p + 7 + Size(x.offset), end);
      case AliasTerm(_, _) => AliasParses(t, w, n, p, x, p + 1, end);
      case SkipTerm(_, _, _) => SkipParses(t, w, n, p, x, p + 2);
    }
  }

  lemma {:induction false} MethodTermParses(t: Table, w: World, n: nat, p: nat, x: Term, q: nat, len: nat, e: nat, end: nat)
    requires Forest(w) && n < |w| && TermOk(x) && x.MethodTerm? && TermAt(t.mem, p, x) && w[n].code == p
    requires q == p + 1 && len == TermSize(x) - 1 && e == BodyStart(p, x) - 1 && end == p + TermSize(x)
    ensures Follows(ParseNext(t, w, n), Means(t, w, n, p, x))
  {
    MethodParts(t.mem, p, x, q, len, e, end);
    MethodParses(t, w, n, p, x, q, len, e, end);
  }

  lemma {:induction false} ScopeTermParses(t: Table, w: World, n: nat, p: nat, x: Term, q: nat, len: nat, e: nat, end: nat)
    requires Forest(w) && n < |w| && TermOk(x) && x.ScopeTerm? && TermAt(t.mem, p, x) && w[n].code == p
    requires q == p + 1 && len == TermSize(x) - 1 && e == BodyStart(p, x) && end == p + TermSize(x)
    ensures Follows(ParseNext(t, w, n), Means(t, w, n, p, x))
    decreases x, 1
  {
    ScopeParts(t.mem, p, x, q, len, e, end);
    ScopeParses(t, w, n, p, x, q, len, e, end);
  }

  lemma {:induction false} DeviceTermParses(t: Table, w: World, n: nat, p: nat, x: Term, q: nat, len: nat, e: nat, end: nat)
    requires Forest(w) && n < |w| && TermOk(x) && x.DeviceTerm? && TermAt(t.mem, p, x) && w[n].code == p
    requires q == p + 2 && len == TermSize(x) - 2 && e == BodyStart(p, x) && end == p + TermSize(x)
    ensures Follows(ParseNext(t, w, n), Means(t, w, n, p, x))
    decreases x, 1
  {
    DeviceParts(t.mem, p, x, q, len, e, end);
    DeviceParses(t, w, n, p, x, q, len, e, end);
  }

  lemma {:induction false} NextParses(t: Table, w: World, n: nat, p: nat, x: Term)
    requires Forest(w) && n < |w| && TermOk(x) && TermAt(t.mem, p, x) && w[n].code == p
    ensures Follows(ParseNext(t, w, n), Means(t, w, n, p, x))
    decreases x, 2
  {
    match x {
      case MethodTerm(_, _, _, _) =>
        MethodTermParses(t, w, n, p, x, p + 1, TermSize(x) - 1, BodyStart(p, x) - 1, p + TermSize(x));
      case ScopeTerm(_, _, _) =>
        ScopeTermParses(t, w, n, p, x, p + 1, TermSize(x) - 1, BodyStart(p, x), p + TermSize(x));
      case DeviceTerm(_, _, _) =>
        DeviceTermParses(t, w, n, p, x, p + 2, TermSize(x) - 2, BodyStart(p, x), p + TermSize(x));
      case _ => PlainParses(t, w, n, p, x, p + TermSize(x));
    }
  }

  lemma {:induction false} LoopEnds(t: Table, w: World, s: nat, p: nat)
    requires Forest(w) && s < |w| && w[s].code == p
    ensures Follows(Loop(t, w, s, p), MeansList(t, w, s, p, []))
  {
  }

  lemma {:induction false} Advances(t: Table, w: World, s: nat, p: nat, x: Term, o: Outcome)
    requires Forest(w) && s < |w| && TermOk(x) && o == Means(t, w, s, p, x)
    ensures o.Does? ==> Forest(o.world) && s < |o.world| && o.world[s].code == p + TermSize(x)
  {
  }

  lemma {:induction false} LoopParses(t: Table, w: World, s: nat, p: nat, ts: seq<Term>, end: nat)
    requires Forest(w) && s < |w| && w[s].code == p && TermsOk(ts) && TermsAt(t.mem, p, ts) && end == p + TermsSize(ts)
    ensures Follows(Loop(t, w, s, end), MeansList(t, w, s, p, ts))
    decreases ts, 1
  {
    if ts == [] {
      LoopEnds(t, w, s, p);
    } else {
      ConsParses(t, w, s, p, ts, p + TermSize(ts[0]), end);
    }
  }

  lemma {:induction false} ConsParses(t: Table, w: World, s: nat, p: nat, ts: seq<Term>, q: nat, end: nat)
    requires Forest(w) && s < |w| && w[s].code == p && ts != [] && TermsOk(ts) && TermsAt(t.mem, p, ts)
    requires q == p + TermSize(ts[0]) && end == p + TermsSize(ts)
    ensures Follows(Loop(t, w, s, end), MeansList(t, w, s, p, ts))
    decreases ts, 0, 2
  {
    TermsSplit(t.mem, p, ts, q);
    StepParses(t, w, s, p, ts, q, end, ParseNext(t, w, s));
  }

  lemma {:induction false} StepParses(t: Table, w: World, s: nat, p: nat, ts: seq<Term>, q: nat, end: nat, r: Option<World>)
    requires Forest(w) && s < |w| && w[s].code == p && ts != [] && TermsOk(ts) && r == ParseNext(t, w, s)
    requires q == p + TermSize(ts[0]) && end == p + TermsSize(ts) && end == q + TermsSize(ts[1..])
    requires TermAt(t.mem, p, ts[0]) && TermsAt(t.mem, q, ts[1..])
    ensures Follows(Loop(t, w, s, end), MeansList(t, w, s, p, ts))
    decreases ts, 0, 1
  {
    var o := Means(t, w, s, p, ts[0]);
    HeadParses(t, w, s, p, ts, r, q, o);
    if o.Does? { TailParses(t, o.world, s, q, ts, end); }
    LoopStep(t, w, s, p, ts, q, end, r);
  }

  lemma {:induction false} HeadParses(t: Table, w: World, s: nat, p: nat, ts: seq<Term>, r: Option<World>, q: nat, o: Outcome)
    requires Forest(w) && s < |w| && w[s].code == p && ts != [] && TermsOk(ts) && TermAt(t.mem, p, ts[0])
    requires r == ParseNext(t, w, s) && q == p + TermSize(ts[0]) && o == Means(t, w, s, p, ts[0])
    ensures Follows(r, o)
    ensures o.Does? ==> Forest(o.world) && s < |o.world| && o.world[s].code == q
    decreases ts, 0, 0
  {
    NextParses(t, w, s, p, ts[0]);
    Advances(t, w, s, p, ts[0], o);
  }

  lemma {:induction false} TailParses(t: Table, w: World, s: nat, q: nat, ts: seq<Term>, end: nat)
    requires Forest(w) && s < |w| && ts != [] && TermsOk(ts) && end == q + TermsSize(ts[1..])
    requires w[s].code == q && TermsAt(t.mem, q, ts[1..])
    ensures Follows(Loop(t, w, s, end), MeansList(t, w, s, q, ts[1..]))
    decreases ts, 0, 0
  {
    LoopParses(t, w, s, q, ts[1..], end);
  }

  // --------------------------------------------------- numbers that use no names

  /** Every package in the term says its number of elements without using a name. */
  predicate TermCounted(x: Term) {
    match x
    case NameTerm(_, d) => Counted(d)
    case ScopeTerm(_, _, body) => TermsCounted(body)
    case DeviceTerm(_, _, body) => TermsCounted(body)
    case _ => true
  }

  predicate TermsCounted(ts: seq<Term>) {
    ts == [] || (TermCounted(ts[0]) && TermsCounted(ts[1..]))
  }

  /** Then it never goes astray. */
  lemma {:induction false} NeverAstray(t: Table, w: World, n: nat, p: nat, x: Term)
    requires Forest(w) && n < |w| && TermOk(x) && TermCounted(x)
    ensures !Means(t, w, n, p, x).Astray?
    decreases x, 3
  {
    match x {
      case NameTerm(_, d) => CountedIsNumbered(CtxOf(t, w, n), d);
      case ScopeTerm(_, name, body) =>
        var at := if Chars(name) == [] then IsSpace(0) else Locate(w, n, Chars(name), true);
        if at.IsSpace? { InsideNeverAstray(t, w, n, at.id, p + TermSize(x) - TermsSize(body), body); }
      case DeviceTerm(_, name, body) =>
        var at := DeviceSpace(w, n, Chars(name), p + TermSize(x) - TermsSize(body));
        if at.Some? { InsideNeverAstray(t, at.value.0, n, at.value.1, p + TermSize(x) - TermsSize(body), body); }
      case _ =>
    }
  }

  lemma {:induction false} InsideNeverAstray(t: Table, w: World, n: nat, s: nat, start: nat, body: seq<Term>)
    requires Forest(w) && n < |w| && s < |w| && TermsOk(body) && TermsCounted(body)
    ensures !MeansInside(t, w, n, s, start, body).Astray?
    decreases body, 3
  {
    SetCodeKeeps(w, n, start);
    ThereNeverAstray(t, SetCode(w, n, start), s, start, body);
  }

  lemma {:induction false} ThereNeverAstray(t: Table, w: World, s: nat, start: nat, body: seq<Term>)
    requires Forest(w) && s < |w| && TermsOk(body) && TermsCounted(body)
    ensures !MeansThere(t, w, s, start, body).Astray?
    decreases body, 2
  {
    SetCodeKeeps(w, s, start);
    ListNeverAstray(t, SetCode(w, s, start), s, start, body);
  }

  lemma {:induction false} ListNeverAstray(t: Table, w: World, s: nat, p: nat, ts: seq<Term>)
    requires Forest(w) && s < |w| && TermsOk(ts) && TermsCounted(ts)
    ensures !MeansList(t, w, s, p, ts).Astray?
    decreases ts, 1
  {
    if ts != [] {
      var o, q := Means(t, w, s, p, ts[0]), p + TermSize(ts[0]);
      HeadNeverAstray(t, w, s, p, ts);
      if o.Does? { ListNeverAstray(t, o.world, s, q, ts[1..]); }
      MeansListUnfolds(t, w, s, p, ts, q);
    }
  }

  lemma {:induction false} HeadNeverAstray(t: Table, w: World, s: nat, p: nat, ts: seq<Term>)
    requires Forest(w) && s < |w| && ts != [] && TermsOk(ts) && TermsCounted(ts)
    ensures !Means(t, w, s, p, ts[0]).Astray?
    decreases ts, 0
  {
    NeverAstray(t, w, s, p, ts[0]);
  }

  // ------------------------------------------------------------------ theorems

  /** One term: parse_next on its encoding does what the term means, unless that goes
      astray; and it never does when the numbers use no names. */
  lemma {:induction false} TermParses(t: Table, w: World, n: nat, p: nat, x: Term)
    requires Forest(w) && n < |w| && TermOk(x) && Stands(t.mem, p, EncodeTerm(x)) && w[n].code == p
    requires p + TermSize(x) + Behind(x) <= |t.mem|
    ensures Follows(ParseNext(t, w, n), Means(t, w, n, p, x))
    ensures TermCounted(x) ==> Means(t, w, n, p, x) == Settled(ParseNext(t, w, n))
  {
    TermStands(t.mem, p, x);
    NextParses(t, w, n, p, x);
    if TermCounted(x) { NeverAstray(t, w, n, p, x); }
  }

  /** A term list: the loop of parse_termlist does what the terms mean, one after
      the other. */
  lemma {:induction false} ListParses(t: Table, w: World, s: nat, p: nat, ts: seq<Term>, end: nat)
    requires Forest(w) && s < |w| && w[s].code == p && TermsOk(ts) && Stands(t.mem, p, EncodeTerms(ts))
    requires end == p + |EncodeTerms(ts)| && end + AllBehind(ts) <= |t.mem|
    ensures Follows(Loop(t, w, s, end), MeansList(t, w, s, p, ts))
    ensures TermsCounted(ts) ==> MeansList(t, w, s, p, ts) == Settled(Loop(t, w, s, end))
  {
    TermsStand(t.mem, p, ts);
    LoopParses(t, w, s, p, ts, end);
    if TermsCounted(ts) { ListNeverAstray(t, w, s, p, ts); }
  }

  lemma {:induction false} MeansStops(t: Table, w: World, s: nat, p: nat, ts: seq<Term>, o: Outcome)
    requires Forest(w) && s < |w| && w[s].code == p && TermsOk(ts) && o == MeansList(t, w, s, p, ts)
    ensures o.Does? ==> s < |o.world| && o.world[s].code == p + TermsSize(ts)
  {
  }

  /** And it stops exactly at their end. */
  lemma {:induction false} ListStops(t: Table, w: World, s: nat, p: nat, ts: seq<Term>, end: nat, r: Option<World>)
    requires Forest(w) && s < |w| && w[s].code == p && TermsOk(ts) && Stands(t.mem, p, EncodeTerms(ts))
    requires end == p + |EncodeTerms(ts)| && end + AllBehind(ts) <= |t.mem| && r == Loop(t, w, s, end)
    ensures r.Some? && !MeansList(t, w, s, p, ts).Astray? ==> s < |r.value| && r.value[s].code == end
    ensures r.Some? && TermsCounted(ts) ==> s < |r.value| && r.value[s].code == end
  {
    ListParses(t, w, s, p, ts, end);
    MeansStops(t, w, s, p, ts, MeansList(t, w, s, p, ts));
  }

  /** parse_termlist on an encoded list does what its terms mean in namespace s, and
      leaves every cursor where it was. */
  lemma {:induction false} TermlistParses(t: Table, w: World, s: nat, start: nat, ts: seq<Term>, end: nat, r: Option<World>)
    requires Forest(w) && s < |w| && TermsOk(ts) && Stands(t.mem, start, EncodeTerms(ts)) && end == start + |EncodeTerms(ts)|
    requires end + AllBehind(ts) <= |t.mem| && r == ParseTermlist(t, w, s, start, end)
    ensures Follows(r, MeansThere(t, w, s, start, ts))
    ensures TermsCounted(ts) ==> MeansThere(t, w, s, start, ts) == Settled(r)
    ensures r.Some? ==> forall i :: 0 <= i < |w| ==> i < |r.value| && r.value[i].code == w[i].code
  {
    TermsStand(t.mem, start, ts);
    ThereReads(t, w, s, start, ts, end);
    if TermsCounted(ts) { ThereNeverAstray(t, w, s, start, ts); }
    CursorsKept(t, w, s, start, end, r);
  }

  lemma {:induction false} CursorsKept(t: Table, w: World, s: nat, start: nat, end: nat, r: Option<World>)
    requires Forest(w) && s < |w| && r == ParseTermlist(t, w, s, start, end)
    ensures r.Some? ==> forall i :: 0 <= i < |w| ==> i < |r.value| && r.value[i].code == w[i].code
  {
    if r.Some? {
      forall i | 0 <= i < |w| ensures i < |r.value| && r.value[i].code == w[i].code {
        assert Kept(w, r.value, |w|, i);
      }
    }
  }
}
