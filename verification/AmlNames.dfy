/**
 The AML namespace tree and name lookup (lethe-aml/aml/namespace.c, name.c and
 helpers.c; section 5.3 of the ACPI Specification).  Namespaces are numbered in
 the order of their creation; number 0 is the root.
 */
module AmlNames {
  import opened Wrappers
  import opened Fnv
  import opened AmlSyntax

  /** The value of a Name object; a reference is the absolute name of an object, as an
      element of a package. */
  datatype Data = ByteData(b: nat) | ShortData(w: nat) | IntData(d: nat) | LongData(q: nat)
                | StrData(chars: seq<Byte>) | BufData(bytes: seq<Byte>)
                | PkgData(elements: seq<Data>) | RefData(name: seq<Byte>)

  datatype Obj = Var(data: Data)
               | Region(space: nat, offset: nat, len: nat)
               | Method(flags: nat, len: nat, code: nat, scope: nat)
               | Field(id: nat)

  /** aml_namespace_t. */
  datatype Space = Space(parent: Option<nat>, name: Seg, code: nat, children: map<Seg, Obj>, namespaces: map<Seg, nat>)

  type World = seq<Space>

  /** Parents and sub-namespaces exist; a namespace is created after its parent and
      filed there under its own name. */
  predicate SpaceOk(w: World, n: nat)
    requires n < |w|
  {
    && (w[n].parent.Some? ==> w[n].parent.value < n)
    && (forall k :: k in w[n].namespaces ==>
          n < w[n].namespaces[k] < |w| && w[w[n].namespaces[k]].name == k && w[w[n].namespaces[k]].parent == Some(n))
  }

  predicate Forest(w: World) {
    0 < |w| && forall n {:trigger SpaceOk(w, n)} :: 0 <= n < |w| ==> SpaceOk(w, n)
  }

  // ------------------------------------------------------------------ lookup

  /** What locate_object returns: a namespace, an object, NULL, or no return. */
  datatype Found = IsSpace(id: nat) | IsObj(obj: Obj) | Missing | Exit

  function GetIn(w: World, n: nat, key: Seg, wantSpace: bool): (r: Found)
    requires Forest(w) && n < |w|
    ensures r.IsSpace? ==> wantSpace && n < r.id < |w|
    ensures r.IsObj? ==> !wantSpace
    ensures !r.Exit?
  {
    assert SpaceOk(w, n);
    if wantSpace then if key in w[n].namespaces then IsSpace(w[n].namespaces[key]) else Missing
    else if key in w[n].children then IsObj(w[n].children[key]) else Missing
  }

  /** stage3: the nearest enclosing binding. */
  function Nearest(w: World, n: nat, key: Seg, wantSpace: bool): (r: Found)
    requires Forest(w) && n < |w|
    ensures r.IsSpace? ==> r.id < |w|
    ensures !r.Exit?
    decreases n
  {
    assert SpaceOk(w, n);
    var here := GetIn(w, n, key, wantSpace);
    if !here.Missing? then here
    else if w[n].parent.Some? then Nearest(w, w[n].parent.value, key, wantSpace)
    else Missing
  }

  /** The namespace d levels up from n. */
  function Ancestor(w: World, n: nat, d: nat): (r: Option<nat>)
    requires Forest(w) && n < |w|
    ensures r.Some? ==> r.value < |w|
    decreases d
  {
    assert SpaceOk(w, n);
    if d == 0 then Some(n)
    else if w[n].parent.Some? then Ancestor(w, w[n].parent.value, d - 1)
    else None
  }

  /** A bare segment finds r just when r is bound d levels up and nothing nearer is. */
  lemma {:induction false} NearestIsNearest(w: World, n: nat, key: Seg, wantSpace: bool) returns (d: nat)
    requires Forest(w) && n < |w|
    ensures Nearest(w, n, key, wantSpace).Missing? ==>
              forall e :: Ancestor(w, n, e).Some? ==> GetIn(w, Ancestor(w, n, e).value, key, wantSpace).Missing?
    ensures !Nearest(w, n, key, wantSpace).Missing? ==>
              && Ancestor(w, n, d).Some? && GetIn(w, Ancestor(w, n, d).value, key, wantSpace) == Nearest(w, n, key, wantSpace)
              && forall e :: 0 <= e < d ==> Ancestor(w, n, e).Some? && GetIn(w, Ancestor(w, n, e).value, key, wantSpace).Missing?
    decreases n
  {
    assert SpaceOk(w, n);
    d := 0;
    if GetIn(w, n, key, wantSpace).Missing? && w[n].parent.Some? {
      var p := w[n].parent.value;
      var dp := NearestIsNearest(w, p, key, wantSpace);
      d := dp + 1;
      forall e: nat | e > 0 && Ancestor(w, n, e).Some? ensures Ancestor(w, n, e) == Ancestor(w, p, e - 1) {
      }
      if !Nearest(w, n, key, wantSpace).Missing? {
        forall e | 0 <= e < d ensures Ancestor(w, n, e).Some? && GetIn(w, Ancestor(w, n, e).value, key, wantSpace).Missing? {
          if e > 0 { assert Ancestor(w, n, e) == Ancestor(w, p, e - 1); }
        }
      }
    }
  }

  /** The loop of resolve_scope: one step down per segment. */
  function Down(w: World, n: nat, path: seq<Byte>): (r: Option<nat>)
    requires Forest(w) && n < |w| && |path| % 4 == 0
    ensures r.Some? ==> n <= r.value < |w| && (path != [] ==> n < r.value)
    decreases |path|
  {
    if path == [] then Some(n)
    else
      assert SpaceOk(w, n);
      if path[..4] in w[n].namespaces then Down(w, w[n].namespaces[path[..4]], path[4..]) else None
  }

  /** resolve_scope: an empty path is no scope. */
  function ResolveScope(w: World, n: nat, path: seq<Byte>): (r: Option<nat>)
    requires Forest(w) && n < |w|
    ensures r.Some? ==> r.value < |w|
  {
    if |path| % 4 != 0 then None
    else
      var r := Down(w, n, path);
      if r == Some(n) then None else r
  }

  /** stage2: the last segment in the scope the others lead to. */
  function Stage2(w: World, n: nat, key: seq<Byte>, wantSpace: bool): (r: Found)
    requires Forest(w) && n < |w|
    ensures r.IsSpace? ==> r.id < |w|
    ensures !r.Exit?
  {
    if |key| < 4 then Missing
    else if |key| == 4 then GetIn(w, n, key, wantSpace)
    else
      var at := |key| - 4;
      match ResolveScope(w, n, key[..at])
      case Some(s) => GetIn(w, s, key[at..], wantSpace)
      case None => Missing
  }

  predicate NameChar(b: Byte) {
    65 <= b <= 90 || 48 <= b <= 57 || b == 95
  }

  predicate CharOk(key: seq<Byte>, i: nat) {
    i < |key| && NameChar(key[i])
  }

  /** valid_name: a prefix character may come first. */
  predicate ValidName(key: seq<Byte>) {
    var start := if |key| > 0 && PrefixChar(key[0]) then 1 else 0;
    forall i {:trigger CharOk(key, i)} :: start <= i < |key| ==> CharOk(key, i)
  }

  /** locate_object. */
  function Locate(w: World, n: nat, key: seq<Byte>, wantSpace: bool): (r: Found)
    requires Forest(w) && n < |w|
    ensures r.IsSpace? ==> r.id < |w|
  {
    if |key| == 1 then IsSpace(0)
    else if !ValidName(key) then Exit
    else if |key| == 4 then Nearest(w, n, key, wantSpace)
    else if |key| > 0 && key[0] == PARENT_CHAR then
      assert SpaceOk(w, n);
      if w[n].parent.None? then Missing else Stage2(w, w[n].parent.value, key[1..], wantSpace)
    else if |key| > 0 && key[0] == ROOT_CHAR then Stage2(w, 0, key[1..], wantSpace)
    else Stage2(w, n, key, wantSpace)
  }

  /** What locate_object does to the caller's buffer: a prefix character is shifted
      out in place, so the last character then stands twice. */
  function Shifted(w: World, n: nat, key: seq<Byte>): seq<Byte>
    requires n < |w|
  {
    if |key| < 2 || |key| == 4 || !ValidName(key) || !PrefixChar(key[0]) || (key[0] == PARENT_CHAR && w[n].parent.None?) then key
    else key[1..] + [key[|key| - 1]]
  }

  // ------------------------------------------------------------ absolute names

  /** The names from below the root down to n. */
  function PathTo(w: World, n: nat): (path: seq<Byte>)
    requires Forest(w) && n < |w|
    ensures |path| % 4 == 0
    decreases n
  {
    assert SpaceOk(w, n);
    if w[n].parent.None? then [] else PathTo(w, w[n].parent.value) + w[n].name
  }

  /** n hangs below the root by links its parents hold, and its path is well named. */
  predicate Hangs(w: World, n: nat)
    requires Forest(w) && n < |w|
    decreases n
  {
    assert SpaceOk(w, n);
    if w[n].parent.None? then n == 0
    else
      var p := w[n].parent.value;
      && w[n].name in w[p].namespaces && w[p].namespaces[w[n].name] == n
      && (forall i :: 0 <= i < 4 ==> NameChar(w[n].name[i]))
      && Hangs(w, p)
  }

  /** The last namespace on the way up from n. */
  function Top(w: World, n: nat): (r: nat)
    requires Forest(w) && n < |w|
    ensures r <= n
    decreases n
  {
    assert SpaceOk(w, n);
    if w[n].parent.None? then n else Top(w, w[n].parent.value)
  }

  /** resolve_name: the absolute form of a key in namespace n.  The source stops at
      an assertion for keys that start with '^' and for namespaces that do not lead
      up to the root. */
  function ResolveName(w: World, n: nat, key: seq<Byte>): (r: Option<seq<Byte>>)
    requires Forest(w) && n < |w|
  {
    if |key| > 0 && key[0] == PARENT_CHAR then None
    else if n == 0 || (|key| > 0 && key[0] == ROOT_CHAR) then Some(key)
    else if Top(w, n) != 0 then None
    else Some([ROOT_CHAR] + PathTo(w, n) + key)
  }

  lemma {:induction false} DownAppend(w: World, n: nat, xs: seq<Byte>, ys: seq<Byte>)
    requires Forest(w) && n < |w| && |xs| % 4 == 0 && |ys| % 4 == 0
    ensures Down(w, n, xs + ys) ==
            match Down(w, n, xs) case Some(m) => Down(w, m, ys) case None => None
    decreases |xs|
  {
    if xs == [] {
      assert xs + ys == ys;
    } else {
      assert SpaceOk(w, n);
      assert (xs + ys)[..4] == xs[..4] && (xs + ys)[4..] == xs[4..] + ys;
      if xs[..4] in w[n].namespaces { DownAppend(w, w[n].namespaces[xs[..4]], xs[4..], ys); }
    }
  }

  lemma {:induction false} PathLeadsThere(w: World, n: nat)
    requires Forest(w) && n < |w| && Hangs(w, n)
    ensures Down(w, 0, PathTo(w, n)) == Some(n)
    ensures forall i :: 0 <= i < |PathTo(w, n)| ==> NameChar(PathTo(w, n)[i])
    ensures (w[n].parent.Some? ==> |PathTo(w, n)| >= 4) && Top(w, n) == 0
    decreases n
  {
    assert SpaceOk(w, n);
    if w[n].parent.Some? {
      var p := w[n].parent.value;
      PathLeadsThere(w, p);
      DownAppend(w, 0, PathTo(w, p), w[n].name);
      assert w[n].name[..4] == w[n].name && w[n].name[4..] == [];
      assert Down(w, p, w[n].name) == Some(n);
    }
  }

  /** Looking up the resolved name of a key of n, from any scope, finds exactly n's
      own binding of that key. */
  lemma {:induction false} ResolveRoundTrip(w: World, n: nat, key: Seg, from: nat, wantSpace: bool)
    requires Forest(w) && n < |w| && Hangs(w, n) && n != 0 && from < |w|
    requires forall i :: 0 <= i < 4 ==> NameChar(key[i])
    ensures ResolveName(w, n, key).Some?
    ensures Locate(w, from, ResolveName(w, n, key).value, wantSpace) == GetIn(w, n, key, wantSpace)
  {
    PathLeadsThere(w, n);
    assert SpaceOk(w, n);
    var path := PathTo(w, n);
    var full := ResolveName(w, n, key).value;
    assert full == [ROOT_CHAR] + path + key;
    assert full[1..] == path + key;
    var at := |path + key| - 4;
    assert (path + key)[..at] == path && (path + key)[at..] == key;
    assert ValidName(full) by {
      forall i | 1 <= i < |full| ensures CharOk(full, i) {
        if i <= |path| { assert full[i] == path[i - 1]; } else { assert full[i] == key[i - 1 - |path|]; }
      }
    }
  }
}
