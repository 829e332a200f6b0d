/**
 Name lookup as the AML reader does it (lethe-aml/aml/helpers.c and name.c): loops
 over the namespaces and buffers changed in place, proved against AmlNames.
 */
module AmlLookup {
  import opened Wrappers
  import opened Fnv
  import opened AmlSyntax
  import opened AmlNames

  /** stage3: up from n until the key is bound. */
  method Stage3(w: World, n: nat, key: Seg, wantSpace: bool) returns (r: Found)
    requires Forest(w) && n < |w|
    ensures r == Nearest(w, n, key, wantSpace)
  {
    var current: nat := n;
    while true
      invariant current < |w| && Nearest(w, n, key, wantSpace) == Nearest(w, current, key, wantSpace)
      decreases current
    {
      assert SpaceOk(w, current);
      var here := GetIn(w, current, key, wantSpace);
      if !here.Missing? { return here; }
      if w[current].parent.None? { return Missing; }
      current := w[current].parent.value;
    }
  }

  /** resolve_scope: down from n, one segment at a time. */
  method FollowPath(w: World, n: nat, path: seq<Byte>) returns (r: Option<nat>)
    requires Forest(w) && n < |w|
    ensures r == ResolveScope(w, n, path)
  {
    if |path| % 4 != 0 { return None; }
    var next: nat, i := n, 0;
    while i < |path|
      invariant 0 <= i <= |path| && i % 4 == 0 && next < |w|
      invariant Down(w, n, path) == Down(w, next, path[i..])
    {
      var key := path[i..i + 4];
      assert SpaceOk(w, next);
      assert path[i..][..4] == key && path[i..][4..] == path[i + 4..];
      if key !in w[next].namespaces { return None; }
      next := w[next].namespaces[key];
      i := i + 4;
    }
    r := if next == n then None else Some(next);
  }

  method Stage2Lookup(w: World, n: nat, key: seq<Byte>, wantSpace: bool) returns (r: Found)
    requires Forest(w) && n < |w|
    ensures r == Stage2(w, n, key, wantSpace)
  {
    if |key| == 4 { return GetIn(w, n, key, wantSpace); }
    if |key| < 4 { return Missing; }
    var at := |key| - 4;
    var scope := FollowPath(w, n, key[..at]);
    if scope.None? { return Missing; }
    r := GetIn(w, scope.value, key[at..], wantSpace);
  }

  method CheckName(key: seq<Byte>) returns (ok: bool)
    ensures ok == ValidName(key)
  {
    var start := if |key| > 0 && PrefixChar(key[0]) then 1 else 0;
    var i := start;
    while i < |key|
      invariant start <= i && (i <= |key| || |key| == 0)
      invariant forall j {:trigger CharOk(key, j)} :: start <= j < i ==> CharOk(key, j)
    {
      if !NameChar(key[i]) {
        assert !CharOk(key, i);
        return false;
      }
      assert CharOk(key, i);
      i := i + 1;
    }
    return true;
  }

  /** memmove of everything but the first byte to the front. */
  method DropFirst(key: array<Byte>)
    requires key.Length > 0
    modifies key
    ensures key[..] == old(key[1..]) + [old(key[key.Length - 1])]
  {
    var i := 0;
    while i < key.Length - 1
      invariant 0 <= i <= key.Length - 1
      invariant forall j :: 0 <= j < i ==> key[j] == old(key[j + 1])
      invariant forall j :: i <= j < key.Length ==> key[j] == old(key[j])
    {
      key[i] := key[i + 1];
      i := i + 1;
    }
  }

  /** locate_object: the answer, and what it leaves in the caller's buffer. */
  method LocateObject(w: World, n: nat, key: array<Byte>, wantSpace: bool) returns (r: Found)
    requires Forest(w) && n < |w|
    modifies key
    ensures r == Locate(w, n, old(key[..]), wantSpace)
    ensures key[..] == Shifted(w, n, old(key[..]))
  {
    if key.Length == 1 { return IsSpace(0); }
    var valid := CheckName(key[..]);
    if !valid { return Exit; }
    if key.Length == 4 {
      r := Stage3(w, n, key[..], wantSpace);
      return;
    }
    var scope, len := n, key.Length;
    assert SpaceOk(w, n);
    if len > 0 && PrefixChar(key[0]) {
      if key[0] == PARENT_CHAR {
        if w[n].parent.None? { return Missing; }
        scope := w[n].parent.value;
      } else {
        scope := 0;
      }
      len := len - 1;
      DropFirst(key);
    }
    assert key[..len] == if len < key.Length then old(key[1..]) else old(key[..]);
    r := Stage2Lookup(w, scope, key[..len], wantSpace);
  }

  /** The first loop of resolve_name: how far up the way goes, and where it ends. */
  method CountLevels(w: World, n: nat) returns (levels: nat, top: nat)
    requires Forest(w) && n < |w|
    ensures |PathTo(w, n)| == 4 * levels && top == Top(w, n)
  {
    levels, top := 0, n;
    while w[top].parent.Some?
      invariant top < |w| && Top(w, n) == Top(w, top)
      invariant |PathTo(w, n)| == 4 * levels + |PathTo(w, top)|
      decreases top
    {
      assert SpaceOk(w, top);
      levels := levels + 1;
      top := w[top].parent.value;
    }
  }

  lemma {:induction false} PathStep(w: World, n: nat, current: nat, below: seq<Byte>)
    requires Forest(w) && n < |w| && current < |w| && w[current].parent.Some? && PathTo(w, n) == PathTo(w, current) + below
    ensures w[current].parent.value < current
    ensures PathTo(w, n) == PathTo(w, w[current].parent.value) + (w[current].name + below)
    ensures |PathTo(w, current)| == |PathTo(w, w[current].parent.value)| + 4
  {
    assert SpaceOk(w, current);
    var up := PathTo(w, w[current].parent.value);
    assert up + w[current].name + below == up + (w[current].name + below);
  }

  /** The second loop: the names on the way up, from the end of the buffer. */
  method FillPath(w: World, n: nat, buf: array<Byte>, key: seq<Byte>)
    requires Forest(w) && n < |w| && buf.Length == 1 + |PathTo(w, n)| + |key|
    modifies buf
    ensures buf[1..] == PathTo(w, n) + key
  {
    var offset := buf.Length - |key|;
    Fill(buf, offset, key);
    offset := offset - 4;
    var current: nat := n;
    ghost var below: seq<Byte> := [];
    while w[current].parent.Some?
      invariant current < |w| && PathTo(w, n) == PathTo(w, current) + below
      invariant offset == |PathTo(w, current)| - 3 && offset + 4 <= buf.Length && buf[offset + 4..] == below + key
      decreases current
    {
      PathStep(w, n, current, below);
      Fill(buf, offset, w[current].name);
      assert w[current].name + (below + key) == (w[current].name + below) + key;
      below := w[current].name + below;
      offset := offset - 4;
      current := w[current].parent.value;
    }
  }

  /** resolve_name: the absolute form of a key. */
  method MakeAbsolute(w: World, n: nat, key: seq<Byte>) returns (r: Option<seq<Byte>>)
    requires Forest(w) && n < |w|
    ensures r == ResolveName(w, n, key)
  {
    if |key| > 0 && key[0] == PARENT_CHAR { return None; }
    if n == 0 || (|key| > 0 && key[0] == ROOT_CHAR) { return Some(key); }
    var levels, top := CountLevels(w, n);
    if top != 0 { return None; }
    var buf := new Byte[levels * 4 + |key| + 1](_ => 0);
    FillPath(w, n, buf, key);
    buf[0] := ROOT_CHAR;
    assert buf[..] == [ROOT_CHAR] + buf[1..];
    assert [ROOT_CHAR] + (PathTo(w, n) + key) == [ROOT_CHAR] + PathTo(w, n) + key;
    r := Some(buf[..]);
  }

  /** memcpy into a buffer. */
  method Fill(buf: array<Byte>, at: nat, bytes: seq<Byte>)
    requires at + |bytes| <= buf.Length
    modifies buf
    ensures buf[at..] == bytes + old(buf[at + |bytes|..])
  {
    var i := 0;
    while i < |bytes|
      invariant 0 <= i <= |bytes|
      invariant forall j :: 0 <= j < i ==> buf[at + j] == bytes[j]
      invariant forall j :: at + |bytes| <= j < buf.Length ==> buf[j] == old(buf[j])
    {
      buf[at + i] := bytes[i];
      i := i + 1;
    }
  }
}
