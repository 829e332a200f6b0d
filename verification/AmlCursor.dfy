/**
 Cursors do not matter to lookup: moving one changes neither what a name finds nor
 what it is worth, and commutes with making a namespace.
 */
module AmlCursor {
  import opened Wrappers
  import opened Fnv
  import opened AmlSyntax
  import opened AmlNames
  import opened AmlTerms
  import opened AmlParse

  lemma SetCodeTwice(w: World, n: nat, p: nat, q: nat)
    requires n < |w|
    ensures SetCode(SetCode(w, n, p), n, q) == SetCode(w, n, q)
  {
  }

  lemma SetCodeSame(w: World, n: nat)
    requires n < |w|
    ensures SetCode(w, n, w[n].code) == w
  {
  }

  lemma CreateMoved(w: World, n: nat, p: nat, parent: Option<nat>, name: Seg, code: nat)
    requires n < |w| && (parent.Some? ==> parent.value < |w|)
    ensures Create(SetCode(w, n, p), parent, name, code) == SetCode(Create(w, parent, name, code), n, p)
  {
  }

  lemma {:induction false} NearestMoved(w: World, k: nat, p: nat, n: nat, key: Seg, wantSpace: bool)
    requires Forest(w) && k < |w| && n < |w| && Forest(SetCode(w, k, p))
    ensures Nearest(SetCode(w, k, p), n, key, wantSpace) == Nearest(w, n, key, wantSpace)
    decreases n
  {
    assert SpaceOk(w, n);
    if w[n].parent.Some? { NearestMoved(w, k, p, w[n].parent.value, key, wantSpace); }
  }

  lemma {:induction false} DownMoved(w: World, k: nat, p: nat, n: nat, path: seq<Byte>)
    requires Forest(w) && k < |w| && n < |w| && Forest(SetCode(w, k, p)) && |path| % 4 == 0
    ensures Down(SetCode(w, k, p), n, path) == Down(w, n, path)
    decreases |path|
  {
    assert SpaceOk(w, n);
    if path != [] && path[..4] in w[n].namespaces { DownMoved(w, k, p, w[n].namespaces[path[..4]], path[4..]); }
  }

  lemma Stage2Moved(w: World, k: nat, p: nat, n: nat, key: seq<Byte>, wantSpace: bool)
    requires Forest(w) && k < |w| && n < |w| && Forest(SetCode(w, k, p))
    ensures Stage2(SetCode(w, k, p), n, key, wantSpace) == Stage2(w, n, key, wantSpace)
  {
    if |key| > 4 && (|key| - 4) % 4 == 0 { DownMoved(w, k, p, n, key[..|key| - 4]); }
  }

  lemma LocateMoved(w: World, k: nat, p: nat, n: nat, key: seq<Byte>, wantSpace: bool)
    requires Forest(w) && k < |w| && n < |w|
    ensures Forest(SetCode(w, k, p)) && Locate(SetCode(w, k, p), n, key, wantSpace) == Locate(w, n, key, wantSpace)
  {
    SetCodeKeeps(w, k, p);
    assert SpaceOk(w, n);
    if |key| == 4 { NearestMoved(w, k, p, n, key, wantSpace); }
    Stage2Moved(w, k, p, n, key, wantSpace);
    if |key| > 0 { Stage2Moved(w, k, p, 0, key[1..], wantSpace); }
    if |key| > 0 && w[n].parent.Some? { Stage2Moved(w, k, p, w[n].parent.value, key[1..], wantSpace); }
  }

  /** Nor does it change what a name is resolved to. */
  lemma {:induction false} WayUpMoved(w: World, k: nat, p: nat, n: nat)
    requires Forest(w) && k < |w| && n < |w| && Forest(SetCode(w, k, p))
    ensures Top(SetCode(w, k, p), n) == Top(w, n) && PathTo(SetCode(w, k, p), n) == PathTo(w, n)
    decreases n
  {
    assert SpaceOk(w, n);
    if w[n].parent.Some? { WayUpMoved(w, k, p, w[n].parent.value); }
  }

  lemma ResolveMoved(w: World, k: nat, p: nat, n: nat, key: seq<Byte>)
    requires Forest(w) && k < |w| && n < |w|
    ensures Forest(SetCode(w, k, p)) && ResolveName(SetCode(w, k, p), n, key) == ResolveName(w, n, key)
  {
    SetCodeKeeps(w, k, p);
    WayUpMoved(w, k, p, n);
  }
}
