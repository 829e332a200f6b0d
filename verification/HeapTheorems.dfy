/**
 What the heap invariant means globally: every block is tiled by its chain, the
 free lists are complete, live payloads never overlap, and all of it holds after
 every run of malloc, free and realloc.
 */
module HeapTheorems {
  import opened HeapModel
  import opened HeapOps
  import opened HeapSpec

  // ------------------------------------------------------------------- tiling

  function Limit(s: State, a: Addr): (e: nat)
    requires a in s.owner
  {
    if s.owner[a] in s.blocks then End(s, s.owner[a]) else 0
  }

  /** The split_right chain from `a` to the end of its block. */
  function Chain(s: State, a: Addr): (c: seq<Addr>)
    requires ChainInv(s) && a in s.owner
    ensures |c| > 0 && c[0] == a
    ensures forall k :: 0 <= k < |c| ==> c[k] in s.owner
    decreases Limit(s, a) - a
  {
    assert Chained(s, a);
    if s.tags[a].right == 0 then [a] else [a] + Chain(s, s.tags[a].right)
  }

  function Total(s: State, c: seq<Addr>): nat
    requires forall k :: 0 <= k < |c| ==> c[k] in s.tags
  {
    if c == [] then 0 else s.tags[c[0]].realSize + Total(s, c[1..])
  }

  lemma {:induction false} ChainTiles(s: State, a: Addr)
    requires ChainInv(s) && a in s.owner
    ensures var c := Chain(s, a);
            && Total(s, c) == Limit(s, a) - a
            && (forall k :: 0 <= k < |c| ==> s.owner[c[k]] == s.owner[a])
            && (forall k :: 0 <= k < |c| - 1 ==> c[k] + s.tags[c[k]].realSize == c[k + 1])
            && (forall k :: 0 <= k < |c| - 1 ==> s.tags[c[k + 1]].left == c[k])
    decreases Limit(s, a) - a
  {
    assert Chained(s, a);
    var r := s.tags[a].right;
    if r != 0 {
      ChainTiles(s, r);
      var c, d := Chain(s, a), Chain(s, r);
      assert c == [a] + d && c[1..] == d;
    }
  }

  lemma {:induction false} ChainReaches(s: State, a: Addr, c: Addr)
    requires ChainInv(s) && a in s.owner && c in s.owner && s.owner[a] == s.owner[c] && a <= c
    ensures c in Chain(s, a)
    decreases Limit(s, a) - a
  {
    assert Chained(s, a) && Chained(s, c);
    if a < c {
      TagsApart(s, a, c);
      ChainReaches(s, s.tags[a].right, c);
    }
  }

  /** Each page block is tiled exactly: its chain starts at the block, each tag
      ends where the next begins and points back to the one before, the sizes sum
      to the pages, and the chain holds every tag of the block and no other. */
  lemma {:induction false} BlockTiling(s: State, b: Addr)
    requires Inv(s) && b in s.blocks
    ensures b in s.owner
    ensures var c := Chain(s, b);
            && c[0] == b && Total(s, c) == s.blocks[b] * PAGE_SIZE
            && (forall k :: 0 <= k < |c| - 1 ==> c[k] + s.tags[c[k]].realSize == c[k + 1] && s.tags[c[k + 1]].left == c[k])
            && (forall a :: a in c <==> a in s.owner && s.owner[a] == b)
  {
    assert BlockOk(s, b);
    ChainTiles(s, b);
    forall a | a in s.owner && s.owner[a] == b ensures a in Chain(s, b) {
      assert Chained(s, a);
      ChainReaches(s, b, a);
    }
  }

  /** A live payload with its tag overlaps no other tag, used or free, anywhere. */
  lemma PayloadsApart(s: State, a: Addr, c: Addr)
    requires Inv(s) && a in Used(s) && c in s.owner && c != a
    ensures a + TAG_SIZE + Used(s)[a] <= c || c + s.tags[c].realSize <= a
  {
    assert Chained(s, a) && Chained(s, c) && TagOk(s, a, 0);
    if s.owner[a] == s.owner[c] {
      if a < c { TagsApart(s, a, c); } else { TagsApart(s, c, a); }
    }
  }

  /** When nothing in a block is live, the block is one free tag again. */
  lemma {:induction false} IdleBlockIsWhole(s: State, b: Addr)
    requires Inv(s) && b in s.blocks
    requires forall a :: a in s.owner && s.owner[a] == b ==> a !in Used(s)
    ensures b in s.owner && Free(s, b) && Chain(s, b) == [b] && s.tags[b].realSize == s.blocks[b] * PAGE_SIZE
  {
    assert BlockOk(s, b);
    assert Chained(s, b) && TagOk(s, b, 0);
    var r := s.tags[b].right;
    var live := Used(s);
    assert r in s.owner ==> r !in live;
  }

  // --------------------------------------------------------------- free lists

  /** The next-links from `a` to the end of its list. */
  function ListFrom(s: State, a: Addr): (l: seq<Addr>)
    requires ListInv(s) && (a != 0 ==> a in s.owner && Free(s, a))
    decreases if a != 0 && a in s.rank then s.rank[a] + 1 else 0
  {
    if a == 0 then []
    else
      assert Listed(s, a);
      [a] + ListFrom(s, s.tags[a].next)
  }

  function FreeList(s: State, i: nat): seq<Addr>
    requires ListInv(s) && i < MAX_EXP
  {
    assert HeadOk(s, i);
    ListFrom(s, s.heads[i])
  }

  lemma {:induction false} ListFromMembers(s: State, a: Addr)
    requires ListInv(s) && (a != 0 ==> a in s.owner && Free(s, a))
    ensures var l := ListFrom(s, a);
            && (forall k :: 0 <= k < |l| ==> l[k] in s.owner && a in s.owner && s.tags[l[k]].index == s.tags[a].index)
            && (forall k :: 0 <= k < |l| ==> l[k] in s.rank && a in s.rank && s.rank[l[k]] <= s.rank[a])
            && (forall k :: 0 < k < |l| ==> s.tags[l[k]].prev == l[k - 1] && s.tags[l[k - 1]].next == l[k])
            && (|l| > 0 ==> s.tags[l[|l| - 1]].next == 0)
            && (forall j, k :: 0 <= j < k < |l| ==> l[j] != l[k])
    decreases if a != 0 && a in s.rank then s.rank[a] + 1 else 0
  {
    if a != 0 {
      assert Listed(s, a);
      var n := s.tags[a].next;
      ListFromMembers(s, n);
      var l, m := ListFrom(s, a), ListFrom(s, n);
      assert l == [a] + m;
      if n != 0 { assert Listed(s, n) && m[0] == n; }
      forall k | 0 < k < |l| ensures s.tags[l[k]].prev == l[k - 1] && s.tags[l[k - 1]].next == l[k] {
        assert l[k] == m[k - 1];
        if k > 1 { assert l[k - 1] == m[k - 2]; }
      }
    }
  }

  lemma {:induction false} ListFromClosed(s: State, a: Addr, c: Addr)
    requires ListInv(s) && (a != 0 ==> a in s.owner && Free(s, a)) && c in ListFrom(s, a)
    ensures c in s.owner && (s.tags[c].next != 0 ==> s.tags[c].next in ListFrom(s, a))
    decreases if a != 0 && a in s.rank then s.rank[a] + 1 else 0
  {
    assert Listed(s, a);
    var n := s.tags[a].next;
    if c == a {
      if n != 0 { assert ListFrom(s, n)[0] == n; }
    } else {
      ListFromClosed(s, n, c);
    }
  }

  function Above(s: State, a: Addr): set<Addr>
    requires a in s.rank
  {
    set c | c in s.rank && s.rank[c] > s.rank[a]
  }

  lemma {:induction false} FreeListReaches(s: State, a: Addr)
    requires ListInv(s) && a in s.owner && Free(s, a)
    ensures 0 <= s.tags[a].index < MAX_EXP && a in FreeList(s, s.tags[a].index)
    decreases if a in s.rank then |Above(s, a)| else 0
  {
    assert Listed(s, a);
    var p, i := s.tags[a].prev, s.tags[a].index;
    assert HeadOk(s, i);
    if p == 0 {
      assert FreeList(s, i)[0] == a;
    } else {
      assert Listed(s, p);
      assert p in Above(s, a) && p !in Above(s, p) && Above(s, p) <= Above(s, a);
      SubsetSize(Above(s, p), Above(s, a), p);
      FreeListReaches(s, p);
      ListFromClosed(s, s.heads[i], p);
    }
  }

  lemma SubsetSize(small: set<Addr>, big: set<Addr>, x: Addr)
    requires small <= big && x in big && x !in small
    ensures |small| < |big|
  {
    assert small <= big - {x};
    SubsetCard(small, big - {x});
  }

  lemma {:induction false} SubsetCard(small: set<Addr>, big: set<Addr>)
    requires small <= big
    ensures |small| <= |big|
    decreases big
  {
    if x :| x in small {
      SubsetCard(small - {x}, big - {x});
    }
  }

  lemma FreeListMembers(s: State, i: nat)
    requires ListInv(s) && i < MAX_EXP
    ensures forall a :: a in FreeList(s, i) <==> a in s.owner && s.tags[a].index == i
  {
    assert HeadOk(s, i);
    ListFromMembers(s, s.heads[i]);
    forall a | a in s.owner && s.tags[a].index == i ensures a in FreeList(s, i) {
      FreeListReaches(s, a);
    }
  }

  /** Free list i holds exactly the free tags with index i, all of its size class. */
  lemma FreeListExact(s: State, i: nat)
    requires Inv(s) && i < MAX_EXP
    ensures forall a :: a in FreeList(s, i) <==> a in s.owner && s.tags[a].index == i
    ensures forall a :: a in s.owner && s.tags[a].index == i ==>
                          TAG_SIZE <= s.tags[a].realSize && ListFor(s.tags[a].realSize - TAG_SIZE) == i
  {
    FreeListMembers(s, i);
    forall a | a in s.owner && s.tags[a].index == i
      ensures TAG_SIZE <= s.tags[a].realSize && ListFor(s.tags[a].realSize - TAG_SIZE) == i
    {
      assert TagOk(s, a, 0);
    }
  }

  /** It is acyclic, and linked back correctly from end to end. */
  lemma FreeListLinked(s: State, i: nat)
    requires ListInv(s) && i < MAX_EXP
    ensures var l := FreeList(s, i);
            && (forall k :: 0 <= k < |l| ==> l[k] in s.owner)
            && (forall j, k :: 0 <= j < k < |l| ==> l[j] != l[k])
            && (|l| > 0 ==> l[0] == s.heads[i] && s.tags[l[0]].prev == 0 && s.tags[l[|l| - 1]].next == 0)
            && (forall k :: 0 < k < |l| ==> s.tags[l[k]].prev == l[k - 1] && s.tags[l[k - 1]].next == l[k])
  {
    assert HeadOk(s, i);
    ListFromMembers(s, s.heads[i]);
    if s.heads[i] != 0 { assert Listed(s, s.heads[i]); }
  }

  /** The standby count is the number of unsplit tags on the list, at most 5. */
  lemma StandbyExact(s: State, i: nat)
    requires Inv(s) && i < MAX_EXP
    ensures forall a :: a in FreeList(s, i) ==> a in s.tags
    ensures s.complete[i] == |set a | a in FreeList(s, i) && Whole(s, a)| <= MAX_COMPLETE
  {
    FreeListMembers(s, i);
    assert (set a | a in FreeList(s, i) && Whole(s, a)) == Unsplit(s, i, 0);
  }

  lemma {:induction false} FirstFitComplete(s: State, a: Addr, size: nat, c: Addr)
    requires ListInv(s) && (a != 0 ==> a in s.owner && Free(s, a))
    requires FirstFit(s, a, size) == 0 && c in ListFrom(s, a)
    ensures c in s.tags && !Fits(s, c, size)
    decreases if a != 0 && a in s.rank then s.rank[a] + 1 else 0
  {
    assert Listed(s, a);
    if c != a { FirstFitComplete(s, s.tags[a].next, size, c); }
  }

  /** malloc turns to the page hook only when no free tag of the class fits. */
  lemma ChooseComplete(s: State, size: nat, c: Addr)
    requires Inv(s) && Choose(s, size) == 0 && c in s.owner && s.tags[c].index == ListFor(size)
    ensures !Fits(s, c, size)
  {
    FreeListReaches(s, c);
    assert HeadOk(s, ListFor(size));
    FirstFitComplete(s, s.heads[ListFor(size)], size, c);
  }

  // --------------------------------------------------------------------- runs

  datatype Op = Alloc(size: nat, base: Addr, junk: nat) | Release(tag: Addr)
              | Move(tag: Addr, size: nat, base: Addr, junk: nat)

  /** The page hook gives pages of its own, if any. */
  predicate Offers(s: State, size: nat, base: Addr) {
    Sized(size) && (base != 0 ==> RegionApart(s, base, PagesFor(size)))
  }

  /** What a caller must see to: malloc of any size, free of a live allocation, or
      realloc of one, when malloc has something to give. */
  predicate Legal(s: State, op: Op)
    requires Inv(s)
  {
    match op
    case Alloc(size, base, _) => Offers(s, size, base)
    case Release(a) => a in Used(s)
    case Move(a, size, base, _) => a in Used(s) && Offers(s, size, base) && (Choose(s, size) != 0 || base != 0)
  }

  lemma MoveAllocates(s: State, a: Addr, size: nat, base: Addr, junk: nat)
    requires CanServe(s, size, base) && (Choose(s, size) != 0 || base != 0) && a in Used(s)
    ensures var s1 := Malloc(s, size, base, junk).0; Inv(s1) && a in s1.owner && !Free(s1, a)
  {
    MallocKeeps(s, size, base, junk);
    var s1 := Malloc(s, size, base, junk).0;
    assert a in Used(s1);
  }

  function Step(s: State, op: Op): State
    requires Inv(s) && Legal(s, op)
  {
    match op
    case Alloc(size, base, junk) => Malloc(s, size, base, junk).0
    case Release(a) => FreeTag(s, a).0
    case Move(a, size, base, junk) =>
      MoveAllocates(s, a, size, base, junk);
      FreeTag(Malloc(s, size, base, junk).0, a).0
  }

  /** Every call of the run is legal when it is made. */
  predicate LegalRun(s: State, ops: seq<Op>)
    requires Inv(s)
    decreases |ops|
  {
    ops == [] || (Legal(s, ops[0]) && (StepKeeps(s, ops[0]); LegalRun(Step(s, ops[0]), ops[1..])))
  }

  function Run(s: State, ops: seq<Op>): State
    requires Inv(s) && LegalRun(s, ops)
    decreases |ops|
  {
    if ops == [] then s
    else
      StepKeeps(s, ops[0]);
      Run(Step(s, ops[0]), ops[1..])
  }

  const EMPTY: State := Blank(map[], map[])

  lemma EmptyInv()
    ensures Inv(EMPTY) && Used(EMPTY) == map[]
  {
    BlankInv(map[], map[]);
  }

  lemma StepKeeps(s: State, op: Op)
    requires Inv(s) && Legal(s, op)
    ensures Inv(Step(s, op))
  {
    match op {
      case Alloc(size, base, junk) => MallocKeeps(s, size, base, junk);
      case Release(a) => FreeKeeps(s, a);
      case Move(a, size, base, junk) =>
        MoveAllocates(s, a, size, base, junk);
        FreeKeeps(Malloc(s, size, base, junk).0, a);
    }
  }

  lemma {:induction false} RunKeeps(s: State, ops: seq<Op>)
    requires Inv(s) && LegalRun(s, ops)
    ensures Inv(Run(s, ops))
    decreases |ops|
  {
    if ops != [] {
      StepKeeps(s, ops[0]);
      RunKeeps(Step(s, ops[0]), ops[1..]);
    }
  }

  /** What holds in every state. */
  ghost predicate Intact(s: State) {
    && Inv(s)
    && (forall b :: b in s.blocks ==> b in s.owner && Total(s, Chain(s, b)) == s.blocks[b] * PAGE_SIZE)
    && (forall a, c :: a in Used(s) && c in s.owner && c != a ==>
          a + TAG_SIZE + Used(s)[a] <= c || c + s.tags[c].realSize <= a)
    && (forall i, a :: 0 <= i < MAX_EXP ==> (a in FreeList(s, i) <==> a in s.owner && s.tags[a].index == i))
    && (forall b :: b in s.blocks && (forall a :: a in s.owner && s.owner[a] == b ==> a !in Used(s)) ==> Chain(s, b) == [b])
  }

  /** Blocks are tiled, payloads are disjoint from every other tag, lists are exact, and
      an idle block is one tag again. */
  lemma SoundIsIntact(s: State)
    requires Inv(s)
    ensures Intact(s)
  {
    forall b | b in s.blocks ensures b in s.owner && Total(s, Chain(s, b)) == s.blocks[b] * PAGE_SIZE {
      BlockTiling(s, b);
    }
    forall a, c | a in Used(s) && c in s.owner && c != a
      ensures a + TAG_SIZE + Used(s)[a] <= c || c + s.tags[c].realSize <= a
    {
      PayloadsApart(s, a, c);
    }
    forall i, a | 0 <= i < MAX_EXP ensures a in FreeList(s, i) <==> a in s.owner && s.tags[a].index == i {
      FreeListMembers(s, i);
    }
    forall b | b in s.blocks && (forall a :: a in s.owner && s.owner[a] == b ==> a !in Used(s))
      ensures Chain(s, b) == [b]
    {
      IdleBlockIsWhole(s, b);
    }
  }

  /** Whatever calls are made, as long as each is legal when it is made, every state
      from the empty heap on is intact. */
  lemma {:induction false} EveryRun(ops: seq<Op>)
    ensures Inv(EMPTY)
    ensures LegalRun(EMPTY, ops) ==> Intact(Run(EMPTY, ops))
  {
    EmptyInv();
    if LegalRun(EMPTY, ops) {
      RunKeeps(EMPTY, ops);
      SoundIsIntact(Run(EMPTY, ops));
    }
  }
}
