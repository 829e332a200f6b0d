/**
 The calls of liballoc on the heap value: first fit, malloc, free, the table of
 live allocations they maintain, and what holds over every run of them.
 */
module HeapSpec {
  import opened HeapModel
  import opened HeapOps

  // ---------------------------------------------------------------- first fit

  predicate Fits(s: State, a: Addr, size: nat)
    requires a in s.tags
  {
    s.tags[a].realSize - TAG_SIZE >= size + TAG_SIZE
  }

  /** The first tag from `a` on along `next` with room for `size`; 0 if none. */
  function FirstFit(s: State, a: Addr, size: nat): (r: Addr)
    requires ListInv(s) && (a != 0 ==> a in s.owner && Free(s, a))
    ensures r != 0 ==> a != 0 && r in s.owner && s.tags[r].index == s.tags[a].index && Fits(s, r, size)
    decreases if a != 0 && a in s.rank then s.rank[a] + 1 else 0
  {
    if a == 0 then 0
    else
      assert Listed(s, a);
      if Fits(s, a, size) then a else FirstFit(s, s.tags[a].next, size)
  }

  function Choose(s: State, size: nat): (r: Addr)
    requires ListInv(s)
    ensures r != 0 ==> r in s.owner && s.tags[r].index == ListFor(size) && Fits(s, r, size)
  {
    assert HeadOk(s, ListFor(size));
    FirstFit(s, s.heads[ListFor(size)], size)
  }

  // --------------------------------------------------------- live allocations

  /** The used tags other than `hole`, with the sizes asked for. */
  function UsedBut(s: State, hole: Addr): map<Addr, nat>
    requires Shape(s)
  {
    map c | c in s.owner && c != hole && !Free(s, c) :: s.tags[c].size
  }

  function Used(s: State): map<Addr, nat>
    requires Shape(s)
  {
    UsedBut(s, 0)
  }

  lemma TakeUsed(s: State, a: Addr)
    requires ListInv(s) && a in s.owner && Free(s, a)
    ensures Shape(Take(s, a)) && UsedBut(Take(s, a), a) == Used(s)
  {
    assert Listed(s, a);
    RemoveTagRelists(s, a);
    assert forall c :: c in s.owner ==> SameSpan(s.tags[c], RemoveTag(s, a).tags[c]);
  }

  lemma FileUsed(s: State, a: Addr)
    requires InvBut(s, a) && a in s.owner && !Free(s, a) && TAG_SIZE <= s.tags[a].realSize
    ensures Shape(File(s, a)) && Used(File(s, a)) == UsedBut(s, a)
  {
    FileStructure(s, a);
    assert forall c :: c in s.owner ==> SameSpan(s.tags[c], File(s, a).tags[c]);
  }

  lemma CutUsed(s: State, a: Addr, junk: nat)
    requires ChainInv(s) && BlocksApart(s) && a in s.owner && !Free(s, a)
    requires s.tags[a].size + 2 * TAG_SIZE <= s.tags[a].realSize
    ensures Shape(Cut(s, a, junk)) && UsedBut(Cut(s, a, junk), Tail(s, a)) == Used(s)
  {
    var s' := Cut(s, a, junk);
    TailFresh(s, a);
    assert Chained(s, a);
    forall c | c in s.owner
      ensures c in s'.tags && s'.tags[c].index == s.tags[c].index && s'.tags[c].size == s.tags[c].size
    {
      CutAt(s, a, junk, c);
    }
  }

  lemma JoinUsed(s: State, l: Addr, r: Addr)
    requires ChainInv(s) && l in s.owner && r in s.owner && s.tags[l].right == r
    ensures Shape(Join(s, l, r)) && UsedBut(Join(s, l, r), l) == UsedBut(s, l) - {r}
  {
    var s' := Join(s, l, r);
    assert Chained(s, r);
    forall c | c in s.owner
      ensures c in s'.tags && s'.tags[c].index == s.tags[c].index && s'.tags[c].size == s.tags[c].size
    {
      JoinAt(s, l, r, c);
    }
  }

  lemma MeltLeftUsed(s: State, a: Addr)
    requires InvBut(s, a) && a in s.owner && !Free(s, a)
    requires s.tags[a].left in s.owner && Free(s, s.tags[a].left)
    ensures Shape(MeltLeft(s, a)) && UsedBut(MeltLeft(s, a), s.tags[a].left) == UsedBut(s, a)
  {
    var l := s.tags[a].left;
    assert Chained(s, a) && Chained(s, l);
    JoinKeeps(s, l, a, a);
    JoinAt(s, l, a, l);
    JoinUsed(s, l, a);
    var s1 := Join(s, l, a);
    RemoveTagRelists(s1, l);
    assert forall c :: c in s1.owner ==> SameSpan(s1.tags[c], RemoveTag(s1, l).tags[c]);
    assert UsedBut(RemoveTag(s1, l), l) == UsedBut(s1, l);
    assert UsedBut(s, l) - {a} == UsedBut(s, a);
  }

  lemma AbsorbRightUsed(s: State, a: Addr)
    requires InvBut(s, a) && a in s.owner && !Free(s, a)
    requires s.tags[a].right in s.owner && Free(s, s.tags[a].right)
    ensures Shape(AbsorbRight(s, a)) && UsedBut(AbsorbRight(s, a), a) == UsedBut(s, a)
  {
    var r := s.tags[a].right;
    var s1 := RemoveTag(s, r);
    RemoveTagKeeps(s, r);
    RelistedKeepsChain(s, s1, r);
    assert SameSpan(s.tags[a], s1.tags[a]);
    JoinUsed(s1, a, r);
    assert forall c :: c in s.owner ==> SameSpan(s.tags[c], s1.tags[c]);
    assert UsedBut(s1, a) - {r} == UsedBut(s, a);
  }

  /** A heap that holds no block, whatever the memory contains. */
  function Blank(tags: map<Addr, Tag>, rank: map<Addr, nat>): State {
    State(tags, seq(MAX_EXP, i => 0), seq(MAX_EXP, i => 0), map[], map[], rank)
  }

  lemma BlankInv(tags: map<Addr, Tag>, rank: map<Addr, nat>)
    ensures Inv(Blank(tags, rank)) && Used(Blank(tags, rank)) == map[]
  {
    var s := Blank(tags, rank);
    forall i | 0 <= i < MAX_EXP ensures s.complete[i] == |Unsplit(s, i, 0)| {
      assert Unsplit(s, i, 0) == {};
    }
  }

  // ------------------------------------------------------------------- malloc

  predicate CanServe(s: State, size: nat, base: Addr) {
    Inv(s) && Sized(size) && (base != 0 ==> RegionApart(s, base, PagesFor(size)))
  }

  /** The tag malloc works on: the first fit, or else the new block. */
  function Grab(s: State, size: nat, base: Addr): (r: (State, Addr))
    requires CanServe(s, size, base) && (Choose(s, size) != 0 || base != 0)
  {
    var t := Choose(s, size);
    if t == 0 then (AddBlock(s, base, size), base) else (Take(s, t), t)
  }

  function SplitTag(s: State, a: Addr, junk: nat): State
    requires Inv(s) && a in s.owner && !Free(s, a)
    requires s.tags[a].size + 2 * TAG_SIZE <= s.tags[a].realSize
  {
    CutKeeps(s, a, junk);
    TailFresh(s, a);
    assert Chained(s, a);
    File(Cut(s, a, junk), Tail(s, a))
  }

  predicate RightUsed(s: State, a: Addr)
    requires Shape(s) && a in s.owner
  {
    s.tags[a].right in s.owner ==> !Free(s, s.tags[a].right)
  }

  lemma AddBlockGrabs(s: State, size: nat, base: Addr)
    requires Inv(s) && Sized(size) && RegionApart(s, base, PagesFor(size))
    ensures var s' := AddBlock(s, base, size);
            && InvBut(s', base) && base in s'.owner && !Free(s', base) && RightUsed(s', base)
            && base !in s.owner && UsedBut(s', base) == Used(s)
  {
    var s' := AddBlock(s, base, size);
    BaseFresh(s, base, size);
    AddBlockKeeps(s, base, size);
    forall i | 0 <= i < MAX_EXP ensures s'.complete[i] == |Unsplit(s', i, base)| <= MAX_COMPLETE {
      assert Unsplit(s', i, base) == Unsplit(s, i, 0);
    }
    forall c | c in s'.owner && c != base ensures TagOk(s', c, base) {
      assert TagOk(s, c, 0);
    }
    assert UsedBut(s', base) == Used(s);
  }

  lemma TakeGrabs(s: State, a: Addr)
    requires Inv(s) && a in s.owner && Free(s, a)
    ensures var s' := Take(s, a);
            && InvBut(s', a) && a in s'.owner && !Free(s', a) && RightUsed(s', a)
            && a !in Used(s) && UsedBut(s', a) == Used(s) && s'.tags[a].realSize == s.tags[a].realSize
  {
    TakeKeeps(s, a);
    TakeUsed(s, a);
    var s1, r := RemoveTag(s, a), s.tags[a].right;
    assert TagOk(s, a, 0) && Chained(s, a);
    assert SameSpan(s.tags[a], s1.tags[a]);
    if r in s.owner { assert SameSpan(s.tags[r], s1.tags[r]); }
  }

  lemma GrabKeeps(s: State, size: nat, base: Addr)
    requires CanServe(s, size, base) && (Choose(s, size) != 0 || base != 0)
    ensures var (s', a) := Grab(s, size, base);
            && InvBut(s', a) && a in s'.owner && !Free(s', a) && RightUsed(s', a)
            && a !in Used(s) && UsedBut(s', a) == Used(s)
            && size + TAG_SIZE <= s'.tags[a].realSize
            && s'.blocks == (if Choose(s, size) == 0 then s.blocks[base := PagesFor(size)] else s.blocks)
  {
    if Choose(s, size) == 0 {
      AddBlockGrabs(s, size, base);
    } else {
      TakeGrabs(s, Choose(s, size));
    }
  }

  lemma SplitTagKeeps(s: State, a: Addr, junk: nat)
    requires Inv(s) && a in s.owner && !Free(s, a) && RightUsed(s, a)
    requires s.tags[a].size + 2 * TAG_SIZE <= s.tags[a].realSize
    ensures Inv(SplitTag(s, a, junk)) && Used(SplitTag(s, a, junk)) == Used(s)
    ensures SplitTag(s, a, junk).blocks == s.blocks
  {
    var s1, n := Cut(s, a, junk), Tail(s, a);
    CutKeeps(s, a, junk);
    TailFresh(s, a);
    assert Chained(s, a);
    CutAt(s, a, junk, a);
    if s.tags[a].right in s.owner { CutAt(s, a, junk, s.tags[a].right); }
    CutUsed(s, a, junk);
    FileKeeps(s1, n);
    FileUsed(s1, n);
    FileStructure(s1, n);
  }

  lemma HandOut(s: State, a: Addr, size: nat)
    requires InvBut(s, a) && a in s.owner && !Free(s, a) && RightUsed(s, a)
    requires size + TAG_SIZE <= s.tags[a].realSize
    ensures var s' := SetSize(s, a, size);
            Inv(s') && RightUsed(s', a) && !Free(s', a) && Used(s') == UsedBut(s, a)[a := size]
  {
    CloseUsed(s, a, size);
    assert Used(SetSize(s, a, size)) == UsedBut(s, a)[a := size];
  }

  /** malloc once its tag is in hand: record the size, split off a usable rest. */
  function Carve(s: State, a: Addr, size: nat, junk: nat): State
    requires InvBut(s, a) && a in s.owner && !Free(s, a) && RightUsed(s, a)
    requires size + TAG_SIZE <= s.tags[a].realSize
  {
    HandOut(s, a, size);
    var s1 := SetSize(s, a, size);
    if s.tags[a].realSize - size - 2 * TAG_SIZE >= QUANTUM then SplitTag(s1, a, junk) else s1
  }

  lemma CarveKeeps(s: State, a: Addr, size: nat, junk: nat)
    requires InvBut(s, a) && a in s.owner && !Free(s, a) && RightUsed(s, a)
    requires size + TAG_SIZE <= s.tags[a].realSize
    ensures var s' := Carve(s, a, size, junk);
            Inv(s') && Used(s') == UsedBut(s, a)[a := size] && s'.blocks == s.blocks
  {
    HandOut(s, a, size);
    if s.tags[a].realSize - size - 2 * TAG_SIZE >= QUANTUM { SplitTagKeeps(SetSize(s, a, size), a, junk); }
  }

  /** malloc(size).  `base` is what the page hook answers if it is asked (0 for
      NULL) and `junk` the stale size word under a split-off tag. */
  function Malloc(s: State, size: nat, base: Addr, junk: nat): (r: (State, Addr))
    requires CanServe(s, size, base)
  {
    if Choose(s, size) == 0 && base == 0 then (s, 0)
    else
      GrabKeeps(s, size, base);
      var (s1, a) := Grab(s, size, base);
      (Carve(s1, a, size, junk), a + TAG_SIZE)
  }

  /** What a call of malloc leaves: it fails just when nothing fits and the page
      hook fails, and otherwise adds exactly one live allocation of that size. */
  predicate Served(s: State, size: nat, base: Addr, s': State, p: Addr)
    requires CanServe(s, size, base)
  {
    && Inv(s')
    && (p == 0 <==> Choose(s, size) == 0 && base == 0)
    && (p == 0 ==> s' == s)
    && (p != 0 ==> TAG_SIZE < p && p - TAG_SIZE !in Used(s) && Used(s') == Used(s)[p - TAG_SIZE := size])
    && s'.blocks == Held(s, size, base)
  }

  /** The blocks held after malloc was given `base`. */
  function Held(s: State, size: nat, base: Addr): map<Addr, nat>
    requires CanServe(s, size, base)
  {
    if Choose(s, size) == 0 && base != 0 then s.blocks[base := PagesFor(size)] else s.blocks
  }

  lemma MallocKeeps(s: State, size: nat, base: Addr, junk: nat)
    requires CanServe(s, size, base)
    ensures Served(s, size, base, Malloc(s, size, base, junk).0, Malloc(s, size, base, junk).1)
  {
    if Choose(s, size) != 0 || base != 0 {
      GrabKeeps(s, size, base);
      var (s1, a) := Grab(s, size, base);
      CarveKeeps(s1, a, size, junk);
    }
  }

  // --------------------------------------------------------------------- free

  predicate LeftFree(s: State, a: Addr)
    requires Shape(s) && a in s.owner
  {
    s.tags[a].left in s.owner && Free(s, s.tags[a].left)
  }

  predicate RightFree(s: State, a: Addr)
    requires Shape(s) && a in s.owner
  {
    s.tags[a].right in s.owner && Free(s, s.tags[a].right)
  }

  /** One melt to the left, if there is anything to melt into. */
  function MeltedLeft(s: State, a: Addr): (r: (State, Addr))
    requires InvBut(s, a) && a in s.owner && !Free(s, a)
  {
    if LeftFree(s, a) then (MeltLeft(s, a), s.tags[a].left) else (s, a)
  }

  /** One melt to the right, if there is anything to absorb. */
  function MeltedRight(s: State, a: Addr): State
    requires InvBut(s, a) && a in s.owner && !Free(s, a)
  {
    if RightFree(s, a) then AbsorbRight(s, a) else s
  }

  /** After one melt to the left there is no second: no two neighbours were free. */
  lemma MeltedLeftKeeps(s: State, a: Addr)
    requires InvBut(s, a) && a in s.owner && !Free(s, a)
    ensures var (s', b) := MeltedLeft(s, a);
            && InvBut(s', b) && b in s'.owner && !Free(s', b) && !LeftFree(s', b)
            && UsedBut(s', b) == UsedBut(s, a) && s'.blocks == s.blocks
  {
    if LeftFree(s, a) {
      var l := s.tags[a].left;
      assert Chained(s, a) && Chained(s, l);
      MeltLeftKeeps(s, a);
      MeltLeftUsed(s, a);
      var ll := s.tags[l].left;
      if ll in s.owner {
        assert TagOk(s, ll, a) && Chained(s, ll);
        MeltedOther(s, a, ll);
      }
    }
  }

  lemma MeltedOther(s: State, a: Addr, c: Addr)
    requires InvBut(s, a) && a in s.owner && !Free(s, a) && LeftFree(s, a)
    requires c in s.owner && c != a && c != s.tags[a].left
    ensures c in MeltLeft(s, a).tags && MeltLeft(s, a).tags[c].index == s.tags[c].index
  {
    var l := s.tags[a].left;
    assert Chained(s, a) && Chained(s, l);
    JoinKeeps(s, l, a, a);
    JoinAt(s, l, a, l);
    JoinAt(s, l, a, c);
    var s1 := Join(s, l, a);
    RemoveTagRelists(s1, l);
    assert SameSpan(s1.tags[c], RemoveTag(s1, l).tags[c]);
  }

  lemma AbsorbedOther(s: State, a: Addr, c: Addr)
    requires InvBut(s, a) && a in s.owner && !Free(s, a) && RightFree(s, a)
    requires c in s.owner && c != a && c != s.tags[a].right
    ensures c in AbsorbRight(s, a).tags && AbsorbRight(s, a).tags[c].index == s.tags[c].index
  {
    var r := s.tags[a].right;
    var s1 := RemoveTag(s, r);
    RemoveTagKeeps(s, r);
    RelistedKeepsChain(s, s1, r);
    assert SameSpan(s.tags[a], s1.tags[a]) && SameSpan(s.tags[c], s1.tags[c]);
    JoinAt(s1, a, r, c);
  }

  /** After one melt to the right there is no second, and the left stays done. */
  lemma MeltedRightKeeps(s: State, a: Addr)
    requires InvBut(s, a) && a in s.owner && !Free(s, a) && !LeftFree(s, a)
    ensures var s' := MeltedRight(s, a);
            && InvBut(s', a) && a in s'.owner && !Free(s', a) && Alone(s', a)
            && UsedBut(s', a) == UsedBut(s, a) && s'.blocks == s.blocks
  {
    if RightFree(s, a) {
      var r, l := s.tags[a].right, s.tags[a].left;
      assert Chained(s, a) && Chained(s, r) && TagOk(s, r, a);
      AbsorbRightKeeps(s, a);
      AbsorbRightUsed(s, a);
      var rr := s.tags[r].right;
      if rr in s.owner { assert Chained(s, rr); AbsorbedOther(s, a, rr); }
      if l in s.owner { AbsorbedOther(s, a, l); }
    }
  }

  datatype Released = Nothing | Pages(base: Addr, pages: nat)

  /** A tag on list i, counted if it is a whole block on standby. */
  function Filed(s: State, a: Addr, i: nat): State
    requires ListInv(s) && a in s.owner && i < MAX_EXP
  {
    InsertTag(s, a, i).(complete := if Whole(s, a) then s.complete[i := s.complete[i] + 1] else s.complete)
  }

  /** Give the merged tag a place: back to the page hook, or onto list i. */
  function SettleOn(s: State, a: Addr, i: nat): (r: (State, Released))
    requires ListInv(s) && a in s.owner && i < MAX_EXP
  {
    if Whole(s, a) && s.complete[i] == MAX_COMPLETE then (DropBlock(s, a), Pages(a, PagesHeld(s.tags[a].realSize)))
    else (Filed(s, a, i), Nothing)
  }

  /** The end of free, with the list of its size class. */
  function Settle(s: State, a: Addr): (r: (State, Released))
    requires InvBut(s, a) && a in s.owner && !Free(s, a) && Alone(s, a)
  {
    HoldsTag(s, a);
    SettleOn(s, a, ListFor(s.tags[a].realSize - TAG_SIZE))
  }

  /** The page count free computes for a whole block. */
  function PagesHeld(realSize: nat): nat {
    var pages := realSize / PAGE_SIZE + if realSize % PAGE_SIZE != 0 then 1 else 0;
    if pages < MIN_PAGES then MIN_PAGES else pages
  }

  lemma InsertKeepsCounts(s: State, a: Addr, i: nat)
    requires ListInv(s) && a in s.owner && i < MAX_EXP
    ensures InsertTag(s, a, i).complete == s.complete
    ensures a in InsertTag(s, a, i).tags && InsertTag(s, a, i).tags[a].realSize == s.tags[a].realSize
  {
  }

  lemma FiledIs(s: State, a: Addr, i: nat)
    requires ListInv(s) && a in s.owner && TAG_SIZE <= s.tags[a].realSize && i == ListFor(s.tags[a].realSize - TAG_SIZE)
    ensures var t := File(s, a);
            && t.complete == s.complete && |t.complete| == MAX_EXP && a in t.tags && t.tags[a].realSize == s.tags[a].realSize
            && Filed(s, a, i) == t.(complete := if Whole(s, a) then s.complete[i := s.complete[i] + 1] else s.complete)
  {
    InsertKeepsCounts(s, a, i);
  }

  /** Which is either the tag filed and counted, or the tag filed. */
  lemma CountedOrNot(s: State, t: State, a: Addr, i: nat)
    requires |s.complete| == MAX_EXP && t.complete == s.complete && a in s.tags && a in t.tags
    requires TAG_SIZE <= t.tags[a].realSize && i == ListFor(t.tags[a].realSize - TAG_SIZE)
    ensures t.(complete := if Whole(s, a) then s.complete[i := s.complete[i] + 1] else s.complete) ==
            if Whole(s, a) then Standby(t, a) else t
  {
  }

  lemma DropUnsplit(s: State, a: Addr)
    requires InvBut(s, a) && a in s.owner && !Free(s, a) && Whole(s, a) && Shape(DropBlock(s, a))
    ensures CountInv(DropBlock(s, a), 0)
  {
    var s' := DropBlock(s, a);
    forall i | 0 <= i < MAX_EXP ensures s'.complete[i] == |Unsplit(s', i, 0)| <= MAX_COMPLETE {
      assert Unsplit(s', i, 0) == Unsplit(s, i, a);
    }
  }

  lemma DropKeeps(s: State, a: Addr)
    requires InvBut(s, a) && a in s.owner && !Free(s, a) && Whole(s, a)
    ensures Inv(DropBlock(s, a)) && Used(DropBlock(s, a)) == UsedBut(s, a)
    ensures a in s.blocks && PagesHeld(s.tags[a].realSize) == s.blocks[a]
  {
    var s' := DropBlock(s, a);
    DropBlockKeepsChain(s, a);
    DropBlockKeepsLists(s, a);
    assert BlockOk(s, a);
    DropUnsplit(s, a);
    DropTags(s, a);
    DropUsed(s, a);
  }

  lemma DropTags(s: State, a: Addr)
    requires InvBut(s, a) && a in s.owner && Whole(s, a) && ChainInv(DropBlock(s, a))
    ensures forall c {:trigger TagOk(DropBlock(s, a), c, 0)} :: c in DropBlock(s, a).owner ==> TagOk(DropBlock(s, a), c, 0)
  {
    var s' := DropBlock(s, a);
    forall c | c in s'.owner ensures TagOk(s', c, 0) {
      DropTagOk(s, a, c);
    }
  }

  lemma DropTagOk(s: State, a: Addr, c: Addr)
    requires InvBut(s, a) && a in s.owner && Whole(s, a) && c in s.owner && c != a && ChainInv(DropBlock(s, a))
    ensures TagOk(DropBlock(s, a), c, 0)
  {
    assert TagOk(s, c, a) && Chained(s, c);
  }

  lemma DropUsed(s: State, a: Addr)
    requires Shape(s) && a in s.owner && Shape(DropBlock(s, a))
    ensures Used(DropBlock(s, a)) == UsedBut(s, a)
  {
    var s' := DropBlock(s, a);
    assert forall c :: c in s'.owner <==> c in s.owner && c != a;
  }

  lemma StandbyUsed(s: State, a: Addr)
    requires Shape(s) && a in s.tags && TAG_SIZE <= s.tags[a].realSize
    ensures Shape(Standby(s, a)) && Used(Standby(s, a)) == Used(s)
    ensures Standby(s, a).blocks == s.blocks
  {
  }

  /** What a call that ends one allocation leaves: `used` is live afterwards, and
      at most one whole block went back, counted as it was obtained. */
  predicate Ended(s: State, used: map<Addr, nat>, s': State, out: Released) {
    Inv(s') && Used(s') == used && Handed(s.blocks, s'.blocks, out)
  }

  /** What went back of the blocks held is `out`: nothing, or one of them, counted as it
      was obtained. */
  predicate Handed(held: map<Addr, nat>, left: map<Addr, nat>, out: Released) {
    match out
    case Pages(base, pages) => base in held && pages == held[base] && left == held - {base}
    case Nothing => left == held
  }

  lemma SettleSplit(s: State, a: Addr, i: nat)
    requires InvBut(s, a) && a in s.owner && !Free(s, a) && Alone(s, a) && !Whole(s, a)
    requires TAG_SIZE <= s.tags[a].realSize && i == ListFor(s.tags[a].realSize - TAG_SIZE)
    ensures Ended(s, UsedBut(s, a), Filed(s, a, i), Nothing)
  {
    FiledIs(s, a, i);
    CountedOrNot(s, File(s, a), a, i);
    FileKeeps(s, a);
    FileUsed(s, a);
  }

  lemma SettleStandby(s: State, a: Addr, i: nat)
    requires InvBut(s, a) && a in s.owner && !Free(s, a) && Alone(s, a) && Whole(s, a)
    requires TAG_SIZE <= s.tags[a].realSize && i == ListFor(s.tags[a].realSize - TAG_SIZE) && s.complete[i] < MAX_COMPLETE
    ensures Ended(s, UsedBut(s, a), Filed(s, a, i), Nothing)
  {
    FiledIs(s, a, i);
    CountedOrNot(s, File(s, a), a, i);
    FileStructure(s, a);
    FileWholeKeeps(s, a);
    FileUsed(s, a);
    StandbyUsed(File(s, a), a);
  }

  lemma SettleDrop(s: State, a: Addr)
    requires InvBut(s, a) && a in s.owner && !Free(s, a) && Whole(s, a)
    ensures Ended(s, UsedBut(s, a), DropBlock(s, a), Pages(a, PagesHeld(s.tags[a].realSize)))
  {
    DropKeeps(s, a);
  }

  /** What the end of free owes when it files the tag under list i. */
  predicate Settled(s: State, a: Addr, i: nat)
    requires InvBut(s, a) && a in s.owner && i < MAX_EXP
  {
    && Ended(s, UsedBut(s, a), SettleOn(s, a, i).0, SettleOn(s, a, i).1)
    && (SettleOn(s, a, i).1.Pages? <==> Whole(s, a) && s.complete[i] == MAX_COMPLETE)
  }

  lemma SettleOnKeeps(s: State, a: Addr, i: nat)
    requires InvBut(s, a) && a in s.owner && !Free(s, a) && Alone(s, a)
    requires TAG_SIZE <= s.tags[a].realSize && i == ListFor(s.tags[a].realSize - TAG_SIZE)
    ensures Settled(s, a, i)
  {
    if !Whole(s, a) {
      SettleSplit(s, a, i);
    } else if s.complete[i] == MAX_COMPLETE {
      SettleDrop(s, a);
    } else {
      CountBound(s, a, i);
      SettleStandby(s, a, i);
    }
  }

  lemma CountBound(s: State, a: Addr, i: nat)
    requires CountInv(s, a) && i < MAX_EXP
    ensures s.complete[i] <= MAX_COMPLETE
  {
  }

  lemma HoldsTag(s: State, a: Addr)
    requires ChainInv(s) && a in s.owner
    ensures TAG_SIZE <= s.tags[a].realSize < SIZE_LIMIT
  {
    assert Chained(s, a) && BlockOk(s, s.owner[a]);
  }

  /** A whole block goes back just when five of its class are on standby. */
  lemma SettleKeeps(s: State, a: Addr)
    requires InvBut(s, a) && a in s.owner && !Free(s, a) && Alone(s, a)
    ensures Ended(s, UsedBut(s, a), Settle(s, a).0, Settle(s, a).1)
    ensures TAG_SIZE <= s.tags[a].realSize
    ensures Settle(s, a).1.Pages? <==> Whole(s, a) && s.complete[ListFor(s.tags[a].realSize - TAG_SIZE)] == MAX_COMPLETE
  {
    HoldsTag(s, a);
    SettleOnKeeps(s, a, ListFor(s.tags[a].realSize - TAG_SIZE));
  }

  lemma FreeOpens(s: State, a: Addr)
    requires Inv(s) && a in s.owner && !Free(s, a)
    ensures InvBut(s, a) && UsedBut(s, a) == Used(s) - {a}
  {
    OpenHole(s, a);
    forall i | 0 <= i < MAX_EXP ensures s.complete[i] == |Unsplit(s, i, a)| <= MAX_COMPLETE {
      UnsplitHole(s, a, i);
    }
  }

  /** free(a + 48) for a live allocation. */
  function FreeTag(s: State, a: Addr): (r: (State, Released))
    requires Inv(s) && a in s.owner && !Free(s, a)
  {
    FreeOpens(s, a);
    MeltedLeftKeeps(s, a);
    var (s1, b) := MeltedLeft(s, a);
    MeltedRightKeeps(s1, b);
    Settle(MeltedRight(s1, b), b)
  }

  /** free keeps the invariant and ends exactly that allocation; the pages it
      gives back are one whole block, counted as they were obtained. */
  lemma FreeKeeps(s: State, a: Addr)
    requires Inv(s) && a in s.owner && !Free(s, a)
    ensures var (s', out) := FreeTag(s, a);
            Ended(s, Used(s) - {a}, s', out)
  {
    FreeOpens(s, a);
    MeltedLeftKeeps(s, a);
    var (s1, b) := MeltedLeft(s, a);
    MeltedRightKeeps(s1, b);
    SettleKeeps(MeltedRight(s1, b), b);
  }
}
