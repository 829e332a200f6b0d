/**
 malloc and free of lethe-kernel/memory/liballoc.c as functions on the heap
 value, and the proof that each keeps the heap invariant.
 */
module HeapOps {
  import opened HeapModel

  predicate Whole(s: State, a: Addr)
    requires a in s.tags
  {
    s.tags[a].left == 0 && s.tags[a].right == 0
  }

  // ------------------------------------------------------------- small steps

  /** remove_tag on a tag that malloc has chosen, with its standby count. */
  function Take(s: State, a: Addr): State
    requires ListInv(s) && a in s.owner && Free(s, a)
  {
    assert Listed(s, a);
    var i, s1 := s.tags[a].index, RemoveTag(s, a);
    if Whole(s, a) then s1.(complete := s.complete[i := s.complete[i] - 1]) else s1
  }

  function SetSize(s: State, a: Addr, size: nat): State
    requires a in s.tags
  {
    s.(tags := s.tags[a := s.tags[a].(size := size)])
  }

  /** File the tag in transit under its size class. */
  function File(s: State, a: Addr): State
    requires ListInv(s) && a in s.owner && TAG_SIZE <= s.tags[a].realSize
  {
    InsertTag(s, a, ListFor(s.tags[a].realSize - TAG_SIZE))
  }

  function Standby(s: State, a: Addr): State
    requires |s.complete| == MAX_EXP && a in s.tags && TAG_SIZE <= s.tags[a].realSize
  {
    var i := ListFor(s.tags[a].realSize - TAG_SIZE);
    s.(complete := s.complete[i := s.complete[i] + 1])
  }

  // ------------------------------------------- relisting keeps the tiling

  lemma RelistedChained(s: State, s': State, a: Addr, c: Addr)
    requires ChainInv(s) && Relisted(s, s', a) && c in s.owner
    ensures Chained(s', c)
  {
    assert Chained(s, c);
    assert SameSpan(s.tags[c], s'.tags[c]);
    if s.tags[c].left in s.owner { assert SameSpan(s.tags[s.tags[c].left], s'.tags[s.tags[c].left]); }
    if s.tags[c].right in s.owner { assert SameSpan(s.tags[s.tags[c].right], s'.tags[s.tags[c].right]); }
  }

  lemma RelistedKeepsChain(s: State, s': State, a: Addr)
    requires ChainInv(s) && Relisted(s, s', a)
    ensures ChainInv(s')
  {
    forall c | c in s'.owner ensures Chained(s', c) {
      RelistedChained(s, s', a, c);
    }
    forall b | b in s'.blocks ensures BlockOk(s', b) {
      assert BlockOk(s, b);
    }
  }

  /** Relisting the tag in transit disturbs no other tag. */
  lemma RelistedTagOk(s: State, s': State, a: Addr, c: Addr)
    requires Relisted(s, s', a) && c in s.owner && c != a && TagOk(s, c, a)
    ensures TagOk(s', c, a)
  {
  }

  lemma RelistedUnsplit(s: State, s': State, a: Addr, i: int)
    requires Relisted(s, s', a)
    ensures Unsplit(s', i, a) == Unsplit(s, i, a)
  {
  }

  /** Opening a hole at a used or free tag only forgets facts. */
  lemma OpenHole(s: State, a: Addr)
    requires Inv(s) && a in s.owner
    ensures forall c {:trigger TagOk(s, c, a)} :: c in s.owner && c != a ==> TagOk(s, c, a)
  {
    forall c | c in s.owner && c != a ensures TagOk(s, c, a) {
      assert TagOk(s, c, 0);
    }
  }

  lemma UnsplitHole(s: State, a: Addr, i: int)
    requires Shape(s) && a in s.owner
    ensures Unsplit(s, i, 0) == Unsplit(s, i, a) + (if s.tags[a].index == i && Whole(s, a) then {a} else {})
    ensures a !in Unsplit(s, i, a)
    ensures |Unsplit(s, i, 0)| == |Unsplit(s, i, a)| + (if s.tags[a].index == i && Whole(s, a) then 1 else 0)
  {
    assert Unsplit(s, i, 0) == Unsplit(s, i, a) + (if s.tags[a].index == i && Whole(s, a) then {a} else {});
  }

  lemma TakeKeeps(s: State, a: Addr)
    requires Inv(s) && a in s.owner && Free(s, a)
    ensures InvBut(Take(s, a), a) && !Free(Take(s, a), a)
    ensures Relisted(s, RemoveTag(s, a), a)
  {
    var s1, s' := RemoveTag(s, a), Take(s, a);
    assert Listed(s, a);
    RemoveTagKeeps(s, a);
    RelistedKeepsChain(s, s1, a);
    OpenHole(s, a);
    forall c | c in s1.owner && c != a ensures TagOk(s1, c, a) {
      RelistedTagOk(s, s1, a, c);
    }
    TakeCounts(s, a);
    Recount(s1, s', a);
  }

  lemma TakeCounts(s: State, a: Addr)
    requires Inv(s) && a in s.owner && Free(s, a) && Relisted(s, RemoveTag(s, a), a)
    ensures Shape(Take(s, a))
    ensures forall i :: 0 <= i < MAX_EXP ==> Take(s, a).complete[i] == |Unsplit(RemoveTag(s, a), i, a)| <= MAX_COMPLETE
  {
    assert Listed(s, a);
    forall i | 0 <= i < MAX_EXP ensures Take(s, a).complete[i] == |Unsplit(RemoveTag(s, a), i, a)| <= MAX_COMPLETE {
      UnsplitHole(s, a, i);
      RelistedUnsplit(s, RemoveTag(s, a), a, i);
    }
  }

  /** Changing only the standby counts keeps the chains, the lists and the tags. */
  lemma RecountStructure(s: State, s': State)
    requires ChainInv(s) && ListInv(s)
    requires s' == s.(complete := s'.complete) && |s'.complete| == MAX_EXP
    ensures ChainInv(s') && ListInv(s')
  {
    forall c | c in s'.owner ensures Chained(s', c) {
      assert Chained(s, c);
    }
    forall c | c in s'.owner ensures Listed(s', c) {
      assert Listed(s, c);
    }
    forall b | b in s'.blocks ensures BlockOk(s', b) {
      assert BlockOk(s, b);
    }
    forall i | 0 <= i < MAX_EXP ensures HeadOk(s', i) {
      assert HeadOk(s, i);
    }
  }

  lemma Recount(s: State, s': State, hole: Addr)
    requires ChainInv(s) && BlocksApart(s) && ListInv(s)
    requires forall a {:trigger TagOk(s, a, hole)} :: a in s.owner && a != hole ==> TagOk(s, a, hole)
    requires s' == s.(complete := s'.complete) && |s'.complete| == MAX_EXP
    requires forall i :: 0 <= i < MAX_EXP ==> s'.complete[i] == |Unsplit(s, i, hole)| <= MAX_COMPLETE
    ensures InvBut(s', hole)
  {
    RecountStructure(s, s');
    forall i | 0 <= i < MAX_EXP ensures Unsplit(s', i, hole) == Unsplit(s, i, hole) {
    }
    forall c | c in s'.owner && c != hole ensures TagOk(s', c, hole) {
      assert TagOk(s, c, hole);
    }
  }

  // ------------------------------------------------ the tag that malloc hands out

  lemma CloseUsed(s: State, a: Addr, size: nat)
    requires InvBut(s, a) && a in s.owner && !Free(s, a) && size + TAG_SIZE <= s.tags[a].realSize
    ensures Inv(SetSize(s, a, size))
  {
    var s' := SetSize(s, a, size);
    SetSizeKeepsChain(s, a, size);
    SetSizeKeepsLists(s, a, size);
    forall c | c in s'.owner ensures TagOk(s', c, 0) {
      if c != a { assert TagOk(s, c, a); }
    }
    forall i | 0 <= i < MAX_EXP ensures s'.complete[i] == |Unsplit(s', i, 0)| <= MAX_COMPLETE {
      assert Unsplit(s', i, 0) == Unsplit(s, i, a);
    }
  }

  lemma SetSizeKeepsChain(s: State, a: Addr, size: nat)
    requires ChainInv(s) && a in s.owner
    ensures ChainInv(SetSize(s, a, size))
  {
    var s' := SetSize(s, a, size);
    forall c | c in s'.owner ensures Chained(s', c) {
      assert Chained(s, c);
    }
    forall b | b in s'.blocks ensures BlockOk(s', b) {
      assert BlockOk(s, b);
    }
  }

  lemma SetSizeKeepsLists(s: State, a: Addr, size: nat)
    requires ListInv(s) && a in s.owner
    ensures ListInv(SetSize(s, a, size))
  {
    var s' := SetSize(s, a, size);
    forall c | c in s'.owner ensures Listed(s', c) {
      assert Listed(s, c);
    }
    forall i | 0 <= i < MAX_EXP ensures HeadOk(s', i) {
      assert HeadOk(s, i);
    }
  }

  lemma CutTagOk(s: State, a: Addr, junk: nat, c: Addr)
    requires Inv(s) && a in s.owner && !Free(s, a)
    requires s.tags[a].size + 2 * TAG_SIZE <= s.tags[a].realSize && c in s.owner
    ensures Shape(Cut(s, a, junk)) && TagOk(Cut(s, a, junk), c, Tail(s, a))
  {
    assert TagOk(s, c, 0) && Chained(s, c) && Chained(s, a);
    TailFresh(s, a);
    CutAt(s, a, junk, c);
    if s.tags[c].right in s.owner { CutAt(s, a, junk, s.tags[c].right); }
  }

  lemma CutUnsplit(s: State, a: Addr, junk: nat, i: int)
    requires ChainInv(s) && BlocksApart(s) && a in s.owner && !Free(s, a) && i != -1
    requires s.tags[a].size + 2 * TAG_SIZE <= s.tags[a].realSize
    ensures Shape(Cut(s, a, junk)) && Unsplit(Cut(s, a, junk), i, Tail(s, a)) == Unsplit(s, i, 0)
  {
    var s' := Cut(s, a, junk);
    TailFresh(s, a);
    assert Chained(s, a);
    forall c | c in s.owner
      ensures c in s'.tags && s'.tags[c].index == s.tags[c].index
      ensures s'.tags[c].index != -1 ==> (Whole(s', c) <==> Whole(s, c))
    {
      CutAt(s, a, junk, c);
      assert Chained(s, c);
    }
  }

  lemma CutKeeps(s: State, a: Addr, junk: nat)
    requires Inv(s) && a in s.owner && !Free(s, a)
    requires s.tags[a].size + 2 * TAG_SIZE <= s.tags[a].realSize
    ensures InvBut(Cut(s, a, junk), Tail(s, a))
  {
    var s' := Cut(s, a, junk);
    TailFresh(s, a);
    CutKeepsChain(s, a, junk);
    CutKeepsLists(s, a, junk);
    assert Chained(s, a);
    forall i | 0 <= i < MAX_EXP ensures s'.complete[i] == |Unsplit(s', i, Tail(s, a))| <= MAX_COMPLETE {
      CutUnsplit(s, a, junk, i);
    }
    forall c | c in s'.owner && c != Tail(s, a) ensures TagOk(s', c, Tail(s, a)) {
      CutTagOk(s, a, junk, c);
    }
  }

  // -------------------------------------------------------- filing a free tag

  /** Counting before filing or after makes no difference. */
  lemma CountThenFile(s: State, a: Addr, complete: seq<int>, i: nat)
    requires ListInv(s) && |complete| == MAX_EXP && a in s.owner && i < MAX_EXP
    ensures ListInv(s.(complete := complete))
    ensures InsertTag(s.(complete := complete), a, i) == InsertTag(s, a, i).(complete := complete)
  {
    var s' := s.(complete := complete);
    forall c | c in s'.owner ensures Listed(s', c) {
      assert Listed(s, c);
    }
    forall j | 0 <= j < MAX_EXP ensures HeadOk(s', j) {
      assert HeadOk(s, j);
    }
  }

  /** Neither neighbour of `a` is free. */
  predicate Alone(s: State, a: Addr)
    requires Shape(s) && a in s.owner
  {
    && (s.tags[a].left in s.owner ==> !Free(s, s.tags[a].left))
    && (s.tags[a].right in s.owner ==> !Free(s, s.tags[a].right))
  }

  lemma FiledTagOk(s: State, a: Addr, c: Addr)
    requires InvBut(s, a) && a in s.owner && !Free(s, a) && Alone(s, a) && c in s.owner
    requires TAG_SIZE <= s.tags[a].realSize
    requires Relisted(s, File(s, a), a) && File(s, a).tags[a].index == ListFor(s.tags[a].realSize - TAG_SIZE)
    ensures TagOk(File(s, a), c, 0)
  {
    if c == a { FiledSelfOk(s, a); } else { FiledOtherOk(s, a, c); }
  }

  lemma FiledSelfOk(s: State, a: Addr)
    requires InvBut(s, a) && a in s.owner && !Free(s, a) && Alone(s, a) && TAG_SIZE <= s.tags[a].realSize
    requires Relisted(s, File(s, a), a) && File(s, a).tags[a].index == ListFor(s.tags[a].realSize - TAG_SIZE)
    ensures TagOk(File(s, a), a, 0)
  {
    var s', t := File(s, a), s.tags[a];
    assert SameSpan(t, s'.tags[a]) && Chained(s, a);
    if t.right in s.owner { assert SameSpan(s.tags[t.right], s'.tags[t.right]); }
  }

  lemma FiledOtherOk(s: State, a: Addr, c: Addr)
    requires InvBut(s, a) && a in s.owner && !Free(s, a) && Alone(s, a) && c in s.owner && c != a
    requires TAG_SIZE <= s.tags[a].realSize && Relisted(s, File(s, a), a)
    ensures TagOk(File(s, a), c, 0)
  {
    var s', t := File(s, a), s.tags[c];
    assert SameSpan(t, s'.tags[c]) && TagOk(s, c, a) && Chained(s, c);
    if t.right in s.owner { assert SameSpan(s.tags[t.right], s'.tags[t.right]); }
  }

  lemma FileStructure(s: State, a: Addr)
    requires InvBut(s, a) && a in s.owner && !Free(s, a) && TAG_SIZE <= s.tags[a].realSize
    ensures var s' := File(s, a);
            && Relisted(s, s', a) && ChainInv(s') && ListInv(s')
            && s'.tags[a].index == ListFor(s.tags[a].realSize - TAG_SIZE)
  {
    InsertTagKeeps(s, a, ListFor(s.tags[a].realSize - TAG_SIZE));
    RelistedKeepsChain(s, File(s, a), a);
  }

  lemma FiledTags(s: State, a: Addr)
    requires InvBut(s, a) && a in s.owner && !Free(s, a) && Alone(s, a) && TAG_SIZE <= s.tags[a].realSize
    ensures var s' := File(s, a);
            && Relisted(s, s', a) && ChainInv(s') && BlocksApart(s') && ListInv(s')
            && s'.tags[a].index == ListFor(s.tags[a].realSize - TAG_SIZE) && SameSpan(s.tags[a], s'.tags[a])
            && forall c {:trigger TagOk(s', c, 0)} :: c in s'.owner && c != 0 ==> TagOk(s', c, 0)
  {
    var s' := File(s, a);
    FileStructure(s, a);
    forall c | c in s'.owner ensures TagOk(s', c, 0) {
      FiledTagOk(s, a, c);
    }
  }

  lemma FiledCount(s: State, a: Addr, i: nat)
    requires ListInv(s) && CountInv(s, a) && a in s.owner && i < MAX_EXP && TAG_SIZE <= s.tags[a].realSize
    requires Relisted(s, File(s, a), a) && File(s, a).tags[a].index == ListFor(s.tags[a].realSize - TAG_SIZE)
    ensures |Unsplit(File(s, a), i, 0)| ==
            s.complete[i] + (if Whole(s, a) && i == ListFor(s.tags[a].realSize - TAG_SIZE) then 1 else 0)
  {
    var s' := File(s, a);
    assert SameSpan(s.tags[a], s'.tags[a]);
    UnsplitHole(s', a, i);
    RelistedUnsplit(s, s', a, i);
  }

  lemma FileKeeps(s: State, a: Addr)
    requires InvBut(s, a) && a in s.owner && !Free(s, a) && Alone(s, a) && !Whole(s, a)
    ensures TAG_SIZE <= s.tags[a].realSize && Inv(File(s, a))
  {
    assert Chained(s, a);
    var s' := File(s, a);
    FiledTags(s, a);
    forall i | 0 <= i < MAX_EXP ensures s'.complete[i] == |Unsplit(s', i, 0)| <= MAX_COMPLETE {
      FiledCount(s, a, i);
    }
  }

  lemma StandbyKeeps(s: State, a: Addr)
    requires ChainInv(s) && BlocksApart(s) && ListInv(s) && a in s.owner && TAG_SIZE <= s.tags[a].realSize
    requires forall c {:trigger TagOk(s, c, 0)} :: c in s.owner && c != 0 ==> TagOk(s, c, 0)
    requires forall i :: 0 <= i < MAX_EXP ==> Standby(s, a).complete[i] == |Unsplit(s, i, 0)| <= MAX_COMPLETE
    ensures Inv(Standby(s, a))
  {
    Recount(s, Standby(s, a), 0);
  }

  lemma FileWholeKeeps(s: State, a: Addr)
    requires InvBut(s, a) && a in s.owner && !Free(s, a) && Alone(s, a) && Whole(s, a)
    requires TAG_SIZE <= s.tags[a].realSize
    requires s.complete[ListFor(s.tags[a].realSize - TAG_SIZE)] < MAX_COMPLETE
    ensures Inv(Standby(File(s, a), a))
  {
    FiledTags(s, a);
    FiledCounts(s, a, File(s, a), ListFor(s.tags[a].realSize - TAG_SIZE));
    StandbyKeeps(File(s, a), a);
  }

  lemma FiledCounts(s: State, a: Addr, s1: State, at: nat)
    requires ListInv(s) && CountInv(s, a) && a in s.owner && Whole(s, a) && TAG_SIZE <= s.tags[a].realSize
    requires s1 == File(s, a) && Relisted(s, s1, a) && s1.tags[a].index == at && s1.tags[a].realSize == s.tags[a].realSize
    requires at == ListFor(s.tags[a].realSize - TAG_SIZE) && s.complete[at] < MAX_COMPLETE
    ensures forall i :: 0 <= i < MAX_EXP ==> Standby(s1, a).complete[i] == |Unsplit(s1, i, 0)| <= MAX_COMPLETE
  {
    forall i | 0 <= i < MAX_EXP ensures Standby(s1, a).complete[i] == |Unsplit(s1, i, 0)| <= MAX_COMPLETE {
      StandbyCount(s1, a, at, i);
      FiledCount(s, a, i);
    }
  }

  lemma StandbyCount(s: State, a: Addr, at: nat, i: nat)
    requires |s.complete| == MAX_EXP && a in s.tags && TAG_SIZE <= s.tags[a].realSize && i < MAX_EXP
    requires at == ListFor(s.tags[a].realSize - TAG_SIZE)
    ensures Standby(s, a).complete[i] == s.complete[i] + if i == at then 1 else 0
  {
  }

  // --------------------------------------------------------------- coalescing

  lemma JoinTagOk(s: State, l: Addr, r: Addr, c: Addr, hole: Addr)
    requires ChainInv(s) && l in s.owner && r in s.owner && s.tags[l].right == r
    requires hole == l || hole == r
    requires c in s.owner && c != l && c != r && TagOk(s, c, hole)
    ensures Shape(Join(s, l, r)) && TagOk(Join(s, l, r), c, l)
  {
    var s', t := Join(s, l, r), s.tags[c];
    assert Chained(s, r);
    JoinAt(s, l, r, c);
    assert s'.tags[c] == t.(left := s'.tags[c].left);
    if t.right in s.owner {
      JoinAt(s, l, r, t.right);
      assert t.right != l ==> s'.tags[t.right].index == s.tags[t.right].index;
    }
  }

  lemma JoinUnsplit(s: State, l: Addr, r: Addr, i: int, hole: Addr)
    requires ChainInv(s) && l in s.owner && r in s.owner && s.tags[l].right == r
    requires hole == l || hole == r
    ensures Shape(Join(s, l, r)) && Unsplit(Join(s, l, r), i, l) == Unsplit(s, i, hole)
  {
    var s' := Join(s, l, r);
    assert Chained(s, l) && Chained(s, r);
    forall c | c in s.owner && c != l && c != r
      ensures c in s'.tags && s'.tags[c].index == s.tags[c].index && (Whole(s', c) <==> Whole(s, c))
    {
      JoinAt(s, l, r, c);
      assert Chained(s, c);
    }
  }

  /** Merging the tag in transit leaves the merged tag in transit. */
  lemma JoinKeeps(s: State, l: Addr, r: Addr, hole: Addr)
    requires ChainInv(s) && BlocksApart(s) && ListInv(s) && CountInv(s, hole)
    requires l in s.owner && r in s.owner && s.tags[l].right == r && !Free(s, r)
    requires hole == l || hole == r
    requires forall c {:trigger TagOk(s, c, hole)} :: c in s.owner && c != l && c != r ==> TagOk(s, c, hole)
    ensures InvBut(Join(s, l, r), l)
  {
    var s' := Join(s, l, r);
    assert Chained(s, r);
    JoinKeepsChain(s, l, r);
    JoinKeepsLists(s, l, r);
    forall i | 0 <= i < MAX_EXP ensures s'.complete[i] == |Unsplit(s', i, l)| <= MAX_COMPLETE {
      JoinUnsplit(s, l, r, i, hole);
    }
    forall c | c in s'.owner && c != l ensures TagOk(s', c, l) {
      assert TagOk(s, c, hole);
      JoinTagOk(s, l, r, c, hole);
    }
  }

  /** melt_left and the remove_tag that follows it. */
  function MeltLeft(s: State, a: Addr): State
    requires InvBut(s, a) && a in s.owner && !Free(s, a)
    requires s.tags[a].left in s.owner && Free(s, s.tags[a].left)
  {
    var l := s.tags[a].left;
    assert Chained(s, a) && Chained(s, l);
    JoinKeeps(s, l, a, a);
    JoinAt(s, l, a, l);
    RemoveTag(Join(s, l, a), l)
  }

  lemma RemovedKeeps(s: State, a: Addr)
    requires InvBut(s, a) && a in s.owner && Free(s, a)
    ensures InvBut(RemoveTag(s, a), a) && !Free(RemoveTag(s, a), a) && Relisted(s, RemoveTag(s, a), a)
  {
    var s' := RemoveTag(s, a);
    RemoveTagKeeps(s, a);
    RelistedKeepsChain(s, s', a);
    forall c | c in s'.owner && c != a ensures TagOk(s', c, a) {
      assert TagOk(s, c, a);
      RelistedTagOk(s, s', a, c);
    }
    forall i | 0 <= i < MAX_EXP ensures s'.complete[i] == |Unsplit(s', i, a)| <= MAX_COMPLETE {
      RelistedUnsplit(s, s', a, i);
    }
  }

  lemma MeltLeftKeeps(s: State, a: Addr)
    requires InvBut(s, a) && a in s.owner && !Free(s, a)
    requires s.tags[a].left in s.owner && Free(s, s.tags[a].left)
    ensures var s', l := MeltLeft(s, a), s.tags[a].left;
            && InvBut(s', l) && l in s'.owner && !Free(s', l) && l < a
            && s'.tags[l].left == s.tags[l].left && s'.tags[l].right == s.tags[a].right
            && s'.tags[l].realSize == s.tags[l].realSize + s.tags[a].realSize
            && s'.owner == s.owner - {a} && s'.blocks == s.blocks
  {
    var l := s.tags[a].left;
    assert Chained(s, a) && Chained(s, l);
    JoinKeeps(s, l, a, a);
    JoinAt(s, l, a, l);
    var s1 := Join(s, l, a);
    RemovedKeeps(s1, l);
    assert SameSpan(s1.tags[l], RemoveTag(s1, l).tags[l]);
  }

  /** absorb_right. */
  function AbsorbRight(s: State, a: Addr): State
    requires InvBut(s, a) && a in s.owner && !Free(s, a)
    requires s.tags[a].right in s.owner && Free(s, s.tags[a].right)
  {
    var r := s.tags[a].right;
    RemoveTagKeeps(s, r);
    RelistedKeepsChain(s, RemoveTag(s, r), r);
    assert SameSpan(s.tags[a], RemoveTag(s, r).tags[a]);
    Join(RemoveTag(s, r), a, r)
  }

  lemma RemovedRightTagOk(s: State, s1: State, a: Addr, r: Addr, c: Addr)
    requires Relisted(s, s1, r) && r in s.owner && !Free(s1, r)
    requires c in s.owner && c != a && c != r && TagOk(s, c, a)
    ensures TagOk(s1, c, a)
  {
    assert SameSpan(s.tags[c], s1.tags[c]);
    if s.tags[c].right in s.owner { assert SameSpan(s.tags[s.tags[c].right], s1.tags[s.tags[c].right]); }
  }

  lemma RemovedRightUnsplit(s: State, s1: State, a: Addr, r: Addr, i: int)
    requires Relisted(s, s1, r) && r in s.owner && s.tags[r].left != 0
    ensures Unsplit(s1, i, a) == Unsplit(s, i, a)
  {
    assert SameSpan(s.tags[r], s1.tags[r]);
  }

  lemma AbsorbRightKeeps(s: State, a: Addr)
    requires InvBut(s, a) && a in s.owner && !Free(s, a)
    requires s.tags[a].right in s.owner && Free(s, s.tags[a].right)
    ensures var s', r := AbsorbRight(s, a), s.tags[a].right;
            && InvBut(s', a) && a in s'.owner && !Free(s', a)
            && s'.tags[a].left == s.tags[a].left && s'.tags[a].right == s.tags[r].right
            && s'.tags[a].realSize == s.tags[a].realSize + s.tags[r].realSize
            && s'.owner == s.owner - {r} && s'.blocks == s.blocks
  {
    var r := s.tags[a].right;
    var s1 := RemoveTag(s, r);
    assert Chained(s, a) && Chained(s, r);
    RemoveTagKeeps(s, r);
    RelistedKeepsChain(s, s1, r);
    assert SameSpan(s.tags[a], s1.tags[a]) && SameSpan(s.tags[r], s1.tags[r]);
    forall i | 0 <= i < MAX_EXP ensures s1.complete[i] == |Unsplit(s1, i, a)| <= MAX_COMPLETE {
      RemovedRightUnsplit(s, s1, a, r, i);
    }
    forall c | c in s1.owner && c != a && c != r ensures TagOk(s1, c, a) {
      assert TagOk(s, c, a);
      RemovedRightTagOk(s, s1, a, r, c);
    }
    JoinKeeps(s1, a, r, a);
    JoinAt(s1, a, r, a);
  }
}
