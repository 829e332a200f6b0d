/**
 The boundary-tag heap of lethe-kernel/memory/liballoc.c as a value: the tags
 in memory, the table of free-list heads and the table of standby counts, and
 beside them the record of which tags are real (`owner`, tag -> its block),
 which page blocks are held (`blocks`, base -> pages) and how far each free tag
 is from the end of its list (`rank`).  Addresses are numbers and 0 is NULL.
 */
module HeapModel {
  import opened Bits

  type Addr = nat

  const TAG_SIZE: nat := 48
  const PAGE_SIZE: nat := 4096
  const MIN_PAGES: nat := 16
  const MAX_COMPLETE: nat := 5
  const MAX_EXP: nat := 32
  const MIN_EXP: nat := 8
  const QUANTUM: nat := 256
  const MAGIC: nat := 0xC001C0DE
  const SIZE_LIMIT: nat := 0x8000_0000

  datatype Tag = Tag(magic: nat, size: nat, realSize: nat, index: int,
                     left: Addr, right: Addr, next: Addr, prev: Addr)

  datatype State = State(
    tags: map<Addr, Tag>,
    heads: seq<Addr>,
    complete: seq<int>,
    owner: map<Addr, Addr>,
    blocks: map<Addr, nat>,
    rank: map<Addr, nat>)

  // ------------------------------------------------------------ size classes

  function ExpFrom(size: nat, shift: nat): (e: nat)
    requires 1 <= shift <= MAX_EXP
    ensures shift - 1 <= e < MAX_EXP
    decreases MAX_EXP - shift
  {
    if shift < MAX_EXP && Pow2(shift) <= size then ExpFrom(size, shift + 1) else shift - 1
  }

  /** The exponent that manages `size` bytes; -1 below the quantum. */
  function Exp(size: nat): (e: int)
    ensures size < QUANTUM ==> e == -1
    ensures size >= QUANTUM ==> MIN_EXP <= e < MAX_EXP
  {
    if size < QUANTUM then -1
    else
      assert Pow2(8) == 256 by { Pow2Quantum(); }
      ExpFrom(size, MIN_EXP)
  }

  lemma Pow2Quantum()
    ensures Pow2(8) == 256
  {
    assert Pow2(4) == 16;
  }

  /** The free list for a request of `size` bytes. */
  function ListFor(size: nat): (i: nat)
    ensures MIN_EXP <= i < MAX_EXP
  {
    if Exp(size) < MIN_EXP then MIN_EXP else Exp(size)
  }

  lemma {:induction false} ExpFromBounds(size: nat, shift: nat)
    requires 1 <= shift <= MAX_EXP
    requires Pow2(shift - 1) <= size < Pow2(MAX_EXP)
    ensures Pow2(ExpFrom(size, shift)) <= size < Pow2(ExpFrom(size, shift) + 1)
    decreases MAX_EXP - shift
  {
    if shift < MAX_EXP && Pow2(shift) <= size {
      ExpFromBounds(size, shift + 1);
    }
  }

  /** Exp(size) is the n with 2^n <= size < 2^(n+1). */
  lemma ExpBounds(size: nat)
    requires QUANTUM <= size < Pow2(MAX_EXP)
    ensures Pow2(Exp(size)) <= size < Pow2(Exp(size) + 1)
  {
    Pow2Quantum();
    assert Pow2(7) <= size;
    ExpFromBounds(size, MIN_EXP);
  }

  // --------------------------------------------------------------- invariants

  function End(s: State, b: Addr): Addr
    requires b in s.blocks
  {
    b + s.blocks[b] * PAGE_SIZE
  }

  predicate Shape(s: State) {
    && |s.heads| == MAX_EXP
    && |s.complete| == MAX_EXP
    && 0 !in s.owner
    && s.owner.Keys <= s.tags.Keys
  }

  predicate BlockOk(s: State, b: Addr)
    requires b in s.blocks
  {
    b in s.owner && s.owner[b] == b && MIN_PAGES <= s.blocks[b] && s.blocks[b] * PAGE_SIZE < SIZE_LIMIT
  }

  predicate BlocksApart(s: State) {
    forall b, c :: b in s.blocks && c in s.blocks && b != c ==> End(s, b) <= c || End(s, c) <= b
  }

  /** Tag `a` lies in its block and is linked to the tags that touch it. */
  predicate Chained(s: State, a: Addr)
    requires Shape(s) && a in s.owner
  {
    var t, b := s.tags[a], s.owner[a];
    && b in s.blocks
    && t.magic == MAGIC && TAG_SIZE <= t.realSize && b <= a && a + t.realSize <= End(s, b)
    && (if a == b then t.left == 0
        else t.left in s.owner && s.owner[t.left] == b && t.left < a && s.tags[t.left].right == a)
    && (if a + t.realSize == End(s, b) then t.right == 0
        else t.right == a + t.realSize && t.right in s.owner && s.owner[t.right] == b && s.tags[t.right].left == a)
  }

  predicate ChainInv(s: State) {
    && Shape(s)
    && (forall b {:trigger BlockOk(s, b)} :: b in s.blocks ==> BlockOk(s, b))
    && (forall a {:trigger Chained(s, a)} :: a in s.owner ==> Chained(s, a))
  }

  predicate Free(s: State, a: Addr)
    requires a in s.tags
  {
    s.tags[a].index != -1
  }

  /** Tag `a` is properly linked in the free list its index names, or in none. */
  predicate Listed(s: State, a: Addr)
    requires Shape(s) && a in s.owner
  {
    var t := s.tags[a];
    if t.index == -1 then t.next == 0 && t.prev == 0
    else
      && 0 <= t.index < MAX_EXP && a in s.rank
      && (if t.prev == 0 then s.heads[t.index] == a
          else t.prev in s.owner && s.tags[t.prev].index == t.index && s.tags[t.prev].next == a)
      && (t.next != 0 ==>
            && t.next in s.owner && s.tags[t.next].index == t.index && s.tags[t.next].prev == a
            && t.next in s.rank && s.rank[t.next] < s.rank[a])
  }

  predicate HeadOk(s: State, i: nat)
    requires Shape(s) && i < MAX_EXP
  {
    s.heads[i] != 0 ==>
      s.heads[i] in s.owner && s.tags[s.heads[i]].index == i && s.tags[s.heads[i]].prev == 0
  }

  predicate ListInv(s: State) {
    && Shape(s)
    && (forall a {:trigger Listed(s, a)} :: a in s.owner ==> Listed(s, a))
    && (forall i :: 0 <= i < MAX_EXP ==> HeadOk(s, i))
  }

  function Unsplit(s: State, i: int, hole: Addr): set<Addr>
    requires Shape(s)
  {
    set a | a in s.owner && a != hole && s.tags[a].index == i && s.tags[a].left == 0 && s.tags[a].right == 0
  }

  predicate CountInv(s: State, hole: Addr) {
    && Shape(s)
    && forall i :: 0 <= i < MAX_EXP ==> s.complete[i] == |Unsplit(s, i, hole)| <= MAX_COMPLETE
  }

  /** What holds of one tag beyond its links: a free tag is filed under its own
      size class and has no free right neighbour; a used one holds its payload. */
  predicate TagOk(s: State, a: Addr, hole: Addr)
    requires Shape(s) && a in s.owner
  {
    var t := s.tags[a];
    && (t.index != -1 ==> TAG_SIZE <= t.realSize && t.index == ListFor(t.realSize - TAG_SIZE))
    && (t.index == -1 ==> t.size + TAG_SIZE <= t.realSize)
    && (t.right in s.owner && t.right != hole ==> !(t.index != -1 && s.tags[t.right].index != -1))
  }

  /** The heap invariant, with the tag `hole` (0 for none) in transit: it is on
      no claim about its size, class, neighbours or standby count. */
  predicate InvBut(s: State, hole: Addr) {
    && ChainInv(s) && BlocksApart(s) && ListInv(s) && CountInv(s, hole)
    && forall a {:trigger TagOk(s, a, hole)} :: a in s.owner && a != hole ==> TagOk(s, a, hole)
  }

  predicate Inv(s: State) {
    InvBut(s, 0)
  }

  // ------------------------------------------------------ the list operations

  function InsertTag(s: State, a: Addr, i: nat): State
    requires ListInv(s) && a in s.owner && i < MAX_EXP
  {
    var h := s.heads[i];
    var t := s.tags[a].(index := i);
    if h == 0 then
      s.(tags := s.tags[a := t], heads := s.heads[i := a], rank := s.rank[a := 0])
    else
      assert HeadOk(s, i) && Listed(s, h);
      s.(tags := s.tags[h := s.tags[h].(prev := a)][a := t.(next := h)],
         heads := s.heads[i := a], rank := s.rank[a := s.rank[h] + 1])
  }

  function SetNext(tags: map<Addr, Tag>, a: Addr, n: Addr): map<Addr, Tag>
    requires a == 0 || a in tags
  {
    if a == 0 then tags else tags[a := tags[a].(next := n)]
  }

  function SetPrev(tags: map<Addr, Tag>, a: Addr, p: Addr): map<Addr, Tag>
    requires a == 0 || a in tags
  {
    if a == 0 then tags else tags[a := tags[a].(prev := p)]
  }

  function RemoveTag(s: State, a: Addr): State
    requires ListInv(s) && a in s.owner && Free(s, a)
  {
    assert Listed(s, a);
    var t := s.tags[a];
    var heads := if s.heads[t.index] == a then s.heads[t.index := t.next] else s.heads;
    var tags := SetPrev(SetNext(s.tags, t.prev, t.next), t.next, t.prev);
    s.(tags := tags[a := tags[a].(next := 0, prev := 0, index := -1)], heads := heads)
  }

  /** The two tags differ at most in their list links. */
  predicate SameSpan(t: Tag, t': Tag) {
    t' == t.(index := t'.index, next := t'.next, prev := t'.prev)
  }

  /** s' differs from s at most in list links, and in the index of `a`. */
  predicate Relisted(s: State, s': State, a: Addr) {
    && Shape(s) && Shape(s') && s'.owner == s.owner && s'.blocks == s.blocks && s'.complete == s.complete
    && s'.tags.Keys == s.tags.Keys
    && forall c {:trigger s'.tags[c]} :: c in s.owner ==>
         SameSpan(s.tags[c], s'.tags[c]) && (c != a ==> s'.tags[c].index == s.tags[c].index)
  }

  lemma InsertTagListed(s: State, a: Addr, i: nat, c: Addr)
    requires ListInv(s) && a in s.owner && !Free(s, a) && i < MAX_EXP && c in s.owner
    ensures Shape(InsertTag(s, a, i)) && Listed(InsertTag(s, a, i), c)
  {
    assert HeadOk(s, i) && Listed(s, a) && Listed(s, c);
    assert s.heads[i] != 0 ==> Listed(s, s.heads[i]);
  }

  lemma InsertTagKeeps(s: State, a: Addr, i: nat)
    requires ListInv(s) && a in s.owner && !Free(s, a) && i < MAX_EXP
    ensures Relisted(s, InsertTag(s, a, i), a) && ListInv(InsertTag(s, a, i))
    ensures InsertTag(s, a, i).tags[a].index == i
  {
    var s' := InsertTag(s, a, i);
    assert HeadOk(s, i);
    forall c | c in s'.owner ensures Listed(s', c) {
      InsertTagListed(s, a, i, c);
    }
    forall j | 0 <= j < MAX_EXP ensures HeadOk(s', j) {
      assert HeadOk(s, j) && Listed(s, a);
    }
  }

  /** What remove_tag leaves at each tag. */
  lemma RemoveTagAt(s: State, a: Addr, c: Addr)
    requires ListInv(s) && a in s.owner && Free(s, a) && c in s.owner
    ensures c in RemoveTag(s, a).tags
    ensures RemoveTag(s, a).tags[c] ==
            if c == a then s.tags[a].(next := 0, prev := 0, index := -1)
            else if c == s.tags[a].prev then s.tags[c].(next := s.tags[a].next)
            else if c == s.tags[a].next then s.tags[c].(prev := s.tags[a].prev)
            else s.tags[c]
  {
    var t := s.tags[a];
    assert Listed(s, a);
    if t.prev != 0 { assert Listed(s, t.prev); }
    if t.next != 0 { assert Listed(s, t.next); }
  }

  lemma RemoveTagListed(s: State, a: Addr, c: Addr)
    requires ListInv(s) && a in s.owner && Free(s, a) && c in s.owner
    ensures Shape(RemoveTag(s, a)) && Listed(RemoveTag(s, a), c)
  {
    var s', t, u := RemoveTag(s, a), s.tags[a], s.tags[c];
    assert Listed(s, a) && Listed(s, c);
    RemoveTagAt(s, a, c);
    if u.index != -1 && c != a {
      if t.prev != 0 { assert Listed(s, t.prev); RemoveTagAt(s, a, t.prev); }
      if t.next != 0 { assert Listed(s, t.next); RemoveTagAt(s, a, t.next); }
      if u.prev != 0 { RemoveTagAt(s, a, u.prev); }
      if u.next != 0 { RemoveTagAt(s, a, u.next); }
    }
  }

  lemma RemoveTagRelists(s: State, a: Addr)
    requires ListInv(s) && a in s.owner && Free(s, a)
    ensures Relisted(s, RemoveTag(s, a), a) && !Free(RemoveTag(s, a), a)
  {
    assert Listed(s, a);
    forall c | c in s.owner ensures c in RemoveTag(s, a).tags {
      RemoveTagAt(s, a, c);
    }
  }

  lemma RemoveTagKeeps(s: State, a: Addr)
    requires ListInv(s) && a in s.owner && Free(s, a)
    ensures Relisted(s, RemoveTag(s, a), a) && ListInv(RemoveTag(s, a))
    ensures !Free(RemoveTag(s, a), a)
  {
    var s', t := RemoveTag(s, a), s.tags[a];
    RemoveTagRelists(s, a);
    forall c | c in s'.owner ensures Listed(s', c) {
      RemoveTagListed(s, a, c);
    }
    forall j | 0 <= j < MAX_EXP ensures HeadOk(s', j) {
      assert HeadOk(s, j) && Listed(s, a);
      if s.heads[j] == a {
        if t.next != 0 { RemoveTagAt(s, a, t.next); assert Listed(s, t.next); }
      } else if s.heads[j] != 0 {
        RemoveTagAt(s, a, s.heads[j]);
      }
    }
  }

  // ----------------------------------------------------- the chain operations

  /** Merge tag `r` into its left neighbour `l` (the link surgery that melt_left
      and absorb_right share). */
  function Join(s: State, l: Addr, r: Addr): State
    requires ChainInv(s) && l in s.owner && r in s.owner && s.tags[l].right == r
  {
    assert Chained(s, r);
    var t := s.tags[r];
    var tags := s.tags[l := s.tags[l].(realSize := s.tags[l].realSize + t.realSize, right := t.right)];
    s.(tags := if t.right == 0 then tags else tags[t.right := tags[t.right].(left := l)],
       owner := s.owner - {r})
  }

  lemma JoinAt(s: State, l: Addr, r: Addr, c: Addr)
    requires ChainInv(s) && l in s.owner && r in s.owner && s.tags[l].right == r
    requires c in s.owner
    ensures c in Join(s, l, r).tags
    ensures Join(s, l, r).tags[c] ==
            if c == l then s.tags[l].(realSize := s.tags[l].realSize + s.tags[r].realSize, right := s.tags[r].right)
            else if c == s.tags[r].right then s.tags[c].(left := l)
            else s.tags[c]
  {
    assert Chained(s, l) && Chained(s, r);
  }

  lemma JoinChained(s: State, l: Addr, r: Addr, c: Addr)
    requires ChainInv(s) && l in s.owner && r in s.owner && s.tags[l].right == r
    requires c in s.owner && c != r
    ensures Shape(Join(s, l, r)) && Chained(Join(s, l, r), c)
  {
    var t := s.tags[c];
    assert Chained(s, l) && Chained(s, r) && Chained(s, c);
    JoinAt(s, l, r, c);
    if c == l {
      if t.left in s.owner { JoinAt(s, l, r, t.left); }
      if s.tags[r].right in s.owner { JoinAt(s, l, r, s.tags[r].right); }
    } else {
      if t.left in s.owner { JoinAt(s, l, r, t.left); }
      if t.right in s.owner { JoinAt(s, l, r, t.right); }
      if t.left == r { JoinAt(s, l, r, l); }
    }
  }

  lemma JoinKeepsChain(s: State, l: Addr, r: Addr)
    requires ChainInv(s) && l in s.owner && r in s.owner && s.tags[l].right == r
    ensures ChainInv(Join(s, l, r))
  {
    var s' := Join(s, l, r);
    assert Chained(s, r) && Chained(s, l);
    forall b | b in s'.blocks ensures BlockOk(s', b) {
      assert BlockOk(s, b);
    }
    forall c | c in s'.owner ensures Chained(s', c) {
      JoinChained(s, l, r, c);
    }
  }

  lemma JoinListed(s: State, l: Addr, r: Addr, c: Addr)
    requires ChainInv(s) && ListInv(s)
    requires l in s.owner && r in s.owner && s.tags[l].right == r && !Free(s, r)
    requires c in s.owner && c != r
    ensures Shape(Join(s, l, r)) && Listed(Join(s, l, r), c)
  {
    assert Listed(s, c);
    JoinAt(s, l, r, c);
    if s.tags[c].next != 0 { JoinAt(s, l, r, s.tags[c].next); }
    if s.tags[c].prev != 0 { JoinAt(s, l, r, s.tags[c].prev); }
  }

  lemma JoinKeepsLists(s: State, l: Addr, r: Addr)
    requires ChainInv(s) && ListInv(s)
    requires l in s.owner && r in s.owner && s.tags[l].right == r && !Free(s, r)
    ensures ListInv(Join(s, l, r))
  {
    var s' := Join(s, l, r);
    assert Chained(s, r);
    forall c | c in s'.owner ensures Listed(s', c) {
      JoinListed(s, l, r, c);
    }
    forall i | 0 <= i < MAX_EXP ensures HeadOk(s', i) {
      assert HeadOk(s, i);
      if s.heads[i] != 0 { JoinAt(s, l, r, s.heads[i]); }
    }
  }

  /** Where split_tag puts the tag of the unused tail of `a`. */
  function Tail(s: State, a: Addr): Addr
    requires a in s.tags
  {
    a + TAG_SIZE + s.tags[a].size
  }

  /** split_tag up to its insert_tag: the tail of `a` becomes a tag of its own.
      `junk` is the size word found in that memory; the source leaves it. */
  function Cut(s: State, a: Addr, junk: nat): State
    requires ChainInv(s) && a in s.owner && s.tags[a].size + 2 * TAG_SIZE <= s.tags[a].realSize
  {
    assert Chained(s, a);
    var t, n := s.tags[a], Tail(s, a);
    var rest := t.realSize - TAG_SIZE - t.size;
    var tags := s.tags[n := Tag(MAGIC, junk, rest, -1, a, t.right, 0, 0)];
    var tags := if t.right == 0 then tags else tags[t.right := tags[t.right].(left := n)];
    s.(tags := tags[a := t.(right := n, realSize := t.realSize - rest)],
       owner := s.owner[n := s.owner[a]])
  }

  /** Two tags of one block do not overlap. */
  lemma {:induction false} TagsApart(s: State, a: Addr, c: Addr)
    requires ChainInv(s) && a in s.owner && c in s.owner && s.owner[a] == s.owner[c] && a < c
    ensures a + s.tags[a].realSize <= c
    decreases c
  {
    assert Chained(s, a) && Chained(s, c);
    var l := s.tags[c].left;
    assert Chained(s, l);
    if a < l {
      TagsApart(s, a, l);
    } else if l < a {
      TagsApart(s, l, a);
    }
  }

  lemma TailFresh(s: State, a: Addr)
    requires ChainInv(s) && BlocksApart(s) && a in s.owner
    requires s.tags[a].size + 2 * TAG_SIZE <= s.tags[a].realSize
    ensures Tail(s, a) !in s.owner
  {
    var n := Tail(s, a);
    if n in s.owner {
      assert Chained(s, a) && Chained(s, n);
      if s.owner[n] == s.owner[a] {
        TagsApart(s, a, n);
      }
    }
  }

  lemma CutAt(s: State, a: Addr, junk: nat, c: Addr)
    requires ChainInv(s) && BlocksApart(s) && a in s.owner
    requires s.tags[a].size + 2 * TAG_SIZE <= s.tags[a].realSize && c in s.owner
    ensures c in Cut(s, a, junk).tags && c != Tail(s, a)
    ensures Cut(s, a, junk).tags[c] ==
            if c == a then s.tags[a].(right := Tail(s, a), realSize := TAG_SIZE + s.tags[a].size)
            else if c == s.tags[a].right then s.tags[c].(left := Tail(s, a))
            else s.tags[c]
  {
    TailFresh(s, a);
    assert Chained(s, a);
  }

  lemma CutChained(s: State, a: Addr, junk: nat, c: Addr)
    requires ChainInv(s) && BlocksApart(s) && a in s.owner
    requires s.tags[a].size + 2 * TAG_SIZE <= s.tags[a].realSize
    requires c in Cut(s, a, junk).owner
    ensures Shape(Cut(s, a, junk)) && Chained(Cut(s, a, junk), c)
  {
    TailFresh(s, a);
    assert Chained(s, a);
    CutAt(s, a, junk, a);
    if s.tags[a].right in s.owner { CutAt(s, a, junk, s.tags[a].right); }
    if c != Tail(s, a) {
      var t := s.tags[c];
      assert Chained(s, c);
      CutAt(s, a, junk, c);
      if t.left in s.owner { CutAt(s, a, junk, t.left); }
      if t.right in s.owner { CutAt(s, a, junk, t.right); }
    }
  }

  lemma CutKeepsChain(s: State, a: Addr, junk: nat)
    requires ChainInv(s) && BlocksApart(s) && a in s.owner
    requires s.tags[a].size + 2 * TAG_SIZE <= s.tags[a].realSize
    ensures ChainInv(Cut(s, a, junk))
  {
    var s' := Cut(s, a, junk);
    TailFresh(s, a);
    assert Chained(s, a);
    forall b | b in s'.blocks ensures BlockOk(s', b) {
      assert BlockOk(s, b);
    }
    forall c | c in s'.owner ensures Chained(s', c) {
      CutChained(s, a, junk, c);
    }
  }

  lemma CutKeepsLists(s: State, a: Addr, junk: nat)
    requires ChainInv(s) && BlocksApart(s) && ListInv(s) && a in s.owner
    requires s.tags[a].size + 2 * TAG_SIZE <= s.tags[a].realSize
    ensures ListInv(Cut(s, a, junk))
  {
    var s' := Cut(s, a, junk);
    TailFresh(s, a);
    assert Chained(s, a);
    forall c | c in s'.owner ensures Listed(s', c) {
      if c != Tail(s, a) {
        assert Listed(s, c);
        CutAt(s, a, junk, c);
        if s.tags[c].next != 0 { CutAt(s, a, junk, s.tags[c].next); }
        if s.tags[c].prev != 0 { CutAt(s, a, junk, s.tags[c].prev); }
      }
    }
    forall i | 0 <= i < MAX_EXP ensures HeadOk(s', i) {
      assert HeadOk(s, i);
      if s.heads[i] != 0 { CutAt(s, a, junk, s.heads[i]); }
    }
  }

  // ------------------------------------------------------------- page blocks

  /** The pages asked for when no free tag fits. */
  function PagesFor(size: nat): (n: nat)
    ensures MIN_PAGES <= n && size + TAG_SIZE <= n * PAGE_SIZE
    ensures n == MIN_PAGES || n * PAGE_SIZE < size + TAG_SIZE + PAGE_SIZE
  {
    var usage := size + TAG_SIZE;
    var pages := usage / PAGE_SIZE + if usage % PAGE_SIZE != 0 then 1 else 0;
    if pages < MIN_PAGES then MIN_PAGES else pages
  }

  predicate RegionApart(s: State, base: Addr, pages: nat) {
    0 < base && forall b :: b in s.blocks ==> End(s, b) <= base || base + pages * PAGE_SIZE <= b
  }

  /** Sizes for which all arithmetic of the source stays below 2^31. */
  predicate Sized(size: nat) {
    size + TAG_SIZE + PAGE_SIZE <= SIZE_LIMIT
  }

  /** allocate_new_tag: a block of PagesFor(size) pages arrives at `base`. */
  function AddBlock(s: State, base: Addr, size: nat): State {
    s.(tags := s.tags[base := Tag(MAGIC, size, PagesFor(size) * PAGE_SIZE, -1, 0, 0, 0, 0)],
       owner := s.owner[base := base],
       blocks := s.blocks[base := PagesFor(size)])
  }

  lemma BaseFresh(s: State, base: Addr, size: nat)
    requires ChainInv(s) && RegionApart(s, base, PagesFor(size))
    ensures base !in s.owner
  {
    assert base in s.owner ==> Chained(s, base);
  }

  lemma AddBlockKeepsChain(s: State, base: Addr, size: nat)
    requires ChainInv(s) && RegionApart(s, base, PagesFor(size)) && Sized(size)
    ensures ChainInv(AddBlock(s, base, size))
  {
    var s' := AddBlock(s, base, size);
    BaseFresh(s, base, size);
    forall b | b in s'.blocks ensures BlockOk(s', b) {
      if b != base { assert BlockOk(s, b); }
    }
    forall c | c in s'.owner ensures Chained(s', c) {
      if c != base { assert Chained(s, c); }
    }
  }

  lemma AddBlockKeeps(s: State, base: Addr, size: nat)
    requires ChainInv(s) && BlocksApart(s) && ListInv(s) && RegionApart(s, base, PagesFor(size)) && Sized(size)
    ensures var s' := AddBlock(s, base, size); ChainInv(s') && BlocksApart(s') && ListInv(s')
  {
    var s' := AddBlock(s, base, size);
    BaseFresh(s, base, size);
    AddBlockKeepsChain(s, base, size);
    forall c | c in s'.owner ensures Listed(s', c) {
      if c != base { assert Listed(s, c); }
    }
    forall i | 0 <= i < MAX_EXP ensures HeadOk(s', i) {
      assert HeadOk(s, i);
    }
  }

  /** liballoc_free: the block of the unsplit tag `b` goes back. */
  function DropBlock(s: State, b: Addr): State {
    s.(owner := s.owner - {b}, blocks := s.blocks - {b})
  }

  lemma DropBlockKeepsChain(s: State, b: Addr)
    requires ChainInv(s) && b in s.owner && s.tags[b].left == 0 && s.tags[b].right == 0
    ensures ChainInv(DropBlock(s, b))
    ensures b in s.blocks && s.tags[b].realSize == s.blocks[b] * PAGE_SIZE
  {
    var s' := DropBlock(s, b);
    assert Chained(s, b);
    forall c | c in s'.owner ensures Chained(s', c) {
      assert Chained(s, c);
      if s.owner[c] == b { TagsApart(s, b, c); }
    }
    forall d | d in s'.blocks ensures BlockOk(s', d) {
      assert BlockOk(s, d);
    }
  }

  lemma DropBlockKeepsLists(s: State, b: Addr)
    requires ListInv(s) && b in s.owner && !Free(s, b)
    ensures ListInv(DropBlock(s, b))
  {
    var s' := DropBlock(s, b);
    forall c | c in s'.owner ensures Listed(s', c) {
      assert Listed(s, c);
    }
    forall i | 0 <= i < MAX_EXP ensures HeadOk(s', i) {
      assert HeadOk(s, i);
    }
  }
}
