/**
 liballoc itself (lethe-kernel/memory/liballoc.c): the global tables and the
 tags in memory, updated in place.  `bytes` is payload memory; an absent address
 holds an indeterminate value, and writing a tag makes its 48 bytes so.
 */
module Liballoc {
  import opened Wrappers
  import opened Bits
  import opened HeapModel
  import opened HeapOps
  import Spec = HeapSpec
  import HeapTheorems

  function Peek(m: map<Addr, bv8>, x: Addr): Option<bv8> {
    if x in m then Some(m[x]) else None
  }

  predicate InTag(tags: set<Addr>, x: Addr) {
    exists a :: a in tags && a <= x < a + TAG_SIZE
  }

  /** Every byte outside the given tags is as it was. */
  ghost predicate Kept(m: map<Addr, bv8>, m': map<Addr, bv8>, tags: set<Addr>) {
    forall x {:trigger Peek(m', x)} :: !InTag(tags, x) ==> Peek(m', x) == Peek(m, x)
  }

  lemma KeptMore(m: map<Addr, bv8>, m': map<Addr, bv8>, some: set<Addr>, all: set<Addr>)
    requires Kept(m, m', some) && some <= all
    ensures Kept(m, m', all)
  {
    forall x | !InTag(all, x) ensures Peek(m', x) == Peek(m, x) {
      assert !InTag(some, x);
    }
  }

  function Poke(m: map<Addr, bv8>, x: Addr, v: Option<bv8>): map<Addr, bv8> {
    match v
    case Some(b) => m[x := b]
    case None => m - {x}
  }

  /** m' is m with n bytes from src copied to dest. */
  ghost predicate Copied(m: map<Addr, bv8>, m': map<Addr, bv8>, dest: Addr, src: Addr, n: nat) {
    forall x: nat {:trigger Peek(m', x)} ::
      Peek(m', x) == if dest <= x < dest + n then Peek(m, src + (x - dest)) else Peek(m, x)
  }

  lemma CopyOne(m: map<Addr, bv8>, m1: map<Addr, bv8>, m2: map<Addr, bv8>, dest: Addr, src: Addr, k: nat)
    requires Copied(m, m1, dest, src, k) && m2 == Poke(m1, dest + k, Peek(m, src + k))
    ensures Copied(m, m2, dest, src, k + 1)
  {
    forall x: nat
      ensures Peek(m2, x) == if dest <= x < dest + k + 1 then Peek(m, src + (x - dest)) else Peek(m, x)
    {
      assert x != dest + k ==> Peek(m2, x) == Peek(m1, x);
    }
  }

  /** liballoc_memcpy: words first, then single bytes; together a byte copy. */
  method Memcpy(m: map<Addr, bv8>, dest: Addr, src: Addr, count: nat) returns (m': map<Addr, bv8>)
    requires dest + count <= src || src + count <= dest
    ensures Copied(m, m', dest, src, count)
  {
    m' := m;
    var k, n := 0, count;
    while n >= 4
      invariant k + n == count && Copied(m, m', dest, src, k)
    {
      var w0, w1, w2, w3 := Peek(m', src + k), Peek(m', src + k + 1), Peek(m', src + k + 2), Peek(m', src + k + 3);
      var m1 := Poke(m', dest + k, w0);
      var m2 := Poke(m1, dest + k + 1, w1);
      var m3 := Poke(m2, dest + k + 2, w2);
      CopyOne(m, m', m1, dest, src, k);
      CopyOne(m, m1, m2, dest, src, k + 1);
      CopyOne(m, m2, m3, dest, src, k + 2);
      m' := Poke(m3, dest + k + 3, w3);
      CopyOne(m, m3, m', dest, src, k + 3);
      k, n := k + 4, n - 4;
    }
    while n > 0
      invariant k + n == count && Copied(m, m', dest, src, k)
    {
      ghost var m1 := m';
      m' := Poke(m', dest + k, Peek(m', src + k));
      CopyOne(m, m1, m', dest, src, k);
      k, n := k + 1, n - 1;
    }
  }

  function ByteAt(m: map<Addr, bv8>, a: Addr, i: nat): Option<bv8> {
    Peek(m, a + i)
  }

  /** n bytes of m' at q are those of m at p. */
  ghost predicate SameBytes(m: map<Addr, bv8>, p: Addr, m': map<Addr, bv8>, q: Addr, n: nat) {
    forall i: nat {:trigger ByteAt(m', q, i)} :: i < n ==> ByteAt(m', q, i) == ByteAt(m, p, i)
  }

  predicate InPayload(used: map<Addr, nat>, a: Addr, x: Addr)
    requires a in used
  {
    a + TAG_SIZE <= x < a + TAG_SIZE + used[a]
  }

  /** The payloads of `used` other than that of `but` hold what they held. */
  ghost predicate PayloadsKept(m: map<Addr, bv8>, m': map<Addr, bv8>, used: map<Addr, nat>, but: Addr) {
    forall a, x {:trigger InPayload(used, a, x)} ::
      a in used && a != but && InPayload(used, a, x) ==> Peek(m', x) == Peek(m, x)
  }

  /** No payload byte is a tag byte. */
  lemma PayloadClear(s: State, a: Addr, x: Addr)
    requires Inv(s) && a in Spec.Used(s) && InPayload(Spec.Used(s), a, x)
    ensures !InTag(s.owner.Keys, x)
  {
    if InTag(s.owner.Keys, x) {
      var c :| c in s.owner && c <= x < c + TAG_SIZE;
      if c != a {
        assert Chained(s, c);
        HeapTheorems.PayloadsApart(s, a, c);
      }
    }
  }

  lemma KeptPayloads(s: State, m: map<Addr, bv8>, m': map<Addr, bv8>)
    requires Inv(s) && Kept(m, m', s.owner.Keys)
    ensures PayloadsKept(m, m', Spec.Used(s), 0)
  {
    var used := Spec.Used(s);
    forall a, x | a in used && InPayload(used, a, x) ensures Peek(m', x) == Peek(m, x) {
      PayloadClear(s, a, x);
    }
  }

  lemma CopyPayloads(s: State, m: map<Addr, bv8>, m': map<Addr, bv8>, q: Addr, src: Addr, n: nat)
    requires Inv(s) && q in Spec.Used(s) && n <= Spec.Used(s)[q]
    requires Copied(m, m', q + TAG_SIZE, src, n)
    ensures PayloadsKept(m, m', Spec.Used(s), q)
  {
    var used := Spec.Used(s);
    forall a, x | a in used && a != q && InPayload(used, a, x) ensures Peek(m', x) == Peek(m, x) {
      HeapTheorems.PayloadsApart(s, a, q);
      HeapTheorems.PayloadsApart(s, q, a);
    }
  }

  /** The guards of the melt loops, as the source writes them. */
  lemma MeltGuards(s: State, a: Addr)
    requires ChainInv(s) && ListInv(s) && a in s.owner
    ensures s.tags[a].left != 0 <==> s.tags[a].left in s.owner
    ensures s.tags[a].right != 0 <==> s.tags[a].right in s.owner
    ensures s.tags[a].left != 0 ==> (s.tags[s.tags[a].left].index >= 0 <==> Spec.LeftFree(s, a))
    ensures s.tags[a].right != 0 ==> (s.tags[s.tags[a].right].index >= 0 <==> Spec.RightFree(s, a))
  {
    assert Chained(s, a);
    if s.tags[a].left != 0 { assert Listed(s, s.tags[a].left); }
    if s.tags[a].right != 0 { assert Listed(s, s.tags[a].right); }
  }

  /** getexp, by its loop. */
  method GetExp(size: nat) returns (e: int)
    requires size < SIZE_LIMIT
    ensures e == Exp(size)
    ensures size >= QUANTUM ==> Pow2(e) <= size < Pow2(e + 1)
  {
    if size < 256 { return -1; }
    var shift := 8;
    Pow2Quantum();
    var bit := 256;
    while shift < 32
      invariant 8 <= shift <= 32 && bit == Pow2(shift) && ExpFrom(size, shift) == Exp(size)
      decreases 32 - shift
    {
      if bit > size { break; }
      shift := shift + 1;
      bit := 2 * bit;
    }
    LimitPow();
    ExpBounds(size);
    e := shift - 1;
  }

  lemma LimitPow()
    ensures Pow2(31) == SIZE_LIMIT && Pow2(32) == 2 * SIZE_LIMIT
  {
    Pow2Quantum();
    assert Pow2(16) == 65536 by { assert Pow2(12) == 4096; }
    assert Pow2(24) == 16777216 by { assert Pow2(20) == 1048576; }
    assert Pow2(28) == 268435456;
  }

  class Heap {
    var tags: map<Addr, Tag>
    var bytes: map<Addr, bv8>
    const heads: array<Addr>
    const complete: array<int>
    var initialized: bool
    ghost var owner: map<Addr, Addr>
    ghost var blocks: map<Addr, nat>
    ghost var rank: map<Addr, nat>

    ghost predicate Tables()
      reads this
    {
      heads.Length == MAX_EXP && complete.Length == MAX_EXP && heads as object != complete as object
    }

    ghost function St(): State
      reads this, heads, complete
    {
      State(tags, heads[..], complete[..], owner, blocks, rank)
    }

    /** The heap value; before the first malloc there is no block. */
    ghost function Now(): State
      reads this, heads, complete
    {
      if initialized then St() else Spec.Blank(tags, rank)
    }

    ghost predicate Valid()
      reads this, heads, complete
    {
      Tables() && Inv(Now()) && (!initialized ==> owner == map[] && blocks == map[])
    }

    constructor (memory: map<Addr, Tag>, contents: map<Addr, bv8>)
      ensures Valid() && Now() == Spec.Blank(memory, map[]) && bytes == contents
      ensures fresh(heads) && fresh(complete)
    {
      tags, bytes, initialized := memory, contents, false;
      heads := new Addr[32];
      complete := new int[32];
      owner, blocks, rank := map[], map[], map[];
      new;
      Spec.BlankInv(memory, map[]);
    }

    /** Write a tag to memory, where `all` names tags that may be written. */
    method Store(a: Addr, t: Tag, ghost all: set<Addr>)
      requires a in all
      modifies this`tags, this`bytes
      ensures tags == old(tags)[a := t]
      ensures Kept(old(bytes), bytes, all)
    {
      tags := tags[a := t];
      bytes := map x | x in bytes && !(a <= x < a + 48) :: bytes[x];
    }

    method InsertTag(a: Addr, index: int)
      requires Tables() && ListInv(St()) && a in owner && !HeapModel.Free(St(), a) && index < MAX_EXP
      requires index < 0 ==> TAG_SIZE <= tags[a].realSize < SIZE_LIMIT
      modifies this`tags, this`bytes, this`rank, heads
      ensures unchanged(complete) && Kept(old(bytes), bytes, owner.Keys)
      ensures St() == HeapModel.InsertTag(old(St()), a,
                        if index < 0 then ListFor(old(tags)[a].realSize - TAG_SIZE) else index)
    {
      ghost var s := St();
      var realIndex;
      if index < 0 {
        realIndex := GetExp(tags[a].realSize - 48);
        if realIndex < 8 { realIndex := 8; }
      } else {
        realIndex := index;
      }
      assert HeadOk(s, realIndex);
      var h := heads[realIndex];
      assert h != 0 ==> Listed(s, h);
      rank := rank[a := if h == 0 then 0 else rank[h] + 1];
      if h != 0 {
        Store(h, tags[h].(prev := a), owner.Keys);
        Store(a, tags[a].(index := realIndex, next := h), owner.Keys);
      } else {
        Store(a, tags[a].(index := realIndex), owner.Keys);
      }
      heads[realIndex] := a;
      assert heads[..] == s.heads[realIndex := a];
      assert h != 0 ==> tags == s.tags[h := s.tags[h].(prev := a)][a := s.tags[a].(index := realIndex, next := h)];
    }

    method RemoveTag(a: Addr)
      requires Tables() && ListInv(St()) && a in owner && HeapModel.Free(St(), a)
      modifies this`tags, this`bytes, heads
      ensures unchanged(complete) && Kept(old(bytes), bytes, owner.Keys)
      ensures St() == HeapModel.RemoveTag(old(St()), a)
    {
      ghost var s := St();
      assert Listed(s, a);
      if heads[tags[a].index] == a { heads[tags[a].index] := tags[a].next; }
      if tags[a].prev != 0 {
        assert Listed(s, tags[a].prev);
        Store(tags[a].prev, tags[tags[a].prev].(next := tags[a].next), owner.Keys);
      }
      assert tags[a] == s.tags[a];
      if tags[a].next != 0 {
        assert Listed(s, tags[a].next);
        Store(tags[a].next, tags[tags[a].next].(prev := tags[a].prev), owner.Keys);
      }
      assert tags[a] == s.tags[a];
      Store(a, tags[a].(next := 0, prev := 0, index := -1), owner.Keys);
      assert heads[..] == HeapModel.RemoveTag(s, a).heads;
      assert tags == HeapModel.RemoveTag(s, a).tags;
    }

    /** The writes that melt_left and absorb_right share: `r` becomes part of `l`. */
    method Merge(l: Addr, r: Addr)
      requires Tables() && ChainInv(St()) && l in owner && r in owner && tags[l].right == r
      modifies this`tags, this`bytes, this`owner
      ensures Kept(old(bytes), bytes, old(owner.Keys))
      ensures St() == Join(old(St()), l, r)
    {
      ghost var s := St();
      assert Chained(s, l) && Chained(s, r);
      Store(l, tags[l].(realSize := tags[l].realSize + tags[r].realSize, right := tags[r].right), owner.Keys);
      assert tags[r] == s.tags[r];
      if tags[r].right != 0 {
        Store(tags[r].right, tags[tags[r].right].(left := l), owner.Keys);
      }
      owner := owner - {r};
    }

    /** melt_left: the tag becomes part of its left neighbour. */
    method MeltLeft(tag: Addr) returns (left: Addr)
      requires Tables() && ChainInv(St()) && tag in owner && tags[tag].left in owner
      modifies this`tags, this`bytes, this`owner
      ensures left == old(tags[tag].left) && Kept(old(bytes), bytes, old(owner.Keys))
      ensures old(tags)[left].right == tag && St() == Join(old(St()), left, tag)
    {
      assert Chained(St(), tag);
      left := tags[tag].left;
      Merge(left, tag);
    }

    method AbsorbRight(tag: Addr)
      requires Tables() && InvBut(St(), tag) && tag in owner && !HeapModel.Free(St(), tag)
      requires tags[tag].right in owner && HeapModel.Free(St(), tags[tag].right)
      modifies this`tags, this`bytes, this`owner, heads
      ensures unchanged(complete) && Kept(old(bytes), bytes, old(owner.Keys))
      ensures St() == HeapOps.AbsorbRight(old(St()), tag)
    {
      ghost var s := St();
      var right := tags[tag].right;
      RemoveTag(right);
      RemoveTagKeeps(s, right);
      RelistedKeepsChain(s, St(), right);
      assert SameSpan(s.tags[tag], tags[tag]);
      Merge(tag, right);
    }

    method CutTag(tag: Addr, junk: nat) returns (newTag: Addr)
      requires Tables() && ChainInv(St()) && BlocksApart(St()) && tag in owner
      requires tags[tag].size + 2 * TAG_SIZE <= tags[tag].realSize
      modifies this`tags, this`bytes, this`owner
      ensures owner.Keys == old(owner.Keys) + {newTag}
      ensures newTag == old(Tail(St(), tag)) && Kept(old(bytes), bytes, owner.Keys)
      ensures St() == Cut(old(St()), tag, junk)
    {
      ghost var s := St();
      assert Chained(s, tag);
      TailFresh(s, tag);
      var remainder := tags[tag].realSize - 48 - tags[tag].size;
      newTag := tag + 48 + tags[tag].size;
      owner := owner[newTag := owner[tag]];
      Store(newTag, Tag(MAGIC, junk, remainder, -1, tag, tags[tag].right, 0, 0), owner.Keys);
      if tags[newTag].right != 0 {
        Store(tags[newTag].right, tags[tags[newTag].right].(left := newTag), owner.Keys);
      }
      Store(tag, tags[tag].(right := newTag, realSize := tags[tag].realSize - tags[newTag].realSize), owner.Keys);
    }

    method SplitTag(tag: Addr, junk: nat) returns (newTag: Addr)
      requires Tables() && Inv(St()) && tag in owner && !HeapModel.Free(St(), tag)
      requires tags[tag].size + 2 * TAG_SIZE <= tags[tag].realSize
      modifies this`tags, this`bytes, this`owner, this`rank, heads
      ensures unchanged(complete) && owner.Keys == old(owner.Keys) + {newTag}
      ensures newTag == old(Tail(St(), tag)) && Kept(old(bytes), bytes, owner.Keys)
      ensures St() == Spec.SplitTag(old(St()), tag, junk)
    {
      ghost var s := St();
      CanSplit(s, tag, junk);
      newTag := CutTag(tag, junk);
      InsertTag(newTag, -1);
    }

    /** allocate_new_tag: `base` is the answer of the page hook. */
    method AllocateNewTag(size: nat, base: Addr) returns (tag: Addr, ghost pages: nat)
      requires Sized(size)
      modifies this`tags, this`bytes, this`owner, this`blocks
      ensures tag == base && pages == PagesFor(size)
      ensures base == 0 ==> unchanged(this)
      ensures base != 0 ==> St() == AddBlock(old(St()), base, size) && Kept(old(bytes), bytes, owner.Keys)
    {
      var usage := size + 48;
      var count := usage / 4096;
      if usage % 4096 != 0 { count := count + 1; }
      if count < 16 { count := 16; }
      tag, pages := base, count;
      if tag == 0 { return; }
      owner := owner[base := base];
      blocks := blocks[base := count];
      Store(tag, Tag(MAGIC, size, count * 4096, -1, 0, 0, 0, 0), owner.Keys);
    }

    /** The search loop of malloc. */
    method FindFit(index: nat, size: nat) returns (tag: Addr)
      requires Tables() && ListInv(St()) && index == ListFor(size)
      ensures tag == Spec.Choose(St(), size)
    {
      assert HeadOk(St(), index);
      tag := heads[index];
      while tag != 0
        invariant tag != 0 ==> tag in owner && HeapModel.Free(St(), tag)
        invariant Spec.FirstFit(St(), tag, size) == Spec.Choose(St(), size)
        decreases if tag != 0 && tag in rank then rank[tag] + 1 else 0
      {
        assert Listed(St(), tag);
        if tags[tag].realSize - 48 >= size + 48 { break; }
        tag := tags[tag].next;
      }
    }

    /** The tables start out empty on the first malloc. */
    method Initialize()
      requires Valid()
      modifies this`initialized, heads, complete
      ensures Valid() && initialized && Now() == old(Now())
    {
      if !initialized {
        var index := 0;
        while index < 32
          invariant 0 <= index <= 32
          invariant forall i :: 0 <= i < index ==> heads[i] == 0 && complete[i] == 0
        {
          heads[index] := 0;
          complete[index] := 0;
          index := index + 1;
        }
        initialized := true;
        assert heads[..] == seq(MAX_EXP, i => 0) && complete[..] == seq(MAX_EXP, i => 0);
        assert Now() == old(Now());
      }
    }

    /** malloc up to the tag it works on. */
    method Grab(size: nat, base: Addr) returns (tag: Addr)
      requires Tables() && Spec.CanServe(St(), size, base)
      modifies this`tags, this`bytes, this`owner, this`blocks, heads, complete
      ensures Kept(old(bytes), bytes, owner.Keys) && old(owner.Keys) <= owner.Keys
      ensures tag == 0 <==> old(Spec.Choose(St(), size)) == 0 && base == 0
      ensures tag == 0 ==> St() == old(St())
      ensures tag != 0 ==> (St(), tag) == Spec.Grab(old(St()), size, base)
    {
      var index := GetExp(size);
      if index < 8 { index := 8; }
      tag := FindFit(index, size);
      if tag == 0 {
        ghost var pages;
        tag, pages := AllocateNewTag(size, base);
      } else {
        TakeTag(tag, index);
      }
    }

    /** A free tag leaves its list, and the standby count if it is a whole block. */
    method TakeTag(tag: Addr, index: nat)
      requires Tables() && ListInv(St()) && tag in owner && tags[tag].index == index && index < MAX_EXP
      modifies this`tags, this`bytes, heads, complete
      ensures Kept(old(bytes), bytes, owner.Keys) && St() == Take(old(St()), tag)
    {
      ghost var s := St();
      assert Listed(s, tag);
      RemoveTag(tag);
      RemoveTagRelists(s, tag);
      assert SameSpan(s.tags[tag], tags[tag]);
      if tags[tag].left == 0 && tags[tag].right == 0 {
        complete[index] := complete[index] - 1;
        assert complete[..] == s.complete[index := s.complete[index] - 1];
      }
    }

    /** malloc from there on: set the size, split off what is worth keeping. */
    method Carve(tag: Addr, size: nat, junk: nat)
      requires Tables() && InvBut(St(), tag) && tag in owner && !HeapModel.Free(St(), tag) && Spec.RightUsed(St(), tag)
      requires size + TAG_SIZE <= tags[tag].realSize
      modifies this`tags, this`bytes, this`owner, this`rank, heads
      ensures unchanged(complete) && Kept(old(bytes), bytes, owner.Keys) && old(owner.Keys) <= owner.Keys
      ensures St() == Spec.Carve(old(St()), tag, size, junk)
    {
      ghost var s := St();
      Spec.HandOut(s, tag, size);
      Store(tag, tags[tag].(size := size), owner.Keys);
      assert St() == SetSize(s, tag, size);
      assert Chained(s, tag) && BlockOk(s, s.owner[tag]);
      var remainder := tags[tag].realSize - size - 48 * 2;
      if remainder > 0 {
        var childIndex := GetExp(remainder);
        if childIndex >= 0 {
          ghost var before := owner.Keys;
          ghost var b1 := bytes;
          var newTag := SplitTag(tag, junk);
          KeptMore(old(bytes), b1, before, owner.Keys);
        }
      }
    }

    method Serve(size: nat, base: Addr, junk: nat) returns (p: Addr)
      requires Tables() && Spec.CanServe(St(), size, base)
      modifies this`tags, this`bytes, this`owner, this`blocks, this`rank, heads, complete
      ensures St() == Spec.Malloc(old(St()), size, base, junk).0
      ensures p == Spec.Malloc(old(St()), size, base, junk).1
      ensures Kept(old(bytes), bytes, owner.Keys) && old(owner.Keys) <= owner.Keys
    {
      ghost var s := St();
      p := Grab(size, base);
      if p != 0 {
        Spec.GrabKeeps(s, size, base);
        ghost var before := owner.Keys;
        ghost var b1 := bytes;
        Carve(p, size, junk);
        KeptMore(old(bytes), b1, before, owner.Keys);
        p := p + 48;
      }
    }

    /** malloc.  What it returns and leaves is Spec.Malloc of what it found, and
        it touches no byte outside the tags. */
    method Malloc(size: nat, base: Addr, junk: nat) returns (p: Addr)
      requires Valid() && Spec.CanServe(Now(), size, base)
      modifies this, heads, complete
      ensures Valid() && initialized
      ensures Now() == Spec.Malloc(old(Now()), size, base, junk).0
      ensures p == Spec.Malloc(old(Now()), size, base, junk).1
      ensures Spec.Served(old(Now()), size, base, Now(), p)
      ensures Kept(old(bytes), bytes, owner.Keys) && old(owner.Keys) <= owner.Keys
    {
      ghost var s := Now();
      Initialize();
      p := Serve(size, base, junk);
      Spec.MallocKeeps(s, size, base, junk);
    }

    /** The melt-left loop of free: it equals at most one melt. */
    method MeltLefts(from: Addr) returns (tag: Addr)
      requires Tables() && InvBut(St(), from) && from in owner && !HeapModel.Free(St(), from)
      modifies this`tags, this`bytes, this`owner, heads
      ensures unchanged(complete) && Kept(old(bytes), bytes, old(owner.Keys)) && owner.Keys <= old(owner.Keys)
      ensures St() == Spec.MeltedLeft(old(St()), from).0 && tag == Spec.MeltedLeft(old(St()), from).1
    {
      ghost var s := St();
      tag := from;
      MeltGuards(St(), tag);
      while tags[tag].left != 0 && tags[tags[tag].left].index >= 0
        invariant Tables() && unchanged(complete) && InvBut(St(), tag) && tag in owner && !HeapModel.Free(St(), tag)
        invariant tags[tag].left != 0 ==> tags[tag].left in tags
        invariant tags[tag].left != 0 && tags[tags[tag].left].index >= 0 <==> Spec.LeftFree(St(), tag)
        invariant Spec.MeltedLeft(St(), tag) == Spec.MeltedLeft(s, from)
        invariant Kept(old(bytes), bytes, old(owner.Keys)) && owner.Keys <= old(owner.Keys)
        decreases tag
      {
        ghost var s1, a, b1, keys := St(), tag, bytes, owner.Keys;
        Spec.MeltedLeftKeeps(s1, a);
        MeltLeftKeeps(s1, a);
        tag := MeltStep(tag);
        MeltGuards(St(), tag);
        KeptMore(b1, bytes, keys, old(owner.Keys));
      }
    }

    /** One turn of that loop. */
    method MeltStep(from: Addr) returns (tag: Addr)
      requires Tables() && InvBut(St(), from) && from in owner && !HeapModel.Free(St(), from) && Spec.LeftFree(St(), from)
      modifies this`tags, this`bytes, this`owner, heads
      ensures unchanged(complete) && Kept(old(bytes), bytes, old(owner.Keys))
      ensures St() == HeapOps.MeltLeft(old(St()), from) && tag == old(tags[from].left)
    {
      ghost var s, l, keys := St(), tags[from].left, owner.Keys;
      assert Chained(s, from) && Chained(s, l);
      JoinKeeps(s, l, from, from);
      JoinAt(s, l, from, l);
      tag := MeltLeft(from);
      ghost var b1 := bytes;
      RemoveTag(tag);
      KeptMore(b1, bytes, owner.Keys, keys);
    }

    /** The melt-right loop of free: it equals at most one absorption. */
    method MeltRights(tag: Addr)
      requires Tables() && InvBut(St(), tag) && tag in owner && !HeapModel.Free(St(), tag) && !Spec.LeftFree(St(), tag)
      modifies this`tags, this`bytes, this`owner, heads
      ensures unchanged(complete) && Kept(old(bytes), bytes, old(owner.Keys)) && owner.Keys <= old(owner.Keys)
      ensures St() == Spec.MeltedRight(old(St()), tag)
    {
      ghost var s := St();
      MeltGuards(St(), tag);
      Spec.MeltedRightKeeps(s, tag);
      while tags[tag].right != 0 && tags[tags[tag].right].index >= 0
        invariant Tables() && unchanged(complete) && InvBut(St(), tag) && tag in owner && !HeapModel.Free(St(), tag)
        invariant tags[tag].right != 0 ==> tags[tag].right in tags
        invariant tags[tag].right != 0 && tags[tags[tag].right].index >= 0 <==> Spec.RightFree(St(), tag)
        invariant St() == s || (St() == Spec.MeltedRight(s, tag) && !Spec.RightFree(St(), tag))
        invariant Kept(old(bytes), bytes, old(owner.Keys)) && owner.Keys <= old(owner.Keys)
        decreases owner.Keys
      {
        AbsorbRightKeeps(St(), tag);
        AbsorbRight(tag);
        MeltGuards(St(), tag);
      }
    }

    /** File a free tag, counting it if it is a whole block on standby. */
    method Keep(tag: Addr, index: nat, whole: bool)
      requires Tables() && ListInv(St()) && tag in owner && !HeapModel.Free(St(), tag) && index < MAX_EXP
      modifies this`tags, this`bytes, this`rank, heads, complete
      ensures Kept(old(bytes), bytes, owner.Keys)
      ensures St() == HeapModel.InsertTag(old(St()), tag, index).(
                complete := if whole then old(complete[..])[index := old(complete[index]) + 1] else old(complete[..]))
    {
      ghost var s := St();
      if whole { complete[index] := complete[index] + 1; }
      CountThenFile(s, tag, complete[..], index);
      InsertTag(tag, index);
    }

    /** The end of free: a whole block beyond the standby limit goes back to the
        page hook, anything else onto its free list. */
    method Settle(tag: Addr) returns (out: Spec.Released)
      requires Tables() && InvBut(St(), tag) && tag in owner && !HeapModel.Free(St(), tag) && Alone(St(), tag)
      modifies this`tags, this`bytes, this`owner, this`blocks, this`rank, heads, complete
      ensures Kept(old(bytes), bytes, old(owner.Keys))
      ensures St() == Spec.Settle(old(St()), tag).0 && out == Spec.Settle(old(St()), tag).1
    {
      Spec.HoldsTag(St(), tag);
      var index := IndexOf(tag);
      out := Place(tag, index);
    }

    method IndexOf(tag: Addr) returns (index: nat)
      requires tag in tags && TAG_SIZE <= tags[tag].realSize < SIZE_LIMIT
      ensures index == ListFor(tags[tag].realSize - TAG_SIZE)
    {
      var i := GetExp(tags[tag].realSize - 48);
      index := if i < 8 then 8 else i;
    }

    method Place(tag: Addr, index: nat) returns (out: Spec.Released)
      requires Tables() && ListInv(St()) && tag in owner && !HeapModel.Free(St(), tag) && index < MAX_EXP
      modifies this`tags, this`bytes, this`owner, this`blocks, this`rank, heads, complete
      ensures Kept(old(bytes), bytes, old(owner.Keys))
      ensures (St(), out) == Spec.SettleOn(old(St()), tag, index)
    {
      var whole := tags[tag].left == 0 && tags[tag].right == 0;
      if whole && complete[index] == 5 {
        var pages := tags[tag].realSize / 4096;
        if tags[tag].realSize % 4096 != 0 { pages := pages + 1; }
        if pages < 16 { pages := 16; }
        out := Spec.Pages(tag, pages);
        owner, blocks := owner - {tag}, blocks - {tag};
      } else {
        Keep(tag, index, whole);
        out := Spec.Nothing;
      }
    }

    /** free; a wrong magic number makes it do nothing. */
    method Free(p: Addr) returns (out: Spec.Released)
      requires Valid()
      requires p != 0 ==> TAG_SIZE <= p && p - TAG_SIZE in tags
      requires p != 0 && tags[p - TAG_SIZE].magic == MAGIC ==> p - TAG_SIZE in Spec.Used(Now())
      modifies this`tags, this`bytes, this`owner, this`blocks, this`rank, heads, complete
      ensures Valid() && Kept(old(bytes), bytes, old(owner.Keys))
      ensures p == 0 || old(tags)[p - TAG_SIZE].magic != MAGIC ==> Now() == old(Now()) && out == Spec.Nothing
      ensures p != 0 && old(tags)[p - TAG_SIZE].magic == MAGIC ==> FreedTag(old(Now()), p - TAG_SIZE, Now(), out)
    {
      out := Spec.Nothing;
      if p == 0 { return; }
      if tags[p - 48].magic != MAGIC { return; }
      ghost var s := Now();
      Spec.FreeKeeps(s, p - 48);
      out := Unuse(p - 48);
    }

    method Unuse(from: Addr) returns (out: Spec.Released)
      requires Tables() && Inv(St()) && from in owner && !HeapModel.Free(St(), from)
      modifies this`tags, this`bytes, this`owner, this`blocks, this`rank, heads, complete
      ensures Kept(old(bytes), bytes, old(owner.Keys))
      ensures St() == Spec.FreeTag(old(St()), from).0 && out == Spec.FreeTag(old(St()), from).1
    {
      ghost var s := St();
      Spec.FreeOpens(s, from);
      Spec.MeltedLeftKeeps(s, from);
      var tag := MeltLefts(from);
      ghost var b1, k1 := bytes, owner.Keys;
      Spec.MeltedRightKeeps(St(), tag);
      MeltRights(tag);
      KeptMore(b1, bytes, k1, old(owner.Keys));
      ghost var b2, k2 := bytes, owner.Keys;
      out := Settle(tag);
      KeptMore(b2, bytes, k2, old(owner.Keys));
    }

    /** malloc and free as realloc sees them: by their effect on what is live. */
    method Obtain(size: nat, base: Addr, junk: nat) returns (p: Addr)
      requires Valid() && Spec.CanServe(Now(), size, base)
      modifies this, heads, complete
      ensures Valid() && Spec.Served(old(Now()), size, base, Now(), p)
      ensures Kept(old(bytes), bytes, Now().owner.Keys)
    {
      p := Malloc(size, base, junk);
    }

    method GiveUp(p: Addr) returns (out: Spec.Released)
      requires Valid() && TAG_SIZE <= p && p - TAG_SIZE in Spec.Used(Now())
      modifies this`tags, this`bytes, this`owner, this`blocks, this`rank, heads, complete
      ensures Valid() && Kept(old(bytes), bytes, old(Now().owner.Keys))
      ensures Spec.Ended(old(Now()), old(Spec.Used(Now())) - {p - TAG_SIZE}, Now(), out)
    {
      UsedLive(Now(), p - TAG_SIZE);
      out := Free(p);
    }

    /** The copy of realloc, from the payload at p into the new one at q. */
    method CopyOver(p: Addr, q: Addr, size: nat, count: nat, ghost s: State, ghost b: map<Addr, bv8>)
      requires Valid() && Inv(s) && TAG_SIZE <= p && TAG_SIZE < q
      requires p - TAG_SIZE in Spec.Used(s) && q - TAG_SIZE !in Spec.Used(s) && count == Min(size, Spec.Used(s)[p - TAG_SIZE])
      requires Spec.Used(Now()) == Spec.Used(s)[q - TAG_SIZE := size] && Kept(b, bytes, Now().owner.Keys)
      modifies this`bytes
      ensures Valid() && Now() == old(Now())
      ensures Moved(s, Now(), b, bytes, p - TAG_SIZE, q - TAG_SIZE, size)
    {
      ghost var s1, b1 := Now(), bytes;
      PayloadRegions(s1, p - 48, q - 48, count);
      bytes := Memcpy(bytes, q, p, count);
      assert Now() == s1;
      CopiedBytes(s, s1, b, b1, bytes, p - 48, q - 48, size);
    }

    /** realloc up to its free: a new allocation that starts with the old bytes. */
    method CopyToNew(p: Addr, size: nat, base: Addr, junk: nat) returns (q: Addr)
      requires Valid() && Spec.CanServe(Now(), size, base)
      requires TAG_SIZE <= p && p - TAG_SIZE in Spec.Used(Now())
      modifies this, heads, complete
      ensures q == 0 <==> old(Spec.Choose(Now(), size)) == 0 && base == 0
      ensures Valid() && (q == 0 ==> Now() == old(Now()) && Kept(old(bytes), bytes, old(Now().owner.Keys)))
      ensures q != 0 ==> TAG_SIZE < q && Moved(old(Now()), Now(), old(bytes), bytes, p - TAG_SIZE, q - TAG_SIZE, size)
      ensures Now().blocks == old(Spec.Held(Now(), size, base))
    {
      ghost var s, b := Now(), bytes;
      UsedLive(s, p - 48);
      var count := tags[p - 48].size;
      if count > size { count := size; }
      q := Obtain(size, base, junk);
      if q != 0 { CopyOver(p, q, size, count, s, b); }
    }

    /** realloc of a live allocation to a nonzero size: the bytes both sizes share move
        over, and every other payload stays.  When malloc gives nothing, the copy goes
        to address 0, and the result is 0. */
    method Resize(p: Addr, size: nat, base: Addr, junk: nat) returns (q: Addr, out: Spec.Released)
      requires Valid() && Spec.CanServe(Now(), size, base)
      requires TAG_SIZE <= p && p - TAG_SIZE in Spec.Used(Now())
      modifies this, heads, complete
      ensures q == 0 <==> old(Spec.Choose(Now(), size)) == 0 && base == 0
      ensures Valid() && (q == 0 ==> Now() == old(Now()))
      ensures q != 0 ==>
                && TAG_SIZE < q && q - TAG_SIZE !in old(Spec.Used(Now()))
                && Spec.Used(Now()) == old(Spec.Used(Now()))[q - TAG_SIZE := size] - {p - TAG_SIZE}
                && SameBytes(old(bytes), p, bytes, q, Min(size, old(Spec.Used(Now()))[p - TAG_SIZE]))
      ensures Spec.Handed(old(Spec.Held(Now(), size, base)), Now().blocks, out)
      ensures PayloadsKept(old(bytes), bytes, old(Spec.Used(Now())), p - TAG_SIZE)
    {
      ghost var s, b := Now(), bytes;
      q := CopyToNew(p, size, base, junk);
      if q == 0 {
        out := Spec.Nothing;
        KeptPayloads(s, b, bytes);
        return;
      }
      ghost var s1, b1 := Now(), bytes;
      out := GiveUp(p);
      FreedBytes(s, s1, b, b1, bytes, p - 48, q - 48, size);
    }

    /** realloc: to size 0 it frees, of NULL it allocates, and otherwise it moves.  Not
        ok when the copy would go to address 0. */
    method Realloc(p: Addr, size: nat, base: Addr, junk: nat) returns (q: Addr, out: Spec.Released, ok: bool)
      requires Valid() && (p != 0 ==> TAG_SIZE <= p && p - TAG_SIZE in Spec.Used(Now()))
      requires size != 0 ==> Spec.CanServe(Now(), size, base)
      modifies this, heads, complete
      ensures Valid() && (ok <==> size == 0 || p == 0 || old(Spec.Choose(Now(), size)) != 0 || base != 0)
      ensures size == 0 ==> q == 0
      ensures !ok ==> Now() == old(Now())
      ensures size == 0 && p == 0 ==> Now() == old(Now()) && out == Spec.Nothing
      ensures size == 0 && p != 0 ==> Spec.Ended(old(Now()), old(Spec.Used(Now())) - {p - TAG_SIZE}, Now(), out)
      ensures size != 0 && p == 0 ==> Spec.Served(old(Now()), size, base, Now(), q) && out == Spec.Nothing
      ensures size != 0 && p != 0 && ok ==>
                && TAG_SIZE < q && q - TAG_SIZE !in old(Spec.Used(Now()))
                && Spec.Used(Now()) == old(Spec.Used(Now()))[q - TAG_SIZE := size] - {p - TAG_SIZE}
                && SameBytes(old(bytes), p, bytes, q, Min(size, old(Spec.Used(Now()))[p - TAG_SIZE]))
      ensures size != 0 && p != 0 ==> Spec.Handed(old(Spec.Held(Now(), size, base)), Now().blocks, out)
      ensures PayloadsKept(old(bytes), bytes, old(Spec.Used(Now())), if p == 0 then 0 else p - TAG_SIZE)
    {
      ghost var s := Now();
      ok := true;
      if size == 0 {
        q := 0;
        if p == 0 {
          out := Spec.Nothing;
        } else {
          out := GiveUp(p);
          KeptPayloads(s, old(bytes), bytes);
        }
      } else if p == 0 {
        q := Obtain(size, base, junk);
        out := Spec.Nothing;
        KeptPayloads(Now(), old(bytes), bytes);
        FewerPayloads(old(bytes), bytes, Spec.Used(s), Spec.Used(Now()), 0);
      } else {
        q, out := Resize(p, size, base, junk);
        ok := q != 0;
      }
    }
  }

  /** free of the live tag a took s to s', and that ended exactly this allocation. */
  predicate FreedTag(s: State, a: Addr, s': State, out: Spec.Released) {
    && Inv(s) && a in Spec.Used(s) && a in s.owner && !HeapModel.Free(s, a)
    && (s', out) == Spec.FreeTag(s, a) && Spec.Ended(s, Spec.Used(s) - {a}, s', out)
  }

  function Min(a: nat, b: nat): nat {
    if a < b then a else b
  }

  lemma UsedLive(s: State, a: Addr)
    requires Inv(s) && a in Spec.Used(s)
    ensures a in s.owner && !Free(s, a) && s.tags[a].magic == MAGIC && s.tags[a].size == Spec.Used(s)[a]
  {
    assert Chained(s, a);
  }

  lemma PayloadRegions(s: State, p: Addr, q: Addr, n: nat)
    requires Inv(s) && p in Spec.Used(s) && q in Spec.Used(s) && p != q
    requires n <= Spec.Used(s)[p] && n <= Spec.Used(s)[q]
    ensures q + TAG_SIZE + n <= p + TAG_SIZE || p + TAG_SIZE + n <= q + TAG_SIZE
  {
    HeapTheorems.PayloadsApart(s, p, q);
    HeapTheorems.PayloadsApart(s, q, p);
    assert TagOk(s, p, 0) && TagOk(s, q, 0);
  }

  /** s1 has one more allocation q than s, which starts with the bytes of p. */
  ghost predicate Moved(s: State, s1: State, b: map<Addr, bv8>, b1: map<Addr, bv8>, p: Addr, q: Addr, size: nat)
    requires Inv(s) && Inv(s1) && p in Spec.Used(s)
  {
    && q !in Spec.Used(s) && Spec.Used(s1) == Spec.Used(s)[q := size]
    && PayloadsKept(b, b1, Spec.Used(s), 0)
    && SameBytes(b, p + TAG_SIZE, b1, q + TAG_SIZE, Min(size, Spec.Used(s)[p]))
  }

  lemma CopiedByte(m: map<Addr, bv8>, m': map<Addr, bv8>, dest: Addr, src: Addr, n: nat, i: nat)
    requires Copied(m, m', dest, src, n) && i < n
    ensures ByteAt(m', dest, i) == ByteAt(m, src, i)
  {
    assert Peek(m', dest + i) == Peek(m, src + i);
  }

  lemma KeptByte(used: map<Addr, nat>, m: map<Addr, bv8>, m': map<Addr, bv8>, p: Addr, i: nat)
    requires p in used && p != 0 && i < used[p] && PayloadsKept(m, m', used, 0)
    ensures ByteAt(m', p + TAG_SIZE, i) == ByteAt(m, p + TAG_SIZE, i)
  {
    assert InPayload(used, p, p + TAG_SIZE + i);
  }

  lemma KeptInTurn(used: map<Addr, nat>, b: map<Addr, bv8>, b1: map<Addr, bv8>, b2: map<Addr, bv8>, q: Addr)
    requires q !in used && PayloadsKept(b, b1, used, 0) && PayloadsKept(b1, b2, used, q)
    ensures PayloadsKept(b, b2, used, 0)
  {
  }

  lemma CopyBytes(used: map<Addr, nat>, b: map<Addr, bv8>, b1: map<Addr, bv8>, b2: map<Addr, bv8>,
                  p: Addr, q: Addr, n: nat)
    requires p in used && p != 0 && n <= used[p] && PayloadsKept(b, b1, used, 0)
    requires Copied(b1, b2, q + TAG_SIZE, p + TAG_SIZE, n)
    ensures SameBytes(b, p + TAG_SIZE, b2, q + TAG_SIZE, n)
  {
    var from, to := p + TAG_SIZE, q + TAG_SIZE;
    forall i: nat | i < n ensures ByteAt(b2, to, i) == ByteAt(b, from, i) {
      CopiedByte(b1, b2, to, from, n, i);
      KeptByte(used, b, b1, p, i);
    }
  }

  lemma FewerPayloads(b: map<Addr, bv8>, b1: map<Addr, bv8>, used: map<Addr, nat>, used1: map<Addr, nat>, but: Addr)
    requires PayloadsKept(b, b1, used1, but) && used.Keys <= used1.Keys && forall a :: a in used ==> used[a] == used1[a]
    ensures PayloadsKept(b, b1, used, but)
  {
    forall a, x | a in used && a != but && InPayload(used, a, x) ensures Peek(b1, x) == Peek(b, x) {
      assert InPayload(used1, a, x);
    }
  }

  lemma CopiedBytes(s: State, s1: State, b: map<Addr, bv8>, b1: map<Addr, bv8>, b2: map<Addr, bv8>,
                    p: Addr, q: Addr, size: nat)
    requires Inv(s) && Inv(s1) && p in Spec.Used(s) && q !in Spec.Used(s)
    requires Spec.Used(s1) == Spec.Used(s)[q := size] && Kept(b, b1, s1.owner.Keys)
    requires Copied(b1, b2, q + TAG_SIZE, p + TAG_SIZE, Min(size, Spec.Used(s)[p]))
    ensures Moved(s, s1, b, b2, p, q, size)
  {
    var used, used1, n := Spec.Used(s), Spec.Used(s1), Min(size, Spec.Used(s)[p]);
    KeptPayloads(s1, b, b1);
    CopyPayloads(s1, b1, b2, q, p + TAG_SIZE, n);
    FewerPayloads(b, b1, used, used1, 0);
    FewerPayloads(b1, b2, used, used1, q);
    KeptInTurn(used, b, b1, b2, q);
    CopyBytes(used, b, b1, b2, p, q, n);
  }

  lemma FreedBytes(s: State, s1: State, b: map<Addr, bv8>, b1: map<Addr, bv8>, b2: map<Addr, bv8>,
                   p: Addr, q: Addr, size: nat)
    requires Inv(s) && Inv(s1) && p in Spec.Used(s) && Moved(s, s1, b, b1, p, q, size)
    requires Kept(b1, b2, s1.owner.Keys)
    ensures PayloadsKept(b, b2, Spec.Used(s), p)
    ensures SameBytes(b, p + TAG_SIZE, b2, q + TAG_SIZE, Min(size, Spec.Used(s)[p]))
  {
    var used, used1, n := Spec.Used(s), Spec.Used(s1), Min(size, Spec.Used(s)[p]);
    KeptPayloads(s1, b1, b2);
    forall a, x | a in used && a != p && InPayload(used, a, x) ensures Peek(b2, x) == Peek(b, x) {
      assert InPayload(used1, a, x);
    }
    var from, to := p + TAG_SIZE, q + TAG_SIZE;
    forall i: nat | i < n ensures ByteAt(b2, to, i) == ByteAt(b, from, i) {
      assert InPayload(used1, q, to + i);
      assert ByteAt(b1, to, i) == ByteAt(b, from, i);
    }
  }

  /** Cutting a used tag leaves a state in which the rest can be filed. */
  lemma CanSplit(s: State, tag: Addr, junk: nat)
    requires Inv(s) && tag in s.owner && !HeapModel.Free(s, tag) && s.tags[tag].size + 2 * TAG_SIZE <= s.tags[tag].realSize
    ensures ChainInv(s) && BlocksApart(s)
    ensures var s1, t := Cut(s, tag, junk), Tail(s, tag);
            && ListInv(s1) && t in s1.owner && !HeapModel.Free(s1, t)
            && TAG_SIZE <= s1.tags[t].realSize < SIZE_LIMIT
            && Spec.SplitTag(s, tag, junk) == HeapModel.InsertTag(s1, t, ListFor(s1.tags[t].realSize - TAG_SIZE))
  {
    TailFresh(s, tag);
    Spec.HoldsTag(s, tag);
    CutTail(s, tag, junk);
    CutKeeps(s, tag, junk);
  }

  lemma CutTail(s: State, tag: Addr, junk: nat)
    requires ChainInv(s) && tag in s.owner && s.tags[tag].size + 2 * TAG_SIZE <= s.tags[tag].realSize
    requires Tail(s, tag) !in s.owner
    ensures var s1, t := Cut(s, tag, junk), Tail(s, tag);
            && t in s1.owner && t in s1.tags && !HeapModel.Free(s1, t)
            && s1.tags[t].realSize == s.tags[tag].realSize - TAG_SIZE - s.tags[tag].size
  {
    assert Chained(s, tag);
  }
}
