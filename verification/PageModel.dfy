/**
 Four-level page tables (lethe-kernel/memory/paging.c) as a value: the tables by
 frame number, and beside them each table's level and the one entry that points
 to it, which is what makes them a tree.
 */
module PageModel {

  const ENTRIES: nat := 512
  const PAGE_SIZE: nat := 4096
  const ADDRESS_SPAN: nat := 0x100_0000_0000   // 2^40 frame numbers
  const PAGE_SPAN: nat := 0x10_0000_0000       // 2^36 page numbers

  /** page_entry_t, one number per bit field. */
  datatype Entry = Entry(present: nat, writable: nat, user: nat, writeThrough: nat, cacheDisable: nat,
                         accessed: nat, unused1: nat, pageSize: nat, unused2: nat,
                         address: nat, unused3: nat, executeDisable: nat)

  const ZERO_ENTRY: Entry := Entry(0, 0, 0, 0, 0, 0, 0, 0, 0, 0, 0, 0)

  function ZeroTable(): (t: seq<Entry>)
    ensures |t| == ENTRIES && forall i :: 0 <= i < ENTRIES ==> t[i] == ZERO_ENTRY
  {
    seq(ENTRIES, i => ZERO_ENTRY)
  }

  /** set_entry. */
  function MakeEntry(address: nat, flags: nat): (e: Entry)
    ensures 0 < address / PAGE_SIZE < ADDRESS_SPAN && flags % 2 == 1 ==>
              e.present == 1 && e.unused1 == 1 && e.address == address / PAGE_SIZE != 0
  {
    Entry(flags % 2, flags / 2 % 2, flags / 4 % 2, flags / 8 % 2, flags / 16 % 2,
          flags / 32 % 2, 1, flags / 64 % 2, 0,
          address / PAGE_SIZE % ADDRESS_SPAN, 0, flags / 128 % 2)
  }

  /** The index of virtual address v in the table of level l. */
  function Index(v: nat, l: nat): (i: nat)
    ensures i < ENTRIES
  {
    if l == 4 then v / 4096 / 512 / 512 / 512 % 512
    else if l == 3 then v / 4096 / 512 / 512 % 512
    else if l == 2 then v / 4096 / 512 % 512
    else v / 4096 % 512
  }

  function PageOf(v: nat): (n: nat)
    ensures n < PAGE_SPAN
  {
    v / PAGE_SIZE % PAGE_SPAN
  }

  /** The first address of page n. */
  function AddrOf(n: nat): nat {
    n * PAGE_SIZE
  }

  /** The four indices together are the page number. */
  lemma IndicesArePage(v: nat)
    ensures PageOf(v) == Index(v, 1) + 512 * (Index(v, 2) + 512 * (Index(v, 3) + 512 * Index(v, 4)))
  {
    var n := v / 4096;
    Digit(n);
    Digit(n / 512);
    Digit(n / 512 / 512);
    Digit(n / 512 / 512 / 512);
    FourDigits(n, n / 512, n / 512 / 512, n / 512 / 512 / 512, n / 512 / 512 / 512 / 512,
               Index(v, 1), Index(v, 2), Index(v, 3), Index(v, 4));
  }

  lemma Digit(n: nat)
    ensures n == 512 * (n / 512) + n % 512
  {
  }

  lemma FourDigits(n: nat, n1: nat, n2: nat, n3: nat, n4: nat, d1: nat, d2: nat, d3: nat, d4: nat)
    requires n == 512 * n1 + d1 && n1 == 512 * n2 + d2 && n2 == 512 * n3 + d3 && n3 == 512 * n4 + d4
    requires d1 < 512 && d2 < 512 && d3 < 512 && d4 < 512
    ensures n % PAGE_SPAN == d1 + 512 * (d2 + 512 * (d3 + 512 * d4))
  {
    var low := d1 + 512 * (d2 + 512 * (d3 + 512 * d4));
    assert n == low + PAGE_SPAN * n4 && low < PAGE_SPAN;
  }

  lemma SamePage(v: nat, w: nat)
    ensures PageOf(v) == PageOf(w) <==>
            Index(v, 1) == Index(w, 1) && Index(v, 2) == Index(w, 2) && Index(v, 3) == Index(w, 3) && Index(v, 4) == Index(w, 4)
  {
    IndicesArePage(v);
    IndicesArePage(w);
    var v3, w3 := Index(v, 3) + 512 * Index(v, 4), Index(w, 3) + 512 * Index(w, 4);
    var v2, w2 := Index(v, 2) + 512 * v3, Index(w, 2) + 512 * w3;
    LowDigit(Index(v, 1), v2, Index(w, 1), w2);
    LowDigit(Index(v, 2), v3, Index(w, 2), w3);
    LowDigit(Index(v, 3), Index(v, 4), Index(w, 3), Index(w, 4));
  }

  lemma LowDigit(a: nat, x: nat, b: nat, y: nat)
    requires a < 512 && b < 512
    ensures a + 512 * x == b + 512 * y <==> a == b && x == y
  {
  }

  datatype Slot = Slot(table: nat, index: nat)

  datatype Space = Space(root: nat, tables: map<nat, seq<Entry>>, level: map<nat, nat>, parent: map<nat, Slot>)

  predicate EntryOk(s: Space, f: nat, i: nat)
    requires f in s.tables && f in s.level && i < |s.tables[f]|
  {
    var e := s.tables[f][i];
    && (e.present == 1 <==> e.address != 0) && e.present < 2 && e.address < ADDRESS_SPAN
    && (s.level[f] > 1 && e.address != 0 ==>
          && e.address in s.tables && e.address in s.level && s.level[e.address] == s.level[f] - 1
          && e.address in s.parent && s.parent[e.address] == Slot(f, i))
  }

  predicate TableOk(s: Space, f: nat)
    requires f in s.tables
  {
    && f != 0 && |s.tables[f]| == ENTRIES && f in s.level && 1 <= s.level[f] <= 4
    && forall i {:trigger EntryOk(s, f, i)} :: 0 <= i < ENTRIES ==> EntryOk(s, f, i)
  }

  /** The tables form a tree below the root: an entry is present just when it has
      an address, it points one level down, and no two entries to one table.  So there
      are no large pages, and no page is mapped to frame 0. */
  predicate Tree(s: Space) {
    && s.root in s.tables && s.root in s.level && s.level[s.root] == 4
    && forall f {:trigger TableOk(s, f)} :: f in s.tables ==> TableOk(s, f)
  }

  /** The table of level l on the way to v; 0 if the way ends before. */
  function Walk(s: Space, v: nat, l: nat): (f: nat)
    requires Tree(s) && 1 <= l <= 4
    ensures f != 0 ==> f in s.tables && f in s.level && s.level[f] == l && |s.tables[f]| == ENTRIES
    decreases 4 - l, v
  {
    if l == 4 then assert TableOk(s, s.root); s.root
    else
      var g := Walk(s, v, l + 1);
      if g == 0 then 0
      else
        assert TableOk(s, g) && EntryOk(s, g, Index(v, l + 1));
        var f := s.tables[g][Index(v, l + 1)].address;
        assert f != 0 ==> TableOk(s, f);
        f
  }

  /** One step down the way to v. */
  lemma WalkStep(s: Space, v: nat, l: nat)
    requires Tree(s) && 1 <= l < 4
    ensures Walk(s, v, l + 1) == 0 ==> Walk(s, v, l) == 0
    ensures Walk(s, v, l + 1) != 0 ==>
              && Walk(s, v, l) == s.tables[Walk(s, v, l + 1)][Index(v, l + 1)].address
              && (s.tables[Walk(s, v, l + 1)][Index(v, l + 1)].present == 0 <==> Walk(s, v, l) == 0)
    ensures Walk(s, v, 4) == s.root != 0
  {
    var g := Walk(s, v, l + 1);
    assert TableOk(s, s.root);
    if g != 0 { assert TableOk(s, g) && EntryOk(s, g, Index(v, l + 1)); }
  }

  /** The leaf entry of v. */
  function LeafEntry(s: Space, v: nat): Entry
    requires Tree(s)
  {
    var f := Walk(s, v, 1);
    if f == 0 then ZERO_ENTRY else s.tables[f][Index(v, 1)]
  }

  /** The frame number v is mapped to, 0 if to none. */
  function Leaf(s: Space, v: nat): nat
    requires Tree(s)
  {
    LeafEntry(s, v).address
  }

  /** The physical address v is mapped to, 0 if to none. */
  function Translate(s: Space, v: nat): nat
    requires Tree(s)
  {
    Leaf(s, v) * PAGE_SIZE
  }

  /** Two addresses that reach the same table took the same way. */
  lemma {:induction false} SameWay(s: Space, v: nat, w: nat, l: nat)
    requires Tree(s) && 1 <= l <= 4 && Walk(s, v, l) == Walk(s, w, l) != 0
    ensures forall k :: l < k <= 4 ==> Index(v, k) == Index(w, k)
    decreases 4 - l
  {
    if l < 4 {
      var g, h := Walk(s, v, l + 1), Walk(s, w, l + 1);
      assert TableOk(s, g) && TableOk(s, h);
      assert EntryOk(s, g, Index(v, l + 1)) && EntryOk(s, h, Index(w, l + 1));
      SameWay(s, v, w, l + 1);
    }
  }

  lemma {:induction false} WalkByIndex(s: Space, v: nat, w: nat, l: nat)
    requires Tree(s) && 1 <= l <= 4 && forall k :: l < k <= 4 ==> Index(v, k) == Index(w, k)
    ensures Walk(s, v, l) == Walk(s, w, l)
    decreases 4 - l
  {
    if l < 4 { WalkByIndex(s, v, w, l + 1); }
  }

  /** Translation depends on the page alone. */
  lemma LeafByPage(s: Space, v: nat, w: nat)
    requires Tree(s) && PageOf(v) == PageOf(w)
    ensures LeafEntry(s, v) == LeafEntry(s, w)
  {
    SamePage(v, w);
    WalkByIndex(s, v, w, 1);
  }

  // ------------------------------------------------------------- the abstraction

  /** The mapping the tables stand for: page number to frame number. */
  function Mapping(s: Space): map<nat, nat>
    requires Tree(s)
  {
    map n: nat | n < PAGE_SPAN && Leaf(s, AddrOf(n)) != 0 :: Leaf(s, AddrOf(n))
  }

  lemma IsMapped(s: Space, n: nat)
    requires Tree(s)
    ensures n in Mapping(s) <==> n < PAGE_SPAN && Leaf(s, AddrOf(n)) != 0
    ensures n in Mapping(s) ==> Mapping(s)[n] == Leaf(s, AddrOf(n))
  {
  }

  lemma PageAddress(n: nat)
    requires n < PAGE_SPAN
    ensures PageOf(AddrOf(n)) == n
  {
    assert n * PAGE_SIZE / PAGE_SIZE == n;
  }

  lemma TranslateIsMapping(s: Space, v: nat)
    requires Tree(s)
    ensures PageOf(v) in Mapping(s) <==> Translate(s, v) != 0
    ensures PageOf(v) in Mapping(s) ==> Translate(s, v) == Mapping(s)[PageOf(v)] * PAGE_SIZE
  {
    PageAddress(PageOf(v));
    LeafByPage(s, v, AddrOf(PageOf(v)));
    IsMapped(s, PageOf(v));
  }

  /** The pages that are mapped without the mark is_free looks for.  This code marks
      every page it maps; the boot loader's tables need not. */
  function Blind(s: Space): set<nat>
    requires Tree(s)
  {
    set n | n in Mapping(s) && LeafEntry(s, AddrOf(n)).unused1 == 0
  }

  lemma BlindIs(s: Space, n: nat)
    requires Tree(s)
    ensures n in Blind(s) <==> n < PAGE_SPAN && Leaf(s, AddrOf(n)) != 0 && LeafEntry(s, AddrOf(n)).unused1 == 0
  {
    IsMapped(s, n);
  }

  /** What is_free asks is whether the page is unmapped or unmarked. */
  lemma MarkIsUse(s: Space, v: nat)
    requires Tree(s)
    ensures PageOf(v) in Mapping(s) && PageOf(v) !in Blind(s) <==> Leaf(s, v) != 0 && LeafEntry(s, v).unused1 != 0
  {
    PageAddress(PageOf(v));
    LeafByPage(s, v, AddrOf(PageOf(v)));
    BlindIs(s, PageOf(v));
    IsMapped(s, PageOf(v));
  }

  // ------------------------------------------------------------------ operations

  predicate CanHang(s: Space, f: nat, i: nat, g: nat) {
    && Tree(s) && f in s.tables && f in s.level && 1 < s.level[f] && i < ENTRIES && i < |s.tables[f]|
    && s.tables[f][i].address == 0 && g !in s.tables && 0 < g < ADDRESS_SPAN
  }

  /** __allocate_entry: hang the zeroed frame g below entry i of table f. */
  function Hang(s: Space, f: nat, i: nat, g: nat, flags: nat): Space
    requires CanHang(s, f, i, g)
  {
    s.(tables := s.tables[f := s.tables[f][i := MakeEntry(g * PAGE_SIZE, flags)]][g := ZeroTable()],
       level := s.level[g := s.level[f] - 1],
       parent := s.parent[g := Slot(f, i)])
  }

  lemma HangTableOk(s: Space, f: nat, i: nat, g: nat, flags: nat, h: nat)
    requires CanHang(s, f, i, g) && flags % 2 == 1 && h in Hang(s, f, i, g, flags).tables
    ensures TableOk(Hang(s, f, i, g, flags), h)
  {
    var s' := Hang(s, f, i, g, flags);
    assert g * PAGE_SIZE / PAGE_SIZE == g;
    assert TableOk(s, f);
    if h != g { assert TableOk(s, h); }
    forall j | 0 <= j < ENTRIES ensures EntryOk(s', h, j) {
      if h != g { assert EntryOk(s, h, j); }
    }
  }

  lemma HangKeepsTree(s: Space, f: nat, i: nat, g: nat, flags: nat)
    requires CanHang(s, f, i, g) && flags % 2 == 1
    ensures Tree(Hang(s, f, i, g, flags))
  {
    var s' := Hang(s, f, i, g, flags);
    forall h | h in s'.tables ensures TableOk(s', h) {
      HangTableOk(s, f, i, g, flags, h);
    }
  }

  lemma {:induction false} HangWalk(s: Space, f: nat, i: nat, g: nat, flags: nat, v: nat, l: nat)
    requires CanHang(s, f, i, g) && flags % 2 == 1 && Tree(Hang(s, f, i, g, flags)) && 1 <= l <= 4
    ensures var w, w' := Walk(s, v, l), Walk(Hang(s, f, i, g, flags), v, l);
            w' == w || (w == 0 && w' == g && l == s.level[f] - 1)
    decreases 4 - l
  {
    var s' := Hang(s, f, i, g, flags);
    assert TableOk(s, f);
    if l < 4 {
      HangWalk(s, f, i, g, flags, v, l + 1);
      var w, w' := Walk(s, v, l + 1), Walk(s', v, l + 1);
      if w' == g {
        assert s'.tables[g][Index(v, l + 1)] == ZERO_ENTRY;
      } else if w == f && Index(v, l + 1) == i {
        assert g * PAGE_SIZE / PAGE_SIZE == g;
      }
    }
  }

  /** A new table translates nothing yet. */
  lemma HangLeaf(s: Space, f: nat, i: nat, g: nat, flags: nat, v: nat)
    requires CanHang(s, f, i, g) && flags % 2 == 1 && Tree(Hang(s, f, i, g, flags))
    ensures LeafEntry(Hang(s, f, i, g, flags), v) == LeafEntry(s, v)
  {
    var s' := Hang(s, f, i, g, flags);
    HangWalk(s, f, i, g, flags, v, 1);
    assert TableOk(s, f);
  }

  lemma SameEntries(s: Space, s': Space)
    requires Tree(s) && Tree(s') && forall n: nat :: LeafEntry(s', AddrOf(n)) == LeafEntry(s, AddrOf(n))
    ensures Mapping(s') == Mapping(s) && Blind(s') == Blind(s)
  {
    forall n: nat ensures (n in Mapping(s') <==> n in Mapping(s)) && (n in Mapping(s) ==> Mapping(s')[n] == Mapping(s)[n]) {
      IsMapped(s, n);
      IsMapped(s', n);
    }
  }

  lemma HangKeeps(s: Space, f: nat, i: nat, g: nat, flags: nat)
    requires CanHang(s, f, i, g) && flags % 2 == 1
    ensures Tree(Hang(s, f, i, g, flags)) && Mapping(Hang(s, f, i, g, flags)) == Mapping(s)
    ensures Blind(Hang(s, f, i, g, flags)) == Blind(s)
  {
    HangKeepsTree(s, f, i, g, flags);
    var s' := Hang(s, f, i, g, flags);
    forall n: nat ensures LeafEntry(s', AddrOf(n)) == LeafEntry(s, AddrOf(n)) {
      HangLeaf(s, f, i, g, flags, AddrOf(n));
    }
    SameEntries(s, s');
  }

  predicate CanSet(s: Space, f: nat, i: nat, e: Entry) {
    && Tree(s) && f in s.tables && f in s.level && s.level[f] == 1 && i < ENTRIES && i < |s.tables[f]|
    && (e == ZERO_ENTRY || (e.present == 1 && e.unused1 == 1 && 0 < e.address < ADDRESS_SPAN))
  }

  /** Write a leaf entry. */
  function SetLeaf(s: Space, f: nat, i: nat, e: Entry): Space
    requires CanSet(s, f, i, e)
  {
    s.(tables := s.tables[f := s.tables[f][i := e]])
  }

  lemma SetLeafKeepsTree(s: Space, f: nat, i: nat, e: Entry)
    requires CanSet(s, f, i, e)
    ensures Tree(SetLeaf(s, f, i, e))
  {
    var s' := SetLeaf(s, f, i, e);
    assert TableOk(s, f);
    forall h | h in s'.tables ensures TableOk(s', h) {
      assert TableOk(s, h);
      forall j | 0 <= j < ENTRIES ensures EntryOk(s', h, j) {
        assert EntryOk(s, h, j);
      }
    }
  }

  lemma {:induction false} SetLeafWalk(s: Space, f: nat, i: nat, e: Entry, v: nat, l: nat)
    requires CanSet(s, f, i, e) && Tree(SetLeaf(s, f, i, e)) && 1 <= l <= 4
    ensures Walk(SetLeaf(s, f, i, e), v, l) == Walk(s, v, l)
    decreases 4 - l
  {
    if l < 4 { SetLeafWalk(s, f, i, e, v, l + 1); }
  }

  lemma {:induction false} SetLeafLeaf(s: Space, f: nat, e: Entry, p: nat, v: nat)
    requires CanSet(s, f, Index(p, 1), e) && Walk(s, p, 1) == f && Tree(SetLeaf(s, f, Index(p, 1), e))
    ensures LeafEntry(SetLeaf(s, f, Index(p, 1), e), v) == if PageOf(v) == PageOf(p) then e else LeafEntry(s, v)
  {
    SetLeafWalk(s, f, Index(p, 1), e, v, 1);
    SamePage(v, p);
    assert TableOk(s, f);
    if PageOf(v) == PageOf(p) {
      WalkByIndex(s, v, p, 1);
    } else if Walk(s, v, 1) == f {
      SameWay(s, v, p, 1);
    }
  }

  /** Page n has the leaf entry e in s', and every other page the one it has in s. */
  predicate EntryChanged(s: Space, s': Space, n: nat, e: Entry, m: nat)
    requires Tree(s) && Tree(s')
  {
    LeafEntry(s', AddrOf(m)) == if m == n then e else LeafEntry(s, AddrOf(m))
  }

  lemma MappingAt(s: Space, s': Space, n: nat, e: Entry)
    requires Tree(s) && Tree(s') && n < PAGE_SPAN
    requires forall m: nat {:trigger EntryChanged(s, s', n, e, m)} :: m < PAGE_SPAN ==> EntryChanged(s, s', n, e, m)
    ensures Mapping(s') == if e.address == 0 then Mapping(s) - {n} else Mapping(s)[n := e.address]
  {
    var m, m' := Mapping(s), Mapping(s');
    forall k: nat
      ensures (k in m' <==> if k == n then e.address != 0 else k in m) && (k in m' ==> m'[k] == if k == n then e.address else m[k])
    {
      IsMapped(s, k);
      IsMapped(s', k);
      assert k < PAGE_SPAN ==> EntryChanged(s, s', n, e, k);
    }
  }

  lemma BlindAt(s: Space, s': Space, n: nat, e: Entry)
    requires Tree(s) && Tree(s') && n < PAGE_SPAN && (e.address == 0 || e.unused1 != 0)
    requires forall m: nat {:trigger EntryChanged(s, s', n, e, m)} :: m < PAGE_SPAN ==> EntryChanged(s, s', n, e, m)
    ensures Blind(s') == Blind(s) - {n}
  {
    forall k: nat ensures k in Blind(s') <==> k in Blind(s) && k != n {
      BlindIs(s, k);
      BlindIs(s', k);
      assert k < PAGE_SPAN ==> EntryChanged(s, s', n, e, k);
    }
  }

  /** Writing the leaf entry of page p changes the mapping at that page alone, and leaves
      that page marked or unmapped. */
  lemma {:induction false} SetLeafKeeps(s: Space, f: nat, e: Entry, p: nat)
    requires CanSet(s, f, Index(p, 1), e) && Walk(s, p, 1) == f
    ensures var s' := SetLeaf(s, f, Index(p, 1), e);
            && Tree(s') && Blind(s') == Blind(s) - {PageOf(p)}
            && Mapping(s') == if e.address == 0 then Mapping(s) - {PageOf(p)} else Mapping(s)[PageOf(p) := e.address]
  {
    var s', q := SetLeaf(s, f, Index(p, 1), e), PageOf(p);
    SetLeafKeepsTree(s, f, Index(p, 1), e);
    forall n: nat {:trigger EntryChanged(s, s', q, e, n)} | n < PAGE_SPAN ensures EntryChanged(s, s', q, e, n) {
      PageAddress(n);
      SetLeafLeaf(s, f, e, p, AddrOf(n));
    }
    MappingAt(s, s', q, e);
    BlindAt(s, s', q, e);
  }

  /** A table hung on the way to v is the next step of that way. */
  lemma HangStep(s: Space, f: nat, g: nat, flags: nat, v: nat, l: nat)
    requires 2 <= l <= 4 && CanHang(s, f, Index(v, l), g) && flags % 2 == 1 && Walk(s, v, l) == f
    ensures Tree(Hang(s, f, Index(v, l), g, flags)) && Walk(Hang(s, f, Index(v, l), g, flags), v, l - 1) == g
    ensures Mapping(Hang(s, f, Index(v, l), g, flags)) == Mapping(s)
    ensures Blind(Hang(s, f, Index(v, l), g, flags)) == Blind(s)
  {
    var i := Index(v, l);
    HangKeeps(s, f, i, g, flags);
    HangWalk(s, f, i, g, flags, v, l);
    assert g * PAGE_SIZE / PAGE_SIZE == g;
    assert TableOk(s, f);
    WalkStep(Hang(s, f, i, g, flags), v, l - 1);
  }

  // ------------------------------------------------------------------ a blind page

  /** A present entry without the mark, as a boot loader writes it. */
  function Unmarked(address: nat): Entry {
    ZERO_ENTRY.(present := 1, address := address)
  }

  /** Tables 1 to 4, the first entry of each leading on, and page 0 mapped to frame 9. */
  function BootTables(): Space {
    Space(1,
          map[1 := ZeroTable()[0 := Unmarked(2)], 2 := ZeroTable()[0 := Unmarked(3)],
              3 := ZeroTable()[0 := Unmarked(4)], 4 := ZeroTable()[0 := Unmarked(9)]],
          map[1 := 4, 2 := 3, 3 := 2, 4 := 1],
          map[2 := Slot(1, 0), 3 := Slot(2, 0), 4 := Slot(3, 0)])
  }

  lemma BootTree()
    ensures Tree(BootTables())
  {
    var s := BootTables();
    forall f | f in s.tables ensures TableOk(s, f) {
      forall i | 0 <= i < ENTRIES ensures EntryOk(s, f, i) {
      }
    }
  }

  lemma {:induction false} BootWalk(v: nat)
    requires v == 0 && Tree(BootTables())
    ensures Walk(BootTables(), v, 1) == 4
  {
    var s := BootTables();
    assert Index(v, 4) == 0 && Index(v, 3) == 0 && Index(v, 2) == 0;
    WalkStep(s, v, 3);
    WalkStep(s, v, 2);
    WalkStep(s, v, 1);
  }

  /** Such tables are a tree with a blind page: page 0 is mapped, and is_free answers
      that it is not. */
  lemma BlindExample()
    ensures Tree(BootTables())
    ensures 0 in Mapping(BootTables()) && 0 in Blind(BootTables())
  {
    BootTree();
    BootWalk(AddrOf(0));
    assert Index(AddrOf(0), 1) == 0;
    IsMapped(BootTables(), 0);
    BlindIs(BootTables(), 0);
  }
}
