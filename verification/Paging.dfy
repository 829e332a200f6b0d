/**
 The page-table code (lethe-kernel/memory/paging.c) over the tables in memory.
 New tables come from the frame allocator, which zeroes them.
 */
module Paging {
  import opened PageModel
  import Frames

  datatype MapResult = Mapped | AlreadyMapped | OutOfFrames

  /** A way that ends early leads nowhere. */
  lemma {:induction false} Cut(s: Space, v: nat)
    requires Tree(s) && (Walk(s, v, 3) == 0 || Walk(s, v, 2) == 0)
    ensures PageOf(v) !in Mapping(s)
  {
    WalkStep(s, v, 2);
    WalkStep(s, v, 1);
    TranslateIsMapping(s, v);
  }

  class PageTables {
    const root: nat
    var tables: map<nat, seq<Entry>>
    const frames: Frames.FrameAllocator
    ghost var level: map<nat, nat>
    ghost var parent: map<nat, Slot>

    ghost function St(): Space
      reads this
    {
      Space(root, tables, level, parent)
    }

    ghost predicate Valid()
      reads this, frames, frames.entries
    {
      && Tree(St()) && frames.Valid() && !frames.next.start
      && tables.Keys !! frames.Remaining()
    }

    /** The mapping the tables stand for. */
    ghost function Map(): map<nat, nat>
      reads this
      requires Tree(St())
    {
      Mapping(St())
    }

    /** The mapped pages is_free takes for free; see PageModel. */
    ghost function BlindPages(): set<nat>
      reads this
      requires Tree(St())
    {
      Blind(St())
    }

    /** Every mapped page is marked, as this code marks it. */
    ghost predicate Honest()
      reads this
      requires Tree(St())
    {
      BlindPages() == {}
    }

    /** The pages is_free takes for used. */
    ghost function Used(): set<nat>
      reads this
      requires Tree(St())
    {
      Map().Keys - BlindPages()
    }

    constructor (space: Space, alloc: Frames.FrameAllocator)
      requires Tree(space) && alloc.Valid() && !alloc.next.start && space.tables.Keys !! alloc.Remaining()
      ensures Valid() && St() == space && frames == alloc
    {
      root, tables, level, parent := space.root, space.tables, space.level, space.parent;
      frames := alloc;
    }

    /** virtual_to_physical. */
    method VirtualToPhysical(v: nat) returns (r: nat)
      requires Tree(St())
      ensures r == Translate(St(), v)
      ensures PageOf(v) in Map() ==> r == Map()[PageOf(v)] * PAGE_SIZE != 0
      ensures PageOf(v) !in Map() ==> r == 0
    {
      TranslateIsMapping(St(), v);
      var e := GetEntry(v);
      r := e.address * 4096;
    }

    /** get_entry. */
    method GetEntry(v: nat) returns (e: Entry)
      requires Tree(St())
      ensures e == if Leaf(St(), v) == 0 then ZERO_ENTRY else LeafEntry(St(), v)
      ensures e.unused1 == 0 <==> PageOf(v) !in Used()
    {
      MarkIsUse(St(), v);
      ghost var s := St();
      var p4 := v / 4096 / 512 / 512 / 512 % 512;
      var p3 := v / 4096 / 512 / 512 % 512;
      var p2 := v / 4096 / 512 % 512;
      var p1 := v / 4096 % 512;
      assert p4 == Index(v, 4) && p3 == Index(v, 3) && p2 == Index(v, 2) && p1 == Index(v, 1);
      WalkStep(s, v, 3);
      WalkStep(s, v, 2);
      WalkStep(s, v, 1);
      var t3 := tables[root][p4].address;
      if t3 == 0 { return ZERO_ENTRY; }
      var t2 := tables[t3][p3].address;
      if t2 == 0 { return ZERO_ENTRY; }
      var t1 := tables[t2][p2].address;
      if t1 == 0 { return ZERO_ENTRY; }
      assert TableOk(s, t1) && EntryOk(s, t1, p1);
      if tables[t1][p1].address == 0 { return ZERO_ENTRY; }
      e := tables[t1][p1];
    }

    /** is_free: right about a page just when that is unmapped or marked. */
    method IsFree(v: nat) returns (free: bool)
      requires Tree(St())
      ensures free <==> PageOf(v) !in Map() || PageOf(v) in BlindPages()
    {
      var e := GetEntry(v);
      free := e.unused1 == 0;
    }

    /** __allocate_entry; 0 stands for its panic. */
    method AllocateEntry(f: nat, i: nat, flags: nat) returns (g: nat)
      requires Valid() && flags % 2 == 1 && f in tables && f in level && 1 < level[f]
      requires i < ENTRIES && i < |tables[f]| && tables[f][i].address == 0
      modifies this`tables, this`level, this`parent, frames, frames.entries
      ensures frames.Valid() && !frames.next.start && frames.Remaining() <= old(frames.Remaining())
      ensures g == 0 ==> frames.Remaining() == {} && St() == old(St())
      ensures g != 0 ==> CanHang(old(St()), f, i, g) && g !in frames.Remaining() && St() == Hang(old(St()), f, i, g, flags)
    {
      var r := frames.AllocateFrame();
      if r.Panic? || r.addr == 0 { return 0; }
      g := r.addr / 4096;
      tables := tables[f := tables[f][i := MakeEntry(r.addr, flags)]][g := ZeroTable()];
      level := level[g := level[f] - 1];
      parent := parent[g := Slot(f, i)];
    }

    /** The next table on the way to v below table f of level l, made if missing;
        0 if no frame is left. */
    method Descend(f: nat, i: nat, flags: nat, ghost v: nat, ghost l: nat) returns (g: nat)
      requires Valid() && flags % 2 == 1
      requires 2 <= l <= 4 && f != 0 && Walk(St(), v, l) == f && i == Index(v, l)
      modifies this`tables, this`level, this`parent, frames, frames.entries
      ensures Valid() && Map() == old(Map()) && BlindPages() == old(BlindPages())
      ensures frames.Remaining() <= old(frames.Remaining())
      ensures g == Walk(St(), v, l - 1)
      ensures g == 0 ==> frames.Remaining() == {} && St() == old(St())
    {
      ghost var s := St();
      WalkStep(s, v, l - 1);
      if tables[f][i].present == 0 {
        g := AllocateEntry(f, i, flags);
        if g != 0 { HangStep(s, f, g, flags, v, l); }
      } else {
        g := tables[f][i].address;
      }
    }

    /** map_page.  Panics are the results other than Mapped. */
    method MapPage(page: nat, frame: nat, flags: nat) returns (r: MapResult)
      requires Valid() && flags % 2 == 1 && 0 < frame / PAGE_SIZE < ADDRESS_SPAN
      modifies this`tables, this`level, this`parent, frames, frames.entries
      ensures Valid() && frames.Remaining() <= old(frames.Remaining())
      ensures r == Mapped ==>
                PageOf(page) !in old(Map()) && Map() == old(Map())[PageOf(page) := frame / PAGE_SIZE]
      ensures r != Mapped ==> Map() == old(Map())
      ensures BlindPages() == old(BlindPages())
      ensures r == AlreadyMapped <==> PageOf(page) in old(Map())
      ensures r == OutOfFrames ==> frames.Remaining() == {}
    {
      var g1 := DescendAll(page, flags);
      if g1 == 0 { return OutOfFrames; }
      r := Fill(g1, page, frame, flags);
    }

    /** The end of map_page, at the leaf table. */
    method Fill(g1: nat, page: nat, frame: nat, flags: nat) returns (r: MapResult)
      requires Tree(St()) && flags % 2 == 1 && 0 < frame / PAGE_SIZE < ADDRESS_SPAN
      requires g1 != 0 && Walk(St(), page, 1) == g1
      modifies this`tables
      ensures Tree(St()) && tables.Keys == old(tables.Keys)
      ensures r == if PageOf(page) in old(Map()) then AlreadyMapped else Mapped
      ensures Map() == if r == Mapped then old(Map())[PageOf(page) := frame / PAGE_SIZE] else old(Map())
      ensures BlindPages() == old(BlindPages())
    {
      var p1 := page / 4096 % 512;
      assert p1 == Index(page, 1);
      assert TableOk(St(), g1) && EntryOk(St(), g1, p1);
      TranslateIsMapping(St(), page);
      if tables[g1][p1].present != 0 { return AlreadyMapped; }
      assert BlindPages() - {PageOf(page)} == BlindPages();
      var e := MakeEntry(frame, flags);
      SetLeafKeeps(St(), g1, e, page);
      tables := tables[g1 := tables[g1][p1 := e]];
      r := Mapped;
    }

    method DescendAll(page: nat, flags: nat) returns (g1: nat)
      requires Valid() && flags % 2 == 1
      modifies this`tables, this`level, this`parent, frames, frames.entries
      ensures Valid() && Map() == old(Map()) && BlindPages() == old(BlindPages())
      ensures frames.Remaining() <= old(frames.Remaining())
      ensures g1 != 0 ==> Walk(St(), page, 1) == g1
      ensures g1 == 0 ==> frames.Remaining() == {} && PageOf(page) !in old(Map())
    {
      ghost var s := St();
      TranslateIsMapping(s, page);
      var p4 := page / 4096 / 512 / 512 / 512 % 512;
      var p3 := page / 4096 / 512 / 512 % 512;
      var p2 := page / 4096 / 512 % 512;
      assert p4 == Index(page, 4) && p3 == Index(page, 3) && p2 == Index(page, 2);
      WalkStep(s, page, 3);
      var g3 := Descend(root, p4, flags, page, 4);
      if g3 == 0 { Cut(s, page); return 0; }
      ghost var s3 := St();
      var g2 := Descend(g3, p3, flags, page, 3);
      if g2 == 0 { Cut(s3, page); return 0; }
      g1 := Descend(g2, p2, flags, page, 2);
      if g1 == 0 { TranslateIsMapping(St(), page); }
    }

    /** unmap_page. */
    method UnmapPage(page: nat)
      requires Valid()
      modifies this`tables
      ensures Valid() && tables.Keys == old(tables.Keys)
      ensures Map() == old(Map()) - {PageOf(page)} && BlindPages() == old(BlindPages()) - {PageOf(page)}
    {
      ghost var s := St();
      assert PageOf(page) !in Map() ==> BlindPages() - {PageOf(page)} == BlindPages();
      assert PageOf(page) !in Map() ==> Map() - {PageOf(page)} == Map();
      var p4 := page / 4096 / 512 / 512 / 512 % 512;
      var p3 := page / 4096 / 512 / 512 % 512;
      var p2 := page / 4096 / 512 % 512;
      var p1 := page / 4096 % 512;
      assert p4 == Index(page, 4) && p3 == Index(page, 3) && p2 == Index(page, 2) && p1 == Index(page, 1);
      WalkStep(s, page, 3);
      if tables[root][p4].present == 0 { Cut(s, page); return; }
      var t3 := tables[root][p4].address;
      WalkStep(s, page, 2);
      if tables[t3][p3].present == 0 { Cut(s, page); return; }
      var t2 := tables[t3][p3].address;
      WalkStep(s, page, 1);
      if tables[t2][p2].present == 0 { TranslateIsMapping(s, page); return; }
      var t1 := tables[t2][p2].address;
      Erase(t1, p1, page);
    }

    method Erase(t1: nat, p1: nat, ghost page: nat)
      requires Tree(St()) && t1 != 0 && Walk(St(), page, 1) == t1 && p1 == Index(page, 1)
      modifies this`tables
      ensures Tree(St()) && tables.Keys == old(tables.Keys)
      ensures Map() == old(Map()) - {PageOf(page)} && BlindPages() == old(BlindPages()) - {PageOf(page)}
    {
      SetLeafKeeps(St(), t1, ZERO_ENTRY, page);
      tables := tables[t1 := tables[t1][p1 := ZERO_ENTRY]];
    }

    /** The scan of one candidate: the first used page of it, or its length. */
    method Scan(start: nat, count: nat) returns (i: nat)
      requires Tree(St()) && Nth(start, count) < WORD
      ensures i <= count && RegionFree(Used(), start, i)
      ensures i < count ==> PageOf(Nth(start, i)) in Used()
    {
      var virtual := start;
      i := 0;
      while i < count
        invariant 0 <= i <= count && virtual == Nth(start, i) && RegionFree(Used(), start, i)
      {
        var free := IsFree(virtual);
        NextNth(start, i);
        virtual := Next(virtual);
        if !free { return; }
        i := i + 1;
      }
    }

    /** get_free_region: the first page step from start on whose pages all look free.
        `fits` names one such step; it is what the search needs to end. */
    method GetFreeRegion(start: nat, count: nat, ghost fits: nat) returns (r: nat, ghost k: nat)
      requires Tree(St()) && RegionFree(Used(), Nth(start, fits), count)
      requires Nth(start, fits + count) < WORD && count < INT_LIMIT
      ensures r == Nth(start, k) && k <= fits && RegionFree(Used(), r, count)
      ensures forall j :: 0 <= j < k ==> !RegionFree(Used(), Nth(start, j), count)
    {
      ghost var used := Used();
      r, k := start, 0;
      while true
        invariant k <= fits && r == Nth(start, k)
        invariant forall j :: 0 <= j < k ==> !RegionFree(used, Nth(start, j), count)
        decreases fits - k
      {
        var i := Scan(r, count);
        if i == count { return; }
        SkipLosesNothing(used, start, count, k, i);
        assert r + (i + 1) * 4096 == Nth(start, k + i + 1);
        r := r + (i + 1) * 4096;
        k := k + i + 1;
      }
    }

    /** The first `done` pages of a run were unmapped before it, and the mapping is the
        one that comes after them in `at`. */
    ghost predicate RunAt(at: seq<map<nat, nat>>, blind: set<nat>, start: nat, done: nat)
      reads this, frames, frames.entries
    {
      && done < |at| && Valid() && BlindPages() == blind
      && Map() == at[done] && RegionFree(at[0].Keys, start, done)
    }

    /** The mapping loop of map_contiguous_pages: it maps page after page up to the
        first that is mapped already, or until there are no frames. */
    method MapRun(start: nat, physical: nat, count: nat, flags: nat, ghost at: seq<map<nat, nat>>, ghost blind: set<nat>)
      returns (result: MapResult, ghost done: nat)
      requires |at| == count + 1 && RunAt(at, blind, start, 0) && Steps(at, start, physical / PAGE_SIZE)
      requires flags % 2 == 1 && 0 < physical / PAGE_SIZE && physical / PAGE_SIZE + count <= ADDRESS_SPAN
      modifies this`tables, this`level, this`parent, frames, frames.entries
      ensures RunAt(at, blind, start, done) && (result == OutOfFrames ==> frames.Remaining() == {})
      ensures result == Mapped ==> done == count
      ensures result == AlreadyMapped ==> done < count && PageOf(Nth(start, done)) in at[0]
    {
      var i := 0;
      done := 0;
      while i < count
        invariant 0 <= i == done <= count && RunAt(at, blind, start, i)
      {
        assert StepOk(at, start, physical / PAGE_SIZE, i);
        result := MapNth(start, physical, i, flags, at, blind);
        if result != Mapped { return; }
        i := i + 1;
        done := i;
      }
      result := Mapped;
    }

    /** One page of the run, when those before it are mapped. */
    method MapNth(start: nat, physical: nat, i: nat, flags: nat, ghost at: seq<map<nat, nat>>, ghost blind: set<nat>)
      returns (result: MapResult)
      requires RunAt(at, blind, start, i) && StepOk(at, start, physical / PAGE_SIZE, i)
      requires flags % 2 == 1 && 0 < physical / PAGE_SIZE && physical / PAGE_SIZE + i < ADDRESS_SPAN
      modifies this`tables, this`level, this`parent, frames, frames.entries
      ensures result == Mapped ==> RunAt(at, blind, start, i + 1)
      ensures result != Mapped ==> RunAt(at, blind, start, i)
      ensures result == OutOfFrames ==> frames.Remaining() == {}
      ensures result == AlreadyMapped <==> PageOf(Nth(start, i)) in at[0]
    {
      FrameOf(physical, i);
      result := MapOne(Nth(start, i), Nth(physical, i), flags, at[i], at[i + 1], blind, PageOf(Nth(start, i)) in at[0]);
      FreeOneMore(at[0].Keys, start, i);
    }

    /** map_page, from mapping `before` to mapping `after`. */
    method MapOne(page: nat, frame: nat, flags: nat, ghost before: map<nat, nat>, ghost after: map<nat, nat>,
                  ghost blind: set<nat>, ghost used: bool) returns (r: MapResult)
      requires Valid() && Map() == before && BlindPages() == blind && flags % 2 == 1 && 0 < frame / PAGE_SIZE < ADDRESS_SPAN
      requires after == before[PageOf(page) := frame / PAGE_SIZE] && used == (PageOf(page) in before)
      modifies this`tables, this`level, this`parent, frames, frames.entries
      ensures Valid() && BlindPages() == blind && (r == OutOfFrames ==> frames.Remaining() == {})
      ensures r == Mapped ==> Map() == after
      ensures r != Mapped ==> Map() == before
      ensures r == AlreadyMapped <==> used
    {
      r := MapPage(page, frame, flags);
    }

    /** map_page for a page that is known to be free in mapping m. */
    method MapFree(page: nat, frame: nat, flags: nat, ghost m: map<nat, nat>) returns (result: MapResult)
      requires Valid() && Map() == m && PageOf(page) !in m && flags % 2 == 1 && 0 < frame / PAGE_SIZE < ADDRESS_SPAN
      modifies this`tables, this`level, this`parent, frames, frames.entries
      ensures Valid() && (result == Mapped || (result == OutOfFrames && frames.Remaining() == {}))
      ensures result == Mapped ==> Map() == m[PageOf(page) := frame / PAGE_SIZE]
    {
      result := MapPage(page, frame, flags);
    }

    /** map_contiguous_pages: unless the last frame is gone, it stops at a mapped page just
        when the region that looked free has one, which must then be unmarked; otherwise
        page i of the region is frame i of the physical range, and no other page has
        changed. */
    method MapContiguous(desired: nat, physical: nat, count: nat, flags: nat, ghost fits: nat)
      returns (start: nat, result: MapResult, ghost k: nat)
      requires Valid() && flags % 2 == 1 && 0 < physical / PAGE_SIZE && physical / PAGE_SIZE + count <= ADDRESS_SPAN
      requires RegionFree(Used(), Nth(desired, fits), count)
      requires Nth(desired, fits + count) < WORD && count < INT_LIMIT
      modifies this`tables, this`level, this`parent, frames, frames.entries
      ensures Valid() && BlindPages() == old(BlindPages())
      ensures result == OutOfFrames ==> frames.Remaining() == {}
      ensures start == Nth(desired, k) && RegionFree(old(Used()), start, count)
      ensures forall j :: 0 <= j < k ==> !RegionFree(old(Used()), Nth(desired, j), count)
      ensures result == Mapped ==> Placed(old(Map()), Map(), start, physical / PAGE_SIZE, count)
      ensures result != OutOfFrames ==> (result == AlreadyMapped <==> !RegionFree(old(BlindPages()), start, count))
      ensures old(Honest()) ==> result != AlreadyMapped && RegionFree(old(Map().Keys), start, count)
    {
      ghost var m, blind, first := Map(), BlindPages(), physical / PAGE_SIZE;
      start, k := GetFreeRegion(desired, count, fits);
      BlindOrMapped(m.Keys, blind, start, count);
      ghost var at, done := Places(m, start, first, count), 0;
      PlacesStep(m, start, first, count, at);
      result, done := MapRun(start, physical, count, flags, at, blind);
      PlaceMeans(m, start, first, count);
      NotFree(m.Keys, start, count, done);
    }

    /** The loop test of map_page_nearest. */
    method Taken(v: nat) returns (taken: bool)
      requires Tree(St())
      ensures taken <==> PageOf(v) in Map()
    {
      var p := VirtualToPhysical(v);
      taken := p != 0;
    }

    /** The search of map_page_nearest: the first unmapped page step from start
        on.  `fits` names one; it is what the loop needs to end. */
    method FirstUnmapped(start: nat, ghost fits: nat) returns (v: nat, ghost k: nat)
      requires Tree(St()) && Nth(start, fits + 1) < WORD && PageOf(Nth(start, fits)) !in Map()
      ensures v == Nth(start, k) && PageOf(v) !in Map()
      ensures forall j :: 0 <= j < k ==> PageOf(Nth(start, j)) in Map()
    {
      ghost var m := Map();
      v, k := start, 0;
      var taken := Taken(v);
      while taken
        invariant k <= fits && v == Nth(start, k)
        invariant taken <==> PageOf(v) in m
        invariant forall j :: 0 <= j < k ==> PageOf(Nth(start, j)) in m
        decreases fits - k
      {
        assert k < fits;
        NextNth(start, k);
        v, k := Next(v), k + 1;
        taken := Taken(v);
      }
    }

    /** map_page_nearest.  `hhdm` is the direct-map base. */
    method MapNearest(desired: nat, frame: nat, flags: nat, hhdm: nat, ghost fits: nat)
      returns (v: nat, result: MapResult, ghost k: nat)
      requires Valid() && flags % 2 == 1 && 0 < frame / PAGE_SIZE < ADDRESS_SPAN
      requires Nth(NearestStart(desired, hhdm), fits + 1) < WORD
      requires PageOf(Nth(NearestStart(desired, hhdm), fits)) !in Map()
      modifies this`tables, this`level, this`parent, frames, frames.entries
      ensures Valid() && (result == Mapped || (result == OutOfFrames && frames.Remaining() == {}))
      ensures v == Nth(NearestStart(desired, hhdm), k) && PageOf(v) !in old(Map())
      ensures forall j :: 0 <= j < k ==> PageOf(Nth(NearestStart(desired, hhdm), j)) in old(Map())
      ensures result == Mapped ==> Map() == old(Map())[PageOf(v) := frame / PAGE_SIZE]
    {
      var first := desired;
      if first == hhdm || first == 0 { first := first + 0x1000; }
      v, k := FirstUnmapped(first, fits);
      result := MapFree(v, frame, flags, Map());
    }
  }

  /** The next page, in 64-bit arithmetic. */
  function Next(v: nat): nat {
    (v + PAGE_SIZE) % WORD
  }

  lemma FrameOf(physical: nat, i: nat)
    ensures Nth(physical, i) / PAGE_SIZE == physical / PAGE_SIZE + i
  {
  }

  lemma NextNth(start: nat, i: nat)
    requires Nth(start, i) < WORD - PAGE_SIZE
    ensures Next(Nth(start, i)) == Nth(start, i + 1)
  {
  }

  function NearestStart(desired: nat, hhdm: nat): nat {
    if desired == hhdm || desired == 0 then desired + PAGE_SIZE else desired
  }

  /** The mapping with pages start.. mapped to frames first.., one after the other. */
  function Place(m: map<nat, nat>, start: nat, first: nat, count: nat): map<nat, nat> {
    if count == 0 then m
    else Place(m, start, first, count - 1)[PageOf(Nth(start, count - 1)) := first + (count - 1)]
  }

  predicate InRun(start: nat, count: nat, n: nat) {
    exists i :: 0 <= i < count && n == PageOf(Nth(start, i))
  }

  /** m' is m with page i of the run mapped to frame first + i, and no other changed. */
  ghost predicate Placed(m: map<nat, nat>, m': map<nat, nat>, start: nat, first: nat, count: nat) {
    && (forall i :: 0 <= i < count ==> PageOf(Nth(start, i)) in m' && m'[PageOf(Nth(start, i))] == first + i)
    && (forall n :: !InRun(start, count, n) ==> (n in m' <==> n in m) && (n in m ==> m'[n] == m[n]))
  }

  /** Pages of one region are different pages. */
  lemma PagesDiffer(start: nat, i: nat, j: nat)
    requires i < j < i + PAGE_SPAN
    ensures PageOf(Nth(start, i)) != PageOf(Nth(start, j))
  {
    var n := start / PAGE_SIZE;
    assert Nth(start, i) / PAGE_SIZE == n + i && Nth(start, j) / PAGE_SIZE == n + j;
  }

  lemma {:induction false} PlaceMeans(m: map<nat, nat>, start: nat, first: nat, count: nat)
    requires count < INT_LIMIT
    ensures Placed(m, Place(m, start, first, count), start, first, count)
    decreases count
  {
    if count > 0 {
      var m1, m2 := Place(m, start, first, count - 1), Place(m, start, first, count);
      PlaceMeans(m, start, first, count - 1);
      forall i | 0 <= i < count - 1 ensures PageOf(Nth(start, i)) != PageOf(Nth(start, count - 1)) {
        PagesDiffer(start, i, count - 1);
      }
      forall n | !InRun(start, count, n) ensures (n in m2 <==> n in m) && (n in m ==> m2[n] == m[n]) {
        assert n != PageOf(Nth(start, count - 1)) && !InRun(start, count - 1, n);
      }
    }
  }

  /** Mapping the first pages of a run leaves the others as they are. */
  lemma {:induction false} PlaceLeaves(m: map<nat, nat>, start: nat, first: nat, i: nat)
    requires i < INT_LIMIT
    ensures PageOf(Nth(start, i)) in Place(m, start, first, i) <==> PageOf(Nth(start, i)) in m
  {
    PlaceMeans(m, start, first, i);
    if InRun(start, i, PageOf(Nth(start, i))) {
      var j :| 0 <= j < i && PageOf(Nth(start, i)) == PageOf(Nth(start, j));
      PagesDiffer(start, j, i);
    }
  }

  lemma FreeOneMore(used: set<nat>, start: nat, i: nat)
    ensures RegionFree(used, start, i) && PageOf(Nth(start, i)) !in used ==> RegionFree(used, start, i + 1)
  {
  }

  /** The mappings after 0, 1, 2.. pages of the run. */
  function Places(m: map<nat, nat>, start: nat, first: nat, count: nat): (at: seq<map<nat, nat>>)
    ensures |at| == count + 1 && at[0] == m && at[count] == Place(m, start, first, count)
  {
    if count == 0 then [m] else Places(m, start, first, count - 1) + [Place(m, start, first, count)]
  }

  predicate StepOk(at: seq<map<nat, nat>>, start: nat, first: nat, i: nat) {
    && i + 1 < |at| && at[i + 1] == at[i][PageOf(Nth(start, i)) := first + i]
    && (PageOf(Nth(start, i)) in at[i] <==> PageOf(Nth(start, i)) in at[0])
  }

  predicate Steps(at: seq<map<nat, nat>>, start: nat, first: nat) {
    forall i {:trigger StepOk(at, start, first, i)} :: 0 <= i < |at| - 1 ==> StepOk(at, start, first, i)
  }

  lemma {:induction false} PlacesStep(m: map<nat, nat>, start: nat, first: nat, count: nat, at: seq<map<nat, nat>>)
    requires count < INT_LIMIT && at == Places(m, start, first, count)
    ensures Steps(at, start, first)
  {
    if count > 0 {
      var before := Places(m, start, first, count - 1);
      PlacesStep(m, start, first, count - 1, before);
      forall i | 0 <= i < count ensures StepOk(at, start, first, i) {
        if i < count - 1 {
          assert StepOk(before, start, first, i);
        } else {
          PlaceLeaves(m, start, first, i);
        }
      }
    }
  }

  lemma NotFree(used: set<nat>, start: nat, count: nat, i: nat)
    ensures i < count && PageOf(Nth(start, i)) in used ==> !RegionFree(used, start, count)
  {
  }

  /** A region that looks free is unmapped but for blind pages. */
  lemma BlindOrMapped(mapped: set<nat>, blind: set<nat>, start: nat, count: nat)
    requires blind <= mapped && RegionFree(mapped - blind, start, count)
    ensures RegionFree(mapped, start, count) <==> RegionFree(blind, start, count)
  {
    forall i | 0 <= i < count ensures PageOf(Nth(start, i)) in mapped <==> PageOf(Nth(start, i)) in blind {
      assert PageOf(Nth(start, i)) !in mapped - blind;
    }
  }

  const WORD: nat := 0x1_0000_0000_0000_0000
  const INT_LIMIT: nat := 0x8000_0000

  /** The page start k pages on. */
  function Nth(start: nat, k: nat): nat {
    start + k * PAGE_SIZE
  }

  predicate RegionFree(used: set<nat>, start: nat, count: nat) {
    forall i :: 0 <= i < count ==> PageOf(Nth(start, i)) !in used
  }

  /** No start up to and including a used page of the region can work, so jumping
      past that page loses no candidate. */
  lemma SkipLosesNothing(used: set<nat>, start: nat, count: nat, k: nat, i: nat)
    requires i < count && PageOf(Nth(Nth(start, k), i)) in used
    ensures forall j :: k <= j <= k + i ==> !RegionFree(used, Nth(start, j), count)
  {
    forall j | k <= j <= k + i ensures !RegionFree(used, Nth(start, j), count) {
      assert Nth(Nth(start, j), k + i - j) == Nth(Nth(start, k), i);
    }
  }

  /** Over such tables the region of page 0 looks free and is not, so
      map_contiguous_pages meets the mapped page. */
  lemma BlindRegion()
    ensures Tree(BootTables())
    ensures RegionFree(Mapping(BootTables()).Keys - Blind(BootTables()), 0, 1) && !RegionFree(Blind(BootTables()), 0, 1)
  {
    BlindExample();
    assert PageOf(Nth(0, 0)) == 0;
  }
}
