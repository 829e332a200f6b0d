/**
 The page-region allocator (lethe-kernel/memory/list_allocator.c): list nodes at
 the start of each free region, linked from allocator.head, and growth of the
 heap through the page tables.
 */
module Regions {
  import opened RegionModel
  import PageModel
  import Paging

  datatype Node = Node(pages: nat, next: nat)

  /** The nodes from address `a` on spell out the regions rs. */
  predicate Linked(nodes: map<nat, Node>, a: nat, rs: seq<Region>)
    decreases |rs|
  {
    if rs == [] then a == 0
    else a == rs[0].start && a != 0 && a in nodes && nodes[a].pages == rs[0].pages && Linked(nodes, nodes[a].next, rs[1..])
  }

  lemma {:induction false} LinkedFrame(nodes: map<nat, Node>, nodes': map<nat, Node>, a: nat, rs: seq<Region>)
    requires Linked(nodes, a, rs)
    requires forall i :: 0 <= i < |rs| ==> rs[i].start in nodes' && (rs[i].start in nodes ==> nodes'[rs[i].start] == nodes[rs[i].start])
    ensures Linked(nodes', a, rs)
    decreases |rs|
  {
    if rs != [] {
      assert forall i :: 0 <= i < |rs| - 1 ==> rs[1..][i] == rs[i + 1];
      LinkedFrame(nodes, nodes', nodes[a].next, rs[1..]);
    }
  }

  lemma {:induction false} LinkedIn(nodes: map<nat, Node>, a: nat, rs: seq<Region>, i: nat)
    requires Linked(nodes, a, rs) && i < |rs|
    ensures rs[i].start in nodes && nodes[rs[i].start].pages == rs[i].pages && rs[i].start != 0
    ensures Linked(nodes, nodes[rs[i].start].next, rs[i + 1..])
    ensures nodes[rs[i].start].next == if i + 1 < |rs| then rs[i + 1].start else 0
    decreases i
  {
    if i > 0 {
      LinkedIn(nodes, nodes[a].next, rs[1..], i - 1);
      assert rs[1..][i..] == rs[i + 1..];
    }
  }

  /** Unlinking region i by redirecting its predecessor. */
  lemma {:induction false} LinkedWithout(nodes: map<nat, Node>, a: nat, rs: seq<Region>, i: nat)
    requires Linked(nodes, a, rs) && 0 < i < |rs|
    requires forall j, k :: 0 <= j < k < |rs| ==> rs[j].start != rs[k].start
    ensures rs[i].start in nodes && rs[i - 1].start in nodes
    ensures var p := rs[i - 1].start;
            Linked(nodes[p := nodes[p].(next := nodes[rs[i].start].next)], a, Without(rs, i))
    decreases i
  {
    LinkedIn(nodes, a, rs, i);
    LinkedIn(nodes, a, rs, i - 1);
    var p := rs[i - 1].start;
    var nodes' := nodes[p := nodes[p].(next := nodes[rs[i].start].next)];
    if i == 1 {
      assert Without(rs, 1)[1..] == rs[2..];
      assert nodes[a].next == rs[1].start;
      forall k | 0 <= k < |rs[2..]| ensures rs[2..][k].start in nodes' && nodes'[rs[2..][k].start] == nodes[rs[2..][k].start] {
        LinkedIn(nodes, a, rs, k + 2);
      }
      LinkedFrame(nodes, nodes', nodes[rs[1].start].next, rs[2..]);
    } else {
      assert rs[1..][i - 2] == rs[i - 1] && rs[1..][i - 1] == rs[i];
      LinkedWithout(nodes, nodes[a].next, rs[1..], i - 1);
      assert Without(rs, i)[1..] == Without(rs[1..], i - 1);
    }
  }

  /** In a good state no two free regions start at the same address. */
  lemma StartsDiffer(s: State, j: nat, k: nat)
    requires Good(s) && j < k < |s.free|
    ensures s.free[j].start != s.free[k].start
  {
    var a := s.free[j].start;
    TimesWithout(s.free, k, a);
    assert Without(s.free, k)[j] == s.free[j];
    TimesWithout(Without(s.free, k), j, a);
    assert Uses(s, a) <= 1 && Inside(s.free[j], a) == 1;
  }

  /** A page further up, within 2^48 bytes, is another page. */
  lemma PagesFar(i: nat, v: nat)
    requires i % PAGE == 0 && i + PAGE <= v < i + PageModel.PAGE_SPAN * PAGE
    ensures PageModel.PageOf(v) != PageModel.PageOf(i)
  {
    var k := v / PAGE - i / PAGE;
    Paging.PagesDiffer(i, 0, k);
    assert Paging.Nth(i, k) / PAGE == v / PAGE;
  }

  /** Pages from the page at v on are unmapped up to top, which is at most 2^48
      bytes away, so that no two of them share a table entry. */
  ghost predicate ClearFrom(m: map<nat, nat>, v: nat, top: nat) {
    && v % PAGE == 0 && top <= v + PageModel.PAGE_SPAN * PAGE && top <= Paging.WORD
    && forall w {:trigger PageModel.PageOf(w)} :: v <= w < top ==> PageModel.PageOf(w) !in m
  }

  /** m' adds to m, and covers every page from a up to b. */
  ghost predicate Filled(m: map<nat, nat>, m': map<nat, nat>, a: nat, b: nat) {
    && (forall n :: n in m ==> n in m' && m'[n] == m[n])
    && (forall v {:trigger PageModel.PageOf(v)} :: a <= v < b ==> PageModel.PageOf(v) in m')
  }

  lemma ClearNext(m: map<nat, nat>, i: nat, top: nat, f: nat)
    requires ClearFrom(m, i, top) && i + PAGE <= top
    ensures ClearFrom(m[PageModel.PageOf(i) := f], i + PAGE, top)
  {
    var n := PageModel.PageOf(i);
    forall w | i + PAGE <= w < top ensures PageModel.PageOf(w) !in m[n := f] {
      PagesFar(i, w);
    }
    NextAligned(i);
  }

  lemma NextAligned(i: nat)
    requires i % PAGE == 0
    ensures (i + PAGE) % PAGE == 0
  {
  }

  lemma FirstClear(m: map<nat, nat>, i: nat, top: nat)
    requires ClearFrom(m, i, top) && i < top
    ensures PageModel.PageOf(i) !in m
  {
  }

  /** What one more mapped page does to both. */
  lemma NextTurn(m0: map<nat, nat>, m: map<nat, nat>, first: nat, i: nat, last: nat, top: nat, f: nat)
    requires ClearFrom(m, i, top) && Filled(m0, m, first, i) && first <= i <= last && last + PAGE <= top && last % PAGE == 0
    ensures ClearFrom(m[PageModel.PageOf(i) := f], i + PAGE, top)
    ensures Filled(m0, m[PageModel.PageOf(i) := f], first, i + PAGE)
    ensures i + PAGE <= last + PAGE
  {
    ClearNext(m, i, top, f);
    FillNext(m0, m, first, i, top, f);
  }

  lemma LastStep(i: nat, last: nat)
    requires i % PAGE == 0 && last % PAGE == 0 && last < i <= last + PAGE
    ensures i == last + PAGE
  {
  }

  lemma FillNext(m: map<nat, nat>, m': map<nat, nat>, a: nat, i: nat, top: nat, f: nat)
    requires Filled(m, m', a, i) && ClearFrom(m', i, top) && i + PAGE <= top
    ensures Filled(m, m'[PageModel.PageOf(i) := f], a, i + PAGE)
  {
    assert PageModel.PageOf(i) !in m';
    forall v | i <= v < i + PAGE ensures PageModel.PageOf(v) == PageModel.PageOf(i) {
      assert v / PAGE == i / PAGE;
    }
  }

  class RegionList {
    const paging: Paging.PageTables
    var head: nat
    var nodes: map<nat, Node>
    var heapEnd: nat
    ghost var free: seq<Region>
    ghost var lent: seq<Region>
    /** The first address the heap may not grow to. */
    ghost const top: nat

    ghost function St(): State
      reads this
    {
      State(free, lent, heapEnd)
    }

    ghost predicate Valid()
      reads this, paging, paging.frames, paging.frames.entries
    {
      Good(St()) && Linked(nodes, head, free) && ClearBeyond()
    }

    constructor (tables: Paging.PageTables, limit: nat)
      ensures paging == tables && top == limit && head == 0 && free == [] && lent == []
    {
      paging, top := tables, limit;
      head, nodes, heapEnd := 0, map[], 0;
      free, lent := [], [];
    }

    /** add_region: a node at the start of the region, in front of the list. */
    method AddRegion(start: nat, pages: nat)
      modifies this`head, this`nodes
      ensures head == start && nodes == old(nodes)[start := Node(pages, old(head))]
    {
      nodes := nodes[start := Node(pages, head)];
      head := start;
    }

    /** Take region k off the list, where `current` is the node before it. */
    method Unlink(current: nat, r: nat, ghost k: nat)
      requires Good(St()) && Linked(nodes, head, free) && k < |free| && r == free[k].start
      requires if k == 0 then current == 0 else current == free[k - 1].start != 0
      modifies this`head, this`nodes, this`free
      ensures free == Without(old(free), k) && Linked(nodes, head, free)
      ensures r in nodes && r != 0 && nodes[r].pages == old(free)[k].pages
    {
      LinkedIn(nodes, head, free, k);
      if current == 0 {
        assert Without(free, 0) == free[1..];
        head := nodes[r].next;
      } else {
        forall i, j | 0 <= i < j < |free| ensures free[i].start != free[j].start {
          StartsDiffer(St(), i, j);
        }
        LinkedWithout(nodes, head, free, k);
        nodes := nodes[current := nodes[current].(next := nodes[r].next)];
      }
      free := Without(free, k);
    }

    /** get_valid_region: unlink the first region with room; 0 if there is none. */
    method GetValidRegion(pages: nat) returns (r: nat)
      requires Good(St()) && Linked(nodes, head, free)
      modifies this`head, this`nodes, this`free
      ensures r == 0 <==> FirstFit(old(free), pages) == |old(free)|
      ensures r == 0 ==> unchanged(this)
      ensures r != 0 ==>
                && r == old(free)[FirstFit(old(free), pages)].start
                && r in nodes && nodes[r].pages == old(free)[FirstFit(old(free), pages)].pages
                && free == Without(old(free), FirstFit(old(free), pages)) && Linked(nodes, head, free)
    {
      ghost var k := 0;
      var current := 0;            // 0 stands for &allocator.head
      var next := head;
      while next != 0
        invariant k <= FirstFit(free, pages) && free == old(free) && nodes == old(nodes) && head == old(head)
        invariant next == if k < |free| then free[k].start else 0
        invariant k == 0 ==> current == 0
        invariant k > 0 ==> k <= |free| && current == free[k - 1].start != 0
        decreases |free| - k
      {
        assert k < |free|;
        LinkedIn(nodes, head, free, k);
        if pages <= nodes[next].pages {
          r := next;
          assert k == FirstFit(free, pages);
          Unlink(current, r, k);
          return;
        }
        LinkedIn(nodes, head, free, k);
        current := next;
        next := nodes[current].next;
        k := k + 1;
      }
      FitAll(nodes, head, free, k, pages);
      r := 0;
    }

    /** The mapping loops of increase_heap_size and setup_allocator: a frame for
        every page from `first` to `last`.  No page is ever mapped twice. */
    method MapHeap(first: nat, last: nat) returns (r: Paging.MapResult)
      requires paging.Valid() && ClearFrom(paging.Map(), first, top)
      requires last % PAGE == 0 && first <= last + PAGE && last + PAGE <= top
      modifies paging`tables, paging`level, paging`parent, paging.frames, paging.frames.entries
      ensures paging.Valid() && (r == Paging.Mapped || (r == Paging.OutOfFrames && paging.frames.Remaining() == {}))
      ensures r == Paging.Mapped ==> ClearFrom(paging.Map(), last + PAGE, top)
      ensures r == Paging.Mapped ==> Filled(old(paging.Map()), paging.Map(), first, last + PAGE)
    {
      ghost var m0 := paging.Map();
      var i := first;
      r := Paging.Mapped;
      while i <= last
        invariant first <= i <= last + PAGE && r == Paging.Mapped && MappedTo(m0, first, i)
      {
        r := MapTurn(i, first, last, m0);
        if r != Paging.Mapped { return; }
        i := i + 4096;
      }
      LastStep(i, last);
    }

    /** The pages from first up to i are mapped beside those of m0, those from i on are
        not. */
    ghost predicate MappedTo(m0: map<nat, nat>, first: nat, i: nat)
      reads this, paging, paging.frames, paging.frames.entries
    {
      paging.Valid() && ClearFrom(paging.Map(), i, top) && Filled(m0, paging.Map(), first, i)
    }

    method MapTurn(i: nat, ghost first: nat, ghost last: nat, ghost m0: map<nat, nat>) returns (r: Paging.MapResult)
      requires MappedTo(m0, first, i) && first <= i <= last && last + PAGE <= top && last % PAGE == 0
      modifies paging`tables, paging`level, paging`parent, paging.frames, paging.frames.entries
      ensures paging.Valid() && i + PAGE <= last + PAGE
      ensures r == Paging.Mapped || (r == Paging.OutOfFrames && paging.frames.Remaining() == {})
      ensures r == Paging.Mapped ==> MappedTo(m0, first, i + PAGE)
    {
      ghost var m, f := paging.Map(), 0;
      FirstClear(m, i, top);
      r, f := MapNew(i);
      NextTurn(m0, m, first, i, last, top, f);
    }

    /** One turn of those loops. */
    method MapNew(i: nat) returns (r: Paging.MapResult, ghost f: nat)
      requires paging.Valid() && PageModel.PageOf(i) !in paging.Map()
      modifies paging`tables, paging`level, paging`parent, paging.frames, paging.frames.entries
      ensures paging.Valid() && (r == Paging.Mapped || (r == Paging.OutOfFrames && paging.frames.Remaining() == {}))
      ensures paging.Map() ==
              if r == Paging.Mapped then old(paging.Map())[PageModel.PageOf(i) := f] else old(paging.Map())
    {
      var frame := paging.frames.AllocateFrame();
      f := 0;
      if frame.Panic? || frame.addr == 0 { return Paging.OutOfFrames, f; }
      r := paging.MapPage(i, frame.addr, 3);
      f := frame.addr / PAGE;
    }

    /** increase_heap_size. */
    method IncreaseHeap(pages: nat) returns (r: Paging.MapResult)
      requires Valid() && 0 < pages && heapEnd + PAGE + pages * PAGE + PAGE <= top
      modifies this`head, this`nodes, this`heapEnd, this`free
      modifies paging`tables, paging`level, paging`parent, paging.frames, paging.frames.entries
      ensures paging.Valid() && (r == Paging.Mapped || (r == Paging.OutOfFrames && paging.frames.Remaining() == {}))
      ensures r == Paging.Mapped ==>
                && Valid() && St() == Grow(old(St()), pages)
                && Filled(old(paging.Map()), paging.Map(), old(heapEnd) + PAGE, heapEnd + PAGE)
    {
      var heapStart := heapEnd + 4096;
      var newEnd := heapStart + 4096 * pages;
      AlignedEnd(heapStart, pages);
      r := MapHeap(heapStart, newEnd);
      if r == Paging.Mapped { Attach(heapStart, pages, newEnd); }
    }

    /** The new pages as one region in front of the list. */
    method Attach(heapStart: nat, pages: nat, newEnd: nat)
      requires Good(St()) && Linked(nodes, head, free) && 0 < pages
      requires heapStart == heapEnd + PAGE && newEnd == heapStart + PAGE * pages
      modifies this`head, this`nodes, this`heapEnd, this`free
      ensures Good(St()) && Linked(nodes, head, free) && St() == Grow(old(St()), pages)
    {
      GrowKeeps(St(), pages);
      FreshStart(St(), heapStart);
      AddFront(nodes, head, free, heapStart, pages);
      heapEnd := newEnd;
      AddRegion(heapStart, pages);
      free := [Region(heapStart, pages)] + free;
    }

    /** The first region of s1 with room was unlinked. */
    ghost predicate Took(s1: State, pages: nat, region: nat)
      requires FirstFit(s1.free, pages) < |s1.free|
      reads this
    {
      var i := FirstFit(s1.free, pages);
      && free == Without(s1.free, i) && heapEnd == s1.heapEnd && Linked(nodes, head, free)
      && region == s1.free[i].start && region in nodes && nodes[region].pages == s1.free[i].pages
    }

    /** Nothing is mapped beyond the heap end. */
    ghost predicate ClearBeyond()
      reads this, paging, paging.frames, paging.frames.entries
    {
      paging.Valid() && ClearFrom(paging.Map(), heapEnd + PAGE, top)
    }

    /** The second search of list_alloc always succeeds, so the abort is unreachable. */
    method TakeGrown(pages: nat, ghost s1: State) returns (region: nat)
      requires Valid() && St() == s1 && FirstFit(s1.free, pages) < |s1.free|
      modifies this`head, this`nodes, this`free
      ensures region != 0 && Took(s1, pages, region) && ClearBeyond()
    {
      region := GetValidRegion(pages);
    }

    /** The search of list_alloc: a region with room is unlinked, after growing
        the heap if need be; 0 stands for running out of frames. */
    method Find(pages: nat) returns (region: nat)
      requires Valid() && 0 < pages && heapEnd + PAGE + pages * PAGE + PAGE <= top
      modifies this`head, this`nodes, this`heapEnd, this`free
      modifies paging`tables, paging`level, paging`parent, paging.frames, paging.frames.entries
      ensures region != 0 ==> Took(Ready(old(St()), pages), pages, region) && ClearBeyond()
      ensures region == 0 ==> old(FirstFit(free, pages) == |free|) && paging.frames.Remaining() == {}
    {
      ghost var s := St();
      region := GetValidRegion(pages);
      if region == 0 {
        var r := IncreaseHeap(pages);
        if r != Paging.Mapped { return 0; }
        region := TakeGrown(pages, Grow(s, pages));
      }
    }

    /** The split of list_alloc, from region i of s. */
    method Part(region: nat, pages: nat, ghost s: State, ghost i: nat)
      requires i < |s.free| && 0 < pages <= s.free[i].pages && region == s.free[i].start
      requires free == Without(s.free, i) && lent == s.lent && heapEnd == s.heapEnd
      requires region in nodes && nodes[region].pages == s.free[i].pages
      modifies this`head, this`nodes, this`free, this`lent
      ensures St() == Lend(s, i, pages)
      ensures var excess := s.free[i].pages - pages;
              if excess == 0 then nodes == old(nodes) && head == old(head) && free == old(free)
              else
                var at := region + excess * PAGE;
                && nodes == old(nodes)[at := Node(excess, old(head))] && head == at
                && free == [Region(at, excess)] + old(free)
    {
      var excess := nodes[region].pages - pages;
      var allocEnd := region + excess * 4096;
      if excess > 0 {
        AddRegion(allocEnd, excess);
        free := [Region(allocEnd, excess)] + free;
      }
      lent := [Region(region, pages)] + lent;
    }

    /** list_alloc; 0 stands for its panic, when no region has room and growth takes the
        last frame.  Otherwise the state is Alloc of the old one; the list and the regions
        stay sound when the split is even. */
    method ListAlloc(pages: nat) returns (p: nat)
      requires Valid() && 0 < pages && heapEnd + PAGE + pages * PAGE + PAGE <= top
      modifies this`head, this`nodes, this`heapEnd, this`free, this`lent
      modifies paging`tables, paging`level, paging`parent, paging.frames, paging.frames.entries
      ensures p != 0 ==> St() == Alloc(old(St()), pages) && lent == [Region(p, pages)] + old(lent)
      ensures p == 0 ==> old(FirstFit(free, pages) == |free|) && paging.frames.Remaining() == {}
      ensures p != 0 && Even(old(St()), pages) ==> Valid()
    {
      ghost var s := St();
      p := Find(pages);
      if p != 0 { Complete(p, pages, s); }
    }

    /** That, with what is mapped beyond the heap end. */
    method Complete(region: nat, pages: nat, ghost s: State)
      requires Good(s) && 0 < pages && lent == s.lent && Took(Ready(s, pages), pages, region) && ClearBeyond()
      modifies this`head, this`nodes, this`free, this`lent
      ensures St() == Alloc(s, pages) && lent == [Region(region, pages)] + s.lent
      ensures Even(s, pages) ==> Valid()
    {
      Finish(region, pages, s, Ready(s, pages));
    }

    /** The rest of list_alloc, with the region it found. */
    method Finish(region: nat, pages: nat, ghost s: State, ghost s1: State)
      requires Good(s) && 0 < pages && s1 == Ready(s, pages) && lent == s.lent && Took(s1, pages, region)
      modifies this`head, this`nodes, this`free, this`lent
      ensures St() == Alloc(s, pages) && lent == [Region(region, pages)] + s.lent
      ensures Even(s, pages) ==> Good(St()) && Linked(nodes, head, free)
    {
      AllocIs(s, pages);
      ghost var i := FirstFit(s1.free, pages);
      if s1.free[i].pages == 2 * pages { SplitFresh(s1, i, pages, nodes, head, free); }
      Part(region, pages, s1, i);
    }

    /** liballoc_free: a lent region goes to the front of the list. */
    method GiveBackRegion(start: nat, pages: nat, ghost i: nat)
      requires Valid() && i < |lent| && lent[i] == Region(start, pages) && start != 0
      modifies this`head, this`nodes, this`free, this`lent
      ensures Valid() && St() == GiveBack(old(St()), i)
    {
      GiveBackKeeps(St(), i);
      LentFresh(St(), i);
      AddFront(nodes, head, free, start, pages);
      AddRegion(start, pages);
      free, lent := [Region(start, pages)] + free, Without(lent, i);
    }

    /** setup_allocator, from the heap start it computes. */
    method Setup(heapStart: nat) returns (r: Paging.MapResult)
      requires head == 0 && free == [] && lent == [] && heapStart != 0
      requires paging.Valid() && ClearFrom(paging.Map(), heapStart, top) && heapStart + 0x20000 + PAGE <= top
      modifies this`head, this`nodes, this`heapEnd, this`free
      modifies paging`tables, paging`level, paging`parent, paging.frames, paging.frames.entries
      ensures paging.Valid() && (r == Paging.Mapped || (r == Paging.OutOfFrames && paging.frames.Remaining() == {}))
      ensures r == Paging.Mapped ==>
                Valid() && St() == Boot(heapStart) && Filled(old(paging.Map()), paging.Map(), heapStart, heapEnd + PAGE)
    {
      AlignedEnd(heapStart, 32);
      r := MapHeap(heapStart, heapStart + 0x20000);
      if r == Paging.Mapped {
        Start(heapStart);
      }
    }

    /** The boot region as the only one. */
    method Start(heapStart: nat)
      requires head == 0 && free == [] && lent == [] && heapStart != 0 && heapStart % PAGE == 0
      modifies this`head, this`nodes, this`heapEnd, this`free
      ensures Good(St()) && Linked(nodes, head, free) && St() == Boot(heapStart)
    {
      heapEnd := heapStart + 0x20000;
      AddRegion(heapStart, 0x20000 / 4096);
      free := [Region(heapStart, 32)];
      BootGood(heapStart);
    }
  }

  lemma {:induction false} AllocIs(s: State, pages: nat)
    requires Good(s) && 0 < pages
    ensures Good(Ready(s, pages)) && (Even(s, pages) ==> Good(Alloc(s, pages)))
    ensures var s1 := Ready(s, pages);
            var i := FirstFit(s1.free, pages);
            && Alloc(s, pages) == Lend(s1, i, pages) && s1.lent == s.lent
            && Alloc(s, pages).lent == [Region(s1.free[i].start, pages)] + s.lent
            && Alloc(s, pages).heapEnd == s1.heapEnd
            && (Even(s, pages) <==> s1.free[i].pages == pages || s1.free[i].pages == 2 * pages)
  {
    ReadyKeeps(s, pages);
    AllocSafeIff(s, pages);
  }

  lemma AlignedEnd(start: nat, pages: nat)
    requires start % PAGE == 0
    ensures (start + PAGE * pages) % PAGE == 0
  {
  }

  lemma BootGood(heapStart: nat)
    ensures Good(Boot(heapStart))
  {
    var s := Boot(heapStart);
    forall a: nat ensures Uses(s, a) <= 1 {
      assert Times(s.free, a) == Inside(s.free[0], a) + Times(s.free[1..], a);
    }
  }

  /** A new front node is a list with one more region. */
  lemma AddFront(nodes: map<nat, Node>, a: nat, rs: seq<Region>, start: nat, pages: nat)
    requires Linked(nodes, a, rs) && start != 0 && forall i :: 0 <= i < |rs| ==> rs[i].start != start
    ensures Linked(nodes[start := Node(pages, a)], start, [Region(start, pages)] + rs)
  {
    var nodes' := nodes[start := Node(pages, a)];
    forall i | 0 <= i < |rs| ensures rs[i].start in nodes' && (rs[i].start in nodes ==> nodes'[rs[i].start] == nodes[rs[i].start]) {
      LinkedIn(nodes, a, rs, i);
    }
    LinkedFrame(nodes, nodes', a, rs);
    assert ([Region(start, pages)] + rs)[1..] == rs;
  }

  /** No region starts above the heap end. */
  lemma FreshStart(s: State, start: nat)
    requires Good(s) && s.heapEnd < start
    ensures forall i :: 0 <= i < |s.free| ==> s.free[i].start != start
  {
  }

  /** No free region starts where a lent one does. */
  lemma LentFresh(s: State, i: nat)
    requires Good(s) && i < |s.lent|
    ensures forall j :: 0 <= j < |s.free| ==> s.free[j].start != s.lent[i].start
  {
    var a := s.lent[i].start;
    TimesWithout(s.lent, i, a);
    forall j | 0 <= j < |s.free| ensures s.free[j].start != a {
      TimesWithout(s.free, j, a);
      assert Uses(s, a) <= 1;
    }
  }

  /** A node for a region at `at` can go in front of the list. */
  predicate FrontLinked(nodes: map<nat, Node>, a: nat, at: nat, pages: nat, rest: seq<Region>) {
    Linked(nodes[at := Node(pages, a)], at, [Region(at, pages)] + rest)
  }

  /** The remainder of an even split starts where no other free region does. */
  lemma {:induction false} SplitFresh(s: State, i: nat, pages: nat, nodes: map<nat, Node>, a: nat, rest: seq<Region>)
    requires Good(s) && i < |s.free| && 0 < pages && s.free[i].pages == 2 * pages
    requires rest == Without(s.free, i) && Linked(nodes, a, rest)
    ensures FrontLinked(nodes, a, s.free[i].start + pages * PAGE, pages, rest)
  {
    var at := s.free[i].start + pages * PAGE;
    TimesWithout(s.free, i, at);
    forall j | 0 <= j < |rest| ensures rest[j].start != at {
      TimesWithout(rest, j, at);
      assert Uses(s, at) <= 1;
      assert rest[j] in s.free;
    }
    AddFront(nodes, a, rest, at, pages);
  }

  lemma {:induction false} FitAll(nodes: map<nat, Node>, a: nat, rs: seq<Region>, k: nat, pages: nat)
    requires Linked(nodes, a, rs) && k <= |rs| && (k < |rs| ==> rs[k].start == 0)
    ensures k == |rs|
  {
    if k < |rs| { LinkedIn(nodes, a, rs, k); }
  }
}
