/**
 The stack as the kernel runs it (lethe-kernel/memory/alloc.c): liballoc asks the
 page-region list for blocks and gives blocks back to it.  As long as the page
 requests split evenly, and requests that fit the 16-page minimum block always do,
 the two keep each other's promises in every run: what liballoc assumes of its page
 hook, the region list delivers as written.  A call that ends in the out-of-memory
 panic has no result.
 */
module MemoryStack {
  import opened Wrappers
  import H = HeapModel
  import HeapOps
  import HeapSpec
  import HeapTheorems
  import R = RegionModel

  datatype Stack = Stack(heap: H.State, regions: R.State)

  /** A request whose block is the 16-page minimum. */
  predicate Small(size: nat) {
    size + H.TAG_SIZE <= 16 * H.PAGE_SIZE
  }

  ghost predicate Starts(rs: seq<R.Region>) {
    forall i :: 0 <= i < |rs| ==> 0 < rs[i].start
  }

  predicate Lent(rs: seq<R.Region>, b: nat, pages: nat) {
    exists i :: 0 <= i < |rs| && rs[i] == R.Region(b, pages)
  }

  predicate IsBlock(s: H.State, b: nat, pages: nat) {
    b in s.blocks && s.blocks[b] == pages
  }

  /** Both layers are sound and agree on which blocks are out, and how large. */
  ghost predicate Sound(k: Stack) {
    && H.Inv(k.heap) && R.Good(k.regions)
    && Starts(k.regions.free) && Starts(k.regions.lent)
    && forall b, pages :: IsBlock(k.heap, b, pages) <==> Lent(k.regions.lent, b, pages)
  }

  /** Two regions of a good state do not overlap. */
  lemma LentApart(s: R.State, i: nat, j: nat)
    requires R.Good(s) && i < j < |s.lent|
    ensures R.RegionEnd(s.lent[i]) <= s.lent[j].start || R.RegionEnd(s.lent[j]) <= s.lent[i].start
  {
    var a := if s.lent[i].start < s.lent[j].start then s.lent[j].start else s.lent[i].start;
    R.TimesWithout(s.lent, j, a);
    assert R.Without(s.lent, j)[i] == s.lent[i];
    R.TimesWithout(R.Without(s.lent, j), i, a);
    assert R.Uses(s, a) <= 1;
  }

  // --------------------------------------------------------------------- kmalloc

  /** malloc has to ask for pages. */
  predicate Asks(k: Stack, size: nat)
    requires H.Inv(k.heap)
  {
    HeapSpec.Choose(k.heap, size) == 0
  }

  /** The pages it asks for, if it does, come without a split or from an even one. */
  predicate Fair(k: Stack, size: nat)
    requires H.Inv(k.heap)
  {
    Asks(k, size) ==> R.Even(k.regions, H.PagesFor(size))
  }

  /** list_alloc has to grow, which needs frames. */
  predicate Grows(k: Stack, size: nat) {
    R.FirstFit(k.regions.free, H.PagesFor(size)) == |k.regions.free|
  }

  /** kmalloc(size): liballoc's malloc over list_alloc, when growth would find frames or
      not.  None is the panic of increase_heap_size. */
  function Kmalloc(k: Stack, size: nat, junk: nat, frames: bool): (r: Option<(Stack, nat)>)
    requires Sound(k) && H.Sized(size) && Fair(k, size)
  {
    if !Asks(k, size) then
      var (heap, p) := HeapSpec.Malloc(k.heap, size, 0, junk);
      Some((Stack(heap, k.regions), p))
    else if Grows(k, size) && !frames then None
    else
      HookDelivers(k, H.PagesFor(size));
      var regions := R.Alloc(k.regions, H.PagesFor(size));
      var (heap, p) := HeapSpec.Malloc(k.heap, size, regions.lent[0].start, junk);
      Some((Stack(heap, regions), p))
  }

  /** What list_alloc answers is what malloc needs: a block clear of all others. */
  lemma HookDelivers(k: Stack, pages: nat)
    requires Sound(k) && 0 < pages && R.Even(k.regions, pages)
    ensures var r := R.Alloc(k.regions, pages);
            && R.Good(r) && Starts(r.free) && Starts(r.lent)
            && r.lent != [] && r.lent == [r.lent[0]] + k.regions.lent && r.lent[0].pages == pages
            && H.RegionApart(k.heap, r.lent[0].start, pages)
  {
    R.AllocSafeIff(k.regions, pages);
    AllocStarts(k.regions, pages);
    ClearOfBlocks(k, R.Alloc(k.regions, pages), pages);
  }

  lemma AllocStarts(s: R.State, pages: nat)
    requires Starts(s.free) && Starts(s.lent)
    ensures var r := R.Alloc(s, pages);
            && Starts(r.free) && Starts(r.lent)
            && r.lent != [] && r.lent == [r.lent[0]] + s.lent && r.lent[0].pages == pages
  {
    var s1 := R.Ready(s, pages);
    var i := R.FirstFit(s1.free, pages);
    assert s1.free[i].start > 0;
    assert R.Alloc(s, pages).lent == [R.Region(s1.free[i].start, pages)] + s.lent;
  }

  lemma ClearOfBlocks(k: Stack, r: R.State, pages: nat)
    requires Sound(k) && R.Good(r) && r.lent != [] && r.lent == [r.lent[0]] + k.regions.lent
    requires r.lent[0].pages == pages && 0 < r.lent[0].start
    ensures H.RegionApart(k.heap, r.lent[0].start, pages)
  {
    forall b | b in k.heap.blocks
      ensures H.End(k.heap, b) <= r.lent[0].start || r.lent[0].start + pages * H.PAGE_SIZE <= b
    {
      assert IsBlock(k.heap, b, k.heap.blocks[b]);
      var j :| 0 <= j < |k.regions.lent| && k.regions.lent[j] == R.Region(b, k.heap.blocks[b]);
      assert r.lent[j + 1] == k.regions.lent[j];
      LentApart(r, 0, j + 1);
    }
  }

  /** After the hook has served, the layers agree again. */
  lemma GrownAgrees(k: Stack, r: R.State, blocks: map<nat, nat>, b: nat, pages: nat)
    requires forall c, n :: IsBlock(k.heap, c, n) <==> Lent(k.regions.lent, c, n)
    requires r.lent == [R.Region(b, pages)] + k.regions.lent && blocks == k.heap.blocks[b := pages] && b !in k.heap.blocks
    ensures forall c, n :: c in blocks && blocks[c] == n <==> Lent(r.lent, c, n)
  {
    forall c, n ensures c in blocks && blocks[c] == n <==> Lent(r.lent, c, n) {
      LentMore(R.Region(b, pages), k.regions.lent, c, n);
      assert IsBlock(k.heap, c, n) <==> Lent(k.regions.lent, c, n);
      if c == b { assert !IsBlock(k.heap, c, n); }
    }
  }

  lemma LentMore(x: R.Region, rs: seq<R.Region>, b: nat, pages: nat)
    ensures Lent([x] + rs, b, pages) <==> R.Region(b, pages) == x || Lent(rs, b, pages)
  {
    var r := R.Region(b, pages);
    if Lent(rs, b, pages) {
      var i :| 0 <= i < |rs| && rs[i] == r;
      assert ([x] + rs)[i + 1] == r;
    }
    if x == r { assert ([x] + rs)[0] == r; }
    if Lent([x] + rs, b, pages) && x != r {
      var i :| 0 <= i < |[x] + rs| && ([x] + rs)[i] == r;
      assert rs[i - 1] == r;
    }
  }

  /** One more live allocation, and all sound. */
  ghost predicate Obtained(k: Stack, size: nat, k': Stack, p: nat)
    requires Sound(k)
  {
    && Sound(k') && p > H.TAG_SIZE && p - H.TAG_SIZE !in HeapSpec.Used(k.heap)
    && HeapSpec.Used(k'.heap) == HeapSpec.Used(k.heap)[p - H.TAG_SIZE := size]
  }

  /** kmalloc panics just when no free tag fits, no free region has room, and growth
      finds no frames.  Otherwise it keeps both layers sound and adds exactly one live
      allocation. */
  lemma KmallocKeeps(k: Stack, size: nat, junk: nat, frames: bool)
    requires Sound(k) && H.Sized(size) && Fair(k, size)
    ensures var r := Kmalloc(k, size, junk, frames);
            && (r.None? <==> Asks(k, size) && Grows(k, size) && !frames)
            && (r.Some? ==> Obtained(k, size, r.value.0, r.value.1))
  {
    if !Asks(k, size) {
      HeapSpec.MallocKeeps(k.heap, size, 0, junk);
    } else if !Grows(k, size) || frames {
      var pages := H.PagesFor(size);
      HookDelivers(k, pages);
      var r := R.Alloc(k.regions, pages);
      var base := r.lent[0].start;
      HeapSpec.MallocKeeps(k.heap, size, base, junk);
      H.BaseFresh(k.heap, base, size);
      var heap := HeapSpec.Malloc(k.heap, size, base, junk).0;
      GrownSound(k, size, r, heap, base, pages);
    }
  }

  lemma GrownSound(k: Stack, size: nat, r: R.State, heap: H.State, b: nat, pages: nat)
    requires Sound(k) && H.Inv(heap) && R.Good(r) && Starts(r.free) && Starts(r.lent)
    requires r.lent == [R.Region(b, pages)] + k.regions.lent && b !in k.heap.owner
    requires heap.blocks == k.heap.blocks[b := pages]
    ensures Sound(Stack(heap, r))
  {
    assert b in k.heap.blocks ==> H.BlockOk(k.heap, b);
    GrownAgrees(k, r, heap.blocks, b, pages);
    forall c, n ensures IsBlock(heap, c, n) <==> Lent(r.lent, c, n) {
    }
  }

  // ----------------------------------------------------------------------- kfree

  /** Where a region is. */
  function Position(rs: seq<R.Region>, b: nat, pages: nat): (i: nat)
    requires Lent(rs, b, pages)
    ensures i < |rs| && rs[i] == R.Region(b, pages)
  {
    if rs[0] == R.Region(b, pages) then 0
    else
      assert rs == [rs[0]] + rs[1..];
      LentMore(rs[0], rs[1..], b, pages);
      1 + Position(rs[1..], b, pages)
  }

  /** kfree of the live allocation at tag a. */
  function Kfree(k: Stack, a: nat): Stack
    requires Sound(k) && a in HeapSpec.Used(k.heap)
  {
    HeapSpec.FreeKeeps(k.heap, a);
    var (heap, out) := HeapSpec.FreeTag(k.heap, a);
    match out
    case Nothing => Stack(heap, k.regions)
    case Pages(base, pages) =>
      assert IsBlock(k.heap, base, pages);
      Stack(heap, R.GiveBack(k.regions, Position(k.regions.lent, base, pages)))
  }

  /** kfree ends exactly that allocation; the region it returns, if any, is as large as
      it was lent. */
  lemma KfreeKeeps(k: Stack, a: nat)
    requires Sound(k) && a in HeapSpec.Used(k.heap)
    ensures Sound(Kfree(k, a)) && HeapSpec.Used(Kfree(k, a).heap) == HeapSpec.Used(k.heap) - {a}
    ensures var out := HeapSpec.FreeTag(k.heap, a).1;
            if out.Pages? then Lent(k.regions.lent, out.base, out.pages) &&
              Kfree(k, a).regions.free == [R.Region(out.base, out.pages)] + k.regions.free
            else Kfree(k, a).regions == k.regions
  {
    HeapSpec.FreeKeeps(k.heap, a);
    var (heap, out) := HeapSpec.FreeTag(k.heap, a);
    if out.Pages? {
      assert IsBlock(k.heap, out.base, out.pages);
      FreedSound(k, heap, Position(k.regions.lent, out.base, out.pages), out.base, out.pages);
    } else {
      forall c, n ensures IsBlock(heap, c, n) <==> Lent(k.regions.lent, c, n) {
        assert IsBlock(heap, c, n) <==> IsBlock(k.heap, c, n);
      }
    }
  }

  lemma FreedSound(k: Stack, heap: H.State, i: nat, b: nat, pages: nat)
    requires Sound(k) && H.Inv(heap) && i < |k.regions.lent| && k.regions.lent[i] == R.Region(b, pages)
    requires heap.blocks == k.heap.blocks - {b}
    ensures Sound(Stack(heap, R.GiveBack(k.regions, i)))
  {
    var lent := k.regions.lent;
    R.GiveBackKeeps(k.regions, i);
    forall c, n ensures IsBlock(heap, c, n) <==> Lent(R.Without(lent, i), c, n) {
      LentLess(k.regions, i, c, n);
      assert IsBlock(k.heap, c, n) <==> Lent(lent, c, n);
    }
  }

  lemma LentLess(s: R.State, i: nat, b: nat, pages: nat)
    requires R.Good(s) && i < |s.lent|
    ensures Lent(R.Without(s.lent, i), b, pages) <==> Lent(s.lent, b, pages) && b != s.lent[i].start
  {
    var rest, r := R.Without(s.lent, i), R.Region(b, pages);
    if Lent(rest, b, pages) {
      var j :| 0 <= j < |rest| && rest[j] == r;
      var m := if j < i then j else j + 1;
      assert s.lent[m] == r;
      if m < i { LentApart(s, m, i); } else { LentApart(s, i, m); }
    }
    if Lent(s.lent, b, pages) && b != s.lent[i].start {
      var m :| 0 <= m < |s.lent| && s.lent[m] == r;
      var j := if m < i then m else m - 1;
      assert rest[j] == r;
    }
  }

  // -------------------------------------------------------------------- krealloc

  /** krealloc of the live allocation at tag a to a size other than 0: malloc, then free. */
  function Krealloc(k: Stack, a: nat, size: nat, junk: nat, frames: bool): (r: Option<(Stack, nat)>)
    requires Sound(k) && H.Sized(size) && Fair(k, size) && a in HeapSpec.Used(k.heap)
  {
    KmallocKeeps(k, size, junk, frames);
    match Kmalloc(k, size, junk, frames)
    case None => None
    case Some((k1, p)) => Some((Kfree(k1, a), p))
  }

  /** The live allocation at a has become one of that size at p. */
  ghost predicate Replaced(k: Stack, a: nat, size: nat, k': Stack, p: nat)
    requires Sound(k)
  {
    && Sound(k') && p > H.TAG_SIZE && p - H.TAG_SIZE !in HeapSpec.Used(k.heap)
    && HeapSpec.Used(k'.heap) == HeapSpec.Used(k.heap)[p - H.TAG_SIZE := size] - {a}
  }

  lemma ThenFreed(k: Stack, a: nat, size: nat, k1: Stack, p: nat)
    requires Sound(k) && a in HeapSpec.Used(k.heap) && Obtained(k, size, k1, p)
    ensures Sound(k1) && a in HeapSpec.Used(k1.heap) && Replaced(k, a, size, Kfree(k1, a), p)
  {
    KfreeKeeps(k1, a);
  }

  /** It panics just when kmalloc does, so the copy never goes to address 0; otherwise it
      replaces exactly one live allocation. */
  lemma KreallocKeeps(k: Stack, a: nat, size: nat, junk: nat, frames: bool)
    requires Sound(k) && H.Sized(size) && Fair(k, size) && a in HeapSpec.Used(k.heap)
    ensures var r := Krealloc(k, a, size, junk, frames);
            && (r.None? <==> Asks(k, size) && Grows(k, size) && !frames)
            && (r.Some? ==> Replaced(k, a, size, r.value.0, r.value.1))
  {
    KmallocKeeps(k, size, junk, frames);
    var r := Kmalloc(k, size, junk, frames);
    if r.Some? { ThenFreed(k, a, size, r.value.0, r.value.1); }
  }

  // ------------------------------------------------------------------------ runs

  datatype Op = Get(size: nat, junk: nat, frames: bool) | Put(tag: nat) | Move(tag: nat, size: nat, junk: nat, frames: bool)

  /** The caller's side: sizes below 2^31, pointers that are live, and page requests
      that split evenly. */
  predicate Legal(k: Stack, op: Op)
    requires H.Inv(k.heap)
  {
    match op
    case Get(size, _, _) => H.Sized(size) && Fair(k, size)
    case Put(a) => a in HeapSpec.Used(k.heap)
    case Move(a, size, _, _) => a in HeapSpec.Used(k.heap) && H.Sized(size) && Fair(k, size)
  }

  function Step(k: Stack, op: Op): Option<Stack>
    requires Sound(k) && Legal(k, op)
  {
    match op
    case Get(size, junk, frames) =>
      (match Kmalloc(k, size, junk, frames) case None => None case Some((k1, _)) => Some(k1))
    case Put(a) => Some(Kfree(k, a))
    case Move(a, size, junk, frames) =>
      (match Krealloc(k, a, size, junk, frames) case None => None case Some((k1, _)) => Some(k1))
  }

  lemma StepKeeps(k: Stack, op: Op)
    requires Sound(k) && Legal(k, op)
    ensures Step(k, op).Some? ==> Sound(Step(k, op).value)
  {
    match op {
      case Get(size, junk, frames) => KmallocKeeps(k, size, junk, frames);
      case Put(a) => KfreeKeeps(k, a);
      case Move(a, size, junk, frames) => KreallocKeeps(k, a, size, junk, frames);
    }
  }

  /** Every call is legal when it is made. */
  ghost predicate Proper(k: Stack, ops: seq<Op>)
    requires Sound(k)
    decreases |ops|
  {
    ops == [] ||
    (Legal(k, ops[0]) &&
     (StepKeeps(k, ops[0]);
      var next := Step(k, ops[0]);
      next.Some? ==> Proper(next.value, ops[1..])))
  }

  /** The state after the run; None when a call of it panicked. */
  ghost function Run(k: Stack, ops: seq<Op>): (r: Option<Stack>)
    requires Sound(k) && Proper(k, ops)
    ensures r.Some? ==> Sound(r.value)
    decreases |ops|
  {
    if ops == [] then Some(k)
    else
      StepKeeps(k, ops[0]);
      match Step(k, ops[0])
      case None => None
      case Some(next) => Run(next, ops[1..])
  }

  function BootStack(heapStart: nat): Stack {
    Stack(HeapTheorems.EMPTY, R.Boot(heapStart))
  }

  lemma BootSound(heapStart: nat)
    requires 0 < heapStart
    ensures Sound(BootStack(heapStart)) && R.Sizes(BootStack(heapStart).regions)
  {
    HeapTheorems.EmptyInv();
    R.MinimumRunsAreSafe(heapStart, []);
  }

  /** No two live payloads overlap, and no two regions do. */
  ghost predicate AllApart(k: Stack) {
    && R.Apart(k.regions)
    && H.Inv(k.heap)
    && forall a, c :: a in HeapSpec.Used(k.heap) && c in k.heap.owner && c != a ==>
         a + H.TAG_SIZE + HeapSpec.Used(k.heap)[a] <= c || c + k.heap.tags[c].realSize <= a
  }

  lemma SoundIsApart(k: Stack)
    requires Sound(k)
    ensures AllApart(k)
  {
    forall a, c | a in HeapSpec.Used(k.heap) && c in k.heap.owner && c != a
      ensures a + H.TAG_SIZE + HeapSpec.Used(k.heap)[a] <= c || c + k.heap.tags[c].realSize <= a
    {
      HeapTheorems.PayloadsApart(k.heap, a, c);
    }
  }

  /** From boot on, every run of kmalloc, kfree and krealloc whose page requests split
      evenly keeps all payloads and all regions apart, and liballoc and the region list
      in agreement. */
  lemma {:induction false} KernelRuns(heapStart: nat, ops: seq<Op>)
    requires 0 < heapStart
    ensures Sound(BootStack(heapStart))
    ensures Proper(BootStack(heapStart), ops) ==>
              var r := Run(BootStack(heapStart), ops);
              r.Some? ==> Sound(r.value) && AllApart(r.value)
  {
    BootSound(heapStart);
    var k := BootStack(heapStart);
    if Proper(k, ops) {
      var r := Run(k, ops);
      if r.Some? { SoundIsApart(r.value); }
    }
  }

  // -------------------------------------------------------- runs of small requests

  /** The caller's side for requests of one minimum block. */
  predicate SmallCall(k: Stack, op: Op)
    requires H.Inv(k.heap)
  {
    match op
    case Get(size, _, _) => Small(size)
    case Put(a) => a in HeapSpec.Used(k.heap)
    case Move(a, size, _, _) => a in HeapSpec.Used(k.heap) && Small(size)
  }

  lemma SixteenSplitsEvenly(s: R.State)
    requires R.Sizes(s)
    ensures R.Even(s, 16) && R.Sizes(R.Alloc(s, 16))
  {
    var s1 := R.Ready(s, 16);
    ReadySizes(s);
    LendSizes(s1, R.FirstFit(s1.free, 16));
  }

  lemma ReadySizes(s: R.State)
    requires R.Sizes(s)
    ensures R.Sizes(R.Ready(s, 16))
  {
  }

  lemma LendSizes(s: R.State, i: nat)
    requires R.Sizes(s) && i < |s.free|
    ensures s.free[i].pages == 16 || s.free[i].pages == 32
    ensures R.Sizes(R.Lend(s, i, 16))
  {
  }

  lemma SmallIsFair(k: Stack, size: nat)
    requires Sound(k) && R.Sizes(k.regions) && Small(size)
    ensures H.Sized(size) && Fair(k, size) && H.PagesFor(size) == 16 && R.Sizes(R.Alloc(k.regions, 16))
  {
    SixteenSplitsEvenly(k.regions);
    assert H.PagesFor(size) == 16;
  }

  lemma SmallKmalloc(k: Stack, size: nat, junk: nat, frames: bool)
    requires Sound(k) && R.Sizes(k.regions) && Small(size)
    ensures H.Sized(size) && Fair(k, size)
    ensures var r := Kmalloc(k, size, junk, frames); r.Some? ==> R.Sizes(r.value.0.regions)
  {
    SmallIsFair(k, size);
  }

  lemma SmallKfree(k: Stack, a: nat)
    requires Sound(k) && R.Sizes(k.regions) && a in HeapSpec.Used(k.heap)
    ensures R.Sizes(Kfree(k, a).regions)
  {
    HeapSpec.FreeKeeps(k.heap, a);
  }

  /** Small calls are legal, and leave regions of 16 and 32 pages. */
  lemma SmallStep(k: Stack, op: Op)
    requires Sound(k) && R.Sizes(k.regions) && SmallCall(k, op)
    ensures Legal(k, op) && (Step(k, op).Some? ==> R.Sizes(Step(k, op).value.regions))
  {
    match op {
      case Get(size, junk, frames) => SmallKmalloc(k, size, junk, frames);
      case Put(a) => SmallKfree(k, a);
      case Move(a, size, junk, frames) =>
        SmallKmalloc(k, size, junk, frames);
        KmallocKeeps(k, size, junk, frames);
        var r := Kmalloc(k, size, junk, frames);
        if r.Some? { SmallKfree(r.value.0, a); }
    }
  }

  ghost predicate SmallRun(k: Stack, ops: seq<Op>)
    requires Sound(k) && R.Sizes(k.regions)
    decreases |ops|
  {
    ops == [] ||
    (SmallCall(k, ops[0]) &&
     (SmallStep(k, ops[0]); StepKeeps(k, ops[0]);
      var next := Step(k, ops[0]);
      next.Some? ==> SmallRun(next.value, ops[1..])))
  }

  /** So for such runs nothing has to be asked of the splits. */
  lemma {:induction false} SmallRunsAreProper(k: Stack, ops: seq<Op>)
    requires Sound(k) && R.Sizes(k.regions) && SmallRun(k, ops)
    ensures Proper(k, ops)
    decreases |ops|
  {
    if ops != [] {
      SmallStep(k, ops[0]);
      StepKeeps(k, ops[0]);
      var next := Step(k, ops[0]);
      if next.Some? { SmallRunsAreProper(next.value, ops[1..]); }
    }
  }

  /** From boot on they keep everything apart. */
  lemma {:induction false} SmallKernelRuns(heapStart: nat, ops: seq<Op>)
    requires 0 < heapStart
    ensures Sound(BootStack(heapStart)) && R.Sizes(BootStack(heapStart).regions)
    ensures SmallRun(BootStack(heapStart), ops) ==>
              && Proper(BootStack(heapStart), ops)
              && var r := Run(BootStack(heapStart), ops); r.Some? ==> AllApart(r.value)
  {
    BootSound(heapStart);
    if SmallRun(BootStack(heapStart), ops) {
      SmallRunsAreProper(BootStack(heapStart), ops);
      KernelRuns(heapStart, ops);
    }
  }
}
