/**
 kmalloc and kfree as they run (lethe-kernel/memory/alloc.c): liballoc over list_alloc
 over the page tables and the frame allocator, each with its state in place.  What they
 do is what MemoryStack says, and the one thing that stack leaves open, whether growth
 finds its frames, is settled by the frame allocator.
 */
module KernelHeap {
  import opened Wrappers
  import H = HeapModel
  import HeapSpec
  import L = Liballoc
  import R = RegionModel
  import Regions
  import M = MemoryStack

  class Kernel {
    const heap: L.Heap
    const list: Regions.RegionList

    ghost function Stack(): M.Stack
      reads heap, heap.heads, heap.complete, list
    {
      M.Stack(heap.Now(), list.St())
    }

    ghost predicate Valid()
      reads heap, heap.heads, heap.complete, list, list.paging, list.paging.frames, list.paging.frames.entries
    {
      heap.Valid() && list.Valid() && M.Sound(Stack())
    }

    constructor (heap: L.Heap, list: Regions.RegionList)
      ensures this.heap == heap && this.list == list
    {
      this.heap, this.list := heap, list;
    }

    /** Whether malloc has to ask for pages: its search, made ahead of the call because
        the answer of the page hook is an argument of Malloc. */
    method Asks(size: nat) returns (asks: bool)
      requires heap.Valid() && H.Sized(size)
      modifies heap`initialized, heap.heads, heap.complete
      ensures heap.Valid() && heap.Now() == old(heap.Now()) && asks == (HeapSpec.Choose(heap.Now(), size) == 0)
    {
      heap.Initialize();
      var index := L.GetExp(size);
      if index < 8 { index := 8; }
      var tag := heap.FindFit(index, size);
      asks := tag == 0;
    }

    /** liballoc_alloc: the block list_alloc lends, 0 for its panic. */
    method PageHook(size: nat) returns (base: nat)
      requires Valid() && H.Sized(size) && M.Asks(Stack(), size) && M.Fair(Stack(), size)
      requires list.heapEnd + R.PAGE + H.PagesFor(size) * R.PAGE + R.PAGE <= list.top
      modifies list`head, list`nodes, list`heapEnd, list`free, list`lent
      modifies list.paging`tables, list.paging`level, list.paging`parent, list.paging.frames, list.paging.frames.entries
      ensures base == 0 ==> M.Grows(old(Stack()), size) && list.paging.frames.Remaining() == {}
      ensures base != 0 ==> list.Valid() && list.St() == R.Alloc(old(list.St()), H.PagesFor(size))
      ensures base != 0 ==> list.St().lent != [] && list.St().lent[0].start == base
    {
      base := list.ListAlloc(H.PagesFor(size));
    }

    /** malloc up to the answer of its page hook. */
    method Ask(size: nat) returns (base: nat, ok: bool)
      requires Valid() && H.Sized(size) && M.Fair(Stack(), size)
      requires list.heapEnd + R.PAGE + H.PagesFor(size) * R.PAGE + R.PAGE <= list.top
      modifies heap`initialized, heap.heads, heap.complete, list`head, list`nodes, list`heapEnd, list`free, list`lent
      modifies list.paging`tables, list.paging`level, list.paging`parent, list.paging.frames, list.paging.frames.entries
      ensures heap.Valid() && heap.Now() == old(heap.Now())
      ensures ok ==> list.Valid() && Answered(old(Stack()), size, base, list.St())
      ensures !ok ==> M.Asks(old(Stack()), size) && M.Grows(old(Stack()), size) && list.paging.frames.Remaining() == {}
    {
      base, ok := 0, true;
      var asks := Asks(size);
      if asks {
        base := PageHook(size);
        ok := base != 0;
      }
    }

    /** malloc from there on. */
    method Serve(size: nat, base: nat, junk: nat, ghost k: M.Stack) returns (q: nat)
      requires M.Sound(k) && H.Sized(size) && M.Fair(k, size)
      requires heap.Valid() && heap.Now() == k.heap && list.Valid() && Answered(k, size, base, list.St())
      modifies heap, heap.heads, heap.complete
      ensures Valid() && M.Kmalloc(k, size, junk, true) == Some((Stack(), q))
    {
      KmallocIs(k, size, junk, base, list.St());
      ghost var (h, p) := HeapSpec.Malloc(k.heap, size, base, junk);
      q := Malloc(size, base, junk, h, p);
    }

    method Malloc(size: nat, base: nat, junk: nat, ghost h: H.State, ghost p: nat) returns (q: nat)
      requires heap.Valid() && HeapSpec.CanServe(heap.Now(), size, base)
      requires (h, p) == HeapSpec.Malloc(heap.Now(), size, base, junk)
      modifies heap, heap.heads, heap.complete
      ensures heap.Valid() && heap.Now() == h && q == p
    {
      q := heap.Malloc(size, base, junk);
    }

    /** kmalloc does what M.Kmalloc says, with growth that finds no frames only when the
        last one is gone.  None is the panic. */
    method Kmalloc(size: nat, junk: nat) returns (p: Option<nat>, ghost frames: bool)
      requires Valid() && H.Sized(size) && M.Fair(Stack(), size)
      requires list.heapEnd + R.PAGE + H.PagesFor(size) * R.PAGE + R.PAGE <= list.top
      modifies heap, heap.heads, heap.complete, list`head, list`nodes, list`heapEnd, list`free, list`lent
      modifies list.paging`tables, list.paging`level, list.paging`parent, list.paging.frames, list.paging.frames.entries
      ensures !frames ==> list.paging.frames.Remaining() == {}
      ensures match p
              case None => M.Kmalloc(old(Stack()), size, junk, frames) == None
              case Some(q) => Valid() && M.Kmalloc(old(Stack()), size, junk, frames) == Some((Stack(), q))
    {
      ghost var k := Stack();
      var base, ok := Ask(size);
      frames := ok;
      if ok {
        var q := Serve(size, base, junk, k);
        p := Some(q);
      } else {
        p := None;
      }
    }

    /** kfree does what M.Kfree says. */
    method Kfree(p: nat)
      requires Valid() && H.TAG_SIZE <= p && p - H.TAG_SIZE in HeapSpec.Used(heap.Now())
      modifies heap`tags, heap`bytes, heap`owner, heap`blocks, heap`rank, heap.heads, heap.complete
      modifies list`head, list`nodes, list`free, list`lent
      ensures Valid() && Stack() == M.Kfree(old(Stack()), p - H.TAG_SIZE)
    {
      ghost var k := Stack();
      KfreeIs(k, p - 48);
      ghost var (h, o) := HeapSpec.FreeTag(k.heap, p - 48);
      var out := Free(p, h, o);
      if out.Pages? { FreeHook(out.base, out.pages); }
    }

    method Free(p: nat, ghost h: H.State, ghost o: HeapSpec.Released) returns (out: HeapSpec.Released)
      requires heap.Valid() && H.TAG_SIZE <= p && p - H.TAG_SIZE in HeapSpec.Used(heap.Now())
      requires (h, o) == HeapSpec.FreeTag(heap.Now(), p - H.TAG_SIZE)
      modifies heap`tags, heap`bytes, heap`owner, heap`blocks, heap`rank, heap.heads, heap.complete
      ensures heap.Valid() && heap.Now() == h && out == o
    {
      L.UsedLive(heap.Now(), p - 48);
      out := heap.Free(p);
    }

    /** liballoc_free. */
    method FreeHook(base: nat, pages: nat)
      requires list.Valid() && M.Lent(list.lent, base, pages) && base != 0
      modifies list`head, list`nodes, list`free, list`lent
      ensures list.Valid() && list.St() == R.GiveBack(old(list.St()), M.Position(old(list.lent), base, pages))
    {
      list.GiveBackRegion(base, pages, M.Position(list.lent, base, pages));
    }
  }

  lemma KfreeIs(k: M.Stack, a: nat)
    requires M.Sound(k) && a in HeapSpec.Used(k.heap)
    ensures var (h, out) := HeapSpec.FreeTag(k.heap, a);
            && M.Sound(M.Kfree(k, a))
            && match out
               case Nothing => M.Kfree(k, a) == M.Stack(h, k.regions)
               case Pages(base, pages) =>
                 && base != 0 && M.Lent(k.regions.lent, base, pages)
                 && M.Kfree(k, a) == M.Stack(h, R.GiveBack(k.regions, M.Position(k.regions.lent, base, pages)))
  {
    M.KfreeKeeps(k, a);
    var out := HeapSpec.FreeTag(k.heap, a).1;
    if out.Pages? {
      var i := M.Position(k.regions.lent, out.base, out.pages);
      assert 0 < k.regions.lent[i].start;
    }
  }

  /** What the page hook has done when malloc goes on. */
  ghost predicate Answered(k: M.Stack, size: nat, base: nat, regions: R.State)
    requires M.Sound(k)
  {
    if M.Asks(k, size) then
      base != 0 && regions == R.Alloc(k.regions, H.PagesFor(size)) && regions.lent != [] && regions.lent[0].start == base
    else base == 0 && regions == k.regions
  }

  /** kmalloc with the hook's answer in hand. */
  lemma KmallocIs(k: M.Stack, size: nat, junk: nat, base: nat, regions: R.State)
    requires M.Sound(k) && H.Sized(size) && M.Fair(k, size)
    requires Answered(k, size, base, regions)
    ensures HeapSpec.CanServe(k.heap, size, base)
    ensures var (heap, q) := HeapSpec.Malloc(k.heap, size, base, junk);
            M.Kmalloc(k, size, junk, true) == Some((M.Stack(heap, regions), q)) && M.Sound(M.Stack(heap, regions))
  {
    if M.Asks(k, size) { M.HookDelivers(k, H.PagesFor(size)); }
    M.KmallocKeeps(k, size, junk, true);
  }
}
