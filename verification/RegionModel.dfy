/**
 The page-region list (lethe-kernel/memory/list_allocator.c) as a value: the free
 regions in list order, the regions lent out, and the end of the heap.

 A split of a larger region leaves its remainder `excess` pages above the region,
 not `pages` pages above it.  This module proves what that costs: memory is
 neither lost nor handed out twice if and only if every split is even.
 */
module RegionModel {

  const PAGE: nat := 4096

  datatype Region = Region(start: nat, pages: nat)

  datatype State = State(free: seq<Region>, lent: seq<Region>, heapEnd: nat)

  function RegionEnd(r: Region): nat {
    r.start + r.pages * PAGE
  }

  function Inside(r: Region, a: nat): nat {
    if r.start <= a < RegionEnd(r) then 1 else 0
  }

  /** How many of the regions contain address a. */
  function Times(rs: seq<Region>, a: nat): nat {
    if rs == [] then 0 else Inside(rs[0], a) + Times(rs[1..], a)
  }

  function Uses(s: State, a: nat): nat {
    Times(s.free, a) + Times(s.lent, a)
  }

  /** No address is in two regions. */
  ghost predicate Apart(s: State) {
    forall a: nat :: Uses(s, a) <= 1
  }

  predicate Bounded(s: State) {
    && (forall i :: 0 <= i < |s.free| ==> 0 < s.free[i].pages && RegionEnd(s.free[i]) <= s.heapEnd)
    && (forall i :: 0 <= i < |s.lent| ==> 0 < s.lent[i].pages && RegionEnd(s.lent[i]) <= s.heapEnd)
  }

  ghost predicate Good(s: State) {
    Apart(s) && Bounded(s)
  }

  // ---------------------------------------------------------- counting regions

  lemma {:induction false} TimesAppend(xs: seq<Region>, ys: seq<Region>, a: nat)
    ensures Times(xs + ys, a) == Times(xs, a) + Times(ys, a)
  {
    if xs == [] {
      assert xs + ys == ys;
    } else {
      assert (xs + ys)[0] == xs[0] && (xs + ys)[1..] == xs[1..] + ys;
      TimesAppend(xs[1..], ys, a);
    }
  }

  function Without(rs: seq<Region>, i: nat): seq<Region>
    requires i < |rs|
  {
    rs[..i] + rs[i + 1..]
  }

  lemma {:induction false} TimesWithout(rs: seq<Region>, i: nat, a: nat)
    requires i < |rs|
    ensures Times(rs, a) == Times(Without(rs, i), a) + Inside(rs[i], a)
  {
    assert rs == rs[..i] + ([rs[i]] + rs[i + 1..]);
    TimesAppend(rs[..i], [rs[i]] + rs[i + 1..], a);
    TimesAppend([rs[i]], rs[i + 1..], a);
    TimesAppend(rs[..i], rs[i + 1..], a);
    assert Times([rs[i]], a) == Inside(rs[i], a) + Times([], a);
  }

  // -------------------------------------------------------------- the operations

  /** The first free region with room for `pages`; the list length if none. */
  function FirstFit(rs: seq<Region>, pages: nat): (i: nat)
    ensures i <= |rs| && (i < |rs| ==> pages <= rs[i].pages)
    ensures forall j :: 0 <= j < i ==> rs[j].pages < pages
  {
    if rs == [] then 0
    else if pages <= rs[0].pages then 0
    else
      assert forall j :: 0 < j < |rs| ==> rs[j] == rs[1..][j - 1];
      1 + FirstFit(rs[1..], pages)
  }

  /** increase_heap_size: the new region starts one page above the heap end. */
  function Grow(s: State, pages: nat): State {
    s.(free := [Region(s.heapEnd + PAGE, pages)] + s.free,
       heapEnd := s.heapEnd + PAGE + PAGE * pages)
  }

  /** add_region of a lent region. */
  function GiveBack(s: State, i: nat): State
    requires i < |s.lent|
  {
    s.(free := [s.lent[i]] + s.free, lent := Without(s.lent, i))
  }

  /** list_alloc from free region i: the remainder, if any, lands `excess` pages
      above the region, and goes to the front of the list. */
  function Lend(s: State, i: nat, pages: nat): State
    requires i < |s.free| && pages <= s.free[i].pages
  {
    var r := s.free[i];
    var excess := r.pages - pages;
    var rest := Without(s.free, i);
    s.(free := if excess > 0 then [Region(r.start + excess * PAGE, excess)] + rest else rest,
       lent := [Region(r.start, pages)] + s.lent)
  }

  /** The state list_alloc searches in: grown if nothing fitted. */
  function Ready(s: State, pages: nat): (s': State)
    ensures FirstFit(s'.free, pages) < |s'.free|
  {
    if FirstFit(s.free, pages) < |s.free| then s else Grow(s, pages)
  }

  function Alloc(s: State, pages: nat): State {
    var s1 := Ready(s, pages);
    Lend(s1, FirstFit(s1.free, pages), pages)
  }

  /** The split, if there is one, is into two equal halves. */
  predicate Even(s: State, pages: nat) {
    var s1 := Ready(s, pages);
    var n := s1.free[FirstFit(s1.free, pages)].pages;
    n == pages || n == 2 * pages
  }

  /** Every address is in as many regions as before, counting growth as owned. */
  ghost predicate Conserves(s: State, s': State) {
    forall a: nat :: Uses(s', a) == Uses(s, a)
  }

  // ------------------------------------------------------------------- theorems

  lemma LendUses(s: State, i: nat, pages: nat, a: nat)
    requires i < |s.free| && pages <= s.free[i].pages
    ensures var r := s.free[i];
            var e := r.pages - pages;
            Uses(Lend(s, i, pages), a) + Inside(r, a) ==
            Uses(s, a) + Inside(Region(r.start, pages), a) + Inside(Region(r.start + e * PAGE, e), a)
  {
    var r := s.free[i];
    var e := r.pages - pages;
    TimesWithout(s.free, i, a);
    assert ([Region(r.start, pages)] + s.lent)[1..] == s.lent;
    assert ([Region(r.start + e * PAGE, e)] + Without(s.free, i))[1..] == Without(s.free, i);
  }

  /** One loan conserves memory if and only if it splits nothing or splits evenly. */
  lemma LendConservesIff(s: State, i: nat, pages: nat)
    requires i < |s.free| && 0 < pages <= s.free[i].pages
    ensures Conserves(s, Lend(s, i, pages)) <==> s.free[i].pages == pages || s.free[i].pages == 2 * pages
  {
    var r := s.free[i];
    var e := r.pages - pages;
    if e == 0 || e == pages {
      forall a: nat ensures Uses(Lend(s, i, pages), a) == Uses(s, a) {
        LendUses(s, i, pages, a);
      }
    } else if e < pages {
      // The remainder starts inside what was lent.
      LendUses(s, i, pages, r.start + e * PAGE);
    } else {
      // The first page after the loan is in no region any more.
      LendUses(s, i, pages, r.start + pages * PAGE);
    }
  }

  lemma {:induction false} TimesBeyond(rs: seq<Region>, limit: nat, a: nat)
    requires (forall i :: 0 <= i < |rs| ==> RegionEnd(rs[i]) <= limit) && limit <= a
    ensures Times(rs, a) == 0
  {
    if rs != [] { TimesBeyond(rs[1..], limit, a); }
  }

  lemma GrowKeeps(s: State, pages: nat)
    requires Good(s) && 0 < pages
    ensures Good(Grow(s, pages))
    ensures forall a: nat :: Uses(Grow(s, pages), a) == Uses(s, a) + Inside(Region(s.heapEnd + PAGE, pages), a)
  {
    var s' := Grow(s, pages);
    forall a: nat ensures Uses(s', a) == Uses(s, a) + Inside(Region(s.heapEnd + PAGE, pages), a) <= 1 {
      assert s'.free[1..] == s.free;
      if s.heapEnd <= a {
        TimesBeyond(s.free, s.heapEnd, a);
        TimesBeyond(s.lent, s.heapEnd, a);
      }
    }
  }

  lemma ReadyKeeps(s: State, pages: nat)
    requires Good(s) && 0 < pages
    ensures Good(Ready(s, pages))
  {
    if FirstFit(s.free, pages) == |s.free| { GrowKeeps(s, pages); }
  }

  lemma GiveBackKeeps(s: State, i: nat)
    requires Good(s) && i < |s.lent|
    ensures Good(GiveBack(s, i)) && Conserves(s, GiveBack(s, i))
  {
    var s' := GiveBack(s, i);
    forall a: nat ensures Uses(s', a) == Uses(s, a) {
      TimesWithout(s.lent, i, a);
      assert s'.free[1..] == s.free;
    }
  }

  lemma LendKeeps(s: State, i: nat, pages: nat)
    requires Good(s) && i < |s.free| && 0 < pages
    requires s.free[i].pages == pages || s.free[i].pages == 2 * pages
    ensures Good(Lend(s, i, pages))
  {
    LendConservesIff(s, i, pages);
  }

  /** An allocation keeps all regions apart and conserves memory if and only if it
      is even; and it always finds a region, so the abort is never reached. */
  lemma AllocSafeIff(s: State, pages: nat)
    requires Good(s) && 0 < pages
    ensures Good(Alloc(s, pages)) && Conserves(Ready(s, pages), Alloc(s, pages)) <==> Even(s, pages)
  {
    ReadyKeeps(s, pages);
    var s1 := Ready(s, pages);
    var i := FirstFit(s1.free, pages);
    LendConservesIff(s1, i, pages);
    if Even(s, pages) { LendKeeps(s1, i, pages); }
  }

  // ----------------------------------------------------------------------- runs

  datatype Op = Take(pages: nat) | Return(which: nat)

  predicate Legal(s: State, op: Op) {
    match op
    case Take(pages) => 0 < pages
    case Return(i) => i < |s.lent|
  }

  function Step(s: State, op: Op): State
    requires Legal(s, op)
  {
    match op
    case Take(pages) => Alloc(s, pages)
    case Return(i) => GiveBack(s, i)
  }

  predicate LegalRun(s: State, ops: seq<Op>)
    decreases |ops|
  {
    ops == [] || (Legal(s, ops[0]) && LegalRun(Step(s, ops[0]), ops[1..]))
  }

  function Run(s: State, ops: seq<Op>): State
    requires LegalRun(s, ops)
    decreases |ops|
  {
    if ops == [] then s else Run(Step(s, ops[0]), ops[1..])
  }

  /** Every allocation of the run splits evenly, where it splits. */
  predicate EvenRun(s: State, ops: seq<Op>)
    requires LegalRun(s, ops)
    decreases |ops|
  {
    ops == [] || ((ops[0].Take? ==> Even(s, ops[0].pages)) && EvenRun(Step(s, ops[0]), ops[1..]))
  }

  /** Every state of the run is good, and every step conserves memory but for what
      growth adds. */
  ghost predicate SafeRun(s: State, ops: seq<Op>)
    requires LegalRun(s, ops)
    decreases |ops|
  {
    && Good(s)
    && (ops != [] ==>
          && Conserves(if ops[0].Take? then Ready(s, ops[0].pages) else s, Step(s, ops[0]))
          && SafeRun(Step(s, ops[0]), ops[1..]))
  }

  /** A run is safe throughout if and only if all its splits are even. */
  lemma {:induction false} RunSafeIff(s: State, ops: seq<Op>)
    requires Good(s) && LegalRun(s, ops)
    ensures SafeRun(s, ops) <==> EvenRun(s, ops)
    decreases |ops|
  {
    if ops != [] {
      var s' := Step(s, ops[0]);
      match ops[0] {
        case Take(pages) => AllocSafeIff(s, pages);
        case Return(i) => GiveBackKeeps(s, i);
      }
      if Good(s') {
        RunSafeIff(s', ops[1..]);
      } else {
        assert !EvenRun(s, ops) && !SafeRun(s, ops);
      }
    }
  }

  /** Region sizes a heap of 16-page requests can have. */
  predicate Sizes(s: State) {
    && (forall i :: 0 <= i < |s.free| ==> s.free[i].pages == 16 || s.free[i].pages == 32)
    && (forall i :: 0 <= i < |s.lent| ==> s.lent[i].pages == 16)
  }

  lemma {:induction false} SixteenIsEven(s: State, ops: seq<Op>)
    requires Sizes(s) && LegalRun(s, ops)
    requires forall i :: 0 <= i < |ops| && ops[i].Take? ==> ops[i].pages == 16
    ensures EvenRun(s, ops) && Sizes(Run(s, ops))
    decreases |ops|
  {
    if ops != [] {
      SixteenIsEven(Step(s, ops[0]), ops[1..]);
    }
  }

  /** The state setup_allocator leaves: one region of 32 pages up to the heap end. */
  function Boot(heapStart: nat): State {
    State([Region(heapStart, 32)], [], heapStart + 0x20000)
  }

  /** Runs whose requests are all the 16-page minimum are safe as written. */
  lemma {:induction false} MinimumRunsAreSafe(heapStart: nat, ops: seq<Op>)
    requires LegalRun(Boot(heapStart), ops)
    requires forall i :: 0 <= i < |ops| && ops[i].Take? ==> ops[i].pages == 16
    ensures SafeRun(Boot(heapStart), ops)
  {
    var s := Boot(heapStart);
    forall a: nat ensures Uses(s, a) <= 1 {
      assert Times(s.free, a) == Inside(s.free[0], a) + Times(s.free[1..], a);
    }
    SixteenIsEven(s, ops);
    RunSafeIff(s, ops);
  }

  /** One larger request is enough to break it: 20 pages out of the boot region
      leave a remainder that overlaps the loan. */
  lemma UnevenSplitOverlaps(heapStart: nat)
    ensures Good(Boot(heapStart)) && !Good(Alloc(Boot(heapStart), 20))
  {
    var s := Boot(heapStart);
    forall a: nat ensures Uses(s, a) <= 1 {
      assert Times(s.free, a) == Inside(s.free[0], a) + Times(s.free[1..], a);
    }
    var a := heapStart + 12 * PAGE;
    LendUses(s, 0, 20, a);
    assert Times(s.free, a) == Inside(s.free[0], a) + Times(s.free[1..], a);
    assert Uses(Alloc(s, 20), a) == 2;
  }
}
