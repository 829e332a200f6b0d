/**
 The boot-time frame allocator (lethe-kernel/memory/initial_frame_allocator.c):
 a bump pointer through the usable entries of the boot loader's memory map.
 Frames are named by frame number, that is, physical address over 4096.
 */
module Frames {

  const FRAME_SIZE: nat := 4096
  const USABLE: nat := 0
  const KERNEL_USED: nat := 0xA9
  /** Physical addresses have 52 bits, so frame numbers have 40. */
  const MAX_FRAME: nat := 0x100_0000_0000

  datatype Entry = Entry(base: nat, length: nat, kind: nat)

  datatype Bump = Bump(start: bool, base: nat, length: nat)

  datatype Frame = Panic | Got(addr: nat)

  predicate Paged(base: nat, length: nat) {
    && base % FRAME_SIZE == 0 && length % FRAME_SIZE == 0
    && base + length <= MAX_FRAME * FRAME_SIZE
    && (base == 0 ==> FRAME_SIZE <= length)
  }

  predicate Within(f: nat, base: nat, length: nat) {
    base <= f * FRAME_SIZE < base + length
  }

  /** Entry e offers frame f. */
  predicate Offers(e: Entry, f: nat) {
    e.kind == USABLE && Within(f, e.base, e.length)
  }

  ghost predicate MapOk(es: seq<Entry>) {
    && (forall i :: 0 <= i < |es| && es[i].kind == USABLE ==> Paged(es[i].base, es[i].length))
    && (forall i, j, f :: 0 <= i < j < |es| && Offers(es[i], f) ==> !Offers(es[j], f))
  }

  /** Some usable entry holds frame f. */
  ghost predicate InMap(es: seq<Entry>, f: nat) {
    exists i :: 0 <= i < |es| && Offers(es[i], f)
  }

  /** The frames still to be handed out: of the current span and of the entries
      not yet entered, never frame 0. */
  ghost predicate Left(es: seq<Entry>, next: Bump, f: nat) {
    && 0 < f < MAX_FRAME
    && (Within(f, next.base, next.length) || InMap(es, f))
  }

  ghost function LeftSet(es: seq<Entry>, next: Bump): set<nat> {
    set f | 0 < f < MAX_FRAME && Left(es, next, f)
  }

  function UsableEntries(es: seq<Entry>): set<nat> {
    set i | 0 <= i < |es| && es[i].kind == USABLE
  }

  ghost predicate Sound(es: seq<Entry>, next: Bump) {
    && MapOk(es)
    && (if next.start then next.base == next.length == 0 else Paged(next.base, next.length))
    && (forall i, f :: 0 <= i < |es| && Offers(es[i], f) ==> !Within(f, next.base, next.length))
  }

  /** Entering usable entry i once the span is spent changes no claim. */
  lemma EnterKeeps(es: seq<Entry>, next: Bump, i: nat)
    requires Sound(es, next) && i < |es| && es[i].kind == USABLE && next.length == 0
    ensures var es' := es[i := es[i].(kind := KERNEL_USED)];
            var next' := Bump(false, es[i].base, es[i].length);
            Sound(es', next') && LeftSet(es', next') == LeftSet(es, next)
  {
    var es' := es[i := es[i].(kind := KERNEL_USED)];
    var next' := Bump(false, es[i].base, es[i].length);
    forall f | 0 < f < MAX_FRAME ensures Left(es', next', f) <==> Left(es, next, f) {
      if Left(es, next, f) && !Within(f, next'.base, next'.length) {
        var j :| 0 <= j < |es| && Offers(es[j], f);
        assert Offers(es'[j], f);
      }
      if Left(es', next', f) {
        if Within(f, next'.base, next'.length) {
          assert Offers(es[i], f);
        } else {
          var j :| 0 <= j < |es'| && Offers(es'[j], f);
          assert Offers(es[j], f);
        }
      }
    }
    forall j, f | 0 <= j < |es'| && Offers(es'[j], f) ensures !Within(f, next'.base, next'.length) {
      assert Offers(es[j], f);
      if Within(f, next'.base, next'.length) { assert Offers(es[i], f); }
    }
    forall j, k, f | 0 <= j < k < |es'| && Offers(es'[j], f) ensures !Offers(es'[k], f) {
      assert Offers(es[j], f);
    }
  }

  /** Dropping the first frame of the span takes exactly that frame away. */
  lemma BumpKeeps(es: seq<Entry>, next: Bump)
    requires Sound(es, next) && !next.start && FRAME_SIZE <= next.length
    ensures var next' := next.(base := next.base + FRAME_SIZE, length := next.length - FRAME_SIZE);
            Sound(es, next') && LeftSet(es, next') == LeftSet(es, next) - {next.base / FRAME_SIZE}
    ensures next.base != 0 ==> next.base / FRAME_SIZE in LeftSet(es, next)
  {
    var next' := next.(base := next.base + FRAME_SIZE, length := next.length - FRAME_SIZE);
    var g := next.base / FRAME_SIZE;
    assert next.base == g * FRAME_SIZE;
    forall f: nat ensures Within(f, next.base, next.length) <==> f == g || Within(f, next'.base, next'.length) {
    }
    assert !Within(g, next'.base, next'.length) && Within(g, next.base, next.length);
    assert forall i :: 0 <= i < |es| ==> !Offers(es[i], g);
    forall f | 0 < f < MAX_FRAME ensures Left(es, next', f) <==> Left(es, next, f) && f != g {
    }
  }

  class FrameAllocator {
    const entries: array<Entry>
    var next: Bump
    /** Every frame handed out so far, in order, and all frames there were. */
    ghost var given: seq<nat>
    ghost const boot: set<nat>

    ghost function Remaining(): set<nat>
      reads this, entries
    {
      LeftSet(entries[..], next)
    }

    ghost predicate Valid()
      reads this, entries
    {
      && Sound(entries[..], next)
      && (forall i, j :: 0 <= i < j < |given| ==> given[i] != given[j])
      && (forall i :: 0 <= i < |given| ==> given[i] !in Remaining())
      && boot == Remaining() + (set f | f in given)
    }

    constructor (map': array<Entry>)
      requires MapOk(map'[..])
      ensures Valid() && entries == map' && next.start && given == []
      ensures forall f :: f in boot <==> 0 < f < MAX_FRAME && InMap(map'[..], f)
    {
      entries := map';
      next := Bump(true, 0, 0);
      given := [];
      boot := LeftSet(map'[..], Bump(true, 0, 0));
    }

    /** next_usable: false stands for its panic. */
    method NextUsable() returns (ok: bool)
      requires Valid() && next.length == 0
      modifies this`next, entries
      ensures Valid() && Remaining() == old(Remaining()) && given == old(given)
      ensures ok <==> old(UsableEntries(entries[..])) != {}
      ensures ok ==> !next.start && UsableEntries(entries[..]) < old(UsableEntries(entries[..]))
      ensures !ok ==> next == old(next) && entries[..] == old(entries[..])
    {
      ghost var es := entries[..];
      var i := 0;
      while i < entries.Length
        invariant 0 <= i <= entries.Length && entries[..] == es && next == old(next)
        invariant forall j :: 0 <= j < i ==> es[j].kind != USABLE
      {
        if entries[i].kind == USABLE {
          EnterKeeps(es, next, i);
          entries[i] := entries[i].(kind := KERNEL_USED);
          assert entries[..] == es[i := es[i].(kind := KERNEL_USED)];
          next := Bump(false, entries[i].base, entries[i].length);
          assert i in UsableEntries(es) && i !in UsableEntries(entries[..]);
          return true;
        }
        i := i + 1;
      }
      ok := false;
    }

    /** init_frame_allocator: false stands for the panic of next_usable. */
    method Init() returns (ok: bool)
      requires Valid() && next.start
      modifies this`next, entries
      ensures Valid() && Remaining() == old(Remaining()) && given == old(given)
      ensures ok <==> old(UsableEntries(entries[..])) != {}
      ensures ok ==> !next.start
    {
      ok := NextUsable();
    }

    /** allocate_frame.  It hands out some frame that is left, and panics only
        when none is; before Init it answers 0. */
    method AllocateFrame() returns (r: Frame)
      requires Valid()
      modifies this`next, this`given, entries
      ensures Valid() && next.start == old(next.start)
      ensures old(next.start) ==> r == Got(0) && Remaining() == old(Remaining()) && given == old(given)
      ensures !old(next.start) ==> (r.Panic? <==> old(Remaining()) == {})
      ensures r.Panic? ==> Remaining() == old(Remaining()) && given == old(given)
      ensures !old(next.start) && r.Got? ==>
                && r.addr % FRAME_SIZE == 0 && 0 < r.addr < MAX_FRAME * FRAME_SIZE
                && r.addr / FRAME_SIZE in old(Remaining())
                && Remaining() == old(Remaining()) - {r.addr / FRAME_SIZE}
                && given == old(given) + [r.addr / FRAME_SIZE]
      decreases UsableEntries(entries[..])
    {
      if next.start { return Got(0); }
      if next.base == 0 {
        BumpKeeps(entries[..], next);
        next := next.(base := next.base + 4096, length := next.length - 4096);
      }
      if next.length < 4096 {
        ghost var left := Remaining();
        var ok := NextUsable();
        if !ok {
          NothingLeft(entries[..], next);
          return Panic;
        }
        r := AllocateFrame();
        return;
      }
      var addr := next.base;
      BumpKeeps(entries[..], next);
      next := next.(base := next.base + 4096, length := next.length - 4096);
      assert forall f :: f in given + [addr / FRAME_SIZE] <==> f in given || f == addr / FRAME_SIZE;
      given := given + [addr / FRAME_SIZE];
      r := Got(addr);
    }
  }

  lemma NothingLeft(es: seq<Entry>, next: Bump)
    requires UsableEntries(es) == {} && next.length == 0
    ensures LeftSet(es, next) == {}
  {
    forall f | 0 < f < MAX_FRAME ensures !Left(es, next, f) {
      forall i | 0 <= i < |es| ensures !Offers(es[i], f) {
        assert i !in UsableEntries(es);
      }
    }
  }
}
