/**
 Searching the PCI devices (lethe-kernel/pci/pci.c).  Devices form chains through
 `next`, and each device has a chain of functions; new ones go to the front.
 */
module Pci {
  import opened Wrappers
  import opened Bits

  /** A chain of devices; `id` stands for the address of a device. */
  datatype Chain = Nil | Dev(id: nat, registers: seq<nat>, functions: Chain, next: Chain)

  // ------------------------------------------------------------------ what matches

  /** register & 0xFFFF0000 == value, for 32-bit registers. */
  predicate Matches(registers: seq<nat>, value: nat) {
    |registers| > 2 && registers[2] / 65536 * 65536 == value
  }

  /** The devices and functions that match, each device before its functions and
      those before the next device. */
  function Found(c: Chain, value: nat): seq<nat> {
    match c
    case Nil => []
    case Dev(id, registers, functions, next) =>
      (if Matches(registers, value) then [id] else []) + (Found(functions, value) + Found(next, value))
  }

  function FoundOn(buses: seq<Chain>, value: nat): seq<nat> {
    if buses == [] then [] else Found(buses[0], value) + FoundOn(buses[1..], value)
  }

  /** Descriptors have registers. */
  predicate Described(c: Chain) {
    match c
    case Nil => true
    case Dev(_, registers, functions, next) => |registers| > 2 && Described(functions) && Described(next)
  }

  // -------------------------------------------------------------------- the search

  /** Entry k of s, and what is left of k behind s. */
  predicate Picks(s: seq<nat>, k: nat, r: Option<nat>, left: nat) {
    if k < |s| then r == Some(s[k]) && left == 0 else r == None && left == k - |s|
  }

  /** Picking from a list is picking from its parts one after the other. */
  lemma PicksConcat(a: seq<nat>, b: seq<nat>, k: nat, ra: Option<nat>, ka: nat, r: Option<nat>, left: nat)
    requires Picks(a, k, ra, ka) && (if ra.Some? then r == ra && left == ka else Picks(b, ka, r, left))
    ensures Picks(a + b, k, r, left)
  {
  }

  /** (*skip_count)--, which wraps at 0. */
  function Less(k: nat): nat {
    if k == 0 then 0xFFFF_FFFF else k - 1
  }

  /** search_bus_for_match: the skip count goes in and comes out.  It is 0 whenever
      something was found, so the second test never falls through. */
  method SearchBus(c: Chain, value: nat, skip: nat) returns (r: Option<nat>, left: nat)
    requires Described(c)
    ensures Picks(Found(c, value), skip, r, left)
    decreases c
  {
    match c {
      case Nil => return None, skip;
      case Dev(id, registers, functions, next) =>
        ghost var own, fs, ns := if Matches(registers, value) then [id] else [], Found(functions, value), Found(next, value);
        r, left := None, skip;
        if registers[2] / 65536 * 65536 == value {
          if left == 0 { r := Some(id); } else { left := left - 1; }
        }
        ghost var r1, k1 := r, left;
        if r.None? {
          ghost var r2, k2;
          r, left := SearchBus(functions, value, left);
          r2, k2 := r, left;
          var search := true;
          if r.Some? {
            if left == 0 { search := false; } else { left := Less(left); }
          }
          if search { r, left := SearchBus(next, value, left); }
          PicksConcat(fs, ns, k1, r2, k2, r, left);
        }
        PicksConcat(own, fs + ns, skip, r1, k1, r, left);
    }
  }

  /** search_for_match: one bus after the other, with the same skip count. */
  method SearchBuses(buses: seq<Chain>, value: nat, skip: nat) returns (r: Option<nat>, left: nat)
    requires forall i :: 0 <= i < |buses| ==> Described(buses[i])
    ensures Picks(FoundOn(buses, value), skip, r, left)
    decreases |buses|
  {
    if buses == [] { return None, skip; }
    r, left := SearchBus(buses[0], value, skip);
    ghost var r1, k1 := r, left;
    if r.None? { r, left := SearchBuses(buses[1..], value, left); }
    PicksConcat(Found(buses[0], value), FoundOn(buses[1..], value), skip, r1, k1, r, left);
  }

  /** The value that is looked for: class << 24 | sub_class << 16, in 32 bits. */
  function ClassValue(class_: nat, subClass: nat): nat {
    Or(class_ * 0x100_0000 % 0x1_0000_0000, subClass * 0x1_0000 % 0x1_0000_0000)
  }

  /** locate_pci_device: match number `skip`, counted from zero, and NULL just when
      there are no more than `skip`. */
  method Locate(buses: seq<Chain>, class_: nat, subClass: nat, skip: nat) returns (r: Option<nat>)
    requires forall i :: 0 <= i < |buses| ==> Described(buses[i])
    ensures var found := FoundOn(buses, ClassValue(class_, subClass));
            r == if skip < |found| then Some(found[skip]) else None
  {
    var left;
    r, left := SearchBuses(buses, ClassValue(class_, subClass), skip);
  }

  // ---------------------------------------------------------------- new devices

  /** new_device. */
  function AddDevice(c: Chain, id: nat, registers: seq<nat>): Chain {
    Dev(id, registers, Nil, c)
  }

  predicate Has(c: Chain, device: nat) {
    c.Dev? && (c.id == device || Has(c.functions, device) || Has(c.next, device))
  }

  /** new_function. */
  function AddFunction(c: Chain, device: nat, id: nat, registers: seq<nat>): Chain {
    if c.Nil? then Nil
    else if c.id == device then c.(functions := Dev(id, registers, Nil, c.functions))
    else if Has(c.functions, device) then c.(functions := AddFunction(c.functions, device, id, registers))
    else c.(next := AddFunction(c.next, device, id, registers))
  }

  /** The devices from a given one on, without it, in the order of the search. */
  function All(c: Chain): seq<(nat, seq<nat>)> {
    match c
    case Nil => []
    case Dev(id, registers, functions, next) => [(id, registers)] + (All(functions) + All(next))
  }

  function InsertAfter(s: seq<(nat, seq<nat>)>, device: nat, x: (nat, seq<nat>)): seq<(nat, seq<nat>)> {
    if s == [] then [] else if s[0].0 == device then [s[0], x] + s[1..] else [s[0]] + InsertAfter(s[1..], device, x)
  }

  predicate Listed(s: seq<(nat, seq<nat>)>, device: nat) {
    exists i :: 0 <= i < |s| && s[i].0 == device
  }

  function Selected(s: seq<(nat, seq<nat>)>, value: nat): seq<nat> {
    if s == [] then [] else (if Matches(s[0].1, value) then [s[0].0] else []) + Selected(s[1..], value)
  }

  lemma ConcatTwice(a: seq<nat>, b: seq<nat>, c: seq<nat>)
    ensures a + (b + c) == (a + b) + c
  {
  }

  lemma {:induction false} SelectedConcat(s: seq<(nat, seq<nat>)>, t: seq<(nat, seq<nat>)>, value: nat)
    ensures Selected(s + t, value) == Selected(s, value) + Selected(t, value)
  {
    if s == [] {
      assert s + t == t;
    } else {
      assert (s + t)[1..] == s[1..] + t;
      SelectedConcat(s[1..], t, value);
      var head := if Matches(s[0].1, value) then [s[0].0] else [];
      ConcatTwice(head, Selected(s[1..], value), Selected(t, value));
    }
  }

  /** What the search finds is the matching part of the list of all devices. */
  lemma {:induction false} FoundIsSelected(c: Chain, value: nat)
    ensures Found(c, value) == Selected(All(c), value)
  {
    if c.Dev? {
      FoundIsSelected(c.functions, value);
      FoundIsSelected(c.next, value);
      SelectedConcat(All(c.functions), All(c.next), value);
      assert All(c)[1..] == All(c.functions) + All(c.next);
    }
  }

  lemma {:induction false} InsertConcat(s: seq<(nat, seq<nat>)>, t: seq<(nat, seq<nat>)>, device: nat, x: (nat, seq<nat>), inLeft: bool)
    requires inLeft == Listed(s, device)
    ensures InsertAfter(s + t, device, x) == if inLeft then InsertAfter(s, device, x) + t else s + InsertAfter(t, device, x)
  {
    if s == [] {
      assert s + t == t;
      assert s + InsertAfter(t, device, x) == InsertAfter(t, device, x);
    } else {
      assert (s + t)[1..] == s[1..] + t;
      if s[0].0 == device {
        assert [s[0], x] + (s[1..] + t) == ([s[0], x] + s[1..]) + t;
      } else {
        var rest := s[1..];
        assert inLeft ==> Listed(rest, device) by {
          if i :| 0 <= i < |s| && s[i].0 == device { assert rest[i - 1].0 == device; }
        }
        if i :| 0 <= i < |rest| && rest[i].0 == device { assert s[i + 1].0 == device; }
        InsertConcat(rest, t, device, x, inLeft);
        assert [s[0]] + rest == s;
      }
    }
  }

  lemma {:induction false} HasListed(c: Chain, device: nat)
    ensures Has(c, device) <==> Listed(All(c), device)
  {
    if c.Dev? {
      HasListed(c.functions, device);
      HasListed(c.next, device);
      var fs, ns := All(c.functions), All(c.next);
      var all := All(c);
      if i :| 0 <= i < |fs| && fs[i].0 == device { assert all[i + 1].0 == device; }
      if i :| 0 <= i < |ns| && ns[i].0 == device { assert all[i + 1 + |fs|].0 == device; }
      if c.id == device { assert all[0].0 == device; }
      if i :| 0 <= i < |all| && all[i].0 == device {
        if 0 < i <= |fs| { assert fs[i - 1].0 == device; }
        if i > |fs| { assert ns[i - 1 - |fs|].0 == device; }
      }
    }
  }

  /** A new function comes right behind its device in the order of the search. */
  lemma {:induction false} FunctionFollowsDevice(c: Chain, device: nat, id: nat, registers: seq<nat>)
    ensures All(AddFunction(c, device, id, registers)) == InsertAfter(All(c), device, (id, registers))
  {
    if c.Dev? {
      var x, fs, ns := (id, registers), All(c.functions), All(c.next);
      assert All(c)[1..] == fs + ns;
      if c.id == device {
        assert All(Dev(id, registers, Nil, c.functions)) == [x] + ([] + fs);
        assert [All(c)[0]] + (([x] + ([] + fs)) + ns) == [All(c)[0], x] + (fs + ns);
      } else {
        HasListed(c.functions, device);
        InsertConcat(fs, ns, device, x, Has(c.functions, device));
        if Has(c.functions, device) {
          FunctionFollowsDevice(c.functions, device, id, registers);
        } else {
          FunctionFollowsDevice(c.next, device, id, registers);
        }
      }
    }
  }

  /** The device list of a bus. */
  class Bus {
    var devices: Chain

    /** new_device: it is searched first. */
    method NewDevice(id: nat, registers: seq<nat>)
      modifies this
      ensures All(devices) == [(id, registers)] + old(All(devices))
    {
      devices := AddDevice(devices, id, registers);
      assert [] + old(All(devices)) == old(All(devices));
    }

    /** new_function: it is searched right behind its device. */
    method NewFunction(device: nat, id: nat, registers: seq<nat>)
      modifies this
      ensures All(devices) == InsertAfter(old(All(devices)), device, (id, registers))
    {
      FunctionFollowsDevice(devices, device, id, registers);
      devices := AddFunction(devices, device, id, registers);
    }
  }

  // ------------------------------------------------------------------- addresses

  /** get_pci_device_address: the register, function, device and bus in their places
      (bits 2 to 7, 8 and up, 11 and up, 16 and up) and the enable bit. */
  function Address(bus: nat, device: nat, func: nat, register: nat): nat {
    Or(OnBus(bus, device, func, register), 0x8000_0000)
  }

  function OnBus(bus: nat, device: nat, func: nat, register: nat): nat {
    Or(InSlot(device, func, register), bus * 0x1_0000)
  }

  function InSlot(device: nat, func: nat, register: nat): nat {
    Or(InFunction(func, register), device * 0x800)
  }

  function InFunction(func: nat, register: nat): nat {
    Or(RegisterBits(register), func * 0x100)
  }

  function RegisterBits(register: nat): (r: nat)
    ensures r < 0x100 && (register < 64 ==> r == register * 4)
  {
    register % 64 * 4
  }

  /** Bits above all those of low are added to it. */
  lemma {:induction false} OrAbove(low: nat, q: nat, n: nat, p: nat, x: nat)
    requires p == Pow2(n) && low < p && x == q * p
    ensures Or(low, x) == low + x
  {
    OrDisjoint(low, q, n);
  }

  lemma InFunctionSum(func: nat, register: nat)
    requires func < 8 && register < 64
    ensures InFunction(func, register) == func * 0x100 + register * 4
  {
    Powers();
    var low, high := RegisterBits(register), func * 0x100;
    OrAbove(low, func, 8, 0x100, high);
  }

  lemma InSlotSum(device: nat, func: nat, register: nat)
    requires device < 32 && func < 8 && register < 64
    ensures InSlot(device, func, register) == device * 0x800 + func * 0x100 + register * 4
  {
    Powers();
    InFunctionSum(func, register);
    OrAbove(InFunction(func, register), device, 11, 0x800, device * 0x800);
  }

  lemma OnBusSum(bus: nat, device: nat, func: nat, register: nat)
    requires bus < 256 && device < 32 && func < 8 && register < 64
    ensures OnBus(bus, device, func, register) == bus * 0x1_0000 + device * 0x800 + func * 0x100 + register * 4
  {
    Powers();
    InSlotSum(device, func, register);
    OrAbove(InSlot(device, func, register), bus, 16, 0x1_0000, bus * 0x1_0000);
  }

  /** For numbers in range the fields do not meet. */
  lemma AddressSum(bus: nat, device: nat, func: nat, register: nat)
    requires bus < 256 && device < 32 && func < 8 && register < 64
    ensures Address(bus, device, func, register) ==
            0x8000_0000 + bus * 0x1_0000 + device * 0x800 + func * 0x100 + register * 4
  {
    Powers();
    OnBusSum(bus, device, func, register);
    OrAbove(OnBus(bus, device, func, register), 1, 31, 0x8000_0000, 0x8000_0000);
  }

  lemma Powers()
    ensures Pow2(8) == 0x100 && Pow2(11) == 0x800 && Pow2(16) == 0x1_0000 && Pow2(31) == 0x8000_0000
  {
    Pow2Sum(8, 8);
    Pow2Sum(16, 15);
    Pow2Sum(8, 7);
    Pow2Sum(8, 3);
  }

  /** So different functions and registers have different addresses. */
  lemma AddressesDiffer(b1: nat, d1: nat, f1: nat, r1: nat, b2: nat, d2: nat, f2: nat, r2: nat)
    requires b1 < 256 && d1 < 32 && f1 < 8 && r1 < 64 && b2 < 256 && d2 < 32 && f2 < 8 && r2 < 64
    requires Address(b1, d1, f1, r1) == Address(b2, d2, f2, r2)
    ensures b1 == b2 && d1 == d2 && f1 == f2 && r1 == r2
  {
    AddressSum(b1, d1, f1, r1);
    AddressSum(b2, d2, f2, r2);
  }
}
