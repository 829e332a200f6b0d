/**
 The hash map of lethe-utils/hashmap.c: open addressing with linear probing over
 4-byte keys, doubled at three quarters full.  There is no removal.
 */
module HashTable {
  import opened Wrappers
  import opened Fnv

  type Key = k: seq<Byte> | |k| == 4 witness [0, 0, 0, 0]

  datatype Slot<+V> = Empty | Full(key: Key, value: V)

  const INITIAL_CAPACITY: nat := 4
  const SIZE_WORD: nat := 0x1_0000_0000_0000_0000

  /** A hash function on keys.  Nothing below depends on which one it is. */
  type Hasher = Key -> nat

  function Home(h: Hasher, k: Key, cap: nat): (i: nat)
    requires 0 < cap
    ensures i < cap
  {
    h(k) % cap
  }

  /** The d-th slot a search from slot `home` looks at. */
  function At(home: nat, d: nat, cap: nat): (i: nat)
    requires home < cap && d < cap
    ensures i < cap
  {
    if home + d < cap then home + d else home + d - cap
  }

  /** The step of the probe loops. */
  lemma AtNext(home: nat, d: nat, cap: nat)
    requires home < cap && d + 1 < cap
    ensures (At(home, d, cap) + 1) % cap == At(home, d + 1, cap)
  {
    var i := At(home, d, cap) + 1;
    if i == cap { assert i % cap == 0; } else { assert i % cap == i; }
  }

  /** How far slot j is along a search from `home`. */
  function Distance(home: nat, j: nat, cap: nat): (d: nat)
    requires home < cap && j < cap
    ensures d < cap && At(home, d, cap) == j
    ensures forall e :: 0 <= e < cap && At(home, e, cap) == j ==> e == d
  {
    if home <= j then j - home else j + cap - home
  }

  /** Key k of the map is in the slot `pos` names, where a search will meet it. */
  ghost predicate KeyOk<V>(h: Hasher, t: seq<Slot<V>>, m: map<Key, V>, pos: map<Key, nat>, k: Key)
    requires k in m && k in pos
  {
    pos[k] < |t| && t[pos[k]] == Full(k, m[k]) && Settled(h, t, k, pos[k])
  }

  predicate SlotOk<V>(t: seq<Slot<V>>, pos: map<Key, nat>, j: nat)
    requires j < |t|
  {
    t[j].Full? ==> t[j].key in pos && pos[t[j].key] == j
  }

  /** The table stands for the map `m`; `pos` says where each key is. */
  ghost predicate Holds<V>(h: Hasher, t: seq<Slot<V>>, m: map<Key, V>, pos: map<Key, nat>) {
    && 0 < |t| && pos.Keys == m.Keys
    && (forall k {:trigger KeyOk(h, t, m, pos, k)} :: k in m ==> KeyOk(h, t, m, pos, k))
    && (forall j {:trigger SlotOk(t, pos, j)} :: 0 <= j < |t| ==> SlotOk(t, pos, j))
  }

  /** Every slot a search for k passes before slot j is taken. */
  ghost predicate Settled<V>(h: Hasher, t: seq<Slot<V>>, k: Key, j: nat)
    requires j < |t|
  {
    forall e :: 0 <= e < Distance(Home(h, k, |t|), j, |t|) ==> t[At(Home(h, k, |t|), e, |t|)].Full?
  }

  /** The first d slots on the way of k are taken by other keys. */
  ghost predicate Passed<V>(h: Hasher, t: seq<Slot<V>>, k: Key, d: nat)
    requires 0 < |t| && d <= |t|
  {
    forall e :: 0 <= e < d ==> t[At(Home(h, k, |t|), e, |t|)].Full? && t[At(Home(h, k, |t|), e, |t|)].key != k
  }

  /** A search for a key that is there meets no empty slot before it. */
  lemma PresentNotMissed<V>(h: Hasher, t: seq<Slot<V>>, m: map<Key, V>, pos: map<Key, nat>, k: Key, d: nat)
    requires Holds(h, t, m, pos) && d < |t| && Passed(h, t, k, d) && k in m
    ensures t[At(Home(h, k, |t|), d, |t|)].Full?
  {
    var home := Home(h, k, |t|);
    assert KeyOk(h, t, m, pos, k);
    var dk := Distance(home, pos[k], |t|);
    assert At(home, dk, |t|) == pos[k];
  }

  /** A search that meets an empty slot has shown the key absent. */
  lemma EmptyMeansAbsent<V>(h: Hasher, t: seq<Slot<V>>, m: map<Key, V>, pos: map<Key, nat>, k: Key, d: nat)
    requires Holds(h, t, m, pos) && d < |t| && Passed(h, t, k, d) && t[At(Home(h, k, |t|), d, |t|)].Empty?
    ensures k !in m
  {
    if k in m { PresentNotMissed(h, t, m, pos, k, d); }
  }

  /** Writing key k to the empty slot its search ended at. */
  lemma InsertHolds<V>(h: Hasher, t: seq<Slot<V>>, m: map<Key, V>, pos: map<Key, nat>, k: Key, v: V, d: nat)
    requires Holds(h, t, m, pos) && d < |t| && Passed(h, t, k, d) && t[At(Home(h, k, |t|), d, |t|)].Empty?
    ensures var i := At(Home(h, k, |t|), d, |t|);
            k !in m && Holds(h, t[i := Full(k, v)], m[k := v], pos[k := i])
  {
    EmptyMeansAbsent(h, t, m, pos, k, d);
    var i := At(Home(h, k, |t|), d, |t|);
    var t' := t[i := Full(k, v)];
    var pos' := pos[k := i];
    assert Distance(Home(h, k, |t|), i, |t|) == d;
    var m' := m[k := v];
    forall c | c in m' ensures KeyOk(h, t', m', pos', c) {
      if c != k { assert KeyOk(h, t, m, pos, c); }
    }
    forall j | 0 <= j < |t'| ensures SlotOk(t', pos', j) {
      assert SlotOk(t, pos, j);
    }
  }

  lemma UpdateHolds<V>(h: Hasher, t: seq<Slot<V>>, m: map<Key, V>, pos: map<Key, nat>, k: Key, v: V, i: nat)
    requires Holds(h, t, m, pos) && i < |t| && t[i].Full? && t[i].key == k
    ensures k in m && Holds(h, t[i := Full(k, v)], m[k := v], pos)
  {
    var t' := t[i := Full(k, v)];
    assert SlotOk(t, pos, i);
    var m' := m[k := v];
    forall c | c in m' ensures KeyOk(h, t', m', pos, c) {
      assert KeyOk(h, t, m, pos, c);
      if c != k { assert pos[c] != i; }
    }
    forall j | 0 <= j < |t'| ensures SlotOk(t', pos, j) {
      assert SlotOk(t, pos, j);
    }
  }

  // ------------------------------------------------------- room for one more

  function Below(n: nat): set<nat> {
    set j: nat {:trigger Is(j)} | j < n && Is(j)
  }

  predicate Is(j: nat) {
    true
  }

  lemma {:induction false} BelowSize(n: nat)
    ensures |Below(n)| == n
  {
    if n > 0 {
      BelowSize(n - 1);
      assert Is(n - 1) && Below(n) == Below(n - 1) + {n - 1};
    }
  }

  /** As many slots are taken as there are keys. */
  lemma {:induction false} CountSlots(keys: set<Key>, pos: map<Key, nat>, slots: set<nat>)
    requires keys <= pos.Keys && (forall k :: k in keys ==> pos[k] in slots)
    requires forall j :: j in slots ==> exists k :: k in keys && pos[k] == j
    requires forall k, c :: k in keys && c in keys && pos[k] == pos[c] ==> k == c
    ensures |keys| == |slots|
    decreases keys
  {
    if k :| k in keys {
      var rest := keys - {k};
      forall j | j in slots - {pos[k]} ensures exists c :: c in rest && pos[c] == j {
        var c :| c in keys && pos[c] == j;
        assert c in rest;
      }
      CountSlots(rest, pos, slots - {pos[k]});
    } else {
      assert keys == {} && slots == {};
    }
  }

  /** With fewer keys than slots, some slot is empty. */
  lemma SomeEmpty<V>(h: Hasher, t: seq<Slot<V>>, m: map<Key, V>, pos: map<Key, nat>)
    requires Holds(h, t, m, pos) && |m| < |t|
    ensures exists j :: 0 <= j < |t| && t[j].Empty?
  {
    if forall j :: 0 <= j < |t| ==> t[j].Full? {
      var slots := Below(|t|);
      forall j | j in slots ensures exists k :: k in m.Keys && pos[k] == j {
        assert SlotOk(t, pos, j);
        assert t[j].key in m.Keys && pos[t[j].key] == j;
      }
      forall k | k in m ensures pos[k] in slots && t[pos[k]].key == k {
        assert KeyOk(h, t, m, pos, k) && Is(pos[k]);
      }
      CountSlots(m.Keys, pos, slots);
      BelowSize(|t|);
    }
  }

  /** So a search that has passed d taken slots has fewer than all behind it. */
  lemma SearchEnds<V>(h: Hasher, t: seq<Slot<V>>, m: map<Key, V>, pos: map<Key, nat>, k: Key, d: nat)
    requires Holds(h, t, m, pos) && |m| < |t| && d <= |t| && Passed(h, t, k, d)
    ensures d < |t|
  {
    SomeEmpty(h, t, m, pos);
    var j :| 0 <= j < |t| && t[j].Empty?;
    var e := Distance(Home(h, k, |t|), j, |t|);
    assert At(Home(h, k, |t|), e, |t|) == j;
  }

  // ----------------------------------------------------------------- the class

  /** The probe loop shared by set_entry and hm_get: the slot of the key, or the
      empty slot that shows it absent. */
  method Probe<V>(h: Hasher, entries: array<Slot<V>>, key: Key, ghost m: map<Key, V>, ghost pos: map<Key, nat>)
    returns (index: nat, ghost d: nat)
    requires Holds(h, entries[..], m, pos) && |m| < entries.Length
    ensures index < entries.Length && d < entries.Length && index == At(Home(h, key, entries.Length), d, entries.Length)
    ensures Passed(h, entries[..], key, d)
    ensures entries[index].Full? ==> entries[index].key == key
  {
    ghost var t := entries[..];
    index := h(key) % entries.Length;
    d := 0;
    while entries[index].Full?
      invariant d < entries.Length && index == At(Home(h, key, entries.Length), d, entries.Length)
      invariant Passed(h, t, key, d)
      decreases entries.Length - d
    {
      if entries[index].key == key { return; }
      assert Passed(h, t, key, d + 1);
      SearchEnds(h, t, m, pos, key, d + 1);
      AtNext(Home(h, key, entries.Length), d, entries.Length);
      index := (index + 1) % entries.Length;
      d := d + 1;
    }
  }

  /** set_entry.  `copy` tells whether a new key is duplicated (plength given) and
      `room` whether that duplication finds memory. */
  method SetEntry<V>(h: Hasher, entries: array<Slot<V>>, key: Key, value: V, copy: bool, room: bool,
                     ghost m: map<Key, V>, ghost pos: map<Key, nat>)
    returns (done: bool, added: bool, ghost pos': map<Key, nat>)
    requires Holds(h, entries[..], m, pos) && |m| < entries.Length
    modifies entries
    ensures done <==> key in m || !copy || room
    ensures done ==> Holds(h, entries[..], m[key := value], pos') && (added <==> key !in m)
    ensures !done ==> !added && entries[..] == old(entries[..])
  {
    var index;
    ghost var d;
    ghost var t := entries[..];
    index, d := Probe(h, entries, key, m, pos);
    pos' := pos;
    if entries[index].Full? {
      UpdateHolds(h, t, m, pos, key, value, index);
      entries[index] := Full(key, value);
      assert entries[..] == t[index := Full(key, value)];
      return true, false, pos';
    }
    InsertHolds(h, t, m, pos, key, value, d);
    if copy && !room { return false, false, pos'; }
    entries[index] := Full(key, value);
    assert entries[..] == t[index := Full(key, value)];
    pos' := pos[key := index];
    done, added := true, true;
  }

  class HashMap<V> {
    const hash: Hasher
    var entries: array<Slot<V>>
    var count: nat
    ghost var model: map<Key, V>
    ghost var pos: map<Key, nat>

    /** The table stands for `model`, holds as many keys as it counts, and is at
        most three quarters full. */
    ghost predicate Valid()
      reads this, entries
    {
      && Holds(hash, entries[..], model, pos) && count == |model|
      && INITIAL_CAPACITY <= entries.Length < SIZE_WORD && entries.Length % 4 == 0 && 4 * count <= 3 * entries.Length
    }

    /** hm_create, when memory is found. */
    constructor (h: Hasher)
      ensures Valid() && model == map[] && fresh(entries) && hash == h
    {
      hash := h;
      entries := new Slot<V>[4](_ => Empty);
      count, model, pos := 0, map[], map[];
    }

    /** hm_get. */
    method Get(key: Key) returns (r: Option<V>)
      requires Valid()
      ensures r == if key in model then Some(model[key]) else None
    {
      var index;
      ghost var d;
      index, d := Probe(hash, entries, key, model, pos);
      if entries[index].Full? {
        assert SlotOk(entries[..], pos, index) && KeyOk(hash, entries[..], model, pos, key);
        return Some(entries[index].value);
      }
      EmptyMeansAbsent(hash, entries[..], model, pos, key, d);
      r := None;
    }

    /** hm_expand: the same map in a table of twice the size.  `room` says whether
        the new table can be allocated. */
    method Expand(room: bool) returns (ok: bool)
      requires Valid()
      modifies this
      ensures Valid() && model == old(model) && count == old(count)
      ensures ok <==> 2 * old(entries).Length < SIZE_WORD && room
      ensures ok ==> fresh(entries) && entries.Length == 2 * old(entries).Length
      ensures !ok ==> entries == old(entries)
    {
      var capacity := Double(entries.Length);
      if capacity < entries.Length { return false; }
      if !room { return false; }
      var bigger := new Slot<V>[capacity](_ => Empty);
      ghost var where := Rehash(hash, entries, bigger, model, pos);
      entries, pos := bigger, where;
      ok := true;
    }

    /** hm_set; `room` and `copyRoom` say whether memory is found for a larger table
        and for a copy of a new key.  On failure the map is as it was. */
    method Set(key: Key, value: V, room: bool, copyRoom: bool) returns (ok: bool)
      requires Valid()
      modifies this, entries
      ensures Valid() && (entries == old(entries) || fresh(entries))
      ensures ok ==> model == old(model)[key := value]
      ensures !ok ==> model == old(model)
      ensures ok <==> (4 * old(count) >= 3 * old(entries.Length) ==> room && 2 * old(entries.Length) < SIZE_WORD)
                      && (key in old(model) || copyRoom)
    {
      if 4 * count >= 3 * entries.Length {
        ok := Expand(room);
        if !ok { return; }
      }
      ok := Put(key, value, copyRoom);
    }

    /** The end of hm_set, with room in the table. */
    method Put(key: Key, value: V, copyRoom: bool) returns (ok: bool)
      requires Valid() && 4 * count < 3 * entries.Length
      modifies this`count, this`model, this`pos, entries
      ensures Valid() && (ok <==> key in old(model) || copyRoom)
      ensures model == if ok then old(model)[key := value] else old(model)
    {
      var added;
      ghost var where;
      ok, added, where := SetEntry(hash, entries, key, value, true, copyRoom, model, pos);
      SizeAfter(model, key, value);
      if ok {
        if added { count := count + 1; }
        model, pos := model[key := value], where;
      }
    }

    /** hm_next from slot `index` on: the next taken slot, and where to go on. */
    method Next(index: nat) returns (found: bool, item: Slot<V>, after: nat)
      requires Valid() && index <= entries.Length
      ensures NextSlot(entries[..], index, found, item, after)
    {
      after := index;
      while after < entries.Length
        invariant index <= after <= entries.Length
        invariant forall j :: index <= j < after ==> entries[j].Empty?
      {
        var i := after;
        after := after + 1;
        if entries[i].Full? { return true, entries[i], after; }
      }
      found, item := false, Empty;
    }

    /** hm_foreach, collecting what it visits: each binding exactly once. */
    method Foreach() returns (items: seq<Slot<V>>)
      requires Valid()
      ensures Lists(items, model)
    {
      ghost var t := entries[..];
      ghost var seen: map<Key, V> := map[];
      items := [];
      var found, item, index := Next(0);
      ghost var upto := if found then index - 1 else index;
      PrefixSkip(t, model, seen, 0, upto);
      while found
        invariant upto <= |t| && index <= |t| && upto == if found then index - 1 else |t|
        invariant found ==> item.Full? && item == t[upto]
        invariant Prefix(t, model, seen, upto) && Lists(items, seen)
        decreases entries.Length - index, found
      {
        var was := item;
        found, item, index := Next(index);
        ghost var next := if found then index - 1 else index;
        VisitSlot(hash, t, model, pos, items, seen, upto, next);
        items := items + [was];
        seen := seen[was.key := was.value];
        upto := next;
      }
      PrefixAll(hash, t, model, pos, seen);
    }
  }

  /** What hm_next finds from slot i on. */
  ghost predicate NextSlot<V>(t: seq<Slot<V>>, i: nat, found: bool, item: Slot<V>, after: nat) {
    && i <= after <= |t|
    && (if found then i < after && item.Full? && item == t[after - 1] else after == |t|)
    && forall j :: i <= j < (if found then after - 1 else after) ==> t[j].Empty?
  }

  /** hm_create as the kernel uses it: keys are hashed by FNV-1a. */
  method HmCreate<V>() returns (map': HashMap<V>)
    ensures map'.Valid() && map'.model == map[] && fresh(map') && fresh(map'.entries)
    ensures forall k: Key :: map'.hash(k) == Hash(k)
  {
    map' := new HashMap<V>((k: Key) => Hash(k));
  }

  /** Twice a size_t, wrapping. */
  function Double(n: nat): nat
    requires n < SIZE_WORD
  {
    if 2 * n < SIZE_WORD then 2 * n else 2 * n - SIZE_WORD
  }

  /** The sequence holds every binding of the map exactly once. */
  ghost predicate Lists<V>(items: seq<Slot<V>>, m: map<Key, V>) {
    && (forall i :: 0 <= i < |items| ==> items[i].Full? && items[i].key in m && m[items[i].key] == items[i].value)
    && (forall i, j :: 0 <= i < j < |items| ==> items[i].key != items[j].key)
    && (forall k :: k in m ==> exists i :: 0 <= i < |items| && items[i].key == k)
    && |items| == |m|
  }

  lemma SizeAfter<V>(m: map<Key, V>, k: Key, v: V)
    ensures |m[k := v]| == |m| + if k in m then 0 else 1
  {
    assert m[k := v].Keys == m.Keys + {k};
  }

  lemma PrefixSkip<V>(t: seq<Slot<V>>, m: map<Key, V>, seen: map<Key, V>, i: nat, j: nat)
    requires i <= j <= |t| && Prefix(t, m, seen, i) && forall e :: i <= e < j ==> t[e].Empty?
    ensures Prefix(t, m, seen, j)
  {
  }

  lemma ListsAppend<V>(items: seq<Slot<V>>, m: map<Key, V>, s: Slot<V>)
    requires Lists(items, m) && s.Full? && s.key !in m
    ensures Lists(items + [s], m[s.key := s.value])
  {
    SizeAfter(m, s.key, s.value);
    var items', m' := items + [s], m[s.key := s.value];
    forall c | c in m' ensures exists e :: 0 <= e < |items'| && items'[e].key == c {
      if c == s.key {
        assert items'[|items|].key == c;
      } else {
        var e :| 0 <= e < |items| && items[e].key == c;
        assert items'[e].key == c;
      }
    }
  }

  lemma NotSeenYet<V>(h: Hasher, t: seq<Slot<V>>, m: map<Key, V>, pos: map<Key, nat>, seen: map<Key, V>, i: nat)
    requires Holds(h, t, m, pos) && i < |t| && Prefix(t, m, seen, i) && t[i].Full?
    ensures t[i].key !in seen
  {
    assert SlotOk(t, pos, i);
    forall j | 0 <= j < i ensures t[j].Full? ==> t[j].key != t[i].key {
      assert SlotOk(t, pos, j);
    }
  }

  /** Taking slot i, and passing over empty slots up to j. */
  lemma VisitSlot<V>(h: Hasher, t: seq<Slot<V>>, m: map<Key, V>, pos: map<Key, nat>, items: seq<Slot<V>>, seen: map<Key, V>, i: nat, j: nat)
    requires Holds(h, t, m, pos) && i < j <= |t| && Prefix(t, m, seen, i) && t[i].Full? && Lists(items, seen)
    requires forall e :: i < e < j ==> t[e].Empty?
    ensures Lists(items + [t[i]], seen[t[i].key := t[i].value])
    ensures Prefix(t, m, seen[t[i].key := t[i].value], j)
  {
    NotSeenYet(h, t, m, pos, seen, i);
    ListsAppend(items, seen, t[i]);
    PrefixNext(h, t, m, pos, seen, i);
    PrefixSkip(t, m, seen[t[i].key := t[i].value], i + 1, j);
  }

  /** The copying loop of hm_expand, into an empty table at least twice as large. */
  method Rehash<V>(h: Hasher, entries: array<Slot<V>>, bigger: array<Slot<V>>, ghost m: map<Key, V>, ghost pos: map<Key, nat>)
    returns (ghost where: map<Key, nat>)
    requires entries != bigger && Holds(h, entries[..], m, pos) && |m| < bigger.Length
    requires forall j :: 0 <= j < bigger.Length ==> bigger[j].Empty?
    modifies bigger
    ensures Holds(h, bigger[..], m, where)
  {
    ghost var t := entries[..];
    ghost var seen: map<Key, V> := map[];
    where := map[];
    var i := 0;
    while i < entries.Length
      invariant 0 <= i <= entries.Length && entries[..] == t
      invariant Holds(h, bigger[..], seen, where) && Prefix(t, m, seen, i)
    {
      PrefixSmall(h, t, m, pos, seen, i);
      if entries[i].Full? {
        PrefixNext(h, t, m, pos, seen, i);
        var done, added;
        done, added, where := SetEntry(h, bigger, entries[i].key, entries[i].value, false, true, seen, where);
        seen := seen[entries[i].key := entries[i].value];
      }
      i := i + 1;
    }
    PrefixAll(h, t, m, pos, seen);
  }

  /** `seen` is the part of m held in the first i slots. */
  ghost predicate Prefix<V>(t: seq<Slot<V>>, m: map<Key, V>, seen: map<Key, V>, i: nat)
    requires i <= |t|
  {
    && (forall k :: k in seen ==> k in m && seen[k] == m[k])
    && (forall k :: k in seen <==> exists j :: 0 <= j < i && t[j].Full? && t[j].key == k)
  }

  lemma PrefixNext<V>(h: Hasher, t: seq<Slot<V>>, m: map<Key, V>, pos: map<Key, nat>, seen: map<Key, V>, i: nat)
    requires Holds(h, t, m, pos) && i < |t| && Prefix(t, m, seen, i) && t[i].Full?
    ensures Prefix(t, m, seen[t[i].key := t[i].value], i + 1)
  {
    assert SlotOk(t, pos, i) && KeyOk(h, t, m, pos, t[i].key);
    var seen' := seen[t[i].key := t[i].value];
    forall k ensures k in seen' <==> exists j :: 0 <= j < i + 1 && t[j].Full? && t[j].key == k {
      if k in seen' {
        if k == t[i].key {
          assert t[i].Full? && t[i].key == k;
        } else {
          var j :| 0 <= j < i && t[j].Full? && t[j].key == k;
        }
      }
    }
  }

  lemma {:induction false} SubmapSize<V>(a: map<Key, V>, b: map<Key, V>)
    requires a.Keys <= b.Keys
    ensures |a| <= |b|
    decreases |a|
  {
    if k :| k in a {
      SubmapSize(a - {k}, b - {k});
      assert |a - {k}| == |a| - 1 by { assert (a - {k}).Keys == a.Keys - {k}; }
      assert |b - {k}| == |b| - 1 by { assert (b - {k}).Keys == b.Keys - {k}; }
    }
  }

  lemma PrefixSmall<V>(h: Hasher, t: seq<Slot<V>>, m: map<Key, V>, pos: map<Key, nat>, seen: map<Key, V>, i: nat)
    requires Holds(h, t, m, pos) && i <= |t| && Prefix(t, m, seen, i)
    ensures |seen| <= |m|
  {
    SubmapSize(seen, m);
  }

  lemma PrefixAll<V>(h: Hasher, t: seq<Slot<V>>, m: map<Key, V>, pos: map<Key, nat>, seen: map<Key, V>)
    requires Holds(h, t, m, pos) && Prefix(t, m, seen, |t|)
    ensures seen == m
  {
    forall k | k in m ensures k in seen {
      assert KeyOk(h, t, m, pos, k);
      assert t[pos[k]].Full? && t[pos[k]].key == k;
    }
  }
}
