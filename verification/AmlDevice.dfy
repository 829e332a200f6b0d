/**
 Which namespace a Device term really opens (lethe-aml/aml/defs.c, def_device).
 locate_object shifts a prefix character out of the caller's buffer in place, and
 def_device goes on to use that buffer; so a device under a prefixed name that
 does not exist yet gets another name, and usually no parent.
 */
module AmlDevice {
  import opened Wrappers
  import opened Fnv
  import opened AmlSyntax
  import opened AmlNames
  import opened AmlTerms
  import opened AmlParse

  /** The last segment, as the table spells it. */
  function Written(name: seq<Byte>): Seg
    requires |name| >= 4
  {
    name[|name| - 4..]
  }

  predicate PrefixShifted(w: World, n: nat, name: seq<Byte>)
    requires n < |w|
  {
    |name| > 4 && PrefixChar(name[0]) && !(name[0] == PARENT_CHAR && w[n].parent.None?)
  }

  predicate OneLetter(s: Seg) {
    s[0] == s[1] == s[2] == s[3]
  }

  /** What the shift makes of the last segment. */
  lemma ShiftedKey(name: seq<Byte>)
    requires |name| > 4
    ensures var left := name[1..] + [name[|name| - 1]];
            left[|left| - 4..] == Written(name)[1..] + [Written(name)[3]]
  {
  }

  lemma OneLetterIff(s: Seg)
    ensures s[1..] + [s[3]] == s <==> OneLetter(s)
  {
    var t := s[1..] + [s[3]];
    assert t == s ==> t[0] == s[0] && t[1] == s[1] && t[2] == s[2];
  }

  lemma CreatedName(w: World, n: nat, name: seq<Byte>, code: nat)
    requires Forest(w) && n < |w| && Locate(w, n, name, true).Missing? && DeviceSpace(w, n, name, code).Some?
    ensures var (w1, s) := DeviceSpace(w, n, name, code).value;
            var left := Shifted(w, n, name);
            |left| >= 4 && s == |w| && |w1| == |w| + 1 && w1[s].name == left[|left| - 4..]
  {
  }

  /** A device that is created carries the name the table gives it just when no
      prefix was shifted out of that name or its four characters are all the same. */
  lemma DeviceNameIff(w: World, n: nat, name: seq<Byte>, code: nat)
    requires Forest(w) && n < |w| && Locate(w, n, name, true).Missing? && DeviceSpace(w, n, name, code).Some?
    ensures var (w1, s) := DeviceSpace(w, n, name, code).value;
            && s == |w| && |w1| == |w| + 1
            && (w1[s].name == Written(name) <==> !PrefixShifted(w, n, name) || OneLetter(Written(name)))
  {
    CreatedName(w, n, name, code);
    if PrefixShifted(w, n, name) {
      ShiftedKey(name);
      OneLetterIff(Written(name));
    }
  }

  /** And it hangs below the root or nowhere: a prefix and one segment gives the
      root, a prefix and more segments gives no parent at all. */
  lemma ShiftedParent(w: World, n: nat, name: seq<Byte>, code: nat)
    requires Forest(w) && n < |w| && PrefixShifted(w, n, name) && |name| % 4 == 1
    requires Locate(w, n, name, true).Missing? && DeviceSpace(w, n, name, code).Some?
    ensures var (w1, s) := DeviceSpace(w, n, name, code).value;
            w1[s].parent == if |name| == 5 then Some(0) else None
  {
    var left := Shifted(w, n, name);
    var scope := left[..|left| - 4];
    if |name| > 5 {
      assert scope[0] == name[1] && CharOk(name, 1);
      OddScope(w, n, scope);
    }
  }

  /** A path that is one character too long leads nowhere. */
  lemma OddScope(w: World, n: nat, scope: seq<Byte>)
    requires Forest(w) && n < |w| && |scope| > 4 && |scope| % 4 == 1 && !PrefixChar(scope[0])
    ensures Locate(w, n, scope, true).Missing? || Locate(w, n, scope, true).Exit?
  {
    assert (|scope| - 4) % 4 != 0;
    assert ResolveScope(w, n, scope[..|scope| - 4]).None?;
  }

  /** Device (\ABCD), in the tree the parser starts with, makes a namespace called BCDD. */
  lemma GarbledExample(code: nat)
    ensures var w := FirstSpaces(5);
            && DeviceSpace(w, 0, [0x5C, 65, 66, 67, 68], code).Some?
            && |DeviceSpace(w, 0, [0x5C, 65, 66, 67, 68], code).value.0| == 7
            && DeviceSpace(w, 0, [0x5C, 65, 66, 67, 68], code).value.0[6].name == [66, 67, 68, 68]
  {
    var w := FirstSpaces(5);
    var name: seq<Byte> := [0x5C, 65, 66, 67, 68];
    FirstKeys(5, [65, 66, 67, 68]);
    assert name[1..] == [65, 66, 67, 68];
    assert Locate(w, 0, name, true).Missing?;
    assert Shifted(w, 0, name) == [65, 66, 67, 68, 68];
    CreatedName(w, 0, name, code);
  }

  /** The root of that tree has the predefined names alone, and nothing else has any. */
  lemma {:induction false} FirstKeys(k: nat, key: Seg)
    requires k <= 5
    ensures key in FirstSpaces(k)[0].namespaces ==> key in Predefined()[..k]
    ensures forall n :: 0 < n <= k ==> FirstSpaces(k)[n].namespaces == map[] && FirstSpaces(k)[n].parent == Some(0)
    ensures FirstSpaces(k)[0].parent == None
  {
    if k > 0 {
      FirstKeys(k - 1, key);
      assert Predefined()[..k] == Predefined()[..k - 1] + [Predefined()[k - 1]];
    }
  }

  // ------------------------------------------------------------- prefixes alone

  /** A name that is '^' alone finds the root, which is the parent it stands for if and
      only if n hangs there. */
  lemma LoneCaretIff(w: World, n: nat)
    requires Forest(w) && n < |w|
    ensures Locate(w, n, [PARENT_CHAR], true) == IsSpace(0)
    ensures w[n].parent.Some? ==> (Locate(w, n, [PARENT_CHAR], true) == IsSpace(w[n].parent.value) <==> w[n].parent == Some(0))
  {
    assert |[PARENT_CHAR]| == 1;
  }

  /** In a new Device (ABCD) of _SB_, '^' finds the root, not _SB_. */
  lemma LoneCaretExample(code: nat)
    ensures var w := FirstSpaces(5);
            && DeviceSpace(w, 3, [65, 66, 67, 68], code).Some?
            && var (w1, s) := DeviceSpace(w, 3, [65, 66, 67, 68], code).value;
               w1[s].parent == Some(3) && Locate(w1, s, [PARENT_CHAR], true) == IsSpace(0)
  {
    var w := FirstSpaces(5);
    var name: seq<Byte> := [65, 66, 67, 68];
    FirstKeys(5, name);
    assert GetIn(w, 3, name, true).Missing? && GetIn(w, 0, name, true).Missing?;
    assert Nearest(w, 3, name, true) == Nearest(w, 0, name, true) == Missing;
    assert Locate(w, 3, name, true).Missing?;
    var (w1, s) := DeviceSpace(w, 3, name, code).value;
    LoneCaretIff(w1, s);
  }

  // ----------------------------------------------------- looking a device up again

  /** Creating a namespace breaks no path it does not overwrite, and makes none but
      to itself. */
  lemma {:induction false} DownAgain(w: World, w1: World, n: nat, path: seq<Byte>, parent: Option<nat>, name: Seg, code: nat)
    requires Forest(w) && n < |w| && |path| % 4 == 0 && (parent.Some? ==> parent.value < |w|)
    requires w1 == Create(w, parent, name, code) && Forest(w1)
    ensures (parent.Some? ==> name !in w[parent.value].namespaces) && Down(w, n, path).Some? ==>
              Down(w1, n, path) == Down(w, n, path)
    ensures Down(w1, n, path).Some? && Down(w1, n, path).value < |w| ==> Down(w, n, path) == Down(w1, n, path)
    decreases |path|
  {
    if path != [] {
      assert SpaceOk(w, n) && SpaceOk(w1, n);
      if path[..4] in w[n].namespaces {
        DownAgain(w, w1, w[n].namespaces[path[..4]], path[4..], parent, name, code);
      }
    }
  }

  /** Below n, locate_object finds a scope just where the path leads. */
  lemma {:induction false} ScopeByPath(w: World, n: nat, path: seq<Byte>)
    requires Forest(w) && n < |w| && |path| >= 4 && |path| % 4 == 0 && ValidName(path) && !PrefixChar(path[0])
    ensures Down(w, n, path).Some? ==> Locate(w, n, path, true) == IsSpace(Down(w, n, path).value)
  {
    var at := |path| - 4;
    DownAppend(w, n, path[..at], path[at..]);
    assert path == path[..at] + path[at..];
    match Down(w, n, path[..at]) {
      case Some(s) =>
        assert SpaceOk(w, s);
        assert path[at..][..4] == path[at..] && path[at..][4..] == [];
        if at == 0 { assert path[at..] == path; }
      case None =>
    }
  }

  /** A new device under a name without prefix is found again under that name from
      where it was defined, if and only if all of the name but its last segment
      leads down from there; otherwise it was filed somewhere else. */
  lemma {:induction false} DeviceFoundIff(w: World, n: nat, name: seq<Byte>, code: nat)
    requires Forest(w) && n < |w| && |name| % 4 == 0 && |name| > 4 && !PrefixChar(name[0])
    requires Locate(w, n, name, true).Missing? && DeviceSpace(w, n, name, code).Some?
    ensures var (w1, s) := DeviceSpace(w, n, name, code).value;
            Locate(w1, n, name, true) == IsSpace(s) <==> Down(w, n, name[..|name| - 4]).Some?
  {
    var at := |name| - 4;
    var path, key := name[..at], name[at..];
    var (w1, s) := DeviceSpace(w, n, name, code).value;
    assert ValidName(path) by {
      forall i | 0 <= i < at ensures CharOk(path, i) { assert CharOk(name, i); }
    }
    ScopeByPath(w, n, path);
    var parent := w1[s].parent;
    assert w1 == Create(w, parent, key, code);
    DownAgain(w, w1, n, path, parent, key, code);
    match Down(w1, n, path) {
      case Some(p) => assert SpaceOk(w1, p);
      case None =>
    }
  }

  /** Device (_SB_.ABCD) in _GPE, in the tree the parser starts with, is made in _SB_, and
      is not found again under that name from there. */
  lemma NotFoundExample(code: nat)
    ensures var w, name := FirstSpaces(5), Predefined()[2] + [65, 66, 67, 68];
            && w[1].name == Predefined()[0] && w[3].name == Predefined()[2] && DeviceSpace(w, 1, name, code).Some?
            && var (w1, s) := DeviceSpace(w, 1, name, code).value;
               w1[s].parent == Some(3) && Locate(w1, 1, name, true) != IsSpace(s)
  {
    var w, key := FirstSpaces(5), Predefined()[2];
    var name: seq<Byte> := key + [65, 66, 67, 68];
    FirstKeys(5, key);
    FirstSpacesFound(5, 0);
    FirstSpacesFound(5, 2);
    assert key == [0x5F, 0x53, 0x42, 0x5F] && name[..4] == key && name[4..] == [65, 66, 67, 68];
    assert Down(w, 1, key) == None;
    assert Locate(w, 1, name, true).Missing?;
    assert Shifted(w, 1, name) == name;
    assert GetIn(w, 1, key, true).Missing? && GetIn(w, 0, key, true) == IsSpace(3);
    assert Nearest(w, 1, key, true) == Nearest(w, 0, key, true) == IsSpace(3);
    assert Locate(w, 1, name[..|name| - 4], true) == IsSpace(3);
    DeviceFoundIff(w, 1, name, code);
  }

  /** A namespace created under `key` of `parent`, looked up in namespace q. */
  lemma GetCreated(w: World, w1: World, parent: Option<nat>, key: Seg, code: nat, q: nat, other: Seg)
    requires Forest(w) && q < |w| && (parent.Some? ==> parent.value < |w|)
    requires w1 == Create(w, parent, key, code) && Forest(w1)
    ensures GetIn(w1, q, other, true) == if parent == Some(q) && other == key then IsSpace(|w|) else GetIn(w, q, other, true)
  {
  }

  /** Where a new device under a prefixed name is put, and under which key. */
  lemma PrefixedCreated(w: World, n: nat, name: seq<Byte>, code: nat)
    requires Forest(w) && n < |w| && PrefixShifted(w, n, name) && |name| % 4 == 1
    requires Locate(w, n, name, true).Missing? && DeviceSpace(w, n, name, code).Some?
    ensures var key := Written(name)[1..] + [Written(name)[3]];
            DeviceSpace(w, n, name, code) ==
            Some((Create(w, if |name| == 5 then Some(0) else None, key, code), |w|))
  {
    ShiftedKey(name);
    ShiftedParent(w, n, name, code);
  }

  /** A lookup by path finds no namespace that no other one holds. */
  lemma {:induction false} OrphanUnseen(w: World, w1: World, n: nat, key: seq<Byte>, name: Seg, code: nat)
    requires Forest(w) && n < |w| && |key| % 4 == 0 && w1 == Create(w, None, name, code) && Forest(w1)
    ensures Stage2(w1, n, key, true) != IsSpace(|w|)
  {
    if |key| == 4 {
      assert SpaceOk(w, n);
    } else if |key| > 4 {
      var at := |key| - 4;
      match ResolveScope(w1, n, key[..at]) {
        case None =>
        case Some(s) => assert s <= |w| && w1[s].namespaces == if s < |w| then w[s].namespaces else map[];
          if s < |w| { assert SpaceOk(w, s); }
      }
    }
  }

  /** A new device under a prefixed name is found again under that name from where it
      was defined, if and only if that name is a prefix and one segment of four equal
      characters, and the prefix leads to the root. */
  lemma PrefixedFoundIff(w: World, n: nat, name: seq<Byte>, code: nat)
    requires Forest(w) && n < |w| && |name| % 4 == 1 && |name| > 4 && PrefixChar(name[0])
    requires Locate(w, n, name, true).Missing? && DeviceSpace(w, n, name, code).Some?
    ensures var (w1, s) := DeviceSpace(w, n, name, code).value;
            Locate(w1, n, name, true) == IsSpace(s) <==>
            |name| == 5 && OneLetter(Written(name)) && (name[0] == ROOT_CHAR || w[n].parent == Some(0))
  {
    var (w1, s) := DeviceSpace(w, n, name, code).value;
    assert Kept(w, w1, |w|, n);
    assert SpaceOk(w, n);
    if PrefixShifted(w, n, name) {
      PrefixedCreated(w, n, name, code);
      var key, from := Written(name)[1..] + [Written(name)[3]], if name[0] == ROOT_CHAR then 0 else w[n].parent.value;
      OneLetterIff(Written(name));
      if |name| == 5 {
        assert name[1..] == Written(name);
        GetCreated(w, w1, Some(0), key, code, from, Written(name));
      } else {
        OrphanUnseen(w, w1, from, name[1..], key, code);
      }
    }
  }
}
