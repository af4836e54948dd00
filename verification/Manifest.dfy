// Importing a patch manifest: every entry is checked before any byte is written, and the writes are
// all-or-nothing.
module Manifest {
  import opened Options
  import opened Patches
  import opened Edits
  import opened PatchLists
  import opened DebuggerMemory
  import opened Undo

  // ----- file ranges of the image

  datatype Section = Section(address: int, size: nat, offset: nat, zero: bool)

  datatype Image = Image(sections: seq<Section>, encrypted: bool)

  predicate HoldsAddress(s: Section, address: int, size: nat) {
    !s.zero && s.address <= address && address + size <= s.address + s.size
  }

  predicate HoldsOffset(s: Section, offset: int, size: nat) {
    !s.zero && s.offset <= offset && offset + size <= s.offset + s.size
  }

  function ByAddress(sections: seq<Section>, address: int, size: nat): (r: seq<Section>)
    ensures forall s :: s in r <==> s in sections && HoldsAddress(s, address, size)
  {
    if sections == [] then []
    else (if HoldsAddress(sections[0], address, size) then [sections[0]] else []) + ByAddress(sections[1..], address, size)
  }

  function ByOffset(sections: seq<Section>, offset: int, size: nat): (r: seq<Section>)
    ensures forall s :: s in r <==> s in sections && HoldsOffset(s, offset, size)
  {
    if sections == [] then []
    else (if HoldsOffset(sections[0], offset, size) then [sections[0]] else []) + ByOffset(sections[1..], offset, size)
  }

  // None where the program raises ValueError.
  function FileOffset(image: Image, address: int, size: nat): Option<int> {
    var matches := ByAddress(image.sections, address, size);
    if image.encrypted || |matches| != 1 then None else Some(matches[0].offset + address - matches[0].address)
  }

  function FileAddress(image: Image, offset: int, size: nat): Option<int> {
    var matches := ByOffset(image.sections, offset, size);
    if |matches| != 1 then None else Some(matches[0].address + offset - matches[0].offset)
  }

  // Section `i` has file bytes for the whole range, and no other section has.
  ghost predicate OnlyAddress(sections: seq<Section>, i: int, address: int, size: nat) {
    0 <= i < |sections| && HoldsAddress(sections[i], address, size)
    && forall j :: 0 <= j < |sections| && HoldsAddress(sections[j], address, size) ==> j == i
  }

  ghost predicate OnlyOffset(sections: seq<Section>, i: int, offset: int, size: nat) {
    0 <= i < |sections| && HoldsOffset(sections[i], offset, size)
    && forall j :: 0 <= j < |sections| && HoldsOffset(sections[j], offset, size) ==> j == i
  }

  lemma {:induction false} OneByAddress(sections: seq<Section>, address: int, size: nat)
    ensures ByAddress(sections, address, size) == [] <==> forall j :: 0 <= j < |sections| ==> !HoldsAddress(sections[j], address, size)
    ensures |ByAddress(sections, address, size)| == 1 <==> exists i :: OnlyAddress(sections, i, address, size)
    ensures forall i :: OnlyAddress(sections, i, address, size) ==> ByAddress(sections, address, size) == [sections[i]]
  {
    hide HoldsAddress;
    if sections != [] {
      var rest := sections[1..];
      OneByAddress(rest, address, size);
      assert forall j :: 0 <= j < |rest| ==> rest[j] == sections[j + 1];
      assert forall j :: 1 <= j < |sections| ==> sections[j] == rest[j - 1];
      if HoldsAddress(sections[0], address, size) {
        assert ByAddress(rest, address, size) == [] ==> OnlyAddress(sections, 0, address, size);
      } else {
        assert forall i :: OnlyAddress(sections, i, address, size) ==> OnlyAddress(rest, i - 1, address, size);
        assert forall i :: OnlyAddress(rest, i, address, size) ==> OnlyAddress(sections, i + 1, address, size);
      }
    }
  }

  lemma {:induction false} OneByFile(sections: seq<Section>, offset: int, size: nat)
    ensures ByOffset(sections, offset, size) == [] <==> forall j :: 0 <= j < |sections| ==> !HoldsOffset(sections[j], offset, size)
    ensures |ByOffset(sections, offset, size)| == 1 <==> exists i :: OnlyOffset(sections, i, offset, size)
    ensures forall i :: OnlyOffset(sections, i, offset, size) ==> ByOffset(sections, offset, size) == [sections[i]]
  {
    hide HoldsOffset;
    if sections != [] {
      var rest := sections[1..];
      OneByFile(rest, offset, size);
      assert forall j :: 0 <= j < |rest| ==> rest[j] == sections[j + 1];
      assert forall j :: 1 <= j < |sections| ==> sections[j] == rest[j - 1];
      if HoldsOffset(sections[0], offset, size) {
        assert ByOffset(rest, offset, size) == [] ==> OnlyOffset(sections, 0, offset, size);
      } else {
        assert forall i :: OnlyOffset(sections, i, offset, size) ==> OnlyOffset(rest, i - 1, offset, size);
        assert forall i :: OnlyOffset(rest, i, offset, size) ==> OnlyOffset(sections, i + 1, offset, size);
      }
    }
  }

  // An address has a file offset exactly when one section of an image that is not encrypted has the range: the
  // place as far into the section.
  lemma FileOffsetExact(image: Image, address: int, offset: int, size: nat)
    ensures FileOffset(image, address, size) == Some(offset) <==>
      !image.encrypted
      && exists i :: OnlyAddress(image.sections, i, address, size)
           && offset == image.sections[i].offset + (address - image.sections[i].address)
  {
    hide ByAddress, HoldsAddress, OnlyAddress;
    OneByAddress(image.sections, address, size);
    if FileOffset(image, address, size) == Some(offset) {
      var i :| OnlyAddress(image.sections, i, address, size);
      InBounds(image.sections, i, address, size);
      assert offset == image.sections[i].offset + (address - image.sections[i].address);
    }
  }

  lemma InBounds(sections: seq<Section>, i: int, address: int, size: nat)
    ensures OnlyAddress(sections, i, address, size) ==> 0 <= i < |sections|
    ensures OnlyOffset(sections, i, address, size) ==> 0 <= i < |sections|
  {
  }

  // And an offset has an address exactly when one section has the range in the file.
  lemma FileAddressExact(image: Image, address: int, offset: int, size: nat)
    ensures FileAddress(image, offset, size) == Some(address) <==>
      exists i :: OnlyOffset(image.sections, i, offset, size)
        && address == image.sections[i].address + (offset - image.sections[i].offset)
  {
    hide ByOffset, HoldsOffset, OnlyOffset;
    OneByFile(image.sections, offset, size);
    if FileAddress(image, offset, size) == Some(address) {
      var i :| OnlyOffset(image.sections, i, offset, size);
      InBounds(image.sections, i, offset, size);
      assert address == image.sections[i].address + (offset - image.sections[i].offset);
    }
  }

  // Where both translations succeed they are inverse.
  lemma TranslationsInverse(image: Image, a: int, o: int, size: nat)
    ensures FileOffset(image, a, size) == Some(o) && FileAddress(image, o, size).Some? ==>
      FileAddress(image, o, size) == Some(a)
    ensures FileAddress(image, o, size) == Some(a) && FileOffset(image, a, size).Some? ==>
      FileOffset(image, a, size) == Some(o)
  {
    var byAddress, byOffset := ByAddress(image.sections, a, size), ByOffset(image.sections, o, size);
    if |byAddress| == 1 && |byOffset| == 1 {
      assert byAddress[0] in byAddress && byOffset[0] in byOffset;
      if FileOffset(image, a, size) == Some(o) {
        assert byAddress[0] in byOffset;
      }
      if FileAddress(image, o, size) == Some(a) {
        assert byOffset[0] in byAddress;
      }
    }
  }

  ghost predicate DisjointSections(image: Image) {
    forall s, t :: s in image.sections && t in image.sections && s != t && !s.zero && !t.zero ==>
      s.address + s.size <= t.address || t.address + t.size <= s.address
  }

  // ----- the manifest

  datatype Entry = Entry(offset: int, orig: seq<Byte>, data: seq<Byte>)

  predicate Apart(a: int, m: nat, b: int, n: nat) {
    a + m <= b || b + n <= a
  }

  ghost predicate ApartOffsets(entries: seq<Entry>) {
    forall i, j :: 0 <= i < j < |entries| ==>
      Apart(entries[i].offset, |entries[i].data|, entries[j].offset, |entries[j].data|)
  }

  ghost predicate ApartPatches(patches: seq<Patch>) {
    forall i, j :: 0 <= i < j < |patches| ==>
      Apart(patches[i].addr, |patches[i].data|, patches[j].addr, |patches[j].data|)
  }

  // The entry's bytes are in the file and live where the file puts them.
  predicate Checks(image: Image, file: seq<Byte>, slide: int, m: Memory, e: Entry, p: Patch) {
    1 <= |e.data| <= 4096 && |e.orig| == |e.data| && e.offset >= 0
    && e.offset + |e.orig| <= |file| && file[e.offset..e.offset + |e.orig|] == e.orig
    && FileAddress(image, e.offset, |e.data|) == Some(p.addr - slide)
    && p.orig == e.orig && p.data == e.data
    && Mapped(m, p.addr, |p.orig|) && Bytes(m, p.addr, |p.orig|) == p.orig
  }

  ghost predicate AllCheck(image: Image, file: seq<Byte>, slide: int, m: Memory, entries: seq<Entry>, checked: seq<Patch>) {
    |checked| == |entries| && forall i :: 0 <= i < |entries| ==> Checks(image, file, slide, m, entries[i], checked[i])
  }

  // Different file ranges of disjoint sections are loaded at different addresses.
  lemma ApartAddresses(image: Image, file: seq<Byte>, slide: int, m: Memory, entries: seq<Entry>, checked: seq<Patch>)
    requires AllCheck(image, file, slide, m, entries, checked) && ApartOffsets(entries) && DisjointSections(image)
    ensures ApartPatches(checked)
  {
    forall i, j | 0 <= i < j < |checked|
      ensures Apart(checked[i].addr, |checked[i].data|, checked[j].addr, |checked[j].data|)
    {
      assert Checks(image, file, slide, m, entries[i], checked[i]) && Checks(image, file, slide, m, entries[j], checked[j]);
      TwoApart(image, slide, entries[i], checked[i], entries[j], checked[j]);
    }
  }

  lemma TwoApart(image: Image, slide: int, e: Entry, p: Patch, f: Entry, q: Patch)
    requires DisjointSections(image) && |e.data| == |p.data| && |f.data| == |q.data|
    requires FileAddress(image, e.offset, |e.data|) == Some(p.addr - slide)
    requires FileAddress(image, f.offset, |f.data|) == Some(q.addr - slide)
    requires Apart(e.offset, |e.data|, f.offset, |f.data|)
    ensures Apart(p.addr, |p.data|, q.addr, |q.data|)
  {
    var s := ByOffset(image.sections, e.offset, |e.data|);
    var t := ByOffset(image.sections, f.offset, |f.data|);
    assert s[0] in s && t[0] in t;
    assert s[0] in image.sections && t[0] in image.sections;
  }

  // ----- applying

  predicate InRange(p: Patch, a: int) {
    p.addr <= a < p.addr + |p.data|
  }

  ghost predicate Touched(patches: seq<Patch>, a: int) {
    exists i :: 0 <= i < |patches| && InRange(patches[i], a)
  }

  // Only bytes in the ranges of the patches differ.
  ghost predicate Within(m: Memory, m': Memory, patches: seq<Patch>) {
    m.Keys == m'.Keys && forall a :: a in m && m'[a] != m[a] ==> Touched(patches, a)
  }

  lemma TouchedNext(patches: seq<Patch>, i: nat, a: int)
    requires i < |patches|
    ensures Touched(patches[..i + 1], a) <==> Touched(patches[..i], a) || InRange(patches[i], a)
  {
    var short, long := patches[..i], patches[..i + 1];
    assert long[i] == patches[i];
    if Touched(short, a) {
      var k :| 0 <= k < |short| && InRange(short[k], a);
      assert long[k] == short[k];
    }
    if Touched(long, a) {
      var k :| 0 <= k < |long| && InRange(long[k], a);
      assert k < i ==> short[k] == long[k];
    }
  }

  lemma WithinNext(m: Memory, m': Memory, patches: seq<Patch>, i: nat, data: seq<Byte>)
    requires i < |patches| && Within(m, m', patches[..i]) && |data| <= |patches[i].data|
    ensures Within(m, Put(m', patches[i].addr, data), patches[..i + 1])
  {
    hide Touched;
    var m'' := Put(m', patches[i].addr, data);
    forall a | a in m && m''[a] != m[a] ensures Touched(patches[..i + 1], a) {
      TouchedNext(patches, i, a);
    }
  }

  // Putting the original bytes of the last range back leaves differences in the earlier ranges only.
  lemma WithinBack(m: Memory, m': Memory, patches: seq<Patch>, i: nat)
    requires i < |patches| && Within(m, m', patches[..i + 1]) && Fits(m, patches[i])
    ensures Within(m, Put(m', patches[i].addr, patches[i].orig), patches[..i])
  {
    hide Touched;
    var p := patches[i];
    var m'' := Put(m', p.addr, p.orig);
    forall a | a in m && m''[a] != m[a] ensures Touched(patches[..i], a) {
      TouchedNext(patches, i, a);
      if InRange(p, a) {
        BytesAt(m, p.addr, |p.orig|, a - p.addr);
      }
    }
  }

  lemma WithinNothing(m: Memory, m': Memory)
    requires Within(m, m', [])
    ensures m == m'
  {
    forall a | a in m ensures m'[a] == m[a] {
      assert !Touched([], a);
    }
  }

  // The patches before it leave an apart patch's bytes alone.
  lemma {:induction false} StillFits(m: Memory, patches: seq<Patch>, k: nat, p: Patch)
    requires k <= |patches| && Fits(m, p)
    requires forall i :: 0 <= i < k ==> Apart(patches[i].addr, |patches[i].data|, p.addr, |p.data|)
    ensures Fits(Replay(m, patches[..k]), p)
    decreases k
  {
    if k > 0 {
      StillFits(m, patches, k - 1, p);
      assert patches[..k][..k - 1] == patches[..k - 1];
      PutApart(Replay(m, patches[..k - 1]), patches[k - 1], p);
    }
  }

  lemma PutApart(m: Memory, q: Patch, p: Patch)
    requires Fits(m, p) && Apart(q.addr, |q.data|, p.addr, |p.data|)
    ensures Fits(Put(m, q.addr, q.data), p)
  {
    forall a | p.addr <= a < End(p) ensures a in m && Put(m, q.addr, q.data)[a] == p.orig[a - p.addr] {
      BytesAt(m, p.addr, |p.orig|, a - p.addr);
    }
    RunFits(Put(m, q.addr, q.data), p);
  }

  // Every apart range holds its new bytes at the end.
  lemma {:induction false} AllPresent(m: Memory, patches: seq<Patch>, k: nat, i: nat)
    requires i < k <= |patches| && ApartPatches(patches) && forall j :: 0 <= j < |patches| ==> Fits(m, patches[j])
    ensures Mapped(Replay(m, patches[..k]), patches[i].addr, |patches[i].data|)
    ensures Bytes(Replay(m, patches[..k]), patches[i].addr, |patches[i].data|) == patches[i].data
    decreases k
  {
    assert patches[..k][..k - 1] == patches[..k - 1];
    var before, q, p := Replay(m, patches[..k - 1]), patches[k - 1], patches[i];
    ReplayKeys(m, patches[..k - 1]);
    if i == k - 1 {
      StillFits(m, patches, k - 1, p);
      PutBytes(before, p.addr, p.data);
    } else {
      AllPresent(m, patches, k - 1, i);
      PutApart(before, q, Patch(p.addr, p.data, p.data));
    }
  }

  // ----- the program

  datatype Result = Refused | Checked | Applied | RolledBack | RollbackFailed

  // What the entry asks to be written, when its bytes can be placed.
  function PatchFor(image: Image, slide: int, e: Entry): Patch {
    var address := FileAddress(image, e.offset, |e.data|);
    Patch(if address.Some? then address.value + slide else 0, e.orig, e.data)
  }

  predicate Checkable(image: Image, file: seq<Byte>, slide: int, m: Memory, e: Entry) {
    Checks(image, file, slide, m, e, PatchFor(image, slide, e))
  }

  predicate Occupies(e: Entry, o: int) {
    e.offset <= o < e.offset + |e.data|
  }

  // The first pass, passed exactly by entries apart from each other that can all be placed: nothing is
  // written.
  method CheckEntries(image: Image, file: seq<Byte>, slide: int, m: Memory, entries: seq<Entry>)
    returns (ok: bool, checked: seq<Patch>)
    ensures ok ==> AllCheck(image, file, slide, m, entries, checked) && ApartOffsets(entries)
    ensures ok <==> ApartOffsets(entries) && forall i :: 0 <= i < |entries| ==> Checkable(image, file, slide, m, entries[i])
  {
    hide Checks, FileAddress;
    checked := [];
    var occupied: set<int> := {};
    var i := 0;
    while i < |entries|
      invariant 0 <= i <= |entries| && |checked| == i
      invariant forall k :: 0 <= k < i ==>
        |entries[k].data| >= 1 && Checkable(image, file, slide, m, entries[k]) && checked[k] == PatchFor(image, slide, entries[k])
      invariant forall o :: o in occupied <==> exists k :: 0 <= k < i && Occupies(entries[k], o)
      invariant forall j, k :: 0 <= j < k < i ==>
        Apart(entries[j].offset, |entries[j].data|, entries[k].offset, |entries[k].data|)
    {
      var e := entries[i];
      if !(1 <= |e.data| <= 4096) || |e.orig| != |e.data| || e.offset < 0 {
        NotCheckable(image, file, slide, m, e);
        return false, [];
      }
      var range := Span(e.offset, |e.data|);
      if occupied * range != {} {
        NotApart(entries, i, occupied, range);
        return false, [];
      }
      StaysApart(entries, i, occupied, range);
      occupied := occupied + range;
      if e.offset + |e.orig| > |file| || file[e.offset..e.offset + |e.orig|] != e.orig {
        NotCheckable(image, file, slide, m, e);
        return false, [];
      }
      var address := FileAddress(image, e.offset, |e.data|);
      if address == None {
        NotCheckable(image, file, slide, m, e);
        return false, [];
      }
      var p := Patch(address.value + slide, e.orig, e.data);
      if ReadMemory(m, p.addr, |e.orig|) != e.orig {
        NotCheckable(image, file, slide, m, e);
        return false, [];
      }
      NowCheckable(image, file, slide, m, e);
      checked := checked + [p];
      i := i + 1;
    }
    ok := true;
  }

  lemma NotCheckable(image: Image, file: seq<Byte>, slide: int, m: Memory, e: Entry)
    requires !(1 <= |e.data| <= 4096) || |e.orig| != |e.data| || e.offset < 0
             || e.offset + |e.orig| > |file| || file[e.offset..e.offset + |e.orig|] != e.orig
             || FileAddress(image, e.offset, |e.data|) == None
             || ReadMemory(m, PatchFor(image, slide, e).addr, |e.orig|) != e.orig
    ensures !Checkable(image, file, slide, m, e)
  {
    hide FileAddress;
  }

  lemma NowCheckable(image: Image, file: seq<Byte>, slide: int, m: Memory, e: Entry)
    requires 1 <= |e.data| <= 4096 && |e.orig| == |e.data| && e.offset >= 0
    requires e.offset + |e.orig| <= |file| && file[e.offset..e.offset + |e.orig|] == e.orig
    requires FileAddress(image, e.offset, |e.data|).Some?
    requires ReadMemory(m, PatchFor(image, slide, e).addr, |e.orig|) == e.orig
    ensures Checkable(image, file, slide, m, e)
  {
    hide FileAddress;
  }

  lemma NotApart(entries: seq<Entry>, i: nat, occupied: set<int>, range: set<int>)
    requires i < |entries| && occupied * range != {}
    requires forall o :: o in range <==> Occupies(entries[i], o)
    requires forall o :: o in occupied <==> exists k :: 0 <= k < i && Occupies(entries[k], o)
    ensures !ApartOffsets(entries)
  {
    assert (forall o: int :: o !in occupied * range) ==> occupied * range == {};
    var o :| o in occupied * range;
    var k :| 0 <= k < i && Occupies(entries[k], o);
    assert !Apart(entries[k].offset, |entries[k].data|, entries[i].offset, |entries[i].data|);
  }

  lemma StaysApart(entries: seq<Entry>, i: nat, occupied: set<int>, range: set<int>)
    requires i < |entries| && occupied * range == {}
    requires forall o :: o in range <==> Occupies(entries[i], o)
    requires forall o :: o in occupied <==> exists k :: 0 <= k < i && Occupies(entries[k], o)
    requires forall k :: 0 <= k <= i ==> |entries[k].data| >= 1
    ensures forall k :: 0 <= k < i ==>
      Apart(entries[k].offset, |entries[k].data|, entries[i].offset, |entries[i].data|)
  {
    forall k | 0 <= k < i ensures Apart(entries[k].offset, |entries[k].data|, entries[i].offset, |entries[i].data|) {
      var e, f := entries[k], entries[i];
      var o := if e.offset <= f.offset then f.offset else e.offset;
      assert Occupies(e, o) ==> o in occupied;
      assert o in occupied ==> o in occupied * range || o !in range;
    }
  }

  // Writes one range back.
  method Restore(debugger: Debugger, checked: seq<Patch>, i: nat, restore: Landing, ghost m: Memory, ghost track: bool)
    returns (written: bool)
    requires i < |checked| && AllSameLengths(debugger.patches) && Fits(m, checked[i])
    requires track ==> Within(m, debugger.memory, checked[..i + 1])
    modifies debugger`memory, debugger`patches
    ensures debugger.patches == old(debugger.patches) && debugger.memory.Keys == old(debugger.memory.Keys)
    ensures written && track ==> Within(m, debugger.memory, checked[..i])
    ensures debugger.stopped && debugger.memory.Keys == m.Keys && Arrives(restore, |checked[i].orig|) ==> written
  {
    hide Within, Verified, Landed, Fits;
    ghost var current := debugger.memory;
    LandedOutside(current, checked[i].addr, checked[i].orig, restore);
    if current.Keys == m.Keys {
      FitsMapped(m, current, checked[i]);
      WholeLanding(current, checked[i].addr, checked[i].orig, restore);
    }
    written := debugger.WriteMemory(checked[i].addr, checked[i].orig, false, restore);
    if written && track {
      WithinBack(m, current, checked, i);
    }
  }

  lemma FitsMapped(m: Memory, m': Memory, p: Patch)
    requires Fits(m, p) && m.Keys == m'.Keys
    ensures Mapped(m', p.addr, |p.orig|)
  {
    forall a | p.addr <= a < p.addr + |p.orig| ensures a in m' {
      MappedAt(m, p.addr, |p.orig|, a - p.addr);
    }
    RangeMapped(m', p.addr, |p.orig|);
  }

  lemma WithinKeys(m: Memory, m': Memory, patches: seq<Patch>)
    requires Within(m, m', patches)
    ensures m'.Keys == m.Keys
  {
  }

  // Writes back the ranges that may have been touched, last first; every one is tried.
  method RollBack(debugger: Debugger, checked: seq<Patch>, n: nat, restores: nat -> Landing, ghost m: Memory)
    returns (ok: bool)
    requires n <= |checked| && Within(m, debugger.memory, checked[..n]) && AllSameLengths(debugger.patches)
    requires forall j :: 0 <= j < |checked| ==> Fits(m, checked[j])
    modifies debugger`memory, debugger`patches
    ensures debugger.patches == old(debugger.patches)
    ensures ok ==> debugger.memory == m
    ensures debugger.stopped && (forall j :: 0 <= j < n ==> Arrives(restores(j), |checked[j].orig|)) ==> ok
  {
    WithinKeys(m, debugger.memory, checked[..n]);
    hide Within, Fits, Arrives;
    ok := true;
    var i := n;
    while i > 0
      invariant 0 <= i <= n && debugger.patches == old(debugger.patches)
      invariant ok ==> Within(m, debugger.memory, checked[..i])
      invariant debugger.memory.Keys == m.Keys
      invariant debugger.stopped && (forall j :: 0 <= j < n ==> Arrives(restores(j), |checked[j].orig|)) ==> ok
    {
      i := i - 1;
      var written := Restore(debugger, checked, i, restores(i), m, ok);
      ok := ok && written;
    }
    if ok {
      assert checked[..0] == [];
      WithinNothing(m, debugger.memory);
    }
  }

  // Every write is verified, on the memory the writes before it have left.
  ghost predicate AllLand(stopped: bool, m: Memory, checked: seq<Patch>, landings: nat -> Landing) {
    LandTo(stopped, m, checked, landings, |checked|)
  }

  ghost predicate LandTo(stopped: bool, m: Memory, checked: seq<Patch>, landings: nat -> Landing, n: nat)
    requires n <= |checked|
  {
    n == 0 || (LandTo(stopped, m, checked, landings, n - 1) && stopped && Lands(m, checked, landings, n - 1))
  }

  lemma {:induction false} LandBefore(stopped: bool, m: Memory, checked: seq<Patch>, landings: nat -> Landing, i: nat, n: nat)
    requires i <= n <= |checked| && LandTo(stopped, m, checked, landings, n)
    ensures LandTo(stopped, m, checked, landings, i)
    decreases n
  {
    hide Lands;
    if i < n {
      LandBefore(stopped, m, checked, landings, i, n - 1);
    }
  }

  lemma LandMore(stopped: bool, m: Memory, checked: seq<Patch>, landings: nat -> Landing, i: nat)
    requires i < |checked| && LandTo(stopped, m, checked, landings, i)
    ensures stopped && Lands(m, checked, landings, i) ==> LandTo(stopped, m, checked, landings, i + 1)
    ensures !(stopped && Lands(m, checked, landings, i)) ==> !AllLand(stopped, m, checked, landings)
  {
    hide Lands;
    if AllLand(stopped, m, checked, landings) {
      LandBefore(stopped, m, checked, landings, i + 1, |checked|);
    }
  }

  ghost predicate Lands(m: Memory, checked: seq<Patch>, landings: nat -> Landing, i: nat)
    requires i < |checked|
  {
    Verified(Replay(m, checked[..i]), checked[i].addr, checked[i].data, landings(i))
  }

  // Writes that arrive completely and say so are all verified.
  lemma {:induction false} ArrivalsLand(m: Memory, checked: seq<Patch>, landings: nat -> Landing, n: nat)
    requires n <= |checked| && forall j :: 0 <= j < |checked| ==> Fits(m, checked[j])
    requires forall j: nat :: j < n ==> Arrives(landings(j), |checked[j].data|)
    ensures LandTo(true, m, checked, landings, n)
  {
    hide Fits, Verified, Arrives, Replay;
    if n > 0 {
      ArrivalsLand(m, checked, landings, n - 1);
      var current, p := Replay(m, checked[..n - 1]), checked[n - 1];
      ReplayKeys(m, checked[..n - 1]);
      FitsMapped(m, current, p);
      FitsLengths(m, p);
      WholeLanding(current, p.addr, p.data, landings(n - 1));
    }
  }

  // The second pass. Either every write succeeds, or what was written is put back.
  method ApplyAll(debugger: Debugger, checked: seq<Patch>, landings: nat -> Landing, restores: nat -> Landing)
    returns (result: Result)
    requires AllSameLengths(debugger.patches)
    requires forall j :: 0 <= j < |checked| ==> Fits(debugger.memory, checked[j])
    modifies debugger`memory, debugger`patches
    ensures debugger.patches == old(debugger.patches)
    ensures result == Applied || result == RolledBack || result == RollbackFailed
    ensures result == Applied <==> old(AllLand(debugger.stopped, debugger.memory, checked, landings))
    ensures result == Applied ==> debugger.memory == Replay(old(debugger.memory), checked)
    ensures result == RolledBack ==> debugger.memory == old(debugger.memory)
    ensures debugger.stopped && (forall i :: 0 <= i < |checked| ==> Arrives(restores(i), |checked[i].orig|)) ==>
      result != RollbackFailed
  {
    hide Within, Fits, Verified, Arrives, Replay, Landed;
    assert LandTo(debugger.stopped, debugger.memory, checked, landings, 0);
    hide LandTo;
    ghost var m := debugger.memory;
    var i := 0;
    assert checked[..0] == [];
    ReplayNothing(m);
    assert Within(m, m, checked[..0]) by { WithinSelf(m, checked[..0]); }
    while i < |checked|
      invariant 0 <= i <= |checked| && debugger.patches == old(debugger.patches)
      invariant debugger.memory == Replay(m, checked[..i]) && Within(m, debugger.memory, checked[..i])
      invariant LandTo(debugger.stopped, m, checked, landings, i)
    {
      var p := checked[i];
      ghost var before := debugger.memory;
      var written := debugger.WriteMemory(p.addr, p.data, false, landings(i));
      LandedWithin(m, before, checked, i, landings(i));
      assert written <==> debugger.stopped && Lands(m, checked, landings, i);
      LandMore(debugger.stopped, m, checked, landings, i);
      ReplayNext(m, checked, i);
      if !written {
        if debugger.memory == before {
          WithinMore(m, before, checked, i);
        }
        var ok := RollBack(debugger, checked, i + 1, restores, m);
        return if ok then RolledBack else RollbackFailed;
      }
      WithinNext(m, before, checked, i, p.data);
      i := i + 1;
    }
    assert checked[..i] == checked;
    return Applied;
  }

  lemma ReplayNext(m: Memory, patches: seq<Patch>, i: nat)
    requires i < |patches|
    ensures Replay(m, patches[..i + 1]) == Put(Replay(m, patches[..i]), patches[i].addr, patches[i].data)
  {
    assert patches[..i + 1][..i] == patches[..i];
  }

  lemma ReplayNothing(m: Memory)
    ensures Replay(m, []) == m
  {
  }

  lemma WithinSelf(m: Memory, patches: seq<Patch>)
    ensures Within(m, m, patches)
  {
  }

  lemma WithinMore(m: Memory, m': Memory, patches: seq<Patch>, i: nat)
    requires i < |patches| && Within(m, m', patches[..i])
    ensures Within(m, m', patches[..i + 1])
  {
    hide Touched;
    forall a | a in m && m'[a] != m[a] ensures Touched(patches[..i + 1], a) {
      TouchedNext(patches, i, a);
    }
  }

  lemma LandedWithin(m: Memory, m': Memory, patches: seq<Patch>, i: nat, landing: Landing)
    requires i < |patches| && Within(m, m', patches[..i])
    ensures Within(m, Landed(m', patches[i].addr, patches[i].data, landing), patches[..i + 1])
  {
    hide Within;
    var data := patches[i].data;
    WithinNext(m, m', patches, i, if landing.written <= |data| then data[..landing.written] else data);
  }

  // The list after the patches have entered it one by one.
  function RecordedEach(patches: seq<Patch>, checked: seq<Patch>): (r: seq<Patch>)
    requires AllSameLengths(patches) && AllSameLengths(checked)
    ensures AllSameLengths(r)
  {
    if checked == [] then patches
    else
      var rows := RecordedEach(patches, checked[..|checked| - 1]) + [checked[|checked| - 1]];
      NormalLengths(rows);
      Normal(rows)
  }

  // The new bytes enter the tracked list one patch after the other.
  method RecordEach(debugger: Debugger, checked: seq<Patch>, ghost m: Memory)
    requires AllSameLengths(debugger.patches)
    requires forall j :: 0 <= j < |checked| ==> Fits(m, checked[j])
    modifies debugger`patches
    ensures AllSameLengths(debugger.patches) && AllSameLengths(checked)
    ensures debugger.patches == RecordedEach(old(debugger.patches), checked)
    ensures old(IsDiff(debugger.patches, debugger.original, m)) && debugger.original.Keys == m.Keys && ApartPatches(checked) ==>
      IsDiff(debugger.patches, debugger.original, Replay(m, checked))
  {
    hide IsDiff, Normal, Fits, ApartPatches;
    ghost var tracked := IsDiff(debugger.patches, debugger.original, m) && debugger.original.Keys == m.Keys && ApartPatches(checked);
    forall j | 0 <= j < |checked| ensures SameLengths(checked[j]) {
      FitsLengths(m, checked[j]);
    }
    var i := 0;
    assert checked[..0] == [];
    while i < |checked|
      invariant 0 <= i <= |checked| && AllSameLengths(debugger.patches)
      invariant debugger.patches == RecordedEach(old(debugger.patches), checked[..i])
      invariant tracked ==> IsDiff(debugger.patches, debugger.original, Replay(m, checked[..i]))
    {
      var rows := debugger.patches + [checked[i]];
      FitsLengths(m, checked[i]);
      if tracked {
        ApartFits(m, checked, i);
        ReplayKeys(m, checked[..i]);
        RecordOne(debugger.original, Replay(m, checked[..i]), debugger.patches, checked[i]);
      }
      NormalLengths(rows);
      debugger.patches := Normal(rows);
      assert checked[..i + 1][..i] == checked[..i];
      i := i + 1;
    }
    assert checked[..i] == checked;
  }

  lemma FitsLengths(m: Memory, p: Patch)
    requires Fits(m, p)
    ensures SameLengths(p)
  {
  }

  lemma NormalLengths(patches: seq<Patch>)
    requires AllSameLengths(patches)
    ensures AllSameLengths(Normal(patches))
  {
    hide Normal;
    NormalIsCanonical(patches);
    CanonicalLengths(Normal(patches));
  }

  lemma ApartFits(m: Memory, checked: seq<Patch>, i: nat)
    requires ApartPatches(checked) && i < |checked| && forall j :: 0 <= j < |checked| ==> Fits(m, checked[j])
    ensures Fits(Replay(m, checked[..i]), checked[i])
  {
    hide Fits;
    StillFits(m, checked, i, checked[i]);
  }

  function CoveredBy(checked: seq<Patch>): set<int> {
    if checked == [] then {}
    else CoveredBy(checked[..|checked| - 1]) + Span(checked[|checked| - 1].addr, |checked[|checked| - 1].data|)
  }

  lemma RecordNext(patches: seq<Patch>, m: Memory, p: Patch)
    requires Canonical(patches) && Fits(m, p) && |p.data| >= 1
    ensures AllSameLengths(patches + [p])
    ensures Moved(patches, m, Normal(patches + [p]), Put(m, p.addr, p.data), Span(p.addr, |p.data|))
  {
    hide Canonical, Normal, Moved;
    CanonicalLengths(patches);
    RecordedMoves(patches, m, p.addr, p.data);
    assert p == Patch(p.addr, Bytes(m, p.addr, |p.data|), p.data);
  }

  // The list after an import, whatever it said before: the imported bytes are listed with what was first
  // there and what the import wrote, and every other byte is listed as before.
  lemma {:induction false} ListAfterImport(patches: seq<Patch>, m: Memory, checked: seq<Patch>, i: nat)
    requires Canonical(patches) && AllSameLengths(patches) && ApartPatches(checked) && i <= |checked|
    requires forall j :: 0 <= j < |checked| ==> Fits(m, checked[j]) && |checked[j].data| >= 1
    ensures AllSameLengths(checked[..i])
    ensures Moved(patches, m, RecordedEach(patches, checked[..i]), Replay(m, checked[..i]), CoveredBy(checked[..i]))
    decreases i
  {
    hide Canonical, Normal, Fits, Moved, ApartPatches;
    forall j | 0 <= j < |checked| ensures SameLengths(checked[j]) {
      FitsLengths(m, checked[j]);
    }
    if i == 0 {
      assert checked[..0] == [];
      NothingMoves(patches, m);
    } else {
      ListAfterImport(patches, m, checked, i - 1);
      assert checked[..i][..i - 1] == checked[..i - 1] && checked[..i][i - 1] == checked[i - 1];
      var before, current, p := RecordedEach(patches, checked[..i - 1]), Replay(m, checked[..i - 1]), checked[i - 1];
      MovedEnds(patches, m, before, current, CoveredBy(checked[..i - 1]));
      ApartFits(m, checked, i - 1);
      RecordNext(before, current, p);
      MovedTrans(patches, m, before, current, Normal(before + [p]), Put(current, p.addr, p.data),
                 CoveredBy(checked[..i - 1]), Span(p.addr, |p.data|));
    }
  }

  lemma CheckedFit(image: Image, file: seq<Byte>, slide: int, m: Memory, entries: seq<Entry>, checked: seq<Patch>)
    requires AllCheck(image, file, slide, m, entries, checked)
    ensures forall j :: 0 <= j < |checked| ==> Fits(m, checked[j])
  {
    forall j | 0 <= j < |checked| ensures Fits(m, checked[j]) {
      assert Checks(image, file, slide, m, entries[j], checked[j]);
    }
  }

  // The import as a whole. Applied to an image of disjoint sections, every range holds its new bytes, and a
  // list that was the current difference stays it; rolled back, nothing has changed.
  method Import(debugger: Debugger, image: Image, file: seq<Byte>, slide: int, entries: seq<Entry>, apply: bool,
                landings: nat -> Landing, restores: nat -> Landing) returns (result: Result, checked: seq<Patch>)
    requires AllSameLengths(debugger.patches)
    modifies debugger`memory, debugger`patches
    ensures result == Refused || result == Checked || result == RolledBack ==>
      debugger.memory == old(debugger.memory) && debugger.patches == old(debugger.patches)
    ensures result == Checked ==> !apply
    ensures result != Refused <==>
      && 1 <= |entries| <= 4096 && ApartOffsets(entries)
      && forall i :: 0 <= i < |entries| ==> Checkable(image, file, slide, old(debugger.memory), entries[i])
    ensures result != Refused ==>
      1 <= |entries| <= 4096 && AllCheck(image, file, slide, old(debugger.memory), entries, checked)
    ensures AllSameLengths(debugger.patches)
    ensures result == Applied ==>
      && AllSameLengths(checked)
      && debugger.memory == Replay(old(debugger.memory), checked)
      && debugger.patches == RecordedEach(old(debugger.patches), checked)
    ensures result == Applied <==>
      result != Refused && apply && old(AllLand(debugger.stopped, debugger.memory, checked, landings))
    ensures debugger.stopped && (forall i :: 0 <= i < |checked| ==> Arrives(restores(i), |checked[i].orig|)) ==>
      result != RollbackFailed
    ensures result == Applied && DisjointSections(image) ==>
      (old(debugger.Tracked()) ==> debugger.Tracked())
      && forall i :: 0 <= i < |checked| ==>
           Mapped(debugger.memory, checked[i].addr, |checked[i].data|)
           && Bytes(debugger.memory, checked[i].addr, |checked[i].data|) == entries[i].data
  {
    hide IsDiff, Checks, Fits, ApartPatches, ApartOffsets, DisjointSections, Checkable;
    checked := [];
    if !(1 <= |entries| <= 4096) {
      return Refused, checked;
    }
    ghost var m := debugger.memory;
    var ok;
    ok, checked := CheckEntries(image, file, slide, debugger.memory, entries);
    if !ok {
      return Refused, checked;
    }
    if !apply {
      return Checked, checked;
    }
    CheckedFit(image, file, slide, m, entries, checked);
    result := ApplyAll(debugger, checked, landings, restores);
    if result != Applied {
      return;
    }
    RecordEach(debugger, checked, m);
    ReplayKeys(m, checked);
    if DisjointSections(image) {
      ApartAddresses(image, file, slide, m, entries, checked);
      forall i | 0 <= i < |checked|
        ensures Mapped(debugger.memory, checked[i].addr, |checked[i].data|)
          && Bytes(debugger.memory, checked[i].addr, |checked[i].data|) == entries[i].data
      {
        CheckedData(image, file, slide, m, entries, checked, i);
        AllPresent(m, checked, |checked|, i);
        assert checked[..|checked|] == checked;
      }
    }
  }

  lemma CheckedData(image: Image, file: seq<Byte>, slide: int, m: Memory, entries: seq<Entry>, checked: seq<Patch>, i: nat)
    requires AllCheck(image, file, slide, m, entries, checked) && i < |checked|
    ensures checked[i].data == entries[i].data
  {
    assert Checks(image, file, slide, m, entries[i], checked[i]);
  }
}
