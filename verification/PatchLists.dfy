// What recording edits does to a patch list that need not be current: the target may have changed listed
// bytes since, and the list may have been loaded from a file or kept over a restart.
module PatchLists {
  import opened Patches
  import opened Edits

  // ----- recording a patch, byte by byte

  lemma {:induction false} OverlayBytesAt(values: Changes, p: Patch, n: nat, a: int)
    requires SameLengths(p) && n <= |p.data|
    ensures p.addr <= a < p.addr + n ==>
      var i := a - p.addr;
      a in OverlayBytes(values, p, n)
      && OverlayBytes(values, p, n)[a] == Change(if a in values then values[a].before else p.orig[i], p.data[i])
    ensures !(p.addr <= a < p.addr + n) ==>
      (a in OverlayBytes(values, p, n) <==> a in values)
      && (a in values ==> OverlayBytes(values, p, n)[a] == values[a])
    decreases n
  {
    if n > 0 {
      OverlayBytesAt(values, p, n - 1, a);
    }
  }

  // A canonical list overlaid is the difference it lists.
  lemma {:induction false} OverlayAt(runs: seq<Patch>, a: int)
    requires Canonical(runs) && AllSameLengths(runs)
    ensures a in Overlay(runs) <==> a in DiffOf(runs)
    ensures a in DiffOf(runs) ==> Overlay(runs)[a] == DiffOf(runs)[a]
    decreases |runs|
  {
    if runs != [] {
      var init, last := runs[..|runs| - 1], runs[|runs| - 1];
      CanonicalPrefix(runs, |runs| - 1);
      OverlayAt(init, a);
      OverlayBytesAt(Overlay(init), last, |last.data|, a);
      if a in DiffOf(init) {
        InitBelow(runs, a);
      }
    }
  }

  lemma OverlayIsDiff(runs: seq<Patch>)
    requires Canonical(runs)
    ensures AllSameLengths(runs) && Overlay(runs) == DiffOf(runs)
  {
    hide Overlay, DiffOf, Canonical;
    CanonicalLengths(runs);
    forall a | a in Overlay(runs) || a in DiffOf(runs)
      ensures a in Overlay(runs) && a in DiffOf(runs) && Overlay(runs)[a] == DiffOf(runs)[a]
    {
      OverlayAt(runs, a);
    }
    assert Overlay(runs).Keys == DiffOf(runs).Keys;
  }

  // Each listed byte really changes.
  ghost predicate Differs(diff: Changes) {
    forall a :: a in diff ==> diff[a].before != diff[a].after
  }

  lemma CanonicalDiffers(runs: seq<Patch>)
    requires Canonical(runs)
    ensures AllSameLengths(runs) && Differs(DiffOf(runs))
  {
    hide DiffOf, Canonical;
    CanonicalLengths(runs);
    forall a | a in DiffOf(runs) ensures DiffOf(runs)[a].before != DiffOf(runs)[a].after {
      InDiff(runs, a);
      var k :| 0 <= k < |runs| && a in Covered(runs[k]);
      DiffAt(runs, k, a);
      RunDiffers(runs, k, a);
    }
  }

  lemma RunDiffers(runs: seq<Patch>, k: nat, a: int)
    requires Canonical(runs) && AllSameLengths(runs) && k < |runs| && a in Covered(runs[k])
    ensures Covered(runs[k])[a].before != Covered(runs[k])[a].after
  {
  }

  lemma EffectiveSame(diff: Changes)
    requires Differs(diff)
    ensures Effective(diff) == diff
  {
    forall a | a in diff ensures a in Effective(diff) {
      assert diff[a].before != diff[a].after;
    }
    assert Effective(diff).Keys == diff.Keys;
  }

  // A canonical list is its own normal form.
  lemma NormalOfCanonical(runs: seq<Patch>)
    requires Canonical(runs)
    ensures AllSameLengths(runs) && Normal(runs) == runs
  {
    hide Overlay, DiffOf, Canonical, Normal;
    OverlayIsDiff(runs);
    CanonicalDiffers(runs);
    NormalIsCanonical(runs);
    EffectiveSame(DiffOf(runs));
    CanonicalUnique(Normal(runs), runs);
  }

  // ----- the list after edits

  function Span(addr: int, n: nat): (r: set<int>)
    ensures forall a :: a in r <==> addr <= a < addr + n
  {
    if n == 0 then {} else Span(addr, n - 1) + {addr + n - 1}
  }

  // The list after edits of the bytes `touched` have led from memory `m` to `m'`: there, what was before
  // everything listed against what is there now; elsewhere nothing changes.
  function Since(diff: Changes, m: Memory, m': Memory, touched: set<int>): Changes
    requires touched <= m.Keys && touched <= m'.Keys
  {
    map a | a in diff.Keys + touched && (a in touched ==> First(diff, m, a) != m'[a]) ::
      if a in touched then Change(First(diff, m, a), m'[a]) else diff[a]
  }

  function First(diff: Changes, m: Memory, a: int): Byte
    requires a in m
  {
    if a in diff then diff[a].before else m[a]
  }

  // `runs` became `runs'` while edits of the bytes `touched` led from memory `m` to `m'`.
  ghost predicate Moved(runs: seq<Patch>, m: Memory, runs': seq<Patch>, m': Memory, touched: set<int>) {
    && Canonical(runs) && Canonical(runs') && AllSameLengths(runs) && AllSameLengths(runs')
    && m.Keys == m'.Keys && touched <= m.Keys
    && (forall a :: a in m && a !in touched ==> m'[a] == m[a])
    && DiffOf(runs') == Since(DiffOf(runs), m, m', touched)
  }

  lemma SpanMapped(m: Memory, addr: int, n: nat)
    requires Mapped(m, addr, n)
    ensures Span(addr, n) <= m.Keys
  {
    forall a | a in Span(addr, n) ensures a in m {
      MappedAt(m, addr, n, a - addr);
    }
  }

  // Recording an edit, whatever the list says about the bytes edited.
  lemma RecordedMoves(runs: seq<Patch>, m: Memory, addr: int, data: seq<Byte>)
    requires Canonical(runs) && Mapped(m, addr, |data|)
    ensures AllSameLengths(runs)
    ensures Moved(runs, m, Recorded(runs, m, addr, data), Put(m, addr, data), Span(addr, |data|))
  {
    hide Canonical, DiffOf, Normal, Overlay, Moved;
    CanonicalLengths(runs);
    SpanMapped(m, addr, |data|);
    if data == [] {
      NothingMoves(runs, m);
      assert Put(m, addr, data) == m && Span(addr, 0) == {};
    } else {
      var p := Patch(addr, Bytes(m, addr, |data|), data);
      OverlayIsDiff(runs);
      OverlaySnoc(runs, p);
      NormalIsCanonical(runs + [p]);
      CanonicalLengths(Normal(runs + [p]));
      CanonicalDiffers(runs);
      EffectiveSince(DiffOf(runs), m, p);
      RecordedMoved(runs, m, p);
    }
  }

  lemma RecordedMoved(runs: seq<Patch>, m: Memory, p: Patch)
    requires Canonical(runs) && SameLengths(p) && AllSameLengths(runs + [p]) && Canonical(Normal(runs + [p]))
    requires Span(p.addr, |p.data|) <= m.Keys && AllSameLengths(Normal(runs + [p]))
    requires DiffOf(Normal(runs + [p])) == Since(DiffOf(runs), m, Put(m, p.addr, p.data), Span(p.addr, |p.data|))
    ensures AllSameLengths(runs)
    ensures Moved(runs, m, Normal(runs + [p]), Put(m, p.addr, p.data), Span(p.addr, |p.data|))
  {
    hide Canonical, DiffOf, Normal, Since;
    CanonicalLengths(runs);
  }

  lemma NothingMoves(runs: seq<Patch>, m: Memory)
    requires Canonical(runs)
    ensures Moved(runs, m, runs, m, {})
  {
    hide Canonical, DiffOf;
    CanonicalLengths(runs);
    assert Since(DiffOf(runs), m, m, {}) == DiffOf(runs);
  }

  lemma OverlaySnoc(patches: seq<Patch>, p: Patch)
    requires AllSameLengths(patches) && SameLengths(p)
    ensures AllSameLengths(patches + [p])
    ensures Overlay(patches + [p]) == OverlayBytes(Overlay(patches), p, |p.data|)
  {
    assert (patches + [p])[..|patches|] == patches;
  }

  lemma EffectiveSince(diff: Changes, m: Memory, p: Patch)
    requires Fits(m, p) && Differs(diff) && Span(p.addr, |p.data|) <= m.Keys
    ensures Effective(OverlayBytes(diff, p, |p.data|)) == Since(diff, m, Put(m, p.addr, p.data), Span(p.addr, |p.data|))
  {
    hide OverlayBytes;
    var left, right := Effective(OverlayBytes(diff, p, |p.data|)), Since(diff, m, Put(m, p.addr, p.data), Span(p.addr, |p.data|));
    forall a | a in left || a in right ensures a in left && a in right && left[a] == right[a] {
      EffectiveSinceAt(diff, m, p, a);
    }
    assert left.Keys == right.Keys;
  }

  lemma EffectiveSinceAt(diff: Changes, m: Memory, p: Patch, a: int)
    requires Fits(m, p) && Differs(diff) && Span(p.addr, |p.data|) <= m.Keys
    ensures var left, right :=
        Effective(OverlayBytes(diff, p, |p.data|)), Since(diff, m, Put(m, p.addr, p.data), Span(p.addr, |p.data|));
      (a in left <==> a in right) && (a in left ==> left[a] == right[a])
  {
    hide OverlayBytes, Mapped, Bytes;
    OverlayBytesAt(diff, p, |p.data|, a);
    if p.addr <= a < p.addr + |p.data| {
      BytesAt(m, p.addr, |p.orig|, a - p.addr);
    }
  }

  // Edits in a row are one edit of all their bytes.
  lemma SinceTrans(diff: Changes, m: Memory, m': Memory, m'': Memory, t: set<int>, t': set<int>)
    requires m.Keys == m'.Keys == m''.Keys && t <= m.Keys && t' <= m.Keys
    requires forall a :: a in m && a !in t ==> m'[a] == m[a]
    requires forall a :: a in m && a !in t' ==> m''[a] == m'[a]
    ensures Since(Since(diff, m, m', t), m', m'', t') == Since(diff, m, m'', t + t')
  {
    var left, right := Since(Since(diff, m, m', t), m', m'', t'), Since(diff, m, m'', t + t');
    forall a | a in left || a in right ensures a in left && a in right && left[a] == right[a] {
      SinceTransAt(diff, m, m', m'', t, t', a);
    }
    assert left.Keys == right.Keys;
  }

  lemma SinceTransAt(diff: Changes, m: Memory, m': Memory, m'': Memory, t: set<int>, t': set<int>, a: int)
    requires m.Keys == m'.Keys == m''.Keys && t <= m.Keys && t' <= m.Keys
    requires a in m && a !in t ==> m'[a] == m[a]
    requires a in m && a !in t' ==> m''[a] == m'[a]
    ensures var left, right := Since(Since(diff, m, m', t), m', m'', t'), Since(diff, m, m'', t + t');
      (a in left <==> a in right) && (a in left ==> left[a] == right[a])
  {
    assert a in t ==> a in m;
    assert a in t' ==> a in m;
  }

  lemma MovedTrans(runs: seq<Patch>, m: Memory, runs': seq<Patch>, m': Memory, runs'': seq<Patch>, m'': Memory,
                   t: set<int>, t': set<int>)
    requires Moved(runs, m, runs', m', t) && Moved(runs', m', runs'', m'', t')
    ensures Moved(runs, m, runs'', m'', t + t')
  {
    hide Canonical, DiffOf, Since;
    SinceTrans(DiffOf(runs), m, m', m'', t, t');
  }

  // ----- coming back to the memory before

  // Every listed byte of `touched` holds its listed new value.
  ghost predicate Current(diff: Changes, m: Memory, touched: set<int>) {
    forall a :: a in touched && a in diff ==> a in m && m[a] == diff[a].after
  }

  // When edits come back to the memory they began with, the list is what it was if and only if every listed
  // byte they touched held its listed new value at the beginning.
  lemma BackIsCurrent(runs: seq<Patch>, m: Memory, runs': seq<Patch>, touched: set<int>)
    requires Moved(runs, m, runs', m, touched)
    ensures runs' == runs <==> Current(DiffOf(runs), m, touched)
  {
    hide Canonical, DiffOf;
    CanonicalDiffers(runs);
    var diff := DiffOf(runs);
    if runs' == runs {
      forall a | a in touched && a in diff ensures a in m && m[a] == diff[a].after {
        assert Since(diff, m, m, touched)[a] == diff[a];
      }
    }
    if Current(diff, m, touched) {
      CurrentBack(diff, m, touched);
      CanonicalUnique(runs', runs);
    }
  }

  lemma CurrentBack(diff: Changes, m: Memory, touched: set<int>)
    requires Current(diff, m, touched) && Differs(diff) && touched <= m.Keys
    ensures Since(diff, m, m, touched) == diff
  {
  }

  // One edit and the write of the old bytes. Of the whole list nothing is asked, only of the bytes edited.
  lemma WriteBack(runs: seq<Patch>, m: Memory, addr: int, data: seq<Byte>)
    requires Canonical(runs) && Mapped(m, addr, |data|)
    ensures var m' := Put(m, addr, data);
      && AllSameLengths(runs) && AllSameLengths(Recorded(runs, m, addr, data)) && Mapped(m', addr, |data|)
      && Put(m', addr, Bytes(m, addr, |data|)) == m
      && (Recorded(Recorded(runs, m, addr, data), m', addr, Bytes(m, addr, |data|)) == runs
          <==> Current(DiffOf(runs), m, Span(addr, |data|)))
  {
    hide Canonical, DiffOf, Recorded, Moved, Current;
    RecordedMoves(runs, m, addr, data);
    MovedEnds(runs, m, Recorded(runs, m, addr, data), Put(m, addr, data), Span(addr, |data|));
    var m', runs', before := Put(m, addr, data), Recorded(runs, m, addr, data), Bytes(m, addr, |data|);
    PutMapped(m, addr, data, addr, |data|);
    MemoryRestored(m, addr, data);
    RecordedMoves(runs', m', addr, before);
    MovedTrans(runs, m, runs', m', Recorded(runs', m', addr, before), m, Span(addr, |data|), Span(addr, |data|));
    assert Span(addr, |data|) + Span(addr, |data|) == Span(addr, |data|);
    BackIsCurrent(runs, m, Recorded(runs', m', addr, before), Span(addr, |data|));
  }

  lemma MovedEnds(runs: seq<Patch>, m: Memory, runs': seq<Patch>, m': Memory, touched: set<int>)
    requires Moved(runs, m, runs', m', touched)
    ensures Canonical(runs) && Canonical(runs') && AllSameLengths(runs) && AllSameLengths(runs') && m.Keys == m'.Keys
  {
  }

  // A list that is the difference between the original and the current memory is current everywhere.
  lemma DiffIsCurrent(runs: seq<Patch>, original: Memory, m: Memory, touched: set<int>)
    requires IsDiff(runs, original, m)
    ensures AllSameLengths(runs) && Current(DiffOf(runs), m, touched)
  {
    CanonicalLengths(runs);
  }

  // The byte at 0 was 1 and is listed as 2. The target stores 3 there; the byte is edited to 4 and the edit
  // undone: memory holds 3 again, and the list says 3.
  lemma StaleListChanges()
    ensures var runs, m := [Patch(0, [1], [2])], map[0 := 3 as Byte];
      && Canonical(runs) && AllSameLengths(runs) && Mapped(m, 0, 1) && Mapped(Put(m, 0, [4]), 0, 1)
      && AllSameLengths(Recorded(runs, m, 0, [4]))
      && Put(Put(m, 0, [4]), 0, Bytes(m, 0, 1)) == m
      && Recorded(Recorded(runs, m, 0, [4]), Put(m, 0, [4]), 0, Bytes(m, 0, 1)) == [Patch(0, [1], [3])]
  {
    hide Recorded;
    var runs, m := [Patch(0, [1], [2])], map[0 := 3 as Byte];
    var last := [Patch(0, [1], [3])];
    WriteBack(runs, m, 0, [4]);
    var runs', m' := Recorded(runs, m, 0, [4]), Put(m, 0, [4]);
    RecordedMoves(runs, m, 0, [4]);
    assert Bytes(m, 0, 1) == [3];
    RecordedMoves(runs', m', 0, [3]);
    var runs'' := Recorded(runs', m', 0, [3]);
    MovedTrans(runs, m, runs', m', runs'', m, Span(0, 1), Span(0, 1));
    assert Span(0, 1) + Span(0, 1) == {0};
    StaleDiff();
    CanonicalUnique(runs'', last);
  }

  lemma StaleDiff()
    ensures Canonical([Patch(0, [1], [2])]) && Canonical([Patch(0, [1], [3])])
    ensures DiffOf([Patch(0, [1], [3])]) == Since(DiffOf([Patch(0, [1], [2])]), map[0 := 3], map[0 := 3], {0})
  {
    CoveredOne(0, Change(1, 2));
    CoveredOne(0, Change(1, 3));
    assert DiffOf([Patch(0, [1], [2])]) == map[0 := Change(1, 2)];
    assert DiffOf([Patch(0, [1], [3])]) == map[0 := Change(1, 3)];
  }

  lemma MemoryRestored(m: Memory, addr: int, data: seq<Byte>)
    requires Mapped(m, addr, |data|)
    ensures var m' := Put(m, addr, data);
      Mapped(m', addr, |data|) && Bytes(m', addr, |data|) == data && Put(m', addr, Bytes(m, addr, |data|)) == m
  {
    PutBytes(m, addr, data);
    PutBack(m, addr, data, Landing(|data|, true, |data|));
    assert data[..|data|] == data;
  }
}
