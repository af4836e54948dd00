// The target's memory and registers under the debugger's edits: writes that may fail half-way, the
// tracked patch list, edits with rollback, and undo.
module Edits {
  import opened Patches

  // What a write request does in the target: how many bytes arrive, whether it reports success, and the
  // number of bytes it reports.
  datatype Landing = Landing(written: nat, success: bool, count: nat)

  // The longest readable prefix found by halving the length.
  function ReadMemory(m: Memory, addr: int, size: nat): (r: seq<Byte>)
    ensures |r| <= size
    ensures Mapped(m, addr, size) ==> r == Bytes(m, addr, size)
    ensures |r| == size ==> Mapped(m, addr, size)
    decreases size
  {
    if size == 0 then []
    else if Mapped(m, addr, size) then Bytes(m, addr, size)
    else ReadMemory(m, addr, size / 2)
  }

  function Landed(m: Memory, addr: int, data: seq<Byte>, landing: Landing): Memory {
    Put(m, addr, if landing.written <= |data| then data[..landing.written] else data)
  }

  // The write is reported complete and reads back.
  predicate Verified(m: Memory, addr: int, data: seq<Byte>, landing: Landing) {
    landing.success && landing.count == |data| && ReadMemory(Landed(m, addr, data, landing), addr, |data|) == data
  }

  lemma {:induction false} PutMapped(m: Memory, addr: int, data: seq<Byte>, a: int, n: nat)
    ensures Mapped(Put(m, addr, data), a, n) == Mapped(m, a, n)
    decreases n
  {
    if n > 0 {
      PutMapped(m, addr, data, a + 1, n - 1);
    }
  }

  lemma PutBytes(m: Memory, addr: int, data: seq<Byte>)
    requires Mapped(m, addr, |data|)
    ensures Mapped(Put(m, addr, data), addr, |data|) && Bytes(Put(m, addr, data), addr, |data|) == data
  {
    PutMapped(m, addr, data, addr, |data|);
    forall i | 0 <= i < |data| ensures Bytes(Put(m, addr, data), addr, |data|)[i] == data[i] {
      BytesAt(Put(m, addr, data), addr, |data|, i);
    }
  }

  // Memory that differs from `m` only in a range, and holds `data` there, is `m` with `data` put there.
  lemma OnlyRange(m: Memory, m': Memory, addr: int, data: seq<Byte>)
    requires m.Keys == m'.Keys && Mapped(m, addr, |data|) && Mapped(m', addr, |data|)
    requires Bytes(m', addr, |data|) == data
    requires forall a :: a in m && !(addr <= a < addr + |data|) ==> m'[a] == m[a]
    ensures m' == Put(m, addr, data)
  {
    forall a | a in m ensures m'[a] == Put(m, addr, data)[a] {
      if addr <= a < addr + |data| {
        BytesAt(m', addr, |data|, a - addr);
      }
    }
  }

  lemma LandedOutside(m: Memory, addr: int, data: seq<Byte>, landing: Landing)
    ensures Landed(m, addr, data, landing).Keys == m.Keys
    ensures forall a :: a in m && !(addr <= a < addr + |data|) ==> Landed(m, addr, data, landing)[a] == m[a]
  {
  }

  // A verified write has put all of its bytes, and nothing else.
  lemma VerifiedIsPut(m: Memory, addr: int, data: seq<Byte>, landing: Landing)
    requires Verified(m, addr, data, landing)
    ensures Mapped(m, addr, |data|) && Landed(m, addr, data, landing) == Put(m, addr, data)
  {
    var m' := Landed(m, addr, data, landing);
    LandedOutside(m, addr, data, landing);
    PutMapped(m, addr, if landing.written <= |data| then data[..landing.written] else data, addr, |data|);
    OnlyRange(m, m', addr, data);
  }

  // Putting back what was read undoes whatever part of a write has landed.
  lemma PutBack(m: Memory, addr: int, data: seq<Byte>, landing: Landing)
    requires Mapped(m, addr, |data|)
    ensures Put(Landed(m, addr, data, landing), addr, Bytes(m, addr, |data|)) == m
  {
    LandedOutside(m, addr, data, landing);
    var before := Bytes(m, addr, |data|);
    forall a | a in m ensures Put(Landed(m, addr, data, landing), addr, before)[a] == m[a] {
      if addr <= a < addr + |data| {
        BytesAt(m, addr, |data|, a - addr);
      }
    }
  }

  lemma SameRead(m: Memory, addr: int, data: seq<Byte>, landing: Landing)
    requires Mapped(m, addr, |data|)
    requires ReadMemory(Landed(m, addr, data, landing), addr, |data|) == Bytes(m, addr, |data|)
    ensures Landed(m, addr, data, landing) == m
  {
    var before := Bytes(m, addr, |data|);
    var m' := Landed(m, addr, data, landing);
    LandedOutside(m, addr, data, landing);
    PutMapped(m, addr, if landing.written <= |data| then data[..landing.written] else data, addr, |data|);
    OnlyRange(m, m', addr, before);
    OnlyRange(m, m, addr, before);
  }

  // ----- the tracked list

  function Recorded(patches: seq<Patch>, m: Memory, addr: int, data: seq<Byte>): seq<Patch>
    requires AllSameLengths(patches) && Mapped(m, addr, |data|)
  {
    if data == [] then patches else Normal(patches + [Patch(addr, Bytes(m, addr, |data|), data)])
  }

  lemma RecordedIsDiff(original: Memory, m: Memory, patches: seq<Patch>, addr: int, data: seq<Byte>)
    requires IsDiff(patches, original, m) && original.Keys == m.Keys && Mapped(m, addr, |data|)
    ensures AllSameLengths(patches)
    ensures IsDiff(Recorded(patches, m, addr, data), original, Put(m, addr, data))
  {
    hide IsDiff, Normal;
    DiffLengths(patches, original, m);
    if data == [] {
      assert Put(m, addr, data) == m;
    } else {
      RecordOne(original, m, patches, Patch(addr, Bytes(m, addr, |data|), data));
    }
  }

  lemma DiffLengths(patches: seq<Patch>, from: Memory, to: Memory)
    requires IsDiff(patches, from, to)
    ensures AllSameLengths(patches)
  {
  }

  // The bytes a patch has written are in memory.
  predicate StillThere(m: Memory, p: Patch) {
    ReadMemory(m, p.addr, |p.data|) == p.data
  }

  function Dropped(runs: seq<Patch>, k: nat): seq<Patch>
    requires k < |runs|
  {
    runs[..k] + runs[k + 1..]
  }

  lemma CanonicalOrder(runs: seq<Patch>, i: nat, j: nat)
    requires Canonical(runs) && i < j < |runs|
    ensures End(runs[i]) < runs[j].addr
    decreases j - i
  {
    assert End(runs[j - 1]) < runs[j - 1 + 1].addr;
    if i < j - 1 {
      CanonicalOrder(runs, i, j - 1);
    }
  }

  lemma RunProper(runs: seq<Patch>, k: nat)
    requires Canonical(runs) && k < |runs|
    ensures ProperRun(runs[k])
  {
  }

  lemma DroppedCanonical(runs: seq<Patch>, k: nat)
    requires Canonical(runs) && k < |runs|
    ensures Canonical(Dropped(runs, k))
  {
    var r := Dropped(runs, k);
    forall i | 0 <= i < |r| - 1 ensures End(r[i]) < r[i + 1].addr {
      var a, b := if i < k then i else i + 1, if i + 1 < k then i + 1 else i + 2;
      assert r[i] == runs[a] && r[i + 1] == runs[b];
      CanonicalOrder(runs, a, b);
    }
    forall i | 0 <= i < |r| ensures ProperRun(r[i]) {
      assert r[i] == runs[if i < k then i else i + 1];
    }
  }

  // Each listed address belongs to one run.
  lemma {:induction false} InDiff(runs: seq<Patch>, a: int)
    requires AllSameLengths(runs)
    ensures a in DiffOf(runs) <==> exists k :: 0 <= k < |runs| && a in Covered(runs[k])
    decreases |runs|
  {
    if runs != [] {
      var init := runs[..|runs| - 1];
      InDiff(init, a);
      forall k | 0 <= k < |runs| && a in Covered(runs[k]) ensures a in DiffOf(runs) {
        assert k < |init| ==> init[k] == runs[k];
      }
      if a in DiffOf(runs) && a !in Covered(runs[|runs| - 1]) {
        var k :| 0 <= k < |init| && a in Covered(init[k]);
        assert runs[k] == init[k];
      }
    }
  }

  lemma {:induction false} DiffAt(runs: seq<Patch>, k: nat, a: int)
    requires Canonical(runs) && AllSameLengths(runs) && k < |runs| && a in Covered(runs[k])
    ensures a in DiffOf(runs) && DiffOf(runs)[a] == Covered(runs[k])[a]
    decreases |runs|
  {
    hide Canonical, Covered;
    if k < |runs| - 1 {
      var init := runs[..|runs| - 1];
      CanonicalPrefix(runs, |runs| - 1);
      assert init[k] == runs[k];
      DiffAt(init, k, a);
      OneRun(runs, k, |runs| - 1, a);
    }
  }

  lemma DroppedDiff(runs: seq<Patch>, k: nat)
    requires Canonical(runs) && k < |runs|
    ensures AllSameLengths(runs) && AllSameLengths(Dropped(runs, k))
    ensures DiffOf(Dropped(runs, k)) == DiffOf(runs) - Covered(runs[k]).Keys
  {
    hide DiffOf, Canonical, Covered;
    var r := Dropped(runs, k);
    CanonicalLengths(runs);
    DroppedCanonical(runs, k);
    CanonicalLengths(r);
    forall a | a in DiffOf(r) ensures a in DiffOf(runs) - Covered(runs[k]).Keys && DiffOf(r)[a] == DiffOf(runs)[a] {
      DroppedIn(runs, k, a);
    }
    forall a | a in DiffOf(runs) - Covered(runs[k]).Keys ensures a in DiffOf(r) {
      KeptIn(runs, k, a);
    }
    assert DiffOf(r).Keys == (DiffOf(runs) - Covered(runs[k]).Keys).Keys;
  }

  lemma DroppedIn(runs: seq<Patch>, k: nat, a: int)
    requires Canonical(runs) && k < |runs| && AllSameLengths(runs)
    requires Canonical(Dropped(runs, k)) && AllSameLengths(Dropped(runs, k)) && a in DiffOf(Dropped(runs, k))
    ensures a in DiffOf(runs) && a !in Covered(runs[k]) && DiffOf(Dropped(runs, k))[a] == DiffOf(runs)[a]
  {
    hide DiffOf, Canonical, Covered;
    var r := Dropped(runs, k);
    InDiff(r, a);
    var i :| 0 <= i < |r| && a in Covered(r[i]);
    var j := if i < k then i else i + 1;
    assert r[i] == runs[j];
    DiffAt(r, i, a);
    DiffAt(runs, j, a);
    OneRun(runs, j, k, a);
  }

  lemma KeptIn(runs: seq<Patch>, k: nat, a: int)
    requires Canonical(runs) && k < |runs| && AllSameLengths(runs)
    requires Canonical(Dropped(runs, k)) && AllSameLengths(Dropped(runs, k))
    requires a in DiffOf(runs) && a !in Covered(runs[k])
    ensures a in DiffOf(Dropped(runs, k))
  {
    hide DiffOf, Canonical, Covered;
    var r := Dropped(runs, k);
    InDiff(runs, a);
    var j :| 0 <= j < |runs| && a in Covered(runs[j]);
    var i := if j < k then j else j - 1;
    assert r[i] == runs[j];
    DiffAt(r, i, a);
  }

  lemma OneRun(runs: seq<Patch>, j: nat, k: nat, a: int)
    requires Canonical(runs) && j < |runs| && k < |runs| && j != k && a in Covered(runs[j])
    ensures a !in Covered(runs[k])
  {
    if j < k {
      CanonicalOrder(runs, j, k);
    } else {
      CanonicalOrder(runs, k, j);
    }
  }

  // Restoring the bytes of one run removes exactly that run from the difference.
  lemma RevertIsDiff(original: Memory, m: Memory, runs: seq<Patch>, k: nat)
    requires IsDiff(runs, original, m) && original.Keys == m.Keys && k < |runs|
    ensures IsDiff(Dropped(runs, k), original, Put(m, runs[k].addr, runs[k].orig))
  {
    hide DiffOf, Canonical, Covered;
    CanonicalLengths(runs);
    DroppedCanonical(runs, k);
    DroppedDiff(runs, k);
    var p := runs[k];
    var m' := Put(m, p.addr, p.orig);
    forall a | a in original ensures m'[a] == if a in Covered(p) then original[a] else m[a] {
      RunBytes(runs, k, a);
      if a in Covered(p) {
        DiffAt(runs, k, a);
      }
    }
    assert Differences(original, m') == Differences(original, m) - Covered(p).Keys;
  }

  lemma RunBytes(runs: seq<Patch>, k: nat, a: int)
    requires Canonical(runs) && AllSameLengths(runs) && k < |runs|
    ensures a in Covered(runs[k]) <==> runs[k].addr <= a < runs[k].addr + |runs[k].orig|
    ensures a in Covered(runs[k]) ==> Covered(runs[k])[a].before == runs[k].orig[a - runs[k].addr]
  {
  }
}
