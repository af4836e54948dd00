// Writing a patch manifest, and the proof that importing it on the original memory gives back the patched
// memory and the list.
module ManifestExport {
  import opened Options
  import opened Patches
  import opened Edits
  import opened PatchLists
  import opened DebuggerMemory
  import opened Manifest

  // ----- the program

  // The run is in the file, the file has its original bytes, and memory its new ones.
  predicate Exportable(image: Image, file: seq<Byte>, slide: int, m: Memory, r: Patch) {
    InFile(image, file, slide, r) && ReadMemory(m, r.addr, |r.data|) == r.data
  }

  predicate InFile(image: Image, file: seq<Byte>, slide: int, r: Patch) {
    var o := FileOffset(image, r.addr - slide, |r.data|);
    o.Some? && 0 <= o.value && o.value + |r.data| <= |file| && file[o.value..o.value + |r.data|] == r.orig
  }

  function EntryFor(image: Image, slide: int, r: Patch): Entry {
    var o := FileOffset(image, r.addr - slide, |r.data|);
    Entry(if o.Some? then o.value else 0, r.orig, r.data)
  }

  ghost predicate Exports(image: Image, file: seq<Byte>, slide: int, m: Memory, runs: seq<Patch>, entries: seq<Entry>) {
    runs != [] && |entries| == |runs|
    && forall i :: 0 <= i < |runs| ==> Exportable(image, file, slide, m, runs[i]) && entries[i] == EntryFor(image, slide, runs[i])
  }

  lemma OffsetNatural(image: Image, a: int, n: nat)
    ensures FileOffset(image, a, n).Some? ==> FileOffset(image, a, n).value >= 0
  {
    var s := ByAddress(image.sections, a, n);
    assert |s| == 1 ==> s[0] in s;
  }

  // A manifest is written exactly when there is something to write, each run of the list lies in the file,
  // and neither the file nor memory has changed there; it has one entry for each run.
  method Export(image: Image, file: seq<Byte>, slide: int, m: Memory, patches: seq<Patch>)
    returns (ok: bool, entries: seq<Entry>)
    ensures ok <==>
      && AllSameLengths(patches) && Normal(patches) != []
      && forall i :: 0 <= i < |Normal(patches)| ==> Exportable(image, file, slide, m, Normal(patches)[i])
    ensures ok ==> AllSameLengths(patches) && Exports(image, file, slide, m, Normal(patches), entries)
  {
    hide Normal, FileOffset, ReadMemory;
    entries := [];
    var runs;
    ok, runs := Normalized(patches);
    if !ok {
      return false, [];
    }
    var i := 0;
    while i < |runs|
      invariant 0 <= i <= |runs| && |entries| == i
      invariant forall k :: 0 <= k < i ==> Exportable(image, file, slide, m, runs[k]) && entries[k] == EntryFor(image, slide, runs[k])
    {
      var r := runs[i];
      var o := FileOffset(image, r.addr - slide, |r.data|);
      OffsetNatural(image, r.addr - slide, |r.data|);
      if o == None {
        assert !Exportable(image, file, slide, m, runs[i]);
        return false, [];
      }
      if o.value + |r.data| > |file| || file[o.value..o.value + |r.data|] != r.orig {
        assert !Exportable(image, file, slide, m, runs[i]);
        return false, [];
      }
      if ReadMemory(m, r.addr, |r.data|) != r.data {
        assert !Exportable(image, file, slide, m, runs[i]);
        return false, [];
      }
      entries := entries + [Entry(o.value, r.orig, r.data)];
      i := i + 1;
    }
    ok := entries != [];
  }

  // ----- translating back

  // The sections' file ranges do not overlap.
  ghost predicate FileApart(sections: seq<Section>) {
    forall i, j :: 0 <= i < j < |sections| && !sections[i].zero && !sections[j].zero ==>
      Apart(sections[i].offset, sections[i].size, sections[j].offset, sections[j].size)
  }

  lemma {:induction false} OneByOffset(sections: seq<Section>, o: int, n: nat)
    requires FileApart(sections) && n >= 1
    ensures |ByOffset(sections, o, n)| <= 1
  {
    if sections != [] {
      var rest := sections[1..];
      assert forall k :: 0 <= k < |rest| ==> rest[k] == sections[k + 1];
      OneByOffset(rest, o, n);
      if ByOffset(rest, o, n) != [] {
        var t := ByOffset(rest, o, n)[0];
        assert t in ByOffset(rest, o, n);
        var k :| 0 <= k < |rest| && rest[k] == t;
        assert sections[k + 1] == t;
      }
    }
  }

  lemma OffsetBack(image: Image, a: int, n: nat, o: int)
    requires FileApart(image.sections) && n >= 1 && FileOffset(image, a, n) == Some(o)
    ensures FileAddress(image, o, n) == Some(a)
  {
    var byAddress, byOffset := ByAddress(image.sections, a, n), ByOffset(image.sections, o, n);
    OneByOffset(image.sections, o, n);
    assert byAddress[0] in byAddress;
    assert byAddress[0] in byOffset;
    TranslationsInverse(image, a, o, n);
  }

  // Runs that are apart in memory are apart in the file.
  lemma OffsetsApart(image: Image, a: int, m: nat, o: int, b: int, n: nat, q: int)
    requires FileApart(image.sections) && m >= 1 && n >= 1 && Apart(a, m, b, n)
    requires FileOffset(image, a, m) == Some(o) && FileOffset(image, b, n) == Some(q)
    ensures Apart(o, m, q, n)
  {
    var s, t := ByAddress(image.sections, a, m), ByAddress(image.sections, b, n);
    assert s[0] in s && t[0] in t;
    var i :| 0 <= i < |image.sections| && image.sections[i] == s[0];
    var j :| 0 <= j < |image.sections| && image.sections[j] == t[0];
    assert i < j ==> Apart(s[0].offset, s[0].size, t[0].offset, t[0].size);
    assert j < i ==> Apart(t[0].offset, t[0].size, s[0].offset, s[0].size);
  }

  // ----- the round trip

  // What an import asks of its entries.
  ghost predicate Importable(image: Image, file: seq<Byte>, slide: int, m: Memory, entries: seq<Entry>) {
    1 <= |entries| <= 4096 && ApartOffsets(entries)
    && forall i :: 0 <= i < |entries| ==> Checkable(image, file, slide, m, entries[i])
  }

  // The runs of a difference lie apart, and the original memory has their original bytes.
  lemma RunOfDiff(original: Memory, m: Memory, runs: seq<Patch>, k: nat)
    requires IsDiff(runs, original, m) && original.Keys == m.Keys && k < |runs|
    ensures ProperRun(runs[k]) && Fits(original, runs[k])
  {
    hide DiffOf, Canonical, Covered;
    CanonicalLengths(runs);
    RunProper(runs, k);
    var p := runs[k];
    forall a | p.addr <= a < End(p) ensures a in original && original[a] == p.orig[a - p.addr] {
      CoveredAt(p, a - p.addr);
      DiffAt(runs, k, a);
    }
    RunFits(original, p);
  }

  lemma EntryChecks(image: Image, file: seq<Byte>, slide: int, original: Memory, r: Patch)
    requires FileApart(image.sections) && InFile(image, file, slide, r) && ProperRun(r) && Fits(original, r)
    ensures PatchFor(image, slide, EntryFor(image, slide, r)) == r
    ensures Checkable(image, file, slide, original, EntryFor(image, slide, r)) <==> |r.data| <= 4096
  {
    hide FileOffset, FileAddress;
    OffsetBack(image, r.addr - slide, |r.data|, FileOffset(image, r.addr - slide, |r.data|).value);
  }

  lemma EntriesApart(image: Image, file: seq<Byte>, slide: int, m: Memory, runs: seq<Patch>, entries: seq<Entry>)
    requires Canonical(runs) && Exports(image, file, slide, m, runs, entries) && FileApart(image.sections)
    ensures ApartOffsets(entries)
  {
    hide FileOffset, Canonical;
    forall i, j | 0 <= i < j < |entries|
      ensures Apart(entries[i].offset, |entries[i].data|, entries[j].offset, |entries[j].data|)
    {
      var r, s := runs[i], runs[j];
      assert Exportable(image, file, slide, m, r) && Exportable(image, file, slide, m, s);
      RunProper(runs, i);
      RunProper(runs, j);
      CanonicalOrder(runs, i, j);
      OffsetsApart(image, r.addr - slide, |r.data|, entries[i].offset, s.addr - slide, |s.data|, entries[j].offset);
    }
  }

  // The manifest of a list that is the difference between the original and the current memory is accepted on
  // the original memory if and only if no run is longer than 4096 bytes and there are at most 4096 of them;
  // its entries ask for exactly the runs of the list.
  lemma ManifestAccepted(image: Image, file: seq<Byte>, slide: int, original: Memory, m: Memory, runs: seq<Patch>,
                         entries: seq<Entry>)
    requires IsDiff(runs, original, m) && original.Keys == m.Keys && FileApart(image.sections)
    requires Exports(image, file, slide, m, runs, entries)
    ensures Importable(image, file, slide, original, entries) <==>
      |runs| <= 4096 && forall i :: 0 <= i < |runs| ==> |runs[i].data| <= 4096
    ensures forall i :: 0 <= i < |runs| ==> PatchFor(image, slide, entries[i]) == runs[i]
  {
    hide DiffOf, Canonical, ApartOffsets, Checkable, PatchFor, EntryFor, InFile, Fits, ProperRun;
    EntriesApart(image, file, slide, m, runs, entries);
    forall i | 0 <= i < |runs|
      ensures PatchFor(image, slide, entries[i]) == runs[i]
      ensures Checkable(image, file, slide, original, entries[i]) <==> |runs[i].data| <= 4096
    {
      assert Exportable(image, file, slide, m, runs[i]);
      RunOfDiff(original, m, runs, i);
      EntryChecks(image, file, slide, original, runs[i]);
    }
  }

  // Accepted, what an import has checked is the list; writing it leads from the original to the current
  // memory, and recording it gives the list back.
  lemma ManifestRoundTrip(image: Image, file: seq<Byte>, slide: int, original: Memory, m: Memory, runs: seq<Patch>,
                          entries: seq<Entry>, checked: seq<Patch>)
    requires IsDiff(runs, original, m) && original.Keys == m.Keys && FileApart(image.sections)
    requires Exports(image, file, slide, m, runs, entries) && AllCheck(image, file, slide, original, entries, checked)
    ensures checked == runs && AllSameLengths(runs)
    ensures Replay(original, runs) == m && RecordedEach([], runs) == runs
  {
    hide DiffOf, Canonical, Checks, PatchFor;
    CanonicalLengths(runs);
    ManifestAccepted(image, file, slide, original, m, runs, entries);
    forall i | 0 <= i < |runs| ensures checked[i] == runs[i] {
      assert Checks(image, file, slide, original, entries[i], checked[i]);
      CheckedPatch(image, file, slide, original, entries[i], checked[i]);
    }
    ReplayDiff(original, m, runs);
  }

  lemma CheckedPatch(image: Image, file: seq<Byte>, slide: int, m: Memory, e: Entry, p: Patch)
    requires Checks(image, file, slide, m, e, p)
    ensures p == PatchFor(image, slide, e)
  {
    hide FileAddress;
  }

  lemma ReplayDiff(original: Memory, m: Memory, runs: seq<Patch>)
    requires IsDiff(runs, original, m) && original.Keys == m.Keys
    ensures AllSameLengths(runs) && Replay(original, runs) == m && RecordedEach([], runs) == runs
  {
    hide DiffOf, Canonical, Normal, Replay, Consistent;
    CanonicalLengths(runs);
    DifferencesHold(original, m);
    ReplayCanonical(original, runs);
    RecordAllIsNormal(original, runs);
    NormalOfCanonical(runs);
    EachIsAll(runs);
  }

  lemma {:induction false} EachIsAll(runs: seq<Patch>)
    requires AllSameLengths(runs)
    ensures RecordedEach([], runs) == RecordAll(runs)
    decreases |runs|
  {
    hide Normal, Canonical;
    if runs != [] {
      EachIsAll(runs[..|runs| - 1]);
    }
  }

  // For a list that is the difference, memory always has the new bytes: only the file decides.
  lemma DiffExportable(image: Image, file: seq<Byte>, slide: int, original: Memory, m: Memory, runs: seq<Patch>, k: nat)
    requires IsDiff(runs, original, m) && original.Keys == m.Keys && k < |runs|
    ensures Exportable(image, file, slide, m, runs[k]) <==> InFile(image, file, slide, runs[k])
  {
    hide IsDiff, InFile;
    TrackedBytes(original, m, runs, k);
  }

  // In an image of one section of more than 4096 bytes: a run over the whole section is exported, and its
  // entry is refused by every import.
  lemma LongRunRefused(n: nat, other: Memory)
    requires n > 4096
    ensures var image, file := Image([Section(0, n, 0, false)], false), seq(n, _ => 0 as Byte);
      var m, r := map a | a in Span(0, n) :: 1 as Byte, Patch(0, seq(n, _ => 0), seq(n, _ => 1));
      Exportable(image, file, 0, m, r) && !Checkable(image, file, 0, other, EntryFor(image, 0, r))
  {
    hide FileOffset, FileAddress, Mapped, Bytes;
    var image, file := Image([Section(0, n, 0, false)], false), seq(n, _ => 0 as Byte);
    var m, r := map a | a in Span(0, n) :: 1 as Byte, Patch(0, seq(n, _ => 0), seq(n, _ => 1));
    RunBack(m, r);
    OneSection(n);
    assert file[0..n] == r.orig;
  }

  lemma OneSection(n: nat)
    ensures FileOffset(Image([Section(0, n, 0, false)], false), 0, n) == Some(0)
  {
    var s := Section(0, n, 0, false);
    assert ByAddress([s][1..], 0, n) == [];
    assert ByAddress([s], 0, n) == [s];
  }
}
