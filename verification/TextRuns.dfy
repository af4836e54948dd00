// Undo and import as runs of tracked writes, so that what holds of every run of those holds of them.
module TextRuns {
  import opened Patches
  import opened Edits
  import opened TextGate
  import opened Manifest
  import Undo

  // The memory and the list of a session beside the breakpoints of a target.
  function Seen(s: Undo.Session, breakpoints: seq<Breakpoint>, ids: set<nat>): Target {
    Target(s.memory, s.patches, breakpoints, ids)
  }

  // Undoing a memory edit is one tracked write of the bytes before it; undoing a register edit changes
  // neither memory nor list.
  lemma UndoIsWrite(text: Text, original: Memory, s: Undo.Session, breakpoints: seq<Breakpoint>, ids: set<nat>)
    requires AllSameLengths(s.patches) && Undo.UndoOnce(s).Some?
    ensures s.edits != []
    ensures var e, t := s.edits[|s.edits| - 1], Undo.UndoOnce(s).value;
            match e
            case MemoryEdit(addr, before, _, _) =>
              Happens(text, original, Seen(s, breakpoints, ids), TrackedWrite(addr, before), Seen(t, breakpoints, ids))
            case RegisterEdit(_, _, _, _, _) => Seen(t, breakpoints, ids) == Seen(s, breakpoints, ids)
  {
    hide Recorded, Put;
  }

  // The target when `i` patches of an import have been written and recorded.
  function Imported(s: Target, checked: seq<Patch>, i: nat): Target
    requires AllSameLengths(s.patches) && AllSameLengths(checked) && i <= |checked|
  {
    s.(memory := Replay(s.memory, checked[..i]), patches := RecordedEach(s.patches, checked[..i]))
  }

  lemma ImportStep(text: Text, original: Memory, s: Target, checked: seq<Patch>, i: nat)
    requires AllSameLengths(s.patches) && ApartPatches(checked) && i < |checked|
    requires forall j :: 0 <= j < |checked| ==> Fits(s.memory, checked[j]) && |checked[j].data| >= 1
    ensures AllSameLengths(checked)
    ensures Happens(text, original, Imported(s, checked, i), TrackedWrite(checked[i].addr, checked[i].data), Imported(s, checked, i + 1))
  {
    hide Normal, Put, ApartPatches;
    ApartFits(s.memory, checked, i);
    assert checked[..i + 1][..i] == checked[..i];
    var p := checked[i];
    assert p == Patch(p.addr, Bytes(Replay(s.memory, checked[..i]), p.addr, |p.data|), p.data);
  }

  // An import of apart ranges that was applied is a run of tracked writes, one for each range: it leads from
  // the target before it to the memory and the list it leaves.
  lemma ImportIsWrites(text: Text, original: Memory, s: Target, checked: seq<Patch>)
    requires AllSameLengths(s.patches) && ApartPatches(checked)
    requires forall j :: 0 <= j < |checked| ==> Fits(s.memory, checked[j]) && |checked[j].data| >= 1
    ensures AllSameLengths(checked)
    ensures Imported(s, checked, 0) == s
    ensures Imported(s, checked, |checked|) ==
            s.(memory := Replay(s.memory, checked), patches := RecordedEach(s.patches, checked))
    ensures forall i :: 0 <= i < |checked| ==>
      Happens(text, original, Imported(s, checked, i), TrackedWrite(checked[i].addr, checked[i].data), Imported(s, checked, i + 1))
  {
    hide Happens, Imported, ApartPatches;
    forall i | 0 <= i < |checked|
      ensures SameLengths(checked[i])
    {
      FitsLengths(s.memory, checked[i]);
    }
    Ends(s, checked);
    forall i | 0 <= i < |checked|
      ensures Happens(text, original, Imported(s, checked, i), TrackedWrite(checked[i].addr, checked[i].data), Imported(s, checked, i + 1))
    {
      ImportStep(text, original, s, checked, i);
    }
  }

  lemma Ends(s: Target, checked: seq<Patch>)
    requires AllSameLengths(s.patches) && AllSameLengths(checked)
    ensures Imported(s, checked, 0) == s
    ensures Imported(s, checked, |checked|) ==
            s.(memory := Replay(s.memory, checked), patches := RecordedEach(s.patches, checked))
  {
    assert checked[..0] == [] && checked[..|checked|] == checked;
  }
}
