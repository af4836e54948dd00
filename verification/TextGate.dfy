// The gate in front of every resume: with the analysis cloak on, the target only runs while its code
// section is byte for byte the original.
module TextGate {
  import opened Options
  import opened Patches
  import opened Edits
  import opened PatchLists

  datatype Location = Location(addr: int, enabled: bool, resolved: bool)

  datatype Breakpoint = Breakpoint(id: nat, enabled: bool, hardware: bool, locations: seq<Location>)

  // The code section.
  datatype Text = Text(start: int, end: int)

  predicate InText(text: Text, a: int) {
    text.start <= a < text.end
  }

  // ----- the program's check

  predicate LocationPasses(text: Text, bp: Breakpoint, l: Location, ids: set<nat>) {
    l.enabled && InText(text, l.addr) ==> bp.id in ids && bp.hardware && l.resolved
  }

  predicate BreakpointPasses(text: Text, bp: Breakpoint, ids: set<nat>) {
    bp.enabled ==> forall j | 0 <= j < |bp.locations| :: LocationPasses(text, bp, bp.locations[j], ids)
  }

  predicate PatchPasses(text: Text, p: Patch) {
    !(p.data != [] && p.addr < text.end && p.addr + |p.data| > text.start)
  }

  predicate Passes(text: Text, breakpoints: seq<Breakpoint>, ids: set<nat>, patches: seq<Patch>) {
    (forall i | 0 <= i < |breakpoints| :: BreakpointPasses(text, breakpoints[i], ids))
    && forall i | 0 <= i < |patches| :: PatchPasses(text, patches[i])
  }

  // Nothing is asked while the cloak is off. `capacity` is the answer of the check of the hardware registers, `section` what the
  // target says of its code section. `own` and `extra` are the ids of the hardware breakpoints the debugger
  // and the tracer set; ids of breakpoints that no longer exist are dropped from `own`.
  method ValidateIntegrity(enabled: bool, capacity: bool, section: Option<Text>, breakpoints: seq<Breakpoint>,
                           own: set<nat>, extra: set<nat>, patches: seq<Patch>) returns (ok: bool)
    ensures !enabled ==> ok
    ensures enabled ==>
      (ok <==> capacity && section.Some? && section.value.start != 0 && section.value.start != 0xffff_ffff_ffff_ffff
               && section.value.start < section.value.end
               && Passes(section.value, breakpoints, own * LiveIds(breakpoints) + extra, patches))
  {
    if !enabled {
      return true;
    }
    if !capacity || section == None {
      return false;
    }
    var text := section.value;
    if text.start == 0 || text.start == 0xffff_ffff_ffff_ffff || text.start >= text.end {
      return false;
    }
    var ids := own * LiveIds(breakpoints) + extra;
    var i := 0;
    while i < |breakpoints|
      invariant 0 <= i <= |breakpoints|
      invariant forall k | 0 <= k < i :: BreakpointPasses(text, breakpoints[k], ids)
    {
      var bp := breakpoints[i];
      if bp.enabled {
        var j := 0;
        while j < |bp.locations|
          invariant 0 <= j <= |bp.locations|
          invariant forall k | 0 <= k < j :: LocationPasses(text, bp, bp.locations[k], ids)
        {
          var l := bp.locations[j];
          if l.enabled && text.start <= l.addr < text.end {
            if bp.id !in ids || !bp.hardware {
              assert !LocationPasses(text, bp, bp.locations[j], ids) && !BreakpointPasses(text, breakpoints[i], ids);
              return false;
            }
            if !l.resolved {
              assert !LocationPasses(text, bp, bp.locations[j], ids) && !BreakpointPasses(text, breakpoints[i], ids);
              return false;
            }
          }
          j := j + 1;
        }
      }
      i := i + 1;
    }
    i := 0;
    while i < |patches|
      invariant 0 <= i <= |patches|
      invariant forall k | 0 <= k < i :: PatchPasses(text, patches[k])
    {
      var p := patches[i];
      if p.data != [] && p.addr < text.end && p.addr + |p.data| > text.start {
        assert !PatchPasses(text, patches[i]);
        return false;
      }
      i := i + 1;
    }
    return true;
  }

  function LiveIds(breakpoints: seq<Breakpoint>): set<nat> {
    set i | 0 <= i < |breakpoints| :: breakpoints[i].id
  }

  // ----- what the target executes

  // A software breakpoint in force replaces an instruction by a trap.
  predicate Traps(bp: Breakpoint, l: Location, a: int) {
    bp.enabled && !bp.hardware && l.enabled && l.resolved && l.addr <= a < l.addr + 4
  }

  ghost predicate Trapped(breakpoints: seq<Breakpoint>, a: int) {
    exists i, j :: 0 <= i < |breakpoints| && 0 <= j < |breakpoints[i].locations|
      && Traps(breakpoints[i], breakpoints[i].locations[j], a)
  }

  // Locations are instruction addresses.
  ghost predicate Aligned(text: Text, breakpoints: seq<Breakpoint>) {
    text.start % 4 == 0
    && forall i, j :: 0 <= i < |breakpoints| && 0 <= j < |breakpoints[i].locations| ==>
         breakpoints[i].locations[j].addr % 4 == 0
  }

  ghost predicate TextIntact(text: Text, original: Memory, memory: Memory, breakpoints: seq<Breakpoint>) {
    forall a :: InText(text, a) && a in original ==>
      a in memory && memory[a] == original[a] && !Trapped(breakpoints, a)
  }

  // The list accounts for every byte of the code section: a byte it does not list is the original one, and a
  // byte it lists is listed with the original one before. What is there now may be something else than the
  // list says, as when the list was loaded from a file or kept over a restart.
  ghost predicate AccountsAt(patches: seq<Patch>, original: Memory, memory: Memory, a: int)
    requires AllSameLengths(patches)
  {
    a in memory && a in original
    && if a in DiffOf(patches) then DiffOf(patches)[a].before == original[a] else memory[a] == original[a]
  }

  ghost predicate Accounts(text: Text, patches: seq<Patch>, original: Memory, memory: Memory) {
    Canonical(patches) && AllSameLengths(patches)
    && forall a :: InText(text, a) && a in original ==> AccountsAt(patches, original, memory, a)
  }

  ghost predicate Listed(text: Text, patches: seq<Patch>)
    requires AllSameLengths(patches)
  {
    exists a :: InText(text, a) && a in DiffOf(patches)
  }

  // Each listed byte of the code section is as the list says.
  ghost predicate TextCurrent(text: Text, patches: seq<Patch>, memory: Memory)
    requires AllSameLengths(patches)
  {
    forall a :: InText(text, a) && a in DiffOf(patches) ==> a in memory && memory[a] == DiffOf(patches)[a].after
  }

  ghost predicate TextOriginal(text: Text, original: Memory, memory: Memory) {
    forall a :: InText(text, a) ==> a in memory && a in original && memory[a] == original[a]
  }

  ghost predicate AllPass(text: Text, breakpoints: seq<Breakpoint>, ids: set<nat>) {
    forall i | 0 <= i < |breakpoints| :: BreakpointPasses(text, breakpoints[i], ids)
  }

  lemma OverlapIsByte(text: Text, p: Patch)
    requires ProperRun(p) && text.start < text.end
    ensures PatchPasses(text, p) <==> forall a :: a in Covered(p) ==> !InText(text, a)
  {
    if !PatchPasses(text, p) {
      var a := if p.addr <= text.start then text.start else p.addr;
      assert a in Covered(p) && InText(text, a);
    }
  }

  // A patch is in the way exactly when some byte of the code section is listed.
  lemma PatchesInTheWay(text: Text, patches: seq<Patch>)
    requires Canonical(patches) && AllSameLengths(patches) && text.start < text.end
    ensures (forall i | 0 <= i < |patches| :: PatchPasses(text, patches[i])) <==> !Listed(text, patches)
  {
    hide Canonical, DiffOf, Covered;
    if forall i | 0 <= i < |patches| :: PatchPasses(text, patches[i]) {
      forall a | InText(text, a) ensures a !in DiffOf(patches) {
        InDiff(patches, a);
        if a in DiffOf(patches) {
          var k :| 0 <= k < |patches| && a in Covered(patches[k]);
          RunProper(patches, k);
          OverlapIsByte(text, patches[k]);
        }
      }
    } else {
      var k :| 0 <= k < |patches| && !PatchPasses(text, patches[k]);
      RunProper(patches, k);
      OverlapIsByte(text, patches[k]);
      var a :| a in Covered(patches[k]) && InText(text, a);
      InDiff(patches, a);
    }
  }

  // The gate opens exactly when no byte of the code section is listed and every breakpoint in it is an
  // installed hardware breakpoint the debugger or the tracer has set.
  lemma GateExact(text: Text, breakpoints: seq<Breakpoint>, ids: set<nat>, patches: seq<Patch>)
    requires Canonical(patches) && AllSameLengths(patches) && text.start < text.end
    ensures Passes(text, breakpoints, ids, patches) <==> !Listed(text, patches) && AllPass(text, breakpoints, ids)
  {
    hide Canonical, Listed, BreakpointPasses, PatchPasses;
    PatchesInTheWay(text, patches);
  }

  // The gate, said of breakpoints and their locations: it opens exactly when no code byte is listed, and each
  // enabled location in the code section of an enabled breakpoint belongs to a hardware breakpoint with one of
  // the ids and is installed. Breakpoints elsewhere, disabled ones and disabled locations are never in the way.
  lemma GateOfLocations(text: Text, breakpoints: seq<Breakpoint>, ids: set<nat>, patches: seq<Patch>)
    requires Canonical(patches) && AllSameLengths(patches) && text.start < text.end
    ensures Passes(text, breakpoints, ids, patches) <==> !Listed(text, patches) && LocationsOwned(text, breakpoints, ids)
  {
    hide Canonical, DiffOf, Passes, AllPass, LocationsOwned, Listed;
    GateExact(text, breakpoints, ids, patches);
    LocationsPass(text, breakpoints, ids);
  }

  ghost predicate LocationsOwned(text: Text, breakpoints: seq<Breakpoint>, ids: set<nat>) {
    forall bp, l :: bp in breakpoints && l in bp.locations && bp.enabled && l.enabled && text.start <= l.addr < text.end ==>
      bp.hardware && bp.id in ids && l.resolved
  }

  lemma LocationsPass(text: Text, breakpoints: seq<Breakpoint>, ids: set<nat>)
    ensures AllPass(text, breakpoints, ids) <==> LocationsOwned(text, breakpoints, ids)
  {
    if AllPass(text, breakpoints, ids) {
      forall bp, l | bp in breakpoints && l in bp.locations && bp.enabled && l.enabled && text.start <= l.addr < text.end
        ensures bp.hardware && bp.id in ids && l.resolved
      {
        var i :| 0 <= i < |breakpoints| && breakpoints[i] == bp;
        assert BreakpointPasses(text, breakpoints[i], ids);
        var j :| 0 <= j < |bp.locations| && bp.locations[j] == l;
        assert LocationPasses(text, bp, bp.locations[j], ids);
      }
    } else {
      var i :| 0 <= i < |breakpoints| && !BreakpointPasses(text, breakpoints[i], ids);
      var j :| 0 <= j < |breakpoints[i].locations| && !LocationPasses(text, breakpoints[i], breakpoints[i].locations[j], ids);
      assert breakpoints[i] in breakpoints && breakpoints[i].locations[j] in breakpoints[i].locations;
    }
  }

  // What that says of memory: an open gate means that every byte of the code section is the original one. The
  // converse holds when the listed bytes of the code section are as the list says.
  lemma GateOfMemory(text: Text, breakpoints: seq<Breakpoint>, ids: set<nat>, patches: seq<Patch>,
                     original: Memory, memory: Memory)
    requires Accounts(text, patches, original, memory) && text.start < text.end
    requires forall a :: InText(text, a) ==> a in original
    ensures Passes(text, breakpoints, ids, patches) ==> TextOriginal(text, original, memory)
    ensures TextCurrent(text, patches, memory) ==>
      (Passes(text, breakpoints, ids, patches) <==>
       TextOriginal(text, original, memory) && AllPass(text, breakpoints, ids))
  {
    hide DiffOf, Canonical, Passes, AllPass;
    GateExact(text, breakpoints, ids, patches);
    CanonicalDiffers(patches);
    forall a | InText(text, a) && a !in DiffOf(patches) ensures a in memory && memory[a] == original[a] {
      assert AccountsAt(patches, original, memory, a);
    }
    if Listed(text, patches) && TextCurrent(text, patches, memory) {
      var a :| InText(text, a) && a in DiffOf(patches);
      assert AccountsAt(patches, original, memory, a);
    }
  }

  // Behind the gate the code section is what it was, with no trap in it.
  lemma GateKeepsText(text: Text, breakpoints: seq<Breakpoint>, ids: set<nat>, patches: seq<Patch>,
                      original: Memory, memory: Memory)
    requires Accounts(text, patches, original, memory) && Aligned(text, breakpoints) && text.start < text.end
    requires forall a :: InText(text, a) ==> a in original
    requires Passes(text, breakpoints, ids, patches)
    ensures TextIntact(text, original, memory, breakpoints)
  {
    hide Canonical, DiffOf, AccountsAt, TextCurrent;
    GateOfMemory(text, breakpoints, ids, patches, original, memory);
    forall a | InText(text, a) ensures !Trapped(breakpoints, a) {
      forall i, j | 0 <= i < |breakpoints| && 0 <= j < |breakpoints[i].locations|
        ensures !Traps(breakpoints[i], breakpoints[i].locations[j], a)
      {
        assert BreakpointPasses(text, breakpoints[i], ids);
        NoTrap(text, breakpoints[i], breakpoints[i].locations[j], ids, a);
      }
    }
  }

  lemma NoTrap(text: Text, bp: Breakpoint, l: Location, ids: set<nat>, a: int)
    requires text.start % 4 == 0 && l.addr % 4 == 0 && InText(text, a)
    requires bp.enabled ==> LocationPasses(text, bp, l, ids)
    ensures !Traps(bp, l, a)
  {
    assert l.addr <= a < l.addr + 4 ==> InText(text, l.addr);
  }

  // A code byte was patched and the target restarted: the section is the original one, the list is kept, the
  // gate stays closed, and reverting the patch is refused.
  lemma KeptListRefused()
    ensures var text, patches := Text(0, 4), [Patch(0, [1], [2])];
      var original := map[0 := 1 as Byte, 1 := 1, 2 := 1, 3 := 1];
      && Accounts(text, patches, original, original) && TextOriginal(text, original, original)
      && !Passes(text, [], {}, patches) && !StillThere(original, patches[0])
  {
    var text, patches := Text(0, 4), [Patch(0, [1], [2])];
    var original := map[0 := 1 as Byte, 1 := 1, 2 := 1, 3 := 1];
    CoveredOne(0, Change(1, 2));
    assert DiffOf(patches) == map[0 := Change(1, 2)];
    assert !PatchPasses(text, patches[0]);
    assert Bytes(original, 0, 1) == [1];
  }

  // A write that fails after its first byte has arrived leaves a byte in the code section that no list names,
  // and the gate open.
  lemma TornWriteUnseen()
    ensures var text, landing := Text(0, 4), Landing(1, false, 0);
      var original := map[0 := 1 as Byte, 1 := 1, 2 := 1, 3 := 1];
      var memory := Landed(original, 0, [2], landing);
      && Accounts(text, [], original, original) && !Verified(original, 0, [2], landing)
      && memory[0] != original[0] && Passes(text, [], {}, [])
  {
    assert DiffOf([]) == map[];
  }

  // ----- whole runs

  datatype Target = Target(memory: Memory, patches: seq<Patch>, breakpoints: seq<Breakpoint>, ids: set<nat>)

  datatype Op =
    | TrackedWrite(addr: int, data: seq<Byte>)  // also an undo, and each range of an import (TextRuns)
    | OtherWrite(after: Memory)                 // untracked, or failed
    | Revert(index: nat)
    | SetBreakpoints(breakpoints: seq<Breakpoint>, ids: set<nat>)
    | Resume(after: Memory)                     // the target runs and stops again
    | Relaunch(after: Memory, breakpoints: seq<Breakpoint>, ids: set<nat>)

  // Any memory but the code section may have changed.
  ghost predicate SameText(text: Text, before: Memory, after: Memory) {
    forall a :: InText(text, a) && a in before ==> a in after && after[a] == before[a]
  }

  // Unlisted bytes of the code section are left alone.
  ghost predicate UnlistedKept(text: Text, original: Memory, patches: seq<Patch>, before: Memory, after: Memory)
    requires AllSameLengths(patches)
  {
    forall a :: InText(text, a) && a in original ==>
      a in after && (a !in DiffOf(patches) ==> a in before && after[a] == before[a])
  }

  // A restart loads the original code section at the same address and keeps the list.
  ghost predicate Happens(text: Text, original: Memory, s: Target, op: Op, s': Target) {
    match op
    case TrackedWrite(addr, data) =>
      Mapped(s.memory, addr, |data|) && AllSameLengths(s.patches)
      && s' == s.(memory := Put(s.memory, addr, data), patches := Recorded(s.patches, s.memory, addr, data))
    case OtherWrite(after) =>
      AllSameLengths(s.patches) && UnlistedKept(text, original, s.patches, s.memory, after) && s' == s.(memory := after)
    case Revert(index) =>
      index < |s.patches| && StillThere(s.memory, s.patches[index])
      && s' == s.(memory := Put(s.memory, s.patches[index].addr, s.patches[index].orig),
                  patches := Dropped(s.patches, index))
    case SetBreakpoints(breakpoints, ids) =>
      Aligned(text, breakpoints) && s' == s.(breakpoints := breakpoints, ids := ids)
    case Resume(after) =>
      Passes(text, s.breakpoints, s.ids, s.patches) && SameText(text, s.memory, after) && s' == s.(memory := after)
    case Relaunch(after, breakpoints, ids) =>
      SameText(text, original, after) && Aligned(text, breakpoints)
      && s' == Target(after, s.patches, breakpoints, ids)
  }

  ghost predicate Safe(text: Text, original: Memory, s: Target) {
    Aligned(text, s.breakpoints) && Accounts(text, s.patches, original, s.memory)
  }

  // Recording edits, whatever the list says of the bytes edited, keeps it accounting for the code section.
  lemma MovedAccounts(text: Text, original: Memory, patches: seq<Patch>, m: Memory, patches': seq<Patch>, m': Memory,
                      touched: set<int>)
    requires Accounts(text, patches, original, m) && Moved(patches, m, patches', m', touched)
    ensures Accounts(text, patches', original, m')
  {
    hide Canonical, DiffOf;
    forall a | InText(text, a) && a in original ensures AccountsAt(patches', original, m', a) {
      assert AccountsAt(patches, original, m, a);
    }
  }

  lemma WriteAccounts(text: Text, original: Memory, s: Target, addr: int, data: seq<Byte>)
    requires Accounts(text, s.patches, original, s.memory) && Mapped(s.memory, addr, |data|)
    ensures Accounts(text, Recorded(s.patches, s.memory, addr, data), original, Put(s.memory, addr, data))
  {
    hide Canonical, Recorded, Moved, AccountsAt;
    RecordedMoves(s.patches, s.memory, addr, data);
    MovedAccounts(text, original, s.patches, s.memory, Recorded(s.patches, s.memory, addr, data),
                  Put(s.memory, addr, data), Span(addr, |data|));
  }

  lemma RevertAt(patches: seq<Patch>, original: Memory, memory: Memory, k: nat, a: int)
    requires Canonical(patches) && AllSameLengths(patches) && k < |patches|
    requires AccountsAt(patches, original, memory, a)
    ensures AllSameLengths(Dropped(patches, k))
    ensures AccountsAt(Dropped(patches, k), original, Put(memory, patches[k].addr, patches[k].orig), a)
  {
    hide Canonical, DiffOf, Covered, Dropped;
    DroppedDiff(patches, k);
    RunBytes(patches, k, a);
    if a in Covered(patches[k]) {
      DiffAt(patches, k, a);
    }
  }

  lemma RevertAccounts(text: Text, original: Memory, s: Target, k: nat)
    requires Accounts(text, s.patches, original, s.memory) && k < |s.patches|
    ensures Accounts(text, Dropped(s.patches, k), original, Put(s.memory, s.patches[k].addr, s.patches[k].orig))
  {
    hide Canonical, Dropped, AccountsAt;
    DroppedCanonical(s.patches, k);
    DroppedDiff(s.patches, k);
    forall a | InText(text, a) && a in original
      ensures AccountsAt(Dropped(s.patches, k), original, Put(s.memory, s.patches[k].addr, s.patches[k].orig), a)
    {
      RevertAt(s.patches, original, s.memory, k, a);
    }
  }

  lemma SameTextAccounts(text: Text, original: Memory, patches: seq<Patch>, m: Memory, m': Memory)
    requires Accounts(text, patches, original, m) && (SameText(text, m, m') || SameText(text, original, m'))
    ensures Accounts(text, patches, original, m')
  {
    hide Canonical, DiffOf;
    forall a | InText(text, a) && a in original ensures AccountsAt(patches, original, m', a) {
      assert AccountsAt(patches, original, m, a);
    }
  }

  // An untracked or failed write keeps the list accounting for the code section exactly when it leaves its
  // unlisted bytes alone.
  lemma OtherWriteExact(text: Text, original: Memory, patches: seq<Patch>, m: Memory, m': Memory)
    requires Accounts(text, patches, original, m)
    ensures Accounts(text, patches, original, m') <==> UnlistedKept(text, original, patches, m, m')
  {
    hide Canonical, DiffOf;
    forall a | InText(text, a) && a in original
      ensures AccountsAt(patches, original, m', a) <==> a in m' && (a !in DiffOf(patches) ==> m'[a] == m[a])
    {
      assert AccountsAt(patches, original, m, a);
    }
  }

  lemma StepKeepsSafe(text: Text, original: Memory, s: Target, op: Op, s': Target)
    requires Safe(text, original, s) && Happens(text, original, s, op, s')
    ensures Safe(text, original, s')
  {
    hide Accounts, Aligned, Recorded, Dropped, Passes, SameText, StillThere, UnlistedKept;
    match op
    case TrackedWrite(addr, data) => WriteAccounts(text, original, s, addr, data);
    case OtherWrite(after) => OtherWriteExact(text, original, s.patches, s.memory, after);
    case Revert(index) => RevertAccounts(text, original, s, index);
    case SetBreakpoints(_, _) =>
    case Resume(after) => SameTextAccounts(text, original, s.patches, s.memory, after);
    case Relaunch(after, _, _) => SameTextAccounts(text, original, s.patches, s.memory, after);
  }

  // Where a run may begin: a target with its original code section, and any canonical list, new or loaded,
  // that lists no code byte with another original than the file has.
  lemma LoadedIsSafe(text: Text, original: Memory, s: Target)
    requires Aligned(text, s.breakpoints) && Canonical(s.patches) && AllSameLengths(s.patches)
    requires SameText(text, original, s.memory)
    requires forall a :: InText(text, a) && a in original && a in DiffOf(s.patches) ==>
      DiffOf(s.patches)[a].before == original[a]
    ensures Safe(text, original, s)
  {
    hide Canonical, DiffOf, Aligned;
    forall a | InText(text, a) && a in original ensures AccountsAt(s.patches, original, s.memory, a) {
    }
  }

  ghost predicate IsRun(text: Text, original: Memory, states: seq<Target>, ops: seq<Op>) {
    |states| == |ops| + 1 && Safe(text, original, states[0])
    && forall i :: 0 <= i < |ops| ==> Happens(text, original, states[i], ops[i], states[i + 1])
  }

  lemma {:induction false} RunSafe(text: Text, original: Memory, states: seq<Target>, ops: seq<Op>, n: nat)
    requires IsRun(text, original, states, ops) && n <= |ops|
    ensures Safe(text, original, states[n])
  {
    hide Happens, Safe;
    if n > 0 {
      RunSafe(text, original, states, ops, n - 1);
      assert Happens(text, original, states[n - 1], ops[n - 1], states[n - 1 + 1]);
      StepKeepsSafe(text, original, states[n - 1], ops[n - 1], states[n]);
    }
  }

  // Whatever was loaded, written, reverted, undone and imported before, however breakpoints were set and the
  // target restarted: every resume happens with the original code section in force.
  lemma EveryResumeIntact(text: Text, original: Memory, states: seq<Target>, ops: seq<Op>, n: nat)
    requires IsRun(text, original, states, ops) && n < |ops| && ops[n].Resume?
    requires text.start < text.end && forall a :: InText(text, a) ==> a in original
    ensures |states| == |ops| + 1 && TextIntact(text, original, states[n].memory, states[n].breakpoints)
  {
    hide Passes, Aligned, Accounts, TextIntact, IsRun;
    RunLength(text, original, states, ops);
    RunSafe(text, original, states, ops, n);
    ResumeGate(text, original, states, ops, n);
    GateKeepsText(text, states[n].breakpoints, states[n].ids, states[n].patches, original, states[n].memory);
  }

  lemma RunLength(text: Text, original: Memory, states: seq<Target>, ops: seq<Op>)
    requires IsRun(text, original, states, ops)
    ensures |states| == |ops| + 1
  {
  }

  lemma ResumeGate(text: Text, original: Memory, states: seq<Target>, ops: seq<Op>, n: nat)
    requires IsRun(text, original, states, ops) && n < |ops| && ops[n].Resume?
    ensures |states| == |ops| + 1 && Passes(text, states[n].breakpoints, states[n].ids, states[n].patches)
  {
    hide Passes, Safe;
    assert Happens(text, original, states[n], ops[n], states[n + 1]);
  }
}
