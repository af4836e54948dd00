// The workspace object: each edit is refused, or rolled back, or pushed on the bounded undo stack.
module Workspace {
  import opened Options
  import opened Patches
  import opened Edits
  import opened PatchLists
  import opened DebuggerMemory
  import opened Undo

  datatype Result = Done | Refused | Failed | RollbackFailed

  // What was recorded can be put back.
  predicate WellRecorded(e: Edit) {
    match e
    case MemoryEdit(_, before, after, _) => |before| == |after|
    case RegisterEdit(register, _, _, _, _) => Parent(register) == register
  }

  ghost predicate AllRecorded(edits: seq<Edit>, cells: set<Cell>) {
    forall i :: 0 <= i < |edits| ==>
      WellRecorded(edits[i]) && (edits[i].RegisterEdit? ==> CellOf(edits[i].register) in cells)
  }

  lemma PushRecorded(edits: seq<Edit>, e: Edit, cells: set<Cell>)
    requires AllRecorded(edits, cells) && WellRecorded(e) && (e.RegisterEdit? ==> CellOf(e.register) in cells)
    ensures AllRecorded(Capped(edits + [e]), cells) && |Capped(edits + [e])| <= DEPTH
  {
    hide WellRecorded;
  }

  lemma TopRecorded(edits: seq<Edit>, cells: set<Cell>)
    requires AllRecorded(edits, cells) && edits != []
    ensures var e := edits[|edits| - 1]; WellRecorded(e) && (e.RegisterEdit? ==> CellOf(e.register) in cells)
  {
    hide WellRecorded;
  }

  lemma PopRecorded(edits: seq<Edit>, cells: set<Cell>)
    requires AllRecorded(edits, cells) && edits != []
    ensures AllRecorded(edits[..|edits| - 1], cells)
  {
    hide WellRecorded;
  }

  // What undo must not undo: said of the target and the last edit. The target is not stopped, nothing has been
  // edited, the last edit was made at another stop or its register in another thread, or its bytes are no
  // longer those it left.
  ghost predicate Stale(memory: Memory, registers: Registers, stopped: bool, stop: nat, thread: nat, edits: seq<Edit>) {
    !stopped || edits == []
    || match edits[|edits| - 1]
       case MemoryEdit(addr, before, after, made) =>
         made != stop || !Mapped(memory, addr, |after|) || Bytes(memory, addr, |after|) != after
       case RegisterEdit(register, before, after, made, owner) =>
         made != stop || owner != thread || CellOf(register) !in registers || registers[CellOf(register)] != after
  }

  lemma RefusedIsStale(s: Session)
    requires AllSameLengths(s.patches) && (s.edits != [] ==> WellRecorded(s.edits[|s.edits| - 1]))
    ensures UndoOnce(s) == None <==> Stale(s.memory, s.registers, s.stopped, s.stop, s.thread, s.edits)
  {
    hide Recorded, Mapped, Bytes, AllSameLengths;
  }

  class Workspace {
    const debugger: Debugger
    var edits: seq<Edit>

    constructor (debugger: Debugger)
      ensures this.debugger == debugger && edits == []
    {
      this.debugger := debugger;
      edits := [];
    }

    ghost predicate Valid()
      reads this, debugger
    {
      AllSameLengths(debugger.patches) && ValidRegisters(debugger.registers)
      && AllRecorded(edits, debugger.registers.Keys) && |edits| <= DEPTH
    }

    function Abs(): Session
      reads this, debugger
    {
      Session(debugger.memory, debugger.registers, debugger.patches, edits, debugger.stopped, debugger.stopId,
              debugger.thread)
    }

    // On failure the bytes are put back; unless that fails too, nothing has changed. Whatever happens the
    // workspace stays valid; a list that was the current difference stays it.
    method EditMemory(addr: int, data: seq<Byte>, landing: Landing, restore: Landing) returns (result: Result)
      requires Valid()
      modifies debugger`memory, debugger`patches, this`edits
      ensures result == Refused <==> !Accepted(old(Abs()), Request.EditMemory(addr, data))
      ensures result == Done <==> result != Refused && Verified(old(debugger.memory), addr, data, landing)
      ensures result == Done ==> Abs() == Perform(old(Abs()), Request.EditMemory(addr, data))
      ensures result == Refused || result == Failed ==> Abs() == old(Abs())
      ensures result == RollbackFailed ==> Abs().(memory := old(debugger.memory)) == old(Abs())
      ensures Valid()
      ensures old(debugger.Tracked()) && result != RollbackFailed ==> debugger.Tracked()
    {
      hide IsDiff, Recorded, Verified, AllRecorded, Capped, AllSameLengths;
      if !debugger.stopped || !(1 <= |data| <= 4096) {
        return Refused;
      }
      var before := ReadMemory(debugger.memory, addr, |data|);
      if |before| != |data| {
        return Refused;
      }
      ghost var m := debugger.memory;
      var ok := debugger.WriteMemory(addr, data, true, landing);
      if !ok {
        var current := ReadMemory(debugger.memory, addr, |data|);
        if current != before {
          var restored := debugger.WriteMemory(addr, before, false, restore);
          if !restored {
            return RollbackFailed;
          }
          PutBack(m, addr, data, landing);
        } else {
          SameRead(m, addr, data, landing);
        }
        return Failed;
      }
      RecordedLengths(old(debugger.patches), m, addr, data);
      PushRecorded(edits, MemoryEdit(addr, before, data, debugger.stopId), debugger.registers.Keys);
      edits := Capped(edits + [MemoryEdit(addr, before, data, debugger.stopId)]);
      return Done;
    }

    method RestoreRegister(parent: Name, bytes: seq<Byte>, restore: RegisterLanding) returns (ok: bool)
      requires ValidRegisters(debugger.registers) && CellOf(parent) in debugger.registers && Parent(parent) == parent
      requires |restore.value| == |debugger.registers[CellOf(parent)]|
      modifies debugger`registers
      ensures ValidRegisters(debugger.registers)
      ensures debugger.registers == old(debugger.registers)[CellOf(parent) := restore.value]
      ensures ok ==> restore.value == bytes
    {
      hide Parent, CellOf, Widened;
      WideningNothing(debugger.registers, parent, bytes);
      ok := debugger.WriteRegister(parent, bytes, restore);
    }

    // Edits a register under any of its names; the whole register is what undo restores.
    method EditRegister(name: Name, data: seq<Byte>, landing: RegisterLanding, restore: RegisterLanding)
      returns (result: Result)
      requires Valid() && CellOf(name) in debugger.registers
      requires |landing.value| == |debugger.registers[CellOf(name)]| == |restore.value|
      modifies debugger`registers, this`edits
      ensures result == Refused <==> !Accepted(old(Abs()), Request.EditRegister(name, data))
      ensures result == Done <==>
        result != Refused && landing.success && landing.value == Widened(old(debugger.registers), name, data)
      ensures result == Done ==> Abs() == Perform(old(Abs()), Request.EditRegister(name, data))
      ensures result == Refused || result == Failed ==> Abs() == old(Abs())
      ensures result == RollbackFailed ==> Abs().(registers := old(debugger.registers)) == old(Abs())
      ensures Valid()
    {
      hide AllSameLengths, Widened, Written, Show, Parent, CellOf, AllRecorded, Capped, ValidRegisters;
      if !debugger.stopped {
        return Refused;
      }
      var before := debugger.ReadRegister(name);
      ShowIs(debugger.registers, name, before);
      var parent := Parent(name);
      ParentCell(name);
      var parentBefore := debugger.ReadRegister(parent);
      WholeRead(debugger.registers, parent, parentBefore);
      if |data| != |before| {
        return Refused;
      }
      ghost var r := debugger.registers;
      var ok := debugger.WriteRegister(name, data, landing);
      if !ok {
        var restored := RestoreRegister(parent, parentBefore, restore);
        assert debugger.registers.Keys == r.Keys;
        assert restored ==> debugger.registers == r;
        return if restored then Failed else RollbackFailed;
      }
      var parentAfter := debugger.ReadRegister(parent);
      WholeRead(debugger.registers, parent, parentAfter);
      assert debugger.registers.Keys == r.Keys;
      PushRecorded(edits, RegisterEdit(parent, parentBefore, parentAfter, debugger.stopId, debugger.thread), r.Keys);
      edits := Capped(edits + [RegisterEdit(parent, parentBefore, parentAfter, debugger.stopId, debugger.thread)]);
      return Done;
    }

    // Undo is refused, and changes nothing, exactly when the pure session refuses it; done, it leads to
    // the state that one leads to.
    method Undo(landing: Landing, registerLanding: RegisterLanding) returns (result: Result)
      requires Valid()
      requires edits != [] && edits[|edits| - 1].RegisterEdit? ==>
        |registerLanding.value| == |debugger.registers[CellOf(edits[|edits| - 1].register)]|
      modifies debugger`memory, debugger`patches, debugger`registers, this`edits
      ensures result == Refused <==> UndoOnce(old(Abs())) == None
      ensures result == Refused <==>
        old(Stale(debugger.memory, debugger.registers, debugger.stopped, debugger.stopId, debugger.thread, edits))
      ensures result == Refused ==> Abs() == old(Abs())
      ensures result == Done ==> UndoOnce(old(Abs())) == Some(Abs())
      ensures result != Done ==> edits == old(edits) && debugger.patches == old(debugger.patches)
      ensures Valid()
      ensures old(debugger.Tracked()) && result == Done ==> debugger.Tracked()
    {
      hide IsDiff, Recorded, Verified, AllSameLengths, AllRecorded, Stale;
      if edits != [] {
        TopRecorded(edits, debugger.registers.Keys);
      }
      RefusedIsStale(Abs());
      if !CanUndo(Abs()) {
        return Refused;
      }
      var e := edits[|edits| - 1];
      TopRecorded(edits, debugger.registers.Keys);
      match e {
        case MemoryEdit(addr, before, after, _) =>
          if ReadMemory(debugger.memory, addr, |after|) != after {
            return Refused;
          }
          var ok := debugger.WriteMemory(addr, before, true, landing);
          if !ok {
            return Failed;
          }
          RecordedLengths(old(debugger.patches), old(debugger.memory), addr, before);
        case RegisterEdit(register, before, after, _, _) =>
          var current := debugger.ReadRegister(register);
          WholeRead(debugger.registers, register, current);
          if current != after {
            return Refused;
          }
          WideningNothing(debugger.registers, register, before);
          var ok := debugger.WriteRegister(register, before, registerLanding);
          assert debugger.registers.Keys == old(debugger.registers.Keys);
          if !ok {
            return Failed;
          }
      }
      PopRecorded(edits, debugger.registers.Keys);
      edits := edits[..|edits| - 1];
      return Done;
    }
  }

  lemma ParentCell(name: Name)
    ensures CellOf(Parent(name)) == CellOf(name) && Parent(Parent(name)) == Parent(name)
  {
  }

  lemma WholeRead(r: Registers, name: Name, bytes: seq<Byte>)
    requires ValidRegisters(r) && CellOf(name) in r && Parent(name) == name && bytes <= r[CellOf(name)]
    requires |bytes| == if |r[CellOf(name)]| <= Low(name) then |r[CellOf(name)]| else Low(name)
    ensures bytes == r[CellOf(name)]
  {
  }

  lemma RecordedLengths(patches: seq<Patch>, m: Memory, addr: int, data: seq<Byte>)
    requires AllSameLengths(patches) && Mapped(m, addr, |data|)
    ensures AllSameLengths(Recorded(patches, m, addr, data))
  {
    hide Normal, Canonical;
    if data != [] {
      NormalIsCanonical(patches + [Patch(addr, Bytes(m, addr, |data|), data)]);
      CanonicalLengths(Recorded(patches, m, addr, data));
    }
  }

  lemma WideningNothing(r: Registers, name: Name, data: seq<Byte>)
    requires CellOf(name) in r && Parent(name) == name
    ensures Widened(r, name, data) == data
  {
  }
}
