// The debugger object: tracked memory writes, reverts, and register writes through aliases.
module DebuggerMemory {
  import opened Patches
  import opened Edits

  // ----- registers

  // Register names as the user gives them. `Other(k)` stands for pc, sp, cpsr, fpsr and fpcr.
  datatype Name = X(n: nat) | W(n: nat) | Fp | Lr | V(n: nat) | Q(n: nat) | D(n: nat) | S(n: nat) | H(n: nat) | B(n: nat)
    | Other(k: nat)

  // The registers behind the names.
  datatype Cell = General(n: nat) | Simd(n: nat) | Special(k: nat)

  type Registers = map<Cell, seq<Byte>>

  function CellOf(name: Name): Cell {
    match name
    case X(n) => General(n)
    case W(n) => General(n)
    case Fp => General(29)
    case Lr => General(30)
    case Other(k) => Special(k)
    case V(n) => Simd(n)
    case Q(n) => Simd(n)
    case D(n) => Simd(n)
    case S(n) => Simd(n)
    case H(n) => Simd(n)
    case B(n) => Simd(n)
  }

  // The number of low bytes the name shows, when it is not the whole register.
  function Low(name: Name): nat {
    match name
    case W(_) => 4
    case Q(_) => 16
    case D(_) => 8
    case S(_) => 4
    case H(_) => 2
    case B(_) => 1
    case _ => 16
  }

  ghost predicate ValidRegisters(r: Registers) {
    forall c :: c in r ==>
      (match c case General(_) => |r[c]| == 8 case Simd(_) => |r[c]| == 16 case Special(_) => 1 <= |r[c]| <= 8)
  }

  // The bytes a name shows.
  function Show(r: Registers, name: Name): seq<Byte>
    requires CellOf(name) in r
  {
    var bytes := r[CellOf(name)];
    if |bytes| <= Low(name) then bytes else bytes[..Low(name)]
  }

  // The name of the whole register an edit is recorded under.
  function Parent(name: Name): Name {
    match name
    case W(n) => X(n)
    case Q(n) => V(n)
    case D(n) => V(n)
    case S(n) => V(n)
    case H(n) => V(n)
    case B(n) => V(n)
    case _ => name
  }

  function Tail(s: seq<Byte>, n: nat): seq<Byte> {
    if n <= |s| then s[n..] else []
  }

  // The bytes written to the parent for a write of `data` to a name: a w register clears the upper
  // half, a part of a SIMD register keeps the rest.
  function Widened(r: Registers, name: Name, data: seq<Byte>): seq<Byte>
    requires CellOf(name) in r
  {
    match name
    case W(_) => data + [0, 0, 0, 0]
    case V(_) => data
    case Q(_) => data + Tail(r[CellOf(name)], |data|)
    case D(_) => data + Tail(r[CellOf(name)], |data|)
    case S(_) => data + Tail(r[CellOf(name)], |data|)
    case H(_) => data + Tail(r[CellOf(name)], |data|)
    case B(_) => data + Tail(r[CellOf(name)], |data|)
    case _ => data
  }

  // What a register write does in the target: the bytes the register ends up with, and whether the
  // command reports success.
  datatype RegisterLanding = RegisterLanding(value: seq<Byte>, success: bool)

  // The write arrives completely and says so.
  predicate Arrives(landing: Landing, size: nat) {
    landing.success && landing.count == size && landing.written >= size
  }

  // ----- the object

  class Debugger {
    var memory: Memory
    var registers: Registers
    var stopped: bool
    var stopId: nat
    var thread: nat
    var patches: seq<Patch>
    ghost const original: Memory  // memory before the first tracked write

    // The tracked list is the canonical difference between the original and the current memory.
    ghost predicate Tracked()
      reads this
    {
      memory.Keys == original.Keys && IsDiff(patches, original, memory)
    }

    constructor (memory: Memory, registers: Registers, stopId: nat, thread: nat)
      ensures Tracked() && this.memory == memory && this.registers == registers && patches == []
      ensures original == memory && stopped && this.stopId == stopId && this.thread == thread
    {
      this.memory, this.registers, this.original := memory, registers, memory;
      this.stopped, this.stopId, this.thread, this.patches := true, stopId, thread, [];
      new;
      assert Differences(memory, memory) == map[];
    }

    // Writes and verifies. Reported successful exactly when every byte arrived; then, and only then, a
    // tracked write enters the patch list.
    method WriteMemory(addr: int, data: seq<Byte>, track: bool, landing: Landing) returns (ok: bool)
      requires track ==> AllSameLengths(patches)
      modifies this`memory, this`patches
      ensures ok == (stopped && Verified(old(memory), addr, data, landing))
      ensures memory == if stopped then Landed(old(memory), addr, data, landing) else old(memory)
      ensures ok ==> Mapped(old(memory), addr, |data|) && memory == Put(old(memory), addr, data)
      ensures patches == if ok && track then Recorded(old(patches), old(memory), addr, data) else old(patches)
      ensures old(Tracked()) && (if ok then track else memory == old(memory)) ==> Tracked()
    {
      if !stopped {
        return false;
      }
      var orig := ReadMemory(memory, addr, |data|);
      ghost var before := memory;
      memory := Landed(memory, addr, data, landing);
      if !landing.success || landing.count != |data| {
        return false;
      }
      var check := ReadMemory(memory, addr, |data|);
      if check != data {
        return false;
      }
      VerifiedIsPut(before, addr, data, landing);
      if track && orig != [] && |orig| >= |data| {
        patches := Normal(patches + [Patch(addr, orig[..|data|], data)]);
        assert orig[..|data|] == Bytes(before, addr, |data|);
      }
      if old(Tracked()) && track {
        RecordedIsDiff(original, before, old(patches), addr, data);
      }
      return true;
    }

    // Takes a patch back, exactly when its bytes are still there and the write is verified. It is refused,
    // and nothing changes, when the live bytes are others.
    method RevertPatch(index: nat, landing: Landing) returns (ok: bool)
      modifies this`memory, this`patches
      ensures ok <==>
        && index < |old(patches)| && StillThere(old(memory), old(patches)[index])
        && stopped && Verified(old(memory), old(patches)[index].addr, old(patches)[index].orig, landing)
      ensures ok ==> patches == Dropped(old(patches), index)
      ensures ok ==> memory == Put(old(memory), old(patches)[index].addr, old(patches)[index].orig)
      ensures !ok ==> patches == old(patches)
      ensures index >= |old(patches)| || !StillThere(old(memory), old(patches)[index]) ==> memory == old(memory)
      ensures old(Tracked()) && (ok || memory == old(memory)) ==> Tracked()
      ensures (index < |old(patches)| && SameLengths(old(patches)[index]) && StillThere(old(memory), old(patches)[index])
               && stopped && Arrives(landing, |old(patches)[index].orig|)) ==> ok
      ensures old(Tracked()) && index < |old(patches)| ==>
        SameLengths(old(patches)[index]) && StillThere(old(memory), old(patches)[index])
    {
      hide IsDiff, Verified;
      if old(Tracked()) && index < |patches| {
        TrackedBytes(original, memory, patches, index);
      }
      if index >= |patches| {
        return false;
      }
      var p := patches[index];
      if ReadMemory(memory, p.addr, |p.data|) != p.data {
        return false;
      }
      ghost var before := memory;
      if SameLengths(p) {
        WholeLanding(memory, p.addr, p.orig, landing);
      }
      ok := WriteMemory(p.addr, p.orig, false, landing);
      if ok {
        if old(Tracked()) {
          RevertIsDiff(original, before, patches, index);
        }
        patches := Dropped(patches, index);
      }
    }

    // The low bytes of the register behind the name, as many as the name is wide.
    method ReadRegister(name: Name) returns (bytes: seq<Byte>)
      requires CellOf(name) in registers
      ensures bytes <= registers[CellOf(name)]
      ensures |bytes| == if |registers[CellOf(name)]| <= Low(name) then |registers[CellOf(name)]| else Low(name)
    {
      bytes := Show(registers, name);
    }

    // Writes a register through any of its names and verifies the parent. Successful exactly when the
    // target reports success and the whole register has the intended bytes.
    method WriteRegister(name: Name, data: seq<Byte>, landing: RegisterLanding) returns (ok: bool)
      requires CellOf(name) in registers && ValidRegisters(registers)
      requires |landing.value| == |registers[CellOf(name)]|
      modifies this`registers
      ensures registers == old(registers)[CellOf(name) := landing.value]
      ensures ok == (landing.success && landing.value == Widened(old(registers), name, data))
      ensures ok ==> registers == Written(old(registers), name, data)
      ensures ok && |data| == |Show(old(registers), name)| ==> Show(registers, name) == data
      ensures ValidRegisters(registers)
    {
      hide Widened, Show;
      if |data| == |Show(registers, name)| {
        ReadAfterWrite(registers, name, data);
      }
      ParentShows(registers, name, landing.value);
      var whole := Widened(registers, name, data);
      registers := registers[CellOf(name) := landing.value];
      ok := landing.success && Show(registers, Parent(name)) == whole;
    }
  }

  // While the list is the difference, the bytes of each run are in memory.
  lemma TrackedBytes(original: Memory, m: Memory, runs: seq<Patch>, k: nat)
    requires IsDiff(runs, original, m) && original.Keys == m.Keys && k < |runs|
    ensures |runs[k].orig| == |runs[k].data|
    ensures Mapped(m, runs[k].addr, |runs[k].data|) && Bytes(m, runs[k].addr, |runs[k].data|) == runs[k].data
    ensures Put(Put(m, runs[k].addr, runs[k].orig), runs[k].addr, runs[k].data) == m
  {
    hide DiffOf, Canonical, Covered;
    CanonicalLengths(runs);
    var p := runs[k];
    forall a | p.addr <= a < End(p) ensures a in m && m[a] == p.data[a - p.addr] {
      CoveredAt(p, a - p.addr);
      DiffAt(runs, k, a);
    }
    RunBack(m, p);
  }

  lemma RunBack(m: Memory, p: Patch)
    requires SameLengths(p) && forall a :: p.addr <= a < End(p) ==> a in m && m[a] == p.data[a - p.addr]
    ensures Mapped(m, p.addr, |p.data|) && Bytes(m, p.addr, |p.data|) == p.data
    ensures Put(Put(m, p.addr, p.orig), p.addr, p.data) == m
  {
    RangeMapped(m, p.addr, |p.data|);
    forall i | 0 <= i < |p.data| ensures Bytes(m, p.addr, |p.data|)[i] == p.data[i] {
      BytesAt(m, p.addr, |p.data|, i);
    }
  }

  // A write that arrives completely and says so is verified.
  lemma WholeLanding(m: Memory, addr: int, data: seq<Byte>, landing: Landing)
    requires Mapped(m, addr, |data|)
    ensures Arrives(landing, |data|) ==> Verified(m, addr, data, landing)
  {
    PutBytes(m, addr, data);
    assert data[..|data|] == data;
  }

  // ----- reading registers after writing them

  lemma ShowIs(r: Registers, name: Name, bytes: seq<Byte>)
    requires CellOf(name) in r && bytes <= r[CellOf(name)]
    requires |bytes| == if |r[CellOf(name)]| <= Low(name) then |r[CellOf(name)]| else Low(name)
    ensures bytes == Show(r, name)
  {
  }

  // The registers after a write through a name that was successful.
  function Written(r: Registers, name: Name, data: seq<Byte>): Registers
    requires CellOf(name) in r
  {
    r[CellOf(name) := Widened(r, name, data)]
  }

  lemma ParentShows(r: Registers, name: Name, value: seq<Byte>)
    requires ValidRegisters(r) && CellOf(name) in r && |value| == |r[CellOf(name)]|
    ensures CellOf(Parent(name)) == CellOf(name) && Show(r[CellOf(name) := value], Parent(name)) == value
  {
  }

  // What was written is read back under the same name.
  lemma ReadAfterWrite(r: Registers, name: Name, data: seq<Byte>)
    requires ValidRegisters(r) && CellOf(name) in r && |data| == |Show(r, name)|
    ensures ValidRegisters(Written(r, name, data)) && Show(Written(r, name, data), name) == data
  {
    assert data[..|data|] == data;
  }

  // Every other name of the register keeps its width and shows the data in the low bytes; above them a write
  // through a w name leaves zeros, and any other write what was there. Names of other registers show what
  // they showed.
  lemma AliasAfterWrite(r: Registers, name: Name, data: seq<Byte>, other: Name)
    requires ValidRegisters(r) && CellOf(name) in r && |data| == |Show(r, name)| && CellOf(other) in r
    ensures var r' := Written(r, name, data);
      if CellOf(other) != CellOf(name) then Show(r', other) == Show(r, other)
      else
        && |Show(r', other)| == |Show(r, other)|
        && forall k :: 0 <= k < |Show(r', other)| ==>
             Show(r', other)[k] == if k < |data| then data[k] else if name.W? then 0 else r[CellOf(other)][k]
  {
    hide Show;
    if CellOf(other) == CellOf(name) {
      WidenedAt(r, name, data);
      ShowPrefix(r, other);
      ShowPrefix(Written(r, name, data), other);
    } else {
      ShowPrefix(r, other);
      ShowPrefix(Written(r, name, data), other);
    }
  }

  lemma ShowPrefix(r: Registers, name: Name)
    requires CellOf(name) in r
    ensures Show(r, name) <= r[CellOf(name)]
    ensures |Show(r, name)| == if |r[CellOf(name)]| <= Low(name) then |r[CellOf(name)]| else Low(name)
  {
  }

  lemma WidenedAt(r: Registers, name: Name, data: seq<Byte>)
    requires ValidRegisters(r) && CellOf(name) in r && |data| == |Show(r, name)|
    ensures var whole := Widened(r, name, data);
      |whole| == |r[CellOf(name)]|
      && forall k :: 0 <= k < |whole| ==>
           whole[k] == if k < |data| then data[k] else if name.W? then 0 else r[CellOf(name)][k]
  {
  }

  // fp is x29 and lr is x30; the parts of a register are named after it.
  lemma SameRegister(r: Registers, n: nat)
    requires ValidRegisters(r)
    ensures General(29) in r <==> CellOf(Fp) in r
    ensures General(30) in r <==> CellOf(Lr) in r
    ensures General(29) in r ==> CellOf(X(29)) in r && Show(r, Fp) == Show(r, X(29)) == r[General(29)]
    ensures General(30) in r ==> CellOf(X(30)) in r && Show(r, Lr) == Show(r, X(30)) == r[General(30)]
    ensures CellOf(X(n)) == CellOf(W(n)) == General(n) && Parent(W(n)) == X(n)
    ensures forall part :: part in [V(n), Q(n), D(n), S(n), H(n), B(n)] ==> CellOf(part) == Simd(n) && Parent(part) == V(n)
  {
  }

  // How many bytes each name shows.
  lemma Widths(r: Registers, name: Name)
    requires ValidRegisters(r) && CellOf(name) in r
    ensures match name
            case X(_) => |Show(r, name)| == 8
            case W(_) => |Show(r, name)| == 4
            case Fp => |Show(r, name)| == 8
            case Lr => |Show(r, name)| == 8
            case V(_) => |Show(r, name)| == 16
            case Q(_) => |Show(r, name)| == 16
            case D(_) => |Show(r, name)| == 8
            case S(_) => |Show(r, name)| == 4
            case H(_) => |Show(r, name)| == 2
            case B(_) => |Show(r, name)| == 1
            case Other(_) => Show(r, name) == r[CellOf(name)]
  {
  }
}
