// Writes under the names fp and lr, which constant propagation does not record as writes of x29 and x30:
// for each instruction, exactly when what is recorded stays true.
module FramePointer {
  import opened Options
  import opened Arm64
  import opened CodeFlow
  import opened CodeFlowSound

  // The register the name hides.
  function Hidden(r: Reg): Option<nat> {
    if r.Fp? then Some(29) else if r.Lr? then Some(30) else None
  }

  predicate Is64(r: Reg) {
    r.X? || r.Xzr? || r.Sp? || r.Fp? || r.Lr?
  }

  // What a written-back base grows by.
  function Growth(a: Address): int
    requires a.Based? && !a.writeback.NoWriteback?
  {
    if a.writeback.PostIndexed? then a.writeback.amount else if a.index.Offset? then a.index.imm else 0
  }

  predicate WritesBack(i: Instr) {
    AddressOf(i).Some? && AddressOf(i).value.Based? && !AddressOf(i).value.writeback.NoWriteback?
  }

  predicate GrowsHidden(i: Instr) {
    WritesBack(i) && Hidden(AddressOf(i).value.base).Some?
  }

  // The one register the instruction writes under the name fp or lr: its destination or the base it writes
  // back. Operands are 64 bits wide, as such an instruction demands, and a written-back base is not the
  // register that is loaded.
  function HiddenWrite(i: Instr): Option<nat> {
    if GrowsHidden(i) then Hidden(AddressOf(i).value.base)
    else match Destination(i) case None => None case Some(rd) => Hidden(rd)
  }

  predicate WellFormed(i: Instr) {
    && ValidInstr(i)
    && (i.MovReg? ==> Is64(i.rs))
    && (i.AddSub? ==> Is64(i.rn) && (i.operand.RegisterOperand? ==> Is64(i.operand.reg)) && (i.shift.Lsl? ==> i.shift.k <= 63))
    && (WritesBack(i) ==>
          && (AddressOf(i).value.writeback.PreIndexed? ==> !AddressOf(i).value.index.Register?)
          && (i.Load? ==> Number(i.rd).Some? ==> Number(i.rd) != Number(AddressOf(i).value.base))
          && (GrowsHidden(i) && i.Load? ==> !i.rd.Fp? && !i.rd.Lr?))
  }

  // Subtracting a register from itself gives zero whatever it holds.
  predicate Cancels(i: Instr) {
    && i.AddSub? && i.minus && i.operand.RegisterOperand? && Slot(i.rn) == Slot(i.operand.reg)
    && (i.shift.NoShift? || (i.shift.Lsl? && i.shift.k == 0))
  }

  // What the hidden write is sure to write, as far as the recorded values tell.
  function Foreseen(values: Values, row: Row): Option<int> {
    match HiddenWrite(row.instr)
    case None => None
    case Some(n) =>
      if GrowsHidden(row.instr) then
        (if n in values then Some(values[n] + Growth(AddressOf(row.instr).value)) else None)
      else if Cancels(row.instr) then Some(0)
      else NewValue(values, row, None)
  }

  // On every execution of the row, whatever was recorded before and is still recorded holds.
  ghost predicate StaysTrue(values: Values, row: Row)
    requires ValidInstr(row.instr)
  {
    forall m, m' :: ValidMachine(m) && Known(values, m) && Executes(row.addr, row.instr, m, m') ==>
      Known(CodeFlow.After(values, row, None), m')
  }

  predicate Plausible(values: Values) {
    forall n :: n in values ==> n <= 30 && values[n] < DWORD
  }

  // ----- machines with the recorded values

  // Where a 64-bit operand is kept; 31 is the stack pointer and 32 the zero register.
  function Slot(r: Reg): nat {
    match r
    case X(n) => n
    case Fp => 29
    case Lr => 30
    case Sp => 31
    case _ => 32
  }

  // The recorded values, `v` in slot `k` when nothing is recorded there, and zero elsewhere.
  function Built(values: Values, k: nat, v: nat, memory: Memory): Machine {
    Machine(seq(31, i => if i in values then values[i] else if i == k then v else 0), if k == 31 then v else 0, memory)
  }

  lemma BuiltKnown(values: Values, k: nat, v: nat, memory: Memory)
    requires Plausible(values) && v < DWORD && forall a :: a in memory ==> memory[a] < 256
    ensures ValidMachine(Built(values, k, v, memory)) && Known(values, Built(values, k, v, memory))
  {
  }

  lemma BuiltRead(values: Values, k: nat, v: nat, memory: Memory, r: Reg)
    requires Plausible(values) && Is64(r) && ValidReg(r)
    ensures ReadReg(Built(values, k, v, memory), r) ==
            if Slot(r) in values then values[Slot(r)] else if Slot(r) == k && k <= 31 then v else 0
    ensures RegisterValue(values, r) ==
            if Slot(r) == 32 then Some(0) else if Slot(r) in values then Some(values[Slot(r)]) else None
  {
  }

  // ----- a destination named fp or lr

  lemma OneOf(values: Values, row: Row, rd: Reg, m0: Machine, v0: int, m1: Machine, v1: int)
    requires ValidInstr(row.instr) && !row.instr.Load? && Destination(row.instr) == Some(rd) && Hidden(rd).Some?
    requires Hidden(rd).value in values && ValidMachine(m0) && Known(values, m0) && ValidMachine(m1) && Known(values, m1)
    requires Executes(row.addr, row.instr, m0, WriteReg(m0, rd, v0)) && Executes(row.addr, row.instr, m1, WriteReg(m1, rd, v1))
    requires v0 % DWORD != v1 % DWORD
    ensures !StaysTrue(values, row)
  {
    CodeFlowSound.NoWriteback(values, row, None);
    assert CodeFlow.After(values, row, None) == values;
    assert WriteReg(m0, rd, v0).x[Hidden(rd).value] == v0 % DWORD;
    assert WriteReg(m1, rd, v1).x[Hidden(rd).value] == v1 % DWORD;
  }

  lemma AnyValue(values: Values, row: Row, rd: Reg)
    requires Plausible(values) && WellFormed(row.instr) && Destination(row.instr) == Some(rd) && Hidden(rd).Some?
    requires Hidden(rd).value in values
    requires match row.instr
             case Adr(_, place) => place == None
             case Adrp(_, page) => page == None
             case MovOther(_) => true
             case AddSub(_, _, _, _, shift) => shift.OtherShift?
             case _ => false
    ensures !StaysTrue(values, row)
  {
    var m := Built(values, 32, 0, map[]);
    BuiltKnown(values, 32, 0, map[]);
    WriteKeepsValid(m, rd, 0);
    WriteKeepsValid(m, rd, 1);
    OneOf(values, row, rd, m, 0, m, 1);
  }

  lemma MovedUnknown(values: Values, row: Row, rd: Reg)
    requires Plausible(values) && WellFormed(row.instr) && row.instr.MovReg? && row.instr.rd == rd && Hidden(rd).Some?
    requires Hidden(rd).value in values && RegisterValue(values, row.instr.rs) == None
    ensures !StaysTrue(values, row)
  {
    var k := Slot(row.instr.rs);
    var m0, m1 := Built(values, k, 0, map[]), Built(values, k, 1, map[]);
    BuiltKnown(values, k, 0, map[]);
    BuiltKnown(values, k, 1, map[]);
    BuiltRead(values, k, 0, map[], row.instr.rs);
    BuiltRead(values, k, 1, map[], row.instr.rs);
    WriteKeepsValid(m0, rd, 0);
    WriteKeepsValid(m1, rd, 1);
    OneOf(values, row, rd, m0, 0, m1, 1);
  }

  function Scale(i: Instr): nat
    requires i.AddSub?
  {
    if i.shift.Lsl? then Pow2(i.shift.k) else 1
  }

  lemma PowBound(k: nat)
    requires k <= 63
    ensures Pow2(k) <= 0x8000_0000_0000_0000 && (Pow2(k) == 1 <==> k == 0)
  {
    MovkAmounts();
    Pow2Double(16);
    assert Pow2(63) == 0x8000_0000_0000_0000 by {
      Pow2Add(63, 1);
      assert Pow2(1) == 2;
    }
    Pow2Step(k, 63);
    if k > 0 {
      Pow2Step(1, k);
    }
  }

  // The operand an unknown sum or difference depends on.
  function Free(values: Values, i: Instr): nat
    requires i.AddSub?
  {
    if RegisterValue(values, i.rn) == None || i.operand.Immediate? then Slot(i.rn) else Slot(i.operand.reg)
  }

  lemma SummedUnknown(values: Values, row: Row, rd: Reg)
    requires Plausible(values) && WellFormed(row.instr) && row.instr.AddSub? && row.instr.rd == rd && Hidden(rd).Some?
    requires Hidden(rd).value in values && !row.instr.shift.OtherShift? && Sum(values, row.instr) == None
    requires !Cancels(row.instr)
    ensures !StaysTrue(values, row)
  {
    var i := row.instr;
    var k := Free(values, i);
    var m0, m1 := Built(values, k, 0, map[]), Built(values, k, 1, map[]);
    BuiltKnown(values, k, 0, map[]);
    BuiltKnown(values, k, 1, map[]);
    var v0, v1 := SumResult(m0, i), SumResult(m1, i);
    SumsDiffer(values, i);
    WriteKeepsValid(m0, rd, v0);
    WriteKeepsValid(m1, rd, v1);
    OneOf(values, row, rd, m0, v0, m1, v1);
  }

  function Bit(b: bool): int {
    if b then 1 else 0
  }

  predicate RightFree(i: Instr, k: nat)
    requires i.AddSub?
  {
    i.operand.RegisterOperand? && Slot(i.operand.reg) == k
  }

  lemma FreeReads(values: Values, i: Instr)
    requires Plausible(values) && WellFormed(i) && i.AddSub? && !i.shift.OtherShift? && Sum(values, i) == None
    ensures var k := Free(values, i);
            var m0, m1 := Built(values, k, 0, map[]), Built(values, k, 1, map[]);
            && ReadReg(m1, i.rn) == ReadReg(m0, i.rn) + Bit(Slot(i.rn) == k)
            && OperandValue(m1, i.operand) == OperandValue(m0, i.operand) + Bit(RightFree(i, k))
            && (Slot(i.rn) == k || RightFree(i, k))
  {
    var k := Free(values, i);
    BuiltRead(values, k, 0, map[], i.rn);
    BuiltRead(values, k, 1, map[], i.rn);
    if i.operand.RegisterOperand? {
      BuiltRead(values, k, 0, map[], i.operand.reg);
      BuiltRead(values, k, 1, map[], i.operand.reg);
    }
    hide Built, ReadReg, Pow2, RegisterValue;
  }

  lemma ScaleBound(i: Instr)
    requires i.AddSub? && WellFormed(i) && !i.shift.OtherShift?
    ensures 1 <= Scale(i) <= 0x8000_0000_0000_0000
    ensures i.minus && i.operand.RegisterOperand? && Slot(i.rn) == Slot(i.operand.reg) && !Cancels(i) ==> Scale(i) != 1
  {
    if i.shift.Lsl? {
      PowBound(i.shift.k);
    }
    hide Pow2;
  }

  lemma SumsDiffer(values: Values, i: Instr)
    requires Plausible(values) && WellFormed(i) && i.AddSub?
    requires !i.shift.OtherShift? && Sum(values, i) == None && !Cancels(i)
    ensures var k := Free(values, i);
            SumResult(Built(values, k, 0, map[]), i) % DWORD != SumResult(Built(values, k, 1, map[]), i) % DWORD
  {
    var k := Free(values, i);
    var m0, m1 := Built(values, k, 0, map[]), Built(values, k, 1, map[]);
    FreeReads(values, i);
    ScaleBound(i);
    SumIsTotal(m0, i);
    SumIsTotal(m1, i);
    assert Slot(i.rn) == k && RightFree(i, k) && i.minus ==> Scale(i) != 1;
    hide Built, ReadReg, OperandValue, Pow2, RegisterValue, Sum, Free, Cancels, WellFormed, SumResult, Total, Scale, Slot;
    Difference(ReadReg(m0, i.rn), OperandValue(m0, i.operand), Bit(Slot(i.rn) == k), Bit(RightFree(i, k)), Scale(i), i.minus);
  }

  function Total(a: int, b: int, s: nat, minus: bool): int {
    if minus then a - b * s else a + b * s
  }

  lemma SumIsTotal(m: Machine, i: Instr)
    requires |m.x| == 31 && WellFormed(i) && i.AddSub? && !i.shift.OtherShift?
    ensures SumResult(m, i) == Total(ReadReg(m, i.rn), OperandValue(m, i.operand), Scale(i), i.minus)
  {
    hide ReadReg, OperandValue, Pow2;
  }

  lemma Difference(a: int, b: int, left: int, right: int, s: nat, minus: bool)
    requires (left == 0 || left == 1) && (right == 0 || right == 1) && left + right >= 1
    requires 1 <= s <= 0x8000_0000_0000_0000 && !(minus && left == 1 && right == 1 && s == 1)
    ensures Total(a, b, s, minus) % DWORD != Total(a + left, b + right, s, minus) % DWORD
  {
    var d := if minus then left - right * s else left + right * s;
    assert (b + right) * s == b * s + right * s;
    assert right * s == if right == 1 then s else 0;
    assert d != 0 && d < DWORD && 0 < d + DWORD;
    Apart(Total(a, b, s, minus), d);
  }

  lemma Apart(v: int, d: int)
    requires d != 0 && d < DWORD && 0 < d + DWORD
    ensures v % DWORD != (v + d) % DWORD
  {
  }

  // ----- a base or a loaded register named fp or lr

  // Memory that holds the number `v` at `a`.
  function Holding(a: int, v: nat): Memory {
    map[a := v, a + 1 := 0, a + 2 := 0, a + 3 := 0, a + 4 := 0, a + 5 := 0, a + 6 := 0, a + 7 := 0]
  }

  lemma {:induction false} HoldingNumber(a: int, v: nat, from: int, size: nat)
    requires v < 256 && a <= from && from + size <= a + 8
    ensures Mapped(Holding(a, v), from, size)
    ensures LittleEndian(Holding(a, v), from, size) == if from == a && size > 0 then v else 0
    decreases size
  {
    if size > 0 {
      HoldingNumber(a, v, from + 1, size - 1);
    }
  }

  // Some machine with the recorded values takes a load of `v` to a machine.
  lemma LoadRuns(values: Values, row: Row, v: nat) returns (m: Machine, m': Machine)
    requires Plausible(values) && WellFormed(row.instr) && row.instr.Load? && (v == 0 || v == 1)
    ensures ValidMachine(m) && Known(values, m) && Executes(row.addr, row.instr, m, m')
    ensures var Load(kind, rd, address) := row.instr;
            m' == AfterWriteback(if rd.Vector? then m else WriteReg(m, rd, v), m, address)
  {
    var Load(kind, rd, address) := row.instr;
    BuiltKnown(values, 32, 0, map[]);
    var a := EffectiveAddress(Built(values, 32, 0, map[]), address);
    m := Built(values, 32, 0, Holding(a, v));
    BuiltKnown(values, 32, 0, Holding(a, v));
    HoldingNumber(a, v, a, AccessSize(kind, rd));
    SameAddress(values, address, Holding(a, v));
    assert !rd.Vector? ==> Loaded(m, kind, rd, a) == v;
    m' := AfterWriteback(if rd.Vector? then m else WriteReg(m, rd, v), m, address);
    WriteKeepsValid(m, rd, v);
    WritebackKeepsValid(if rd.Vector? then m else WriteReg(m, rd, v), m, address);
  }

  lemma SameAddress(values: Values, address: Address, memory: Memory)
    requires ValidAddress(address)
    ensures EffectiveAddress(Built(values, 32, 0, memory), address) == EffectiveAddress(Built(values, 32, 0, map[]), address)
  {
  }

  lemma WritebackKeepsValid(m: Machine, before: Machine, a: Address)
    requires ValidMachine(m) && ValidMachine(before) && ValidAddress(a)
    ensures ValidMachine(AfterWriteback(m, before, a))
  {
    hide EffectiveAddress;
  }

  lemma OtherBase(m: Machine, before: Machine, a: Address, n: nat)
    requires ValidMachine(m) && ValidMachine(before) && ValidAddress(a) && n <= 30
    requires a.Based? && !a.writeback.NoWriteback? ==> Number(a.base) != Some(n)
    ensures |AfterWriteback(m, before, a).x| == 31 && AfterWriteback(m, before, a).x[n] == m.x[n]
  {
    hide EffectiveAddress;
  }

  lemma StillRecorded(values: Values, row: Row, rd: Reg)
    requires WellFormed(row.instr) && row.instr.Load? && row.instr.rd == rd && Hidden(rd).Some? && !GrowsHidden(row.instr)
    ensures var n := Hidden(rd).value;
            var kept := CodeFlow.After(values, row, None);
            && (n in kept <==> n in values) && (n in values ==> kept[n] == values[n])
            && (forall k :: k in kept ==> k in values && kept[k] == values[k])
            && (WritesBack(row.instr) ==> forall k :: k in kept ==> Number(row.instr.address.base) != Some(k))
  {
    assert Assigned(values, row, None) == values;
  }

  lemma LoadLeaves(values: Values, row: Row, rd: Reg, v: nat) returns (m: Machine, m': Machine)
    requires Plausible(values) && WellFormed(row.instr) && row.instr.Load? && row.instr.rd == rd && Hidden(rd).Some?
    requires !GrowsHidden(row.instr) && (v == 0 || v == 1)
    ensures ValidMachine(m) && Known(values, m) && Executes(row.addr, row.instr, m, m')
    ensures |m'.x| == 31 && m'.x[Hidden(rd).value] == v
  {
    hide AfterWriteback, Executes, Known;
    m, m' := LoadRuns(values, row, v);
    WriteKeepsValid(m, rd, v);
    OtherBase(WriteReg(m, rd, v), m, row.instr.address, Hidden(rd).value);
  }

  lemma LoadedUnknown(values: Values, row: Row, rd: Reg)
    requires Plausible(values) && WellFormed(row.instr) && row.instr.Load? && row.instr.rd == rd && Hidden(rd).Some?
    requires !GrowsHidden(row.instr) && Hidden(rd).value in values
    ensures !StaysTrue(values, row)
  {
    hide Executes, CodeFlow.After, WellFormed, ValidMachine;
    var m0, n0 := LoadLeaves(values, row, rd, 0);
    var m1, n1 := LoadLeaves(values, row, rd, 1);
    StillRecorded(values, row, rd);
    var kept := CodeFlow.After(values, row, None);
    assert !Known(kept, n0) || !Known(kept, n1);
  }

  // ----- the effect of a hidden write

  // What is recorded of the other registers holds afterwards, the hidden one is still recorded as before,
  // and it holds `w`, which is what was foreseen.
  ghost predicate Leaves(values: Values, row: Row, m': Machine, n: nat, w: int) {
    var kept := CodeFlow.After(values, row, None);
    && n <= 30 && |m'.x| == 31 && m'.x[n] == w
    && (n in kept <==> n in values) && (n in values ==> kept[n] == values[n])
    && (forall k :: k in kept && k != n ==> k <= 30 && kept[k] == m'.x[k])
    && (Foreseen(values, row).Some? ==> w == Foreseen(values, row).value % DWORD)
  }

  lemma NamedEffect(values: Values, row: Row, m: Machine, m': Machine, rd: Reg) returns (w: int)
    requires ValidMachine(m) && Known(values, m) && WellFormed(row.instr) && Executes(row.addr, row.instr, m, m')
    requires Destination(row.instr) == Some(rd) && Hidden(rd).Some? && !row.instr.Load?
    ensures Leaves(values, row, m', Hidden(rd).value, w)
  {
    CodeFlowSound.NoWriteback(values, row, None);
    assert CodeFlow.After(values, row, None) == values;
    NewValueSound(values, row, None, m, rd);
    var v := ValueWritten(values, row, None, m, m', rd);
    w := v % DWORD;
    if Cancels(row.instr) {
      CancelledSum(m, row.instr);
    }
  }

  lemma CancelledSum(m: Machine, i: Instr)
    requires ValidMachine(m) && WellFormed(i) && Cancels(i)
    ensures SumResult(m, i) == 0
  {
    assert Pow2(0) == 1;
    assert ReadReg(m, i.rn) == OperandValue(m, i.operand);
  }

  lemma LoadedEffect(values: Values, row: Row, m: Machine, m': Machine, rd: Reg) returns (w: int)
    requires ValidMachine(m) && Known(values, m) && WellFormed(row.instr) && Executes(row.addr, row.instr, m, m')
    requires row.instr.Load? && row.instr.rd == rd && Hidden(rd).Some? && !GrowsHidden(row.instr)
    ensures Leaves(values, row, m', Hidden(rd).value, w)
  {
    hide Loaded, EffectiveAddress;
    assert Assigned(values, row, None) == values;
    w := m'.x[Hidden(rd).value];
  }

  // The new base: what it was and its growth.
  lemma BaseGrows(m: Machine, before: Machine, a: Address, n: nat)
    requires ValidMachine(m) && ValidMachine(before) && ValidAddress(a) && a.Based? && !a.writeback.NoWriteback?
    requires Hidden(a.base) == Some(n) && (a.writeback.PreIndexed? ==> !a.index.Register?)
    ensures AfterWriteback(m, before, a) == m.(x := m.x[n := ((before.x[n] + Growth(a)) % DWORD) as nat])
  {
  }

  lemma StoredEffect(values: Values, row: Row, m: Machine, m': Machine, n: nat) returns (w: int)
    requires ValidMachine(m) && Known(values, m) && WellFormed(row.instr) && Executes(row.addr, row.instr, m, m')
    requires row.instr.Store? && GrowsHidden(row.instr) && HiddenWrite(row.instr) == Some(n)
    ensures Leaves(values, row, m', n, w)
  {
    hide AfterWriteback, Growth;
    var a := row.instr.address;
    BaseGrows(m, m, a, n);
    w := (m.x[n] + Growth(a)) % DWORD;
    assert CodeFlow.After(values, row, None) == values;
  }

  lemma LoadBackEffect(values: Values, row: Row, m: Machine, m': Machine, n: nat) returns (w: int)
    requires ValidMachine(m) && Known(values, m) && WellFormed(row.instr) && Executes(row.addr, row.instr, m, m')
    requires row.instr.Load? && GrowsHidden(row.instr) && HiddenWrite(row.instr) == Some(n)
    ensures Leaves(values, row, m', n, w)
  {
    hide AfterWriteback, Growth, Loaded, EffectiveAddress, NewValue, Assigned;
    var Load(kind, rd, a) := row.instr;
    w := (m.x[n] + Growth(a)) % DWORD;
    assert CodeFlow.After(values, row, None) == Assigned(values, row, None);
    if rd.Vector? {
      AssignedVector(values, row, None, rd);
      BaseGrows(m, m, a, n);
    } else {
      var v := Loaded(m, kind, rd, EffectiveAddress(m, a));
      NewValueSound(values, row, None, m, rd);
      AssignedSound(values, row, None, m, rd, v);
      WriteKeepsValid(m, rd, v);
      BaseGrows(WriteReg(m, rd, v), m, a, n);
      AssignedElsewhere(values, row, rd, n);
    }
  }

  lemma AssignedElsewhere(values: Values, row: Row, rd: Reg, n: nat)
    requires Destination(row.instr) == Some(rd) && Number(rd) != Some(n)
    ensures n in Assigned(values, row, None) <==> n in values
    ensures n in values ==> Assigned(values, row, None)[n] == values[n]
  {
    hide NewValue;
  }

  lemma HiddenEffect(values: Values, row: Row, m: Machine, m': Machine, n: nat) returns (w: int)
    requires ValidMachine(m) && Known(values, m) && WellFormed(row.instr) && Executes(row.addr, row.instr, m, m')
    requires HiddenWrite(row.instr) == Some(n)
    ensures Leaves(values, row, m', n, w)
  {
    hide Leaves, Executes, Known;
    if row.instr.Store? {
      w := StoredEffect(values, row, m, m', n);
    } else if GrowsHidden(row.instr) {
      w := LoadBackEffect(values, row, m, m', n);
    } else if row.instr.Load? {
      w := LoadedEffect(values, row, m, m', row.instr.rd);
    } else {
      w := NamedEffect(values, row, m, m', Destination(row.instr).value);
    }
  }

  // Every such row can be executed with the recorded values.
  lemma SomeRun(values: Values, row: Row, n: nat) returns (m: Machine, m': Machine)
    requires Plausible(values) && WellFormed(row.instr) && HiddenWrite(row.instr) == Some(n)
    ensures ValidMachine(m) && Known(values, m) && Executes(row.addr, row.instr, m, m')
  {
    hide Known;
    if row.instr.Load? {
      m, m' := LoadRuns(values, row, 0);
    } else if row.instr.Store? {
      m := Built(values, 32, 0, map[]);
      BuiltKnown(values, 32, 0, map[]);
      m' := AfterWriteback(m, m, row.instr.address);
      WritebackKeepsValid(m, m, row.instr.address);
      assert m' == m'.(memory := m'.memory);
    } else {
      var rd := Destination(row.instr).value;
      m := Built(values, 32, 0, map[]);
      BuiltKnown(values, 32, 0, map[]);
      m' := WriteReg(m, rd, Written(m, row));
      WriteKeepsValid(m, rd, Written(m, row));
    }
  }

  lemma Unforeseen(values: Values, row: Row, n: nat)
    requires Plausible(values) && WellFormed(row.instr) && HiddenWrite(row.instr) == Some(n) && n in values
    requires Foreseen(values, row) == None
    ensures !StaysTrue(values, row)
  {
    hide StaysTrue;
    var rd := Destination(row.instr).value;
    match row.instr {
      case Load(_, _, _) => LoadedUnknown(values, row, rd);
      case MovReg(_, _) => MovedUnknown(values, row, rd);
      case AddSub(_, _, _, _, shift) =>
        if shift.OtherShift? {
          AnyValue(values, row, rd);
        } else {
          SummedUnknown(values, row, rd);
        }
      case Adr(_, _) => AnyValue(values, row, rd);
      case Adrp(_, _) => AnyValue(values, row, rd);
      case MovOther(_) => AnyValue(values, row, rd);
      case _ =>
    }
  }

  // After a write under fp or lr everything recorded stays true on every execution if and only if x29 or
  // x30 is not recorded, or what is written is known beforehand and is the value recorded.
  lemma HiddenWriteHarmless(values: Values, row: Row, n: nat)
    requires Plausible(values) && WellFormed(row.instr) && HiddenWrite(row.instr) == Some(n)
    ensures StaysTrue(values, row) <==>
            n !in values || (Foreseen(values, row).Some? && Foreseen(values, row).value % DWORD == values[n])
  {
    hide Foreseen, Executes, Written;
    var seen := Foreseen(values, row);
    if n !in values || (seen.Some? && seen.value % DWORD == values[n]) {
      forall m, m' | ValidMachine(m) && Known(values, m) && Executes(row.addr, row.instr, m, m')
        ensures Known(CodeFlow.After(values, row, None), m')
      {
        var w := HiddenEffect(values, row, m, m', n);
      }
    } else if seen == None {
      Unforeseen(values, row, n);
    } else {
      var m, m' := SomeRun(values, row, n);
      var w := HiddenEffect(values, row, m, m', n);
    }
  }

  // What the analysis records is always plausible.
  lemma {:induction false} ClaimsPlausible(rows: seq<Row>, leaders: set<int>, i: nat)
    requires i < |rows| && forall k :: 0 <= k < |rows| ==> ValidInstr(rows[k].instr)
    ensures Plausible(Before(rows, None, leaders, i))
  {
    hide NewValue;
    if i > 0 {
      ClaimsPlausible(rows, leaders, i - 1);
    }
  }

  // After `mov x29, #1`, a write under the name fp is missed: x29 is still reported to hold 1.
  lemma FramePointerAlias(m: Machine)
    requires ValidMachine(m)
    ensures var rows := [Row(0, MovImm(X(29), 1, 0)), Row(4, MovImm(Fp, 2, 0)), Row(8, JumpReg(X(29)))];
      var m1 := WriteReg(m, X(29), 1);
      var m2 := WriteReg(m1, Fp, 2);
      && Executes(0, rows[0].instr, m, m1) && Executes(4, rows[1].instr, m1, m2)
      && ReadReg(m2, X(29)) == 2
      && CandidateOf(Claims(rows, None, 2), rows[2]) == [Candidate(rows[2], 1, IndirectTarget)]
  {
    hide CandidateOf, Claims;
    assert Pow2(0) == 1;
    AliasClaims();
  }

  lemma AliasClaims()
    ensures var rows := [Row(0, MovImm(X(29), 1, 0)), Row(4, MovImm(Fp, 2, 0)), Row(8, JumpReg(X(29)))];
      CandidateOf(Claims(rows, None, 2), rows[2]) == [Candidate(rows[2], 1, IndirectTarget)]
  {
    var rows := [Row(0, MovImm(X(29), 1, 0)), Row(4, MovImm(Fp, 2, 0)), Row(8, JumpReg(X(29)))];
    assert Pow2(0) == 1;
    assert Leaders(rows) == {};
    assert Before(rows, None, {}, 0) == map[];
    assert Before(rows, None, {}, 1) == map[29 := 1];
    assert Before(rows, None, {}, 2) == map[29 := 1];
  }
}
