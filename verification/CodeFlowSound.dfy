// Constant propagation is sound: whatever it claims to know holds on every run of the listing, across
// branches between its rows, and the addresses it reports are the ones the machine computes.
module CodeFlowSound {
  import opened Options
  import opened Arm64
  import opened CodeFlow

  // Every recorded register holds the recorded value.
  ghost predicate Known(values: Values, m: Machine) {
    |m.x| == 31 && forall n :: n in values ==> n <= 30 && values[n] == m.x[n]
  }

  // No register is written under the names fp and lr, which the program does not record.
  predicate Canonical(i: Instr) {
    (Destination(i).Some? ==> !Destination(i).value.Fp? && !Destination(i).value.Lr?)
    && (match AddressOf(i)
        case Some(Based(base, _, writeback)) => writeback.NoWriteback? || (!base.Fp? && !base.Lr?)
        case _ => true)
  }

  // The bytes the debugger reads are the bytes the instruction reads.
  ghost predicate SameBytes(read: Memory, memory: Memory, a: int, size: nat) {
    forall b: int | a <= b < a + size && b in read :: b in memory && memory[b] == read[b]
  }

  ghost predicate Agrees(read: Option<Memory>, m: Machine, i: Instr)
    requires ValidMachine(m) && ValidInstr(i)
  {
    read.Some? && i.Load? ==>
      SameBytes(read.value, m.memory, EffectiveAddress(m, i.address), AccessSize(i.kind, i.rd))
  }

  // ----- operands

  lemma RegisterValueSound(values: Values, m: Machine, r: Reg)
    requires ValidMachine(m) && Known(values, m) && ValidReg(r)
    ensures RegisterValue(values, r).Some? ==> RegisterValue(values, r).value == ReadReg(m, r)
  {
  }

  lemma SmallShift(shift: nat)
    requires shift <= 4
    ensures Pow2(shift) == if shift == 0 then 1 else if shift == 1 then 2 else if shift == 2 then 4
                           else if shift == 3 then 8 else 16
  {
    assert Pow2(0) == 1 && Pow2(1) == 2 && Pow2(2) == 4 && Pow2(3) == 8 && Pow2(4) == 16;
  }

  // Taking a 64-bit index for a negative number changes the address by a multiple of 2^64.
  lemma NegativeIndex(base: int, v: nat, p: nat)
    requires p == 1 || p == 2 || p == 4 || p == 8 || p == 16
    ensures (base + (v - DWORD) * p) % DWORD == (base + v * p) % DWORD
  {
    if p == 1 {
    } else if p == 2 {
    } else if p == 4 {
    } else if p == 8 {
    } else {
    }
  }

  lemma RegisterRange(m: Machine, r: Reg)
    requires ValidMachine(m) && ValidReg(r)
    ensures r.W? || r.X? ==> ReadReg(m, r) < DWORD
  {
  }

  // Nothing wraps but a negative 64-bit index.
  lemma IndexExact(values: Values, m: Machine, index: Index)
    requires ValidMachine(m) && Known(values, m) && ValidIndex(index) && IndexOffset(values, index).Some?
    requires !(index.Register? && index.extension == Sxtx && ReadReg(m, index.reg) / (DWORD / 2) % 2 == 1)
    ensures IndexOffset(values, index).value == IndexValue(m, index)
  {
    if index.Register? {
      RegisterValueSound(values, m, index.reg);
      RegisterRange(m, index.reg);
      hide RegisterValue, ReadReg, Pow2, Known, ValidMachine, ValidReg;
      var v := ReadReg(m, index.reg);
      if index.extension == Sxtw {
        WordExtended(v % WORD);
      } else {
        assert IndexOffset(values, index) == Some(v * Pow2(index.shift));
      }
    }
  }

  lemma WordExtended(low: nat)
    requires low < WORD
    ensures (if low / (WORD / 2) % 2 == 1 then low - WORD else low) == SignExtend(low, WORD)
  {
  }

  lemma IndexWraps(values: Values, m: Machine, index: Index, base: int)
    requires ValidMachine(m) && Known(values, m) && ValidIndex(index) && IndexOffset(values, index).Some?
    requires index.Register? && index.extension == Sxtx && ReadReg(m, index.reg) / (DWORD / 2) % 2 == 1
    ensures (base + IndexOffset(values, index).value) % DWORD == (base + IndexValue(m, index)) % DWORD
  {
    RegisterValueSound(values, m, index.reg);
    RegisterRange(m, index.reg);
    SmallShift(index.shift);
    hide RegisterValue, ReadReg, Pow2, Known, ValidMachine, ValidReg;
    var v := ReadReg(m, index.reg);
    assert IndexOffset(values, index).value == (v - DWORD) * Pow2(index.shift);
    NegativeIndex(base, v, Pow2(index.shift));
  }

  lemma IndexSound(values: Values, m: Machine, index: Index, base: int)
    requires ValidMachine(m) && Known(values, m) && ValidIndex(index)
    ensures IndexOffset(values, index).Some? ==>
      (base + IndexOffset(values, index).value) % DWORD == (base + IndexValue(m, index)) % DWORD
  {
    hide IndexOffset, IndexValue, Known;
    if IndexOffset(values, index).Some? {
      if index.Register? && index.extension == Sxtx && ReadReg(m, index.reg) / (DWORD / 2) % 2 == 1 {
        IndexWraps(values, m, index, base);
      } else {
        IndexExact(values, m, index);
      }
    }
  }

  lemma MemoryAccessSound(values: Values, m: Machine, rd: Reg, a: Address)
    requires ValidMachine(m) && Known(values, m) && ValidAddress(a)
    ensures MemoryAccess(values, rd, a).Some? ==> MemoryAccess(values, rd, a).value == EffectiveAddress(m, a)
  {
    if a.Based? && MemoryAccess(values, rd, a).Some? {
      RegisterValueSound(values, m, a.base);
      IndexSound(values, m, a.index, ReadReg(m, a.base));
    }
  }

  // ----- values

  // A number is its part above a 16-bit field, the field, and the part below.
  lemma FieldSplit(v: nat, p: nat)
    requires p == 1 || p == 0x1_0000 || p == 0x1_0000_0000 || p == 0x1_0000_0000_0000
    ensures v == (v / (p * 65536)) * (p * 65536) + (v / p) % 65536 * p + v % p
  {
    var q := v / p;
    var h := q / 65536;
    assert q == h * 65536 + q % 65536;
    if p == 1 {
    } else if p == 0x1_0000 {
      assert v == q * 0x1_0000 + v % 0x1_0000 && v / 0x1_0000_0000 == h;
    } else if p == 0x1_0000_0000 {
      assert v == q * 0x1_0000_0000 + v % 0x1_0000_0000 && v / 0x1_0000_0000_0000 == h;
    } else {
      assert v == q * 0x1_0000_0000_0000 + v % 0x1_0000_0000_0000 && v / 0x1_0000_0000_0000_0000 == h;
    }
  }

  lemma MovkAmounts()
    ensures Pow2(0) == 1 && Pow2(16) == 0x1_0000 && Pow2(32) == 0x1_0000_0000
    ensures Pow2(48) == 0x1_0000_0000_0000 && Pow2(64) == DWORD
  {
    assert Pow2(8) == 256;
    assert Pow2(16) == 65536;
    Pow2Double(16);
    Pow2Double(32);
    assert Pow2(48) == 65536 * Pow2(32) by { Pow2Add(32, 16); }
  }

  lemma {:induction false} Pow2Add(a: nat, b: nat)
    ensures Pow2(a + b) == Pow2(a) * Pow2(b)
  {
    if b > 0 {
      Pow2Add(a, b - 1);
    }
  }

  lemma Pow2Double(a: nat)
    ensures Pow2(a + a) == Pow2(a) * Pow2(a)
  {
    Pow2Add(a, a);
  }

  // Clearing and setting a field is inserting it.
  lemma MovkSound(v: nat, imm: int, amount: nat)
    requires amount == 0 || amount == 16 || amount == 32 || amount == 48
    ensures ReplaceField(v, imm, amount) == InsertField(v, imm, amount)
  {
    MovkAmounts();
    Pow2Add(amount, 16);
    FieldSplit(v, Pow2(amount));
  }

  lemma {:induction false} SameNumber(read: Memory, memory: Memory, a: int, size: nat)
    requires Mapped(read, a, size) && SameBytes(read, memory, a, size)
    ensures Mapped(memory, a, size) && LittleEndian(read, a, size) == LittleEndian(memory, a, size)
    decreases size
  {
    if size > 0 {
      SameNumber(read, memory, a + 1, size - 1);
    }
  }

  lemma WordRange(memory: Memory, a: int)
    requires Mapped(memory, a, 4) && forall b :: b in memory ==> memory[b] < 256
    ensures LittleEndian(memory, a, 4) < WORD
  {
    var c := LittleEndian(memory, a + 1, 3);
    assert c == memory[a + 1] + 256 * LittleEndian(memory, a + 2, 2);
    assert LittleEndian(memory, a + 2, 2) == memory[a + 2] + 256 * LittleEndian(memory, a + 3, 1);
    assert LittleEndian(memory, a + 3, 1) == memory[a + 3] + 256 * LittleEndian(memory, a + 4, 0);
  }

  lemma ReadBackSound(read: Option<Memory>, m: Machine, kind: LoadKind, rd: Reg, a: nat)
    requires ValidMachine(m) && (read.Some? ==> SameBytes(read.value, m.memory, a, AccessSize(kind, rd)))
    requires Mapped(m.memory, a, AccessSize(kind, rd))
    ensures ReadBack(read, kind, rd, a).Some? ==> ReadBack(read, kind, rd, a).value == Loaded(m, kind, rd, a)
  {
    if ReadBack(read, kind, rd, a).Some? {
      SameNumber(read.value, m.memory, a, AccessSize(kind, rd));
      if kind == Ldrsw {
        WordRange(m.memory, a);
      }
    }
  }

  // Two numbers with the same remainder are the same value in a register.
  ghost predicate SameIn(r: Reg, a: int, b: int) {
    a % Width(r) == b % Width(r)
  }

  lemma SumSound(values: Values, m: Machine, i: Instr)
    requires ValidMachine(m) && Known(values, m) && ValidInstr(i) && i.AddSub?
    ensures Sum(values, i).Some? ==> !i.shift.OtherShift? && Sum(values, i).value == SumResult(m, i)
  {
    RegisterValueSound(values, m, i.rn);
    if i.operand.RegisterOperand? {
      RegisterValueSound(values, m, i.operand.reg);
    }
  }

  // What the machine writes into the destination, when the row has one and it is determined.
  function Written(m: Machine, row: Row): int
    requires ValidMachine(m) && ValidInstr(row.instr)
  {
    match row.instr
    case Adr(_, place) => if place.Some? then place.value else 0
    case Adrp(_, page) =>
      (match page
       case Some(Absolute(a)) => a
       case Some(Relative(n)) => (row.addr - row.addr % 4096) + n * 4096
       case None => 0)
    case MovImm(_, imm, amount) => imm * Pow2(amount)
    case MovN(rd, imm, amount) => Width(rd) - 1 - (imm * Pow2(amount)) % Width(rd)
    case MovK(rd, imm, amount) => InsertField(ReadReg(m, rd), imm, amount)
    case MovReg(_, rs) => ReadReg(m, rs)
    case AddSub(_, _, _, _, shift) => if shift.OtherShift? then 0 else SumResult(m, row.instr)
    case Load(kind, rd, address) =>
      if Mapped(m.memory, EffectiveAddress(m, address), AccessSize(kind, rd))
      then Loaded(m, kind, rd, EffectiveAddress(m, address)) else 0
    case _ => 0
  }

  lemma Complement(n: int, rd: Reg)
    ensures SameIn(rd, -n - 1, Width(rd) - 1 - n % Width(rd))
  {
    if Is32(rd) {
    } else {
    }
  }

  lemma NewValueSound(values: Values, row: Row, read: Option<Memory>, m: Machine, rd: Reg)
    requires ValidMachine(m) && Known(values, m) && ValidInstr(row.instr) && Agrees(read, m, row.instr)
    requires Destination(row.instr) == Some(rd)
    requires row.instr.Load? && !rd.Vector? ==>
      Mapped(m.memory, EffectiveAddress(m, row.instr.address), AccessSize(row.instr.kind, rd))
    ensures NewValue(values, row, read).Some? && !rd.Vector? ==>
      SameIn(rd, NewValue(values, row, read).value, Written(m, row))
  {
    hide SumResult, Sum, ReadBack, Loaded, ReplaceField, InsertField, MemoryAccess;
    match row.instr
    case MovN(_, imm, amount) => Complement(imm * Pow2(amount), rd);
    case MovK(_, imm, amount) =>
      RegisterValueSound(values, m, rd);
      MovkSound(ReadReg(m, rd), imm, amount);
    case MovReg(_, rs) => RegisterValueSound(values, m, rs);
    case AddSub(_, _, _, _, _) => SumSound(values, m, row.instr);
    case Load(kind, _, address) =>
      MemoryAccessSound(values, m, rd, address);
      if !rd.Vector? {
        ReadBackSound(read, m, kind, rd, EffectiveAddress(m, address));
      }
    case _ =>
  }

  // ----- one row

  lemma WriteKnown(values: Values, m: Machine, rd: Reg, v: int, claim: Option<int>)
    requires ValidMachine(m) && Known(values, m) && ValidReg(rd) && !rd.Fp? && !rd.Lr?
    requires claim.Some? && Key(rd).Some? ==> SameIn(rd, claim.value, v)
    ensures var kept := Forget(values, Key(rd));
      Known(if claim.Some? && Key(rd).Some? then kept[Key(rd).value := (claim.value % Width(rd)) as nat] else kept,
            WriteReg(m, rd, v))
  {
  }

  lemma WriteKeepsValid(m: Machine, rd: Reg, v: int)
    requires ValidMachine(m) && ValidReg(rd)
    ensures ValidMachine(WriteReg(m, rd, v))
  {
  }

  // The row writes its destination: the written value is the claimed one.
  lemma AssignedSound(values: Values, row: Row, read: Option<Memory>, m: Machine, rd: Reg, v: int)
    requires ValidMachine(m) && Known(values, m) && ValidInstr(row.instr) && ValidReg(rd)
    requires Destination(row.instr) == Some(rd) && !rd.Fp? && !rd.Lr?
    requires NewValue(values, row, read).Some? && !rd.Vector? ==> SameIn(rd, NewValue(values, row, read).value, v)
    ensures Known(Assigned(values, row, read), WriteReg(m, rd, v))
  {
    hide NewValue;
    WriteKnown(values, m, rd, v, NewValue(values, row, read));
  }

  // The base register is forgotten when it is written back.
  lemma WritebackSound(values: Values, m: Machine, before: Machine, i: Instr, a: Address)
    requires ValidMachine(m) && ValidMachine(before) && Known(values, m) && ValidAddress(a)
    requires AddressOf(i) == Some(a) && Canonical(i)
    ensures Known(Forget(values, WritebackKey(i)), AfterWriteback(m, before, a))
  {
    hide IndexValue;
  }

  lemma LoadSound(values: Values, row: Row, read: Option<Memory>, m: Machine, m': Machine)
    requires ValidMachine(m) && ValidInstr(row.instr) && Canonical(row.instr) && row.instr.Load?
    requires Known(values, m) && Executes(row.addr, row.instr, m, m') && Agrees(read, m, row.instr)
    ensures Known(After(values, row, read), m')
  {
    hide Agrees, Assigned, Loaded, EffectiveAddress, NewValue, Known, Canonical;
    var Load(kind, rd, address) := row.instr;
    assert !rd.Fp? && !rd.Lr? by { CanonicalDestination(row.instr, rd); }
    NewValueSound(values, row, read, m, rd);
    if rd.Vector? {
      AssignedVector(values, row, read, rd);
      WritebackSound(values, m, m, row.instr, address);
    } else {
      var v := Loaded(m, kind, rd, EffectiveAddress(m, address));
      AssignedSound(values, row, read, m, rd, v);
      WriteKeepsValid(m, rd, v);
      WritebackSound(Assigned(values, row, read), WriteReg(m, rd, v), m, row.instr, address);
    }
  }

  lemma CanonicalDestination(i: Instr, rd: Reg)
    requires Canonical(i) && Destination(i) == Some(rd)
    ensures !rd.Fp? && !rd.Lr?
  {
  }

  lemma AssignedVector(values: Values, row: Row, read: Option<Memory>, rd: Reg)
    requires Destination(row.instr) == Some(rd) && rd.Vector?
    ensures Assigned(values, row, read) == values
  {
  }

  lemma WriteSound(values: Values, row: Row, read: Option<Memory>, m: Machine, m': Machine, rd: Reg)
    requires ValidMachine(m) && ValidInstr(row.instr) && Canonical(row.instr) && !row.instr.Load?
    requires Destination(row.instr) == Some(rd)
    requires Known(values, m) && Executes(row.addr, row.instr, m, m') && Agrees(read, m, row.instr)
    ensures Known(After(values, row, read), m')
  {
    hide Assigned, Agrees, NewValue, Known, ValidMachine;
    NewValueSound(values, row, read, m, rd);
    var v := ValueWritten(values, row, read, m, m', rd);
    AssignedSound(values, row, read, m, rd, v);
    NoWriteback(values, row, read);
  }

  lemma ValueWritten(values: Values, row: Row, read: Option<Memory>, m: Machine, m': Machine, rd: Reg) returns (v: int)
    requires ValidMachine(m) && ValidInstr(row.instr) && !row.instr.Load? && Destination(row.instr) == Some(rd)
    requires Executes(row.addr, row.instr, m, m')
    ensures m' == WriteReg(m, rd, v)
    ensures NewValue(values, row, read).Some? ==> v == Written(m, row)
    ensures ValidReg(rd)
  {
    hide RegisterValue, SumResult, WriteReg, ReplaceField, InsertField;
    v := Written(m, row);
    match row.instr
    case Adr(_, place) =>
      if place == None {
        v :| m' == WriteReg(m, rd, v);
      }
    case Adrp(_, page) =>
      if page == None {
        v :| m' == WriteReg(m, rd, v);
      }
    case MovOther(_) => v :| m' == WriteReg(m, rd, v);
    case AddSub(_, _, _, _, shift) =>
      if shift.OtherShift? {
        v :| m' == WriteReg(m, rd, v);
      }
    case _ =>
  }

  lemma NoWriteback(values: Values, row: Row, read: Option<Memory>)
    requires !row.instr.Load? && Destination(row.instr).Some?
    ensures After(values, row, read) == Assigned(values, row, read)
  {
  }

  // The transfer of one row is sound.
  lemma StepSound(values: Values, row: Row, read: Option<Memory>, m: Machine, m': Machine)
    requires ValidMachine(m) && ValidInstr(row.instr) && Canonical(row.instr)
    requires Known(values, m) && Executes(row.addr, row.instr, m, m') && Agrees(read, m, row.instr)
    ensures Known(After(values, row, read), m')
  {
    if EndsBlock(row.instr) {
    } else if row.instr.Load? {
      LoadSound(values, row, read, m, m');
    } else if Destination(row.instr).Some? {
      WriteSound(values, row, read, m, m', Destination(row.instr).value);
    } else if row.instr.Store? {
      var address := row.instr.address;
      WritebackSound(values, m, m, row.instr, address);
    }
  }

  // ----- runs of the listing

  datatype Point = Point(row: nat, machine: Machine)

  // Consecutive four-byte instructions.
  ghost predicate Listing(rows: seq<Row>) {
    forall i :: 0 <= i < |rows| ==>
      rows[i].addr == rows[0].addr + 4 * i && ValidInstr(rows[i].instr) && Canonical(rows[i].instr)
  }

  // The first row, a target of a decoded branch, or what follows a row that may hand over control.
  predicate Boundary(rows: seq<Row>, i: nat)
    requires i < |rows|
  {
    i == 0 || rows[i].addr in Leaders(rows) || EndsBlock(rows[i - 1].instr)
  }

  // Control can pass from row `i` to row `j`: to the next address, to a decoded target, or, for
  // computed branches, calls, returns and instructions that are not understood, to some boundary.
  predicate Passes(rows: seq<Row>, i: nat, j: nat)
    requires i < |rows| && j < |rows|
  {
    var instr := rows[i].instr;
    (rows[j].addr == rows[i].addr + 4 && !instr.Jump? && !instr.JumpReg? && !instr.Return?)
    || BranchTarget(instr) == Some(rows[j].addr as int)
    || ((instr.JumpReg? || instr.CallReg? || instr.Call? || instr.Return? || instr.Other?) && Boundary(rows, j))
  }

  ghost predicate Step(rows: seq<Row>, read: Option<Memory>, p: Point, q: Point)
    requires Listing(rows)
  {
    p.row < |rows| && q.row < |rows| && ValidMachine(p.machine) && Agrees(read, p.machine, rows[p.row].instr)
    && Executes(rows[p.row].addr, rows[p.row].instr, p.machine, q.machine) && Passes(rows, p.row, q.row)
  }

  ghost predicate IsRun(rows: seq<Row>, read: Option<Memory>, run: seq<Point>)
    requires Listing(rows)
  {
    |run| >= 1 && run[0].row < |rows| && Boundary(rows, run[0].row) && ValidMachine(run[0].machine)
    && forall t :: 0 <= t < |run| - 1 ==> Step(rows, read, run[t], run[t + 1])
  }

  // The claims in front of the row a point stands at.
  function Claims(rows: seq<Row>, read: Option<Memory>, i: nat): Values
    requires i < |rows|
  {
    Before(rows, read, Leaders(rows), i)
  }

  lemma BoundaryKnowsNothing(rows: seq<Row>, read: Option<Memory>, i: nat)
    requires i < |rows| && Boundary(rows, i)
    ensures Claims(rows, read, i) == map[]
  {
  }

  lemma TargetIsLeader(rows: seq<Row>, i: nat, j: nat)
    requires i < |rows| && j < |rows| && BranchTarget(rows[i].instr) == Some(rows[j].addr as int)
    ensures Boundary(rows, j)
  {
  }

  lemma PassSound(rows: seq<Row>, read: Option<Memory>, p: Point, q: Point)
    requires Listing(rows) && Step(rows, read, p, q) && Known(Claims(rows, read, p.row), p.machine)
    ensures Known(Claims(rows, read, q.row), q.machine)
  {
    hide Executes, Agrees, Leaders;
    var i, j := p.row, q.row;
    if Boundary(rows, j) {
      BoundaryKnowsNothing(rows, read, j);
      StillValid(rows[i], p.machine, q.machine);
    } else if BranchTarget(rows[i].instr) == Some(rows[j].addr as int) {
      TargetIsLeader(rows, i, j);
    } else {
      assert j == i + 1;
      StepSound(Claims(rows, read, i), rows[i], read, p.machine, q.machine);
    }
  }

  lemma StillValid(row: Row, m: Machine, m': Machine)
    requires ValidMachine(m) && ValidInstr(row.instr) && Executes(row.addr, row.instr, m, m')
    ensures ValidMachine(m')
  {
  }

  // On every run of the listing, with loops, branches taken or not, calls that change any register
  // and stores that change any memory: at every point the recorded values are the register values.
  lemma {:induction false} RunSound(rows: seq<Row>, read: Option<Memory>, run: seq<Point>, t: nat)
    requires Listing(rows) && IsRun(rows, read, run) && t < |run|
    ensures run[t].row < |rows| && ValidMachine(run[t].machine)
    ensures Known(Claims(rows, read, run[t].row), run[t].machine)
  {
    hide Executes, Agrees, Passes, Claims;
    if t == 0 {
      BoundaryKnowsNothing(rows, read, run[0].row);
    } else {
      RunSound(rows, read, run, t - 1);
      assert Step(rows, read, run[t - 1], run[t - 1 + 1]);
      PassSound(rows, read, run[t - 1], run[t]);
      StillValid(rows[run[t - 1].row], run[t - 1].machine, run[t].machine);
    }
  }

  // ----- the reported addresses

  // The address the machine computes at the row: the target of a branch, the address of a load, or
  // the 64-bit result of adr, add and sub.
  function Architectural(m: Machine, i: Instr): Option<int>
    requires ValidMachine(m) && ValidInstr(i)
  {
    match i
    case Jump(target) => target
    case BranchIf(target) => target
    case Call(target) => target
    case Adr(_, place) => place
    case AddSub(_, _, _, _, shift) => if shift.OtherShift? then None else Some(SumResult(m, i))
    case Load(_, _, address) => Some(EffectiveAddress(m, address) as int)
    case JumpReg(reg) => Some(ReadReg(m, reg) as int)
    case CallReg(reg) => Some(ReadReg(m, reg) as int)
    case _ => None
  }

  lemma TargetSound(values: Values, row: Row, m: Machine)
    requires ValidMachine(m) && ValidInstr(row.instr) && Known(values, m)
    ensures Target(values, row).Some? ==> Architectural(m, row.instr) == Target(values, row)
  {
    hide SumResult, Sum, MemoryAccess, EffectiveAddress;
    match row.instr
    case AddSub(_, _, _, _, _) => SumSound(values, m, row.instr);
    case Load(_, rd, address) => MemoryAccessSound(values, m, rd, address);
    case JumpReg(reg) => RegisterValueSound(values, m, reg);
    case CallReg(reg) => RegisterValueSound(values, m, reg);
    case _ =>
  }

  // Every candidate reported for a row is the address computed there, modulo 2^64, on every run that
  // passes the row.
  lemma CandidatesSound(rows: seq<Row>, read: Option<Memory>, run: seq<Point>, t: nat, c: Candidate)
    requires Listing(rows) && IsRun(rows, read, run) && t < |run| && run[t].row < |rows|
    requires c in CandidateOf(Claims(rows, read, run[t].row), rows[run[t].row])
    ensures ValidMachine(run[t].machine)
    ensures var a := Architectural(run[t].machine, rows[run[t].row].instr);
      a.Some? && c.target == a.value % DWORD && c.row == rows[run[t].row]
  {
    hide IsRun, Architectural, Target, Claims;
    RunSound(rows, read, run, t);
    TargetSound(Claims(rows, read, run[t].row), rows[run[t].row], run[t].machine);
  }

  // The candidates reported for the listing are those of its rows.
  lemma {:induction false} CandidatesOfRows(rows: seq<Row>, read: Option<Memory>, n: nat, c: Candidate)
    requires n <= |rows|
    ensures c in Candidates(rows, read, Leaders(rows), n)
        <==> exists i :: 0 <= i < n && c in CandidateOf(Claims(rows, read, i), rows[i])
  {
    hide CandidateOf, Before, Leaders;
    if n > 0 {
      CandidatesOfRows(rows, read, n - 1, c);
      assert c in CandidateOf(Claims(rows, read, n - 1), rows[n - 1])
        <==> c in CandidateOf(Before(rows, read, Leaders(rows), n - 1), rows[n - 1]);
    }
  }

  // The second operand of an add or sub, shifted.
  function Right(m: Machine, i: Instr): int
    requires |m.x| == 31 && ValidInstr(i) && i.AddSub?
  {
    OperandValue(m, i.operand) * (if i.shift.Lsl? then Pow2(i.shift.k) else 1)
  }

  // A 32-bit add or sub as the architecture has them.
  predicate Narrow(i: Instr) {
    && i.AddSub? && Is32(i.rd) && Is32(i.rn) && !i.shift.OtherShift? && (i.shift.Lsl? ==> i.shift.k <= 31)
    && match i.operand
       case Immediate(imm) => 0 <= imm < WORD
       case RegisterOperand(reg) => Is32(reg)
  }

  lemma NarrowRange(m: Machine, i: Instr)
    requires ValidMachine(m) && ValidInstr(i) && Narrow(i)
    ensures 0 <= ReadReg(m, i.rn) < WORD && 0 <= Right(m, i) < DWORD / 2
  {
    var b := OperandValue(m, i.operand);
    assert 0 <= b < WORD;
    if i.shift.Lsl? {
      Pow2Half(i.shift.k);
      Product(b, Pow2(i.shift.k));
    }
  }

  lemma Pow2Half(k: nat)
    requires k <= 31
    ensures Pow2(k) <= WORD / 2
  {
    MovkAmounts();
    if k == 31 {
      assert Pow2(32) == 2 * Pow2(31);
    } else {
      Pow2Step(k, 31);
      assert Pow2(32) == 2 * Pow2(31);
    }
  }

  lemma {:induction false} Pow2Step(a: nat, b: nat)
    requires a <= b
    ensures Pow2(a) <= Pow2(b)
    decreases b
  {
    if a < b {
      Pow2Step(a, b - 1);
    }
  }

  lemma Product(b: nat, p: nat)
    requires b < WORD && p <= WORD / 2
    ensures 0 <= b * p < DWORD / 2
  {
    assert b * p <= b * (WORD / 2);
  }

  lemma NoCarry(left: int, right: int, minus: bool)
    requires 0 <= left < WORD && 0 <= right < DWORD / 2
    ensures var v := if minus then left - right else left + right;
            v % DWORD == v % WORD <==> if minus then right <= left else left + right < WORD
  {
    var v := if minus then left - right else left + right;
    if v < 0 {
      assert v % DWORD == v + DWORD;
    } else {
      assert v % DWORD == v;
    }
  }

  // For a 64-bit destination the number reported for an add or sub is always what the instruction writes.
  // For a 32-bit one it is exactly when a sub does not borrow and an add does not carry out of 32 bits.
  lemma SumTargetExact(values: Values, row: Row, m: Machine)
    requires ValidMachine(m) && ValidInstr(row.instr) && Known(values, m) && row.instr.AddSub?
    requires Target(values, row).Some? && !row.instr.shift.OtherShift?
    ensures var reported := Target(values, row).value % DWORD;
            var left, right := ReadReg(m, row.instr.rn), Right(m, row.instr);
            && (!Is32(row.instr.rd) ==> reported == SumResult(m, row.instr) % Width(row.instr.rd))
            && (Narrow(row.instr) ==>
                  (reported == SumResult(m, row.instr) % Width(row.instr.rd) <==>
                   if row.instr.minus then right <= left else left + right < WORD))
  {
    hide Sum, OperandValue, ReadReg, Pow2;
    SumSound(values, m, row.instr);
    if Narrow(row.instr) {
      NarrowRange(m, row.instr);
      NoCarry(ReadReg(m, row.instr.rn), Right(m, row.instr), row.instr.minus);
    }
  }

  // `sub w0, w1, #1` where w1 is known to be 0: the machine writes 0xffffffff, the number reported has all 64
  // bits set.
  lemma BorrowReported()
    ensures var m := Machine(seq(31, _ => 0), 0, map[]);
            var i, values: Values := AddSub(true, W(0), W(1), Immediate(1), NoShift), map[1 := 0];
            && ValidMachine(m) && ValidInstr(i) && Known(values, m) && Narrow(i)
            && Target(values, Row(0, i)).Some?
            && Target(values, Row(0, i)).value % DWORD == 0xffff_ffff_ffff_ffff
            && SumResult(m, i) % Width(i.rd) == 0xffff_ffff
  {
    var m := Machine(seq(31, _ => 0), 0, map[]);
    var i, values: Values := AddSub(true, W(0), W(1), Immediate(1), NoShift), map[1 := 0];
    assert Target(values, Row(0, i)) == Some(-1) && SumResult(m, i) == -1;
  }
}
