// Constant propagation misses nothing it has the operands for: which rows report an address, which registers
// stay on record, and which become known, said of the instructions and the machine alone.
module CodeFlowComplete {
  import opened Options
  import opened Arm64
  import opened CodeFlow
  import opened CodeFlowSound

  // ----- what is on record

  predicate OnRecord(values: Values, r: Reg) {
    r.Xzr? || r.Wzr? || ((r.X? || r.W?) && r.n in values) || (r.Fp? && 29 in values) || (r.Lr? && 30 in values)
  }

  predicate IndexOnRecord(values: Values, index: Index) {
    index.NoIndex? || index.Offset? || (index.Register? && OnRecord(values, index.reg) && index.shift <= 4)
  }

  // The destination has a readable spelling, and base and index are on record.
  predicate AddressOnRecord(values: Values, rd: Reg, a: Address) {
    !rd.Sp? && !rd.Wsp? && !rd.Fp? && !rd.Lr?
    && (a.Literal? || (OnRecord(values, a.base) && IndexOnRecord(values, a.index)))
  }

  predicate SumOnRecord(values: Values, i: Instr)
    requires i.AddSub?
  {
    OnRecord(values, i.rn) && (i.operand.Immediate? || OnRecord(values, i.operand.reg))
    && (i.shift.NoShift? || (i.shift.Lsl? && i.shift.k <= 63))
  }

  lemma ValueRead(values: Values, r: Reg)
    ensures RegisterValue(values, r).Some? <==> OnRecord(values, r)
  {
  }

  lemma IndexRead(values: Values, index: Index)
    ensures IndexOffset(values, index).Some? <==> IndexOnRecord(values, index)
  {
    hide RegisterValue, OnRecord, Pow2;
    if index.Register? {
      ValueRead(values, index.reg);
    }
  }

  lemma AddressRead(values: Values, rd: Reg, a: Address)
    ensures MemoryAccess(values, rd, a).Some? <==> AddressOnRecord(values, rd, a)
  {
    hide RegisterValue, OnRecord, IndexOffset, IndexOnRecord;
    if a.Based? {
      ValueRead(values, a.base);
      IndexRead(values, a.index);
    }
  }

  lemma SumRead(values: Values, i: Instr)
    requires i.AddSub?
    ensures Sum(values, i).Some? <==> SumOnRecord(values, i)
  {
    hide RegisterValue, OnRecord, Pow2;
    ValueRead(values, i.rn);
    if i.operand.RegisterOperand? {
      ValueRead(values, i.operand.reg);
    }
  }

  // ----- which rows report an address

  // The operands the row needs are on record and its form is readable.
  predicate Reportable(values: Values, i: Instr) {
    match i
    case Jump(target) => target.Some?
    case BranchIf(target) => target.Some?
    case Call(target) => target.Some?
    case Adr(_, place) => place.Some?
    case AddSub(_, _, _, _, _) => SumOnRecord(values, i)
    case Load(_, rd, address) => AddressOnRecord(values, rd, address)
    case JumpReg(reg) => OnRecord(values, reg)
    case CallReg(reg) => OnRecord(values, reg)
    case _ => false
  }

  function RoleOf(i: Instr): Kind {
    if i.Jump? || i.BranchIf? || i.Call? then DecodedDirect
    else if i.Load? then MemoryReference
    else if i.JumpReg? || i.CallReg? then IndirectTarget
    else Calculation
  }

  lemma TargetRead(values: Values, row: Row)
    ensures Target(values, row).Some? <==> Reportable(values, row.instr)
    ensures Target(values, row).Some? ==> KindOf(row.instr) == RoleOf(row.instr)
  {
    hide RegisterValue, OnRecord, MemoryAccess, AddressOnRecord, Sum, SumOnRecord;
    match row.instr
    case AddSub(_, _, _, _, _) => SumRead(values, row.instr);
    case Load(_, rd, address) => AddressRead(values, rd, address);
    case JumpReg(reg) => ValueRead(values, reg);
    case CallReg(reg) => ValueRead(values, reg);
    case _ =>
  }

  // A row reports the address the machine computes there, under its own kind, whenever it can, and nothing
  // else.
  lemma ReportExact(values: Values, row: Row, m: Machine)
    requires ValidMachine(m) && ValidInstr(row.instr) && Known(values, m)
    ensures Reportable(values, row.instr) ==> Architectural(m, row.instr).Some?
    ensures CandidateOf(values, row)
         == if Reportable(values, row.instr)
            then [Candidate(row, (Architectural(m, row.instr).value % DWORD) as nat, RoleOf(row.instr))] else []
  {
    hide Target, Reportable, Architectural, KindOf, RoleOf;
    TargetRead(values, row);
    TargetSound(values, row, m);
  }

  // ----- which registers are on record afterwards

  // Control leaves the block, or what the row does is not understood.
  predicate Leaves(i: Instr) {
    i.Jump? || i.BranchIf? || i.Call? || i.JumpReg? || i.CallReg? || i.Return? || i.Other?
  }

  predicate Writes(i: Instr, n: nat) {
    (i.Adr? || i.Adrp? || i.MovImm? || i.MovN? || i.MovK? || i.MovReg? || i.MovOther? || i.AddSub? || i.Load?)
    && (i.rd == X(n) || i.rd == W(n))
  }

  predicate WritesBack(i: Instr, n: nat) {
    (i.Load? || i.Store?) && i.address.Based? && !i.address.writeback.NoWriteback?
    && (i.address.base == X(n) || i.address.base == W(n))
  }

  // The value the row writes can be computed; for a load, its bytes have been read.
  predicate Computable(values: Values, i: Instr, read: Option<Memory>, m: Machine)
    requires |m.x| == 31 && ValidInstr(i)
  {
    match i
    case Adr(_, place) => place.Some?
    case Adrp(_, page) => page.Some?
    case MovImm(_, _, _) => true
    case MovN(_, _, _) => true
    case MovK(rd, _, _) => OnRecord(values, rd)
    case MovReg(_, rs) => OnRecord(values, rs)
    case AddSub(_, _, _, _, _) => SumOnRecord(values, i)
    case Load(kind, rd, address) =>
      AddressOnRecord(values, rd, address) && read.Some? && !rd.Vector?
      && Mapped(read.value, EffectiveAddress(m, address), AccessSize(kind, rd))
    case _ => false
  }

  lemma NewValueRead(values: Values, row: Row, read: Option<Memory>, m: Machine)
    requires ValidMachine(m) && ValidInstr(row.instr) && Known(values, m)
    ensures NewValue(values, row, read).Some? <==> Computable(values, row.instr, read, m)
  {
    hide RegisterValue, OnRecord, MemoryAccess, AddressOnRecord, Sum, SumOnRecord, ReplaceField, LittleEndian, Mapped,
      EffectiveAddress, Known;
    match row.instr
    case MovK(rd, _, _) => ValueRead(values, rd);
    case MovReg(_, rs) => ValueRead(values, rs);
    case AddSub(_, _, _, _, _) => SumRead(values, row.instr);
    case Load(_, rd, address) =>
      AddressRead(values, rd, address);
      MemoryAccessSound(values, m, rd, address);
    case _ =>
  }

  // Behind a row exactly these registers are on record: the one it writes when the value can be computed, and
  // every other it does not write or write back, with the value it had.
  lemma RecordExact(values: Values, row: Row, read: Option<Memory>, m: Machine, n: nat)
    requires ValidMachine(m) && ValidInstr(row.instr) && Known(values, m)
    ensures n in After(values, row, read) <==>
      !Leaves(row.instr) && !WritesBack(row.instr, n)
      && if Writes(row.instr, n) then Computable(values, row.instr, read, m) else n in values
    ensures n in After(values, row, read) && !Writes(row.instr, n) ==> After(values, row, read)[n] == values[n]
  {
    hide NewValue, Computable, Known;
    NewValueRead(values, row, read, m);
  }

  // With the value the machine leaves in it.
  lemma RecordHolds(values: Values, row: Row, read: Option<Memory>, m: Machine, m': Machine, n: nat)
    requires ValidMachine(m) && ValidInstr(row.instr) && Canonical(row.instr)
    requires Known(values, m) && Executes(row.addr, row.instr, m, m') && Agrees(read, m, row.instr)
    requires !Leaves(row.instr) && !WritesBack(row.instr, n)
    requires Writes(row.instr, n) && Computable(values, row.instr, read, m)
    ensures n in After(values, row, read) && n < |m'.x| && After(values, row, read)[n] == m'.x[n]
  {
    hide After, Computable, Executes, Agrees, Canonical;
    RecordExact(values, row, read, m, n);
    StepSound(values, row, read, m, m');
  }

  // ----- the listing

  // Nothing is forgotten between rows but at the first row and where a decoded branch of the listing leads.
  lemma ClaimsExact(rows: seq<Row>, read: Option<Memory>, i: nat)
    requires i < |rows|
    ensures Claims(rows, read, i)
         == if i == 0 || exists j :: 0 <= j < |rows| && (rows[j].instr.Jump? || rows[j].instr.BranchIf? || rows[j].instr.Call?)
                                && rows[j].instr.target == Some(rows[i].addr as int)
            then map[] else After(Claims(rows, read, i - 1), rows[i - 1], read)
  {
    hide After;
  }

  // What the whole listing reports of a row that a run passes: the address the machine computes there, if and
  // only if the operands are on record.
  lemma ListingReports(rows: seq<Row>, read: Option<Memory>, run: seq<Point>, t: nat, c: Candidate)
    requires Listing(rows) && IsRun(rows, read, run) && t < |run|
    requires run[t].row < |rows| && c.row == rows[run[t].row]
    ensures ValidMachine(run[t].machine)
    ensures var values, a := Claims(rows, read, run[t].row), Architectural(run[t].machine, c.row.instr);
      c in Candidates(rows, read, Leaders(rows), |rows|) <==>
        Reportable(values, c.row.instr) && a.Some? && c.target == a.value % DWORD && c.kind == RoleOf(c.row.instr)
  {
    hide IsRun, Claims, CandidateOf, Reportable, Architectural, RoleOf, Candidates, Leaders, Known;
    var i := run[t].row;
    RunSound(rows, read, run, t);
    ReportExact(Claims(rows, read, i), rows[i], run[t].machine);
    CandidatesOfRows(rows, read, |rows|, c);
    forall j | 0 <= j < |rows| && c in CandidateOf(Claims(rows, read, j), rows[j]) ensures j == i {
      OwnRow(Claims(rows, read, j), rows[j], c);
      assert rows[j].addr == rows[0].addr + 4 * j && rows[i].addr == rows[0].addr + 4 * i;
    }
  }

  lemma OwnRow(values: Values, row: Row, c: Candidate)
    requires c in CandidateOf(values, row)
    ensures c.row == row
  {
  }

  // With x8 known to be 0x100004000, `ldr x0, [x8, #16]` reports 0x100004010 and `blr x8` reports 0x100004000.
  lemma BaseReported()
    ensures var values: Values := map[8 := 0x1_0000_4000];
            var load, call := Row(0, Load(Ldr, X(0), Based(X(8), Offset(16), NoWriteback))), Row(4, CallReg(X(8)));
            && CandidateOf(values, load) == [Candidate(load, 0x1_0000_4010, MemoryReference)]
            && CandidateOf(values, call) == [Candidate(call, 0x1_0000_4000, IndirectTarget)]
  {
  }
}
