// A64 instructions with their operands already decoded, and what they do to a machine, after the Arm
// Architecture Reference Manual (DDI 0487, sections C1.3.3 and C6.2). Registers hold naturals below
// 2^64; bit operations are written as arithmetic on them.
module Arm64 {
  import opened Options

  const WORD: nat := 0x1_0000_0000
  const DWORD: nat := 0x1_0000_0000_0000_0000

  // The spellings a register operand can have. `Fp` and `Lr` are other names of X(29) and X(30);
  // `Vector` stands for every SIMD and floating-point register.
  datatype Reg = X(n: nat) | W(n: nat) | Sp | Wsp | Xzr | Wzr | Fp | Lr | Vector

  datatype Extension = NoExtension | LslShift | Uxtw | Sxtw | Sxtx

  // What stands between the base register and the closing bracket.
  datatype Index = NoIndex | Offset(imm: int) | Register(reg: Reg, extension: Extension, shift: nat) | OtherIndex

  datatype Writeback = NoWriteback | PreIndexed | PostIndexed(amount: int)

  datatype Address = Literal(address: nat) | Based(base: Reg, index: Index, writeback: Writeback)

  datatype Operand = Immediate(imm: int) | RegisterOperand(reg: Reg)

  // The fourth field of an add or sub: none, `lsl #k`, or an extension or another shift.
  datatype Shift = NoShift | Lsl(k: nat) | OtherShift

  datatype Page = Absolute(address: nat) | Relative(pages: int)

  datatype LoadKind = Ldr | Ldrsw

  datatype Instr =
    | Jump(target: Option<int>)              // b
    | BranchIf(target: Option<int>)          // b.cond, cbz, cbnz, tbz, tbnz
    | Call(target: Option<int>)              // bl
    | JumpReg(reg: Reg)                      // br
    | CallReg(reg: Reg)                      // blr
    | Return                                 // ret and its variants
    | Adr(rd: Reg, place: Option<int>)
    | Adrp(rd: Reg, page: Option<Page>)
    | MovImm(rd: Reg, imm: int, amount: nat) // mov and movz
    | MovN(rd: Reg, imm: int, amount: nat)
    | MovK(rd: Reg, imm: int, amount: nat)
    | MovReg(rd: Reg, rs: Reg)
    | MovOther(rd: Reg)                      // an operand of mov the program does not read
    | AddSub(minus: bool, rd: Reg, rn: Reg, operand: Operand, shift: Shift)
    | Load(kind: LoadKind, rd: Reg, address: Address)
    | Store(address: Address)                // str, stur, stp and their variants
    | NoEffect                               // nop, cmp, cmn, tst, prfm and barriers
    | Other                                  // anything else

  datatype Row = Row(addr: nat, instr: Instr)

  type Memory = map<int, nat>

  // The parts of the machine the analysis speaks of.
  datatype Machine = Machine(x: seq<nat>, sp: nat, memory: Memory)

  ghost predicate ValidMachine(m: Machine) {
    |m.x| == 31 && (forall n :: 0 <= n < 31 ==> m.x[n] < DWORD) && m.sp < DWORD
    && forall a :: a in m.memory ==> m.memory[a] < 256
  }

  predicate ValidReg(r: Reg) {
    (r.X? || r.W?) ==> r.n <= 30
  }

  function Pow2(k: nat): (p: nat)
    ensures p >= 1
  {
    if k == 0 then 1 else 2 * Pow2(k - 1)
  }

  // ----- registers

  predicate Is32(r: Reg) {
    r.W? || r.Wsp? || r.Wzr?
  }

  function Width(r: Reg): nat {
    if Is32(r) then WORD else DWORD
  }

  // The number of the general register a name denotes.
  function Number(r: Reg): Option<nat> {
    match r
    case X(n) => Some(n)
    case W(n) => Some(n)
    case Fp => Some(29)
    case Lr => Some(30)
    case _ => None
  }

  function ReadReg(m: Machine, r: Reg): nat
    requires |m.x| == 31 && ValidReg(r)
  {
    match r
    case X(n) => m.x[n]
    case W(n) => m.x[n] % WORD
    case Fp => m.x[29]
    case Lr => m.x[30]
    case Sp => m.sp
    case Wsp => m.sp % WORD
    case _ => 0
  }

  // A 32-bit write clears the upper half.
  function WriteReg(m: Machine, r: Reg, v: int): Machine
    requires |m.x| == 31 && ValidReg(r)
  {
    match Number(r)
    case Some(n) => m.(x := m.x[n := (v % Width(r)) as nat])
    case None => if r.Sp? || r.Wsp? then m.(sp := (v % Width(r)) as nat) else m
  }

  // ----- memory

  // The operand as a signed number of `bits` bits.
  function SignExtend(v: nat, width: nat): int
    requires v < width
  {
    if 2 * v >= width then v - width else v
  }

  predicate Mapped(mem: Memory, a: int, size: nat)
    decreases size
  {
    size == 0 || (a in mem && Mapped(mem, a + 1, size - 1))
  }

  function LittleEndian(mem: Memory, a: int, size: nat): nat
    requires Mapped(mem, a, size)
    decreases size
  {
    if size == 0 then 0 else mem[a] + 256 * LittleEndian(mem, a + 1, size - 1)
  }

  // The index register, extended and scaled (ExtendReg).
  function IndexValue(m: Machine, index: Index): int
    requires |m.x| == 31 && ValidIndex(index)
  {
    match index
    case NoIndex => 0
    case Offset(imm) => imm
    case OtherIndex => 0
    case Register(reg, extension, shift) =>
      var v := ReadReg(m, reg);
      (if extension == Sxtw then SignExtend(v % WORD, WORD) else v) * Pow2(shift)
  }

  // A 32-bit index is zero- or sign-extended, a 64-bit one shifted or sign-extended from 64 bits.
  predicate ValidIndex(index: Index) {
    index.Register? ==>
      ValidReg(index.reg)
      && ((index.reg.W? && (index.extension == Uxtw || index.extension == Sxtw))
          || (index.reg.X? && (index.extension == NoExtension || index.extension == LslShift || index.extension == Sxtx)))
  }

  predicate ValidAddress(a: Address) {
    (a.Literal? ==> a.address < DWORD) &&
    (a.Based? ==>
      (a.base.X? || a.base.Sp? || a.base.Fp? || a.base.Lr?) && ValidReg(a.base) && ValidIndex(a.index)
      && (a.writeback.PostIndexed? ==> a.index.NoIndex?)
      && !a.index.OtherIndex?)
  }

  // The address accessed.
  function EffectiveAddress(m: Machine, a: Address): nat
    requires |m.x| == 31 && ValidAddress(a)
  {
    match a
    case Literal(address) => address
    case Based(base, index, _) => ((ReadReg(m, base) + IndexValue(m, index)) % DWORD) as nat
  }

  function AfterWriteback(m: Machine, before: Machine, a: Address): Machine
    requires |m.x| == 31 && |before.x| == 31 && ValidAddress(a)
  {
    if a.Literal? then m
    else
      match a.writeback
      case NoWriteback => m
      case PreIndexed => WriteReg(m, a.base, EffectiveAddress(before, a))
      case PostIndexed(amount) => WriteReg(m, a.base, ReadReg(before, a.base) + amount)
  }

  // The bytes a load brings into a general register.
  function AccessSize(kind: LoadKind, rd: Reg): nat {
    if kind == Ldrsw || rd.W? || rd.Wzr? then 4 else 8
  }

  function Loaded(m: Machine, kind: LoadKind, rd: Reg, a: nat): int
    requires Mapped(m.memory, a, AccessSize(kind, rd))
  {
    var v := LittleEndian(m.memory, a, AccessSize(kind, rd));
    if kind == Ldrsw then (if v < WORD then SignExtend(v, WORD) else 0) else v
  }

  // ----- one instruction

  predicate ValidInstr(i: Instr) {
    match i
    case JumpReg(reg) => ValidReg(reg)
    case CallReg(reg) => ValidReg(reg)
    case Adr(rd, _) => ValidReg(rd)
    case Adrp(rd, _) => ValidReg(rd)
    case MovImm(rd, _, _) => ValidReg(rd)
    case MovN(rd, _, _) => ValidReg(rd)
    case MovK(rd, _, amount) => ValidReg(rd) && (amount == 0 || amount == 16 || amount == 32 || amount == 48)
                                && (Is32(rd) ==> amount <= 16)
    case MovReg(rd, rs) => ValidReg(rd) && ValidReg(rs) && (Is32(rd) <==> Is32(rs))
    case MovOther(rd) => ValidReg(rd)
    case AddSub(_, rd, rn, operand, shift) =>
      ValidReg(rd) && ValidReg(rn) && (operand.RegisterOperand? ==> ValidReg(operand.reg))
    case Load(_, rd, address) => ValidReg(rd) && ValidAddress(address)
    case Store(address) => ValidAddress(address)
    case _ => true
  }

  function OperandValue(m: Machine, o: Operand): int
    requires |m.x| == 31 && (o.RegisterOperand? ==> ValidReg(o.reg))
  {
    match o
    case Immediate(imm) => imm
    case RegisterOperand(reg) => ReadReg(m, reg)
  }

  // MOVK: bits [amount+15:amount] are replaced.
  function InsertField(v: nat, imm: int, amount: nat): int {
    var low, field := Pow2(amount), Pow2(amount + 16);
    (v / field) * field + (imm % 65536) * low + v % low
  }

  function SumResult(m: Machine, i: Instr): int
    requires |m.x| == 31 && ValidInstr(i) && i.AddSub? && !i.shift.OtherShift?
  {
    var right := OperandValue(m, i.operand) * (if i.shift.Lsl? then Pow2(i.shift.k) else 1);
    if i.minus then ReadReg(m, i.rn) - right else ReadReg(m, i.rn) + right
  }

  // The instruction at `pc` can take `m` to `m'`. Calls return with any registers; what is not
  // described further can do anything.
  ghost predicate Executes(pc: nat, i: Instr, m: Machine, m': Machine)
    requires ValidMachine(m) && ValidInstr(i)
  {
    ValidMachine(m') &&
    match i
    case Jump(_) => m' == m
    case BranchIf(_) => m' == m
    case JumpReg(_) => m' == m
    case Return => m' == m
    case Adr(rd, address) =>
      if address.Some? then m' == WriteReg(m, rd, address.value) else exists v: int :: m' == WriteReg(m, rd, v)
    case Adrp(rd, page) =>
      (match page
       case Some(Absolute(a)) => m' == WriteReg(m, rd, a)
       case Some(Relative(n)) => m' == WriteReg(m, rd, (pc - pc % 4096) + n * 4096)
       case None => exists v: int :: m' == WriteReg(m, rd, v))
    case MovImm(rd, imm, amount) => m' == WriteReg(m, rd, imm * Pow2(amount))
    case MovN(rd, imm, amount) => m' == WriteReg(m, rd, Width(rd) - 1 - (imm * Pow2(amount)) % Width(rd))
    case MovK(rd, imm, amount) => m' == WriteReg(m, rd, InsertField(ReadReg(m, rd), imm, amount))
    case MovReg(rd, rs) => m' == WriteReg(m, rd, ReadReg(m, rs))
    case MovOther(rd) => exists v: int :: m' == WriteReg(m, rd, v)
    case AddSub(_, rd, _, _, shift) =>
      if shift.OtherShift? then exists v: int :: m' == WriteReg(m, rd, v) else m' == WriteReg(m, rd, SumResult(m, i))
    case Load(kind, rd, address) =>
      var a := EffectiveAddress(m, address);
      if rd.Vector? then m' == AfterWriteback(m, m, address)
      else Mapped(m.memory, a, AccessSize(kind, rd))
           && m' == AfterWriteback(WriteReg(m, rd, Loaded(m, kind, rd, a)), m, address)
    case Store(address) => exists mem: Memory :: m' == AfterWriteback(m, m, address).(memory := mem)
    case NoEffect => m' == m
    case _ => true
  }
}
