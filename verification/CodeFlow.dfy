// Constant propagation over a listing of A64 instructions, as the program computes it.
module CodeFlow {
  import opened Options
  import opened Arm64

  // What is known of the general registers, by number.
  type Values = map<nat, nat>

  datatype Kind = DecodedDirect | Calculation | MemoryReference | IndirectTarget

  datatype Candidate = Candidate(row: Row, target: nat, kind: Kind)

  // ----- operands

  // The known value of a register operand.
  function RegisterValue(values: Values, r: Reg): Option<nat> {
    match r
    case Xzr => Some(0)
    case Wzr => Some(0)
    case _ =>
      match Number(r)
      case None => None
      case Some(n) => if n in values then Some(values[n] % Width(r)) else None
  }

  function IndexOffset(values: Values, index: Index): Option<int> {
    match index
    case NoIndex => Some(0)
    case Offset(imm) => Some(imm)
    case OtherIndex => None
    case Register(reg, extension, shift) =>
      match RegisterValue(values, reg)
      case None => None
      case Some(v) =>
        var width := if extension == Sxtw then WORD else DWORD;
        var low := v % width;
        var offset := if extension == Sxtw || extension == Sxtx
                      then (if low / (width / 2) % 2 == 1 then low - width else low) else v;
        if shift > 4 then None else Some(offset * Pow2(shift))
  }

  // The address of a load, when the registers it needs are known. Only operands naming a numbered or
  // zero register, or a SIMD register, in first place are read.
  function MemoryAccess(values: Values, rd: Reg, a: Address): Option<nat> {
    if rd.Sp? || rd.Wsp? || rd.Fp? || rd.Lr? then None
    else
      match a
      case Literal(address) => Some(address)
      case Based(base, index, _) =>
        match RegisterValue(values, base)
        case None => None
        case Some(b) =>
          match IndexOffset(values, index)
          case None => None
          case Some(offset) => Some(((b + offset) % DWORD) as nat)
  }

  // ----- one row

  // The number under which a destination is recorded: only x and w spellings have one.
  function Key(r: Reg): Option<nat> {
    if r.X? || r.W? then Some(r.n) else None
  }

  function Destination(i: Instr): Option<Reg> {
    match i
    case Adr(rd, _) => Some(rd)
    case Adrp(rd, _) => Some(rd)
    case MovImm(rd, _, _) => Some(rd)
    case MovN(rd, _, _) => Some(rd)
    case MovK(rd, _, _) => Some(rd)
    case MovReg(rd, _) => Some(rd)
    case MovOther(rd) => Some(rd)
    case AddSub(_, rd, _, _, _) => Some(rd)
    case Load(_, rd, _) => Some(rd)
    case _ => None
  }

  // Clearing a 16-bit field and setting it.
  function ReplaceField(v: nat, imm: int, amount: nat): int {
    var p := Pow2(amount);
    v - ((v / p) % 65536) * p + (imm % 65536) * p
  }

  // The sum or difference before it is cut to the register's width.
  function Sum(values: Values, i: Instr): Option<int>
    requires i.AddSub?
  {
    var left := RegisterValue(values, i.rn);
    var right := match i.operand
                 case Immediate(imm) => Some(imm)
                 case RegisterOperand(reg) =>
                   (match RegisterValue(values, reg) case None => None case Some(v) => Some(v as int));
    if left == None || right == None || i.shift.OtherShift? || (i.shift.Lsl? && i.shift.k > 63) then None
    else
      var scaled := if i.shift.Lsl? then right.value * Pow2(i.shift.k) else right.value;
      Some(if i.minus then left.value - scaled else left.value + scaled)
  }

  function ReadBack(read: Option<Memory>, kind: LoadKind, rd: Reg, a: nat): Option<int> {
    if read == None || rd.Vector? || !Mapped(read.value, a, AccessSize(kind, rd)) then None
    else
      var v := LittleEndian(read.value, a, AccessSize(kind, rd));
      Some(if kind == Ldrsw && v / 0x8000_0000 % 2 == 1 then v - WORD else v)
  }

  // The value the row gives its destination, before it is cut to the register's width.
  function NewValue(values: Values, row: Row, read: Option<Memory>): Option<int> {
    match row.instr
    case Adr(_, address) => address
    case Adrp(_, page) =>
      (match page
       case Some(Absolute(a)) => Some(a as int)
       case Some(Relative(n)) => Some((row.addr - row.addr % 4096) + n * 4096)
       case None => None)
    case MovImm(_, imm, amount) => Some(imm * Pow2(amount))
    case MovN(_, imm, amount) => Some(-(imm * Pow2(amount)) - 1)
    case MovK(rd, imm, amount) =>
      (match RegisterValue(values, rd)
       case None => None
       case Some(v) => Some(ReplaceField(v, imm, amount)))
    case MovReg(_, rs) => (match RegisterValue(values, rs) case None => None case Some(v) => Some(v as int))
    case AddSub(_, _, _, _, _) => Sum(values, row.instr)
    case Load(kind, rd, address) =>
      (match MemoryAccess(values, rd, address)
       case None => None
       case Some(a) => ReadBack(read, kind, rd, a))
    case _ => None
  }

  // The address the row refers to, before it is cut to 64 bits.
  function Target(values: Values, row: Row): Option<int> {
    match row.instr
    case Jump(target) => target
    case BranchIf(target) => target
    case Call(target) => target
    case Adr(_, address) => address
    case AddSub(_, _, _, _, _) => Sum(values, row.instr)
    case Load(_, rd, address) =>
      (match MemoryAccess(values, rd, address) case None => None case Some(a) => Some(a as int))
    case JumpReg(reg) => (match RegisterValue(values, reg) case None => None case Some(v) => Some(v as int))
    case CallReg(reg) => (match RegisterValue(values, reg) case None => None case Some(v) => Some(v as int))
    case _ => None
  }

  function KindOf(i: Instr): Kind {
    match i
    case Jump(_) => DecodedDirect
    case BranchIf(_) => DecodedDirect
    case Call(_) => DecodedDirect
    case Load(_, _, _) => MemoryReference
    case JumpReg(_) => IndirectTarget
    case CallReg(_) => IndirectTarget
    case _ => Calculation
  }

  function CandidateOf(values: Values, row: Row): seq<Candidate> {
    match Target(values, row)
    case None => []
    case Some(t) => [Candidate(row, (t % DWORD) as nat, KindOf(row.instr))]
  }

  function Forget(values: Values, key: Option<nat>): Values {
    if key.Some? then values - {key.value} else values
  }

  function AddressOf(i: Instr): Option<Address> {
    match i
    case Load(_, _, a) => Some(a)
    case Store(a) => Some(a)
    case _ => None
  }

  // The base register named in front of `]!` or `],`.
  function WritebackKey(i: Instr): Option<nat> {
    match AddressOf(i)
    case Some(Based(base, _, writeback)) => if writeback.NoWriteback? then None else Key(base)
    case _ => None
  }

  // Everything is forgotten behind a row that may hand over control or is not understood.
  predicate EndsBlock(i: Instr) {
    i.Jump? || i.BranchIf? || i.Call? || i.JumpReg? || i.CallReg? || i.Return? || i.Other?
  }

  function Assigned(values: Values, row: Row, read: Option<Memory>): Values {
    match Destination(row.instr)
    case None => values
    case Some(rd) =>
      var kept := Forget(values, Key(rd));
      var v := NewValue(values, row, read);
      if v.Some? && Key(rd).Some? then kept[Key(rd).value := (v.value % Width(rd)) as nat] else kept
  }

  function After(values: Values, row: Row, read: Option<Memory>): Values {
    if EndsBlock(row.instr) then map[]
    else Forget(Assigned(values, row, read), WritebackKey(row.instr))
  }

  // ----- the listing

  function BranchTarget(i: Instr): Option<int> {
    if i.Jump? || i.BranchIf? || i.Call? then i.target else None
  }

  function Leaders(rows: seq<Row>): set<int> {
    set i | 0 <= i < |rows| && BranchTarget(rows[i].instr).Some? :: BranchTarget(rows[i].instr).value
  }

  function Enter(values: Values, row: Row, leaders: set<int>): Values {
    if row.addr in leaders then map[] else values
  }

  // What is known in front of row `i`.
  function Before(rows: seq<Row>, read: Option<Memory>, leaders: set<int>, i: nat): Values
    requires i < |rows|
  {
    Enter(if i == 0 then map[] else After(Before(rows, read, leaders, i - 1), rows[i - 1], read), rows[i], leaders)
  }

  function Candidates(rows: seq<Row>, read: Option<Memory>, leaders: set<int>, n: nat): seq<Candidate>
    requires n <= |rows|
  {
    if n == 0 then []
    else Candidates(rows, read, leaders, n - 1) + CandidateOf(Before(rows, read, leaders, n - 1), rows[n - 1])
  }

  // The program's two passes over the rows.
  method ReferenceCandidates(rows: seq<Row>, read: Option<Memory>) returns (candidates: seq<Candidate>)
    ensures candidates == Candidates(rows, read, Leaders(rows), |rows|)
  {
    hide Target, NewValue, Assigned;
    var leaders: set<int> := {};
    var i := 0;
    while i < |rows|
      invariant 0 <= i <= |rows| && leaders == Leaders(rows[..i])
    {
      assert rows[..i + 1][..i] == rows[..i];
      LeadersNext(rows, i);
      var target := BranchTarget(rows[i].instr);
      if target.Some? {
        leaders := leaders + {target.value};
      }
      i := i + 1;
    }
    assert rows[..i] == rows;
    var values: Values := map[];
    candidates := [];
    i := 0;
    while i < |rows|
      invariant 0 <= i <= |rows|
      invariant i < |rows| ==> Enter(values, rows[i], leaders) == Before(rows, read, leaders, i)
      invariant candidates == Candidates(rows, read, leaders, i)
    {
      var row := rows[i];
      if row.addr in leaders {
        values := map[];
      }
      candidates := candidates + CandidateOf(values, row);
      values := After(values, row, read);
      i := i + 1;
    }
  }

  lemma LeadersNext(rows: seq<Row>, i: nat)
    requires i < |rows|
    ensures var target := BranchTarget(rows[i].instr);
      Leaders(rows[..i + 1]) == Leaders(rows[..i]) + (if target.Some? then {target.value} else {})
  {
    var a, b := rows[..i], rows[..i + 1];
    forall t | t in Leaders(b) ensures t in Leaders(a) || BranchTarget(rows[i].instr) == Some(t) {
      var k :| 0 <= k < |b| && BranchTarget(b[k].instr).Some? && BranchTarget(b[k].instr).value == t;
      if k < i {
        assert a[k] == b[k];
      }
    }
    forall t | t in Leaders(a) ensures t in Leaders(b) {
      var k :| 0 <= k < |a| && BranchTarget(a[k].instr).Some? && BranchTarget(a[k].instr).value == t;
      assert b[k] == a[k];
    }
    if BranchTarget(rows[i].instr).Some? {
      assert b[i] == rows[i];
    }
  }
}
