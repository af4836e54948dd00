// PC-relative A64 instructions: the words the assembler writes for them, and what those words mean in
// the Arm Architecture Reference Manual (DDI 0487, section C6.2). Fields of a word do not overlap, so
// joining them is addition.
module RelativeCode {
  import opened Options

  const SPACE: int := 0x1_0000_0000_0000_0000
  const HALF_SPACE: int := 0x8000_0000_0000_0000

  // A register operand: a letter with a number, or the zero register of that letter.
  datatype Register = Numbered(kind: char, number: nat) | Zero(kind: char)

  datatype Condition = EQ | NE | HS | LO | MI | PL | VS | VC | HI | LS | GE | LT | GT | LE | AL | NV | CS | CC | Unknown

  datatype Operation =
    | Adr(reg: Register)
    | Adrp(reg: Register)
    | Load(reg: Register)
    | LoadSigned(reg: Register)
    | Branch(link: bool)
    | BranchIf(condition: Condition)
    | CompareBranch(nonzero: bool, reg: Register)
    | TestBranch(nonzero: bool, reg: Register, bit: int)

  datatype Refusal = BadRegister | OutOfRange | Unaligned | BadCondition | BadBit

  datatype Encoding = Word(word: int) | Refused(refusal: Refusal)

  // ----- the assembler

  function ConditionNumber(c: Condition): Option<int> {
    match c
    case EQ => Some(0) case NE => Some(1) case HS => Some(2) case LO => Some(3)
    case MI => Some(4) case PL => Some(5) case VS => Some(6) case VC => Some(7)
    case HI => Some(8) case LS => Some(9) case GE => Some(10) case LT => Some(11)
    case GT => Some(12) case LE => Some(13) case AL => Some(14) case NV => Some(15)
    case CS => Some(2) case CC => Some(3)
    case Unknown => None
  }

  predicate Fits(delta: int, half: int) {
    -half <= delta < half
  }

  function EncodeAddress(base: int, reg: Register, delta: int): Encoding {
    if !(reg.Numbered? && reg.kind == 'x' && reg.number <= 30) then Refused(BadRegister)
    else if !Fits(delta, 0x100000) then Refused(OutOfRange)
    else
      var encoded := delta % 0x200000;
      Word(base + encoded % 4 * 0x20000000 + encoded / 4 * 32 + reg.number)
  }

  function LoadBase(kind: char): Option<int> {
    if kind == 'w' then Some(0x18000000)
    else if kind == 'x' then Some(0x58000000)
    else if kind == 's' then Some(0x1c000000)
    else if kind == 'd' then Some(0x5c000000)
    else if kind == 'q' then Some(0x9c000000)
    else None
  }

  function EncodeLoad(signed: bool, reg: Register, delta: int): Encoding {
    if !(reg.Numbered? && LoadBase(reg.kind).Some? && reg.number <= 31) then Refused(BadRegister)
    else if !Fits(delta, 0x40000) then Refused(OutOfRange)
    else if signed && reg.kind != 'x' then Refused(BadRegister)
    else Word((if signed then 0x98000000 else LoadBase(reg.kind).value) + delta % 0x80000 * 32 + reg.number)
  }

  function EncodeBranch(link: bool, delta: int): Encoding {
    if !Fits(delta, 0x2000000) then Refused(OutOfRange)
    else Word((if link then 0x94000000 else 0x14000000) + delta % 0x4000000)
  }

  function EncodeBranchIf(condition: Condition, delta: int): Encoding {
    match ConditionNumber(condition)
    case None => Refused(BadCondition)
    case Some(n) =>
      if !Fits(delta, 0x40000) then Refused(OutOfRange)
      else Word(0x54000000 + delta % 0x80000 * 32 + n)
  }

  // The number of a branch register; the zero register and a register numbered 31 are the same.
  function BranchRegister(reg: Register): Option<int> {
    if reg.kind != 'w' && reg.kind != 'x' then None
    else if reg.Zero? then Some(31)
    else if reg.number > 31 then None
    else Some(reg.number)
  }

  function EncodeCompare(nonzero: bool, reg: Register, delta: int): Encoding {
    match BranchRegister(reg)
    case None => Refused(BadRegister)
    case Some(n) =>
      if !Fits(delta, 0x40000) then Refused(OutOfRange)
      else
        Word(0x34000000 + (if reg.kind == 'x' then 0x80000000 else 0) + (if nonzero then 0x1000000 else 0)
             + delta % 0x80000 * 32 + n)
  }

  function EncodeTest(nonzero: bool, reg: Register, bit: int, delta: int): Encoding {
    match BranchRegister(reg)
    case None => Refused(BadRegister)
    case Some(n) =>
      if !(0 <= bit < (if reg.kind == 'x' then 64 else 32)) then Refused(BadBit)
      else if !Fits(delta, 0x2000) then Refused(OutOfRange)
      else
        Word(0x36000000 + bit / 32 * 0x80000000 + bit % 32 * 0x80000 + (if nonzero then 0x1000000 else 0)
             + delta % 0x4000 * 32 + n)
  }

  function Encode(op: Operation, pc: int, destination: int): Encoding {
    match op
    case Adr(reg) => EncodeAddress(0x10000000, reg, destination - pc)
    case Adrp(reg) => EncodeAddress(0x90000000, reg, destination / 4096 - pc / 4096)
    case _ =>
      if (destination - pc) % 4 != 0 then Refused(Unaligned)
      else
        var delta := (destination - pc) / 4;
        match op
        case Load(reg) => EncodeLoad(false, reg, delta)
        case LoadSigned(reg) => EncodeLoad(true, reg, delta)
        case Branch(link) => EncodeBranch(link, delta)
        case BranchIf(condition) => EncodeBranchIf(condition, delta)
        case CompareBranch(nonzero, reg) => EncodeCompare(nonzero, reg, delta)
        case TestBranch(nonzero, reg, bit) => EncodeTest(nonzero, reg, bit, delta)
  }

  // ----- the architecture

  datatype LoadKind = W32 | X64 | SignedW | S32 | D64 | Q128

  // What one of these instructions does. The width of a tested register is not part of it.
  datatype Effect =
    | Address(reg: int, value: int)
    | Page(reg: int, value: int)
    | LoadFrom(kind: LoadKind, reg: int, address: int)
    | Go(link: bool, target: int)
    | GoIf(condition: int, target: int)
    | GoIfZero(nonzero: bool, wide: bool, reg: int, target: int)
    | GoIfBit(nonzero: bool, bit: int, reg: int, target: int)

  function Signed(value: int, half: int): int {
    if value < half then value else value - 2 * half
  }

  function Wrap(address: int): int {
    address % SPACE
  }

  function LoadKindOf(opc: int, simd: int): Option<LoadKind> {
    if simd == 0 then
      (if opc == 0 then Some(W32) else if opc == 1 then Some(X64) else if opc == 2 then Some(SignedW) else None)
    else
      (if opc == 0 then Some(S32) else if opc == 1 then Some(D64) else if opc == 2 then Some(Q128) else None)
  }

  // Bits 31 to 24, 23 to 5 and 4 to 0 of a word.
  function Top(word: int): int {
    word / 0x1000000
  }

  function Middle(word: int): int {
    word / 32 % 0x80000
  }

  function Low(word: int): int {
    word % 32
  }

  function DecodeAddress(top: int, middle: int, low: int, pc: int): Effect {
    var offset := Signed(middle * 4 + top / 32 % 4, 0x100000);
    if top / 128 == 0 then Address(low, Wrap(pc + offset)) else Page(low, Wrap((pc / 4096 + offset) * 4096))
  }

  function DecodeFields(top: int, middle: int, low: int, pc: int): Option<Effect> {
    var near := Wrap(pc + Signed(middle, 0x40000) * 4);
    if top % 32 == 16 then Some(DecodeAddress(top, middle, low, pc))
    else if top / 4 % 32 == 5 then
      Some(Go(top / 128 == 1, Wrap(pc + Signed(top % 4 * 0x1000000 + middle * 32 + low, 0x2000000) * 4)))
    else if top == 0x54 then (if low < 16 then Some(GoIf(low, near)) else None)
    else if top / 2 % 64 == 0x1a then Some(GoIfZero(top % 2 == 1, top / 128 == 1, low, near))
    else if top / 2 % 64 == 0x1b then
      Some(GoIfBit(top % 2 == 1, top / 128 * 32 + middle / 0x4000, low,
                   Wrap(pc + Signed(middle % 0x4000, 0x2000) * 4)))
    else if top / 8 % 8 == 3 && top % 4 == 0 then
      (match LoadKindOf(top / 64, top / 4 % 2)
       case None => None
       case Some(kind) => Some(LoadFrom(kind, low, near)))
    else None
  }

  // Nothing is said of a word that is none of these instructions.
  function Decode(word: int, pc: int): Option<Effect> {
    DecodeFields(Top(word), Middle(word), Low(word), pc)
  }

  // ----- conditions

  // The flags of the processor.
  datatype Flags = Flags(n: bool, z: bool, c: bool, v: bool)

  // What a condition field tests: its upper three bits choose a test of the flags and its lowest bit inverts
  // it, but for the field of all ones (DDI 0487, section C1.2.4).
  predicate ConditionHolds(field: int, f: Flags) {
    var test := field / 2 % 8;
    var holds := if test == 0 then f.z
                 else if test == 1 then f.c
                 else if test == 2 then f.n
                 else if test == 3 then f.v
                 else if test == 4 then f.c && !f.z
                 else if test == 5 then f.n == f.v
                 else if test == 6 then f.n == f.v && !f.z
                 else true;
    if field % 2 == 1 && field != 15 then !holds else holds
  }

  // What a condition is the name of. Unsigned comparisons read the carry, signed ones the sign and overflow.
  predicate NameHolds(c: Condition, f: Flags) {
    match c
    case EQ => f.z
    case NE => !f.z
    case HS => f.c
    case CS => f.c
    case LO => !f.c
    case CC => !f.c
    case MI => f.n
    case PL => !f.n
    case VS => f.v
    case VC => !f.v
    case HI => f.c && !f.z
    case LS => !f.c || f.z
    case GE => f.n == f.v
    case LT => f.n != f.v
    case GT => !f.z && f.n == f.v
    case LE => f.z || f.n != f.v
    case AL => true
    case NV => true
    case Unknown => false
  }

  // The field tests exactly what the name says; of the two fields that always hold, NV is the one of all ones.
  ghost predicate Tests(field: int, c: Condition) {
    0 <= field < 16 && c != Unknown && (c == NV <==> field == 15)
    && forall f: Flags :: ConditionHolds(field, f) <==> NameHolds(c, f)
  }

  // ----- what the programmer asked for

  // The field of a condition, two for each test with the second inverted.
  function FieldOf(c: Condition): int
    requires c != Unknown
  {
    var test := if c == EQ || c == NE then 0
                else if c == HS || c == CS || c == LO || c == CC then 1
                else if c == MI || c == PL then 2
                else if c == VS || c == VC then 3
                else if c == HI || c == LS then 4
                else if c == GE || c == LT then 5
                else if c == GT || c == LE then 6
                else 7;
    var inverted := c == NE || c == LO || c == CC || c == PL || c == VC || c == LS || c == LT || c == LE || c == NV;
    2 * test + if inverted then 1 else 0
  }

  // The assembler's number for a name is the field that tests it; only an unknown name has none.
  lemma NumberTests(c: Condition)
    ensures c == Unknown ==> ConditionNumber(c) == None
    ensures c != Unknown ==> ConditionNumber(c) == Some(FieldOf(c)) && Tests(FieldOf(c), c)
  {
    if c != Unknown {
      forall f: Flags ensures ConditionHolds(FieldOf(c), f) <==> NameHolds(c, f) {
        FieldHolds(c, f);
      }
    }
  }

  lemma FieldHolds(c: Condition, f: Flags)
    requires c != Unknown
    ensures ConditionHolds(FieldOf(c), f) <==> NameHolds(c, f)
  {
  }

  // The register field of a compare or test branch: the zero register has number 31.
  function RegisterField(reg: Register): int {
    match reg
    case Numbered(_, n) => n
    case Zero(_) => 31
  }

  predicate Testable(reg: Register) {
    (reg.kind == 'w' || reg.kind == 'x') && (reg.Numbered? ==> reg.number <= 31)
  }

  function KindOfLoad(kind: char): Option<LoadKind> {
    if kind == 'w' then Some(W32)
    else if kind == 'x' then Some(X64)
    else if kind == 's' then Some(S32)
    else if kind == 'd' then Some(D64)
    else if kind == 'q' then Some(Q128)
    else None
  }

  // The effect an operation names, when its operands name one.
  function Meaning(op: Operation, destination: int): Option<Effect> {
    match op
    case Adr(reg) =>
      if reg.Numbered? && reg.kind == 'x' && reg.number <= 30 then Some(Address(reg.number, destination)) else None
    case Adrp(reg) =>
      if reg.Numbered? && reg.kind == 'x' && reg.number <= 30
      then Some(Page(reg.number, destination / 4096 * 4096)) else None
    case Load(reg) =>
      if reg.Numbered? && KindOfLoad(reg.kind).Some? && reg.number <= 31
      then Some(LoadFrom(KindOfLoad(reg.kind).value, reg.number, destination)) else None
    case LoadSigned(reg) =>
      if reg.Numbered? && reg.kind == 'x' && reg.number <= 31
      then Some(LoadFrom(SignedW, reg.number, destination)) else None
    case Branch(link) => Some(Go(link, destination))
    case BranchIf(condition) =>
      if condition == Unknown then None else Some(GoIf(FieldOf(condition), destination))
    case CompareBranch(nonzero, reg) =>
      if Testable(reg) then Some(GoIfZero(nonzero, reg.kind == 'x', RegisterField(reg), destination)) else None
    case TestBranch(nonzero, reg, bit) =>
      if Testable(reg) && 0 <= bit < (if reg.kind == 'x' then 64 else 32)
      then Some(GoIfBit(nonzero, bit, RegisterField(reg), destination)) else None
  }

  predicate InSpace(address: int) {
    0 <= address < SPACE
  }

  predicate IsWord(word: int) {
    0 <= word < 0x1_0000_0000
  }

  // Some word has the asked effect at `pc`.
  ghost predicate Representable(op: Operation, pc: int, destination: int) {
    Meaning(op, destination).Some? && exists word :: IsWord(word) && Decode(word, pc) == Meaning(op, destination)
  }

  // ----- words and fields

  lemma Fields(top: int, middle: int, low: int)
    requires 0 <= top < 256 && 0 <= middle < 0x80000 && 0 <= low < 32
    ensures var word := top * 0x1000000 + middle * 32 + low;
            IsWord(word) && Top(word) == top && Middle(word) == middle && Low(word) == low
  {
    var word := top * 0x1000000 + middle * 32 + low;
    assert word / 32 == top * 0x80000 + middle;
  }

  lemma SignedInverse(delta: int, half: int)
    requires half > 0 && Fits(delta, half)
    ensures 0 <= delta % (2 * half) < 2 * half && Signed(delta % (2 * half), half) == delta
  {
    if delta < 0 {
      Residue(delta, -1, 2 * half, delta + 2 * half);
    } else {
      Residue(delta, 0, 2 * half, delta);
    }
  }

  lemma AtLeastOnce(k: int, m: int)
    requires k >= 1 && m > 0
    ensures k * m >= m
  {
    assert k * m == m + (k - 1) * m;
    assert (k - 1) * m >= 0;
  }

  lemma Residue(a: int, q: int, m: int, r: int)
    requires 0 <= r < m && a == q * m + r
    ensures a % m == r && a / m == q
  {
    var k := a / m - q;
    assert a == a / m * m + a % m;
    assert k * m == r - a % m;
    if k >= 1 {
      AtLeastOnce(k, m);
    } else if k <= -1 {
      AtLeastOnce(-k, m);
    }
  }

  lemma SmallFields(word: int)
    requires IsWord(word)
    ensures 0 <= Top(word) < 256 && 0 <= Middle(word) < 0x80000 && 0 <= Low(word) < 32
  {
  }

  // ----- every word that is written means what was asked

  lemma AddressFields(page: bool, encoded: int, low: int, pc: int)
    requires 0 <= encoded < 0x200000
    ensures var top := (if page then 0x90 else 0x10) + encoded % 4 * 32;
            var offset := Signed(encoded, 0x100000);
            && 0 <= top < 256
            && DecodeFields(top, encoded / 4, low, pc) ==
               Some(if page then Page(low, Wrap((pc / 4096 + offset) * 4096)) else Address(low, Wrap(pc + offset)))
  {
    hide Wrap, Signed;
    var rest := encoded % 4;
    assert 0 <= rest < 4;
    var top := (if page then 0x90 else 0x10) + rest * 32;
    assert top % 32 == 16 && top / 32 % 4 == rest;
  }

  lemma AddressDecodes(page: bool, n: nat, delta: int, pc: int)
    requires n <= 30 && Fits(delta, 0x100000)
    ensures var r := EncodeAddress(if page then 0x90000000 else 0x10000000, Numbered('x', n), delta);
            && r.Word? && IsWord(r.word)
            && Decode(r.word, pc) == Some(if page then Page(n, Wrap((pc / 4096 + delta) * 4096)) else Address(n, Wrap(pc + delta)))
  {
    hide Wrap, DecodeFields, Signed, Top, Middle, Low;
    var encoded := delta % 0x200000;
    SignedInverse(delta, 0x100000);
    AddressFields(page, encoded, n, pc);
    Fields((if page then 0x90 else 0x10) + encoded % 4 * 32, encoded / 4, n);
  }

  function LoadTop(signed: bool, kind: char): int
    requires LoadBase(kind).Some?
  {
    if signed then 0x98 else LoadBase(kind).value / 0x1000000
  }

  lemma LoadFields(signed: bool, kind: char, middle: int, low: int, pc: int)
    requires LoadBase(kind).Some? && (signed ==> kind == 'x')
    ensures 0 <= LoadTop(signed, kind) < 256
    ensures LoadTop(signed, kind) * 0x1000000 == if signed then 0x98000000 else LoadBase(kind).value
    ensures DecodeFields(LoadTop(signed, kind), middle, low, pc) ==
            Some(LoadFrom(if signed then SignedW else KindOfLoad(kind).value, low, Wrap(pc + Signed(middle, 0x40000) * 4)))
  {
    hide Wrap, Signed;
    if signed {
    } else if kind == 'w' {
    } else if kind == 'x' {
    } else if kind == 's' {
    } else if kind == 'd' {
    } else {
    }
  }

  lemma LoadDecodes(signed: bool, reg: Register, delta: int, pc: int)
    requires EncodeLoad(signed, reg, delta).Word?
    ensures var word := EncodeLoad(signed, reg, delta).word;
            && IsWord(word)
            && Decode(word, pc) ==
               Some(LoadFrom(if signed then SignedW else KindOfLoad(reg.kind).value, reg.number, Wrap(pc + delta * 4)))
  {
    hide Wrap, DecodeFields, LoadTop, KindOfLoad, Signed, Top, Middle, Low;
    SignedInverse(delta, 0x40000);
    LoadFields(signed, reg.kind, delta % 0x80000, reg.number, pc);
    Fields(LoadTop(signed, reg.kind), delta % 0x80000, reg.number);
  }

  lemma BranchFields(link: bool, field: int, pc: int)
    requires 0 <= field < 0x4000000
    ensures var top := (if link then 0x94 else 0x14) + field / 0x1000000;
            && 0 <= top < 256
            && DecodeFields(top, field / 32 % 0x80000, field % 32, pc) ==
               Some(Go(link, Wrap(pc + Signed(field, 0x2000000) * 4)))
  {
    hide Wrap, Signed;
    var high := field / 0x1000000;
    assert 0 <= high < 4;
    var top := (if link then 0x94 else 0x14) + high;
    assert top % 4 == high && top / 4 % 32 == 5 && top % 32 != 16;
    assert high * 0x1000000 + field / 32 % 0x80000 * 32 + field % 32 == field;
  }

  lemma BranchDecodes(link: bool, delta: int, pc: int)
    requires Fits(delta, 0x2000000)
    ensures var r := EncodeBranch(link, delta);
            r.Word? && IsWord(r.word) && Decode(r.word, pc) == Some(Go(link, Wrap(pc + delta * 4)))
  {
    hide Wrap, DecodeFields, Signed, Top, Middle, Low;
    var field := delta % 0x4000000;
    SignedInverse(delta, 0x2000000);
    BranchFields(link, field, pc);
    assert field == field / 0x1000000 * 0x1000000 + field / 32 % 0x80000 * 32 + field % 32;
    Fields((if link then 0x94 else 0x14) + field / 0x1000000, field / 32 % 0x80000, field % 32);
  }

  lemma BranchIfDecodes(condition: Condition, delta: int, pc: int)
    requires ConditionNumber(condition).Some? && Fits(delta, 0x40000)
    ensures var r := EncodeBranchIf(condition, delta);
            && r.Word? && IsWord(r.word)
            && Decode(r.word, pc) == Some(GoIf(ConditionNumber(condition).value, Wrap(pc + delta * 4)))
  {
    hide Wrap;
    SignedInverse(delta, 0x40000);
    var n := ConditionNumber(condition).value;
    assert 0 <= n < 16;
    Fields(0x54, delta % 0x80000, n);
  }

  lemma CompareFields(nonzero: bool, wide: bool, middle: int, low: int, pc: int)
    ensures var top := 0x34 + (if wide then 0x80 else 0) + (if nonzero then 1 else 0);
            && 0 <= top < 256
            && DecodeFields(top, middle, low, pc) ==
               Some(GoIfZero(nonzero, wide, low, Wrap(pc + Signed(middle, 0x40000) * 4)))
  {
    hide Wrap, Signed;
  }

  lemma CompareDecodes(nonzero: bool, reg: Register, delta: int, pc: int)
    requires BranchRegister(reg).Some? && Fits(delta, 0x40000)
    ensures var r := EncodeCompare(nonzero, reg, delta);
            && r.Word? && IsWord(r.word)
            && Decode(r.word, pc) ==
               Some(GoIfZero(nonzero, reg.kind == 'x', BranchRegister(reg).value, Wrap(pc + delta * 4)))
  {
    hide Wrap, DecodeFields, Signed, Top, Middle, Low;
    SignedInverse(delta, 0x40000);
    var wide := reg.kind == 'x';
    CompareFields(nonzero, wide, delta % 0x80000, BranchRegister(reg).value, pc);
    Fields(0x34 + (if wide then 0x80 else 0) + (if nonzero then 1 else 0), delta % 0x80000, BranchRegister(reg).value);
  }

  lemma TestFields(nonzero: bool, bit: int, field: int, low: int, pc: int)
    requires 0 <= bit < 64 && 0 <= field < 0x4000
    ensures var top := 0x36 + bit / 32 * 0x80 + (if nonzero then 1 else 0);
            var middle := bit % 32 * 0x4000 + field;
            && 0 <= top < 256 && 0 <= middle < 0x80000
            && DecodeFields(top, middle, low, pc) ==
               Some(GoIfBit(nonzero, bit, low, Wrap(pc + Signed(field, 0x2000) * 4)))
  {
    hide Wrap, Signed;
    var middle := bit % 32 * 0x4000 + field;
    Residue(middle, bit % 32, 0x4000, field);
    if bit < 32 {
      assert bit / 32 == 0;
    } else {
      assert bit / 32 == 1;
    }
  }

  lemma TestDecodes(nonzero: bool, reg: Register, bit: int, delta: int, pc: int)
    requires BranchRegister(reg).Some? && Fits(delta, 0x2000)
    requires 0 <= bit < (if reg.kind == 'x' then 64 else 32)
    ensures var r := EncodeTest(nonzero, reg, bit, delta);
            && r.Word? && IsWord(r.word)
            && Decode(r.word, pc) == Some(GoIfBit(nonzero, bit, BranchRegister(reg).value, Wrap(pc + delta * 4)))
  {
    hide Wrap, DecodeFields, Signed, Top, Middle, Low;
    var field := delta % 0x4000;
    SignedInverse(delta, 0x2000);
    TestFields(nonzero, bit, field, BranchRegister(reg).value, pc);
    Fields(0x36 + bit / 32 * 0x80 + (if nonzero then 1 else 0), bit % 32 * 0x4000 + field, BranchRegister(reg).value);
  }

  lemma WrapWithin(address: int)
    requires InSpace(address)
    ensures Wrap(address) == address
  {
  }

  // Decoding an encoded instruction gives back its registers, condition or bit and its destination.
  lemma EncodedMeans(op: Operation, pc: int, destination: int)
    requires InSpace(pc) && InSpace(destination) && Encode(op, pc, destination).Word?
    ensures var word := Encode(op, pc, destination).word;
            && IsWord(word) && Meaning(op, destination).Some?
            && Decode(word, pc) == Meaning(op, destination)
  {
    hide Decode, Wrap;
    var delta := (destination - pc) / 4;
    assert !op.Adr? && !op.Adrp? ==> pc + delta * 4 == destination;
    WrapWithin(destination);
    WrapWithin(destination / 4096 * 4096);
    match op {
      case Adr(reg) => AddressDecodes(false, reg.number, destination - pc, pc);
      case Adrp(reg) => AddressDecodes(true, reg.number, destination / 4096 - pc / 4096, pc);
      case Load(reg) => LoadDecodes(false, reg, delta, pc);
      case LoadSigned(reg) => LoadDecodes(true, reg, delta, pc);
      case Branch(link) => BranchDecodes(link, delta, pc);
      case BranchIf(condition) =>
        NumberTests(condition);
        BranchIfDecodes(condition, delta, pc);
      case CompareBranch(nonzero, reg) => CompareDecodes(nonzero, reg, delta, pc);
      case TestBranch(nonzero, reg, bit) => TestDecodes(nonzero, reg, bit, delta, pc);
    }
  }

  // An assembled conditional branch goes to its destination exactly when the condition of that name holds.
  lemma ConditionalMeans(c: Condition, pc: int, destination: int, f: Flags)
    requires InSpace(pc) && InSpace(destination) && Encode(BranchIf(c), pc, destination).Word?
    ensures var e := Decode(Encode(BranchIf(c), pc, destination).word, pc);
            && e.Some? && e.value.GoIf? && e.value.target == destination
            && (ConditionHolds(e.value.condition, f) <==> NameHolds(c, f))
  {
    hide Decode, Encode;
    EncodedMeans(BranchIf(c), pc, destination);
    NumberTests(c);
  }

  // ----- and every destination that a word can mean is accepted

  lemma WrapNear(pc: int, offset: int, destination: int)
    requires InSpace(destination) && -HALF_SPACE < destination - pc < HALF_SPACE
    requires -0x1_0000_0000_0000 <= offset <= 0x1_0000_0000_0000 && Wrap(pc + offset) == destination
    ensures destination == pc + offset
  {
    var q := (pc + offset) / SPACE;
    assert pc + offset == q * SPACE + destination;
  }

  lemma PageNear(pc: int, offset: int, destination: int)
    requires InSpace(pc) && InSpace(destination) && pc % 4096 == 0 && -HALF_SPACE < destination - pc < HALF_SPACE + 4096
    requires -0x1_0000_0000_0000 <= offset <= 0x1_0000_0000_0000
    requires Wrap(pc + offset) == destination / 4096 * 4096
    ensures destination / 4096 * 4096 == pc + offset
  {
    var q := (pc + offset) / SPACE;
    assert pc + offset == q * SPACE + destination / 4096 * 4096;
  }

  // What a word that decodes at all says of the displacement it carries.
  lemma DecodedAddress(word: int, pc: int, destination: int, page: bool, reg: int)
    requires IsWord(word) && InSpace(pc) && InSpace(destination) && -HALF_SPACE < destination - pc < HALF_SPACE
    requires Decode(word, pc) == Some(if page then Page(reg, destination / 4096 * 4096) else Address(reg, destination))
    ensures Fits(if page then destination / 4096 - pc / 4096 else destination - pc, 0x100000)
  {
    hide Wrap, LoadKindOf;
    SmallFields(word);
    var offset := Signed(Middle(word) * 4 + Top(word) / 32 % 4, 0x100000);
    assert Fits(offset, 0x100000);
    if page {
      var base := pc / 4096 * 4096;
      assert Wrap(base + offset * 4096) == destination / 4096 * 4096;
      PageNear(base, offset * 4096, destination);
    } else {
      WrapNear(pc, offset, destination);
    }
  }

  lemma Displaced(pc: int, offset: int, half: int, destination: int)
    requires InSpace(destination) && -HALF_SPACE < destination - pc < HALF_SPACE
    requires Fits(offset, half) && half <= 0x4000000 && Wrap(pc + offset * 4) == destination
    ensures (destination - pc) % 4 == 0 && Fits((destination - pc) / 4, half)
  {
    WrapNear(pc, offset * 4, destination);
  }

  // The displacement of a decoded branch or literal load, and how far its field reaches.
  function Reach(e: Effect): int {
    if e.Go? then 0x2000000 else if e.GoIfBit? then 0x2000 else 0x40000
  }

  function Aim(e: Effect): int {
    match e
    case Address(_, value) => value
    case Page(_, value) => value
    case LoadFrom(_, _, address) => address
    case Go(_, target) => target
    case GoIf(_, target) => target
    case GoIfZero(_, _, _, target) => target
    case GoIfBit(_, _, _, target) => target
  }

  lemma DecodedOffset(word: int, pc: int) returns (offset: int)
    requires IsWord(word) && Decode(word, pc).Some?
    requires var e := Decode(word, pc).value; !e.Address? && !e.Page?
    ensures var e := Decode(word, pc).value; Fits(offset, Reach(e)) && Aim(e) == Wrap(pc + offset * 4)
  {
    hide Wrap, LoadKindOf;
    SmallFields(word);
    var top, middle, low := Top(word), Middle(word), Low(word);
    var e := Decode(word, pc).value;
    if e.Go? {
      offset := Signed(top % 4 * 0x1000000 + middle * 32 + low, 0x2000000);
    } else if e.GoIfBit? {
      offset := Signed(middle % 0x4000, 0x2000);
    } else {
      offset := Signed(middle, 0x40000);
    }
  }

  lemma DecodedReaches(word: int, pc: int, e: Effect)
    requires IsWord(word) && Decode(word, pc) == Some(e) && !e.Address? && !e.Page?
    requires InSpace(Aim(e)) && -HALF_SPACE < Aim(e) - pc < HALF_SPACE
    ensures (Aim(e) - pc) % 4 == 0 && Fits((Aim(e) - pc) / 4, Reach(e))
  {
    hide Decode, Wrap;
    var offset := DecodedOffset(word, pc);
    Displaced(pc, offset, Reach(e), Aim(e));
  }

  lemma MeantEncodes(op: Operation, pc: int, destination: int, word: int)
    requires InSpace(pc) && InSpace(destination) && -HALF_SPACE < destination - pc < HALF_SPACE
    requires IsWord(word) && Meaning(op, destination).Some? && Decode(word, pc) == Meaning(op, destination)
    ensures Encode(op, pc, destination).Word?
  {
    hide Decode;
    var e := Meaning(op, destination).value;
    if op.Adr? || op.Adrp? {
      DecodedAddress(word, pc, destination, op.Adrp?, e.reg);
    } else {
      assert Aim(e) == destination;
      DecodedReaches(word, pc, e);
    }
  }

  // An instruction is refused exactly when its operands name nothing or no word reaches its destination.
  // The displacement is not wrapped, so a destination half the address space away is refused too.
  lemma EncodesExactly(op: Operation, pc: int, destination: int)
    requires InSpace(pc) && InSpace(destination)
    ensures Encode(op, pc, destination).Word? <==>
            Representable(op, pc, destination) && -HALF_SPACE < destination - pc < HALF_SPACE
  {
    hide Decode;
    if Encode(op, pc, destination).Word? {
      EncodedMeans(op, pc, destination);
      EncodedNear(op, pc, destination);
    } else if Representable(op, pc, destination) && -HALF_SPACE < destination - pc < HALF_SPACE {
      var word :| IsWord(word) && Decode(word, pc) == Meaning(op, destination);
      MeantEncodes(op, pc, destination, word);
    }
  }

  lemma EncodedNear(op: Operation, pc: int, destination: int)
    requires Encode(op, pc, destination).Word?
    ensures -HALF_SPACE < destination - pc < HALF_SPACE
  {
  }

  // A branch to the last word of the address space from its first one would wrap; it is refused.
  lemma WrapRefused()
    ensures Encode(Branch(false), 0, SPACE - 4).Refused? && Representable(Branch(false), 0, SPACE - 4)
  {
    assert Decode(0x17ffffff, 0) == Some(Go(false, SPACE - 4));
  }
}
