/** machine/mipssim.cc: decoding an instruction and what each instruction computes. */
module MipsInstructions {
  import opened Sequences
  import opened Bits
  import opened Bytes
  import opened MemoryModel

  type Reg = n: nat | n < 32

  const SIGN_BIT: Word := 0x8000_0000
  const MODULUS := 0x1_0000_0000

  // ---- decoding -------------------------------------------------------------

  datatype ArithOp =
    | ADD | ADDI | ADDIU | ADDU | AND | ANDI | LUI | MFHI | MFLO | NOR | OR | ORI | SLL | SLLV | SLT | SLTI
    | SLTIU | SLTU | SRA | SRAV | SRL | SRLV | SUB | SUBU | XOR | XORI
  datatype JumpOp = BEQ | BGEZ | BGEZAL | BGTZ | BLEZ | BLTZ | BLTZAL | BNE | J | JAL | JALR | JR
  datatype HiLoOp = DIV | DIVU | MTHI | MTLO | MULT | MULTU
  datatype LoadOp = LB | LBU | LH | LHU | LW | LWL | LWR
  datatype StoreOp = SB | SH | SW | SWL | SWR

  datatype Op = Arith(a: ArithOp) | Jump(j: JumpOp) | HiLo(h: HiLoOp) | Load(l: LoadOp) | Store(s: StoreOp)
              | SYSCALL | UNIMP | RES

  datatype Instruction = Instruction(op: Op, rs: Reg, rt: Reg, rd: Reg, extra: Word)

  datatype Format = IFMT | JFMT | RFMT

  /** specialTable: the funct field of a SPECIAL instruction. */
  function SpecialOp(funct: nat): Op {
    match funct
    case 0 => Arith(SLL) case 2 => Arith(SRL) case 3 => Arith(SRA) case 4 => Arith(SLLV) case 6 => Arith(SRLV)
    case 7 => Arith(SRAV) case 8 => Jump(JR) case 9 => Jump(JALR) case 12 => SYSCALL case 13 => UNIMP
    case 16 => Arith(MFHI) case 17 => HiLo(MTHI) case 18 => Arith(MFLO) case 19 => HiLo(MTLO)
    case 24 => HiLo(MULT) case 25 => HiLo(MULTU) case 26 => HiLo(DIV) case 27 => HiLo(DIVU)
    case 32 => Arith(ADD) case 33 => Arith(ADDU) case 34 => Arith(SUB) case 35 => Arith(SUBU)
    case 36 => Arith(AND) case 37 => Arith(OR) case 38 => Arith(XOR) case 39 => Arith(NOR)
    case 42 => Arith(SLT) case 43 => Arith(SLTU)
    case _ => RES
  }

  /** The rt field of a BCOND instruction. */
  function BcondOp(rt: nat): Op {
    match rt
    case 0 => Jump(BLTZ) case 1 => Jump(BGEZ) case 16 => Jump(BLTZAL) case 17 => Jump(BGEZAL)
    case _ => UNIMP
  }

  /** opTable, but for SPECIAL and BCOND. */
  function TableOp(code: nat): Op {
    match code
    case 2 => Jump(J) case 3 => Jump(JAL) case 4 => Jump(BEQ) case 5 => Jump(BNE) case 6 => Jump(BLEZ)
    case 7 => Jump(BGTZ)
    case 8 => Arith(ADDI) case 9 => Arith(ADDIU) case 10 => Arith(SLTI) case 11 => Arith(SLTIU)
    case 12 => Arith(ANDI) case 13 => Arith(ORI) case 14 => Arith(XORI) case 15 => Arith(LUI)
    case 16 => UNIMP case 17 => UNIMP case 18 => UNIMP case 19 => UNIMP
    case 32 => Load(LB) case 33 => Load(LH) case 34 => Load(LWL) case 35 => Load(LW)
    case 36 => Load(LBU) case 37 => Load(LHU) case 38 => Load(LWR)
    case 40 => Store(SB) case 41 => Store(SH) case 42 => Store(SWL) case 43 => Store(SW) case 46 => Store(SWR)
    case 48 => UNIMP case 49 => UNIMP case 50 => UNIMP case 51 => UNIMP
    case 56 => UNIMP case 57 => UNIMP case 58 => UNIMP case 59 => UNIMP
    case _ => RES
  }

  function FormatOf(code: nat): Format {
    if code == 0 then RFMT else if code == 2 || code == 3 then JFMT else IFMT
  }

  /** Fields of an instruction word. */
  function Code(value: Word): nat { value / 0x400_0000 }
  function RsField(value: Word): Reg { value / 0x20_0000 % 32 }
  function RtField(value: Word): Reg { value / 0x1_0000 % 32 }
  function RdField(value: Word): Reg { value / 0x800 % 32 }
  function Shamt(value: Word): nat { value / 0x40 % 32 }
  function Funct(value: Word): nat { value % 64 }

  function Extra(value: Word): Word {
    match FormatOf(Code(value))
    case IFMT => if value % 0x1_0000 >= 0x8000 then 0xffff_0000 + value % 0x1_0000 else value % 0x1_0000
    case RFMT => Shamt(value)
    case JFMT => value % 0x400_0000
  }

  function Decode(value: Word): Instruction {
    var code := Code(value);
    var op :=
      if code == 0 then SpecialOp(Funct(value)) else if code == 1 then BcondOp(RtField(value)) else TableOp(code);
    Instruction(op, RsField(value), RtField(value), RdField(value), Extra(value))
  }

  // ---- what one instruction computes ----------------------------------------

  /** The word as a C int. */
  function Signed(w: Word): int {
    if w >= SIGN_BIT then w - MODULUS else w
  }

  /** The low 32 bits. */
  function ToWord(i: int): Word {
    i % MODULUS
  }

  function Negative(w: Word): bool {
    w >= SIGN_BIT
  }

  function OnWords(f: (bool, bool) -> bool, a: Word, b: Word): Word {
    ThirtyTwoBits();
    Bitwise(f, a, b, 32)
  }

  function And(a: Word, b: Word): Word { OnWords(Conjunction(), a, b) }
  function Or(a: Word, b: Word): Word { OnWords(Disjunction(), a, b) }
  function Xor(a: Word, b: Word): Word { OnWords(Exclusive(), a, b) }
  function Not(a: Word): Word { MODULUS - 1 - a }

  function ShiftLeft(w: Word, n: nat): Word {
    ToWord(w * PowerOfTwo(n))
  }

  /** `>>` on a C int keeps the sign. */
  function ShiftRight(w: Word, n: nat): Word {
    ToWord(Signed(w) / PowerOfTwo(n))
  }

  /** SRL and SRLV use this shift too.  It is the logical shift they should be exactly for words that are
      not negative, and for shifts by nothing. */
  lemma LogicalShift(w: Word, n: nat)
    ensures ShiftRight(w, n) == w / PowerOfTwo(n) <==> (!Negative(w) || n == 0)
  {
    var p := PowerOfTwo(n);
    if Negative(w) {
      ArithmeticShift(Signed(w), p);
      if n > 0 { HalvedAtLeast(w, p); }
    } else {
      SmallerQuotient(w, p);
    }
  }

  /** A negative number stays negative and in range. */
  lemma ArithmeticShift(x: int, p: nat)
    requires INT_MIN <= x < 0 && p > 0
    ensures INT_MIN <= x / p < 0 && ToWord(x / p) == x / p + MODULUS
  {
    var k := x / p;
    assert x == p * k + x % p;
    assert k < 0;
    Multiples(-(k + 1), 0, p);
  }

  lemma SmallerQuotient(w: Word, p: nat)
    requires p > 0
    ensures 0 <= w / p <= w
  {
    var q := w / p;
    assert w == p * q + w % p && q >= 0;
    Multiples(q, 0, p);
  }

  lemma HalvedAtLeast(w: Word, p: nat)
    requires p >= 2
    ensures w / p < SIGN_BIT
  {
    var q := w / p;
    assert w == p * q + w % p && q >= 0;
    Multiples(q, 1, p);
  }

  function Flag(b: bool): Word {
    if b then 1 else 0
  }

  /** The value an arithmetic instruction writes; None is an overflow trap.  `a` and `b` are the
      registers rs and rt. */
  function ArithValue(op: ArithOp, a: Word, b: Word, extra: Word, hi: Word, lo: Word): Option<Word> {
    match op
    case ADD => Sum(a, b)
    case ADDI => Sum(a, extra)
    case ADDIU => Some(ToWord(a + extra))
    case ADDU => Some(ToWord(a + b))
    case AND => Some(And(a, b))
    case ANDI => Some(And(a, extra % 0x1_0000))
    case LUI => Some(ShiftLeft(extra, 16))
    case MFHI => Some(hi)
    case MFLO => Some(lo)
    case NOR => Some(Not(Or(a, b)))
    case OR => Some(Or(a, b))
    case ORI => Some(Or(a, extra % 0x1_0000))
    case SLL => Some(ShiftLeft(b, extra % 32))
    case SLLV => Some(ShiftLeft(b, a % 32))
    case SLT => Some(Flag(Signed(a) < Signed(b)))
    case SLTI => Some(Flag(Signed(a) < Signed(extra)))
    case SLTIU => Some(Flag(a < extra))
    case SLTU => Some(Flag(a < b))
    case SRA => Some(ShiftRight(b, extra % 32))
    case SRAV => Some(ShiftRight(b, a % 32))
    case SRL => Some(ShiftRight(b, extra % 32))
    case SRLV => Some(ShiftRight(b, a % 32))
    case SUB => Difference(a, b)
    case SUBU => Some(ToWord(a - b))
    case XOR => Some(Xor(a, b))
    case XORI => Some(Xor(a, extra % 0x1_0000))
  }

  /** The simulator's overflow tests look at sign bits only. */
  function Sum(a: Word, b: Word): Option<Word> {
    var sum := ToWord(a + b);
    if Negative(a) == Negative(b) && Negative(b) != Negative(sum) then None else Some(sum)
  }

  function Difference(a: Word, b: Word): Option<Word> {
    var diff := ToWord(a - b);
    if Negative(a) != Negative(b) && Negative(a) != Negative(diff) then None else Some(diff)
  }

  lemma SumIsExact(a: Word, b: Word)
    ensures var s := Signed(a) + Signed(b);
            if INT_MIN <= s <= INT_MAX then Sum(a, b).Some? && Signed(Sum(a, b).value) == s else Sum(a, b).None?
  {
    var sum := a + b;
    assert ToWord(sum) == if sum >= MODULUS then sum - MODULUS else sum;
  }

  lemma DifferenceIsExact(a: Word, b: Word)
    ensures var d := Signed(a) - Signed(b);
            if INT_MIN <= d <= INT_MAX then Difference(a, b).Some? && Signed(Difference(a, b).value) == d
            else Difference(a, b).None?
  {
    var diff: int := a as int - b as int;
    assert ToWord(diff) == if diff < 0 then diff + MODULUS else diff;
  }

  /** They trap exactly when the result is not a C int, and give the exact result otherwise. */
  lemma OverflowIsExact(a: Word, b: Word)
    ensures var s := Signed(a) + Signed(b);
            if INT_MIN <= s <= INT_MAX then Sum(a, b).Some? && Signed(Sum(a, b).value) == s else Sum(a, b).None?
    ensures var d := Signed(a) - Signed(b);
            if INT_MIN <= d <= INT_MAX then Difference(a, b).Some? && Signed(Difference(a, b).value) == d
            else Difference(a, b).None?
  {
    SumIsExact(a, b);
    DifferenceIsExact(a, b);
  }

  /** C's division truncates toward zero. */
  function Quotient(a: int, b: int): int
    requires b != 0
  {
    if a >= 0 then a / b else -((-a) / b)
  }

  function HiLoValue(op: HiLoOp, a: Word, b: Word, hi: Word, lo: Word): (Word, Word) {
    match op
    case DIV =>
      if b == 0 then (0, 0)
      else var q := Quotient(Signed(a), Signed(b)); (ToWord(Signed(a) - q * Signed(b)), ToWord(q))
    case DIVU => if b == 0 then (0, 0) else (ToWord(a % b), ToWord(a / b))
    case MTHI => (a, lo)
    case MTLO => (hi, a)
    case MULT => Halves(Signed(a) * Signed(b))
    case MULTU => Halves(a * b)
  }

  function Halves(p: int): (Word, Word) {
    (ToWord(p / MODULUS), ToWord(p))
  }

  /** The register a jump stores the return address in; 0 if none. */
  function LinkReg(op: JumpOp, rd: Reg): Reg {
    match op case BGEZAL => 31 case BLTZAL => 31 case JAL => 31 case JALR => rd case _ => 0
  }

  /** The arithmetic instructions that write rt; the others write rd. */
  predicate ToRt(op: ArithOp) {
    match op
    case ADDI => true case ADDIU => true case ANDI => true case LUI => true
    case ORI => true case SLTI => true case SLTIU => true case XORI => true
    case _ => false
  }

  predicate Links(op: JumpOp) {
    op == BGEZAL || op == BLTZAL || op == JAL || op == JALR
  }

  /** The program counter after the delay slot. */
  function Target(op: JumpOp, a: Word, b: Word, extra: Word, nextPc: Word): Word {
    var there := ToWord(nextPc + ToWord(4 * extra));
    var on := ToWord(nextPc + 4);
    match op
    case BEQ => if a == b then there else on
    case BGEZ => if !Negative(a) then there else on
    case BGEZAL => if !Negative(a) then there else on
    case BGTZ => if Signed(a) > 0 then there else on
    case BLEZ => if Signed(a) <= 0 then there else on
    case BLTZ => if Negative(a) then there else on
    case BLTZAL => if Negative(a) then there else on
    case BNE => if a != b then there else on
    case J => Or(on / 0x1000_0000 * 0x1000_0000, ToWord(4 * extra))
    case JAL => Or(on / 0x1000_0000 * 0x1000_0000, ToWord(4 * extra))
    case JALR => a
    case JR => a
  }

  /** LWL at byte k of the word `value`, merged into `was`.  The masks and shifts are by whole bytes. */
  function MergeLeft(was: Word, value: Word, k: nat): Word {
    match 3 - k
    case 0 => value
    case 1 => was % 0x100 + value % 0x100_0000 * 0x100
    case 2 => was % 0x1_0000 + value % 0x1_0000 * 0x1_0000
    case _ => was % 0x100_0000 + value % 0x100 * 0x100_0000
  }

  function MergeRight(was: Word, value: Word, k: nat): Word {
    match 3 - k
    case 0 => was / 0x100 * 0x100 + value / 0x100_0000
    case 1 => was / 0x1_0000 * 0x1_0000 + value / 0x1_0000
    case 2 => was / 0x100_0000 * 0x100_0000 + value / 0x100
    case _ => value
  }

  /** What SWL puts in place of the word `value`. */
  function SplitLeft(value: Word, r: Word, k: nat): Word {
    match 3 - k
    case 0 => r
    case 1 => value / 0x100_0000 * 0x100_0000 + r / 0x100
    case 2 => value / 0x1_0000 * 0x1_0000 + r / 0x1_0000
    case _ => value / 0x100 * 0x100 + r / 0x100_0000
  }

  function SplitRight(value: Word, r: Word, k: nat): Word {
    match 3 - k
    case 0 => value % 0x100_0000 + r % 0x100 * 0x100_0000
    case 1 => value % 0x1_0000 + r % 0x1_0000 * 0x1_0000
    case 2 => value % 0x100 + r % 0x100_0000 * 0x100
    case _ => r
  }

  function Split(op: StoreOp, value: Word, r: Word, k: nat): Word {
    if op == SWL then SplitLeft(value, r, k) else SplitRight(value, r, k)
  }

  function LoadSize(op: LoadOp): Size {
    match op case LB => One case LBU => One case LH => Two case LHU => Two case _ => Four
  }

  predicate Unaligned(op: LoadOp) {
    op == LWL || op == LWR
  }

  /** LWL and LWR read the word around the address. */
  function LoadAddress(op: LoadOp, addr: Word): Word {
    if Unaligned(op) then addr - addr % 4 else addr
  }

  /** The value a load will deliver, from what memory gave; `was` is the register's value, a pending
      load included. */
  function Loaded(op: LoadOp, value: Word, was: Word, k: nat): Word {
    match op
    case LB => if value / 0x80 % 2 == 1 then 0xffff_ff00 + value % 0x100 else value % 0x100
    case LBU => value % 0x100
    case LH => if value / 0x8000 % 2 == 1 then 0xffff_0000 + value % 0x1_0000 else value % 0x1_0000
    case LHU => value % 0x1_0000
    case LW => value
    case LWL => MergeLeft(was, value, k)
    case LWR => MergeRight(was, value, k)
  }

  // ---- one instruction ------------------------------------------------------

  /** What an instruction works on: rs and rt (read after a jump has stored its return address), the
      address rs + extra, rt with the pending load merged in, and the rest of the state. */
  datatype Operands<W> = Operands(a: W, b: W, addr: W, merged: W, hi: W, lo: W, nextPc: W, mem: Memory)

  /** What an instruction does apart from the pending load: one register (0 if none), HI and LO, the
      program counter after next, memory, and the load it leaves pending. */
  datatype Effect<W> =
    | Effect(mem: Memory, rd: Reg, value: W, hi: W, lo: W, pcAfter: W, nextReg: Reg, nextValue: W)
    | Trap(mem: Memory, exception: Exception, addr: W)

  /** Going on to the next instruction after writing one register. */
  function Wrote(x: Operands<Word>, rd: Reg, value: Word): Effect<Word> {
    Effect(x.mem, rd, value, x.hi, x.lo, ToWord(x.nextPc + 4), 0, 0)
  }

  /** The units beside the ALU: memory port, multiply-divide, branches, and the shifters that cut words to bytes. */
  datatype Units = Units(
    read: (Memory, Word, Size) -> ReadResult,
    write: (Memory, Word, Size, Word) -> WriteResult,
    hiLo: (HiLoOp, Word, Word, Word, Word) -> (Word, Word),
    target: (JumpOp, Word, Word, Word, Word) -> Word,
    loaded: (LoadOp, Word, Word, nat) -> Word,
    split: (StoreOp, Word, Word, nat) -> Word)

  const R3000: Units := Units(ReadMem, WriteMem, HiLoValue, Target, Loaded, Split)

  function ComputeLoad(u: Units, op: LoadOp, rt: Reg, addr: Word, x: Operands<Word>): Effect<Word> {
    var k := addr % 4;
    var at := LoadAddress(op, addr);
    var got := u.read(x.mem, at, LoadSize(op));
    if got.NotRead? then Trap(x.mem, got.exception, at)
    else Effect(got.mem, 0, 0, x.hi, x.lo, ToWord(x.nextPc + 4), rt, u.loaded(op, got.value, x.merged, k))
  }

  datatype StoreResult = Kept(mem: Memory) | Refused(mem: Memory, exception: Exception, addr: Word)

  function StoreAt(u: Units, m: Memory, addr: Word, size: Size, value: Word): StoreResult {
    var put := u.write(m, addr, size, value);
    if put.NotWritten? then Refused(m, put.exception, addr) else Kept(put.mem)
  }

  /** SWL and SWR read the word around the address first. */
  function StoreMem(u: Units, m: Memory, op: StoreOp, addr: Word, value: Word): StoreResult {
    var k := addr % 4;
    match op
    case SB => StoreAt(u, m, addr, One, value)
    case SH => StoreAt(u, m, addr, Two, value)
    case SW => StoreAt(u, m, addr, Four, value)
    case _ =>
      var got := u.read(m, addr - k, Four);
      if got.NotRead? then Refused(m, got.exception, addr - k)
      else StoreAt(u, got.mem, addr - k, Four, u.split(op, got.value, value, k))
  }

  lemma StoreMemPart(u: Units, m: Memory, op: StoreOp, addr: Word, value: Word, m1: Memory, w: Word)
    requires (op == SWL || op == SWR) && u.read(m, addr - addr % 4, Four) == Got(m1, w)
    ensures StoreMem(u, m, op, addr, value) == StoreAt(u, m1, addr - addr % 4, Four, u.split(op, w, value, addr % 4))
  {
  }

  function ComputeStore(u: Units, op: StoreOp, addr: Word, x: Operands<Word>): Effect<Word> {
    StoreEffectOf(x, StoreMem(u, x.mem, op, addr, x.b))
  }

  function StoreEffectOf(x: Operands<Word>, e: StoreResult): Effect<Word> {
    if e.Refused? then Trap(e.mem, e.exception, e.addr) else Effect(e.mem, 0, 0, x.hi, x.lo, ToWord(x.nextPc + 4), 0, 0)
  }

  function Compute(u: Units, i: Instruction, x: Operands<Word>): Effect<Word> {
    match i.op
    case Arith(op) =>
      var v := ArithValue(op, x.a, x.b, i.extra, x.hi, x.lo);
      if v.None? then Trap(x.mem, Overflow, 0) else Wrote(x, Written(i), v.value)
    case Jump(op) =>
      var link := if Links(op) then ToWord(x.nextPc + 4) else 0;
      Effect(x.mem, Written(i), link, x.hi, x.lo, u.target(op, x.a, x.b, i.extra, x.nextPc), 0, 0)
    case HiLo(op) =>
      var v := u.hiLo(op, x.a, x.b, x.hi, x.lo);
      Effect(x.mem, 0, 0, v.0, v.1, ToWord(x.nextPc + 4), 0, 0)
    case Load(op) => ComputeLoad(u, op, i.rt, x.addr, x)
    case Store(op) => ComputeStore(u, op, x.addr, x)
    case SYSCALL => Trap(x.mem, Syscall, 0)
    case UNIMP => Trap(x.mem, IllegalInstr, 0)
    case RES => Trap(x.mem, IllegalInstr, 0)
  }

  lemma ComputeKept(u: Units, i: Instruction, x: Operands<Word>, mem: Memory)
    requires i.op.Store? && StoreMem(u, x.mem, i.op.s, x.addr, x.b) == StoreResult.Kept(mem)
    ensures Compute(u, i, x) == Effect(mem, 0, 0, x.hi, x.lo, ToWord(x.nextPc + 4), 0, 0)
  {
  }

  lemma ComputeGot(u: Units, i: Instruction, x: Operands<Word>, mem: Memory, w: Word)
    requires i.op.Load? && Unaligned(i.op.l) && u.read(x.mem, x.addr - x.addr % 4, Four) == Got(mem, w)
    ensures Compute(u, i, x)
            == Effect(mem, 0, 0, x.hi, x.lo, ToWord(x.nextPc + 4), i.rt, u.loaded(i.op.l, w, x.merged, x.addr % 4))
  {
  }

  // ---- which registers an instruction uses ----------------------------------

  predicate UsesRs(op: Op) {
    match op
    case Arith(a) => !(a.LUI? || a.MFHI? || a.MFLO? || a.SLL? || a.SRA? || a.SRL?)
    case Jump(j) => !(j.J? || j.JAL?)
    case HiLo(_) => true case Load(_) => true case Store(_) => true
    case _ => false
  }

  predicate UsesRt(op: Op) {
    match op
    case Arith(a) => !(ToRt(a) || a.MFHI? || a.MFLO?)
    case Jump(j) => j.BEQ? || j.BNE?
    case HiLo(h) => !(h.MTHI? || h.MTLO?)
    case Store(_) => true
    case _ => false
  }

  predicate Merges(op: Op) {
    op == Load(LWL) || op == Load(LWR)
  }

  /** The register an instruction writes at once; 0 if none. */
  function Written(i: Instruction): Reg {
    match i.op
    case Arith(a) => if ToRt(a) then i.rt else i.rd
    case Jump(j) => LinkReg(j, i.rd)
    case _ => 0
  }

  /** The instruction does not read register r; LWL and LWR may merge into it. */
  predicate Unread(i: Instruction, r: Reg) {
    !(UsesRs(i.op) && i.rs == r) && !(UsesRt(i.op) && i.rt == r)
  }

  /** The instruction neither reads register r nor writes it at once. */
  predicate Clear(i: Instruction, r: Reg) {
    r == 0 || (Unread(i, r) && Written(i) != r)
  }

  /** The operands with those the instruction does not use blanked out. */
  function Used<W>(i: Instruction, x: Operands<W>, zero: W): Operands<W> {
    var a, addr := if UsesRs(i.op) then x.a else zero, if UsesRs(i.op) then x.addr else zero;
    var b, merged := if UsesRt(i.op) then x.b else zero, if Merges(i.op) && i.rt != 0 then x.merged else zero;
    Operands(a, b, addr, merged, x.hi, x.lo, x.nextPc, x.mem)
  }

  /** Equal but for the value of a load of R0. */
  predicate SameEffect<W(==)>(e: Effect<W>, f: Effect<W>) {
    e == f || (e.Effect? && f.Effect? && e.nextReg == 0 && e == f.(nextValue := e.nextValue))
  }

  /** What the load-delay logic rests on; pending loads behave the same whatever these are.  `link` is the
      return address of a jump, `address` what a load or store computes from rs. */
  datatype Isa<!W> = Isa(
    zero: W, link: W -> W, address: (Instruction, W) -> W,
    fetch: (Memory, W) -> Fetch, compute: (Instruction, Operands<W>) -> Effect<W>)

  datatype Fetch = Fetched(mem: Memory, i: Instruction) | NotFetched(exception: Exception)

  function FetchFrom(m: Memory, pc: Word): Fetch {
    var got := ReadMem(m, pc, Four);
    if got.NotRead? then NotFetched(got.exception) else Fetched(got.mem, Decode(got.value))
  }

  const MIPS: Isa<Word> :=
    Isa(0, (nextPc: Word) => ToWord(nextPc + 4), (i: Instruction, rs: Word) => ToWord(rs + i.extra), FetchFrom,
        (i, x) => Compute(R3000, i, x))

  /** The instruction set computes with these units. */
  ghost predicate BuiltFrom(isa: Isa<Word>, u: Units) {
    && (forall i: Instruction, x: Operands<Word> :: isa.compute(i, x) == Compute(u, i, x))
    && (forall i: Instruction, rs: Word :: isa.address(i, rs) == ToWord(rs + i.extra))
  }

  lemma MipsIsBuilt()
    ensures BuiltFrom(MIPS, R3000)
  {
  }

  /** Effects depend on the operands used only, and write the register they say. */
  ghost predicate Regular<W(!new)>(isa: Isa<W>) {
    forall i, x ::
      var e := isa.compute(i, x);
      SameEffect(e, isa.compute(i, Used(i, x, isa.zero))) && (e.Effect? ==> e.rd == Written(i))
  }

  /** The units look at registers where the instruction uses them. */
  ghost predicate RegularUnits(u: Units) {
    && (forall op, a, b, hi, lo :: !UsesRt(HiLo(op)) ==> u.hiLo(op, a, b, hi, lo) == u.hiLo(op, a, 0, hi, lo))
    && (forall op, a, b, x, n :: !UsesRs(Jump(op)) ==> u.target(op, a, b, x, n) == u.target(op, 0, b, x, n))
    && (forall op, a, b, x, n :: !UsesRt(Jump(op)) ==> u.target(op, a, b, x, n) == u.target(op, a, 0, x, n))
    && (forall op, v, m, k :: !Unaligned(op) ==> u.loaded(op, v, m, k) == u.loaded(op, v, 0, k))
  }

  lemma ArithUsesRs(op: ArithOp, a: Word, b: Word, x: Word, hi: Word, lo: Word)
    requires !UsesRs(Arith(op))
    ensures ArithValue(op, a, b, x, hi, lo) == ArithValue(op, 0, b, x, hi, lo)
  {
  }

  lemma ArithUsesRt(op: ArithOp, a: Word, b: Word, x: Word, hi: Word, lo: Word)
    requires !UsesRt(Arith(op))
    ensures ArithValue(op, a, b, x, hi, lo) == ArithValue(op, a, 0, x, hi, lo)
  {
  }

  lemma TargetUses(op: JumpOp, a: Word, b: Word, x: Word, n: Word)
    ensures !UsesRs(Jump(op)) ==> Target(op, a, b, x, n) == Target(op, 0, b, x, n)
    ensures !UsesRt(Jump(op)) ==> Target(op, a, b, x, n) == Target(op, a, 0, x, n)
  {
  }

  lemma ArithEffect(u: Units, i: Instruction, x: Operands<Word>)
    requires i.op.Arith?
    ensures Compute(u, i, x) == Compute(u, i, Used(i, x, 0))
            && (Compute(u, i, x).Effect? ==> Compute(u, i, x).rd == Written(i))
  {
    var y := Used(i, x, 0);
    if !UsesRs(i.op) { ArithUsesRs(i.op.a, x.a, x.b, i.extra, x.hi, x.lo); }
    if !UsesRt(i.op) { ArithUsesRt(i.op.a, y.a, x.b, i.extra, x.hi, x.lo); }
  }

  lemma RegularTarget(u: Units, op: JumpOp, a: Word, b: Word, x: Word, n: Word)
    requires RegularUnits(u)
    ensures !UsesRs(Jump(op)) ==> u.target(op, a, b, x, n) == u.target(op, 0, b, x, n)
    ensures !UsesRt(Jump(op)) ==> u.target(op, a, b, x, n) == u.target(op, a, 0, x, n)
  {
  }

  lemma JumpEffect(u: Units, i: Instruction, x: Operands<Word>)
    requires RegularUnits(u) && i.op.Jump?
    ensures Compute(u, i, x) == Compute(u, i, Used(i, x, 0)) && Compute(u, i, x).Effect?
            && Compute(u, i, x).rd == Written(i)
  {
    var y := Used(i, x, 0);
    var op := i.op.j;
    assert i.op == Jump(op);
    assert u.target(op, x.a, x.b, i.extra, x.nextPc) == u.target(op, y.a, x.b, i.extra, x.nextPc) by {
      if UsesRs(Jump(op)) { assert y.a == x.a; } else { RegularTarget(u, op, x.a, x.b, i.extra, x.nextPc); }
    }
    assert u.target(op, y.a, x.b, i.extra, x.nextPc) == u.target(op, y.a, y.b, i.extra, x.nextPc) by {
      if UsesRt(Jump(op)) { assert y.b == x.b; } else { RegularTarget(u, op, y.a, x.b, i.extra, x.nextPc); }
    }
  }

  lemma HiLoEffect(u: Units, i: Instruction, x: Operands<Word>)
    requires RegularUnits(u) && i.op.HiLo?
    ensures Compute(u, i, x) == Compute(u, i, Used(i, x, 0)) && Compute(u, i, x).Effect? && Compute(u, i, x).rd == 0
  {
    assert UsesRt(i.op) ==> Used(i, x, 0).b == x.b;
  }

  lemma LoadEffect(u: Units, op: LoadOp, rt: Reg, addr: Word, x: Operands<Word>, y: Operands<Word>)
    requires RegularUnits(u) && y == x.(b := y.b, merged := y.merged)
             && (Unaligned(op) && rt != 0 ==> x.merged == y.merged)
    ensures SameEffect(ComputeLoad(u, op, rt, addr, x), ComputeLoad(u, op, rt, addr, y))
    ensures ComputeLoad(u, op, rt, addr, x).Effect? ==> ComputeLoad(u, op, rt, addr, x).rd == 0
  {
  }

  lemma StoreEffect(u: Units, op: StoreOp, addr: Word, x: Operands<Word>, y: Operands<Word>)
    requires y == x.(merged := y.merged)
    ensures ComputeStore(u, op, addr, x) == ComputeStore(u, op, addr, y)
    ensures ComputeStore(u, op, addr, x).Effect? ==> ComputeStore(u, op, addr, x).rd == 0
  {
    assert StoreMem(u, x.mem, op, addr, x.b) == StoreMem(u, y.mem, op, addr, y.b);
  }

  /** Every instruction's effect depends on the registers it uses only. */
  lemma ComputeUses(u: Units, i: Instruction, x: Operands<Word>)
    requires RegularUnits(u)
    ensures var e := Compute(u, i, x); SameEffect(e, Compute(u, i, Used(i, x, 0))) && (e.Effect? ==> e.rd == Written(i))
  {
    match i.op
    case Arith(_) => ArithEffect(u, i, x);
    case Jump(_) => JumpEffect(u, i, x);
    case HiLo(_) => HiLoEffect(u, i, x);
    case Load(op) => LoadEffect(u, op, i.rt, x.addr, x, Used(i, x, 0));
    case Store(op) => StoreEffect(u, op, x.addr, x, Used(i, x, 0));
    case _ =>
  }

  lemma HiLoUses(op: HiLoOp, a: Word, b: Word, hi: Word, lo: Word)
    requires op == MTHI || op == MTLO
    ensures HiLoValue(op, a, b, hi, lo) == HiLoValue(op, a, 0, hi, lo)
  {
  }

  lemma R3000IsRegular()
    ensures RegularUnits(R3000)
  {
    forall op, a, b, hi, lo | !UsesRt(HiLo(op))
      ensures R3000.hiLo(op, a, b, hi, lo) == R3000.hiLo(op, a, 0, hi, lo)
    {
      HiLoUses(op, a, b, hi, lo);
    }
    forall op, a, b, x, n
      ensures !UsesRs(Jump(op)) ==> R3000.target(op, a, b, x, n) == R3000.target(op, 0, b, x, n)
      ensures !UsesRt(Jump(op)) ==> R3000.target(op, a, b, x, n) == R3000.target(op, a, 0, x, n)
    {
      TargetUses(op, a, b, x, n);
    }
    forall op, v, m, k: nat | !Unaligned(op)
      ensures R3000.loaded(op, v, m, k) == R3000.loaded(op, v, 0, k)
    {
      LoadedUses(op, v, m, k);
    }
  }

  lemma LoadedUses(op: LoadOp, v: Word, m: Word, k: nat)
    requires !Unaligned(op)
    ensures Loaded(op, v, m, k) == Loaded(op, v, 0, k)
  {
  }

  lemma MipsIsRegular()
    ensures Regular(MIPS)
  {
    R3000IsRegular();
    forall i, x
      ensures var e := MIPS.compute(i, x);
              && SameEffect(e, MIPS.compute(i, Used(i, x, MIPS.zero)))
              && (e.Effect? ==> e.rd == Written(i))
    {
      ComputeUses(R3000, i, x);
    }
  }
}
