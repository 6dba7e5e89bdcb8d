/** The processor of machine/mipssim.cc from one instruction to the next: where control goes, what is written when,
    and what a trap leaves alone. */
module Pipeline {
  import opened Sequences
  import opened Bytes
  import opened MemoryModel
  import opened MipsInstructions
  import opened Mips
  import opened LoadDelay
  import Assembler

  // ---- operands -------------------------------------------------------------

  /** The immediate operand is the low half of the instruction with its sign; a shift amount is bits 10 to 6, a jump's
      field bits 25 to 0. */
  lemma ExtraMeans(value: Word)
    ensures FormatOf(Code(value)) == IFMT ==>
              var half := value % 0x1_0000; Signed(Extra(value)) == if half < 0x8000 then half else half - 0x1_0000
    ensures FormatOf(Code(value)) == RFMT ==> Extra(value) == value % 0x800 / 0x40
    ensures FormatOf(Code(value)) == JFMT ==> Extra(value) == value % 0x400_0000
  {
    assert value / 0x40 % 32 == value % 0x800 / 0x40 by {
      assert value == 0x800 * (value / 0x800) + value % 0x800;
      assert value / 0x40 == 32 * (value / 0x800) + value % 0x800 / 0x40;
    }
  }

  // ---- branches -------------------------------------------------------------

  /** When a branch is taken, by the numbers in its registers. */
  predicate Taken(op: JumpOp, a: int, b: int) {
    match op
    case BEQ => a == b
    case BNE => a != b
    case BLEZ => a <= 0
    case BGTZ => a > 0
    case BLTZ => a < 0
    case BLTZAL => a < 0
    case BGEZ => a >= 0
    case BGEZAL => a >= 0
    case _ => true
  }

  predicate IsBranch(op: JumpOp) {
    op != J && op != JAL && op != JR && op != JALR
  }

  /** A branch goes as many words from its delay slot as the signed offset says if it is taken, and on behind the delay
      slot if not; JR and JALR go to the address in the register. */
  lemma BranchTarget(op: JumpOp, a: Word, b: Word, extra: Word, nextPc: Word)
    ensures IsBranch(op) && Taken(op, Signed(a), Signed(b)) ==>
              (Target(op, a, b, extra, nextPc) - nextPc - 4 * Signed(extra)) % 0x1_0000_0000 == 0
    ensures IsBranch(op) && !Taken(op, Signed(a), Signed(b)) ==>
              (Target(op, a, b, extra, nextPc) - nextPc - 4) % 0x1_0000_0000 == 0
    ensures op == JR || op == JALR ==> Target(op, a, b, extra, nextPc) == a
  {
    assert (Signed(a) == Signed(b)) == (a == b);
    Offset(nextPc, extra);
    Congruent(nextPc + 4, nextPc + 4);
  }

  lemma Offset(nextPc: Word, extra: Word)
    ensures (ToWord(nextPc + ToWord(4 * extra)) - nextPc - 4 * Signed(extra)) % 0x1_0000_0000 == 0
  {
    var i := 4 * extra;
    assert i == MODULUS * (i / MODULUS) + ToWord(i);
    var j := nextPc + ToWord(i);
    assert j == MODULUS * (j / MODULUS) + ToWord(j);
    var c := if extra >= SIGN_BIT then 4 else 0;
    assert 4 * Signed(extra) == i - c * MODULUS;
    assert ToWord(j) - nextPc - 4 * Signed(extra) == MODULUS * (c - i / MODULUS - j / MODULUS);
    Multiple(c - i / MODULUS - j / MODULUS);
  }

  lemma Congruent(i: int, n: int)
    requires i == n
    ensures (ToWord(i) - n) % 0x1_0000_0000 == 0
  {
    assert i == MODULUS * (i / MODULUS) + i % MODULUS;
  }

  lemma Multiple(k: int)
    ensures (MODULUS * k) % 0x1_0000_0000 == 0
  {
  }

  // ---- what is written at once ----------------------------------------------

  /** The register that takes the result of an arithmetic instruction: rt in the immediate format, rd otherwise. */
  function Destination(i: Instruction): Reg {
    if Assembler.CodeOf(i.op) == 0 then i.rd else i.rt
  }

  /** An arithmetic instruction writes its result to that register and nothing else, and goes on; one that overflows
      traps. */
  lemma ArithmeticWrites(s: Machine<Word>, i: Instruction)
    requires Formed(s) && i.op.Arith? && s.loadReg == 0
    ensures var v := ArithValue(i.op.a, s.gpr[i.rs], s.gpr[i.rt], i.extra, s.hi, s.lo);
            var o := Complete(MIPS, s, Execute(MIPS, s, i));
            if v.None? then o.trap == Some(Overflow) && o.state.badVAddr == 0 && o.state.gpr == s.gpr[0 := 0]
            else
              && o.trap == None && o.state.gpr == s.gpr[Destination(i) := v.value][0 := 0]
              && o.state.hi == s.hi && o.state.lo == s.lo && o.state.mem == s.mem
              && o.state.loadReg == 0 && (o.state.nextPc - s.nextPc - 4) % 0x1_0000_0000 == 0
  {
    assert Written(i) == Destination(i);
    Congruent(s.nextPc + 4, s.nextPc + 4);
    var v := ArithValue(i.op.a, s.gpr[i.rs], s.gpr[i.rt], i.extra, s.hi, s.lo);
    var g := if v.Some? then s.gpr[Destination(i) := v.value] else s.gpr;
    assert g[0 := s.loadValue][0 := 0] == g[0 := 0];
  }

  /** JAL and the branches that link leave the address behind the delay slot in register 31, JALR in rd; other jumps
      write nothing. */
  lemma JumpLinks(s: Machine<Word>, i: Instruction)
    requires Formed(s) && i.op.Jump? && s.loadReg == 0
    ensures var o := Complete(MIPS, s, Execute(MIPS, s, i));
            var links := i.op.j == JAL || i.op.j == BGEZAL || i.op.j == BLTZAL || i.op.j == JALR;
            var r := if i.op.j == JALR then i.rd else 31;
            && o.trap == None
            && o.state.gpr == (if links then s.gpr[r := ToWord(s.nextPc + 4)] else s.gpr)[0 := 0]
            && o.state.hi == s.hi && o.state.lo == s.lo && o.state.mem == s.mem && o.state.loadReg == 0
  {
  }

  /** A multiplication, division or move to HI or LO changes just these. */
  lemma HiLoWrites(s: Machine<Word>, i: Instruction)
    requires Formed(s) && i.op.HiLo? && s.loadReg == 0
    ensures var o := Complete(MIPS, s, Execute(MIPS, s, i));
            && o.trap == None && (o.state.hi, o.state.lo) == HiLoValue(i.op.h, s.gpr[i.rs], s.gpr[i.rt], s.hi, s.lo)
            && o.state.gpr == s.gpr[0 := 0] && o.state.mem == s.mem && o.state.loadReg == 0
  {
    assert s.gpr[0 := 0][0 := s.loadValue][0 := 0] == s.gpr[0 := 0];
  }

  /** How many bytes SB, SH and SW store. */
  function StoredBytes(op: StoreOp): nat {
    match op case SB => 1 case SH => 2 case _ => 4
  }

  /** SB, SH and SW put the low bytes of rt where the address leads, the lowest first, and change no other byte and no
      register; they trap exactly when the translation for writing fails. */
  lemma StoreWrites(s: Machine<Word>, i: Instruction, addr: Word, t: Translation, q: nat)
    requires Formed(s) && i.op.Store? && i.op.s != SWL && i.op.s != SWR && s.loadReg == 0
    requires addr == ToWord(s.gpr[i.rs] + i.extra) && q < MEMORY_SIZE
    requires t == Translate(s.mem, addr, SizeOfStore(i.op.s), true)
    ensures var o := Complete(MIPS, s, Execute(MIPS, s, i));
            if t.Fault? then o.trap == Some(t.exception) && o.state.badVAddr == addr
            else
              && o.trap == None && o.state.gpr == s.gpr[0 := 0] && o.state.hi == s.hi && o.state.lo == s.lo
              && o.state.mem.bytes[q] == if t.phys <= q < t.phys + StoredBytes(i.op.s)
                                         then ByteOf(s.gpr[i.rt], q - t.phys) else s.mem.bytes[q]
  {
    StoreComputes(i, OperandsOf(MIPS, s, i));
    if t.At? {
      StoredAt(s.mem.bytes, t.phys, SizeOfStore(i.op.s), s.gpr[i.rt], q);
      StoreCompletes(s, Execute(MIPS, s, i));
    }
  }

  function SizeOfStore(op: StoreOp): Size {
    match op case SB => One case SH => Two case _ => Four
  }

  lemma StoreComputes(i: Instruction, x: Operands<Word>)
    requires i.op.Store? && i.op.s != SWL && i.op.s != SWR
    ensures var put := WriteMem(x.mem, x.addr, SizeOfStore(i.op.s), x.b);
            Compute(R3000, i, x) ==
              if put.NotWritten? then Trap(x.mem, put.exception, x.addr)
              else Effect(put.mem, 0, 0, x.hi, x.lo, ToWord(x.nextPc + 4), 0, 0)
  {
  }

  lemma StoredAt(bytes: Ram, p: nat, size: Size, v: Word, q: nat)
    requires p + SizeOf(size) <= MEMORY_SIZE && q < MEMORY_SIZE
    ensures Stored(bytes, p, size, v)[q] == if p <= q < p + SizeOf(size) then ByteOf(v, q - p) else bytes[q]
  {
    if size == Four { PutWordAt(bytes, p, v, q); }
  }

  lemma StoreCompletes(s: Machine<Word>, e: Effect<Word>)
    requires Formed(s) && s.loadReg == 0 && e.Effect? && e.rd == 0 && e.value == 0
    ensures Complete(MIPS, s, e).state.gpr == s.gpr[0 := 0]
  {
    assert s.gpr[0 := 0][0 := s.loadValue][0 := 0] == s.gpr[0 := 0];
  }

  // ---- delay slots ----------------------------------------------------------

  /** What the instruction at the program counter is, if it can be fetched. */
  function Here(s: Machine<Word>): Fetch {
    FetchFrom(s.mem, s.pc)
  }

  /** The instruction behind a jump is executed before control gets to the target: after one instruction the program
      counter is the old next one, and after two it is where the first instruction sends it. */
  lemma OneDelaySlot(s: Machine<Word>)
    requires Formed(s) && Here(s).Fetched? && OneInstruction(MIPS, s).trap.None?
    requires OneInstruction(MIPS, OneInstruction(MIPS, s).state).trap.None?
    ensures var s1 := OneInstruction(MIPS, s).state;
            var s2 := OneInstruction(MIPS, s1).state;
            var f := Here(s);
            var x := OperandsOf(MIPS, s.(mem := f.mem), f.i);
            && s1.prevPc == s.pc && s1.pc == s.nextPc && s2.prevPc == s.nextPc
            && (f.i.op.Jump? ==> s2.pc == Target(f.i.op.j, x.a, x.b, f.i.extra, s.nextPc))
            && (!f.i.op.Jump? ==> s2.pc == ToWord(s.nextPc + 4))
  {
    var f := Here(s);
    GoesOn(f.i, OperandsOf(MIPS, s.(mem := f.mem), f.i));
  }

  /** Where an instruction sends control after its successor. */
  lemma GoesOn(i: Instruction, x: Operands<Word>)
    requires Compute(R3000, i, x).Effect?
    ensures Compute(R3000, i, x).pcAfter
         == if i.op.Jump? then Target(i.op.j, x.a, x.b, i.extra, x.nextPc) else ToWord(x.nextPc + 4)
  {
  }

  /** A load changes no register yet: what it has read is pending for its register. */
  lemma LoadPends(s: Machine<Word>, i: Instruction, addr: Word, got: ReadResult)
    requires Formed(s) && i.op.Load? && addr == ToWord(s.gpr[i.rs] + i.extra)
    requires Complete(MIPS, s, Execute(MIPS, s, i)).trap.None?
    requires got == ReadMem(s.mem, LoadAddress(i.op.l, addr), LoadSize(i.op.l))
    ensures var t := Complete(MIPS, s, Execute(MIPS, s, i)).state;
            && got.Got? && t.gpr == Settle(MIPS, s).gpr && t.mem == got.mem && t.loadReg == i.rt
            && t.loadValue == Loaded(i.op.l, got.value, Merged(s, i.rt), addr % 4)
  {
    LoadExecutes(s, i, addr, got);
    LoadCompletes(s, Execute(MIPS, s, i));
  }

  lemma LoadExecutes(s: Machine<Word>, i: Instruction, addr: Word, got: ReadResult)
    requires Formed(s) && i.op.Load? && Execute(MIPS, s, i).Effect? && addr == ToWord(s.gpr[i.rs] + i.extra)
    requires got == ReadMem(s.mem, LoadAddress(i.op.l, addr), LoadSize(i.op.l))
    ensures var e := Execute(MIPS, s, i);
            && got.Got? && e.mem == got.mem && e.rd == 0 && e.nextReg == i.rt
            && e.nextValue == Loaded(i.op.l, got.value, Merged(s, i.rt), addr % 4)
  {
    LoadComputes(i, OperandsOf(MIPS, s, i));
  }

  lemma LoadCompletes(s: Machine<Word>, e: Effect<Word>)
    requires Formed(s) && e.Effect? && e.rd == 0
    ensures var t := Complete(MIPS, s, e).state;
            t.gpr == Settle(MIPS, s).gpr && t.mem == e.mem && t.loadReg == e.nextReg && t.loadValue == e.nextValue
  {
    assert s.gpr[0 := e.value][s.loadReg := s.loadValue][0 := 0] == s.gpr[s.loadReg := s.loadValue][0 := 0];
  }

  lemma LoadComputes(i: Instruction, x: Operands<Word>)
    requires i.op.Load? && Compute(R3000, i, x).Effect?
    ensures var got := ReadMem(x.mem, LoadAddress(i.op.l, x.addr), LoadSize(i.op.l));
            && got.Got?
            && Compute(R3000, i, x) == Effect(got.mem, 0, 0, x.hi, x.lo, ToWord(x.nextPc + 4), i.rt,
                                              Loaded(i.op.l, got.value, x.merged, x.addr % 4))
  {
  }

  /** A load arrives one instruction late: whatever the next instruction is, even one that writes the same register or
      traps, behind it the register has the loaded value. */
  lemma OneLoadDelay(s: Machine<Word>)
    requires Formed(s) && s.loadReg != 0
    ensures OneInstruction(MIPS, s).state.gpr[s.loadReg] == s.loadValue
  {
  }

  // ---- traps ----------------------------------------------------------------

  /** A trap leaves the program counters, HI, LO and the bytes of memory as they were and changes no register but by
      landing the load that was pending: the instruction can be executed again. */
  lemma TrapChangesNothing(s: Machine<Word>)
    requires Formed(s) && OneInstruction(MIPS, s).trap.Some?
    ensures var t := OneInstruction(MIPS, s).state;
            && t.pc == s.pc && t.nextPc == s.nextPc && t.prevPc == s.prevPc && t.hi == s.hi && t.lo == s.lo
            && t.gpr == Settle(MIPS, s).gpr && t.loadReg == 0 && t.mem.bytes == s.mem.bytes
  {
    var f := Here(s);
    if f.Fetched? { TrapKeepsBytes(f.i, OperandsOf(MIPS, s.(mem := f.mem), f.i)); }
  }

  lemma TrapKeepsBytes(i: Instruction, x: Operands<Word>)
    requires Compute(R3000, i, x).Trap?
    ensures Compute(R3000, i, x).mem.bytes == x.mem.bytes
  {
  }

  /** A load traps exactly when its translation fails, with that exception and address. */
  lemma LoadFaults(s: Machine<Word>, i: Instruction, at: Word)
    requires Formed(s) && i.op.Load? && at == LoadAddress(i.op.l, ToWord(s.gpr[i.rs] + i.extra))
    ensures var t := Translate(s.mem, at, LoadSize(i.op.l), false);
            var o := Complete(MIPS, s, Execute(MIPS, s, i));
            if t.At? then o.trap == None else o.trap == Some(t.exception) && o.state.badVAddr == at
  {
    LoadTraps(i, OperandsOf(MIPS, s, i));
  }

  lemma LoadTraps(i: Instruction, x: Operands<Word>)
    requires i.op.Load?
    ensures var at := LoadAddress(i.op.l, x.addr);
            var t := Translate(x.mem, at, LoadSize(i.op.l), false);
            if t.At? then Compute(R3000, i, x).Effect? else Compute(R3000, i, x) == Trap(x.mem, t.exception, at)
  {
  }

  /** How much each load reads. */
  lemma LoadReads(op: LoadOp)
    ensures SizeOf(LoadSize(op)) == if op == LB || op == LBU then 1 else if op == LH || op == LHU then 2 else 4
  {
  }

  /** Which instructions trap by themselves. */
  lemma TrapsNamed(i: Instruction, x: Operands<Word>)
    ensures i.op == SYSCALL ==> Compute(R3000, i, x) == Trap(x.mem, Syscall, 0)
    ensures i.op == UNIMP || i.op == RES ==> Compute(R3000, i, x) == Trap(x.mem, IllegalInstr, 0)
    ensures i.op.HiLo? || i.op.Jump? ==> Compute(R3000, i, x).Effect?
  {
  }
}
