/** machine/mipssim.cc, machine/translate.cc and machine/machine.cc as code that updates the registers,
    main memory and the translation table in place. */
module MipsCode {
  import opened Sequences
  import opened Bytes
  import opened MemoryModel
  import opened MipsInstructions
  import opened Mips
  import Multiply

  const HiReg := 32
  const LoReg := 33
  const PCReg := 34
  const NextPCReg := 35
  const PrevPCReg := 36
  const LoadReg := 37
  const LoadValueReg := 38
  const BadVAddrReg := 39
  const NumTotalRegs := 40

  /** Halves of a product, from the double word Mult leaves. */
  lemma HalvesOf(p: int, hi: Word, lo: Word)
    requires Multiply.Double(hi, lo) == p % (MODULUS * MODULUS)
    ensures Halves(p) == (hi, lo)
  {
    var k := p / (MODULUS * MODULUS);
    assert p == MODULUS * (MODULUS * k + hi) + lo;
    Quotients(MODULUS * k + hi, lo);
    Quotients(k, hi);
  }

  lemma Quotients(q: int, r: Word)
    ensures (MODULUS * q + r) / MODULUS == q && (MODULUS * q + r) % MODULUS == r
  {
  }

  /** The new values of HI and LO. */
  method MultiplyDivide(op: HiLoOp, a: Word, b: Word, hi0: Word, lo0: Word) returns (hi: Word, lo: Word)
    ensures (hi, lo) == HiLoValue(op, a, b, hi0, lo0)
  {
    match op
    case DIV =>
      if b == 0 {
        hi, lo := 0, 0;
      } else {
        var q := Quotient(Signed(a), Signed(b));
        hi, lo := ToWord(Signed(a) - q * Signed(b)), ToWord(q);
      }
    case DIVU =>
      if b == 0 {
        hi, lo := 0, 0;
      } else {
        hi, lo := ToWord(a % b), ToWord(a / b);
      }
    case MTHI => hi, lo := a, lo0;
    case MTLO => hi, lo := hi0, a;
    case MULT =>
      hi, lo := Multiply.Mult(Signed(a), Signed(b), true);
      HalvesOf(Signed(a) * Signed(b), hi, lo);
    case MULTU =>
      hi, lo := Multiply.Mult(Signed(a), Signed(b), false);
      UnsignedHalves(a, b, hi, lo);
  }

  class Processor {
    const registers: array<Word>
    const mainMemory: array<byte>
    const table: array<Entry>
    const tlb: bool

    ghost predicate Valid()
      reads this, registers, mainMemory
    {
      && registers.Length == NumTotalRegs && registers[LoadReg] < 32
      && mainMemory.Length == MEMORY_SIZE && mainMemory as object != registers as object
    }

    ghost function Mem(): Memory
      reads this, registers, mainMemory, table
      requires Valid()
    {
      Memory(mainMemory[..], table[..], tlb)
    }

    ghost function State(): Machine<Word>
      reads this, registers, mainMemory, table
      requires Valid()
    {
      Mips.Machine(registers[..32], registers[HiReg], registers[LoReg], registers[PCReg], registers[NextPCReg],
        registers[PrevPCReg], registers[LoadReg], registers[LoadValueReg], registers[BadVAddrReg], Mem())
    }

    constructor (entries: seq<Entry>, useTlb: bool)
      ensures Valid() && Ready(MIPS, State()) && fresh(registers) && fresh(mainMemory) && fresh(table)
      ensures table[..] == entries && tlb == useTlb && forall r | r in registers[..] :: r == 0
    {
      registers := new Word[NumTotalRegs](i => 0);
      mainMemory := new byte[MEMORY_SIZE](i => 0);
      table := new Entry[|entries|](i requires 0 <= i < |entries| => entries[i]);
      tlb := useTlb;
    }

    method DelayedLoad(nextReg: Word, nextValue: Word)
      requires Valid() && nextReg < 32
      modifies registers
      ensures Valid() && State() == Mips.DelayedLoad(MIPS, old(State()), nextReg, nextValue)
    {
      registers[registers[LoadReg]] := registers[LoadValueReg];
      registers[LoadReg] := nextReg;
      registers[LoadValueReg] := nextValue;
      registers[0] := 0;
    }

    /** Machine::RaiseException up to the call of the kernel. */
    method RaiseException(which: Exception, badVAddr: Word)
      requires Valid()
      modifies registers
      ensures Valid() && State() == Raised(MIPS, old(State()), which, badVAddr).state
    {
      registers[BadVAddrReg] := badVAddr;
      DelayedLoad(0, 0);
    }

    method Translate(addr: Word, size: Size, writing: bool) returns (r: Translation)
      requires Valid()
      modifies table
      ensures Valid() && r == MemoryModel.Translate(old(Mem()), addr, size, writing)
      ensures Mem() == if r.At? then Touched(old(Mem()), r.index, writing) else old(Mem())
    {
      if !Aligned(addr, size) {
        return Fault(AddressError);
      }
      var vpn, offset, i := addr / PAGE_SIZE, addr % PAGE_SIZE, 0;
      if !tlb {
        if vpn >= table.Length {
          return Fault(AddressError);
        }
        if !table[vpn].valid {
          return Fault(PageFault);
        }
        i := vpn;
      } else {
        while i < table.Length && !(table[i].valid && table[i].virtualPage == vpn)
          invariant i <= table.Length && FirstHit(table[..], vpn, 0) == FirstHit(table[..], vpn, i)
        {
          i := i + 1;
        }
        if i == table.Length {
          return Fault(PageFault);
        }
      }
      var entry := table[i];
      if entry.readOnly && writing {
        return Fault(ReadOnly);
      }
      if !(0 <= entry.physicalPage < NUM_PHYS_PAGES) {
        return Fault(BusError);
      }
      table[i] := entry.(use := true, dirty := entry.dirty || writing);
      r := At(entry.physicalPage * PAGE_SIZE + offset, i);
    }

    /** Machine::ReadMem; a failed translation traps. */
    method ReadMem(addr: Word, size: Size) returns (value: Word, trap: Option<Exception>)
      requires Valid()
      modifies registers, table
      ensures Valid()
      ensures AfterRead(R3000, old(State()), State(), addr, size, value, trap)
    {
      var t := Translate(addr, size, false);
      if t.Fault? {
        RaiseException(t.exception, addr);
        return 0, Some(t.exception);
      }
      trap := None;
      match size
      case One =>
        value := if mainMemory[t.phys] >= 0x80 then 0xffff_ff00 + mainMemory[t.phys] as int else mainMemory[t.phys];
      case Two =>
        value := mainMemory[t.phys] as int + 0x100 * mainMemory[t.phys + 1] as int;
      case Four =>
        value := FromBytes(mainMemory[t.phys], mainMemory[t.phys + 1], mainMemory[t.phys + 2], mainMemory[t.phys + 3]);
    }

    /** Machine::WriteMem; a failed translation traps. */
    method WriteMem(addr: Word, size: Size, value: Word) returns (trap: Option<Exception>)
      requires Valid()
      modifies registers, table, mainMemory
      ensures Valid()
      ensures AfterWrite(R3000, old(State()), State(), addr, size, value, trap)
    {
      var t := Translate(addr, size, true);
      if t.Fault? {
        RaiseException(t.exception, addr);
        return Some(t.exception);
      }
      trap := None;
      StoreBytes(t.phys, size, value);
    }

    /** The bytes of the value, the low one first. */
    method StoreBytes(phys: nat, size: Size, value: Word)
      requires Valid() && phys + SizeOf(size) <= mainMemory.Length
      modifies mainMemory
      ensures mainMemory[..] == Stored(old(mainMemory[..]), phys, size, value)
    {
      mainMemory[phys] := ByteOf(value, 0);
      if size != One {
        mainMemory[phys + 1] := ByteOf(value, 1);
      }
      if size == Four {
        mainMemory[phys + 2] := ByteOf(value, 2);
        mainMemory[phys + 3] := ByteOf(value, 3);
      }
    }

    /** The instructions that compute one register. */
    method ExecuteArith(op: ArithOp, i: Instruction) returns (trap: Option<Exception>)
      requires Valid()
      modifies registers
      ensures Valid()
      ensures AfterArith(old(State()), State(), op, i, trap)
    {
      var value := ArithValue(op, registers[i.rs], registers[i.rt], i.extra, registers[HiReg], registers[LoReg]);
      if value.None? {
        RaiseException(Overflow, 0);
        return Some(Overflow);
      }
      if ToRt(op) {
        registers[i.rt] := value.value;
      } else {
        registers[i.rd] := value.value;
      }
      trap := None;
    }

    /** The link register is written before the operands of the jump are read. */
    method ExecuteJump(op: JumpOp, i: Instruction) returns (pcAfter: Word)
      requires Valid() && i.op == Jump(op)
      modifies registers
      ensures Valid()
      ensures AfterJump(R3000, old(State()), State(), op, i, pcAfter)
    {
      if Links(op) {
        registers[LinkReg(op, i.rd)] := ToWord(registers[NextPCReg] as int + 4);
      }
      pcAfter := Target(op, registers[i.rs], registers[i.rt], i.extra, registers[NextPCReg]);
    }

    /** Division, multiplication and the moves into HI and LO. */
    method ExecuteHiLo(op: HiLoOp, i: Instruction)
      requires Valid()
      modifies registers
      ensures Valid()
      ensures AfterHiLo(R3000, old(State()), State(), op, i)
    {
      var a, b := registers[i.rs], registers[i.rt];
      registers[HiReg], registers[LoReg] := MultiplyDivide(op, a, b, registers[HiReg], registers[LoReg]);
    }

    /** The register, a pending load included. */
    method Pending(rt: Reg) returns (value: Word)
      requires Valid()
      ensures value == Merged(State(), rt)
    {
      value := if registers[LoadReg] == rt then registers[LoadValueReg] else registers[rt];
    }

    /** Loads leave the value pending; the register is not written yet. */
    method ExecuteLoad(op: LoadOp, i: Instruction) returns (trap: Option<Exception>, nextValue: Word)
      requires Valid()
      modifies registers, table
      ensures Valid()
      ensures AfterLoad(R3000, old(State()), State(), op, i, trap, nextValue)
    {
      var tmp := ToWord(registers[i.rs] as int + i.extra);
      ghost var was := State();
      var value;
      var at := LoadAddress(op, tmp);
      value, trap := ReadMem(at, LoadSize(op));
      assert AfterRead(R3000, was, State(), at, LoadSize(op), value, trap);
      nextValue := Pending(i.rt);
      if trap.None? {
        nextValue := Loaded(op, value, nextValue, tmp % 4);
      }
      LoadDone(R3000, was, State(), op, i, tmp, value, trap, nextValue);
    }

    /** Stores; the unaligned ones rewrite part of the word around the address. */
    method ExecuteStore(op: StoreOp, i: Instruction) returns (trap: Option<Exception>)
      requires Valid()
      modifies registers, table, mainMemory
      ensures Valid()
      ensures Did(old(State()), State(),
              StoreMem(R3000, old(Mem()), op, ToWord(old(State()).gpr[i.rs] + i.extra), old(State()).gpr[i.rt]), trap)
    {
      var tmp, r := ToWord(registers[i.rs] as int + i.extra), registers[i.rt];
      assert tmp == ToWord(State().gpr[i.rs] + i.extra) && r == State().gpr[i.rt];
      match op
      case SB => trap := StoreWhole(op, One, tmp, r);
      case SH => trap := StoreWhole(op, Two, tmp, r);
      case SW => trap := StoreWhole(op, Four, tmp, r);
      case SWL => trap := StorePart(op, tmp, r);
      case SWR => trap := StorePart(op, tmp, r);
    }

    method StoreWhole(op: StoreOp, size: Size, tmp: Word, r: Word) returns (trap: Option<Exception>)
      requires Valid() && op == (match size case One => SB case Two => SH case Four => SW)
      modifies registers, table, mainMemory
      ensures Valid() && Did(old(State()), State(), StoreMem(R3000, old(Mem()), op, tmp, r), trap)
    {
      ghost var was := State();
      trap := WriteMem(tmp, size, r);
      WholeStored(R3000, was, State(), op, tmp, size, r, trap);
    }

    method StorePart(op: StoreOp, tmp: Word, r: Word) returns (trap: Option<Exception>)
      requires Valid() && (op == SWL || op == SWR)
      modifies registers, table, mainMemory
      ensures Valid() && Did(old(State()), State(), StoreMem(R3000, old(Mem()), op, tmp, r), trap)
    {
      ghost var was := State();
      var byte := tmp % 4;
      var at := tmp - byte;
      var value;
      value, trap := ReadMem(at, Four);
      assert AfterRead(R3000, was, State(), at, Four, value, trap);
      if trap.None? {
        ghost var between := State();
        var merged := Split(op, value, r, byte);
        trap := WriteMem(at, Four, merged);
        assert AfterWrite(R3000, between, State(), at, Four, merged, trap);
        PartStored(R3000, was, between, State(), op, tmp, r, value, merged, trap);
      } else {
        PartRefused(R3000, was, State(), op, tmp, r, trap);
      }
    }

    /** Machine::OneInstruction after the fetch, up to the delayed load. */
    method Execute(i: Instruction) returns (trap: Option<Exception>, pcAfter: Word, nextReg: Reg, nextValue: Word)
      requires Valid()
      modifies registers, table, mainMemory
      ensures Valid()
              && Follows(old(State()), State(), Compute(R3000, i, OperandsOf(MIPS, old(State()), i)), trap, pcAfter,
                         nextReg, nextValue)
    {
      ghost var was := State();
      trap, pcAfter, nextReg, nextValue := None, ToWord(registers[NextPCReg] as int + 4), 0, 0;
      match i.op
      case Arith(op) =>
        trap := ExecuteArith(op, i);
        ArithFollows(R3000, was, State(), i, trap);
      case Jump(op) =>
        pcAfter := ExecuteJump(op, i);
        JumpFollows(R3000, was, State(), i, pcAfter);
      case HiLo(op) =>
        ExecuteHiLo(op, i);
        HiLoFollows(R3000, was, State(), i);
      case Load(op) =>
        nextReg := i.rt;
        trap, nextValue := ExecuteLoad(op, i);
        LoadFollows(R3000, was, State(), i, trap, nextValue);
      case Store(_) => trap := TransferOut(i);
      case _ =>
        trap := Some(if i.op == SYSCALL then Syscall else IllegalInstr);
        RaiseException(trap.value, 0);
        TrapFollows(R3000, was, State(), i, trap);
    }

    method TransferOut(i: Instruction) returns (trap: Option<Exception>)
      requires Valid() && i.op.Store?
      modifies registers, table, mainMemory
      ensures Valid() && Follows(old(State()), State(), Compute(R3000, i, OperandsOf(MIPS, old(State()), i)), trap,
                                 ToWord(old(State()).nextPc + 4), 0, 0)
    {
      ghost var was := State();
      trap := ExecuteStore(i.op.s, i);
      StoreFollows(R3000, was, State(), i, trap);
    }

    /** Machine::OneInstruction: fetch, decode, execute, land the pending load, advance the counters. */
    method OneInstruction() returns (trap: Option<Exception>)
      requires Valid()
      modifies registers, table, mainMemory
      ensures Valid() && Outcome(State(), trap) == Mips.OneInstruction(MIPS, old(State()))
    {
      ghost var was := State();
      var raw;
      raw, trap := ReadMem(registers[PCReg], Four);
      if trap.Some? {
        FetchFails(was, State(), trap);
        return;
      }
      ghost var s1 := State();
      var instr := Decode(raw);
      var pcAfter, nextReg, nextValue;
      trap, pcAfter, nextReg, nextValue := Execute(instr);
      ghost var now := State();
      if trap.None? {
        DelayedLoad(nextReg, nextValue);
        registers[PrevPCReg] := registers[PCReg];
        registers[PCReg] := registers[NextPCReg];
        registers[NextPCReg] := pcAfter;
      }
      Completes(was, s1, now, State(), raw, trap, pcAfter, nextReg, nextValue);
    }
  }

  // ---- what each method has done to the machine -------------------------------

  ghost predicate AfterArith(was: Machine<Word>, now: Machine<Word>, op: ArithOp, i: Instruction,
                             trap: Option<Exception>)
    requires Formed(was)
  {
    match ArithValue(op, was.gpr[i.rs], was.gpr[i.rt], i.extra, was.hi, was.lo)
    case Some(v) => trap == None && now == was.(gpr := was.gpr[(if ToRt(op) then i.rt else i.rd) := v])
    case None => trap == Some(Overflow) && now == Raised(MIPS, was, Overflow, 0).state
  }

  ghost predicate AfterJump(u: Units, was: Machine<Word>, now: Machine<Word>, op: JumpOp, i: Instruction, pcAfter: Word)
    requires Formed(was)
  {
    var g := Linked(MIPS, was, i);
    now == was.(gpr := g) && pcAfter == u.target(op, g[i.rs], g[i.rt], i.extra, was.nextPc)
  }

  ghost predicate AfterHiLo(u: Units, was: Machine<Word>, now: Machine<Word>, op: HiLoOp, i: Instruction)
    requires Formed(was)
  {
    var v := u.hiLo(op, was.gpr[i.rs], was.gpr[i.rt], was.hi, was.lo);
    now == was.(hi := v.0, lo := v.1)
  }

  ghost predicate AfterRead(u: Units, was: Machine<Word>, now: Machine<Word>, addr: Word, size: Size, value: Word,
                            trap: Option<Exception>)
    requires Formed(was)
  {
    match u.read(was.mem, addr, size)
    case Got(mem, v) => trap == None && value == v && now == was.(mem := mem)
    case NotRead(x) => trap == Some(x) && now == Raised(MIPS, was, x, addr).state
  }

  ghost predicate AfterLoad(u: Units, was: Machine<Word>, now: Machine<Word>, op: LoadOp, i: Instruction,
                            trap: Option<Exception>, nextValue: Word)
    requires Formed(was)
  {
    var addr := ToWord(was.gpr[i.rs] + i.extra);
    match u.read(was.mem, LoadAddress(op, addr), LoadSize(op))
    case Got(mem, v) => trap == None && now == was.(mem := mem)
      && nextValue == u.loaded(op, v, Merged(was, i.rt), addr % 4)
    case NotRead(x) => trap == Some(x) && now == Raised(MIPS, was, x, LoadAddress(op, addr)).state
  }

  lemma LoadDone(u: Units, was: Machine<Word>, now: Machine<Word>, op: LoadOp, i: Instruction, tmp: Word, value: Word,
                 trap: Option<Exception>, nextValue: Word)
    requires Formed(was) && tmp == ToWord(was.gpr[i.rs] + i.extra)
    requires AfterRead(u, was, now, LoadAddress(op, tmp), LoadSize(op), value, trap)
    requires trap.None? ==> nextValue == u.loaded(op, value, Merged(was, i.rt), tmp % 4)
    ensures AfterLoad(u, was, now, op, i, trap, nextValue)
  {
  }

  lemma WholeStored(u: Units, was: Machine<Word>, now: Machine<Word>, op: StoreOp, tmp: Word, size: Size, r: Word,
                    trap: Option<Exception>)
    requires Formed(was) && op == (match size case One => SB case Two => SH case Four => SW)
    requires AfterWrite(u, was, now, tmp, size, r, trap)
    ensures Did(was, now, StoreMem(u, was.mem, op, tmp, r), trap)
  {
  }

  // ---- each is what the instruction's effect says -----------------------------

  lemma ArithFollows(u: Units, was: Machine<Word>, now: Machine<Word>, i: Instruction, trap: Option<Exception>)
    requires Formed(was) && i.op.Arith? && AfterArith(was, now, i.op.a, i, trap)
    ensures Follows(was, now, Compute(u, i, OperandsOf(MIPS, was, i)), trap, ToWord(was.nextPc + 4), 0, 0)
  {
  }

  lemma JumpFollows(u: Units, was: Machine<Word>, now: Machine<Word>, i: Instruction, pcAfter: Word)
    requires Formed(was) && i.op.Jump? && AfterJump(u, was, now, i.op.j, i, pcAfter)
    ensures Follows(was, now, Compute(u, i, OperandsOf(MIPS, was, i)), None, pcAfter, 0, 0)
  {
  }

  lemma HiLoFollows(u: Units, was: Machine<Word>, now: Machine<Word>, i: Instruction)
    requires Formed(was) && i.op.HiLo? && AfterHiLo(u, was, now, i.op.h, i)
    ensures Follows(was, now, Compute(u, i, OperandsOf(MIPS, was, i)), None, ToWord(was.nextPc + 4), 0, 0)
  {
  }

  lemma LoadFollows(u: Units, was: Machine<Word>, now: Machine<Word>, i: Instruction, trap: Option<Exception>,
                    nextValue: Word)
    requires Formed(was) && i.op.Load? && AfterLoad(u, was, now, i.op.l, i, trap, nextValue)
    ensures Follows(was, now, Compute(u, i, OperandsOf(MIPS, was, i)), trap, ToWord(was.nextPc + 4), i.rt, nextValue)
  {
  }

  lemma StoreFollows(u: Units, was: Machine<Word>, now: Machine<Word>, i: Instruction, trap: Option<Exception>)
    requires Formed(was) && i.op.Store?
    requires Did(was, now, StoreMem(u, was.mem, i.op.s, ToWord(was.gpr[i.rs] + i.extra), was.gpr[i.rt]), trap)
    ensures Follows(was, now, Compute(u, i, OperandsOf(MIPS, was, i)), trap, ToWord(was.nextPc + 4), 0, 0)
  {
    var r := StoreMem(u, was.mem, i.op.s, ToWord(was.gpr[i.rs] + i.extra), was.gpr[i.rt]);
    var x := OperandsOf(MIPS, was, i);
    assert Compute(u, i, x) == StoreEffectOf(x, r);
    DidFollows(was, now, x, r, trap);
  }

  lemma DidFollows(was: Machine<Word>, now: Machine<Word>, x: Operands<Word>, r: StoreResult, trap: Option<Exception>)
    requires Formed(was) && Did(was, now, r, trap) && x.hi == was.hi && x.lo == was.lo && x.nextPc == was.nextPc
    ensures Follows(was, now, StoreEffectOf(x, r), trap, ToWord(was.nextPc + 4), 0, 0)
  {
  }

  lemma TrapFollows(u: Units, was: Machine<Word>, now: Machine<Word>, i: Instruction, trap: Option<Exception>)
    requires Formed(was) && (i.op == SYSCALL || i.op == UNIMP || i.op == RES)
    requires trap == Some(if i.op == SYSCALL then Syscall else IllegalInstr)
             && now == Raised(MIPS, was, trap.value, 0).state
    ensures Follows(was, now, Compute(u, i, OperandsOf(MIPS, was, i)), trap, ToWord(was.nextPc + 4), 0, 0)
  {
  }

  lemma FetchFails(was: Machine<Word>, now: Machine<Word>, trap: Option<Exception>)
    requires Formed(was) && trap.Some? && AfterRead(R3000, was, now, was.pc, Four, 0, trap)
    ensures Outcome(now, trap) == OneInstruction(MIPS, was)
  {
  }

  lemma Completes(was: Machine<Word>, s1: Machine<Word>, now: Machine<Word>, after: Machine<Word>, raw: Word,
                  trap: Option<Exception>, pcAfter: Word, nextReg: Reg, nextValue: Word)
    requires Formed(was) && AfterRead(R3000, was, s1, was.pc, Four, raw, None) && Formed(s1)
    requires Follows(s1, now, Compute(R3000, Decode(raw), OperandsOf(MIPS, s1, Decode(raw))), trap, pcAfter, nextReg,
                     nextValue)
    requires if trap.Some? then after == now
             else
               && Formed(now)
               && after == DelayedLoad(MIPS, now, nextReg, nextValue).(
                             prevPc := now.pc, pc := now.nextPc, nextPc := pcAfter)
    ensures Outcome(after, trap) == OneInstruction(MIPS, was)
  {
    EffectCompletes(s1, now, after, Execute(MIPS, s1, Decode(raw)), trap, pcAfter, nextReg, nextValue);
  }

  lemma EffectCompletes(s1: Machine<Word>, now: Machine<Word>, after: Machine<Word>, e: Effect<Word>,
                        trap: Option<Exception>, pcAfter: Word, nextReg: Reg, nextValue: Word)
    requires Formed(s1) && Follows(s1, now, e, trap, pcAfter, nextReg, nextValue)
    requires if trap.Some? then after == now
             else
               && Formed(now)
               && after == DelayedLoad(MIPS, now, nextReg, nextValue).(
                             prevPc := now.pc, pc := now.nextPc, nextPc := pcAfter)
    ensures Outcome(after, trap) == Complete(MIPS, s1, e)
  {
    if e.Effect? {
      SameLanded(now.gpr, s1.gpr[e.rd := e.value], s1.loadReg, s1.loadValue);
    }
  }

  lemma SameLanded(g: seq<Word>, h: seq<Word>, r: Reg, v: Word)
    requires |g| == 32 && |h| == 32 && g[0 := 0] == h[0 := 0]
    ensures Landed(MIPS, g, r, v) == Landed(MIPS, h, r, v)
  {
    forall q | 0 < q < 32
      ensures g[q] == h[q]
    {
      assert g[0 := 0][q] == g[q] && h[0 := 0][q] == h[q];
    }
  }

  /** The machine after a store. */
  ghost predicate Did(was: Machine<Word>, now: Machine<Word>, r: StoreResult, trap: Option<Exception>)
    requires Formed(was)
  {
    match r
    case Kept(mem) => trap == None && now == was.(mem := mem)
    case Refused(mem, x, addr) => trap == Some(x) && now == Raised(MIPS, was.(mem := mem), x, addr).state
  }

  lemma PartStored(u: Units, was: Machine<Word>, between: Machine<Word>, now: Machine<Word>, op: StoreOp, tmp: Word,
                   r: Word, value: Word, v: Word, trap: Option<Exception>)
    requires Formed(was) && (op == SWL || op == SWR) && u.read(was.mem, tmp - tmp % 4, Four) == Got(between.mem, value)
    requires between == was.(mem := between.mem) && v == u.split(op, value, r, tmp % 4)
    requires AfterWrite(u, between, now, tmp - tmp % 4, Four, v, trap)
    ensures Did(was, now, StoreMem(u, was.mem, op, tmp, r), trap)
  {
    WordStored(u, was, between, now, tmp - tmp % 4, v, trap);
    StoreMemPart(u, was.mem, op, tmp, r, between.mem, value);
  }

  lemma WordStored(u: Units, was: Machine<Word>, between: Machine<Word>, now: Machine<Word>, at: Word, v: Word,
                   trap: Option<Exception>)
    requires Formed(was) && between == was.(mem := between.mem) && AfterWrite(u, between, now, at, Four, v, trap)
    ensures Did(was, now, StoreAt(u, between.mem, at, Four, v), trap)
  {
  }

  lemma PartRefused(u: Units, was: Machine<Word>, now: Machine<Word>, op: StoreOp, tmp: Word, r: Word,
                    trap: Option<Exception>)
    requires Formed(was) && (op == SWL || op == SWR) && u.read(was.mem, tmp - tmp % 4, Four).NotRead?
    requires trap == Some(u.read(was.mem, tmp - tmp % 4, Four).exception)
    requires now == Raised(MIPS, was, trap.value, tmp - tmp % 4).state
    ensures Did(was, now, StoreMem(u, was.mem, op, tmp, r), trap)
  {
  }

  /** The machine after WriteMem. */
  ghost predicate AfterWrite(u: Units, was: Machine<Word>, now: Machine<Word>, addr: Word, size: Size, value: Word,
                             trap: Option<Exception>)
    requires Formed(was)
  {
    match u.write(was.mem, addr, size, value)
    case Put(mem) => trap == None && now == was.(mem := mem)
    case NotWritten(x) => trap == Some(x) && now == Raised(MIPS, was, x, addr).state
  }

  /** The machine once an instruction has had its effect, before the pending load lands. */
  ghost predicate Follows(was: Machine<Word>, now: Machine<Word>, e: Effect<Word>, trap: Option<Exception>,
                          pcAfter: Word, nextReg: Reg, nextValue: Word)
    requires Formed(was)
  {
    match e
    case Effect(mem, rd, value, hi, lo, there, q, v) =>
      && trap == None && pcAfter == there && nextReg == q && nextValue == v
      && Formed(now) && now.gpr[0 := 0] == was.gpr[rd := value][0 := 0]
      && now == was.(gpr := now.gpr, hi := hi, lo := lo, mem := mem)
    case Trap(mem, x, addr) =>
      trap == Some(x) && now == Raised(MIPS, was.(mem := mem), x, addr).state
  }

  lemma UnsignedHalves(a: Word, b: Word, hi: Word, lo: Word)
    requires Multiply.Double(hi, lo) == ToWord(Signed(a)) * ToWord(Signed(b))
    ensures Halves(a * b) == (hi, lo)
  {
    SignedWord(a);
    SignedWord(b);
    Quotients(hi, lo);
    Quotients(0, hi);
  }

  lemma SignedWord(a: Word)
    ensures ToWord(Signed(a)) == a
  {
  }
}
