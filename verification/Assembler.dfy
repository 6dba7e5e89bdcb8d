/** The instruction formats of the MIPS I architecture, written the other way round: what word an
    instruction is assembled to.  Decode of machine/mipssim.cc inverts it. */
module Assembler {
  import opened Sequences
  import opened MemoryModel
  import opened MipsInstructions

  /** The primary opcode, bits 31 to 26. */
  function CodeOf(op: Op): nat {
    match op
    case Arith(a) => (match a
      case ADDI => 8 case ADDIU => 9 case SLTI => 10 case SLTIU => 11 case ANDI => 12 case ORI => 13 case XORI => 14
      case LUI => 15
      case _ => 0)
    case Jump(j) => (match j
      case J => 2 case JAL => 3 case BEQ => 4 case BNE => 5 case BLEZ => 6 case BGTZ => 7 case JR => 0 case JALR => 0
      case _ => 1)
    case HiLo(_) => 0
    case Load(l) => (match l
      case LB => 32 case LH => 33 case LWL => 34 case LW => 35 case LBU => 36 case LHU => 37 case LWR => 38)
    case Store(s) => (match s
      case SB => 40 case SH => 41 case SWL => 42 case SW => 43 case SWR => 46)
    case _ => 0
  }

  /** Bits 5 to 0 of an instruction with opcode 0. */
  function FunctOf(op: Op): nat {
    match op
    case Arith(a) => (match a
      case SLL => 0 case SRL => 2 case SRA => 3 case SLLV => 4 case SRLV => 6 case SRAV => 7 case MFHI => 16
      case MFLO => 18
      case ADD => 32 case ADDU => 33 case SUB => 34 case SUBU => 35 case AND => 36 case OR => 37 case XOR => 38
      case NOR => 39
      case SLT => 42 case _ => 43)
    case Jump(j) => if j.JR? then 8 else 9
    case HiLo(h) => (match h
      case MTHI => 17 case MTLO => 19 case MULT => 24 case MULTU => 25 case DIV => 26 case DIVU => 27)
    case _ => 12
  }

  function Assembled(i: Instruction): int {
    var code := CodeOf(i.op);
    var head := code * 0x400_0000;
    match FormatOf(code)
    case RFMT => head + i.rs * 0x20_0000 + i.rt * 0x1_0000 + i.rd * 0x800 + i.extra * 0x40 + FunctOf(i.op)
    case IFMT => head + i.rs * 0x20_0000 + i.rt * 0x1_0000 + i.extra % 0x1_0000
    case JFMT => head + i.extra
  }

  lemma SpecialCodes(value: Word)
    requires Code(value) == 0 && SpecialOp(Funct(value)) != RES && SpecialOp(Funct(value)) != UNIMP
    ensures CodeOf(SpecialOp(Funct(value))) == 0 && FunctOf(SpecialOp(Funct(value))) == Funct(value)
  {
  }

  lemma OtherCodes(value: Word)
    requires Code(value) != 0 && Decode(value).op != RES && Decode(value).op != UNIMP
    ensures CodeOf(Decode(value).op) == Code(value)
  {
  }

  lemma Fields(value: Word)
    ensures value == Code(value) * 0x400_0000 + RsField(value) * 0x20_0000 + RtField(value) * 0x1_0000
            + value % 0x1_0000
    ensures value % 0x1_0000 == RdField(value) * 0x800 + Shamt(value) * 0x40 + Funct(value)
    ensures value == Code(value) * 0x400_0000 + value % 0x400_0000
  {
    assert value / 0x20_0000 == 32 * Code(value) + RsField(value);
    assert value / 0x1_0000 == 32 * (value / 0x20_0000) + RtField(value);
    assert value / 0x800 == 32 * (value / 0x1_0000) + RdField(value);
    assert value / 0x40 == 32 * (value / 0x800) + Shamt(value);
  }

  /** Decoding a legal instruction loses nothing: it assembles to the word it came from. */
  lemma DecodeInverts(value: Word)
    requires Decode(value).op != RES && Decode(value).op != UNIMP
    ensures Assembled(Decode(value)) == value
  {
    Fields(value);
    if Code(value) == 0 { SpecialCodes(value); } else { OtherCodes(value); }
  }
}
