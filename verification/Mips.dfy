/** machine/mipssim.cc: Machine::OneInstruction and Machine::DelayedLoad. */
module Mips {
  import opened Sequences
  import opened MemoryModel
  import opened MipsInstructions

  datatype Machine<W> = Machine(
    gpr: seq<W>, hi: W, lo: W, pc: W, nextPc: W, prevPc: W, loadReg: Reg, loadValue: W, badVAddr: W, mem: Memory)

  predicate Formed<W>(s: Machine<W>) {
    |s.gpr| == 32
  }

  /** What holds before every fetch: R0 is zero. */
  predicate Ready<W(==)>(isa: Isa<W>, s: Machine<W>) {
    Formed(s) && s.gpr[0] == isa.zero
  }

  /** The pending load lands, and R0 stays zero. */
  function Landed<W>(isa: Isa<W>, gpr: seq<W>, r: Reg, v: W): seq<W>
    requires |gpr| == 32
  {
    gpr[r := v][0 := isa.zero]
  }

  /** Machine::DelayedLoad. */
  function DelayedLoad<W>(isa: Isa<W>, s: Machine<W>, nextReg: Reg, nextValue: W): Machine<W>
    requires Formed(s)
  {
    s.(gpr := Landed(isa, s.gpr, s.loadReg, s.loadValue), loadReg := nextReg, loadValue := nextValue)
  }

  /** The register as LWL and LWR see it. */
  function Merged<W>(s: Machine<W>, rt: Reg): W
    requires Formed(s)
  {
    if s.loadReg == rt then s.loadValue else s.gpr[rt]
  }

  /** The registers once a jump has stored its return address. */
  function Linked<W>(isa: Isa<W>, s: Machine<W>, i: Instruction): (g: seq<W>)
    requires Formed(s)
    ensures |g| == 32
  {
    if i.op.Jump? && Links(i.op.j) then s.gpr[LinkReg(i.op.j, i.rd) := isa.link(s.nextPc)] else s.gpr
  }

  function OperandsOf<W>(isa: Isa<W>, s: Machine<W>, i: Instruction): Operands<W>
    requires Formed(s)
  {
    var g := Linked(isa, s, i);
    Operands(g[i.rs], g[i.rt], isa.address(i, g[i.rs]), Merged(s, i.rt), s.hi, s.lo, s.nextPc, s.mem)
  }

  function Execute<W>(isa: Isa<W>, s: Machine<W>, i: Instruction): Effect<W>
    requires Formed(s)
  {
    isa.compute(i, OperandsOf(isa, s, i))
  }

  datatype Outcome<W> = Outcome(state: Machine<W>, trap: Option<Exception>)

  /** Machine::RaiseException up to the call of the kernel. */
  function Raised<W>(isa: Isa<W>, s: Machine<W>, exception: Exception, addr: W): (r: Outcome<W>)
    requires Formed(s)
    ensures Ready(isa, r.state) && r.state.loadReg == 0
  {
    Outcome(DelayedLoad(isa, s.(badVAddr := addr), 0, isa.zero), Some(exception))
  }

  /** After the instruction: the pending load lands, the new one becomes pending, the program counters
      advance; or the trap settles the pending load and hands over to the kernel. */
  function Complete<W>(isa: Isa<W>, s: Machine<W>, e: Effect<W>): (r: Outcome<W>)
    requires Formed(s)
    ensures Ready(isa, r.state) && (r.trap.Some? ==> r.state.loadReg == 0)
  {
    if e.Trap? then Raised(isa, s.(mem := e.mem), e.exception, e.addr)
    else
      var s1 := DelayedLoad(isa, s.(gpr := s.gpr[e.rd := e.value]), e.nextReg, e.nextValue);
      Outcome(s1.(hi := e.hi, lo := e.lo, mem := e.mem, prevPc := s.pc, pc := s.nextPc, nextPc := e.pcAfter), None)
  }

  function OneInstruction<W>(isa: Isa<W>, s: Machine<W>): (r: Outcome<W>)
    requires Formed(s)
    ensures Ready(isa, r.state) && (r.trap.Some? ==> r.state.loadReg == 0)
  {
    var f := isa.fetch(s.mem, s.pc);
    if f.NotFetched? then Raised(isa, s, f.exception, s.pc)
    else
      var s1 := s.(mem := f.mem);
      Complete(isa, s1, Execute(isa, s1, f.i))
  }
}
