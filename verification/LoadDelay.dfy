/** Load delay slots: an interrupt between two instructions lands the pending load early
    (interrupt.cc calls DelayedLoad(0, 0)), and a correct program cannot tell. */
module LoadDelay {
  import opened Sequences
  import opened MemoryModel
  import opened MipsInstructions
  import opened Mips

  /** What an interrupt does to the processor. */
  function Settle<W>(isa: Isa<W>, s: Machine<W>): (r: Machine<W>)
    requires Formed(s)
    ensures Ready(isa, r) && r.loadReg == 0
  {
    DelayedLoad(isa, s, 0, isa.zero)
  }

  /** Equal but for the value of a pending load of R0. */
  predicate Same<W(==)>(s: Machine<W>, t: Machine<W>) {
    t == s || (s.loadReg == 0 && t == s.(loadValue := t.loadValue))
  }

  predicate SameOutcome<W(==)>(a: Outcome<W>, b: Outcome<W>) {
    Same(a.state, b.state) && a.trap == b.trap
  }

  // ---- one instruction ------------------------------------------------------

  /** An instruction that does not read the pending register works on the same operands before and after
      the load lands. */
  lemma UsedSettled<W>(isa: Isa<W>, s: Machine<W>, i: Instruction)
    requires Ready(isa, s) && (s.loadReg == 0 || Unread(i, s.loadReg))
    ensures Used(i, OperandsOf(isa, s, i), isa.zero) == Used(i, OperandsOf(isa, Settle(isa, s), i), isa.zero)
  {
    if UsesRs(i.op) { LinkedSettled(isa, s, i, i.rs); }
    if UsesRt(i.op) { LinkedSettled(isa, s, i, i.rt); }
  }

  lemma LinkedSettled<W>(isa: Isa<W>, s: Machine<W>, i: Instruction, q: Reg)
    requires Ready(isa, s) && (s.loadReg == 0 || q != s.loadReg)
    ensures Linked(isa, Settle(isa, s), i)[q] == Linked(isa, s, i)[q]
  {
  }

  lemma SameCompute<W(!new)>(isa: Isa<W>, i: Instruction, x: Operands<W>, y: Operands<W>)
    requires Regular(isa) && Used(i, x, isa.zero) == Used(i, y, isa.zero)
    ensures SameEffect(isa.compute(i, x), isa.compute(i, y))
  {
    assert SameEffect(isa.compute(i, x), isa.compute(i, Used(i, x, isa.zero)));
    assert SameEffect(isa.compute(i, y), isa.compute(i, Used(i, y, isa.zero)));
  }

  lemma CompleteSettled<W>(isa: Isa<W>, s: Machine<W>, e: Effect<W>, f: Effect<W>)
    requires Ready(isa, s) && SameEffect(e, f) && (e.Effect? ==> e.rd != s.loadReg || s.loadReg == 0)
    ensures SameOutcome(Complete(isa, s, e), Complete(isa, Settle(isa, s), f))
  {
    assert Complete(isa, s, e).state.gpr == Complete(isa, Settle(isa, s), f).state.gpr;
  }

  /** Landing the pending load before an instruction clear of it leads to the same state as executing
      the instruction straight away. */
  lemma SettleFirst<W(!new)>(isa: Isa<W>, s: Machine<W>, i: Instruction)
    requires Regular(isa) && Ready(isa, s) && Clear(i, s.loadReg)
    ensures SameOutcome(Complete(isa, s, Execute(isa, s, i)),
                        Complete(isa, Settle(isa, s), Execute(isa, Settle(isa, s), i)))
  {
    UsedSettled(isa, s, i);
    SameCompute(isa, i, OperandsOf(isa, s, i), OperandsOf(isa, Settle(isa, s), i));
    CompleteSettled(isa, s, Execute(isa, s, i), Execute(isa, Settle(isa, s), i));
  }

  /** The condition is needed: an instruction that writes the pending register at once - an arithmetic one, or
      a jump or branch that stores its return address there - loses against the load, unless an interrupt
      lands the load first; only equal values hide this. */
  lemma PendingLoadWins<W(!new)>(isa: Isa<W>, s: Machine<W>, i: Instruction)
    requires Regular(isa) && Ready(isa, s) && s.loadReg != 0
    requires Written(i) == s.loadReg && Unread(i, s.loadReg) && Execute(isa, s, i).Effect?
    ensures SameOutcome(Complete(isa, s, Execute(isa, s, i)),
                        Complete(isa, Settle(isa, s), Execute(isa, Settle(isa, s), i)))
            <==> Execute(isa, s, i).value == s.loadValue
  {
    UsedSettled(isa, s, i);
    SameCompute(isa, i, OperandsOf(isa, s, i), OperandsOf(isa, Settle(isa, s), i));
    WriteLoses(isa, s, Execute(isa, s, i), Execute(isa, Settle(isa, s), i));
  }

  lemma WriteLoses<W>(isa: Isa<W>, s: Machine<W>, e: Effect<W>, f: Effect<W>)
    requires Ready(isa, s) && e.Effect? && SameEffect(e, f) && e.rd == s.loadReg != 0
    ensures SameOutcome(Complete(isa, s, e), Complete(isa, Settle(isa, s), f)) <==> e.value == s.loadValue
  {
    var g, h := Complete(isa, s, e).state.gpr, Complete(isa, Settle(isa, s), f).state.gpr;
    assert g[s.loadReg] == s.loadValue && h[s.loadReg] == e.value;
    if e.value == s.loadValue {
      assert g == h;
    }
  }

  // ---- whole runs -----------------------------------------------------------

  /** The instruction about to be executed is clear of the pending register. */
  predicate HazardFree<W>(isa: Isa<W>, s: Machine<W>) {
    var f := isa.fetch(s.mem, s.pc);
    f.Fetched? ==> Clear(f.i, s.loadReg)
  }

  lemma LandedAgain<W>(isa: Isa<W>, gpr: seq<W>, r: Reg, v: W, w: W)
    requires |gpr| == 32
    ensures Landed(isa, Landed(isa, gpr, r, v), 0, w) == Landed(isa, gpr, r, v)
  {
  }

  lemma StepSettled<W(!new)>(isa: Isa<W>, s: Machine<W>)
    requires Regular(isa) && Ready(isa, s) && HazardFree(isa, s)
    ensures SameOutcome(OneInstruction(isa, s), OneInstruction(isa, Settle(isa, s)))
  {
    var f := isa.fetch(s.mem, s.pc);
    if f.Fetched? {
      SettleFirst(isa, s.(mem := f.mem), f.i);
    } else {
      LandedAgain(isa, s.gpr, s.loadReg, s.loadValue, isa.zero);
    }
  }

  /** A pending load of R0 never shows. */
  lemma SameComplete<W>(isa: Isa<W>, s: Machine<W>, t: Machine<W>, e: Effect<W>, f: Effect<W>)
    requires Same(s, t) && Formed(s) && SameEffect(e, f)
    ensures SameOutcome(Complete(isa, s, e), Complete(isa, t, f))
  {
    assert Complete(isa, s, e).state.gpr == Complete(isa, t, f).state.gpr;
  }

  lemma SameStep<W(!new)>(isa: Isa<W>, s: Machine<W>, t: Machine<W>)
    requires Regular(isa) && Same(s, t) && Formed(s)
    ensures SameOutcome(OneInstruction(isa, s), OneInstruction(isa, t))
  {
    var f := isa.fetch(s.mem, s.pc);
    if f.Fetched? {
      var s1, t1 := s.(mem := f.mem), t.(mem := f.mem);
      SameCompute(isa, f.i, OperandsOf(isa, s1, f.i), OperandsOf(isa, t1, f.i));
      SameComplete(isa, s1, t1, Execute(isa, s1, f.i), Execute(isa, t1, f.i));
    } else {
      SameComplete(isa, s, t, Trap(s.mem, f.exception, s.pc), Trap(s.mem, f.exception, s.pc));
    }
  }

  /** The kernel's part: what it makes of the machine when an instruction traps. */
  type Kernel<!W> = (Exception, Machine<W>) -> Machine<W>

  ghost predicate KeepsR0<W(!new)>(isa: Isa<W>, kernel: Kernel<W>) {
    forall x, s | Ready(isa, s) :: Ready(isa, kernel(x, s))
  }

  function Handled<W>(kernel: Kernel<W>, o: Outcome<W>): Machine<W> {
    if o.trap.None? then o.state else kernel(o.trap.value, o.state)
  }

  /** One instruction, preceded by an interrupt or not, and followed by the kernel if it traps. */
  function Step<W>(isa: Isa<W>, kernel: Kernel<W>, s: Machine<W>, interrupted: bool): Machine<W>
    requires Formed(s)
  {
    Handled(kernel, OneInstruction(isa, if interrupted then Settle(isa, s) else s))
  }

  /** A run of |interrupted| instructions; an interrupt comes before instruction k if interrupted[k]. */
  ghost function Run<W(!new)>(isa: Isa<W>, kernel: Kernel<W>, s: Machine<W>, interrupted: seq<bool>): (r: Machine<W>)
    requires KeepsR0(isa, kernel) && Ready(isa, s)
    ensures Ready(isa, r)
    decreases |interrupted|
  {
    if interrupted == [] then s else Run(isa, kernel, Step(isa, kernel, s, interrupted[0]), interrupted[1..])
  }

  ghost predicate HazardFreeRun<W(!new)>(isa: Isa<W>, kernel: Kernel<W>, s: Machine<W>, n: nat)
    requires KeepsR0(isa, kernel) && Ready(isa, s)
    decreases n
  {
    n == 0 || (HazardFree(isa, s) && HazardFreeRun(isa, kernel, Step(isa, kernel, s, false), n - 1))
  }

  function Quiet(n: nat): seq<bool> {
    seq(n, i => false)
  }

  /** A state of the uninterrupted run and one of the interrupted run at the same instruction. */
  predicate Matches<W(==)>(isa: Isa<W>, s: Machine<W>, t: Machine<W>)
    requires Formed(s)
  {
    Same(s, t) || Same(Settle(isa, s), t)
  }

  lemma MatchesSettled<W>(isa: Isa<W>, s: Machine<W>, t: Machine<W>)
    requires Formed(s) && Formed(t) && Matches(isa, s, t)
    ensures Settle(isa, s) == Settle(isa, t)
  {
    LandedAgain(isa, s.gpr, s.loadReg, s.loadValue, t.loadValue);
    if Same(s, t) {
      assert Landed(isa, s.gpr, s.loadReg, s.loadValue) == Landed(isa, s.gpr, s.loadReg, t.loadValue);
    }
  }

  lemma MatchesStep<W(!new)>(isa: Isa<W>, kernel: Kernel<W>, s: Machine<W>, t: Machine<W>)
    requires Regular(isa) && KeepsR0(isa, kernel) && Ready(isa, s) && HazardFree(isa, s) && Formed(t)
             && Matches(isa, s, t)
    ensures Matches(isa, Step(isa, kernel, s, false), Step(isa, kernel, t, false))
  {
    if Same(s, t) {
      SameStep(isa, s, t);
    } else {
      StepSettled(isa, s);
      SameStep(isa, Settle(isa, s), t);
    }
    TrapsAreSettled(isa, s);
    TrapsAreSettled(isa, t);
  }

  lemma TrapsAreSettled<W>(isa: Isa<W>, s: Machine<W>)
    requires Formed(s)
    ensures OneInstruction(isa, s).trap.Some? ==> OneInstruction(isa, s).state.loadValue == isa.zero
  {
  }

  lemma MatchesInterrupted<W(!new)>(isa: Isa<W>, kernel: Kernel<W>, s: Machine<W>, t: Machine<W>, interrupted: bool)
    requires Regular(isa) && KeepsR0(isa, kernel) && Ready(isa, s) && HazardFree(isa, s) && Formed(t)
             && Matches(isa, s, t)
    ensures Matches(isa, Step(isa, kernel, s, false), Step(isa, kernel, t, interrupted))
  {
    if interrupted {
      MatchesSettled(isa, s, t);
      MatchesStep(isa, kernel, s, Settle(isa, t));
    } else {
      MatchesStep(isa, kernel, s, t);
    }
  }

  /** An uninterrupted run of n instructions from s and an interrupted one from t, about to go in step. */
  ghost predicate Paired<W(!new)>(isa: Isa<W>, kernel: Kernel<W>, s: Machine<W>, t: Machine<W>, n: nat) {
    && Regular(isa) && KeepsR0(isa, kernel) && Ready(isa, s) && Ready(isa, t)
    && HazardFreeRun(isa, kernel, s, n) && Matches(isa, s, t)
  }

  lemma PairedStep<W(!new)>(isa: Isa<W>, kernel: Kernel<W>, s: Machine<W>, t: Machine<W>, n: nat, interrupted: bool)
    requires n > 0 && Paired(isa, kernel, s, t, n)
    ensures Paired(isa, kernel, Step(isa, kernel, s, false), Step(isa, kernel, t, interrupted), n - 1)
  {
    MatchesInterrupted(isa, kernel, s, t, interrupted);
  }

  lemma {:induction false} RunsMatch<W(!new)>(isa: Isa<W>, kernel: Kernel<W>, s: Machine<W>, t: Machine<W>,
                                              interrupted: seq<bool>)
    requires Paired(isa, kernel, s, t, |interrupted|)
    ensures Matches(isa, Run(isa, kernel, s, Quiet(|interrupted|)), Run(isa, kernel, t, interrupted))
    decreases |interrupted|
  {
    if interrupted != [] {
      PairedStep(isa, kernel, s, t, |interrupted|, interrupted[0]);
      RunsMatch(isa, kernel, Step(isa, kernel, s, false), Step(isa, kernel, t, interrupted[0]), interrupted[1..]);
      QuietRunUnfolds(isa, kernel, s, |interrupted|);
    }
  }

  /** The first step of an uninterrupted run. */
  lemma QuietRunUnfolds<W(!new)>(isa: Isa<W>, kernel: Kernel<W>, s: Machine<W>, n: nat)
    requires KeepsR0(isa, kernel) && Ready(isa, s) && n > 0
    ensures Run(isa, kernel, s, Quiet(n)) == Run(isa, kernel, Step(isa, kernel, s, false), Quiet(n - 1))
  {
    QuietTail(n);
  }

  lemma QuietTail(n: nat)
    requires n > 0
    ensures Quiet(n)[1..] == Quiet(n - 1) && Quiet(n)[0] == false
  {
  }

  /** Interrupting between instructions is invisible: with interrupts at any points of a hazard-free run,
      the registers, program counters and memory the program sees are those of the uninterrupted run. */
  lemma InterruptsAreInvisible<W(!new)>(isa: Isa<W>, kernel: Kernel<W>, s: Machine<W>, interrupted: seq<bool>)
    requires Regular(isa) && KeepsR0(isa, kernel) && Ready(isa, s) && HazardFreeRun(isa, kernel, s, |interrupted|)
    ensures Settle(isa, Run(isa, kernel, s, interrupted)) == Settle(isa, Run(isa, kernel, s, Quiet(|interrupted|)))
  {
    RunsMatch(isa, kernel, s, s, interrupted);
    MatchesSettled(isa, Run(isa, kernel, s, Quiet(|interrupted|)), Run(isa, kernel, s, interrupted));
  }

  /** So it is for this simulator's instructions. */
  lemma MipsInterruptsAreInvisible(kernel: Kernel<Word>, s: Machine<Word>, interrupted: seq<bool>)
    requires KeepsR0(MIPS, kernel) && Ready(MIPS, s) && HazardFreeRun(MIPS, kernel, s, |interrupted|)
    ensures Settle(MIPS, Run(MIPS, kernel, s, interrupted)) == Settle(MIPS, Run(MIPS, kernel, s, Quiet(|interrupted|)))
  {
    MipsIsRegular();
    InterruptsAreInvisible(MIPS, kernel, s, interrupted);
  }
}
