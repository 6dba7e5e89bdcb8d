/** Semaphores and threads counted along whole runs of the kernel. */
module KernelHistory {
  import opened Sequences
  import opened KernelMachine

  // ---- semaphores -----------------------------------------------------------

  /** How many of the first i steps are Vs of semaphore s. */
  function Vs(steps: seq<Step>, i: nat, s: Sid): nat
    requires i <= |steps|
  {
    if i == 0 then 0 else Vs(steps, i - 1, s) + if steps[i - 1] == CallV(s) then 1 else 0
  }

  /** In the step the current thread tests semaphore s in P, for the first time or once more. */
  predicate Tests(k: State, step: Step, s: Sid) {
    || step == CallP(s)
    || (step == Resume && k.current in k.threads && k.threads[k.current].at == InP(s))
  }

  /** The step takes the current thread out of a P of semaphore s, back into its own code. */
  predicate Passes(k: State, step: Step, k': State, s: Sid) {
    Tests(k, step, s) && k.current in k'.threads && k'.threads[k.current].at == Body
  }

  /** How many of the first i steps complete a P of semaphore s. */
  function Ps(states: seq<State>, steps: seq<Step>, i: nat, s: Sid): nat
    requires i <= |steps| < |states|
  {
    if i == 0 then 0
    else Ps(states, steps, i - 1, s) + if Passes(states[i - 1], steps[i - 1], states[i], s) then 1 else 0
  }

  /** A state of a run and the step taken there. */
  lemma RunState(states: seq<State>, steps: seq<Step>, i: nat) returns (k: State, step: Step)
    requires IsRun(states, steps) && i < |steps|
    ensures k == states[i] && step == steps[i] && Inv(k)
    ensures Enabled(k, step) && Safe(k, step) && states[i + 1] == Next(k, step)
  {
    EveryRun(states, steps, i);
    k, step := states[i], steps[i];
  }

  /** The semaphore's fields before and after a step. */
  predicate Counted(k: State, step: Step, k': State, s: Sid) {
    && s in k.sems && s in k'.sems
    && k'.sems[s].initial == k.sems[s].initial
    && k'.sems[s].vs == k.sems[s].vs + (if step == CallV(s) then 1 else 0)
    && k'.sems[s].ps == k.sems[s].ps + if Passes(k, step, k', s) then 1 else 0
  }

  lemma PassCounts(k: State, s: Sid, r: Sid)
    requires s in k.sems && r in k.sems && k.current in k.threads
    ensures var k' := PassP(k, s);
            && k'.sems.Keys == k.sems.Keys && k'.sems[r].initial == k.sems[r].initial && k'.sems[r].vs == k.sems[r].vs
            && k.current in k'.threads && (k'.threads[k.current].at == Body || k'.threads[k.current].at == InP(s))
            && k'.sems[r].ps == k.sems[r].ps + if r == s && k'.threads[k.current].at == Body then 1 else 0
  {
  }

  lemma StepCounts(k: State, step: Step, s: Sid)
    requires Inv(k) && Enabled(k, step) && Safe(k, step) && s in k.sems
    ensures Counted(k, step, Next(k, step), s)
  {
    assert ThreadInv(k, k.current);
    match step
    case CallP(r) => PassCounts(k, r, s);
    case Resume => ResumeCounts(k, s);
    case CallV(r) =>
    case _ => OthersCount(k, step, s);
  }

  lemma ResumeCounts(k: State, s: Sid)
    requires Inv(k) && Enabled(k, Resume) && Safe(k, Resume) && s in k.sems
    ensures Counted(k, Resume, Resumed(k), s)
  {
    if k.threads[k.current].at.InP? { PassCounts(Buried(k), k.threads[k.current].at.sem, s); }
  }

  lemma OthersCount(k: State, step: Step, s: Sid)
    requires Enabled(k, step) && Safe(k, step) && s in k.sems && !step.CallV? && !step.CallP? && step != Resume
    ensures Counted(k, step, Next(k, step), s)
  {
  }

  lemma StepKeepsSems(k: State, step: Step)
    requires Enabled(k, step) && Safe(k, step)
    ensures Next(k, step).sems.Keys == k.sems.Keys
  {
  }

  /** Semaphores count: the value is the initial one, plus the Vs made, less the Ps completed. */
  lemma {:induction false} ValueCounts(states: seq<State>, steps: seq<Step>, i: nat, s: Sid)
    requires IsRun(states, steps) && i <= |steps| && s in states[0].sems
    ensures s in states[i].sems && states[i].sems[s].initial == states[0].sems[s].value
    ensures states[i].sems[s].vs == Vs(steps, i, s) && states[i].sems[s].ps == Ps(states, steps, i, s)
    ensures states[i].sems[s].value == states[0].sems[s].value + Vs(steps, i, s) - Ps(states, steps, i, s)
  {
    EveryRun(states, steps, i);
    if i > 0 {
      ValueCounts(states, steps, i - 1, s);
      var k, step := RunState(states, steps, i - 1);
      StepKeepsSems(k, step);
      StepCounts(k, step, s);
    }
  }

  /** A test in P lets the thread go on exactly when the value is positive; otherwise the thread is asleep at the end
      of the queue. */
  lemma PassesExactly(k: State, step: Step, s: Sid)
    requires Inv(k) && Enabled(k, step) && Safe(k, step) && Tests(k, step, s) && s in k.sems
    ensures var k' := Next(k, step);
            if k.sems[s].value > 0 then
              && k'.mode == User && k'.threads[k.current] == Thread(RUNNING, Body)
              && k'.sems[s].value == k.sems[s].value - 1 && k'.sems[s].queue == k.sems[s].queue
            else
              && k'.mode == Sleeping(false) && k'.threads[k.current] == Thread(BLOCKED, InP(s))
              && k'.sems[s].value == 0 && k'.sems[s].queue == k.sems[s].queue + [k.current]
  {
    assert ThreadInv(k, k.current);
  }

  // ---- threads --------------------------------------------------------------

  /** Threads are born in Fork and disappear only after a switch, when they have finished. */
  lemma BirthAndDeath(k: State, step: Step)
    requires Inv(k) && Enabled(k, step) && Safe(k, step)
    ensures var k' := Next(k, step);
            && (step.CallFork? ==> k'.threads.Keys == k.threads.Keys + {step.t})
            && (!step.CallFork? && step != Resume ==> k'.threads.Keys == k.threads.Keys)
            && (step == Resume ==> k'.threads.Keys == set t | t in k.threads && k.threads[t].at != Finishing)
  {
    if step == Resume {
      forall t | t in k.threads
        ensures k.threads[t].at == Finishing <==> k.doomed == Some(t)
      {
        assert ThreadInv(k, t);
      }
    }
  }

  /** Where a step takes thread t, which is not finished. */
  predicate Moved(k: State, step: Step, k': State, t: Tid)
    requires t in k.threads
  {
    && t in k'.threads
    && (t != k.current || step.CallV? || step == CallYield || step.CallFork? || step == Dispatch ==>
          k'.threads[t].at == k.threads[t].at)
    && (t == k.current && step == CallFinish ==> k'.threads[t].at == Finishing && k'.mode == Sleeping(true))
    && (t == k.current && step == Resume && !k.threads[t].at.InP? ==>
          k'.threads[t].at == Body && k'.mode == User && k'.current == t)
  }

  lemma ResumeMoves(k: State, t: Tid)
    requires Inv(k) && Enabled(k, Resume) && Safe(k, Resume) && t in k.threads && k.threads[t].at != Finishing
    ensures Moved(k, Resume, Resumed(k), t)
  {
    assert k.doomed.Some? ==> k.threads[k.doomed.value].at == Finishing;
  }

  /** Only the current thread gets anywhere, and it gets where its call takes it. */
  lemma OnlyCurrentMoves(k: State, step: Step, t: Tid)
    requires Inv(k) && Enabled(k, step) && Safe(k, step) && t in k.threads && k.threads[t].at != Finishing
    ensures Moved(k, step, Next(k, step), t)
  {
    match step
    case Resume => ResumeMoves(k, t);
    case CallFork(u) => assert u != t;
    case _ =>
  }

  /** A new thread is at the end of the ready list and has not run; a thread that yields goes there. */
  lemma GoesToTheEnd(k: State, step: Step)
    requires Inv(k) && Enabled(k, step) && Safe(k, step) && (step.CallFork? || (step == CallYield && k.ready != []))
    ensures var k' := Next(k, step);
            var t := if step.CallFork? then step.t else k.current;
            && k'.ready == (if step.CallFork? then k.ready else k.ready[1..]) + [t]
            && t in k'.threads && k'.threads[t] == Thread(READY, if step.CallFork? then Fresh else Body)
  {
  }

  /** Thread t called Finish in step f and has been finishing ever since, up to state i. */
  predicate FinishedSince(states: seq<State>, steps: seq<Step>, f: nat, i: nat, t: Tid) {
    && f < i <= |steps| < |states| && steps[f] == CallFinish && states[f].current == t
    && forall m | f < m <= i :: t in states[m].threads && states[m].threads[t].at == Finishing
  }

  lemma StaysFinishing(k: State, step: Step, t: Tid)
    requires Inv(k) && Enabled(k, step) && Safe(k, step)
    requires t in Next(k, step).threads && Next(k, step).threads[t].at == Finishing
    ensures t in k.threads
    ensures k.threads[t].at == Finishing || (step == CallFinish && k.current == t)
  {
    BirthAndDeath(k, step);
    if t in k.threads && k.threads[t].at != Finishing && !(step == CallFinish && k.current == t) {
      OnlyCurrentMoves(k, step, t);
      if step.CallP? || step == Resume { CurrentAt(k, step); }
    }
  }

  /** P and Resume leave the current thread in its body or in P. */
  lemma CurrentAt(k: State, step: Step)
    requires Inv(k) && Enabled(k, step) && Safe(k, step) && (step.CallP? || step == Resume)
    ensures k.current in Next(k, step).threads && Next(k, step).threads[k.current].at != Finishing
  {
  }

  /** A thread that is finishing has called Finish, and does not run any more. */
  lemma {:induction false} FinishIsFinal(states: seq<State>, steps: seq<Step>, i: nat, t: Tid) returns (f: nat)
    requires IsRun(states, steps) && i < |states| && t in states[i].threads && states[i].threads[t].at == Finishing
    ensures FinishedSince(states, steps, f, i, t)
    ensures !(states[i].mode == User && states[i].current == t)
    decreases i
  {
    EveryRun(states, steps, i);
    var k, step := RunState(states, steps, i - 1);
    StaysFinishing(k, step, t);
    if step == CallFinish && k.current == t {
      f := i - 1;
    } else {
      f := FinishIsFinal(states, steps, i - 1, t);
    }
  }

  /** No thread is destroyed that has not called Finish. */
  lemma DeathFollowsFinish(states: seq<State>, steps: seq<Step>, i: nat, t: Tid) returns (f: nat)
    requires IsRun(states, steps) && i < |steps| && t in states[i].threads && t !in states[i + 1].threads
    ensures steps[i] == Resume && FinishedSince(states, steps, f, i, t)
  {
    var k, step := RunState(states, steps, i);
    BirthAndDeath(k, step);
    f := FinishIsFinal(states, steps, i, t);
  }
}
