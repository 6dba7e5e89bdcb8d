/** threads/scheduler.cc, threads/thread.cc and Semaphore of threads/synch.cc: which thread is where.
    A step is a stretch of code that runs with interrupts off; interrupt handlers run between such
    stretches, or while a thread idles in Sleep. */
module KernelMachine {
  import opened Sequences

  type Tid = nat
  type Sid = nat

  datatype Status = READY | RUNNING | BLOCKED

  /** What a thread is in the middle of. */
  datatype Place = Fresh | Body | InP(sem: Sid) | Finishing

  datatype Thread = Thread(status: Status, at: Place)

  /** A semaphore with its history: initial value, completed Vs and completed Ps. */
  datatype Semaphore = Semaphore(value: nat, queue: seq<Tid>, initial: nat, vs: nat, ps: nat)

  /** The processor: running a thread's own code, looking for the next thread in Sleep, or just
      switched and about to run CheckToBeDestroyed. */
  datatype Mode = User | Sleeping(finishing: bool) | Switched

  datatype State = State(
    threads: map<Tid, Thread>, ready: seq<Tid>, current: Tid, mode: Mode,
    doomed: Option<Tid>, sems: map<Sid, Semaphore>)

  datatype Step =
    | CallV(s: Sid)      // the current thread, or a handler that interrupts it or the idle loop
    | CallP(s: Sid)
    | CallYield
    | CallFork(t: Tid)
    | CallFinish
    | Dispatch           // Sleep has found a thread to run
    | Resume             // the code after SWITCH

  predicate Init(k: State) {
    && k.threads == map[k.current := Thread(RUNNING, Body)] && k.ready == [] && k.mode == User && k.doomed == None
    && forall s | s in k.sems ::
        k.sems[s].queue == [] && k.sems[s].value == k.sems[s].initial && k.sems[s].vs == k.sems[s].ps == 0
  }

  predicate Enabled(k: State, step: Step) {
    match step
    case CallV(s) => s in k.sems && k.mode != Switched
    case CallP(s) => s in k.sems && k.mode == User
    case CallYield => k.mode == User
    case CallFork(t) => k.mode == User && t !in k.threads
    case CallFinish => k.mode == User
    case Dispatch => k.mode.Sleeping? && k.ready != []
    case Resume => k.mode == Switched
  }

  // ---- the code -------------------------------------------------------------

  function ReadyToRun(k: State, t: Tid): State
    requires t in k.threads
  {
    k.(threads := k.threads[t := k.threads[t].(status := READY)], ready := k.ready + [t])
  }

  function SemV(k: State, s: Sid): State
    requires s in k.sems
  {
    var m := k.sems[s];
    if m.queue != [] && m.queue[0] in k.threads
    then ReadyToRun(k, m.queue[0]).(
           sems := k.sems[s := m.(value := m.value + 1, vs := m.vs + 1, queue := m.queue[1..])])
    else k.(sems := k.sems[s := m.(value := m.value + 1, vs := m.vs + 1)])
  }

  /** One pass of P's loop by the current thread: go to sleep, or decrement and leave. */
  function PassP(k: State, s: Sid): State
    requires s in k.sems
  {
    var m, c := k.sems[s], k.current;
    if m.value == 0
    then k.(sems := k.sems[s := m.(queue := m.queue + [c])], threads := k.threads[c := Thread(BLOCKED, InP(s))],
            mode := Sleeping(false))
    else k.(sems := k.sems[s := m.(value := m.value - 1, ps := m.ps + 1)],
            threads := k.threads[c := Thread(RUNNING, Body)],
            mode := User)
  }

  function SwitchTo(k: State, next: Tid): State
    requires next in k.threads
  {
    k.(current := next, threads := k.threads[next := k.threads[next].(status := RUNNING)], mode := Switched)
  }

  function Yield(k: State): State
    requires k.current in k.threads
  {
    if k.ready != [] && k.ready[0] in k.threads
    then SwitchTo(ReadyToRun(k.(ready := k.ready[1..]), k.current), k.ready[0])
    else k
  }

  function Dispatched(k: State): State
    requires k.mode.Sleeping? && k.ready != [] && k.ready[0] in k.threads
  {
    SwitchTo(k.(ready := k.ready[1..], doomed := if k.mode.finishing then Some(k.current) else k.doomed), k.ready[0])
  }

  function Buried(k: State): State {
    if k.doomed.Some? then k.(threads := k.threads - {k.doomed.value}, doomed := None) else k
  }

  function Resumed(k: State): State
    requires k.current in k.threads && k.doomed != Some(k.current)
    requires k.threads[k.current].at.InP? ==> k.threads[k.current].at.sem in k.sems
  {
    var k1, c := Buried(k), k.current;
    if k1.threads[c].at.InP? then PassP(k1, k1.threads[c].at.sem)
    else k1.(threads := k1.threads[c := Thread(RUNNING, Body)], mode := User)
  }

  /** On no list at all. */
  predicate OnNoList(k: State, t: Tid) {
    t !in k.ready && forall s | s in k.sems :: t !in k.sems[s].queue
  }

  /** The ASSERTs of the code at the point where the step is about to run. */
  predicate Safe(k: State, step: Step)
    requires Enabled(k, step)
  {
    && k.current in k.threads
    && match step
       case CallV(s) => k.sems[s].queue != [] ==> k.sems[s].queue[0] in k.threads && k.sems[s].queue[0] !in k.ready
       case CallP(s) => k.sems[s].value == 0 ==> k.current !in k.sems[s].queue
       case CallYield => k.ready != [] ==> k.ready[0] in k.threads && k.current !in k.ready
       case CallFork(t) => t !in k.ready
       case CallFinish => true
       case Dispatch => k.ready[0] in k.threads && (k.mode.finishing ==> k.doomed == None)
       case Resume =>
         && (k.doomed.Some? ==> k.doomed.value != k.current && OnNoList(k, k.doomed.value))
         && (k.threads[k.current].at.InP? ==> k.threads[k.current].at.sem in k.sems
                                               && k.current !in k.sems[k.threads[k.current].at.sem].queue)
  }

  function Next(k: State, step: Step): State
    requires Enabled(k, step) && Safe(k, step)
  {
    match step
    case CallV(s) => SemV(k, s)
    case CallP(s) => PassP(k, s)
    case CallYield => Yield(k)
    case CallFork(t) => ReadyToRun(k.(threads := k.threads[t := Thread(READY, Fresh)]), t)
    case CallFinish => k.(threads := k.threads[k.current := Thread(BLOCKED, Finishing)], mode := Sleeping(true))
    case Dispatch => Dispatched(k)
    case Resume => Resumed(k)
  }

  // ---- the invariant --------------------------------------------------------

  /** Each thread is in exactly the place its status and position say. */
  predicate ThreadInv(k: State, t: Tid)
    requires t in k.threads
  {
    var x := k.threads[t];
    && (x.status == READY <==> t in k.ready)
    && (x.status == RUNNING <==> t == k.current && !k.mode.Sleeping?)
    && (forall s | s in k.sems :: t in k.sems[s].queue <==> x == Thread(BLOCKED, InP(s)))
    && (x.at.InP? ==> x.at.sem in k.sems)
    && (x.at == Finishing ==>
          x.status == BLOCKED && ((t == k.current && k.mode == Sleeping(true)) || k.doomed == Some(t)))
    && (x.status == BLOCKED ==> x.at == Finishing || x.at.InP?)
  }

  /** No list holds a thread twice, or a thread that does not exist. */
  predicate ListInv(k: State) {
    && NoDup(k.ready) && (forall t | t in k.ready :: t in k.threads)
    && (forall s | s in k.sems :: NoDup(k.sems[s].queue) && forall t | t in k.sems[s].queue :: t in k.threads)
  }

  predicate PlaceInv(k: State) {
    && (forall t | t in k.threads :: ThreadInv(k, t))
    && ListInv(k)
    && k.current in k.threads
    && (match k.mode
        case User => k.threads[k.current].at == Body
        case Sleeping(finishing) =>
          if finishing then k.threads[k.current].at == Finishing else k.threads[k.current].at.InP?
        case Switched => k.threads[k.current].at != Finishing)
    && (k.doomed.Some? ==>
          && k.mode == Switched && k.doomed.value in k.threads && k.doomed.value != k.current
          && k.threads[k.doomed.value].at == Finishing)
  }

  /** Popped by V (or fallen through), in P, and not tested again yet. */
  function Woken(k: State, s: Sid): set<Tid>
    requires s in k.sems
  {
    set t | t in k.threads && k.threads[t].at == InP(s) && t !in k.sems[s].queue
  }

  /** Conservation, and no lost wakeup although other threads may barge in. */
  predicate SemInv(k: State, s: Sid)
    requires s in k.sems
  {
    && k.sems[s].value + k.sems[s].ps == k.sems[s].initial + k.sems[s].vs
    && (k.sems[s].queue != [] ==> k.sems[s].value <= |Woken(k, s)|)
  }

  predicate Inv(k: State) {
    PlaceInv(k) && forall s | s in k.sems :: SemInv(k, s)
  }

  lemma InitInv(k: State)
    requires Init(k)
    ensures Inv(k)
  {
  }

  lemma InvIsSafe(k: State, step: Step)
    requires Inv(k) && Enabled(k, step)
    ensures Safe(k, step)
  {
    assert ThreadInv(k, k.current);
    match step
    case CallV(s) =>
      if k.sems[s].queue != [] {
        var u := k.sems[s].queue[0];
        assert u in k.sems[s].queue && ThreadInv(k, u);
      }
    case CallYield => if k.ready != [] { assert k.ready[0] in k.ready; }
    case Dispatch => assert k.ready[0] in k.ready;
    case Resume => if k.doomed.Some? { assert ThreadInv(k, k.doomed.value); }
    case _ =>
  }

  // ---- preservation ---------------------------------------------------------

  lemma SemVThread(k: State, s: Sid, t: Tid)
    requires PlaceInv(k) && s in k.sems && k.mode != Switched && t in k.threads
    ensures ThreadInv(SemV(k, s), t)
  {
    var q := k.sems[s].queue;
    assert ThreadInv(k, t);
    if q != [] {
      assert q[0] in q && ThreadInv(k, q[0]);
      assert q == [q[0]] + q[1..];
    }
  }

  lemma SemVLists(k: State, s: Sid)
    requires ListInv(k) && s in k.sems && (k.sems[s].queue != [] ==> k.sems[s].queue[0] !in k.ready)
    ensures ListInv(SemV(k, s))
  {
    if k.sems[s].queue != [] {
      assert k.sems[s].queue[0] in k.sems[s].queue;
    }
  }

  lemma SemVPlace(k: State, s: Sid)
    requires PlaceInv(k) && s in k.sems && k.mode != Switched
    ensures PlaceInv(SemV(k, s))
  {
    forall t | t in k.threads
      ensures ThreadInv(SemV(k, s), t)
    {
      SemVThread(k, s, t);
    }
    if k.sems[s].queue != [] {
      assert k.sems[s].queue[0] in k.sems[s].queue && ThreadInv(k, k.sems[s].queue[0]);
    }
    SemVLists(k, s);
  }

  lemma SemVSem(k: State, s: Sid, r: Sid)
    requires PlaceInv(k) && s in k.sems && r in k.sems && SemInv(k, r)
    ensures SemInv(SemV(k, s), r)
  {
    var k', q := SemV(k, s), k.sems[s].queue;
    if r == s && q != [] {
      var u := q[0];
      assert u in q && ThreadInv(k, u);
      assert q == [u] + q[1..];
      assert Woken(k', s) == Woken(k, s) + {u};
    } else {
      assert Woken(k', r) == Woken(k, r);
    }
  }

  /** The current thread may make a pass of P's loop: it is running, in its own code or back in P. */
  predicate AtPass(k: State, s: Sid) {
    && PlaceInv(k) && s in k.sems && k.doomed == None && !k.mode.Sleeping?
    && (k.threads[k.current].at == Body || k.threads[k.current].at == InP(s))
  }

  lemma PassPThread(k: State, s: Sid, t: Tid)
    requires AtPass(k, s) && t in k.threads
    ensures ThreadInv(PassP(k, s), t)
  {
    assert ThreadInv(k, k.current);
    assert ThreadInv(k, t);
  }

  lemma PassPLists(k: State, s: Sid)
    requires ListInv(k) && s in k.sems && k.current in k.threads && k.current !in k.sems[s].queue
    ensures ListInv(PassP(k, s))
  {
  }

  lemma PassPPlace(k: State, s: Sid)
    requires AtPass(k, s)
    ensures PlaceInv(PassP(k, s))
  {
    forall t | t in k.threads
      ensures ThreadInv(PassP(k, s), t)
    {
      PassPThread(k, s, t);
    }
    assert ThreadInv(k, k.current);
    PassPLists(k, s);
  }

  lemma PassPWoken(k: State, s: Sid, r: Sid)
    requires s in k.sems && r in k.sems && k.current in k.threads
    requires k.threads[k.current].at == Body || k.threads[k.current].at == InP(s)
    requires k.current !in k.sems[r].queue
    ensures Woken(PassP(k, s), r) == if r == s then Woken(k, s) - {k.current} else Woken(k, r)
  {
  }

  lemma PassPSem(k: State, s: Sid, r: Sid)
    requires AtPass(k, s) && r in k.sems && SemInv(k, r)
    ensures SemInv(PassP(k, s), r)
  {
    assert ThreadInv(k, k.current);
    PassPWoken(k, s, r);
  }

  /** Steps that move no thread into or out of a semaphore. */
  lemma SameWoken(k: State, k': State, r: Sid)
    requires r in k.sems && k'.sems == k.sems && SemInv(k, r)
    requires forall t | t in k.threads && k.threads[t].at == InP(r) :: t in k'.threads && k'.threads[t].at == InP(r)
    requires forall t | t in k'.threads && k'.threads[t].at == InP(r) :: t in k.threads && k.threads[t].at == InP(r)
    ensures SemInv(k', r)
  {
    assert Woken(k', r) == Woken(k, r);
  }

  lemma YieldLists(k: State)
    requires ListInv(k) && k.current in k.threads && k.current !in k.ready
    ensures ListInv(Yield(k))
  {
    if k.ready != [] {
      assert k.ready[0] in k.ready && k.ready == [k.ready[0]] + k.ready[1..];
    }
  }

  lemma YieldThread(k: State, t: Tid)
    requires PlaceInv(k) && k.mode == User && k.ready != [] && t in k.threads
    ensures ThreadInv(Yield(k), t)
  {
    assert ThreadInv(k, t);
    assert k.ready[0] in k.ready && ThreadInv(k, k.ready[0]) && ThreadInv(k, k.current);
    assert k.ready == [k.ready[0]] + k.ready[1..];
  }

  lemma YieldPlace(k: State)
    requires PlaceInv(k) && k.mode == User
    ensures PlaceInv(Yield(k))
  {
    assert ThreadInv(k, k.current);
    YieldLists(k);
    if k.ready != [] {
      assert k.ready[0] in k.ready && ThreadInv(k, k.ready[0]);
      forall t | t in k.threads
        ensures ThreadInv(Yield(k), t)
      {
        YieldThread(k, t);
      }
    }
  }

  lemma DispatchPlace(k: State)
    requires PlaceInv(k) && k.mode.Sleeping? && k.ready != [] && k.ready[0] in k.threads
    ensures PlaceInv(Dispatched(k))
  {
    var k' := Dispatched(k);
    assert k.ready[0] in k.ready && ThreadInv(k, k.ready[0]) && ThreadInv(k, k.current);
    assert k.ready == [k.ready[0]] + k.ready[1..];
    forall t | t in k.threads
      ensures ThreadInv(k', t)
    {
      assert ThreadInv(k, t);
    }
  }

  lemma ForkPlace(k: State, t: Tid)
    requires PlaceInv(k) && k.mode == User && t !in k.threads
    ensures PlaceInv(ReadyToRun(k.(threads := k.threads[t := Thread(READY, Fresh)]), t))
  {
    var k' := ReadyToRun(k.(threads := k.threads[t := Thread(READY, Fresh)]), t);
    forall u | u in k'.threads
      ensures ThreadInv(k', u)
    {
      if u != t { assert ThreadInv(k, u); }
    }
  }

  lemma FinishPlace(k: State)
    requires PlaceInv(k) && k.mode == User
    ensures PlaceInv(k.(threads := k.threads[k.current := Thread(BLOCKED, Finishing)], mode := Sleeping(true)))
  {
    var k' := k.(threads := k.threads[k.current := Thread(BLOCKED, Finishing)], mode := Sleeping(true));
    assert ThreadInv(k, k.current);
    forall t | t in k.threads
      ensures ThreadInv(k', t)
    {
      assert ThreadInv(k, t);
    }
  }

  lemma BuriedInv(k: State)
    requires Inv(k)
    ensures Inv(Buried(k)) && Buried(k).doomed == None
  {
    var k' := Buried(k);
    if k.doomed.Some? {
      assert ThreadInv(k, k.doomed.value);
      forall t | t in k'.threads
        ensures ThreadInv(k', t)
      {
        assert ThreadInv(k, t);
      }
      forall s | s in k.sems
        ensures SemInv(k', s)
      {
        SameWoken(k, k', s);
      }
    }
  }

  lemma StartPlace(k: State)
    requires PlaceInv(k) && k.mode == Switched && k.doomed == None && !k.threads[k.current].at.InP?
    ensures PlaceInv(k.(threads := k.threads[k.current := Thread(RUNNING, Body)], mode := User))
  {
    var k' := k.(threads := k.threads[k.current := Thread(RUNNING, Body)], mode := User);
    assert ThreadInv(k, k.current);
    forall t | t in k.threads
      ensures ThreadInv(k', t)
    {
      assert ThreadInv(k, t);
    }
  }

  lemma ResumeKeeps(k: State)
    requires Inv(k) && Enabled(k, Resume) && Safe(k, Resume)
    ensures Inv(Resumed(k))
  {
    BuriedInv(k);
    var k1, c := Buried(k), k.current;
    if k1.threads[c].at.InP? {
      PKeeps(k1, k1.threads[c].at.sem);
    } else {
      StartPlace(k1);
      RestKeeps(k1, Resumed(k));
    }
  }

  lemma VKeeps(k: State, s: Sid)
    requires Inv(k) && s in k.sems && k.mode != Switched
    ensures Inv(SemV(k, s))
  {
    SemVPlace(k, s);
    forall r | r in k.sems
      ensures SemInv(SemV(k, s), r)
    {
      SemVSem(k, s, r);
    }
  }

  lemma PKeeps(k: State, s: Sid)
    requires Inv(k) && AtPass(k, s)
    ensures Inv(PassP(k, s))
  {
    PassPPlace(k, s);
    forall r | r in k.sems
      ensures SemInv(PassP(k, s), r)
    {
      PassPSem(k, s, r);
    }
  }

  /** The threads inside P are the same, in the same P. */
  predicate SameInP(k: State, k': State) {
    && (forall t | t in k.threads && k.threads[t].at.InP? :: t in k'.threads && k'.threads[t].at == k.threads[t].at)
    && (forall t | t in k'.threads && k'.threads[t].at.InP? :: t in k.threads && k'.threads[t].at == k.threads[t].at)
  }

  /** A step that leaves the semaphores and everybody's place in them alone. */
  lemma RestKeeps(k: State, k': State)
    requires Inv(k) && PlaceInv(k') && k'.sems == k.sems && SameInP(k, k')
    ensures Inv(k')
  {
    forall r | r in k.sems
      ensures SemInv(k', r)
    {
      assert SemInv(k, r);
      SameWoken(k, k', r);
    }
  }

  lemma YieldKeeps(k: State)
    requires Inv(k) && k.mode == User
    ensures Inv(Yield(k))
  {
    YieldPlace(k);
    RestKeeps(k, Yield(k));
  }

  lemma DispatchKeeps(k: State)
    requires Inv(k) && k.mode.Sleeping? && k.ready != [] && k.ready[0] in k.threads
    ensures Inv(Dispatched(k))
  {
    DispatchPlace(k);
    RestKeeps(k, Dispatched(k));
  }

  lemma LifeKeeps(k: State, step: Step)
    requires Inv(k) && Enabled(k, step) && Safe(k, step) && (step.CallFork? || step == CallFinish)
    ensures Inv(Next(k, step))
  {
    if step == CallFinish { FinishPlace(k); } else { ForkPlace(k, step.t); }
    assert SameInP(k, Next(k, step));
    RestKeeps(k, Next(k, step));
  }

  /** Every step keeps every thread in its place and every semaphore in balance. */
  lemma NextKeepsInv(k: State, step: Step)
    requires Inv(k) && Enabled(k, step) && Safe(k, step)
    ensures Inv(Next(k, step))
  {
    match step
    case CallV(s) => VKeeps(k, s);
    case CallP(s) => PKeeps(k, s);
    case CallYield => YieldKeeps(k);
    case CallFork(t) => LifeKeeps(k, step);
    case CallFinish => LifeKeeps(k, step);
    case Dispatch => DispatchKeeps(k);
    case Resume => ResumeKeeps(k);
  }

  // ---- every run ------------------------------------------------------------

  predicate IsRun(states: seq<State>, steps: seq<Step>) {
    && |states| == |steps| + 1 && Init(states[0])
    && forall i | 0 <= i < |steps| ::
         && Enabled(states[i], steps[i])
         && (Safe(states[i], steps[i]) ==> states[i + 1] == Next(states[i], steps[i]))
  }

  lemma {:induction false} EveryRun(states: seq<State>, steps: seq<Step>, i: nat)
    requires IsRun(states, steps) && i < |states|
    ensures Inv(states[i]) && (i < |steps| ==> Safe(states[i], steps[i]))
    ensures forall s | s in states[i].sems ::
              var m := states[i].sems[s];
              && m.value + m.ps == m.initial + m.vs
              && (m.queue != [] ==> m.value <= |Woken(states[i], s)|)
  {
    if i == 0 {
      InitInv(states[0]);
    } else {
      EveryRun(states, steps, i - 1);
      NextKeepsInv(states[i - 1], steps[i - 1]);
    }
    if i < |steps| {
      InvIsSafe(states[i], steps[i]);
    }
  }

  /** Nobody is left asleep with the semaphore available: some woken thread will test it again,
      and it is on the ready list or just being switched to. */
  lemma AvailableMeansAwake(k: State, s: Sid)
    requires Inv(k) && s in k.sems && k.sems[s].queue != [] && k.sems[s].value > 0
    ensures exists t | t in k.threads ::
              k.threads[t].at == InP(s) && (t in k.ready || (t == k.current && k.mode == Switched))
  {
    assert SemInv(k, s);
    var t :| t in Woken(k, s);
    assert ThreadInv(k, t);
  }

  /** Once the thread to be destroyed is deleted, no list and no processor refers to it. */
  lemma BuriedIsGone(k: State)
    requires Inv(k) && Enabled(k, Resume) && k.doomed.Some?
    ensures var k' := Resumed(k);
            && k.doomed.value !in k'.threads && OnNoList(k', k.doomed.value)
            && k'.current != k.doomed.value
  {
    assert ThreadInv(k, k.doomed.value);
    assert ThreadInv(k, k.current);
  }

  /** Every thread is in exactly one place: on the processor, on the ready list, on the queue of one
      semaphore, or finishing; lists hold it at most once. */
  lemma ExactlyOnePlace(k: State, t: Tid, s: Sid, r: Sid)
    requires Inv(k) && t in k.threads && s in k.sems && r in k.sems
    ensures var running := t == k.current && !k.mode.Sleeping?;
            var blocked := exists q | q in k.sems :: t in k.sems[q].queue;
            var finishing := k.threads[t].at == Finishing;
            && (running || t in k.ready || blocked || finishing)
            && !(running && t in k.ready) && !(running && blocked) && !(running && finishing)
            && !(t in k.ready && blocked) && !(t in k.ready && finishing) && !(blocked && finishing)
    ensures t in k.sems[s].queue && t in k.sems[r].queue ==> s == r
    ensures NoDup(k.ready) && NoDup(k.sems[s].queue)
  {
    assert ThreadInv(k, t);
  }

  /** A step that takes the next thread off the ready list. */
  predicate Schedules(k: State, step: Step) {
    step == Dispatch || (step == CallYield && k.ready != [])
  }

  /** The ready list is served in order: a scheduling step runs its front and moves everybody else one place
      up, any other step leaves the places as they are.  Nobody overtakes. */
  lemma NobodyOvertakes(k: State, step: Step, i: nat)
    requires Inv(k) && Enabled(k, step) && Safe(k, step) && i < |k.ready|
    ensures var k' := Next(k, step);
      if !Schedules(k, step) then i < |k'.ready| && k'.ready[i] == k.ready[i]
      else if i == 0 then k'.current == k.ready[0]
      else i - 1 < |k'.ready| && k'.ready[i - 1] == k.ready[i]
  {
  }

  /** Waiters are woken in the order in which they went to sleep, each going to the end of the ready list. */
  lemma WokenInOrder(k: State, s: Sid)
    requires Inv(k) && Enabled(k, CallV(s)) && Safe(k, CallV(s)) && k.sems[s].queue != []
    ensures var k' := Next(k, CallV(s));
            && k'.sems[s].queue == k.sems[s].queue[1..]
            && k'.ready == k.ready + [k.sems[s].queue[0]]
  {
  }
}
