/** What the calls of the synchronised list amount to, counted along whole runs. */
module SynchListHistory {
  import opened Sequences
  import opened SynchListMachine

  // ---- what goes on the list and comes off it -------------------------------

  /** The item that the step puts on the list, if it puts one there. */
  function Put(s: State, step: Step): seq<Item> {
    if step.Run? && step.t in s.pc && s.pc[step.t].Appending? then [s.pc[step.t].item] else []
  }

  /** The step takes the front of the list. */
  predicate Takes(s: State, step: Step) {
    step.Run? && step.t in s.pc && s.pc[step.t] == Taking
  }

  /** The items put on the list by the first i steps, in order. */
  function Puts(states: seq<State>, steps: seq<Step>, i: nat): seq<Item>
    requires i <= |steps| <= |states|
  {
    if i == 0 then [] else Puts(states, steps, i - 1) + Put(states[i - 1], steps[i - 1])
  }

  /** How many of the first i steps take an item. */
  function Taken(states: seq<State>, steps: seq<Step>, i: nat): nat
    requires i <= |steps| <= |states|
  {
    if i == 0 then 0 else Taken(states, steps, i - 1) + if Takes(states[i - 1], steps[i - 1]) then 1 else 0
  }

  lemma StepHistory(s: State, step: Step)
    requires Enabled(s, step) && Safe(s, step)
    ensures Next(s, step).appended == s.appended + Put(s, step)
    ensures |Next(s, step).removed| == |s.removed| + if Takes(s, step) then 1 else 0
  {
  }

  /** The list holds what has been put on it less what has been taken off, from the front. */
  lemma {:induction false} ListIsHistory(states: seq<State>, steps: seq<Step>, i: nat)
    requires IsRun(states, steps) && i < |states|
    ensures states[i].appended == Puts(states, steps, i) && |states[i].removed| == Taken(states, steps, i)
    ensures Taken(states, steps, i) <= |Puts(states, steps, i)|
    ensures states[i].list == Puts(states, steps, i)[Taken(states, steps, i)..]
  {
    EveryRun(states, steps, i);
    if i > 0 {
      ListIsHistory(states, steps, i - 1);
      HistoryGoesOn(states, steps, i - 1);
    }
  }

  lemma HistoryGoesOn(states: seq<State>, steps: seq<Step>, i: nat)
    requires IsRun(states, steps) && i < |steps|
    ensures states[i + 1].appended == states[i].appended + Put(states[i], steps[i])
    ensures |states[i + 1].removed| == |states[i].removed| + if Takes(states[i], steps[i]) then 1 else 0
  {
    var s, step := RunState(states, steps, i);
    StepHistory(s, step);
  }

  /** The n-th removal gets the n-th item put on the list. */
  lemma TakenInOrder(states: seq<State>, steps: seq<Step>, i: nat)
    requires IsRun(states, steps) && i < |steps| && Takes(states[i], steps[i])
    ensures Taken(states, steps, i) < |Puts(states, steps, i)| && states[i].list != []
    ensures states[i].list[0] == Puts(states, steps, i)[Taken(states, steps, i)]
    ensures states[i + 1].list == states[i].list[1..]
  {
    ListIsHistory(states, steps, i);
    ListIsHistory(states, steps, i + 1);
    var s := RunStep(states, steps, i);
  }

  // ---- calls ----------------------------------------------------------------

  /** Thread t, which made its call in step j, has not returned before step l. */
  predicate SameCall(states: seq<State>, steps: seq<Step>, j: nat, l: nat, t: Tid) {
    && j < l <= |steps| < |states| && steps[j].Call? && steps[j].t == t
    && forall m | j < m < l :: t in states[m].pc && states[m].pc[t] != Outside
  }

  /** The step does what a call is for: puts its item, takes one, or finds nobody left to wake. */
  predicate Acts(s: State, step: Step) {
    && step.Run? && step.t in s.pc
    && (s.pc[step.t].Appending? || s.pc[step.t] == Taking || (s.pc[step.t] == Broadcasting && s.waitQueue == []))
  }

  /** How often thread t acts in the steps from j up to l. */
  function ActsOf(states: seq<State>, steps: seq<Step>, j: nat, l: nat, t: Tid): nat
    requires j <= l <= |steps| <= |states|
  {
    if j == l then 0
    else ActsOf(states, steps, j, l - 1, t) + if steps[l - 1].t == t && Acts(states[l - 1], steps[l - 1]) then 1 else 0
  }

  predicate Acquires(p: PC, goal: Goal) {
    p == Want(goal) || p == Asleep(goal) || p == Got(goal)
  }

  predicate Leaves(p: PC) {
    p == Releasing || p == Unlocking || p == Outside
  }

  /** In RemoveFront's loop: in or around a Wait. */
  predicate Waits(p: PC) {
    || p == Testing || p == Enrolling || p.Leaving? || p.Freeing? || p.Waiting? || p.Dozing? || p.Dropping?
    || ((p.Want? || p.Asleep? || p.Got?) && p.goal.ToResume?)
  }

  /** Where a thread can be in a call with this purpose, having acted n times. */
  predicate Serves(p: PC, goal: Goal, n: nat) {
    if n == 0 then
      match goal
      case ToAppend(x) => Acquires(p, goal) || p == Appending(x)
      case ToRemove => Acquires(p, goal) || Waits(p) || p == Taking
      case ToBroadcast => Acquires(p, goal) || p == Broadcasting || (p.Posting? && p.again)
      case ToResume(_) => false
    else n == 1 && (Leaves(p) || (goal.ToAppend? && (p == Signalling || (p.Posting? && !p.again))))
  }

  lemma OwnStepServes(s: State, t: Tid, goal: Goal, n: nat)
    requires Enabled(s, Run(t)) && Safe(s, Run(t)) && Serves(s.pc[t], goal, n)
    ensures Serves(Next(s, Run(t)).pc[t], goal, if Acts(s, Run(t)) then n + 1 else n)
  {
  }

  /** Where thread t is after another's step: where it was, or woken up there. */
  predicate Unmoved(p: PC, p': PC) {
    p' == p || (p.Asleep? && p' == Want(p.goal)) || (p.Dozing? && p' == Waiting(p.waiter))
  }

  lemma PostLeavesOthers(s: State, u: Tid, t: Tid)
    requires OwnerInv(s) && WaitInv(s) && u in s.pc && s.pc[u].Posting? && t in s.pc && t != u
    ensures s.pc[u].waiter in s.waiters
    ensures forall next :: Unmoved(s.pc[t], WaiterV(s, u, s.pc[u].waiter, next).pc[t])
  {
    var w := s.pc[u].waiter;
    assert WaiterInv(s, w) && WidOf(s.pc[s.waiters[w].owner]) == Some(w);
  }

  lemma OthersStay(s: State, step: Step, t: Tid)
    requires OwnerInv(s) && WaitInv(s) && Enabled(s, step) && Safe(s, step) && step.t != t && t in s.pc
    ensures t in Next(s, step).pc && Unmoved(s.pc[t], Next(s, step).pc[t])
  {
    if step.Run? && s.pc[step.t].Posting? { PostLeavesOthers(s, step.t, t); }
  }

  lemma SameThreads(s: State, step: Step)
    requires Enabled(s, step) && Safe(s, step)
    ensures Next(s, step).pc.Keys == s.pc.Keys
  {
  }

  lemma UnmovedServes(p: PC, p': PC, goal: Goal, n: nat)
    requires Unmoved(p, p') && Serves(p, goal, n)
    ensures Serves(p', goal, n)
  {
  }

  /** A call keeps to its purpose and its item, whoever else runs in between. */
  lemma {:induction false} CallTracked(states: seq<State>, steps: seq<Step>, j: nat, l: nat, t: Tid)
    requires IsRun(states, steps) && SameCall(states, steps, j, l, t)
    ensures t in states[l].pc && Serves(states[l].pc[t], steps[j].goal, ActsOf(states, steps, j, l, t))
    decreases l
  {
    if l - 1 == j {
      CallBegins(states, steps, j, t);
    } else {
      CallTracked(states, steps, j, l - 1, t);
      CallGoesOn(states, steps, l - 1, t, steps[j].goal, ActsOf(states, steps, j, l - 1, t));
    }
  }

  lemma CallBegins(states: seq<State>, steps: seq<Step>, j: nat, t: Tid)
    requires IsRun(states, steps) && j < |steps| && steps[j].Call? && steps[j].t == t
    ensures t in states[j + 1].pc && Serves(states[j + 1].pc[t], steps[j].goal, ActsOf(states, steps, j, j + 1, t))
  {
    var s, step := RunState(states, steps, j);
    assert ActsOf(states, steps, j, j, t) == 0;
  }

  lemma CallGoesOn(states: seq<State>, steps: seq<Step>, l: nat, t: Tid, goal: Goal, n: nat)
    requires IsRun(states, steps) && l < |steps| && t in states[l].pc && states[l].pc[t] != Outside
    requires Serves(states[l].pc[t], goal, n)
    ensures t in states[l + 1].pc
    ensures Serves(states[l + 1].pc[t], goal, n + if steps[l].t == t && Acts(states[l], steps[l]) then 1 else 0)
  {
    var s, step := RunState(states, steps, l);
    StepServes(s, step, t, goal, n);
  }

  lemma StepServes(s: State, step: Step, t: Tid, goal: Goal, n: nat)
    requires Inv(s) && Enabled(s, step) && Safe(s, step) && t in s.pc && s.pc[t] != Outside && Serves(s.pc[t], goal, n)
    ensures t in Next(s, step).pc
    ensures Serves(Next(s, step).pc[t], goal, n + if step.t == t && Acts(s, step) then 1 else 0)
  {
    if step.t == t {
      assert step == Run(t);
      OwnStepServes(s, t, goal, n);
    } else {
      OthersStay(s, step, t);
      UnmovedServes(s.pc[t], Next(s, step).pc[t], goal, n);
    }
  }

  /** A state of a run and the step taken there. */
  lemma RunState(states: seq<State>, steps: seq<Step>, k: nat) returns (s: State, step: Step)
    requires IsRun(states, steps) && k < |steps|
    ensures s == states[k] && step == steps[k] && Inv(s)
    ensures Enabled(s, step) && Safe(s, step) && states[k + 1] == Next(s, step)
  {
    EveryRun(states, steps, k);
    s, step := states[k], steps[k];
  }

  /** The last act among the steps from j up to l. */
  lemma {:induction false} ActFound(states: seq<State>, steps: seq<Step>, j: nat, l: nat, t: Tid) returns (k: nat)
    requires j <= l <= |steps| <= |states| && ActsOf(states, steps, j, l, t) == 1
    ensures j <= k < l && steps[k].t == t && Acts(states[k], steps[k])
    ensures ActsOf(states, steps, j, k, t) == 0
    ensures forall m | j <= m < l && m != k && steps[m].t == t :: !Acts(states[m], steps[m])
    decreases l
  {
    if steps[l - 1].t == t && Acts(states[l - 1], steps[l - 1]) {
      k := l - 1;
      NoActs(states, steps, j, l - 1, t);
    } else {
      k := ActFound(states, steps, j, l - 1, t);
    }
  }

  lemma {:induction false} NoActs(states: seq<State>, steps: seq<Step>, j: nat, l: nat, t: Tid)
    requires j <= l <= |steps| <= |states| && ActsOf(states, steps, j, l, t) == 0
    ensures forall m | j <= m < l && steps[m].t == t :: !Acts(states[m], steps[m])
    decreases l
  {
    if j < l { NoActs(states, steps, j, l - 1, t); }
  }

  /** A call that has returned has acted exactly once, in its own way: an Append has put its own item on the list,
      a RemoveFront has taken the front, a Broadcast has left nobody waiting. */
  lemma ReturnedCallActedOnce(states: seq<State>, steps: seq<Step>, j: nat, l: nat, t: Tid) returns (k: nat)
    requires IsRun(states, steps) && SameCall(states, steps, j, l, t) && t in states[l].pc && states[l].pc[t] == Outside
    ensures j < k < l && steps[k] == Run(t)
    ensures match steps[j].goal
            case ToAppend(x) => Put(states[k], steps[k]) == [x]
            case ToRemove => Takes(states[k], steps[k])
            case _ => states[k].pc[t] == Broadcasting && states[k].waitQueue == []
    ensures forall m | j < m < l && m != k && steps[m].t == t ::
              Put(states[m], steps[m]) == [] && !Takes(states[m], steps[m])
  {
    CallTracked(states, steps, j, l, t);
    k := ActFound(states, steps, j, l, t);
    CallTracked(states, steps, j, k, t);
    forall m | j < m < l && m != k && steps[m].t == t
      ensures Put(states[m], steps[m]) == [] && !Takes(states[m], steps[m])
    {
      assert !Acts(states[m], steps[m]);
    }
  }

  /** The call that a thread is in. */
  lemma {:induction false} InACall(states: seq<State>, steps: seq<Step>, i: nat, t: Tid) returns (j: nat)
    requires IsRun(states, steps) && i < |states| && t in states[i].pc && states[i].pc[t] != Outside
    ensures SameCall(states, steps, j, i, t)
    decreases i
  {
    CalledOrInside(states, steps, i, t);
    if steps[i - 1].Call? && steps[i - 1].t == t {
      j := i - 1;
    } else {
      j := InACall(states, steps, i - 1, t);
      OneLater(states, steps, j, i - 1, t);
    }
  }

  lemma CalledOrInside(states: seq<State>, steps: seq<Step>, i: nat, t: Tid)
    requires IsRun(states, steps) && i < |states| && t in states[i].pc && states[i].pc[t] != Outside
    ensures i > 0
    ensures (steps[i - 1].Call? && steps[i - 1].t == t) || (t in states[i - 1].pc && states[i - 1].pc[t] != Outside)
  {
    var s, step := RunState(states, steps, i - 1);
    if !(step.Call? && step.t == t) { WasInside(s, step, t); }
  }

  lemma OneLater(states: seq<State>, steps: seq<Step>, j: nat, l: nat, t: Tid)
    requires SameCall(states, steps, j, l, t) && l < |steps| && t in states[l].pc && states[l].pc[t] != Outside
    ensures SameCall(states, steps, j, l + 1, t)
  {
  }

  lemma WasInside(s: State, step: Step, t: Tid)
    requires Inv(s) && Enabled(s, step) && Safe(s, step) && t in Next(s, step).pc && Next(s, step).pc[t] != Outside
    requires !(step.Call? && step.t == t)
    ensures t in s.pc && s.pc[t] != Outside
  {
    SameThreads(s, step);
    if step.t != t { OthersStay(s, step, t); }
  }

  /** Whatever is put on the list is the item of the Append its thread is in. */
  lemma PutIsCalled(states: seq<State>, steps: seq<Step>, i: nat) returns (j: nat)
    requires IsRun(states, steps) && i < |steps| && Put(states[i], steps[i]) != []
    ensures j < i && SameCall(states, steps, j, i, steps[i].t)
    ensures steps[j] == Call(steps[i].t, ToAppend(Put(states[i], steps[i])[0]))
  {
    j := InACall(states, steps, i, steps[i].t);
    CallTracked(states, steps, j, i, steps[i].t);
  }

  // ---- the order of waking --------------------------------------------------

  /** Waiters are numbered as they come; those on the queue came after every one signalled and on his way. */
  predicate OrderInv(s: State) {
    && (forall i, j | 0 <= i < j < |s.waitQueue| :: s.waitQueue[i] < s.waitQueue[j])
    && (forall w | w in s.waitQueue :: w < s.fresh_)
    && (forall t, w | t in s.pc && s.pc[t].Posting? && w in s.waitQueue :: s.pc[t].waiter < w)
  }

  lemma StepKeepsOrder(s: State, step: Step)
    requires Inv(s) && OrderInv(s) && Enabled(s, step) && Safe(s, step)
    ensures OrderInv(Next(s, step))
  {
    var s' := Next(s, step);
    QueueStep(s, step);
    SameThreads(s, step);
    forall u | u in s.pc && s.pc[u].Posting?
      ensures s.pc[u].waiter < s.fresh_
    {
      assert s.pc[u].waiter in s.waiters;
    }
    forall u | u in s.pc && u != step.t && s'.pc[u].Posting?
      ensures s.pc[u].Posting? && s'.pc[u].waiter == s.pc[u].waiter
    {
      OthersStay(s, step, u);
    }
    OrderKept(s, s', step.t);
  }

  predicate QueueMove(s: State, s': State) {
    var q, q' := s.waitQueue, s'.waitQueue;
    || (q' == q && s'.fresh_ == s.fresh_)
    || (q != [] && q' == q[1..] && s'.fresh_ == s.fresh_)
    || (q' == q + [s.fresh_] && s'.fresh_ == s.fresh_ + 1)
  }

  lemma OrderKept(s: State, s': State, t: Tid)
    requires OrderInv(s) && QueueMove(s, s') && t in s.pc && s'.pc.Keys == s.pc.Keys
    requires forall u | u in s.pc && s.pc[u].Posting? :: s.pc[u].waiter < s.fresh_
    requires forall u | u in s.pc && u != t && s'.pc[u].Posting? ::
               s.pc[u].Posting? && s'.pc[u].waiter == s.pc[u].waiter
    requires s'.pc[t].Posting? ==>
               s.waitQueue != [] && s'.waitQueue == s.waitQueue[1..] && s'.pc[t].waiter == s.waitQueue[0]
    ensures OrderInv(s')
  {
    var q, q' := s.waitQueue, s'.waitQueue;
    forall w | w in q'
      ensures w in q || (w == s.fresh_ < s'.fresh_)
    {
    }
    forall i, j | 0 <= i < j < |q'|
      ensures q'[i] < q'[j]
    {
      assert q'[i] in q';
      if q' == q + [s.fresh_] {
        assert j < |q| ==> q'[j] == q[j];
        assert q[i] in q;
      } else if q' != q {
        assert q'[i] == q[i + 1] && q'[j] == q[j + 1];
      }
    }
    forall u, w | u in s'.pc && s'.pc[u].Posting? && w in q'
      ensures s'.pc[u].waiter < w
    {
      if u == t {
        var i :| 0 <= i < |q'| && q'[i] == w;
        assert q[i + 1] == w;
      }
    }
  }

  /** What a step does to waitQueue, and where it leaves its own thread. */
  lemma QueueStep(s: State, step: Step)
    requires Enabled(s, step) && Safe(s, step)
    ensures QueueMove(s, Next(s, step))
    ensures Next(s, step).pc[step.t].Posting? ==>
              s.waitQueue != [] && Next(s, step).waitQueue == s.waitQueue[1..]
              && Next(s, step).pc[step.t].waiter == s.waitQueue[0]
  {
  }

  /** Condition variables wake in order of arrival: who is signalled came before everybody still waiting. */
  lemma {:induction false} WaitersInOrder(states: seq<State>, steps: seq<Step>, i: nat, t: Tid, w: Wid)
    requires IsRun(states, steps) && i < |states|
    ensures OrderInv(states[i])
    ensures t in states[i].pc && states[i].pc[t].Posting? && w in states[i].waitQueue ==> states[i].pc[t].waiter < w
  {
    if i > 0 {
      WaitersInOrder(states, steps, i - 1, t, w);
      var s, step := RunState(states, steps, i - 1);
      StepKeepsOrder(s, step);
    }
  }

  /** The lock's queue is served in order: a step adds its own thread at the end and puts it to sleep, or sets the
      front to testing again, or leaves the queue alone. */
  predicate LockServed(s: State, s': State, t: Tid) {
    var q, q' := s.lock.queue, s'.lock.queue;
    || q' == q
    || (q' == q + [t] && t in s'.pc && s'.pc[t].Asleep?)
    || (q != [] && q' == q[1..] && q[0] in s'.pc && s'.pc[q[0]].Want?)
  }

  lemma UnlockInOrder(s: State, t: Tid, next: PC)
    requires LockInv(s) && t in s.pc && !s.pc[t].Asleep?
    ensures var s' := LockV(s, t, next);
            && LockServed(s, s', t) && (s.lock.queue != [] ==> s'.lock.queue == s.lock.queue[1..])
  {
    if s.lock.queue != [] { assert s.lock.queue[0] in s.lock.queue; }
  }

  lemma LockUntouched(s: State, step: Step)
    requires Enabled(s, step) && Safe(s, step)
    requires step.Run? ==> !s.pc[step.t].Want? && !s.pc[step.t].Freeing? && s.pc[step.t] != Unlocking
    ensures Next(s, step).lock == s.lock
    ensures Inside(s.pc[step.t]) ==> Inside(Next(s, step).pc[step.t])
  {
  }

  /** And whoever leaves the lock takes the front off the queue. */
  lemma LockInOrder(s: State, step: Step)
    requires Inv(s) && Enabled(s, step) && Safe(s, step)
    ensures LockServed(s, Next(s, step), step.t)
    ensures Inside(s.pc[step.t]) && !Inside(Next(s, step).pc[step.t]) && s.lock.queue != [] ==>
              Next(s, step).lock.queue == s.lock.queue[1..]
  {
    var p := s.pc[step.t];
    if step.Run? && p.Freeing? {
      UnlockInOrder(s, step.t, Waiting(p.waiter));
    } else if step.Run? && p == Unlocking {
      UnlockInOrder(s, step.t, Outside);
    } else if step.Run? && p.Want? {
      assert Next(s, step) == LockP(s, step.t, p.goal);
    } else {
      LockUntouched(s, step);
    }
  }
}
