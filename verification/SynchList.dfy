/** threads/synchlist.cc on top of threads/synch.cc: any number of threads inside Append, RemoveFront
    and a broadcaster, stepping in any order at the places where a context switch could happen.
    P and V are atomic because they run with interrupts off. */
module SynchListMachine {
  import opened Sequences

  type Tid = nat
  type Wid = nat
  type Item = int

  datatype Semaphore = Semaphore(value: nat, queue: seq<Tid>)

  /** The semaphore a single Wait allocates, for whom, and how often it has been V'ed. */
  datatype Waiter = Waiter(sem: Semaphore, owner: Tid, posts: nat)

  /** Why a thread wants the monitor lock. */
  datatype Goal = ToAppend(item: Item) | ToRemove | ToBroadcast | ToResume(waiter: Wid)

  /** Where a thread is. */
  datatype PC =
    | Outside
    | Want(goal: Goal)              // in Acquire's P, about to test the value (for the first time or woken up)
    | Asleep(goal: Goal)            // in Acquire's P, on the semaphore's queue
    | Got(goal: Goal)               // P has decremented; lockHolder is not set yet
    | Appending(item: Item)         // holds the lock, about to put the item on the list
    | Signalling                    // the item is on the list; Signal comes next
    | Broadcasting                  // at the test of Broadcast's loop
    | Posting(waiter: Wid, again: bool) // took the waiter off waitQueue, about to V it; again: inside Broadcast
    | Testing                       // at the test of RemoveFront's loop
    | Enrolling                     // found the list empty, about to join waitQueue
    | Leaving(waiter: Wid)          // on waitQueue, about to clear lockHolder
    | Freeing(waiter: Wid)          // lockHolder cleared, about to V the lock
    | Waiting(waiter: Wid)          // in the waiter's P, about to test the value
    | Dozing(waiter: Wid)           // in the waiter's P, on the semaphore's queue
    | Dropping(waiter: Wid)         // holds the lock again, about to delete the waiter
    | Taking                        // found the list non-empty, about to take the front
    | Releasing                     // about to clear lockHolder
    | Unlocking                     // lockHolder cleared, about to V the lock

  datatype State = State(
    lock: Semaphore, holder: Option<Tid>,
    waitQueue: seq<Wid>, waiters: map<Wid, Waiter>, fresh_: Wid,
    list: seq<Item>, appended: seq<Item>, removed: seq<Item>,
    pc: map<Tid, PC>)

  predicate Init(s: State) {
    && s.lock == Semaphore(1, []) && s.holder == None
    && s.waitQueue == [] && s.waiters == map[]
    && s.list == [] && s.appended == [] && s.removed == []
    && forall t | t in s.pc :: s.pc[t] == Outside
  }

  /** Between P's decrement in Acquire and V's increment in Release. */
  predicate Inside(p: PC) {
    match p
    case Outside | Want(_) | Asleep(_) | Waiting(_) | Dozing(_) => false
    case _ => true
  }

  /** lockHolder is set to the thread exactly here. */
  predicate Marked(p: PC) {
    Inside(p) && !p.Got? && !p.Freeing? && !p.Unlocking?
  }

  function WidOf(p: PC): Option<Wid> {
    match p
    case Want(ToResume(w)) => Some(w)
    case Asleep(ToResume(w)) => Some(w)
    case Got(ToResume(w)) => Some(w)
    case Leaving(w) => Some(w)
    case Freeing(w) => Some(w)
    case Waiting(w) => Some(w)
    case Dozing(w) => Some(w)
    case Dropping(w) => Some(w)
    case _ => None
  }

  /** Has joined waitQueue and has not yet passed its own semaphore. */
  predicate BeforeP(p: PC) {
    p.Leaving? || p.Freeing? || p.Waiting? || p.Dozing?
  }

  // ---- steps ----------------------------------------------------------------

  datatype Step = Call(t: Tid, goal: Goal) | Run(t: Tid)

  predicate Enabled(s: State, step: Step) {
    && step.t in s.pc
    && match step
       case Call(t, goal) => s.pc[t] == Outside && !goal.ToResume?
       case Run(t) => s.pc[t] != Outside && !s.pc[t].Asleep? && !s.pc[t].Dozing?
  }

  function AfterAcquire(goal: Goal): PC {
    match goal
    case ToAppend(x) => Appending(x)
    case ToRemove => Testing
    case ToBroadcast => Broadcasting
    case ToResume(w) => Dropping(w)
  }

  /** The lock's P: one pass of the loop in Semaphore::P. */
  function LockP(s: State, t: Tid, goal: Goal): State {
    if s.lock.value == 0
    then s.(lock := s.lock.(queue := s.lock.queue + [t]), pc := s.pc[t := Asleep(goal)])
    else s.(lock := s.lock.(value := s.lock.value - 1), pc := s.pc[t := Got(goal)])
  }

  /** A sleeper on the lock goes back to testing. */
  function Woken(p: PC): PC {
    if p.Asleep? then Want(p.goal) else p
  }

  /** The lock's V: wake the first sleeper, if any, and increment. */
  function LockV(s: State, t: Tid, next: PC): State {
    if s.lock.queue != [] && s.lock.queue[0] in s.pc
    then
      var u := s.lock.queue[0];
      s.(lock := Semaphore(s.lock.value + 1, s.lock.queue[1..]), pc := s.pc[u := Woken(s.pc[u])][t := next])
    else s.(lock := s.lock.(value := s.lock.value + 1), pc := s.pc[t := next])
  }

  /** Signal: take the first waiter off waitQueue, or do nothing. */
  function Signal(s: State, t: Tid, again: bool): State {
    if s.waitQueue == [] then s.(pc := s.pc[t := Releasing])
    else s.(waitQueue := s.waitQueue[1..], pc := s.pc[t := Posting(s.waitQueue[0], again)])
  }

  function WaiterV(s: State, t: Tid, w: Wid, next: PC): State
    requires w in s.waiters
  {
    var x := s.waiters[w];
    if x.sem.queue != [] && x.sem.queue[0] in s.pc
    then
      var u := x.sem.queue[0];
      s.(waiters := s.waiters[w := x.(sem := Semaphore(x.sem.value + 1, x.sem.queue[1..]), posts := x.posts + 1)],
         pc := s.pc[u := Waiting(w)][t := next])
    else s.(waiters := s.waiters[w := x.(sem := x.sem.(value := x.sem.value + 1), posts := x.posts + 1)],
            pc := s.pc[t := next])
  }

  function WaiterP(s: State, t: Tid, w: Wid): State
    requires w in s.waiters
  {
    var x := s.waiters[w];
    if x.sem.value == 0
    then s.(waiters := s.waiters[w := x.(sem := x.sem.(queue := x.sem.queue + [t]))], pc := s.pc[t := Dozing(w)])
    else s.(waiters := s.waiters[w := x.(sem := x.sem.(value := x.sem.value - 1))], pc := s.pc[t := Want(ToResume(w))])
  }

  /** Everything the code ASSERTs or relies on at the point where the step is about to run. */
  predicate Safe(s: State, step: Step)
    requires Enabled(s, step)
  {
    var t := step.t;
    step.Run? ==>
      match s.pc[t]
      case Want(_) => s.lock.value == 0 ==> t !in s.lock.queue            // not already on the semaphore's list
      case Signalling => s.holder == Some(t)                              // Signal: IsHeldByCurrentThread
      case Broadcasting => s.waitQueue != [] ==> s.holder == Some(t)
      case Posting(w, _) => w in s.waiters                                // V of a semaphore that still exists
      case Enrolling => s.holder == Some(t) && s.fresh_ !in s.waitQueue && s.fresh_ !in s.waiters
      case Leaving(_) => s.holder == Some(t)                              // Release: IsHeldByCurrentThread
      case Waiting(w) => w in s.waiters && (s.waiters[w].sem.value == 0 ==> t !in s.waiters[w].sem.queue)
      case Dropping(w) =>                                                 // the signaller is done with the semaphore
        w in s.waiters && w !in s.waitQueue && s.waiters[w].sem.queue == []
        && forall u | u in s.pc :: !(s.pc[u].Posting? && s.pc[u].waiter == w)
      case Taking => s.list != []                                         // RemoveFront: !IsEmpty
      case Releasing => s.holder == Some(t)
      case _ => true
  }

  function Next(s: State, step: Step): State
    requires Enabled(s, step) && Safe(s, step)
  {
    match step
    case Call(t, goal) => s.(pc := s.pc[t := Want(goal)])
    case Run(t) =>
      match s.pc[t]
      case Want(goal) => LockP(s, t, goal)
      case Got(goal) => s.(holder := Some(t), pc := s.pc[t := AfterAcquire(goal)])
      case Appending(x) => s.(list := s.list + [x], appended := s.appended + [x], pc := s.pc[t := Signalling])
      case Signalling => Signal(s, t, false)
      case Broadcasting => Signal(s, t, true)
      case Posting(w, again) => WaiterV(s, t, w, if again then Broadcasting else Releasing)
      case Testing => s.(pc := s.pc[t := if s.list == [] then Enrolling else Taking])
      case Enrolling =>
        s.(waiters := s.waiters[s.fresh_ := Waiter(Semaphore(0, []), t, 0)], fresh_ := s.fresh_ + 1,
           waitQueue := s.waitQueue + [s.fresh_], pc := s.pc[t := Leaving(s.fresh_)])
      case Leaving(w) => s.(holder := None, pc := s.pc[t := Freeing(w)])
      case Freeing(w) => LockV(s, t, Waiting(w))
      case Waiting(w) => WaiterP(s, t, w)
      case Dropping(w) => s.(waiters := s.waiters - {w}, pc := s.pc[t := Testing])
      case Taking => s.(list := s.list[1..], removed := s.removed + [s.list[0]], pc := s.pc[t := Releasing])
      case Releasing => s.(holder := None, pc := s.pc[t := Unlocking])
      case Unlocking => LockV(s, t, Outside)
      case _ => s
  }

  // ---- the invariant --------------------------------------------------------

  function Insiders(s: State): set<Tid> {
    set t | t in s.pc && Inside(s.pc[t])
  }

  /** The lock: its value plus the threads inside is always one, lockHolder is the marked thread,
      the queue holds exactly the sleepers, once each, and they do not sleep while the lock is free
      and nobody is awake to take it. */
  predicate LockInv(s: State) {
    && s.lock.value + |Insiders(s)| == 1
    && (forall t | t in s.pc :: Marked(s.pc[t]) <==> s.holder == Some(t))
    && (s.holder.Some? ==> s.holder.value in s.pc)
    && NoDup(s.lock.queue)
    && (forall t | t in s.lock.queue :: t in s.pc)
    && (forall t | t in s.pc :: t in s.lock.queue <==> s.pc[t].Asleep?)
    && (s.lock.value > 0 && s.lock.queue != [] ==> SomeoneWants(s))
  }

  /** A thread awake in Acquire's P. */
  predicate SomeoneWants(s: State) {
    exists t | t in s.pc :: s.pc[t].Want?
  }

  lemma StillWanted(s: State, s': State, t: Tid, p: PC)
    requires t in s.pc && s'.pc == s.pc[t := p] && (s.pc[t].Want? ==> p.Want?) && SomeoneWants(s)
    ensures SomeoneWants(s')
  {
    var u :| u in s.pc && s.pc[u].Want?;
    assert s'.pc[u].Want?;
  }

  /** Waiters and their threads correspond one to one. */
  predicate OwnerInv(s: State) {
    && (forall w | w in s.waiters ::
          w < s.fresh_ && s.waiters[w].owner in s.pc && WidOf(s.pc[s.waiters[w].owner]) == Some(w))
    && (forall t | t in s.pc && WidOf(s.pc[t]).Some? ::
          WidOf(s.pc[t]).value in s.waiters && s.waiters[WidOf(s.pc[t]).value].owner == t)
  }

  predicate PostPending(s: State, w: Wid) {
    exists u | u in s.pc :: s.pc[u].Posting? && s.pc[u].waiter == w
  }

  /** Exactly one V per waiter: none while it is on waitQueue, then one, pending or done, then consumed. */
  predicate WaiterInv(s: State, w: Wid)
    requires w in s.waiters && s.waiters[w].owner in s.pc
  {
    var x, p := s.waiters[w], s.pc[s.waiters[w].owner];
    && x.sem.queue == (if p.Dozing? then [x.owner] else [])
    && (w in s.waitQueue ==> BeforeP(p) && x.sem.value == 0 && !PostPending(s, w))
    && (w !in s.waitQueue && BeforeP(p) ==> x.sem.value == if PostPending(s, w) then 0 else 1)
    && (!BeforeP(p) ==> x.sem.value == 0 && !PostPending(s, w))
    && (p.Dozing? ==> x.sem.value == 0)
    && x.posts == (if w in s.waitQueue || PostPending(s, w) then 0 else 1)
  }

  predicate WaitInv(s: State) {
    && NoDup(s.waitQueue)
    && (forall w | w in s.waitQueue :: w in s.waiters)
    && (forall t | t in s.pc && s.pc[t].Posting? :: s.pc[t].waiter in s.waiters)
    && (forall w | w in s.waiters :: s.waiters[w].owner in s.pc && WaiterInv(s, w))
  }

  /** Signalled, or inside on the way to taking an item, or about to signal for an item just put. */
  predicate Credit(s: State, p: PC) {
    || p == Signalling
    || p == Testing || p == Enrolling || p == Taking || p.Dropping?
      || (p.Got? && (p.goal.ToRemove? || p.goal.ToResume?))
    || (WidOf(p).Some? && !Inside(p) && WidOf(p).value !in s.waitQueue)
  }

  function Creditors(s: State): set<Tid> {
    set t | t in s.pc && Credit(s, s.pc[t])
  }

  predicate ListInv(s: State) {
    && s.appended == s.removed + s.list
    && (forall t | t in s.pc :: s.pc[t] == Taking ==> s.list != [])
    && (forall t | t in s.pc :: s.pc[t] == Enrolling ==> s.list == [])
    && (s.waitQueue != [] ==> |s.list| <= |Creditors(s)|)
  }

  predicate Inv(s: State) {
    LockInv(s) && OwnerInv(s) && WaitInv(s) && ListInv(s)
  }

  // ---- preservation ---------------------------------------------------------

  lemma InitInv(s: State)
    requires Init(s)
    ensures Inv(s)
  {
    assert Insiders(s) == {};
  }

  /** Mutual exclusion, from the counting form of the lock invariant. */
  lemma AloneInside(s: State, t: Tid, u: Tid)
    requires LockInv(s) && t in s.pc && u in s.pc && Inside(s.pc[t]) && Inside(s.pc[u])
    ensures t == u && s.lock.value == 0
  {
    var rest := Insiders(s) - {t, u};
    assert Insiders(s) == {t, u} + rest;
    assert |Insiders(s)| == |{t, u}| + |rest|;
  }

  lemma InvIsSafe(s: State, step: Step)
    requires Inv(s) && Enabled(s, step)
    ensures Safe(s, step)
  {
    if step.Run? && s.pc[step.t].Dropping? {
      var w := s.pc[step.t].waiter;
      assert WidOf(s.pc[step.t]) == Some(w);
    }
    if step.Run? && s.pc[step.t].Waiting? {
      assert WidOf(s.pc[step.t]) == Some(s.pc[step.t].waiter);
    }
  }

  // What each part of the invariant looks at.

  function LockClass(p: PC): (bool, bool, bool) { (Inside(p), Marked(p), p.Asleep?) }

  function WaitClass(p: PC): (Option<Wid>, bool, bool, Option<Wid>) {
    (WidOf(p), BeforeP(p), p.Dozing?, if p.Posting? then Some(p.waiter) else None)
  }

  /** t moves to p and nothing the lock invariant looks at changes. */
  lemma LockMove(s: State, s': State, t: Tid, p: PC)
    requires LockInv(s) && t in s.pc && s'.pc == s.pc[t := p] && s'.lock == s.lock && s'.holder == s.holder
    requires LockClass(p) == LockClass(s.pc[t]) && (s.pc[t].Want? ==> p.Want?)
    ensures LockInv(s')
  {
    if SomeoneWants(s) { StillWanted(s, s', t, p); }
    assert LockClass(p).0 == Inside(s.pc[t]) && LockClass(p).1 == Marked(s.pc[t]) && LockClass(p).2 == s.pc[t].Asleep?;
    assert Insiders(s') == Insiders(s);
  }

  /** t moves to p and nothing the waiters' invariant looks at changes. */
  lemma WaitMove(s: State, s': State, t: Tid, p: PC)
    requires OwnerInv(s) && WaitInv(s) && t in s.pc && s'.pc == s.pc[t := p]
    requires s'.waitQueue == s.waitQueue && s'.waiters == s.waiters && s'.fresh_ == s.fresh_
    requires WaitClass(p) == WaitClass(s.pc[t])
    ensures OwnerInv(s') && WaitInv(s')
  {
    var c := WaitClass(p);
    assert c.0 == WidOf(s.pc[t]) && c.1 == BeforeP(s.pc[t]) && c.2 == s.pc[t].Dozing?;
    assert c.3 == if s.pc[t].Posting? then Some(s.pc[t].waiter) else None;
    forall w | w in s.waiters
      ensures WaiterInv(s', w)
    {
      SamePending(s, s', t, p, w);
      assert WaiterInv(s, w);
    }
  }

  lemma SamePending(s: State, s': State, t: Tid, p: PC, w: Wid)
    requires t in s.pc && s'.pc == s.pc[t := p]
    requires (p.Posting? && p.waiter == w) <==> (s.pc[t].Posting? && s.pc[t].waiter == w)
    ensures PostPending(s', w) == PostPending(s, w)
  {
    if PostPending(s, w) {
      var u :| u in s.pc && s.pc[u].Posting? && s.pc[u].waiter == w;
      assert s'.pc[u].Posting? && s'.pc[u].waiter == w;
    }
  }

  /** t moves to p with no loss of credit, list and waitQueue staying as they are. */
  lemma ListMove(s: State, s': State, t: Tid, p: PC)
    requires ListInv(s) && t in s.pc && s'.pc == s.pc[t := p] && s'.waitQueue == s.waitQueue
    requires s'.list == s.list && s'.appended == s.appended && s'.removed == s.removed
    requires p == Taking ==> s.list != []
    requires p == Enrolling ==> s.list == []
    requires Credit(s, s.pc[t]) ==> Credit(s, p) || s.waitQueue == [] || s.list == []
    ensures ListInv(s')
  {
    if s.waitQueue != [] && s.list != [] {
      if Credit(s, p) && t !in Creditors(s) {
        assert Creditors(s') == Creditors(s) + {t};
      } else {
        assert Creditors(s') == Creditors(s);
      }
    }
  }

  // ---- one lemma per kind of step -------------------------------------------

  lemma CallKeeps(s: State, t: Tid, goal: Goal)
    requires Inv(s) && t in s.pc && s.pc[t] == Outside && !goal.ToResume?
    ensures Inv(s.(pc := s.pc[t := Want(goal)]))
  {
    var s' := s.(pc := s.pc[t := Want(goal)]);
    LockMove(s, s', t, Want(goal));
    WaitMove(s, s', t, Want(goal));
    ListMove(s, s', t, Want(goal));
  }

  lemma SleepLock(s: State, t: Tid, goal: Goal)
    requires LockInv(s) && t in s.pc && s.pc[t] == Want(goal) && s.lock.value == 0
    ensures LockInv(LockP(s, t, goal))
  {
    assert Insiders(LockP(s, t, goal)) == Insiders(s);
  }

  lemma EnterLock(s: State, t: Tid, goal: Goal)
    requires LockInv(s) && t in s.pc && s.pc[t] == Want(goal) && s.lock.value > 0
    ensures LockInv(LockP(s, t, goal))
  {
    assert Insiders(s) == {};
    assert Insiders(LockP(s, t, goal)) == {t};
    forall u | u in s.pc
      ensures !Marked(s.pc[u])
    {
      assert u !in Insiders(s);
    }
  }

  lemma LockSleepKeeps(s: State, t: Tid, goal: Goal)
    requires Inv(s) && t in s.pc && s.pc[t] == Want(goal) && s.lock.value == 0
    ensures Inv(LockP(s, t, goal))
  {
    var s' := LockP(s, t, goal);
    SleepLock(s, t, goal);
    WaitMove(s, s', t, Asleep(goal));
    ListMove(s, s', t, Asleep(goal));
  }

  lemma LockEnterKeeps(s: State, t: Tid, goal: Goal)
    requires Inv(s) && t in s.pc && s.pc[t] == Want(goal) && s.lock.value > 0
    ensures Inv(LockP(s, t, goal))
  {
    var s' := LockP(s, t, goal);
    EnterLock(s, t, goal);
    WaitMove(s, s', t, Got(goal));
    ListMove(s, s', t, Got(goal));
  }

  lemma LockPKeeps(s: State, t: Tid, goal: Goal)
    requires Inv(s) && t in s.pc && s.pc[t] == Want(goal)
    ensures Inv(LockP(s, t, goal))
  {
    if s.lock.value == 0 { LockSleepKeeps(s, t, goal); } else { LockEnterKeeps(s, t, goal); }
  }

  lemma HoldLock(s: State, t: Tid, s': State, p: PC)
    requires LockInv(s) && t in s.pc && s.pc[t].Got? && s'.lock == s.lock && s'.holder == Some(t)
             && s'.pc == s.pc[t := p]
    requires Marked(p)
    ensures LockInv(s')
  {
    if SomeoneWants(s) { StillWanted(s, s', t, p); }
    assert Insiders(s') == Insiders(s);
    forall u | u in s.pc && Inside(s.pc[u])
      ensures u == t
    {
      AloneInside(s, t, u);
    }
  }

  lemma HoldKeeps(s: State, t: Tid, goal: Goal)
    requires Inv(s) && t in s.pc && s.pc[t] == Got(goal)
    ensures Inv(s.(holder := Some(t), pc := s.pc[t := AfterAcquire(goal)]))
  {
    var p := AfterAcquire(goal);
    var s' := s.(holder := Some(t), pc := s.pc[t := p]);
    HoldLock(s, t, s', p);
    WaitMove(s, s', t, p);
    ListMove(s, s', t, p);
  }

  lemma ClearLock(s: State, t: Tid, s': State, p: PC)
    requires LockInv(s) && t in s.pc && Marked(s.pc[t]) && s'.lock == s.lock && s'.holder == None
             && s'.pc == s.pc[t := p]
    requires Inside(p) && !Marked(p)
    ensures LockInv(s')
  {
    if SomeoneWants(s) { StillWanted(s, s', t, p); }
    assert Insiders(s') == Insiders(s);
  }

  /** The two places of Release, and where they lead. */
  predicate AtClear(p: PC, q: PC) {
    (p.Leaving? && q == Freeing(p.waiter)) || (p == Releasing && q == Unlocking)
  }

  predicate AtUnlock(p: PC, q: PC) {
    (p.Freeing? && q == Waiting(p.waiter)) || (p == Unlocking && q == Outside)
  }

  lemma ClearClasses(p: PC, q: PC)
    requires AtClear(p, q)
    ensures Marked(p) && Inside(q) && !Marked(q) && WaitClass(p) == WaitClass(q) && q != Taking && q != Enrolling
    ensures forall s :: !Credit(s, p)
  {
  }

  lemma UnlockClasses(p: PC, q: PC)
    requires AtUnlock(p, q)
    ensures Inside(p) && !Marked(p) && !p.Asleep? && !Inside(q) && !q.Asleep? && WaitClass(p) == WaitClass(q)
    ensures q != Taking && q != Enrolling && forall s :: !Credit(s, p)
  {
  }

  lemma ClearKeeps(s: State, t: Tid, p: PC)
    requires Inv(s) && t in s.pc && AtClear(s.pc[t], p)
    ensures Inv(s.(holder := None, pc := s.pc[t := p]))
  {
    var s' := s.(holder := None, pc := s.pc[t := p]);
    ClearClasses(s.pc[t], p);
    ClearLock(s, t, s', p);
    WaitMove(s, s', t, p);
    ListMove(s, s', t, p);
  }

  lemma UnlockLock(s: State, t: Tid, p: PC)
    requires LockInv(s) && t in s.pc && Inside(s.pc[t]) && !Marked(s.pc[t]) && !Inside(p) && !p.Asleep?
    ensures LockInv(LockV(s, t, p))
  {
    var s' := LockV(s, t, p);
    forall u | u in s.pc && Inside(s.pc[u])
      ensures u == t && s.lock.value == 0
    {
      AloneInside(s, t, u);
    }
    assert Insiders(s') == {};
    if s.lock.queue != [] {
      var u := s.lock.queue[0];
      assert u in s.lock.queue && s'.pc[u].Want?;
      assert s.lock.queue == [u] + s.lock.queue[1..];
    }
  }

  lemma LockVWait(s: State, t: Tid, p: PC)
    requires OwnerInv(s) && WaitInv(s) && t in s.pc && WaitClass(p) == WaitClass(s.pc[t])
    requires s.lock.queue != [] ==> s.lock.queue[0] in s.pc && s.pc[s.lock.queue[0]].Asleep? && s.lock.queue[0] != t
    ensures OwnerInv(LockV(s, t, p)) && WaitInv(LockV(s, t, p))
  {
    var s' := LockV(s, t, p);
    if s.lock.queue != [] {
      var u := s.lock.queue[0];
      var mid := s.(pc := s.pc[u := Woken(s.pc[u])]);
      WaitMove(s, mid, u, Woken(s.pc[u]));
      WaitMove(mid, s', t, p);
    } else {
      WaitMove(s, s', t, p);
    }
  }

  lemma LockVList(s: State, t: Tid, p: PC)
    requires ListInv(s) && t in s.pc && !Credit(s, s.pc[t]) && p != Taking && p != Enrolling
    requires s.lock.queue != [] ==> s.lock.queue[0] in s.pc && s.pc[s.lock.queue[0]].Asleep? && s.lock.queue[0] != t
    ensures ListInv(LockV(s, t, p))
  {
    var s' := LockV(s, t, p);
    if s.lock.queue != [] {
      var u := s.lock.queue[0];
      var mid := s.(pc := s.pc[u := Woken(s.pc[u])]);
      ListMove(s, mid, u, Woken(s.pc[u]));
      ListMove(mid, s', t, p);
    } else {
      ListMove(s, s', t, p);
    }
  }

  lemma HeadSleeps(s: State, t: Tid)
    requires LockInv(s) && t in s.pc && !s.pc[t].Asleep?
    ensures s.lock.queue != [] ==> s.lock.queue[0] in s.pc && s.pc[s.lock.queue[0]].Asleep? && s.lock.queue[0] != t
  {
    if s.lock.queue != [] { assert s.lock.queue[0] in s.lock.queue; }
  }

  lemma LockVKeeps(s: State, t: Tid, p: PC)
    requires Inv(s) && t in s.pc && AtUnlock(s.pc[t], p)
    ensures Inv(LockV(s, t, p))
  {
    UnlockClasses(s.pc[t], p);
    HeadSleeps(s, t);
    UnlockLock(s, t, p);
    LockVWait(s, t, p);
    LockVList(s, t, p);
  }

  lemma AppendList(s: State, t: Tid, x: Item, s': State)
    requires ListInv(s) && t in s.pc && s.pc[t] == Appending(x)
    requires forall u | u in s.pc :: s.pc[u] != Enrolling
    requires s' == s.(list := s.list + [x], appended := s.appended + [x], pc := s.pc[t := Signalling])
    ensures ListInv(s')
  {
    assert s'.appended == s'.removed + s'.list;
    assert Creditors(s') == Creditors(s) + {t};
  }

  lemma AppendKeeps(s: State, t: Tid, x: Item)
    requires Inv(s) && t in s.pc && s.pc[t] == Appending(x)
    ensures Inv(s.(list := s.list + [x], appended := s.appended + [x], pc := s.pc[t := Signalling]))
  {
    var s' := s.(list := s.list + [x], appended := s.appended + [x], pc := s.pc[t := Signalling]);
    LockMove(s, s', t, Signalling);
    WaitMove(s, s', t, Signalling);
    forall u | u in s.pc
      ensures s.pc[u] != Enrolling
    {
      if Inside(s.pc[u]) { AloneInside(s, t, u); }
    }
    AppendList(s, t, x, s');
  }

  /** What a step must leave alone for the facts about waiter v to carry over. */
  lemma WaiterFrame(s: State, s': State, v: Wid)
    requires v in s.waiters && v in s'.waiters && s'.waiters[v] == s.waiters[v]
    requires s.waiters[v].owner in s.pc && s.waiters[v].owner in s'.pc && WaiterInv(s, v)
    requires BeforeP(s'.pc[s.waiters[v].owner]) == BeforeP(s.pc[s.waiters[v].owner])
    requires s'.pc[s.waiters[v].owner].Dozing? == s.pc[s.waiters[v].owner].Dozing?
    requires v in s'.waitQueue <==> v in s.waitQueue
    requires PostPending(s', v) == PostPending(s, v)
    ensures WaiterInv(s', v)
  {
  }

  lemma SignalCredit(s: State, t: Tid, again: bool, w: Wid, o: Tid)
    requires t in s.pc && (s.pc[t] == Signalling || s.pc[t] == Broadcasting)
    requires s.waitQueue != [] && s.waitQueue[0] == w && w !in s.waitQueue[1..]
    requires o in s.pc && (s.pc[o] == Waiting(w) || s.pc[o] == Dozing(w))
    requires forall u | u in s.pc && u != o :: WidOf(s.pc[u]) != Some(w)
    ensures Creditors(Signal(s, t, again)) == Creditors(s) - {t} + {o} && o !in Creditors(s) && o != t
  {
    var s' := Signal(s, t, again);
    assert s.waitQueue == [w] + s.waitQueue[1..];
    forall u | u in s.pc && u != t && u != o
      ensures Credit(s', s.pc[u]) == Credit(s, s.pc[u])
    {
    }
  }

  /** Taking a waiter off waitQueue hands the signaller's credit to the waiter's thread. */
  lemma SignalList(s: State, t: Tid, again: bool, w: Wid, o: Tid)
    requires ListInv(s) && t in s.pc && (s.pc[t] == Signalling || s.pc[t] == Broadcasting)
    requires s.waitQueue != [] && s.waitQueue[0] == w && w !in s.waitQueue[1..]
    requires o in s.pc && (s.pc[o] == Waiting(w) || s.pc[o] == Dozing(w))
    requires forall u | u in s.pc && u != o :: WidOf(s.pc[u]) != Some(w)
    ensures ListInv(Signal(s, t, again))
  {
    SignalCredit(s, t, again, w, o);
  }

  lemma SignalWait(s: State, t: Tid, again: bool, w: Wid)
    requires OwnerInv(s) && WaitInv(s) && t in s.pc && (s.pc[t] == Signalling || s.pc[t] == Broadcasting)
    requires s.waitQueue != [] && s.waitQueue[0] == w
    ensures OwnerInv(Signal(s, t, again)) && WaitInv(Signal(s, t, again)) && w !in s.waitQueue[1..]
  {
    var s' := Signal(s, t, again);
    assert s.waitQueue == [w] + s.waitQueue[1..];
    assert s'.pc[t].Posting? && s'.pc[t].waiter == w;
    assert PostPending(s', w);
    forall v | v in s.waiters
      ensures WaiterInv(s', v)
    {
      assert WaiterInv(s, v) && s.waiters[v].owner != t;
      if v != w {
        SamePending(s, s', t, s'.pc[t], v);
        WaiterFrame(s, s', v);
      }
    }
  }

  /** The owner of a waiter on waitQueue is outside the lock whenever somebody else is inside. */
  lemma OwnerOutside(s: State, t: Tid, w: Wid)
    requires Inv(s) && t in s.pc && (s.pc[t] == Signalling || s.pc[t] == Broadcasting) && w in s.waitQueue
    ensures w in s.waiters && s.waiters[w].owner in s.pc
    ensures s.pc[s.waiters[w].owner] == Waiting(w) || s.pc[s.waiters[w].owner] == Dozing(w)
    ensures forall u | u in s.pc && u != s.waiters[w].owner :: WidOf(s.pc[u]) != Some(w)
  {
    var o := s.waiters[w].owner;
    assert WaiterInv(s, w);
    if Inside(s.pc[o]) { AloneInside(s, t, o); }
  }

  lemma SignalNobody(s: State, t: Tid, again: bool)
    requires Inv(s) && t in s.pc && (s.pc[t] == Signalling || s.pc[t] == Broadcasting) && s.waitQueue == []
    ensures Inv(Signal(s, t, again))
  {
    var s' := Signal(s, t, again);
    LockMove(s, s', t, Releasing);
    WaitMove(s, s', t, Releasing);
    ListMove(s, s', t, Releasing);
  }

  lemma SignalSomebody(s: State, t: Tid, again: bool)
    requires Inv(s) && t in s.pc && (s.pc[t] == Signalling || s.pc[t] == Broadcasting) && s.waitQueue != []
    ensures Inv(Signal(s, t, again))
  {
    var w := s.waitQueue[0];
    LockMove(s, Signal(s, t, again), t, Posting(w, again));
    SignalWait(s, t, again, w);
    OwnerOutside(s, t, w);
    SignalList(s, t, again, w, s.waiters[w].owner);
  }

  lemma SignalKeeps(s: State, t: Tid, again: bool)
    requires Inv(s) && t in s.pc && (s.pc[t] == Signalling || s.pc[t] == Broadcasting)
    ensures Inv(Signal(s, t, again))
  {
    if s.waitQueue == [] { SignalNobody(s, t, again); } else { SignalSomebody(s, t, again); }
  }

  /** A thread about to V a waiter, all alone inside. */
  predicate Poster(s: State, t: Tid, w: Wid, o: Tid) {
    && t in s.pc && s.pc[t].Posting? && s.pc[t].waiter == w
    && (forall u | u in s.pc && s.pc[u].Posting? :: u == t)
    && w in s.waiters && o == s.waiters[w].owner && o in s.pc && o != t
    && s.waiters[w].sem == Semaphore(0, if s.pc[o].Dozing? then [o] else []) && s.waiters[w].posts == 0
    && BeforeP(s.pc[o]) && w !in s.waitQueue && WidOf(s.pc[o]) == Some(w)
  }

  lemma Posted(s: State, t: Tid, w: Wid, p: PC, o: Tid)
    requires Poster(s, t, w, o) && (p == Broadcasting || p == Releasing)
    ensures var s' := WaiterV(s, t, w, p);
            && s'.waitQueue == s.waitQueue && s'.fresh_ == s.fresh_
            && s'.pc == s.pc[t := p][o := if s.pc[o].Dozing? then Waiting(w) else s.pc[o]]
            && s'.waiters == s.waiters[w := Waiter(Semaphore(1, []), o, 1)]
  {
    assert s.pc[o].Dozing? ==> s.pc[o] == Dozing(w);
    assert [o][1..] == [];
  }

  lemma PostOwner(s: State, t: Tid, w: Wid, p: PC, o: Tid)
    requires OwnerInv(s) && Poster(s, t, w, o) && (p == Broadcasting || p == Releasing)
    ensures OwnerInv(WaiterV(s, t, w, p))
  {
    Posted(s, t, w, p, o);
  }

  /** The pending V happens: the value goes from 0 to 1, and a dozing owner is woken. */
  lemma PostWait(s: State, t: Tid, w: Wid, p: PC, o: Tid)
    requires OwnerInv(s) && WaitInv(s) && Poster(s, t, w, o) && (p == Broadcasting || p == Releasing)
    ensures WaitInv(WaiterV(s, t, w, p))
  {
    var s' := WaiterV(s, t, w, p);
    Posted(s, t, w, p, o);
    assert forall u | u in s'.pc :: !s'.pc[u].Posting?;
    forall v | v in s.waiters && v != w
      ensures WaiterInv(s', v)
    {
      assert WaiterInv(s, v) && s.waiters[v].owner != o && s.waiters[v].owner != t;
      assert !PostPending(s, v) && !PostPending(s', v);
      WaiterFrame(s, s', v);
    }
    assert WaiterInv(s', w);
  }

  lemma PostLock(s: State, t: Tid, w: Wid, p: PC, o: Tid)
    requires LockInv(s) && Poster(s, t, w, o) && (p == Broadcasting || p == Releasing)
    ensures LockInv(WaiterV(s, t, w, p))
  {
    Posted(s, t, w, p, o);
    var q := if s.pc[o].Dozing? then Waiting(w) else s.pc[o];
    var mid := s.(pc := s.pc[t := p]);
    LockMove(s, mid, t, p);
    LockMove(mid, WaiterV(s, t, w, p), o, q);
  }

  lemma PostList(s: State, t: Tid, w: Wid, p: PC, o: Tid)
    requires ListInv(s) && Poster(s, t, w, o) && (p == Broadcasting || p == Releasing)
    ensures ListInv(WaiterV(s, t, w, p))
  {
    Posted(s, t, w, p, o);
    var q := if s.pc[o].Dozing? then Waiting(w) else s.pc[o];
    var mid := s.(pc := s.pc[t := p]);
    ListMove(s, mid, t, p);
    ListMove(mid, WaiterV(s, t, w, p), o, q);
  }

  lemma IsPoster(s: State, t: Tid, w: Wid)
    requires Inv(s) && t in s.pc && s.pc[t].Posting? && s.pc[t].waiter == w
    ensures w in s.waiters && Poster(s, t, w, s.waiters[w].owner)
  {
    assert WaiterInv(s, w) && PostPending(s, w);
    forall u | u in s.pc && s.pc[u].Posting?
      ensures u == t
    {
      AloneInside(s, t, u);
    }
  }

  lemma PostKeeps(s: State, t: Tid, w: Wid, p: PC)
    requires Inv(s) && t in s.pc && s.pc[t].Posting? && s.pc[t].waiter == w && (p == Broadcasting || p == Releasing)
    ensures Inv(WaiterV(s, t, w, p))
  {
    IsPoster(s, t, w);
    var o := s.waiters[w].owner;
    PostOwner(s, t, w, p, o);
    PostWait(s, t, w, p, o);
    PostLock(s, t, w, p, o);
    PostList(s, t, w, p, o);
  }

  lemma TestKeeps(s: State, t: Tid, p: PC)
    requires Inv(s) && t in s.pc && s.pc[t] == Testing && p == (if s.list == [] then Enrolling else Taking)
    ensures Inv(s.(pc := s.pc[t := p]))
  {
    var s' := s.(pc := s.pc[t := p]);
    LockMove(s, s', t, p);
    WaitMove(s, s', t, p);
    ListMove(s, s', t, p);
  }

  function Enrolled(s: State, t: Tid): State {
    s.(waiters := s.waiters[s.fresh_ := Waiter(Semaphore(0, []), t, 0)], fresh_ := s.fresh_ + 1,
       waitQueue := s.waitQueue + [s.fresh_], pc := s.pc[t := Leaving(s.fresh_)])
  }

  lemma EnrolOwner(s: State, t: Tid)
    requires OwnerInv(s) && t in s.pc && s.pc[t] == Enrolling
    ensures OwnerInv(Enrolled(s, t)) && s.fresh_ !in s.waiters
    ensures forall w | w in s.waiters :: s.waiters[w].owner != t
  {
  }

  lemma EnrolWait(s: State, t: Tid)
    requires WaitInv(s) && t in s.pc && s.pc[t] == Enrolling && s.fresh_ !in s.waiters
    requires forall w | w in s.waiters :: s.waiters[w].owner != t
    ensures WaitInv(Enrolled(s, t))
  {
    var s', w := Enrolled(s, t), s.fresh_;
    assert w !in s.waitQueue;
    assert NoDup(s'.waitQueue);
    assert WaiterInv(s', w) by {
      SamePending(s, s', t, Leaving(w), w);
      assert !PostPending(s, w);
    }
    forall v | v in s.waiters
      ensures WaiterInv(s', v)
    {
      assert WaiterInv(s, v);
      SamePending(s, s', t, Leaving(w), v);
      WaiterFrame(s, s', v);
    }
  }

  lemma EnrolKeeps(s: State, t: Tid)
    requires Inv(s) && t in s.pc && s.pc[t] == Enrolling
    ensures Inv(Enrolled(s, t))
  {
    EnrolOwner(s, t);
    EnrolWait(s, t);
    LockMove(s, Enrolled(s, t), t, Leaving(s.fresh_));
  }

  lemma WaiterPOwner(s: State, t: Tid, w: Wid)
    requires OwnerInv(s) && t in s.pc && s.pc[t] == Waiting(w) && w in s.waiters && s.waiters[w].owner == t
    ensures OwnerInv(WaiterP(s, t, w))
  {
    assert WidOf(WaiterP(s, t, w).pc[t]) == Some(w);
  }

  lemma WaiterPWait(s: State, t: Tid, w: Wid)
    requires OwnerInv(s) && WaitInv(s) && t in s.pc && s.pc[t] == Waiting(w) && w in s.waiters
             && s.waiters[w].owner == t
    ensures WaitInv(WaiterP(s, t, w))
  {
    var s' := WaiterP(s, t, w);
    var p := s'.pc[t];
    assert s'.pc == s.pc[t := p] && !p.Posting?;
    assert WaiterInv(s', w) by {
      assert WaiterInv(s, w);
      SamePending(s, s', t, p, w);
    }
    forall v | v in s.waiters && v != w
      ensures WaiterInv(s', v)
    {
      assert WaiterInv(s, v) && s.waiters[v].owner != t;
      SamePending(s, s', t, p, v);
      WaiterFrame(s, s', v);
    }
  }

  lemma WaiterPRest(s: State, t: Tid, w: Wid, p: PC, s': State)
    requires LockInv(s) && ListInv(s) && t in s.pc && s.pc[t] == Waiting(w) && s'.pc == s.pc[t := p]
    requires p == Dozing(w) || (p == Want(ToResume(w)) && w !in s.waitQueue)
    requires s' == s.(waiters := s'.waiters, pc := s'.pc)
    ensures LockInv(s') && ListInv(s')
  {
    LockMove(s, s', t, p);
    ListMove(s, s', t, p);
  }

  lemma WaiterPKeeps(s: State, t: Tid, w: Wid)
    requires Inv(s) && t in s.pc && s.pc[t] == Waiting(w) && w in s.waiters
    ensures Inv(WaiterP(s, t, w))
  {
    assert s.waiters[w].owner == t by { assert WidOf(s.pc[t]) == Some(w); }
    assert s.waiters[w].sem.value > 0 ==> w !in s.waitQueue by { assert WaiterInv(s, w); }
    WaiterPOwner(s, t, w);
    WaiterPWait(s, t, w);
    WaiterPRest(s, t, w, WaiterP(s, t, w).pc[t], WaiterP(s, t, w));
  }

  function Dropped(s: State, t: Tid, w: Wid): State {
    s.(waiters := s.waiters - {w}, pc := s.pc[t := Testing])
  }

  lemma DropWaiter(s: State, t: Tid, w: Wid, v: Wid)
    requires OwnerInv(s) && WaitInv(s) && t in s.pc && s.pc[t] == Dropping(w) && v in s.waiters && v != w
    ensures WaiterInv(Dropped(s, t, w), v)
  {
    SamePending(s, Dropped(s, t, w), t, Testing, v);
    assert WaiterInv(s, v);
  }

  lemma DropOwner(s: State, t: Tid, w: Wid)
    requires OwnerInv(s) && t in s.pc && s.pc[t] == Dropping(w)
    ensures OwnerInv(Dropped(s, t, w))
  {
    assert WidOf(s.pc[t]) == Some(w);
  }

  lemma DropWait(s: State, t: Tid, w: Wid)
    requires OwnerInv(s) && WaitInv(s) && t in s.pc && s.pc[t] == Dropping(w)
    ensures WaitInv(Dropped(s, t, w))
  {
    var s' := Dropped(s, t, w);
    assert WidOf(s.pc[t]) == Some(w) && WaiterInv(s, w);
    forall v | v in s'.waiters
      ensures WaiterInv(s', v)
    {
      DropWaiter(s, t, w, v);
    }
  }

  lemma DropKeeps(s: State, t: Tid, w: Wid)
    requires Inv(s) && t in s.pc && s.pc[t] == Dropping(w)
    ensures Inv(s.(waiters := s.waiters - {w}, pc := s.pc[t := Testing]))
  {
    var s' := s.(waiters := s.waiters - {w}, pc := s.pc[t := Testing]);
    DropOwner(s, t, w);
    DropWait(s, t, w);
    LockMove(s, s', t, Testing);
    ListMove(s, s', t, Testing);
  }

  lemma TakeList(s: State, t: Tid, s': State)
    requires ListInv(s) && t in s.pc && s.pc[t] == Taking && s.list != []
    requires forall u | u in s.pc && (s.pc[u] == Taking || s.pc[u] == Enrolling) :: u == t
    requires s' == s.(list := s.list[1..], removed := s.removed + [s.list[0]], pc := s.pc[t := Releasing])
    ensures ListInv(s')
  {
    assert s.list == [s.list[0]] + s.list[1..];
    assert s'.removed + s'.list == s.removed + s.list;
    assert Creditors(s') == Creditors(s) - {t};
  }

  lemma TakeKeeps(s: State, t: Tid)
    requires Inv(s) && t in s.pc && s.pc[t] == Taking && s.list != []
    ensures Inv(s.(list := s.list[1..], removed := s.removed + [s.list[0]], pc := s.pc[t := Releasing]))
  {
    var s' := s.(list := s.list[1..], removed := s.removed + [s.list[0]], pc := s.pc[t := Releasing]);
    LockMove(s, s', t, Releasing);
    WaitMove(s, s', t, Releasing);
    forall u | u in s.pc && (s.pc[u] == Taking || s.pc[u] == Enrolling)
      ensures u == t
    {
      AloneInside(s, t, u);
    }
    TakeList(s, t, s');
  }

  /** Every step, by any thread, keeps the invariant. */
  lemma NextKeepsInv(s: State, step: Step)
    requires Inv(s) && Enabled(s, step) && Safe(s, step)
    ensures Inv(Next(s, step))
  {
    match step
    case Call(t, goal) => CallKeeps(s, t, goal);
    case Run(t) =>
      match s.pc[t]
      case Want(goal) => LockPKeeps(s, t, goal);
      case Got(goal) => HoldKeeps(s, t, goal);
      case Appending(x) => AppendKeeps(s, t, x);
      case Signalling => SignalKeeps(s, t, false);
      case Broadcasting => SignalKeeps(s, t, true);
      case Posting(w, again) => PostKeeps(s, t, w, if again then Broadcasting else Releasing);
      case Testing => TestKeeps(s, t, if s.list == [] then Enrolling else Taking);
      case Enrolling => EnrolKeeps(s, t);
      case Leaving(w) => ClearKeeps(s, t, Freeing(w));
      case Freeing(w) => LockVKeeps(s, t, Waiting(w));
      case Waiting(w) => WaiterPKeeps(s, t, w);
      case Dropping(w) => DropKeeps(s, t, w);
      case Taking => TakeKeeps(s, t);
      case Releasing => ClearKeeps(s, t, Unlocking);
      case Unlocking => LockVKeeps(s, t, Outside);
      case _ =>
  }

  // ---- every run ------------------------------------------------------------

  /** A run: any interleaving of enabled steps.  A step that is not Safe would stop the kernel. */
  predicate IsRun(states: seq<State>, steps: seq<Step>) {
    && |states| == |steps| + 1 && Init(states[0])
    && forall i | 0 <= i < |steps| ::
         && Enabled(states[i], steps[i])
         && (Safe(states[i], steps[i]) ==> states[i + 1] == Next(states[i], steps[i]))
  }

  /** In every interleaving of any number of threads every state satisfies the invariant and no
      ASSERT fires, no list is popped empty, no deleted semaphore is touched. */
  lemma {:induction false} EveryRun(states: seq<State>, steps: seq<Step>, i: nat)
    requires IsRun(states, steps) && i < |states|
    ensures states[i].appended == states[i].removed + states[i].list
    ensures Inv(states[i]) && (i < |steps| ==> Safe(states[i], steps[i]))
  {
    if i == 0 {
      InitInv(states[0]);
    } else {
      EveryRun(states, steps, i - 1);
      NextKeepsInv(states[i - 1], steps[i - 1]);
    }
    if i < |steps| {
      InvIsSafe(states[i], steps[i]);
    }
  }

  /** IsHeldByCurrentThread is never wrongly true, and the holder is alone. */
  lemma HolderIsAloneInside(s: State, t: Tid, u: Tid)
    requires Inv(s) && t in s.pc && u in s.pc && s.holder == Some(t)
    ensures Inside(s.pc[t]) && s.lock.value == 0 && (Inside(s.pc[u]) ==> u == t)
  {
    AloneInside(s, t, t);
    if Inside(s.pc[u]) { AloneInside(s, t, u); }
  }

  /** Waiters taken off waitQueue that have not got the lock back yet. */
  function Signalled(s: State): set<Tid> {
    set t | t in s.pc && WidOf(s.pc[t]).Some? && !Inside(s.pc[t]) && WidOf(s.pc[t]).value !in s.waitQueue
  }

  lemma FreeMeansEmpty(s: State)
    requires LockInv(s) && s.lock.value > 0
    ensures forall u | u in s.pc :: !Inside(s.pc[u])
  {
    forall u | u in s.pc
      ensures !Inside(s.pc[u])
    {
      if Inside(s.pc[u]) { AloneInside(s, u, u); }
    }
  }

  /** With the lock free, a thread asleep on its waiter is still on waitQueue. */
  lemma DozersAreQueued(s: State, t: Tid)
    requires OwnerInv(s) && WaitInv(s) && t in s.pc && s.pc[t].Dozing? && forall u | u in s.pc :: !Inside(s.pc[u])
    ensures s.pc[t].waiter in s.waitQueue
  {
    assert WidOf(s.pc[t]) == Some(s.pc[t].waiter);
    assert WaiterInv(s, s.pc[t].waiter);
  }

  lemma FreeCredit(s: State)
    requires forall u | u in s.pc :: !Inside(s.pc[u])
    ensures Creditors(s) == Signalled(s)
  {
  }

  /** No lost wakeup: with waiters left on waitQueue, the items on the list are covered by waiters
      already signalled, by an appender about to signal and by a thread inside on its way to taking
      one; with the lock free, by signalled waiters alone, none asleep on its own semaphore. */
  lemma NoLostSignal(s: State)
    requires Inv(s) && s.waitQueue != []
    ensures |s.list| <= |Creditors(s)|
    ensures s.lock.value > 0 ==> |s.list| <= |Signalled(s)|
    ensures s.lock.value > 0 ==> forall t | t in Signalled(s) :: !s.pc[t].Dozing?
  {
    if s.lock.value > 0 {
      FreeMeansEmpty(s);
      FreeCredit(s);
      forall t | t in s.pc && s.pc[t].Dozing?
        ensures t !in Signalled(s)
      {
        DozersAreQueued(s, t);
      }
    }
  }

  /** If no thread can take a step, then nobody is waiting for the lock, and threads waiting for an
      item wait because there is none. */
  lemma StuckOnlyWhenEmpty(s: State)
    requires Inv(s) && forall t | t in s.pc :: s.pc[t] == Outside || s.pc[t].Asleep? || s.pc[t].Dozing?
    ensures s.lock.value == 1 && s.lock.queue == []
    ensures forall t | t in s.pc && s.pc[t] != Outside :: s.pc[t].Dozing? && s.list == []
  {
    StuckLock(s);
    forall t | t in s.pc && s.pc[t] != Outside
      ensures s.pc[t].Dozing? && s.list == []
    {
      DozersAreQueued(s, t);
      NoLostSignal(s);
      assert Signalled(s) == {};
    }
  }

  lemma StuckLock(s: State)
    requires LockInv(s) && forall t | t in s.pc :: s.pc[t] == Outside || s.pc[t].Asleep? || s.pc[t].Dozing?
    ensures s.lock.value == 1 && s.lock.queue == []
    ensures forall u | u in s.pc :: !Inside(s.pc[u]) && !s.pc[u].Asleep?
  {
    assert Insiders(s) == {};
    assert !SomeoneWants(s);
  }

  /** While a thread broadcasts nobody joins or leaves waitQueue but through it: each pass takes one
      waiter off, and the loop ends with waitQueue empty. */
  lemma BroadcastDrains(s: State, t: Tid, step: Step)
    requires Inv(s) && t in s.pc && (s.pc[t] == Broadcasting || (s.pc[t].Posting? && s.pc[t].again))
    requires Enabled(s, step) && Safe(s, step)
    ensures var s' := Next(s, step);
            && (step.t != t || s.pc[t].Posting? ==> s'.waitQueue == s.waitQueue)
            && (step.t == t && s.pc[t] == Broadcasting && s.waitQueue != [] ==> s'.waitQueue == s.waitQueue[1..])
            && (step.t == t && s'.pc[t] == Releasing ==> s'.waitQueue == [])
            && (step.t == t ==>
                  s'.pc[t] == Releasing || s'.pc[t] == Broadcasting || (s'.pc[t].Posting? && s'.pc[t].again))
  {
    if step.t != t && Inside(s.pc[step.t]) {
      AloneInside(s, t, step.t);
    }
  }

  /** One step of a run. */
  lemma RunStep(states: seq<State>, steps: seq<Step>, k: nat) returns (s: State)
    requires IsRun(states, steps) && k < |steps|
    ensures s == states[k] && LockInv(s)
    ensures Enabled(s, steps[k]) && Safe(s, steps[k]) && states[k + 1] == Next(s, steps[k])
  {
    EveryRun(states, steps, k);
    s := states[k];
  }

  /** How many of the steps from i up to j are thread t's. */
  function OwnSteps(steps: seq<Step>, i: nat, j: nat, t: Tid): nat
    requires i <= j <= |steps|
  {
    if i == j then 0 else OwnSteps(steps, i, j - 1, t) + if steps[j - 1].t == t then 1 else 0
  }

  /** Where thread t is c own steps after it came to Broadcast's loop with n waiters on the queue. */
  predicate BroadcastAt(s: State, t: Tid, n: nat, c: nat) {
    && t in s.pc
    && if c == 2 * n + 1 then s.pc[t] == Releasing && s.waitQueue == []
       else if c % 2 == 0 then s.pc[t] == Broadcasting && 2 * |s.waitQueue| + c == 2 * n
       else s.pc[t].Posting? && s.pc[t].again && 2 * |s.waitQueue| + c + 1 == 2 * n
  }

  /** While a thread is inside, the steps of others leave it and waitQueue alone. */
  lemma OthersStep(s: State, step: Step, t: Tid)
    requires LockInv(s) && Enabled(s, step) && Safe(s, step) && t in s.pc && Inside(s.pc[t]) && step.t != t
    ensures Next(s, step).waitQueue == s.waitQueue && t in Next(s, step).pc && Next(s, step).pc[t] == s.pc[t]
  {
    if Inside(s.pc[step.t]) {
      AloneInside(s, t, step.t);
    }
  }

  lemma LoopStep(s: State, t: Tid, n: nat, c: nat)
    requires Enabled(s, Run(t)) && Safe(s, Run(t)) && s.pc[t] == Broadcasting
    requires c % 2 == 0 && 2 * |s.waitQueue| + c == 2 * n
    ensures BroadcastAt(Next(s, Run(t)), t, n, c + 1)
  {
  }

  lemma PostStep(s: State, t: Tid, n: nat, c: nat)
    requires Enabled(s, Run(t)) && Safe(s, Run(t)) && s.pc[t].Posting? && s.pc[t].again
    requires c % 2 == 1 && 2 * |s.waitQueue| + c + 1 == 2 * n
    ensures BroadcastAt(Next(s, Run(t)), t, n, c + 1)
  {
  }

  lemma BroadcastStep(s: State, step: Step, t: Tid, n: nat, c: nat)
    requires LockInv(s) && Enabled(s, step) && Safe(s, step) && BroadcastAt(s, t, n, c) && c <= 2 * n + 1
    requires step.t == t ==> c <= 2 * n
    ensures BroadcastAt(Next(s, step), t, n, if step.t == t then c + 1 else c)
  {
    if step.t != t {
      OthersStep(s, step, t);
    } else {
      assert step == Run(t);
      if c % 2 == 0 { LoopStep(s, t, n, c); } else { PostStep(s, t, n, c); }
    }
  }

  /** Broadcast terminates with an empty queue: in every run, of the thread's own steps, exactly 2n + 1 take it
      from the loop with n waiters to the Release behind it, whatever others do in between. */
  lemma {:induction false} BroadcastEnds(states: seq<State>, steps: seq<Step>, i: nat, j: nat, t: Tid)
    requires IsRun(states, steps) && i <= j < |states| && t in states[i].pc && states[i].pc[t] == Broadcasting
    requires OwnSteps(steps, i, j, t) <= 2 * |states[i].waitQueue| + 1
    ensures BroadcastAt(states[j], t, |states[i].waitQueue|, OwnSteps(steps, i, j, t))
    decreases j - i
  {
    if i < j {
      var s := RunStep(states, steps, j - 1);
      BroadcastEnds(states, steps, i, j - 1, t);
      var n, c, c' := |states[i].waitQueue|, OwnSteps(steps, i, j - 1, t), OwnSteps(steps, i, j, t);
      assert c' == if steps[j - 1].t == t then c + 1 else c;
      BroadcastStep(s, steps[j - 1], t, n, c);
      assert BroadcastAt(states[j], t, n, c');
    }
  }
}
