/** filesys/synchdisk.cc over machine/disk.cc, and PostOfficeOutput::Send over machine/network.cc: a lock,
    an asynchronous device that takes one request at a time, and a semaphore its interrupt handler Vs.
    Any number of threads; the handler runs at any time after the request.  `act` is what the device does
    with a request: it does it at once, only the completion comes later. */
module DeviceProtocol {
  import opened Sequences

  type Tid = nat

  /** A call of ReadSector, WriteSector or Send, and how many requests the device had taken by then. */
  datatype Call<O> = Called(op: O, since: nat)

  /** Where a thread is in the call; `at` is the number of its request. */
  datatype Place<O, R> =
    | Outside
    | AtLock(c: Call<O>)                         // in Acquire's P, about to test the lock's semaphore
    | AsleepLock(c: Call<O>)                     // on the queue of the lock's semaphore
    | Entered(c: Call<O>)                        // P has decremented; lockHolder is not set yet
    | Holding(c: Call<O>)                        // has the lock, about to make the request
    | AtWait(c: Call<O>, result: R, at: nat)     // has made the request, about to test the semaphore in P
    | Asleep(c: Call<O>, result: R, at: nat)     // on the queue of the semaphore
    | Served(c: Call<O>, result: R, at: nat)     // has passed P, about to Release
    | Leaving(c: Call<O>, result: R, at: nat)    // lockHolder cleared, about to V the lock
    | Finished(c: Call<O>, result: R, at: nat)   // has released the lock and returns

  datatype Semaphore = Semaphore(value: nat, queue: seq<Tid>)

  /** A request in the order the device took them. */
  datatype Entry<O, R> = Entry(thread: Tid, op: O, result: R)

  /** `owner` is whose request the device is working on, `credit` whose completion the semaphore's value is;
      `log` holds every request so far, and `completed` counts the interrupts. */
  datatype State<D, O, R> = State(
    places: map<Tid, Place<O, R>>, lock: Semaphore, holder: Option<Tid>, done: Semaphore, active: bool, device: D,
    owner: Option<Tid>, credit: Option<Tid>, start: D, log: seq<Entry<O, R>>, completed: nat)

  type Act<!D, !O, !R> = (D, O) -> (D, R)

  datatype Step<O> =
    | Enter(t: Tid, op: O)
    | TestLock(t: Tid)
    | SetHolder(t: Tid)
    | MakeRequest(t: Tid)
    | TestDone(t: Tid)
    | ClearHolder(t: Tid)
    | Unlock(t: Tid)
    | Return(t: Tid)
    | Interrupt               // the device's interrupt: active = FALSE and V

  predicate Init<D(==), O(==), R(==)>(s: State<D, O, R>) {
    && (forall t | t in s.places :: s.places[t] == Outside)
    && s.lock == Semaphore(1, []) && s.holder == None && s.done == Semaphore(0, []) && !s.active
    && s.owner == None && s.credit == None && s.device == s.start && s.log == [] && s.completed == 0
  }

  predicate Enabled<D, O, R>(s: State<D, O, R>, step: Step<O>) {
    match step
    case Enter(t, _) => t in s.places && s.places[t].Outside?
    case TestLock(t) => t in s.places && s.places[t].AtLock?
    case SetHolder(t) => t in s.places && s.places[t].Entered?
    case MakeRequest(t) => t in s.places && s.places[t].Holding?
    case TestDone(t) => t in s.places && s.places[t].AtWait?
    case ClearHolder(t) => t in s.places && s.places[t].Served?
    case Unlock(t) => t in s.places && s.places[t].Leaving?
    case Return(t) => t in s.places && s.places[t].Finished?
    case Interrupt => s.active
  }

  /** The ASSERT(!active) of the device, that of Release, and what V relies on: who is on a queue is asleep
      there. */
  predicate Safe<D, O, R>(s: State<D, O, R>, step: Step<O>)
    requires Enabled(s, step)
  {
    match step
    case MakeRequest(t) => !s.active
    case ClearHolder(t) => s.holder == Some(t)
    case Unlock(t) => s.lock.queue == [] || (s.lock.queue[0] in s.places && s.places[s.lock.queue[0]].AsleepLock?)
    case Interrupt => s.done.queue == [] || (s.done.queue[0] in s.places && s.places[s.done.queue[0]].Asleep?)
    case _ => true
  }

  function Next<D, O, R>(act: Act<D, O, R>, s: State<D, O, R>, step: Step<O>): State<D, O, R>
    requires Enabled(s, step) && Safe(s, step)
  {
    match step
    case Enter(t, op) => s.(places := s.places[t := AtLock(Called(op, |s.log|))])
    case TestLock(t) =>
      var c := s.places[t].c;
      if s.lock.value == 0 then s.(places := s.places[t := AsleepLock(c)], lock := s.lock.(queue := s.lock.queue + [t]))
      else s.(places := s.places[t := Entered(c)], lock := s.lock.(value := s.lock.value - 1))
    case SetHolder(t) => s.(places := s.places[t := Holding(s.places[t].c)], holder := Some(t))
    case MakeRequest(t) =>
      var c := s.places[t].c;
      var r := act(s.device, c.op);
      s.(places := s.places[t := AtWait(c, r.1, |s.log|)], active := true, device := r.0, owner := Some(t),
         log := s.log + [Entry(t, c.op, r.1)])
    case TestDone(t) =>
      var p := s.places[t];
      if s.done.value == 0 then
        s.(places := s.places[t := Asleep(p.c, p.result, p.at)], done := s.done.(queue := s.done.queue + [t]))
      else
        s.(places := s.places[t := Served(p.c, p.result, p.at)], done := s.done.(value := s.done.value - 1),
           credit := None)
    case ClearHolder(t) =>
      var p := s.places[t];
      s.(places := s.places[t := Leaving(p.c, p.result, p.at)], holder := None)
    case Unlock(t) =>
      var p := s.places[t];
      var s1 := s.(places := s.places[t := Finished(p.c, p.result, p.at)]);
      if s.lock.queue == [] then s1.(lock := s.lock.(value := s.lock.value + 1))
      else
        var u := s.lock.queue[0];
        s1.(places := s1.places[u := AtLock(s.places[u].c)], lock := Semaphore(s.lock.value + 1, s.lock.queue[1..]))
    case Return(t) => s.(places := s.places[t := Outside])
    case Interrupt =>
      var s1 := s.(active := false, owner := None, credit := s.owner, completed := s.completed + 1);
      if s.done.queue == [] then s1.(done := s.done.(value := s.done.value + 1))
      else
        var u := s.done.queue[0];
        var p := s.places[u];
        s1.(places := s.places[u := AtWait(p.c, p.result, p.at)],
            done := Semaphore(s.done.value + 1, s.done.queue[1..]))
  }

  // ---- the invariant --------------------------------------------------------

  /** lockHolder is set to the thread exactly here. */
  predicate Holds<O, R>(p: Place<O, R>) {
    p.Holding? || p.AtWait? || p.Asleep? || p.Served?
  }

  /** Between P's decrement in Acquire and V's increment in Release. */
  predicate Inside<O, R>(p: Place<O, R>) {
    Holds(p) || p.Entered? || p.Leaving?
  }

  /** The request has been made. */
  predicate Requested<O, R>(p: Place<O, R>) {
    p.AtWait? || p.Asleep? || p.Served? || p.Leaving? || p.Finished?
  }

  /** At most one thread is inside, and then the lock is taken. */
  predicate LockInv<D, O, R>(s: State<D, O, R>) {
    && s.lock.value <= 1
    && (s.lock.value == 1 ==> forall t | t in s.places :: !Inside(s.places[t]))
    && (s.lock.value == 0 ==> exists t | t in s.places :: Inside(s.places[t]))
    && (forall t, u | t in s.places && u in s.places && Inside(s.places[t]) && Inside(s.places[u]) :: t == u)
  }

  /** lockHolder is the thread that holds the lock, if one does. */
  predicate HolderInv<D, O, R>(s: State<D, O, R>) {
    && (forall t | t in s.places && Holds(s.places[t]) :: s.holder == Some(t))
    && (s.holder.Some? ==> s.holder.value in s.places && Holds(s.places[s.holder.value]))
  }

  /** The queues hold exactly the threads that sleep on them. */
  predicate QueueInv<D, O, R>(s: State<D, O, R>) {
    && NoDup(s.lock.queue) && (forall t | t in s.lock.queue :: t in s.places && s.places[t].AsleepLock?)
    && (forall t | t in s.places && s.places[t].AsleepLock? :: t in s.lock.queue)
    && (forall t | t in s.done.queue :: t in s.places && s.places[t].Asleep?)
  }

  /** With sleepers on a free lock, some thread is awake and about to test it. */
  predicate WakeInv<D, O, R>(s: State<D, O, R>) {
    s.lock.value > 0 && s.lock.queue != [] ==> exists t | t in s.places :: s.places[t].AtLock?
  }

  /** The device and the semaphore are at rest. */
  predicate Idle<D, O, R>(s: State<D, O, R>) {
    !s.active && s.done == Semaphore(0, []) && s.credit == None
  }

  /** The device and the semaphore as the one thread inside sees them. */
  predicate DeviceAt<D, O, R>(s: State<D, O, R>, t: Tid)
    requires t in s.places
  {
    match s.places[t]
    case AtWait(_, _, at) =>
      && s.done.queue == [] && at + 1 == |s.log|
      && (if s.active then s.done.value == 0 && s.owner == Some(t) && s.credit == None
          else s.done.value == 1 && s.credit == Some(t))
    case Asleep(_, _, at) =>
      s.active && s.owner == Some(t) && s.done == Semaphore(0, [t]) && s.credit == None && at + 1 == |s.log|
    case Served(_, _, at) => Idle(s) && at + 1 == |s.log|
    case Leaving(_, _, at) => Idle(s) && at + 1 == |s.log|
    case _ => Idle(s)
  }

  predicate DeviceInv<D, O, R>(s: State<D, O, R>) {
    && (forall t | t in s.places && Inside(s.places[t]) :: DeviceAt(s, t))
    && ((forall t | t in s.places :: !Inside(s.places[t])) ==> Idle(s))
    && s.completed + (if s.active then 1 else 0) == |s.log|
  }

  /** A thread's call, its request in the log, and its result belong together; past P the request's own
      interrupt has come. */
  predicate CallAt<D, O(==), R(==)>(s: State<D, O, R>, t: Tid)
    requires t in s.places
  {
    var p := s.places[t];
    && (p != Outside ==> p.c.since <= |s.log|)
    && (Requested(p) ==> p.c.since <= p.at < |s.log| && s.log[p.at] == Entry(t, p.c.op, p.result))
    && (p.Served? || p.Leaving? || p.Finished? ==> p.at < s.completed)
  }

  predicate CallInv<D, O(==), R(==)>(s: State<D, O, R>) {
    forall t | t in s.places :: CallAt(s, t)
  }

  /** The device is the plain sequential device after the requests of the log. */
  function Replay<D, O, R>(act: Act<D, O, R>, d: D, log: seq<Entry<O, R>>): D {
    if log == [] then d else act(Replay(act, d, log[..|log| - 1]), log[|log| - 1].op).0
  }

  predicate LogInv<D(==), O, R(==)>(act: Act<D, O, R>, s: State<D, O, R>) {
    && s.device == Replay(act, s.start, s.log)
    && forall k | 0 <= k < |s.log| :: s.log[k].result == act(Replay(act, s.start, s.log[..k]), s.log[k].op).1
  }

  predicate Inv<D(==), O(==), R(==)>(act: Act<D, O, R>, s: State<D, O, R>) {
    && LockInv(s) && HolderInv(s) && QueueInv(s) && WakeInv(s) && DeviceInv(s) && CallInv(s) && LogInv(act, s)
  }

  lemma InitInv<D, O, R>(act: Act<D, O, R>, s: State<D, O, R>)
    requires Init(s)
    ensures Inv(act, s)
  {
  }

  lemma InvIsSafe<D, O, R>(act: Act<D, O, R>, s: State<D, O, R>, step: Step<O>)
    requires Inv(act, s) && Enabled(s, step)
    ensures Safe(s, step)
  {
    match step
    case MakeRequest(t) => assert DeviceAt(s, t);
    case Unlock(t) => if s.lock.queue != [] { assert s.lock.queue[0] in s.lock.queue; }
    case Interrupt => if s.done.queue != [] { assert s.done.queue[0] in s.done.queue; }
    case _ =>
  }

  // ---- preservation ---------------------------------------------------------

  lemma TakeKeepsLock<D, O, R>(act: Act<D, O, R>, s: State<D, O, R>, step: Step<O>)
    requires LockInv(s) && Enabled(s, step) && step.TestLock?
    ensures LockInv(Next(act, s, step))
  {
    var s' := Next(act, s, step);
    if s.lock.value == 1 { assert Inside(s'.places[step.t]); } else { KeepInside(s, s'); }
  }

  lemma GiveKeepsLock<D, O, R>(act: Act<D, O, R>, s: State<D, O, R>, step: Step<O>)
    requires LockInv(s) && Enabled(s, step) && Safe(s, step) && step.Unlock?
    ensures LockInv(Next(act, s, step))
  {
    assert Inside(s.places[step.t]);
  }

  lemma StepKeepsLock<D, O, R>(act: Act<D, O, R>, s: State<D, O, R>, step: Step<O>)
    requires LockInv(s) && Enabled(s, step) && Safe(s, step)
    ensures LockInv(Next(act, s, step))
  {
    match step
    case TestLock(_) => TakeKeepsLock(act, s, step);
    case Unlock(_) => GiveKeepsLock(act, s, step);
    case _ => SameInside(act, s, step); KeepInside(s, Next(act, s, step));
  }

  lemma SameInside<D, O, R>(act: Act<D, O, R>, s: State<D, O, R>, step: Step<O>)
    requires Enabled(s, step) && Safe(s, step) && !step.TestLock? && !step.Unlock?
    ensures Next(act, s, step).lock == s.lock
    ensures forall t | t in s.places :: Inside(Next(act, s, step).places[t]) <==> Inside(s.places[t])
  {
  }

  lemma KeepInside<D, O, R>(s: State<D, O, R>, s': State<D, O, R>)
    requires LockInv(s) && s'.lock.value == s.lock.value && s'.places.Keys == s.places.Keys
    requires forall t | t in s.places :: Inside(s'.places[t]) <==> Inside(s.places[t])
    ensures LockInv(s')
  {
    if s.lock.value == 0 {
      var t :| t in s.places && Inside(s.places[t]);
      assert Inside(s'.places[t]);
    }
  }

  lemma StepKeepsHolder<D, O, R>(act: Act<D, O, R>, s: State<D, O, R>, step: Step<O>)
    requires LockInv(s) && HolderInv(s) && Enabled(s, step) && Safe(s, step)
    ensures HolderInv(Next(act, s, step))
  {
  }

  lemma UnlockKeepsQueues<D, O, R>(act: Act<D, O, R>, s: State<D, O, R>, step: Step<O>)
    requires QueueInv(s) && Enabled(s, step) && Safe(s, step) && step.Unlock?
    ensures QueueInv(Next(act, s, step))
  {
    if s.lock.queue != [] { assert s.lock.queue == [s.lock.queue[0]] + s.lock.queue[1..]; }
  }

  lemma InterruptKeepsQueues<D, O, R>(act: Act<D, O, R>, s: State<D, O, R>, step: Step<O>)
    requires QueueInv(s) && DeviceInv(s) && Enabled(s, step) && Safe(s, step) && step.Interrupt?
    ensures QueueInv(Next(act, s, step))
  {
    if s.done.queue != [] {
      var u := s.done.queue[0];
      assert u in s.done.queue && DeviceAt(s, u);
    }
  }

  lemma SleepKeepsQueues<D, O, R>(act: Act<D, O, R>, s: State<D, O, R>, step: Step<O>)
    requires QueueInv(s) && Enabled(s, step) && Safe(s, step) && (step.TestLock? || step.TestDone?)
    ensures QueueInv(Next(act, s, step))
  {
  }

  lemma StepKeepsQueues<D, O, R>(act: Act<D, O, R>, s: State<D, O, R>, step: Step<O>)
    requires QueueInv(s) && DeviceInv(s) && Enabled(s, step) && Safe(s, step)
    ensures QueueInv(Next(act, s, step))
  {
    match step
    case Unlock(_) => UnlockKeepsQueues(act, s, step);
    case Interrupt => InterruptKeepsQueues(act, s, step);
    case TestLock(_) => SleepKeepsQueues(act, s, step);
    case TestDone(_) => SleepKeepsQueues(act, s, step);
    case _ =>
  }

  lemma StepKeepsWake<D, O, R>(act: Act<D, O, R>, s: State<D, O, R>, step: Step<O>)
    requires LockInv(s) && WakeInv(s) && Enabled(s, step) && Safe(s, step)
    ensures WakeInv(Next(act, s, step))
  {
    var s' := Next(act, s, step);
    if step.Unlock? {
      if s.lock.queue != [] { assert s'.places[s.lock.queue[0]].AtLock?; }
    } else if s.lock.value > 0 && s.lock.queue != [] && !step.TestLock? {
      var t :| t in s.places && s.places[t].AtLock?;
      assert s'.places[t].AtLock?;
    }
  }

  /** Steps of the thread inside and of the device. */
  predicate Within<O>(step: Step<O>) {
    step.SetHolder? || step.MakeRequest? || step.TestDone? || step.ClearHolder? || step.Interrupt?
  }

  lemma WithinKeepsDevice<D, O, R>(act: Act<D, O, R>, s: State<D, O, R>, step: Step<O>, t: Tid)
    requires LockInv(s) && QueueInv(s) && DeviceInv(s) && Enabled(s, step) && Safe(s, step) && Within(step)
    requires t in s.places && Inside(s.places[t])
    ensures DeviceInv(Next(act, s, step))
  {
    var s' := Next(act, s, step);
    assert DeviceAt(s, t) && Inside(s'.places[t]);
    forall u | u in s'.places && Inside(s'.places[u])
      ensures DeviceAt(s', u)
    {
      assert u == t;
    }
  }

  /** The thread inside during such a step. */
  lemma SomeoneWithin<D, O, R>(s: State<D, O, R>, step: Step<O>) returns (t: Tid)
    requires DeviceInv(s) && Enabled(s, step) && Within(step)
    ensures t in s.places && Inside(s.places[t])
  {
    if step.Interrupt? {
      t :| t in s.places && Inside(s.places[t]);
    } else {
      t := step.t;
    }
  }

  lemma OutsideKeepsIdle<D, O, R>(act: Act<D, O, R>, s: State<D, O, R>, step: Step<O>)
    requires LockInv(s) && DeviceInv(s) && Enabled(s, step) && Safe(s, step) && !Within(step)
    requires forall u | u in s.places :: !Inside(Next(act, s, step).places[u])
    ensures Idle(Next(act, s, step))
  {
    if step.Unlock? { assert Inside(s.places[step.t]) && DeviceAt(s, step.t); }
    forall u | u in s.places && u != step.t
      ensures !Inside(s.places[u])
    {
      assert !Inside(Next(act, s, step).places[u]);
    }
  }

  lemma OutsideKeepsDeviceAt<D, O, R>(act: Act<D, O, R>, s: State<D, O, R>, step: Step<O>, u: Tid)
    requires LockInv(s) && DeviceInv(s) && Enabled(s, step) && Safe(s, step) && !Within(step)
    requires u in Next(act, s, step).places && Inside(Next(act, s, step).places[u])
    ensures DeviceAt(Next(act, s, step), u)
  {
    if u in s.places && Inside(s.places[u]) { assert DeviceAt(s, u); }
  }

  lemma OutsideKeepsDevice<D, O, R>(act: Act<D, O, R>, s: State<D, O, R>, step: Step<O>)
    requires LockInv(s) && DeviceInv(s) && Enabled(s, step) && Safe(s, step) && !Within(step)
    ensures DeviceInv(Next(act, s, step))
  {
    var s' := Next(act, s, step);
    forall u | u in s'.places && Inside(s'.places[u])
      ensures DeviceAt(s', u)
    {
      OutsideKeepsDeviceAt(act, s, step, u);
    }
    if forall u | u in s.places :: !Inside(s'.places[u]) { OutsideKeepsIdle(act, s, step); }
  }

  lemma StepKeepsDevice<D, O, R>(act: Act<D, O, R>, s: State<D, O, R>, step: Step<O>)
    requires LockInv(s) && QueueInv(s) && DeviceInv(s) && Enabled(s, step) && Safe(s, step)
    ensures DeviceInv(Next(act, s, step))
  {
    if Within(step) {
      var t := SomeoneWithin(s, step);
      WithinKeepsDevice(act, s, step, t);
    } else {
      OutsideKeepsDevice(act, s, step);
    }
  }

  /** A thread's own step. */
  lemma OwnStepKeepsCall<D, O, R>(act: Act<D, O, R>, s: State<D, O, R>, step: Step<O>)
    requires DeviceInv(s) && Enabled(s, step) && Safe(s, step) && !step.Interrupt? && CallAt(s, step.t)
    ensures CallAt(Next(act, s, step), step.t)
  {
    if Inside(s.places[step.t]) { assert DeviceAt(s, step.t); }
  }

  /** Another thread's step, or the device's, may wake the thread, and the log may grow. */
  lemma OtherStepKeepsCall<D, O, R>(act: Act<D, O, R>, s: State<D, O, R>, step: Step<O>, t: Tid)
    requires Enabled(s, step) && Safe(s, step) && t in s.places && CallAt(s, t) && (step.Interrupt? || step.t != t)
    ensures CallAt(Next(act, s, step), t)
  {
  }

  lemma StepKeepsLog<D, O, R>(act: Act<D, O, R>, s: State<D, O, R>, step: Step<O>)
    requires LogInv(act, s) && Enabled(s, step) && Safe(s, step)
    ensures LogInv(act, Next(act, s, step))
  {
    if step.MakeRequest? {
      var op := s.places[step.t].c.op;
      LogGrown(act, s.start, s.log, Entry(step.t, op, act(s.device, op).1));
    }
  }

  /** Replaying the log with one more request. */
  lemma LogGrown<D, O, R>(act: Act<D, O, R>, start: D, log: seq<Entry<O, R>>, e: Entry<O, R>)
    ensures Replay(act, start, log + [e]) == act(Replay(act, start, log), e.op).0
    ensures forall k | 0 <= k <= |log| :: (log + [e])[..k] == log[..k]
  {
    assert (log + [e])[..|log|] == log;
  }

  lemma StepKeepsInv<D, O, R>(act: Act<D, O, R>, s: State<D, O, R>, step: Step<O>)
    requires Inv(act, s) && Enabled(s, step) && Safe(s, step)
    ensures Inv(act, Next(act, s, step))
  {
    StepKeepsLock(act, s, step);
    StepKeepsHolder(act, s, step);
    StepKeepsQueues(act, s, step);
    StepKeepsWake(act, s, step);
    StepKeepsDevice(act, s, step);
    StepKeepsLog(act, s, step);
    StepKeepsCalls(act, s, step);
  }

  lemma StepKeepsCalls<D, O, R>(act: Act<D, O, R>, s: State<D, O, R>, step: Step<O>)
    requires CallInv(s) && DeviceInv(s) && Enabled(s, step) && Safe(s, step)
    ensures CallInv(Next(act, s, step))
  {
    forall t | t in s.places
      ensures CallAt(Next(act, s, step), t)
    {
      if !step.Interrupt? && step.t == t {
        OwnStepKeepsCall(act, s, step);
      } else {
        OtherStepKeepsCall(act, s, step, t);
      }
    }
  }

  // ---- every run ------------------------------------------------------------

  predicate IsRun<D(==), O(==), R(==)>(act: Act<D, O, R>, states: seq<State<D, O, R>>, steps: seq<Step<O>>) {
    && |states| == |steps| + 1 && Init(states[0])
    && forall i | 0 <= i < |steps| ::
         && Enabled(states[i], steps[i])
         && (Safe(states[i], steps[i]) ==> states[i + 1] == Next(act, states[i], steps[i]))
  }

  /** In every interleaving of any number of threads, and however late the interrupts come, no request is
      made while one is outstanding, and the invariant holds. */
  lemma {:induction false} EveryRun<D, O, R>(act: Act<D, O, R>, states: seq<State<D, O, R>>, steps: seq<Step<O>>,
                                             i: nat)
    requires IsRun(act, states, steps) && i < |states|
    ensures Inv(act, states[i]) && (i < |steps| ==> Safe(states[i], steps[i]))
  {
    if i == 0 {
      InitInv(act, states[0]);
    } else {
      EveryRun(act, states, steps, i - 1);
      StepKeepsInv(act, states[i - 1], steps[i - 1]);
    }
    if i < |steps| {
      InvIsSafe(act, states[i], steps[i]);
    }
  }

  /** While the lock is free the device is idle and the semaphore is zero; nobody waits on it. */
  lemma FreeMeansIdle<D, O, R>(act: Act<D, O, R>, s: State<D, O, R>)
    requires Inv(act, s) && s.lock.value == 1
    ensures !s.active && s.done == Semaphore(0, []) && s.credit == None && s.holder == None
  {
  }

  /** A thread gets past P on the completion of its own request only, and with the result the request had. */
  lemma OwnCompletion<D, O, R>(act: Act<D, O, R>, s: State<D, O, R>, t: Tid)
    requires Inv(act, s) && Enabled(s, TestDone(t)) && s.done.value > 0
    ensures s.credit == Some(t) && !s.active
    ensures var p := s.places[t]; p.at + 1 == |s.log| == s.completed && s.log[p.at] == Entry(t, p.c.op, p.result)
  {
    assert DeviceAt(s, t) && CallAt(s, t);
  }

  /** No request is forgotten: the thread inside that is asleep has its request still outstanding, so the
      interrupt to come will wake it. */
  lemma NobodySleepsForever<D, O, R>(act: Act<D, O, R>, s: State<D, O, R>, t: Tid)
    requires Inv(act, s) && t in s.places && s.places[t].Asleep?
    ensures s.active && s.owner == Some(t) && s.done.queue == [t]
  {
    assert DeviceAt(s, t);
  }

  /** If no thread can take a step and no interrupt is to come, then nobody is in a call. */
  lemma NeverStuck<D, O, R>(act: Act<D, O, R>, s: State<D, O, R>)
    requires Inv(act, s) && !s.active
    requires forall t | t in s.places :: s.places[t].Outside? || s.places[t].AsleepLock? || s.places[t].Asleep?
    ensures forall t | t in s.places :: s.places[t].Outside?
  {
    forall t | t in s.places
      ensures !Inside(s.places[t])
    {
      if s.places[t].Asleep? { NobodySleepsForever(act, s, t); }
    }
  }

  // ---- calls in time --------------------------------------------------------

  /** The log only grows. */
  lemma {:induction false} LogGrows<D, O, R>(act: Act<D, O, R>, states: seq<State<D, O, R>>, steps: seq<Step<O>>,
                                             i: nat, j: nat)
    requires IsRun(act, states, steps) && i <= j < |states|
    ensures |states[i].log| <= |states[j].log| && states[j].log[..|states[i].log|] == states[i].log
    decreases j - i
  {
    if i < j {
      LogGrows(act, states, steps, i, j - 1);
      EveryRun(act, states, steps, j - 1);
      StepLogGrows(act, states[j - 1], steps[j - 1], |states[i].log|);
    }
  }

  lemma StepLogGrows<D, O, R>(act: Act<D, O, R>, s: State<D, O, R>, step: Step<O>, n: nat)
    requires Enabled(s, step) && Safe(s, step) && n <= |s.log|
    ensures n <= |Next(act, s, step).log| && Next(act, s, step).log[..n] == s.log[..n]
  {
  }

  /** Thread u is in the same call from step j on. */
  predicate SameCall<O>(steps: seq<Step<O>>, j: nat, l: nat, u: Tid) {
    j < l <= |steps| && steps[j].Enter? && steps[j].t == u && forall m | j < m < l :: steps[m] != Return(u)
  }

  lemma {:induction false} CallRemembered<D, O, R>(act: Act<D, O, R>, states: seq<State<D, O, R>>, steps: seq<Step<O>>,
                                                   j: nat, l: nat, u: Tid)
    requires IsRun(act, states, steps) && SameCall(steps, j, l, u)
    ensures u in states[l].places && states[l].places[u] != Outside
    ensures states[l].places[u].c == Called(steps[j].op, |states[j].log|)
    decreases l - j
  {
    EveryRun(act, states, steps, l - 1);
    if j + 1 < l {
      CallRemembered(act, states, steps, j, l - 1, u);
      StepKeepsSameCall(act, states[l - 1], steps[l - 1], u);
    }
  }

  lemma StepKeepsSameCall<D, O, R>(act: Act<D, O, R>, s: State<D, O, R>, step: Step<O>, u: Tid)
    requires Enabled(s, step) && Safe(s, step) && u in s.places && s.places[u] != Outside && step != Return(u)
    ensures var s' := Next(act, s, step);
            u in s'.places && s'.places[u] != Outside && s'.places[u].c == s.places[u].c
  {
  }

  /** The log respects real time: the request of a call that has returned comes before the request of any call
      that begins later. */
  lemma RealTimeOrder<D, O, R>(act: Act<D, O, R>, states: seq<State<D, O, R>>, steps: seq<Step<O>>,
                               i: nat, t: Tid, j: nat, l: nat, u: Tid)
    requires IsRun(act, states, steps) && i < j && j < |steps| && steps[i] == Return(t)
    requires SameCall(steps, j, l, u) && u in states[l].places && Requested(states[l].places[u])
    ensures t in states[i].places && states[i].places[t].Finished?
    ensures var p, q := states[i].places[t], states[l].places[u];
      && p.at < q.at < |states[l].log|
      && states[l].log[p.at] == Entry(t, p.c.op, p.result) && states[l].log[q.at] == Entry(u, q.c.op, q.result)
  {
    EveryRun(act, states, steps, i);
    EveryRun(act, states, steps, l);
    CallRemembered(act, states, steps, j, l, u);
    LogGrows(act, states, steps, i, j);
    LogGrows(act, states, steps, i, l);
    var p := states[i].places[t];
    assert CallAt(states[i], t) && CallAt(states[l], u);
    assert states[l].log[..|states[i].log|][p.at] == states[i].log[p.at];
  }
}
