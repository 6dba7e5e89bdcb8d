/** threads/scheduler.cc, threads/thread.cc and threads/synch.cc as code that updates the kernel's
    objects in place.  SWITCH transfers control, so Sleep, Yield and P end where the processor leaves
    the thread; `AfterSwitch` is what runs when it comes back. */
module KernelCode {
  import opened Sequences
  import opened KernelMachine

  class Kernel {
    var threads: map<Tid, Thread>
    var readyList: seq<Tid>
    var currentThread: Tid
    var mode: Mode
    var toBeDestroyed: Option<Tid>
    var sems: map<Sid, Semaphore>

    ghost function Abs(): State
      reads this
    {
      State(threads, readyList, currentThread, mode, toBeDestroyed, sems)
    }

    constructor (main: Tid, initial: map<Sid, nat>)
      ensures Init(Abs()) && Inv(Abs()) && currentThread == main
      ensures sems.Keys == initial.Keys && forall s | s in sems :: sems[s].initial == initial[s]
    {
      threads, readyList, currentThread := map[main := Thread(RUNNING, Body)], [], main;
      mode, toBeDestroyed := User, None;
      sems := map s | s in initial :: Semaphore(initial[s], [], initial[s], 0, 0);
      new;
      InitInv(Abs());
    }

    method ReadyToRun(t: Tid)
      requires t in threads && t !in readyList
      modifies this
      ensures Abs() == KernelMachine.ReadyToRun(old(Abs()), t)
    {
      threads := threads[t := threads[t].(status := READY)];
      readyList := readyList + [t];
    }

    method FindNextToRun() returns (next: Option<Tid>)
      modifies this`readyList
      ensures old(readyList) == [] ==> next == None && readyList == []
      ensures old(readyList) != [] ==> next == Some(old(readyList)[0]) && readyList == old(readyList)[1..]
    {
      if readyList == [] {
        return None;
      }
      next := Some(readyList[0]);
      readyList := readyList[1..];
    }

    /** Up to SWITCH. */
    method Run(next: Tid, finishing: bool)
      requires next in threads && (finishing ==> toBeDestroyed == None)
      modifies this
      ensures Abs() == SwitchTo(old(Abs()).(
                doomed := if finishing then Some(old(currentThread)) else old(toBeDestroyed)), next)
    {
      if finishing {
        toBeDestroyed := Some(currentThread);
      }
      currentThread := next;
      threads := threads[next := threads[next].(status := RUNNING)];
      mode := Switched;
    }

    method CheckToBeDestroyed()
      requires toBeDestroyed != Some(currentThread)
      modifies this
      ensures Abs() == Buried(old(Abs()))
    {
      if toBeDestroyed.Some? {
        threads := threads - {toBeDestroyed.value};
        toBeDestroyed := None;
      }
    }

    /** Semaphore::V, by a thread or by an interrupt handler. */
    method V(s: Sid)
      requires Inv(Abs()) && Enabled(Abs(), CallV(s))
      modifies this
      ensures Inv(Abs()) && Safe(old(Abs()), CallV(s)) && Abs() == Next(old(Abs()), CallV(s))
      ensures s in sems && sems[s].value == old(sems[s].value) + 1
      ensures var q := old(sems[s].queue);
              if q == [] then readyList == old(readyList) && sems[s].queue == []
              else readyList == old(readyList) + [q[0]] && sems[s].queue == q[1..]
    {
      InvIsSafe(Abs(), CallV(s));
      NextKeepsInv(Abs(), CallV(s));
      WakeAndCount(s);
    }

    /** V's own statements. */
    method WakeAndCount(s: Sid)
      requires s in sems && (sems[s].queue != [] ==> sems[s].queue[0] in threads && sems[s].queue[0] !in readyList)
      modifies this
      ensures Abs() == SemV(old(Abs()), s)
    {
      var m := sems[s];
      if m.queue != [] {
        ReadyToRun(m.queue[0]);
        m := m.(queue := m.queue[1..]);
      }
      sems := sems[s := m.(value := m.value + 1, vs := m.vs + 1)];
    }

    /** Semaphore::P up to the point where the thread goes to sleep or leaves with the value. */
    method P(s: Sid)
      requires Inv(Abs()) && Enabled(Abs(), CallP(s))
      modifies this
      ensures Inv(Abs()) && Safe(old(Abs()), CallP(s)) && Abs() == Next(old(Abs()), CallP(s))
      ensures currentThread == old(currentThread) && currentThread in threads && s in sems
      ensures if old(sems[s].value) > 0
              then mode == User && threads[currentThread].at == Body && sems[s].value == old(sems[s].value) - 1
              else mode == Sleeping(false) && sems[s].queue == old(sems[s].queue) + [currentThread]
    {
      InvIsSafe(Abs(), CallP(s));
      NextKeepsInv(Abs(), CallP(s));
      TestValue(s);
    }

    /** The test at the head of P's loop, and what follows it. */
    method TestValue(s: Sid)
      requires s in sems && currentThread in threads && (sems[s].value == 0 ==> currentThread !in sems[s].queue)
      modifies this
      ensures Abs() == PassP(old(Abs()), s)
    {
      var m := sems[s];
      if m.value == 0 {
        sems := sems[s := m.(queue := m.queue + [currentThread])];
        threads := threads[currentThread := Thread(BLOCKED, InP(s))];
        mode := Sleeping(false);
      } else {
        sems := sems[s := m.(value := m.value - 1, ps := m.ps + 1)];
        threads := threads[currentThread := Thread(RUNNING, Body)];
        mode := User;
      }
    }

    method Yield()
      requires Inv(Abs()) && Enabled(Abs(), CallYield)
      modifies this
      ensures Inv(Abs()) && Safe(old(Abs()), CallYield) && Abs() == Next(old(Abs()), CallYield)
    {
      InvIsSafe(Abs(), CallYield);
      NextKeepsInv(Abs(), CallYield);
      var next := FindNextToRun();
      if next.Some? {
        ReadyToRun(currentThread);
        Run(next.value, false);
      }
    }

    method Fork(t: Tid)
      requires Inv(Abs()) && Enabled(Abs(), CallFork(t))
      modifies this
      ensures Inv(Abs()) && Safe(old(Abs()), CallFork(t)) && Abs() == Next(old(Abs()), CallFork(t))
    {
      InvIsSafe(Abs(), CallFork(t));
      NextKeepsInv(Abs(), CallFork(t));
      threads := threads[t := Thread(READY, Fresh)];
      ReadyToRun(t);
    }

    method Finish()
      requires Inv(Abs()) && Enabled(Abs(), CallFinish)
      modifies this
      ensures Inv(Abs()) && Abs() == Next(old(Abs()), CallFinish)
    {
      InvIsSafe(Abs(), CallFinish);
      NextKeepsInv(Abs(), CallFinish);
      threads := threads[currentThread := Thread(BLOCKED, Finishing)];
      mode := Sleeping(true);
    }

    /** The end of Sleep's idle loop: somebody is ready. */
    method SleepFound()
      requires Inv(Abs()) && Enabled(Abs(), Dispatch)
      modifies this
      ensures Inv(Abs()) && Safe(old(Abs()), Dispatch) && Abs() == Next(old(Abs()), Dispatch)
    {
      InvIsSafe(Abs(), Dispatch);
      NextKeepsInv(Abs(), Dispatch);
      var finishing := mode.finishing;
      var next := FindNextToRun();
      Run(next.value, finishing);
    }

    /** After SWITCH: bury the thread that finished, then start or go on where the thread was. */
    method AfterSwitch()
      requires Inv(Abs()) && Enabled(Abs(), Resume)
      modifies this
      ensures Inv(Abs()) && Safe(old(Abs()), Resume) && Abs() == Next(old(Abs()), Resume)
    {
      InvIsSafe(Abs(), Resume);
      NextKeepsInv(Abs(), Resume);
      CheckToBeDestroyed();
      if threads[currentThread].at.InP? {
        TestValue(threads[currentThread].at.sem);
      } else {
        threads := threads[currentThread := Thread(RUNNING, Body)];
        mode := User;
      }
    }
  }
}
