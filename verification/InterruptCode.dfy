/** machine/interrupt.cc as code that updates the clock and the pending list in place. */
module InterruptCode {
  import opened Sequences
  import opened InterruptClock
  import opened InterruptTicks

  class Interrupt {
    var level: IntStatus
    var pending: seq<Pending>
    var inHandler: bool
    var yieldOnReturn: bool
    var status: MachineStatus
    var totalTicks: int
    var idleTicks: int
    var systemTicks: int
    var userTicks: int
    var numScheduled: nat
    const handlers: Handlers
    ghost var scheduled: seq<Pending>
    ghost var log: seq<Firing>

    ghost function Abs(): Clock
      reads this
    {
      Clock(level, pending, inHandler, yieldOnReturn, status, totalTicks, idleTicks, systemTicks, userTicks,
            scheduled, log)
    }

    ghost predicate Valid()
      reads this
    {
      numScheduled == |scheduled|
    }

    constructor (h: Handlers)
      ensures Valid() && Abs() == Start() && Inv(Abs()) && handlers == h
    {
      level, pending, inHandler, yieldOnReturn, status := IntOff, [], false, false, SystemMode;
      totalTicks, idleTicks, systemTicks, userTicks, numScheduled := 0, 0, 0, 0, 0;
      handlers, scheduled, log := h, [], [];
    }

    method Schedule(r: Request)
      requires Valid()
      modifies this
      ensures Valid() && Abs() == InterruptClock.Schedule(old(Abs()), r)
    {
      var when := totalTicks + r.delay;
      var toOccur := Pending(r.device, when, r.kind, numScheduled);
      pending := Insert(pending, toOccur, Compare);
      numScheduled := numScheduled + 1;
      scheduled := scheduled + [toOccur];
    }

    method YieldOnReturn()
      requires Valid() && inHandler
      modifies this`yieldOnReturn
      ensures Valid() && yieldOnReturn
    {
      yieldOnReturn := true;
    }

    /** The handler of an interrupt: it may schedule interrupts and ask for a context switch. */
    method CallBack(next: Pending)
      requires Valid() && inHandler
      modifies this
      ensures Valid()
      ensures var r := handlers(next, old(totalTicks));
        Abs() == ScheduleAll(old(Abs()).(yieldOnReturn := old(yieldOnReturn) || r.switch), r.requests)
    {
      var r := handlers(next, totalTicks);
      if r.switch {
        YieldOnReturn();
      }
      ghost var c := Abs();
      for k := 0 to |r.requests|
        invariant Valid() && ScheduleAll(Abs(), r.requests[k..]) == ScheduleAll(c, r.requests)
      {
        assert r.requests[k..][0] == r.requests[k] && r.requests[k..][1..] == r.requests[k + 1..];
        Schedule(r.requests[k]);
      }
    }

    /** Pull the first interrupt off the list and call its handler. */
    method FireFront()
      requires Valid() && inHandler && pending != []
      modifies this
      ensures Valid() && Abs() == Fire(old(Abs()), handlers)
    {
      var next := pending[0];
      pending := pending[1..];
      log := log + [Firing(next, totalTicks)];
      CallBack(next);
    }

    method CheckIfDue(advanceClock: bool) returns (fired: bool)
      requires Valid() && level == IntOff
      modifies this
      ensures Valid() && (Abs(), fired) == InterruptClock.CheckIfDue(old(Abs()), handlers, advanceClock)
    {
      if pending == [] {
        return false;
      }
      if pending[0].when > totalTicks {
        if !advanceClock {
          return false;
        }
        idleTicks := idleTicks + (pending[0].when - totalTicks);
        totalTicks := pending[0].when;
      }
      inHandler := true;
      assert Abs() == (if advanceClock then Advanced(old(Abs())) else old(Abs())).(inHandler := true);
      FireWhatIsDue();
      inHandler := false;
      return true;
    }

    method FireWhatIsDue()
      requires Valid() && IsDue(Abs()) && inHandler
      modifies this
      ensures Valid() && Abs() == FireDue(old(Abs()), handlers)
    {
      var more := true;
      while more
        invariant Valid() && (more <==> IsDue(Abs())) && FireDue(Abs(), handlers) == FireDue(old(Abs()), handlers)
        invariant inHandler
        decreases Due(pending, totalTicks)
      {
        FireIsProgress(Abs(), handlers);
        FireFront();
        more := pending != [] && pending[0].when <= totalTicks;
      }
    }

    method AdvanceTime()
      requires Valid()
      modifies this`totalTicks, this`systemTicks, this`userTicks
      ensures Valid() && Abs() == Later(old(Abs())).(level := level)
    {
      if status == SystemMode {
        totalTicks := totalTicks + SYSTEM_TICK;
        systemTicks := systemTicks + SYSTEM_TICK;
      } else {
        totalTicks := totalTicks + USER_TICK;
        userTicks := userTicks + USER_TICK;
      }
    }

    /** Up to the Yield a handler asked for; the caller then yields and restores the status. */
    method OneTick() returns (mustYield: bool)
      requires Valid()
      modifies this
      ensures Valid() && Abs() == InterruptClock.OneTick(old(Abs()), handlers) && !yieldOnReturn
      ensures Inv(old(Abs())) ==>
                OneTickLater(old(Abs()), handlers, Abs()) && mustYield == MustYield(old(Abs()), handlers, Abs())
    {
      if Inv(Abs()) { TickTicks(Abs(), handlers); }
      AdvanceTime();
      level := IntOff;
      assert Abs() == Later(old(Abs()));
      var fired := CheckIfDue(false);
      level := IntOn;
      mustYield := yieldOnReturn;
      if yieldOnReturn {
        yieldOnReturn := false;
        status := SystemMode;
      }
    }

    method SetLevel(now: IntStatus) returns (was: IntStatus, mustYield: bool)
      requires Valid() && (now == IntOff || !inHandler)
      modifies this
      ensures Valid() && Abs() == InterruptClock.SetLevel(old(Abs()), handlers, now) && was == old(level)
      ensures level == now && (was == IntOn || now == IntOff ==> Abs() == old(Abs()).(level := now) && !mustYield)
      ensures was == IntOff && now == IntOn && Inv(old(Abs())) ==>
                && OneTickLater(old(Abs()).(level := IntOn), handlers, Abs())
                && mustYield == MustYield(old(Abs()).(level := IntOn), handlers, Abs())
    {
      if Inv(Abs()) { SameQueue(Abs(), Abs().(level := now)); }
      was, mustYield := level, false;
      level := now;
      if now == IntOn && was == IntOff {
        mustYield := OneTick();
      }
    }

    /** False when nothing is pending and the machine halts. */
    method Idle() returns (goOn: bool)
      requires Valid() && level == IntOff && Inv(Abs())
      modifies this
      ensures Valid() && Inv(Abs()) && Abs() == InterruptClock.Idle(old(Abs()), handlers)
      ensures goOn <==> old(pending) != []
    {
      IdleKeepsInv(Abs(), handlers);
      status := IdleMode;
      goOn := CheckIfDue(true);
      if goOn {
        status := SystemMode;
      }
    }
  }
}
