/** machine/interrupt.cc: the simulated clock and the queue of pending device interrupts. */
module InterruptClock {
  import opened Sequences

  const SYSTEM_TICK := 10
  const USER_TICK := 1

  datatype IntStatus = IntOff | IntOn
  datatype MachineStatus = IdleMode | SystemMode | UserMode
  datatype IntType = TimerInt | DiskInt | ConsoleWriteInt | ConsoleReadInt | NetworkSendInt | NetworkRecvInt

  /** A scheduled interrupt; `id` says which it is, counted in the order of the calls of Schedule. */
  datatype Pending = Pending(device: nat, when: int, kind: IntType, id: nat)

  /** An interrupt handler that has run, and when. */
  datatype Firing = Firing(item: Pending, at: int)

  type Delay = d: int | d > 0 witness 1

  datatype Request = Request(device: nat, delay: Delay, kind: IntType)

  /** What a handler does to the clock: schedule interrupts, and ask for a context switch. */
  datatype Reaction = Reaction(requests: seq<Request>, switch: bool)

  /** The handlers, as a function of which interrupt it is and when it is taken. */
  type Handlers = (Pending, int) -> Reaction

  /** The clock with its history: every interrupt ever scheduled, and the handlers that have run. */
  datatype Clock = Clock(
    level: IntStatus, pending: seq<Pending>, inHandler: bool, yieldOnReturn: bool, status: MachineStatus,
    total: int, idle: int, system: int, user: int, scheduled: seq<Pending>, log: seq<Firing>)

  // ---- the code -------------------------------------------------------------

  /** PendingCompare. */
  function Compare(x: Pending, y: Pending): int {
    if x.when < y.when then -1 else if x.when > y.when then 1 else 0
  }

  function Schedule(c: Clock, r: Request): Clock {
    var item := Pending(r.device, c.total + r.delay, r.kind, |c.scheduled|);
    c.(pending := Insert(c.pending, item, Compare), scheduled := c.scheduled + [item])
  }

  function ScheduleAll(c: Clock, rs: seq<Request>): Clock
    decreases |rs|
  {
    if rs == [] then c else ScheduleAll(Schedule(c, rs[0]), rs[1..])
  }

  predicate IsDue(c: Clock) {
    c.pending != [] && c.pending[0].when <= c.total
  }

  /** One turn of the loop of CheckIfDue. */
  function Fire(c: Clock, h: Handlers): Clock
    requires c.pending != []
  {
    var next := c.pending[0];
    var r := h(next, c.total);
    ScheduleAll(c.(pending := c.pending[1..], log := c.log + [Firing(next, c.total)],
                   yieldOnReturn := c.yieldOnReturn || r.switch),
                r.requests)
  }

  /** How many interrupts are due. */
  function Due(q: seq<Pending>, now: int): nat {
    if q == [] then 0 else (if q[0].when <= now then 1 else 0) + Due(q[1..], now)
  }

  lemma DueInserted(q: seq<Pending>, x: Pending, now: int)
    requires x.when > now
    ensures Due(Insert(q, x, Compare), now) == Due(q, now)
  {
    if q != [] && Compare(x, q[0]) >= 0 {
      assert ([q[0]] + Insert(q[1..], x, Compare))[1..] == Insert(q[1..], x, Compare);
    } else {
      assert ([x] + q)[1..] == q;
    }
  }

  lemma {:induction false} DueScheduled(c: Clock, rs: seq<Request>)
    ensures ScheduleAll(c, rs).total == c.total && ScheduleAll(c, rs).inHandler == c.inHandler
    ensures Due(ScheduleAll(c, rs).pending, c.total) == Due(c.pending, c.total)
    decreases |rs|
  {
    if rs != [] {
      DueInserted(c.pending, Pending(rs[0].device, c.total + rs[0].delay, rs[0].kind, |c.scheduled|), c.total);
      DueScheduled(Schedule(c, rs[0]), rs[1..]);
    }
  }

  /** A handler cannot make anything due at once, so each turn leaves one interrupt less to fire. */
  lemma FireIsProgress(c: Clock, h: Handlers)
    requires IsDue(c)
    ensures Fire(c, h).total == c.total && Fire(c, h).inHandler == c.inHandler
    ensures Due(Fire(c, h).pending, c.total) < Due(c.pending, c.total)
  {
    var next := c.pending[0];
    var r := h(next, c.total);
    DueScheduled(c.(pending := c.pending[1..], log := c.log + [Firing(next, c.total)],
                    yieldOnReturn := c.yieldOnReturn || r.switch), r.requests);
  }

  /** The loop: fire whatever is due. */
  function FireDue(c: Clock, h: Handlers): Clock
    decreases Due(c.pending, c.total)
  {
    if IsDue(c) then
      FireIsProgress(c, h);
      FireDue(Fire(c, h), h)
    else c
  }

  /** With nothing ready to run, the clock goes on to the next interrupt. */
  function Advanced(c: Clock): Clock {
    if c.pending != [] && c.pending[0].when > c.total
    then c.(idle := c.idle + (c.pending[0].when - c.total), total := c.pending[0].when) else c
  }

  function CheckIfDue(c: Clock, h: Handlers, advanceClock: bool): (Clock, bool) {
    var c1 := if advanceClock then Advanced(c) else c;
    if IsDue(c1) then (FireDue(c1.(inHandler := true), h).(inHandler := false), true) else (c1, false)
  }

  /** OneTick up to the Yield a handler may have asked for. */
  function OneTick(c: Clock, h: Handlers): Clock {
    var c2 := CheckIfDue(Later(c), h, false).0.(level := IntOn);
    if c2.yieldOnReturn then c2.(yieldOnReturn := false, status := SystemMode) else c2
  }

  function SetLevel(c: Clock, h: Handlers, now: IntStatus): Clock {
    var c1 := c.(level := now);
    if now == IntOn && c.level == IntOff then OneTick(c1, h) else c1
  }

  function Idle(c: Clock, h: Handlers): Clock {
    var r := CheckIfDue(c.(status := IdleMode), h, true);
    if r.1 then r.0.(status := SystemMode) else r.0
  }

  // ---- the invariant --------------------------------------------------------

  /** Earlier in time, or scheduled earlier for the same time. */
  predicate Before(a: Pending, b: Pending) {
    a.when < b.when || (a.when == b.when && a.id < b.id)
  }

  predicate Ordered(q: seq<Pending>) {
    forall i, j | 0 <= i < j < |q| :: Before(q[i], q[j])
  }

  /** Handlers have run in order, never early and less than a SystemTick late. */
  predicate GoodLog(c: Clock) {
    && (forall i, j | 0 <= i < j < |c.log| :: Before(c.log[i].item, c.log[j].item))
    && (forall i | 0 <= i < |c.log| ::
          c.log[i].item.when <= c.log[i].at < c.log[i].item.when + SYSTEM_TICK && c.log[i].at <= c.total)
  }

  /** Every interrupt scheduled has fired or is pending, as it was scheduled. */
  predicate Accounted(c: Clock) {
    && (forall k | 0 <= k < |c.scheduled| :: c.scheduled[k].id == k)
    && (forall p | p in c.pending :: p.id < |c.scheduled| && p == c.scheduled[p.id])
    && (forall f | f in c.log :: f.item.id < |c.scheduled| && f.item == c.scheduled[f.item.id])
    && (forall p | p in c.scheduled :: p in c.pending || exists f | f in c.log :: f.item == p)
  }

  /** While handlers run: what is pending comes after what has fired, and is not overdue by a SystemTick. */
  predicate Firings(c: Clock) {
    && Ordered(c.pending) && GoodLog(c) && Accounted(c)
    && (forall p, f | p in c.pending && f in c.log :: Before(f.item, p))
    && (forall p | p in c.pending :: c.total < p.when + SYSTEM_TICK)
  }

  predicate Future(c: Clock) {
    forall p | p in c.pending :: p.when > c.total
  }

  predicate Inv(c: Clock) {
    && Firings(c) && Future(c) && !c.inHandler
    && c.total == c.idle + c.system + c.user && c.idle >= 0 && c.system >= 0 && c.user >= 0
  }

  // ---- scheduling -----------------------------------------------------------

  /** The list stays sorted, and an item goes behind those scheduled before it for the same time. */
  lemma {:induction false} InsertedOrdered(q: seq<Pending>, x: Pending)
    requires Ordered(q) && forall p | p in q :: p.id < x.id
    ensures Ordered(Insert(q, x, Compare))
  {
    var r := Insert(q, x, Compare);
    if q != [] && Compare(x, q[0]) >= 0 {
      var tail := Insert(q[1..], x, Compare);
      InsertedOrdered(q[1..], x);
      assert r == [q[0]] + tail;
      forall j | 0 < j < |r|
        ensures Before(r[0], r[j])
      {
        assert r[j] == tail[j - 1] && tail[j - 1] in tail;
        InsertedMembers(q[1..], x, Compare, r[j]);
        assert q[0] in q;
      }
      forall i, j | 0 < i < j < |r|
        ensures Before(r[i], r[j])
      {
        assert r[i] == tail[i - 1] && r[j] == tail[j - 1];
      }
    } else {
      assert r == [x] + q;
      forall j | 0 < j < |r|
        ensures Before(r[0], r[j])
      {
        assert r[j] == q[j - 1];
      }
    }
  }

  lemma ScheduleAccounts(c: Clock, r: Request)
    requires Accounted(c)
    ensures Accounted(Schedule(c, r))
  {
    var c1 := Schedule(c, r);
    var item := Pending(r.device, c.total + r.delay, r.kind, |c.scheduled|);
    forall p
      ensures p in c1.pending <==> p == item || p in c.pending
    {
      InsertedMembers(c.pending, item, Compare, p);
    }
  }

  lemma ScheduleKeepsFirings(c: Clock, r: Request)
    requires Firings(c)
    ensures Firings(Schedule(c, r))
    ensures forall p | p in Schedule(c, r).pending :: p in c.pending || p.when > c.total
  {
    var c1 := Schedule(c, r);
    var item := Pending(r.device, c.total + r.delay, r.kind, |c.scheduled|);
    forall p
      ensures p in c1.pending <==> p == item || p in c.pending
    {
      InsertedMembers(c.pending, item, Compare, p);
    }
    InsertedOrdered(c.pending, item);
    ScheduleAccounts(c, r);
  }

  /** Fields that scheduling leaves alone. */
  predicate SameClock(c: Clock, d: Clock) {
    d == c.(pending := d.pending, scheduled := d.scheduled)
  }

  lemma {:induction false} ScheduleAllKeeps(c: Clock, rs: seq<Request>)
    requires Firings(c)
    ensures Firings(ScheduleAll(c, rs)) && SameClock(c, ScheduleAll(c, rs))
    ensures forall p | p in ScheduleAll(c, rs).pending :: p in c.pending || p.when > c.total
    decreases |rs|
  {
    if rs != [] {
      ScheduleKeepsFirings(c, rs[0]);
      ScheduleAllKeeps(Schedule(c, rs[0]), rs[1..]);
    }
  }

  // ---- firing ---------------------------------------------------------------

  /** The interrupt at the front has been taken off the list and logged. */
  function Taken(c: Clock, switch: bool): Clock
    requires c.pending != []
  {
    c.(pending := c.pending[1..], log := c.log + [Firing(c.pending[0], c.total)],
       yieldOnReturn := c.yieldOnReturn || switch)
  }

  lemma TakenAccounts(c: Clock, switch: bool)
    requires c.pending != [] && Accounted(c)
    ensures Accounted(Taken(c, switch))
  {
    var d, f := Taken(c, switch), Firing(c.pending[0], c.total);
    assert c.pending == [c.pending[0]] + c.pending[1..] && c.pending[0] in c.pending;
    assert d.log[|c.log|] == f;
    forall p | p in c.scheduled
      ensures p in d.pending || exists g | g in d.log :: g.item == p
    {
      if p !in c.pending {
        var g :| g in c.log && g.item == p;
        assert g in d.log;
      } else if p == c.pending[0] {
        assert f in d.log;
      }
    }
  }

  lemma TakenKeepsLog(c: Clock, switch: bool)
    requires Firings(c) && IsDue(c)
    ensures GoodLog(Taken(c, switch))
  {
    var d := Taken(c, switch);
    assert c.pending[0] in c.pending;
    forall i | 0 <= i < |c.log|
      ensures Before(d.log[i].item, d.log[|c.log|].item)
    {
      assert c.log[i] in c.log;
    }
  }

  lemma TakenKeepsFirings(c: Clock, switch: bool)
    requires Firings(c) && IsDue(c)
    ensures Firings(Taken(c, switch))
  {
    var d := Taken(c, switch);
    assert c.pending == [c.pending[0]] + c.pending[1..];
    TakenAccounts(c, switch);
    TakenKeepsLog(c, switch);
    forall p, f | p in d.pending && f in d.log
      ensures Before(f.item, p)
    {
      var j :| 0 <= j < |d.pending| && d.pending[j] == p;
      assert c.pending[j + 1] == p;
      if f !in c.log { assert f.item == c.pending[0]; }
    }
  }

  lemma FireKeepsFirings(c: Clock, h: Handlers)
    requires Firings(c) && IsDue(c)
    ensures Firings(Fire(c, h)) && Fire(c, h).total == c.total
    ensures Fire(c, h)
            == c.(pending := Fire(c, h).pending, scheduled := Fire(c, h).scheduled,
                  log := Fire(c, h).log, yieldOnReturn := Fire(c, h).yieldOnReturn)
  {
    var r := h(c.pending[0], c.total);
    TakenKeepsFirings(c, r.switch);
    ScheduleAllKeeps(Taken(c, r.switch), r.requests);
  }

  /** The loop ends with nothing due: what is pending lies in the future. */
  lemma {:induction false} FireDueKeeps(c: Clock, h: Handlers)
    requires Firings(c)
    ensures var d := FireDue(c, h);
      && Firings(d) && Future(d)
      && d == c.(pending := d.pending, scheduled := d.scheduled, log := d.log, yieldOnReturn := d.yieldOnReturn)
    decreases Due(c.pending, c.total)
  {
    if IsDue(c) {
      FireKeepsFirings(c, h);
      FireIsProgress(c, h);
      FireDueKeeps(Fire(c, h), h);
    } else {
      forall p | p in c.pending
        ensures p.when > c.total
      {
        var j :| 0 <= j < |c.pending| && c.pending[j] == p;
        if j > 0 { assert Before(c.pending[0], c.pending[j]); }
      }
    }
  }

  /** Time has gone on by at most a SystemTick since nothing was due. */
  predicate Ticked(c: Clock) {
    && Firings(c) && !c.inHandler && c.total == c.idle + c.system + c.user && c.idle >= 0 && c.system >= 0
    && c.user >= 0
  }

  lemma CheckKeepsInv(c: Clock, h: Handlers)
    requires Ticked(c)
    ensures var d := CheckIfDue(c, h, false).0;
      Inv(d) && d == c.(pending := d.pending, scheduled := d.scheduled, log := d.log, yieldOnReturn := d.yieldOnReturn)
  {
    FireDueKeeps(c.(inHandler := true), h);
    if !IsDue(c) { FireDueKeeps(c, h); }
  }

  /** Time may go on to just before anything is overdue. */
  lemma LaterKeeps(c: Clock, d: Clock)
    requires Inv(c) && c.total <= d.total
             && d == c.(total := d.total, idle := d.idle, system := d.system, user := d.user,
                        level := d.level, status := d.status)
    requires forall p | p in c.pending :: d.total < p.when + SYSTEM_TICK
    ensures Firings(d)
  {
  }

  /** The time before the handlers of a tick run. */
  function Later(c: Clock): Clock {
    (if c.status == SystemMode then c.(total := c.total + SYSTEM_TICK, system := c.system + SYSTEM_TICK)
     else c.(total := c.total + USER_TICK, user := c.user + USER_TICK)).(level := IntOff)
  }

  lemma TickKeepsInv(c: Clock, h: Handlers)
    requires Inv(c)
    ensures Inv(OneTick(c, h))
  {
    LaterKeeps(c, Later(c));
    CheckKeepsInv(Later(c), h);
    SameQueue(CheckIfDue(Later(c), h, false).0, OneTick(c, h));
  }

  lemma SameQueue(c: Clock, d: Clock)
    requires Inv(c) && d == c.(level := d.level, status := d.status, yieldOnReturn := d.yieldOnReturn)
    ensures Inv(d)
  {
  }

  lemma AdvancedKeeps(c: Clock)
    requires Inv(c)
    ensures Ticked(Advanced(c)) && (c.pending != [] ==> IsDue(Advanced(c)))
  {
    forall p | p in c.pending
      ensures Advanced(c).total < p.when + SYSTEM_TICK
    {
      var j :| 0 <= j < |c.pending| && c.pending[j] == p;
      if j > 0 { assert Before(c.pending[0], c.pending[j]); }
    }
    LaterKeeps(c, Advanced(c));
  }

  /** Idling takes the clock to the next interrupt, which is on time; only without any does it halt. */
  lemma IdleKeepsInv(c: Clock, h: Handlers)
    requires Inv(c)
    ensures Inv(Idle(c, h)) && (CheckIfDue(c.(status := IdleMode), h, true).1 <==> c.pending != [])
  {
    var c1 := c.(status := IdleMode);
    AdvancedKeeps(c1);
    FireDueKeeps(Advanced(c1).(inHandler := true), h);
  }

  // ---- every run ------------------------------------------------------------

  /** What the kernel and the devices do to the clock outside handlers. */
  datatype Op = CallSetLevel(now: IntStatus) | CallOneTick | CallIdle | CallSchedule(r: Request)
              | CallSetStatus(m: MachineStatus)

  function Step(c: Clock, h: Handlers, op: Op): Clock {
    match op
    case CallSetLevel(now) => SetLevel(c, h, now)
    case CallOneTick => OneTick(c, h)
    case CallIdle => Idle(c, h)
    case CallSchedule(r) => Schedule(c, r)
    case CallSetStatus(m) => c.(status := m)
  }

  lemma ScheduleKeepsInv(c: Clock, r: Request)
    requires Inv(c)
    ensures Inv(Schedule(c, r))
  {
    ScheduleKeepsFirings(c, r);
  }

  lemma StepKeepsInv(c: Clock, h: Handlers, op: Op)
    requires Inv(c)
    ensures Inv(Step(c, h, op))
  {
    match op
    case CallSetLevel(now) =>
      SameQueue(c, c.(level := now));
      TickKeepsInv(c.(level := now), h);
    case CallOneTick => TickKeepsInv(c, h);
    case CallIdle => IdleKeepsInv(c, h);
    case CallSchedule(r) => ScheduleKeepsInv(c, r);
    case CallSetStatus(m) => SameQueue(c, c.(status := m));
  }

  function Start(): Clock {
    Clock(IntOff, [], false, false, SystemMode, 0, 0, 0, 0, [], [])
  }

  function Run(h: Handlers, ops: seq<Op>): Clock {
    if ops == [] then Start() else Step(Run(h, ops[..|ops| - 1]), h, ops[|ops| - 1])
  }

  /** Whatever the handlers do: handlers run in the order of time and of scheduling, never early and less
      than a SystemTick late, and the clock is the sum of idle, system and user time. */
  lemma {:induction false} EveryRun(h: Handlers, ops: seq<Op>)
    ensures Inv(Run(h, ops))
    decreases |ops|
  {
    if ops != [] {
      EveryRun(h, ops[..|ops| - 1]);
      StepKeepsInv(Run(h, ops[..|ops| - 1]), h, ops[|ops| - 1]);
    }
  }

  /** An interrupt has fired exactly when its time has come, and it fires once. */
  lemma DueHasFired(c: Clock, p: Pending)
    requires Inv(c) && p in c.scheduled
    ensures (exists k | 0 <= k < |c.log| :: c.log[k].item == p) <==> p.when <= c.total
    ensures forall k, l | 0 <= k < |c.log| && 0 <= l < |c.log| && c.log[k].item == p && c.log[l].item == p :: k == l
  {
    if p.when <= c.total {
      assert p !in c.pending;
      var f :| f in c.log && f.item == p;
      var k :| 0 <= k < |c.log| && c.log[k] == f;
      assert c.log[k].item == p;
    }
    forall k, l | 0 <= k < |c.log| && 0 <= l < |c.log| && c.log[k].item == p && c.log[l].item == p
      ensures k == l
    {
    }
  }

  /** History is only added to. */
  predicate Extends(c: Clock, d: Clock) {
    && |c.log| <= |d.log| && c.log == d.log[..|c.log|]
    && |c.scheduled| <= |d.scheduled| && c.scheduled == d.scheduled[..|c.scheduled|]
  }

  lemma {:induction false} ScheduleAllExtends(c: Clock, rs: seq<Request>)
    ensures Extends(c, ScheduleAll(c, rs))
    decreases |rs|
  {
    if rs != [] { ScheduleAllExtends(Schedule(c, rs[0]), rs[1..]); }
  }

  lemma {:induction false} FireDueExtends(c: Clock, h: Handlers)
    ensures Extends(c, FireDue(c, h))
    decreases Due(c.pending, c.total)
  {
    if IsDue(c) {
      var r := h(c.pending[0], c.total);
      ScheduleAllExtends(Taken(c, r.switch), r.requests);
      FireIsProgress(c, h);
      FireDueExtends(Fire(c, h), h);
    }
  }

  lemma CheckExtends(c: Clock, h: Handlers, advanceClock: bool)
    ensures Extends(c, CheckIfDue(c, h, advanceClock).0)
  {
    FireDueExtends((if advanceClock then Advanced(c) else c).(inHandler := true), h);
  }

  lemma TickExtends(c: Clock, h: Handlers)
    ensures Extends(c, OneTick(c, h))
  {
    CheckExtends(Later(c), h, false);
  }

  lemma StepExtends(c: Clock, h: Handlers, op: Op)
    ensures Extends(c, Step(c, h, op))
  {
    match op
    case CallSetLevel(now) => TickExtends(c.(level := now), h);
    case CallOneTick => TickExtends(c, h);
    case CallIdle => CheckExtends(c.(status := IdleMode), h, true);
    case _ =>
  }
}
