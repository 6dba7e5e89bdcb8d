/** What each operation of machine/interrupt.cc does to the clock, said without its code. */
module InterruptTicks {
  import opened Sequences
  import opened InterruptClock

  // ---- handlers -------------------------------------------------------------

  /** The interrupts that a handler's requests become, numbered from base on. */
  function Items(rs: seq<Request>, now: int, base: nat): (items: seq<Pending>)
    ensures |items| == |rs|
  {
    seq(|rs|, i requires 0 <= i < |rs| => Pending(rs[i].device, now + rs[i].delay, rs[i].kind, base + i))
  }

  /** The interrupts requested by the handlers that have run, in order. */
  function Requested(h: Handlers, fs: seq<Firing>, base: nat): seq<Pending> {
    if fs == [] then []
    else Items(h(fs[0].item, fs[0].at).requests, fs[0].at, base)
         + Requested(h, fs[1..], base + |h(fs[0].item, fs[0].at).requests|)
  }

  /** One of the handlers that have run asked for a context switch. */
  predicate Asked(h: Handlers, fs: seq<Firing>) {
    exists k | 0 <= k < |fs| :: h(fs[k].item, fs[k].at).switch
  }

  /** The handlers that ran between two states of the clock. */
  function Fired(c: Clock, d: Clock): seq<Firing>
    requires |c.log| <= |d.log|
  {
    d.log[|c.log|..]
  }

  /** From c to d the clock has stood still, some handlers have run, and what they asked for has been done. */
  predicate Reacted(c: Clock, h: Handlers, d: Clock) {
    && Extends(c, d)
    && d == c.(pending := d.pending, scheduled := d.scheduled, log := d.log, yieldOnReturn := d.yieldOnReturn)
    && d.scheduled == c.scheduled + Requested(h, Fired(c, d), |c.scheduled|)
    && d.yieldOnReturn == (c.yieldOnReturn || Asked(h, Fired(c, d)))
    && (forall f | f in Fired(c, d) :: f.at == c.total && f.item.when <= c.total)
  }

  lemma {:induction false} ScheduleAllAdds(c: Clock, rs: seq<Request>)
    ensures ScheduleAll(c, rs).scheduled == c.scheduled + Items(rs, c.total, |c.scheduled|)
    ensures SameClock(c, ScheduleAll(c, rs))
    decreases |rs|
  {
    if rs != [] {
      ScheduleAllAdds(Schedule(c, rs[0]), rs[1..]);
      assert Items(rs, c.total, |c.scheduled|)
          == [Items(rs, c.total, |c.scheduled|)[0]] + Items(rs[1..], c.total, |c.scheduled| + 1);
    }
  }

  lemma FireReacts(c: Clock, h: Handlers)
    requires IsDue(c)
    ensures Reacted(c, h, Fire(c, h)) && Fired(c, Fire(c, h)) == [Firing(c.pending[0], c.total)]
  {
    var f := Firing(c.pending[0], c.total);
    var r := h(f.item, f.at);
    ScheduleAllAdds(Taken(c, r.switch), r.requests);
    assert Requested(h, [f], |c.scheduled|) == Items(r.requests, c.total, |c.scheduled|);
    assert Fired(c, Fire(c, h)) == [f];
    assert Asked(h, [f]) <==> r.switch by {
      if r.switch { assert h([f][0].item, [f][0].at).switch; }
    }
  }

  lemma AskedFirst(h: Handlers, f: Firing, gs: seq<Firing>)
    ensures Asked(h, [f] + gs) <==> Asked(h, [f]) || Asked(h, gs)
  {
    assert ([f] + gs)[0] == [f][0];
    if Asked(h, gs) {
      var k :| 0 <= k < |gs| && h(gs[k].item, gs[k].at).switch;
      assert ([f] + gs)[k + 1] == gs[k];
    }
  }

  lemma RequestedFirst(h: Handlers, f: Firing, gs: seq<Firing>, base: nat)
    ensures Requested(h, [f] + gs, base)
         == Requested(h, [f], base) + Requested(h, gs, base + |Requested(h, [f], base)|)
  {
    assert ([f] + gs)[1..] == gs && [f][1..] == [];
    assert Requested(h, [f], base) == Items(h(f.item, f.at).requests, f.at, base);
  }

  lemma FiredOnward(c: Clock, d: Clock, e: Clock)
    requires Extends(c, d) && Extends(d, e)
    ensures Extends(c, e) && Fired(c, e) == Fired(c, d) + Fired(d, e)
  {
    assert c.log == e.log[..|d.log|][..|c.log|] == e.log[..|c.log|];
    assert c.scheduled == e.scheduled[..|d.scheduled|][..|c.scheduled|] == e.scheduled[..|c.scheduled|];
    assert d.log == e.log[..|d.log|];
  }

  lemma RequestedOnward(c: Clock, h: Handlers, d: Clock, e: Clock, f: Firing, gs: seq<Firing>)
    requires d.scheduled == c.scheduled + Requested(h, [f], |c.scheduled|)
    requires e.scheduled == d.scheduled + Requested(h, gs, |d.scheduled|)
    ensures e.scheduled == c.scheduled + Requested(h, [f] + gs, |c.scheduled|)
  {
    RequestedFirst(h, f, gs, |c.scheduled|);
    assert e.scheduled == c.scheduled + (Requested(h, [f], |c.scheduled|) + Requested(h, gs, |d.scheduled|));
  }

  lemma ReactedOnward(c: Clock, h: Handlers, d: Clock, e: Clock)
    requires Reacted(c, h, d) && |Fired(c, d)| == 1 && Reacted(d, h, e)
    ensures Reacted(c, h, e)
  {
    var f, gs := Fired(c, d)[0], Fired(d, e);
    assert Fired(c, d) == [f];
    FiredOnward(c, d, e);
    AskedFirst(h, f, gs);
    RequestedOnward(c, h, d, e, f, gs);
  }

  lemma {:induction false} FireDueReacts(c: Clock, h: Handlers)
    ensures Reacted(c, h, FireDue(c, h))
    decreases Due(c.pending, c.total)
  {
    if IsDue(c) {
      FireReacts(c, h);
      FireIsProgress(c, h);
      FireDueReacts(Fire(c, h), h);
      ReactedOnward(c, h, Fire(c, h), FireDue(c, h));
    } else {
      assert Fired(c, c) == [] && c.scheduled + [] == c.scheduled;
    }
  }

  lemma CheckReacts(c: Clock, h: Handlers)
    requires !c.inHandler
    ensures Reacted(c, h, CheckIfDue(c, h, false).0)
  {
    FireDueReacts(c, h);
    HandlerFlag(c, h);
  }

  /** inHandler makes no difference to what fires. */
  lemma {:induction false} HandlerFlag(c: Clock, h: Handlers)
    ensures FireDue(c.(inHandler := true), h).(inHandler := c.inHandler) == FireDue(c, h)
    decreases Due(c.pending, c.total)
  {
    if IsDue(c) {
      var r := h(c.pending[0], c.total);
      HandlerFlagSchedule(Taken(c, r.switch), r.requests);
      FireIsProgress(c, h);
      HandlerFlag(Fire(c, h), h);
    }
  }

  lemma {:induction false} HandlerFlagSchedule(c: Clock, rs: seq<Request>)
    ensures ScheduleAll(c.(inHandler := true), rs) == ScheduleAll(c, rs).(inHandler := true)
    ensures ScheduleAll(c, rs).inHandler == c.inHandler
    decreases |rs|
  {
    if rs != [] { HandlerFlagSchedule(Schedule(c, rs[0]), rs[1..]); }
  }

  // ---- the operations -------------------------------------------------------

  /** d is c after one tick: 10 for kernel code and 1 for user code, on the counter of the mode and on the total;
      then everything due has run and interrupts are on.  A switch a handler asked for is left to the caller. */
  predicate OneTickLater(c: Clock, h: Handlers, d: Clock) {
    && d.total == c.total + (if c.status == SystemMode then 10 else 1)
    && d.system == c.system + (if c.status == SystemMode then 10 else 0)
    && d.user == c.user + (if c.status == SystemMode then 0 else 1)
    && d.idle == c.idle && d.level == IntOn && !d.inHandler && !d.yieldOnReturn
    && Extends(c, d) && Future(d)
    && (forall f | f in Fired(c, d) :: f.at == d.total)
    && d.scheduled == c.scheduled + Requested(h, Fired(c, d), |c.scheduled|)
    && d.status == if MustYield(c, h, d) then SystemMode else c.status
  }

  /** A handler has asked for a context switch, in this tick or before. */
  predicate MustYield(c: Clock, h: Handlers, d: Clock)
    requires |c.log| <= |d.log|
  {
    c.yieldOnReturn || Asked(h, Fired(c, d))
  }

  lemma TickTicks(c: Clock, h: Handlers)
    requires Inv(c)
    ensures OneTickLater(c, h, OneTick(c, h))
    ensures CheckIfDue(Later(c), h, false).0.yieldOnReturn == MustYield(c, h, OneTick(c, h))
  {
    TickKeepsInv(c, h);
    CheckReacts(Later(c), h);
    var e := CheckIfDue(Later(c), h, false).0;
    assert Fired(c, OneTick(c, h)) == Fired(Later(c), e);
  }

  /** Interrupts are on or off as asked; only turning them on that were off takes time. */
  lemma SetLevelTicks(c: Clock, h: Handlers, now: IntStatus)
    requires Inv(c)
    ensures var d := SetLevel(c, h, now);
            && d.level == now
            && (c.level == IntOff && now == IntOn ==> OneTickLater(c.(level := IntOn), h, d))
            && (c.level == IntOn || now == IntOff ==> d == c.(level := now))
  {
    SameQueue(c, c.(level := now));
    TickTicks(c.(level := now), h);
  }

  /** Idling goes on to the next interrupt, on the idle counter, and runs what is due then; with nothing pending the
      clock stays and the machine halts. */
  lemma IdleAdvances(c: Clock, h: Handlers)
    requires Inv(c)
    ensures var d := Idle(c, h);
            if c.pending == [] then d == c.(status := IdleMode)
            else
              && d.total == c.pending[0].when > c.total && d.idle == c.idle + (d.total - c.total)
              && d.system == c.system && d.user == c.user && d.level == c.level && d.status == SystemMode
              && Extends(c, d) && Future(d) && Fired(c, d) != [] && Fired(c, d)[0] == Firing(c.pending[0], d.total)
              && d.scheduled == c.scheduled + Requested(h, Fired(c, d), |c.scheduled|)
              && d.yieldOnReturn == MustYield(c, h, d)
  {
    IdleKeepsInv(c, h);
    if c.pending != [] {
      var c1 := Advanced(c.(status := IdleMode));
      assert c.pending[0] in c.pending;
      AdvancedKeeps(c.(status := IdleMode));
      FireDueReacts(c1, h);
      HandlerFlag(c1, h);
      FirstFired(c1, h);
      assert Fired(c, Idle(c, h)) == Fired(c1, FireDue(c1, h));
    }
  }

  /** The loop begins with the front of the list. */
  lemma FirstFired(c: Clock, h: Handlers)
    requires IsDue(c)
    ensures |FireDue(c, h).log| > |c.log| && FireDue(c, h).log[|c.log|] == Firing(c.pending[0], c.total)
  {
    FireIsProgress(c, h);
    FireReacts(c, h);
    FireDueReacts(Fire(c, h), h);
    assert Fired(c, Fire(c, h))[0] == Fire(c, h).log[|c.log|];
    assert FireDue(c, h).log[..|Fire(c, h).log|] == Fire(c, h).log;
  }

  /** Schedule asks for an interrupt at the given distance from now, of the given kind, and does no more. */
  lemma ScheduleAsks(c: Clock, r: Request)
    ensures var d, p := Schedule(c, r), Pending(r.device, c.total + r.delay, r.kind, |c.scheduled|);
            && d.scheduled == c.scheduled + [p] && p in d.pending && |d.pending| == |c.pending| + 1
            && (forall q | q in c.pending :: q in d.pending) && SameClock(c, d)
  {
    var p := Pending(r.device, c.total + r.delay, r.kind, |c.scheduled|);
    InsertedLength(c.pending, p);
    InsertedMembers(c.pending, p, Compare, p);
    forall q | q in c.pending
      ensures q in Schedule(c, r).pending
    {
      InsertedMembers(c.pending, p, Compare, q);
    }
  }

  lemma {:induction false} InsertedLength(q: seq<Pending>, x: Pending)
    ensures |Insert(q, x, Compare)| == |q| + 1
  {
    if q != [] && Compare(x, q[0]) >= 0 { InsertedLength(q[1..], x); }
  }
}
