/** machine/disk.cc: how long a request takes - seek, rotation, and the track buffer. */
module DiskTiming {

  const SECTORS_PER_TRACK := 32
  const NUM_SECTORS := 1024
  const SEEK_TIME := 500
  const ROTATION_TIME := 500

  type Sector = s: nat | s < NUM_SECTORS

  /** Where the head was last sent, and when the track buffer began to fill. */
  datatype Head = Head(lastSector: Sector, bufferInit: nat)

  // ---- the code -------------------------------------------------------------

  function Distance(a: nat, b: nat): nat {
    if a > b then a - b else b - a
  }

  /** TimeToSeek: the time to reach the track, and from there to the next sector boundary. */
  function TimeToSeek(h: Head, newSector: Sector, now: nat): (nat, nat) {
    var seek := Distance(newSector / SECTORS_PER_TRACK, h.lastSector / SECTORS_PER_TRACK) * SEEK_TIME;
    var over := (now + seek) % ROTATION_TIME;
    (seek, if over > 0 then ROTATION_TIME - over else 0)
  }

  function ModuloDiff(to: nat, from: nat): nat {
    (to % SECTORS_PER_TRACK - from % SECTORS_PER_TRACK + SECTORS_PER_TRACK) % SECTORS_PER_TRACK
  }

  /** The time of the first sector boundary the head is ready at. */
  function TimeAfter(h: Head, newSector: Sector, now: nat): nat {
    var t := TimeToSeek(h, newSector, now);
    now + t.0 + t.1
  }

  predicate BufferHit(h: Head, newSector: Sector, writing: bool, now: nat) {
    && !writing && TimeToSeek(h, newSector, now).0 == 0
    && TruncatedDiv(TimeAfter(h, newSector, now) - h.bufferInit, ROTATION_TIME)
         > ModuloDiff(newSector, h.bufferInit / ROTATION_TIME)
  }

  /** C's division. */
  function TruncatedDiv(a: int, b: nat): int
    requires b > 0
  {
    if a >= 0 then a / b else -((-a) / b)
  }

  function Unbuffered(h: Head, newSector: Sector, now: nat): nat {
    TimeAfter(h, newSector, now) - now
      + ModuloDiff(newSector, TimeAfter(h, newSector, now) / ROTATION_TIME) * ROTATION_TIME + ROTATION_TIME
  }

  function ComputeLatency(h: Head, newSector: Sector, writing: bool, now: nat): nat {
    if BufferHit(h, newSector, writing, now) then ROTATION_TIME else Unbuffered(h, newSector, now)
  }

  function UpdateLast(h: Head, newSector: Sector, now: nat): Head {
    Head(newSector, if TimeToSeek(h, newSector, now).0 != 0 then TimeAfter(h, newSector, now) else h.bufferInit)
  }

  // ---- what the disk does physically ----------------------------------------

  /** The disk turns by one sector per ROTATION_TIME: the sector whose passage under the head begins at a
      sector boundary t. */
  function UnderHead(t: nat): nat {
    t / ROTATION_TIME % SECTORS_PER_TRACK
  }

  predicate Boundary(t: nat) {
    t % ROTATION_TIME == 0
  }

  /** The sector passes completely under the head from time t on. */
  predicate Passes(sector: Sector, t: nat) {
    Boundary(t) && UnderHead(t) == sector % SECTORS_PER_TRACK
  }

  lemma TimeAfterIsBoundary(h: Head, s: Sector, now: nat)
    ensures Boundary(TimeAfter(h, s, now)) && TimeAfter(h, s, now) >= now
    ensures TimeAfter(h, s, now) - now <= 15999
  {
    var x := now + TimeToSeek(h, s, now).0;
    RoundUp(x);
    assert s / SECTORS_PER_TRACK <= 31 && h.lastSector / SECTORS_PER_TRACK <= 31;
  }

  lemma RoundUp(x: nat)
    ensures var over := x % ROTATION_TIME; Boundary(x + if over > 0 then ROTATION_TIME - over else 0)
  {
    var q := x / ROTATION_TIME;
    assert x == ROTATION_TIME * q + x % ROTATION_TIME;
    if x % ROTATION_TIME > 0 { assert x + ROTATION_TIME - x % ROTATION_TIME == ROTATION_TIME * (q + 1); }
  }

  /** From a boundary on, the sector first passes ModuloDiff sectors later. */
  lemma FirstPassage(s: Sector, t: nat, u: nat)
    requires Boundary(t) && Boundary(u) && u >= t
    ensures ModuloDiff(s, t / ROTATION_TIME) < SECTORS_PER_TRACK
    ensures Passes(s, t + ModuloDiff(s, t / ROTATION_TIME) * ROTATION_TIME)
    ensures Passes(s, u) ==> u >= t + ModuloDiff(s, t / ROTATION_TIME) * ROTATION_TIME
  {
    var i, j, d := t / ROTATION_TIME, u / ROTATION_TIME, ModuloDiff(s, t / ROTATION_TIME);
    assert t == ROTATION_TIME * i && u == ROTATION_TIME * j;
    Turn(s, i, j);
    assert (t + d * ROTATION_TIME) == ROTATION_TIME * (i + d);
  }

  lemma Turn(s: nat, i: nat, j: nat)
    requires j >= i
    ensures var d := ModuloDiff(s, i); d < SECTORS_PER_TRACK && (i + d) % SECTORS_PER_TRACK == s % SECTORS_PER_TRACK
    ensures j % SECTORS_PER_TRACK == s % SECTORS_PER_TRACK ==> j >= i + ModuloDiff(s, i)
  {
    var a, b := s % 32, i % 32;
    var d := ModuloDiff(s, i);
    assert d == if a >= b then a - b else a - b + 32;
    assert i == 32 * (i / 32) + b;
    assert j == 32 * (j / 32) + j % 32;
    assert i + d == (if a >= b then 32 * (i / 32) else 32 * (i / 32 + 1)) + a;
  }

  /** Without a buffer hit, the transfer starts on a sector boundary, exactly when the target sector comes
      under the head, at its first passage there; it ends with the request. */
  lemma TransferStartsAtSector(h: Head, s: Sector, now: nat)
    ensures var start := now + Unbuffered(h, s, now) - ROTATION_TIME;
      && start >= TimeAfter(h, s, now) && Passes(s, start)
      && (forall u: nat | TimeAfter(h, s, now) <= u < start :: !Passes(s, u))
  {
    TimeAfterIsBoundary(h, s, now);
    var t := TimeAfter(h, s, now);
    FirstPassage(s, t, t);
    forall u: nat | t <= u < now + Unbuffered(h, s, now) - ROTATION_TIME
      ensures !Passes(s, u)
    {
      if Boundary(u) { FirstPassage(s, t, u); }
    }
  }

  lemma LatencyBounds(h: Head, s: Sector, writing: bool, now: nat)
    ensures 500 <= ComputeLatency(h, s, writing, now) <= 31999
    ensures ComputeLatency(h, s, writing, now) <= Unbuffered(h, s, now)
  {
    TimeAfterIsBoundary(h, s, now);
    FirstPassage(s, TimeAfter(h, s, now), TimeAfter(h, s, now));
  }

  /** The buffer began to fill on a sector boundary, and in the past. */
  predicate GoodHead(h: Head, now: nat) {
    Boundary(h.bufferInit) && h.bufferInit <= now
  }

  /** A read is answered from the buffer exactly when the head need not move and the whole sector has passed
      since the buffer began to fill, up to the next boundary. */
  lemma HitIsBuffered(h: Head, s: Sector, writing: bool, now: nat)
    requires GoodHead(h, now)
    ensures BufferHit(h, s, writing, now) <==>
      && !writing && s / SECTORS_PER_TRACK == h.lastSector / SECTORS_PER_TRACK
      && exists t: nat :: h.bufferInit <= t && t + ROTATION_TIME <= TimeAfter(h, s, now) && Passes(s, t)
  {
    TimeAfterIsBoundary(h, s, now);
    var from, to := h.bufferInit, TimeAfter(h, s, now);
    var d := ModuloDiff(s, from / ROTATION_TIME);
    FirstPassage(s, from, from);
    var first := from + d * ROTATION_TIME;
    assert Passes(s, first);
    WholeSectors(from, to, d);
    if exists t: nat :: from <= t && t + ROTATION_TIME <= to && Passes(s, t) {
      var t: nat :| from <= t && t + ROTATION_TIME <= to && Passes(s, t);
      FirstPassage(s, from, t);
    }
  }

  lemma WholeSectors(from: nat, to: nat, d: nat)
    requires from <= to
    ensures (to - from) / ROTATION_TIME > d <==> from + d * ROTATION_TIME + ROTATION_TIME <= to
  {
  }

  // ---- in terms of the moving head ------------------------------------------

  /** t is the first sector boundary at or after x. */
  predicate FirstBoundary(t: nat, x: nat) {
    Boundary(t) && x <= t < x + ROTATION_TIME
  }

  /** When the head, sent off at `now`, has got to the track: 500 ticks for each track on the way. */
  function Arrival(from: Sector, to: Sector, now: nat): nat {
    now + 500 * Distance(to / SECTORS_PER_TRACK, from / SECTORS_PER_TRACK)
  }

  lemma TimeAfterIsFirstBoundary(h: Head, s: Sector, now: nat)
    ensures FirstBoundary(TimeAfter(h, s, now), Arrival(h.lastSector, s, now))
    ensures TimeToSeek(h, s, now).0 == 0 <==> s / SECTORS_PER_TRACK == h.lastSector / SECTORS_PER_TRACK
  {
    RoundUp(Arrival(h.lastSector, s, now));
  }

  /** The latency, from how the disk turns: a hit takes the time of one sector; otherwise the transfer, which takes as
      long, begins when the target sector first comes under the head after its arrival at the track. */
  lemma LatencyExactly(h: Head, s: Sector, writing: bool, now: nat)
    ensures var ticks := ComputeLatency(h, s, writing, now);
            if BufferHit(h, s, writing, now) then ticks == 500
            else
              var start := now + ticks - 500;
              && start >= Arrival(h.lastSector, s, now) && Passes(s, start)
              && forall u: nat | Arrival(h.lastSector, s, now) <= u < start :: !Passes(s, u)
  {
    if !BufferHit(h, s, writing, now) {
      TransferStartsAtSector(h, s, now);
      TimeAfterIsFirstBoundary(h, s, now);
      forall u: nat | Arrival(h.lastSector, s, now) <= u < now + ComputeLatency(h, s, writing, now) - 500
        ensures !Passes(s, u)
      {
        if Boundary(u) && u < TimeAfter(h, s, now) {
          TwoBoundaries(u, TimeAfter(h, s, now));
        }
      }
    }
  }

  lemma TwoBoundaries(t: nat, u: nat)
    requires Boundary(t) && Boundary(u) && t < u
    ensures t + ROTATION_TIME <= u
  {
  }

  /** A read hits the buffer exactly when the head is on the track and the sector began to pass since the buffer
      began to fill, before now. */
  lemma HitExactly(h: Head, s: Sector, writing: bool, now: nat)
    requires GoodHead(h, now)
    ensures BufferHit(h, s, writing, now) <==>
      && !writing && s / SECTORS_PER_TRACK == h.lastSector / SECTORS_PER_TRACK
      && exists t: nat :: h.bufferInit <= t < now && Passes(s, t)
  {
    HitIsBuffered(h, s, writing, now);
    TimeAfterIsFirstBoundary(h, s, now);
    if s / SECTORS_PER_TRACK == h.lastSector / SECTORS_PER_TRACK {
      assert FirstBoundary(TimeAfter(h, s, now), now);
      forall t: nat | h.bufferInit <= t && Passes(s, t)
        ensures t + ROTATION_TIME <= TimeAfter(h, s, now) <==> t < now
      {
        if t < now { TwoBoundaries(t, TimeAfter(h, s, now)); }
      }
    }
  }

  // ---- sequences of requests ------------------------------------------------

  datatype Request = Request(sector: Sector, writing: bool, at: nat)

  /** The head after the requests, and the time by which the last of them is done. */
  function After(rs: seq<Request>): (Head, nat) {
    if rs == [] then (Head(0, 0), 0)
    else
      var h, r := After(rs[..|rs| - 1]).0, rs[|rs| - 1];
      (UpdateLast(h, r.sector, r.at), r.at + ComputeLatency(h, r.sector, r.writing, r.at))
  }

  /** One request at a time: each comes when the one before is done. */
  predicate OneAtATime(rs: seq<Request>) {
    rs == [] || (OneAtATime(rs[..|rs| - 1]) && rs[|rs| - 1].at >= After(rs[..|rs| - 1]).1)
  }

  /** At every request of every sequence the buffer started in the past, so the hit test means what it should. */
  lemma {:induction false} BufferStartedBefore(rs: seq<Request>)
    requires OneAtATime(rs)
    ensures GoodHead(After(rs).0, After(rs).1)
  {
    if rs != [] {
      var h, done, r := After(rs[..|rs| - 1]).0, After(rs[..|rs| - 1]).1, rs[|rs| - 1];
      BufferStartedBefore(rs[..|rs| - 1]);
      TimeAfterIsBoundary(h, r.sector, r.at);
    }
  }

  /** The hit test, the bound and the position under the head, for the next request after any sequence. */
  lemma EveryRequest(rs: seq<Request>, r: Request)
    requires OneAtATime(rs + [r])
    ensures var h := After(rs).0;
      && 500 <= ComputeLatency(h, r.sector, r.writing, r.at) <= 31999
      && (!BufferHit(h, r.sector, r.writing, r.at) ==>
            Passes(r.sector, r.at + ComputeLatency(h, r.sector, r.writing, r.at) - ROTATION_TIME))
      && (BufferHit(h, r.sector, r.writing, r.at) ==>
            exists t: nat ::
                h.bufferInit <= t && t + ROTATION_TIME <= TimeAfter(h, r.sector, r.at) && Passes(r.sector, t))
  {
    assert (rs + [r])[..|rs|] == rs;
    BufferStartedBefore(rs);
    LatencyBounds(After(rs).0, r.sector, r.writing, r.at);
    TransferStartsAtSector(After(rs).0, r.sector, r.at);
    HitIsBuffered(After(rs).0, r.sector, r.writing, r.at);
  }

  /** Where the head is before request k. */
  function HeadBefore(rs: seq<Request>, k: nat): Sector
    requires k <= |rs|
  {
    if k == 0 then 0 else rs[k - 1].sector
  }

  /** Request k moves the head to another track. */
  predicate Moves(rs: seq<Request>, k: nat)
    requires k < |rs|
  {
    rs[k].sector / SECTORS_PER_TRACK != HeadBefore(rs, k) / SECTORS_PER_TRACK
  }

  /** What one request does to the head and the buffer. */
  lemma UpdateMoves(h: Head, s: Sector, now: nat)
    ensures var h' := UpdateLast(h, s, now);
            && h'.lastSector == s
            && if s / SECTORS_PER_TRACK == h.lastSector / SECTORS_PER_TRACK then h'.bufferInit == h.bufferInit
               else FirstBoundary(h'.bufferInit, Arrival(h.lastSector, s, now))
  {
    TimeAfterIsFirstBoundary(h, s, now);
  }

  /** The first n requests decide since when the buffer has been filling: the last of them moved the head, and since
      then nothing has; or n is 0 and it has never moved. */
  predicate FillingSince(rs: seq<Request>, n: nat, bufferInit: nat) {
    && n <= |rs|
    && (forall k | n <= k < |rs| :: !Moves(rs, k))
    && if n == 0 then bufferInit == 0
       else
         && Moves(rs, n - 1)
         && FirstBoundary(bufferInit, Arrival(HeadBefore(rs, n - 1), rs[n - 1].sector, rs[n - 1].at))
  }

  lemma OneMoreRequest(rs: seq<Request>, n: nat, bufferInit: nat)
    requires rs != [] && FillingSince(rs[..|rs| - 1], n, bufferInit) && !Moves(rs, |rs| - 1)
    ensures FillingSince(rs, n, bufferInit)
  {
    var front := rs[..|rs| - 1];
    forall k | 0 <= k < |front|
      ensures Moves(front, k) == Moves(rs, k) && HeadBefore(front, k) == HeadBefore(rs, k) && front[k] == rs[k]
    {
    }
  }

  /** The track buffer has been filling since the head last came to a track, from the first sector boundary there; or
      since time 0 if it has never moved. */
  lemma {:induction false} BufferSinceSeek(rs: seq<Request>) returns (n: nat)
    ensures After(rs).0.lastSector == HeadBefore(rs, |rs|) && FillingSince(rs, n, After(rs).0.bufferInit)
    decreases |rs|
  {
    if rs == [] {
      n := 0;
    } else {
      var front, r := rs[..|rs| - 1], rs[|rs| - 1];
      n := BufferSinceSeek(front);
      assert HeadBefore(front, |front|) == HeadBefore(rs, |rs| - 1);
      UpdateMoves(After(front).0, r.sector, r.at);
      if Moves(rs, |rs| - 1) { n := |rs|; } else { OneMoreRequest(rs, n, After(front).0.bufferInit); }
    }
  }
}
