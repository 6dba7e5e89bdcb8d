/** The two devices behind the protocol: the disk's sectors (machine/disk.cc) and the outgoing side of the
    network (machine/network.cc). */
module Devices {
  import opened Sequences
  import opened Bytes
  import opened DeviceProtocol

  // ---- the disk -------------------------------------------------------------

  type Data = seq<byte>

  datatype DiskOp = ReadSector(sector: nat) | WriteSector(sector: nat, data: Data)

  /** ReadRequest and WriteRequest transfer the sector at once. */
  function Transfer(sectors: map<nat, Data>, op: DiskOp): (map<nat, Data>, Data) {
    match op
    case ReadSector(n) => (sectors, if n in sectors then sectors[n] else [])
    case WriteSector(n, data) => (sectors[n := data], [])
  }

  /** The data of the last write to a sector before entry k of the log, or what was there at the start. */
  function LastWritten(start: map<nat, Data>, log: seq<Entry<DiskOp, Data>>, n: nat): Data {
    if log == [] then if n in start then start[n] else []
    else
      var op := log[|log| - 1].op;
      if op.WriteSector? && op.sector == n then op.data else LastWritten(start, log[..|log| - 1], n)
  }

  lemma {:induction false} ReplayIsLastWritten(start: map<nat, Data>, log: seq<Entry<DiskOp, Data>>, n: nat)
    ensures var d := Replay(Transfer, start, log); (if n in d then d[n] else []) == LastWritten(start, log, n)
    decreases |log|
  {
    if log != [] { ReplayIsLastWritten(start, log[..|log| - 1], n); }
  }

  /** The state of a run in which thread t is about to return from a call. */
  predicate Returns<D(==), O(==), R(==)>(act: Act<D, O, R>, states: seq<State<D, O, R>>, steps: seq<Step<O>>, i: nat,
                                         t: Tid) {
    && IsRun(act, states, steps) && i < |states|
    && t in states[i].places && states[i].places[t].Finished?
  }

  /** What a thread returns is the result of its own request, which the device took after the call began and
      completed before it ended. */
  lemma ReturnsOwnResult<D, O, R>(act: Act<D, O, R>, states: seq<State<D, O, R>>, steps: seq<Step<O>>, i: nat, t: Tid)
    requires Returns(act, states, steps, i, t)
    ensures var s, p := states[i], states[i].places[t];
      && p.c.since <= p.at < s.completed <= |s.log| && s.log[p.at] == Entry(t, p.c.op, p.result)
      && p.result == act(Replay(act, s.start, s.log[..p.at]), p.c.op).1
  {
    EveryRun(act, states, steps, i);
    assert CallAt(states[i], t);
  }

  /** SynchDisk is an atomic array of sectors: ReadSector returns what the last write to that sector wrote, at
      a moment between the call and the return. */
  lemma ReadsSeeLastWrite(states: seq<State<map<nat, Data>, DiskOp, Data>>, steps: seq<Step<DiskOp>>, i: nat, t: Tid)
    requires Returns(Transfer, states, steps, i, t) && states[i].places[t].c.op.ReadSector?
    ensures var s, p := states[i], states[i].places[t];
      && p.c.since <= p.at < s.completed <= |s.log| && s.log[p.at].thread == t
      && p.result == LastWritten(s.start, s.log[..p.at], p.c.op.sector)
  {
    ReturnsOwnResult(Transfer, states, steps, i, t);
    ReplayIsLastWritten(states[i].start, states[i].log[..states[i].places[t].at], states[i].places[t].c.op.sector);
  }

  /** A read that begins after a write to the sector has returned gets that write's data, or the data of a
      write the disk took later. */
  lemma ReadAfterWrite(states: seq<State<map<nat, Data>, DiskOp, Data>>, steps: seq<Step<DiskOp>>,
                       i: nat, t: Tid, j: nat, l: nat, u: Tid) returns (k: nat)
    requires IsRun(Transfer, states, steps) && i < j && j < |steps| && steps[i] == Return(t)
    requires t in states[i].places && states[i].places[t].Finished? && states[i].places[t].c.op.WriteSector?
    requires SameCall(steps, j, l, u) && Returns(Transfer, states, steps, l, u)
    requires states[l].places[u].c.op == ReadSector(states[i].places[t].c.op.sector)
    ensures var s, p, q := states[l], states[i].places[t], states[l].places[u];
      && p.at <= k < q.at < |s.log|
      && s.log[k].op == WriteSector(p.c.op.sector, q.result) && (k == p.at ==> q.result == p.c.op.data)
  {
    RealTimeOrder(Transfer, states, steps, i, t, j, l, u);
    ReadsSeeLastWrite(states, steps, l, u);
    k := LastWriteAt(states[l].start, states[l].log[..states[l].places[u].at], states[i].places[t].c.op.sector,
                     states[i].places[t].at);
  }

  /** The last write to a sector, if entry w is one. */
  lemma {:induction false} LastWriteAt(start: map<nat, Data>, log: seq<Entry<DiskOp, Data>>, n: nat, w: nat)
    returns (k: nat)
    requires w < |log| && log[w].op.WriteSector? && log[w].op.sector == n
    ensures w <= k < |log| && log[k].op == WriteSector(n, LastWritten(start, log, n))
    decreases |log|
  {
    var op := log[|log| - 1].op;
    if op.WriteSector? && op.sector == n {
      k := |log| - 1;
    } else {
      k := LastWriteAt(start, log[..|log| - 1], n, w);
    }
  }

  // ---- the outgoing network -------------------------------------------------

  /** A packet, and whether the unreliable network delivers it. */
  datatype Packet = Packet(to: int, wire: Data, delivered: bool)

  /** NetworkOutput::Send hands the packet to the socket, or loses it; the completion comes either way. */
  function Transmit(sent: seq<Packet>, p: Packet): (seq<Packet>, bool) {
    (if p.delivered then sent + [p] else sent, p.delivered)
  }

  function Delivered(log: seq<Entry<Packet, bool>>): seq<Packet> {
    if log == [] then []
    else if log[|log| - 1].op.delivered then Delivered(log[..|log| - 1]) + [log[|log| - 1].op]
    else Delivered(log[..|log| - 1])
  }

  lemma {:induction false} ReplayIsDelivered(sent: seq<Packet>, log: seq<Entry<Packet, bool>>)
    ensures Replay(Transmit, sent, log) == sent + Delivered(log)
    decreases |log|
  {
    if log != [] { ReplayIsDelivered(sent, log[..|log| - 1]); }
  }

  /** The packets delivered so far, counted by request. */
  lemma {:induction false} DeliveredInOrder(log: seq<Entry<Packet, bool>>, i: nat, j: nat)
    requires i < j < |log| && log[i].op.delivered && log[j].op.delivered
    ensures |Delivered(log[..i])| < |Delivered(log[..j])| < |Delivered(log)|
    ensures Delivered(log)[|Delivered(log[..i])|] == log[i].op && Delivered(log)[|Delivered(log[..j])|] == log[j].op
    decreases |log|
  {
    DeliveredAt(log, i);
    DeliveredAt(log, j);
    DeliveredAt(log[..j], i);
    assert log[..j][..i] == log[..i];
  }

  lemma {:induction false} DeliveredAt(log: seq<Entry<Packet, bool>>, i: nat)
    requires i < |log| && log[i].op.delivered
    ensures |Delivered(log[..i])| < |Delivered(log)| && Delivered(log)[|Delivered(log[..i])|] == log[i].op
    decreases |log|
  {
    if i == |log| - 1 {
      assert log[..i] == log[..|log| - 1];
    } else {
      DeliveredAt(log[..|log| - 1], i);
      assert log[..|log| - 1][..i] == log[..i];
    }
  }

  /** Packets go out whole, in the order in which the network took them, less those it loses; a Send that has
      returned has had its own packet taken, during the call. */
  lemma PacketsInOrder(states: seq<State<seq<Packet>, Packet, bool>>, steps: seq<Step<Packet>>, i: nat, t: Tid)
    requires Returns(Transmit, states, steps, i, t) && states[i].start == []
    ensures states[i].device == Delivered(states[i].log)
    ensures var s, p := states[i], states[i].places[t];
            p.c.since <= p.at < s.completed <= |s.log| && s.log[p.at] == Entry(t, p.c.op, p.c.op.delivered)
  {
    EveryRun(Transmit, states, steps, i);
    ReplayIsDelivered([], states[i].log);
    ReturnsOwnResult(Transmit, states, steps, i, t);
  }

  /** A Send that begins after another has returned puts its packet behind the other's. */
  lemma SendsInOrder(states: seq<State<seq<Packet>, Packet, bool>>, steps: seq<Step<Packet>>,
                     i: nat, t: Tid, j: nat, l: nat, u: Tid) returns (x: nat, y: nat)
    requires IsRun(Transmit, states, steps) && i < j && j < |steps| && steps[i] == Return(t)
    requires t in states[i].places && states[i].places[t].Finished? && states[i].places[t].c.op.delivered
    requires SameCall(steps, j, l, u) && Returns(Transmit, states, steps, l, u) && states[l].places[u].c.op.delivered
    requires states[l].start == []
    ensures x < y < |states[l].device|
    ensures states[l].device[x] == states[i].places[t].c.op && states[l].device[y] == states[l].places[u].c.op
  {
    RealTimeOrder(Transmit, states, steps, i, t, j, l, u);
    PacketsInOrder(states, steps, l, u);
    var log, a, b := states[l].log, states[i].places[t].at, states[l].places[u].at;
    DeliveredInOrder(log, a, b);
    x, y := |Delivered(log[..a])|, |Delivered(log[..b])|;
  }
}
