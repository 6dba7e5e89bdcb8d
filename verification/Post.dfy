/** network/post.cc over machine/network.cc: mail on the wire, and the way of an arriving packet through the
    one-packet buffer and the postal worker into a mailbox. */
module PostOffice {
  import opened Sequences
  import opened Bytes

  const MAX_WIRE_SIZE := 64
  const HEADER_SIZE := 12                                // of a PacketHeader and of a MailHeader
  const MAX_PACKET_SIZE := MAX_WIRE_SIZE - HEADER_SIZE
  const MAX_MAIL_SIZE := MAX_PACKET_SIZE - HEADER_SIZE

  /** PacketHeader and MailHeader have the same layout: two addresses and a length. */
  datatype Header = Header(to: int32, from: int32, length: nat)

  type Wire = w: seq<byte> | |w| == MAX_WIRE_SIZE witness seq(MAX_WIRE_SIZE, i => 0)
  type Buffer = w: seq<byte> | |w| == MAX_PACKET_SIZE witness seq(MAX_PACKET_SIZE, i => 0)

  datatype Mail = Mail(pktHdr: Header, mailHdr: Header, data: seq<byte>)

  // ---- the format -----------------------------------------------------------

  function EncodeHeader(h: Header): (b: seq<byte>)
    requires h.length <= INT_MAX
    ensures |b| == HEADER_SIZE
  {
    EncodeInt(h.to) + EncodeInt(h.from) + EncodeInt(h.length)
  }

  /** The length is unsigned. */
  function DecodeHeader(b: seq<byte>): Header
    requires |b| == HEADER_SIZE
  {
    var n := DecodeInt(b[8..12]);
    Header(DecodeInt(b[0..4]), DecodeInt(b[4..8]), if n < 0 then n + 0x1_0000_0000 else n)
  }

  lemma HeaderRoundTrip(h: Header)
    requires h.length <= INT_MAX
    ensures DecodeHeader(EncodeHeader(h)) == h
  {
    var b := EncodeHeader(h);
    assert b[0..4] == EncodeInt(h.to) && b[4..8] == EncodeInt(h.from) && b[8..12] == EncodeInt(h.length);
    IntRoundTrip(h.to);
    IntRoundTrip(h.from);
    IntRoundTrip(h.length);
  }

  /** What PostOfficeOutput::Send and NetworkOutput::Send put on the wire; the bytes behind the message are
      whatever was in the sender's buffer. */
  function Sent(to: int32, host: int32, mailHdr: Header, data: seq<byte>, junk: seq<byte>): Wire
    requires |data| == mailHdr.length <= MAX_MAIL_SIZE && |junk| == MAX_MAIL_SIZE - |data|
  {
    EncodeHeader(Header(to, host, mailHdr.length + HEADER_SIZE)) + EncodeHeader(mailHdr) + data + junk
  }

  function PacketHeader(w: Wire): Header {
    DecodeHeader(w[..HEADER_SIZE])
  }

  function MailHeaderOf(w: Wire): Header {
    DecodeHeader(w[HEADER_SIZE..2 * HEADER_SIZE])
  }

  /** The mail in a packet. */
  function MailIn(w: Wire): Mail
    requires MailHeaderOf(w).length <= MAX_MAIL_SIZE
  {
    var m := MailHeaderOf(w);
    Mail(PacketHeader(w), m, w[2 * HEADER_SIZE..2 * HEADER_SIZE + m.length])
  }

  /** What is sent arrives: both headers and the payload. */
  lemma WireRoundTrip(to: int32, host: int32, mailHdr: Header, data: seq<byte>, junk: seq<byte>)
    requires |data| == mailHdr.length <= MAX_MAIL_SIZE && |junk| == MAX_MAIL_SIZE - |data|
    ensures var w := Sent(to, host, mailHdr, data, junk);
      && MailHeaderOf(w) == mailHdr
      && MailIn(w) == Mail(Header(to, host, mailHdr.length + HEADER_SIZE), mailHdr, data)
  {
    var w := Sent(to, host, mailHdr, data, junk);
    var h := Header(to, host, mailHdr.length + HEADER_SIZE);
    assert w[..HEADER_SIZE] == EncodeHeader(h);
    assert w[HEADER_SIZE..2 * HEADER_SIZE] == EncodeHeader(mailHdr);
    assert w[2 * HEADER_SIZE..2 * HEADER_SIZE + mailHdr.length] == data;
    HeaderRoundTrip(h);
    HeaderRoundTrip(mailHdr);
  }

  // ---- the receiving side ---------------------------------------------------

  datatype Worker =
    | Waiting                  // in messageAvailable->P()
    | Called                   // past P, about to Receive
    | Carrying(pktHdr: Header) // has the packet in its buffer

  /** `arrived` is every packet the socket has ever held, `taken` the mail taken out of each box, `delivered`
      how many packets the worker has put into boxes. */
  datatype State = State(
    host: int32, socket: seq<Wire>, inHdr: Header, inbox: Buffer, available: nat,
    worker: Worker, buffer: Buffer, boxes: seq<seq<Mail>>,
    arrived: seq<Wire>, taken: seq<seq<Mail>>, delivered: nat)

  datatype Step =
    | Arrive(w: Wire)  // a packet reaches the socket
    | CallBack         // NetworkInput::CallBack, polled by the clock
    | PassP            // the worker gets past P
    | Receive          // NetworkInput::Receive, called by the worker
    | Put              // the worker puts the mail into its box
    | Get(box: nat)    // some thread takes mail from a box

  /** The first n bytes of a buffer are overwritten. */
  function Overwrite(b: Buffer, data: seq<byte>): Buffer
    requires |data| <= MAX_PACKET_SIZE
  {
    data + b[|data|..]
  }

  predicate Enabled(s: State, step: Step) {
    match step
    case PassP => s.worker == Waiting && s.available > 0
    case Receive => s.worker == Called
    case Put => s.worker.Carrying?
    case Get(box) => box < |s.boxes| && |s.taken| == |s.boxes| && s.boxes[box] != []
    case _ => true
  }

  predicate WillRead(s: State) {
    s.inHdr.length == 0 && s.socket != []
  }

  /** The ASSERTs of CallBack and PostalDelivery. */
  predicate Safe(s: State, step: Step) {
    match step
    case CallBack => WillRead(s) ==>
      PacketHeader(s.socket[0]).to == s.host && PacketHeader(s.socket[0]).length <= MAX_PACKET_SIZE
    case Receive => s.inHdr.length <= MAX_PACKET_SIZE
    case Put =>
      var m := DecodeHeader(s.buffer[..HEADER_SIZE]);
      0 <= m.to < |s.boxes| && m.length <= MAX_MAIL_SIZE
    case _ => true
  }

  function Next(s: State, step: Step): State
    requires Enabled(s, step) && Safe(s, step)
  {
    match step
    case Arrive(w) => s.(socket := s.socket + [w], arrived := s.arrived + [w])
    case CallBack =>
      if !WillRead(s) then s
      else
        var w := s.socket[0];
        var h := PacketHeader(w);
        s.(socket := s.socket[1..], inHdr := h, inbox := Overwrite(s.inbox, w[HEADER_SIZE..HEADER_SIZE + h.length]),
           available := s.available + 1)
    case PassP => s.(worker := Called, available := s.available - 1)
    case Receive =>
      s.(worker := Carrying(s.inHdr), inHdr := s.inHdr.(length := 0),
         buffer := if s.inHdr.length != 0 then Overwrite(s.buffer, s.inbox[..s.inHdr.length]) else s.buffer)
    case Put =>
      var m := DecodeHeader(s.buffer[..HEADER_SIZE]);
      var mail := Mail(s.worker.pktHdr, m, s.buffer[HEADER_SIZE..HEADER_SIZE + m.length]);
      s.(worker := Waiting, boxes := s.boxes[m.to := s.boxes[m.to] + [mail]], delivered := s.delivered + 1)
    case Get(box) =>
      s.(boxes := s.boxes[box := s.boxes[box][1..]], taken := s.taken[box := s.taken[box] + [s.boxes[box][0]]])
  }

  predicate Init(s: State) {
    && s.socket == [] && s.inHdr.length == 0 && s.available == 0 && s.worker == Waiting
    && s.arrived == [] && s.delivered == 0 && |s.taken| == |s.boxes|
    && forall b | 0 <= b < |s.boxes| :: s.boxes[b] == [] && s.taken[b] == []
  }

  // ---- the invariant --------------------------------------------------------

  /** A packet for this machine and one of its boxes, long enough for the mail it announces.  Send makes them
      just so long; longer ones do as well. */
  predicate Proper(w: Wire, host: int32, boxes: nat) {
    Addressed(w, host, boxes) && MailHeaderOf(w).length + HEADER_SIZE <= PacketHeader(w).length
  }

  /** A packet that passes the checks of the driver and, as it stands on the wire, those of the worker. */
  predicate Addressed(w: Wire, host: int32, boxes: nat) {
    var p, m := PacketHeader(w), MailHeaderOf(w);
    p.to == host && p.length <= MAX_PACKET_SIZE && 0 <= m.to < boxes && m.length <= MAX_MAIL_SIZE
  }

  /** The mail for one box among the packets, in order. */
  function MailFor(ws: seq<Wire>, box: nat, host: int32, boxes: nat): seq<Mail>
    requires forall w | w in ws :: Proper(w, host, boxes)
  {
    if ws == [] then []
    else
      var w := ws[|ws| - 1];
      assert Proper(w, host, boxes);
      var rest := MailFor(ws[..|ws| - 1], box, host, boxes);
      if MailIn(w).mailHdr.to == box then rest + [MailIn(w)] else rest
  }

  /** A buffer holds the packet's data. */
  predicate Holds(b: Buffer, w: Wire) {
    var n := PacketHeader(w).length;
    n <= MAX_PACKET_SIZE && b[..n] == w[HEADER_SIZE..HEADER_SIZE + n]
  }

  function InWorker(s: State): nat { if s.worker.Carrying? then 1 else 0 }
  function InInbox(s: State): nat { if s.inHdr.length != 0 then 1 else 0 }

  /** The packets not delivered yet are, in order: the worker's, the buffered one, those in the socket. */
  predicate Pipeline(s: State) {
    var d, i := s.delivered, s.delivered + InWorker(s);
    && i + InInbox(s) + |s.socket| == |s.arrived|
    && (s.worker.Carrying? ==> s.worker.pktHdr == PacketHeader(s.arrived[d]) && Holds(s.buffer, s.arrived[d]))
    && (s.inHdr.length != 0 ==> s.inHdr == PacketHeader(s.arrived[i]) && Holds(s.inbox, s.arrived[i]))
    && s.socket == s.arrived[i + InInbox(s)..]
  }

  predicate Inv(s: State) {
    && |s.taken| == |s.boxes| && (forall w | w in s.arrived :: Proper(w, s.host, |s.boxes|))
    && Pipeline(s)
    && s.available + (if s.worker == Called then 1 else 0) == InInbox(s)
    && (forall b | 0 <= b < |s.boxes| ::
          s.taken[b] + s.boxes[b] == MailFor(s.arrived[..s.delivered], b, s.host, |s.boxes|))
  }

  /** The packets that arrive are proper. */
  predicate Allowed(s: State, step: Step) {
    step.Arrive? ==> Proper(step.w, s.host, |s.boxes|)
  }

  lemma InitInv(s: State)
    requires Init(s)
    ensures Inv(s)
  {
    forall b | 0 <= b < |s.boxes|
      ensures s.taken[b] + s.boxes[b] == []
    {
    }
    assert s.arrived[..s.delivered] == [] && s.socket == s.arrived[0..];
  }

  lemma HeldHeader(b: Buffer, w: Wire, host: int32, boxes: nat)
    requires Holds(b, w) && Proper(w, host, boxes)
    ensures b[..HEADER_SIZE] == w[HEADER_SIZE..2 * HEADER_SIZE]
    ensures var m := DecodeHeader(b[..HEADER_SIZE]);
      m.length <= MAX_MAIL_SIZE && Mail(PacketHeader(w), m, b[HEADER_SIZE..HEADER_SIZE + m.length]) == MailIn(w)
  {
    var n := PacketHeader(w).length;
    var m := DecodeHeader(b[..HEADER_SIZE]);
    SliceOfSlice(b, 0, n, 0, HEADER_SIZE);
    SliceOfSlice(w, HEADER_SIZE, HEADER_SIZE + n, 0, HEADER_SIZE);
    assert m.length + HEADER_SIZE <= n;
    SliceOfSlice(b, 0, n, HEADER_SIZE, HEADER_SIZE + m.length);
    SliceOfSlice(w, HEADER_SIZE, HEADER_SIZE + n, HEADER_SIZE, HEADER_SIZE + m.length);
  }

  lemma SliceOfSlice<T>(q: seq<T>, from: nat, to: nat, x: nat, y: nat)
    requires from <= to <= |q| && x <= y <= to - from
    ensures q[from..to][x..y] == q[from + x..from + y]
  {
    var a, b := q[from..to][x..y], q[from + x..from + y];
    assert |a| == |b| && forall k | 0 <= k < |a| :: a[k] == q[from + x + k] == b[k];
  }

  lemma InvIsSafe(s: State, step: Step)
    requires Inv(s) && Enabled(s, step)
    ensures Safe(s, step)
  {
    match step
    case CallBack => if WillRead(s) { assert s.socket[0] in s.arrived; }
    case Put => HeldHeader(s.buffer, s.arrived[s.delivered], s.host, |s.boxes|);
    case _ =>
  }

  lemma ArriveKeeps(s: State, w: Wire)
    requires Inv(s) && Proper(w, s.host, |s.boxes|)
    ensures Inv(Next(s, Arrive(w)))
  {
    var s' := Next(s, Arrive(w));
    assert s'.arrived[..s.delivered] == s.arrived[..s.delivered];
  }

  lemma CallBackKeeps(s: State)
    requires Inv(s) && Safe(s, CallBack)
    ensures Inv(Next(s, CallBack))
  {
    if WillRead(s) {
      var i := s.delivered + InWorker(s);
      assert s.socket[0] == s.arrived[i] && s.arrived[i] in s.arrived;
    }
  }

  lemma ReceiveKeeps(s: State)
    requires Inv(s) && Enabled(s, Receive) && Safe(s, Receive)
    ensures Inv(Next(s, Receive))
  {
    assert s.inHdr.length != 0;
    var n := s.inHdr.length;
    var b: Buffer := Overwrite(s.buffer, s.inbox[..n]);
    assert b[..n] == s.inbox[..n];
  }

  lemma PutKeeps(s: State)
    requires Inv(s) && Enabled(s, Put) && Safe(s, Put)
    ensures Inv(Next(s, Put))
  {
    var s' := Next(s, Put);
    forall b | 0 <= b < |s.boxes|
      ensures s'.taken[b] + s'.boxes[b] == MailFor(s.arrived[..s'.delivered], b, s.host, |s.boxes|)
    {
      PutInBox(s, b);
    }
  }

  lemma PutInBox(s: State, b: nat)
    requires Inv(s) && Enabled(s, Put) && Safe(s, Put) && b < |s.boxes|
    ensures s.taken[b] + Next(s, Put).boxes[b] == MailFor(s.arrived[..s.delivered + 1], b, s.host, |s.boxes|)
  {
    var w := s.arrived[s.delivered];
    HeldHeader(s.buffer, w, s.host, |s.boxes|);
    OneMore(s.arrived, s.delivered, b, s.host, |s.boxes|);
  }

  lemma OneMore(ws: seq<Wire>, d: nat, box: nat, host: int32, boxes: nat)
    requires d < |ws| && Proper(ws[d], host, boxes) && forall w | w in ws :: Proper(w, host, boxes)
    ensures MailFor(ws[..d + 1], box, host, boxes)
         == MailFor(ws[..d], box, host, boxes) + if MailIn(ws[d]).mailHdr.to == box then [MailIn(ws[d])] else []
  {
    assert ws[..d + 1][..d] == ws[..d];
  }

  lemma GetKeeps(s: State, box: nat)
    requires Inv(s) && Enabled(s, Get(box))
    ensures Inv(Next(s, Get(box)))
  {
    var s' := Next(s, Get(box));
    assert s'.taken[box] + s'.boxes[box] == s.taken[box] + s.boxes[box];
  }

  lemma NextKeepsInv(s: State, step: Step)
    requires Inv(s) && Enabled(s, step) && Safe(s, step) && Allowed(s, step)
    ensures Inv(Next(s, step))
  {
    match step
    case Arrive(w) => ArriveKeeps(s, w);
    case CallBack => CallBackKeeps(s);
    case PassP =>
    case Receive => ReceiveKeeps(s);
    case Put => PutKeeps(s);
    case Get(box) => GetKeeps(s, box);
  }

  predicate IsRun(states: seq<State>, steps: seq<Step>) {
    && |states| == |steps| + 1 && Init(states[0])
    && forall i | 0 <= i < |steps| ::
         && Enabled(states[i], steps[i]) && Allowed(states[i], steps[i])
         && (Safe(states[i], steps[i]) ==> states[i + 1] == Next(states[i], steps[i]))
  }

  /** In every run with proper packets no ASSERT fires; per box, the mail taken out followed by the mail still
      there is the mail of the packets delivered so far, in the order of arrival, each once. */
  lemma {:induction false} EveryRun(states: seq<State>, steps: seq<Step>, i: nat)
    requires IsRun(states, steps) && i < |states|
    ensures Inv(states[i]) && (i < |steps| ==> Safe(states[i], steps[i]))
    ensures forall b | 0 <= b < |states[i].boxes| ::
              states[i].taken[b] + states[i].boxes[b]
              == MailFor(states[i].arrived[..states[i].delivered], b, states[i].host, |states[i].boxes|)
  {
    if i == 0 {
      InitInv(states[0]);
    } else {
      EveryRun(states, steps, i - 1);
      NextKeepsInv(states[i - 1], steps[i - 1]);
    }
    if i < |steps| { InvIsSafe(states[i], steps[i]); }
  }

  /** The buffer is never overwritten while it holds a packet, and the semaphore is up, or the worker on its
      way, exactly while it does: no packet is left without its wake-up. */
  lemma BufferAndSemaphoreAgree(s: State)
    requires Inv(s) && Safe(s, CallBack)
    ensures s.available <= 1 && (s.available == 1 || s.worker == Called <==> s.inHdr.length != 0)
    ensures Next(s, CallBack).inbox == s.inbox || s.inHdr.length == 0
    ensures s.worker == Waiting && s.available == 0 ==> s.inHdr.length == 0
  {
  }

  /** Once everything has gone through, all that arrived is in the boxes or taken out. */
  lemma AllDelivered(s: State, box: nat)
    requires Inv(s) && s.worker == Waiting && s.available == 0 && s.socket == [] && box < |s.boxes|
    ensures s.taken[box] + s.boxes[box] == MailFor(s.arrived, box, s.host, |s.boxes|)
  {
    assert s.arrived[..s.delivered] == s.arrived;
  }

  /** The packets that Send makes are proper. */
  lemma SentIsProper(to: int32, host: int32, mailHdr: Header, data: seq<byte>, junk: seq<byte>, boxes: nat)
    requires |data| == mailHdr.length <= MAX_MAIL_SIZE && |junk| == MAX_MAIL_SIZE - |data| && 0 <= mailHdr.to < boxes
    ensures Proper(Sent(to, host, mailHdr, data, junk), to, boxes)
  {
    WireRoundTrip(to, host, mailHdr, data, junk);
  }

  // ---- packets that are too short -------------------------------------------

  /** Nothing under way: the socket and the one-packet buffer are empty and the worker waits. */
  predicate AtRest(s: State) {
    s.socket == [] && s.inHdr.length == 0 && s.available == 0 && s.worker == Waiting && |s.taken| == |s.boxes|
  }

  /** A packet arrives and is polled, and the worker fetches it. */
  function Fetched(s: State, w: Wire): State
    requires AtRest(s) && PacketHeader(w).to == s.host && PacketHeader(w).length <= MAX_PACKET_SIZE
  {
    var s2 := Next(Next(s, Arrive(w)), CallBack);
    Next(Next(s2, PassP), Receive)
  }

  /** The worker passes its checks and puts just the packet's mail into the box. */
  predicate DeliversIntact(s: State, w: Wire)
    requires AtRest(s) && Addressed(w, s.host, |s.boxes|)
  {
    var s' := Fetched(s, w);
    var m := MailIn(w);
    Safe(s', Put) && Next(s', Put).boxes == s.boxes[m.mailHdr.to := s.boxes[m.mailHdr.to] + [m]]
  }

  /** What the worker finds in its buffer: the packet's data over what was there before. */
  lemma FetchedBuffer(s: State, w: Wire)
    requires AtRest(s) && PacketHeader(w).to == s.host && PacketHeader(w).length <= MAX_PACKET_SIZE
    ensures var s', n := Fetched(s, w), PacketHeader(w).length;
      && s'.worker == Carrying(PacketHeader(w)) && s'.boxes == s.boxes && s'.taken == s.taken && s'.host == s.host
      && s'.socket == [] && s'.inHdr.length == 0 && s'.available == 0
      && s'.buffer == Overwrite(s.buffer, w[HEADER_SIZE..HEADER_SIZE + n])
  {
    var n := PacketHeader(w).length;
    var data := w[HEADER_SIZE..HEADER_SIZE + n];
    var inbox: Buffer := Overwrite(s.inbox, data);
    assert ([w] + [])[0] == w && inbox[..n] == data;
    if n == 0 { assert Overwrite(s.buffer, data) == s.buffer; }
  }

  lemma ProperIsIntact(s: State, w: Wire)
    requires AtRest(s) && Proper(w, s.host, |s.boxes|)
    ensures DeliversIntact(s, w)
  {
    FetchedBuffer(s, w);
    var n := PacketHeader(w).length;
    var b: Buffer := Fetched(s, w).buffer;
    assert b[..n] == w[HEADER_SIZE..HEADER_SIZE + n];
    PutHeld(Fetched(s, w), w, PacketHeader(w));
  }

  lemma SameDigit(x: byte, y: byte, p: int, q: int)
    requires x + 0x100 * p == y + 0x100 * q
    ensures x == y && p == q
  {
  }

  lemma IntsDiffer(b: seq<byte>, c: seq<byte>)
    requires |b| == |c| == 4 && DecodeInt(b) == DecodeInt(c)
    ensures b == c
  {
    var b1: int, b2: int, b3: int := b[1], b[2], b[3];
    var c1: int, c2: int, c3: int := c[1], c[2], c[3];
    SameDigit(b[0], c[0], b1 + 0x100 * b2 + 0x1_0000 * b3, c1 + 0x100 * c2 + 0x1_0000 * c3);
    SameDigit(b[1], c[1], b2 + 0x100 * b3, c2 + 0x100 * c3);
    SameDigit(b[2], c[2], b3, c3);
  }

  /** Headers with different bytes are different. */
  lemma HeadersDiffer(b: seq<byte>, c: seq<byte>)
    requires |b| == |c| == HEADER_SIZE && DecodeHeader(b) == DecodeHeader(c)
    ensures b == c
  {
    IntsDiffer(b[0..4], c[0..4]);
    IntsDiffer(b[4..8], c[4..8]);
    IntsDiffer(b[8..12], c[8..12]);
    assert b == b[0..4] + b[4..8] + b[8..12] && c == c[0..4] + c[4..8] + c[8..12];
  }

  /** The worker's buffer before a packet too short for its mail: the mail as it ought to be, but for the first
      byte the packet does not bring. */
  function Stale(w: Wire): Buffer
    requires PacketHeader(w).length < MAX_PACKET_SIZE
  {
    var n := PacketHeader(w).length;
    w[HEADER_SIZE..][n := if w[HEADER_SIZE + n] == 0 then 1 else 0]
  }

  lemma ShortIsSpoilt(s: State, w: Wire)
    requires AtRest(s) && Addressed(w, s.host, |s.boxes|) && !Proper(w, s.host, |s.boxes|)
    ensures !DeliversIntact(s.(buffer := Stale(w)), w)
  {
    var t := s.(buffer := Stale(w));
    FetchedBuffer(t, w);
    assert Fetched(t, w).buffer == Stale(w);
    SpoiltByte(w, Stale(w));
    if DeliversIntact(t, w) { IntactBuffer(t, w); }
  }

  /** What the worker's buffer must then hold. */
  lemma IntactBuffer(s: State, w: Wire)
    requires AtRest(s) && Addressed(w, s.host, |s.boxes|) && DeliversIntact(s, w)
    ensures var b, l := Fetched(s, w).buffer, MailHeaderOf(w).length;
            b[..HEADER_SIZE] == w[HEADER_SIZE..2 * HEADER_SIZE] && b[HEADER_SIZE..HEADER_SIZE + l] == MailIn(w).data
  {
    FetchedBuffer(s, w);
    var b, m := Fetched(s, w).buffer, MailIn(w);
    var h := DecodeHeader(b[..HEADER_SIZE]);
    var got := Mail(PacketHeader(w), h, b[HEADER_SIZE..HEADER_SIZE + h.length]);
    assert Next(Fetched(s, w), Put).boxes == s.boxes[h.to := s.boxes[h.to] + [got]];
    SameBox(s.boxes, h.to, got, m.mailHdr.to, m);
    HeadersDiffer(b[..HEADER_SIZE], w[HEADER_SIZE..2 * HEADER_SIZE]);
  }

  lemma SameBox(boxes: seq<seq<Mail>>, i: nat, x: Mail, j: nat, y: Mail)
    requires i < |boxes| && j < |boxes| && boxes[i := boxes[i] + [x]] == boxes[j := boxes[j] + [y]]
    ensures i == j && x == y
  {
    var p, q := boxes[i := boxes[i] + [x]], boxes[j := boxes[j] + [y]];
    assert p[i] == boxes[i] + [x] && p[i] == q[i];
    assert p[i][|boxes[i]|] == x && q[j][|boxes[j]|] == y;
  }

  lemma SpoiltByte(w: Wire, b: Buffer)
    requires PacketHeader(w).length < MailHeaderOf(w).length + HEADER_SIZE <= MAX_PACKET_SIZE && b == Stale(w)
    ensures b[..HEADER_SIZE] == w[HEADER_SIZE..2 * HEADER_SIZE] ==>
              b[HEADER_SIZE..HEADER_SIZE + MailHeaderOf(w).length] != MailIn(w).data
  {
    var n, l := PacketHeader(w).length, MailHeaderOf(w).length;
    if n < HEADER_SIZE {
      assert b[..HEADER_SIZE][n] != w[HEADER_SIZE..2 * HEADER_SIZE][n];
    } else {
      assert b[HEADER_SIZE..HEADER_SIZE + l][n - HEADER_SIZE] != MailIn(w).data[n - HEADER_SIZE];
    }
  }

  /** Exactly the packets long enough for their mail are delivered intact.  The worker's buffer may hold
      anything before: it is not cleared when the worker starts, and later keeps what earlier packets left.
      Every other packet that passes the driver's checks spoils its mail for some such content. */
  lemma IntactExactly(s: State, w: Wire)
    requires AtRest(s) && Addressed(w, s.host, |s.boxes|)
    ensures (forall b: Buffer :: DeliversIntact(s.(buffer := b), w)) <==>
            MailHeaderOf(w).length + HEADER_SIZE <= PacketHeader(w).length
  {
    if Proper(w, s.host, |s.boxes|) {
      forall b: Buffer
        ensures DeliversIntact(s.(buffer := b), w)
      {
        ProperIsIntact(s.(buffer := b), w);
      }
    } else {
      ShortIsSpoilt(s, w);
    }
  }

  /** A run in which any packet may arrive. */
  predicate IsTrace(states: seq<State>, steps: seq<Step>) {
    && |states| == |steps| + 1 && Init(states[0])
    && forall i | 0 <= i < |steps| ::
         Enabled(states[i], steps[i]) && Safe(states[i], steps[i]) && states[i + 1] == Next(states[i], steps[i])
  }

  /** One such packet, from the start of the system: a proper packet is delivered, then an empty one arrives,
      and the worker finds the first packet still in its buffer and delivers its mail once more. */
  lemma EmptyPacketRedelivers(s: State, previous: Wire, w: Wire) returns (states: seq<State>, steps: seq<Step>)
    requires Init(s) && Proper(previous, s.host, |s.boxes|)
    requires PacketHeader(w).to == s.host && PacketHeader(w).length == 0
    ensures IsTrace(states, steps) && states[0] == s
    ensures steps == [Arrive(previous), CallBack, PassP, Receive, Put] + [Arrive(w), CallBack, PassP, Receive, Put]
    ensures var m := MailIn(previous);
            states[10].boxes == s.boxes[m.mailHdr.to := [m, m.(pktHdr := PacketHeader(w))]]
  {
    var m := MailIn(previous);
    var a := OneDelivery(s, previous, previous);
    assert m == m.(pktHdr := PacketHeader(previous)) && s.boxes[m.mailHdr.to] == [];
    assert s.boxes[m.mailHdr.to] + [m] == [m];
    assert a[5].boxes == s.boxes[m.mailHdr.to := [m]];
    assert [m] + [m.(pktHdr := PacketHeader(w))] == [m, m.(pktHdr := PacketHeader(w))];
    var b := OneDelivery(a[5], w, previous);
    var first, second := [Arrive(previous), CallBack, PassP, Receive, Put], [Arrive(w), CallBack, PassP, Receive, Put];
    states, steps := a + b[1..], first + second;
    forall i | 0 <= i < 10
      ensures Enabled(states[i], steps[i]) && Safe(states[i], steps[i]) && states[i + 1] == Next(states[i], steps[i])
    {
      if i < 5 {
        assert states[i] == a[i] && states[i + 1] == a[i + 1] && steps[i] == first[i];
      } else {
        assert states[i] == b[i - 5] && states[i + 1] == b[i - 4] && steps[i] == second[i - 5];
      }
    }
  }

  /** The five steps of a delivery when the mail of packet `held` ends up in the buffer. */
  lemma OneDelivery(s: State, w: Wire, held: Wire) returns (states: seq<State>)
    requires AtRest(s) && Proper(held, s.host, |s.boxes|)
    requires PacketHeader(w).to == s.host
    requires w == held || (PacketHeader(w).length == 0 && Holds(s.buffer, held))
    ensures |states| == 6 && states[0] == s && AtRest(states[5]) && Holds(states[5].buffer, held)
    ensures var steps := [Arrive(w), CallBack, PassP, Receive, Put];
      forall i | 0 <= i < 5 ::
        Enabled(states[i], steps[i]) && Safe(states[i], steps[i]) && states[i + 1] == Next(states[i], steps[i])
    ensures states[5].host == s.host
    ensures var m := MailIn(held).(pktHdr := PacketHeader(w));
            states[5].boxes == s.boxes[m.mailHdr.to := s.boxes[m.mailHdr.to] + [m]]
  {
    var a := FourSteps(s, w);
    FetchedBuffer(s, w);
    var s4, n := Fetched(s, w), PacketHeader(w).length;
    if w == held { assert s4.buffer[..n] == w[HEADER_SIZE..HEADER_SIZE + n]; }
    PutHeld(s4, held, PacketHeader(w));
    states := a + [Next(s4, Put)];
  }

  lemma FourSteps(s: State, w: Wire) returns (states: seq<State>)
    requires AtRest(s) && PacketHeader(w).to == s.host && PacketHeader(w).length <= MAX_PACKET_SIZE
    ensures |states| == 5 && states[0] == s && states[4] == Fetched(s, w)
    ensures var steps := [Arrive(w), CallBack, PassP, Receive];
      forall i | 0 <= i < 4 ::
        Enabled(states[i], steps[i]) && Safe(states[i], steps[i]) && states[i + 1] == Next(states[i], steps[i])
  {
    var s1 := Next(s, Arrive(w));
    var s2 := Next(s1, CallBack);
    var s3 := Next(s2, PassP);
    states := [s, s1, s2, s3, Next(s3, Receive)];
  }

  /** The worker puts the mail its buffer holds. */
  lemma PutHeld(s: State, held: Wire, h: Header)
    requires s.worker == Carrying(h) && Holds(s.buffer, held) && Proper(held, s.host, |s.boxes|)
    ensures var m := MailIn(held).(pktHdr := h);
      && Enabled(s, Put) && Safe(s, Put)
      && Next(s, Put) == s.(worker := Waiting, boxes := s.boxes[m.mailHdr.to := s.boxes[m.mailHdr.to] + [m]],
                            delivered := s.delivered + 1)
  {
    HeldHeader(s.buffer, held, s.host, |s.boxes|);
  }
}
