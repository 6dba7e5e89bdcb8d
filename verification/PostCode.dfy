/** network/post.cc and machine/network.cc as code: the incoming side of the post office. */
module PostCode {
  import opened Bytes
  import opened PostOffice

  /** bcopy into the front of a buffer. */
  method CopyIn(data: seq<byte>, to: array<byte>)
    requires |data| <= MAX_PACKET_SIZE == to.Length
    modifies to
    ensures to[..] == Overwrite(old(to[..]), data)
  {
    for i := 0 to |data|
      invariant forall j | 0 <= j < i :: to[j] == data[j]
      invariant forall j | i <= j < to.Length :: to[j] == old(to[j])
    {
      to[i] := data[i];
    }
    assert to[..] == data + old(to[..])[|data|..];
  }

  class PostOfficeInput {
    const hostName: int32
    var socket: seq<Wire>
    var inHdr: Header
    const inbox: array<byte>
    var messageAvailable: nat
    var worker: Worker
    const buffer: array<byte>
    const boxes: array<seq<Mail>>
    ghost var arrived: seq<Wire>
    ghost var taken: seq<seq<Mail>>
    ghost var delivered: nat

    ghost predicate Valid()
      reads this, inbox, buffer, boxes
    {
      inbox.Length == MAX_PACKET_SIZE == buffer.Length && inbox != buffer
    }

    ghost function Abs(): State
      reads this, inbox, buffer, boxes
      requires Valid()
    {
      State(hostName, socket, inHdr, inbox[..], messageAvailable, worker, buffer[..], boxes[..], arrived, taken,
            delivered)
    }

    constructor (host: int32, nBoxes: nat)
      ensures Valid() && Init(Abs()) && Inv(Abs()) && boxes.Length == nBoxes && hostName == host
      ensures fresh(inbox) && fresh(buffer) && fresh(boxes)
    {
      hostName, socket, inHdr, messageAvailable, worker := host, [], Header(0, 0, 0), 0, Waiting;
      inbox := new byte[MAX_PACKET_SIZE](i => 0);
      buffer := new byte[MAX_PACKET_SIZE](i => 0);
      boxes := new seq<Mail>[nBoxes](i => []);
      arrived, taken, delivered := [], seq(nBoxes, i => []), 0;
      new;
      InitInv(Abs());
    }

    /** NetworkInput::CallBack: the clock polls for a packet. */
    method CallBack()
      requires Valid() && Inv(Abs())
      modifies this, inbox
      ensures Valid() && Inv(Abs()) && Safe(old(Abs()), Step.CallBack) && Abs() == Next(old(Abs()), Step.CallBack)
    {
      InvIsSafe(Abs(), Step.CallBack);
      NextKeepsInv(Abs(), Step.CallBack);
      if inHdr.length != 0 || socket == [] {
        return;
      }
      var packet := socket[0];
      socket := socket[1..];
      inHdr := PacketHeader(packet);
      CopyIn(packet[HEADER_SIZE..HEADER_SIZE + inHdr.length], inbox);
      messageAvailable := messageAvailable + 1;
    }

    /** The worker gets past messageAvailable->P(). */
    method PassP()
      requires Valid() && Inv(Abs()) && Enabled(Abs(), Step.PassP)
      modifies this
      ensures Valid() && Inv(Abs()) && Abs() == Next(old(Abs()), Step.PassP)
    {
      NextKeepsInv(Abs(), Step.PassP);
      messageAvailable := messageAvailable - 1;
      worker := Called;
    }

    /** NetworkInput::Receive into the worker's buffer. */
    method Receive()
      requires Valid() && Inv(Abs()) && Enabled(Abs(), Step.Receive)
      modifies this, buffer
      ensures Valid() && Inv(Abs()) && Safe(old(Abs()), Step.Receive) && Abs() == Next(old(Abs()), Step.Receive)
    {
      InvIsSafe(Abs(), Step.Receive);
      NextKeepsInv(Abs(), Step.Receive);
      var hdr := inHdr;
      inHdr := inHdr.(length := 0);
      if hdr.length != 0 {
        CopyIn(inbox[..hdr.length], buffer);
      }
      worker := Carrying(hdr);
    }

    /** The rest of the loop of PostalDelivery: the mail goes into its box. */
    method Put()
      requires Valid() && Inv(Abs()) && Enabled(Abs(), Step.Put)
      modifies this, boxes
      ensures Valid() && Inv(Abs()) && Safe(old(Abs()), Step.Put) && Abs() == Next(old(Abs()), Step.Put)
    {
      InvIsSafe(Abs(), Step.Put);
      NextKeepsInv(Abs(), Step.Put);
      PutIntoBox();
    }

    method PutIntoBox()
      requires Valid() && Enabled(Abs(), Step.Put) && Safe(Abs(), Step.Put)
      modifies this, boxes
      ensures Valid() && Abs() == Next(old(Abs()), Step.Put)
    {
      var mailHdr := DecodeHeader(buffer[..HEADER_SIZE]);
      var mail := Mail(worker.pktHdr, mailHdr, buffer[HEADER_SIZE..HEADER_SIZE + mailHdr.length]);
      boxes[mailHdr.to] := boxes[mailHdr.to] + [mail];
      worker := Waiting;
      delivered := delivered + 1;
    }

    /** MailBox::Get, when there is mail. */
    method Get(box: nat) returns (mail: Mail)
      requires Valid() && Inv(Abs()) && Enabled(Abs(), Step.Get(box))
      modifies this, boxes
      ensures Valid() && Inv(Abs()) && Abs() == Next(old(Abs()), Step.Get(box)) && mail == old(boxes[box])[0]
    {
      NextKeepsInv(Abs(), Step.Get(box));
      mail := boxes[box][0];
      boxes[box] := boxes[box][1..];
      taken := taken[box := taken[box] + [mail]];
    }
  }
}
