/**
 One end of a v2 connection, as a value: the specification `TcpConnection` is proved against and the
 transition system of `Transport` is built from.
 */
module Endpoints {
  import opened Bytes
  import opened Sequences
  import opened BufferLists
  import opened NetProto2
  import opened DataHandler2

  datatype Kind = Active | Passive

  datatype State = NotUse | NotConnect | Connecting | Connected | Disconnecting | Disconnected

  /** The outstanding `async_send`: none, posted, or carried out for `n` bytes with its callback due. */
  datatype Sending = NoSend | Posted | Taken(n: nat)

  /** The outstanding `async_read`. */
  datatype Reading = NoRead | ReadHead | ReadBody(ptype: int, len: nat)

  const SEND_BATCH := 100

  datatype Endpoint = Endpoint(
    kind: Kind,
    state: State,
    queue: seq<seq<byte>>,     // unread part of every buffer of the send list
    sendingData: bool,
    sendCount: nat,
    pending: Sending,
    reading: Reading,
    inbox: seq<Packet>,        // the receive list
    accepted: seq<Request>,    // history: every request put in the send list
    delivered: seq<Message>,   // history: every message passed to a handler
    closed: bool               // history: force_close has run
  )

  /** A connection right after its start: connected, with a head read posted. */
  function Started(kind: Kind): Endpoint {
    Endpoint(kind, Connected, [], false, 0, NoSend, ReadHead, [], [], [], false)
  }

  function Frames(e: Endpoint): seq<Frame> {
    seq(|e.accepted|, i requires 0 <= i < |e.accepted| => FrameOf(e.accepted[i]))
  }

  function Enqueue(e: Endpoint, q: Request): Endpoint {
    e.(queue := e.queue + [Encode(FrameOf(q))], accepted := e.accepted + [q])
  }

  predicate CanSend(e: Endpoint, q: Request) {
    e.state == Connected && Accepts(q)
  }

  function Send(e: Endpoint, q: Request): Endpoint {
    if CanSend(e, q) then Enqueue(e, q) else e
  }

  function Close(e: Endpoint): Endpoint {
    if e.state == Connected then Enqueue(e, Control(Disconnect)).(state := Disconnecting) else e
  }

  function ForceClose(e: Endpoint): Endpoint {
    if e.state == Disconnected then e
    else e.(queue := [], inbox := [], state := Disconnected, sendingData := false,
            pending := NoSend, reading := NoRead, closed := true)
  }

  /** `start_recv`: an active end reads on only while connected, a passive one becomes connected again. */
  function StartRecv(e: Endpoint): Endpoint {
    if e.kind == Active && e.state != Connected then e.(reading := NoRead)
    else e.(reading := ReadHead, state := if e.kind == Passive then Connected else e.state)
  }

  /** `handle_packet_type` on a packet that is not user data. */
  function HandleControl(e: Endpoint, ptype: int): Endpoint {
    if ptype == TYPE_DISCONNECT then
      if e.state == Disconnecting then e else Enqueue(e, Control(DisconnectAck))
    else if ptype == TYPE_DISCONNECT_ACK && e.state == Disconnecting then ForceClose(e)
    else e
  }

  /** The completion of a head read. */
  function OnHead(e: Endpoint, head: seq<byte>): Endpoint
    requires |head| == LEN_HEAD + LEN_TYPE
  {
    var (len, ptype) := PacketLenType(head);
    if IsUserType(ptype) then e.(reading := ReadBody(ptype, (len - LEN_TYPE) % U16))
    else StartRecv(HandleControl(e, ptype))
  }

  /** The completion of a body read; an empty body is dropped by the receive list. */
  function OnBody(e: Endpoint, ptype: int, body: seq<byte>): Endpoint {
    StartRecv(if body == [] then e else e.(inbox := e.inbox + [Packet(ptype, body)]))
  }

  /** The receive half of `run`: drain the receive list; handler number `failAt` refuses its message. */
  function Drain(e: Endpoint, failAt: nat): Endpoint {
    if e.state != Connected then e
    else if failAt < |e.inbox| then
      ForceClose(e.(delivered := e.delivered + FlatMap(MessageOf, e.inbox[..failAt + 1])))
    else e.(delivered := e.delivered + FlatMap(MessageOf, e.inbox), inbox := [])
  }

  /** `start_send`: post a send of the unread part of the front buffer unless one is outstanding. */
  function StartSend(e: Endpoint): Endpoint {
    if e.state != Connected || e.sendingData || e.queue == [] then e
    else e.(pending := Posted, sendingData := true)
  }

  /** The send callback: release what was sent, then stop after a batch or go on with the next buffer. */
  function OnSent(e: Endpoint, n: nat): Endpoint {
    var queue := Consumed(e.queue, n % U16);
    if e.sendCount + 1 >= SEND_BATCH || queue == [] then
      e.(queue := queue, sendCount := 0, sendingData := false, pending := NoSend)
    else e.(queue := queue, sendCount := e.sendCount + 1, pending := Posted)
  }

  /** `run`: time out a closing end, drain, then send. */
  function Run(e: Endpoint, timedOut: bool, failAt: nat): Endpoint {
    if e.state == Disconnecting && timedOut then ForceClose(e)
    else StartSend(Drain(e, failAt))
  }
}
