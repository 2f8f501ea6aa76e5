/**
 The v1 parser: `processData` over a sliding buffer that `handleOne` may compact in the middle of a parse.

 `Drain` says what parsing a run of bytes dispatches and leaves; `Processed` adds where the rest lies.
 */
module DataHandler {
  import opened Bytes
  import opened Sequences
  import opened SessionBuffers
  import opened NetProto

  // ---------------------------------------------------------------- specification

  /** Which events the registered handlers accept; any other makes `processData` fail. */
  type Handlers = Event -> bool

  /** The events dispatched, the bytes left over, and whether the connection survives. */
  datatype Outcome = Outcome(events: seq<Event>, rest: seq<byte>, ok: bool)

  function Prepend(events: seq<Event>, o: Outcome): Outcome {
    o.(events := events + o.events)
  }

  /** Parse as far as the bytes allow. A failure closes the connection, which drops what is left. */
  function Drain(h: Handlers, b: seq<byte>): (o: Outcome)
    ensures o.ok ==> |o.rest| <= |b| && o.rest == b[|b| - |o.rest|..]
    decreases |b|
  {
    match Decode(b)
    case Bad => Outcome([], [], false)
    case Got(event, n) =>
      if h(event) then Prepend([event], Drain(h, b[n..])) else Outcome([event], [], false)
    case _ => Outcome([], b, true)
  }

  /** Whether the parse that stops at `rest` moves the unread data to the front. */
  predicate Compacts(l: Layout, rest: seq<byte>) {
    match Decode(rest)
    case HeadShort => true
    case BodyShort(total) => l.Room() + |rest| < total
    case _ => false
  }

  /** The buffer after `processData`. */
  function Processed(h: Handlers, l: Layout): Layout {
    var o := Drain(h, l.unread);
    if !o.ok then l
    else Layout(l.capacity, (if Compacts(l, o.rest) then 0 else l.read) + (|l.unread| - |o.rest|), o.rest)
  }

  function MessageCount(events: seq<Event>): nat {
    if events == [] then 0 else (if events[0].OnMessage? then 1 else 0) + MessageCount(events[1..])
  }

  lemma {:induction false} MessageCountAppend(events: seq<Event>, event: Event)
    ensures MessageCount(events + [event]) == MessageCount(events) + if event.OnMessage? then 1 else 0
  {
    if events == [] {
      assert [] + [event] == [event] && [event][1..] == [];
    } else {
      assert (events + [event])[0] == events[0] && (events + [event])[1..] == events[1..] + [event];
      MessageCountAppend(events[1..], event);
    }
  }

  predicate Fails(h: Handlers, u: Unpacked) {
    u.Bad? || (u.Got? && !h(u.event))
  }

  function Dispatches(u: Unpacked): seq<Event> {
    if u.Got? then [u.event] else []
  }

  /** The parse has dispatched `events` and goes on at offset `n`. */
  predicate ParsedTo(h: Handlers, l: Layout, n: nat, events: seq<Event>) {
    n <= |l.unread| && Drain(h, l.unread) == Prepend(events, Drain(h, l.unread[n..]))
  }

  lemma ParseStarts(h: Handlers, l: Layout)
    ensures ParsedTo(h, l, 0, [])
  {
    assert l.unread[0..] == l.unread;
  }

  /** A packet that fails ends the parse; nothing is released. */
  lemma ParseFails(h: Handlers, l: Layout, n: nat, events: seq<Event>)
    requires ParsedTo(h, l, n, events) && Fails(h, Decode(l.unread[n..]))
    ensures Drain(h, l.unread) == Outcome(events + Dispatches(Decode(l.unread[n..])), [], false)
    ensures !Compacts(l, l.unread[n..]) && Processed(h, l) == l
  {
  }

  /** A packet that is accepted moves on by its length and leaves the buffer where it is. */
  lemma ParseSteps(h: Handlers, l: Layout, n: nat, events: seq<Event>)
    requires ParsedTo(h, l, n, events)
    requires Decode(l.unread[n..]).Got? && h(Decode(l.unread[n..]).event)
    ensures var u := Decode(l.unread[n..]);
            !Compacts(l, l.unread[n..]) && ParsedTo(h, l, n + u.length, events + Dispatches(u))
    ensures var u := Decode(l.unread[n..]);
            MessageCount(events + Dispatches(u)) == MessageCount(events) + if u.event.OnMessage? then 1 else 0
  {
    hide Decode, Drain, MessageCount;
    var u := Decode(l.unread[n..]);
    assert l.unread[n..][u.length..] == l.unread[n + u.length..];
    GotDrains(h, l.unread[n..]);
    PrependTwice(events, u.event, Drain(h, l.unread[n + u.length..]));
    MessageCountAppend(events, u.event);
  }

  lemma GotDrains(h: Handlers, b: seq<byte>)
    requires Decode(b).Got? && h(Decode(b).event)
    ensures Drain(h, b) == Prepend([Decode(b).event], Drain(h, b[Decode(b).length..]))
  {
    hide Decode;
  }

  lemma PrependTwice(events: seq<Event>, event: Event, o: Outcome)
    ensures Prepend(events, Prepend([event], o)) == Prepend(events + [event], o)
  {
    assert events + ([event] + o.events) == (events + [event]) + o.events;
  }

  /** Where the parse stops, releasing the bytes before gives the buffer of `Processed`. */
  lemma ParseStops(h: Handlers, l: Layout, n: nat, events: seq<Event>)
    requires l.Valid() && ParsedTo(h, l, n, events)
    requires !Decode(l.unread[n..]).Got? && !Decode(l.unread[n..]).Bad?
    ensures Drain(h, l.unread) == Outcome(events, l.unread[n..], true)
    ensures Processed(h, l) == Apply(if Compacts(l, l.unread[n..]) then l.Moved() else l, Read(n)).0
    ensures Dispatches(Decode(l.unread[n..])) == []
  {
    hide Decode;
    assert events + [] == events;
  }

  lemma NoMessages()
    ensures MessageCount([]) == 0
  {
  }

  lemma NothingToCompact(l: Layout)
    ensures Decode([]) == Short && !Compacts(l, [])
  {
  }

  // ---------------------------------------------------------------- the code

  datatype UnpackResult = NoError | DataNotEnough | UserDataNotEnough | MsgLenInvalid

  /** What an unpack record says about the next parse without bytes. */
  datatype Standing = Idle | WantsHead | WantsBody(total: int) | HasMessage

  /** What the last unpack of a parse that stopped at `rest` makes of the record. */
  function StandingAt(rest: seq<byte>): Standing
    requires !Decode(rest).Got? && !Decode(rest).Bad?
  {
    match Decode(rest)
    case HeadShort => WantsHead
    case BodyShort(total) => WantsBody(total)
    case _ => Idle
  }

  /** `JmyPacketUnpackData`; the message payload is a span of the buffer it was unpacked from, whichever that is. */
  class UnpackData {
    var ptype: int
    var result: UnpackResult
    var data: int
    var userId: int
    var msgId: int
    var block: array<byte>
    var payloadAt: nat
    var payloadLen: nat

    constructor ()
      ensures Valid() && Standing() == Idle
    {
      ptype, result, data := 0, NoError, 0;
      userId, msgId, payloadAt, payloadLen := 0, 0, 0, 0;
      block := new byte[0];
    }

    /** The payload span lies in its block. */
    predicate Valid()
      reads this
    {
      payloadAt + payloadLen <= block.Length
    }

    function Standing(): Standing
      reads this
    {
      if !IsUserType(ptype) then Idle
      else match result
        case DataNotEnough => WantsHead
        case UserDataNotEnough => WantsBody(data)
        case _ => HasMessage
    }

    /** The event the last successful unpack stands for. */
    predicate Holds(event: Event)
      requires Valid()
      reads this, block
    {
      match event
      case OnMessage(user, msg, payload) =>
        && IsUserType(ptype) && userId == user && msgId == msg
        && block[payloadAt..payloadAt + payloadLen] == payload
      case OnHeartbeat => ptype == TYPE_HEARTBEAT
      case OnDisconnect => ptype == TYPE_DISCONNECT
      case OnDisconnectAck => ptype == TYPE_DISCONNECT_ACK
    }

    /** `msg_info` after a successful unpack. */
    method SetMessage(userId: int, msgId: int, block: array<byte>, at: nat, len: nat)
      requires at + len <= block.Length
      modifies this
      ensures Valid() && ptype == old(ptype) && result == NoError
      ensures this.userId == userId && this.msgId == msgId && this.block == block
      ensures payloadAt == at && payloadLen == len
    {
      this.userId, this.msgId, this.block := userId, msgId, block;
      payloadAt, payloadLen := at, len;
      result := NoError;
    }

    /** What is dispatched when there is not a single byte to refresh the record with: its message, once more. */
    function Again(): seq<Event>
      requires Valid()
      reads this, block
    {
      if Standing() == HasMessage then [OnMessage(userId, msgId, block[payloadAt..payloadAt + payloadLen])] else []
    }

    /** Whether the stale record makes `handleOne` compact. */
    predicate CompactsAgain(room: int)
      reads this
    {
      Standing() == WantsHead || (Standing().WantsBody? && room < Standing().total)
    }

    /** A record that holds its last event would dispatch exactly that again, if it is a message. */
    lemma HeldAgain(event: Event)
      requires Valid() && Holds(event) && result == NoError
      ensures Again() == if event.OnMessage? then [event] else []
      ensures Standing() == if event.OnMessage? then HasMessage else Idle
    {
    }

    /**
     The fields and the return value `r` after unpacking bytes from `at` in `buff` that decode as `u`. The payload
     of a message ends where its packet does.
     */
    predicate Reflects(u: Unpacked, r: int, buff: array<byte>, at: nat)
      requires Valid()
      reads this, block
    {
      match u
      case Bad => r < 0 || (r == 5 && ptype == TYPE_ACK)
      case HeadShort => r == 0 && IsUserType(ptype) && result == DataNotEnough
      case BodyShort(total) => r == 0 && IsUserType(ptype) && result == UserDataNotEnough && data == total
      case Short => r == 0 && !IsUserType(ptype)
      case Got(event, n) =>
        && r == n && result == NoError && Holds(event)
        && (event.OnMessage? ==> block == buff && payloadAt + payloadLen == at + n)
    }
  }

  /** The user-data branch of `jmy_net_proto_unpack_data_head` on the bytes `buf` at `at` in `buff`. */
  method UnpackUserData(buf: seq<byte>, data: UnpackData, buff: array<byte>, at: nat) returns (r: int)
    requires buf != [] && IsUserType(buf[0]) && data.ptype == buf[0] as int && data.Valid()
    requires at + |buf| <= buff.Length && buff[at..at + |buf|] == buf
    modifies data
    ensures data.ptype == old(data.ptype) && data.Valid()
    ensures data.block == buff || data.block == old(data.block)
    ensures data.Reflects(DecodeUser(buf), r, buff, at)
  {
    hide Unpack16, Unpack32;
    var len := |buf|;
    var offset := 1;
    var userId := 0;
    if data.ptype == TYPE_USER_ID_DATA {
      if len - offset < 4 {
        data.result := DataNotEnough;
        return 0;
      }
      userId := Unpack32(buf[offset..]);
      offset := offset + 4;
    }
    if len - offset - 2 < 0 {
      data.result := DataNotEnough;
      return 0;
    }
    var dataLen := Unpack16(buf[offset..]);
    if dataLen < 2 {
      data.data := dataLen;
      data.result := MsgLenInvalid;
      return -1;
    }
    offset := offset + 2;
    if len - offset < dataLen {
      data.data := dataLen + offset;
      data.result := UserDataNotEnough;
      return 0;
    }
    WholeMessage(buf, offset - 2, dataLen, userId);
    SliceOfSlice(buff[..], at, len, offset + 2, offset + dataLen);
    var msgId := Unpack16(buf[offset..]);
    offset := offset + 2;
    data.SetMessage(userId, msgId, buff, at + offset, dataLen - 2);
    return offset + data.payloadLen;
  }

  /** What the bytes decode as once all of a message is here; its length field lies at `at`. */
  lemma WholeMessage(buf: seq<byte>, at: nat, dataLen: int, userId: int)
    requires buf != [] && IsUserType(buf[0]) && at == LengthAt(buf[0]) && at + 2 <= |buf|
    requires dataLen == Unpack16(buf[at..]) && 2 <= dataLen <= |buf| - (at + 2)
    requires userId == if buf[0] == TYPE_USER_ID_DATA then Unpack32(buf[1..]) else 0
    ensures DecodeUser(buf) ==
            Got(OnMessage(userId, Unpack16(buf[at + 2..]), buf[at + 4..at + 2 + dataLen]), at + 2 + dataLen)
  {
    hide Unpack16, Unpack32;
  }

  /** `jmy_net_proto_unpack_data_head` on `len` bytes from `at`; without a byte the record stays as it was. */
  method UnpackDataHead(buff: array<byte>, at: nat, len: nat, data: UnpackData) returns (r: int)
    requires at + len <= buff.Length && data.Valid()
    modifies data
    ensures data.Valid()
    ensures len == 0 ==> r == 0 && unchanged(data)
    ensures len > 0 ==> data.Reflects(Decode(buff[at..at + len]), r, buff, at)
    ensures data.block == buff || data.block == old(data.block)
  {
    if len == 0 {
      return 0;
    }
    data.ptype := SignedChar(buff[at]);
    if IsUserType(data.ptype) {
      r := UnpackUserData(buff[at..at + len], data, buff, at);
      return;
    }
    if data.ptype == TYPE_ACK || data.ptype == TYPE_HEARTBEAT {
      if len - 1 <= 4 {
        data.result := DataNotEnough;
        return 0;
      }
      data.result := NoError;
      return 5;
    }
    if data.ptype == TYPE_DISCONNECT || data.ptype == TYPE_DISCONNECT_ACK {
      // One byte is all these packets have, and it is here.
      data.result := NoError;
      return 1;
    }
    return -1;
  }

  class Handler {
    const accepts: Handlers
    const unpackData: UnpackData
    ghost var dispatched: seq<Event>   // history: every event a handler was called with

    constructor (accepts: Handlers)
      ensures this.accepts == accepts && dispatched == [] && fresh(unpackData)
      ensures unpackData.Valid() && unpackData.Standing() == Standing.Idle
    {
      this.accepts := accepts;
      unpackData := new UnpackData();
      dispatched := [];
    }

    /** The event in `unpackData`, handed to its handler. */
    method Dispatch() returns (accepted: bool, ghost event: Event)
      requires unpackData.ptype in
                 {TYPE_USER_DATA, TYPE_USER_ID_DATA, TYPE_HEARTBEAT, TYPE_DISCONNECT, TYPE_DISCONNECT_ACK}
      requires unpackData.Valid()
      modifies this`dispatched
      ensures unpackData.Holds(event) && accepted == accepts(event)
      ensures dispatched == old(dispatched) + [event]
    {
      var u := unpackData;
      var e :=
        if IsUserType(u.ptype) then
          OnMessage(u.userId, u.msgId, u.block[u.payloadAt..u.payloadAt + u.payloadLen])
        else if u.ptype == TYPE_HEARTBEAT then OnHeartbeat
        else if u.ptype == TYPE_DISCONNECT then OnDisconnect
        else OnDisconnectAck;
      event := e;
      dispatched := dispatched + [e];
      accepted := accepts(e);
    }

    /** The block of a buffer after a step that compacts, or does not. */
    static function BlockAfter(l: Layout, block: seq<byte>, compacts: bool): seq<byte>
      requires |l.unread| <= |block|
    {
      if compacts then l.unread + block[|l.unread|..] else block
    }

    static lemma NoCompaction(l: Layout, block: seq<byte>)
      requires |l.unread| <= |block|
      ensures BlockAfter(l, block, false) == block
    {
    }

    /** What `handleOne` reports and leaves when the bytes from `offset` on decode as `u`. */
    twostate predicate HandledOne(buffer: SessionBuffer, l: Layout, offset: nat, r: int)
      requires buffer.Valid() && unpackData.Valid() && offset <= |l.unread| <= buffer.buff.Length
      reads this, unpackData, unpackData.block, buffer, buffer.buff
    {
      var rest := l.unread[offset..];
      var u := Decode(rest);
      && r == (if Fails(accepts, u) then -1 else if u.Got? then u.length else 0)
      && dispatched == old(dispatched) + Dispatches(u)
      && buffer.View() == (if Compacts(l, rest) then l.Moved() else l)
      && buffer.buff[..] == BlockAfter(l, old(buffer.buff[..]), Compacts(l, rest))
      && (u.Got? ==> (IsUserType(unpackData.ptype) <==> u.event.OnMessage?))
      && (u.Got? ==> HoldsAt(buffer.buff, u.event, l.read + offset + u.length))
      && (!u.Got? && !u.Bad? ==> unpackData.Standing() == StandingAt(rest))
    }

    /** The record holds an event; a message of this buffer ends at `end`. */
    predicate HoldsAt(buff: array<byte>, event: Event, end: nat)
      requires unpackData.Valid()
      reads this, unpackData, unpackData.block
    {
      && unpackData.result == NoError && unpackData.Holds(event)
      && (event.OnMessage? ==> unpackData.block == buff && unpackData.payloadAt + unpackData.payloadLen == end)
    }

    /** What it does without any bytes: it judges by the record of the last call, for whichever buffer that was. */
    twostate predicate HandledNothing(buffer: SessionBuffer, l: Layout, r: int)
      requires buffer.Valid() && old(unpackData.Valid()) && |l.unread| <= buffer.buff.Length
      reads this, unpackData, buffer, buffer.buff
    {
      var again, compacts := old(unpackData.Again()), old(unpackData.CompactsAgain(l.Room()));
      && r == (if again != [] && !accepts(again[0]) then -1 else 0)
      && dispatched == old(dispatched) + again && unchanged(unpackData)
      && buffer.View() == (if compacts then l.Moved() else l)
      && buffer.buff[..] == BlockAfter(l, old(buffer.buff[..]), compacts)
    }

    method HandleOne(buffer: SessionBuffer, offset: nat) returns (r: int)
      requires buffer.Valid() && offset <= |buffer.View().unread| && unpackData.Valid()
      modifies this`dispatched, unpackData, buffer, buffer.buff
      ensures buffer.Valid() && unpackData.Valid()
      ensures unpackData.block == buffer.buff || unpackData.block == old(unpackData.block)
      ensures offset < |old(buffer.View()).unread| ==> HandledOne(buffer, old(buffer.View()), offset, r)
      ensures offset == |old(buffer.View()).unread| ==> HandledNothing(buffer, old(buffer.View()), r)
    {
      hide Decode;
      ghost var l := buffer.View();
      ghost var rest := l.unread[offset..];
      var readLen := buffer.writeOffset - buffer.readOffset;
      assert buffer.buff[buffer.readOffset + offset..buffer.readOffset + offset + (readLen - offset)] == rest;
      r := UnpackDataHead(buffer.buff, buffer.readOffset + offset, readLen - offset, unpackData);
      var ptype := unpackData.ptype;
      if r < 0 {
        return -1;
      } else if r == 0 && !IsUserType(ptype) {
        return 0;
      }
      if IsUserType(ptype) {
        if unpackData.result == DataNotEnough {
          buffer.MoveDataToFront();
          return 0;
        } else if unpackData.result == UserDataNotEnough {
          var writeLen := buffer.buff.Length - buffer.writeOffset;
          var canReadLen := writeLen + readLen - offset;
          if canReadLen < unpackData.data {
            buffer.MoveDataToFront();
          }
          return 0;
        }
      } else if ptype != TYPE_HEARTBEAT && ptype != TYPE_DISCONNECT && ptype != TYPE_DISCONNECT_ACK {
        return -1;
      }
      var accepted, event := Dispatch();
      return if accepted then r else -1;
    }

    /** `processData`: returns the number of messages dispatched, or -1. Without bytes the first step ends it. */
    method ProcessData(buffer: SessionBuffer) returns (count: int)
      requires buffer.Valid() && unpackData.Valid()
      modifies this`dispatched, unpackData, buffer, buffer.buff
      ensures buffer.Valid() && unpackData.Valid()
      ensures unpackData.block == buffer.buff || unpackData.block == old(unpackData.block)
      ensures old(buffer.View()).unread != [] ==> ProcessedBytes(buffer, old(buffer.View()), count)
      ensures old(buffer.View()).unread == [] ==> HandledNothing(buffer, old(buffer.View()), count)
    {
      hide Drain, Decode, Processed, Compacts, HandledOne, Apply, MessageCount, StandingAt;
      var len := buffer.GetReadLen();
      if len == 0 {
        count := HandleOne(buffer, 0);
        return;
      }
      count := ParseAll(buffer, len);
    }

    /**
     What a parse of some bytes reports and leaves: the record of the last event if everything was consumed, else
     that of the packet that is not here yet.
     */
    twostate predicate ProcessedBytes(buffer: SessionBuffer, l: Layout, count: int)
      requires buffer.Valid() && unpackData.Valid() && |l.unread| <= buffer.buff.Length
      reads this, unpackData, unpackData.block, buffer, buffer.buff
    {
      var o := Drain(accepts, l.unread);
      && dispatched == old(dispatched) + o.events
      && buffer.View() == Processed(accepts, l)
      && count == (if o.ok then MessageCount(o.events) else -1)
      && buffer.buff[..] == BlockAfter(l, old(buffer.buff[..]), o.ok && Compacts(l, o.rest))
      && (o.ok && o.rest == [] ==>
            o.events != [] && HoldsAt(buffer.buff, o.events[|o.events| - 1], l.WriteOffset()))
      && (o.ok && o.rest != [] ==>
            && !Decode(o.rest).Got? && !Decode(o.rest).Bad? && unpackData.Standing() == StandingAt(o.rest))
    }

    /** One turn of the loop: what `handleOne` at offset `n` means for the parse as a whole. */
    method ParseNext(buffer: SessionBuffer, n: nat, ghost events: seq<Event>) returns (res: int, ghost more: seq<Event>)
      requires buffer.Valid() && unpackData.Valid() && n < |buffer.View().unread|
      requires ParsedTo(accepts, buffer.View(), n, events)
      modifies this`dispatched, unpackData, buffer, buffer.buff
      ensures buffer.Valid() && unpackData.Valid() && dispatched == old(dispatched) + more
      ensures unpackData.block == buffer.buff || unpackData.block == old(unpackData.block)
      ensures var l := old(buffer.View());
              var rest := l.unread[n..];
              && (res != 0 ==> buffer.View() == l && buffer.buff[..] == old(buffer.buff[..]))
              && (res == 0 ==> buffer.buff[..] == BlockAfter(l, old(buffer.buff[..]), Compacts(l, rest)))
              && (res < 0 ==>
                    Drain(accepts, l.unread) == Outcome(events + more, [], false) && Processed(accepts, l) == l)
              && (res == 0 ==>
                    && more == [] && Drain(accepts, l.unread) == Outcome(events, rest, true)
                    && Processed(accepts, l) == Apply(buffer.View(), Read(n)).0
                    && !Decode(rest).Got? && !Decode(rest).Bad? && unpackData.Standing() == StandingAt(rest))
              && (res > 0 ==>
                    && |more| == 1 && n + res <= |l.unread| && ParsedTo(accepts, l, n + res, events + more)
                    && HoldsAt(buffer.buff, more[0], l.read + n + res)
                    && (IsUserType(unpackData.ptype) <==> more[0].OnMessage?))
    {
      hide Drain, Decode, Processed, Compacts, Apply, ParsedTo, HoldsAt, StandingAt;
      ghost var l := buffer.View();
      ghost var u := Decode(l.unread[n..]);
      more := Dispatches(u);
      res := HandleOne(buffer, n);
      if res < 0 {
        ParseFails(accepts, l, n, events);
      } else if res == 0 {
        ParseStops(accepts, l, n, events);
      } else {
        ParseSteps(accepts, l, n, events);
      }
    }

    /** The loop of `processData` on `len` unread bytes. */
    method ParseAll(buffer: SessionBuffer, len: nat) returns (count: int)
      requires buffer.Valid() && unpackData.Valid() && 0 < len == |buffer.View().unread|
      modifies this`dispatched, unpackData, buffer, buffer.buff
      ensures buffer.Valid() && unpackData.Valid()
      ensures unpackData.block == buffer.buff || unpackData.block == old(unpackData.block)
      ensures ProcessedBytes(buffer, old(buffer.View()), count)
    {
      hide Drain, Decode, Processed, Compacts, Apply, ParsedTo, MessageCount, HoldsAt, StandingAt, BlockAfter;
      ghost var l := buffer.View();
      ghost var events: seq<Event> := [];
      ParseStarts(accepts, l);
      var nhandled := 0;
      count := 0;
      NoMessages();
      while true
        invariant buffer.Valid() && buffer.View() == l && buffer.buff[..] == old(buffer.buff[..])
        invariant unpackData.Valid()
        invariant unpackData.block == buffer.buff || unpackData.block == old(unpackData.block)
        invariant nhandled < len == |l.unread| && (nhandled > 0 ==> events != [])
        invariant ParsedTo(accepts, l, nhandled, events)
        invariant dispatched == old(dispatched) + events && count == MessageCount(events)
        invariant events != [] ==> HoldsAt(buffer.buff, events[|events| - 1], l.read + nhandled)
        decreases len - nhandled
      {
        var res;
        ghost var more;
        res, more := ParseNext(buffer, nhandled, events);
        assert dispatched == old(dispatched) + (events + more);
        if res < 0 {
          NoCompaction(l, buffer.buff[..]);
          return -1;
        }
        if res == 0 {
          assert events + more == events;
          var _ := buffer.ReadLen(nhandled);
          break;
        }
        assert more == [more[0]];
        MessageCountAppend(events, more[0]);
        events := events + more;
        nhandled := nhandled + res;
        if IsUserType(unpackData.ptype) {
          count := count + 1;
        }
        if len - nhandled == 0 {
          AllParsed(accepts, l, events);
          NoCompaction(l, buffer.buff[..]);
          assert l.unread[..] == l.unread;
          var _ := buffer.ReadLen(nhandled);
          break;
        }
      }
    }
  }

  /** A parse that got to the end leaves nothing and does not compact. */
  lemma AllParsed(h: Handlers, l: Layout, events: seq<Event>)
    requires l.Valid() && ParsedTo(h, l, |l.unread|, events)
    ensures Drain(h, l.unread) == Outcome(events, [], true) && !Compacts(l, [])
    ensures Processed(h, l) == Apply(l, Read(|l.unread|)).0
  {
    hide ParsedTo;
    NothingToCompact(l);
    assert l.unread[|l.unread|..] == [];
    ParseStops(h, l, |l.unread|, events);
  }
}
