/** `JmyTcpConnection` with a send list, proved against the endpoint steps. */
module TcpConnections {
  import opened Bytes
  import opened BufferLists
  import opened NetProto2
  import opened DataHandler2
  import opened Endpoints

  class TcpConnection {
    const connType: Kind
    const sendBuffList: SessionBufferList
    const recvBuffList: SessionBufferList
    var state: State
    var sendingData: bool
    var buffSendCount: nat

    // What the socket has been asked to do, and the histories of the specification.
    ghost var pending: Sending
    ghost var reading: Reading
    ghost var accepted: seq<Request>
    ghost var delivered: seq<Message>
    ghost var closed: bool

    ghost predicate Valid()
      reads this, sendBuffList, recvBuffList
    {
      && sendBuffList != recvBuffList
      && sendBuffList.Unlimited()
      && sendBuffList.Sending()
    }

    ghost function View(): Endpoint
      reads this, sendBuffList, recvBuffList
    {
      Endpoint(connType, state, sendBuffList.Queue(), sendingData, buffSendCount, pending, reading,
               Inbox(recvBuffList.usingList), accepted, delivered, closed)
    }

    /** A connection whose connect has completed and whose `start` has run. */
    constructor (connType: Kind)
      ensures Valid() && View() == Started(connType)
      ensures fresh(sendBuffList) && fresh(recvBuffList)
    {
      this.connType := connType;
      sendBuffList := new SessionBufferList(0, 0);
      recvBuffList := new SessionBufferList(0, 0);
      state, sendingData, buffSendCount := Connected, false, 0;
      pending, reading, accepted, delivered, closed := NoSend, ReadHead, [], [], false;
    }

    method SendUser(msgId: int, data: seq<byte>) returns (r: int)
      requires Valid() && |data| < U32
      modifies this`accepted, sendBuffList
      ensures Valid() && View() == Send(old(View()), User(msgId, data))
      ensures r == if CanSend(old(View()), User(msgId, data)) then |data| else -1
    {
      hide Encode;
      if state != Connected {
        return -1;
      }
      var res := WriteUserData(sendBuffList, msgId, data);
      if res < 0 {
        return -1;
      }
      AcceptedFrameValid(User(msgId, data));
      QueueAppend(old(sendBuffList.usingList), Encode(FrameOf(User(msgId, data))));
      accepted := accepted + [User(msgId, data)];
      return |data|;
    }

    method SendUserId(userId: int, msgId: int, data: seq<byte>) returns (r: int)
      requires Valid() && |data| < U16
      modifies this`accepted, sendBuffList
      ensures Valid() && View() == Send(old(View()), UserId(userId, msgId, data))
      ensures r == if CanSend(old(View()), UserId(userId, msgId, data)) then |data| else -1
    {
      if state != Connected {
        return -1;
      }
      var res := WriteUserIdAndData(sendBuffList, userId, msgId, data);
      if res < 0 {
        return -1;
      }
      QueueAppend(old(sendBuffList.usingList), Encode(FrameOf(UserId(userId, msgId, data))));
      accepted := accepted + [UserId(userId, msgId, data)];
      return |data|;
    }

    /** `sendDisconnect` and `sendDisconnectAck`. */
    method SendControl(frame: Frame) returns (r: int)
      requires Valid() && (frame.Disconnect? || frame.DisconnectAck?)
      modifies this`accepted, sendBuffList
      ensures Valid() && View() == Enqueue(old(View()), Control(frame)) && r == 0
    {
      var res := WriteControl(sendBuffList, frame);
      if res < 0 {
        return -1;
      }
      QueueAppend(old(sendBuffList.usingList), Encode(FrameOf(Control(frame))));
      accepted := accepted + [Control(frame)];
      return 0;
    }

    method CloseGracefully()
      requires Valid()
      modifies this, sendBuffList
      ensures Valid() && View() == Close(old(View()))
    {
      if state != Connected {
        return;
      }
      var res := SendControl(Disconnect);
      if res < 0 {
        return;
      }
      state := Disconnecting;
    }

    method ForceCloseNow()
      requires Valid()
      modifies this, sendBuffList, recvBuffList
      ensures Valid() && View() == ForceClose(old(View()))
    {
      if state == Disconnected {
        return;
      }
      pending, reading, closed := NoSend, NoRead, true;
      sendBuffList.Clear();
      recvBuffList.Clear();
      state := Disconnected;
      sendingData := false;
    }

    method StartReceiving()
      requires Valid()
      modifies this`state, this`reading
      ensures Valid() && View() == StartRecv(old(View()))
    {
      if connType == Active && state != Connected {
        reading := NoRead;
        return;
      }
      reading := ReadHead;
      if connType == Passive && state != Connected {
        state := Connected;
      }
    }

    /** `handle_packet_type`: 1 asks for a body, 0 means the packet was handled. */
    method HandlePacketType(ptype: int) returns (r: int)
      requires Valid()
      modifies this, sendBuffList, recvBuffList
      ensures Valid()
      ensures r == if IsUserType(ptype) then 1 else 0
      ensures View() == if IsUserType(ptype) then old(View()) else HandleControl(old(View()), ptype)
    {
      if ptype == TYPE_DISCONNECT as int {
        if state != Disconnecting {
          var _ := SendControl(DisconnectAck);
        }
      } else if ptype == TYPE_DISCONNECT_ACK as int {
        if state == Disconnecting {
          ForceCloseNow();
        }
      } else if ptype == TYPE_USER_DATA as int {
        return 1;
      } else if ptype == TYPE_USER_ID_DATA as int {
        return 1;
      }
      return 0;
    }

    /** The callback of the three-byte head read. */
    method HeadReceived(head: seq<byte>)
      requires Valid() && |head| == LEN_HEAD + LEN_TYPE
      modifies this, sendBuffList, recvBuffList
      ensures Valid() && View() == OnHead(old(View()), head)
    {
      var (len, ptype) := PacketLenType(head);
      var r := HandlePacketType(ptype);
      if r == 0 {
        StartReceiving();
        return;
      }
      reading := ReadBody(ptype, (len - LEN_TYPE) % U16);
    }

    /** The callback of the body read posted by `recv_packet`. */
    method BodyReceived(ptype: int, body: seq<byte>)
      requires Valid() && IsUserType(ptype) && |body| < U16
      modifies this, recvBuffList
      ensures Valid() && View() == OnBody(old(View()), ptype, body)
    {
      var _ := recvBuffList.WriteTyped(ptype, body);
      StartReceiving();
    }

    method StartSending() returns (r: int)
      requires Valid()
      modifies this`pending, this`sendingData
      ensures Valid() && View() == StartSend(old(View()))
      ensures r == if old(state) != Connected then -1 else if View() == old(View()) then 0 else 1
    {
      if state != Connected {
        return -1;
      }
      if sendingData {
        return 0;
      }
      var readLen := sendBuffList.GetReadLen();
      if readLen == 0 {
        return 0;
      }
      pending := Posted;
      sendingData := true;
      return 1;
    }

    /** The callback of `buffer_list_send` for `bytes` bytes without an error. */
    method SendCompleted(bytes: nat)
      requires Valid()
      modifies this, sendBuffList
      ensures Valid() && View() == OnSent(old(View()), bytes)
    {
      var _ := sendBuffList.ReadLen(bytes);
      buffSendCount := buffSendCount + 1;
      if buffSendCount >= SEND_BATCH || |sendBuffList.usingList| == 0 {
        buffSendCount := 0;
        sendingData := false;
        pending := NoSend;
        return;
      }
      pending := Posted;
    }

    /** One turn of the main loop; `failAt` is the first handler to fail, `timedOut` the close timeout. */
    method RunOnce(timedOut: bool, failAt: nat) returns (r: int)
      requires Valid()
      requires forall i :: 0 <= i < |recvBuffList.usingList| ==> Readable(PacketOf(recvBuffList.usingList[i]))
      modifies this, sendBuffList, recvBuffList
      ensures Valid() && View() == Run(old(View()), timedOut, failAt)
      ensures r == if old(state) != Connected then 0
                   else if failAt < |old(View()).inbox| then -1
                   else if old(sendingData) || old(View()).queue == [] then 0 else 1
    {
      if state == Disconnecting {
        if timedOut {
          ForceCloseNow();
          return 0;
        }
      }
      if state != Connected {
        return 0;
      }
      var count, dispatched := ProcessData(recvBuffList, failAt);
      delivered := delivered + dispatched;
      if count < 0 {
        ForceCloseNow();
        return -1;
      }
      r := StartSending();
    }
  }
}
