/**
 The v2 writers of jmy_data_handler2.h: which sends a buffer list accepts, and what it then holds.
 */
module DataHandler2 {
  import opened Bytes
  import opened Sequences
  import opened BufferLists
  import opened NetProto2

  /** What a caller asks a connection to send. */
  datatype Request =
    | User(msgId: int, data: seq<byte>)
    | UserId(userId: int, msgId: int, data: seq<byte>)
    | Control(frame: Frame)

  /** The source's parameter types: `unsigned int` and `unsigned short` lengths, `int` ids. */
  predicate ValidRequest(q: Request) {
    match q
    case User(_, data) => |data| < U32
    case UserId(userId, _, data) => |data| < U16 && IsInt32(userId)
    case Control(frame) => frame.Disconnect? || frame.DisconnectAck?
  }

  /** The frame a request puts in the list; the payload length passes through 16 bits. */
  function FrameOf(q: Request): Frame {
    match q
    case User(msgId, data) => UserData(msgId, Narrow(data))
    case UserId(userId, msgId, data) => UserIdData(userId, msgId, Narrow(data))
    case Control(frame) => frame
  }

  /** The message the caller meant. */
  function Intent(q: Request): seq<Message> {
    match q
    case User(msgId, data) => [Message(0, msgId % U16, data)]
    case UserId(userId, msgId, data) => [Message(userId, msgId % U16, data)]
    case Control(_) => []
  }

  /** Exactly the requests whose narrowed lengths fit their buffer. */
  predicate Accepts(q: Request) {
    match q
    case User(_, data) => data == [] || 0 < |data| % U16 <= 65530
    case UserId(_, _, data) => |data| <= 65526
    case Control(_) => true
  }

  /** The bytes the list's limits are checked against. */
  function WriteSize(q: Request): nat {
    match q
    case User(_, data) => (5 + |data|) % U32
    case UserId(_, _, data) => 9 + |data|
    case Control(_) => 3
  }

  lemma GatherTwo(head: seq<byte>, data: seq<byte>)
    requires |head| < U16
    ensures TotalLen([head, data]) == |head| + |data|
    ensures Gather([head, data]) == head + Narrow(data)
  {
    assert TotalLen([data]) == |data| by {
      assert [data][1..] == [];
    }
    assert [head, data][1..] == [data] && Narrow(head) == head;
    FlatMapOne(Narrow, data);
  }

  /** The buffer list holds the frame of every accepted request, and nothing of a refused one. */
  ghost predicate Appended(before: seq<Buffer>, after: seq<Buffer>, q: Request, ok: bool) {
    var e := Encode(FrameOf(q));
    after == before + if ok then [Buffer(e, |e|, 0, |e|)] else []
  }

  lemma UserGathers(msgId: int, data: seq<byte>)
    requires data != []
    ensures var datas := [UserDataHead(msgId, |data| % U16), data];
            && (Gathers(datas) <==> Accepts(User(msgId, data)))
            && TotalLen(datas) == 5 + |data|
            && Gather(datas) == Encode(FrameOf(User(msgId, data)))
  {
    hide Encode, UserDataHead, Gather;
    var datas := [UserDataHead(msgId, |data| % U16), data];
    GatherTwo(datas[0], data);
    HeadThenPayload(0, msgId, Narrow(data));
    assert |datas[0]| % U16 == 5;
  }

  lemma UserIdGathers(userId: int, msgId: int, data: seq<byte>)
    requires data != [] && |data| < U16
    ensures var datas := [UserIdDataHead(userId, msgId, |data|), data];
            && (Gathers(datas) <==> Accepts(UserId(userId, msgId, data)))
            && TotalLen(datas) == 9 + |data|
            && Gather(datas) == Encode(FrameOf(UserId(userId, msgId, data)))
  {
    hide Encode, UserIdDataHead, Gather;
    var datas := [UserIdDataHead(userId, msgId, |data|), data];
    GatherTwo(datas[0], data);
    HeadThenPayload(userId, msgId, Narrow(data));
    assert |datas[0]| % U16 == 9;
  }

  /** The local `head_buf` of `writeUserData` after the packer filled it. */
  method UserHeadBytes(msgId: int, dataLen: int) returns (head: seq<byte>)
    requires 0 <= dataLen < U16
    ensures head == UserDataHead(msgId, dataLen)
  {
    var buf := new byte[LEN_HEAD + LEN_TYPE + LEN_MSG_ID];
    var res := PackUserDataHead(buf, msgId, dataLen);
    head := buf[..res];
  }

  /** The local `head_buf` of `writeUserIdAndData` after the packer filled it. */
  method UserIdHeadBytes(userId: int, msgId: int, dataLen: int) returns (head: seq<byte>)
    requires 0 <= dataLen < U16
    ensures head == UserIdDataHead(userId, msgId, dataLen)
  {
    var buf := new byte[LEN_HEAD + LEN_TYPE + LEN_USER_ID + LEN_MSG_ID];
    var res := PackUserIdDataHead(buf, userId, msgId, dataLen);
    head := buf[..res];
  }

  method WriteUserData(list: SessionBufferList, msgId: int, data: seq<byte>) returns (r: int)
    requires |data| < U32
    modifies list
    ensures var q := User(msgId, data);
            var ok := old(list.HasRoom(WriteSize(q))) && Accepts(q);
            && Appended(old(list.usingList), list.usingList, q, ok)
            && r == if !ok then -1 else if data == [] then 0 else 5 + |data|
    ensures list.maxBytes == old(list.maxBytes) && list.maxCount == old(list.maxCount)
  {
    hide Encode, Gathers, Gather;
    var head := UserHeadBytes(msgId, |data| % U16);
    if |data| == 0 {
      HeadThenPayload(0, msgId, data);
      assert head + data == head && Narrow(data) == data;
      var ok := list.WriteData(head);
      return if ok then |data| else -1;
    }
    UserGathers(msgId, data);
    var ok := list.WriteDatas([head, data]);
    return if ok then |head| + |data| else -1;
  }

  method WriteUserIdAndData(list: SessionBufferList, userId: int, msgId: int, data: seq<byte>) returns (r: int)
    requires |data| < U16
    modifies list
    ensures var q := UserId(userId, msgId, data);
            var ok := old(list.HasRoom(WriteSize(q))) && Accepts(q);
            && Appended(old(list.usingList), list.usingList, q, ok)
            && r == if !ok then -1 else if data == [] then 0 else 9 + |data|
    ensures list.maxBytes == old(list.maxBytes) && list.maxCount == old(list.maxCount)
  {
    hide Encode, Gathers, Gather;
    var head := UserIdHeadBytes(userId, msgId, |data|);
    if |data| == 0 {
      HeadThenPayload(userId, msgId, data);
      assert head + data == head && Narrow(data) == data;
      var ok := list.WriteData(head);
      return if ok then |data| else -1;
    }
    UserIdGathers(userId, msgId, data);
    var ok := list.WriteDatas([head, data]);
    return if ok then |head| + |data| else -1;
  }

  /** `writeDisconnect` and `writeDisconnectAck`. */
  method WriteControl(list: SessionBufferList, frame: Frame) returns (r: int)
    requires frame.Disconnect? || frame.DisconnectAck?
    modifies list
    ensures var q := Control(frame);
            var ok := old(list.HasRoom(WriteSize(q)));
            && Appended(old(list.usingList), list.usingList, q, ok)
            && r == if ok then 3 else -1
    ensures list.maxBytes == old(list.maxBytes) && list.maxCount == old(list.maxCount)
  {
    var buf := new byte[LEN_HEAD + LEN_TYPE];
    var res := PackControl(buf, frame);
    assert buf[..] == Encode(frame);
    var ok := list.WriteData(buf[..]);
    return if ok then res else -1;
  }

  /** Every accepted request becomes a valid frame of fewer than 65536 bytes. */
  lemma AcceptedFrameValid(q: Request)
    requires ValidRequest(q) && Accepts(q)
    ensures ValidFrame(FrameOf(q)) && 0 < |Encode(FrameOf(q))| < U16
  {
  }

  /**
   The exact bounds. A user-id send is refused past 65526 bytes; a plain send of at most 65536 bytes is
   refused past 65530. Past that the plain send accepts again, with only the low 16 bits of its length:
   an accepted request carries the message its caller meant exactly when the length is at most 65530.
   */
  lemma FrameBounds(q: Request)
    requires ValidRequest(q)
    ensures q.UserId? ==> (Accepts(q) <==> |q.data| <= 65526)
    ensures q.User? && |q.data| <= 65536 ==> (Accepts(q) <==> |q.data| <= 65530)
    ensures q.User? && |q.data| > 65536 ==> (Accepts(q) <==> 1 <= |q.data| % 65536 <= 65530)
    ensures q.Control? ==> Accepts(q)
    ensures Accepts(q) ==> (Content(FrameOf(q)) == Intent(q) <==> (q.User? ==> |q.data| <= 65530))
  {
    if q.User? && Content(FrameOf(q)) == Intent(q) {
      assert Narrow(q.data) == q.data;
    }
    if !q.Control? && |q.data| <= 65530 {
      assert Narrow(q.data) == q.data;
    }
  }

  /** A send the code accepts and cuts: 65537 bytes go out as a frame of one. */
  lemma LongSendIsCut(msgId: int, data: seq<byte>)
    requires |data| == 65537
    ensures Accepts(User(msgId, data))
    ensures Content(FrameOf(User(msgId, data))) == [Message(0, msgId % U16, data[..1])]
    ensures Content(FrameOf(User(msgId, data))) != Intent(User(msgId, data))
  {
    assert |Narrow(data)| == 1;
    assert Content(FrameOf(User(msgId, data)))[0].payload == data[..1];
    assert Intent(User(msgId, data))[0].payload == data;
  }

  // ---------------------------------------------------------------- receiving

  /** A received packet: the receive list keeps its type in the write offset. */
  datatype Packet = Packet(ptype: int, body: seq<byte>)

  function PacketOf(b: Buffer): Packet {
    Packet(b.woff, b.data)
  }

  function Inbox(list: seq<Buffer>): (r: seq<Packet>)
    ensures |r| == |list|
  {
    seq(|list|, i requires 0 <= i < |list| => PacketOf(list[i]))
  }

  /** The packets `handleOne` can read: user packets that hold their fixed part. */
  predicate Readable(p: Packet) {
    IsUserType(p.ptype) && |p.body| >= FixedPart(p.ptype)
  }

  /** The message `handleOne` passes to `handleMsg`. */
  function MessageOf(p: Packet): seq<Message> {
    if Readable(p) then [Unpack(p.ptype, p.body)] else []
  }

  /**
   `processData`: every buffer of the list is unpacked and handed to a handler, in order. `failAt` is the
   position of the first handler that returns a negative value, past the end if none does.
   The count stays 0 because the v2 unpacker never sets the packet type it is compared with.
   */
  method ProcessData(list: SessionBufferList, failAt: nat) returns (r: int, dispatched: seq<Message>)
    requires forall i :: 0 <= i < |list.usingList| ==> Readable(PacketOf(list.usingList[i]))
    modifies list
    ensures r == if failAt < |old(list.usingList)| then -1 else 0
    ensures r == -1 ==> list.usingList == old(list.usingList)
    ensures r == -1 ==> dispatched == FlatMap(MessageOf, Inbox(old(list.usingList))[..failAt + 1])
    ensures r == 0 ==> list.usingList == [] && dispatched == FlatMap(MessageOf, Inbox(old(list.usingList)))
    ensures list.maxBytes == old(list.maxBytes) && list.maxCount == old(list.maxCount)
  {
    hide Unpack;
    dispatched := [];
    ghost var inbox := Inbox(list.usingList);
    var i := 0;
    while i < |list.usingList|
      invariant i <= |list.usingList| && i <= failAt
      invariant list.usingList == old(list.usingList)
      invariant list.maxBytes == old(list.maxBytes) && list.maxCount == old(list.maxCount)
      invariant dispatched == FlatMap(MessageOf, inbox[..i])
    {
      var b := list.usingList[i];
      FlatMapSplit(MessageOf, inbox, i);
      assert inbox[i] == PacketOf(b);
      dispatched := dispatched + [Unpack(b.woff, b.data)];
      if i == failAt {
        return -1, dispatched;
      }
      i := i + 1;
    }
    assert inbox[..i] == inbox;
    list.Clear();
    return 0, dispatched;
  }
}
