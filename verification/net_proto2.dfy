/**
 The active ("v2") framing: a 16-bit length, a packet type, and a body of that length less one.

 `Frame`, `Encode` and `Content` are the reference; the head packers and the unpacker of
 jmy_net_proto2.cpp are modelled beside it and shown to be its two directions.
 */
module NetProto2 {
  import opened Bytes

  const LEN_HEAD := 2
  const LEN_TYPE := 1
  const LEN_USER_ID := 4
  const LEN_MSG_ID := 2

  const TYPE_USER_DATA: byte := 5
  const TYPE_HEARTBEAT: byte := 7
  const TYPE_DISCONNECT: byte := 8
  const TYPE_DISCONNECT_ACK: byte := 9
  const TYPE_USER_ID_DATA: byte := 10

  /** What reaches a message handler. */
  datatype Message = Message(userId: int, msgId: int, payload: seq<byte>)

  datatype Frame =
    | UserData(msgId: int, payload: seq<byte>)
    | UserIdData(userId: int, msgId: int, payload: seq<byte>)
    | Disconnect
    | DisconnectAck

  function TypeOf(f: Frame): byte {
    match f
    case UserData(_, _) => TYPE_USER_DATA
    case UserIdData(_, _, _) => TYPE_USER_ID_DATA
    case Disconnect => TYPE_DISCONNECT
    case DisconnectAck => TYPE_DISCONNECT_ACK
  }

  function Body(f: Frame): seq<byte> {
    match f
    case UserData(msgId, payload) => Pack16(msgId) + payload
    case UserIdData(userId, msgId, payload) => Pack32(userId) + Pack16(msgId) + payload
    case Disconnect => []
    case DisconnectAck => []
  }

  /** The length field, which counts the type byte and the body, holds 16 bits. */
  predicate ValidFrame(f: Frame) {
    && LEN_TYPE + |Body(f)| < U16
    && (f.UserIdData? ==> IsInt32(f.userId))
  }

  function Head(f: Frame): (h: seq<byte>)
    ensures |h| == LEN_HEAD + LEN_TYPE
  {
    Pack16(LEN_TYPE + |Body(f)|) + [TypeOf(f)]
  }

  function Encode(f: Frame): seq<byte> {
    Head(f) + Body(f)
  }

  /** The messages a frame carries: message ids travel as 16 bits, a plain frame has user id 0. */
  function Content(f: Frame): seq<Message> {
    match f
    case UserData(msgId, payload) => [Message(0, msgId % U16, payload)]
    case UserIdData(userId, msgId, payload) => [Message(userId, msgId % U16, payload)]
    case Disconnect => []
    case DisconnectAck => []
  }

  predicate IsUserType(ptype: int) {
    ptype == TYPE_USER_DATA || ptype == TYPE_USER_ID_DATA
  }

  // ---------------------------------------------------------------- packing

  /** The five bytes in front of the payload of a user-data frame. */
  function UserDataHead(msgId: int, dataLen: int): (h: seq<byte>)
    ensures |h| == LEN_HEAD + LEN_TYPE + LEN_MSG_ID
  {
    Pack16(LEN_TYPE + LEN_MSG_ID + dataLen) + [TYPE_USER_DATA] + Pack16(msgId)
  }

  /** The nine bytes in front of the payload of a user-id-data frame. */
  function UserIdDataHead(userId: int, msgId: int, dataLen: int): (h: seq<byte>)
    ensures |h| == LEN_HEAD + LEN_TYPE + LEN_USER_ID + LEN_MSG_ID
  {
    Pack16(LEN_TYPE + LEN_USER_ID + LEN_MSG_ID + dataLen) + [TYPE_USER_ID_DATA] + Pack32(userId) + Pack16(msgId)
  }

  lemma HeadThenPayload(userId: int, msgId: int, payload: seq<byte>)
    ensures UserDataHead(msgId, |payload|) + payload == Encode(UserData(msgId, payload))
    ensures UserIdDataHead(userId, msgId, |payload|) + payload == Encode(UserIdData(userId, msgId, payload))
  {
  }

  method WritePack16(v: int, buf: array<byte>, at: nat)
    requires at + 2 <= buf.Length
    modifies buf
    ensures buf[..] == old(buf[..at]) + Pack16(v) + old(buf[at + 2..])
  {
    buf[at] := v / 0x100 % 0x100;
    buf[at + 1] := v % 0x100;
  }

  method WritePack32(v: int, buf: array<byte>, at: nat)
    requires at + 4 <= buf.Length
    modifies buf
    ensures buf[..] == old(buf[..at]) + Pack32(v) + old(buf[at + 4..])
  {
    buf[at] := v / 0x100_0000 % 0x100;
    buf[at + 1] := v / 0x1_0000 % 0x100;
    buf[at + 2] := v / 0x100 % 0x100;
    buf[at + 3] := v % 0x100;
  }

  method PackUserDataHead(buf: array<byte>, msgId: int, dataLen: int) returns (r: int)
    requires 0 <= dataLen < U16
    modifies buf
    ensures buf.Length < 5 ==> r == -1 && buf[..] == old(buf[..])
    ensures buf.Length >= 5 ==> r == 5 && buf[..] == UserDataHead(msgId, dataLen) + old(buf[5..])
  {
    var packLen := LEN_HEAD + LEN_TYPE + LEN_MSG_ID + dataLen;
    if buf.Length < packLen - dataLen {
      return -1;
    }
    WritePack16(packLen - LEN_HEAD, buf, 0);
    buf[2] := TYPE_USER_DATA;
    WritePack16(msgId, buf, 3);
    r := LEN_HEAD + LEN_TYPE + LEN_MSG_ID;
  }

  method PackUserIdDataHead(buf: array<byte>, userId: int, msgId: int, dataLen: int) returns (r: int)
    requires 0 <= dataLen < U16
    modifies buf
    ensures buf.Length < 9 ==> r == -1 && buf[..] == old(buf[..])
    ensures buf.Length >= 9 ==> r == 9 && buf[..] == UserIdDataHead(userId, msgId, dataLen) + old(buf[9..])
  {
    hide Pack16, Pack32;
    var packLen := LEN_HEAD + LEN_TYPE + LEN_USER_ID + LEN_MSG_ID + dataLen;
    if buf.Length < packLen - dataLen {
      return -1;
    }
    ghost var tail := buf[9..];
    WritePack16(packLen - LEN_HEAD, buf, 0);
    buf[2] := TYPE_USER_ID_DATA;
    assert buf[..3] == Pack16(packLen - LEN_HEAD) + [TYPE_USER_ID_DATA] && buf[9..] == tail;
    WritePack32(userId, buf, 3);
    assert buf[..7] == Pack16(packLen - LEN_HEAD) + [TYPE_USER_ID_DATA] + Pack32(userId) && buf[9..] == tail;
    WritePack16(msgId, buf, 7);
    r := LEN_HEAD + LEN_TYPE + LEN_USER_ID + LEN_MSG_ID;
  }

  /** `jmy_net_proto2_pack_disconnect` and `..._ack` differ only in the type byte. */
  method PackControl(buf: array<byte>, f: Frame) returns (r: int)
    requires f.Disconnect? || f.DisconnectAck?
    modifies buf
    ensures buf.Length < 3 ==> r == -1 && buf[..] == old(buf[..])
    ensures buf.Length >= 3 ==> r == 3 && buf[..] == Encode(f) + old(buf[3..])
  {
    if buf.Length < LEN_HEAD + LEN_TYPE {
      return -1;
    }
    WritePack16(LEN_TYPE, buf, 0);
    buf[2] := TypeOf(f);
    r := LEN_HEAD + LEN_TYPE;
  }

  // ---------------------------------------------------------------- unpacking

  /** `jmy_net_proto2_get_packet_len_type` on the three bytes of a head. */
  function PacketLenType(head: seq<byte>): (int, int)
    requires |head| >= LEN_HEAD + LEN_TYPE
  {
    (Unpack16(head), SignedChar(head[2]))
  }

  /** The bytes `jmy_net_proto2_unpack_data` reads of a user packet before its payload. */
  function FixedPart(ptype: int): nat {
    if ptype == TYPE_USER_ID_DATA then LEN_USER_ID + LEN_MSG_ID else LEN_MSG_ID
  }

  /** `jmy_net_proto2_unpack_data` on a user packet whose fixed part is present. */
  function Unpack(ptype: int, buf: seq<byte>): Message
    requires IsUserType(ptype) && |buf| >= FixedPart(ptype)
  {
    var offset := FixedPart(ptype) - LEN_MSG_ID;
    var userId := if ptype == TYPE_USER_ID_DATA then Unpack32(buf) else 0;
    Message(userId, Unpack16(buf[offset..]), buf[offset + LEN_MSG_ID..])
  }

  /** Whatever follows a valid frame in the stream, its head yields its type and its length. */
  lemma HeadDecodes(f: Frame, rest: seq<byte>)
    requires ValidFrame(f)
    ensures PacketLenType(Head(f) + rest) == (LEN_TYPE + |Body(f)|, TypeOf(f) as int)
  {
    var h := Head(f) + rest;
    assert h == Pack16(LEN_TYPE + |Body(f)|) + ([TypeOf(f)] + rest);
    Unpack16Pack16(LEN_TYPE + |Body(f)|, [TypeOf(f)] + rest);
  }

  /** Unpacking the body of a valid user frame gives back exactly the message it carries. */
  lemma UnpackBody(f: Frame)
    requires ValidFrame(f) && IsUserType(TypeOf(f))
    ensures |Body(f)| >= FixedPart(TypeOf(f))
    ensures Content(f) == [Unpack(TypeOf(f), Body(f))]
  {
    match f
    case UserData(msgId, payload) =>
      Unpack16Pack16(msgId, payload);
      assert Body(f)[0..] == Body(f) && Body(f)[2..] == payload;
    case UserIdData(userId, msgId, payload) =>
      assert Body(f) == Pack32(userId) + (Pack16(msgId) + payload);
      Unpack32Pack32(userId, Pack16(msgId) + payload);
      Unpack16Pack16(msgId, payload);
      assert Body(f)[4..] == Pack16(msgId) + payload && Body(f)[6..] == payload;
  }

  /** A stream that starts with a valid frame splits into its head, its body and what follows. */
  lemma StreamSplits(f: Frame, rest: seq<byte>)
    requires ValidFrame(f)
    ensures var s := Encode(f) + rest;
            var bodyLen := PacketLenType(s).0 - LEN_TYPE;
            && PacketLenType(s).1 == TypeOf(f) as int
            && bodyLen == |Body(f)| && s[3..3 + bodyLen] == Body(f) && s[3 + bodyLen..] == rest
  {
    HeadDecodes(f, Body(f) + rest);
    assert Encode(f) + rest == Head(f) + (Body(f) + rest);
  }

  /** The framing is unambiguous: a byte stream starts with at most one valid frame. */
  lemma EncodeUnambiguous(f: Frame, g: Frame, x: seq<byte>, y: seq<byte>)
    requires ValidFrame(f) && ValidFrame(g)
    requires Encode(f) + x == Encode(g) + y
    ensures TypeOf(f) == TypeOf(g) && Body(f) == Body(g) && x == y
    ensures Content(f) == Content(g)
  {
    StreamSplits(f, x);
    StreamSplits(g, y);
    if IsUserType(TypeOf(f)) {
      UnpackBody(f);
      UnpackBody(g);
    }
  }

  // ---------------------------------------------------------------- byte by byte

  function Big16(b: seq<byte>, at: nat): int
    requires at + 2 <= |b|
  {
    (b[at] as int) * 256 + (b[at + 1] as int)
  }

  /** Where the fields of a frame lie: length without itself, type, user id, message id, payload, high bytes first. */
  lemma FrameLayout(f: Frame)
    requires ValidFrame(f)
    ensures var b := Encode(f);
            match f
            case UserData(msgId, payload) =>
              && |b| == 5 + |payload| && Big16(b, 0) == |b| - 2 && b[2] == 5
              && Big16(b, 3) == msgId % 65536 && b[5..] == payload
            case UserIdData(userId, msgId, payload) =>
              && |b| == 9 + |payload| && Big16(b, 0) == |b| - 2 && b[2] == 10
              && Big16(b, 3) * 65536 + Big16(b, 5) == userId % 4294967296
              && Big16(b, 7) == msgId % 65536 && b[9..] == payload
            case Disconnect => b == [0, 1, 8]
            case DisconnectAck => b == [0, 1, 9]
  {
    hide *;
    match f
    case UserData(msgId, payload) => UserDataLayout(f, msgId, payload);
    case UserIdData(userId, msgId, payload) => UserIdDataLayout(f, userId, msgId, payload);
    case _ => ControlLayout(f);
  }

  lemma UserDataLayout(f: Frame, msgId: int, payload: seq<byte>)
    requires ValidFrame(f) && f == UserData(msgId, payload)
    ensures var b := Encode(f);
            && |b| == 5 + |payload| && Big16(b, 0) == |b| - 2 && b[2] == 5
            && Big16(b, 3) == msgId % 65536 && b[5..] == payload
  {
    hide Pack16;
    Pack16Digits(LEN_TYPE + |Body(f)|, []);
    Pack16Digits(msgId, []);
    FieldsAt(Encode(f), Pack16(LEN_TYPE + |Body(f)|), [TYPE_USER_DATA], Body(f));
    BodyAt(Body(f), Pack16(msgId), payload);
    assert Encode(f)[5..] == Body(f)[2..];
  }

  lemma UserIdDataLayout(f: Frame, userId: int, msgId: int, payload: seq<byte>)
    requires ValidFrame(f) && f == UserIdData(userId, msgId, payload)
    ensures var b := Encode(f);
            && |b| == 9 + |payload| && Big16(b, 0) == |b| - 2 && b[2] == 10
            && Big16(b, 3) * 65536 + Big16(b, 5) == userId % 4294967296
            && Big16(b, 7) == msgId % 65536 && b[9..] == payload
  {
    hide Pack16, Pack32;
    Pack16Digits(LEN_TYPE + |Body(f)|, []);
    Pack16Digits(msgId, []);
    Pack32Digits(userId, []);
    FieldsAt(Encode(f), Pack16(LEN_TYPE + |Body(f)|), [TYPE_USER_ID_DATA], Body(f));
    BodyAt(Body(f), Pack32(userId) + Pack16(msgId), payload);
    assert Encode(f)[9..] == Body(f)[6..];
  }

  lemma ControlLayout(f: Frame)
    requires f.Disconnect? || f.DisconnectAck?
    ensures Encode(f) == [0, 1, if f.Disconnect? then 8 else 9]
  {
    OneBytes();
  }

  lemma OneBytes()
    ensures Pack16(1) == [0, 1]
  {
  }

  lemma FieldsAt(b: seq<byte>, n: seq<byte>, t: seq<byte>, body: seq<byte>)
    requires |n| == 2 && |t| == 1 && b == n + t + body
    ensures |b| == 3 + |body| && b[0] == n[0] && b[1] == n[1] && b[2] == t[0] && b[3..] == body
    ensures forall i :: 3 <= i < |b| ==> b[i] == body[i - 3]
  {
  }

  lemma BodyAt(body: seq<byte>, fixed: seq<byte>, payload: seq<byte>)
    requires body == fixed + payload
    ensures |body| == |fixed| + |payload| && body[|fixed|..] == payload
    ensures forall i :: 0 <= i < |fixed| ==> body[i] == fixed[i]
  {
  }
}
