/**
 The older ("v1") framing: a packet type, then fields that depend on it, with no outer length.

 `Packet` and `Encode` are the reference for the packers; `Decode` says what one call of
 `jmy_net_proto_unpack_data_head` makes of the bytes at hand.
 */
module NetProto {
  import opened Bytes

  const TYPE_USER_DATA := 5
  const TYPE_ACK := 6
  const TYPE_HEARTBEAT := 7
  const TYPE_DISCONNECT := 8
  const TYPE_DISCONNECT_ACK := 9
  const TYPE_USER_ID_DATA := 10

  datatype Packet =
    | UserData(msgId: int, payload: seq<byte>)
    | UserIdData(userId: int, msgId: int, payload: seq<byte>)
    | Heartbeat(time: int)
    | Disconnect
    | DisconnectAck

  /** What a handler is called with. */
  datatype Event =
    | OnMessage(userId: int, msgId: int, payload: seq<byte>)
    | OnHeartbeat
    | OnDisconnect
    | OnDisconnectAck

  /** The packets whose length field, payload plus message id, holds 16 bits. */
  predicate ValidPacket(p: Packet) {
    && ((p.UserData? || p.UserIdData?) ==> |p.payload| + 2 < U16)
    && (p.UserIdData? ==> IsInt32(p.userId))
  }

  function Encode(p: Packet): (b: seq<byte>)
    ensures |b| >= 1
  {
    match p
    case UserData(msgId, payload) => UserDataHead(msgId, |payload|) + payload
    case UserIdData(userId, msgId, payload) => UserIdDataHead(userId, msgId, |payload|) + payload
    case Heartbeat(time) => [7] + Pack32(time)
    case Disconnect => [8]
    case DisconnectAck => [9]
  }

  function UserDataHead(msgId: int, dataLen: int): (h: seq<byte>)
    ensures |h| == 5
  {
    [5] + Pack16(dataLen + 2) + Pack16(msgId)
  }

  function UserIdDataHead(userId: int, msgId: int, dataLen: int): (h: seq<byte>)
    ensures |h| == 9
  {
    [10] + Pack32(userId) + Pack16(dataLen + 2) + Pack16(msgId)
  }

  function EventOf(p: Packet): Event {
    match p
    case UserData(msgId, payload) => OnMessage(0, msgId % U16, payload)
    case UserIdData(userId, msgId, payload) => OnMessage(userId, msgId % U16, payload)
    case Heartbeat(_) => OnHeartbeat
    case Disconnect => OnDisconnect
    case DisconnectAck => OnDisconnectAck
  }

  predicate IsUserType(ptype: int) {
    ptype == TYPE_USER_DATA || ptype == TYPE_USER_ID_DATA
  }

  datatype Unpacked =
    | Bad                                // the call or its caller fails
    | HeadShort                          // user data whose length field is not here yet
    | BodyShort(total: nat)              // user data of `total` bytes, not all here
    | Short                              // another packet not here yet, or nothing at all
    | Got(event: Event, length: nat)     // a packet of `length` bytes

  /** The offset of the length field of a user packet. */
  function LengthAt(ptype: int): nat {
    if ptype == TYPE_USER_ID_DATA then 5 else 1
  }

  function DecodeUser(b: seq<byte>): Unpacked
    requires b != [] && IsUserType(b[0])
  {
    var at := LengthAt(b[0]);
    if |b| < at + 2 then HeadShort
    else
      var dataLen := Unpack16(b[at..]);
      if dataLen < 2 then Bad
      else if |b| - (at + 2) < dataLen then BodyShort(dataLen + at + 2)
      else
        var userId := if b[0] == TYPE_USER_ID_DATA then Unpack32(b[1..]) else 0;
        Got(OnMessage(userId, Unpack16(b[at + 2..]), b[at + 4..at + 2 + dataLen]), at + 2 + dataLen)
  }

  function Decode(b: seq<byte>): (u: Unpacked)
    ensures u.Got? ==> 1 <= u.length <= |b|
  {
    if b == [] then Short
    else if IsUserType(b[0]) then DecodeUser(b)
    else if b[0] == TYPE_ACK then (if |b| <= 5 then Short else Bad)
    else if b[0] == TYPE_HEARTBEAT then (if |b| <= 5 then Short else Got(OnHeartbeat, 5))
    else if b[0] == TYPE_DISCONNECT then Got(OnDisconnect, 1)
    else if b[0] == TYPE_DISCONNECT_ACK then Got(OnDisconnectAck, 1)
    else Bad
  }

  /** More bytes behind a decision do not change it. */
  lemma DecodeStable(a: seq<byte>, c: seq<byte>)
    requires Decode(a).Got? || Decode(a).Bad?
    ensures Decode(a + c) == Decode(a)
  {
    if IsUserType(a[0]) {
      var at := LengthAt(a[0]);
      assert (a + c)[at..][..2] == a[at..][..2];
      if Decode(a).Got? {
        var n := Decode(a).length;
        assert (a + c)[at + 4..n] == a[at + 4..n];
      }
    }
  }

  // ---------------------------------------------------------------- encode, then decode

  /** The head of a user packet, alone or followed by anything, yields its length field. */
  lemma LengthField(p: Packet, rest: seq<byte>)
    requires p.UserData? || p.UserIdData?
    ensures var b := (if p.UserData? then UserDataHead(p.msgId, |p.payload|)
                      else UserIdDataHead(p.userId, p.msgId, |p.payload|)) + rest;
            Unpack16(b[LengthAt(b[0])..]) == (|p.payload| + 2) % U16
  {
    var msg := Pack16(p.msgId) + rest;
    Unpack16Pack16(|p.payload| + 2, msg);
    if p.UserData? {
      var b := UserDataHead(p.msgId, |p.payload|) + rest;
      assert b[1..] == Pack16(|p.payload| + 2) + msg;
    } else {
      var b := UserIdDataHead(p.userId, p.msgId, |p.payload|) + rest;
      assert b[5..] == Pack16(|p.payload| + 2) + msg;
    }
  }

  lemma UserDataFields(p: Packet, rest: seq<byte>)
    requires ValidPacket(p) && p.UserData?
    ensures var b := Encode(p) + rest;
            Unpack16(b[3..]) == p.msgId % U16 && b[5..5 + |p.payload|] == p.payload
  {
    var b := Encode(p) + rest;
    Unpack16Pack16(p.msgId, p.payload + rest);
    assert b[3..] == Pack16(p.msgId) + (p.payload + rest);
  }

  lemma UserDataDecodes(p: Packet, rest: seq<byte>)
    requires ValidPacket(p) && p.UserData?
    ensures Decode(Encode(p) + rest) == Got(EventOf(p), |Encode(p)|)
  {
    hide Pack16, Unpack16;
    var b := Encode(p) + rest;
    LengthField(p, p.payload + rest);
    assert b == UserDataHead(p.msgId, |p.payload|) + (p.payload + rest);
    UserDataFields(p, rest);
  }

  lemma UserIdFields(p: Packet, rest: seq<byte>)
    requires ValidPacket(p) && p.UserIdData?
    ensures var b := Encode(p) + rest;
            && Unpack32(b[1..]) == p.userId
            && Unpack16(b[7..]) == p.msgId % U16
            && b[9..9 + |p.payload|] == p.payload
  {
    hide Pack16, Unpack16, Unpack32;
    var b := Encode(p) + rest;
    var tail := p.payload + rest;
    Unpack16Pack16(p.msgId, tail);
    assert b[7..] == Pack16(p.msgId) + tail;
    Unpack32Pack32(p.userId, b[5..]);
    assert b[1..] == Pack32(p.userId) + b[5..];
  }

  lemma UserIdDataDecodes(p: Packet, rest: seq<byte>)
    requires ValidPacket(p) && p.UserIdData?
    ensures Decode(Encode(p) + rest) == Got(EventOf(p), |Encode(p)|)
  {
    hide Pack16, Unpack16, Pack32, Unpack32;
    var b := Encode(p) + rest;
    LengthField(p, p.payload + rest);
    assert b == UserIdDataHead(p.userId, p.msgId, |p.payload|) + (p.payload + rest);
    UserIdFields(p, rest);
  }

  /** A packet at the front of a stream is decoded, except a heartbeat with nothing behind it. */
  lemma EncodeDecode(p: Packet, rest: seq<byte>)
    requires ValidPacket(p)
    ensures Decode(Encode(p) + rest) ==
            if p.Heartbeat? && rest == [] then Short else Got(EventOf(p), |Encode(p)|)
  {
    if p.UserData? {
      UserDataDecodes(p, rest);
    } else if p.UserIdData? {
      UserIdDataDecodes(p, rest);
    }
  }

  /** A proper prefix of a packet is never taken for a packet or for an error. */
  lemma PrefixDecode(p: Packet, n: nat)
    requires ValidPacket(p) && n < |Encode(p)|
    ensures var u := Decode(Encode(p)[..n]);
            || (u.HeadShort? && n > 0 && !p.Heartbeat?)
            || (u == BodyShort(|Encode(p)|) && !p.Heartbeat?)
            || (u.Short? && (n == 0 || p.Heartbeat?))
  {
    if n > 0 && (p.UserData? || p.UserIdData?) {
      var b := Encode(p)[..n];
      var at := LengthAt(b[0]);
      if n >= at + 2 {
        LengthField(p, p.payload);
        assert b[at..][..2] == Encode(p)[at..][..2];
      }
    }
  }

  // ---------------------------------------------------------------- byte by byte

  function Big16(b: seq<byte>, at: nat): int
    requires at + 2 <= |b|
  {
    (b[at] as int) * 256 + (b[at + 1] as int)
  }

  /** Where the fields of a packet lie: type, user id, length of message id and payload, message id, payload. */
  lemma PacketLayout(p: Packet)
    requires ValidPacket(p)
    ensures var b := Encode(p);
            match p
            case UserData(msgId, payload) =>
              && |b| == 5 + |payload| && b[0] == 5 && Big16(b, 1) == |payload| + 2
              && Big16(b, 3) == msgId % 65536 && b[5..] == payload
            case UserIdData(userId, msgId, payload) =>
              && |b| == 9 + |payload| && b[0] == 10 && Big16(b, 1) * 65536 + Big16(b, 3) == userId % 4294967296
              && Big16(b, 5) == |payload| + 2 && Big16(b, 7) == msgId % 65536 && b[9..] == payload
            case Heartbeat(time) =>
              |b| == 5 && b[0] == 7 && Big16(b, 1) * 65536 + Big16(b, 3) == time % 4294967296
            case Disconnect => b == [8]
            case DisconnectAck => b == [9]
  {
    hide Pack16, Pack32;
    match p
    case UserData(msgId, payload) =>
      Pack16Digits(msgId, []);
      Pack16Digits(|payload| + 2, []);
      HeadAt(Encode(p), [5], [], Pack16(|payload| + 2), Pack16(msgId), payload);
    case UserIdData(userId, msgId, payload) =>
      Pack16Digits(msgId, []);
      Pack16Digits(|payload| + 2, []);
      Pack32Digits(userId, []);
      HeadAt(Encode(p), [10], Pack32(userId), Pack16(|payload| + 2), Pack16(msgId), payload);
    case Heartbeat(time) => Pack32Digits(time, []);
    case _ =>
  }

  lemma HeadAt(b: seq<byte>, t: seq<byte>, user: seq<byte>, len: seq<byte>, msg: seq<byte>, payload: seq<byte>)
    requires |t| == 1 && |len| == 2 && |msg| == 2 && b == t + user + len + msg + payload
    ensures var n := |user|;
            && |b| == 5 + n + |payload| && b[0] == t[0] && b[1..1 + n] == user
            && b[1 + n] == len[0] && b[2 + n] == len[1] && b[3 + n] == msg[0] && b[4 + n] == msg[1]
            && b[5 + n..] == payload
    ensures |user| == 4 ==> b[1] == user[0] && b[2] == user[1] && b[3] == user[2] && b[4] == user[3]
  {
  }

  // ---------------------------------------------------------------- what decodes

  /** The bytes start with a packet, behind a heartbeat with one byte more. */
  predicate StartsWith(b: seq<byte>, p: Packet) {
    ValidPacket(p) && Encode(p) <= b && (p.Heartbeat? ==> |b| > |Encode(p)|)
  }

  /** The packet some bytes decode as. */
  function PacketOf(b: seq<byte>): Packet
    requires Decode(b).Got?
  {
    var n := Decode(b).length;
    if b[0] == 5 then UserData(Unpack16(b[3..]), b[5..n])
    else if b[0] == 10 then UserIdData(Unpack32(b[1..]), Unpack16(b[7..]), b[9..n])
    else if b[0] == 7 then Heartbeat(Unpack32(b[1..]))
    else if b[0] == 8 then Disconnect
    else DisconnectAck
  }

  lemma UserPacketOf(b: seq<byte>)
    requires Decode(b).Got? && b[0] == 5
    ensures StartsWith(b, PacketOf(b)) && Decode(b) == Got(EventOf(PacketOf(b)), |Encode(PacketOf(b))|)
  {
    hide Pack16, Unpack16;
    var p, n := PacketOf(b), Decode(b).length;
    Pack16Digits(0, b[1..]);
    Pack16Digits(0, b[3..]);
    assert Unpack16(b[1..]) == |p.payload| + 2;
    assert b[..n] == [5] + b[1..][..2] + b[3..][..2] + b[5..n];
    assert Encode(p) == b[..n];
  }

  lemma UserIdPacketOf(b: seq<byte>)
    requires Decode(b).Got? && b[0] == 10
    ensures StartsWith(b, PacketOf(b)) && Decode(b) == Got(EventOf(PacketOf(b)), |Encode(PacketOf(b))|)
  {
    hide Pack16, Unpack16, Pack32, Unpack32;
    var p, n := PacketOf(b), Decode(b).length;
    Pack32Digits(0, b[1..]);
    Pack16Digits(0, b[5..]);
    Pack16Digits(0, b[7..]);
    assert Unpack16(b[5..]) == |p.payload| + 2;
    assert b[..n] == [10] + b[1..][..4] + b[5..][..2] + b[7..][..2] + b[9..n];
    assert Encode(p) == b[..n];
  }

  lemma HeartbeatOf(b: seq<byte>)
    requires Decode(b).Got? && b[0] == 7
    ensures StartsWith(b, PacketOf(b)) && Decode(b) == Got(EventOf(PacketOf(b)), |Encode(PacketOf(b))|)
  {
    hide Pack32, Unpack32;
    Pack32Digits(0, b[1..]);
    assert b[..5] == [7] + b[1..][..4];
  }

  /** What decodes is a packet, and the only one the bytes can start with: exactly then there is one. */
  lemma GotExactly(b: seq<byte>)
    ensures Decode(b).Got? <==> exists p :: StartsWith(b, p)
    ensures Decode(b).Got? ==>
              StartsWith(b, PacketOf(b)) && Decode(b) == Got(EventOf(PacketOf(b)), |Encode(PacketOf(b))|)
    ensures forall p :: StartsWith(b, p) ==> Decode(b) == Got(EventOf(p), |Encode(p)|)
  {
    hide DecodeUser, Pack32, Unpack32, Pack16, Unpack16;
    forall p | StartsWith(b, p) ensures Decode(b) == Got(EventOf(p), |Encode(p)|) {
      EncodeDecode(p, b[|Encode(p)|..]);
      assert b == Encode(p) + b[|Encode(p)|..];
    }
    if Decode(b).Got? {
      GotTypes(b);
      if b[0] == 5 {
        UserPacketOf(b);
      } else if b[0] == 10 {
        UserIdPacketOf(b);
      } else if b[0] == 7 {
        HeartbeatOf(b);
      } else {
        assert Encode(PacketOf(b)) == b[..1];
      }
    }
  }

  lemma GotTypes(b: seq<byte>)
    requires Decode(b).Got?
    ensures b[0] in {5, 7, 8, 9, 10}
    ensures b[0] == 8 ==> Decode(b) == Got(OnDisconnect, 1)
    ensures b[0] == 9 ==> Decode(b) == Got(OnDisconnectAck, 1)
  {
  }

  /** Bytes enough to finish any user packet. */
  const Filler: seq<byte> := seq(70000, _ => 2)

  lemma FillerDecodes(b: seq<byte>)
    requires b != [] && !Decode(b).Bad? && b[0] != 6
    ensures Decode(b + Filler).Got?
  {
    var c := b + Filler;
    if IsUserType(b[0]) {
      var at := LengthAt(b[0]);
      if |b| >= at + 2 {
        assert b[at..][0] == c[at..][0] && b[at..][1] == c[at..][1];
      } else {
        assert c[at..][1] == c[at + 1] == 2;
      }
    }
  }

  /**
   An error is reported exactly for bytes no continuation of which starts with a packet; only an acknowledgement, which
   never is one, is waited for until its sixth byte.
   */
  lemma BadExactly(b: seq<byte>)
    requires b != []
    ensures Decode(b).Bad? <==>
            (forall more, p :: !StartsWith(b + more, p)) && !(b[0] == 6 && |b| <= 5)
  {
    hide Decode, StartsWith;
    if Decode(b).Bad? {
      forall more, p ensures !StartsWith(b + more, p) {
        DecodeStable(b, more);
        GotExactly(b + more);
      }
      BadAck(b);
    } else {
      BadAck(b);
      if b[0] != 6 {
        FillerDecodes(b);
        GotExactly(b + Filler);
        assert StartsWith(b + Filler, PacketOf(b + Filler));
      }
    }
  }

  lemma BadAck(b: seq<byte>)
    requires b != []
    ensures b[0] == 6 ==> (Decode(b).Bad? <==> |b| > 5)
  {
  }
}
