/**
 Two connected v2 endpoints and the byte channels between them, as a transition system: the end-to-end
 delivery theorem and the invariants of the send engine.
 */
module Transport {
  import opened Bytes
  import opened Sequences
  import opened BufferLists
  import opened NetProto2
  import opened DataHandler2
  import opened Endpoints

  /** One direction of the connection; `wire` and `got` are histories. */
  datatype Link = Link(
    chan: seq<byte>,   // bytes in flight
    wire: seq<byte>,   // every byte ever put in flight
    got: nat           // frames read completely at the far end
  )

  datatype World = World(a: Endpoint, b: Endpoint, ab: Link, ba: Link)

  datatype Action =
    | Ask(q: Request)          // either `send` overload, from anywhere, a handler included
    | CloseIt                  // graceful close
    | Abort                    // force_close for any reason
    | PostSend                 // the send half of `run`
    | Take(n: nat)             // the kernel accepts n bytes of the posted send
    | Complete                 // the send callback
    | HeadArrives              // the head read completes
    | BodyArrives              // the body read completes
    | DrainIt(failAt: nat)     // the receive half of `run`

  datatype Event = Event(atA: bool, act: Action)

  function Start(): World {
    World(Started(Active), Started(Passive), Link([], [], 0), Link([], [], 0))
  }

  predicate Enabled(e: Endpoint, inn: Link, act: Action) {
    && !e.closed
    && match act
       case Ask(q) => ValidRequest(q) && !q.Control?
       case Take(n) => e.pending.Posted? && e.queue != [] && n <= |e.queue[0]|
       case Complete => e.pending.Taken?
       case HeadArrives => e.reading.ReadHead? && |inn.chan| >= LEN_HEAD + LEN_TYPE
       case BodyArrives => e.reading.ReadBody? && |inn.chan| >= e.reading.len
       case _ => true
  }

  function EndpointAfter(e: Endpoint, inn: Link, act: Action): Endpoint
    requires Enabled(e, inn, act)
  {
    match act
    case Ask(q) => Send(e, q)
    case CloseIt => Close(e)
    case Abort => ForceClose(e)
    case PostSend => StartSend(e)
    case Take(n) => e.(pending := Taken(n))
    case Complete => OnSent(e, e.pending.n)
    case HeadArrives => OnHead(e, inn.chan[..LEN_HEAD + LEN_TYPE])
    case BodyArrives => OnBody(e, e.reading.ptype, inn.chan[..e.reading.len])
    case DrainIt(failAt) => Drain(e, failAt)
  }

  /** The bytes an action puts in flight. */
  function PutInFlight(e: Endpoint, inn: Link, act: Action): seq<byte>
    requires Enabled(e, inn, act)
  {
    if act.Take? then e.queue[0][..act.n] else []
  }

  function LinkSent(l: Link, data: seq<byte>): Link {
    l.(chan := l.chan + data, wire := l.wire + data)
  }

  function LinkRead(l: Link, e: Endpoint, act: Action): Link
    requires Enabled(e, l, act)
  {
    match act
    case HeadArrives =>
      var ptype := PacketLenType(l.chan).1;
      l.(chan := l.chan[LEN_HEAD + LEN_TYPE..], got := if IsUserType(ptype) then l.got else l.got + 1)
    case BodyArrives => l.(chan := l.chan[e.reading.len..], got := l.got + 1)
    case _ => l
  }

  function Swap(w: World): World {
    World(w.b, w.a, w.ba, w.ab)
  }

  /** An action of end `a`; one that is not enabled changes nothing. */
  function ActAtA(w: World, act: Action): World {
    if Enabled(w.a, w.ba, act) then
      World(EndpointAfter(w.a, w.ba, act), w.b,
            LinkSent(w.ab, PutInFlight(w.a, w.ba, act)), LinkRead(w.ba, w.a, act))
    else w
  }

  function Step(w: World, ev: Event): World {
    if ev.atA then ActAtA(w, ev.act) else Swap(ActAtA(Swap(w), ev.act))
  }

  function RunAll(w: World, evs: seq<Event>): World
    decreases |evs|
  {
    if evs == [] then w else RunAll(Step(w, evs[0]), evs[1..])
  }

  // ---------------------------------------------------------------- invariants

  function Stream(fs: seq<Frame>): seq<byte> {
    FlatMap(Encode, fs)
  }

  function Contents(fs: seq<Frame>): seq<Message> {
    FlatMap(Content, fs)
  }

  function TakenBytes(e: Endpoint): nat {
    if e.pending.Taken? then e.pending.n else 0
  }

  /** The state of the send engine of an end that has not force-closed. */
  predicate Engine(e: Endpoint) {
    && (forall i :: 0 <= i < |e.queue| ==> 0 < |e.queue[i]| < U16)
    && (e.sendingData <==> e.pending != NoSend)
    && (e.pending != NoSend ==> e.queue != [])
    && (e.pending.Taken? ==> e.pending.n <= |e.queue[0]|)
    && e.sendCount < SEND_BATCH
    && (e.pending == NoSend ==> e.sendCount == 0)
  }

  /** The queued bytes not yet in flight. */
  function Unsent(e: Endpoint): seq<byte> {
    Behind(Flatten(e.queue), TakenBytes(e))
  }

  function Behind(s: seq<byte>, n: nat): seq<byte> {
    if n <= |s| then s[n..] else []
  }

  predicate AllAccepted(e: Endpoint) {
    forall i :: 0 <= i < |e.accepted| ==> ValidRequest(e.accepted[i]) && Accepts(e.accepted[i])
  }

  predicate AllValid(fs: seq<Frame>) {
    forall i :: 0 <= i < |fs| ==> ValidFrame(fs[i])
  }

  predicate SenderInv(e: Endpoint, wire: seq<byte>) {
    && AllAccepted(e)
    && wire <= Stream(Frames(e))
    && (!e.closed ==> Engine(e) && wire + Unsent(e) == Stream(Frames(e)))
  }

  /** The head already read of the frame being received. */
  function PartRead(fs: seq<Frame>, e: Endpoint, got: nat): seq<byte>
    requires got <= |fs| && (e.reading.ReadBody? ==> got < |fs|)
  {
    if e.reading.ReadBody? then Head(fs[got]) else []
  }

  predicate ReadsBodyOf(e: Endpoint, f: Frame) {
    IsUserType(TypeOf(f)) && e.reading == ReadBody(TypeOf(f), |Body(f)|)
  }

  predicate ReceiverInv(fs: seq<Frame>, l: Link, e: Endpoint) {
    && l.got <= |fs|
    && e.delivered <= Contents(fs[..l.got])
    && (!e.closed ==>
          && (e.reading.ReadBody? ==> l.got < |fs| && ReadsBodyOf(e, fs[l.got]))
          && Stream(fs[..l.got]) + PartRead(fs, e, l.got) + l.chan == l.wire
          && (forall i :: 0 <= i < |e.inbox| ==> Readable(e.inbox[i]))
          && e.delivered + FlatMap(MessageOf, e.inbox) == Contents(fs[..l.got]))
  }

  predicate Direction(s: Endpoint, l: Link, r: Endpoint) {
    SenderInv(s, l.wire) && ReceiverInv(Frames(s), l, r)
  }

  predicate Inv(w: World) {
    Direction(w.a, w.ab, w.b) && Direction(w.b, w.ba, w.a)
  }

  // ---------------------------------------------------------------- sending

  lemma FramesValid(e: Endpoint)
    requires AllAccepted(e)
    ensures AllValid(Frames(e))
  {
    forall i | 0 <= i < |e.accepted| ensures ValidFrame(Frames(e)[i]) {
      AcceptedFrameValid(e.accepted[i]);
    }
  }

  lemma FramesEnqueue(e: Endpoint, q: Request)
    ensures Frames(Enqueue(e, q)) == Frames(e) + [FrameOf(q)]
  {
  }

  lemma UnsentEnqueue(e: Endpoint, q: Request)
    requires Engine(e)
    ensures Unsent(Enqueue(e, q)) == Unsent(e) + Encode(FrameOf(q))
  {
    FlatMapAppend(Identity, e.queue, Encode(FrameOf(q)));
    if e.pending.Taken? {
      ConsumedBytes(e.queue, e.pending.n);
    }
  }

  lemma EngineEnqueue(e: Endpoint, q: Request)
    requires Engine(e) && ValidRequest(q) && Accepts(q)
    ensures Engine(Enqueue(e, q))
  {
    AcceptedFrameValid(q);
  }

  lemma StreamExtends(wire: seq<byte>, unsent: seq<byte>, more: seq<byte>, stream: seq<byte>)
    requires wire + unsent == stream
    ensures wire <= stream + more && wire + (unsent + more) == stream + more
  {
  }

  lemma EnqueueKeeps(e: Endpoint, wire: seq<byte>, q: Request)
    requires SenderInv(e, wire) && !e.closed && ValidRequest(q) && Accepts(q)
    ensures SenderInv(Enqueue(e, q), wire)
  {
    EngineEnqueue(e, q);
    FramesEnqueue(e, q);
    UnsentEnqueue(e, q);
    FlatMapAppend(Encode, Frames(e), FrameOf(q));
    StreamExtends(wire, Unsent(e), Encode(FrameOf(q)), Stream(Frames(e)));
  }

  lemma EngineComplete(e: Endpoint)
    requires Engine(e) && e.pending.Taken?
    ensures Engine(OnSent(e, e.pending.n))
    ensures Unsent(OnSent(e, e.pending.n)) == Unsent(e)
  {
    hide Unsent;
    CompleteUnsent(e);
  }

  lemma CompleteUnsent(e: Endpoint)
    requires e.pending.Taken? && e.queue != [] && e.pending.n <= |e.queue[0]| < U16
    ensures Unsent(OnSent(e, e.pending.n)) == Unsent(e)
  {
    hide Flatten, Consumed;
    ConsumedBytes(e.queue, e.pending.n);
    assert e.pending.n % U16 == e.pending.n;
  }

  lemma CompleteKeeps(e: Endpoint, wire: seq<byte>)
    requires SenderInv(e, wire) && !e.closed && e.pending.Taken?
    ensures SenderInv(OnSent(e, e.pending.n), wire)
  {
    EngineComplete(e);
    assert Frames(OnSent(e, e.pending.n)) == Frames(e);
  }

  lemma TakeKeeps(e: Endpoint, wire: seq<byte>, n: nat)
    requires SenderInv(e, wire) && !e.closed && e.pending.Posted? && n <= |e.queue[0]|
    ensures SenderInv(e.(pending := Taken(n)), wire + e.queue[0][..n])
  {
    hide Unsent, Stream;
    var e' := e.(pending := Taken(n));
    assert Frames(e') == Frames(e);
    TakenIsUnsent(e, n);
    TakenOver(wire, e.queue[0][..n], Unsent(e'));
  }

  lemma TakenIsUnsent(e: Endpoint, n: nat)
    requires e.pending.Posted? && e.queue != [] && n <= |e.queue[0]|
    ensures e.queue[0][..n] + Unsent(e.(pending := Taken(n))) == Unsent(e)
  {
    hide Flatten;
    ConsumedBytes(e.queue, n);
  }

  lemma TakenOver(wire: seq<byte>, taken: seq<byte>, unsent: seq<byte>)
    ensures wire + taken + unsent == wire + (taken + unsent)
    ensures wire + taken <= wire + (taken + unsent)
  {
  }

  /** The steps that leave the send queue, its history and its engine alone. */
  predicate SameSender(e: Endpoint, e': Endpoint) {
    && e'.accepted == e.accepted && e'.queue == e.queue && e'.pending == e.pending
    && e'.sendingData == e.sendingData && e'.sendCount == e.sendCount && e'.closed == e.closed
  }

  lemma SameSenderKeeps(e: Endpoint, e': Endpoint, wire: seq<byte>)
    requires SenderInv(e, wire) && SameSender(e, e')
    ensures SenderInv(e', wire) && Frames(e') == Frames(e)
  {
    assert Frames(e') == Frames(e);
  }

  lemma ForceCloseKeeps(e: Endpoint, wire: seq<byte>)
    requires SenderInv(e, wire)
    ensures SenderInv(ForceClose(e), wire) && Frames(ForceClose(e)) == Frames(e)
  {
    assert Frames(ForceClose(e)) == Frames(e);
  }

  lemma HeadKeepsSender(e: Endpoint, wire: seq<byte>, head: seq<byte>)
    requires SenderInv(e, wire) && !e.closed && |head| == 3
    ensures SenderInv(OnHead(e, head), wire) && Frames(e) <= Frames(OnHead(e, head))
  {
    hide Engine, Unsent, Stream, Accepts, Encode;
    var ptype := PacketLenType(head).1;
    var e1 := if IsUserType(ptype) then e else HandleControl(e, ptype);
    if !IsUserType(ptype) {
      EnqueueKeeps(e, wire, Control(DisconnectAck));
      FramesEnqueue(e, Control(DisconnectAck));
      ForceCloseKeeps(e, wire);
    }
    SameSenderKeeps(e1, OnHead(e, head), wire);
  }

  lemma DrainKeepsSender(e: Endpoint, wire: seq<byte>, failAt: nat)
    requires SenderInv(e, wire)
    ensures SenderInv(Drain(e, failAt), wire) && Frames(Drain(e, failAt)) == Frames(e)
  {
    var e1 := e.(delivered := Drain(e, failAt).delivered);
    SameSenderKeeps(e, e1, wire);
    ForceCloseKeeps(e1, wire);
    if !(failAt < |e.inbox|) {
      SameSenderKeeps(e, Drain(e, failAt), wire);
    }
  }

  lemma StartSendKeeps(e: Endpoint, wire: seq<byte>)
    requires SenderInv(e, wire)
    ensures SenderInv(StartSend(e), wire) && Frames(StartSend(e)) == Frames(e)
  {
    assert Frames(StartSend(e)) == Frames(e);
  }

  /** An action keeps the sender's invariant and only ever extends what was accepted. */
  lemma SenderKeeps(e: Endpoint, out: Link, inn: Link, act: Action)
    requires SenderInv(e, out.wire) && Enabled(e, inn, act)
    ensures var e' := EndpointAfter(e, inn, act);
            && SenderInv(e', LinkSent(out, PutInFlight(e, inn, act)).wire)
            && Frames(e) <= Frames(e')
  {
    hide SenderInv, Stream, Encode;
    assert out.wire + [] == out.wire;
    match act
    case Ask(q) =>
      if CanSend(e, q) {
        EnqueueKeeps(e, out.wire, q);
        FramesEnqueue(e, q);
      }
    case CloseIt =>
      if e.state == Connected {
        EnqueueKeeps(e, out.wire, Control(Disconnect));
        FramesEnqueue(e, Control(Disconnect));
        SameSenderKeeps(Enqueue(e, Control(Disconnect)), Close(e), out.wire);
      }
    case Abort => ForceCloseKeeps(e, out.wire);
    case PostSend => StartSendKeeps(e, out.wire);
    case Take(n) =>
      TakeKeeps(e, out.wire, n);
      assert Frames(e.(pending := Taken(n))) == Frames(e);
    case Complete =>
      CompleteKeeps(e, out.wire);
      assert Frames(OnSent(e, e.pending.n)) == Frames(e);
    case HeadArrives => HeadKeepsSender(e, out.wire, inn.chan[..LEN_HEAD + LEN_TYPE]);
    case BodyArrives =>
      SameSenderKeeps(e, OnBody(e, e.reading.ptype, inn.chan[..e.reading.len]), out.wire);
    case DrainIt(failAt) => DrainKeepsSender(e, out.wire, failAt);
  }

  // ---------------------------------------------------------------- receiving

  /** What the sender appends and puts in flight does not disturb the receiver. */
  lemma ReceiverSees(fs: seq<Frame>, more: seq<Frame>, l: Link, data: seq<byte>, r: Endpoint)
    requires ReceiverInv(fs, l, r) && fs <= more
    ensures ReceiverInv(more, LinkSent(l, data), r)
  {
    assert more[..l.got] == fs[..l.got];
    if !r.closed {
      assert Stream(fs[..l.got]) + PartRead(fs, r, l.got) + (l.chan + data) == l.wire + data;
    }
  }

  /** The channel starts with what is left of the frame being received. */
  lemma ChannelStartsWith(fs: seq<Frame>, got: nat, part: seq<byte>, chan: seq<byte>, wire: seq<byte>)
    requires got < |fs| && Stream(fs[..got]) + part + chan == wire <= Stream(fs)
    requires part <= Encode(fs[got])
    ensures chan <= Encode(fs[got])[|part|..] + Stream(fs[got + 1..])
  {
    hide Encode;
    FlatMapSplit(Encode, fs, got);
    var x := Stream(fs[..got]);
    var rest := Stream(fs[got + 1..]);
    var all := x + Encode(fs[got]) + rest;
    assert all[|x| + |part|..] == Encode(fs[got])[|part|..] + rest;
    assert all[|x| + |part|..|wire|] == chan;
  }

  /** Reading on moves bytes from the front of the channel behind what was already read. */
  lemma ChannelShifts(x: seq<byte>, part: seq<byte>, chan: seq<byte>, n: nat, wire: seq<byte>)
    requires x + part + chan == wire && n <= |chan|
    ensures x + (part + chan[..n]) + chan[n..] == wire
    ensures (x + (part + chan[..n])) + [] + chan[n..] == wire
  {
    assert chan == chan[..n] + chan[n..];
  }

  /** A completed head read sees the head of the next frame, and nothing else. */
  lemma HeadIsNext(fs: seq<Frame>, l: Link, e: Endpoint)
    requires AllValid(fs) && ReceiverInv(fs, l, e) && !e.closed && l.wire <= Stream(fs)
    requires e.reading.ReadHead? && |l.chan| >= 3
    ensures l.got < |fs|
    ensures l.chan[..3] == Head(fs[l.got])
    ensures PacketLenType(l.chan[..3]) == PacketLenType(l.chan) == (1 + |Body(fs[l.got])|, TypeOf(fs[l.got]) as int)
  {
    hide Body, Content, FlatMap, MessageOf;
    assert fs[..|fs|] == fs;
    var f := fs[l.got];
    ChannelStartsWith(fs, l.got, [], l.chan, l.wire);
    assert l.chan[..3] == Head(f);
    HeadDecodes(f, []);
    assert Head(f) + [] == Head(f);
  }

  lemma HeadKeeps(fs: seq<Frame>, l: Link, e: Endpoint)
    requires AllValid(fs) && ReceiverInv(fs, l, e) && l.wire <= Stream(fs) && Enabled(e, l, HeadArrives)
    ensures ReceiverInv(fs, LinkRead(l, e, HeadArrives), EndpointAfter(e, l, HeadArrives))
  {
    hide FlatMap, Body, Content, MessageOf, Readable;
    HeadIsNext(fs, l, e);
    var f := fs[l.got];
    ChannelShifts(Stream(fs[..l.got]), [], l.chan, 3, l.wire);
    assert [] + l.chan[..3] == Head(f);
    if IsUserType(TypeOf(f)) {
      UserHeadKeeps(fs, l, e, f);
    } else {
      FlatMapSplit(Encode, fs, l.got);
      FlatMapSplit(Content, fs, l.got);
      ControlKeeps(fs, l, e, f);
    }
  }

  /** The head of a user frame leaves its body to be read. */
  lemma UserHeadKeeps(fs: seq<Frame>, l: Link, e: Endpoint, f: Frame)
    requires ReceiverInv(fs, l, e) && Enabled(e, l, HeadArrives)
    requires l.got < |fs| && f == fs[l.got] && ValidFrame(f) && IsUserType(TypeOf(f))
    requires PacketLenType(l.chan[..3]) == PacketLenType(l.chan) == (1 + |Body(f)|, TypeOf(f) as int)
    requires Stream(fs[..l.got]) + Head(f) + l.chan[3..] == l.wire
    ensures ReceiverInv(fs, LinkRead(l, e, HeadArrives), EndpointAfter(e, l, HeadArrives))
  {
    hide Encode, Body, Content, MessageOf, Readable, FlatMap, Stream, Contents;
    assert (1 + |Body(f)| - LEN_TYPE) % U16 == |Body(f)|;
  }

  /** A control frame is complete with its head and carries no message. */
  lemma ControlKeeps(fs: seq<Frame>, l: Link, e: Endpoint, f: Frame)
    requires ReceiverInv(fs, l, e) && Enabled(e, l, HeadArrives)
    requires l.got < |fs| && f == fs[l.got] && !IsUserType(TypeOf(f))
    requires PacketLenType(l.chan[..3]).1 == PacketLenType(l.chan).1 == TypeOf(f) as int
    requires Stream(fs[..l.got + 1]) == Stream(fs[..l.got]) + Encode(f)
    requires Contents(fs[..l.got + 1]) == Contents(fs[..l.got]) + Content(f)
    requires (Stream(fs[..l.got]) + Head(f)) + [] + l.chan[3..] == l.wire
    ensures ReceiverInv(fs, LinkRead(l, e, HeadArrives), EndpointAfter(e, l, HeadArrives))
  {
    hide FlatMap, Head, MessageOf, Readable, FrameOf, Stream, Contents;
    assert Encode(f) == Head(f) && Contents(fs[..l.got + 1]) == Contents(fs[..l.got]);
    var e1 := HandleControl(e, TypeOf(f) as int);
    assert e1.closed || (e1.inbox == e.inbox && e1.delivered == e.delivered);
  }

  /** A completed body read sees exactly the body of the frame whose head was read. */
  lemma BodyIsNext(fs: seq<Frame>, l: Link, e: Endpoint)
    requires ReceiverInv(fs, l, e) && l.wire <= Stream(fs) && Enabled(e, l, BodyArrives)
    ensures l.chan[..e.reading.len] == Body(fs[l.got])
  {
    var f := fs[l.got];
    ChannelStartsWith(fs, l.got, Head(f), l.chan, l.wire);
    assert Encode(f)[3..] == Body(f);
  }

  /** The packet of a user frame's body holds its message. */
  lemma UserContent(f: Frame)
    requires ValidFrame(f) && IsUserType(TypeOf(f))
    ensures Body(f) != [] && Readable(Packet(TypeOf(f) as int, Body(f)))
    ensures Content(f) == MessageOf(Packet(TypeOf(f) as int, Body(f)))
  {
    UnpackBody(f);
  }

  lemma BodyKeeps(fs: seq<Frame>, l: Link, e: Endpoint)
    requires AllValid(fs) && ReceiverInv(fs, l, e) && l.wire <= Stream(fs) && Enabled(e, l, BodyArrives)
    ensures ReceiverInv(fs, LinkRead(l, e, BodyArrives), EndpointAfter(e, l, BodyArrives))
  {
    hide Head, Body, Content, MessageOf, Readable, FlatMap;
    BodyIsNext(fs, l, e);
    var f := fs[l.got];
    ChannelShifts(Stream(fs[..l.got]), Head(f), l.chan, |Body(f)|, l.wire);
    UserContent(f);
    FlatMapSplit(Encode, fs, l.got);
    FlatMapSplit(Content, fs, l.got);
    FlatMapAppend(MessageOf, e.inbox, Packet(TypeOf(f) as int, Body(f)));
    UserBodyKeeps(fs, l, e, f);
  }

  /** The body completes the frame and puts its message in the receive list. */
  lemma UserBodyKeeps(fs: seq<Frame>, l: Link, e: Endpoint, f: Frame)
    requires ReceiverInv(fs, l, e) && Enabled(e, l, BodyArrives)
    requires l.got < |fs| && f == fs[l.got] && l.chan[..e.reading.len] == Body(f) != []
    requires Readable(Packet(TypeOf(f) as int, Body(f)))
    requires Content(f) == MessageOf(Packet(TypeOf(f) as int, Body(f)))
    requires Contents(fs[..l.got + 1]) == Contents(fs[..l.got]) + Content(f)
    requires FlatMap(MessageOf, e.inbox + [Packet(TypeOf(f) as int, Body(f))]) ==
             FlatMap(MessageOf, e.inbox) + Content(f)
    requires Stream(fs[..l.got + 1]) + [] + l.chan[|Body(f)|..] == l.wire
    ensures ReceiverInv(fs, LinkRead(l, e, BodyArrives), EndpointAfter(e, l, BodyArrives))
  {
    hide Encode, Head, Body, Content, MessageOf, Readable, FlatMap, Stream, Contents, Enqueue;
    var p := Packet(TypeOf(f) as int, Body(f));
    assert EndpointAfter(e, l, BodyArrives).inbox == e.inbox + [p];
    assert e.delivered + (FlatMap(MessageOf, e.inbox) + Content(f)) == Contents(fs[..l.got + 1]);
  }

  lemma DrainKeeps(fs: seq<Frame>, l: Link, e: Endpoint, failAt: nat)
    requires ReceiverInv(fs, l, e) && !e.closed
    ensures ReceiverInv(fs, l, Drain(e, failAt))
  {
    hide Encode, Content, MessageOf, Readable, Stream, Contents, Head;
    if failAt < |e.inbox| {
      FlatMapPrefix(MessageOf, e.inbox, failAt + 1);
    }
  }

  lemma ReceiverKeeps(fs: seq<Frame>, l: Link, e: Endpoint, act: Action)
    requires AllValid(fs) && ReceiverInv(fs, l, e) && l.wire <= Stream(fs) && Enabled(e, l, act)
    ensures ReceiverInv(fs, LinkRead(l, e, act), EndpointAfter(e, l, act))
  {
    match act
    case HeadArrives => HeadKeeps(fs, l, e);
    case BodyArrives => BodyKeeps(fs, l, e);
    case DrainIt(failAt) => DrainKeeps(fs, l, e, failAt);
    case _ =>
  }

  // ---------------------------------------------------------------- runs

  lemma ActKeeps(w: World, act: Action)
    requires Inv(w)
    ensures Inv(ActAtA(w, act))
  {
    if Enabled(w.a, w.ba, act) {
      SenderKeeps(w.a, w.ab, w.ba, act);
      var a' := EndpointAfter(w.a, w.ba, act);
      ReceiverSees(Frames(w.a), Frames(a'), w.ab, PutInFlight(w.a, w.ba, act), w.b);
      FramesValid(w.b);
      ReceiverKeeps(Frames(w.b), w.ba, w.a, act);
    }
  }

  lemma {:induction false} RunKeeps(w: World, evs: seq<Event>)
    requires Inv(w)
    ensures Inv(RunAll(w, evs))
    decreases |evs|
  {
    if evs != [] {
      if evs[0].atA {
        ActKeeps(w, evs[0].act);
      } else {
        ActKeeps(Swap(w), evs[0].act);
      }
      RunKeeps(Step(w, evs[0]), evs[1..]);
    }
  }

  lemma StartInv()
    ensures Inv(Start())
  {
    StartDirection(Active, Passive);
    StartDirection(Passive, Active);
  }

  lemma StartDirection(s: Kind, r: Kind)
    ensures Direction(Started(s), Link([], [], 0), Started(r))
  {
    hide Encode, Content, MessageOf;
    assert Frames(Started(s)) == [];
  }

  /** Everything one end sent has been read, unpacked and dispatched at the other. */
  predicate Quiet(s: Endpoint, l: Link, r: Endpoint) {
    !s.closed && !r.closed && s.queue == [] && l.chan == [] && r.inbox == []
  }

  /** A frame not read completely leaves bytes of the stream unread. */
  lemma PartialIsShort(fs: seq<Frame>, r: Endpoint, got: nat)
    requires AllValid(fs) && got < |fs| && (r.reading.ReadBody? ==> ReadsBodyOf(r, fs[got]))
    ensures |Stream(fs[..got])| + |PartRead(fs, r, got)| < |Stream(fs)|
  {
    FlatMapSplit(Encode, fs, got);
    if r.reading.ReadBody? {
      UnpackBody(fs[got]);
    }
  }

  lemma QuietDelivered(s: Endpoint, l: Link, r: Endpoint)
    requires Direction(s, l, r) && Quiet(s, l, r)
    ensures r.delivered == Contents(Frames(s))
  {
    var fs := Frames(s);
    FramesValid(s);
    assert l.wire == Stream(fs);
    if l.got < |fs| {
      PartialIsShort(fs, r, l.got);
    }
    assert fs[..|fs|] == fs;
  }

  /**
   End to end, over every run: what an end dispatches is a prefix of what the other end's accepted
   requests carry, in order and without repetition, and all of it once queues and channel are empty.
   */
  lemma Delivery(evs: seq<Event>)
    ensures var w := RunAll(Start(), evs);
            && w.b.delivered <= Contents(Frames(w.a))
            && w.a.delivered <= Contents(Frames(w.b))
            && (Quiet(w.a, w.ab, w.b) ==> w.b.delivered == Contents(Frames(w.a)))
            && (Quiet(w.b, w.ba, w.a) ==> w.a.delivered == Contents(Frames(w.b)))
  {
    StartInv();
    RunKeeps(Start(), evs);
    var w := RunAll(Start(), evs);
    DeliveredPrefix(w.a, w.ab, w.b);
    DeliveredPrefix(w.b, w.ba, w.a);
    if Quiet(w.a, w.ab, w.b) {
      QuietDelivered(w.a, w.ab, w.b);
    }
    if Quiet(w.b, w.ba, w.a) {
      QuietDelivered(w.b, w.ba, w.a);
    }
  }

  lemma DeliveredPrefix(s: Endpoint, l: Link, r: Endpoint)
    requires Direction(s, l, r)
    ensures r.delivered <= Contents(Frames(s))
  {
    FlatMapPrefix(Content, Frames(s), l.got);
  }

  // ---------------------------------------------------------------- what was meant

  predicate NoLongSend(e: Endpoint) {
    forall i :: 0 <= i < |e.accepted| && e.accepted[i].User? ==> |e.accepted[i].data| <= 65530
  }

  lemma {:induction false} IntentsCarried(qs: seq<Request>, fs: seq<Frame>)
    requires |fs| == |qs| && forall i :: 0 <= i < |qs| ==>
      fs[i] == FrameOf(qs[i]) && ValidRequest(qs[i]) && Accepts(qs[i]) && (qs[i].User? ==> |qs[i].data| <= 65530)
    ensures Contents(fs) == FlatMap(Intent, qs)
  {
    if qs != [] {
      FrameBounds(qs[0]);
      IntentsCarried(qs[1..], fs[1..]);
    }
  }

  /** Short of the wrapping lengths, the dispatched messages are the very messages the callers passed. */
  lemma DeliveryOfIntents(evs: seq<Event>)
    ensures var w := RunAll(Start(), evs);
            && (NoLongSend(w.a) ==> w.b.delivered <= FlatMap(Intent, w.a.accepted))
            && (NoLongSend(w.b) ==> w.a.delivered <= FlatMap(Intent, w.b.accepted))
  {
    hide Content, Encode;
    Delivery(evs);
    StartInv();
    RunKeeps(Start(), evs);
    var w := RunAll(Start(), evs);
    if NoLongSend(w.a) {
      IntentsCarried(w.a.accepted, Frames(w.a));
    }
    if NoLongSend(w.b) {
      IntentsCarried(w.b.accepted, Frames(w.b));
    }
  }

  // ---------------------------------------------------------------- the send engine

  /**
   Over every run, at each end that has not force-closed: `sendingData` holds exactly while a send is
   outstanding, that send covers the front of the queue, fewer than 100 callbacks have been counted, and
   the bytes put in flight followed by the queued ones are exactly the frames of all accepted requests.
   */
  lemma SendEngine(evs: seq<Event>)
    ensures var w := RunAll(Start(), evs);
            && (!w.a.closed ==> Engine(w.a) && w.ab.wire + Unsent(w.a) == Stream(Frames(w.a)))
            && (!w.b.closed ==> Engine(w.b) && w.ba.wire + Unsent(w.b) == Stream(Frames(w.b)))
  {
    StartInv();
    RunKeeps(Start(), evs);
  }

  function QueuedBytes(e: Endpoint): nat {
    |Flatten(e.queue)|
  }

  /** Every completion takes exactly its bytes off the queue, so a positive one strictly shortens it. */
  lemma CompletionShrinks(e: Endpoint)
    requires Engine(e) && e.pending.Taken?
    ensures QueuedBytes(OnSent(e, e.pending.n)) == QueuedBytes(e) - e.pending.n
  {
    ConsumedBytes(e.queue, e.pending.n);
  }

  /** Send callbacks for `ns[0]`, `ns[1]`, ... bytes, as long as a send is outstanding. */
  function Completions(e: Endpoint, ns: seq<nat>): Endpoint
    decreases |ns|
  {
    if ns == [] || !e.pending.Posted? then e
    else Completions(OnSent(e.(pending := Taken(ns[0])), ns[0]), ns[1..])
  }

  /** Each callback reports between one byte and all of the front buffer. */
  predicate PositiveSends(e: Endpoint, ns: seq<nat>)
    decreases |ns|
  {
    ns == [] || !e.pending.Posted? || e.queue == [] ||
    (0 < ns[0] <= |e.queue[0]| && PositiveSends(OnSent(e.(pending := Taken(ns[0])), ns[0]), ns[1..]))
  }

  /**
   A batch ends: the engine lets go after at most 100 callbacks, and before that as soon as the queued
   bytes are gone, of which each callback takes at least one.
   */
  lemma {:induction false} BatchEnds(e: Endpoint, ns: seq<nat>)
    requires Engine(e) && e.pending.Posted? && PositiveSends(e, ns)
    ensures var e' := Completions(e, ns);
            && Engine(e')
            && (e'.pending != NoSend ==> |ns| < SEND_BATCH - e.sendCount && |ns| < QueuedBytes(e))
    decreases |ns|
  {
    var t := if ns == [] then e else e.(pending := Taken(ns[0]));
    if ns == [] {
      ConsumedBytes(e.queue, |e.queue[0]|);
    } else {
      EngineComplete(t);
      CompletionShrinks(t);
      var e1 := OnSent(t, ns[0]);
      if e1.pending.Posted? {
        BatchEnds(e1, ns[1..]);
      }
    }
  }

  // ---------------------------------------------------------------- closing a passive end

  /** A completed read that ends with a new head read: of a control packet or of a body. */
  predicate ReadsOn(inn: Link, act: Action) {
    act.BodyArrives? || (act.HeadArrives? && |inn.chan| >= 3 && !IsUserType(PacketLenType(inn.chan).1))
  }

  /**
   A passive end is connected after every such read, whatever it was before, even if the read force-closed it;
   a user head leaves the state alone. An active end changes only by the acknowledgement it waits for.
   */
  lemma ReadUndoesPassiveClose(e: Endpoint, inn: Link, act: Action)
    requires Enabled(e, inn, act) && (act.HeadArrives? || act.BodyArrives?)
    ensures var e' := EndpointAfter(e, inn, act);
            && (e.kind == Passive ==> e'.state == if ReadsOn(inn, act) then Connected else e.state)
            && (e.kind == Active ==>
                  e'.state == if act.HeadArrives? && e.state == Disconnecting
                                 && PacketLenType(inn.chan).1 == TYPE_DISCONNECT_ACK as int
                              then Disconnected else e.state)
            && (e'.closed <==> act.HeadArrives? && e.state == Disconnecting
                               && PacketLenType(inn.chan).1 == TYPE_DISCONNECT_ACK as int)
  {
    hide Encode;
    if act.HeadArrives? {
      assert PacketLenType(inn.chan[..3]).1 == PacketLenType(inn.chan).1;
    }
  }

  /** Whether the passive end has been closed since its last such read, along a run. */
  function Closing(w: World, evs: seq<Event>, closing: bool): bool
    decreases |evs|
  {
    if evs == [] then closing
    else
      var act := evs[0].act;
      var now := if evs[0].atA || !Enabled(w.b, w.ab, act) then closing
                 else if act.CloseIt? then true
                 else closing && !ReadsOn(w.ab, act);
      Closing(Step(w, evs[0]), evs[1..], now)
  }

  /**
   Over every run, a passive end that has not force-closed is closing exactly if it was closed after its last
   read of a control packet or body: a graceful close lasts no longer than until the next packet.
   */
  lemma {:induction false} PassiveCloseLasts(w: World, evs: seq<Event>, closing: bool)
    requires w.b.kind == Passive && (!w.b.closed ==> w.b.state == if closing then Disconnecting else Connected)
    ensures var b := RunAll(w, evs).b;
            && b.kind == Passive
            && (!b.closed ==> b.state == if Closing(w, evs, closing) then Disconnecting else Connected)
    decreases |evs|
  {
    hide EndpointAfter, LinkRead, PutInFlight, ReadsOn;
    if evs != [] {
      var ev := evs[0];
      if ev.atA || !Enabled(w.b, w.ab, ev.act) {
        PassiveCloseLasts(Step(w, ev), evs[1..], closing);
      } else {
        PassiveStep(w.b, w.ab, ev.act, closing);
        PassiveCloseLasts(Step(w, ev), evs[1..], ev.act.CloseIt? || (closing && !ReadsOn(w.ab, ev.act)));
      }
    }
  }

  lemma PassiveStep(e: Endpoint, inn: Link, act: Action, closing: bool)
    requires e.kind == Passive && !e.closed && e.state == (if closing then Disconnecting else Connected)
    requires Enabled(e, inn, act)
    ensures var e' := EndpointAfter(e, inn, act);
            && e'.kind == Passive
            && (!e'.closed ==>
                  e'.state == if act.CloseIt? || (closing && !ReadsOn(inn, act)) then Disconnecting else Connected)
  {
    hide Encode, MessageOf, FlatMap, PacketLenType;
    if act.HeadArrives? || act.BodyArrives? {
      ReadUndoesPassiveClose(e, inn, act);
    }
  }

  /** The run that shows it: the passive end closes, and the next message of its peer connects it again. */
  function UndoRun(): seq<Event> {
    [Event(false, CloseIt), Event(true, Ask(User(0, []))), Event(true, PostSend), Event(true, Take(5)),
     Event(false, HeadArrives), Event(false, BodyArrives)]
  }

  lemma PassiveCloseIsUndone()
    ensures RunAll(Start(), UndoRun()[..1]).b.state == Disconnecting
    ensures var b := RunAll(Start(), UndoRun()).b;
            b.state == Connected && !b.closed && b.accepted == [Control(Disconnect)]
  {
    hide Step;
    var evs := UndoRun();
    var w1 := Step(Start(), evs[0]);
    var w4 := Step(Step(Step(w1, evs[1]), evs[2]), evs[3]);
    var w6 := Step(Step(w4, evs[4]), evs[5]);
    UndoSends();
    UndoReads(w4);
    RunSix(Start(), evs, w1, Step(w1, evs[1]), Step(Step(w1, evs[1]), evs[2]), w4, Step(w4, evs[4]), w6);
    assert evs[..1][1..] == [] && evs[..1][0] == evs[0];
    assert RunAll(Start(), evs[..1]) == RunAll(w1, []) == w1;
  }

  /** The first four steps bring the five bytes of an empty message into the channel of the closing end. */
  lemma UndoSends()
    ensures var evs := UndoRun();
            var w1 := Step(Start(), evs[0]);
            var w4 := Step(Step(Step(w1, evs[1]), evs[2]), evs[3]);
            && w1.b == w4.b == Close(Started(Passive)) && w4.ab.chan == Encode(UserData(0, []))
  {
    hide Encode;
    var evs, e := UndoRun(), Encode(UserData(0, []));
    assert Narrow([]) == [] && FrameOf(User(0, [])) == UserData(0, []);
    assert |e| == 5 && e[..5] == e by {
      EmptyFrame();
    }
    var w2 := Step(Step(Start(), evs[0]), evs[1]);
    assert w2.a == Started(Active).(queue := [e], accepted := [User(0, [])]) by {
      assert [] + [e] == [e] && [] + [User(0, [])] == [User(0, [])];
    }
    var w3 := Step(w2, evs[2]);
    assert w3.a == w2.a.(pending := Posted, sendingData := true) && w3.ab.chan == [];
    var w4 := Step(w3, evs[3]);
    assert w4.ab.chan == [] + e[..5];
  }

  lemma EmptyFrame()
    ensures |Encode(UserData(0, []))| == 5
  {
  }

  /** The last two read its head and its body. */
  lemma UndoReads(w: World)
    requires w.b == Close(Started(Passive)) && w.ab.chan == Encode(UserData(0, []))
    ensures var b := Step(Step(w, Event(false, HeadArrives)), Event(false, BodyArrives)).b;
            b.state == Connected && !b.closed && b.accepted == [Control(Disconnect)]
  {
    hide Encode, Content, MessageOf;
    var f := UserData(0, []);
    EmptyFrame();
    EmptyHead();
    var w5 := Step(w, Event(false, HeadArrives));
    assert w5.b == w.b.(reading := ReadBody(5, 2)) && w5.ab.chan == Encode(f)[3..];
    assert Started(Passive).accepted + [Control(Disconnect)] == [Control(Disconnect)];
  }

  lemma EmptyHead()
    ensures PacketLenType(Encode(UserData(0, []))[..3]) == (3, 5)
  {
    var f := UserData(0, []);
    HeadDecodes(f, []);
    assert Encode(f)[..3] == Head(f) + [];
  }

  lemma RunSix(w: World, evs: seq<Event>, w1: World, w2: World, w3: World, w4: World, w5: World, w6: World)
    requires |evs| == 6 && w1 == Step(w, evs[0]) && w2 == Step(w1, evs[1]) && w3 == Step(w2, evs[2])
    requires w4 == Step(w3, evs[3]) && w5 == Step(w4, evs[4]) && w6 == Step(w5, evs[5])
    ensures RunAll(w, evs) == w6
  {
    hide Step;
    assert evs[1..][1..] == evs[2..] && evs[2..][1..] == evs[3..] && evs[3..][1..] == evs[4..];
    assert evs[4..][1..] == evs[5..] && evs[5..][1..] == [];
    assert RunAll(w5, evs[5..]) == w6;
    assert RunAll(w3, evs[3..]) == RunAll(w4, evs[4..]) == w6;
    assert RunAll(w1, evs[1..]) == RunAll(w2, evs[2..]) == w6;
  }
}
