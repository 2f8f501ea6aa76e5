/**
 Graceful closes. A closing end posts no sends, takes no requests and dispatches nothing any more, so its disconnect
 goes out only on the back of a send that is still outstanding; the other end acknowledges each one it reads.
 */
module TransportClosing {
  import opened Bytes
  import opened Sequences
  import opened BufferLists
  import opened NetProto2
  import opened DataHandler2
  import opened Endpoints
  import opened Transport

  // ---------------------------------------------------------------- an active end that is closing

  /** A closing active end that has not force-closed. */
  predicate IsClosing(e: Endpoint) {
    e.kind == Active && e.state == Disconnecting && !e.closed
  }

  /** Of a closing active end only the send engine and the read move; an abort or an acknowledgement closes it. */
  lemma ClosingStep(e: Endpoint, inn: Link, act: Action)
    requires IsClosing(e) && Enabled(e, inn, act)
    ensures var e' := EndpointAfter(e, inn, act);
            && e'.accepted == e.accepted && e'.delivered == e.delivered && e'.kind == Active
            && (IsClosing(e') <==> !e'.closed)
            && (e'.closed <==> act.Abort? || (act.HeadArrives? && PacketLenType(inn.chan).1 == TYPE_DISCONNECT_ACK))
            && (!e'.closed && !act.Complete? ==> e'.queue == e.queue && e'.sendCount == e.sendCount)
            && (!e'.closed && !act.Complete? && !act.Take? ==>
                  e'.pending == e.pending && e'.sendingData == e.sendingData)
  {
    hide Encode, MessageOf, FlatMap;
    if act.HeadArrives? {
      assert PacketLenType(inn.chan[..3]).1 == PacketLenType(inn.chan).1;
    }
  }

  /** Over every run a closing active end takes and dispatches nothing more, and stays closing until it is closed. */
  lemma {:induction false} ClosingRun(w: World, evs: seq<Event>)
    requires IsClosing(w.a)
    ensures var a := RunAll(w, evs).a;
            && a.accepted == w.a.accepted && a.delivered == w.a.delivered
            && (a.closed || IsClosing(a))
    decreases |evs|
  {
    hide Enabled, EndpointAfter, IsClosing, LinkRead, PutInFlight;
    if evs != [] {
      var ev := evs[0];
      if ev.atA && Enabled(w.a, w.ba, ev.act) {
        ClosingStep(w.a, w.ba, ev.act);
      }
      var w1 := Step(w, ev);
      if w1.a.closed {
        ClosedStays(w1, evs[1..]);
      } else {
        ClosingRun(w1, evs[1..]);
      }
    }
  }

  lemma {:induction false} ClosedStays(w: World, evs: seq<Event>)
    requires w.a.closed
    ensures RunAll(w, evs).a == w.a && RunAll(w, evs).ab.wire == w.ab.wire
    decreases |evs|
  {
    hide EndpointAfter, PutInFlight, LinkRead;
    if evs != [] {
      ClosedStep(w, evs[0]);
      ClosedStays(Step(w, evs[0]), evs[1..]);
    }
  }

  lemma ClosedStep(w: World, ev: Event)
    requires w.a.closed
    ensures Step(w, ev).a == w.a && Step(w, ev).ab.wire == w.ab.wire
  {
    hide EndpointAfter;
    if !ev.atA && Enabled(w.b, w.ab, ev.act) {
      ReadKeepsWire(w.ab, w.b, ev.act);
    }
  }

  lemma ReadKeepsWire(l: Link, e: Endpoint, act: Action)
    requires Enabled(e, l, act)
    ensures LinkRead(l, e, act).wire == l.wire
  {
  }

  /**
   An active end that closes while no send is outstanding never sends its disconnect, nor anything else: over every run
   no byte is put in flight by it.
   */
  lemma {:induction false} SilentClose(w: World, evs: seq<Event>)
    requires IsClosing(w.a) && w.a.pending == NoSend
    ensures RunAll(w, evs).ab.wire == w.ab.wire
    decreases |evs|
  {
    hide EndpointAfter, LinkRead, IsClosing;
    if evs != [] {
      var ev := evs[0];
      SilentStep(w, ev);
      if Step(w, ev).a.closed {
        ClosedStays(Step(w, ev), evs[1..]);
      } else {
        SilentClose(Step(w, ev), evs[1..]);
      }
    }
  }

  lemma SilentStep(w: World, ev: Event)
    requires IsClosing(w.a) && w.a.pending == NoSend
    ensures Step(w, ev).ab.wire == w.ab.wire
    ensures Step(w, ev).a.closed || (IsClosing(Step(w, ev).a) && Step(w, ev).a.pending == NoSend)
  {
    hide EndpointAfter, IsClosing;
    if ev.atA && Enabled(w.a, w.ba, ev.act) {
      ClosingStep(w.a, w.ba, ev.act);
      assert w.ab.wire + [] == w.ab.wire;
    }
    if !ev.atA && Enabled(w.b, w.ab, ev.act) {
      ReadKeepsWire(w.ab, w.b, ev.act);
    }
  }

  // ---------------------------------------------------------------- which disconnects go out

  /** The callbacks it takes at least to send what is queued. */
  function Needed(e: Endpoint): nat {
    |e.queue| + if e.pending.Taken? && e.queue != [] && e.pending.n < |e.queue[0]| then 1 else 0
  }

  /** A send is outstanding, and the batch it belongs to has room for all that is queued. */
  predicate CanFlush(e: Endpoint) {
    e.pending != NoSend && e.sendCount + Needed(e) <= SEND_BATCH
  }

  /** An end whose batch is too short for what is queued stays one. */
  predicate TooMuch(e: Endpoint) {
    e.queue != [] && !CanFlush(e)
  }

  lemma TooMuchStays(e: Endpoint, inn: Link, act: Action)
    requires IsClosing(e) && Engine(e) && TooMuch(e) && Enabled(e, inn, act)
    requires !EndpointAfter(e, inn, act).closed
    ensures TooMuch(EndpointAfter(e, inn, act))
  {
    hide EndpointAfter;
    ClosingStep(e, inn, act);
    if act.Complete? {
      CompletionNeeds(e, inn);
    } else if act.Take? {
      assert EndpointAfter(e, inn, act) == e.(pending := Taken(act.n)) by {
        TakeIs(e, inn, act.n);
      }
    }
  }

  lemma TakeIs(e: Endpoint, inn: Link, n: nat)
    requires Enabled(e, inn, Take(n))
    ensures EndpointAfter(e, inn, Take(n)) == e.(pending := Taken(n))
  {
  }

  /** A callback uses up one of the batch, and brings a flush closer by one. */
  lemma CompletionNeeds(e: Endpoint, inn: Link)
    requires Engine(e) && Enabled(e, inn, Complete)
    ensures var e' := EndpointAfter(e, inn, Complete);
            && Needed(e') + 1 == Needed(e)
            && (e'.pending != NoSend ==> e'.pending == Posted && e'.sendCount == e.sendCount + 1)
            && (e'.pending == NoSend <==> e.sendCount + 1 >= SEND_BATCH || e'.queue == [])
  {
  }

  lemma {:induction false} TooMuchRun(w: World, evs: seq<Event>)
    requires Inv(w) && IsClosing(w.a) && TooMuch(w.a)
    ensures RunAll(w, evs).a.closed || RunAll(w, evs).a.queue != []
    decreases |evs|
  {
    hide Enabled, EndpointAfter, IsClosing, Inv, Engine, CanFlush, LinkRead, PutInFlight;
    if evs != [] {
      var ev := evs[0];
      StepKeepsInv(w, ev);
      if ev.atA && Enabled(w.a, w.ba, ev.act) {
        ClosingStep(w.a, w.ba, ev.act);
        EngineOf(w);
        if !Step(w, ev).a.closed {
          TooMuchStays(w.a, w.ba, ev.act);
        }
      }
      if Step(w, ev).a.closed {
        ClosedStays(Step(w, ev), evs[1..]);
      } else {
        TooMuchRun(Step(w, ev), evs[1..]);
      }
    }
  }

  lemma EngineOf(w: World)
    requires Inv(w) && IsClosing(w.a)
    ensures Engine(w.a)
  {
  }

  lemma StepKeepsInv(w: World, ev: Event)
    requires Inv(w)
    ensures Inv(Step(w, ev))
  {
    hide Direction;
    ActKeeps(w, ev.act);
    assert Inv(Swap(w));
    ActKeeps(Swap(w), ev.act);
  }

  /** With room in the batch, whole buffers go out one by one. */
  lemma {:induction false} FlushOut(w: World) returns (evs: seq<Event>)
    requires Inv(w) && IsClosing(w.a) && (w.a.queue == [] || CanFlush(w.a))
    ensures !RunAll(w, evs).a.closed && RunAll(w, evs).a.queue == []
    decreases Needed(w.a), if w.a.pending.Posted? then 1 else 0
  {
    hide Inv, Engine, EndpointAfter, LinkRead, PutInFlight;
    EngineOf(w);
    if w.a.queue == [] {
      evs := [];
    } else {
      var act := if w.a.pending.Posted? then Take(|w.a.queue[0]|) else Complete;
      FlushStep(w, act);
      StepKeepsInv(w, Event(true, act));
      var rest := FlushOut(Step(w, Event(true, act)));
      evs := [Event(true, act)] + rest;
      assert evs[0] == Event(true, act) && evs[1..] == rest;
    }
  }

  lemma FlushStep(w: World, act: Action)
    requires Engine(w.a) && IsClosing(w.a) && w.a.queue != [] && CanFlush(w.a)
    requires act == if w.a.pending.Posted? then Take(|w.a.queue[0]|) else Complete
    ensures var a' := Step(w, Event(true, act)).a;
            && IsClosing(a') && (a'.queue == [] || CanFlush(a'))
            && (if act.Take? then Needed(a') == Needed(w.a) && a'.pending.Taken?
                else Needed(a') < Needed(w.a))
  {
    hide EndpointAfter, LinkRead, PutInFlight;
    ClosingStep(w.a, w.ba, act);
    if act.Take? {
      TakeIs(w.a, w.ba, act.n);
    } else {
      CompletionNeeds(w.a, w.ba);
    }
  }

  /**
   Which graceful closes of an active end can ever go out: from a state just closed (or closing since), some run sends
   all that is queued, the disconnect last, exactly if a send was outstanding and its batch of 100 callbacks has one for
   each queued buffer. Any other disconnect stays in the list until the time-out clears it.
   */
  lemma CloseGoesOutExactly(w: World)
    requires Inv(w) && IsClosing(w.a) && w.a.queue != []
    ensures (exists evs :: !RunAll(w, evs).a.closed && RunAll(w, evs).a.queue == []) <==> CanFlush(w.a)
  {
    hide Inv, IsClosing, RunAll;
    if CanFlush(w.a) {
      var evs := FlushOut(w);
      assert !RunAll(w, evs).a.closed && RunAll(w, evs).a.queue == [];
    } else {
      forall evs ensures RunAll(w, evs).a.closed || RunAll(w, evs).a.queue != [] {
        TooMuchRun(w, evs);
      }
    }
  }

  /** A close queues its disconnect last and leaves the engine to what was outstanding. */
  lemma ClosingStarts(w: World)
    requires Inv(w) && w.a.kind == Active && !w.a.closed && w.a.state == Connected
    ensures var w1 := Step(w, Event(true, CloseIt));
            && Inv(w1) && IsClosing(w1.a) && w1.a.queue == w.a.queue + [[0, 1, 8]]
            && w1.a.accepted == w.a.accepted + [Control(Disconnect)]
            && (CanFlush(w1.a) <==> w.a.pending != NoSend && w.a.sendCount + Needed(w.a) < SEND_BATCH)
  {
    hide Direction;
    ActKeeps(w, CloseIt);
    ClosedQueue(w.a);
    EngineKept(w);
  }

  lemma EngineKept(w: World)
    requires Inv(w) && !w.a.closed
    ensures Engine(w.a)
  {
  }

  lemma ClosedQueue(e: Endpoint)
    requires e.state == Connected
    ensures Close(e).queue == e.queue + [[0, 1, 8]] && Close(e).accepted == e.accepted + [Control(Disconnect)]
    ensures Close(e) == e.(state := Disconnecting, queue := Close(e).queue, accepted := Close(e).accepted)
  {
    assert Encode(Disconnect) == [0, 1, 8];
  }

  // ---------------------------------------------------------------- acknowledgements

  function Acks(qs: seq<Request>): nat {
    if qs == [] then 0 else Acks(qs[..|qs| - 1]) + if qs[|qs| - 1] == Control(DisconnectAck) then 1 else 0
  }

  /** End `b` reads a disconnect frame of its peer, and is not closing itself. */
  predicate ReadsDisconnect(w: World, ev: Event) {
    && !ev.atA && ev.act.HeadArrives? && Enabled(w.b, w.ab, ev.act) && w.b.state != Disconnecting
    && w.ab.got < |w.a.accepted| && w.a.accepted[w.ab.got] == Control(Disconnect)
  }

  function DisconnectsRead(w: World, evs: seq<Event>): nat
    decreases |evs|
  {
    if evs == [] then 0
    else (if ReadsDisconnect(w, evs[0]) then 1 else 0) + DisconnectsRead(Step(w, evs[0]), evs[1..])
  }

  /** Each disconnect that arrives is acknowledged once, and nothing else is, over every run. */
  lemma {:induction false} AcksAnswer(w: World, evs: seq<Event>)
    requires Inv(w)
    ensures Acks(RunAll(w, evs).b.accepted) == Acks(w.b.accepted) + DisconnectsRead(w, evs)
    decreases |evs|
  {
    hide Inv, Step, ReadsDisconnect, Acks;
    if evs != [] {
      StepKeepsInv(w, evs[0]);
      AckStep(w, evs[0]);
      AcksAnswer(Step(w, evs[0]), evs[1..]);
    }
  }

  lemma AckStep(w: World, ev: Event)
    requires Inv(w)
    ensures Acks(Step(w, ev).b.accepted) == Acks(w.b.accepted) + if ReadsDisconnect(w, ev) then 1 else 0
  {
    hide EndpointAfter, Direction, Acks;
    if !ev.atA && Enabled(w.b, w.ab, ev.act) {
      if ev.act.HeadArrives? {
        assert Direction(w.a, w.ab, w.b);
        HeadAcks(w.a, w.ab, w.b);
      } else {
        OtherActs(w.b, w.ab, ev.act);
      }
    }
  }

  lemma OneMore(qs: seq<Request>, q: Request)
    ensures Acks(qs + [q]) == Acks(qs) + if q == Control(DisconnectAck) then 1 else 0
  {
    assert (qs + [q])[..|qs|] == qs;
  }

  lemma OtherActs(e: Endpoint, inn: Link, act: Action)
    requires Enabled(e, inn, act) && !act.HeadArrives?
    ensures Acks(EndpointAfter(e, inn, act).accepted) == Acks(e.accepted)
  {
    hide Acks, Encode, MessageOf, FlatMap;
    if act.Ask? {
      OneMore(e.accepted, act.q);
    } else if act.CloseIt? {
      OneMore(e.accepted, Control(Disconnect));
    }
  }

  lemma HeadAcks(s: Endpoint, l: Link, e: Endpoint)
    requires Direction(s, l, e) && Enabled(e, l, HeadArrives)
    ensures l.got < |s.accepted|
    ensures Acks(EndpointAfter(e, l, HeadArrives).accepted) ==
            Acks(e.accepted) + if e.state != Disconnecting && s.accepted[l.got] == Control(Disconnect) then 1 else 0
  {
    hide Acks, ReceiverInv, Encode, Stream;
    FramesValid(s);
    NextHead(s, l, e);
    OneMore(e.accepted, Control(DisconnectAck));
    assert IsUserType(TYPE_DISCONNECT) == false;
  }

  lemma NextHead(s: Endpoint, l: Link, e: Endpoint)
    requires Direction(s, l, e) && AllValid(Frames(s)) && Enabled(e, l, HeadArrives)
    ensures l.got < |s.accepted|
    ensures PacketLenType(l.chan[..3]).1 == TYPE_DISCONNECT <==> s.accepted[l.got] == Control(Disconnect)
  {
    hide Encode, Content, FlatMap, MessageOf, Engine, Body;
    HeadIsNext(Frames(s), l, e);
    assert Frames(s)[l.got] == FrameOf(s.accepted[l.got]);
  }
}
