/**
 The v1 parser over whole streams: cutting a stream into chunks changes nothing, packet streams are
 dispatched in order and once, and the buffer never wedges except on a heartbeat at its very end.
 */
module DataStream {
  import opened Bytes
  import opened Sequences
  import opened SessionBuffers
  import opened NetProto
  import opened DataHandler

  // ---------------------------------------------------------------- chunks

  /** `processData` after each chunk, each call starting from what the last one left. */
  function Feed(h: Handlers, unread: seq<byte>, chunks: seq<seq<byte>>): Outcome
    decreases |chunks|
  {
    if chunks == [] then Outcome([], unread, true)
    else
      var o := Drain(h, unread + chunks[0]);
      if o.ok then Prepend(o.events, Feed(h, o.rest, chunks[1..])) else o
  }

  lemma DrainCases(h: Handlers, b: seq<byte>)
    ensures var u := Decode(b);
            Drain(h, b) ==
            if u.Bad? then Outcome([], [], false)
            else if !u.Got? then Outcome([], b, true)
            else if h(u.event) then Prepend([u.event], Drain(h, b[u.length..]))
            else Outcome([u.event], [], false)
  {
    hide Decode;
  }

  /** Parsing some bytes and then the rest behind the leftover is parsing all of them at once. */
  lemma {:induction false} DrainAppend(h: Handlers, a: seq<byte>, c: seq<byte>)
    ensures var o := Drain(h, a);
            Drain(h, a + c) == if o.ok then Prepend(o.events, Drain(h, o.rest + c)) else o
    decreases |a|
  {
    hide Decode, Drain;
    var u := Decode(a);
    DrainCases(h, a);
    if u.Got? || u.Bad? {
      DecodeStable(a, c);
      DrainCases(h, a + c);
      if u.Got? && h(u.event) {
        assert (a + c)[u.length..] == a[u.length..] + c;
        DrainAppend(h, a[u.length..], c);
        var o := Drain(h, a[u.length..]);
        var later := Drain(h, o.rest + c).events;
        assert [u.event] + (o.events + later) == ([u.event] + o.events) + later;
      }
    } else {
      assert [] + Drain(h, a + c).events == Drain(h, a + c).events;
    }
  }

  /**
   Chunk invariance, for every byte stream, valid or not, and every way of cutting it: the events
   dispatched, the bytes left over and the verdict are those of one parse of the whole stream.
   */
  lemma {:induction false} ChunkInvariance(h: Handlers, unread: seq<byte>, chunks: seq<seq<byte>>)
    requires Drain(h, unread) == Outcome([], unread, true)
    ensures Feed(h, unread, chunks) == Drain(h, unread + Flatten(chunks))
    decreases |chunks|
  {
    hide Decode, DecodeUser;
    if chunks == [] {
      assert unread + Flatten(chunks) == unread;
    } else {
      var b, more := unread + chunks[0], Flatten(chunks[1..]);
      assert unread + Flatten(chunks) == b + more;
      DrainAppend(h, b, more);
      var o := Drain(h, b);
      if o.ok {
        DrainLeaves(h, b);
        ChunkInvariance(h, o.rest, chunks[1..]);
      }
    }
  }

  /** A leftover stays a leftover until more bytes arrive. */
  lemma {:induction false} DrainLeaves(h: Handlers, b: seq<byte>)
    requires Drain(h, b).ok
    ensures Drain(h, Drain(h, b).rest) == Outcome([], Drain(h, b).rest, true)
    decreases |b|
  {
    if Decode(b).Got? {
      DrainLeaves(h, b[Decode(b).length..]);
    }
  }

  // ---------------------------------------------------------------- packet streams

  function EncodeAll(ps: seq<Packet>): seq<byte> {
    FlatMap(Encode, ps)
  }

  function Events(ps: seq<Packet>): seq<Event> {
    seq(|ps|, i requires 0 <= i < |ps| => EventOf(ps[i]))
  }

  predicate AllValid(ps: seq<Packet>) {
    forall i :: 0 <= i < |ps| ==> ValidPacket(ps[i])
  }

  predicate AllAccepted(h: Handlers, ps: seq<Packet>) {
    forall i :: 0 <= i < |ps| ==> h(EventOf(ps[i]))
  }

  /** What is left of a packet: less than all of it, or all of a heartbeat, which waits for a sixth byte. */
  predicate Unfinished(p: Packet, rest: seq<byte>) {
    && rest <= Encode(p)
    && (rest == Encode(p) ==> p.Heartbeat?)
  }

  /** How many of the packets the first `n` bytes of their stream get dispatched. */
  function Complete(ps: seq<Packet>, n: nat): (k: nat)
    ensures k <= |ps|
  {
    if ps == [] || n < |Encode(ps[0])| || (n == |Encode(ps[0])| && ps[0].Heartbeat?) then 0
    else 1 + Complete(ps[1..], n - |Encode(ps[0])|)
  }

  /** Parsing `b` dispatches exactly the first `k` packets and leaves nothing or part of the next. */
  predicate DispatchesFirst(h: Handlers, ps: seq<Packet>, b: seq<byte>, k: nat) {
    var o := Drain(h, b);
    && k <= |ps|
    && o.ok && o.events == Events(ps[..k])
    && b == EncodeAll(ps[..k]) + o.rest
    && (if k == |ps| then o.rest == [] else Unfinished(ps[k], o.rest))
  }

  /**
   Any prefix of a packet stream dispatches the canonical packets, in order, each once: exactly the first
   `Complete(ps, |b|)`. What is left is nothing or an unfinished part of the next packet.
   */
  lemma {:induction false} StreamDispatch(h: Handlers, ps: seq<Packet>, b: seq<byte>)
    requires AllValid(ps) && AllAccepted(h, ps) && b <= EncodeAll(ps)
    ensures DispatchesFirst(h, ps, b, Complete(ps, |b|))
    decreases |ps|
  {
    hide Decode, Encode, DispatchesFirst, Drain;
    if ps == [] {
      NothingDispatched(h, ps, b);
      return;
    }
    var p, n := ps[0], |Encode(ps[0])|;
    var more := EncodeAll(ps[1..]);
    assert EncodeAll(ps) == Encode(p) + more;
    if |b| < n || (|b| == n && p.Heartbeat?) {
      assert b == (Encode(p) + more)[..|b|];
      NothingDispatched(h, ps, b);
    } else {
      FirstPacket(h, p, b, more);
      StreamDispatch(h, ps[1..], b[n..]);
      OneMoreDispatched(h, ps, b, b[n..], Complete(ps[1..], |b| - n));
    }
  }

  lemma NothingDispatched(h: Handlers, ps: seq<Packet>, b: seq<byte>)
    requires AllValid(ps) && (if ps == [] then b == [] else Unfinished(ps[0], b))
    ensures DispatchesFirst(h, ps, b, 0)
  {
    hide Decode, Encode;
    if b == [] {
      DrainNothing(h);
    } else {
      UnfinishedDecodes(ps[0], b);
    }
  }

  lemma Regroup<A>(a: seq<A>, b: seq<A>, c: seq<A>)
    ensures a + (b + c) == (a + b) + c
  {
  }

  lemma OneMoreDispatched(h: Handlers, ps: seq<Packet>, b: seq<byte>, rest: seq<byte>, k: nat)
    requires ps != [] && b == Encode(ps[0]) + rest
    requires Drain(h, b) == Prepend([EventOf(ps[0])], Drain(h, rest))
    requires DispatchesFirst(h, ps[1..], rest, k)
    ensures DispatchesFirst(h, ps, b, k + 1)
  {
    hide Encode, Decode, Drain, EncodeAll, FlatMap, Events, Unfinished;
    var left := Drain(h, rest).rest;
    assert b == EncodeAll(ps[..k + 1]) + left by {
      AfterFirst(ps, k);
      Regroup(Encode(ps[0]), EncodeAll(ps[1..][..k]), left);
    }
    assert Drain(h, b).events == Events(ps[..k + 1]) by {
      AfterFirst(ps, k);
    }
    assert k + 1 < |ps| ==> ps[1..][k] == ps[k + 1];
  }

  lemma DrainNothing(h: Handlers)
    ensures Drain(h, []) == Outcome([], [], true)
  {
  }

  lemma DrainOne(h: Handlers, b: seq<byte>, event: Event, n: nat)
    requires Decode(b) == Got(event, n) && h(event)
    ensures Drain(h, b) == Prepend([event], Drain(h, b[n..]))
  {
    hide Decode;
  }

  /** The first packet of a stream, all here, is dispatched and left behind. */
  lemma FirstPacket(h: Handlers, p: Packet, b: seq<byte>, more: seq<byte>)
    requires ValidPacket(p) && h(EventOf(p)) && b <= Encode(p) + more
    requires |b| >= |Encode(p)| && (p.Heartbeat? ==> |b| > |Encode(p)|)
    ensures b[|Encode(p)|..] <= more && b == Encode(p) + b[|Encode(p)|..]
    ensures Drain(h, b) == Prepend([EventOf(p)], Drain(h, b[|Encode(p)|..]))
  {
    hide Decode, Encode, Drain;
    PrefixSplits(b, Encode(p), more);
    EncodeDecode(p, b[|Encode(p)|..]);
    DrainOne(h, b, EventOf(p), |Encode(p)|);
  }

  lemma AfterFirst(ps: seq<Packet>, k: nat)
    requires ps != [] && k < |ps|
    ensures Events(ps[..k + 1]) == [EventOf(ps[0])] + Events(ps[1..][..k])
    ensures EncodeAll(ps[..k + 1]) == Encode(ps[0]) + EncodeAll(ps[1..][..k])
  {
    assert ps[..k + 1] == [ps[0]] + ps[1..][..k];
  }

  /** A whole stream is dispatched completely, unless it ends in a heartbeat, which then is what is left. */
  lemma {:induction false} WholeStream(ps: seq<Packet>)
    ensures var n := |EncodeAll(ps)|;
            Complete(ps, n) == if ps != [] && ps[|ps| - 1].Heartbeat? then |ps| - 1 else |ps|
  {
    if ps != [] {
      assert EncodeAll(ps) == Encode(ps[0]) + EncodeAll(ps[1..]);
      WholeStream(ps[1..]);
      if |ps| > 1 {
        assert EncodeAll(ps[1..]) == Encode(ps[1]) + EncodeAll(ps[1..][1..]);
      }
    }
  }

  lemma FeedFromNothing(h: Handlers, chunks: seq<seq<byte>>)
    ensures Feed(h, [], chunks) == Drain(h, Flatten(chunks))
  {
    hide Decode, Drain, Feed, Flatten;
    DrainNothing(h);
    ChunkInvariance(h, [], chunks);
    assert [] + Flatten(chunks) == Flatten(chunks);
  }

  /**
   The two together: a packet stream cut into any chunks is dispatched in order, each packet once. After
   the last chunk nothing is left, except a final heartbeat.
   */
  lemma ChunkedStream(h: Handlers, ps: seq<Packet>, chunks: seq<seq<byte>>)
    requires AllValid(ps) && AllAccepted(h, ps) && Flatten(chunks) == EncodeAll(ps)
    ensures Feed(h, [], chunks) ==
            if ps != [] && ps[|ps| - 1].Heartbeat?
            then Outcome(Events(ps[..|ps| - 1]), Encode(ps[|ps| - 1]), true)
            else Outcome(Events(ps), [], true)
  {
    hide *;
    FeedFromNothing(h, chunks);
    WholeDispatch(h, ps);
  }

  /** The same for the stream in one piece. */
  lemma WholeDispatch(h: Handlers, ps: seq<Packet>)
    requires AllValid(ps) && AllAccepted(h, ps)
    ensures Drain(h, EncodeAll(ps)) ==
            if ps != [] && ps[|ps| - 1].Heartbeat?
            then Outcome(Events(ps[..|ps| - 1]), Encode(ps[|ps| - 1]), true)
            else Outcome(Events(ps), [], true)
  {
    hide Encode, Drain, EncodeAll, Events, Complete;
    StreamDispatch(h, ps, EncodeAll(ps));
    WholeStream(ps);
    if ps != [] && ps[|ps| - 1].Heartbeat? {
      LastPacket(ps);
    } else {
      assert ps[..|ps|] == ps;
    }
  }

  lemma LastPacket(ps: seq<Packet>)
    requires ps != []
    ensures EncodeAll(ps) == EncodeAll(ps[..|ps| - 1]) + Encode(ps[|ps| - 1])
  {
    hide Encode;
    assert ps == ps[..|ps| - 1] + [ps[|ps| - 1]];
    FlatMapAppend(Encode, ps[..|ps| - 1], ps[|ps| - 1]);
  }

  // ---------------------------------------------------------------- progress

  predicate NoLongerThan(ps: seq<Packet>, n: nat) {
    forall i :: 0 <= i < |ps| ==> |Encode(ps[i])| <= n
  }

  /** The unread bytes of a buffer that holds part of a stream of packets it has room for. */
  predicate HoldsStream(h: Handlers, ps: seq<Packet>, l: Layout) {
    && l.Valid() && AllValid(ps) && AllAccepted(h, ps)
    && NoLongerThan(ps, l.capacity) && l.unread <= EncodeAll(ps)
  }

  /** A heartbeat at the very end of the block: the parse neither takes it nor makes room behind it. */
  predicate HeartbeatAtEnd(ps: seq<Packet>, l: Layout) {
    var k := Complete(ps, |l.unread|);
    && k < |ps| && ps[k].Heartbeat?
    && l.unread != EncodeAll(ps[..k])
    && l.Room() == 0
  }

  /** Every byte of a full block was consumed: nothing is unread, and nothing can be received. */
  predicate ConsumedToTheEnd(ps: seq<Packet>, l: Layout) {
    l.unread == EncodeAll(ps[..Complete(ps, |l.unread|)]) && l.Room() == 0
  }

  /** Everything consumed, or room to receive more. */
  predicate CanGoOn(l: Layout) {
    l.unread == [] || l.Room() > 0
  }

  /** What the parse leaves is an unfinished part of the next packet, if anything. */
  lemma LeftOver(h: Handlers, ps: seq<Packet>, l: Layout)
    requires HoldsStream(h, ps, l)
    ensures var k, rest := Complete(ps, |l.unread|), Drain(h, l.unread).rest;
            && Drain(h, l.unread).ok
            && l.unread == EncodeAll(ps[..k]) + rest
            && (rest != [] ==>
                  k < |ps| && ValidPacket(ps[k]) && |Encode(ps[k])| <= l.capacity && Unfinished(ps[k], rest))
  {
    hide Decode, Encode, Drain;
    StreamDispatch(h, ps, l.unread);
  }

  /** An unfinished part of a packet is seen to be one, and which kind of shortage it is. */
  lemma UnfinishedDecodes(p: Packet, rest: seq<byte>)
    requires ValidPacket(p) && Unfinished(p, rest) && rest != []
    ensures p.Heartbeat? ==> Decode(rest).Short?
    ensures !p.Heartbeat? ==>
              && |rest| < |Encode(p)|
              && (Decode(rest).HeadShort? || (Decode(rest).BodyShort? && |rest| < Decode(rest).total))
  {
    hide Decode, Encode;
    if |rest| < |Encode(p)| {
      PrefixDecode(p, |rest|);
      assert rest == Encode(p)[..|rest|];
    } else {
      EncodeDecode(p, []);
      assert rest == Encode(p) + [];
    }
  }

  /** A call releases what it handled; a leftover that is no user data is left where it lies. */
  lemma CallLeaves(h: Handlers, l: Layout)
    requires l.Valid() && Drain(h, l.unread).ok
    ensures var m := Processed(h, l);
            && m.Valid() && m.capacity == l.capacity && m.unread == Drain(h, l.unread).rest
            && (Decode(m.unread).Short? ==> m.Room() == l.Room())
  {
    hide Decode, Drain;
  }

  lemma CallOnNothing(h: Handlers, m: Layout)
    requires m.unread == []
    ensures Processed(h, m) == m && Decode([]).Short?
  {
    DrainNothing(h);
  }

  /** A call that starts at an incomplete user packet makes room for more of it. */
  lemma CallMakesRoom(h: Handlers, m: Layout)
    requires m.Valid() && Drain(h, m.unread) == Outcome([], m.unread, true) && |m.unread| < m.capacity
    requires var u := Decode(m.unread); u.HeadShort? || (u.BodyShort? && |m.unread| < u.total)
    ensures Processed(h, m).unread == m.unread && Processed(h, m).Room() > 0
  {
    hide Decode, Drain;
  }

  /**
   Never wedged: two calls on unread data are enough to consume everything or to have room again, although
   the first compacts before it releases what it handled. It fails exactly for a heartbeat at the end. There
   is room again exactly unless, in addition, a full block was consumed to its last byte.
   */
  lemma NeverWedges(h: Handlers, ps: seq<Packet>, l: Layout)
    requires HoldsStream(h, ps, l)
    ensures CanGoOn(Processed(h, Processed(h, l))) <==> !HeartbeatAtEnd(ps, l)
    ensures Processed(h, Processed(h, l)).Room() > 0 <==> !HeartbeatAtEnd(ps, l) && !ConsumedToTheEnd(ps, l)
  {
    hide Decode, Encode, Drain, Processed;
    LeftOver(h, ps, l);
    CallLeaves(h, l);
    var m := Processed(h, l);
    DrainLeaves(h, l.unread);
    CallLeaves(h, m);
    if m.unread == [] {
      CallOnNothing(h, m);
      assert m.Room() == l.Room();
    } else {
      UnfinishedDecodes(ps[Complete(ps, |l.unread|)], m.unread);
      if !Decode(m.unread).Short? {
        CallMakesRoom(h, m);
      }
    }
  }

  /** Without heartbeats in the stream there is nothing to except. */
  lemma NeverWedgesWithoutHeartbeats(h: Handlers, ps: seq<Packet>, l: Layout)
    requires HoldsStream(h, ps, l) && forall i :: 0 <= i < |ps| ==> !ps[i].Heartbeat?
    ensures CanGoOn(Processed(h, Processed(h, l)))
  {
    NeverWedges(h, ps, l);
  }

  /** A buffer of five bytes filled by one heartbeat stays full however often it is processed. */
  lemma HeartbeatWedges(h: Handlers, time: int)
    requires h(OnHeartbeat)
    ensures var l := Layout(5, 0, Encode(Heartbeat(time)));
            Processed(h, l) == l && l.unread != [] && l.Room() == 0
  {
    EncodeDecode(Heartbeat(time), []);
    assert Encode(Heartbeat(time)) + [] == Encode(Heartbeat(time));
  }

  // ---------------------------------------------------------------- failures

  /**
   A packet whose event is refused is the last one dispatched, and ends the connection; behind packets that are
   accepted, in a stream in which something follows if it is a heartbeat.
   */
  lemma {:induction false} RefusedStops(h: Handlers, ps: seq<Packet>, k: nat, more: seq<byte>)
    requires AllValid(ps) && k < |ps| && (forall i :: 0 <= i < k ==> h(EventOf(ps[i]))) && !h(EventOf(ps[k]))
    requires ps[k].Heartbeat? && k == |ps| - 1 ==> more != []
    ensures Drain(h, EncodeAll(ps) + more) == Outcome(Events(ps[..k + 1]), [], false)
    decreases |ps|
  {
    hide Decode, Encode, EventOf, Drain, EncodeAll, FlatMap;
    var p, rest := ps[0], EncodeAll(ps[1..]) + more;
    FirstOf(ps, more);
    EncodeDecode(p, rest);
    if k == 0 {
      DrainRefused(h, EncodeAll(ps) + more, EventOf(p), |Encode(p)|);
      assert Events(ps[..1]) == [EventOf(p)];
    } else {
      DrainOne(h, EncodeAll(ps) + more, EventOf(p), |Encode(p)|);
      RefusedStops(h, ps[1..], k - 1, more);
      assert ps[..k + 1] == [p] + ps[1..][..k];
      assert Events(ps[..k + 1]) == [EventOf(p)] + Events(ps[1..][..k]);
    }
  }

  lemma DrainRefused(h: Handlers, b: seq<byte>, event: Event, n: nat)
    requires Decode(b) == Got(event, n) && !h(event)
    ensures Drain(h, b) == Outcome([event], [], false)
  {
    hide Decode;
  }

  /** The first packet, and what is behind it: nothing only if it is the last. */
  lemma FirstOf(ps: seq<Packet>, more: seq<byte>)
    requires ps != []
    ensures var b, rest := EncodeAll(ps) + more, EncodeAll(ps[1..]) + more;
            && b == Encode(ps[0]) + rest && b[|Encode(ps[0])|..] == rest
            && (rest == [] ==> |ps| == 1 && more == [])
  {
    hide Encode;
    if |ps| > 1 {
      assert EncodeAll(ps[1..]) == Encode(ps[1]) + EncodeAll(ps[1..][1..]);
    }
  }

  /** Bytes that are no packet end the connection too, behind everything dispatched before them. */
  lemma {:induction false} BadStops(h: Handlers, ps: seq<Packet>, bad: seq<byte>)
    requires AllValid(ps) && AllAccepted(h, ps) && bad != [] && Decode(bad).Bad?
    ensures Drain(h, EncodeAll(ps) + bad) == Outcome(Events(ps), [], false)
    decreases |ps|
  {
    hide Decode, Encode, EventOf;
    if ps == [] {
      assert EncodeAll(ps) + bad == bad;
    } else {
      var p := ps[0];
      FirstOf(ps, bad);
      EncodeDecode(p, EncodeAll(ps[1..]) + bad);
      DrainOne(h, EncodeAll(ps) + bad, EventOf(p), |Encode(p)|);
      BadStops(h, ps[1..], bad);
      assert Events(ps) == [EventOf(p)] + Events(ps[1..]);
    }
  }
}
