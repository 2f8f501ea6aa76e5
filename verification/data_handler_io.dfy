/** The v1 writers on a `JmySessionBuffer`, and the receive callback that feeds the parser. */
module DataHandlerIo {
  import opened Bytes
  import opened Sequences
  import opened SessionBuffers
  import opened NetProto
  import opened DataHandler
  import opened DataStream
  import opened DataTurns

  /** What a v1 send puts in the buffer; the head keeps 16 bits of the length. */
  function Wire(userId: int, msgId: int, data: seq<byte>, withUser: bool): seq<byte> {
    (if withUser then UserIdDataHead(userId, msgId, |data| % U16) else UserDataHead(msgId, |data| % U16)) + data
  }

  /** `writeUserData` and `writeUserIdAndData` on a single buffer: compact if needed, then head and data. */
  method WriteUser(buffer: SessionBuffer, userId: int, msgId: int, data: seq<byte>, withUser: bool) returns (r: int)
    requires buffer.Valid() && |data| + 9 < U32
    modifies buffer, buffer.buff
    ensures buffer.Valid()
    ensures var l, w := old(buffer.View()), Wire(userId, msgId, data, withUser);
            var fits := |l.unread| + |w| <= l.capacity;
            && r == (if fits then |data| else -1)
            && buffer.View().capacity == l.capacity
            && buffer.View().unread == if fits then l.unread + w else l.unread
  {
    var head := if withUser then UserIdDataHead(userId, msgId, |data| % U16) else UserDataHead(msgId, |data| % U16);
    var room := buffer.CheckWriteLen(|data| + |head|);
    if !room {
      return -1;
    }
    var ok;
    if |data| == 0 {
      assert head + data == head;
      ok := buffer.WriteData(head);
    } else {
      ok := buffer.WriteTwo(head, data);
    }
    return if ok then |data| else -1;
  }

  /**
   A v1 send is read back as the message that was sent exactly when its data is at most 65533 bytes:
   past that the length field, data plus message id, wraps.
   */
  lemma SendDecodes(userId: int, msgId: int, data: seq<byte>, withUser: bool, rest: seq<byte>)
    requires IsInt32(userId)
    ensures var w := Wire(userId, msgId, data, withUser);
            Decode(w + rest) == Got(OnMessage(if withUser then userId else 0, msgId % U16, data), |w|)
            <==> |data| <= 65533
  {
    hide Decode;
    if |data| <= 65533 {
      EncodeDecode(if withUser then UserIdData(userId, msgId, data) else UserData(msgId, data), rest);
    } else {
      LongSendWraps(userId, msgId, data, withUser, rest);
    }
  }

  lemma LongSendWraps(userId: int, msgId: int, data: seq<byte>, withUser: bool, rest: seq<byte>)
    requires |data| > 65533
    ensures var u := Decode(Wire(userId, msgId, data, withUser) + rest);
            u.Got? ==> u.event.OnMessage? && |u.event.payload| < |data|
  {
  }

  /** With nothing unread, the unpack record holds the last event. */
  predicate Remembers(handler: Handler, buffer: SessionBuffer, last: seq<Event>)
    requires buffer.Valid()
    reads handler.unpackData, handler.unpackData.block, buffer, buffer.buff
  {
    && handler.unpackData.Valid()
    && (buffer.View().unread == [] ==>
          handler.unpackData.result == NoError && handler.unpackData.Again() == Again(last))
  }

  /** The parse of some bytes; if it leaves none, the record holds the last event. */
  method ParseBytes(handler: Handler, buffer: SessionBuffer) returns (count: int)
    requires buffer.Valid() && buffer.View().unread != [] && handler.unpackData.Valid()
    modifies handler`dispatched, handler.unpackData, buffer, buffer.buff
    ensures buffer.Valid()
    ensures var l := old(buffer.View());
            var o := Drain(handler.accepts, l.unread);
            && handler.dispatched == old(handler.dispatched) + o.events
            && buffer.View() == Processed(handler.accepts, l)
            && count == (if o.ok then MessageCount(o.events) else -1)
            && (o.ok ==> buffer.View().unread == o.rest && Remembers(handler, buffer, LastOf(o.events)))
  {
    hide Drain, Decode, Processed, MessageCount, Compacts, StandingAt, Handler.BlockAfter, Handler.HandledNothing;
    hide Handler.HoldsAt, Remembers, LastOf, SessionBuffer.View;
    ghost var l := buffer.View();
    count := handler.ProcessData(buffer);
    ghost var o := Drain(handler.accepts, l.unread);
    if o.ok {
      CallLeaves(handler.accepts, l);
      NowRemembers(handler, buffer, o.events, l.WriteOffset());
    }
  }

  lemma NowRemembers(handler: Handler, buffer: SessionBuffer, events: seq<Event>, end: nat)
    requires buffer.Valid() && handler.unpackData.Valid()
    requires buffer.View().unread == [] ==>
               events != [] && handler.HoldsAt(buffer.buff, events[|events| - 1], end)
    ensures Remembers(handler, buffer, LastOf(events))
  {
    hide UnpackData.Again, UnpackData.Standing, UnpackData.Holds;
    if buffer.View().unread == [] {
      handler.unpackData.HeldAgain(events[|events| - 1]);
    }
  }

  /** The parse of no bytes dispatches the last event again if it was a message, and changes nothing else. */
  method ParseNothing(handler: Handler, buffer: SessionBuffer, ghost last: seq<Event>) returns (count: int)
    requires buffer.Valid() && buffer.View().unread == [] && Remembers(handler, buffer, last)
    modifies handler`dispatched, handler.unpackData, buffer, buffer.buff
    ensures buffer.Valid() && buffer.View() == old(buffer.View()) && Remembers(handler, buffer, last)
    ensures handler.dispatched == old(handler.dispatched) + Again(last)
    ensures count == if Again(last) == [] || handler.accepts(Again(last)[0]) then 0 else -1
  {
    hide Drain, Decode;
    count := handler.ProcessData(buffer);
  }

  /** The receive callback: what arrived, if anything, lies behind the unread bytes, and all are parsed. */
  method ChunkReceived(handler: Handler, buffer: SessionBuffer, chunk: seq<byte>, ghost last: seq<Event>)
    returns (count: int)
    requires buffer.Valid() && |chunk| <= buffer.View().Room() && Remembers(handler, buffer, last)
    modifies handler`dispatched, handler.unpackData, buffer, buffer.buff
    ensures buffer.Valid()
    ensures var t := Take(handler.accepts, Conn(old(buffer.View()), last), chunk);
            && handler.dispatched == old(handler.dispatched) + t.events
            && buffer.View() == t.conn.l && (count >= 0 <==> t.ok)
            && (t.ok ==> Remembers(handler, buffer, t.conn.last))
    ensures var o := Drain(handler.accepts, old(buffer.View()).unread + chunk);
            old(buffer.View()).unread + chunk != [] && o.ok ==>
              buffer.View().unread == o.rest && count == MessageCount(o.events)
  {
    hide Drain, Decode, Processed, MessageCount;
    if chunk != [] {
      var _ := buffer.WriteData(chunk);
    }
    assert buffer.View().unread == old(buffer.View()).unread + chunk;
    if buffer.readOffset == buffer.writeOffset {
      count := ParseNothing(handler, buffer, last);
    } else {
      count := ParseBytes(handler, buffer);
    }
  }

  // ---------------------------------------------------------------- runs of receives

  /** Every turn has something to parse, and what arrives finds room. */
  predicate Fits(h: Handlers, l: Layout, chunks: seq<seq<byte>>)
    decreases |chunks|
  {
    chunks == [] ||
    (&& l.unread + chunks[0] != [] && |chunks[0]| <= l.Room()
     && Fits(h, Processed(h, l.(unread := l.unread + chunks[0])), chunks[1..]))
  }

  /** The first `n` chunks have been parsed: they dispatched `events` and left `left`. */
  predicate FedTo(h: Handlers, unread: seq<byte>, chunks: seq<seq<byte>>, n: nat, events: seq<Event>, left: seq<byte>) {
    n <= |chunks| && Feed(h, unread, chunks) == Prepend(events, Feed(h, left, chunks[n..]))
  }

  lemma FeedStarts(h: Handlers, unread: seq<byte>, chunks: seq<seq<byte>>)
    ensures FedTo(h, unread, chunks, 0, [], unread)
  {
    hide Feed;
    assert chunks[0..] == chunks;
  }

  lemma FeedSteps(h: Handlers, unread: seq<byte>, chunks: seq<seq<byte>>, n: nat, events: seq<Event>, left: seq<byte>)
    requires n < |chunks| && FedTo(h, unread, chunks, n, events, left)
    ensures var o := Drain(h, left + chunks[n]);
            if o.ok then FedTo(h, unread, chunks, n + 1, events + o.events, o.rest)
            else Feed(h, unread, chunks) == Outcome(events + o.events, o.rest, false)
  {
    hide Drain;
    var o := Drain(h, left + chunks[n]);
    assert chunks[n..][0] == chunks[n] && chunks[n..][1..] == chunks[n + 1..];
    var later := Feed(h, o.rest, chunks[n + 1..]).events;
    assert (events + o.events) + later == events + (o.events + later);
  }

  lemma FeedEnds(h: Handlers, unread: seq<byte>, chunks: seq<seq<byte>>, events: seq<Event>, left: seq<byte>)
    requires FedTo(h, unread, chunks, |chunks|, events, left)
    ensures Feed(h, unread, chunks) == Outcome(events, left, true)
  {
    assert events + [] == events;
  }

  lemma FitsSteps(h: Handlers, l: Layout, chunks: seq<seq<byte>>, n: nat)
    requires n < |chunks| && Fits(h, l, chunks[n..])
    ensures l.unread + chunks[n] != [] && |chunks[n]| <= l.Room()
    ensures Fits(h, Processed(h, l.(unread := l.unread + chunks[n])), chunks[n + 1..])
  {
    hide Processed;
    assert chunks[n..][0] == chunks[n] && chunks[n..][1..] == chunks[n + 1..];
  }

  /** Chunk `n` of a run; `more` is what it dispatches. */
  method ReceiveNext(handler: Handler, buffer: SessionBuffer, chunks: seq<seq<byte>>, n: nat,
                     ghost unread: seq<byte>, ghost events: seq<Event>, ghost last: seq<Event>)
    returns (ok: bool, ghost more: seq<Event>)
    requires buffer.Valid() && n < |chunks| && Remembers(handler, buffer, last)
    requires Fits(handler.accepts, buffer.View(), chunks[n..])
    requires FedTo(handler.accepts, unread, chunks, n, events, buffer.View().unread)
    modifies handler`dispatched, handler.unpackData, buffer, buffer.buff
    ensures buffer.Valid() && handler.dispatched == old(handler.dispatched) + more
    ensures ok ==> Fits(handler.accepts, buffer.View(), chunks[n + 1..])
    ensures ok ==> FedTo(handler.accepts, unread, chunks, n + 1, events + more, buffer.View().unread)
    ensures ok ==> Remembers(handler, buffer, LastOf(more))
    ensures !ok ==> exists rest :: Feed(handler.accepts, unread, chunks) == Outcome(events + more, rest, false)
  {
    hide Drain, Decode, Processed, Feed, FedTo, Fits, MessageCount;
    ghost var o := Drain(handler.accepts, buffer.View().unread + chunks[n]);
    FeedSteps(handler.accepts, unread, chunks, n, events, buffer.View().unread);
    FitsSteps(handler.accepts, buffer.View(), chunks, n);
    var count := ChunkReceived(handler, buffer, chunks[n], last);
    return count >= 0, o.events;
  }

  /**
   A run of receives, in chunks cut anywhere that fit the sliding buffer, empty ones among them as long as
   something is unread: what the handlers see, whether the connection survives and what stays unread are those
   of one parse of all the bytes.
   */
  method ReceiveAll(handler: Handler, buffer: SessionBuffer, chunks: seq<seq<byte>>, ghost last: seq<Event>)
    returns (ok: bool)
    requires buffer.Valid() && Remembers(handler, buffer, last)
    requires Drain(handler.accepts, buffer.View().unread) == Outcome([], buffer.View().unread, true)
    requires Fits(handler.accepts, buffer.View(), chunks)
    modifies handler`dispatched, handler.unpackData, buffer, buffer.buff
    ensures buffer.Valid()
    ensures var o := Drain(handler.accepts, old(buffer.View().unread) + Flatten(chunks));
            && handler.dispatched == old(handler.dispatched) + o.events
            && ok == o.ok && (ok ==> buffer.View().unread == o.rest)
  {
    hide *;
    ghost var h, unread := handler.accepts, buffer.View().unread;
    ghost var events: seq<Event> := [];
    ghost var latest := last;
    ChunkInvariance(h, unread, chunks);
    FeedStarts(h, unread, chunks);
    assert chunks[0..] == chunks;
    var n := 0;
    while n < |chunks|
      invariant n <= |chunks| && buffer.Valid() && Remembers(handler, buffer, latest)
      invariant Fits(h, buffer.View(), chunks[n..])
      invariant FedTo(h, unread, chunks, n, events, buffer.View().unread)
      invariant handler.dispatched == old(handler.dispatched) + events
    {
      ghost var more;
      ok, more := ReceiveNext(handler, buffer, chunks, n, unread, events, latest);
      Regroup(old(handler.dispatched), events, more);
      events := events + more;
      latest := LastOf(more);
      if !ok {
        return;
      }
      n := n + 1;
    }
    FeedEnds(h, unread, chunks, events, buffer.View().unread);
    return true;
  }

  /**
   A number of turns of the loop on a stream that is always there: each reads what there is room for, or
   nothing. The handlers see what `RunTurns` says, so `DeliveredExactly` is about these objects.
   */
  method ReceiveTurns(handler: Handler, buffer: SessionBuffer, stream: seq<byte>, turns: nat, ghost last: seq<Event>)
    returns (ok: bool)
    requires buffer.Valid() && Remembers(handler, buffer, last)
    modifies handler`dispatched, handler.unpackData, buffer, buffer.buff
    ensures buffer.Valid()
    ensures var q := RunTurns(handler.accepts, Progress(Conn(old(buffer.View()), last), stream, [], true), turns);
            && handler.dispatched == old(handler.dispatched) + q.events
            && ok == q.ok && (ok ==> buffer.View() == q.conn.l)
  {
    hide Drain, Decode, Processed, Take, Remembers;
    ghost var h, start := handler.accepts, Progress(Conn(buffer.View(), last), stream, [], true);
    ghost var p := start;
    var remaining := stream;
    ok := true;
    var n := 0;
    while n < turns
      invariant n <= turns && buffer.Valid()
      invariant p == RunTurns(h, start, n) && p.ok == ok && p.remaining == remaining
      invariant ok ==> p.conn.l == buffer.View() && Remembers(handler, buffer, p.conn.last)
      invariant handler.dispatched == old(handler.dispatched) + p.events
    {
      RunTurnsAdd(h, start, n, 1);
      assert RunTurns(h, p, 1) == RunTurns(h, RunTurn(h, p), 0) == RunTurn(h, p);
      var room := buffer.buff.Length - buffer.writeOffset;
      if ok && (remaining != [] || room == 0) {
        var take := Min(room, |remaining|);
        ghost var t := Take(h, p.conn, remaining[..take]);
        var count := ChunkReceived(handler, buffer, remaining[..take], p.conn.last);
        Regroup(old(handler.dispatched), p.events, t.events);
        remaining := remaining[take..];
        ok := count >= 0;
      }
      p := RunTurn(h, p);
      n := n + 1;
    }
  }
}
