/** The connections of a server with one v1 handler, proved against the steps of the shared loop. */
module SharedConnections {
  import opened Bytes
  import opened NetProto
  import opened SessionBuffers
  import opened DataHandler
  import opened SharedLoop

  class Connection {
    const buffer: SessionBuffer
    var postedAt: nat
    var postedLen: nat
    ghost var received: seq<byte>

    constructor (size: nat)
      ensures Valid() && View() == NewConn(buffer.buff[..]) && fresh(buffer) && fresh(buffer.buff)
      ensures buffer.buff.Length == size
    {
      buffer := new SessionBuffer(size);
      postedAt, postedLen, received := 0, size, [];
    }

    predicate Valid()
      reads this, buffer
    {
      buffer.Valid() && postedAt + postedLen <= buffer.buff.Length
    }

    ghost function View(): Conn
      reads this, buffer, buffer.buff
    {
      Conn(buffer.buff[..], buffer.readOffset, buffer.writeOffset, postedAt, postedLen, received)
    }

    lemma SameLayout()
      requires Valid()
      ensures ConnOk(View()) && LayoutOf(View()) == buffer.View() && Unread(View()) == buffer.View().unread
    {
    }

    /** The bytes of a completed read, and `writeLen`. */
    method Received(data: seq<byte>)
      requires Valid() && |data| <= postedLen
      modifies this`received, buffer`writeOffset, buffer.buff
      ensures Valid() && View() == Put(old(View()), data)
    {
      buffer.Land(postedAt, data);
      var _ := buffer.WriteLen(|data|);
      received := received + data;
    }

    method PostRead()
      requires Valid()
      modifies this`postedAt, this`postedLen
      ensures Valid() && View() == Posted(old(View()))
    {
      postedAt := buffer.writeOffset;
      postedLen := buffer.buff.Length - buffer.writeOffset;
    }
  }

  /** The record as the loop sees it; `owner` is the connection its message came from. */
  function RecOf(data: UnpackData, owner: nat): Rec
    reads data
  {
    match data.Standing()
    case Idle => Other
    case WantsHead => HeadWanted
    case WantsBody(total) => if total >= 0 then BodyWanted(total) else Other
    case HasMessage => Held(owner, data.userId, data.msgId, data.payloadAt, data.payloadLen)
  }

  class Server {
    const handler: Handler
    const conns: seq<Connection>
    var failed: bool
    ghost var owner: nat         // `msg_info.conn_id` of the record
    ghost var log: seq<Entry>

    ghost predicate Valid()
      reads this, handler.unpackData, conns, set c | c in conns :: c.buffer
    {
      && (forall i, j :: 0 <= i < j < |conns| ==>
            && conns[i] != conns[j] && conns[i].buffer != conns[j].buffer
            && conns[i].buffer.buff != conns[j].buffer.buff)
      && (forall i :: 0 <= i < |conns| ==> conns[i].Valid())
      && RecordValid()
    }

    ghost predicate RecordValid()
      reads this, handler.unpackData
    {
      var u := handler.unpackData;
      && u.Valid()
      && (u.Standing() == HasMessage ==> owner < |conns| && u.block == conns[owner].buffer.buff)
      && (u.Standing().WantsBody? ==> u.Standing().total >= 0)
    }

    ghost function View(): World
      reads this, handler.unpackData, conns, set c | c in conns :: c.buffer, set c | c in conns :: c.buffer.buff
    {
      World(Views(conns), RecOf(handler.unpackData, owner), log, failed)
    }

    constructor (accepts: Handlers, sizes: seq<nat>)
      ensures Valid() && View() == SharedLoop.Fresh(Blocks(conns)) && |conns| == |sizes|
      ensures forall i :: 0 <= i < |sizes| ==> conns[i].buffer.buff.Length == sizes[i]
      ensures handler.accepts == accepts
    {
      owner, failed, log := 0, false, [];
      var made: seq<Connection> := [];
      for i := 0 to |sizes|
        invariant |made| == i
        invariant forall k :: 0 <= k < i ==> fresh(made[k]) && fresh(made[k].buffer) && fresh(made[k].buffer.buff)
        invariant forall j, k :: 0 <= j < k < i ==>
                    && made[j] != made[k] && made[j].buffer != made[k].buffer
                    && made[j].buffer.buff != made[k].buffer.buff
        invariant forall k :: 0 <= k < i ==>
                    && made[k].Valid() && made[k].View() == NewConn(made[k].buffer.buff[..])
                    && made[k].buffer.buff.Length == sizes[k]
      {
        var c := new Connection(sizes[i]);
        made := made + [c];
      }
      handler := new Handler(accepts);
      conns := made;
    }

    lemma Fine()
      requires Valid()
      ensures WorldOk(View())
    {
      forall i | 0 <= i < |conns| ensures ConnOk(View().conns[i]) {
        conns[i].SameLayout();
      }
    }

    /** All connections but one are as in `w`. */
    ghost predicate OthersAre(w: World, i: nat)
      reads conns, set c | c in conns :: c.buffer, set c | c in conns :: c.buffer.buff
    {
      |w.conns| == |conns| && forall k :: 0 <= k < |conns| && k != i ==> conns[k].View() == w.conns[k]
    }

    lemma OneChanged(w: World, i: nat)
      requires i < |conns| && OthersAre(w, i)
      ensures Views(conns) == w.conns[i := conns[i].View()]
    {
    }

    /** `processData` on connection `i`, for a read or a tick. */
    method ParseOne(i: nat)
      requires Valid() && !failed && i < |conns|
      modifies this`owner, this`failed, this`log, handler`dispatched, handler.unpackData
      modifies conns[i].buffer, conns[i].buffer.buff
      ensures WorldOk(old(View()))
      ensures log == Parse(handler.accepts, old(View()), i).log
      ensures failed == Parse(handler.accepts, old(View()), i).failed
      ensures !failed ==> Valid() && View() == Parse(handler.accepts, old(View()), i)
    {
      Fine();
      conns[i].SameLayout();
      if conns[i].buffer.readOffset == conns[i].buffer.writeOffset {
        ParseNone(i);
      } else {
        ParseSome(i);
      }
    }

    method ParseNone(i: nat)
      requires Valid() && !failed && i < |conns| && WorldOk(View()) && Unread(View().conns[i]) == []
      modifies this`failed, this`log, handler`dispatched, handler.unpackData
      modifies conns[i].buffer, conns[i].buffer.buff
      ensures Valid() && View() == Parse(handler.accepts, old(View()), i)
    {
      hide Drain, Decode, Parse, Emptied, RecOf, Message, Unread;
      ghost var w := View();
      ParseIs(handler.accepts, w, i);
      ghost var again: seq<Event>;
      again := EmptyParse(i);
      if w.rec.Held? {
        log := log + [Entry(w.rec.conn, Message(w), true)];
      }
      OneChanged(w, i);
    }

    /** The call, on nothing unread: what it dispatches, and the one connection it may empty. */
    method EmptyParse(i: nat) returns (ghost again: seq<Event>)
      requires Valid() && i < |conns| && WorldOk(View()) && Unread(View().conns[i]) == []
      modifies this`failed, handler`dispatched, handler.unpackData, conns[i].buffer, conns[i].buffer.buff
      ensures Valid() && unchanged(handler.unpackData)
      ensures conns[i].View() == Emptied(old(View()).conns[i], old(View()).rec)
      ensures again == if old(View()).rec.Held? then [Message(old(View()))] else []
      ensures failed == (again != [] && !handler.accepts(again[0]))
      ensures handler.dispatched == old(handler.dispatched) + again
    {
      hide Drain, Decode, Handler.ProcessedBytes;
      ghost var c := conns[i].View();
      ghost var l := conns[i].buffer.View();
      again := handler.unpackData.Again();
      conns[i].SameLayout();
      var count := handler.ProcessData(conns[i].buffer);
      failed := count < 0;
      NothingMoves(l, c.block, handler.unpackData.CompactsAgain(l.Room()));
    }

    method ParseSome(i: nat)
      requires Valid() && !failed && i < |conns| && WorldOk(View()) && Unread(View().conns[i]) != []
      modifies this`owner, this`failed, this`log, handler`dispatched, handler.unpackData
      modifies conns[i].buffer, conns[i].buffer.buff
      ensures log == Parse(handler.accepts, old(View()), i).log
      ensures failed == Parse(handler.accepts, old(View()), i).failed
      ensures !failed ==> Valid() && View() == Parse(handler.accepts, old(View()), i)
    {
      hide Drain, Released, RecAfter, RecOf, Unread;
      ghost var w := View();
      ghost var o := BytesParse(i);
      log := log + Entries(i, o.events);
      if o.ok {
        OneChanged(w, i);
      }
    }

    /** The call, on some bytes: what it dispatches, what it leaves in the buffer, and what in the record. */
    method BytesParse(i: nat) returns (ghost o: Outcome)
      requires Valid() && i < |conns| && WorldOk(View()) && Unread(View().conns[i]) != []
      modifies this`owner, this`failed, handler`dispatched, handler.unpackData
      modifies conns[i].buffer, conns[i].buffer.buff
      ensures o == Drain(handler.accepts, Unread(old(View()).conns[i])) && failed == !o.ok
      ensures handler.dispatched == old(handler.dispatched) + o.events
      ensures o.ok ==>
                && conns[i].View() == Released(old(View()).conns[i], o.rest)
                && RecordValid() && RecOf(handler.unpackData, owner) == RecAfter(i, old(View()).conns[i].write, o)
                && conns[i].Valid()
    {
      hide Drain, Decode, Processed, Compacts, StandingAt, Released, Handler.HoldsAt, Handler.BlockAfter, RecAfter;
      ghost var h, c := handler.accepts, View().conns[i];
      ghost var l := conns[i].buffer.View();
      conns[i].SameLayout();
      var count := handler.ProcessData(conns[i].buffer);
      failed := count < 0;
      o := Drain(h, l.unread);
      if o.ok {
        owner := i;
        var b := conns[i].buffer;
        ReleasedIs(h, c, l, o, b.buff[..], b.readOffset, b.writeOffset);
        RecordIs(i, c.write, o);
      }
    }

    /** The record after a parse of some bytes that did not fail. */
    lemma RecordIs(i: nat, write: nat, o: Outcome)
      requires i < |conns| && owner == i && handler.unpackData.Valid()
      requires o.rest == [] ==>
                 o.events != [] && handler.HoldsAt(conns[i].buffer.buff, o.events[|o.events| - 1], write)
      requires o.rest != [] ==>
                 && !Decode(o.rest).Got? && !Decode(o.rest).Bad?
                 && handler.unpackData.Standing() == StandingAt(o.rest)
      ensures RecordValid() && RecOf(handler.unpackData, owner) == RecAfter(i, write, o)
    {
      hide Decode;
      var u := handler.unpackData;
      if o.rest == [] {
        var last := o.events[|o.events| - 1];
        u.HeldAgain(last);
        if last.OnMessage? {
          assert |u.block[u.payloadAt..u.payloadAt + u.payloadLen]| == u.payloadLen;
        }
      }
    }

    /** A completed read: its bytes land, all is parsed, and the next read is posted. */
    method ReadCompleted(i: nat, data: seq<byte>)
      requires Valid() && Enabled(View(), Arrive(i, data))
      modifies this`owner, this`failed, this`log, handler`dispatched, handler.unpackData
      modifies conns[i], conns[i].buffer, conns[i].buffer.buff
      ensures log == Happen(handler.accepts, old(View()), Arrive(i, data)).log
      ensures failed == Happen(handler.accepts, old(View()), Arrive(i, data)).failed
      ensures !failed ==> Valid() && View() == Happen(handler.accepts, old(View()), Arrive(i, data))
    {
      hide Parse, Put, RecOf, Posted;
      ghost var w := View();
      conns[i].Received(data);
      OneChanged(w, i);
      assert View() == Arrived(w, i, data);
      ghost var w1 := View();
      ParseOne(i);
      if failed {
        return;
      }
      ghost var w2 := View();
      conns[i].PostRead();
      OneChanged(w2, i);
      Fine();
    }

    /** The receive half of `run` on connection `i`: what is there is parsed, without a read. */
    method TickOne(i: nat)
      requires Valid() && Enabled(View(), Tick(i))
      modifies this`owner, this`failed, this`log, handler`dispatched, handler.unpackData
      modifies conns[i].buffer, conns[i].buffer.buff
      ensures log == Happen(handler.accepts, old(View()), Tick(i)).log
      ensures failed == Happen(handler.accepts, old(View()), Tick(i)).failed
      ensures !failed ==> Valid() && View() == Happen(handler.accepts, old(View()), Tick(i))
    {
      hide Parse;
      ParseOne(i);
    }

    /** Any interleaving of reads and ticks, up to the first failure. */
    method Serve(steps: seq<SharedLoop.Step>)
      requires Valid() && !failed
      modifies this`owner, this`failed, this`log, handler`dispatched, handler.unpackData
      modifies conns, set c | c in conns :: c.buffer, set c | c in conns :: c.buffer.buff
      ensures log == RunAll(handler.accepts, old(View()), steps).log
      ensures failed == RunAll(handler.accepts, old(View()), steps).failed
      ensures !failed ==> Valid() && View() == RunAll(handler.accepts, old(View()), steps)
    {
      hide Happen, RecOf;
      ghost var h, w := handler.accepts, View();
      var n := 0;
      while n < |steps|
        invariant n <= |steps| && !failed && Valid() && View() == RunAll(h, w, steps[..n])
      {
        RunOneMore(h, w, steps[..n], steps[n]);
        assert steps[..n + 1] == steps[..n] + [steps[n]];
        ServeOne(steps[n]);
        if failed {
          RunStops(h, w, steps, n + 1);
          return;
        }
        n := n + 1;
      }
      assert steps[..n] == steps;
    }

    method ServeOne(s: SharedLoop.Step)
      requires Valid() && !failed
      modifies this`owner, this`failed, this`log, handler`dispatched, handler.unpackData
      modifies conns, set c | c in conns :: c.buffer, set c | c in conns :: c.buffer.buff
      ensures log == Happen(handler.accepts, old(View()), s).log
      ensures failed == Happen(handler.accepts, old(View()), s).failed
      ensures !failed ==> Valid() && View() == Happen(handler.accepts, old(View()), s)
    {
      hide Parse, RecOf, Put, Posted;
      Fine();
      if s.i < |conns| {
        var c := conns[s.i];
        assert View().conns[s.i] == c.View();
        if s.Tick? {
          TickOne(s.i);
        } else if |s.data| <= c.postedLen && (s.data == [] <==> c.postedLen == 0) {
          ReadCompleted(s.i, s.data);
        }
      }
    }
  }

  lemma NothingMoves(l: Layout, block: seq<byte>, compacts: bool)
    requires l.unread == []
    ensures Handler.BlockAfter(l, block, compacts) == block
  {
    assert [] + block[0..] == block;
  }

  /** A parse of nothing, in its parts. */
  lemma ParseIs(h: Handlers, w: World, i: nat)
    requires WorldOk(w) && i < |w.conns| && Unread(w.conns[i]) == [] && !w.failed
    ensures Parse(h, w, i) ==
            World(w.conns[i := Emptied(w.conns[i], w.rec)], w.rec,
                  w.log + if w.rec.Held? then [Entry(w.rec.conn, Message(w), true)] else [],
                  w.rec.Held? && !h(Message(w)))
  {
    hide Emptied;
    assert w.log + [] == w.log;
  }

  /** The buffer after a parse that was not refused, as the connection sees it. */
  lemma ReleasedIs(h: Handlers, c: Conn, l: Layout, o: Outcome, block: seq<byte>, read: nat, write: nat)
    requires ConnOk(c) && LayoutOf(c) == l && o == Drain(h, l.unread) && o.ok
    requires read <= write <= |block| && Layout(|block|, read, block[read..write]) == Processed(h, l)
    requires block == Handler.BlockAfter(l, c.block, Compacts(l, o.rest))
    ensures c.(block := block, read := read, write := write) == Released(c, o.rest)
  {
    hide Drain, Decode, Compacts;
    assert |block[read..write]| == |o.rest|;
  }

  ghost function Views(conns: seq<Connection>): (v: seq<Conn>)
    reads conns, set c | c in conns :: c.buffer, set c | c in conns :: c.buffer.buff
    ensures |v| == |conns|
  {
    seq(|conns|, i requires 0 <= i < |conns|
      reads conns, set c | c in conns :: c.buffer, set c | c in conns :: c.buffer.buff => conns[i].View())
  }

  ghost function Blocks(conns: seq<Connection>): (b: seq<seq<byte>>)
    reads conns, set c | c in conns :: c.buffer.buff
    ensures |b| == |conns|
  {
    seq(|conns|, i requires 0 <= i < |conns|
      reads conns, set c | c in conns :: c.buffer.buff => conns[i].buffer.buff[..])
  }
}
