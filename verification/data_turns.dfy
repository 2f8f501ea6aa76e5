/**
 The v1 receive loop turn by turn. A turn reads what fits behind the unread bytes and parses. With no room it
 reads nothing and parses all the same; with nothing unread either, it judges by the record of the last packet.
 That decides when a stream is delivered.
 */
module DataTurns {
  import opened Bytes
  import opened Sequences
  import opened SessionBuffers
  import opened NetProto
  import opened DataHandler
  import opened DataStream

  /** A buffer and the last event dispatched, which the unpack record still holds when nothing is unread. */
  datatype Conn = Conn(l: Layout, last: seq<Event>)

  datatype Taken = Taken(conn: Conn, events: seq<Event>, ok: bool)

  /** What parsing no bytes dispatches: a message is dispatched once more. */
  function Again(last: seq<Event>): seq<Event> {
    if last != [] && last[|last| - 1].OnMessage? then [last[|last| - 1]] else []
  }

  function LastOf(events: seq<Event>): seq<Event> {
    if events == [] then [] else [events[|events| - 1]]
  }

  /** One turn in which `chunk` arrives. */
  function Take(h: Handlers, c: Conn, chunk: seq<byte>): Taken {
    var l := c.l.(unread := c.l.unread + chunk);
    if l.unread == [] then Taken(c, Again(c.last), Again(c.last) == [] || h(Again(c.last)[0]))
    else
      var o := Drain(h, l.unread);
      Taken(Conn(Processed(h, l), LastOf(o.events)), o.events, o.ok)
  }

  // ---------------------------------------------------------------- a stream that is always there

  /** The connection, the bytes still to come, and the events dispatched so far. */
  datatype Progress = Progress(conn: Conn, remaining: seq<byte>, events: seq<Event>, ok: bool)

  function Min(a: int, b: int): int {
    if a < b then a else b
  }

  /** The next turn takes as much of the stream as there is room for. With room and no more bytes it waits. */
  function RunTurn(h: Handlers, p: Progress): Progress {
    var n := Min(p.conn.l.Room(), |p.remaining|);
    if !p.ok || (p.remaining == [] && p.conn.l.Room() > 0) || n < 0 then p
    else
      var t := Take(h, p.conn, p.remaining[..n]);
      Progress(t.conn, p.remaining[n..], p.events + t.events, t.ok)
  }

  function RunTurns(h: Handlers, p: Progress, n: nat): Progress
    decreases n
  {
    if n == 0 then p else RunTurns(h, RunTurn(h, p), n - 1)
  }

  lemma {:induction false} RunTurnsAdd(h: Handlers, p: Progress, n: nat, m: nat)
    ensures RunTurns(h, p, n + m) == RunTurns(h, RunTurns(h, p, n), m)
    decreases n
  {
    hide RunTurn;
    if n > 0 {
      RunTurnsAdd(h, RunTurn(h, p), n - 1, m);
    }
  }

  /** A stream at the start of a connection whose buffer holds `capacity` bytes. */
  function Fresh(ps: seq<Packet>, capacity: nat): Progress {
    Progress(Conn(Layout(capacity, 0, []), []), EncodeAll(ps), [], true)
  }

  /** All of the stream is dispatched, each packet once, and the connection waits for more. */
  predicate Delivered(p: Progress, ps: seq<Packet>) {
    && p.ok && p.remaining == [] && p.events == Events(ps)
    && p.conn.l.unread == [] && p.conn.l.Room() > 0
  }

  /** Nothing is unread and nothing can be received. */
  predicate Stuck(p: Progress) {
    p.ok && p.conn.l.unread == [] && p.conn.l.Room() == 0
  }

  /**
   Whether, filling the buffer again and again from the first packet not yet complete, some full buffer ends
   with the end of a packet.
   */
  predicate FillsExactly(ps: seq<Packet>, capacity: nat)
    decreases |ps|
  {
    |EncodeAll(ps)| >= capacity &&
    (var k := Complete(ps, capacity);
     |EncodeAll(ps[..k])| == capacity || (k > 0 && FillsExactly(ps[k..], capacity)))
  }

  predicate NoHeartbeat(ps: seq<Packet>) {
    forall i :: 0 <= i < |ps| ==> !ps[i].Heartbeat?
  }

  predicate FitStream(h: Handlers, ps: seq<Packet>, capacity: nat) {
    && AllValid(ps) && AllAccepted(h, ps) && NoHeartbeat(ps) && NoLongerThan(ps, capacity) && capacity > 0
  }

  // ---------------------------------------------------------------- one fill of the buffer

  /** The buffer starts with a part of the first packet; that part and what is to come are the stream. */
  predicate AtFill(ps: seq<Packet>, capacity: nat, p: Progress) {
    && p.ok && p.conn.l == Layout(capacity, 0, p.conn.l.unread)
    && p.conn.l.unread + p.remaining == EncodeAll(ps)
    && (ps == [] ==> p.conn.l.unread == [])
    && (ps != [] ==> |p.conn.l.unread| < |Encode(ps[0])|)
  }

  lemma FirstIsPart(ps: seq<Packet>)
    requires ps != []
    ensures EncodeAll(ps) == Encode(ps[0]) + EncodeAll(ps[1..])
  {
  }

  /** What a turn at the start of a fill makes of it. */
  lemma FillTurn(h: Handlers, ps: seq<Packet>, capacity: nat, p: Progress)
    requires FitStream(h, ps, capacity) && AtFill(ps, capacity, p) && ps != []
    ensures var n, all := Min(capacity, |EncodeAll(ps)|), EncodeAll(ps);
            var t := Take(h, Conn(Layout(capacity, 0, []), []), all[..n]);
            RunTurn(h, p) == Progress(t.conn, all[n..], p.events + t.events, t.ok)
  {
    hide Encode, Drain, Processed, EncodeAll, FlatMap;
    FirstIsPart(ps);
    FitAt(h, ps, capacity, 0);
    var n, u := Min(capacity, |EncodeAll(ps)|), p.conn.l.unread;
    var m := Min(p.conn.l.Room(), |p.remaining|);
    assert |EncodeAll(ps)| == |u| + |p.remaining| && m == n - |u| && n > 0;
    JoinTake(u, p.remaining, m);
  }

  lemma JoinTake(u: seq<byte>, remaining: seq<byte>, m: nat)
    requires m <= |remaining|
    ensures u + remaining[..m] == [] + (u + remaining)[..|u| + m]
    ensures remaining[m..] == (u + remaining)[|u| + m..]
  {
  }

  /** What the parse of a fill dispatches and leaves. */
  lemma FillParse(h: Handlers, ps: seq<Packet>, capacity: nat)
    requires FitStream(h, ps, capacity) && ps != []
    ensures var n, all := Min(capacity, |EncodeAll(ps)|), EncodeAll(ps);
            var k := Complete(ps, n);
            var o := Drain(h, all[..n]);
            && o.ok && o.events == Events(ps[..k]) && all[..n] == EncodeAll(ps[..k]) + o.rest
            && (k == |ps| ==> o.rest == [])
            && (k < |ps| ==> Unfinished(ps[k], o.rest))
            && (o.rest == [] ==> k > 0)
  {
    hide Encode, Drain, EncodeAll, Unfinished;
    var n, all := Min(capacity, |EncodeAll(ps)|), EncodeAll(ps);
    StreamDispatch(h, ps, all[..n]);
    FirstIsPart(ps);
    NothingIsNothing();
    assert ps[..0] == [];
    assert all[..n] != [];
  }

  lemma NothingIsNothing()
    ensures EncodeAll([]) == []
  {
  }

  /** At least the first packet of a full buffer is complete. */
  lemma FirstCompletes(h: Handlers, ps: seq<Packet>, capacity: nat)
    requires FitStream(h, ps, capacity) && ps != [] && |EncodeAll(ps)| >= capacity
    ensures Complete(ps, capacity) > 0
  {
    hide Encode, EncodeAll;
    assert |Encode(ps[0])| <= capacity && !ps[0].Heartbeat?;
  }

  /** The whole stream fits with room to spare: one turn delivers it. */
  lemma FillDelivers(h: Handlers, ps: seq<Packet>, capacity: nat, p: Progress)
    requires FitStream(h, ps, capacity) && AtFill(ps, capacity, p) && ps != [] && |EncodeAll(ps)| < capacity
    ensures var q := RunTurn(h, p);
            && q.ok && q.remaining == [] && q.conn.l.unread == [] && q.conn.l.Room() > 0
            && q.events == p.events + Events(ps)
  {
    hide Encode, Drain, EncodeAll, Take, RunTurn, Complete, Unfinished, FlatMap;
    var all := EncodeAll(ps);
    FillTurn(h, ps, capacity, p);
    FillParse(h, ps, capacity);
    CompletesAll(h, ps, capacity);
    assert Min(capacity, |all|) == |all| && all[..|all|] == all && all[|all|..] == [];
    FirstIsPart(ps);
    TakeSome(h, capacity, all);
  }

  lemma CompletesAll(h: Handlers, ps: seq<Packet>, capacity: nat)
    requires FitStream(h, ps, capacity)
    ensures Complete(ps, |EncodeAll(ps)|) == |ps| && ps[..|ps|] == ps
  {
    hide Encode, EncodeAll;
    WholeStream(ps);
  }

  lemma TakeSome(h: Handlers, capacity: nat, b: seq<byte>)
    requires b != [] && |b| <= capacity && Drain(h, b).ok
    ensures var t, o := Take(h, Conn(Layout(capacity, 0, []), []), b), Drain(h, b);
            && t.ok && t.events == o.events && t.conn.last == LastOf(o.events)
            && t.conn.l == Layout(capacity, |b| - |o.rest|, o.rest)
  {
    hide Drain, Compacts;
    assert [] + b == b;
  }

  /** A full buffer that ends with a packet: all its bytes are consumed, and the connection is stuck. */
  lemma FillSticks(h: Handlers, ps: seq<Packet>, capacity: nat, p: Progress)
    requires FitStream(h, ps, capacity) && AtFill(ps, capacity, p) && ps != [] && |EncodeAll(ps)| >= capacity
    requires |EncodeAll(ps[..Complete(ps, capacity)])| == capacity
    ensures var q, k := RunTurn(h, p), Complete(ps, capacity);
            && k > 0 && Stuck(q) && q.conn.l.capacity == capacity && q.remaining == EncodeAll(ps)[capacity..]
            && q.events == p.events + Events(ps[..k]) && q.conn.last == [EventOf(ps[k - 1])]
  {
    hide Encode, Drain, EncodeAll, Take, RunTurn, Complete, Unfinished;
    FillTurn(h, ps, capacity, p);
    FillParse(h, ps, capacity);
    TakeSome(h, capacity, EncodeAll(ps)[..capacity]);
  }

  /** Any other full buffer: two turns make room behind the rest of it, which starts the next fill. */
  lemma FillMovesOn(h: Handlers, ps: seq<Packet>, capacity: nat, p: Progress)
    requires FitStream(h, ps, capacity) && AtFill(ps, capacity, p) && ps != [] && |EncodeAll(ps)| >= capacity
    requires |EncodeAll(ps[..Complete(ps, capacity)])| != capacity
    ensures var q, k := RunTurn(h, RunTurn(h, p)), Complete(ps, capacity);
            k > 0 && AtFill(ps[k..], capacity, q) && q.events == p.events + Events(ps[..k])
  {
    hide Encode, Drain, EncodeAll, Take, RunTurn, Complete, Unfinished, AtFill, FitStream, Events;
    var k := Complete(ps, capacity);
    FillStops(h, ps, capacity, p);
    var q := RunTurn(h, p);
    var rest := q.conn.l.unread;
    FitAt(h, ps, capacity, k);
    EmptyTurn(h, q, ps[k]);
    StreamRest(ps, k, EncodeAll(ps), rest, q.remaining);
    assert ps[k..][0] == ps[k];
    NextFill(ps[k..], capacity, RunTurn(h, q));
  }

  lemma FitAt(h: Handlers, ps: seq<Packet>, capacity: nat, k: nat)
    requires FitStream(h, ps, capacity) && k < |ps|
    ensures ValidPacket(ps[k]) && !ps[k].Heartbeat? && |Encode(ps[k])| <= capacity
  {
  }

  /** The first of the two turns. */
  lemma FillStops(h: Handlers, ps: seq<Packet>, capacity: nat, p: Progress)
    requires FitStream(h, ps, capacity) && AtFill(ps, capacity, p) && ps != [] && |EncodeAll(ps)| >= capacity
    requires |EncodeAll(ps[..Complete(ps, capacity)])| != capacity
    ensures var q, k := RunTurn(h, p), Complete(ps, capacity);
            && 0 < k < |ps| && q.ok && q.events == p.events + Events(ps[..k])
            && q.conn.l.Valid() && q.conn.l.Room() == 0 && q.conn.l.capacity == capacity
            && q.conn.l.unread != [] && Unfinished(ps[k], q.conn.l.unread)
            && Drain(h, q.conn.l.unread) == Outcome([], q.conn.l.unread, true)
            && |q.remaining| <= |EncodeAll(ps)|
            && EncodeAll(ps) == EncodeAll(ps[..k]) + q.conn.l.unread + q.remaining
  {
    hide Encode, Drain, EncodeAll, Take, RunTurn, Complete, Unfinished, AtFill;
    var all := EncodeAll(ps);
    FillTurn(h, ps, capacity, p);
    FillParse(h, ps, capacity);
    FirstCompletes(h, ps, capacity);
    TakeSome(h, capacity, all[..capacity]);
    DrainLeaves(h, all[..capacity]);
    assert all == all[..capacity] + all[capacity..];
  }

  lemma NextFill(ps: seq<Packet>, capacity: nat, p: Progress)
    requires ps != [] && p.ok && p.conn.l == Layout(capacity, 0, p.conn.l.unread)
    requires p.conn.l.unread + p.remaining == EncodeAll(ps) && |p.conn.l.unread| < |Encode(ps[0])|
    ensures AtFill(ps, capacity, p)
  {
  }

  lemma StreamRest(ps: seq<Packet>, k: nat, all: seq<byte>, rest: seq<byte>, remaining: seq<byte>)
    requires k < |ps| && all == EncodeAll(ps) && |remaining| <= |all|
    requires all == EncodeAll(ps[..k]) + rest + remaining
    ensures rest + remaining == EncodeAll(ps[k..])
  {
    hide Encode;
    assert ps == ps[..k] + ps[k..];
    FlatMapConcat(Encode, ps[..k], ps[k..]);
    var x := EncodeAll(ps[..k]);
    assert (x + rest + remaining)[|x|..] == rest + remaining;
    assert (x + EncodeAll(ps[k..]))[|x|..] == EncodeAll(ps[k..]);
  }

  /** With no room and part of a packet unread, a turn reads nothing and moves that part to the front. */
  lemma EmptyTurn(h: Handlers, q: Progress, next: Packet)
    requires q.ok && q.conn.l.Valid() && q.conn.l.Room() == 0 && q.conn.l.unread != []
    requires ValidPacket(next) && !next.Heartbeat? && |Encode(next)| <= q.conn.l.capacity
    requires Unfinished(next, q.conn.l.unread)
    requires Drain(h, q.conn.l.unread) == Outcome([], q.conn.l.unread, true)
    ensures var l := q.conn.l;
            RunTurn(h, q) == q.(conn := Conn(Layout(l.capacity, 0, l.unread), [])) && |l.unread| < |Encode(next)|
  {
    hide Encode, Drain, Decode;
    var l := q.conn.l;
    UnfinishedDecodes(next, l.unread);
    assert Min(l.Room(), |q.remaining|) == 0;
    assert q.remaining[..0] == [] && q.remaining[0..] == q.remaining;
    assert l.unread + [] == l.unread && l.(unread := l.unread) == l;
    assert Compacts(l, l.unread);
    assert q.events + [] == q.events;
  }

  // ---------------------------------------------------------------- the stream

  /** Where the turns lead from the start of a fill. */
  predicate Settles(h: Handlers, ps: seq<Packet>, capacity: nat, p: Progress, q: Progress, j: nat) {
    && q.ok && q.conn.l.unread == [] && j <= |ps| && q.events == p.events + Events(ps[..j])
    && (if FillsExactly(ps, capacity)
        then q.conn.l.Room() == 0 && j > 0 && q.conn.last == [EventOf(ps[j - 1])]
        else q.conn.l.Room() > 0 && j == |ps| && q.remaining == [])
  }

  /** In finitely many turns the stream is delivered or, if a fill ends with a packet, the connection is stuck. */
  lemma {:induction false} StreamSettles(h: Handlers, ps: seq<Packet>, capacity: nat, p: Progress)
    returns (n: nat, j: nat)
    requires FitStream(h, ps, capacity) && AtFill(ps, capacity, p)
    ensures Settles(h, ps, capacity, p, RunTurns(h, p, n), j)
    decreases |ps|
  {
    hide Encode, EncodeAll, RunTurn, Complete;
    if ps == [] {
      NothingIsNothing();
      assert p.events + Events(ps[..0]) == p.events;
      return 0, 0;
    }
    if |EncodeAll(ps)| < capacity {
      FillDelivers(h, ps, capacity, p);
      assert ps[..|ps|] == ps;
      return 1, |ps|;
    }
    var k := Complete(ps, capacity);
    if |EncodeAll(ps[..k])| == capacity {
      FillSticks(h, ps, capacity, p);
      return 1, k;
    }
    FillMovesOn(h, ps, capacity, p);
    var q := RunTurn(h, RunTurn(h, p));
    FitRest(h, ps, capacity, k);
    n, j := StreamSettles(h, ps[k..], capacity, q);
    RunTurnsAdd(h, p, 2, n);
    assert RunTurns(h, p, 2) == q by {
      assert RunTurns(h, p, 2) == RunTurns(h, RunTurn(h, p), 1) == RunTurns(h, q, 0);
    }
    EventsJoin(ps, k, j, p.events);
    return n + 2, k + j;
  }

  lemma FitRest(h: Handlers, ps: seq<Packet>, capacity: nat, k: nat)
    requires FitStream(h, ps, capacity) && k <= |ps|
    ensures FitStream(h, ps[k..], capacity)
  {
    hide Encode, ValidPacket;
  }

  lemma EventsJoin(ps: seq<Packet>, k: nat, j: nat, before: seq<Event>)
    requires k <= |ps| && j <= |ps| - k
    ensures before + Events(ps[..k]) + Events(ps[k..][..j]) == before + Events(ps[..k + j])
    ensures j > 0 ==> ps[k..][j - 1] == ps[k + j - 1]
  {
    assert Events(ps[..k]) + Events(ps[k..][..j]) == Events(ps[..k + j]);
    Regroup(before, Events(ps[..k]), Events(ps[k..][..j]));
  }

  lemma {:induction false} DeliveredStays(h: Handlers, p: Progress, ps: seq<Packet>, n: nat)
    requires Delivered(p, ps)
    ensures RunTurns(h, p, n) == p
    decreases n
  {
    if n > 0 {
      DeliveredStays(h, p, ps, n - 1);
    }
  }

  function Copies(events: seq<Event>, n: nat): seq<Event> {
    if n == 0 then [] else events + Copies(events, n - 1)
  }

  /** A stuck connection dispatches its last message once more in every turn, and nothing else ever happens. */
  lemma {:induction false} StuckForever(h: Handlers, p: Progress, n: nat)
    requires Stuck(p) && (Again(p.conn.last) == [] || h(Again(p.conn.last)[0]))
    ensures RunTurns(h, p, n) == p.(events := p.events + Copies(Again(p.conn.last), n))
    decreases n
  {
    if n == 0 {
      assert p.events + [] == p.events;
    } else {
      var again := Again(p.conn.last);
      var q := p.(events := p.events + again);
      assert RunTurn(h, p) == q by {
        assert p.remaining[..0] == [] && p.remaining[0..] == p.remaining;
        assert p.conn.l.unread + [] == [];
      }
      StuckForever(h, q, n - 1);
      Regroup(p.events, again, Copies(again, n - 1));
    }
  }

  /**
   Delivery under the v1 loop, exactly: a stream without heartbeats, of packets no longer than the buffer, is
   dispatched completely, each packet once, in finitely many turns, if and only if no full buffer on the way
   ends with the end of a packet.
   */
  lemma DeliveredExactly(h: Handlers, ps: seq<Packet>, capacity: nat)
    requires FitStream(h, ps, capacity)
    ensures (exists n: nat :: Delivered(RunTurns(h, Fresh(ps, capacity), n), ps)) <==> !FillsExactly(ps, capacity)
  {
    hide Encode, EncodeAll, RunTurns, FillsExactly;
    var p := Fresh(ps, capacity);
    FreshFills(ps, capacity);
    var n, j := StreamSettles(h, ps, capacity, p);
    var q := RunTurns(h, p, n);
    assert [] + Events(ps[..j]) == Events(ps[..j]);
    if !FillsExactly(ps, capacity) {
      assert ps[..j] == ps;
      assert Delivered(q, ps);
    } else if m: nat :| Delivered(RunTurns(h, p, m), ps) {
      DeliveredStays(h, RunTurns(h, p, m), ps, n);
      RunTurnsAdd(h, p, m, n);
      LastAccepted(h, ps, j);
      StuckForever(h, q, m);
      RunTurnsAdd(h, p, n, m);
      assert false;
    }
  }

  lemma FreshFills(ps: seq<Packet>, capacity: nat)
    ensures AtFill(ps, capacity, Fresh(ps, capacity))
  {
    assert [] + EncodeAll(ps) == EncodeAll(ps);
  }

  lemma LastAccepted(h: Handlers, ps: seq<Packet>, j: nat)
    requires AllAccepted(h, ps) && 0 < j <= |ps|
    ensures var again := Again([EventOf(ps[j - 1])]); again == [] || h(again[0])
  {
  }

  /**
   What happens otherwise: after the packets of that full buffer nothing more is received, and if the last of
   them was a message, every further turn dispatches it again.
   */
  lemma RepeatsForever(h: Handlers, ps: seq<Packet>, capacity: nat)
    requires FitStream(h, ps, capacity) && FillsExactly(ps, capacity)
    ensures exists n: nat, j: nat :: RepeatsFrom(h, ps, capacity, n, j)
  {
    hide Encode, EncodeAll, RunTurns, FillsExactly, Copies;
    var p := Fresh(ps, capacity);
    FreshFills(ps, capacity);
    var n, j := StreamSettles(h, ps, capacity, p);
    assert [] + Events(ps[..j]) == Events(ps[..j]);
    forall m: nat ensures RepeatsAt(h, ps, capacity, n, j, m) {
      LastAccepted(h, ps, j);
      StuckForever(h, RunTurns(h, p, n), m);
      RunTurnsAdd(h, p, n, m);
    }
    assert RepeatsFrom(h, ps, capacity, n, j);
  }

  /** `m` turns after turn `n`: packet `j - 1`, if it carries a message, has been dispatched `m` times too often. */
  predicate RepeatsAt(h: Handlers, ps: seq<Packet>, capacity: nat, n: nat, j: nat, m: nat)
    requires 0 < j <= |ps|
  {
    var q := RunTurns(h, Fresh(ps, capacity), n + m);
    && Stuck(q) && q.remaining == RunTurns(h, Fresh(ps, capacity), n).remaining
    && q.events == Events(ps[..j]) + Copies(Again([EventOf(ps[j - 1])]), m)
  }

  ghost predicate RepeatsFrom(h: Handlers, ps: seq<Packet>, capacity: nat, n: nat, j: nat) {
    0 < j <= |ps| && forall m: nat :: RepeatsAt(h, ps, capacity, n, j, m)
  }

  /** The smallest case: one packet as long as the buffer. */
  lemma OnePacketFills(msgId: int, payload: seq<byte>)
    requires |payload| + 2 < U16
    ensures FillsExactly([UserData(msgId, payload)], 5 + |payload|)
  {
    hide EncodeAll;
    var ps := [UserData(msgId, payload)];
    assert |Encode(ps[0])| == 5 + |payload|;
    WholeStream(ps);
    assert EncodeAll(ps) == Encode(ps[0]) by {
      OnePacket(ps[0]);
    }
    assert ps[..1] == ps;
  }

  lemma OnePacket(p: Packet)
    ensures EncodeAll([p]) == Encode(p)
  {
    hide Encode;
    FlatMapOne(Encode, p);
  }
}
