/**
 The v1 loop of connections that share one handler, and with it one unpack record. Each has a read posted for a
 fixed place in its buffer; the main loop parses every connection in every tick besides. A parse that finds
 nothing unread judges by the record, whichever connection left it.
 */
module SharedLoop {
  import opened Bytes
  import opened Sequences
  import opened SessionBuffers
  import opened NetProto
  import opened DataHandler
  import opened DataStream

  /** A connection: its block and offsets, and where and for how many bytes its read is posted. */
  datatype Conn = Conn(
    block: seq<byte>,
    read: nat,
    write: nat,
    postedAt: nat,
    postedLen: nat,
    received: seq<byte>   // history: every byte that arrived
  )

  /** What the unpack record says: another packet, user data cut short, or a message and where its payload lies. */
  datatype Rec =
    | Other
    | HeadWanted
    | BodyWanted(total: nat)
    | Held(conn: nat, userId: int, msgId: int, at: nat, len: nat)

  /** A dispatched event, the connection it is attributed to, and whether it is a repetition. */
  datatype Entry = Entry(conn: nat, event: Event, again: bool)

  datatype World = World(conns: seq<Conn>, rec: Rec, log: seq<Entry>, failed: bool)

  datatype Step =
    | Arrive(i: nat, data: seq<byte>)   // the posted read completes, with nothing if there was no room
    | Tick(i: nat)                      // the main loop parses what is there

  // ---------------------------------------------------------------- one connection

  predicate ConnOk(c: Conn) {
    c.read <= c.write <= |c.block| && c.postedAt + c.postedLen <= |c.block|
  }

  function Unread(c: Conn): seq<byte>
    requires ConnOk(c)
  {
    c.block[c.read..c.write]
  }

  function LayoutOf(c: Conn): (l: Layout)
    requires ConnOk(c)
    ensures l.Valid() && l.unread == Unread(c) && l.Room() == |c.block| - c.write
  {
    Layout(|c.block|, c.read, Unread(c))
  }

  /** The bytes land where the read was posted for; the write offset advances if there is room behind it. */
  function Put(c: Conn, data: seq<byte>): (p: Conn)
    requires ConnOk(c) && |data| <= c.postedLen
    ensures ConnOk(p) && |p.block| == |c.block|
  {
    var block := c.block[..c.postedAt] + data + c.block[c.postedAt + |data|..];
    c.(block := block, received := c.received + data,
       write := if |c.block| - c.write >= |data| then c.write + |data| else c.write)
  }

  function Posted(c: Conn): (p: Conn)
    requires ConnOk(c)
    ensures ConnOk(p)
  {
    c.(postedAt := c.write, postedLen := |c.block| - c.write)
  }

  /** After a parse that stops at `rest`: compacted first if need be, then released. */
  function Released(c: Conn, rest: seq<byte>): (r: Conn)
    requires ConnOk(c) && |rest| <= |Unread(c)|
    ensures ConnOk(r) && |r.block| == |c.block|
  {
    var u := Unread(c);
    if Compacts(LayoutOf(c), rest) then c.(block := u + c.block[|u|..], read := |u| - |rest|, write := |u|)
    else c.(read := c.write - |rest|)
  }

  /** The record makes a parse of no bytes compact, which is to start over at the front. */
  predicate Wants(rec: Rec, room: int) {
    rec.HeadWanted? || (rec.BodyWanted? && room < rec.total)
  }

  function Emptied(c: Conn, rec: Rec): (r: Conn)
    requires ConnOk(c)
    ensures ConnOk(r)
  {
    if Wants(rec, |c.block| - c.write) then c.(read := 0, write := 0) else c
  }

  /** The record after a parse of connection `i` whose unread bytes ended at `write`. */
  function RecAfter(i: nat, write: nat, o: Outcome): Rec {
    if o.rest != [] then
      match Decode(o.rest)
      case HeadShort => HeadWanted
      case BodyShort(total) => BodyWanted(total)
      case _ => Other
    else if o.events != [] && o.events[|o.events| - 1].OnMessage? then
      var m := o.events[|o.events| - 1];
      Held(i, m.userId, m.msgId, if |m.payload| <= write then write - |m.payload| else 0, |m.payload|)
    else Other
  }

  // ---------------------------------------------------------------- all of them

  predicate RecOk(w: World) {
    w.rec.Held? ==> w.rec.conn < |w.conns| && w.rec.at + w.rec.len <= |w.conns[w.rec.conn].block|
  }

  predicate WorldOk(w: World) {
    (forall i :: 0 <= i < |w.conns| ==> ConnOk(w.conns[i])) && RecOk(w)
  }

  function Message(w: World): Event
    requires RecOk(w) && w.rec.Held?
  {
    var r := w.rec;
    OnMessage(r.userId, r.msgId, w.conns[r.conn].block[r.at..r.at + r.len])
  }

  function Entries(i: nat, events: seq<Event>): seq<Entry> {
    seq(|events|, k requires 0 <= k < |events| => Entry(i, events[k], false))
  }

  /** One `processData` on connection `i`. Up to the first failure: what happens after it is not modelled. */
  function Parse(h: Handlers, w: World, i: nat): World
    requires WorldOk(w) && i < |w.conns|
  {
    var c := w.conns[i];
    if Unread(c) == [] then
      var w1 := w.(conns := w.conns[i := Emptied(c, w.rec)]);
      if w.rec.Held? then w1.(log := w.log + [Entry(w.rec.conn, Message(w), true)], failed := !h(Message(w)))
      else w1
    else
      var o := Drain(h, Unread(c));
      var w1 := w.(log := w.log + Entries(i, o.events), failed := !o.ok);
      if o.ok then w1.(conns := w.conns[i := Released(c, o.rest)], rec := RecAfter(i, c.write, o)) else w1
  }

  predicate Enabled(w: World, s: Step) {
    && !w.failed && s.i < |w.conns| && WorldOk(w)
    && (s.Arrive? ==> |s.data| <= w.conns[s.i].postedLen && (s.data == [] <==> w.conns[s.i].postedLen == 0))
  }

  function Arrived(w: World, i: nat, data: seq<byte>): World
    requires WorldOk(w) && i < |w.conns| && |data| <= w.conns[i].postedLen
  {
    w.(conns := w.conns[i := Put(w.conns[i], data)])
  }

  function Repost(w: World, i: nat): World {
    if i < |w.conns| && ConnOk(w.conns[i]) then w.(conns := w.conns[i := Posted(w.conns[i])]) else w
  }

  function Happen(h: Handlers, w: World, s: Step): World {
    if !Enabled(w, s) then w
    else match s
      case Tick(i) => Parse(h, w, i)
      case Arrive(i, data) =>
        var w1 := Parse(h, Arrived(w, i, data), i);
        if w1.failed then w1 else Repost(w1, i)
  }

  function RunAll(h: Handlers, w: World, steps: seq<Step>): World
    decreases |steps|
  {
    if steps == [] then w else RunAll(h, Happen(h, w, steps[0]), steps[1..])
  }

  lemma {:induction false} RunConcat(h: Handlers, w: World, steps: seq<Step>, more: seq<Step>)
    ensures RunAll(h, w, steps + more) == RunAll(h, RunAll(h, w, steps), more)
    decreases |steps|
  {
    hide Happen;
    if steps == [] {
      assert steps + more == more;
    } else {
      assert (steps + more)[0] == steps[0] && (steps + more)[1..] == steps[1..] + more;
      RunConcat(h, Happen(h, w, steps[0]), steps[1..], more);
    }
  }

  lemma RunOneMore(h: Handlers, w: World, steps: seq<Step>, s: Step)
    ensures RunAll(h, w, steps + [s]) == Happen(h, RunAll(h, w, steps), s)
  {
    hide Happen;
    RunConcat(h, w, steps, [s]);
    assert [s][1..] == [];
    assert RunAll(h, RunAll(h, w, steps), [s]) == RunAll(h, Happen(h, RunAll(h, w, steps), s), []);
  }

  /** After a failure nothing happens. */
  lemma {:induction false} FailedIsOver(h: Handlers, w: World, steps: seq<Step>)
    requires w.failed
    ensures RunAll(h, w, steps) == w
    decreases |steps|
  {
    if steps != [] {
      FailedIsOver(h, w, steps[1..]);
    }
  }

  lemma RunStops(h: Handlers, w: World, steps: seq<Step>, n: nat)
    requires n <= |steps| && RunAll(h, w, steps[..n]).failed
    ensures RunAll(h, w, steps) == RunAll(h, w, steps[..n])
  {
    hide RunAll;
    RunConcat(h, w, steps[..n], steps[n..]);
    assert steps == steps[..n] + steps[n..];
    FailedIsOver(h, RunAll(h, w, steps[..n]), steps[n..]);
  }

  /** A new connection whose buffer is this block, with a read posted for all of it. */
  function NewConn(block: seq<byte>): Conn {
    Conn(block, 0, 0, 0, |block|, [])
  }

  /** New connections on a new handler. */
  function Fresh(blocks: seq<seq<byte>>): World {
    World(seq(|blocks|, i requires 0 <= i < |blocks| => NewConn(blocks[i])), Other, [], false)
  }

  // ---------------------------------------------------------------- the log

  /** The events attributed to a connection, repetitions left out. */
  function Originals(log: seq<Entry>, i: nat): seq<Event> {
    if log == [] then []
    else
      var e := log[|log| - 1];
      Originals(log[..|log| - 1], i) + if e.conn == i && !e.again then [e.event] else []
  }

  /** Every repetition stands right behind what it repeats. */
  predicate RepeatsFollow(log: seq<Entry>) {
    forall k :: 0 <= k < |log| && log[k].again ==>
      k > 0 && log[k].conn == log[k - 1].conn && log[k].event == log[k - 1].event && log[k].event.OnMessage?
  }

  function Repeats(log: seq<Entry>): nat {
    if log == [] then 0 else Repeats(log[..|log| - 1]) + if log[|log| - 1].again then 1 else 0
  }

  lemma OneMoreEntry(log: seq<Entry>, e: Entry, i: nat)
    ensures Originals(log + [e], i) == Originals(log, i) + if e.conn == i && !e.again then [e.event] else []
    ensures Repeats(log + [e]) == Repeats(log) + if e.again then 1 else 0
  {
    assert (log + [e])[..|log + [e]| - 1] == log;
  }

  lemma EntriesSnoc(log: seq<Entry>, i: nat, events: seq<Event>, event: Event)
    ensures log + Entries(i, events + [event]) == (log + Entries(i, events)) + [Entry(i, event, false)]
  {
    assert Entries(i, events + [event]) == Entries(i, events) + [Entry(i, event, false)];
  }

  lemma {:induction false} MoreEntries(log: seq<Entry>, i: nat, events: seq<Event>, j: nat)
    ensures Originals(log + Entries(i, events), j) == Originals(log, j) + if i == j then events else []
    ensures Repeats(log + Entries(i, events)) == Repeats(log)
    decreases |events|
  {
    hide Entries, Originals, Repeats;
    if events == [] {
      assert log + Entries(i, []) == log by {
        NoEntries(i);
      }
    } else {
      var before, event := events[..|events| - 1], events[|events| - 1];
      assert events == before + [event];
      MoreEntries(log, i, before, j);
      EntriesSnoc(log, i, before, event);
      OneMoreEntry(log + Entries(i, before), Entry(i, event, false), j);
      Regroup(Originals(log, j), before, [event]);
    }
  }

  lemma NoEntries(i: nat)
    ensures Entries(i, []) == []
  {
  }

  // ---------------------------------------------------------------- invariant

  /** The posted read, if it asks for anything, is for the bytes behind the unread ones. */
  predicate PostedBehind(c: Conn) {
    c.postedLen > 0 ==> c.postedAt == c.write && c.postedLen == |c.block| - c.write
  }

  /** What arrived on a connection has been dispatched as one parse of it all would, and the rest is unread. */
  predicate InStep(h: Handlers, w: World, i: nat)
    requires i < |w.conns| && ConnOk(w.conns[i])
  {
    Drain(h, w.conns[i].received) == Outcome(Originals(w.log, i), Unread(w.conns[i]), true)
  }

  /** A message the record holds is the last event, and its payload lies where nothing is written. */
  predicate HeldLast(w: World)
    requires RecOk(w)
  {
    w.rec.Held? ==>
      && w.rec.at + w.rec.len <= w.conns[w.rec.conn].read
      && w.log != [] && w.log[|w.log| - 1].conn == w.rec.conn && w.log[|w.log| - 1].event == Message(w)
  }

  predicate Inv(h: Handlers, w: World) {
    && WorldOk(w) && HeldLast(w) && RepeatsFollow(w.log)
    && (w.rec.BodyWanted? ==> w.rec.total > 0)
    && (forall i :: 0 <= i < |w.conns| ==> PostedBehind(w.conns[i]) && InStep(h, w, i))
  }

  /** The parse of a tick does not move data a posted read is to be put behind. */
  predicate Steady(h: Handlers, w: World, s: Step) {
    s.Tick? && Enabled(w, s) ==>
      w.conns[s.i].postedLen == 0 || Parse(h, w, s.i).conns[s.i].write == w.conns[s.i].write
  }

  predicate SteadyRun(h: Handlers, w: World, steps: seq<Step>)
    decreases |steps|
  {
    steps == [] || (Steady(h, w, steps[0]) && SteadyRun(h, Happen(h, w, steps[0]), steps[1..]))
  }

  lemma FreshInv(h: Handlers, blocks: seq<seq<byte>>)
    ensures Inv(h, Fresh(blocks))
  {
    hide Drain, InStep, PostedBehind;
    forall i | 0 <= i < |blocks|
      ensures ConnOk(Fresh(blocks).conns[i]) && PostedBehind(Fresh(blocks).conns[i]) && InStep(h, Fresh(blocks), i)
    {
      FreshConn(h, blocks, i);
    }
  }

  lemma FreshConn(h: Handlers, blocks: seq<seq<byte>>, i: nat)
    requires i < |blocks|
    ensures ConnOk(Fresh(blocks).conns[i]) && PostedBehind(Fresh(blocks).conns[i]) && InStep(h, Fresh(blocks), i)
  {
    hide Drain, ConnOk, PostedBehind, Unread;
    DrainNothing(h);
    NewConnOk(blocks[i]);
  }

  lemma NewConnOk(block: seq<byte>)
    ensures ConnOk(NewConn(block)) && PostedBehind(NewConn(block)) && Unread(NewConn(block)) == []
  {
    assert block[0..0] == [];
  }

  /** In its place behind the unread bytes, data extends them. */
  lemma PutExtends(c: Conn, data: seq<byte>)
    requires ConnOk(c) && PostedBehind(c) && |data| <= c.postedLen
    ensures Unread(Put(c, data)) == Unread(c) + data && Put(c, data).read == c.read
    ensures Put(c, data).block[..c.read] == c.block[..c.read] && Put(c, data).received == c.received + data
  {
    if c.postedLen == 0 {
      assert data == [] && Put(c, data).block == c.block;
    }
  }

  lemma ReleasedRest(h: Handlers, c: Conn)
    requires ConnOk(c) && Drain(h, Unread(c)).ok
    ensures Unread(Released(c, Drain(h, Unread(c)).rest)) == Drain(h, Unread(c)).rest
    ensures var rest := Drain(h, Unread(c)).rest;
            rest == [] ==> Released(c, rest).block == c.block && Released(c, rest).read == c.write
  {
    hide Decode, Drain;
    var u, rest := Unread(c), Drain(h, Unread(c)).rest;
    assert rest == u[|u| - |rest|..];
    if Compacts(LayoutOf(c), rest) {
      assert (u + c.block[|u|..])[|u| - |rest|..|u|] == rest;
    }
    if rest == [] {
      NothingToCompact(LayoutOf(c));
    }
  }

  /** The last event, if it is a message, has a payload the bytes end with. */
  predicate EndsWith(b: seq<byte>, events: seq<Event>) {
    events != [] &&
    (var last := events[|events| - 1];
     last.OnMessage? ==> |last.payload| <= |b| && b[|b| - |last.payload|..] == last.payload)
  }

  /** A parse that consumes everything ends with a packet, and a message ends with its payload. */
  lemma {:induction false} LastPayload(h: Handlers, b: seq<byte>)
    requires b != [] && Drain(h, b).ok && Drain(h, b).rest == []
    ensures EndsWith(b, Drain(h, b).events)
    decreases |b|
  {
    hide Drain, Decode, EndsWith;
    DrainCases(h, b);
    var u := Decode(b);
    var n := u.length;
    if b[n..] == [] {
      DrainsOne(h, b, u.event, n);
      PayloadEnds(b);
    } else {
      LastPayload(h, b[n..]);
      EndsWithMore(b, n, u.event, Drain(h, b[n..]).events);
    }
  }

  lemma EndsWithMore(b: seq<byte>, n: nat, event: Event, later: seq<Event>)
    requires n <= |b| && EndsWith(b[n..], later)
    ensures EndsWith(b, [event] + later)
  {
    var last := later[|later| - 1];
    assert ([event] + later)[|later|] == last;
    if last.OnMessage? {
      SuffixOfSuffix(b, n, |last.payload|);
    }
  }

  lemma DrainsOne(h: Handlers, b: seq<byte>, event: Event, n: nat)
    requires n <= |b| && b[n..] == [] && Drain(h, b) == Prepend([event], Drain(h, b[n..]))
    ensures Drain(h, b).events == [event]
  {
    hide Drain;
    DrainNothing(h);
  }

  lemma SuffixOfSuffix(b: seq<byte>, n: nat, k: nat)
    requires n + k <= |b|
    ensures b[n..][|b| - n - k..] == b[|b| - k..]
  {
  }

  lemma PayloadEnds(b: seq<byte>)
    requires Decode(b).Got? && b[Decode(b).length..] == []
    ensures EndsWith(b, [Decode(b).event])
  {
  }

  lemma WantedTotal(b: seq<byte>)
    ensures Decode(b).BodyShort? ==> Decode(b).total > 0
  {
  }

  // ---------------------------------------------------------------- a parse keeps it

  /** The parts of the invariant that a parse of connection `i` starts from. */
  predicate Ready(h: Handlers, w: World, i: nat) {
    && !w.failed && WorldOk(w) && i < |w.conns| && HeldLast(w) && RepeatsFollow(w.log)
    && (w.rec.BodyWanted? ==> w.rec.total > 0)
    && (forall j :: 0 <= j < |w.conns| && j != i ==> PostedBehind(w.conns[j]) && InStep(h, w, j))
  }

  /** And those it ends with: all but what the posted read of `i` is for. */
  predicate Parsed(h: Handlers, w: World) {
    && WorldOk(w) && HeldLast(w) && RepeatsFollow(w.log)
    && (w.rec.BodyWanted? ==> w.rec.total > 0)
    && (forall j :: 0 <= j < |w.conns| ==> InStep(h, w, j))
  }

  lemma ParseNothing(h: Handlers, w: World, i: nat)
    requires Ready(h, w, i) && InStep(h, w, i) && Unread(w.conns[i]) == []
    ensures Parsed(h, Parse(h, w, i))
    ensures Repeats(Parse(h, w, i).log) == Repeats(w.log) + if w.rec.Held? then 1 else 0
  {
    hide Drain, Decode, Originals, PostedBehind;
    var w1 := Parse(h, w, i);
    if w.rec.Held? {
      HeldRepeats(w);
      var e := Entry(w.rec.conn, Message(w), true);
      OneMoreEntry(w.log, e, 0);
      forall j | 0 <= j < |w.conns| ensures InStep(h, w1, j) {
        OneMoreEntry(w.log, e, j);
        assert InStep(h, w, j);
      }
    } else {
      forall j | 0 <= j < |w.conns| ensures InStep(h, w1, j) {
        assert InStep(h, w, j);
      }
    }
  }

  /** A held message is repeated right behind itself. */
  lemma HeldRepeats(w: World)
    requires WorldOk(w) && HeldLast(w) && w.rec.Held? && RepeatsFollow(w.log)
    ensures RepeatsFollow(w.log + [Entry(w.rec.conn, Message(w), true)])
  {
  }

  /** The parse of some bytes, when they are what one parse of everything received would have left and got. */
  lemma ParseBytes(h: Handlers, w: World, i: nat, before: seq<Event>)
    requires Ready(h, w, i) && Unread(w.conns[i]) != [] && before == Originals(w.log, i)
    requires Drain(h, w.conns[i].received) == Prepend(before, Drain(h, Unread(w.conns[i])))
    ensures !Parse(h, w, i).failed ==> Parsed(h, Parse(h, w, i))
    ensures Repeats(Parse(h, w, i).log) == Repeats(w.log)
  {
    hide Drain, Decode, Compacts, Released, Originals, RepeatsFollow, PostedBehind;
    var c, w1 := w.conns[i], Parse(h, w, i);
    var o := Drain(h, Unread(c));
    MoreEntries(w.log, i, o.events, i);
    if o.ok {
      ReleasedRest(h, c);
      ParsedShape(h, w, i);
      RecSettles(h, w, i, o);
      EntriesFollow(w.log, i, o.events);
      forall j | 0 <= j < |w.conns| ensures InStep(h, w1, j) {
        MoreEntries(w.log, i, o.events, j);
        if j != i {
          assert w1.conns[j] == w.conns[j] && InStep(h, w, j);
        }
      }
    }
  }

  lemma EntriesFollow(log: seq<Entry>, i: nat, events: seq<Event>)
    requires RepeatsFollow(log)
    ensures RepeatsFollow(log + Entries(i, events))
  {
  }

  /** The record after a parse of some bytes. */
  lemma RecSettles(h: Handlers, w: World, i: nat, o: Outcome)
    requires Ready(h, w, i) && Unread(w.conns[i]) != [] && o == Drain(h, Unread(w.conns[i])) && o.ok
    ensures WorldOk(Parse(h, w, i)) && HeldLast(Parse(h, w, i))
    ensures Parse(h, w, i).rec.BodyWanted? ==> Parse(h, w, i).rec.total > 0
  {
    hide Drain, Decode, Compacts, Released, RepeatsFollow, PostedBehind, InStep;
    if o.rest == [] {
      LastPayload(h, Unread(w.conns[i]));
      HeldAfter(h, w, i, o);
    } else {
      WantedTotal(o.rest);
    }
  }

  /** The record that a parse of everything leaves holds the message just dispatched, if it was one. */
  lemma HeldAfter(h: Handlers, w: World, i: nat, o: Outcome)
    requires Ready(h, w, i) && Unread(w.conns[i]) != [] && o == Drain(h, Unread(w.conns[i])) && o.ok && o.rest == []
    requires EndsWith(Unread(w.conns[i]), o.events)
    ensures RecOk(Parse(h, w, i)) && HeldLast(Parse(h, w, i))
  {
    hide Drain, Decode, Compacts;
    var c, w1 := w.conns[i], Parse(h, w, i);
    ReleasedRest(h, c);
    assert w1.conns[i] == Released(c, []);
    var last := o.events[|o.events| - 1];
    assert w1.log[|w1.log| - 1] == Entry(i, last, false);
    if last.OnMessage? {
      var p, u := last.payload, Unread(c);
      assert c.block[c.write - |p|..c.write] == u[|u| - |p|..];
    }
  }

  // ---------------------------------------------------------------- a step keeps it

  lemma ArriveKeeps(h: Handlers, w: World, i: nat, data: seq<byte>)
    requires Inv(h, w) && Enabled(w, Arrive(i, data))
    ensures var w1 := Happen(h, w, Arrive(i, data)); !w1.failed ==> Inv(h, w1)
    ensures Repeats(Happen(h, w, Arrive(i, data)).log) == Repeats(w.log) + if Copies(w, Arrive(i, data)) then 1 else 0
  {
    hide Drain, Decode, Parse, Put;
    var c, w0 := w.conns[i], Arrived(w, i, data);
    PutExtends(c, data);
    ArrivedReady(h, w, i, data);
    assert InStep(h, w, i);
    DrainAppend(h, c.received, data);
    var w1 := Parse(h, w0, i);
    ParsedShape(h, w0, i);
    if Unread(c) + data == [] {
      assert data == [] && c.received + data == c.received;
      ParseNothing(h, w0, i);
    } else {
      ParseBytes(h, w0, i, Originals(w.log, i));
    }
    if !w1.failed {
      RepostKeeps(h, w0, w1, i);
    }
  }

  /** A step whose parse finds nothing unread and a message in the record. */
  predicate Copies(w: World, s: Step) {
    Enabled(w, s) && w.rec.Held? && Unread(w.conns[s.i]) == [] && (s.Arrive? ==> s.data == [])
  }

  lemma SameSlice(s: seq<byte>, t: seq<byte>, n: nat, a: nat, b: nat)
    requires a <= b <= n <= |s| && n <= |t| && s[..n] == t[..n]
    ensures s[a..b] == t[a..b]
  {
    assert s[a..b] == s[..n][a..b] && t[a..b] == t[..n][a..b];
  }

  lemma ArrivedReady(h: Handlers, w: World, i: nat, data: seq<byte>)
    requires Inv(h, w) && Enabled(w, Arrive(i, data))
    ensures Ready(h, Arrived(w, i, data), i) && Arrived(w, i, data).log == w.log && Arrived(w, i, data).rec == w.rec
  {
    hide Drain, Put;
    var c, w0 := w.conns[i], Arrived(w, i, data);
    PutExtends(c, data);
    if w.rec.Held? && w.rec.conn == i {
      var r := w.rec;
      SameSlice(c.block, w0.conns[i].block, c.read, r.at, r.at + r.len);
    }
    forall j | 0 <= j < |w.conns| && j != i ensures PostedBehind(w0.conns[j]) && InStep(h, w0, j) {
      assert InStep(h, w, j);
    }
  }

  /** A parse touches no other connection, and of its own neither the posted read nor what arrived. */
  lemma ParsedShape(h: Handlers, w: World, i: nat)
    requires WorldOk(w) && i < |w.conns|
    ensures var w1 := Parse(h, w, i);
            && |w1.conns| == |w.conns|
            && (forall j :: 0 <= j < |w.conns| && j != i ==> w1.conns[j] == w.conns[j])
            && w1.conns[i].received == w.conns[i].received && ConnOk(w1.conns[i])
            && w1.conns[i].postedAt == w.conns[i].postedAt && w1.conns[i].postedLen == w.conns[i].postedLen
            && |w1.conns[i].block| == |w.conns[i].block|
  {
    hide Drain, Decode, Compacts;
  }

  lemma RepostKeeps(h: Handlers, w0: World, w: World, i: nat)
    requires Ready(h, w0, i) && Parsed(h, w) && |w.conns| == |w0.conns|
    requires forall j :: 0 <= j < |w.conns| && j != i ==> w.conns[j] == w0.conns[j]
    ensures Inv(h, Repost(w, i))
  {
    hide Drain;
    var w1 := Repost(w, i);
    forall j | 0 <= j < |w1.conns| ensures PostedBehind(w1.conns[j]) && InStep(h, w1, j) {
      assert InStep(h, w, j);
    }
  }

  lemma TickKeeps(h: Handlers, w: World, i: nat)
    requires Inv(h, w) && Enabled(w, Tick(i)) && Steady(h, w, Tick(i))
    ensures var w1 := Happen(h, w, Tick(i)); !w1.failed ==> Inv(h, w1)
    ensures Repeats(Happen(h, w, Tick(i)).log) == Repeats(w.log) + if Copies(w, Tick(i)) then 1 else 0
  {
    hide Drain, Decode, Parse, Originals, HeldLast, RepeatsFollow, Repeats, Inv, Ready, Parsed, Unread, Steady;
    InvReady(h, w, i);
    var c, w1 := w.conns[i], Parse(h, w, i);
    ParsedShape(h, w, i);
    if Unread(c) == [] {
      ParseNothing(h, w, i);
    } else {
      LeftAlone(h, c.received, Originals(w.log, i), Unread(c));
      ParseBytes(h, w, i, Originals(w.log, i));
    }
    if !w1.failed {
      ParsedInv(h, w, i);
    }
  }

  lemma InvReady(h: Handlers, w: World, i: nat)
    requires Inv(h, w) && !w.failed && i < |w.conns|
    ensures WorldOk(w) && Ready(h, w, i) && InStep(h, w, i)
  {
    hide Drain, HeldLast, RepeatsFollow, Originals;
    assert InStep(h, w, i);
  }

  /** A parse that keeps the write offset keeps the posted read in its place. */
  lemma ParsedInv(h: Handlers, w: World, i: nat)
    requires Inv(h, w) && Enabled(w, Tick(i)) && Steady(h, w, Tick(i)) && Parsed(h, Parse(h, w, i))
    ensures Inv(h, Parse(h, w, i))
  {
    hide Drain, Parse, HeldLast, RepeatsFollow, InStep;
    ParsedShape(h, w, i);
    var w1 := Parse(h, w, i);
    forall j | 0 <= j < |w1.conns| ensures PostedBehind(w1.conns[j]) {
      assert PostedBehind(w.conns[j]);
    }
  }

  /** What a parse left is left again. */
  lemma LeftAlone(h: Handlers, received: seq<byte>, events: seq<Event>, rest: seq<byte>)
    requires Drain(h, received) == Outcome(events, rest, true)
    ensures Drain(h, received) == Prepend(events, Drain(h, rest))
  {
    hide Drain;
    DrainLeaves(h, received);
    assert events + [] == events;
  }

  /** How many parses of a run find nothing unread and a message in the record. */
  function EmptyParses(h: Handlers, w: World, steps: seq<Step>): nat
    decreases |steps|
  {
    if steps == [] then 0
    else (if Copies(w, steps[0]) then 1 else 0) + EmptyParses(h, Happen(h, w, steps[0]), steps[1..])
  }

  lemma {:induction false} RunKeeps(h: Handlers, w: World, steps: seq<Step>)
    requires Inv(h, w) && SteadyRun(h, w, steps)
    ensures var w1 := RunAll(h, w, steps);
            !w1.failed ==> Inv(h, w1) && Repeats(w1.log) == Repeats(w.log) + EmptyParses(h, w, steps)
    decreases |steps|
  {
    hide Inv, Happen, Steady, Copies;
    if steps != [] {
      var s, w1 := steps[0], Happen(h, w, steps[0]);
      StepKeeps(h, w, s);
      if w1.failed {
        FailedIsOver(h, w1, steps[1..]);
      } else {
        RunKeeps(h, w1, steps[1..]);
      }
    }
  }

  lemma StepKeeps(h: Handlers, w: World, s: Step)
    requires Inv(h, w) && Steady(h, w, s)
    ensures var w1 := Happen(h, w, s);
            !w1.failed ==> Inv(h, w1) && Repeats(w1.log) == Repeats(w.log) + if Copies(w, s) then 1 else 0
  {
    hide Inv, Happen, Steady;
    if Enabled(w, s) {
      match s
      case Arrive(i, data) => ArriveKeeps(h, w, i, data);
      case Tick(i) => TickKeeps(h, w, i);
    } else {
      NotEnabled(h, w, s);
    }
  }

  lemma NotEnabled(h: Handlers, w: World, s: Step)
    requires !Enabled(w, s)
    ensures Happen(h, w, s) == w
  {
  }

  // ---------------------------------------------------------------- what is dispatched

  /**
   Every steady interleaving of reads and ticks over any number of connections, up to the first failure: each
   connection gets exactly the events of one parse of all its bytes, in order; the only other entries repeat
   the message right before them, one for each parse that finds nothing unread while the record holds a message.
   */
  lemma SharedDispatch(h: Handlers, blocks: seq<seq<byte>>, steps: seq<Step>)
    requires SteadyRun(h, Fresh(blocks), steps) && !RunAll(h, Fresh(blocks), steps).failed
    ensures var w := RunAll(h, Fresh(blocks), steps);
            && RepeatsFollow(w.log) && Repeats(w.log) == EmptyParses(h, Fresh(blocks), steps)
            && forall i :: 0 <= i < |w.conns| ==>
                 ConnOk(w.conns[i])
                 && Drain(h, w.conns[i].received) == Outcome(Originals(w.log, i), Unread(w.conns[i]), true)
  {
    hide RunAll, SteadyRun, EmptyParses, Drain;
    FreshInv(h, blocks);
    RunKeeps(h, Fresh(blocks), steps);
    var w := RunAll(h, Fresh(blocks), steps);
    forall i | 0 <= i < |w.conns|
      ensures ConnOk(w.conns[i])
      ensures Drain(h, w.conns[i].received) == Outcome(Originals(w.log, i), Unread(w.conns[i]), true)
    {
      assert InStep(h, w, i);
    }
  }

  /** No packet is dispatched twice exactly if no parse ever finds nothing unread and a message in the record. */
  lemma OnceExactly(h: Handlers, blocks: seq<seq<byte>>, steps: seq<Step>)
    requires SteadyRun(h, Fresh(blocks), steps) && !RunAll(h, Fresh(blocks), steps).failed
    ensures var log := RunAll(h, Fresh(blocks), steps).log;
            (forall k :: 0 <= k < |log| ==> !log[k].again) <==> EmptyParses(h, Fresh(blocks), steps) == 0
  {
    hide RunAll, SteadyRun, EmptyParses;
    SharedDispatch(h, blocks, steps);
    NoRepeats(RunAll(h, Fresh(blocks), steps).log);
  }

  lemma {:induction false} NoRepeats(log: seq<Entry>)
    ensures (forall k :: 0 <= k < |log| ==> !log[k].again) <==> Repeats(log) == 0
    decreases |log|
  {
    if log != [] {
      NoRepeats(log[..|log| - 1]);
      assert forall k :: 0 <= k < |log| - 1 ==> log[..|log| - 1][k] == log[k];
    }
  }

  /** On a stream of packets that means: the first packets of the stream, in order, each once. */
  lemma SharedStreams(h: Handlers, blocks: seq<seq<byte>>, steps: seq<Step>, i: nat, ps: seq<Packet>)
    requires SteadyRun(h, Fresh(blocks), steps) && !RunAll(h, Fresh(blocks), steps).failed
    requires i < |RunAll(h, Fresh(blocks), steps).conns| && AllValid(ps) && AllAccepted(h, ps)
    requires RunAll(h, Fresh(blocks), steps).conns[i].received <= EncodeAll(ps)
    ensures var w := RunAll(h, Fresh(blocks), steps);
            Originals(w.log, i) == Events(ps[..Complete(ps, |w.conns[i].received|)])
  {
    hide RunAll, SteadyRun, Drain, EncodeAll, Complete, Events, Originals;
    SharedDispatch(h, blocks, steps);
    StreamDispatch(h, ps, RunAll(h, Fresh(blocks), steps).conns[i].received);
  }

  /** The shortest run with a repetition: a message arrives, and the main loop ticks. */
  lemma TickRepeats(h: Handlers, msgId: int, payload: seq<byte>, block: seq<byte>)
    requires ValidPacket(UserData(msgId, payload)) && h(EventOf(UserData(msgId, payload)))
    requires |Encode(UserData(msgId, payload))| <= |block|
    ensures var p := UserData(msgId, payload);
            var steps := [Arrive(0, Encode(p)), Tick(0)];
            RunAll(h, Fresh([block]), steps).log == [Entry(0, EventOf(p), false), Entry(0, EventOf(p), true)]
  {
    hide Encode, Drain, Decode, Inv, Parse;
    var p := UserData(msgId, payload);
    var w, b := Fresh([block]), Encode(p);
    var steps := [Arrive(0, b), Tick(0)];
    FreshInv(h, [block]);
    assert Enabled(w, Arrive(0, b)) by {
      InvOk(h, w);
    }
    OnePacketDrains(h, p);
    var w1 := Happen(h, w, Arrive(0, b));
    FirstArrival(h, w, b, EventOf(p));
    ArriveKeeps(h, w, 0, b);
    RepeatsHeld(h, w1, EventOf(p));
    assert steps[1..] == [Tick(0)] && [Tick(0)][1..] == [];
    assert RunAll(h, w, steps) == RunAll(h, w1, [Tick(0)]) == RunAll(h, Happen(h, w1, Tick(0)), []);
  }

  lemma InvOk(h: Handlers, w: World)
    requires Inv(h, w)
    ensures WorldOk(w)
  {
  }

  lemma OnePacketDrains(h: Handlers, p: Packet)
    requires ValidPacket(p) && !p.Heartbeat? && h(EventOf(p))
    ensures Drain(h, Encode(p)) == Outcome([EventOf(p)], [], true)
  {
    hide Encode, Drain;
    WholeDispatch(h, [p]);
    FlatMapOne(Encode, p);
    assert EncodeAll([p]) == Encode(p) && Events([p]) == [EventOf(p)];
  }

  lemma FirstArrival(h: Handlers, w: World, b: seq<byte>, event: Event)
    requires |w.conns| == 1 && w == Fresh([w.conns[0].block]) && Enabled(w, Arrive(0, b)) && b != []
    requires Drain(h, b) == Outcome([event], [], true) && event.OnMessage?
    ensures var w1 := Happen(h, w, Arrive(0, b));
            && !w1.failed && |w1.conns| == 1 && ConnOk(w1.conns[0]) && Unread(w1.conns[0]) == []
            && w1.rec.Held? && w1.log == [Entry(0, event, false)]
  {
    hide Drain, Decode, Compacts;
    var c := w.conns[0];
    PutExtends(c, b);
    var c1 := Put(c, b);
    assert Unread(c1) == b;
    ReleasedRest(h, c1);
    assert [] + Entries(0, [event]) == [Entry(0, event, false)];
  }

  lemma RepeatsHeld(h: Handlers, w: World, event: Event)
    requires Inv(h, w) && !w.failed && |w.conns| == 1 && Unread(w.conns[0]) == [] && w.rec.Held?
    requires w.log == [Entry(0, event, false)]
    ensures Happen(h, w, Tick(0)).log == [Entry(0, event, false), Entry(0, event, true)]
  {
    hide InStep;
    assert [Entry(0, event, false)] + [Entry(0, event, true)] == [Entry(0, event, false), Entry(0, event, true)];
  }

  // ---------------------------------------------------------------- a stuck connection

  /** A full block, consumed to its last byte, and a read posted for nothing. */
  predicate StuckAt(w: World, i: nat) {
    && i < |w.conns| && ConnOk(w.conns[i]) && w.conns[i].block != []
    && w.conns[i].read == w.conns[i].write == |w.conns[i].block| && w.conns[i].postedLen == 0
  }

  predicate Wanting(rec: Rec) {
    rec.HeadWanted? || (rec.BodyWanted? && rec.total > 0)
  }

  /** A parse of connection `i` while the record is that of an incomplete user packet, of whichever connection. */
  predicate Rescues(w: World, s: Step, i: nat) {
    Enabled(w, s) && s.i == i && Wanting(w.rec)
  }

  /** The same connection, but perhaps for a read posted for nothing. */
  predicate SameData(c: Conn, d: Conn) {
    d.block == c.block && d.read == c.read && d.write == c.write && d.received == c.received
  }

  /** One step: a stuck connection starts over at the front exactly if it is rescued; nothing else touches it. */
  lemma StuckStep(h: Handlers, w: World, s: Step, i: nat)
    requires StuckAt(w, i)
    ensures StuckAt(Happen(h, w, s), i) <==> !Rescues(w, s, i)
    ensures StuckAt(Happen(h, w, s), i) ==> SameData(w.conns[i], Happen(h, w, s).conns[i])
    ensures Rescues(w, s, i) ==>
              i < |Happen(h, w, s).conns| &&
              var c := Happen(h, w, s).conns[i];
              c.write == 0 && c.received == w.conns[i].received && (s.Arrive? ==> c.postedLen == |c.block|)
  {
    hide Drain, Decode, Compacts;
    if Enabled(w, s) {
      if s.i != i {
        OthersUntouched(h, w, s, i);
      } else if s.Arrive? {
        NothingArrives(w, i);
        assert s.data == [];
        StuckParse(h, w, i);
      } else {
        StuckParse(h, w, i);
      }
    }
  }

  lemma NothingArrives(w: World, i: nat)
    requires StuckAt(w, i) && WorldOk(w)
    ensures Arrived(w, i, []) == w
  {
    var c := w.conns[i];
    assert c.block[..c.postedAt] + [] + c.block[c.postedAt..] == c.block;
    assert c.received + [] == c.received;
    assert Put(c, []) == c && w.conns[i := c] == w.conns;
  }

  lemma StuckParse(h: Handlers, w: World, i: nat)
    requires StuckAt(w, i) && WorldOk(w)
    ensures var w1 := Parse(h, w, i);
            && |w1.conns| == |w.conns|
            && w1.conns[i] == (if Wanting(w.rec) then w.conns[i].(read := 0, write := 0) else w.conns[i])
            && (Wanting(w.rec) ==> w1.failed == w.failed)
  {
    assert Unread(w.conns[i]) == [];
  }

  lemma OthersUntouched(h: Handlers, w: World, s: Step, i: nat)
    requires Enabled(w, s) && s.i != i && i < |w.conns|
    ensures |Happen(h, w, s).conns| == |w.conns| && Happen(h, w, s).conns[i] == w.conns[i]
  {
    hide Drain, Decode, Parse, Put;
    match s
    case Tick(k) => ParsedShape(h, w, k);
    case Arrive(k, data) =>
      assert RecOk(Arrived(w, k, data));
      ParsedShape(h, Arrived(w, k, data), k);
  }

  /** A connection is stuck before and after every step of a run. */
  predicate StuckThroughout(h: Handlers, w: World, steps: seq<Step>, i: nat)
    decreases |steps|
  {
    StuckAt(w, i) && (steps == [] || StuckThroughout(h, Happen(h, w, steps[0]), steps[1..], i))
  }

  predicate Rescued(h: Handlers, w: World, steps: seq<Step>, i: nat)
    decreases |steps|
  {
    steps != [] && (Rescues(w, steps[0], i) || Rescued(h, Happen(h, w, steps[0]), steps[1..], i))
  }

  /**
   A stuck connection receives nothing and stays stuck, over any run, exactly until one of its own parses finds
   an incomplete user packet in the record, which only another connection on the same handler can leave there.
   */
  lemma {:induction false} StuckUntilRescued(h: Handlers, w: World, steps: seq<Step>, i: nat)
    requires StuckAt(w, i)
    ensures StuckThroughout(h, w, steps, i) <==> !Rescued(h, w, steps, i)
    ensures !Rescued(h, w, steps, i) ==> StuckAt(RunAll(h, w, steps), i)
    ensures !Rescued(h, w, steps, i) ==> SameData(w.conns[i], RunAll(h, w, steps).conns[i])
    decreases |steps|
  {
    hide Happen, StuckAt, Rescues;
    if steps != [] {
      StuckStep(h, w, steps[0], i);
      if !Rescues(w, steps[0], i) {
        StuckUntilRescued(h, Happen(h, w, steps[0]), steps[1..], i);
        StuckIn(w, i);
        StuckIn(Happen(h, w, steps[0]), i);
      } else {
        NotStuck(h, Happen(h, w, steps[0]), steps[1..], i);
      }
    }
  }

  lemma StuckIn(w: World, i: nat)
    requires StuckAt(w, i)
    ensures i < |w.conns|
  {
  }

  lemma NotStuck(h: Handlers, w: World, steps: seq<Step>, i: nat)
    requires !StuckAt(w, i)
    ensures !StuckThroughout(h, w, steps, i)
  {
    hide StuckAt;
  }

  /** With a record of its own it is never rescued: all its parses leave the record as it is. */
  lemma {:induction false} AloneIsStuckForever(h: Handlers, w: World, steps: seq<Step>)
    requires StuckAt(w, 0) && |w.conns| == 1 && !Wanting(w.rec)
    ensures StuckAt(RunAll(h, w, steps), 0) && SameData(w.conns[0], RunAll(h, w, steps).conns[0])
    decreases |steps|
  {
    if steps != [] {
      AloneStep(h, w, steps[0]);
      AloneIsStuckForever(h, Happen(h, w, steps[0]), steps[1..]);
    }
  }

  lemma AloneStep(h: Handlers, w: World, s: Step)
    requires StuckAt(w, 0) && |w.conns| == 1 && !Wanting(w.rec)
    ensures var w1 := Happen(h, w, s);
            StuckAt(w1, 0) && |w1.conns| == 1 && SameData(w.conns[0], w1.conns[0]) && w1.rec == w.rec
  {
    hide Drain, Decode, Compacts;
    StuckStep(h, w, s, 0);
    if Enabled(w, s) {
      assert Unread(w.conns[0]) == [];
      if s.Arrive? {
        NothingArrives(w, 0);
      }
    }
  }

  // ---------------------------------------------------------------- a tick under a posted read

  /** Wherever the read was posted for, what becomes unread is what lies between there and the unread bytes, first. */
  lemma PutShows(c: Conn, data: seq<byte>)
    requires ConnOk(c) && c.write <= c.postedAt && |data| <= c.postedLen
    ensures Unread(Put(c, data)) == Unread(c) + (c.block[c.write..c.postedAt] + data)[..|data|]
  {
    var block, n := Put(c, data).block, |data|;
    assert block[c.read..c.write] == c.block[c.read..c.write];
    assert block[c.write..c.write + n] == (c.block[c.write..c.postedAt] + data)[..n];
  }

  /** Whether parsing a connection again, after a parse that ended where it now stands, compacts its buffer. */
  predicate CompactsAgain(w: World, i: nat)
    requires i < |w.conns| && ConnOk(w.conns[i])
  {
    var c := w.conns[i];
    if Unread(c) == [] then Wants(w.rec, |c.block| - c.write) else Compacts(LayoutOf(c), Unread(c))
  }

  /**
   Which ticks are steady: all but those that find a read posted for something, unread bytes that do not lie at the
   front, and either an incomplete user packet for which the buffer is compacted, or nothing unread and another
   connection's such packet in the record.
   */
  lemma SteadyExactly(h: Handlers, w: World, i: nat)
    requires Inv(h, w) && Enabled(w, Tick(i))
    ensures Steady(h, w, Tick(i)) <==> w.conns[i].postedLen == 0 || w.conns[i].read == 0 || !CompactsAgain(w, i)
  {
    hide Drain, Decode, Compacts;
    var c := w.conns[i];
    assert InStep(h, w, i);
    if Unread(c) != [] {
      LeftAgain(h, c.received, Originals(w.log, i), Unread(c));
    }
  }

  /** Parsing what a parse left gives nothing and leaves it. */
  lemma LeftAgain(h: Handlers, received: seq<byte>, events: seq<Event>, rest: seq<byte>)
    requires Drain(h, received) == Outcome(events, rest, true)
    ensures Drain(h, rest) == Outcome([], rest, true)
  {
    hide Drain;
    DrainLeaves(h, received);
  }

  /** A tick that is not steady leaves a gap between the unread bytes and the place the read is posted for. */
  lemma UnsteadyTick(h: Handlers, w: World, i: nat)
    requires Inv(h, w) && Enabled(w, Tick(i)) && !Steady(h, w, Tick(i))
    ensures i < |Happen(h, w, Tick(i)).conns|
    ensures var c := Happen(h, w, Tick(i)).conns[i]; ConnOk(c) && c.postedLen > 0 && c.write < c.postedAt
  {
    hide Drain, Decode, Compacts, InStep;
    ParsedShape(h, w, i);
  }

  /**
   Why ticks must be steady, exactly: after one that is not, a byte that arrives next is read as itself if and
   only if it is the byte that already lay behind the unread ones.
   */
  lemma UnsteadyTickLoses(h: Handlers, w: World, i: nat, b: byte)
    requires Inv(h, w) && Enabled(w, Tick(i)) && !Steady(h, w, Tick(i))
    ensures i < |Happen(h, w, Tick(i)).conns|
    ensures var c := Happen(h, w, Tick(i)).conns[i];
            && ConnOk(c) && c.write < |c.block| && c.postedLen > 0
            && (Unread(Put(c, [b])) == Unread(c) + [b] <==> b == c.block[c.write])
  {
    hide Drain, Happen, Inv, Steady, Put;
    UnsteadyTick(h, w, i);
    var c := Happen(h, w, Tick(i)).conns[i];
    PutShows(c, [b]);
    var shown := (c.block[c.write..c.postedAt] + [b])[..1];
    assert shown == [c.block[c.write]];
    if Unread(c) + shown == Unread(c) + [b] {
      assert (Unread(c) + shown)[|Unread(c)|] == (Unread(c) + [b])[|Unread(c)|];
    }
  }

  // ---------------------------------------------------------------- these states are reached

  /** A first read that fills the block with whole packets leaves its connection stuck. */
  lemma FullReadSticks(h: Handlers, block: seq<byte>, b: seq<byte>)
    requires b != [] && |b| == |block| && Drain(h, b).ok && Drain(h, b).rest == []
    ensures StuckAt(Happen(h, Fresh([block]), Arrive(0, b)), 0)
  {
    hide Drain, Decode, Compacts, Put;
    var w := Fresh([block]);
    var c := w.conns[0];
    PutExtends(c, b);
    assert Unread(Put(c, b)) == b;
    FullPut(c, b);
    ReleasedRest(h, Put(c, b));
  }

  lemma FullPut(c: Conn, b: seq<byte>)
    requires c == NewConn(c.block) && |b| == |c.block|
    ensures Put(c, b).write == |c.block|
  {
  }

  /** The bytes start with a user packet that is not all here. */
  predicate UserPacketCut(rest: seq<byte>) {
    Decode(rest).HeadShort? || Decode(rest).BodyShort?
  }

  /** A parse of some bytes leaves a wanting record exactly if what it leaves unread starts with such a packet. */
  lemma ParseLeavesWanting(h: Handlers, w: World, i: nat)
    requires WorldOk(w) && i < |w.conns| && Unread(w.conns[i]) != [] && !w.failed && !Parse(h, w, i).failed
    ensures ConnOk(Parse(h, w, i).conns[i])
    ensures Wanting(Parse(h, w, i).rec) <==> UserPacketCut(Unread(Parse(h, w, i).conns[i]))
  {
    hide Drain, Decode, Compacts, Released;
    var c := w.conns[i];
    var o := Drain(h, Unread(c));
    ReleasedRest(h, c);
    WantedTotal(o.rest);
    if o.rest == [] {
      EmptyDecodes();
    }
  }

  lemma EmptyDecodes()
    ensures Decode([]) == Short
  {
  }

  /** Which arrivals on another connection rescue it: exactly those that leave that one with a user packet cut short. */
  lemma ArrivalRescuesExactly(h: Handlers, w: World, i: nat, j: nat, data: seq<byte>)
    requires Inv(h, w) && StuckAt(w, i) && i != j && Enabled(w, Arrive(j, data)) && data != []
    requires !Happen(h, w, Arrive(j, data)).failed
    ensures var w1 := Happen(h, w, Arrive(j, data));
            && StuckAt(w1, i) && j < |w1.conns| && ConnOk(w1.conns[j])
            && (StuckAt(Happen(h, w1, Tick(i)), i) <==> !UserPacketCut(Unread(w1.conns[j])))
  {
    hide Inv, Parse, Put, UserPacketCut;
    var s, w1 := Arrive(j, data), Happen(h, w, Arrive(j, data));
    OthersUntouched(h, w, s, i);
    ArrivedReady(h, w, j, data);
    var w0 := Arrived(w, j, data);
    ArrivedSome(h, w, j, data);
    ParseLeavesWanting(h, w0, j);
    ParsedShape(h, w0, j);
    ArriveKeeps(h, w, j, data);
    InvOk(h, w1);
    StuckStep(h, w1, Tick(i), i);
  }

  lemma ArrivedSome(h: Handlers, w: World, i: nat, data: seq<byte>)
    requires Inv(h, w) && Enabled(w, Arrive(i, data)) && data != []
    ensures WorldOk(w) && Unread(Arrived(w, i, data).conns[i]) != []
  {
    hide InStep, HeldLast, RepeatsFollow, Put;
    PutExtends(w.conns[i], data);
  }

  /** One byte of another connection rescues it: the next tick starts it over. */
  lemma OneByteRescues(h: Handlers, w: World, one: seq<byte>)
    requires Inv(h, w) && !w.failed && |w.conns| == 2 && StuckAt(w, 0) && one == [5]
    requires Unread(w.conns[1]) == [] && w.conns[1].postedLen > 0
    ensures var w2 := Happen(h, Happen(h, w, Arrive(1, one)), Tick(0));
            !StuckAt(w2, 0) && |w2.conns| == 2 && w2.conns[0].write == 0
  {
    hide Happen, Inv, Parse;
    OneByteArrives(h, w, one);
    var w1 := Happen(h, w, Arrive(1, one));
    ArriveKeeps(h, w, 1, one);
    InvOk(h, w1);
    StuckStep(h, w1, Tick(0), 0);
    TickShape(h, w1, 0);
  }

  lemma TickShape(h: Handlers, w: World, i: nat)
    requires WorldOk(w) && i < |w.conns|
    ensures |Happen(h, w, Tick(i)).conns| == |w.conns|
  {
    hide Parse;
    ParsedShape(h, w, i);
  }

  lemma OneByteArrives(h: Handlers, w: World, one: seq<byte>)
    requires Inv(h, w) && !w.failed && |w.conns| == 2 && one == [5]
    requires Unread(w.conns[1]) == [] && w.conns[1].postedLen > 0
    ensures Enabled(w, Arrive(1, one))
    ensures var w1 := Happen(h, w, Arrive(1, one));
            w1.rec == HeadWanted && !w1.failed && |w1.conns| == 2 && w1.conns[0] == w.conns[0]
  {
    hide Parse, Put, InStep, RepeatsFollow, HeldLast;
    PutExtends(w.conns[1], one);
    ArrivedReady(h, w, 1, one);
    var w0 := Arrived(w, 1, one);
    assert w0.conns[1] == Put(w.conns[1], one) && Unread(w0.conns[1]) == [] + one == one;
    ParseWants(h, w0, 1, one);
    ParsedShape(h, w0, 1);
  }

  lemma ParseWants(h: Handlers, w: World, i: nat, one: seq<byte>)
    requires WorldOk(w) && i < |w.conns| && !w.failed && Unread(w.conns[i]) == one == [5]
    ensures Parse(h, w, i).rec == HeadWanted && !Parse(h, w, i).failed
  {
    hide Drain, Decode, Compacts, Released;
    OneByteWants(h, one);
    var o := Outcome([], one, true);
    assert Unread(w.conns[i]) == one && Drain(h, Unread(w.conns[i])) == o;
    assert RecAfter(i, w.conns[i].write, o) == HeadWanted;
  }

  lemma OneByteWants(h: Handlers, one: seq<byte>)
    requires one == [5]
    ensures Drain(h, one) == Outcome([], one, true) && Decode(one) == HeadShort
  {
  }

  /** A tick that is not steady comes soon: after a packet and the first byte of the next in one read. */
  lemma UnsteadyIsReached(h: Handlers, block: seq<byte>, b: seq<byte>)
    requires h(OnDisconnect) && |block| > 2 && b == [8, 5]
    ensures var w := Happen(h, Fresh([block]), Arrive(0, b)); Inv(h, w) && !Steady(h, w, Tick(0))
  {
    hide Happen, Inv, Steady;
    FreshInv(h, [block]);
    InvOk(h, Fresh([block]));
    TwoBytesArrive(h, block, b);
    ArriveKeeps(h, Fresh([block]), 0, b);
    var w := Happen(h, Fresh([block]), Arrive(0, b));
    InvOk(h, w);
    OneByteMoves(h, w, b[1..]);
  }

  lemma TwoBytesArrive(h: Handlers, block: seq<byte>, b: seq<byte>)
    requires h(OnDisconnect) && |block| > 2 && b == [8, 5] && WorldOk(Fresh([block]))
    ensures var w := Happen(h, Fresh([block]), Arrive(0, b));
            && !w.failed && |w.conns| == 1 && ConnOk(w.conns[0]) && Unread(w.conns[0]) == b[1..] == [5]
            && w.conns[0].read == 1 && w.conns[0].postedLen > 0
  {
    hide Drain, Decode, Put, Released, Compacts;
    var c := Fresh([block]).conns[0];
    PutExtends(c, b);
    PutWrites(c, b);
    assert [] + b == b;
    TwoBytesDrain(h, b);
    ReleasedRest(h, Put(c, b));
    ReleasedAt(h, Put(c, b), b[1..]);
  }

  lemma ReleasedAt(h: Handlers, c: Conn, rest: seq<byte>)
    requires ConnOk(c) && c.read == 0 && |rest| <= |Unread(c)|
    ensures Released(c, rest).read == |Unread(c)| - |rest| && Released(c, rest).write == |Unread(c)|
  {
    hide Decode;
  }

  /** The first byte of a user packet that does not lie at the front is moved there. */
  lemma OneByteMoves(h: Handlers, w: World, one: seq<byte>)
    requires WorldOk(w) && !w.failed && |w.conns| == 1 && Unread(w.conns[0]) == one == [5]
    requires w.conns[0].read == 1 && w.conns[0].postedLen > 0
    ensures !Steady(h, w, Tick(0))
  {
    hide Drain, Decode;
    OneByteWants(h, one);
    assert Drain(h, Unread(w.conns[0])) == Outcome([], one, true);
    assert Compacts(LayoutOf(w.conns[0]), one);
  }

  lemma PutWrites(c: Conn, b: seq<byte>)
    requires c == NewConn(c.block) && |b| <= |c.block|
    ensures Put(c, b).write == |b| && Put(c, b).read == 0
  {
  }

  lemma TwoBytesDrain(h: Handlers, b: seq<byte>)
    requires h(OnDisconnect) && b == [8, 5]
    ensures Drain(h, b) == Outcome([OnDisconnect], b[1..], true) && b[1..] == [5]
  {
    hide Drain, Decode;
    OneByteWants(h, b[1..]);
    DisconnectDrains(h, b, b[1..]);
  }

  lemma DisconnectDrains(h: Handlers, b: seq<byte>, rest: seq<byte>)
    requires h(OnDisconnect) && b != [] && b[0] == 8 && b[1..] == rest && Drain(h, rest) == Outcome([], rest, true)
    ensures Drain(h, b) == Outcome([OnDisconnect], rest, true)
  {
    hide Drain, Decode;
    DisconnectFirst(b);
    DrainOne(h, b, OnDisconnect, 1);
    assert [OnDisconnect] + [] == [OnDisconnect];
  }

  lemma DisconnectFirst(b: seq<byte>)
    requires b != [] && b[0] == 8
    ensures Decode(b) == Got(OnDisconnect, 1)
  {
  }
}
