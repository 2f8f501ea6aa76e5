/**
 The main loop of the transport: a turn of an end is its time-out, its drain and the post of a send. What holds of
 the single actions in any interleaving holds of turns, and turns alone keep messages moving.
 */
module TransportTurns {
  import opened Sequences
  import opened NetProto2
  import opened DataHandler2
  import opened Endpoints
  import opened Transport
  import opened TransportProgress

  // ---------------------------------------------------------------- what a turn does

  /** A connected end whose handlers accept: all that was received is dispatched, and a send posted if one can be. */
  lemma TurnDispatches(e: Endpoint, timedOut: bool, failAt: nat)
    requires e.state == Connected && failAt >= |e.inbox|
    ensures var t := Run(e, timedOut, failAt);
            && t.delivered == e.delivered + FlatMap(MessageOf, e.inbox) && t.inbox == []
            && t.state == Connected && t.closed == e.closed && t.reading == e.reading
            && t.queue == e.queue && t.accepted == e.accepted && t.sendCount == e.sendCount
            && (t.sendingData <==> e.sendingData || e.queue != [])
            && t.pending == if e.sendingData || e.queue == [] then e.pending else Posted
  {
  }

  /** A handler refuses its message: it is the last one dispatched, and the end closes. */
  lemma TurnRefused(e: Endpoint, timedOut: bool, failAt: nat)
    requires e.state == Connected && failAt < |e.inbox|
    ensures var t := Run(e, timedOut, failAt);
            && t.delivered == e.delivered + FlatMap(MessageOf, e.inbox[..failAt + 1])
            && t.closed && t.state == Disconnected && t.queue == [] && t.inbox == []
            && t.pending == NoSend && !t.sendingData && t.reading == NoRead && t.accepted == e.accepted
  {
  }

  /** A turn closes an end exactly if a handler refuses or a closing end has timed out. */
  lemma TurnCloses(e: Endpoint, timedOut: bool, failAt: nat)
    requires !e.closed
    ensures Run(e, timedOut, failAt).closed <==>
            (e.state == Connected && failAt < |e.inbox|) || (e.state == Disconnecting && timedOut)
    ensures e.state != Connected && !Run(e, timedOut, failAt).closed ==> Run(e, timedOut, failAt) == e
  {
  }

  /** Whatever was outstanding, a turn of a sound engine leaves a send outstanding if bytes are queued. */
  lemma TurnSends(e: Endpoint, timedOut: bool, failAt: nat)
    requires Engine(e) && e.state == Connected && failAt >= |e.inbox|
    ensures Run(e, timedOut, failAt).pending != NoSend <==> e.queue != []
  {
  }

  /** A request is taken exactly if the end is connected and the lengths admit it, and is then queued last. */
  lemma AskTaken(e: Endpoint, q: Request)
    ensures Send(e, q) ==
            if e.state == Connected && Accepts(q)
            then e.(queue := e.queue + [Encode(FrameOf(q))], accepted := e.accepted + [q]) else e
  {
  }

  // ---------------------------------------------------------------- turns are actions

  /** What happens: a single event, or a turn of an end's main loop. */
  datatype Move =
    | One(ev: Event)
    | Turn(atA: bool, timedOut: bool, failAt: nat)

  function TurnOf(e: Endpoint, timedOut: bool, failAt: nat): Endpoint {
    if e.closed then e else Run(e, timedOut, failAt)
  }

  function MoveOn(w: World, m: Move): World {
    match m
    case One(ev) => Step(w, ev)
    case Turn(atA, timedOut, failAt) =>
      if atA then w.(a := TurnOf(w.a, timedOut, failAt)) else w.(b := TurnOf(w.b, timedOut, failAt))
  }

  function MoveAll(w: World, ms: seq<Move>): World
    decreases |ms|
  {
    if ms == [] then w else MoveAll(MoveOn(w, ms[0]), ms[1..])
  }

  /** The actions of a move; a turn's depend on the state it starts in. */
  function Actions(w: World, m: Move): seq<Event> {
    match m
    case One(ev) => [ev]
    case Turn(atA, timedOut, failAt) =>
      if (if atA then w.a else w.b).state == Disconnecting && timedOut then [Event(atA, Abort)]
      else [Event(atA, DrainIt(failAt)), Event(atA, PostSend)]
  }

  function AllActions(w: World, ms: seq<Move>): seq<Event>
    decreases |ms|
  {
    if ms == [] then [] else Actions(w, ms[0]) + AllActions(MoveOn(w, ms[0]), ms[1..])
  }

  lemma NothingSent(l: Link)
    ensures LinkSent(l, []) == l
  {
    assert l.chan + [] == l.chan && l.wire + [] == l.wire;
  }

  /** An action that touches neither channel. */
  lemma Untouched(w: World, act: Action)
    requires act.Abort? || act.DrainIt? || act.PostSend?
    ensures ActAtA(w, act) == w.(a := if w.a.closed then w.a else EndpointAfter(w.a, w.ba, act))
  {
    hide Drain, ForceClose, StartSend;
    NothingSent(w.ab);
  }

  /** At the end seen first, a turn is the run of its actions. */
  lemma TurnAtA(w: World, timedOut: bool, failAt: nat)
    ensures var m := Turn(true, timedOut, failAt); RunAll(w, Actions(w, m)) == MoveOn(w, m)
  {
    hide FlatMap;
    var m := Turn(true, timedOut, failAt);
    var evs := Actions(w, m);
    Untouched(w, evs[0].act);
    if |evs| == 2 {
      Untouched(Step(w, evs[0]), evs[1].act);
      assert evs[1..] == [evs[1]] && [evs[1]][1..] == [];
      assert RunAll(w, evs) == RunAll(Step(w, evs[0]), [evs[1]]) == Step(Step(w, evs[0]), evs[1]);
    } else {
      assert evs[1..] == [];
    }
  }

  lemma {:induction false} RunSwapped(w: World, evs: seq<Event>)
    ensures RunAll(Swap(w), Flipped(evs)) == Swap(RunAll(w, evs))
    decreases |evs|
  {
    hide ActAtA;
    if evs != [] {
      assert Flipped(evs)[1..] == Flipped(evs[1..]);
      RunSwapped(Step(w, evs[0]), evs[1..]);
    }
  }

  function Flipped(evs: seq<Event>): seq<Event> {
    seq(|evs|, i requires 0 <= i < |evs| => Event(!evs[i].atA, evs[i].act))
  }

  /** A turn of either end is the run of its actions. */
  lemma TurnIsItsActions(w: World, m: Move)
    ensures RunAll(w, Actions(w, m)) == MoveOn(w, m)
  {
    hide ActAtA, Run;
    match m
    case One(ev) => assert [ev][1..] == [];
    case Turn(atA, timedOut, failAt) =>
      if atA {
        TurnAtA(w, timedOut, failAt);
      } else {
        var flipped := Turn(true, timedOut, failAt);
        TurnAtA(Swap(w), timedOut, failAt);
        RunSwapped(Swap(w), Actions(Swap(w), flipped));
        assert Flipped(Actions(Swap(w), flipped)) == Actions(w, m);
      }
  }

  lemma {:induction false} RunConcat(w: World, evs: seq<Event>, more: seq<Event>)
    ensures RunAll(w, evs + more) == RunAll(RunAll(w, evs), more)
    decreases |evs|
  {
    hide Step;
    if evs == [] {
      assert evs + more == more;
    } else {
      assert (evs + more)[1..] == evs[1..] + more;
      RunConcat(Step(w, evs[0]), evs[1..], more);
    }
  }

  /** Moves are the run of their actions, so what holds over every run of actions holds over moves. */
  lemma {:induction false} MovesAreActions(w: World, ms: seq<Move>)
    ensures RunAll(w, AllActions(w, ms)) == MoveAll(w, ms)
    decreases |ms|
  {
    hide Step, MoveOn, Actions;
    if ms != [] {
      TurnIsItsActions(w, ms[0]);
      RunConcat(w, Actions(w, ms[0]), AllActions(MoveOn(w, ms[0]), ms[1..]));
      MovesAreActions(MoveOn(w, ms[0]), ms[1..]);
    }
  }

  /** End-to-end delivery over every interleaving of main-loop turns, completions and calls. */
  lemma DeliveryOverTurns(ms: seq<Move>)
    ensures var w := MoveAll(Start(), ms);
            && w.b.delivered <= Contents(Frames(w.a))
            && w.a.delivered <= Contents(Frames(w.b))
            && (Quiet(w.a, w.ab, w.b) ==> w.b.delivered == Contents(Frames(w.a)))
            && (Quiet(w.b, w.ba, w.a) ==> w.a.delivered == Contents(Frames(w.b)))
  {
    hide RunAll, MoveAll, AllActions, Contents;
    MovesAreActions(Start(), ms);
    Delivery(AllActions(Start(), ms));
  }

  // ---------------------------------------------------------------- turns keep messages moving

  /** A turn has something to do for the messages of `a`: to post a send, or to dispatch. */
  predicate Moves(w: World, m: Move) {
    match m
    case One(ev) => Carries(w, ev) && !ev.act.PostSend? && !ev.act.DrainIt?
    case Turn(atA, _, failAt) =>
      if atA then w.a.pending == NoSend && w.a.queue != [] && failAt >= |w.a.inbox|
      else w.b.inbox != [] && failAt >= |w.b.inbox|
  }

  lemma DrainAside(w: World, failAt: nat)
    requires Ready(w) && failAt >= |w.a.inbox|
    ensures var w1 := Step(w, Event(true, DrainIt(failAt)));
            && Ready(w1) && w1 == w.(a := w1.a) && Work(w1) == Work(w)
            && w1.a == w.a.(delivered := w1.a.delivered, inbox := [])
  {
    hide Inv, FlatMap, Unsent, QueuedBytes;
    ActKeeps(w, DrainIt(failAt));
    Untouched(w, DrainIt(failAt));
    SameWork(w.a, Step(w, Event(true, DrainIt(failAt))).a);
  }

  lemma SameWork(e: Endpoint, e': Endpoint)
    requires e'.queue == e.queue && e'.pending == e.pending
    ensures QueuedBytes(e') == QueuedBytes(e) && Unsent(e') == Unsent(e)
  {
  }

  lemma PostAside(w: World)
    requires Ready(w)
    ensures var w1 := Step(w, Event(false, PostSend));
            && Ready(w1) && w1.a == w.a && w1.ab == w.ab && w1.b.inbox == w.b.inbox && Work(w1) == Work(w)
  {
    hide Inv, Unsent, QueuedBytes;
    SwapKeeps(w);
    ActKeeps(Swap(w), PostSend);
    SwapKeeps(ActAtA(Swap(w), PostSend));
    Untouched(Swap(w), PostSend);
  }

  /** Every such move leaves less to do, and both ends connected. */
  lemma MoveWorks(w: World, m: Move)
    requires Ready(w) && Moves(w, m)
    ensures Ready(MoveOn(w, m)) && MoveOn(w, m).a.accepted == w.a.accepted && Work(MoveOn(w, m)) < Work(w)
  {
    hide Ready, Work, Step, MoveOn, Inv;
    TurnIsItsActions(w, m);
    match m
    case One(ev) =>
      CarryStep(w, ev);
      assert [ev][1..] == [];
    case Turn(atA, timedOut, failAt) =>
      ReadyIsOpen(w);
      var first, second := Event(atA, DrainIt(failAt)), Event(atA, PostSend);
      assert [first, second][1..] == [second] && [second][1..] == [];
      assert RunAll(w, Actions(w, m)) == RunAll(Step(w, first), [second]) == Step(Step(w, first), second);
      if atA {
        DrainAside(w, failAt);
        CarryStep(Step(w, first), second);
      } else {
        CarryStep(w, first);
        PostAside(Step(w, first));
      }
  }

  lemma ReadyIsOpen(w: World)
    requires Ready(w)
    ensures w.a.state == Connected && w.b.state == Connected
  {
  }

  predicate Moving(w: World, ms: seq<Move>)
    decreases |ms|
  {
    ms == [] || (Moves(w, ms[0]) && Moving(MoveOn(w, ms[0]), ms[1..]))
  }

  ghost predicate MovesEnd(w: World) {
    forall m :: !Moves(w, m)
  }

  lemma {:induction false} MovingEnds(w: World, ms: seq<Move>)
    requires Ready(w) && Moving(w, ms)
    ensures Ready(MoveAll(w, ms)) && MoveAll(w, ms).a.accepted == w.a.accepted
    ensures |ms| + Work(MoveAll(w, ms)) <= Work(w)
    decreases |ms|
  {
    hide Ready, Moves, Work, MoveOn;
    if ms != [] {
      MoveWorks(w, ms[0]);
      MovingEnds(MoveOn(w, ms[0]), ms[1..]);
    }
  }

  /** No turn or completion moves anything exactly if everything is sent, read and dispatched. */
  lemma MovesEndExactly(w: World)
    requires Ready(w)
    ensures MovesEnd(w) <==> Quiet(w.a, w.ab, w.b)
  {
    hide Ready;
    EndIsQuiet(w);
    if Quiet(w.a, w.ab, w.b) {
      forall m ensures !Moves(w, m) {
        if m.One? {
          assert !Carries(w, m.ev);
        }
      }
    } else {
      var ev := SomeCarries(w);
      if ev.act.PostSend? {
        assert Moves(w, Turn(true, false, |w.a.inbox|));
      } else if ev.act.DrainIt? {
        assert Moves(w, Turn(false, false, ev.act.failAt));
      } else {
        assert Moves(w, One(ev));
      }
    }
  }

  /**
   The loop delivers: from every state turns and completions reach in which both ends are connected, every schedule of
   turns that find something to do, sends of at least one byte and reads ends within the work left, and it has
   delivered every accepted message exactly if none of them is left to do. In both directions.
   */
  lemma TurnsDeliver(ms: seq<Move>, atA: bool, more: seq<Move>)
    requires Open(MoveAll(Start(), ms).a) && Open(MoveAll(Start(), ms).b)
    requires Moving(FromMoves(ms, atA), more)
    ensures var w := FromMoves(ms, atA);
            var w' := MoveAll(w, more);
            && |more| <= Work(w)
            && w'.a.accepted == w.a.accepted
            && (MovesEnd(w') <==> Quiet(w'.a, w'.ab, w'.b))
            && (MovesEnd(w') ==> w'.b.delivered == Contents(Frames(w.a)))
  {
    hide RunAll, MoveAll, AllActions, Ready, Moving, MovesEnd, Contents;
    MovesAreActions(Start(), ms);
    ReachedIsReady(AllActions(Start(), ms));
    var w := FromMoves(ms, atA);
    MovingEnds(w, more);
    var w' := MoveAll(w, more);
    MovesEndExactly(w');
    if MovesEnd(w') {
      ReadyInv(w');
      SentAndQuiet(w');
      assert Frames(w'.a) == Frames(w.a);
    }
  }

  lemma ReadyInv(w: World)
    requires Ready(w)
    ensures Inv(w)
  {
  }

  function FromMoves(ms: seq<Move>, atA: bool): World {
    if atA then MoveAll(Start(), ms) else Swap(MoveAll(Start(), ms))
  }
}
