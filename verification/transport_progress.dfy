/**
 The transport cannot get stuck, and cannot run in circles: while both ends are connected, any schedule of sends,
 reads and drains ends, and it ends only when everything accepted has been dispatched.
 */
module TransportProgress {
  import opened Sequences
  import opened BufferLists
  import opened NetProto2
  import opened DataHandler2
  import opened Endpoints
  import opened Transport

  // ---------------------------------------------------------------- a connected end reads on

  predicate Open(e: Endpoint) {
    !e.closed && e.state == Connected
  }

  predicate Listening(e: Endpoint) {
    Open(e) ==> e.reading != NoRead
  }

  lemma ActKeepsListening(e: Endpoint, inn: Link, act: Action)
    requires Listening(e) && Enabled(e, inn, act)
    ensures Listening(EndpointAfter(e, inn, act))
  {
    hide Encode, MessageOf, FlatMap, Unpack;
  }

  lemma {:induction false} RunKeepsListening(w: World, evs: seq<Event>)
    requires Listening(w.a) && Listening(w.b)
    ensures Listening(RunAll(w, evs).a) && Listening(RunAll(w, evs).b)
    decreases |evs|
  {
    hide Enabled, EndpointAfter, Listening, LinkRead, PutInFlight;
    if evs != [] {
      var ev := evs[0];
      if ev.atA {
        if Enabled(w.a, w.ba, ev.act) {
          ActKeepsListening(w.a, w.ba, ev.act);
        }
      } else if Enabled(w.b, w.ab, ev.act) {
        ActKeepsListening(w.b, w.ab, ev.act);
      }
      RunKeepsListening(Step(w, ev), evs[1..]);
    }
  }

  // ---------------------------------------------------------------- sending what is queued

  /** How far the engine is from taking bytes off the queue. */
  function Stage(p: Sending): nat {
    match p
    case NoSend => 2
    case Posted => 1
    case Taken(n) => if n == 0 then 3 else 0
  }

  function NextSend(e: Endpoint): Action
    requires e.queue != []
  {
    match e.pending
    case NoSend => PostSend
    case Posted => Take(|e.queue[0]|)
    case Taken(_) => Complete
  }

  /** Nothing but the sending of queued bytes happened at an end. */
  predicate OnlySent(e: Endpoint, e': Endpoint) {
    e' == e.(queue := e'.queue, pending := e'.pending, sendingData := e'.sendingData, sendCount := e'.sendCount)
  }

  lemma SendStep(e: Endpoint, inn: Link)
    requires Engine(e) && Open(e) && e.queue != []
    ensures Enabled(e, inn, NextSend(e))
    ensures var e' := EndpointAfter(e, inn, NextSend(e));
            && OnlySent(e, e') && LinkRead(inn, e, NextSend(e)) == inn
            && (QueuedBytes(e') < QueuedBytes(e) ||
                (QueuedBytes(e') == QueuedBytes(e) && Stage(e'.pending) < Stage(e.pending)))
  {
    hide Flatten;
    if e.pending.Taken? {
      CompletionShrinks(e);
    }
  }

  lemma OpenEngine(w: World)
    requires Inv(w) && Open(w.a)
    ensures Engine(w.a)
  {
  }

  // ---------------------------------------------------------------- reading what was sent

  function NextRead(e: Endpoint): Action {
    if e.reading.ReadBody? then BodyArrives else HeadArrives
  }

  /** With nothing left to send, the bytes in flight complete whatever is being read. */
  lemma ReadEnabled(fs: seq<Frame>, l: Link, r: Endpoint)
    requires AllValid(fs) && ReceiverInv(fs, l, r) && l.wire == Stream(fs)
    requires Open(r) && r.reading != NoRead && (l.chan != [] || r.reading.ReadBody?)
    ensures Enabled(r, l, NextRead(r))
    ensures r.reading.ReadBody? ==> r.reading.len > 0
    ensures |LinkRead(l, r, NextRead(r)).chan| < |l.chan|
  {
    hide Encode, Content, MessageOf, FlatMap, Contents, Stream;
    assert fs[..|fs|] == fs;
    if l.got < |fs| {
      NextFrameInFlight(fs, l, r);
    }
  }

  lemma NextFrameInFlight(fs: seq<Frame>, l: Link, r: Endpoint)
    requires AllValid(fs) && ReceiverInv(fs, l, r) && l.wire == Stream(fs) && Open(r) && l.got < |fs|
    ensures |l.chan| >= if r.reading.ReadBody? then |Body(fs[l.got])| else 3
    ensures r.reading.ReadBody? ==> |Body(fs[l.got])| > 0
  {
    hide Content, MessageOf;
    var f := fs[l.got];
    FlatMapSplit(Encode, fs, l.got);
    assert |Stream(fs)| >= |Stream(fs[..l.got])| + |Encode(f)|;
    if r.reading.ReadBody? {
      UserContent(f);
    }
  }

  /** A connected end that reads on stays connected and reading. */
  lemma ReadStaysOpen(r: Endpoint, l: Link)
    requires Open(r) && Listening(r) && Enabled(r, l, NextRead(r))
    ensures Open(EndpointAfter(r, l, NextRead(r))) && Listening(EndpointAfter(r, l, NextRead(r)))
  {
    hide Encode, MessageOf, FlatMap, Unpack;
  }

  lemma SwapKeeps(w: World)
    ensures Inv(Swap(w)) <==> Inv(w)
  {
    hide Direction;
  }

  // ---------------------------------------------------------------- any schedule

  /** Both ends are connected and `b` has a read posted. */
  predicate Ready(w: World) {
    Inv(w) && Open(w.a) && Open(w.b) && Listening(w.b)
  }

  /** A step that carries the messages of `a` on: of its send engine, or a read or a drain of `b`. */
  predicate Carries(w: World, ev: Event) {
    if ev.atA then
      match ev.act
      case PostSend => w.a.pending == NoSend && w.a.queue != []
      case Take(n) => n > 0 && Enabled(w.a, w.ba, ev.act)
      case Complete => Enabled(w.a, w.ba, ev.act)
      case _ => false
    else
      match ev.act
      case HeadArrives => Enabled(w.b, w.ab, ev.act)
      case BodyArrives => Enabled(w.b, w.ab, ev.act)
      case DrainIt(failAt) => w.b.inbox != [] && failAt >= |w.b.inbox|
      case _ => false
  }

  /** What is left to do for the messages of `a`. */
  function Work(w: World): nat {
    4 * QueuedBytes(w.a) + Stage(w.a.pending) + 3 * |Unsent(w.a)| + 2 * |w.ab.chan| + |w.b.inbox|
  }

  lemma EngineWorks(e: Endpoint, inn: Link, act: Action, l: Link)
    requires Engine(e) && Open(e) && Enabled(e, inn, act)
    requires act.Complete? || (act.Take? && act.n > 0) || (act.PostSend? && e.pending == NoSend && e.queue != [])
    ensures var e', l' := EndpointAfter(e, inn, act), LinkSent(l, PutInFlight(e, inn, act));
            && OnlySent(e, e') && LinkRead(inn, e, act) == inn
            && 4 * QueuedBytes(e') + Stage(e'.pending) + 3 * |Unsent(e')| + 2 * |l'.chan| <
               4 * QueuedBytes(e) + Stage(e.pending) + 3 * |Unsent(e)| + 2 * |l.chan|
  {
    hide Flatten;
    match act
    case Complete =>
      CompletionShrinks(e);
      EngineComplete(e);
    case Take(n) => ConsumedBytes(e.queue, n);
    case PostSend =>
  }

  /** A read takes bytes off the channel, more of them than packets it adds. */
  lemma ReadWorks(w: World, act: Action)
    requires Ready(w) && (act.HeadArrives? || act.BodyArrives?) && Enabled(w.b, w.ab, act)
    ensures act == NextRead(w.b)
    ensures var b' := EndpointAfter(w.b, w.ab, act);
            2 * |LinkRead(w.ab, w.b, act).chan| + |b'.inbox| < 2 * |w.ab.chan| + |w.b.inbox|
  {
    hide Encode, Content, MessageOf, FlatMap, Unpack;
    if act.BodyArrives? {
      UserContent(Frames(w.a)[w.ab.got]);
    }
  }

  /** Each step of a schedule leaves less to do, and both ends connected. */
  lemma CarryStep(w: World, ev: Event)
    requires Ready(w) && Carries(w, ev)
    ensures Ready(Step(w, ev)) && Step(w, ev).a.accepted == w.a.accepted && Work(Step(w, ev)) < Work(w)
  {
    hide Inv, Engine, QueuedBytes, Unsent, Stage, EndpointAfter, LinkRead, PutInFlight;
    ActKeeps(w, ev.act);
    SwapKeeps(w);
    ActKeeps(Swap(w), ev.act);
    SwapKeeps(ActAtA(Swap(w), ev.act));
    if ev.atA {
      OpenEngine(w);
      EngineWorks(w.a, w.ba, ev.act, w.ab);
    } else if ev.act.DrainIt? {
      DrainWorks(w, ev.act.failAt);
    } else {
      ReadWorks(w, ev.act);
      ReadStaysOpen(w.b, w.ab);
    }
  }

  lemma DrainWorks(w: World, failAt: nat)
    requires Ready(w) && w.b.inbox != [] && failAt >= |w.b.inbox|
    ensures var w' := Step(w, Event(false, DrainIt(failAt)));
            && Open(w'.b) && Listening(w'.b) && w'.a == w.a && w'.ab == w.ab && w'.b.inbox == []
  {
    hide Inv, FlatMap;
  }

  /** Each step carries the messages of `a` on when its turn comes. */
  predicate Schedule(w: World, evs: seq<Event>)
    decreases |evs|
  {
    evs == [] || (Carries(w, evs[0]) && Schedule(Step(w, evs[0]), evs[1..]))
  }

  /** No step would carry anything on. */
  ghost predicate AtEnd(w: World) {
    forall ev :: !Carries(w, ev)
  }

  lemma {:induction false} ScheduleEnds(w: World, evs: seq<Event>)
    requires Ready(w) && Schedule(w, evs)
    ensures Ready(RunAll(w, evs)) && RunAll(w, evs).a.accepted == w.a.accepted
    ensures |evs| + Work(RunAll(w, evs)) <= Work(w)
    decreases |evs|
  {
    hide Ready, Carries, Work, Step;
    if evs != [] {
      CarryStep(w, evs[0]);
      ScheduleEnds(Step(w, evs[0]), evs[1..]);
    }
  }

  /** If bytes are queued, in flight or unread, some step carries them on. */
  lemma SomeCarries(w: World) returns (ev: Event)
    requires Ready(w) && !Quiet(w.a, w.ab, w.b)
    ensures Carries(w, ev)
  {
    hide Inv, Engine, ReceiverInv, EndpointAfter, LinkRead, QueuedBytes;
    if w.a.queue != [] {
      OpenEngine(w);
      SendStep(w.a, w.ba);
      FrontHasBytes(w.a);
      ev := Event(true, NextSend(w.a));
    } else if w.b.inbox != [] {
      ev := Event(false, DrainIt(|w.b.inbox|));
    } else {
      AllOnWire(w);
      ReadEnabled(Frames(w.a), w.ab, w.b);
      ev := Event(false, NextRead(w.b));
    }
  }

  /** A schedule is at its end exactly if everything is sent, read and dispatched. */
  lemma EndIsQuiet(w: World)
    requires Ready(w)
    ensures AtEnd(w) <==> Quiet(w.a, w.ab, w.b)
  {
    hide Inv, Engine, EndpointAfter;
    if Quiet(w.a, w.ab, w.b) {
      forall ev ensures !Carries(w, ev) {
        QuietEnds(w, ev);
      }
    } else {
      var ev := SomeCarries(w);
    }
  }

  lemma QuietEnds(w: World, ev: Event)
    requires Ready(w) && Quiet(w.a, w.ab, w.b)
    ensures !Carries(w, ev)
  {
    hide Encode, Content, MessageOf, FlatMap;
    if ev == Event(false, BodyArrives) && w.b.reading.ReadBody? {
      UserContent(Frames(w.a)[w.ab.got]);
    }
  }

  lemma FrontHasBytes(e: Endpoint)
    requires Engine(e) && e.queue != []
    ensures |e.queue[0]| > 0
  {
  }

  lemma AllOnWire(w: World)
    requires Ready(w) && w.a.queue == []
    ensures AllValid(Frames(w.a)) && ReceiverInv(Frames(w.a), w.ab, w.b) && w.ab.wire == Stream(Frames(w.a))
  {
    FramesValid(w.a);
  }

  /** After `more` everything end `a` had accepted in `w` has been dispatched at end `b`. */
  ghost predicate DeliversAll(w: World, more: seq<Event>) {
    var w' := RunAll(w, more);
    && Quiet(w'.a, w'.ab, w'.b)
    && w'.a.accepted == w.a.accepted
    && w'.b.delivered == Contents(Frames(w.a))
  }

  lemma QuietDelivers(w: World, more: seq<Event>)
    requires Ready(w) && Schedule(w, more) && AtEnd(RunAll(w, more))
    ensures DeliversAll(w, more)
  {
    hide Inv, RunAll, Contents, AtEnd;
    ScheduleEnds(w, more);
    EndIsQuiet(RunAll(w, more));
    SentAndQuiet(RunAll(w, more));
    assert Frames(RunAll(w, more).a) == Frames(w.a);
  }

  /** Carrying on for as long as that is possible. */
  lemma {:induction false} CarryOn(w: World) returns (more: seq<Event>)
    requires Ready(w)
    ensures Schedule(w, more) && AtEnd(RunAll(w, more))
    decreases Work(w)
  {
    hide Ready, Carries, Step, Work;
    if AtEnd(w) {
      more := [];
    } else {
      var ev :| Carries(w, ev);
      CarryStep(w, ev);
      var rest := CarryOn(Step(w, ev));
      more := [ev] + rest;
      assert more[0] == ev && more[1..] == rest;
    }
  }

  lemma SentAndQuiet(w: World)
    requires Inv(w) && Quiet(w.a, w.ab, w.b)
    ensures w.b.delivered == Contents(Frames(w.a))
  {
    QuietDelivered(w.a, w.ab, w.b);
  }

  lemma ReachedIsReady(evs: seq<Event>)
    requires Open(RunAll(Start(), evs).a) && Open(RunAll(Start(), evs).b)
    ensures Ready(RunAll(Start(), evs)) && Ready(Swap(RunAll(Start(), evs)))
  {
    hide Inv, RunAll;
    StartInv();
    RunKeeps(Start(), evs);
    StartListens();
    RunKeepsListening(Start(), evs);
    SwapKeeps(RunAll(Start(), evs));
  }

  /**
   From every reachable state in which both ends are connected, whatever was sent, taken or half read so far, every
   schedule of steps that carry messages of one end on (its engine sending at least one byte at a time, the reads
   and drains of the other) is no longer than the work left, and it has delivered every accepted message exactly if
   it cannot be extended. So it is in both directions.
   */
  lemma EveryScheduleDelivers(evs: seq<Event>, atA: bool, more: seq<Event>)
    requires Open(RunAll(Start(), evs).a) && Open(RunAll(Start(), evs).b)
    requires Schedule(From(evs, atA), more)
    ensures |more| <= Work(From(evs, atA))
    ensures AtEnd(RunAll(From(evs, atA), more)) <==> DeliversAll(From(evs, atA), more)
  {
    hide RunAll, Ready, AtEnd, Schedule, Contents;
    ReachedIsReady(evs);
    ScheduleEnds(From(evs, atA), more);
    EndIsQuiet(RunAll(From(evs, atA), more));
    if AtEnd(RunAll(From(evs, atA), more)) {
      QuietDelivers(From(evs, atA), more);
    }
  }

  /** The state after a run, seen from the end whose messages are followed. */
  function From(evs: seq<Event>, atA: bool): World {
    if atA then RunAll(Start(), evs) else Swap(RunAll(Start(), evs))
  }

  /** Never stuck: from each such state there is a continuation that delivers every accepted message. */
  lemma CanAlwaysDeliver(evs: seq<Event>, atA: bool)
    requires Open(RunAll(Start(), evs).a) && Open(RunAll(Start(), evs).b)
    ensures exists more :: DeliversAll(From(evs, atA), more)
  {
    hide RunAll, Ready, AtEnd, Schedule, DeliversAll;
    ReachedIsReady(evs);
    var more := CarryOn(From(evs, atA));
    QuietDelivers(From(evs, atA), more);
  }

  lemma StartListens()
    ensures Listening(Start().a) && Listening(Start().b)
  {
  }
}
