/**
 Which commands of the connector pool are answered, told from the executed commands alone; that the pool works off what
 was pushed; and which connector a read goes to.
 */
module ConnectorAnswers {
  import opened Options
  import opened Sequences
  import opened ConnectorQueues

  // ---------------------------------------------------------------- what is answered

  /** A command that deserves a result: no write, and on a read connector no empty one. */
  predicate Deserves(reader: bool, x: Executed) {
    !x.cmd.write && (reader ==> !x.empty)
  }

  lemma {:induction false} AnswersAre(reader: bool, done: seq<Executed>, f: Executed -> seq<Cmd>)
    requires forall x :: f(x) == Answers(reader, x)
    ensures forall cmd :: cmd in FlatMap(f, done) <==> exists x :: x in done && x.cmd == cmd && Deserves(reader, x)
    decreases |done|
  {
    if done != [] {
      AnswersAre(reader, done[1..], f);
      forall cmd
        ensures cmd in FlatMap(f, done) <==> exists x :: x in done && x.cmd == cmd && Deserves(reader, x)
      {
        if x :| x in done && x.cmd == cmd && Deserves(reader, x) {
          assert x == done[0] || x in done[1..];
        }
        if cmd in Answers(reader, done[0]) {
          assert done[0] in done && Deserves(reader, done[0]);
        } else if cmd in FlatMap(f, done[1..]) {
          var x :| x in done[1..] && x.cmd == cmd && Deserves(reader, x);
          assert x in done;
        }
      }
    }
  }

  lemma {:induction false} CalledAre(s: seq<Cmd>)
    ensures forall cmd :: cmd in Called(s) <==> cmd in s && cmd.hasCallback
    decreases |s|
  {
    if s != [] {
      CalledAre(s[1..]);
    }
  }

  /**
   Collected or queued are exactly the executed commands that deserve a result, in order and once each; and a callback
   has fired exactly for the collected ones that have one.
   */
  ghost predicate AnsweredExactly(c: Connector) {
    && Increasing(c.collected + c.resList)
    && (forall cmd :: cmd in c.collected + c.resList <==>
          exists x :: x in c.done && x.cmd == cmd && Deserves(c.reader, x))
    && (forall cmd :: cmd in Called(c.collected) <==> cmd in c.collected && cmd.hasCallback)
  }

  lemma ConnectorAnswersExactly(c: Connector)
    requires Inv(c)
    ensures AnsweredExactly(c)
  {
    hide Called;
    forall i, j | 0 <= i < j < |c.done| ensures Commands(c.done)[i].tag < Commands(c.done)[j].tag {
      assert Commands(c.done)[i] == c.pushed[i] && Commands(c.done)[j] == c.pushed[j];
    }
    AnswersIncrease(c.reader, c.done);
    AnswersAre(c.reader, c.done, x => Answers(c.reader, x));
    CalledAre(c.collected);
  }

  /** Over every interleaving, on every connector. */
  lemma PoolAnswersExactly(readSize: nat, writeSize: nat, evs: seq<Event>)
    requires readSize >= 1 && writeSize >= 1
    ensures var p := RunAll(NewPool(readSize, writeSize), evs);
            && (forall i :: 0 <= i < |p.readers| ==> AnsweredExactly(p.readers[i]) && p.readers[i].reader)
            && (forall i :: 0 <= i < |p.writers| ==> AnsweredExactly(p.writers[i]) && !p.writers[i].reader)
  {
    hide Inv, AnsweredExactly, RunAll;
    PoolRun(readSize, writeSize, evs);
    KindsStay(NewPool(readSize, writeSize), evs);
    var p := RunAll(NewPool(readSize, writeSize), evs);
    forall i | 0 <= i < |p.readers| ensures AnsweredExactly(p.readers[i]) {
      ConnectorAnswersExactly(p.readers[i]);
    }
    forall i | 0 <= i < |p.writers| ensures AnsweredExactly(p.writers[i]) {
      ConnectorAnswersExactly(p.writers[i]);
    }
  }

  predicate Kinds(p: Pool) {
    && (forall i :: 0 <= i < |p.readers| ==> p.readers[i].reader)
    && (forall i :: 0 <= i < |p.writers| ==> !p.writers[i].reader)
  }

  lemma {:induction false} KindsStay(p: Pool, evs: seq<Event>)
    requires Kinds(p)
    ensures Kinds(RunAll(p, evs))
    decreases |evs|
  {
    hide Kinds;
    if evs != [] {
      KindsStep(p, evs[0]);
      KindsStay(Step(p, evs[0]), evs[1..]);
    }
  }

  lemma KindsStep(p: Pool, ev: Event)
    requires Kinds(p)
    ensures Kinds(Step(p, ev))
  {
  }

  // ---------------------------------------------------------------- everything is worked off

  /** What is left to do on a connector. */
  function Left(c: Connector): nat {
    3 * |c.cmdList| + (if c.inHand.Some? then 2 else 0) + |c.resList|
  }

  function AllLeft(cs: seq<Connector>): nat {
    if cs == [] then 0 else Left(cs[0]) + AllLeft(cs[1..])
  }

  function PoolLeft(p: Pool): nat {
    AllLeft(p.readers) + AllLeft(p.writers)
  }

  lemma {:induction false} OneLess(cs: seq<Connector>, i: nat, c: Connector)
    requires i < |cs|
    ensures AllLeft(cs[i := c]) == AllLeft(cs) - Left(cs[i]) + Left(c)
    decreases |cs|
  {
    if i > 0 {
      assert cs[i := c][1..] == cs[1..][i - 1 := c];
      OneLess(cs[1..], i - 1, c);
    } else {
      assert cs[i := c][1..] == cs[1..];
    }
  }

  /** A worker or a collection that finds something to do. */
  predicate WorksOff(p: Pool, ev: Event) {
    match ev
    case WorkerPops(reader, i) =>
      i < |if reader then p.readers else p.writers| && At(p, reader, i).inHand.None? && At(p, reader, i).cmdList != []
    case WorkerFinishes(reader, i, _) =>
      i < |if reader then p.readers else p.writers| && At(p, reader, i).inHand.Some?
    case MainCollects(reader, i) =>
      i < |if reader then p.readers else p.writers| && At(p, reader, i).resList != []
    case _ => false
  }

  function WorkedOff(c: Connector, ev: Event): Connector {
    match ev
    case WorkerPops(_, _) => Pop(c)
    case WorkerFinishes(_, _, empty) => Finish(c, empty)
    case MainCollects(_, _) => Collect(c)
    case _ => c
  }

  lemma WorkStep(p: Pool, ev: Event)
    requires WorksOff(p, ev)
    ensures PoolLeft(Step(p, ev)) < PoolLeft(p)
    ensures SamePushed(p, Step(p, ev))
  {
    var c := At(p, ev.reader, ev.i);
    if ev.reader {
      OneLess(p.readers, ev.i, WorkedOff(c, ev));
    } else {
      OneLess(p.writers, ev.i, WorkedOff(c, ev));
    }
  }

  /** The same commands have been pushed to each connector. */
  predicate SamePushed(p: Pool, q: Pool) {
    && |p.readers| == |q.readers| && |p.writers| == |q.writers|
    && (forall i :: 0 <= i < |p.readers| ==> q.readers[i].pushed == p.readers[i].pushed)
    && (forall i :: 0 <= i < |p.writers| ==> q.writers[i].pushed == p.writers[i].pushed)
  }

  predicate Schedule(p: Pool, evs: seq<Event>)
    decreases |evs|
  {
    evs == [] || (WorksOff(p, evs[0]) && Schedule(Step(p, evs[0]), evs[1..]))
  }

  ghost predicate NothingToDo(p: Pool) {
    forall ev :: !WorksOff(p, ev)
  }

  lemma {:induction false} ScheduleEnds(p: Pool, evs: seq<Event>)
    requires PoolInv(p) && Schedule(p, evs)
    ensures var q := RunAll(p, evs);
            PoolInv(q) && SamePushed(p, q) && |evs| + PoolLeft(q) <= PoolLeft(p)
    decreases |evs|
  {
    hide PoolInv, WorksOff, PoolLeft, Step;
    if evs != [] {
      WorkStep(p, evs[0]);
      StepKeeps(p, evs[0]);
      ScheduleEnds(Step(p, evs[0]), evs[1..]);
    }
  }

  /** All pushed commands were executed and all results collected. */
  predicate WorkedUp(c: Connector) {
    c.cmdList == [] && c.inHand.None? && c.resList == []
  }

  lemma NothingToDoExactly(p: Pool)
    ensures NothingToDo(p) <==>
              && (forall i :: 0 <= i < |p.readers| ==> WorkedUp(p.readers[i]))
              && (forall i :: 0 <= i < |p.writers| ==> WorkedUp(p.writers[i]))
  {
    if NothingToDo(p) {
      forall i | 0 <= i < |p.readers| ensures WorkedUp(p.readers[i]) {
        assert !WorksOff(p, WorkerPops(true, i)) && !WorksOff(p, WorkerFinishes(true, i, false));
        assert !WorksOff(p, MainCollects(true, i));
      }
      forall i | 0 <= i < |p.writers| ensures WorkedUp(p.writers[i]) {
        assert !WorksOff(p, WorkerPops(false, i)) && !WorksOff(p, WorkerFinishes(false, i, false));
        assert !WorksOff(p, MainCollects(false, i));
      }
    }
  }

  /** Everything pushed was executed, in order, and exactly what deserves a result was collected. */
  ghost predicate Served(c: Connector) {
    && Commands(c.done) == c.pushed && Increasing(c.collected)
    && (forall cmd :: cmd in c.collected <==> exists x :: x in c.done && x.cmd == cmd && Deserves(c.reader, x))
    && (forall cmd :: cmd in Called(c.collected) <==> cmd in c.collected && cmd.hasCallback)
  }

  lemma WorkedUpIsServed(c: Connector)
    requires Inv(c) && WorkedUp(c)
    ensures Served(c)
  {
    hide Called, Increasing;
    ConnectorAnswersExactly(c);
    assert Commands(c.done) + [] + [] == Commands(c.done) && c.collected + [] == c.collected;
  }

  /**
   After any interleaving, every schedule of workers that find a command and collections that find a result ends within
   the work left, and when none finds any, every command pushed was executed and every result due was collected.
   */
  lemma PoolServes(readSize: nat, writeSize: nat, evs: seq<Event>, more: seq<Event>)
    requires readSize >= 1 && writeSize >= 1 && Schedule(RunAll(NewPool(readSize, writeSize), evs), more)
    ensures var p := RunAll(NewPool(readSize, writeSize), evs);
            var q := RunAll(p, more);
            && |more| <= PoolLeft(p) && SamePushed(p, q)
            && (NothingToDo(q) ==>
                  && (forall i :: 0 <= i < |q.readers| ==> Served(q.readers[i]))
                  && (forall i :: 0 <= i < |q.writers| ==> Served(q.writers[i])))
  {
    hide Inv, RunAll, Schedule, NothingToDo, Served, SamePushed;
    FreshPool(readSize, writeSize);
    RunKeeps(NewPool(readSize, writeSize), evs);
    var p := RunAll(NewPool(readSize, writeSize), evs);
    ScheduleEnds(p, more);
    var q := RunAll(p, more);
    if NothingToDo(q) {
      NothingToDoExactly(q);
      forall i | 0 <= i < |q.readers| ensures Served(q.readers[i]) {
        WorkedUpIsServed(q.readers[i]);
      }
      forall i | 0 <= i < |q.writers| ensures Served(q.writers[i]) {
        WorkedUpIsServed(q.writers[i]);
      }
    }
  }

  // ---------------------------------------------------------------- whose turn it is

  /** Reads pushed since the last write. */
  function ReadsSinceWrite(evs: seq<Event>): nat {
    if evs == [] then 0
    else
      match evs[|evs| - 1]
      case PushRead(_, _) => ReadsSinceWrite(evs[..|evs| - 1]) + 1
      case PushWrite(_, _, _) => 0
      case _ => ReadsSinceWrite(evs[..|evs| - 1])
  }

  /** The place of the n-th of a round. */
  function Place(n: nat, size: nat): (p: nat)
    requires size >= 1
    ensures p < size
  {
    n % size
  }

  /**
   With one write connector, as configured, reads go round: the next one goes to the reader behind the one of the last,
   and every write starts the round over at the second reader, if there is one.
   */
  lemma {:induction false} ReadsGoRound(readSize: nat, evs: seq<Event>)
    requires readSize >= 1
    ensures var p := RunAll(NewPool(readSize, 1), evs);
            && |p.readers| == readSize && |p.writers| == 1 && p.writeIndex == 0
            && p.readIndex == Place(ReadsSinceWrite(evs), readSize)
            && NextRead(p) == Place(ReadsSinceWrite(evs) + 1, readSize)
    decreases |evs|
  {
    hide RunAll, NewPool, Step, Place;
    if evs != [] {
      var before, ev := evs[..|evs| - 1], evs[|evs| - 1];
      assert evs == before + [ev];
      RunOneMore(NewPool(readSize, 1), before, ev);
      ReadsGoRound(readSize, before);
      NextInRound(ReadsSinceWrite(before), readSize);
      StepOfRound(RunAll(NewPool(readSize, 1), before), ev);
    } else {
      NewRound(readSize);
    }
    NextInRound(ReadsSinceWrite(evs), readSize);
  }

  lemma NewRound(readSize: nat)
    ensures var p := RunAll(NewPool(readSize, 1), []);
            |p.readers| == readSize && |p.writers| == 1 && p.writeIndex == 0 && p.readIndex == 0
  {
  }

  lemma StepOfRound(p: Pool, ev: Event)
    requires |p.readers| >= 1 && |p.writers| == 1 && p.writeIndex == 0 && 0 <= p.readIndex < |p.readers|
    ensures var q := Step(p, ev);
            && |q.readers| == |p.readers| && |q.writers| == 1 && q.writeIndex == 0
            && q.readIndex == match ev
                              case PushRead(_, _) => NextRead(p)
                              case PushWrite(_, _, _) => 0
                              case _ => p.readIndex
  {
    hide Push, Pop, Finish, Collect;
  }

  /** The writes of a run, as they were asked for. */
  function WritesAsked(evs: seq<Event>): seq<Asked> {
    if evs == [] then []
    else
      WritesAsked(evs[..|evs| - 1]) +
      (match evs[|evs| - 1]
       case PushWrite(sql, hasCallback, write) => [Asked(sql, hasCallback, write)]
       case _ => [])
  }

  /** The reads of a run that are reader `i`'s turn. */
  function ReadsAsked(evs: seq<Event>, i: nat, size: nat): seq<Asked>
    requires size >= 1
  {
    if evs == [] then []
    else
      ReadsAsked(evs[..|evs| - 1], i, size) +
      (match evs[|evs| - 1]
       case PushRead(sql, hasCallback) =>
         if Place(ReadsSinceWrite(evs), size) == i then [Asked(sql, hasCallback, false)] else []
       case _ => [])
  }

  /** Over every run, each connector was given exactly the reads of its turns, and the write connector all writes. */
  lemma {:induction false} GivenIsAsked(readSize: nat, evs: seq<Event>)
    requires readSize >= 1
    ensures var p := RunAll(NewPool(readSize, 1), evs);
            && |p.readers| == readSize && |p.writers| == 1
            && p.writers[0].given == WritesAsked(evs)
            && forall i :: 0 <= i < readSize ==> p.readers[i].given == ReadsAsked(evs, i, readSize)
    decreases |evs|
  {
    hide RunAll, NewPool, Step, Place, NextRead;
    ReadsGoRound(readSize, evs);
    if evs != [] {
      var before, ev := evs[..|evs| - 1], evs[|evs| - 1];
      assert evs == before + [ev];
      RunOneMore(NewPool(readSize, 1), before, ev);
      ReadsGoRound(readSize, before);
      GivenIsAsked(readSize, before);
      StepGives(RunAll(NewPool(readSize, 1), before), ev);
    } else {
      NewGives(readSize);
    }
  }

  lemma NewGives(readSize: nat)
    ensures var p := RunAll(NewPool(readSize, 1), []);
            p.writers[0].given == [] && forall i :: 0 <= i < |p.readers| ==> p.readers[i].given == []
  {
  }

  lemma StepGives(p: Pool, ev: Event)
    requires |p.readers| >= 1 && |p.writers| == 1 && p.writeIndex == 0 && 0 <= NextRead(p) < |p.readers|
    ensures var q := Step(p, ev);
            && |q.readers| == |p.readers| && |q.writers| == 1
            && q.writers[0].given == p.writers[0].given +
                 (match ev
                  case PushWrite(sql, hasCallback, write) => [Asked(sql, hasCallback, write)]
                  case _ => [])
            && forall i :: 0 <= i < |p.readers| ==>
                 q.readers[i].given == p.readers[i].given +
                   (match ev
                    case PushRead(sql, hasCallback) => if NextRead(p) == i then [Asked(sql, hasCallback, false)] else []
                    case _ => [])
  {
    hide NextRead;
  }

  lemma NextInRound(n: nat, size: nat)
    requires size >= 1
    ensures Place(0, size) == 0
    ensures Place(n + 1, size) == if Place(n, size) >= size - 1 then 0 else Place(n, size) + 1
  {
    var q, r := n / size, n % size;
    if r >= size - 1 {
      assert n + 1 == q * size + size == (q + 1) * size + 0;
      Remainder(n + 1, q + 1, 0, size);
    } else {
      Remainder(n + 1, q, r + 1, size);
    }
  }

  lemma Remainder(m: nat, q: nat, r: nat, size: nat)
    requires m == q * size + r && r < size
    ensures m % size == r
  {
    var p := m / size;
    assert m == p * size + m % size;
    Larger(q, p, size);
    Larger(p, q, size);
  }

  lemma Larger(q: nat, p: nat, size: nat)
    ensures q > p ==> q * size >= p * size + size
  {
    if q > p {
      assert q * size == p * size + (q - p) * size;
      assert (q - p) * size == size + (q - p - 1) * size;
    }
  }

  // ---------------------------------------------------------------- one call of `run`

  /** The oldest result was taken, if there was one, and nothing else happened. */
  predicate OldestTaken(c: Connector, d: Connector) {
    if c.resList == [] then d == c
    else d == c.(resList := c.resList[1..], collected := c.collected + [c.resList[0]])
  }

  /** After the first `k` collections of a call. */
  predicate CollectedTo(p: Pool, q: Pool, k: nat) {
    && |q.readers| == |p.readers| && |q.writers| == |p.writers|
    && q == p.(readers := q.readers, writers := q.writers)
    && (forall i :: 0 <= i < |p.readers| ==>
          if i < k then OldestTaken(p.readers[i], q.readers[i]) else q.readers[i] == p.readers[i])
    && (forall i :: 0 <= i < |p.writers| ==>
          if |p.readers| + i < k then OldestTaken(p.writers[i], q.writers[i]) else q.writers[i] == p.writers[i])
  }

  lemma {:induction false} CollectPrefix(p: Pool, k: nat)
    requires k <= |p.readers| + |p.writers|
    ensures CollectedTo(p, RunAll(p, Collects(|p.readers|, |p.writers|)[..k]), k)
    decreases k
  {
    hide OldestTaken, RunAll, Step;
    var evs := Collects(|p.readers|, |p.writers|);
    if k == 0 {
      NoStep(p);
    } else {
      CollectPrefix(p, k - 1);
      assert evs[..k] == evs[..k - 1] + [evs[k - 1]];
      RunOneMore(p, evs[..k - 1], evs[k - 1]);
      CollectOneMore(p, RunAll(p, evs[..k - 1]), k - 1);
    }
  }

  lemma NoStep(p: Pool)
    ensures RunAll(p, []) == p
  {
  }

  lemma CollectOneMore(p: Pool, q: Pool, k: nat)
    requires k < |p.readers| + |p.writers| && CollectedTo(p, q, k)
    ensures var ev := if k < |p.readers| then MainCollects(true, k) else MainCollects(false, k - |p.readers|);
            CollectedTo(p, Step(q, ev), k + 1)
  {
  }

  /** One call takes the oldest result of every connector that has one, readers first, and does nothing else. */
  lemma RunTakesOldest(p: Pool)
    ensures CollectedTo(p, RunAll(p, Collects(|p.readers|, |p.writers|)), |p.readers| + |p.writers|)
  {
    hide RunAll, CollectedTo;
    var evs := Collects(|p.readers|, |p.writers|);
    assert evs[..|p.readers| + |p.writers|] == evs;
    CollectPrefix(p, |p.readers| + |p.writers|);
  }
}
