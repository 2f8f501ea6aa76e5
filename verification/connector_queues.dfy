/**
 The MySQL connector pool as a transition system: the main thread pushes commands and collects results,
 one worker per connector pops, executes and queues results. Each locked queue operation is one step.
 */
module ConnectorQueues {
  import opened Options
  import opened Sequences
  import opened SqlStatements

  /** A command with its own copy of a text; `tag` is its position among those pushed to its connector. */
  datatype Cmd = Cmd(sql: string, hasCallback: bool, write: bool, tag: nat)

  /** A command that was executed, and whether the server returned an empty result. */
  datatype Executed = Executed(cmd: Cmd, empty: bool)

  /** What the main thread asked a connector to do. */
  datatype Asked = Asked(sql: string, hasCallback: bool, write: bool)

  datatype Connector = Connector(
    reader: bool,             // runs the read worker, otherwise the write worker
    cmdList: seq<Cmd>,
    inHand: Option<Cmd>,      // popped by the worker, not yet done
    resList: seq<Cmd>,        // results, by the command they answer
    given: seq<Asked>,        // history: what was passed to `push_read_cmd` and `push_write_cmd`
    pushed: seq<Cmd>,         // history: the commands made of them
    done: seq<Executed>,      // history: executed by the worker
    collected: seq<Cmd>       // history: results taken by the main thread
  )

  /** Whether the worker queues a result: never for a write, and the read worker drops empty ones. */
  function Answers(reader: bool, x: Executed): seq<Cmd> {
    if x.cmd.write || (reader && x.empty) then [] else [x.cmd]
  }

  function Idle(reader: bool): Connector {
    Connector(reader, [], None, [], [], [], [], [])
  }

  // ---------------------------------------------------------------- one connector

  function Push(c: Connector, sql: string, hasCallback: bool, write: bool): Connector {
    var cmd := Cmd(Queued(sql), hasCallback, write, |c.pushed|);
    c.(cmdList := c.cmdList + [cmd], given := c.given + [Asked(sql, hasCallback, write)], pushed := c.pushed + [cmd])
  }

  function Pop(c: Connector): Connector {
    if c.inHand.Some? || c.cmdList == [] then c
    else c.(inHand := Some(c.cmdList[0]), cmdList := c.cmdList[1..])
  }

  function Finish(c: Connector, empty: bool): Connector {
    if c.inHand.None? then c
    else
      var x := Executed(c.inHand.value, empty);
      c.(inHand := None, done := c.done + [x], resList := c.resList + Answers(c.reader, x))
  }

  function Collect(c: Connector): Connector {
    if c.resList == [] then c
    else c.(resList := c.resList[1..], collected := c.collected + [c.resList[0]])
  }

  function Commands(done: seq<Executed>): seq<Cmd> {
    seq(|done|, i requires 0 <= i < |done| => done[i].cmd)
  }

  function Held(c: Connector): seq<Cmd> {
    if c.inHand.Some? then [c.inHand.value] else []
  }

  /** The callbacks fired: of the collected results, those that have one. */
  function Called(collected: seq<Cmd>): seq<Cmd> {
    if collected == [] then []
    else (if collected[0].hasCallback then [collected[0]] else []) + Called(collected[1..])
  }

  /**
   Conservation: what was pushed is what was executed, then what is in hand, then what waits; and what the
   executed commands answered is what was collected, then what is queued.
   */
  ghost predicate Inv(c: Connector) {
    && c.pushed == Commands(c.done) + Held(c) + c.cmdList
    && FlatMap((x: Executed) => Answers(c.reader, x), c.done) == c.collected + c.resList
    && |c.given| == |c.pushed|
    && (forall i :: 0 <= i < |c.pushed| ==> Makes(c.given[i], c.pushed[i], i))
  }

  /** A command is made of what was asked, but for the length of its text. */
  predicate Makes(a: Asked, cmd: Cmd, i: nat) {
    cmd.tag == i && cmd.sql == Queued(a.sql) && cmd.hasCallback == a.hasCallback && cmd.write == a.write
  }

  lemma PushKeeps(c: Connector, sql: string, hasCallback: bool, write: bool)
    requires Inv(c)
    ensures Inv(Push(c, sql, hasCallback, write))
  {
    hide Queued;
    var cmd := Cmd(Queued(sql), hasCallback, write, |c.pushed|);
    assert Commands(c.done) + Held(c) + (c.cmdList + [cmd]) == (Commands(c.done) + Held(c) + c.cmdList) + [cmd];
  }

  lemma PopKeeps(c: Connector)
    requires Inv(c)
    ensures Inv(Pop(c))
  {
    if c.inHand.None? && c.cmdList != [] {
      assert c.cmdList == [c.cmdList[0]] + c.cmdList[1..];
      assert Commands(c.done) + [] + c.cmdList == Commands(c.done) + [c.cmdList[0]] + c.cmdList[1..];
    }
  }

  lemma FinishKeeps(c: Connector, empty: bool)
    requires Inv(c)
    ensures Inv(Finish(c, empty))
  {
    hide Answers, Makes;
    if c.inHand.Some? {
      var x := Executed(c.inHand.value, empty);
      var f := (x: Executed) => Answers(c.reader, x);
      FlatMapAppend(f, c.done, x);
      OneMoreDone(c.done, x, c.cmdList);
      Behind(c.collected, c.resList, Answers(c.reader, x));
    }
  }

  lemma OneMoreDone(done: seq<Executed>, x: Executed, waiting: seq<Cmd>)
    ensures Commands(done + [x]) + [] + waiting == Commands(done) + [x.cmd] + waiting
  {
    assert Commands(done + [x]) == Commands(done) + [x.cmd];
  }

  lemma Behind(a: seq<Cmd>, b: seq<Cmd>, c: seq<Cmd>)
    ensures a + (b + c) == (a + b) + c
  {
  }

  lemma CollectKeeps(c: Connector)
    requires Inv(c)
    ensures Inv(Collect(c))
  {
    if c.resList != [] {
      assert c.resList == [c.resList[0]] + c.resList[1..];
      assert c.collected + c.resList == (c.collected + [c.resList[0]]) + c.resList[1..];
    }
  }

  /** Tags grow along a list of commands. */
  ghost predicate Increasing(s: seq<Cmd>) {
    forall i, j :: 0 <= i < j < |s| ==> s[i].tag < s[j].tag
  }

  lemma {:induction false} AnswersIncrease(reader: bool, done: seq<Executed>)
    requires Increasing(Commands(done))
    ensures var a := FlatMap((x: Executed) => Answers(reader, x), done);
            && Increasing(a)
            && forall cmd: Cmd :: cmd in a ==> exists i :: 0 <= i < |done| && done[i].cmd == cmd
    decreases |done|
  {
    if done != [] {
      var f := (x: Executed) => Answers(reader, x);
      var rest := done[1..];
      IncreasingTail(Commands(done));
      assert Commands(done)[1..] == Commands(rest);
      AnswersIncrease(reader, rest);
      forall cmd: Cmd | cmd in FlatMap(f, rest) ensures done[0].cmd.tag < cmd.tag {
        var i :| 0 <= i < |rest| && rest[i].cmd == cmd;
        assert Commands(done)[0].tag < Commands(done)[i + 1].tag;
      }
      forall cmd: Cmd | cmd in FlatMap(f, done) ensures exists i :: 0 <= i < |done| && done[i].cmd == cmd {
        if cmd in FlatMap(f, rest) {
          var i :| 0 <= i < |rest| && rest[i].cmd == cmd;
          assert done[i + 1].cmd == cmd;
        } else {
          assert done[0].cmd == cmd;
        }
      }
    }
  }

  lemma IncreasingTail(s: seq<Cmd>)
    requires Increasing(s) && s != []
    ensures Increasing(s[1..])
    ensures forall cmd: Cmd :: cmd in s[1..] ==> s[0].tag < cmd.tag
  {
    forall i, j | 0 <= i < j < |s[1..]| ensures s[1..][i].tag < s[1..][j].tag {
      assert s[i + 1].tag < s[j + 1].tag;
    }
    forall cmd: Cmd | cmd in s[1..] ensures s[0].tag < cmd.tag {
      var i :| 0 <= i < |s[1..]| && s[1..][i] == cmd;
      assert s[0].tag < s[i + 1].tag;
    }
  }

  lemma IncreasingCons(x: Cmd, s: seq<Cmd>)
    requires Increasing(s) && forall cmd: Cmd :: cmd in s ==> x.tag < cmd.tag
    ensures Increasing([x] + s)
  {
    forall i, j | 0 <= i < j < |[x] + s| ensures ([x] + s)[i].tag < ([x] + s)[j].tag {
      assert s[j - 1] in s;
    }
  }

  lemma {:induction false} CalledIncrease(s: seq<Cmd>)
    requires Increasing(s)
    ensures Increasing(Called(s)) && forall cmd: Cmd :: cmd in Called(s) ==> cmd in s
    decreases |s|
  {
    hide Increasing;
    if s == [] {
      assert Called(s) == s;
    } else {
      IncreasingTail(s);
      CalledIncrease(s[1..]);
      IncreasingCons(s[0], Called(s[1..]));
      assert [] + Called(s[1..]) == Called(s[1..]);
    }
  }

  /** A statement was executed as it was given exactly if it is shorter than 65536 characters. */
  ghost predicate WholeExactly(c: Connector) {
    && |c.done| <= |c.given|
    && forall i :: 0 <= i < |c.done| ==> (c.done[i].cmd.sql == c.given[i].sql <==> |c.given[i].sql| < LENGTHS)
  }

  lemma ExecutesWhole(c: Connector)
    requires Inv(c)
    ensures WholeExactly(c)
  {
    hide Queued;
    forall i | 0 <= i < |c.done| ensures c.done[i].cmd.sql == c.given[i].sql <==> |c.given[i].sql| < LENGTHS {
      assert c.pushed[i] == Commands(c.done)[i];
      QueuedExactly(c.given[i].sql);
    }
  }

  /** Callbacks fire in push order, each at most once, and execution follows push order without gaps. */
  lemma InPushOrder(c: Connector)
    requires Inv(c)
    ensures Commands(c.done) <= c.pushed
    ensures Increasing(Called(c.collected))
  {
    forall i, j | 0 <= i < j < |c.done| ensures Commands(c.done)[i].tag < Commands(c.done)[j].tag {
      assert Commands(c.done)[i] == c.pushed[i] && Commands(c.done)[j] == c.pushed[j];
    }
    AnswersIncrease(c.reader, c.done);
    var all := c.collected + c.resList;
    forall i, j | 0 <= i < j < |c.collected| ensures c.collected[i].tag < c.collected[j].tag {
      assert all[i].tag < all[j].tag;
    }
    CalledIncrease(c.collected);
  }

  // ---------------------------------------------------------------- the pool

  datatype Pool = Pool(
    readers: seq<Connector>,
    writers: seq<Connector>,
    readIndex: int,
    writeIndex: int,
    writeLog: seq<Cmd>        // history: every command given to push_write_cmd
  )

  function NewPool(readSize: nat, writeSize: nat): Pool {
    Pool(seq(readSize, _ => Idle(true)), seq(writeSize, _ => Idle(false)), 0, 0, [])
  }

  /** The index `push_read_cmd` moves on to. */
  function NextRead(p: Pool): int {
    if p.readIndex >= |p.readers| - 1 then 0 else p.readIndex + 1
  }

  /** `push_write_cmd` moves the read index instead of its own. */
  function ReadIndexAfterWrite(p: Pool): int {
    if p.writeIndex >= |p.writers| - 1 then 0 else p.readIndex + 1
  }

  datatype Event =
    | PushRead(sql: string, hasCallback: bool)
    | PushWrite(sql: string, hasCallback: bool, write: bool)
    | WorkerPops(reader: bool, i: nat)
    | WorkerFinishes(reader: bool, i: nat, empty: bool)
    | MainCollects(reader: bool, i: nat)

  function At(p: Pool, reader: bool, i: nat): Connector
    requires i < |if reader then p.readers else p.writers|
  {
    if reader then p.readers[i] else p.writers[i]
  }

  function Put(p: Pool, reader: bool, i: nat, c: Connector): Pool
    requires i < |if reader then p.readers else p.writers|
  {
    if reader then p.(readers := p.readers[i := c]) else p.(writers := p.writers[i := c])
  }

  function Step(p: Pool, ev: Event): Pool {
    match ev
    case PushRead(sql, cb) =>
      var n := NextRead(p);
      if 0 <= n < |p.readers| then Put(p, true, n, Push(p.readers[n], sql, cb, false)).(readIndex := n) else p
    case PushWrite(sql, cb, write) =>
      var w := p.writeIndex;
      if 0 <= w < |p.writers| then
        var c := Push(p.writers[w], sql, cb, write);
        Put(p, false, w, c).(readIndex := ReadIndexAfterWrite(p), writeLog := p.writeLog + [c.pushed[|c.pushed| - 1]])
      else p
    case WorkerPops(reader, i) =>
      if i < |if reader then p.readers else p.writers| then Put(p, reader, i, Pop(At(p, reader, i))) else p
    case WorkerFinishes(reader, i, empty) =>
      if i < |if reader then p.readers else p.writers| then Put(p, reader, i, Finish(At(p, reader, i), empty)) else p
    case MainCollects(reader, i) =>
      if i < |if reader then p.readers else p.writers| then Put(p, reader, i, Collect(At(p, reader, i))) else p
  }

  function RunAll(p: Pool, evs: seq<Event>): Pool
    decreases |evs|
  {
    if evs == [] then p else RunAll(Step(p, evs[0]), evs[1..])
  }

  lemma {:induction false} RunOneMore(p: Pool, evs: seq<Event>, ev: Event)
    ensures RunAll(p, evs + [ev]) == Step(RunAll(p, evs), ev)
    decreases |evs|
  {
    hide Step;
    var all := evs + [ev];
    if evs == [] {
      assert all == [ev] && all[1..] == [];
    } else {
      assert all[0] == evs[0] && all[1..] == evs[1..] + [ev];
      RunOneMore(Step(p, evs[0]), evs[1..], ev);
    }
  }

  /** What one call of `run` does: a result is collected from each reader, then from each writer. */
  function Collects(readers: nat, writers: nat): seq<Event> {
    seq(readers, i requires 0 <= i < readers => MainCollects(true, i)) +
    seq(writers, i requires 0 <= i < writers => MainCollects(false, i))
  }

  ghost predicate PoolInv(p: Pool) {
    && |p.readers| >= 1 && |p.writers| >= 1
    && (forall i :: 0 <= i < |p.readers| ==> Inv(p.readers[i]))
    && (forall i :: 0 <= i < |p.writers| ==> Inv(p.writers[i]))
    && 0 <= p.readIndex && p.writeIndex == 0
    && p.writers[0].pushed == p.writeLog
  }

  lemma StepKeeps(p: Pool, ev: Event)
    requires PoolInv(p)
    ensures PoolInv(Step(p, ev))
    ensures |Step(p, ev).readers| == |p.readers| && |Step(p, ev).writers| == |p.writers|
    ensures 0 <= NextRead(p) < |p.readers|
  {
    hide Inv;
    match ev
    case PushRead(sql, cb) => PushKeeps(p.readers[NextRead(p)], sql, cb, false);
    case PushWrite(sql, cb, write) => PushKeeps(p.writers[p.writeIndex], sql, cb, write);
    case WorkerPops(reader, i) =>
      if i < |if reader then p.readers else p.writers| {
        PopKeeps(At(p, reader, i));
      }
    case WorkerFinishes(reader, i, empty) =>
      if i < |if reader then p.readers else p.writers| {
        FinishKeeps(At(p, reader, i), empty);
      }
    case MainCollects(reader, i) =>
      if i < |if reader then p.readers else p.writers| {
        CollectKeeps(At(p, reader, i));
      }
  }

  lemma {:induction false} RunKeeps(p: Pool, evs: seq<Event>)
    requires PoolInv(p)
    ensures PoolInv(RunAll(p, evs)) && |RunAll(p, evs).readers| == |p.readers|
    decreases |evs|
  {
    if evs != [] {
      StepKeeps(p, evs[0]);
      RunKeeps(Step(p, evs[0]), evs[1..]);
    }
  }

  /**
   Over every interleaving, with at least one connector of each kind: nothing is lost or doubled on its way
   through a connector, callbacks fire in push order, all writes go to the first write connector and execute
   in the order they were pushed, each with the text it was given exactly if that is shorter than 65536
   characters, and the next read index is in bounds although writes move it too.
   */
  lemma PoolRun(readSize: nat, writeSize: nat, evs: seq<Event>)
    requires readSize >= 1 && writeSize >= 1
    ensures var p := RunAll(NewPool(readSize, writeSize), evs);
            && |p.readers| == readSize && 0 <= NextRead(p) < readSize
            && p.writeIndex == 0 && |p.writers| >= 1
            && Commands(p.writers[0].done) <= p.writeLog
            && (forall i :: 0 <= i < |p.readers| ==> Inv(p.readers[i]) && WholeExactly(p.readers[i]) &&
                                                     Increasing(Called(p.readers[i].collected)))
            && (forall i :: 0 <= i < |p.writers| ==> Inv(p.writers[i]) && WholeExactly(p.writers[i]) &&
                                                     Increasing(Called(p.writers[i].collected)))
  {
    hide Inv, WholeExactly, Increasing;
    FreshPool(readSize, writeSize);
    RunKeeps(NewPool(readSize, writeSize), evs);
    var p := RunAll(NewPool(readSize, writeSize), evs);
    forall i | 0 <= i < |p.readers|
      ensures Increasing(Called(p.readers[i].collected)) && WholeExactly(p.readers[i])
    {
      InPushOrder(p.readers[i]);
      ExecutesWhole(p.readers[i]);
    }
    forall i | 0 <= i < |p.writers|
      ensures Increasing(Called(p.writers[i].collected)) && Commands(p.writers[i].done) <= p.writers[i].pushed
      ensures WholeExactly(p.writers[i])
    {
      InPushOrder(p.writers[i]);
      ExecutesWhole(p.writers[i]);
    }
  }

  lemma FreshPool(readSize: nat, writeSize: nat)
    requires readSize >= 1 && writeSize >= 1
    ensures PoolInv(NewPool(readSize, writeSize))
  {
  }
}
