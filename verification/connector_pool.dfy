/** `ConnectorInfo` and `MysqlConnectorPool`, proved against the steps of the connector queues. */
module ConnectorPools {
  import opened Options
  import opened ConnectorQueues
  import opened SqlStatements

  class ConnectorInfo {
    const reader: bool
    var cmdList: seq<Cmd>
    var resList: seq<Cmd>
    var pushCount: nat           // identifies commands; the source has their addresses

    var inHand: Option<Cmd>      // the local command of its worker

    // The histories of the specification.
    ghost var given: seq<Asked>
    ghost var pushed: seq<Cmd>
    ghost var done: seq<Executed>
    ghost var collected: seq<Cmd>

    constructor (reader: bool)
      ensures Valid() && View() == Idle(reader)
    {
      this.reader := reader;
      cmdList, resList, pushCount := [], [], 0;
      inHand, given, pushed, done, collected := None, [], [], [], [];
    }

    ghost predicate Valid()
      reads this
    {
      pushCount == |pushed|
    }

    ghost function View(): Connector
      reads this
    {
      Connector(reader, cmdList, inHand, resList, given, pushed, done, collected)
    }

    /** The constructor of a command narrows the length and copies that much; then `push`, under the command lock. */
    method PushCmd(sql: string, hasCallback: bool, write: bool)
      requires Valid()
      modifies this
      ensures Valid() && View() == Push(old(View()), sql, hasCallback, write)
    {
      var len := |sql| % LENGTHS;
      var cmd := Cmd(sql[..len], hasCallback, write, pushCount);
      cmdList := cmdList + [cmd];
      pushCount := pushCount + 1;
      given, pushed := given + [Asked(sql, hasCallback, write)], pushed + [cmd];
    }

    /** `pop`, under the command lock. */
    method PopCmd() returns (cmd: Option<Cmd>)
      requires Valid() && inHand == None
      modifies this
      ensures Valid() && View() == Pop(old(View())) && cmd == inHand
    {
      if |cmdList| == 0 {
        return None;
      }
      cmd := Some(cmdList[0]);
      cmdList := cmdList[1..];
      inHand := cmd;
    }

    /** `pop_res`, under the result lock. */
    method PopRes() returns (res: Option<Cmd>)
      requires Valid()
      modifies this
      ensures Valid() && View() == Collect(old(View()))
      ensures res == if old(resList) == [] then None else Some(old(resList)[0])
    {
      if |resList| == 0 {
        return None;
      }
      res := Some(resList[0]);
      resList := resList[1..];
      collected := collected + [res.value];
    }

    /** What follows a successful `pop` in `connector_read_func`: execute, then queue a nonempty result. */
    method ReadWork(cmd: Cmd, empty: bool)
      requires Valid() && reader && inHand == Some(cmd)
      modifies this
      ensures Valid() && View() == Finish(old(View()), empty)
    {
      inHand, done := None, done + [Executed(cmd, empty)];
      if !cmd.write {
        if empty {
          return;
        }
        resList := resList + [cmd];
      }
    }

    /** The same in `connector_write_func`: reads queue their result, empty or not. */
    method WriteWork(cmd: Cmd, empty: bool)
      requires Valid() && !reader && inHand == Some(cmd)
      modifies this
      ensures Valid() && View() == Finish(old(View()), empty)
    {
      inHand, done := None, done + [Executed(cmd, empty)];
      if !cmd.write {
        resList := resList + [cmd];
      }
    }

    /** The `pop` of a worker that has nothing in hand. */
    method TakeCmd()
      requires Valid()
      modifies this
      ensures Valid() && View() == Pop(old(View()))
    {
      if inHand.None? {
        var _ := PopCmd();
      }
    }

    /** What a worker does with the command in hand, by its kind. */
    method FinishCmd(empty: bool)
      requires Valid()
      modifies this
      ensures Valid() && View() == Finish(old(View()), empty)
    {
      if inHand.Some? {
        if reader {
          ReadWork(inHand.value, empty);
        } else {
          WriteWork(inHand.value, empty);
        }
      }
    }
  }

  class ConnectorPool {
    const readConnectors: seq<ConnectorInfo>
    const writeConnectors: seq<ConnectorInfo>
    var currReadIndex: int
    var currWriteIndex: int
    ghost var writeLog: seq<Cmd>

    /** A pool over connectors set up by `init`. */
    constructor (readers: seq<ConnectorInfo>, writers: seq<ConnectorInfo>)
      ensures readConnectors == readers && writeConnectors == writers
      ensures currReadIndex == 0 && currWriteIndex == 0 && writeLog == []
    {
      readConnectors, writeConnectors := readers, writers;
      currReadIndex, currWriteIndex, writeLog := 0, 0, [];
    }

    /** Each connector is an object of its own, of the kind of its list. */
    ghost predicate Valid()
      reads this, readConnectors, writeConnectors
    {
      && |readConnectors| >= 1 && |writeConnectors| >= 1
      && (forall i, j :: 0 <= i < j < |readConnectors| ==> readConnectors[i] != readConnectors[j])
      && (forall i, j :: 0 <= i < j < |writeConnectors| ==> writeConnectors[i] != writeConnectors[j])
      && (forall i :: 0 <= i < |readConnectors| ==> readConnectors[i].reader && readConnectors[i].Valid())
      && (forall i :: 0 <= i < |writeConnectors| ==> !writeConnectors[i].reader && writeConnectors[i].Valid())
      && 0 <= currReadIndex && 0 <= currWriteIndex < |writeConnectors|
    }

    ghost function View(): Pool
      reads this, readConnectors, writeConnectors
    {
      Pool(Views(readConnectors), Views(writeConnectors), currReadIndex, currWriteIndex, writeLog)
    }

    /** All but connector `i` of a list are as in `p`. */
    ghost predicate OthersAre(p: Pool, reader: bool, i: nat)
      reads this, readConnectors, writeConnectors
    {
      && |p.readers| == |readConnectors| && |p.writers| == |writeConnectors|
      && (forall k :: 0 <= k < |readConnectors| && !(reader && k == i) ==> readConnectors[k].View() == p.readers[k])
      && (forall k :: 0 <= k < |writeConnectors| && (reader || k != i) ==> writeConnectors[k].View() == p.writers[k])
      && currReadIndex == p.readIndex && currWriteIndex == p.writeIndex && writeLog == p.writeLog
    }

    lemma OneChanged(p: Pool, reader: bool, i: nat, c: Connector)
      requires OthersAre(p, reader, i) && i < (if reader then |readConnectors| else |writeConnectors|)
      requires ConnectorAt(reader, i).View() == c
      ensures View() == Put(p, reader, i, c)
    {
      var q := Put(p, reader, i, c);
      assert View().readers == q.readers && View().writers == q.writers;
    }

    function ConnectorAt(reader: bool, i: nat): ConnectorInfo
      requires i < (if reader then |readConnectors| else |writeConnectors|)
    {
      if reader then readConnectors[i] else writeConnectors[i]
    }

    method PushReadCmd(sql: string, hasCallback: bool)
      requires Valid()
      modifies this, readConnectors
      ensures Valid() && View() == Step(old(View()), PushRead(sql, hasCallback))
    {
      ghost var p := View();
      if currReadIndex >= |readConnectors| - 1 {
        currReadIndex := 0;
      } else {
        currReadIndex := currReadIndex + 1;
      }
      var c := readConnectors[currReadIndex];
      c.PushCmd(sql, hasCallback, false);
      assert forall i :: 0 <= i < |readConnectors| && i != currReadIndex ==> readConnectors[i] != c;
      assert View().readers == p.readers[currReadIndex := c.View()];
    }

    method PushWriteCmd(sql: string, hasCallback: bool, write: bool)
      requires Valid()
      modifies this, writeConnectors
      ensures Valid() && View() == Step(old(View()), PushWrite(sql, hasCallback, write))
    {
      hide Queued;
      ghost var p := View();
      if currWriteIndex >= |writeConnectors| - 1 {
        currReadIndex := 0;
      } else {
        currReadIndex := currReadIndex + 1;
      }
      var c := writeConnectors[currWriteIndex];
      c.PushCmd(sql, hasCallback, write);
      writeLog := writeLog + [c.pushed[|c.pushed| - 1]];
      assert forall i :: 0 <= i < |writeConnectors| && i != currWriteIndex ==> writeConnectors[i] != c;
      assert View().writers == p.writers[currWriteIndex := c.View()];
    }

    /** A worker pops a command, unless it has one in hand. */
    method WorkerPop(reader: bool, i: nat)
      requires Valid() && i < (if reader then |readConnectors| else |writeConnectors|)
      modifies readConnectors, writeConnectors
      ensures Valid() && View() == Step(old(View()), WorkerPops(reader, i))
    {
      hide Pop;
      ghost var p := View();
      var c := ConnectorAt(reader, i);
      c.TakeCmd();
      OneChanged(p, reader, i, Pop(At(p, reader, i)));
    }

    /** A worker is done with the command in hand, if it has one. */
    method WorkerFinish(reader: bool, i: nat, empty: bool)
      requires Valid() && i < (if reader then |readConnectors| else |writeConnectors|)
      modifies readConnectors, writeConnectors
      ensures Valid() && View() == Step(old(View()), WorkerFinishes(reader, i, empty))
    {
      hide Finish;
      ghost var p := View();
      var c := ConnectorAt(reader, i);
      c.FinishCmd(empty);
      OneChanged(p, reader, i, Finish(At(p, reader, i), empty));
    }

    /** The body of either loop of `run`. */
    method CollectOne(reader: bool, i: nat)
      requires Valid() && i < (if reader then |readConnectors| else |writeConnectors|)
      modifies readConnectors, writeConnectors
      ensures Valid() && View() == Step(old(View()), MainCollects(reader, i))
    {
      hide Collect;
      ghost var p := View();
      var c := ConnectorAt(reader, i);
      var _ := c.PopRes();
      OneChanged(p, reader, i, Collect(At(p, reader, i)));
    }

    /** `run`: one result, if there is one, is taken from each connector, readers first. */
    method RunOnce()
      requires Valid()
      modifies readConnectors, writeConnectors
      ensures Valid()
      ensures View() == RunAll(old(View()), Collects(|readConnectors|, |writeConnectors|))
    {
      hide Step;
      ghost var p, evs := View(), Collects(|readConnectors|, |writeConnectors|);
      for i := 0 to |readConnectors|
        invariant Valid() && View() == RunAll(p, evs[..i])
      {
        RunOneMore(p, evs[..i], evs[i]);
        assert evs[..i + 1] == evs[..i] + [evs[i]] && evs[i] == MainCollects(true, i);
        CollectOne(true, i);
      }
      for i := 0 to |writeConnectors|
        invariant Valid() && View() == RunAll(p, evs[..|readConnectors| + i])
      {
        ghost var k := |readConnectors| + i;
        RunOneMore(p, evs[..k], evs[k]);
        assert evs[..k + 1] == evs[..k] + [evs[k]] && evs[k] == MainCollects(false, i);
        CollectOne(false, i);
      }
      assert evs[..|readConnectors| + |writeConnectors|] == evs;
    }

    /** One step of the main thread or of a worker. */
    method Happen(ev: Event)
      requires Valid()
      modifies this, readConnectors, writeConnectors
      ensures Valid() && View() == Step(old(View()), ev)
    {
      match ev {
        case PushRead(sql, hasCallback) => PushReadCmd(sql, hasCallback);
        case PushWrite(sql, hasCallback, write) => PushWriteCmd(sql, hasCallback, write);
        case WorkerPops(reader, i) =>
          if i < (if reader then |readConnectors| else |writeConnectors|) {
            WorkerPop(reader, i);
          }
        case WorkerFinishes(reader, i, empty) =>
          if i < (if reader then |readConnectors| else |writeConnectors|) {
            WorkerFinish(reader, i, empty);
          }
        case MainCollects(reader, i) =>
          if i < (if reader then |readConnectors| else |writeConnectors|) {
            CollectOne(reader, i);
          }
      }
    }

    /**
     Any interleaving of main thread and workers over the objects of a new pool: callbacks fire in push order
     on every connector, writes execute in the order they were pushed, and what is executed is the text given
     exactly if that is shorter than 65536 characters.
     */
    method Interleave(evs: seq<Event>)
      requires Valid() && View() == NewPool(|readConnectors|, |writeConnectors|)
      modifies this, readConnectors, writeConnectors
      ensures Valid() && View() == RunAll(old(View()), evs)
      ensures forall c :: c in readConnectors || c in writeConnectors ==> Increasing(Called(c.collected))
      ensures forall c :: c in readConnectors || c in writeConnectors ==> WholeExactly(c.View())
      ensures Commands(writeConnectors[0].done) <= writeLog
    {
      hide Step, Called, Increasing, WholeExactly;
      ghost var p := View();
      for i := 0 to |evs|
        invariant Valid() && View() == RunAll(p, evs[..i])
      {
        RunOneMore(p, evs[..i], evs[i]);
        assert evs[..i + 1] == evs[..i] + [evs[i]];
        Happen(evs[i]);
      }
      assert evs[..|evs|] == evs;
      PoolRun(|readConnectors|, |writeConnectors|, evs);
      forall c | c in readConnectors || c in writeConnectors
        ensures Increasing(Called(c.collected)) && WholeExactly(c.View())
      {
        if k :| 0 <= k < |readConnectors| && readConnectors[k] == c {
          assert View().readers[k] == c.View();
        } else {
          var k :| 0 <= k < |writeConnectors| && writeConnectors[k] == c;
          assert View().writers[k] == c.View();
        }
      }
      assert View().writers[0].done == writeConnectors[0].done;
    }
  }

  ghost function Views(connectors: seq<ConnectorInfo>): (v: seq<Connector>)
    reads connectors
    ensures |v| == |connectors|
  {
    seq(|connectors|, i requires 0 <= i < |connectors| reads connectors => connectors[i].View())
  }
}
