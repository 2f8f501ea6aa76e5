/**
 The two agent managers: one on hash maps, one on a fixed array, shown to be the same table on the keys
 of the array.
 */
module Agents {
  import opened Options
  import opened BiMaps

  datatype AgentState = NoState | Connected | Verified | Disconnected

  /** An agent as a new one is set up. */
  datatype Agent = Agent(connId: int, state: AgentState)

  /** Agents by key, and the two maps between connection ids and keys. */
  datatype Table = Table(agents: map<int, Agent>, keyOf: map<int, int>, connOf: map<int, int>)

  const Empty := Table(map[], map[], map[])

  /** `unordered_map::insert`: an existing entry stays. */
  function InsertNew<V>(m: map<int, V>, k: int, v: V): map<int, V> {
    if k in m then m else m[k := v]
  }

  function New(t: Table, key: int, conn: int): Table {
    if key in t.agents then t
    else Table(t.agents[key := Agent(conn, Verified)], InsertNew(t.keyOf, conn, key), InsertNew(t.connOf, key, conn))
  }

  function Delete(t: Table, key: int): Table {
    if key !in t.agents then t
    else if key in t.connOf then Table(t.agents - {key}, t.keyOf - {t.connOf[key]}, t.connOf - {key})
    else t.(agents := t.agents - {key})
  }

  function DeleteByConn(t: Table, conn: int): Table {
    if conn in t.keyOf then Delete(t, t.keyOf[conn]) else t
  }

  function Lookup(t: Table, key: int): Option<Agent> {
    if key in t.agents then Some(t.agents[key]) else None
  }

  function LookupByConn(t: Table, conn: int): Option<Agent> {
    if conn in t.keyOf then Lookup(t, t.keyOf[conn]) else None
  }

  // ---------------------------------------------------------------- AgentManager

  class AgentManager {
    var key2agents: map<int, Agent>
    var id2keys: map<int, int>
    var key2ids: map<int, int>

    constructor ()
      ensures View() == Empty
    {
      key2agents, id2keys, key2ids := map[], map[], map[];
    }

    function View(): Table
      reads this
    {
      Table(key2agents, id2keys, key2ids)
    }

    function GetAgentSize(): nat
      reads this
    {
      |key2agents|
    }

    method NewAgent(key: int, conn: int) returns (r: Option<Agent>)
      modifies this
      ensures View() == New(old(View()), key, conn)
      ensures r == if key in old(View()).agents then None else Some(Agent(conn, Verified))
    {
      if key in key2agents {
        return None;
      }
      var agent := Agent(conn, Verified);
      key2agents := key2agents[key := agent];
      id2keys := InsertNew(id2keys, conn, key);
      key2ids := InsertNew(key2ids, key, conn);
      return Some(agent);
    }

    method GetAgent(key: int) returns (r: Option<Agent>)
      ensures r == Lookup(View(), key)
    {
      return if key in key2agents then Some(key2agents[key]) else None;
    }

    method GetAgentByConnId(conn: int) returns (r: Option<Agent>)
      ensures r == LookupByConn(View(), conn)
    {
      if conn !in id2keys {
        return None;
      }
      r := GetAgent(id2keys[conn]);
    }

    method DeleteAgent(key: int) returns (ok: bool)
      modifies this
      ensures View() == Delete(old(View()), key) && ok == (key in old(View()).agents)
    {
      var agent := GetAgent(key);
      if agent.None? {
        return false;
      }
      key2agents := key2agents - {key};
      if key in key2ids {
        id2keys := id2keys - {key2ids[key]};
        key2ids := key2ids - {key};
      }
      return true;
    }

    method DeleteAgentByConnId(conn: int) returns (ok: bool)
      modifies this
      ensures View() == DeleteByConn(old(View()), conn)
      ensures ok == LookupByConn(old(View()), conn).Some?
    {
      if conn !in id2keys {
        return false;
      }
      ok := DeleteAgent(id2keys[conn]);
    }
  }

  // ---------------------------------------------------------------- AgentManagerPerf

  class AgentManagerPerf {
    const minId: int
    const agents: array<Option<Agent>>
    var agentCount: nat
    var conn2agentIds: map<int, int>
    var agent2connIds: map<int, int>

    constructor (minId: int, maxId: int)
      requires minId <= maxId
      ensures Valid() && View() == Empty && fresh(agents)
      ensures this.minId == minId && agents.Length == maxId - minId + 1
    {
      this.minId := minId;
      agents := new Option<Agent>[maxId - minId + 1](_ => None);
      agentCount, conn2agentIds, agent2connIds := 0, map[], map[];
    }

    predicate InRange(id: int)
    {
      minId <= id && id - minId <= agents.Length - 1
    }

    function View(): Table
      reads this, agents
    {
      Table(Held(), conn2agentIds, agent2connIds)
    }

    function Held(): map<int, Agent>
      reads agents
    {
      map id | minId <= id < minId + agents.Length && At(id).Some? :: At(id).value
    }

    function At(id: int): Option<Agent>
      reads agents
    {
      if InRange(id) then agents[id - minId] else None
    }

    predicate Valid()
      reads this, agents
    {
      agentCount == |Held()|
    }

    function GetAgentSize(): nat
      reads this
    {
      agentCount
    }

    method NewAgent(id: int, conn: int) returns (r: Option<Agent>)
      requires Valid()
      modifies this, agents
      ensures Valid() && View() == if InRange(id) then New(old(View()), id, conn) else old(View())
      ensures r == if !InRange(id) || id in old(View()).agents then None else Some(Agent(conn, Verified))
    {
      if id < minId || id - minId > agents.Length - 1 {
        return None;
      }
      if agents[id - minId].Some? {
        return None;
      }
      ghost var before := Held();
      var agent := Agent(conn, Verified);
      assert id !in before;
      agents[id - minId] := Some(agent);
      agentCount := agentCount + 1;
      conn2agentIds := InsertNew(conn2agentIds, conn, id);
      agent2connIds := InsertNew(agent2connIds, id, conn);
      assert Held() == before[id := agent];
      return Some(agent);
    }

    method GetAgent(id: int) returns (r: Option<Agent>)
      ensures r == Lookup(View(), id)
    {
      if id < minId || id - minId > agents.Length - 1 {
        return None;
      }
      return agents[id - minId];
    }

    method GetAgentByConnId(conn: int) returns (r: Option<Agent>)
      ensures r == LookupByConn(View(), conn)
    {
      if conn !in conn2agentIds {
        return None;
      }
      r := GetAgent(conn2agentIds[conn]);
    }

    method DeleteAgent(id: int) returns (ok: bool)
      requires Valid()
      modifies this, agents
      ensures Valid() && View() == Delete(old(View()), id) && ok == (id in old(View()).agents)
    {
      var agent := GetAgent(id);
      if agent.None? {
        return false;
      }
      ghost var before := Held();
      assert id in before;
      // The source gives up here if the count is zero; it never is.
      assert agentCount > 0;
      agents[id - minId] := None;
      agentCount := agentCount - 1;
      if id in agent2connIds {
        conn2agentIds := conn2agentIds - {agent2connIds[id]};
        agent2connIds := agent2connIds - {id};
      }
      assert Held() == before - {id};
      assert (before - {id}).Keys == before.Keys - {id};
      return true;
    }

    method DeleteAgentByConnId(conn: int) returns (ok: bool)
      requires Valid()
      modifies this, agents
      ensures Valid() && View() == DeleteByConn(old(View()), conn)
      ensures ok == LookupByConn(old(View()), conn).Some?
    {
      if conn !in conn2agentIds {
        return false;
      }
      ok := DeleteAgent(conn2agentIds[conn]);
    }
  }

  // ---------------------------------------------------------------- the two in step

  datatype Op =
    | OpNew(key: int, conn: int)
    | OpDelete(key: int)
    | OpDeleteByConn(conn: int)
    | OpGet(key: int)
    | OpGetByConn(conn: int)
    | OpSize

  datatype Answer = Found(agent: Option<Agent>) | Done(ok: bool) | Size(n: nat)

  method AskManager(m: AgentManager, op: Op) returns (a: Answer)
    modifies m
    ensures m.View() == Apply(old(m.View()), op) && a == Reply(old(m.View()), op)
  {
    match op {
      case OpNew(key, conn) => var r := m.NewAgent(key, conn); a := Found(r);
      case OpDelete(key) => var ok := m.DeleteAgent(key); a := Done(ok);
      case OpDeleteByConn(conn) => var ok := m.DeleteAgentByConnId(conn); a := Done(ok);
      case OpGet(key) => var r := m.GetAgent(key); a := Found(r);
      case OpGetByConn(conn) => var r := m.GetAgentByConnId(conn); a := Found(r);
      case OpSize => a := Size(m.GetAgentSize());
    }
  }

  method AskPerf(p: AgentManagerPerf, op: Op) returns (a: Answer)
    requires p.Valid() && (op.OpNew? ==> p.InRange(op.key))
    modifies p, p.agents
    ensures p.Valid() && p.View() == Apply(old(p.View()), op) && a == Reply(old(p.View()), op)
  {
    match op {
      case OpNew(key, conn) => var r := p.NewAgent(key, conn); a := Found(r);
      case OpDelete(key) => var ok := p.DeleteAgent(key); a := Done(ok);
      case OpDeleteByConn(conn) => var ok := p.DeleteAgentByConnId(conn); a := Done(ok);
      case OpGet(key) => var r := p.GetAgent(key); a := Found(r);
      case OpGetByConn(conn) => var r := p.GetAgentByConnId(conn); a := Found(r);
      case OpSize => a := Size(p.GetAgentSize());
    }
  }

  function Apply(t: Table, op: Op): Table {
    match op
    case OpNew(key, conn) => New(t, key, conn)
    case OpDelete(key) => Delete(t, key)
    case OpDeleteByConn(conn) => DeleteByConn(t, conn)
    case _ => t
  }

  function Reply(t: Table, op: Op): Answer {
    match op
    case OpNew(key, conn) => Found(if key in t.agents then None else Some(Agent(conn, Verified)))
    case OpDelete(key) => Done(key in t.agents)
    case OpDeleteByConn(conn) => Done(LookupByConn(t, conn).Some?)
    case OpGet(key) => Found(Lookup(t, key))
    case OpGetByConn(conn) => Found(LookupByConn(t, conn))
    case OpSize => Size(|t.agents|)
  }

  function ApplyAll(t: Table, ops: seq<Op>): Table
    decreases |ops|
  {
    if ops == [] then t else ApplyAll(Apply(t, ops[0]), ops[1..])
  }

  /** What a manager answers to a sequence of operations. */
  function Replies(t: Table, ops: seq<Op>): seq<Answer>
    decreases |ops|
  {
    if ops == [] then [] else [Reply(t, ops[0])] + Replies(Apply(t, ops[0]), ops[1..])
  }

  lemma {:induction false} OneMoreReply(t: Table, ops: seq<Op>, op: Op)
    ensures ApplyAll(t, ops + [op]) == Apply(ApplyAll(t, ops), op)
    ensures Replies(t, ops + [op]) == Replies(t, ops) + [Reply(ApplyAll(t, ops), op)]
    decreases |ops|
  {
    hide Apply, Reply;
    var all := ops + [op];
    if ops == [] {
      assert all == [op] && all[1..] == [];
    } else {
      assert all[0] == ops[0] && all[1..] == ops[1..] + [op];
      OneMoreReply(Apply(t, ops[0]), ops[1..], op);
    }
  }

  /** Two managers that hold the same table, asked the same operations, answer as the table does and still agree. */
  method AskBoth(m: AgentManager, p: AgentManagerPerf, ops: seq<Op>)
    returns (fromMaps: seq<Answer>, fromArray: seq<Answer>)
    requires p.Valid() && m.View() == p.View()
    requires forall i :: 0 <= i < |ops| && ops[i].OpNew? ==> p.InRange(ops[i].key)
    modifies m, p, p.agents
    ensures p.Valid() && m.View() == p.View() == ApplyAll(old(m.View()), ops)
    ensures fromMaps == fromArray == Replies(old(m.View()), ops)
  {
    hide Apply, Reply;
    ghost var t := m.View();
    fromMaps, fromArray := [], [];
    for i := 0 to |ops|
      invariant p.Valid()
      invariant m.View() == ApplyAll(t, ops[..i]) && p.View() == ApplyAll(t, ops[..i])
      invariant fromMaps == Replies(t, ops[..i]) && fromArray == fromMaps
    {
      OneMoreReply(t, ops[..i], ops[i]);
      assert ops[..i + 1] == ops[..i] + [ops[i]];
      var a := AskManager(m, ops[i]);
      var b := AskPerf(p, ops[i]);
      fromMaps, fromArray := fromMaps + [a], fromArray + [b];
    }
    assert ops[..|ops|] == ops;
  }

  /**
   Two new managers, asked the same sequence of operations with new keys in the range of the array, answer as
   the one table does, throughout. No condition on connection ids is needed for that.
   */
  method Lockstep(ops: seq<Op>, minId: int, maxId: int) returns (fromMaps: seq<Answer>, fromArray: seq<Answer>)
    requires minId <= maxId
    requires forall i :: 0 <= i < |ops| && ops[i].OpNew? ==> minId <= ops[i].key <= maxId
    ensures fromMaps == Replies(Empty, ops) && fromArray == Replies(Empty, ops)
  {
    hide Apply, Reply, Replies, ApplyAll;
    var m := new AgentManager();
    var p := new AgentManagerPerf(minId, maxId);
    fromMaps, fromArray := AskBoth(m, p, ops);
  }

  // ---------------------------------------------------------------- connections and keys

  /** Every agent has one connection, and the two maps are inverse to each other. */
  ghost predicate TableInv(t: Table) {
    && Inverse(t.keyOf, t.connOf) && t.connOf.Keys == t.agents.Keys
    && forall key :: key in t.agents ==> t.agents[key].connId == t.connOf[key]
  }

  /** A new agent keeps the maps inverse exactly when it is refused or its connection is unbound. */
  lemma NewKeepsInverse(t: Table, key: int, conn: int)
    requires TableInv(t)
    ensures TableInv(New(t, key, conn)) <==> key in t.agents || conn !in t.keyOf
  {
    var n := New(t, key, conn);
    if key !in t.agents && conn in t.keyOf {
      assert n.connOf[key] == conn && n.keyOf[conn] == t.keyOf[conn] != key;
    }
  }

  lemma DeleteKeepsInverse(t: Table, key: int)
    requires TableInv(t)
    ensures TableInv(Delete(t, key))
  {
  }

  /** New agents only on connections that are not bound. */
  ghost predicate Unbound(t: Table, ops: seq<Op>)
    decreases |ops|
  {
    ops == [] || ((ops[0].OpNew? ==> ops[0].conn !in t.keyOf) && Unbound(Apply(t, ops[0]), ops[1..]))
  }

  /** Over every such run connections and keys stay in bijection and name the same agents. */
  lemma {:induction false} InverseRun(t: Table, ops: seq<Op>)
    requires TableInv(t) && Unbound(t, ops)
    ensures TableInv(ApplyAll(t, ops))
    ensures forall conn :: conn in ApplyAll(t, ops).keyOf ==>
              var u := ApplyAll(t, ops);
              u.keyOf[conn] in u.agents && LookupByConn(u, conn) == Some(u.agents[u.keyOf[conn]])
              && u.agents[u.keyOf[conn]].connId == conn
    decreases |ops|
  {
    if ops != [] {
      match ops[0] {
        case OpNew(key, conn) => NewKeepsInverse(t, key, conn);
        case OpDelete(key) => DeleteKeepsInverse(t, key);
        case OpDeleteByConn(conn) =>
          if conn in t.keyOf {
            DeleteKeepsInverse(t, t.keyOf[conn]);
          }
        case _ =>
      }
      InverseRun(Apply(t, ops[0]), ops[1..]);
    }
  }

  // ---------------------------------------------------------------- what can be found

  /**
   A new agent is found by its key and connection, unless its key was taken; every other key and connection finds what
   it found.
   */
  lemma NewIsFound(t: Table, key: int, conn: int)
    requires TableInv(t) && conn !in t.keyOf
    ensures var n := New(t, key, conn);
            && (key in t.agents ==> n == t)
            && (key !in t.agents ==>
                  && Lookup(n, key) == Some(Agent(conn, Verified)) && LookupByConn(n, conn) == Lookup(n, key)
                  && |n.agents| == |t.agents| + 1)
            && (forall k :: k != key ==> Lookup(n, k) == Lookup(t, k))
            && (forall c :: c != conn ==> LookupByConn(n, c) == LookupByConn(t, c))
  {
    var n := New(t, key, conn);
    forall c | c != conn ensures LookupByConn(n, c) == LookupByConn(t, c) {
      if c in t.keyOf && key !in t.agents {
        assert t.keyOf[c] in t.connOf && t.keyOf[c] != key;
      }
    }
  }

  /** A deleted agent is gone, by its key and by its connection, and nothing else is. */
  lemma DeletedIsGone(t: Table, key: int)
    requires TableInv(t) && key in t.agents
    ensures var d, conn := Delete(t, key), t.agents[key].connId;
            && Lookup(d, key) == None && LookupByConn(d, conn) == None
            && |d.agents| == |t.agents| - 1
            && (forall k :: k != key ==> Lookup(d, k) == Lookup(t, k))
            && (forall c :: c != conn ==> LookupByConn(d, c) == LookupByConn(t, c))
  {
    var d, conn := Delete(t, key), t.agents[key].connId;
    assert d.agents.Keys == t.agents.Keys - {key};
    forall c | c != conn ensures LookupByConn(d, c) == LookupByConn(t, c) {
      if c in t.keyOf {
        assert t.connOf[t.keyOf[c]] == c && t.keyOf[c] != key;
      }
    }
  }

  /** Deleting by connection takes the agent found by it; without one, or for an unknown key, nothing changes. */
  lemma DeletedByConnIsGone(t: Table, conn: int)
    requires TableInv(t)
    ensures LookupByConn(t, conn) == None ==> DeleteByConn(t, conn) == t
    ensures LookupByConn(t, conn).Some? ==>
              var d := DeleteByConn(t, conn);
              && LookupByConn(d, conn) == None && |d.agents| == |t.agents| - 1
              && (forall c :: c != conn ==> LookupByConn(d, c) == LookupByConn(t, c))
              && forall k :: Lookup(d, k) ==
                   if Lookup(t, k).Some? && Lookup(t, k).value.connId == conn then None else Lookup(t, k)
  {
    if conn in t.keyOf {
      var key := t.keyOf[conn];
      assert t.connOf[key] == conn && key in t.agents;
      DeletedIsGone(t, key);
      forall k | k in t.agents && t.agents[k].connId == conn ensures k == key {
        assert t.connOf[k] == conn;
      }
    }
  }

  // ---------------------------------------------------------------- answers from the history

  /**
   The agent of a key after a run, from the operations alone: made by a new one, gone with a delete of its key or
   connection.
   */
  function Live(ops: seq<Op>, key: int): Option<Agent>
    decreases |ops|
  {
    if ops == [] then None
    else
      var before, op := Live(ops[..|ops| - 1], key), ops[|ops| - 1];
      match op
      case OpNew(k, conn) => if k == key && before.None? then Some(Agent(conn, Verified)) else before
      case OpDelete(k) => if k == key then None else before
      case OpDeleteByConn(conn) => if before.Some? && before.value.connId == conn then None else before
      case _ => before
  }

  /** Agents made less agents deleted. */
  function LiveCount(ops: seq<Op>): int
    decreases |ops|
  {
    if ops == [] then 0
    else
      var before, op := ops[..|ops| - 1], ops[|ops| - 1];
      LiveCount(before) +
      match op
      case OpNew(key, _) => if Live(before, key).None? then 1 else 0
      case OpDelete(key) => if Live(before, key).Some? then -1 else 0
      case OpDeleteByConn(conn) => if LiveOn(before, conn) then -1 else 0
      case _ => 0
  }

  /** The keys a run mentions. */
  function Mentioned(ops: seq<Op>): set<int> {
    set i | 0 <= i < |ops| && ops[i].OpNew? :: ops[i].key
  }

  predicate LiveOn(ops: seq<Op>, conn: int) {
    exists key :: key in Mentioned(ops) && Live(ops, key).Some? && Live(ops, key).value.connId == conn
  }

  lemma {:induction false} LiveIsMentioned(ops: seq<Op>, key: int)
    requires Live(ops, key).Some?
    ensures key in Mentioned(ops)
    decreases |ops|
  {
    if ops != [] {
      var before := ops[..|ops| - 1];
      if Live(before, key).Some? {
        LiveIsMentioned(before, key);
        var i :| 0 <= i < |before| && before[i].OpNew? && before[i].key == key;
        assert ops[i] == before[i];
      } else {
        assert ops[|ops| - 1].OpNew? && ops[|ops| - 1].key == key;
      }
    }
  }

  lemma {:induction false} UnboundSplits(t: Table, ops: seq<Op>, op: Op)
    requires Unbound(t, ops + [op])
    ensures Unbound(t, ops) && (op.OpNew? ==> op.conn !in ApplyAll(t, ops).keyOf)
    decreases |ops|
  {
    hide Apply;
    if ops == [] {
      assert (ops + [op])[0] == op;
    } else {
      assert (ops + [op])[0] == ops[0] && (ops + [op])[1..] == ops[1..] + [op];
      UnboundSplits(Apply(t, ops[0]), ops[1..], op);
    }
  }

  lemma EmptyIsInverse()
    ensures TableInv(Empty)
  {
  }

  /**
   Over every run on unbound connections a key finds exactly the agent its history leaves it, a connection the agent
   made on it, and the table has as many entries as agents were made and not deleted.
   */
  lemma {:induction false} FoundIsLive(ops: seq<Op>)
    requires Unbound(Empty, ops)
    ensures var t := ApplyAll(Empty, ops);
            && (forall key :: Lookup(t, key) == Live(ops, key))
            && (forall conn, key :: Live(ops, key).Some? && Live(ops, key).value.connId == conn ==>
                  LookupByConn(t, conn) == Live(ops, key))
            && (forall conn :: LookupByConn(t, conn).Some? <==> LiveOn(ops, conn))
            && |t.agents| == LiveCount(ops)
    decreases |ops|
  {
    hide Apply;
    EmptyIsInverse();
    InverseRun(Empty, ops);
    if ops != [] {
      var before, op := ops[..|ops| - 1], ops[|ops| - 1];
      assert ops == before + [op];
      UnboundSplits(Empty, before, op);
      OneMoreReply(Empty, before, op);
      InverseRun(Empty, before);
      FoundIsLive(before);
      OneMoreFound(before, op);
    }
    FoundByConn(ApplyAll(Empty, ops), ops);
  }

  lemma OneMoreFound(before: seq<Op>, op: Op)
    requires TableInv(ApplyAll(Empty, before)) && (op.OpNew? ==> op.conn !in ApplyAll(Empty, before).keyOf)
    requires var t := ApplyAll(Empty, before);
             && (forall key :: Lookup(t, key) == Live(before, key)) && |t.agents| == LiveCount(before)
             && (forall conn :: LookupByConn(t, conn).Some? <==> LiveOn(before, conn))
    ensures var t1 := Apply(ApplyAll(Empty, before), op);
            && (forall key :: Lookup(t1, key) == Live(before + [op], key)) && |t1.agents| == LiveCount(before + [op])
  {
    hide TableInv, New, Delete, DeleteByConn, LiveOn;
    var t := ApplyAll(Empty, before);
    assert (before + [op])[..|before|] == before;
    match op
    case OpNew(key, conn) => NewIsFound(t, key, conn);
    case OpDelete(key) =>
      if key in t.agents {
        DeletedIsGone(t, key);
      } else {
        DeleteUnknown(t, key);
      }
    case OpDeleteByConn(conn) => DeletedByConnIsGone(t, conn); ByConnMissing(t, conn);
    case _ =>
  }

  lemma DeleteUnknown(t: Table, key: int)
    requires key !in t.agents
    ensures Delete(t, key) == t
  {
  }

  /** No agent has a connection by which none is found. */
  lemma ByConnMissing(t: Table, conn: int)
    requires TableInv(t)
    ensures LookupByConn(t, conn) == None ==> forall k :: k in t.agents ==> t.agents[k].connId != conn
  {
    forall k | k in t.agents && t.agents[k].connId == conn ensures LookupByConn(t, conn).Some? {
      assert t.connOf[k] == conn && t.keyOf[conn] == k;
    }
  }

  lemma FoundByConn(t: Table, ops: seq<Op>)
    requires TableInv(t) && forall key :: Lookup(t, key) == Live(ops, key)
    ensures forall conn, key :: Live(ops, key).Some? && Live(ops, key).value.connId == conn ==>
              LookupByConn(t, conn) == Live(ops, key)
    ensures forall conn :: LookupByConn(t, conn).Some? <==> LiveOn(ops, conn)
  {
    forall conn, key | Live(ops, key).Some? && Live(ops, key).value.connId == conn
      ensures LookupByConn(t, conn) == Live(ops, key)
    {
      assert Lookup(t, key) == Live(ops, key) && t.connOf[key] == conn;
    }
    forall conn ensures LookupByConn(t, conn).Some? <==> LiveOn(ops, conn) {
      if LookupByConn(t, conn).Some? {
        var key := t.keyOf[conn];
        assert Lookup(t, key) == Live(ops, key);
        LiveIsMentioned(ops, key);
      }
    }
  }

  /** What a manager should answer, from the history alone. */
  ghost predicate Fits(ops: seq<Op>, op: Op, a: Answer) {
    match op
    case OpNew(key, conn) => a == Found(if Live(ops, key).Some? then None else Some(Agent(conn, Verified)))
    case OpDelete(key) => a == Done(Live(ops, key).Some?)
    case OpDeleteByConn(conn) => a == Done(LiveOn(ops, conn))
    case OpGet(key) => a == Found(Live(ops, key))
    case OpGetByConn(conn) =>
      && a.Found? && (a.agent.Some? <==> LiveOn(ops, conn))
      && forall key :: Live(ops, key).Some? && Live(ops, key).value.connId == conn ==> a == Found(Live(ops, key))
    case OpSize => a.Size? && a.n == LiveCount(ops)
  }

  /** Over every run on unbound connections each answer is what the operations before it say. */
  lemma AnswersFitHistory(ops: seq<Op>, i: nat)
    requires Unbound(Empty, ops) && i < |ops|
    ensures |Replies(Empty, ops)| == |ops| && Fits(ops[..i], ops[i], Replies(Empty, ops)[i])
  {
    hide Apply, TableInv, Live, LiveOn, LiveCount;
    UnboundPrefix(Empty, ops, i);
    FoundIsLive(ops[..i]);
    ReplyAt(Empty, ops, i);
  }

  lemma {:induction false} UnboundPrefix(t: Table, ops: seq<Op>, i: nat)
    requires Unbound(t, ops) && i <= |ops|
    ensures Unbound(t, ops[..i])
    decreases |ops|
  {
    hide Apply;
    if i > 0 {
      assert ops[..i][0] == ops[0] && ops[..i][1..] == ops[1..][..i - 1];
      UnboundPrefix(Apply(t, ops[0]), ops[1..], i - 1);
    }
  }

  lemma {:induction false} ReplyAt(t: Table, ops: seq<Op>, i: nat)
    requires i < |ops|
    ensures |Replies(t, ops)| == |ops| && Replies(t, ops)[i] == Reply(ApplyAll(t, ops[..i]), ops[i])
    decreases |ops|
  {
    hide Apply, Reply;
    if i > 0 {
      assert ops[..i][0] == ops[0] && ops[..i][1..] == ops[1..][..i - 1];
      ReplyAt(Apply(t, ops[0]), ops[1..], i - 1);
    } else {
      RepliesLength(t, ops);
    }
  }

  lemma {:induction false} RepliesLength(t: Table, ops: seq<Op>)
    ensures |Replies(t, ops)| == |ops|
    decreases |ops|
  {
    hide Apply, Reply;
    if ops != [] {
      RepliesLength(Apply(t, ops[0]), ops[1..]);
    }
  }
}
