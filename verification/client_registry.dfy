/**
 The client registry of the gate server, as a value: a pool of slots, accounts and connections mapped to
 them, and the operations that take them together.
 */
module ClientRegistry {
  import opened Options
  import opened BiMaps

  /** `ClientInfo`: `live` is its `used` flag. */
  datatype SlotInfo = SlotInfo(live: bool, account: string, connId: int)

  datatype Registry = Registry(
    start: int,
    slots: seq<SlotInfo>,        // the slot of id `start + i` at position i
    freeIds: seq<int>,
    usedIds: set<int>,
    accounts: map<string, int>,
    accountOf: map<int, string>,
    conns: map<int, int>,
    connOf: map<int, int>
  )

  datatype Op =
    | New(account: string, dropped: bool)   // newClient; whether a previous client's connection is there to drop
    | Bind(conn: int, id: int)              // insertConnIdId, then the slot remembers its connection
    | Close(id: int, found: bool)           // ClientInfo::close; whether its connection is found
    | Remove(conn: int)                     // removeByConnId

  predicate IsId(r: Registry, id: int) {
    r.start <= id < r.start + |r.slots|
  }

  function SlotOf(r: Registry, id: int): SlotInfo
    requires IsId(r, id)
  {
    r.slots[id - r.start]
  }

  function WithSlot(r: Registry, id: int, s: SlotInfo): Registry
    requires IsId(r, id)
  {
    r.(slots := r.slots[id - r.start := s])
  }

  // ---------------------------------------------------------------- the operations

  /** `ClientArray::getFree` for an account without a slot, which then gets it. */
  function TakeFree(r: Registry, account: string): Registry
    requires r.freeIds != [] && IsId(r, r.freeIds[0])
  {
    var id := r.freeIds[0];
    WithSlot(r, id, SlotOf(r, id).(live := true, account := account)).(
      freeIds := r.freeIds[1..],
      usedIds := r.usedIds + {id},
      accounts := r.accounts[account := id],
      accountOf := r.accountOf[id := account])
  }

  /** Whether `removeByConnId` goes through: the connection is mapped and its slot still in use. */
  predicate Removable(r: Registry, conn: int) {
    && conn in r.conns && IsId(r, r.conns[conn])
    && r.conns[conn] in r.usedIds && SlotOf(r, r.conns[conn]).live
  }

  function RemoveConn(r: Registry, conn: int): Registry {
    if !Removable(r, conn) then r
    else
      var id := r.conns[conn];
      WithSlot(r, id, SlotOf(r, id).(live := false)).(
        freeIds := [id] + r.freeIds,
        usedIds := r.usedIds - {id},
        accounts := if id in r.accountOf then r.accounts - {r.accountOf[id]} else r.accounts,
        accountOf := r.accountOf - {id},
        conns := r.conns - {conn},
        connOf := r.connOf - {id})
  }

  /** `newClient`: a mapped account keeps its slot, whose old connection is closed, which may unregister it. */
  function NewClient(r: Registry, account: string, dropped: bool): (Registry, Option<int>) {
    if account in r.accounts then
      var id := r.accounts[account];
      if !IsId(r, id) || id !in r.usedIds then (r, None)
      else
        var r1 := if SlotOf(r, id).live && dropped then RemoveConn(r, SlotOf(r, id).connId) else r;
        (WithSlot(r1, id, SlotOf(r1, id).(account := account)), Some(id))
    else if r.freeIds == [] || !IsId(r, r.freeIds[0]) then (r, None)
    else (TakeFree(r, account), Some(r.freeIds[0]))
  }

  function BindConn(r: Registry, conn: int, id: int): Registry
    requires IsId(r, id)
  {
    var r1 := if conn in r.conns || id in r.connOf then r
              else r.(conns := r.conns[conn := id], connOf := r.connOf[id := conn]);
    WithSlot(r1, id, SlotOf(r1, id).(connId := conn))
  }

  function CloseClient(r: Registry, id: int, found: bool): Registry
    requires IsId(r, id)
  {
    if SlotOf(r, id).live && found then WithSlot(r, id, SlotOf(r, id).(live := false)) else r
  }

  /** Slots are bound and closed by their holders, so only while they are in use. */
  predicate Enabled(r: Registry, op: Op) {
    match op
    case Bind(_, id) => IsId(r, id) && id in r.usedIds
    case Close(id, _) => IsId(r, id) && id in r.usedIds
    case _ => true
  }

  function Apply(r: Registry, op: Op): Registry {
    if !Enabled(r, op) then r
    else match op
      case New(account, dropped) => NewClient(r, account, dropped).0
      case Bind(conn, id) => BindConn(r, conn, id)
      case Close(id, found) => CloseClient(r, id, found)
      case Remove(conn) => RemoveConn(r, conn)
  }

  function ApplyAll(r: Registry, ops: seq<Op>): Registry
    decreases |ops|
  {
    if ops == [] then r else ApplyAll(Apply(r, ops[0]), ops[1..])
  }

  // ---------------------------------------------------------------- invariant

  predicate NoRepeats(s: seq<int>) {
    forall i, j :: 0 <= i < j < |s| ==> s[i] != s[j]
  }

  /** Free and used ids split the id range, and no id is listed free twice. */
  ghost predicate Partition(r: Registry) {
    && NoRepeats(r.freeIds)
    && (forall id :: id in r.freeIds ==> IsId(r, id) && id !in r.usedIds)
    && (forall id :: IsId(r, id) ==> id in r.freeIds || id in r.usedIds)
    && (forall id :: id in r.usedIds ==> IsId(r, id))
  }

  ghost predicate Inv(r: Registry) {
    && Partition(r)
    && Inverse(r.accounts, r.accountOf) && r.accountOf.Keys == r.usedIds
    && Inverse(r.conns, r.connOf) && r.connOf.Keys <= r.usedIds
    && (forall id :: IsId(r, id) && SlotOf(r, id).live ==> id in r.usedIds)
  }

  /** `ClientArray::init`: all ids free, in order. */
  function Fresh(start: int, size: nat): Registry {
    Registry(start, seq(size, _ => SlotInfo(false, "", 0)), seq(size, i => start + i), {}, map[], map[], map[], map[])
  }

  lemma FreshInv(start: int, size: nat)
    ensures Inv(Fresh(start, size))
  {
    var r := Fresh(start, size);
    forall id | IsId(r, id) ensures id in r.freeIds {
      assert r.freeIds[id - start] == id;
    }
  }

  lemma TakeFreePartition(r: Registry, account: string)
    requires Partition(r) && r.freeIds != [] && IsId(r, r.freeIds[0])
    ensures Partition(TakeFree(r, account))
  {
    var id, t := r.freeIds[0], TakeFree(r, account);
    assert t.freeIds == r.freeIds[1..] && t.usedIds == r.usedIds + {id};
    forall i | i in t.freeIds ensures IsId(t, i) && i !in t.usedIds {
      assert i in r.freeIds;
    }
    forall i | IsId(t, i) ensures i in t.freeIds || i in t.usedIds {
      assert IsId(r, i);
      assert i in r.freeIds ==> i == id || i in r.freeIds[1..];
    }
  }

  lemma TakeFreeKeeps(r: Registry, account: string)
    requires Inv(r) && account !in r.accounts && r.freeIds != []
    ensures IsId(r, r.freeIds[0]) && Inv(TakeFree(r, account))
  {
    hide Partition;
    FirstFree(r);
    TakeFreePartition(r, account);
    var id, t := r.freeIds[0], TakeFree(r, account);
    assert id !in r.accountOf;
    assert t.accountOf.Keys == r.accountOf.Keys + {id};
  }

  lemma FirstFree(r: Registry)
    requires Partition(r) && r.freeIds != []
    ensures IsId(r, r.freeIds[0]) && r.freeIds[0] !in r.usedIds
  {
    assert r.freeIds[0] in r.freeIds;
  }

  lemma RemoveKeeps(r: Registry, conn: int)
    requires Inv(r)
    ensures Inv(RemoveConn(r, conn))
  {
    if Removable(r, conn) {
      var t := RemoveConn(r, conn);
      var id := r.conns[conn];
      assert r.connOf[id] == conn && id in r.accountOf;
      forall i | IsId(t, i) ensures i in t.freeIds || i in t.usedIds {
        assert i in r.freeIds ==> i in [id] + r.freeIds;
        assert id in [id] + r.freeIds;
      }
    }
  }

  lemma NewKeeps(r: Registry, account: string, dropped: bool)
    requires Inv(r)
    ensures Inv(NewClient(r, account, dropped).0)
  {
    if account in r.accounts {
      var id := r.accounts[account];
      assert id in r.accountOf;
      RemoveKeeps(r, SlotOf(r, id).connId);
    } else if r.freeIds != [] {
      TakeFreeKeeps(r, account);
    }
  }

  /** Binding keeps the registry intact exactly when the slot is in use or the connection is bound already. */
  lemma BindExact(r: Registry, conn: int, id: int)
    requires Inv(r) && IsId(r, id)
    ensures Inv(BindConn(r, conn, id)) <==> id in r.usedIds || conn in r.conns
  {
    var t := BindConn(r, conn, id);
    if id !in r.usedIds && conn !in r.conns {
      assert id !in r.connOf && id in t.connOf && t.usedIds == r.usedIds;
    } else {
      BindKeeps(r, conn, id);
    }
  }

  lemma BindKeeps(r: Registry, conn: int, id: int)
    requires Inv(r) && IsId(r, id) && (id in r.usedIds || conn in r.conns)
    ensures Inv(BindConn(r, conn, id))
  {
  }

  lemma CloseKeeps(r: Registry, id: int, found: bool)
    requires Inv(r) && IsId(r, id)
    ensures Inv(CloseClient(r, id, found))
  {
  }

  lemma ApplyKeeps(r: Registry, op: Op)
    requires Inv(r)
    ensures Inv(Apply(r, op))
  {
    hide Inv;
    if Enabled(r, op) {
      match op
      case New(account, dropped) => NewKeeps(r, account, dropped);
      case Bind(conn, id) => BindKeeps(r, conn, id);
      case Close(id, found) => CloseKeeps(r, id, found);
      case Remove(conn) => RemoveKeeps(r, conn);
    }
  }

  /**
   Over every run: free and used ids partition the range, the ids accounts map to are exactly the used ones,
   those connections map to are among them, and both maps are bijections.
   */
  lemma {:induction false} RegistryRun(r: Registry, ops: seq<Op>)
    requires Inv(r)
    ensures Inv(ApplyAll(r, ops))
    ensures ApplyAll(r, ops).accounts.Values == ApplyAll(r, ops).usedIds
    ensures ApplyAll(r, ops).conns.Values <= ApplyAll(r, ops).usedIds
    decreases |ops|
  {
    if ops == [] {
      InverseIsBijection(r.accounts, r.accountOf);
      InverseIsBijection(r.conns, r.connOf);
    } else {
      ApplyKeeps(r, ops[0]);
      RegistryRun(Apply(r, ops[0]), ops[1..]);
    }
  }

  lemma {:induction false} SetOfDistinct(s: seq<int>)
    requires NoRepeats(s)
    ensures |set id | id in s| == |s|
  {
    if s == [] {
      assert (set id | id in s) == {};
    } else {
      SetOfDistinct(s[1..]);
      assert s[0] !in s[1..];
      assert (set id | id in s) == {s[0]} + set id | id in s[1..];
    }
  }

  function Ids(start: int, n: nat): set<int> {
    if n == 0 then {} else Ids(start, n - 1) + {start + n - 1}
  }

  lemma {:induction false} IdsAreRange(start: int, n: nat)
    ensures |Ids(start, n)| == n
    ensures forall id :: id in Ids(start, n) <==> start <= id < start + n
  {
    if n > 0 {
      IdsAreRange(start, n - 1);
    }
  }

  /** No slot is lost or invented: as many ids as slots, free or used. */
  lemma SlotsConserved(r: Registry)
    requires Partition(r)
    ensures |r.freeIds| + |r.usedIds| == |r.slots|
  {
    var free := set id | id in r.freeIds;
    SetOfDistinct(r.freeIds);
    IdsAreRange(r.start, |r.slots|);
    forall id ensures id in Ids(r.start, |r.slots|) <==> id in free + r.usedIds {
      assert id in Ids(r.start, |r.slots|) <==> IsId(r, id);
    }
    assert Ids(r.start, |r.slots|) == free + r.usedIds;
  }

  /** `removeByConnId` unregisters slot, account and connection together, or changes nothing at all. */
  lemma RemoveIsAllOrNothing(r: Registry, conn: int)
    requires Inv(r)
    ensures !Removable(r, conn) ==> RemoveConn(r, conn) == r
    ensures Removable(r, conn) ==>
              var id, t := r.conns[conn], RemoveConn(r, conn);
              && id !in t.usedIds && t.usedIds == r.usedIds - {id} && t.freeIds == [id] + r.freeIds
              && t.accounts.Keys == r.accounts.Keys - {r.accountOf[id]} && r.accounts[r.accountOf[id]] == id
              && t.conns.Keys == r.conns.Keys - {conn}
              && id !in t.accounts.Values && id !in t.conns.Values
  {
    if Removable(r, conn) {
      var id, t := r.conns[conn], RemoveConn(r, conn);
      assert id in r.accountOf && r.accounts[r.accountOf[id]] == id;
      RemoveKeeps(r, conn);
      InverseIsBijection(t.accounts, t.accountOf);
      InverseIsBijection(t.conns, t.connOf);
    }
  }

  /**
   `newClient` hands out a slot registered under its account exactly when the account was new or its old
   slot did not get unregistered on the way: its connection, alive, mapped to that slot.
   */
  lemma NewClientRegisters(r: Registry, account: string, dropped: bool)
    requires Inv(r) && NewClient(r, account, dropped).1.Some?
    ensures var (t, id) := NewClient(r, account, dropped);
            (account in t.accounts && t.accounts[account] == id.value && id.value in t.usedIds)
            <==>
            !(&& account in r.accounts && SlotOf(r, r.accounts[account]).live && dropped
              && SlotOf(r, r.accounts[account]).connId in r.conns
              && r.conns[SlotOf(r, r.accounts[account]).connId] == r.accounts[account])
  {
    if account in r.accounts {
      var id := r.accounts[account];
      assert r.accountOf[id] == account && id in r.usedIds;
      var conn := SlotOf(r, id).connId;
      if SlotOf(r, id).live && dropped && Removable(r, conn) && r.conns[conn] != id {
        assert r.accountOf[r.conns[conn]] != account;
      }
    }
  }

  /**
   A slot closed by its holder is never used again: no later operation frees it or its account, because
   freeing asks for the flag that closing cleared.
   */
  lemma {:induction false} ClosedSlotLeaks(r: Registry, id: int, ops: seq<Op>)
    requires Inv(r) && IsId(r, id) && id in r.usedIds && !SlotOf(r, id).live
    ensures var t := ApplyAll(r, ops);
            && IsId(t, id) && id in t.usedIds && !SlotOf(t, id).live && id !in t.freeIds
            && id in t.accountOf && t.accountOf[id] == r.accountOf[id]
    decreases |ops|
  {
    if ops != [] {
      ApplyKeeps(r, ops[0]);
      ClosedStays(r, id, ops[0]);
      ClosedSlotLeaks(Apply(r, ops[0]), id, ops[1..]);
    }
  }

  lemma ClosedStays(r: Registry, id: int, op: Op)
    requires Inv(r) && IsId(r, id) && id in r.usedIds && !SlotOf(r, id).live
    ensures var t := Apply(r, op);
            && IsId(t, id) && id in t.usedIds && !SlotOf(t, id).live
            && id in t.accountOf && t.accountOf[id] == r.accountOf[id]
  {
    match op
    case New(account, dropped) =>
      if account !in r.accounts && r.freeIds != [] {
        assert r.freeIds[0] in r.freeIds;
      }
    case _ =>
  }

  lemma {:induction false} Outside(s: set<int>) returns (x: int)
    ensures forall y :: y in s ==> y < x
    decreases |s|
  {
    x := 0;
    if y :| y in s {
      var z := Outside(s - {y});
      x := if z > y then z else y + 1;
      forall w | w in s ensures w < x {
        assert w == y || w in s - {y};
      }
    }
  }

  /** A slot in use whose flag is set is freed by its connection, or by one bound to it first. */
  lemma LiveSlotFrees(r: Registry, id: int) returns (ops: seq<Op>)
    requires Inv(r) && IsId(r, id) && id in r.usedIds && SlotOf(r, id).live
    ensures id in ApplyAll(r, ops).freeIds
  {
    if id in r.connOf {
      ops := [Remove(r.connOf[id])];
      assert Removable(r, r.connOf[id]);
      FreesAtOnce(r, r.connOf[id]);
    } else {
      var conn := Outside(r.conns.Keys);
      var bound := Apply(r, Bind(conn, id));
      ops := [Bind(conn, id), Remove(conn)];
      assert bound.conns[conn] == id && SlotOf(bound, id).live && Removable(bound, conn);
      FreesAtOnce(bound, conn);
      assert ops[1..] == [Remove(conn)];
    }
  }

  lemma FreesAtOnce(r: Registry, conn: int)
    requires Removable(r, conn)
    ensures r.conns[conn] in ApplyAll(r, [Remove(conn)]).freeIds
  {
    assert [Remove(conn)][1..] == [];
    assert RemoveConn(r, conn).freeIds[0] == r.conns[conn];
  }

  /** Which slots leak: some continuation frees a slot in use exactly if its flag is still set. */
  lemma FreedExactly(r: Registry, id: int)
    requires Inv(r) && IsId(r, id) && id in r.usedIds
    ensures (exists ops :: id in ApplyAll(r, ops).freeIds) <==> SlotOf(r, id).live
  {
    if SlotOf(r, id).live {
      var ops := LiveSlotFrees(r, id);
      assert id in ApplyAll(r, ops).freeIds;
    } else {
      forall ops ensures id !in ApplyAll(r, ops).freeIds {
        ClosedSlotLeaks(r, id, ops);
      }
    }
  }

  /** Such a state is three steps from a new registry: a client logs in, is bound, and is closed by the server. */
  lemma LeakIsReachable(start: int, size: nat, account: string, conn: int)
    requires size > 0
    ensures var r := ApplyAll(Fresh(start, size), [New(account, false), Bind(conn, start), Close(start, true)]);
            && Inv(r) && IsId(r, start) && start in r.usedIds && !SlotOf(r, start).live
            && forall ops :: start !in ApplyAll(r, ops).freeIds
  {
    var r0 := Fresh(start, size);
    var ops := [New(account, false), Bind(conn, start), Close(start, true)];
    FreshInv(start, size);
    RegistryRun(r0, ops);
    assert r0.freeIds[0] == start;
    var r1 := Apply(r0, ops[0]);
    assert start in r1.usedIds && SlotOf(r1, start).live;
    var r2 := Apply(r1, ops[1]);
    assert start in r2.usedIds && SlotOf(r2, start).live;
    var r3 := Apply(r2, ops[2]);
    assert ops[1..] == [ops[1], ops[2]] && [ops[1], ops[2]][1..] == [ops[2]] && [ops[2]][1..] == [];
    assert ApplyAll(r0, ops) == ApplyAll(r1, [ops[1], ops[2]]) == ApplyAll(r2, [ops[2]]) == ApplyAll(r3, []) == r3;
    forall more ensures start !in ApplyAll(r3, more).freeIds {
      ClosedSlotLeaks(r3, start, more);
    }
  }
}
