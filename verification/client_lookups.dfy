/** What the client registry finds: by account, by connection and by id, after each of its operations. */
module ClientLookups {
  import opened Options
  import opened BiMaps
  import opened ClientRegistry

  function SlotOfAccount(r: Registry, account: string): Option<int> {
    if account in r.accounts then Some(r.accounts[account]) else None
  }

  function SlotOfConn(r: Registry, conn: int): Option<int> {
    if conn in r.conns then Some(r.conns[conn]) else None
  }

  /** `getClientInfo`: the slot of an id in use. */
  function InfoOf(r: Registry, id: int): Option<SlotInfo> {
    if IsId(r, id) && id in r.usedIds then Some(SlotOf(r, id)) else None
  }

  /** All other accounts, connections and ids find what they found. */
  ghost predicate OthersFind(r: Registry, t: Registry, accounts: set<string>, conns: set<int>, ids: set<int>) {
    && (forall a :: a !in accounts ==> SlotOfAccount(t, a) == SlotOfAccount(r, a))
    && (forall c :: c !in conns ==> SlotOfConn(t, c) == SlotOfConn(r, c))
    && (forall id :: id !in ids ==> InfoOf(t, id) == InfoOf(r, id))
  }

  /** A new account gets the first free slot, alive and under its name; without one it gets none. */
  lemma NewAccountFinds(r: Registry, account: string, dropped: bool)
    requires Inv(r) && SlotOfAccount(r, account) == None
    ensures var (t, got) := NewClient(r, account, dropped);
            && (r.freeIds == [] ==> got == None && t == r)
            && (r.freeIds != [] ==>
                  var id := r.freeIds[0];
                  && got == Some(id) && InfoOf(r, id) == None && SlotOfAccount(t, account) == got
                  && InfoOf(t, id).Some? && InfoOf(t, id).value.live && InfoOf(t, id).value.account == account
                  && t.freeIds == r.freeIds[1..] && OthersFind(r, t, {account}, {}, {id}))
  {
    if r.freeIds != [] {
      FirstFree(r);
    }
  }

  /** A known account gets its slot; the old connection is unregistered first if it is there, alive and bound. */
  lemma KnownAccountFinds(r: Registry, account: string, dropped: bool)
    requires Inv(r) && SlotOfAccount(r, account).Some?
    ensures var id := SlotOfAccount(r, account).value;
            && IsId(r, id) && InfoOf(r, id).Some?
            && var conn, (t, got) := SlotOf(r, id).connId, NewClient(r, account, dropped);
               && got == Some(id) && IsId(t, id)
               && SlotOf(t, id).account == account && SlotOf(t, id).connId == conn
               && (!(SlotOf(r, id).live && dropped && Removable(r, conn)) ==>
                     SlotOf(t, id).live == SlotOf(r, id).live && OthersFind(r, t, {}, {}, {id}))
               && (SlotOf(r, id).live && dropped && Removable(r, conn) ==>
                     SlotOfConn(t, conn) == None && !IsUsed(t, r.conns[conn]))
  {
    var id := r.accounts[account];
    assert r.accountOf[id] == account && id in r.usedIds;
    if SlotOf(r, id).live && dropped && Removable(r, SlotOf(r, id).connId) {
      RemovedFinds(r, SlotOf(r, id).connId);
    }
  }

  predicate IsUsed(r: Registry, id: int) {
    id in r.usedIds
  }

  /** A removed connection finds nothing any more, nor do account and id of its slot, which is first in line again. */
  lemma RemovedFinds(r: Registry, conn: int)
    requires Inv(r) && Removable(r, conn)
    ensures var id, t := r.conns[conn], RemoveConn(r, conn);
            && id in r.accountOf
            && SlotOfConn(t, conn) == None && SlotOfAccount(t, r.accountOf[id]) == None && InfoOf(t, id) == None
            && t.freeIds == [id] + r.freeIds && IsId(t, id) && !SlotOf(t, id).live
            && OthersFind(r, t, {r.accountOf[id]}, {conn}, {id})
  {
    var id, t := r.conns[conn], RemoveConn(r, conn);
    assert r.connOf[id] == conn && id in r.accountOf;
    assert r.accounts[r.accountOf[id]] == id;
  }

  /** A bound slot is found by its connection, unless one of the two was bound before; the slot remembers it anyway. */
  lemma BoundFinds(r: Registry, conn: int, id: int)
    requires Inv(r) && IsId(r, id) && id in r.usedIds
    ensures var t := BindConn(r, conn, id);
            && SlotOfConn(t, conn) ==
               (if SlotOfConn(r, conn).Some? || (exists c :: SlotOfConn(r, c) == Some(id)) then SlotOfConn(r, conn)
                else Some(id))
            && InfoOf(t, id) == Some(SlotOf(r, id).(connId := conn)) && t.freeIds == r.freeIds
            && OthersFind(r, t, {}, {conn}, {id})
  {
    if id in r.connOf {
      assert SlotOfConn(r, r.connOf[id]) == Some(id);
    }
    if c :| SlotOfConn(r, c) == Some(id) {
      assert r.connOf[id] == c;
    }
  }

  /** Closing clears the flag of a slot whose connection is found, and nothing else. */
  lemma ClosedFinds(r: Registry, id: int, found: bool)
    requires Inv(r) && IsId(r, id) && id in r.usedIds
    ensures var t := CloseClient(r, id, found);
            && InfoOf(t, id) == Some(SlotOf(r, id).(live := SlotOf(r, id).live && !found))
            && t.freeIds == r.freeIds && OthersFind(r, t, {}, {}, {id})
  {
  }

  // ---------------------------------------------------------------- from the history

  /** The connection bound to slot `id` last in a run, or what the slot started with. */
  function LastBound(r: Registry, ops: seq<Op>, id: int): int
    requires IsId(r, id)
    decreases |ops|
  {
    if ops == [] then SlotOf(r, id).connId
    else
      var before, op := ops[..|ops| - 1], ops[|ops| - 1];
      if op.Bind? && op.id == id && id in ApplyAll(r, before).usedIds then op.conn else LastBound(r, before, id)
  }

  /** The account slot `id` was handed out to last. */
  function LastHolder(r: Registry, ops: seq<Op>, id: int): string
    requires IsId(r, id)
    decreases |ops|
  {
    if ops == [] then SlotOf(r, id).account
    else
      var before, op := ops[..|ops| - 1], ops[|ops| - 1];
      if op.New? && NewClient(ApplyAll(r, before), op.account, op.dropped).1 == Some(id) then op.account
      else LastHolder(r, before, id)
  }

  lemma {:induction false} ApplyOneMore(r: Registry, ops: seq<Op>, op: Op)
    ensures ApplyAll(r, ops + [op]) == Apply(ApplyAll(r, ops), op)
    decreases |ops|
  {
    hide Apply;
    if ops == [] {
      assert ops + [op] == [op] && [op][1..] == [];
    } else {
      assert (ops + [op])[0] == ops[0] && (ops + [op])[1..] == ops[1..] + [op];
      ApplyOneMore(Apply(r, ops[0]), ops[1..], op);
    }
  }

  /** Over every run each slot remembers the connection bound to it last, and the account it was handed out to last. */
  lemma {:induction false} SlotsRemember(r: Registry, ops: seq<Op>, id: int)
    requires Inv(r) && IsId(r, id)
    ensures var t := ApplyAll(r, ops);
            && IsId(t, id)
            && SlotOf(t, id).connId == LastBound(r, ops, id) && SlotOf(t, id).account == LastHolder(r, ops, id)
    decreases |ops|
  {
    hide Inv, Apply;
    if ops != [] {
      var before, op := ops[..|ops| - 1], ops[|ops| - 1];
      assert ops == before + [op];
      ApplyOneMore(r, before, op);
      SlotsRemember(r, before, id);
      RegistryRun(r, before);
      StepRemembers(ApplyAll(r, before), op, id);
    }
  }

  lemma StepRemembers(r: Registry, op: Op, id: int)
    requires Inv(r) && IsId(r, id)
    ensures var t := Apply(r, op);
            && IsId(t, id)
            && SlotOf(t, id).connId ==
               (if op.Bind? && op.id == id && id in r.usedIds then op.conn else SlotOf(r, id).connId)
            && SlotOf(t, id).account ==
               (if op.New? && NewClient(r, op.account, op.dropped).1 == Some(id) then op.account
                else SlotOf(r, id).account)
  {
    if op.New? {
      if op.account in r.accounts {
        assert r.accounts[op.account] in r.accountOf;
      } else if r.freeIds != [] {
        FirstFree(r);
      }
    }
  }
}
