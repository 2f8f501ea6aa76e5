/** `ClientArray` and `ClientManager`, proved against the registry. */
module ClientManagers {
  import opened Options
  import opened BiMaps
  import opened ClientRegistry

  class ClientInfo {
    var used: bool
    const id: int
    var account: string
    var connId: int

    constructor (id: int)
      ensures this.id == id && View() == SlotInfo(false, "", 0)
    {
      this.id := id;
      used, account, connId := false, "", 0;
    }

    function View(): SlotInfo
      reads this
    {
      SlotInfo(used, account, connId)
    }

    /** `close`: the flag is cleared, the id stays taken. `found` is whether the connection is found. */
    method CloseIt(found: bool)
      modifies this`used
      ensures used == (old(used) && !found)
    {
      if !used {
        return;
      }
      if !found {
        return;
      }
      used := false;
    }
  }

  class ClientArray {
    const infos: array<ClientInfo>
    const startId: int
    var freeIds: seq<int>
    var usedIds: set<int>

    /** The state after a successful `init`. */
    constructor (size: nat, startId: int)
      requires size > 0 && startId > 0
      ensures Valid() && fresh(infos) && fresh(infos[..]) && infos.Length == size && this.startId == startId
      ensures Slots() == Fresh(startId, size).slots
      ensures freeIds == Fresh(startId, size).freeIds && usedIds == {}
    {
      this.startId := startId;
      var first := new ClientInfo(startId);
      var block := new ClientInfo[size](_ => first);
      var ids: seq<int> := [];
      for i := 0 to size
        invariant fresh(block) && |ids| == i && forall j :: 0 <= j < i ==> ids[j] == startId + j
        invariant forall j :: 0 <= j < i ==> fresh(block[j])
        invariant forall j :: 0 <= j < i ==> block[j].id == startId + j && block[j].View() == SlotInfo(false, "", 0)
      {
        block[i] := new ClientInfo(startId + i);
        ids := ids + [startId + i];
      }
      infos := block;
      freeIds := ids;
      usedIds := {};
    }

    /** Each slot is an object of its own and knows its id; the id lists stay in range. */
    ghost predicate Valid()
      reads this, infos, infos[..]
    {
      && (forall i :: 0 <= i < infos.Length ==> infos[i].id == startId + i)
      && (forall id :: id in freeIds ==> startId <= id < startId + infos.Length)
      && (forall id :: id in usedIds ==> startId <= id < startId + infos.Length)
    }

    function Slots(): (s: seq<SlotInfo>)
      reads this, infos, infos[..]
      ensures |s| == infos.Length
    {
      seq(infos.Length, i requires 0 <= i < infos.Length reads infos, infos[..] => infos[i].View())
    }

    method GetFree() returns (r: ClientInfo?)
      requires Valid()
      modifies this, infos[..]
      ensures Valid() && infos[..] == old(infos[..])
      ensures r == null <==> old(freeIds) == []
      ensures r == null ==> unchanged(this) && Slots() == old(Slots())
      ensures r != null ==>
                && r.id == old(freeIds)[0]
                && freeIds == old(freeIds)[1..] && usedIds == old(usedIds) + {r.id}
                && r == infos[r.id - startId]
                && Slots() == old(Slots())[r.id - startId := old(Slots())[r.id - startId].(live := true)]
    {
      if |freeIds| == 0 {
        return null;
      }
      var id := freeIds[0];
      assert id in freeIds && forall i :: i in freeIds[1..] ==> i in freeIds;
      freeIds := freeIds[1..];
      var info := infos[id - startId];
      info.used := true;
      usedIds := usedIds + {id};
      return info;
    }

    method Get(id: int) returns (r: ClientInfo?)
      requires Valid()
      ensures r == if id in usedIds then infos[id - startId] else null
    {
      if id < startId || id > startId + infos.Length {
        return null;
      }
      if id !in usedIds {
        return null;
      }
      return infos[id - startId];
    }

    /** `info->account = account`. */
    method SetAccount(info: ClientInfo, account: string)
      requires Valid() && IsSlot(info)
      modifies info`account
      ensures Valid()
      ensures Slots() == old(Slots())[info.id - startId := old(Slots())[info.id - startId].(account := account)]
    {
      info.account := account;
    }

    /** `info->conn_id = conn`. */
    method SetConnId(info: ClientInfo, conn: int)
      requires Valid() && IsSlot(info)
      modifies info`connId
      ensures Valid()
      ensures Slots() == old(Slots())[info.id - startId := old(Slots())[info.id - startId].(connId := conn)]
    {
      info.connId := conn;
    }

    predicate IsSlot(info: ClientInfo)
      reads infos
    {
      startId <= info.id < startId + infos.Length && infos[info.id - startId] == info
    }

    /** `free(id)`: refused if the id is not taken or its flag was cleared. */
    method Free(id: int) returns (ok: bool)
      requires Valid()
      modifies this, infos[..]
      ensures Valid() && infos[..] == old(infos[..])
      ensures ok == (id in old(usedIds) && old(Slots())[id - startId].live)
      ensures !ok ==> unchanged(this) && Slots() == old(Slots())
      ensures ok ==>
                && freeIds == [id] + old(freeIds) && usedIds == old(usedIds) - {id}
                && Slots() == old(Slots())[id - startId := old(Slots())[id - startId].(live := false)]
    {
      var info := Get(id);
      if info == null {
        return false;
      }
      if !info.used {
        return false;
      }
      freeIds := [info.id] + freeIds;
      usedIds := usedIds - {info.id};
      info.used := false;
      return true;
    }
  }

  class ClientManager {
    const accountIdBimap: BiMap<string, int>
    const connidIdBimap: BiMap<int, int>
    const clientArray: ClientArray

    constructor (maxConn: nat, startId: int)
      requires maxConn > 0 && startId > 0
      ensures Valid() && View() == Fresh(startId, maxConn)
    {
      accountIdBimap := new BiMap();
      connidIdBimap := new BiMap();
      clientArray := new ClientArray(maxConn, startId);
      new;
      FreshInv(startId, maxConn);
    }

    ghost predicate Valid()
      reads this, clientArray, clientArray.infos, clientArray.infos[..], accountIdBimap, connidIdBimap
    {
      && clientArray.Valid()
      && accountIdBimap as object != connidIdBimap as object
      && Inv(View())
    }

    ghost function View(): Registry
      reads this, clientArray, clientArray.infos, clientArray.infos[..], accountIdBimap, connidIdBimap
    {
      Registry(clientArray.startId, clientArray.Slots(), clientArray.freeIds, clientArray.usedIds,
               accountIdBimap.one, accountIdBimap.two, connidIdBimap.one, connidIdBimap.two)
    }

    method RemoveByConnId(conn: int) returns (ok: bool)
      requires Valid()
      modifies clientArray, clientArray.infos[..], accountIdBimap, connidIdBimap
      ensures Valid() && View() == RemoveConn(old(View()), conn) && ok == Removable(old(View()), conn)
    {
      hide Inv, Inverse, RemoveConn, Removable;
      ghost var r := View();
      RemoveIs(r, conn);
      var found := connidIdBimap.Find1(conn);
      if found.None? {
        return false;
      }
      var id := found.value;
      RemoveFacts(r, conn, id);
      var freed := clientArray.Free(id);
      if !freed {
        return false;
      }
      var removed := accountIdBimap.Remove2(id);
      if !removed {
        return false;
      }
      ok := connidIdBimap.Remove1(conn);
      RemoveKeeps(r, conn);
    }

    /** The branch of `newClient` for an account that has a slot already. */
    method ReuseClient(account: string, id: int, dropped: bool) returns (info: ClientInfo?)
      requires Valid() && account in accountIdBimap.one && accountIdBimap.one[account] == id
      modifies clientArray, clientArray.infos[..], accountIdBimap, connidIdBimap
      ensures Valid() && View() == NewClient(old(View()), account, dropped).0
      ensures info != null && info.id == id && NewClient(old(View()), account, dropped).1 == Some(id)
    {
      hide Inv, Inverse, RemoveConn;
      ghost var r := View();
      NewKeeps(r, account, dropped);
      NewFacts(r, account);
      info := clientArray.Get(id);
      if info.used && dropped {
        var _ := RemoveByConnId(info.connId);
      }
      clientArray.SetAccount(info, account);
    }

    /** The branch of `newClient` for a new account. */
    method TakeClient(account: string) returns (info: ClientInfo?)
      requires Valid() && account !in accountIdBimap.one
      modifies clientArray, clientArray.infos[..], accountIdBimap
      ensures Valid() && View() == NewClient(old(View()), account, false).0
      ensures info == null <==> NewClient(old(View()), account, false).1.None?
      ensures info != null ==> Some(info.id) == NewClient(old(View()), account, false).1
    {
      hide Inv, Inverse, NewClient;
      ghost var r := View();
      NewKeeps(r, account, false);
      NewFacts(r, account);
      NewIsTake(r, account);
      info := clientArray.GetFree();
      if info == null {
        return;
      }
      var _ := accountIdBimap.Insert(account, info.id);
      clientArray.SetAccount(info, account);
      assert clientArray.Slots() == TakeFree(r, account).slots;
    }

    /** `newClient`; `dropped` is whether the account's old connection is found and alive. */
    method NewClientFor(account: string, dropped: bool) returns (info: ClientInfo?)
      requires Valid()
      modifies clientArray, clientArray.infos[..], accountIdBimap, connidIdBimap
      ensures Valid() && View() == NewClient(old(View()), account, dropped).0
      ensures info == null <==> NewClient(old(View()), account, dropped).1.None?
      ensures info != null ==> Some(info.id) == NewClient(old(View()), account, dropped).1
    {
      var found := accountIdBimap.Find1(account);
      if found.Some? {
        info := ReuseClient(account, found.value, dropped);
      } else {
        info := TakeClient(account);
      }
    }

    /**
     `insertConnIdId`, after which the handler stores the connection in the slot. On a slot that is not in use
     an unbound connection leaves the registry broken.
     */
    method InsertConnIdId(conn: int, info: ClientInfo) returns (ok: bool)
      requires Valid() && clientArray.IsSlot(info)
      modifies info, connidIdBimap
      ensures View() == BindConn(old(View()), conn, info.id)
      ensures Valid() <==> info.id in clientArray.usedIds || conn in old(connidIdBimap.one)
      ensures ok <==> conn !in old(connidIdBimap.one) && info.id !in old(connidIdBimap.two)
    {
      hide Inv, Inverse;
      BindExact(View(), conn, info.id);
      MapsValid(View());
      ok := connidIdBimap.Insert(conn, info.id);
      clientArray.SetConnId(info, conn);
    }
  }

  lemma MapsValid(r: Registry)
    requires Inv(r)
    ensures Inverse(r.accounts, r.accountOf) && Inverse(r.conns, r.connOf)
  {
  }

  /** `RemoveConn` field by field. */
  lemma RemoveIs(r: Registry, conn: int)
    requires Inv(r)
    ensures Removable(r, conn) <==> conn in r.conns && SlotOf(r, r.conns[conn]).live
    ensures !Removable(r, conn) ==> RemoveConn(r, conn) == r
    ensures Removable(r, conn) ==>
              var id, at := r.conns[conn], r.conns[conn] - r.start;
              id in r.accountOf &&
              RemoveConn(r, conn) ==
              Registry(r.start, r.slots[at := r.slots[at].(live := false)], [id] + r.freeIds, r.usedIds - {id},
                       r.accounts - {r.accountOf[id]}, r.accountOf - {id}, r.conns - {conn}, r.connOf - {id})
  {
    if conn in r.conns {
      RemoveFacts(r, conn, r.conns[conn]);
    }
  }

  lemma RemoveFacts(r: Registry, conn: int, id: int)
    requires Inv(r) && conn in r.conns && r.conns[conn] == id
    ensures Inverse(r.accounts, r.accountOf) && Inverse(r.conns, r.connOf)
    ensures id in r.connOf && r.connOf[id] == conn && id in r.usedIds && IsId(r, id) && id in r.accountOf
  {
  }

  lemma NewIsTake(r: Registry, account: string)
    requires account !in r.accounts
    ensures NewClient(r, account, false) ==
            if r.freeIds == [] || !IsId(r, r.freeIds[0]) then (r, None) else (TakeFree(r, account), Some(r.freeIds[0]))
  {
  }

  lemma NewFacts(r: Registry, account: string)
    requires Inv(r)
    ensures Inverse(r.accounts, r.accountOf)
    ensures account in r.accounts ==> r.accounts[account] in r.usedIds && IsId(r, r.accounts[account])
    ensures r.freeIds != [] ==> IsId(r, r.freeIds[0]) && r.freeIds[0] !in r.accountOf
  {
    if r.freeIds != [] {
      assert r.freeIds[0] in r.freeIds;
    }
  }
}
