/** `gen_unique_role_id`: server, clock and a wrapping counter packed into 64 bits. */
module RoleIds {

  const U16 := 0x1_0000
  const U32 := 0x1_0000_0000
  const U48 := 0x1_0000_0000_0000
  const U64 := 0x1_0000_0000_0000_0000

  /** The packed value: 16 bits of the server, 16 zero bits, 16 bits each of the clock and the counter. */
  function RoleId(server: int, now: int, counter: int): int {
    server % U16 * U48 + now % U16 * U16 + counter
  }

  lemma ServerBits(server: int)
    ensures server % U64 * U48 % U64 == server % U16 * U48
  {
    var u := server % U64;
    assert u % U16 == server % U16 by {
      assert server == server / U64 * U64 + u;
      assert server == (server / U64 * U48) * U16 + u;
    }
    assert u * U48 == u / U16 * U64 + u % U16 * U48;
  }

  lemma ClockBits(now: int)
    ensures now * U16 % U32 == now % U16 * U16
  {
    assert now * U16 == now / U16 * U32 + now % U16 * U16;
  }

  class Generator {
    var counter: nat   // the static uint16_t

    constructor ()
      ensures counter == 0
    {
      counter := 0;
    }

    method Next(server: int, now: int) returns (id: int)
      requires counter < U16 && now >= 0
      modifies this
      ensures id == RoleId(server, now, old(counter)) && 0 <= id < U64
      ensures counter == (old(counter) + 1) % U16
    {
      id := server % U64;
      id := id * U48 % U64;
      id := id - id % U48;
      ServerBits(server);
      var clock := now * U16 % U32;
      clock := clock - clock % U16;
      ClockBits(now);
      id := (id + clock) % U64;
      id := (id + counter) % U64;
      counter := (counter + 1) % U16;
    }

    /** A run of calls. */
    method Many(servers: seq<int>, clocks: seq<int>) returns (ids: seq<int>)
      requires counter < U16 && |servers| == |clocks| && forall i :: 0 <= i < |clocks| ==> clocks[i] >= 0
      modifies this
      ensures |ids| == |servers|
      ensures forall i :: 0 <= i < |ids| ==> ids[i] == RoleId(servers[i], clocks[i], (old(counter) + i) % U16)
      ensures forall i, j :: 0 <= i < j < |ids| && j - i < U16 ==> ids[i] != ids[j]
    {
      ghost var start := counter;
      ids := [];
      for n := 0 to |servers|
        invariant |ids| == n && counter == (start + n) % U16
        invariant forall i :: 0 <= i < n ==> ids[i] == RoleId(servers[i], clocks[i], (start + i) % U16)
      {
        var id := Next(servers[n], clocks[n]);
        ids := ids + [id];
      }
      forall i, j | 0 <= i < j < |ids| && j - i < U16 ensures ids[i] != ids[j] {
        CountersDiffer(start, i, j);
        SameIdExactly(servers[i], clocks[i], (start + i) % U16, servers[j], clocks[j], (start + j) % U16);
      }
    }
  }

  lemma CountersDiffer(start: nat, i: nat, j: nat)
    requires i < j && j - i < U16
    ensures (start + i) % U16 != (start + j) % U16
  {
  }

  /** The packing loses nothing: ids agree exactly when servers and clocks agree in 16 bits and counters agree. */
  lemma SameIdExactly(server: int, now: int, counter: int, server2: int, now2: int, counter2: int)
    requires 0 <= counter < U16 && 0 <= counter2 < U16
    ensures RoleId(server, now, counter) == RoleId(server2, now2, counter2) <==>
            server % U16 == server2 % U16 && now % U16 == now2 % U16 && counter == counter2
  {
  }

  /** Ids made for different servers below 65536 never coincide, whatever the clocks and counters. */
  lemma ServersApart(server: int, now: int, counter: int, server2: int, now2: int, counter2: int)
    requires 0 <= counter < U16 && 0 <= counter2 < U16
    requires 0 <= server < U16 && 0 <= server2 < U16 && server != server2
    ensures RoleId(server, now, counter) != RoleId(server2, now2, counter2)
  {
    SameIdExactly(server, now, counter, server2, now2, counter2);
  }

  /** The four 16-bit fields of an id, the highest first: server, nothing, clock, counter. */
  lemma Fields(server: int, now: int, counter: int)
    requires 0 <= counter < 65536
    ensures var id := RoleId(server, now, counter);
            && id / 281474976710656 == server % 65536 && id / 4294967296 % 65536 == 0
            && id / 65536 % 65536 == now % 65536 && id % 65536 == counter
  {
    var id, s, c := RoleId(server, now, counter), server % 65536, now % 65536;
    var high := s * 4294967296 + c;
    assert id == high * 65536 + counter && high == (s * 65536) * 65536 + c;
    assert id / 65536 == high && high / 65536 == s * 65536 && high % 65536 == c;
    assert id / 4294967296 == id / 65536 / 65536;
    assert id / 281474976710656 == id / 4294967296 / 65536;
  }
}
