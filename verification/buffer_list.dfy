/**
 `JmySessionBufferList`: a FIFO of byte buffers that survives partial reads.

 Lengths and offsets of a buffer are `unsigned short`. Every narrowing is written out; it is what
 decides which writes are accepted.
 */
module BufferLists {
  import opened Bytes
  import opened Sequences

  /** The nested `buffer`: `data` is the allocated block of `len` bytes. */
  datatype Buffer = Buffer(data: seq<byte>, len: nat, roff: nat, woff: nat) {

    /** A buffer holding bytes still to be read, as the send list keeps them. */
    predicate Sending() {
      roff < woff == len == |data| < U16
    }

    function Unread(): seq<byte> {
      if roff <= woff <= |data| then data[roff..woff] else []
    }

    function ReadLen(): nat {
      if woff < roff then 0 else woff - roff
    }

    predicate IsReadOut() {
      woff <= roff
    }
  }

  /** `buffer::write`: copies behind what was written, if there is room and something to copy. */
  method WriteTo(b: Buffer, data: seq<byte>) returns (r: Buffer, ok: bool)
    requires b.woff <= b.len == |b.data|
    ensures ok <==> 0 < |data| % U16 <= b.len - b.woff
    ensures ok ==> r == b.(data := b.data[..b.woff] + Narrow(data) + b.data[b.woff + |Narrow(data)|..],
                           woff := b.woff + |Narrow(data)|)
    ensures !ok ==> r == b
  {
    var len := |data| % U16;
    if len == 0 || b.len - b.woff < len {
      return b, false;
    }
    r := b.(data := b.data[..b.woff] + data[..len] + b.data[b.woff + len..], woff := b.woff + len);
    ok := true;
  }

  /** What is left of a block whose length is passed as an `unsigned short`. */
  function Narrow(data: seq<byte>): seq<byte> {
    data[..|data| % U16]
  }

  function Gather(datas: seq<seq<byte>>): seq<byte> {
    FlatMap(Narrow, datas)
  }

  function TotalLen(datas: seq<seq<byte>>): nat {
    if datas == [] then 0 else |datas[0]| + TotalLen(datas[1..])
  }

  lemma {:induction false} GatherLength(datas: seq<seq<byte>>)
    ensures |Gather(datas)| <= TotalLen(datas)
    ensures |Gather(datas)| % U16 == TotalLen(datas) % U16
  {
    if datas != [] {
      GatherLength(datas[1..]);
    }
  }

  /** Exactly the blocks that survive the 16-bit narrowing of the total and of each part. */
  predicate Gathers(datas: seq<seq<byte>>) {
    && TotalLen(datas) % U16 != 0
    && (forall i :: 0 <= i < |datas| ==> |datas[i]| % U16 != 0)
    && |Gather(datas)| <= TotalLen(datas) % U16
  }

  /** The copy loop of `writeData(datas, count)` into a fresh block of `len` bytes. */
  method GatherBuffer(datas: seq<seq<byte>>, len: nat) returns (b: Buffer, ok: bool)
    requires len == TotalLen(datas) % U16 != 0
    ensures ok <==> Gathers(datas)
    ensures ok ==> b == Buffer(Gather(datas), |Gather(datas)|, 0, |Gather(datas)|) && 0 < |Gather(datas)| < U16
  {
    b := Buffer(seq(len, _ => 0), len, 0, 0);
    for i := 0 to |datas|
      invariant b.len == |b.data| == len && b.roff == 0
      invariant b.woff == |Gather(datas[..i])| <= b.len
      invariant b.data[..b.woff] == Gather(datas[..i])
      invariant forall j :: 0 <= j < i ==> |datas[j]| % U16 != 0
    {
      FlatMapSplit(Narrow, datas, i);
      var written;
      b, written := WriteTo(b, datas[i]);
      if !written {
        assert |datas[i]| % U16 == 0 || |Gather(datas)| > len;
        return b, false;
      }
    }
    assert datas[..|datas|] == datas;
    GatherLength(datas);
    ok := true;
  }

  function QueueOf(list: seq<Buffer>): (q: seq<seq<byte>>)
    ensures |q| == |list|
  {
    seq(|list|, i requires 0 <= i < |list| => list[i].Unread())
  }

  /** A freshly written buffer puts exactly its bytes at the end of the queue. */
  lemma QueueAppend(list: seq<Buffer>, e: seq<byte>)
    ensures QueueOf(list + [Buffer(e, |e|, 0, |e|)]) == QueueOf(list) + [e]
  {
    assert e[0..|e|] == e;
  }

  /** The queue after `n` bytes of its front were read; more than the front holds reads nothing. */
  function Consumed(queue: seq<seq<byte>>, n: nat): seq<seq<byte>> {
    if queue == [] || n > |queue[0]| then queue
    else if n == |queue[0]| then queue[1..]
    else [queue[0][n..]] + queue[1..]
  }

  lemma ConsumedNone(n: nat)
    ensures Consumed([], n) == []
  {
  }

  /** The front of the queue is what is left of the first buffer; more than that is not consumed. */
  lemma FrontOf(list: seq<Buffer>, n: nat)
    requires list != [] && AllSending(list)
    ensures |QueueOf(list)| == |list| && |QueueOf(list)[0]| == list[0].woff - list[0].roff && list[0].Sending()
    ensures n > |QueueOf(list)[0]| ==> Consumed(QueueOf(list), n) == QueueOf(list)
  {
  }

  predicate AllSending(list: seq<Buffer>) {
    forall i :: 0 <= i < |list| ==> list[i].Sending()
  }

  /** Advancing the read offset of the front buffer, or dropping it, is consuming from the queue. */
  lemma QueueConsumed(list: seq<Buffer>, n: nat)
    requires list != [] && AllSending(list) && n <= list[0].woff - list[0].roff
    ensures var b := list[0].(roff := list[0].roff + n);
            var after := if b.IsReadOut() then list[1..] else [b] + list[1..];
            AllSending(after) && QueueOf(after) == Consumed(QueueOf(list), n)
  {
    var b := list[0].(roff := list[0].roff + n);
    if !b.IsReadOut() {
      assert b.Unread() == list[0].Unread()[n..];
      assert QueueOf([b] + list[1..]) == [b.Unread()] + QueueOf(list)[1..];
    } else {
      assert QueueOf(list[1..]) == QueueOf(list)[1..];
    }
  }

  /** The limits of a list, 0 for none, and what is counted against them, in 32 bits. */
  datatype Limits = Limits(maxCount: nat, usedCount: nat, maxBytes: nat, usedBytes: nat) {

    predicate Admits(len: nat) {
      && !(maxCount > 0 && (usedCount + 1) % U32 > maxCount)
      && !(maxBytes > 0 && (usedBytes + len) % U32 > maxBytes)
    }

    function Count(len: nat): Limits {
      this.(usedCount := if maxCount > 0 then (usedCount + 1) % U32 else usedCount,
            usedBytes := if maxBytes > 0 then (usedBytes + len) % U32 else usedBytes)
    }
  }

  class SessionBufferList {
    var usingList: seq<Buffer>
    var maxBytes: nat
    var usedBytes: nat
    var maxCount: nat
    var usedCount: nat

    /** Both `init` overloads of the connection buffer pass (0, 0): no limits. */
    constructor (maxBytes: nat, maxCount: nat)
      ensures usingList == [] && usedBytes == 0 && usedCount == 0
      ensures this.maxBytes == maxBytes && this.maxCount == maxCount
    {
      usingList := [];
      this.maxBytes, this.maxCount := maxBytes, maxCount;
      usedBytes, usedCount := 0, 0;
    }

    function Counters(): Limits
      reads this
    {
      Limits(maxCount, usedCount, maxBytes, usedBytes)
    }

    /** Whether the configured limits admit one more buffer of `len` bytes. */
    predicate HasRoom(len: nat)
      reads this
    {
      Counters().Admits(len)
    }

    predicate Unlimited()
      reads this
    {
      maxBytes == 0 && maxCount == 0
    }

    /** The queue as the send engine sees it: the unread part of each buffer. */
    function Queue(): (q: seq<seq<byte>>)
      reads this
      ensures |q| == |usingList|
    {
      QueueOf(usingList)
    }

    ghost predicate Sending()
      reads this
    {
      AllSending(usingList)
    }

    method Clear()
      modifies this
      ensures usingList == [] && usedBytes == 0 && usedCount == 0
      ensures maxBytes == old(maxBytes) && maxCount == old(maxCount)
    {
      usingList, usedBytes, usedCount := [], 0, 0;
    }

    method Push(b: Buffer, len: nat)
      modifies this
      ensures usingList == old(usingList) + [b] && Counters() == old(Counters()).Count(len)
      ensures maxBytes == old(maxBytes) && maxCount == old(maxCount)
    {
      usingList := usingList + [b];
      if maxCount > 0 {
        usedCount := (usedCount + 1) % U32;
      }
      if maxBytes > 0 {
        usedBytes := (usedBytes + len) % U32;
      }
    }

    /** `writeData(data, len)`. */
    method WriteData(data: seq<byte>) returns (ok: bool)
      requires |data| < U16
      modifies this
      ensures ok == (old(HasRoom(|data|)) && data != [])
      ensures usingList == old(usingList) + if ok then [Buffer(data, |data|, 0, |data|)] else []
      ensures Counters() == if ok then old(Counters()).Count(|data|) else old(Counters())
      ensures maxBytes == old(maxBytes) && maxCount == old(maxCount)
    {
      if !HasRoom(|data|) || data == [] {
        return false;
      }
      Push(Buffer(data, |data|, 0, |data|), |data|);
      return true;
    }

    /** `writeData(datas, count)`: one buffer for all the parts, sized by the narrowed total. */
    method WriteDatas(datas: seq<seq<byte>>) returns (ok: bool)
      modifies this
      ensures ok == (datas != [] && old(HasRoom(TotalLen(datas) % U32)) && Gathers(datas))
      ensures usingList == old(usingList) +
                           if ok then [Buffer(Gather(datas), |Gather(datas)|, 0, |Gather(datas)|)] else []
      ensures Counters() == if ok then old(Counters()).Count(TotalLen(datas)) else old(Counters())
      ensures maxBytes == old(maxBytes) && maxCount == old(maxCount)
    {
      if datas == [] {
        return false;
      }
      var total := 0;
      for i := 0 to |datas|
        invariant total + TotalLen(datas[i..]) == TotalLen(datas)
      {
        total := total + |datas[i]|;
      }
      if !HasRoom(total % U32) || total % U16 == 0 {
        return false;
      }
      var b, gathered := GatherBuffer(datas, total % U16);
      if !gathered {
        return false;
      }
      Push(b, total);
      return true;
    }

    /** `writeData(param, data, len)`: the receive list reuses the write offset for the packet type. */
    method WriteTyped(param: nat, data: seq<byte>) returns (ok: bool)
      requires |data| < U16 && param < U16
      modifies this
      ensures ok == (data != [])
      ensures usingList == old(usingList) + if ok then [Buffer(data, |data|, 0, param)] else []
      ensures Counters() == old(Counters())
      ensures maxBytes == old(maxBytes) && maxCount == old(maxCount)
    {
      if data == [] {
        return false;
      }
      var b := Buffer(data, |data|, 0, |data|);
      usingList := usingList + [b.(woff := param)];
      return true;
    }

    method GetReadLen() returns (n: nat)
      requires Sending()
      ensures n == if Queue() == [] then 0 else |Queue()[0]|
      ensures n == 0 <==> Queue() == []
      ensures n < U16
    {
      if |usingList| == 0 {
        return 0;
      }
      n := usingList[0].ReadLen();
    }

    /** `readLen`: the front buffer gives up `n` bytes and is dropped when nothing of it is left. */
    method ReadLen(n: nat) returns (r: nat)
      requires Sending()
      modifies this
      ensures Sending()
      ensures maxBytes == old(maxBytes) && maxCount == old(maxCount)
      ensures Counters() == old(Counters())
      ensures Queue() == Consumed(old(Queue()), n % U16)
      ensures r == if old(Queue()) == [] || n % U16 > |old(Queue())[0]| then 0 else n
    {
      hide QueueOf, Consumed, AllSending;
      if |usingList| == 0 {
        ConsumedNone(n % U16);
        return 0;
      }
      var b := usingList[0];
      FrontOf(usingList, n % U16);
      var len := n % U16;
      if len > b.woff - b.roff {
        return 0;
      }
      QueueConsumed(usingList, len);
      b := b.(roff := b.roff + len);
      usingList := if b.IsReadOut() then usingList[1..] else [b] + usingList[1..];
      return n;
    }
  }

  /** Reading `n` bytes of the front takes exactly the first `n` bytes of the whole queue. */
  lemma ConsumedBytes(queue: seq<seq<byte>>, n: nat)
    requires queue != [] && n <= |queue[0]|
    ensures n <= |Flatten(queue)| && Flatten(queue)[..n] == queue[0][..n]
    ensures Flatten(Consumed(queue, n)) == Flatten(queue)[n..]
  {
    if n < |queue[0]| {
      assert Consumed(queue, n)[1..] == queue[1..];
    }
  }

  // ---------------------------------------------------------------- limits

  /** The counters after a run of writes of these lengths, whatever is read in between, and which of them are taken. */
  function WriteRun(l: Limits, lens: seq<nat>): (Limits, seq<bool>)
  {
    if lens == [] then (l, [])
    else
      var (before, taken) := WriteRun(l, lens[..|lens| - 1]);
      var len := lens[|lens| - 1];
      if before.Admits(len) then (before.Count(len), taken + [true]) else (before, taken + [false])
  }

  function CountOf(lens: seq<nat>, taken: seq<bool>): nat
    requires |lens| == |taken|
  {
    if lens == [] then 0
    else CountOf(lens[..|lens| - 1], taken[..|taken| - 1]) + if taken[|taken| - 1] then 1 else 0
  }

  function BytesOf(lens: seq<nat>, taken: seq<bool>): nat
    requires |lens| == |taken|
  {
    if lens == [] then 0
    else BytesOf(lens[..|lens| - 1], taken[..|taken| - 1]) + if taken[|taken| - 1] then lens[|lens| - 1] else 0
  }

  /** The write at `i` was taken exactly if it and all taken before it stay within both limits; a limit of 0 is none. */
  ghost predicate TakenExactly(l: Limits, lens: seq<nat>, taken: seq<bool>, i: nat)
    requires |lens| == |taken| && i < |lens|
  {
    taken[i] <==>
      && (l.maxCount == 0 || CountOf(lens[..i], taken[..i]) < l.maxCount)
      && (l.maxBytes == 0 || BytesOf(lens[..i], taken[..i]) + lens[i] <= l.maxBytes)
  }

  /**
   The limits are for the whole life of a list: what is counted is not given back when buffers are read. With a count
   limit it takes that many buffers ever, with a byte limit that many bytes.
   */
  lemma {:induction false} LifetimeLimits(l: Limits, lens: seq<nat>)
    requires l.usedCount == 0 && l.usedBytes == 0 && l.maxCount < U32 - 1 && l.maxBytes < U32 - U16
    requires forall i :: 0 <= i < |lens| ==> lens[i] < U16
    ensures var (m, taken) := WriteRun(l, lens);
            && |taken| == |lens| && m.maxCount == l.maxCount && m.maxBytes == l.maxBytes
            && (l.maxCount > 0 ==> m.usedCount == CountOf(lens, taken) <= l.maxCount)
            && (l.maxBytes > 0 ==> m.usedBytes == BytesOf(lens, taken) <= l.maxBytes)
            && forall i :: 0 <= i < |lens| ==> TakenExactly(l, lens, taken, i)
    decreases |lens|
  {
    hide TakenExactly;
    if lens != [] {
      var shorter, len := lens[..|lens| - 1], lens[|lens| - 1];
      LifetimeLimits(l, shorter);
      var (before, t) := WriteRun(l, shorter);
      OneWrite(before, len);
      var taken := t + [before.Admits(len)];
      assert WriteRun(l, lens).1 == taken && taken[..|taken| - 1] == t;
      forall i | 0 <= i < |lens| ensures TakenExactly(l, lens, taken, i) {
        TakenStays(l, lens, t, before.Admits(len), i);
      }
    }
  }

  /** Within the limits nothing wraps. */
  lemma OneWrite(m: Limits, len: nat)
    requires m.maxCount < U32 - 1 && m.maxBytes < U32 - U16 && len < U16
    requires (m.maxCount > 0 ==> m.usedCount <= m.maxCount) && (m.maxBytes > 0 ==> m.usedBytes <= m.maxBytes)
    ensures m.Admits(len) <==>
              && (m.maxCount == 0 || m.usedCount < m.maxCount)
              && (m.maxBytes == 0 || m.usedBytes + len <= m.maxBytes)
    ensures m.Count(len) == m.(usedCount := if m.maxCount > 0 then m.usedCount + 1 else m.usedCount,
                               usedBytes := if m.maxBytes > 0 then m.usedBytes + len else m.usedBytes)
  {
  }

  lemma TakenStays(l: Limits, lens: seq<nat>, t: seq<bool>, last: bool, i: nat)
    requires |lens| == |t| + 1 && i < |lens|
    requires i < |t| ==> TakenExactly(l, lens[..|lens| - 1], t, i)
    requires i == |t| ==>
               (last <==>
                  && (l.maxCount == 0 || CountOf(lens[..|t|], t) < l.maxCount)
                  && (l.maxBytes == 0 || BytesOf(lens[..|t|], t) + lens[|t|] <= l.maxBytes))
    ensures TakenExactly(l, lens, t + [last], i)
  {
    if i < |t| {
      assert lens[..|lens| - 1][..i] == lens[..i] && (t + [last])[..i] == t[..i];
    } else {
      assert (t + [last])[..i] == t;
    }
  }
}
