/**
 `JmySessionBuffer`: a fixed block with a read and a write offset, compacted on demand. `Layout` is its
 specification: where the unread bytes lie and what they are.
 */
module SessionBuffers {
  import opened Bytes

  datatype Layout = Layout(capacity: nat, read: nat, unread: seq<byte>) {

    function WriteOffset(): nat {
      read + |unread|
    }

    predicate Valid() {
      WriteOffset() <= capacity
    }

    /** `getWriteLen`: what can be written without moving anything. */
    function Room(): int {
      capacity - WriteOffset()
    }

    function Moved(): Layout {
      this.(read := 0)
    }
  }

  datatype Op =
    | Write(data: seq<byte>)   // writeData, or a socket read followed by writeLen
    | Read(n: nat)             // readLen
    | Check(n: nat)            // checkWriteLen
    | Move                     // moveDataToFront

  /** The result of an operation and whether it returned true. */
  function Apply(l: Layout, op: Op): (Layout, bool) {
    match op
    case Write(data) => if |data| <= l.Room() then (l.(unread := l.unread + data), true) else (l, false)
    case Read(n) => if n <= |l.unread| then (l.(read := l.read + n, unread := l.unread[n..]), true) else (l, false)
    case Check(n) =>
      var m := if l.Room() < n then l.Moved() else l;
      (m, n <= m.Room())
    case Move => (l.Moved(), true)
  }

  class SessionBuffer {
    const buff: array<byte>
    var writeOffset: nat
    var readOffset: nat

    constructor (size: nat)
      ensures Valid() && View() == Layout(size, 0, [])
      ensures fresh(buff)
    {
      buff := new byte[size];
      writeOffset, readOffset := 0, 0;
    }

    predicate Valid()
      reads this
    {
      readOffset <= writeOffset <= buff.Length
    }

    function View(): (l: Layout)
      requires Valid()
      reads this, buff
      ensures l.Valid()
    {
      Layout(buff.Length, readOffset, buff[readOffset..writeOffset])
    }

    method GetReadLen() returns (n: nat)
      requires Valid()
      ensures n == |View().unread|
    {
      return writeOffset - readOffset;
    }

    /** `memmove` of the unread bytes; the blocks may overlap. What lies behind them stays. */
    method MoveDataToFront()
      requires Valid()
      modifies this, buff
      ensures Valid() && View() == old(View()).Moved()
      ensures buff[..] == old(View()).unread + old(buff[..])[|old(View()).unread|..]
    {
      var left := writeOffset - readOffset;
      forall i | 0 <= i < left {
        buff[i] := buff[readOffset + i];
      }
      readOffset := 0;
      writeOffset := left;
    }

    method CheckWriteLen(len: nat) returns (ok: bool)
      requires Valid()
      modifies this, buff
      ensures Valid() && (View(), ok) == Apply(old(View()), Check(len))
    {
      if buff.Length - writeOffset < len {
        MoveDataToFront();
      }
      return buff.Length - writeOffset >= len;
    }

    method ReadLen(len: nat) returns (ok: bool)
      requires Valid()
      modifies this`readOffset
      ensures Valid() && (View(), ok) == Apply(old(View()), Read(len))
    {
      if writeOffset - readOffset < len {
        return false;
      }
      readOffset := readOffset + len;
      return true;
    }

    /** Bytes arrive where a read was posted for, wherever the offsets are by then. */
    method Land(at: nat, data: seq<byte>)
      requires at + |data| <= buff.Length
      modifies buff
      ensures buff[..] == old(buff[..])[..at] + data + old(buff[..])[at + |data|..]
    {
      forall i | 0 <= i < |data| {
        buff[at + i] := data[i];
      }
    }

    /** `writeLen`. */
    method WriteLen(len: nat) returns (ok: bool)
      requires Valid()
      modifies this`writeOffset
      ensures Valid() && ok == (buff.Length - old(writeOffset) >= len)
      ensures writeOffset == if ok then old(writeOffset) + len else old(writeOffset)
    {
      if buff.Length - writeOffset < len {
        return false;
      }
      writeOffset := writeOffset + len;
      return true;
    }

    method Copy(data: seq<byte>)
      requires Valid() && |data| <= View().Room()
      modifies this`writeOffset, buff
      ensures Valid() && View() == old(View()).(unread := old(View()).unread + data)
    {
      forall i | 0 <= i < |data| {
        buff[writeOffset + i] := data[i];
      }
      writeOffset := writeOffset + |data|;
      assert buff[readOffset..writeOffset] == old(buff[readOffset..writeOffset]) + data;
    }

    method WriteData(data: seq<byte>) returns (ok: bool)
      requires Valid()
      modifies this`writeOffset, buff
      ensures Valid() && (View(), ok) == Apply(old(View()), Write(data))
    {
      if buff.Length - writeOffset < |data| {
        return false;
      }
      Copy(data);
      return true;
    }

    /** `writeData(datas, len)` on two parts, the only way the handlers call it. */
    method WriteTwo(first: seq<byte>, second: seq<byte>) returns (ok: bool)
      requires Valid()
      modifies this`writeOffset, buff
      ensures Valid() && (View(), ok) == Apply(old(View()), Write(first + second))
    {
      if |first| + |second| > buff.Length - writeOffset {
        return false;
      }
      Copy(first);
      Copy(second);
      assert old(View()).unread + first + second == old(View()).unread + (first + second);
      return true;
    }
  }

  // ---------------------------------------------------------------- a bounded byte FIFO

  function ApplyAll(l: Layout, ops: seq<Op>): Layout
    decreases |ops|
  {
    if ops == [] then l else ApplyAll(Apply(l, ops[0]).0, ops[1..])
  }

  /** The bytes an operation puts in, none if it fails. */
  function Gain(l: Layout, op: Op): seq<byte> {
    if op.Write? && Apply(l, op).1 then op.data else []
  }

  /** The bytes an operation takes out, none if it fails. */
  function Loss(l: Layout, op: Op): seq<byte> {
    if op.Read? && Apply(l, op).1 then l.unread[..op.n] else []
  }

  function WrittenBy(l: Layout, ops: seq<Op>): seq<byte>
    decreases |ops|
  {
    if ops == [] then [] else Gain(l, ops[0]) + WrittenBy(Apply(l, ops[0]).0, ops[1..])
  }

  function ReadBy(l: Layout, ops: seq<Op>): seq<byte>
    decreases |ops|
  {
    if ops == [] then [] else Loss(l, ops[0]) + ReadBy(Apply(l, ops[0]).0, ops[1..])
  }

  lemma ApplyBalances(l: Layout, op: Op)
    requires l.Valid()
    ensures var l1 := Apply(l, op).0;
            && l1.Valid() && l1.capacity == l.capacity
            && l.unread + Gain(l, op) == Loss(l, op) + l1.unread
  {
  }

  /**
   Over any sequence of operations the offsets stay inside the block and what was unread or written
   since equals what was read followed by what is unread.
   */
  lemma {:induction false} BoundedFifo(l: Layout, ops: seq<Op>)
    requires l.Valid()
    ensures var m := ApplyAll(l, ops);
            && m.Valid() && m.capacity == l.capacity
            && l.unread + WrittenBy(l, ops) == ReadBy(l, ops) + m.unread
    decreases |ops|
  {
    hide Apply, Gain, Loss;
    if ops != [] {
      var l1 := Apply(l, ops[0]).0;
      var written, read, m := WrittenBy(l1, ops[1..]), ReadBy(l1, ops[1..]), ApplyAll(l1, ops[1..]);
      ApplyBalances(l, ops[0]);
      BoundedFifo(l1, ops[1..]);
      calc {
        l.unread + (Gain(l, ops[0]) + written);
        (l.unread + Gain(l, ops[0])) + written;
        Loss(l, ops[0]) + (l1.unread + written);
        (Loss(l, ops[0]) + read) + m.unread;
      }
    }
  }

  /** `checkWriteLen` answers exactly whether the bytes fit beside the unread ones, and keeps those. */
  lemma CheckIsExact(l: Layout, n: nat)
    requires l.Valid()
    ensures Apply(l, Check(n)).1 <==> |l.unread| + n <= l.capacity
    ensures Apply(l, Check(n)).0.unread == l.unread
    ensures Apply(l, Check(n)).1 ==> n <= Apply(l, Check(n)).0.Room()
  {
  }

  /** Whether an operation succeeds, and where the unread bytes then are. */
  lemma OperationsExact(l: Layout, op: Op)
    requires l.Valid()
    ensures var (m, ok) := Apply(l, op);
            && m.capacity == l.capacity
            && match op
               case Write(data) =>
                 && (ok <==> l.read + |l.unread| + |data| <= l.capacity) && m.read == l.read
                 && m.unread == l.unread + (if ok then data else [])
               case Read(n) =>
                 && (ok <==> n <= |l.unread|) && m.WriteOffset() == l.WriteOffset()
                 && |m.unread| == |l.unread| - (if ok then n else 0) && m.unread == l.unread[|l.unread| - |m.unread|..]
               case Check(n) =>
                 && (ok <==> |l.unread| + n <= l.capacity) && m.unread == l.unread
                 && m.read == if l.read + |l.unread| + n <= l.capacity then l.read else 0
               case Move => ok && m.read == 0 && m.unread == l.unread
  {
  }

  /** After any operations on a new buffer a read succeeds exactly if that much was written and not yet read. */
  lemma ReadsWhatWasWritten(capacity: nat, ops: seq<Op>, n: nat)
    ensures var l := Layout(capacity, 0, []);
            var m, written, taken := ApplyAll(l, ops), WrittenBy(l, ops), ReadBy(l, ops);
            && taken <= written
            && (Apply(m, Read(n)).1 <==> |taken| + n <= |written|)
            && (|taken| + n <= |written| ==> Loss(m, Read(n)) == written[|taken|..|taken| + n])
  {
    var l := Layout(capacity, 0, []);
    BoundedFifo(l, ops);
    assert [] + WrittenBy(l, ops) == WrittenBy(l, ops);
  }
}
