/** The keycode buffer of the console driver: a 256-byte ring with byte-sized indices. */
module KeycodeQueues {
  import opened Common

  const QUEUE_BUF_SIZE: nat := 256

  // ---- a bounded FIFO on values ----

  function Put(q: seq<byte>, data: byte): seq<byte> {
    if |q| == QUEUE_BUF_SIZE then q else q + [data]
  }

  function Get(q: seq<byte>): seq<byte> {
    if q == [] then q else q[1..]
  }

  datatype Op = PutOp(data: byte) | GetOp

  function Apply(q: seq<byte>, ops: seq<Op>): seq<byte>
    decreases |ops|
  {
    if ops == [] then q
    else Apply(if ops[0].PutOp? then Put(q, ops[0].data) else Get(q), ops[1..])
  }

  /** The scancodes that were stored, and those that were handed out. */
  function Accepted(q: seq<byte>, ops: seq<Op>): seq<byte>
    decreases |ops|
  {
    if ops == [] then []
    else if ops[0].GetOp? then Accepted(Get(q), ops[1..])
    else if |q| == QUEUE_BUF_SIZE then Accepted(q, ops[1..])
    else [ops[0].data] + Accepted(q + [ops[0].data], ops[1..])
  }

  function Delivered(q: seq<byte>, ops: seq<Op>): seq<byte>
    decreases |ops|
  {
    if ops == [] then []
    else if ops[0].PutOp? then Delivered(Put(q, ops[0].data), ops[1..])
    else if q == [] then Delivered(q, ops[1..]) else [q[0]] + Delivered(q[1..], ops[1..])
  }

  /** First in, first out: over any sequence of operations, what was in the buffer and what was stored comes
      out in that order, and the rest is still in the buffer, which never holds more than 256 bytes. */
  lemma {:induction false} FirstInFirstOut(q: seq<byte>, ops: seq<Op>)
    requires |q| <= QUEUE_BUF_SIZE
    ensures q + Accepted(q, ops) == Delivered(q, ops) + Apply(q, ops)
    ensures |Apply(q, ops)| <= 256
    decreases |ops|
  {
    if ops != [] {
      var op, rest := ops[0], ops[1..];
      if op.PutOp? {
        FirstInFirstOut(Put(q, op.data), rest);
        assert q + ([op.data] + Accepted(q + [op.data], rest)) == (q + [op.data]) + Accepted(q + [op.data], rest);
      } else {
        FirstInFirstOut(Get(q), rest);
        if q == [] {
          assert Delivered(q, ops) == Delivered(q, rest) && Accepted(q, ops) == Accepted(q, rest);
        } else {
          var a, d, r := Accepted(q[1..], rest), Delivered(q[1..], rest), Apply(q[1..], rest);
          assert q + a == [q[0]] + (q[1..] + a);
          assert ([q[0]] + d) + r == [q[0]] + (d + r);
        }
      }
    }
  }

  /** What is stored and what is handed out, operation by operation. */
  lemma OpMeans(q: seq<byte>, data: byte, ops: seq<Op>)
    ensures Accepted(q, []) == [] && Delivered(q, []) == []
    ensures Accepted(q, [PutOp(data)] + ops) ==
      if |q| == 256 then Accepted(q, ops) else [data] + Accepted(q + [data], ops)
    ensures Accepted(q, [GetOp] + ops) == Accepted(if q == [] then [] else q[1..], ops)
    ensures Delivered(q, [PutOp(data)] + ops) == Delivered(if |q| == 256 then q else q + [data], ops)
    ensures Delivered(q, [GetOp] + ops) == if q == [] then Delivered([], ops) else [q[0]] + Delivered(q[1..], ops)
  {
    assert ([PutOp(data)] + ops)[1..] == ops && ([GetOp] + ops)[1..] == ops;
  }

  // ---- the ring ----

  /** An index one further, in 8 bits. */
  function Wrap(i: byte): byte {
    if i == 255 then 0 else i + 1
  }

  /** What lies between two indices of the ring. */
  function Window(buf: seq<byte>, start: byte, end: byte, full: bool): seq<byte>
    requires |buf| == QUEUE_BUF_SIZE
  {
    var i, j := start as int, end as int;
    if i < j || (i == j && !full) then buf[i..j] else buf[i..] + buf[..j]
  }

  /** Byte k of what lies between the indices. */
  function PlaceOf(start: byte, k: int): int {
    if start as int + k < 256 then start as int + k else start as int + k - 256
  }

  lemma WindowAt(buf: seq<byte>, start: byte, end: byte, full: bool)
    requires |buf| == QUEUE_BUF_SIZE
    ensures var w, i, j := Window(buf, start, end, full), start as int, end as int;
      && |w| == (if i < j || (i == j && !full) then j - i else 256 + j - i)
      && forall k :: 0 <= k < |w| ==> w[k] == buf[PlaceOf(start, k)]
  {
  }

  lemma WindowPut(buf: seq<byte>, start: byte, end: byte, data: byte)
    requires |buf| == QUEUE_BUF_SIZE
    ensures Window(buf[end as int := data], start, Wrap(end), start == Wrap(end)) ==
      Window(buf, start, end, false) + [data]
  {
    WindowAt(buf, start, end, false);
    WindowAt(buf[end as int := data], start, Wrap(end), start == Wrap(end));
  }

  lemma WindowGet(buf: seq<byte>, start: byte, end: byte, full: bool)
    requires |buf| == QUEUE_BUF_SIZE && (full ==> start == end) && (full || start != end)
    ensures var w := Window(buf, start, end, full);
      w != [] && w[0] == buf[start as int] && Window(buf, Wrap(start), end, false) == w[1..]
  {
    WindowAt(buf, start, end, full);
    WindowAt(buf, Wrap(start), end, false);
  }

  class KeycodeQueue {
    const buf: array<byte>
    var start: byte
    var end: byte
    var isFull: bool
    var errorStatus: bool

    ghost predicate Valid()
      reads this
    {
      buf.Length == QUEUE_BUF_SIZE && (isFull ==> start == end)
    }

    /** The buffered scancodes, oldest first. */
    ghost function Contents(): seq<byte>
      requires Valid()
      reads this, buf
    {
      Window(buf[..], start, end, isFull)
    }

    constructor ()
      ensures Valid() && Contents() == [] && !errorStatus && fresh(buf)
    {
      buf := new byte[QUEUE_BUF_SIZE];
      start, end, isFull, errorStatus := 0, 0, false, false;
    }

    lemma FullOrEmpty()
      requires Valid()
      ensures |Contents()| <= 256
      ensures |Contents()| == 256 <==> isFull
      ensures Contents() == [] <==> !isFull && start == end
    {
    }

    method Enqueue(data: byte)
      requires Valid()
      modifies this, buf
      ensures Valid() && Contents() == Put(old(Contents()), data)
      ensures Contents() == if |old(Contents())| == 256 then old(Contents()) else old(Contents()) + [data]
      ensures errorStatus <==> |old(Contents())| == 256
    {
      if isFull {
        errorStatus := true;
      } else {
        errorStatus := false;
        WindowPut(buf[..], start, end, data);
        buf[end as int] := data;
        end := Wrap(end);
        if start == end {
          isFull := true;
        }
      }
    }

    method Dequeue() returns (data: byte)
      requires Valid()
      modifies this
      ensures Valid() && Contents() == Get(old(Contents()))
      ensures Contents() == if old(Contents()) == [] then [] else old(Contents())[1..]
      ensures errorStatus <==> old(Contents()) == []
      ensures data == if errorStatus then 0 else old(Contents())[0]
    {
      data := 0;
      if !isFull && start == end {
        errorStatus := true;
      } else {
        errorStatus := false;
        WindowGet(buf[..], start, end, isFull);
        data := buf[start as int];
        start := Wrap(start);
        isFull := false;
      }
    }
  }
}
