/** A client's output buffer (client_manager.c): frames are appended behind what is pending, a
    socket takes any number of bytes off the front, and the bytes move to the start of the
    buffer only when a frame would not fit behind them. */
module ClientQueue {
  import opened Word32
  import opened Status

  const CAPACITY: nat := 0x40_0000    // 4 MiB

  function Least(a: nat, b: nat): nat {
    if a < b then a else b
  }

  /** What the socket has taken so far and what still waits. */
  datatype Tx = Tx(sent: seq<byte>, pending: seq<byte>)
  {
    predicate Fits(data: seq<byte>) {
      |pending| + |data| <= CAPACITY
    }

    function Enqueued(data: seq<byte>): Tx {
      if Fits(data) then Tx(sent, pending + data) else this
    }

    function Drained(n: nat): (t: Tx)
      ensures t.sent + t.pending == sent + pending
    {
      var k := Least(n, |pending|);
      assert pending == pending[..k] + pending[k..];
      Tx(sent + pending[..k], pending[k..])
    }
  }

  class TxQueue {
    const buf: array<byte>
    var off: nat
    var len: nat
    ghost var enqueued: seq<byte>    // every byte ever accepted
    ghost var sent: seq<byte>        // every byte the socket has taken

    /** Bytes on the socket and bytes pending are, together, exactly what was enqueued. */
    ghost predicate Valid()
      reads this, buf
    {
      && buf.Length == CAPACITY && off + len <= CAPACITY
      && enqueued == sent + Pending()
    }

    ghost function Pending(): (r: seq<byte>)
      requires off + len <= buf.Length
      reads this, buf
      ensures |r| == len
    {
      buf[off..off + len]
    }

    ghost function Value(): Tx
      requires off + len <= buf.Length
      reads this, buf
    {
      Tx(sent, Pending())
    }

    constructor ()
      ensures Valid() && Value() == Tx([], []) && enqueued == [] && fresh(buf)
    {
      buf := new byte[CAPACITY](_ => 0);
      off, len := 0, 0;
      enqueued, sent := [], [];
    }

    /** The memmove of enqueue_client_tx. */
    method Compact()
      requires Valid()
      modifies this`off, buf
      ensures Valid() && off == 0 && Value() == old(Value())
    {
      forall i | 0 <= i < len { buf[i] := buf[off + i]; }
      off := 0;
      assert buf[off..off + len] == old(buf[off..off + len]);
    }

    /** enqueue_client_tx: a frame is refused for want of space exactly when it does not fit
        next to the pending bytes, wherever in the buffer these lie. An error of the epoll update
        that follows is reported after the frame was appended. */
    method Enqueue(data: seq<byte>, epollOk: bool) returns (rc: Code)
      requires Valid()
      modifies this`off, this`len, this`enqueued, buf
      ensures Valid()
      ensures rc ==
        if |data| > CAPACITY then Invalid
        else if !old(Value()).Fits(data) then NoMem
        else if epollOk then Ok else IoError
      ensures Value() == old(Value()).Enqueued(data)
      ensures enqueued == if old(Value()).Fits(data) then old(enqueued) + data else old(enqueued)
    {
      if |data| > CAPACITY { return Invalid; }
      if off > 0 && off + len + |data| > CAPACITY { Compact(); }
      if off + len + |data| > CAPACITY { return NoMem; }
      Append(data);
      rc := if epollOk then Ok else IoError;
    }

    method Append(data: seq<byte>)
      requires Valid() && off + len + |data| <= CAPACITY
      modifies this`len, this`enqueued, buf
      ensures Valid() && Value() == old(Value()).Enqueued(data) && enqueued == old(enqueued) + data
    {
      ghost var pending := Pending();
      forall i | 0 <= i < |data| { buf[off + len + i] := data[i]; }
      len := len + |data|;
      enqueued := enqueued + data;
      assert buf[off..off + len] == pending + data;
    }

    /** One send of which the socket takes up to n bytes. */
    method Send(n: nat)
      requires Valid() && 0 < len && 0 < n
      modifies this`off, this`len, this`sent
      ensures Valid() && enqueued == old(enqueued) && Value() == old(Value()).Drained(n)
      ensures len == old(len) - Least(n, old(len))
    {
      ghost var pending := Pending();
      var k := Least(n, len);
      sent := sent + pending[..k];
      off := off + k;
      len := len - k;
      assert buf[off..off + len] == pending[k..];
      assert pending == pending[..k] + pending[k..];
      if len == 0 { off := 0; }
    }

    /** flush_client_tx, where send takes accepts[i] bytes of what it is offered on its i-th call
        and after the last would block or fails: the socket gets the next bytes, in order. */
    method Flush(accepts: seq<nat>, wouldBlock: bool, epollOk: bool) returns (rc: Code)
      requires Valid() && forall i | 0 <= i < |accepts| :: 0 < accepts[i]
      modifies this`off, this`len, this`sent
      ensures Valid() && enqueued == old(enqueued) && Value() == old(Value()).Drained(Sum(accepts))
      ensures rc == if (if Sum(accepts) >= old(len) then epollOk else wouldBlock) then Ok else IoError
    {
      hide Pending;
      ghost var before := Value();
      var i := 0;
      assert accepts[..0] == [];
      while len > 0 && i < |accepts|
        invariant i <= |accepts| && Valid() && enqueued == old(enqueued)
        invariant Value() == before.Drained(Sum(accepts[..i]))
      {
        assert accepts[..i + 1][..i] == accepts[..i];
        DrainedTwice(before, Sum(accepts[..i]), accepts[i]);
        Send(accepts[i]);
        i := i + 1;
      }
      SumPrefix(accepts, i);
      if len > 0 { return if wouldBlock then Ok else IoError; }
      rc := if epollOk then Ok else IoError;
    }
  }

  lemma DrainedTwice(t: Tx, a: nat, b: nat)
    ensures t.Drained(a).Drained(b) == t.Drained(a + b)
  {
    var k := Least(a, |t.pending|);
    var more := Least(b, |t.pending| - k);
    assert t.pending[..k + more] == t.pending[..k] + t.pending[k..][..more];
    assert t.pending[k..][more..] == t.pending[k + more..];
  }

  function Sum(a: seq<nat>): nat
    decreases |a|
  {
    if a == [] then 0 else Sum(a[..|a| - 1]) + a[|a| - 1]
  }

  lemma {:induction false} SumPrefix(a: seq<nat>, i: nat)
    requires i <= |a|
    ensures Sum(a[..i]) <= Sum(a) && (i == |a| ==> Sum(a[..i]) == Sum(a))
    decreases |a| - i
  {
    if i < |a| {
      assert a[..i + 1][..i] == a[..i];
      SumPrefix(a, i + 1);
    } else {
      assert a[..i] == a;
    }
  }
}
