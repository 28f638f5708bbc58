/** The accumulate-and-split loops of main.c: bytes arrive in reads of any size, and whole
    frames are cut off the front of the buffer and handed over. */
module StreamSplit {
  import opened Word32
  import opened Bytes
  import opened Protocol

  const CAPACITY: nat := 3200    // BC_MAX_FRAME_LEN * 2

  /** What process_transport_frames does with a buffer: the messages it hands over, what
      stays, and false when the buffer does not start with a frame. */
  datatype Cut = Cut(msgs: seq<Message>, rest: seq<byte>, ok: bool)

  function Split(b: seq<byte>): (r: Cut)
    ensures |r.rest| <= |b|
    decreases |b|
  {
    match FrameLength(b)
    case NeedMore => Cut([], b, true)
    case Bad => Cut([], b, false)
    case Complete(n) =>
      match Decode(b[..n])
      case None => Cut([], b, false)
      case Some(m) =>
        var r := Split(b[n..]);
        Cut([m] + r.msgs, r.rest, r.ok)
  }

  /** The receiver between reads: its buffer, what the socket still holds, and the messages
      handed over so far. */
  datatype Rx = Rx(buf: seq<byte>, pending: seq<byte>, out: seq<Message>)

  /** Bytes one read of up to `size` bytes returns. */
  function Got(rx: Rx, size: nat): nat
    requires |rx.buf| <= CAPACITY
  {
    var space := CAPACITY - |rx.buf|;
    var n := if size < space then size else space;
    if n < |rx.pending| then n else |rx.pending|
  }

  /** One turn of the loop of on_transport_event. */
  function Read(rx: Rx, size: nat): (r: Rx)
    requires |rx.buf| <= CAPACITY
    ensures |r.buf| <= CAPACITY
  {
    if |rx.buf| >= CAPACITY then rx.(buf := [])
    else
      var n := Got(rx, size);
      var cut := Split(rx.buf + rx.pending[..n]);
      Rx(if cut.ok then cut.rest else [], rx.pending[n..], rx.out + cut.msgs)
  }

  function Reads(rx: Rx, sizes: seq<nat>): (r: Rx)
    requires |rx.buf| <= CAPACITY
    ensures |r.buf| <= CAPACITY
    decreases |sizes|
  {
    if sizes == [] then rx else Read(Reads(rx, sizes[..|sizes| - 1]), sizes[|sizes| - 1])
  }

  class Receiver {
    const rxBuf: array<byte>
    var rxLen: nat

    ghost predicate Valid()
      reads this
    {
      rxBuf.Length == CAPACITY && rxLen <= CAPACITY
    }

    constructor ()
      ensures Valid() && rxLen == 0 && fresh(rxBuf)
    {
      rxBuf := new byte[CAPACITY](_ => 0);
      rxLen := 0;
    }

    /** The memmove behind a frame. */
    method DropFront(n: nat)
      requires Valid() && n <= rxLen
      modifies this`rxLen, rxBuf
      ensures Valid() && rxLen == old(rxLen) - n && rxBuf[..rxLen] == old(rxBuf[..rxLen])[n..]
    {
      ghost var b := rxBuf[..rxLen];
      forall i | 0 <= i < rxLen - n { rxBuf[i] := rxBuf[n + i]; }
      rxLen := rxLen - n;
      assert rxBuf[..rxLen] == b[n..];
    }

    /** process_transport_frames: the messages go to `out` in order. */
    method ProcessFrames() returns (ok: bool, out: seq<Message>)
      requires Valid()
      modifies this`rxLen, rxBuf
      ensures Valid() && rxLen <= old(rxLen)
      ensures Cut(out, rxBuf[..rxLen], ok) == Split(old(rxBuf[..rxLen]))
    {
      hide FrameLength, Decode, Split;
      out := [];
      ghost var start := rxBuf[..rxLen];
      while true
        invariant Valid() && rxLen <= old(rxLen)
        invariant Split(start) ==
          Cut(out + Split(rxBuf[..rxLen]).msgs, Split(rxBuf[..rxLen]).rest, Split(rxBuf[..rxLen]).ok)
        decreases rxLen
      {
        var b := rxBuf[..rxLen];
        Cuts(b);
        var length := FrameLength(b);
        if length == NeedMore { return true, out; }
        if length == Bad { return false, out; }
        var n := length.len;
        var m := Decode(b[..n]);
        if m == None { return false, out; }
        out := out + [m.value];
        DropFront(n);
      }
    }

    /** One turn of the loop of on_transport_event, with the bytes a read returned. */
    method OnRead(chunk: seq<byte>) returns (out: seq<Message>)
      requires Valid() && rxLen < CAPACITY && |chunk| <= CAPACITY - rxLen
      modifies this`rxLen, rxBuf
      ensures Valid()
      ensures
        var cut := Split(old(rxBuf[..rxLen]) + chunk);
        out == cut.msgs && rxBuf[..rxLen] == if cut.ok then cut.rest else []
    {
      hide Split;
      ghost var b := rxBuf[..rxLen];
      forall i | 0 <= i < |chunk| { rxBuf[rxLen + i] := chunk[i]; }
      rxLen := rxLen + |chunk|;
      assert rxBuf[..rxLen] == b + chunk;
      var ok;
      ok, out := ProcessFrames();
      if !ok { rxLen := 0; }
    }
  }

  lemma Cuts(b: seq<byte>)
    ensures FrameLength(b).Complete? ==> HEADER < FrameLength(b).len <= |b|
    ensures FrameLength(b) == NeedMore ==> Split(b) == Cut([], b, true)
    ensures FrameLength(b) == Bad ==> Split(b) == Cut([], b, false)
    ensures FrameLength(b).Complete? && Decode(b[..FrameLength(b).len]) == None ==> Split(b) == Cut([], b, false)
    ensures FrameLength(b).Complete? && Decode(b[..FrameLength(b).len]).Some? ==>
      var n := FrameLength(b).len;
      Split(b) == Cut([Decode(b[..n]).value] + Split(b[n..]).msgs, Split(b[n..]).rest, Split(b[n..]).ok)
  {
    hide Decode, Get16, Get32;
  }

  // ---- Every cutting of a stream of frames ----

  predicate AllEncodable(ms: seq<Message>) {
    forall m <- ms :: Encodable(m)
  }

  function FrameOf(m: Message): (r: seq<byte>)
    requires Encodable(m)
    ensures HEADER < |r| <= 1530
  {
    EncodeSize(m);
    Encode(m).value
  }

  /** The bytes a sender writes. */
  function Wire(ms: seq<Message>): seq<byte>
    requires AllEncodable(ms)
  {
    if ms == [] then [] else FrameOf(ms[0]) + Wire(ms[1..])
  }

  /** The buffer and the messages agree: the messages handed over are the first ones sent, and
      the buffer is the start, but not all, of the next frame. */
  predicate InStep(ms: seq<Message>, out: seq<Message>, buf: seq<byte>, pending: seq<byte>)
    requires AllEncodable(ms)
  {
    && |out| <= |ms| && out == ms[..|out|] && AllEncodable(ms[|out|..])
    && buf + pending == Wire(ms[|out|..])
    && (|out| == |ms| ==> buf == []) && (|out| < |ms| ==> |buf| < |FrameOf(ms[|out|])|)
  }

  lemma SplitStep(m: Message, rest: seq<byte>)
    requires Encodable(m)
    ensures
      var r := Split(rest);
      Split(FrameOf(m) + rest) == Cut([m] + r.msgs, r.rest, r.ok)
  {
    hide Encode, FrameLength, Decode;
    var b := FrameOf(m) + rest;
    DecodeEncode(m, rest);
    DecodeEncode(m, []);
    Cuts(b);
    assert b[..|FrameOf(m)|] == FrameOf(m) + [] && b[|FrameOf(m)|..] == rest;
  }

  lemma {:induction false} SplitMore(ms: seq<Message>, rest: seq<byte>)
    requires AllEncodable(ms)
    ensures Split(Wire(ms) + rest) == Cut(ms + Split(rest).msgs, Split(rest).rest, Split(rest).ok)
  {
    hide Split, FrameOf, Encodable, Decode, FrameLength, Encode;
    if ms == [] {
      assert [] + rest == rest && [] + Split(rest).msgs == Split(rest).msgs;
    } else {
      WireFirst(ms);
      SplitMore(ms[1..], rest);
      SplitStep(ms[0], Wire(ms[1..]) + rest);
      hide Wire;
      assert (FrameOf(ms[0]) + Wire(ms[1..])) + rest == FrameOf(ms[0]) + (Wire(ms[1..]) + rest);
      assert [ms[0]] + (ms[1..] + Split(rest).msgs) == ms + Split(rest).msgs;
    }
  }

  lemma WireFirst(ms: seq<Message>)
    requires AllEncodable(ms) && ms != []
    ensures Encodable(ms[0]) && AllEncodable(ms[1..]) && Wire(ms) == FrameOf(ms[0]) + Wire(ms[1..])
  {
    hide FrameOf, Encodable;
    assert ms[0] in ms && forall m <- ms[1..] :: m in ms;
  }

  /** A malformed frame: what stands before it is handed over, and the buffer is emptied. */
  lemma MalformedEmpties(ms: seq<Message>, bad: seq<byte>, rx: Rx, size: nat)
    requires AllEncodable(ms) && |rx.buf| < CAPACITY && rx.buf + rx.pending[..Got(rx, size)] == Wire(ms) + bad
    requires |bad| >= HEADER && (!StartsFrame(bad) || (Claimed(bad) <= |bad| && Decode(bad[..Claimed(bad)]) == None))
    ensures Read(rx, size) == Rx([], rx.pending[Got(rx, size)..], rx.out + ms)
  {
    SplitMore(ms, bad);
    FramesExactly(bad);
    Cuts(bad);
    assert ms + [] == ms;
    hide Split, FrameOf, Decode, StartsFrame, Claimed, FrameLength, Wire;
  }

  /** Splitting the first k bytes of a stream of frames. */
  lemma {:induction false} SplitPrefix(ms: seq<Message>, b: seq<byte>, more: seq<byte>)
    requires AllEncodable(ms) && b + more == Wire(ms)
    ensures Split(b).ok && InStep(ms, Split(b).msgs, Split(b).rest, more)
    decreases |ms|
  {
    hide Encode, FrameLength, Decode, Encodable, FrameOf;
    if ms == [] {
      assert b == [];
      Short(b);
    } else if |b| < |FrameOf(ms[0])| {
      assert b == Wire(ms)[..|b|] == FrameOf(ms[0])[..|b|];
      Partial(ms[0], |b|);
      Cuts(b);
    } else {
      var f := FrameOf(ms[0]);
      var rest := b[|f|..];
      assert b[..|f|] == (b + more)[..|f|] == f;
      assert b == f + rest;
      assert rest + more == (b + more)[|f|..] == Wire(ms)[|f|..] == Wire(ms[1..]);
      SplitPrefix(ms[1..], rest, more);
      SplitStep(ms[0], rest);
      var r := Split(rest);
      assert ms[1..][|r.msgs|..] == ms[|r.msgs| + 1..];
      assert [ms[0]] + ms[1..][..|r.msgs|] == ms[..|r.msgs| + 1];
    }
  }

  lemma Short(b: seq<byte>)
    requires b == []
    ensures Split(b) == Cut([], b, true)
  {
  }

  lemma Partial(m: Message, k: nat)
    requires Encodable(m) && k < |FrameOf(m)|
    ensures FrameLength(FrameOf(m)[..k]) == NeedMore
  {
    hide FrameLength;
    PartialFrame(m, k);
  }

  lemma ReadKeeps(ms: seq<Message>, rx: Rx, size: nat)
    requires AllEncodable(ms) && |rx.buf| <= CAPACITY && InStep(ms, rx.out, rx.buf, rx.pending)
    ensures InStep(ms, Read(rx, size).out, Read(rx, size).buf, Read(rx, size).pending)
    ensures |rx.buf| < 1530 && |Read(rx, size).pending| == |rx.pending| - Got(rx, size)
  {
    hide Split, FrameOf, Encodable;
    var k := |rx.out|;
    var left := ms[k..];
    var n := Got(rx, size);
    var b := rx.buf + rx.pending[..n];
    assert b + rx.pending[n..] == rx.buf + rx.pending;
    SplitPrefix(left, b, rx.pending[n..]);
    var j := |Split(b).msgs|;
    assert left[j..] == ms[k + j..];
    assert ms[..k] + left[..j] == ms[..k + j];
  }

  /** For any valid messages and any cutting of their bytes into reads: at every moment the
      messages handed over are the first ones sent, in order; the buffer is a proper prefix of
      one frame, so it never fills; and once the socket is empty all have been handed over. */
  lemma {:induction false} Splits(ms: seq<Message>, sizes: seq<nat>)
    requires AllEncodable(ms)
    ensures
      var r := Reads(Rx([], Wire(ms), []), sizes);
      && InStep(ms, r.out, r.buf, r.pending) && |r.buf| < 1530
      && (r.pending == [] ==> r.out == ms && r.buf == [])
    decreases |sizes|
  {
    hide Read, FrameOf, Encodable;
    var rx := Rx([], Wire(ms), []);
    if sizes == [] {
      assert ms[0..] == ms;
      assert [] + Wire(ms) == Wire(ms);
      if ms != [] { assert ms[0] in ms; }
      AllDone(ms, rx);
    } else {
      var init := sizes[..|sizes| - 1];
      Splits(ms, init);
      ReadKeeps(ms, Reads(rx, init), sizes[|sizes| - 1]);
      AllDone(ms, Reads(rx, sizes));
    }
  }

  lemma AllDone(ms: seq<Message>, rx: Rx)
    requires AllEncodable(ms) && InStep(ms, rx.out, rx.buf, rx.pending)
    ensures |rx.buf| < 1530
    ensures rx.pending == [] ==> rx.out == ms && rx.buf == []
  {
    hide Encodable;
    if |rx.out| < |ms| {
      var left := ms[|rx.out|..];
      assert left[0] == ms[|rx.out|] && left[0] in left;
      assert |Wire(left)| >= |FrameOf(left[0])|;
    }
  }
}
