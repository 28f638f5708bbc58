/** The single-producer single-consumer ring of bc_shm.c: free-running 32-bit counters over a
    buffer of 2^25 bytes, and frames that start with their length. The methods of Ring are the
    three calls; ShmRuns lets a writer and a reader run at once, byte by byte. */
module ShmRing {
  import opened Word32
  import opened Bytes
  import opened Status

  const RING: nat := 0x200_0000
  const LEN: nat := 4

  predicate Fit(q: seq<seq<byte>>) {
    forall m <- q :: |m| <= RING - LEN
  }

  /** A frame as it lies in the ring. */
  function Frame(m: seq<byte>): (r: seq<byte>)
    requires |m| <= RING - LEN
    ensures |r| == LEN + |m|
  {
    Put32(|m|) + m
  }

  function Stream(q: seq<seq<byte>>): seq<byte>
    requires Fit(q)
  {
    if q == [] then [] else Frame(q[0]) + Stream(q[1..])
  }

  /** The bytes from counter value t on, as they lie in the ring. */
  predicate Holds(data: seq<byte>, t: nat, bytes: seq<byte>)
    requires |data| == RING
  {
    |bytes| <= RING && forall p | 0 <= p < |bytes| :: data[(t + p) % RING] == bytes[p]
  }

  lemma {:induction false} StreamSnoc(q: seq<seq<byte>>, m: seq<byte>)
    requires Fit(q) && |m| <= RING - LEN
    ensures Fit(q + [m]) && Stream(q + [m]) == Stream(q) + Frame(m)
  {
    hide Frame;
    assert Fit(q + [m]);
    if q == [] {
      assert q + [m] == [m];
      assert Stream([m]) == Frame(m) + Stream([]);
    } else {
      assert (q + [m])[1..] == q[1..] + [m];
      StreamSnoc(q[1..], m);
    }
  }

  /** Counters that wrap at 2^32 still name the right byte, since 2^25 divides 2^32. */
  lemma Position(n: nat, k: nat)
    ensures (Wrap(n) % RING + k) % RING == (n + k) % RING
  {
    assert n == MODULUS * (n / MODULUS) + Wrap(n);
    assert MODULUS == 128 * RING;
    SameRemainder(n, Wrap(n), 128 * (n / MODULUS));
    SameRemainder(Wrap(n), Wrap(n) % RING, Wrap(n) / RING);
    SameRemainder(n + k, Wrap(n) % RING + k, 128 * (n / MODULUS) + Wrap(n) / RING);
  }

  lemma SameRemainder(a: nat, b: nat, q: nat)
    requires a == b + RING * q
    ensures a % RING == b % RING
  {
    if q > 0 { SameRemainder(a - RING, b, q - 1); }
  }

  /** Two positions less than a ring apart are different bytes. */
  lemma Distinct(a: nat, b: nat)
    requires a < b < a + RING
    ensures a % RING != b % RING
  {
  }

  /** Writing the byte behind what the ring holds. */
  lemma HoldsPut(data: seq<byte>, t: nat, bytes: seq<byte>, b: byte)
    requires |data| == RING && Holds(data, t, bytes) && |bytes| < RING
    ensures Holds(data[(t + |bytes|) % RING := b], t, bytes + [b])
  {
    var i := (t + |bytes|) % RING;
    forall p | 0 <= p < |bytes| + 1 ensures data[i := b][(t + p) % RING] == (bytes + [b])[p] {
      if p < |bytes| { Distinct(t + p, t + |bytes|); }
    }
  }

  lemma HoldsDrop(data: seq<byte>, t: nat, bytes: seq<byte>, n: nat)
    requires |data| == RING && Holds(data, t, bytes) && n <= |bytes|
    ensures Holds(data, t + n, bytes[n..])
  {
    forall p | 0 <= p < |bytes| - n ensures data[(t + n + p) % RING] == bytes[n..][p] {
      assert data[(t + (n + p)) % RING] == bytes[n + p];
    }
  }

  /** The index of byte i of a frame, as bc_shm_ring_write and bc_shm_ring_read compute it. */
  function Index(counter: u32, i: nat): (r: nat)
    ensures r < RING
  {
    if i < LEN then (counter % RING + i) % RING else (Add(counter, LEN) % RING + (i - LEN)) % RING
  }

  lemma IndexIs(n: nat, i: nat)
    ensures Index(Wrap(n), i) == (n + i) % RING
  {
    if i < LEN {
      Position(n, i);
    } else {
      AddWrap(n, LEN);
      Position(n + LEN, i - LEN);
    }
  }

  /** What the counters say about the bytes between them. */
  lemma Counters(t: nat, n: nat)
    requires n <= RING
    ensures Sub(Wrap(t + n), Wrap(t)) == n
    ensures Sub(RING, Sub(Wrap(t + n), Wrap(t))) == RING - n
  {
    SubWrap(t + n, t);
  }

  /** The oldest frame is what a non-empty stream starts with. */
  lemma Oldest(q: seq<seq<byte>>)
    requires Fit(q) && q != []
    ensures |Stream(q)| >= LEN + |q[0]| && Stream(q)[..LEN] == Put32(|q[0]|)
    ensures Stream(q)[LEN..LEN + |q[0]|] == q[0] && Stream(q)[LEN + |q[0]|..] == Stream(q[1..])
  {
  }

  class Ring {
    var head: u32
    var tail: u32
    const data: array<byte>
    ghost var count: nat               // bytes ever read, of which tail is the word
    ghost var queue: seq<seq<byte>>    // frames written and not yet read

    ghost predicate Valid()
      reads this, data
    {
      && data.Length == RING && Fit(queue)
      && tail == Wrap(count) && head == Wrap(count + |Stream(queue)|)
      && Holds(data[..], count, Stream(queue))
    }

    constructor ()
      ensures Valid() && queue == [] && fresh(data)
    {
      head, tail := 0, 0;
      data := new byte[RING](_ => 0);
      count, queue := 0, [];
    }

    /** The loops of bc_shm_ring_write: the frame, byte by byte, behind what the ring holds. */
    method PutFrame(msg: seq<byte>, ghost bytes: seq<byte>)
      requires data.Length == RING && Holds(data[..], count, bytes) && head == Wrap(count + |bytes|)
      requires |msg| <= RING - LEN && |bytes| + LEN + |msg| <= RING
      modifies data
      ensures Holds(data[..], count, bytes + Frame(msg))
    {
      hide Frame, Wrap, Holds, Index;
      var header := Put32(|msg|);
      var i := 0;
      assert bytes + Frame(msg)[..0] == bytes;
      while i < LEN + |msg|
        invariant 0 <= i <= LEN + |msg|
        invariant Holds(data[..], count, bytes + Frame(msg)[..i])
      {
        IndexIs(count + |bytes|, i);
        ghost var before := data[..];
        var b := if i < LEN then header[i] else msg[i - LEN];
        FrameAt(msg, i);
        HoldsPut(before, count, bytes + Frame(msg)[..i], b);
        data[Index(head, i)] := b;
        assert data[..] == before[Index(head, i) := b];
        assert bytes + Frame(msg)[..i] + [b] == bytes + Frame(msg)[..i + 1];
        i := i + 1;
      }
      assert Frame(msg)[..i] == Frame(msg);
    }

    method Write(msg: seq<byte>) returns (rc: Code)
      requires Valid()
      modifies this`head, this`queue, data
      ensures Valid()
      ensures rc ==
        if |msg| > RING - LEN then Invalid else if old(|Stream(queue)|) + LEN + |msg| > RING then NoMem else Ok
      ensures queue == if rc == Ok then old(queue) + [msg] else old(queue)
    {
      if |msg| > RING - LEN { return Invalid; }
      hide Stream, Frame, Wrap, Holds;
      Counters(count, |Stream(queue)|);
      var space := Sub(RING, Sub(head, tail));
      if space < LEN + |msg| { return NoMem; }
      PutFrame(msg, Stream(queue));
      StreamSnoc(queue, msg);
      AddWrap(count + |Stream(queue)|, LEN + |msg|);
      head := Add(head, LEN + |msg|);
      queue := queue + [msg];
      rc := Ok;
    }

    method PeekLen() returns (rc: Code, len: nat)
      requires Valid()
      ensures rc == if queue == [] then NotFound else Ok
      ensures rc == Ok ==> len == |queue[0]|
    {
      len := 0;
      Counters(count, |Stream(queue)|);
      var avail := Sub(head, tail);
      if queue != [] { Oldest(queue); }
      if avail < LEN { return NotFound, 0; }
      hide Stream, Wrap;
      var got := [];
      while |got| < LEN
        invariant |got| <= LEN && got == Stream(queue)[..|got|]
        decreases LEN - |got|
      {
        IndexIs(count, |got|);
        got := got + [data[Index(tail, |got|)]];
      }
      RoundTrip32(|queue[0]|);
      len := Get32(got);
      rc := if avail < LEN + len then NotFound else Ok;
    }

    /** The loop of bc_shm_ring_read that copies the oldest frame out. */
    method CopyOut(len: nat) returns (out: seq<byte>)
      requires Valid() && LEN + len <= |Stream(queue)|
      ensures out == Stream(queue)[LEN..LEN + len]
    {
      hide Stream, Wrap, Index;
      out := [];
      while |out| < len
        invariant |out| <= len && out == Stream(queue)[LEN..LEN + |out|]
        decreases len - |out|
      {
        IndexIs(count, LEN + |out|);
        out := out + [data[Index(tail, LEN + |out|)]];
      }
    }

    method Read(cap: nat) returns (rc: Code, out: seq<byte>)
      requires Valid()
      modifies this`tail, this`count, this`queue
      ensures Valid()
      ensures rc == if old(queue) == [] then NotFound else if |old(queue)[0]| > cap then Invalid else Ok
      ensures rc == Ok ==> out == old(queue)[0] && queue == old(queue)[1..]
      ensures rc != Ok ==> out == [] && queue == old(queue)
    {
      out := [];
      var len;
      rc, len := PeekLen();
      if rc != Ok { return; }
      if len > cap { return Invalid, []; }
      Oldest(queue);
      hide Stream, Wrap, Holds;
      out := CopyOut(len);
      HoldsDrop(data[..], count, Stream(queue), LEN + len);
      AddWrap(count, LEN + len);
      tail := Add(tail, LEN + len);
      count := count + LEN + len;
      queue := queue[1..];
    }
  }

  lemma FrameAt(m: seq<byte>, i: nat)
    requires |m| <= RING - LEN && i < LEN + |m|
    ensures Frame(m)[i] == (if i < LEN then Put32(|m|)[i] else m[i - LEN])
  {
  }
}
