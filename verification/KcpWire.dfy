/** The KCP wire format: 24-byte segment headers, datagrams that pack whole segments,
    and the decoding loop of ikcp_input. */
module KcpWire {
  import opened Word32
  import opened Bytes

  const OVERHEAD: nat := 24
  const CMD_PUSH: byte := 81
  const CMD_ACK: byte := 82
  const CMD_WASK: byte := 83
  const CMD_WINS: byte := 84

  /** One segment as it travels; `conv` is that of the connection. */
  datatype WireSeg = WireSeg(cmd: byte, frg: byte, wnd: u16, ts: u32, sn: u32, una: u32, data: seq<byte>)

  predicate KnownCmd(cmd: byte) {
    cmd == CMD_PUSH || cmd == CMD_ACK || cmd == CMD_WASK || cmd == CMD_WINS
  }

  /** A segment the decoder accepts: a known command and a length that is not negative
      as a signed integer. */
  predicate Sendable(s: WireSeg) {
    KnownCmd(s.cmd) && |s.data| < HALF
  }

  function Header(conv: u32, s: WireSeg): (r: seq<byte>)
    requires |s.data| < HALF
    ensures |r| == OVERHEAD
  {
    Put32(conv) + [s.cmd, s.frg] + Put16(s.wnd) + Put32(s.ts) + Put32(s.sn) + Put32(s.una) + Put32(|s.data|)
  }

  function SegSize(s: WireSeg): nat {
    OVERHEAD + |s.data|
  }

  function EncodeSeg(conv: u32, s: WireSeg): (r: seq<byte>)
    requires |s.data| < HALF
    ensures |r| == SegSize(s)
  {
    Header(conv, s) + s.data
  }

  predicate AllSendable(segs: seq<WireSeg>) {
    forall s <- segs :: Sendable(s)
  }

  /** The bytes of a datagram that carries these segments. */
  function EncodeAll(conv: u32, segs: seq<WireSeg>): (r: seq<byte>)
    requires AllSendable(segs)
    ensures |r| == TotalSize(SegSize, segs)
    decreases |segs|
  {
    if segs == [] then []
    else
      assert segs[|segs| - 1] in segs;
      EncodeAll(conv, segs[..|segs| - 1]) + EncodeSeg(conv, segs[|segs| - 1])
  }

  /** The segments of a datagram up to the first malformed one, and the return code of
      the decoding loop: 0, or -1, -2, -3 at the malformed one. */
  function Parse(conv: u32, b: seq<byte>): (r: (seq<WireSeg>, int))
    decreases |b|
  {
    if |b| < OVERHEAD then ([], 0)
    else if Get32(b[0..4]) != conv then ([], -1)
    else
      var len := Get32(b[20..24]);
      if |b| - OVERHEAD < len || len >= HALF then ([], -2)
      else if !KnownCmd(b[4]) then ([], -3)
      else
        var seg := WireSeg(b[4], b[5], Get16(b[6..8]), Get32(b[8..12]), Get32(b[12..16]), Get32(b[16..20]),
          b[24..24 + len]);
        var rest := Parse(conv, b[24 + len..]);
        ([seg] + rest.0, rest.1)
  }

  /** What the decoder reads back from one encoded segment followed by anything. */
  lemma ParseOne(conv: u32, s: WireSeg, rest: seq<byte>)
    requires Sendable(s)
    ensures Parse(conv, EncodeSeg(conv, s) + rest) == ([s] + Parse(conv, rest).0, Parse(conv, rest).1)
  {
    var b := EncodeSeg(conv, s) + rest;
    assert b[0..4] == Put32(conv);
    assert b[4] == s.cmd && b[5] == s.frg;
    assert b[6..8] == Put16(s.wnd);
    assert b[8..12] == Put32(s.ts);
    assert b[12..16] == Put32(s.sn);
    assert b[16..20] == Put32(s.una);
    assert b[20..24] == Put32(|s.data|);
    assert b[24..24 + |s.data|] == s.data;
    assert b[24 + |s.data|..] == rest;
    RoundTrip32(conv);
    RoundTrip16(s.wnd);
    RoundTrip32(s.ts);
    RoundTrip32(s.sn);
    RoundTrip32(s.una);
    RoundTrip32(|s.data|);
  }

  lemma {:induction false} ParsePrefix(conv: u32, segs: seq<WireSeg>, rest: seq<byte>)
    requires AllSendable(segs)
    ensures Parse(conv, EncodeAll(conv, segs) + rest) == (segs + Parse(conv, rest).0, Parse(conv, rest).1)
    decreases |segs|
  {
    hide Parse, EncodeSeg;
    if segs == [] {
      assert EncodeAll(conv, segs) + rest == rest;
      assert segs + Parse(conv, rest).0 == Parse(conv, rest).0;
    } else {
      var init, last := segs[..|segs| - 1], segs[|segs| - 1];
      assert last in segs;
      assert EncodeAll(conv, segs) == EncodeAll(conv, init) + EncodeSeg(conv, last);
      assert EncodeAll(conv, segs) + rest == EncodeAll(conv, init) + (EncodeSeg(conv, last) + rest);
      ParsePrefix(conv, init, EncodeSeg(conv, last) + rest);
      ParseOne(conv, last, rest);
      assert init + ([last] + Parse(conv, rest).0) == segs + Parse(conv, rest).0;
    }
  }

  lemma {:induction false} EncodeFirst(conv: u32, s: WireSeg, segs: seq<WireSeg>)
    requires Sendable(s) && AllSendable(segs)
    ensures AllSendable([s] + segs) && EncodeAll(conv, [s] + segs) == EncodeSeg(conv, s) + EncodeAll(conv, segs)
    decreases |segs|
  {
    hide EncodeSeg;
    var all := [s] + segs;
    assert forall x <- all :: x == s || x in segs;
    if segs == [] {
      assert all[..0] == [] && all[0] == s;
      assert EncodeAll(conv, all) == EncodeAll(conv, []) + EncodeSeg(conv, s);
    } else {
      var n := |segs| - 1;
      assert all[..|all| - 1] == [s] + segs[..n] && all[|all| - 1] == segs[n];
      EncodeFirst(conv, s, segs[..n]);
    }
  }

  /** What stops the decoder: less than a header is left, or a header of another connection, of a segment
      that is longer than what is there, or of an unknown command; with the code for each. */
  predicate Stops(conv: u32, b: seq<byte>, rc: int) {
    if |b| < OVERHEAD then rc == 0
    else if b[0..4] != Put32(conv) then rc == -1
    else if Get32(b[20..24]) > |b| - OVERHEAD || Get32(b[20..24]) >= HALF then rc == -2
    else rc == -3 && b[4] != CMD_PUSH && b[4] != CMD_ACK && b[4] != CMD_WASK && b[4] != CMD_WINS
  }

  /** And encoding inverts decoding: of any bytes at all, those that were taken for segments are exactly the
      encoding of these segments, and the code says what stands behind them. */
  lemma {:induction false} ParseExactly(conv: u32, b: seq<byte>)
    ensures
      var (segs, rc) := Parse(conv, b);
      && AllSendable(segs) && TotalSize(SegSize, segs) <= |b|
      && b[..TotalSize(SegSize, segs)] == EncodeAll(conv, segs)
      && Stops(conv, b[TotalSize(SegSize, segs)..], rc)
    decreases |b|
  {
    hide EncodeSeg, EncodeAll, Parse, Stops, AllSendable, Sendable, TotalSize, SegSize;
    var (segs, rc) := Parse(conv, b);
    if segs == [] {
      NothingParsed(conv, b);
    } else {
      HeaderBack(conv, b);
      ParseExactly(conv, b[SegSize(segs[0])..]);
      OneMoreParsed(conv, b, segs[0], segs[1..], rc);
      assert segs == [segs[0]] + segs[1..];
    }
  }

  lemma NothingParsed(conv: u32, b: seq<byte>)
    requires Parse(conv, b).0 == []
    ensures Stops(conv, b[0..], Parse(conv, b).1) && b[..0] == EncodeAll(conv, []) && TotalSize(SegSize, []) == 0
    ensures AllSendable([])
  {
    if |b| >= OVERHEAD { ConvIs(conv, b); }
    assert b[0..] == b && b[..0] == [];
    hide Get32, Get16, Put32;
  }

  lemma OneMoreParsed(conv: u32, b: seq<byte>, s: WireSeg, segs: seq<WireSeg>, rc: int)
    requires Sendable(s) && SegSize(s) <= |b| && b[..SegSize(s)] == EncodeSeg(conv, s) && AllSendable(segs)
    requires
      var rest, m := b[SegSize(s)..], TotalSize(SegSize, segs);
      m <= |rest| && rest[..m] == EncodeAll(conv, segs) && Stops(conv, rest[m..], rc)
    ensures
      var all := [s] + segs;
      var m := TotalSize(SegSize, all);
      AllSendable(all) && m <= |b| && b[..m] == EncodeAll(conv, all) && Stops(conv, b[m..], rc)
  {
    hide EncodeSeg, EncodeAll, Stops, Sendable, TotalSize;
    EncodeFirst(conv, s, segs);
    var n, m := SegSize(s), TotalSize(SegSize, segs);
    assert TotalSize(SegSize, [s] + segs) == |EncodeAll(conv, [s] + segs)| == n + m;
    assert b[..n + m] == b[..n] + b[n..][..m] && b[n + m..] == b[n..][m..];
  }

  lemma ConvIs(conv: u32, b: seq<byte>)
    requires |b| >= 4
    ensures Get32(b[0..4]) == conv <==> b[0..4] == Put32(conv)
  {
    Unique32(b[0..4]);
    RoundTrip32(conv);
  }

  /** The first segment that is decoded was encoded as it stands. */
  lemma HeaderBack(conv: u32, b: seq<byte>)
    requires Parse(conv, b).0 != []
    ensures
      var s := Parse(conv, b).0[0];
      && Sendable(s) && SegSize(s) <= |b| && b[..SegSize(s)] == EncodeSeg(conv, s)
      && Parse(conv, b[SegSize(s)..]) == (Parse(conv, b).0[1..], Parse(conv, b).1)
  {
    var s := Parse(conv, b).0[0];
    var n := SegSize(s);
    ConvIs(conv, b);
    Unique16(b[6..8]);
    Unique32(b[8..12]);
    Unique32(b[12..16]);
    Unique32(b[16..20]);
    Unique32(b[20..24]);
    hide Get32, Get16, Put32, Put16;
    assert b[..n] == b[0..4] + [b[4], b[5]] + b[6..8] + b[8..12] + b[12..16] + b[16..20] + b[20..24] + b[24..n];
  }

  /** Decoding inverts encoding: the same segments, no error, nothing left over. */
  lemma DecodeEncode(conv: u32, segs: seq<WireSeg>)
    requires AllSendable(segs)
    ensures Parse(conv, EncodeAll(conv, segs)) == (segs, 0)
  {
    var b := EncodeAll(conv, segs);
    ParsePrefix(conv, segs, []);
    assert b + [] == b && segs + [] == segs;
  }

  // ---- Packing segments into datagrams of at most mtu bytes ----

  /** Datagrams already handed to the output, and the one still being filled. */
  datatype Packing<T> = Packing(full: seq<seq<T>>, open: seq<T>)

  function TotalSize<T>(size: T -> nat, items: seq<T>): nat
    decreases |items|
  {
    if items == [] then 0 else TotalSize(size, items[..|items| - 1]) + size(items[|items| - 1])
  }

  /** One step of ikcp_flush: send the buffer first when the item does not fit behind it. */
  function PutItem<T>(size: T -> nat, mtu: nat, p: Packing<T>, x: T): Packing<T> {
    if TotalSize(size, p.open) + size(x) > mtu then
      Packing(if p.open == [] then p.full else p.full + [p.open], [x])
    else
      Packing(p.full, p.open + [x])
  }

  function Pack<T>(size: T -> nat, mtu: nat, items: seq<T>): Packing<T>
    decreases |items|
  {
    if items == [] then Packing([], [])
    else PutItem(size, mtu, Pack(size, mtu, items[..|items| - 1]), items[|items| - 1])
  }

  /** The datagrams sent when everything has been flushed. */
  function Emitted<T>(p: Packing<T>): seq<seq<T>> {
    if p.open == [] then p.full else p.full + [p.open]
  }

  function Flatten<T>(groups: seq<seq<T>>): seq<T>
    decreases |groups|
  {
    if groups == [] then [] else Flatten(groups[..|groups| - 1]) + groups[|groups| - 1]
  }

  /** Packing loses, repeats and reorders nothing, and every datagram is non-empty and fits. */
  lemma {:induction false} PackSound<T>(size: T -> nat, mtu: nat, items: seq<T>)
    requires forall x <- items :: size(x) <= mtu
    ensures Flatten(Emitted(Pack(size, mtu, items))) == items
    ensures forall g <- Emitted(Pack(size, mtu, items)) ::
      g != [] && TotalSize(size, g) <= mtu && forall x <- g :: x in items
    decreases |items|
  {
    var p := Pack(size, mtu, items);
    if items != [] {
      var init, x := items[..|items| - 1], items[|items| - 1];
      assert items == init + [x];
      PackSound(size, mtu, init);
      var q := Pack(size, mtu, init);
      forall g | g in Emitted(p)
        ensures g != [] && TotalSize(size, g) <= mtu && forall x <- g :: x in items
      {
        if g !in Emitted(q) {
          assert g == p.open;
          assert g[..|g| - 1] == if p.open == [x] then [] else q.open;
          assert q.open != [] ==> q.open in Emitted(q);
        }
      }
      assert p.open != [];
      FlattenSnoc(p.full, p.open);
      if q.open != [] { FlattenSnoc(q.full, q.open); }
      if TotalSize(size, q.open) + size(x) <= mtu {
        assert Flatten(q.full) + (q.open + [x]) == (Flatten(q.full) + q.open) + [x];
      }
    }
  }

  lemma FlattenSnoc<T>(groups: seq<seq<T>>, g: seq<T>)
    ensures Flatten(groups + [g]) == Flatten(groups) + g
  {
    assert (groups + [g])[..|groups|] == groups;
  }

  /** The datagrams, as bytes, that a list of segments is sent in. */
  function Datagrams(conv: u32, mtu: nat, segs: seq<WireSeg>): (r: seq<seq<byte>>)
    requires AllSendable(segs)
    requires forall s <- segs :: SegSize(s) <= mtu
  {
    PackSound(SegSize, mtu, segs);
    EncodeGroups(conv, Emitted(Pack(SegSize, mtu, segs)))
  }

  function EncodeGroups(conv: u32, groups: seq<seq<WireSeg>>): (r: seq<seq<byte>>)
    requires forall g <- groups :: AllSendable(g)
    ensures |r| == |groups|
    ensures forall j | 0 <= j < |r| :: r[j] == EncodeAll(conv, groups[j])
  {
    seq(|groups|, j requires 0 <= j < |groups| => EncodeAll(conv, groups[j]))
  }

  lemma SmallestGroup(g: seq<WireSeg>)
    requires g != []
    ensures TotalSize(SegSize, g) >= OVERHEAD
  {
  }

  /** Every datagram is non-empty, fits the mtu and decodes, without error, to a run of
      whole segments; the runs in order are exactly the segments that were sent. */
  lemma DatagramsDecode(conv: u32, mtu: nat, segs: seq<WireSeg>)
    requires AllSendable(segs)
    requires forall s <- segs :: SegSize(s) <= mtu
    ensures forall d <- Datagrams(conv, mtu, segs) :: OVERHEAD <= |d| <= mtu && Parse(conv, d).1 == 0
    ensures Flatten(ParseAll(conv, Datagrams(conv, mtu, segs))) == segs
  {
    hide Parse;
    PackSound(SegSize, mtu, segs);
    var groups := Emitted(Pack(SegSize, mtu, segs));
    var ds := Datagrams(conv, mtu, segs);
    forall j | 0 <= j < |ds|
      ensures OVERHEAD <= |ds[j]| <= mtu && Parse(conv, ds[j]) == (groups[j], 0)
    {
      var g := groups[j];
      assert g in groups;
      SmallestGroup(g);
      DecodeEncode(conv, g);
    }
    assert ParseAll(conv, ds) == groups;
  }

  function ParseAll(conv: u32, ds: seq<seq<byte>>): (r: seq<seq<WireSeg>>) {
    seq(|ds|, j requires 0 <= j < |ds| => Parse(conv, ds[j]).0)
  }
}
