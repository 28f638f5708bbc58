/** The file transfer protocol of bc_file.c: packets, the sender's retransmission cache, and
    what sender and receiver do with one packet. */
module FileProtocol {
  import opened Word32
  import opened Bytes
  import Crc

  const MAGIC: u16 := 0xBCF1
  const START: byte := 1
  const DATA: byte := 2
  const END: byte := 3
  const NACK: byte := 4
  const DONE: byte := 5
  const FLAG_V2: byte := 1
  const META_VERSION: byte := 2
  const BODY_MAX: nat := 1392
  const NAME_MAX: nat := 255
  const CHANNEL_MAX: nat := 32
  const WINDOW: nat := 256

  // ---- Packets ----

  datatype Packet = Packet(kind: byte, flags: byte, value: u32, extra: seq<byte>)

  function EncodePacket(p: Packet): seq<byte> {
    Put16(MAGIC) + [p.kind, p.flags] + Put32(p.value) + p.extra
  }

  datatype Parsed = NotOurs | Ours(packet: Packet)

  /** parse_file_packet. */
  function ParsePacket(b: seq<byte>): Parsed {
    if |b| < 8 || Get16(b[0..2]) != MAGIC then NotOurs
    else Ours(Packet(b[2], b[3], Get32(b[4..8]), b[8..]))
  }

  lemma PacketRoundTrip(p: Packet)
    ensures ParsePacket(EncodePacket(p)) == Ours(p)
  {
    var b := EncodePacket(p);
    assert b[0..2] == Put16(MAGIC) && b[4..8] == Put32(p.value) && b[8..] == p.extra;
    RoundTrip16(MAGIC);
    RoundTrip32(p.value);
  }

  predicate V2(p: Packet) {
    p.flags % 2 == 1
  }

  /** parse_file_v2_control: a control packet of this kind for this transfer. */
  predicate IsControl(p: Packet, kind: byte, id: u32) {
    p.kind == kind && V2(p) && |p.extra| == 4 && Get32(p.extra) == id
  }

  function Control(kind: byte, value: u32, id: u32): Packet {
    Packet(kind, FLAG_V2, value, Put32(id))
  }

  lemma ControlIs(kind: byte, value: u32, id: u32, kind': byte, id': u32)
    ensures IsControl(Control(kind, value, id), kind', id') <==> kind == kind' && id == id'
  {
    RoundTrip32(id);
  }

  // ---- The description a transfer starts with ----

  function StartMeta(id: u32, name: seq<byte>, channel: seq<byte>): seq<byte>
    requires |name| <= NAME_MAX && |channel| < CHANNEL_MAX
  {
    [META_VERSION] + Put32(id) + Put16(|name|) + name + Put16(|channel|) + channel
  }

  /** The part of parse_start_meta behind the version and the transfer id: a name, and the
      channel the receiver expects. */
  predicate NamesMatch(b: seq<byte>, channel: seq<byte>) {
    && |b| >= 2
    && var n := Get16(b[0..2]);
    && 0 < n <= NAME_MAX && 2 + n + 2 <= |b|
    && var c := Get16(b[2 + n..4 + n]);
    && c < CHANNEL_MAX && 4 + n + c == |b|
    && b[4 + n..] == channel
  }

  /** parse_start_meta: whether the packet is accepted, and the transfer id it leaves. */
  function ParseStartMeta(extra: seq<byte>, channel: seq<byte>, v2: bool, id: u32): (bool, u32) {
    if v2 then
      if |extra| < 9 || extra[0] != META_VERSION then (false, id)
      else (NamesMatch(extra[5..], channel), Get32(extra[1..5]))
    else (|extra| >= 4 && NamesMatch(extra, channel), id)
  }

  lemma StartMetaRoundTrip(id: u32, name: seq<byte>, channel: seq<byte>, wanted: seq<byte>, prior: u32)
    requires 0 < |name| <= NAME_MAX && |channel| < CHANNEL_MAX
    ensures ParseStartMeta(StartMeta(id, name, channel), wanted, true, prior) == (channel == wanted, id)
  {
    hide Put16, Get16, Put32, Get32;
    var b := StartMeta(id, name, channel);
    var rest, n := b[5..], |name|;
    assert b[1..5] == Put32(id);
    assert rest == Put16(n) + name + Put16(|channel|) + channel;
    assert rest[0..2] == Put16(n) && rest[2 + n..4 + n] == Put16(|channel|) && rest[4 + n..] == channel;
    RoundTrip32(id);
    RoundTrip16(n);
    RoundTrip16(|channel|);
  }

  // ---- What is being sent ----

  /** A transfer: its id, the names, and the pieces that successive reads of the file return. */
  datatype Job = Job(id: u32, name: seq<byte>, channel: seq<byte>, chunks: seq<seq<byte>>)

  function Flat(chunks: seq<seq<byte>>): seq<byte>
    decreases |chunks|
  {
    if chunks == [] then [] else Flat(chunks[..|chunks| - 1]) + chunks[|chunks| - 1]
  }

  lemma FlatSnoc(a: seq<seq<byte>>, c: seq<byte>)
    ensures Flat(a + [c]) == Flat(a) + c
  {
    assert (a + [c])[..|a|] == a;
  }

  lemma TakeSnoc(chunks: seq<seq<byte>>, e: nat)
    requires e < |chunks|
    ensures Flat(chunks[..e + 1]) == Flat(chunks[..e]) + chunks[e]
    ensures chunks[..e + 1] == chunks[..e] + [chunks[e]]
  {
    assert chunks[..e + 1] == chunks[..e] + [chunks[e]];
    FlatSnoc(chunks[..e], chunks[e]);
  }

  /** What send_file_path accepts: names in bounds and a file below 4 GiB, which does not
      change while it is read. */
  predicate JobOk(j: Job) {
    && 0 < |j.name| <= NAME_MAX && |j.channel| < CHANNEL_MAX
    && (forall c <- j.chunks :: 0 < |c| <= BODY_MAX)
    && |Flat(j.chunks)| < MODULUS && |j.chunks| < MODULUS
  }

  function StartPacket(j: Job): Packet
    requires JobOk(j)
  {
    Packet(START, FLAG_V2, |Flat(j.chunks)|, StartMeta(j.id, j.name, j.channel))
  }

  function DataPacket(j: Job, q: nat): Packet
    requires JobOk(j) && q < |j.chunks|
  {
    Packet(DATA, FLAG_V2, q, j.chunks[q])
  }

  function EndPacket(j: Job): Packet {
    Control(END, Crc.Checksum(Flat(j.chunks)), j.id)
  }

  // ---- The retransmission cache ----

  datatype CacheSlot = CacheSlot(valid: bool, seqNo: u32, data: seq<byte>)

  function Store(cache: seq<CacheSlot>, seqNo: u32, data: seq<byte>): (r: seq<CacheSlot>)
    requires |cache| > 0
    ensures |r| == |cache|
  {
    cache[seqNo % |cache| := CacheSlot(true, seqNo, data)]
  }

  /** find_cache_slot from slot number i on; |cache| when there is none. */
  function Find(cache: seq<CacheSlot>, seqNo: u32, i: nat): (r: nat)
    requires i <= |cache|
    ensures i <= r <= |cache|
    ensures forall k | i <= k < r :: !(cache[k].valid && cache[k].seqNo == seqNo)
    ensures r < |cache| ==> cache[r].valid && cache[r].seqNo == seqNo
    decreases |cache| - i
  {
    if i == |cache| || (cache[i].valid && cache[i].seqNo == seqNo) then i else Find(cache, seqNo, i + 1)
  }

  function EmptyCache(): (r: seq<CacheSlot>)
    ensures |r| == WINDOW
  {
    seq(WINDOW, i => CacheSlot(false, 0, []))
  }

  /** The cache after the first n chunks were sent. */
  function CacheAfter(chunks: seq<seq<byte>>, n: nat): (r: seq<CacheSlot>)
    requires n <= |chunks| < MODULUS
    ensures |r| == WINDOW
  {
    if n == 0 then EmptyCache() else Store(CacheAfter(chunks, n - 1), n - 1, chunks[n - 1])
  }

  /** Slot k holds the newest chunk whose number is k modulo 256. */
  predicate SlotIs(s: CacheSlot, chunks: seq<seq<byte>>, n: nat, k: nat)
    requires n <= |chunks|
  {
    && (s.valid <==> k < n)
    && (s.valid ==> s.seqNo < n <= s.seqNo + WINDOW && s.seqNo % WINDOW == k && s.data == chunks[s.seqNo])
  }

  lemma {:induction false} CacheIs(chunks: seq<seq<byte>>, n: nat)
    requires n <= |chunks| < MODULUS
    ensures forall k | 0 <= k < WINDOW :: SlotIs(CacheAfter(chunks, n)[k], chunks, n, k)
  {
    if n > 0 {
      CacheIs(chunks, n - 1);
      forall k | 0 <= k < WINDOW ensures SlotIs(CacheAfter(chunks, n)[k], chunks, n, k) {
        var was := CacheAfter(chunks, n - 1)[k];
        assert SlotIs(was, chunks, n - 1, k);
        if was.valid { NextLap(was.seqNo); }
      }
    }
  }

  lemma NextLap(a: nat)
    ensures (a + WINDOW) % WINDOW == a % WINDOW
  {
  }

  /** The cache answers for exactly the last 256 chunks, with exactly their bytes. */
  lemma CacheWindow(chunks: seq<seq<byte>>, n: nat, q: u32)
    requires n <= |chunks| < MODULUS
    ensures
      var k := Find(CacheAfter(chunks, n), q, 0);
      && (k < WINDOW <==> q < n <= q + WINDOW)
      && (k < WINDOW ==> CacheAfter(chunks, n)[k].data == chunks[q])
  {
    CacheIs(chunks, n);
    var cache := CacheAfter(chunks, n);
    var k := Find(cache, q, 0);
    if k < WINDOW { assert SlotIs(cache[k], chunks, n, k); }
    if q < n <= q + WINDOW {
      var i := q % WINDOW;
      assert SlotIs(cache[i], chunks, n, i);
      assert i <= q;
      SameSlot(cache[i].seqNo, q, n);
    }
  }

  lemma SameSlot(a: nat, b: nat, n: nat)
    requires a < n <= a + WINDOW && b < n <= b + WINDOW && a % WINDOW == b % WINDOW
    ensures a == b
  {
  }

  // ---- The receiver ----

  /** How a receiver ends. The code returns BC_ERR_IO for the last four. */
  datatype Outcome = Running | Complete | NoStart | NoFile | WriteFailed | BadEnd | CrcMismatch | IdleTimeout

  datatype Receiver = Receiver(
    channel: seq<byte>, outcome: Outcome, gotStart: bool, gotEnd: bool, v2: bool, id: u32,
    expectedSize: u32, received: u32, expectedSeq: u32, crc: bv32, endCrc: u32, file: seq<byte>)

  function NewReceiver(channel: seq<byte>): Receiver {
    Receiver(channel, Running, false, false, false, 0, 0, 0, 0, Crc.START, 0, [])
  }

  function Nack(r: Receiver): seq<Packet> {
    if r.v2 then [Control(NACK, r.expectedSeq, r.id)] else []
  }

  /** The end of a transfer whose size is complete: compare the checksums and say so. */
  function Finish(r: Receiver): (Receiver, seq<Packet>) {
    if r.endCrc != Crc.Final(r.crc) then (r.(outcome := CrcMismatch), [])
    else (r.(outcome := Complete), if r.v2 then [Control(DONE, r.expectedSeq, r.id)] else [])
  }

  function OnStart(r: Receiver, p: Packet, io: bool): Receiver {
    if r.gotStart then r
    else
      var (ok, id) := ParseStartMeta(p.extra, r.channel, V2(p), r.id);
      if !ok then r.(id := id)
      else if !io then r.(id := id, expectedSize := p.value, outcome := NoFile)
      else r.(id := id, expectedSize := p.value, gotStart := true, v2 := V2(p))
  }

  /** The data a packet carries: a transfer id in front of it, if it is this one, is dropped. */
  function Stripped(id: u32, extra: seq<byte>): seq<byte> {
    if |extra| > 4 && Get32(extra[..4]) == id then extra[4..] else extra
  }

  function Appended(r: Receiver, data: seq<byte>): Receiver {
    r.(file := r.file + data, crc := Crc.Update(r.crc, data),
       received := Wrap(r.received + |data|), expectedSeq := Add(r.expectedSeq, 1))
  }

  function OnData(r: Receiver, p: Packet, io: bool): (Receiver, seq<Packet>) {
    var data := if r.v2 then Stripped(r.id, p.extra) else p.extra;
    if (r.v2 && (!V2(p) || p.extra == [])) || data == [] then (r, [])
    else if p.value < r.expectedSeq then (r, [])
    else if p.value > r.expectedSeq then (r, Nack(r))
    else if !io then (r.(outcome := WriteFailed), [])
    else
      var r1 := Appended(r, data);
      if r1.gotEnd && r1.received == r1.expectedSize then Finish(r1) else (r1, [])
  }

  function OnEnd(r: Receiver, p: Packet): (Receiver, seq<Packet>) {
    if r.gotEnd then (r, [])
    else
      var r1 := r.(gotEnd := true, endCrc := p.value);
      if r.v2 && (!V2(p) || |p.extra| != 4 || Get32(p.extra) != r.id) then (r1.(outcome := BadEnd), [])
      else if r.received != r.expectedSize then (r1, Nack(r1))
      else Finish(r1)
  }

  /** One turn of the loop of recv_file_path; `io` says whether opening or writing the file
      succeeds. Returns the replies it publishes. */
  function Receive(r: Receiver, p: Packet, io: bool): (Receiver, seq<Packet>) {
    if r.outcome != Running then (r, [])
    else if p.kind == START then (OnStart(r, p, io), [])
    else if !r.gotStart then (r, [])
    else if p.kind == DATA then OnData(r, p, io)
    else if p.kind == END then OnEnd(r, p)
    else (r, [])
  }

  /** A read that times out. */
  function Idle(r: Receiver): (Receiver, seq<Packet>) {
    if r.outcome != Running then (r, [])
    else if !r.gotStart then (r.(outcome := NoStart), [])
    else (r.(outcome := IdleTimeout), Nack(r))
  }

  // ---- The sender ----

  datatype Phase = Starting | Sending | Waiting(doneSeen: bool, resent: bool) | Succeeded | Failed

  datatype Sender = Sender(phase: Phase, seqNo: u32, crc: bv32, cache: seq<CacheSlot>)

  function NewSender(): Sender {
    Sender(Starting, 0, Crc.START, EmptyCache())
  }

  /** The next packet of the transfer; `ok` says whether it could be written. */
  function SendNext(j: Job, s: Sender, ok: bool): (Sender, seq<Packet>)
    requires JobOk(j) && s.seqNo <= |j.chunks| && |s.cache| == WINDOW
  {
    if !s.phase.Starting? && !s.phase.Sending? then (s, [])
    else if !ok then (s.(phase := Failed), [])
    else if s.phase.Starting? then (s.(phase := Sending), [StartPacket(j)])
    else if s.seqNo < |j.chunks| then
      var c := j.chunks[s.seqNo];
      (s.(crc := Crc.Update(s.crc, c), cache := Store(s.cache, s.seqNo, c), seqNo := s.seqNo + 1),
       [Packet(DATA, FLAG_V2, s.seqNo, c)])
    else (s.(phase := Waiting(false, false)), [Control(END, Crc.Final(s.crc), j.id)])
  }

  /** What sender_handle_controls does with one packet. */
  function OnControl(id: u32, s: Sender, p: Packet, ok: bool): (Sender, seq<Packet>) {
    if !s.phase.Waiting? then (s, [])
    else if IsControl(p, DONE, id) then (s.(phase := s.phase.(doneSeen := true)), [])
    else if p.kind == START || p.kind == DATA || p.kind == END then (s, [])
    else if !IsControl(p, NACK, id) || p.value >= s.seqNo then (s, [])
    else
      var k := Find(s.cache, p.value, 0);
      if k == |s.cache| || !ok then (s.(phase := Failed), [])
      else (s.(phase := s.phase.(resent := true)), [Packet(DATA, FLAG_V2, s.cache[k].seqNo, s.cache[k].data)])
  }

  /** The end of one round of waiting. */
  function EndRound(id: u32, s: Sender, ok: bool): (Sender, seq<Packet>) {
    if !s.phase.Waiting? then (s, [])
    else if s.phase.doneSeen then (s.(phase := Succeeded), [])
    else if !s.phase.resent then (s, [])
    else if !ok then (s.(phase := Failed), [])
    else (s.(phase := Waiting(false, false)), [Control(END, Crc.Final(s.crc), id)])
  }
}
