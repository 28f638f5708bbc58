/** The sender and the receiver of bc_file.c as they run: a cache array, counters and running
    checksums changed in loops. Every method is proved against FileProtocol. */
module FileCore {
  import opened Word32
  import opened Bytes
  import opened FileProtocol
  import Crc

  /** Every packet of a transfer without retransmissions, in order. */
  function AllPackets(j: Job): seq<Packet>
    requires JobOk(j)
  {
    [StartPacket(j)] + seq(|j.chunks|, q requires 0 <= q < |j.chunks| => DataPacket(j, q)) + [EndPacket(j)]
  }

  /** One round of sender_handle_controls: every packet that can be read, in turn; `budget` is how
      many retransmissions can be written before a write fails. */
  function Controls(id: u32, s: Sender, packets: seq<Packet>, budget: nat): (r: (Sender, seq<Packet>))
    ensures |r.1| <= budget
    decreases |packets|
  {
    if packets == [] then (s, [])
    else
      var (s1, out1) := Controls(id, s, packets[..|packets| - 1], budget);
      var (s2, out2) := OnControl(id, s1, packets[|packets| - 1], |out1| < budget);
      (s2, out1 + out2)
  }

  class FileSender {
    const cache: array<CacheSlot>
    var seqNo: u32
    var crc: bv32

    ghost predicate Valid()
      reads this
    {
      cache.Length == WINDOW
    }

    constructor ()
      ensures Valid() && cache[..] == EmptyCache() && seqNo == 0 && crc == Crc.START && fresh(cache)
    {
      cache := new CacheSlot[WINDOW](_ => CacheSlot(false, 0, []));
      seqNo := 0;
      crc := Crc.START;
      new;
      assert cache[..] == EmptyCache();
    }

    /** store_cache_slot. */
    method StoreSlot(n: u32, data: seq<byte>)
      requires Valid()
      modifies cache
      ensures cache[..] == Store(old(cache[..]), n, data)
    {
      cache[n % WINDOW] := CacheSlot(true, n, data);
      assert cache[..] == Store(old(cache[..]), n, data);
    }

    /** find_cache_slot. */
    method FindSlot(n: u32) returns (k: nat)
      requires Valid()
      ensures k == Find(cache[..], n, 0)
    {
      k := 0;
      while k < cache.Length
        invariant k <= cache.Length && Find(cache[..], n, 0) == Find(cache[..], n, k)
      {
        if cache[k].valid && cache[k].seqNo == n { return; }
        k := k + 1;
      }
    }

    /** The loop of send_file_path that reads, sends and remembers the chunks; `budget` is how
        many packets can be written before a write fails. */
    method SendChunks(j: Job, budget: nat) returns (ok: bool, out: seq<Packet>)
      requires Valid() && JobOk(j) && cache[..] == EmptyCache() && seqNo == 0 && crc == Crc.START
      modifies this, cache
      ensures ok <==> |j.chunks| <= budget
      ensures seqNo == |out| <= |j.chunks| && (ok ==> |out| == |j.chunks|) && (!ok ==> |out| == budget)
      ensures forall q | 0 <= q < |out| :: out[q] == DataPacket(j, q)
      ensures ok ==> cache[..] == CacheAfter(j.chunks, |j.chunks|) && crc == Crc.Update(Crc.START, Flat(j.chunks))
    {
      hide Flat, Crc.Update, StartMeta, Store;
      out := [];
      Nothing(j);
      while |out| < |j.chunks|
        invariant seqNo == |out| <= |j.chunks| && |out| <= budget
        invariant forall q | 0 <= q < |out| :: out[q] == DataPacket(j, q)
        invariant cache[..] == CacheAfter(j.chunks, |out|) && crc == Crc.Update(Crc.START, Flat(j.chunks[..|out|]))
        decreases |j.chunks| - |out|
      {
        var chunk := j.chunks[|out|];
        TakeSnoc(j.chunks, |out|);
        Crc.UpdateConcat(Crc.START, Flat(j.chunks[..|out|]), chunk);
        crc := Crc.UpdateLoop(crc, chunk);
        if |out| == budget { return false, out; }
        StoreSlot(seqNo, chunk);
        out := out + [Packet(DATA, FLAG_V2, seqNo, chunk)];
        seqNo := seqNo + 1;
      }
      assert j.chunks[..|out|] == j.chunks;
      ok := true;
    }

    /** send_file_path up to the waiting: the first `budget` packets of the transfer, or all. */
    method SendFile(j: Job, budget: nat) returns (ok: bool, out: seq<Packet>)
      requires Valid() && JobOk(j) && cache[..] == EmptyCache() && seqNo == 0 && crc == Crc.START
      modifies this, cache
      ensures ok <==> |j.chunks| + 2 <= budget
      ensures out == AllPackets(j)[..if ok then |j.chunks| + 2 else budget]
      ensures ok ==>
        seqNo == |j.chunks| && cache[..] == CacheAfter(j.chunks, seqNo) && crc == Crc.Update(Crc.START, Flat(j.chunks))
    {
      hide Flat, Crc.Update, Crc.Final, StartMeta, CacheAfter;
      if budget == 0 { return false, []; }
      ok, out := SendChunks(j, budget - 1);
      Ends(j);
      if !ok || budget == |j.chunks| + 1 {
        out := [StartPacket(j)] + out;
        ok := false;
        assert out == AllPackets(j)[..budget];
        return;
      }
      out := [StartPacket(j)] + out + [Control(END, Crc.Final(crc), j.id)];
      assert out == AllPackets(j);
    }

    /** The state in which the sender waits. */
    ghost function State(doneSeen: bool, resent: bool): Sender
      reads this, cache
    {
      Sender(Waiting(doneSeen, resent), seqNo, crc, cache[..])
    }

    /** One round of sender_handle_controls over the packets that can be read. */
    method HandleControls(id: u32, packets: seq<Packet>, budget: nat)
        returns (ok: bool, doneSeen: bool, resent: bool, out: seq<Packet>)
      requires Valid()
      ensures ok <==> !Controls(id, State(false, false), packets, budget).0.phase.Failed?
      ensures out == Controls(id, State(false, false), packets, budget).1
      ensures ok ==> Controls(id, State(false, false), packets, budget).0 == State(doneSeen, resent)
    {
      hide Find;
      doneSeen, resent, out := false, false, [];
      var i := 0;
      while i < |packets|
        invariant 0 <= i <= |packets|
        invariant Controls(id, State(false, false), packets[..i], budget) == (State(doneSeen, resent), out)
      {
        var p := packets[i];
        assert out + [] == out;
        assert packets[..i + 1][..i] == packets[..i];
        i := i + 1;
        if IsControl(p, DONE, id) {
          doneSeen := true;
        } else if p.kind != START && p.kind != DATA && p.kind != END && IsControl(p, NACK, id) && p.value < seqNo {
          var k := FindSlot(p.value);
          if k == cache.Length || |out| == budget {
            assert Controls(id, State(false, false), packets[..i], budget).0.phase.Failed?;
            StaysFailed(id, State(false, false), packets, budget, i);
            return false, doneSeen, resent, out;
          }
          out := out + [Packet(DATA, FLAG_V2, cache[k].seqNo, cache[k].data)];
          resent := true;
        }
      }
      assert packets[..i] == packets;
      ok := true;
    }
  }

  lemma Nothing(j: Job)
    ensures Crc.Update(Crc.START, Flat(j.chunks[..0])) == Crc.START
  {
    assert j.chunks[..0] == [];
  }

  lemma Ends(j: Job)
    requires JobOk(j)
    ensures EndPacket(j) == Control(END, Crc.Final(Crc.Update(Crc.START, Flat(j.chunks))), j.id)
  {
  }

  /** After a failure nothing more is read. */
  lemma {:induction false} StaysFailed(id: u32, s: Sender, packets: seq<Packet>, budget: nat, i: nat)
    requires i <= |packets| && Controls(id, s, packets[..i], budget).0.phase.Failed?
    ensures Controls(id, s, packets, budget).0.phase.Failed?
      && Controls(id, s, packets, budget).1 == Controls(id, s, packets[..i], budget).1
    decreases |packets| - i
  {
    hide Find, IsControl;
    if i < |packets| {
      assert packets[..i + 1][..i] == packets[..i];
      var out := Controls(id, s, packets[..i], budget).1;
      assert out + [] == out;
      StaysFailed(id, s, packets, budget, i + 1);
    } else {
      assert packets[..i] == packets;
    }
  }

  class FileReceiver {
    const channel: seq<byte>
    var outcome: Outcome
    var gotStart: bool
    var gotEnd: bool
    var v2: bool
    var id: u32
    var expectedSize: u32
    var received: u32
    var expectedSeq: u32
    var crc: bv32
    var endCrc: u32
    var file: seq<byte>

    ghost function State(): Receiver
      reads this
    {
      Receiver(channel, outcome, gotStart, gotEnd, v2, id, expectedSize, received, expectedSeq, crc, endCrc, file)
    }

    constructor (channel: seq<byte>)
      ensures State() == NewReceiver(channel)
    {
      this.channel := channel;
      outcome := Running;
      gotStart, gotEnd, v2 := false, false, false;
      id, expectedSize, received, expectedSeq, endCrc := 0, 0, 0, 0, 0;
      crc := Crc.START;
      file := [];
    }

    method SendNack() returns (replies: seq<Packet>)
      ensures replies == Nack(State())
    {
      replies := if v2 then [Control(NACK, expectedSeq, id)] else [];
    }

    /** Compares the checksums once the size is complete. */
    method Conclude() returns (replies: seq<Packet>)
      modifies `outcome
      ensures (State(), replies) == Finish(old(State()))
    {
      replies := [];
      if endCrc != Crc.Final(crc) {
        outcome := CrcMismatch;
        return;
      }
      outcome := Complete;
      if v2 { replies := [Control(DONE, expectedSeq, id)]; }
    }

    method HandleStart(p: Packet, io: bool)
      modifies `id, `expectedSize, `outcome, `gotStart, `v2
      ensures State() == OnStart(old(State()), p, io)
    {
      hide ParseStartMeta;
      if gotStart { return; }
      var (ok, newId) := ParseStartMeta(p.extra, channel, V2(p), id);
      id := newId;
      if !ok { return; }
      expectedSize := p.value;
      if !io {
        outcome := NoFile;
        return;
      }
      gotStart := true;
      v2 := V2(p);
    }

    method Append(data: seq<byte>)
      modifies `file, `crc, `received, `expectedSeq
      ensures State() == Appended(old(State()), data)
    {
      hide Crc.Update, Wrap, Add;
      file := file + data;
      crc := Crc.UpdateLoop(crc, data);
      received := Wrap(received + |data|);
      expectedSeq := Add(expectedSeq, 1);
    }

    method HandleData(p: Packet, io: bool) returns (replies: seq<Packet>)
      modifies `file, `crc, `received, `expectedSeq, `outcome
      ensures (State(), replies) == OnData(old(State()), p, io)
    {
      hide Crc.Update, Appended, Finish;
      replies := [];
      var data := p.extra;
      if v2 {
        if !V2(p) || p.extra == [] { return; }
        if |p.extra| > 4 && Get32(p.extra[..4]) == id { data := p.extra[4..]; }
      }
      if data == [] { return; }
      if p.value < expectedSeq { return; }
      if p.value > expectedSeq {
        replies := SendNack();
        return;
      }
      if !io {
        outcome := WriteFailed;
        return;
      }
      Append(data);
      if gotEnd && received == expectedSize {
        replies := Conclude();
      }
    }

    method HandleEnd(p: Packet) returns (replies: seq<Packet>)
      modifies `gotEnd, `endCrc, `outcome
      ensures (State(), replies) == OnEnd(old(State()), p)
    {
      hide Finish, Get32;
      replies := [];
      if gotEnd { return; }
      gotEnd := true;
      endCrc := p.value;
      if v2 && (!V2(p) || |p.extra| != 4 || Get32(p.extra) != id) {
        outcome := BadEnd;
        return;
      }
      if received != expectedSize {
        replies := SendNack();
        return;
      }
      replies := Conclude();
    }

    /** One turn of the loop of recv_file_path. */
    method Handle(p: Packet, io: bool) returns (replies: seq<Packet>)
      modifies this
      ensures (State(), replies) == Receive(old(State()), p, io)
    {
      hide OnStart, OnData, OnEnd;
      replies := [];
      if outcome != Running { return; }
      if p.kind == START {
        HandleStart(p, io);
      } else if !gotStart {
        return;
      } else if p.kind == DATA {
        replies := HandleData(p, io);
      } else if p.kind == END {
        replies := HandleEnd(p);
      }
    }
  }
}
