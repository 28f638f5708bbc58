/** What the file receiver accepts and how it ends, whatever packets arrive: also ones no sender sent. */
module FileChecks {
  import opened Word32
  import opened Bytes
  import opened FileProtocol
  import opened FileRuns
  import opened FileRecovery
  import Crc

  // ---- What is accepted ----

  /** Bytes are a packet exactly when they are the encoding of it. */
  lemma PacketExactly(b: seq<byte>, p: Packet)
    ensures ParsePacket(b) == Ours(p) <==> b == EncodePacket(p)
  {
    PacketRoundTrip(p);
    if ParsePacket(b) == Ours(p) {
      Unique16(b[0..2]);
      Unique32(b[4..8]);
      assert b == b[0..2] + [b[2], b[3]] + b[4..8] + b[8..];
    }
    hide Put16, Put32, Get16, Get32;
  }

  /** A control packet of a transfer carries its id and nothing else, and the flag of version 2. */
  lemma ControlExactly(p: Packet, kind: byte, id: u32)
    ensures IsControl(p, kind, id) <==> p.kind == kind && p.flags % 2 == 1 && p.extra == Put32(id)
  {
    RoundTrip32(id);
    if |p.extra| == 4 { Unique32(p.extra); }
    hide Put32, Get32;
  }

  lemma NamesExactly(b: seq<byte>, channel: seq<byte>)
    ensures
      NamesMatch(b, channel) <==>
      |channel| < 32 && exists name: seq<byte> ::
        0 < |name| <= 255 && b == Put16(|name|) + name + Put16(|channel|) + channel
  {
    hide Put16, Get16, NamesMatch;
    if NamesMatch(b, channel) { var name := NameOf(b, channel); }
    if |channel| < 32 {
      forall name: seq<byte> | 0 < |name| <= 255 && b == Put16(|name|) + name + Put16(|channel|) + channel
        ensures NamesMatch(b, channel)
      {
        NamesBack(b, name, channel);
      }
    }
  }

  /** The name that stands in front. */
  lemma NameOf(b: seq<byte>, channel: seq<byte>) returns (name: seq<byte>)
    requires NamesMatch(b, channel)
    ensures |channel| < 32 && 0 < |name| <= 255 && b == Put16(|name|) + name + Put16(|channel|) + channel
  {
    hide Put16, Get16;
    var n := Get16(b[0..2]);
    name := b[2..2 + n];
    Unique16(b[0..2]);
    Unique16(b[2 + n..4 + n]);
    assert b == b[0..2] + b[2..2 + n] + b[2 + n..4 + n] + b[4 + n..];
  }

  lemma NamesBack(b: seq<byte>, name: seq<byte>, channel: seq<byte>)
    requires 0 < |name| <= 255 && |channel| < 32 && b == Put16(|name|) + name + Put16(|channel|) + channel
    ensures NamesMatch(b, channel)
  {
    hide Put16, Get16;
    var n := |name|;
    assert b[0..2] == Put16(n) && b[2 + n..4 + n] == Put16(|channel|) && b[4 + n..] == channel;
    RoundTrip16(n);
    RoundTrip16(|channel|);
  }

  /** A version 1 start has no id, and leaves the one there is. */
  lemma StartExactlyV1(extra: seq<byte>, channel: seq<byte>, prior: u32)
    ensures
      ParseStartMeta(extra, channel, false, prior).0 <==>
      |channel| < 32 && exists name: seq<byte> ::
        0 < |name| <= 255 && extra == Put16(|name|) + name + Put16(|channel|) + channel
    ensures ParseStartMeta(extra, channel, false, prior).1 == prior
  {
    NamesExactly(extra, channel);
    hide Put16, NamesMatch;
  }

  /** A version 2 start is accepted exactly when it describes some named file on the expected channel, and then
      its id is taken. */
  lemma StartExactly(extra: seq<byte>, channel: seq<byte>, prior: u32)
    ensures
      ParseStartMeta(extra, channel, true, prior).0 <==>
      |channel| < 32 && exists id: u32, name: seq<byte> :: 0 < |name| <= 255 && extra == StartMeta(id, name, channel)
    ensures forall id: u32, name: seq<byte> |
      0 < |name| <= 255 && |channel| < 32 && extra == StartMeta(id, name, channel) ::
      ParseStartMeta(extra, channel, true, prior) == (true, id)
  {
    hide StartMeta, ParseStartMeta;
    if ParseStartMeta(extra, channel, true, prior).0 {
      var id, name := StartOf(extra, channel, prior);
    }
    if |channel| < 32 {
      forall id: u32, name: seq<byte> | 0 < |name| <= 255 && extra == StartMeta(id, name, channel)
        ensures ParseStartMeta(extra, channel, true, prior) == (true, id)
      {
        StartMetaRoundTrip(id, name, channel, channel, prior);
      }
    }
  }

  /** The id and the name in a description that is accepted. */
  lemma StartOf(extra: seq<byte>, channel: seq<byte>, prior: u32) returns (id: u32, name: seq<byte>)
    requires ParseStartMeta(extra, channel, true, prior).0
    ensures 0 < |name| <= 255 && |channel| < 32 && extra == StartMeta(id, name, channel)
  {
    hide Put16, Get16, Put32, Get32, NamesMatch;
    name := NameOf(extra[5..], channel);
    id := Get32(extra[1..5]);
    Unique32(extra[1..5]);
    assert extra == [extra[0]] + extra[1..5] + extra[5..];
  }

  // ---- Any packets at all ----

  function Turns(channel: seq<byte>, ts: seq<Turn>): Receiver
    decreases |ts|
  {
    if ts == [] then NewReceiver(channel) else Took(Turns(channel, ts[..|ts| - 1]), ts[|ts| - 1]).0
  }

  /** The checksum and the size are those of what was written; a receiver that has seen the end and still runs
      misses something; and one that has completed has compared both. */
  predicate Sane(r: Receiver) {
    && r.crc == Crc.Update(Crc.START, r.file) && r.received == Wrap(|r.file|)
    && (!r.gotStart ==> r.file == [] && !r.gotEnd && r.outcome != Complete)
    && (r.outcome == Running && r.gotEnd ==> r.received != r.expectedSize)
    && (r.outcome == Complete ==> r.gotEnd && r.received == r.expectedSize && r.endCrc == Crc.Final(r.crc))
  }

  lemma AppendedSane(r: Receiver, data: seq<byte>)
    requires r.crc == Crc.Update(Crc.START, r.file) && r.received == Wrap(|r.file|)
    ensures
      var r' := Appended(r, data);
      r'.crc == Crc.Update(Crc.START, r'.file) && r'.received == Wrap(|r'.file|)
  {
    Crc.UpdateConcat(Crc.START, r.file, data);
    WrapSum(|r.file|, |data|);
    hide Crc.Update, Wrap;
  }

  lemma WrapSum(a: nat, b: nat)
    ensures Wrap(Wrap(a) + b) == Wrap(a + b)
  {
    assert a == MODULUS * (a / MODULUS) + Wrap(a);
    assert Wrap(a) + b == MODULUS * ((Wrap(a) + b) / MODULUS) + Wrap(Wrap(a) + b);
    SameWord(a + b, a / MODULUS + (Wrap(a) + b) / MODULUS, Wrap(Wrap(a) + b));
  }

  lemma SameWord(x: int, q: int, w: u32)
    requires x == MODULUS * q + w
    ensures Wrap(x) == w
  {
  }

  lemma TurnSane(r: Receiver, t: Turn)
    requires Sane(r)
    ensures Sane(Took(r, t).0)
  {
    hide Crc.Update, Crc.Final, ParseStartMeta, Stripped, Appended;
    if t.Reads? && r.outcome == Running && r.gotStart && t.p.kind == DATA {
      var data := if r.v2 then Stripped(r.id, t.p.extra) else t.p.extra;
      AppendedSane(r, data);
      AppendedFrame(r, data);
    }
  }

  lemma AppendedFrame(r: Receiver, data: seq<byte>)
    ensures
      var r' := Appended(r, data);
      r' == r.(file := r.file + data, crc := r'.crc, received := r'.received, expectedSeq := Add(r.expectedSeq, 1))
  {
  }

  /** Whatever arrives, in whatever order: a receiver completes only with a file whose checksum is the one the
      end announced and whose size, modulo 2^32, is the one the start announced; and it does not go on
      waiting once it has seen the end and has as many bytes as were announced. */
  lemma {:induction false} CompleteIsChecked(channel: seq<byte>, ts: seq<Turn>)
    ensures
      var r := Turns(channel, ts);
      && Sane(r)
      && (r.outcome == Complete ==> Crc.Checksum(r.file) == r.endCrc && |r.file| % 0x1_0000_0000 == r.expectedSize)
      && (r.outcome == Running && r.gotEnd ==> |r.file| % 0x1_0000_0000 != r.expectedSize)
    decreases |ts|
  {
    hide Took, Crc.Update;
    if ts == [] {
      assert Crc.Update(Crc.START, []) == Crc.START by { NothingRead(); }
    } else {
      CompleteIsChecked(channel, ts[..|ts| - 1]);
      TurnSane(Turns(channel, ts[..|ts| - 1]), ts[|ts| - 1]);
    }
  }

  lemma NothingRead()
    ensures Crc.Update(Crc.START, []) == Crc.START
  {
  }

  // ---- How a turn ends ----

  /** The bytes a data packet adds to the file: none if the packet is of the wrong version; and an id in front
      of more bytes is not counted. */
  function Payload(r: Receiver, p: Packet): seq<byte> {
    if !r.v2 then p.extra
    else if p.flags % 2 == 0 then []
    else if |p.extra| > 4 && p.extra[..4] == Put32(r.id) then p.extra[4..]
    else p.extra
  }

  lemma PayloadIs(r: Receiver, p: Packet)
    ensures r.v2 && p.flags % 2 == 1 ==> Stripped(r.id, p.extra) == Payload(r, p)
  {
    RoundTrip32(r.id);
    if |p.extra| > 4 { Unique32(p.extra[..4]); }
    hide Put32, Get32;
  }

  /** A data packet: the next chunk is written if there is anything to write, an earlier one ignored, a later one
      answered with a request; a write that fails ends the transfer, and so does the last byte. */
  lemma DataExactly(r: Receiver, p: Packet, io: bool)
    requires r.outcome == Running && r.gotStart && p.kind == 2
    ensures
      var (r', out) := Receive(r, p, io);
      var data := Payload(r, p);
      if data == [] || p.value < r.expectedSeq then r' == r && out == []
      else if p.value > r.expectedSeq then
        r' == r && out == if r.v2 then [Packet(4, 1, r.expectedSeq, Put32(r.id))] else []
      else if !io then r' == r.(outcome := WriteFailed) && out == []
      else
        && r'.file == r.file + data && r'.expectedSeq == Wrap(r.expectedSeq + 1)
        && r'.received == Wrap(r.received + |data|) && r'.crc == Crc.Update(r.crc, data)
        && Ends(r', out, r.gotEnd && r'.received == r.expectedSize)
  {
    PayloadIs(r, p);
    hide Crc.Update, Put32;
  }

  /** The transfer ends here if and only if everything is there: well when the checksums agree. */
  predicate Ends(r: Receiver, out: seq<Packet>, all: bool) {
    if !all then r.outcome == Running && out == []
    else if r.endCrc != Crc.Final(r.crc) then r.outcome == CrcMismatch && out == []
    else r.outcome == Complete && out == if r.v2 then [Packet(5, 1, r.expectedSeq, Put32(r.id))] else []
  }

  /** The end: only the first counts; it must be one of this transfer; then it ends the transfer or asks for what
      is missing. */
  lemma EndExactly(r: Receiver, p: Packet, io: bool)
    requires r.outcome == Running && r.gotStart && p.kind == 3
    ensures
      var (r', out) := Receive(r, p, io);
      if r.gotEnd then r' == r && out == []
      else
        && r' == r.(gotEnd := true, endCrc := p.value, outcome := r'.outcome)
        && if r.v2 && !(p.flags % 2 == 1 && p.extra == Put32(r.id)) then r'.outcome == BadEnd && out == []
           else if r.received != r.expectedSize then
             r'.outcome == Running && out == if r.v2 then [Packet(4, 1, r.expectedSeq, Put32(r.id))] else []
           else Ends(r', out, true)
  {
    ControlExactly(p, 3, r.id);
    hide Put32, Get32;
  }

  /** The start: a good one opens the file; everything else before it is ignored, and time runs out without it. */
  lemma StartTurn(r: Receiver, p: Packet, io: bool)
    requires r.outcome == Running
    ensures p.kind == 1 && r.gotStart ==> Receive(r, p, io) == (r, [])
    ensures p.kind != 1 && !r.gotStart ==> Receive(r, p, io) == (r, [])
    ensures p.kind == 1 && !r.gotStart ==>
      var (ok, id) := ParseStartMeta(p.extra, r.channel, p.flags % 2 == 1, r.id);
      Receive(r, p, io) ==
        (if !ok then r.(id := id)
         else if !io then r.(id := id, expectedSize := p.value, outcome := NoFile)
         else r.(id := id, expectedSize := p.value, gotStart := true, v2 := p.flags % 2 == 1), [])
    ensures p.kind == 4 || p.kind == 5 ==> Receive(r, p, io) == (r, [])
    ensures Idle(r).0 == r.(outcome := if r.gotStart then IdleTimeout else NoStart)
  {
    hide ParseStartMeta, OnData, OnEnd;
  }

  // ---- Success stays possible ----

  /** What was published stays in the network: every chunk the sender has sent, the end once it waits, and the
      confirmation once the receiver has completed. And a receiver that has seen the end misses something. */
  ghost predicate Kept(s: System)
    requires JobOk(s.job) && s.sender.seqNo <= |s.job.chunks|
  {
    && (forall i: nat | i < s.sender.seqNo :: DataPacket(s.job, i) in s.net)
    && (s.sender.phase.Waiting? ==> EndPacket(s.job) in s.net)
    && (s.receiver.outcome == Complete ==> Control(DONE, |s.job.chunks|, s.job.id) in s.net)
    && (s.receiver.outcome == Running && s.receiver.gotEnd ==> s.receiver.received != s.receiver.expectedSize)
  }

  lemma SendKept(s: System, ok: bool)
    requires Inv(s) && s.sender.seqNo <= |s.job.chunks| && |s.sender.cache| == WINDOW && Kept(s)
    ensures Kept(Apply(s, Step.Send(ok)))
  {
    InvHas(s);
    hide Inv, ReceiverOk, SenderOk, NetOk, SendNext, DataPacket, EndPacket;
    NextPacket(s.job, s.sender, ok);
  }

  /** The next chunk, or the end. */
  lemma NextPacket(j: Job, s: Sender, ok: bool)
    requires JobOk(j) && SenderOk(j, s) && s.seqNo <= |j.chunks| && |s.cache| == WINDOW
    ensures
      var (s', out) := SendNext(j, s, ok);
      && s'.seqNo <= |j.chunks| && s.seqNo <= s'.seqNo <= s.seqNo + 1
      && (s.seqNo < s'.seqNo ==> out == [DataPacket(j, s.seqNo)])
      && (s'.phase.Waiting? && !s.phase.Waiting? ==> out == [EndPacket(j)])
  {
    assert j.chunks[..|j.chunks|] == j.chunks;
    ChecksumIs(j);
    hide Flat, StartMeta, Crc.Update, Crc.Final, Crc.Checksum, Store, CacheAfter;
  }

  lemma ControlsKept(s: System, step: Step)
    requires Inv(s) && s.sender.seqNo <= |s.job.chunks| && |s.sender.cache| == WINDOW && Kept(s)
    requires step.SenderReads? || step.RoundEnds? || step.SenderGivesUp?
    ensures Kept(Apply(s, step))
  {
    InvHas(s);
    hide Inv, SenderOk, ReceiverOk, NetOk, Flat, StartMeta, Crc.Update, Crc.Final, Crc.Checksum, Find, IsControl;
  }

  lemma FinishKept(j: Job, r: Receiver)
    requires JobOk(j) && r.gotStart && r.gotEnd && r.outcome == Running && ReceiverOk(j, r)
    requires r.received == r.expectedSize
    ensures Finish(r).1 == [Control(DONE, |j.chunks|, j.id)]
  {
    FinishOk(j, r);
    FullSize(j, r.expectedSeq);
    hide Flat, Crc.Update, Crc.Final, Crc.Checksum;
  }

  lemma ReceiverKept(s: System, step: Step)
    requires Inv(s) && s.sender.seqNo <= |s.job.chunks| && |s.sender.cache| == WINDOW && Kept(s)
    requires step.ReceiverReads? || step.ReceiverIdles?
    ensures Kept(Apply(s, step))
  {
    InvHas(s);
    hide Inv, SenderOk, ReceiverOk, Flat, StartMeta, Receive, Published, DataPacket, EndPacket;
    if step.ReceiverReads? && step.p in s.net && s.receiver.outcome == Running && s.receiver.gotStart {
      ReadKept(s.job, s.receiver, s.sender.seqNo, step.p, step.io);
    } else if step.ReceiverReads? && step.p in s.net {
      EndAfterStart(s.job, s.receiver);
      EarlyKept(s.receiver, step.p, step.io);
    }
  }

  lemma EndAfterStart(j: Job, r: Receiver)
    requires JobOk(j) && ReceiverOk(j, r)
    ensures r.gotEnd ==> r.gotStart
  {
    hide Flat;
  }

  lemma EarlyKept(r: Receiver, p: Packet, io: bool)
    requires !(r.outcome == Running && r.gotStart) && (r.gotEnd ==> r.gotStart)
    ensures Receive(r, p, io).0.outcome == Complete ==> r.outcome == Complete
    ensures Receive(r, p, io).0.outcome == Running && Receive(r, p, io).0.gotEnd ==> Receive(r, p, io).0 == r
  {
    hide ParseStartMeta;
  }

  lemma ReadKept(j: Job, r: Receiver, sent: nat, p: Packet, io: bool)
    requires JobOk(j) && ReceiverOk(j, r) && sent <= |j.chunks| && r.outcome == Running && r.gotStart
    requires Published(j, sent, p) || p.kind == NACK || p.kind == DONE
    requires r.gotEnd ==> r.received != r.expectedSize
    ensures
      var (r', out) := Receive(r, p, io);
      && (r'.outcome == Complete ==> Control(DONE, |j.chunks|, j.id) in out)
      && (r'.outcome == Running && r'.gotEnd ==> r'.received != r'.expectedSize)
  {
    hide Flat, OnStart, OnData, OnEnd, StartMeta, ReceiverOk;
    if p.kind == DATA {
      var i: nat :| i < sent && p == DataPacket(j, i);
      DataKept(j, r, i, io);
    } else if p.kind == END {
      EndKept(j, r);
    } else {
      assert p.kind == START ==> OnStart(r, p, io) == r by { StartTurn(r, p, io); }
    }
  }

  lemma DataKept(j: Job, r: Receiver, i: nat, io: bool)
    requires JobOk(j) && ReceiverOk(j, r) && r.outcome == Running && r.gotStart && i < |j.chunks|
    requires r.gotEnd ==> r.received != r.expectedSize
    ensures
      var (r', out) := OnData(r, DataPacket(j, i), io);
      && (r'.outcome == Complete ==> Control(DONE, |j.chunks|, j.id) in out)
      && (r'.outcome == Running && r'.gotEnd ==> r'.received != r'.expectedSize)
  {
    assert j.chunks[i] in j.chunks;
    StrippedSize(j.id, j.chunks[i]);
    if i == r.expectedSeq && io {
      AppendOk(j, r);
      var r1 := Appended(r, Stripped(j.id, j.chunks[i]));
      AppendedFrame(r, Stripped(j.id, j.chunks[i]));
      hide ReceiverOk, Finish, Stripped, Flat, Appended;
      if r1.gotEnd && r1.received == r1.expectedSize {
        FinishKept(j, r1);
        FinishOk(j, r1);
      }
    } else {
      hide Flat, Stripped, Appended, ReceiverOk;
    }
  }

  lemma EndKept(j: Job, r: Receiver)
    requires JobOk(j) && ReceiverOk(j, r) && r.outcome == Running && r.gotStart
    requires r.gotEnd ==> r.received != r.expectedSize
    ensures
      var (r', out) := OnEnd(r, EndPacket(j));
      && (r'.outcome == Complete ==> Control(DONE, |j.chunks|, j.id) in out)
      && (r'.outcome == Running && r'.gotEnd ==> r'.received != r'.expectedSize)
  {
    RoundTrip32(j.id);
    hide Flat, FileRuns.Kept, Crc.Update, Crc.Checksum, Finish, Get32, Put32;
    var r1 := r.(gotEnd := true, endCrc := EndPacket(j).value);
    if !r.gotEnd && r.received == r.expectedSize {
      FinishKept(j, r1);
      FinishOk(j, r1);
    }
  }

  lemma {:induction false} KeptInRuns(j: Job, channel: seq<byte>, steps: seq<Step>)
    requires JobOk(j)
    ensures Kept(Run(j, channel, steps))
    decreases |steps|
  {
    hide Apply, Inv, Kept;
    if steps == [] {
      FirstKept(j, channel);
    } else {
      var init, step := steps[..|steps| - 1], steps[|steps| - 1];
      KeptInRuns(j, channel, init);
      RunOk(j, channel, init);
      var s := Run(j, channel, init);
      match step
      case Send(ok) => SendKept(s, ok);
      case SenderReads(_, _) => ControlsKept(s, step);
      case RoundEnds(_) => ControlsKept(s, step);
      case SenderGivesUp => ControlsKept(s, step);
      case ReceiverReads(_, _) => ReceiverKept(s, step);
      case ReceiverIdles => ReceiverKept(s, step);
    }
  }

  lemma FirstKept(j: Job, channel: seq<byte>)
    requires JobOk(j)
    ensures Kept(Initial(j, channel))
  {
  }

  lemma RunOne(j: Job, channel: seq<byte>, steps: seq<Step>, a: Step)
    requires JobOk(j)
    ensures Run(j, channel, steps + [a]) == Apply(Run(j, channel, steps), a)
  {
    hide Apply;
    assert (steps + [a])[..|steps|] == steps;
  }

  /** The receiver has not failed, and knows of the transfer; the sender waits. */
  predicate Unfinished(s: System) {
    s.sender.phase.Waiting? && s.receiver.gotStart && (s.receiver.outcome == Running || s.receiver.outcome == Complete)
  }

  predicate Succeeds(s: System) {
    s.receiver.outcome == Complete && s.sender.phase.Succeeded?
  }

  /** One more chunk. */
  lemma NextChunk(j: Job, channel: seq<byte>, steps: seq<Step>)
    requires JobOk(j) && NothingToStrip(j) && Unfinished(Run(j, channel, steps))
    requires var r := Run(j, channel, steps).receiver; r.outcome == Running && r.expectedSeq < |j.chunks|
    ensures
      var s := Run(j, channel, steps);
      var s' := Run(j, channel, steps + [ReceiverReads(DataPacket(j, s.receiver.expectedSeq), true)]);
      Unfinished(s') && s'.receiver.expectedSeq == s.receiver.expectedSeq + 1
  {
    hide Run, Inv, NothingToStrip, DataPacket, Apply, Kept;
    RunOk(j, channel, steps);
    KeptInRuns(j, channel, steps);
    var s := Run(j, channel, steps);
    SeqBound(s);
    RunOne(j, channel, steps, ReceiverReads(DataPacket(j, s.receiver.expectedSeq), true));
    ChunkTaken(s);
  }

  lemma ChunkTaken(s: System)
    requires Inv(s) && Unfinished(s) && s.receiver.outcome == Running && s.receiver.expectedSeq < |s.job.chunks|
    requires s.sender.seqNo <= |s.job.chunks| && |s.sender.cache| == WINDOW && JobOk(s.job) && Kept(s)
    ensures
      var s' := Apply(s, ReceiverReads(DataPacket(s.job, s.receiver.expectedSeq), true));
      Unfinished(s') && s'.receiver.expectedSeq == s.receiver.expectedSeq + 1
  {
    InvHas(s);
    AllSent(s.job, s.sender);
    hide Inv, SenderOk, NetOk, StartMeta, ReceiverOk, DataPacket, Receive;
    TakeOne(s.job, s.receiver, s.receiver.expectedSeq);
  }

  lemma AllSent(j: Job, s: Sender)
    requires JobOk(j) && SenderOk(j, s) && s.phase.Waiting?
    ensures s.seqNo == |j.chunks|
  {
    hide CacheAfter, Flat;
  }

  lemma TakeOne(j: Job, r: Receiver, q: nat)
    requires JobOk(j) && ReceiverOk(j, r) && r.outcome == Running && r.gotStart && q == r.expectedSeq < |j.chunks|
    ensures
      var r' := Receive(r, DataPacket(j, q), true).0;
      r'.expectedSeq == q + 1 && r'.gotStart && (r'.outcome == Running || r'.outcome == Complete)
  {
    assert j.chunks[q] in j.chunks;
    StrippedSize(j.id, j.chunks[q]);
    AppendOk(j, r);
    var r1 := Appended(r, Stripped(j.id, j.chunks[q]));
    AppendedFrame(r, Stripped(j.id, j.chunks[q]));
    hide ReceiverOk, Flat, Stripped, Appended, Finish;
    if r1.gotEnd && r1.received == r1.expectedSize { FinishOk(j, r1); }
  }

  /** The end, after all chunks. */
  lemma LastPacket(j: Job, channel: seq<byte>, steps: seq<Step>)
    requires JobOk(j) && NothingToStrip(j) && Unfinished(Run(j, channel, steps))
    requires var r := Run(j, channel, steps).receiver; r.outcome == Running && r.expectedSeq == |j.chunks|
    ensures
      var s' := Run(j, channel, steps + [ReceiverReads(EndPacket(j), true)]);
      Unfinished(s') && s'.receiver.outcome == Complete
  {
    hide Run, Inv, NothingToStrip, EndPacket, Apply, Kept;
    RunOk(j, channel, steps);
    KeptInRuns(j, channel, steps);
    RunOne(j, channel, steps, ReceiverReads(EndPacket(j), true));
    EndTaken(Run(j, channel, steps));
  }

  lemma EndTaken(s: System)
    requires Inv(s) && Unfinished(s) && s.receiver.outcome == Running && s.receiver.expectedSeq == |s.job.chunks|
    requires s.sender.seqNo <= |s.job.chunks| && |s.sender.cache| == WINDOW && JobOk(s.job) && Kept(s)
    requires NothingToStrip(s.job)
    ensures
      var s' := Apply(s, ReceiverReads(EndPacket(s.job), true));
      Unfinished(s') && s'.receiver.outcome == Complete
  {
    InvHas(s);
    hide Inv, SenderOk, NetOk, StartMeta, ReceiverOk, NothingToStrip, EndPacket, Receive;
    AllThere(s.job, s.receiver);
    Completes(s.job, s.receiver);
  }

  lemma AllThere(j: Job, r: Receiver)
    requires JobOk(j) && NothingToStrip(j) && ReceiverOk(j, r) && r.gotStart && r.expectedSeq == |j.chunks|
    ensures r.received == r.expectedSize
  {
    var n := |j.chunks|;
    assert j.chunks[..n] == j.chunks;
    assert FileRuns.Kept(j, n) == j.chunks;
  }

  lemma Completes(j: Job, r: Receiver)
    requires JobOk(j) && ReceiverOk(j, r) && r.gotStart && r.outcome == Running && !r.gotEnd
    requires r.received == r.expectedSize
    ensures var r' := Receive(r, EndPacket(j), true).0; r'.outcome == Complete && r'.gotStart
  {
    RoundTrip32(j.id);
    var r1 := r.(gotEnd := true, endCrc := EndPacket(j).value);
    hide Flat, FileRuns.Kept, Crc.Update, Crc.Checksum, Finish, Get32, Put32;
    FinishOk(j, r1);
  }

  /** The confirmation, and the end of the round. */
  lemma Confirms(j: Job, channel: seq<byte>, steps: seq<Step>)
    requires JobOk(j) && Unfinished(Run(j, channel, steps)) && Run(j, channel, steps).receiver.outcome == Complete
    ensures
      Succeeds(Run(j, channel, steps + [SenderReads(Control(DONE, |j.chunks|, j.id), true), RoundEnds(true)]))
  {
    var s := Run(j, channel, steps);
    var done := Control(DONE, |j.chunks|, j.id);
    RunTwo(j, channel, steps, SenderReads(done, true), RoundEnds(true));
    KeptInRuns(j, channel, steps);
    ControlIs(DONE, |j.chunks|, j.id, DONE, j.id);
    hide Run, StartMeta, Put32;
  }

  /** The next step of the receiver that leads on. */
  lemma Onward(j: Job, channel: seq<byte>, steps: seq<Step>) returns (step: Step)
    requires JobOk(j) && NothingToStrip(j) && Unfinished(Run(j, channel, steps))
    requires Run(j, channel, steps).receiver.outcome == Running
    ensures Run(j, channel, steps).receiver.expectedSeq <= |j.chunks|
    ensures
      var r, s' := Run(j, channel, steps).receiver, Run(j, channel, steps + [step]);
      && Unfinished(s')
      && (s'.receiver.outcome == Complete || r.expectedSeq < s'.receiver.expectedSeq)
  {
    RunOk(j, channel, steps);
    SeqBound(Run(j, channel, steps));
    hide Run, Inv, Unfinished;
    var q := Run(j, channel, steps).receiver.expectedSeq;
    if q < |j.chunks| {
      NextChunk(j, channel, steps);
      step := ReceiverReads(DataPacket(j, q), true);
    } else {
      LastPacket(j, channel, steps);
      step := ReceiverReads(EndPacket(j), true);
    }
  }

  lemma SeqBound(s: System)
    requires Inv(s)
    ensures s.receiver.expectedSeq <= |s.job.chunks|
  {
    hide SenderOk, NetOk, Flat;
  }

  /** The steps that are left. */
  lemma {:induction false} Continue(j: Job, channel: seq<byte>, steps: seq<Step>, left: nat) returns (more: seq<Step>)
    requires JobOk(j) && NothingToStrip(j) && Unfinished(Run(j, channel, steps))
    requires |j.chunks| - Run(j, channel, steps).receiver.expectedSeq < left
    ensures Succeeds(Run(j, channel, steps + more))
    decreases left
  {
    hide Run, Unfinished, Succeeds, NothingToStrip, JobOk;
    if Run(j, channel, steps).receiver.outcome == Complete {
      Confirms(j, channel, steps);
      return [SenderReads(Control(DONE, |j.chunks|, j.id), true), RoundEnds(true)];
    }
    RunningIs(Run(j, channel, steps));
    var step := Onward(j, channel, steps);
    var rest;
    if Run(j, channel, steps + [step]).receiver.outcome == Complete {
      Confirms(j, channel, steps + [step]);
      rest := [SenderReads(Control(DONE, |j.chunks|, j.id), true), RoundEnds(true)];
    } else {
      rest := Continue(j, channel, steps + [step], left - 1);
    }
    more := [step] + rest;
    assert steps + more == (steps + [step]) + rest;
  }

  lemma RunningIs(s: System)
    requires Unfinished(s) && s.receiver.outcome != Complete
    ensures s.receiver.outcome == Running
  {
  }

  /** From every state a run can reach in which the sender waits and the receiver knows of the transfer and has not
      failed, both can still succeed, if no chunk can be mistaken for one with the id in front. */
  lemma CanStillSucceed(j: Job, channel: seq<byte>, steps: seq<Step>)
    requires JobOk(j) && NothingToStrip(j) && Unfinished(Run(j, channel, steps))
    ensures exists more :: Succeeds(Run(j, channel, steps + more))
  {
    var more := Continue(j, channel, steps, |j.chunks| + 1);
  }

  // ---- The sender ----

  /** A sender fails exactly when it cannot write, or is asked for a chunk it no longer has; and a round ends with
      success once the transfer was confirmed, with another end once chunks were sent again, and otherwise
      changes nothing. */
  lemma SenderExactly(j: Job, s: Sender, p: Packet, ok: bool)
    requires JobOk(j) && SenderOk(j, s) && s.phase.Waiting?
    ensures
      var (s', out) := OnControl(j.id, s, p, ok);
      var ours := p.flags % 2 == 1 && p.extra == Put32(j.id);
      && (s'.phase.Failed? <==> p.kind == 4 && ours && p.value < |j.chunks| && (p.value + 256 < |j.chunks| || !ok))
      && (s'.phase.Waiting? ==> s'.phase.doneSeen == (s.phase.doneSeen || (p.kind == 5 && ours)))
      && (s'.phase.Waiting? ==> s'.phase.resent == (s.phase.resent || out != []))
      && (out != [] <==> p.kind == 4 && ours && p.value < |j.chunks| <= p.value + 256 && ok)
      && (out != [] ==> out == [DataPacket(j, p.value)])
    ensures
      var (s', out) := EndRound(j.id, s, ok);
      if s.phase.doneSeen then s'.phase.Succeeded? && out == []
      else if !s.phase.resent then s' == s && out == []
      else if !ok then s'.phase.Failed? && out == []
      else s' == s.(phase := Waiting(false, false)) && out == [EndPacket(j)]
  {
    ControlExactly(p, 4, j.id);
    ControlExactly(p, 5, j.id);
    assert j.chunks[..|j.chunks|] == j.chunks;
    ChecksumIs(j);
    if p.value < |j.chunks| {
      CacheWindow(j.chunks, |j.chunks|, p.value);
      CacheSeqNo(j, s, p.value);
    }
    hide CacheAfter, StartMeta, Put32, Get32, Flat, Crc.Update, Crc.Final, Crc.Checksum, IsControl;
  }
}
