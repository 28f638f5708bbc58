/** A sender and a receiver of one file over a network that loses, repeats and reorders packets:
    what they can agree on. */
module FileRuns {
  import opened Word32
  import opened Bytes
  import opened FileProtocol
  import Crc

  /** The network is the set of packets ever published: any of them may arrive any number of
      times, at any time, or never. */
  datatype System = System(job: Job, sender: Sender, receiver: Receiver, net: set<Packet>)

  datatype Step =
    | Send(ok: bool)
    | SenderReads(p: Packet, ok: bool)
    | RoundEnds(ok: bool)
    | SenderGivesUp
    | ReceiverReads(p: Packet, io: bool)
    | ReceiverIdles

  function Publish(net: set<Packet>, packets: seq<Packet>): set<Packet> {
    net + set p | p in packets
  }

  function Apply(s: System, step: Step): (r: System)
    requires JobOk(s.job) && s.sender.seqNo <= |s.job.chunks| && |s.sender.cache| == WINDOW
    ensures r.job == s.job && r.sender.seqNo <= |s.job.chunks| && |r.sender.cache| == WINDOW
  {
    match step
    case Send(ok) =>
      var r := SendNext(s.job, s.sender, ok);
      s.(sender := r.0, net := Publish(s.net, r.1))
    case SenderReads(p, ok) =>
      if p !in s.net then s
      else
        var r := OnControl(s.job.id, s.sender, p, ok);
        s.(sender := r.0, net := Publish(s.net, r.1))
    case RoundEnds(ok) =>
      var r := EndRound(s.job.id, s.sender, ok);
      s.(sender := r.0, net := Publish(s.net, r.1))
    case SenderGivesUp =>
      if s.sender.phase.Waiting? then s.(sender := s.sender.(phase := Failed)) else s
    case ReceiverReads(p, io) =>
      if p !in s.net then s
      else
        var r := Receive(s.receiver, p, io);
        s.(receiver := r.0, net := Publish(s.net, r.1))
    case ReceiverIdles =>
      var r := Idle(s.receiver);
      s.(receiver := r.0, net := Publish(s.net, r.1))
  }

  function Initial(j: Job, channel: seq<byte>): System {
    System(j, NewSender(), NewReceiver(channel), {})
  }

  // ---- Pieces of the file ----

  /** What the receiver keeps of the first e chunks. */
  function Kept(j: Job, e: nat): (r: seq<seq<byte>>)
    requires e <= |j.chunks|
    ensures |r| == e
  {
    seq(e, i requires 0 <= i < e => Stripped(j.id, j.chunks[i]))
  }

  /** No chunk that is longer than 4 bytes starts with the transfer id. */
  predicate NothingToStrip(j: Job) {
    forall c <- j.chunks :: Stripped(j.id, c) == c
  }

  lemma KeptSnoc(j: Job, e: nat)
    requires e < |j.chunks|
    ensures Flat(Kept(j, e + 1)) == Flat(Kept(j, e)) + Stripped(j.id, j.chunks[e])
    ensures Kept(j, e + 1) == Kept(j, e) + [Stripped(j.id, j.chunks[e])]
  {
    assert Kept(j, e + 1) == Kept(j, e) + [Stripped(j.id, j.chunks[e])];
    FlatSnoc(Kept(j, e), Stripped(j.id, j.chunks[e]));
  }

  lemma StrippedSize(id: u32, c: seq<byte>)
    ensures |Stripped(id, c)| <= |c| && (|Stripped(id, c)| == |c| ==> Stripped(id, c) == c)
      && (c != [] ==> Stripped(id, c) != [])
  {
  }

  /** Stripping only shortens, and shortens whatever it changes. */
  lemma {:induction false} KeptSize(j: Job, e: nat)
    requires e <= |j.chunks|
    ensures |Flat(Kept(j, e))| <= |Flat(j.chunks[..e])|
    ensures |Flat(Kept(j, e))| == |Flat(j.chunks[..e])| ==> Kept(j, e) == j.chunks[..e]
  {
    if e == 0 {
      assert j.chunks[..0] == [] == Kept(j, 0);
    } else {
      hide Flat, Stripped, Kept;
      var c := j.chunks[e - 1];
      StrippedSize(j.id, c);
      KeptSize(j, e - 1);
      KeptSnoc(j, e - 1);
      TakeSnoc(j.chunks, e - 1);
    }
  }

  /** Fewer chunks are fewer bytes. */
  lemma {:induction false} TakeSize(chunks: seq<seq<byte>>, e: nat)
    requires e <= |chunks| && forall c <- chunks :: c != []
    ensures |Flat(chunks[..e])| <= |Flat(chunks)|
    ensures |Flat(chunks[..e])| == |Flat(chunks)| ==> e == |chunks|
    decreases |chunks| - e
  {
    if e < |chunks| {
      TakeSize(chunks, e + 1);
      TakeSnoc(chunks, e);
      assert chunks[e] in chunks;
    } else {
      assert chunks[..e] == chunks;
    }
  }

  /** What was received has the size of the file only if it is the file. */
  lemma FullSize(j: Job, e: nat)
    requires JobOk(j) && e <= |j.chunks|
    ensures |Flat(Kept(j, e))| <= |Flat(j.chunks)|
    ensures |Flat(Kept(j, e))| == |Flat(j.chunks)| ==>
      e == |j.chunks| && Flat(Kept(j, e)) == Flat(j.chunks) && NothingToStrip(j)
  {
    KeptSize(j, e);
    TakeSize(j.chunks, e);
    if |Flat(Kept(j, e))| == |Flat(j.chunks)| {
      assert j.chunks[..e] == j.chunks;
      forall c | c in j.chunks ensures Stripped(j.id, c) == c {
        var i :| 0 <= i < e && j.chunks[i] == c;
        assert Kept(j, e)[i] == c;
      }
    }
  }

  // ---- What every reachable state satisfies ----

  ghost predicate Published(j: Job, sent: nat, p: Packet)
    requires JobOk(j) && sent <= |j.chunks|
  {
    || p == StartPacket(j)
    || (exists q: nat | q < sent :: p == DataPacket(j, q))
    || (sent == |j.chunks| && p == EndPacket(j))
  }

  ghost predicate NetOk(s: System)
    requires JobOk(s.job) && s.sender.seqNo <= |s.job.chunks|
  {
    forall p <- s.net ::
      || Published(s.job, s.sender.seqNo, p)
      || p.kind == NACK
      || (p.kind == DONE && s.receiver.outcome == Complete)
  }

  predicate SenderOk(j: Job, s: Sender)
    requires JobOk(j)
  {
    && s.seqNo <= |j.chunks| && s.cache == CacheAfter(j.chunks, s.seqNo)
    && s.crc == Crc.Update(Crc.START, Flat(j.chunks[..s.seqNo]))
    && (s.phase.Waiting? ==> s.seqNo == |j.chunks|)
  }

  predicate Confirmed(s: Sender) {
    s.phase.Succeeded? || (s.phase.Waiting? && s.phase.doneSeen)
  }

  predicate ReceiverOk(j: Job, r: Receiver)
    requires JobOk(j)
  {
    && r.outcome != CrcMismatch && r.outcome != BadEnd
    && (!r.gotStart ==>
      r.received == r.expectedSeq == 0 && r.file == [] && r.crc == Crc.START && !r.gotEnd && r.outcome != Complete)
    && (r.gotStart ==>
          && r.v2 && r.id == j.id && r.expectedSize == |Flat(j.chunks)| && r.expectedSeq <= |j.chunks|
          && r.file == Flat(Kept(j, r.expectedSeq)) && r.received == |r.file| && r.crc == Crc.Update(Crc.START, r.file)
          && (r.gotEnd ==> r.endCrc == Crc.Checksum(Flat(j.chunks)))
          && (r.outcome == Complete ==> r.file == Flat(j.chunks) && NothingToStrip(j)))
  }

  ghost predicate Inv(s: System) {
    && JobOk(s.job) && SenderOk(s.job, s.sender) && ReceiverOk(s.job, s.receiver) && NetOk(s)
    && (Confirmed(s.sender) ==> s.receiver.outcome == Complete)
  }

  lemma InitialOk(j: Job, channel: seq<byte>)
    requires JobOk(j)
    ensures Inv(Initial(j, channel))
  {
    assert j.chunks[..0] == [];
  }

  /** The sender publishes only the packets of its file, in order. */
  lemma SendNextOk(j: Job, s: Sender, ok: bool)
    requires JobOk(j) && SenderOk(j, s)
    ensures
      var (s', out) := SendNext(j, s, ok);
      && SenderOk(j, s') && s.seqNo <= s'.seqNo && (Confirmed(s') <==> Confirmed(s))
      && (forall p <- out :: Published(j, s'.seqNo, p))
      && forall p | Published(j, s.seqNo, p) :: Published(j, s'.seqNo, p)
  {
    if s.phase.Sending? && ok && s.seqNo < |j.chunks| {
      SendChunkOk(j, s);
      hide Crc.Update, Crc.Final, Store, CacheAfter, Flat, StartMeta, SenderOk;
      assert SendNext(j, s, ok).1 == [DataPacket(j, s.seqNo)];
    } else {
      hide Crc.Update, Crc.Final, Store, CacheAfter, Flat, StartMeta;
      assert j.chunks[..|j.chunks|] == j.chunks;
      ChecksumIs(j);
    }
  }

  lemma SendChunkOk(j: Job, s: Sender)
    requires JobOk(j) && SenderOk(j, s) && s.phase.Sending? && s.seqNo < |j.chunks|
    ensures SenderOk(j, SendNext(j, s, true).0) && SendNext(j, s, true).0.seqNo == s.seqNo + 1
      && SendNext(j, s, true).0.phase.Sending?
  {
    var c := j.chunks[s.seqNo];
    TakeSnoc(j.chunks, s.seqNo);
    Crc.UpdateConcat(Crc.START, Flat(j.chunks[..s.seqNo]), c);
    CacheStep(j.chunks, s.seqNo);
    hide Crc.Update, Crc.Final, Store, CacheAfter, Flat, StartMeta;
  }

  lemma CacheStep(chunks: seq<seq<byte>>, n: nat)
    requires n < |chunks| < MODULUS
    ensures CacheAfter(chunks, n + 1) == Store(CacheAfter(chunks, n), n, chunks[n])
  {
  }

  lemma ChecksumIs(j: Job)
    ensures Crc.Final(Crc.Update(Crc.START, Flat(j.chunks))) == Crc.Checksum(Flat(j.chunks))
  {
  }

  /** A retransmission is a packet that was already sent; only a DONE confirms. */
  lemma OnControlOk(j: Job, s: Sender, p: Packet, ok: bool)
    requires JobOk(j) && SenderOk(j, s)
    ensures
      var (s', out) := OnControl(j.id, s, p, ok);
      && SenderOk(j, s') && s'.seqNo == s.seqNo && (forall x <- out :: Published(j, s.seqNo, x))
      && (Confirmed(s') && !Confirmed(s) ==> p.kind == DONE)
  {
    if p.value < s.seqNo {
      CacheWindow(j.chunks, s.seqNo, p.value);
      hide CacheAfter, Crc.Update, Flat, StartMeta;
      var k := Find(s.cache, p.value, 0);
      if k < WINDOW {
        assert Packet(DATA, FLAG_V2, s.cache[k].seqNo, s.cache[k].data) == DataPacket(j, p.value);
      }
    }
  }

  lemma EndRoundOk(j: Job, s: Sender, ok: bool)
    requires JobOk(j) && SenderOk(j, s)
    ensures
      var (s', out) := EndRound(j.id, s, ok);
      && SenderOk(j, s') && s'.seqNo == s.seqNo && (forall x <- out :: Published(j, s.seqNo, x))
      && (Confirmed(s') ==> Confirmed(s))
  {
    assert j.chunks[..|j.chunks|] == j.chunks;
    ChecksumIs(j);
    hide CacheAfter, Crc.Update, Crc.Final, Flat, StartMeta;
  }

  /** The checksums agree whenever the sizes do: the last comparison never fails. */
  lemma FinishOk(j: Job, r: Receiver)
    requires JobOk(j) && r.gotStart && r.gotEnd && r.outcome == Running && ReceiverOk(j, r)
      && r.received == r.expectedSize
    ensures Finish(r).0 == r.(outcome := Complete) && ReceiverOk(j, Finish(r).0)
    ensures forall p <- Finish(r).1 :: p.kind == DONE
  {
    FullSize(j, r.expectedSeq);
    ChecksumIs(j);
    hide Flat, Kept, Crc.Update, Crc.Final, Crc.Checksum;
  }

  lemma OnStartOk(j: Job, r: Receiver, p: Packet, io: bool)
    requires JobOk(j) && ReceiverOk(j, r) && r.outcome == Running && p == StartPacket(j)
    ensures ReceiverOk(j, OnStart(r, p, io)) && OnStart(r, p, io).outcome != Complete
  {
    StartMetaRoundTrip(j.id, j.name, j.channel, r.channel, r.id);
    hide ParseStartMeta, StartMeta, Crc.Update;
  }

  lemma OnDataOk(j: Job, r: Receiver, q: nat, io: bool)
    requires JobOk(j) && ReceiverOk(j, r) && r.outcome == Running && r.gotStart && q < |j.chunks|
    ensures
      var (r', out) := OnData(r, DataPacket(j, q), io);
      ReceiverOk(j, r') && (forall x <- out :: x.kind == NACK || (x.kind == DONE && r'.outcome == Complete))
  {
    assert j.chunks[q] in j.chunks;
    StrippedSize(j.id, j.chunks[q]);
    if q == r.expectedSeq && io {
      AppendOk(j, r);
      var r1 := Appended(r, Stripped(j.id, j.chunks[q]));
      hide ReceiverOk, Finish, Stripped, Flat;
      assert r1.outcome == Running && r1.gotStart;
      if r1.gotEnd && r1.received == r1.expectedSize { FinishOk(j, r1); }
    } else {
      hide Flat, Kept, Crc.Update, Crc.Checksum, Stripped;
    }
  }

  /** The next chunk in sequence keeps what was received a prefix of the file, stripped. */
  lemma AppendOk(j: Job, r: Receiver)
    requires JobOk(j) && ReceiverOk(j, r) && r.outcome == Running && r.gotStart && r.expectedSeq < |j.chunks|
    ensures ReceiverOk(j, Appended(r, Stripped(j.id, j.chunks[r.expectedSeq])))
  {
    var q := r.expectedSeq;
    var r1 := Appended(r, Stripped(j.id, j.chunks[q]));
    AppendedIs(j, r);
    hide Flat, Kept, Crc.Update, Crc.Checksum, Stripped, NothingToStrip, Appended;
  }

  lemma AppendedIs(j: Job, r: Receiver)
    requires JobOk(j) && r.expectedSeq < |j.chunks|
    requires r.file == Flat(Kept(j, r.expectedSeq)) && r.received == |r.file| && r.crc == Crc.Update(Crc.START, r.file)
    ensures
      var r1 := Appended(r, Stripped(j.id, j.chunks[r.expectedSeq]));
      && r1.file == Flat(Kept(j, r.expectedSeq + 1)) && r1.received == |r1.file|
        && r1.crc == Crc.Update(Crc.START, r1.file)
      && r1 == r.(file := r1.file, received := r1.received, crc := r1.crc, expectedSeq := r.expectedSeq + 1)
  {
    var q := r.expectedSeq;
    hide Flat, Kept, Crc.Update, Stripped, NothingToStrip;
    KeptSnoc(j, q);
    FullSize(j, q + 1);
    Crc.UpdateConcat(Crc.START, r.file, Stripped(j.id, j.chunks[q]));
  }

  lemma OnEndOk(j: Job, r: Receiver)
    requires JobOk(j) && ReceiverOk(j, r) && r.outcome == Running && r.gotStart
    ensures
      var (r', out) := OnEnd(r, EndPacket(j));
      ReceiverOk(j, r') && (forall x <- out :: x.kind == NACK || (x.kind == DONE && r'.outcome == Complete))
  {
    RoundTrip32(j.id);
    hide Flat, Kept, Crc.Update, Crc.Checksum, Finish, Get32, Put32;
    var r1 := r.(gotEnd := true, endCrc := EndPacket(j).value);
    if !r.gotEnd && r.received == r.expectedSize { FinishOk(j, r1); }
  }

  lemma ReceiveOk(j: Job, r: Receiver, p: Packet, sent: nat, io: bool)
    requires JobOk(j) && ReceiverOk(j, r) && sent <= |j.chunks|
    requires Published(j, sent, p) || p.kind == NACK || p.kind == DONE
    ensures
      var (r', out) := Receive(r, p, io);
      && ReceiverOk(j, r') && (forall x <- out :: x.kind == NACK || (x.kind == DONE && r'.outcome == Complete))
      && (r.outcome == Complete ==> r' == r)
  {
    hide Flat, Kept, OnStart, OnData, OnEnd, StartMeta;
    if r.outcome == Running {
      if p == StartPacket(j) {
        OnStartOk(j, r, p, io);
      } else if p.kind == DATA {
        var q: nat :| q < sent && p == DataPacket(j, q);
        if r.gotStart { OnDataOk(j, r, q, io); }
      } else if p.kind == END {
        if r.gotStart { OnEndOk(j, r); }
      }
    }
  }

  lemma StepOk(s: System, step: Step)
    requires Inv(s)
    ensures Inv(Apply(s, step))
  {
    hide SenderOk, ReceiverOk, Published, SendNext, OnControl, EndRound, Receive, Idle;
    SenderShape(s);
    match step
    case Send(ok) => SendNextOk(s.job, s.sender, ok);
    case SenderReads(p, ok) => OnControlOk(s.job, s.sender, p, ok); if p in s.net && p.kind == DONE { DoneMeans(s, p); }
    case RoundEnds(ok) => EndRoundOk(s.job, s.sender, ok);
    case SenderGivesUp => GiveUpOk(s.job, s.sender);
    case ReceiverReads(p, io) => if p in s.net { ReceiveOk(s.job, s.receiver, p, s.sender.seqNo, io); }
    case ReceiverIdles => IdleOk(s.job, s.receiver);
  }

  lemma SenderShape(s: System)
    requires JobOk(s.job) && SenderOk(s.job, s.sender)
    ensures s.sender.seqNo <= |s.job.chunks| && |s.sender.cache| == WINDOW
  {
  }

  lemma DoneMeans(s: System, p: Packet)
    requires Inv(s) && p in s.net && p.kind == DONE
    ensures s.receiver.outcome == Complete
  {
    hide SenderOk, ReceiverOk, Flat, StartMeta;
  }

  lemma GiveUpOk(j: Job, s: Sender)
    requires JobOk(j) && SenderOk(j, s)
    ensures SenderOk(j, s.(phase := Failed))
  {
  }

  lemma IdleOk(j: Job, r: Receiver)
    requires JobOk(j) && ReceiverOk(j, r)
    ensures ReceiverOk(j, Idle(r).0) && (forall x <- Idle(r).1 :: x.kind == NACK)
    ensures r.outcome == Complete ==> Idle(r) == (r, [])
  {
    hide Flat, Kept, Crc.Update, Crc.Checksum;
  }

  // ---- Runs ----

  function Run(j: Job, channel: seq<byte>, steps: seq<Step>): (s: System)
    requires JobOk(j)
    ensures s.job == j && s.sender.seqNo <= |j.chunks| && |s.sender.cache| == WINDOW
    decreases |steps|
  {
    if steps == [] then Initial(j, channel)
    else Apply(Run(j, channel, steps[..|steps| - 1]), steps[|steps| - 1])
  }

  lemma {:induction false} RunOk(j: Job, channel: seq<byte>, steps: seq<Step>)
    requires JobOk(j)
    ensures Inv(Run(j, channel, steps))
    decreases |steps|
  {
    hide Apply, Inv;
    if steps == [] {
      InitialOk(j, channel);
    } else {
      RunOk(j, channel, steps[..|steps| - 1]);
      StepOk(Run(j, channel, steps[..|steps| - 1]), steps[|steps| - 1]);
    }
  }

  /** A receiver that reports success has written exactly the file that was sent; a sender that
      reports success has such a receiver; the checksums never disagree; and a transfer with a
      chunk that can be mistaken for one with its id in front never succeeds. */
  lemma Agreement(j: Job, channel: seq<byte>, steps: seq<Step>)
    requires JobOk(j)
    ensures
      var s := Run(j, channel, steps);
      && (s.receiver.outcome == Complete ==> s.receiver.file == Flat(j.chunks) && NothingToStrip(j))
      && (s.sender.phase.Succeeded? ==> s.receiver.outcome == Complete)
      && s.receiver.outcome != CrcMismatch && s.receiver.outcome != BadEnd
  {
    RunOk(j, channel, steps);
  }

  // ---- Exactly when a transfer can succeed ----

  /** The steps of a transfer without loss, up to the first q chunks. */
  function Lossless(j: Job, q: nat): seq<Step>
    requires JobOk(j) && q <= |j.chunks|
  {
    if q == 0 then [Send(true), ReceiverReads(StartPacket(j), true)]
    else Lossless(j, q - 1) + [Send(true), ReceiverReads(DataPacket(j, q - 1), true)]
  }

  predicate Halfway(j: Job, s: System, q: nat)
    requires JobOk(j) && q <= |j.chunks|
  {
    && s.job == j && s.sender.phase.Sending? && s.sender.seqNo == q
    && s.receiver.outcome == Running && s.receiver.gotStart && !s.receiver.gotEnd && s.receiver.expectedSeq == q
  }

  lemma RunTwo(j: Job, channel: seq<byte>, steps: seq<Step>, a: Step, b: Step)
    requires JobOk(j)
    ensures Run(j, channel, steps + [a, b]) == Apply(Apply(Run(j, channel, steps), a), b)
  {
    hide Apply;
    assert (steps + [a, b])[..|steps| + 1] == steps + [a];
    assert (steps + [a])[..|steps|] == steps;
  }

  lemma {:induction false} LosslessRuns(j: Job, q: nat)
    requires JobOk(j) && NothingToStrip(j) && q <= |j.chunks|
    ensures Halfway(j, Run(j, j.channel, Lossless(j, q)), q)
  {
    hide Run, StartMeta, ParseStartMeta, Crc.Update, Flat, Store, EmptyCache;
    if q == 0 {
      StartMetaRoundTrip(j.id, j.name, j.channel, j.channel, 0);
      RunTwo(j, j.channel, [], Send(true), ReceiverReads(StartPacket(j), true));
      assert [] + [Send(true), ReceiverReads(StartPacket(j), true)] == Lossless(j, 0);
      NoSteps(j);
    } else {
      var steps := Lossless(j, q - 1);
      LosslessRuns(j, q - 1);
      RunOk(j, j.channel, steps);
      RunTwo(j, j.channel, steps, Send(true), ReceiverReads(DataPacket(j, q - 1), true));
      assert j.chunks[q - 1] in j.chunks;
      MoreHalfway(j, Run(j, j.channel, steps), q - 1);
    }
  }

  lemma NoSteps(j: Job)
    requires JobOk(j)
    ensures Run(j, j.channel, []) == Initial(j, j.channel)
  {
  }

  lemma MoreHalfway(j: Job, s: System, q: nat)
    requires JobOk(j) && NothingToStrip(j) && q < |j.chunks| && Inv(s) && Halfway(j, s, q)
    ensures Halfway(j, Apply(Apply(s, Send(true)), ReceiverReads(DataPacket(j, q), true)), q + 1)
  {
    assert j.chunks[q] in j.chunks;
    var s1 := Apply(s, Send(true));
    assert DataPacket(j, q) in s1.net;
    hide Crc.Update, Flat, Store, StartMeta, Kept, SenderOk, NetOk, Stripped, Crc.Final;
    assert Stripped(j.id, j.chunks[q]) == j.chunks[q];
  }

  /** A transfer can succeed if and only if no chunk of it longer than four bytes starts with
      the transfer id. */
  lemma CanSucceed(j: Job)
    requires JobOk(j)
    ensures (exists steps :: Run(j, j.channel, steps).receiver.outcome == Complete) <==> NothingToStrip(j)
  {
    hide Run, Flat;
    if NothingToStrip(j) {
      var n := |j.chunks|;
      var steps := Lossless(j, n);
      LosslessRuns(j, n);
      RunOk(j, j.channel, steps);
      RunTwo(j, j.channel, steps, Send(true), ReceiverReads(EndPacket(j), true));
      LastStep(j, Run(j, j.channel, steps));
      assert Run(j, j.channel, steps + [Send(true), ReceiverReads(EndPacket(j), true)]).receiver.outcome == Complete;
    }
    forall steps | Run(j, j.channel, steps).receiver.outcome == Complete ensures NothingToStrip(j) {
      Agreement(j, j.channel, steps);
    }
  }

  lemma LastStep(j: Job, s: System)
    requires JobOk(j) && NothingToStrip(j) && Inv(s) && Halfway(j, s, |j.chunks|)
    ensures Apply(Apply(s, Send(true)), ReceiverReads(EndPacket(j), true)).receiver.outcome == Complete
  {
    var n := |j.chunks|;
    assert j.chunks[..n] == j.chunks;
    ChecksumIs(j);
    assert Kept(j, n) == j.chunks;
    var s1 := Apply(s, Send(true));
    assert EndPacket(j) in s1.net;
    RoundTrip32(j.id);
    hide Flat, Kept, Crc.Update, Crc.Checksum, Finish, Get32, Put32, StartMeta, SenderOk, NetOk;
    FinishOk(j, s1.receiver.(gotEnd := true, endCrc := EndPacket(j).value));
  }

  /** There are such transfers: one chunk of five bytes, the first four being the id. */
  lemma SomeNeverSucceed()
    ensures
      var j := Job(0x0403_0201, [110], [99], [[1, 2, 3, 4, 5]]);
      && JobOk(j) && Stripped(j.id, j.chunks[0]) == [5] && !NothingToStrip(j)
      && forall steps :: Run(j, j.channel, steps).receiver.outcome != Complete
  {
    var c: seq<byte> := [1, 2, 3, 4, 5];
    var j := Job(0x0403_0201, [110], [99], [c]);
    assert Flat(j.chunks) == Flat([]) + c by { assert j.chunks[..0] == []; }
    assert Get32(c[..4]) == j.id && c[4..] == [5];
    assert c in j.chunks;
    hide Run, Flat;
    CanSucceed(j);
  }
}
