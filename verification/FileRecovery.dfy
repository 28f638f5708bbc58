/** What a receiver asks for when chunks are lost, and what asking brings. */
module FileRecovery {
  import opened Word32
  import opened Bytes
  import opened FileProtocol
  import opened FileRuns

  /** Chunk q is the first that has not been taken in: the file so far is what is kept of the chunks
      before it. */
  predicate FirstMissing(j: Job, r: Receiver, q: nat) {
    q <= |j.chunks| && r.file == Flat(Kept(j, q))
  }

  // ---- There is only one such chunk ----

  lemma {:induction false} KeptGrows(j: Job, a: nat, b: nat)
    requires JobOk(j) && a < b <= |j.chunks|
    ensures |Flat(Kept(j, a))| < |Flat(Kept(j, b))|
  {
    hide Flat, Kept, Stripped;
    KeptSnoc(j, b - 1);
    assert j.chunks[b - 1] in j.chunks;
    StrippedSize(j.id, j.chunks[b - 1]);
    if a < b - 1 { KeptGrows(j, a, b - 1); }
  }

  lemma OneFirstMissing(j: Job, r: Receiver, a: nat, b: nat)
    requires JobOk(j) && FirstMissing(j, r, a) && FirstMissing(j, r, b)
    ensures a == b
  {
    hide Flat, Kept;
    if a < b { KeptGrows(j, a, b); }
    if b < a { KeptGrows(j, b, a); }
  }

  lemma MissingIs(j: Job, r: Receiver)
    requires JobOk(j) && ReceiverOk(j, r) && r.gotStart
    ensures FirstMissing(j, r, r.expectedSeq) && r.v2 && r.id == j.id && r.received == |r.file|
    ensures |r.file| == |Flat(j.chunks)| ==> r.expectedSeq == |j.chunks|
  {
    FullSize(j, r.expectedSeq);
    hide Flat, Kept;
  }

  // ---- What is asked for, and when ----

  /** One turn of the receiver: with a packet, or with a read that times out. */
  datatype Turn = Reads(p: Packet, io: bool) | TimesOut

  function Took(r: Receiver, t: Turn): (Receiver, seq<Packet>) {
    match t
    case Reads(p, io) => Receive(r, p, io)
    case TimesOut => Idle(r)
  }

  /** When a turn asks for chunk q: a later chunk arrives, or the end of a file that is not complete, or
      nothing does. */
  predicate Asks(j: Job, r: Receiver, q: nat, t: Turn)
    requires JobOk(j)
  {
    && r.outcome == Running && r.gotStart
    && match t
       case Reads(p, _) =>
         || (exists i: nat | i < |j.chunks| :: q < i && p == DataPacket(j, i))
         || (p == EndPacket(j) && !r.gotEnd && |r.file| < |Flat(j.chunks)|)
       case TimesOut => true
  }

  lemma DataAsks(j: Job, r: Receiver, i: nat, io: bool)
    requires JobOk(j) && ReceiverOk(j, r) && r.outcome == Running && r.gotStart && i < |j.chunks|
    ensures
      var (r', out) := OnData(r, DataPacket(j, i), io);
      if i > r.expectedSeq then r' == r && out == [Control(NACK, r.expectedSeq, j.id)]
      else forall x <- out :: x.kind == DONE
  {
    assert j.chunks[i] in j.chunks;
    StrippedSize(j.id, j.chunks[i]);
    hide Flat, Kept, Stripped, Appended;
  }

  lemma EndAsks(j: Job, r: Receiver)
    requires JobOk(j) && ReceiverOk(j, r) && r.outcome == Running && r.gotStart
    ensures
      var (r', out) := OnEnd(r, EndPacket(j));
      if !r.gotEnd && |r.file| < |Flat(j.chunks)| then
        r' == r.(gotEnd := true, endCrc := r'.endCrc) && out == [Control(NACK, r.expectedSeq, j.id)]
      else forall x <- out :: x.kind == DONE
  {
    RoundTrip32(j.id);
    FullSize(j, r.expectedSeq);
    hide Flat, Kept, Get32, Put32;
  }

  lemma TurnAsks(j: Job, r: Receiver, sent: nat, t: Turn, q: nat)
    requires JobOk(j) && ReceiverOk(j, r) && sent <= |j.chunks| && FirstMissing(j, r, q)
    requires t.Reads? ==> Published(j, sent, t.p) || t.p.kind == NACK || t.p.kind == DONE
    ensures
      var (r', out) := Took(r, t);
      && (Asks(j, r, q, t) ==> out == [Control(NACK, q, j.id)] && FirstMissing(j, r', q))
      && (!Asks(j, r, q, t) ==> forall x <- out :: x.kind == DONE)
  {
    hide Flat, Kept, OnStart, OnData, OnEnd, StartMeta, ReceiverOk;
    if r.outcome == Running && r.gotStart {
      MissingIs(j, r);
      OneFirstMissing(j, r, q, r.expectedSeq);
      if t.Reads? {
        ReadAsks(j, r, sent, t.p, t.io);
      }
    }
  }

  lemma ReadAsks(j: Job, r: Receiver, sent: nat, p: Packet, io: bool)
    requires JobOk(j) && ReceiverOk(j, r) && sent <= |j.chunks| && r.outcome == Running && r.gotStart
    requires Published(j, sent, p) || p.kind == NACK || p.kind == DONE
    ensures
      var (r', out) := Receive(r, p, io);
      && (Asks(j, r, r.expectedSeq, Reads(p, io)) ==> out == [Control(NACK, r.expectedSeq, j.id)] && r'.file == r.file)
      && (!Asks(j, r, r.expectedSeq, Reads(p, io)) ==> forall x <- out :: x.kind == DONE)
  {
    hide Flat, Kept, OnStart, OnData, OnEnd, StartMeta, ReceiverOk;
    if p.kind == DATA {
      var i: nat :| i < sent && p == DataPacket(j, i);
      DataAsks(j, r, i, io);
      assert forall n: nat | n < |j.chunks| && p == DataPacket(j, n) :: n == i;
    } else if p.kind == END {
      EndAsks(j, r);
    }
  }

  /** In every run: a turn of the receiver publishes a request for a chunk exactly when it has to ask, and
      then for the first one it has not taken in. */
  lemma AsksForFirstMissing(j: Job, channel: seq<byte>, steps: seq<Step>, t: Turn, q: nat)
    requires JobOk(j)
    requires var s := Run(j, channel, steps); FirstMissing(j, s.receiver, q) && (t.Reads? ==> t.p in s.net)
    ensures
      var s := Run(j, channel, steps);
      var (r', out) := Took(s.receiver, t);
      && (Asks(j, s.receiver, q, t) ==> out == [Control(NACK, q, j.id)] && FirstMissing(j, r', q))
      && (!Asks(j, s.receiver, q, t) ==> forall x <- out :: x.kind != NACK)
  {
    RunOk(j, channel, steps);
    var s := Run(j, channel, steps);
    hide Run, Published, ReceiverOk, SenderOk, Asks, Took, FirstMissing, StartMeta;
    SenderShape(s);
    TurnAsks(j, s.receiver, s.sender.seqNo, t, q);
  }

  // ---- What the sender makes of it ----

  /** A sender that waits answers with exactly that chunk if it is one of the last 256, and fails
      otherwise. */
  lemma Answers(j: Job, s: Sender, q: u32)
    requires JobOk(j) && SenderOk(j, s) && s.phase.Waiting? && q < |j.chunks|
    ensures
      var (s', out) := OnControl(j.id, s, Control(NACK, q, j.id), true);
      if q + WINDOW >= |j.chunks| then out == [DataPacket(j, q)] && s' == s.(phase := s.phase.(resent := true))
      else out == [] && s' == s.(phase := Failed)
  {
    ControlIs(NACK, q, j.id, NACK, j.id);
    ControlIs(NACK, q, j.id, DONE, j.id);
    CacheWindow(j.chunks, |j.chunks|, q);
    CacheSeqNo(j, s, q);
    hide CacheAfter, StartMeta, Put32, Get32, Flat;
  }

  lemma CacheSeqNo(j: Job, s: Sender, q: u32)
    requires JobOk(j) && SenderOk(j, s)
    ensures var k := Find(s.cache, q, 0); k < |s.cache| ==> s.cache[k].seqNo == q
  {
  }

  /** The chunk that was asked for is taken in when it arrives. */
  lemma TakesIn(j: Job, r: Receiver, q: nat)
    requires JobOk(j) && ReceiverOk(j, r) && r.outcome == Running && r.gotStart && q == r.expectedSeq < |j.chunks|
    ensures
      var r' := Receive(r, DataPacket(j, q), true).0;
      r'.expectedSeq == q + 1 && r'.file == r.file + Stripped(j.id, j.chunks[q]) && FirstMissing(j, r', q + 1)
  {
    assert j.chunks[q] in j.chunks;
    StrippedSize(j.id, j.chunks[q]);
    KeptSnoc(j, q);
    hide Flat, Kept, Stripped;
  }

  /** The three steps: something makes the receiver ask, the sender reads the request, and the receiver
      reads the answer. */
  function Recovery(j: Job, p: Packet, q: nat): seq<Step>
    requires JobOk(j) && q < |j.chunks|
  {
    [ReceiverReads(p, true), SenderReads(Control(NACK, q, j.id), true), ReceiverReads(DataPacket(j, q), true)]
  }

  lemma RunThree(j: Job, channel: seq<byte>, steps: seq<Step>, a: Step, b: Step, c: Step)
    requires JobOk(j)
    ensures Run(j, channel, steps + [a, b, c]) == Apply(Apply(Apply(Run(j, channel, steps), a), b), c)
  {
    hide Apply;
    RunTwo(j, channel, steps, a, b);
    assert (steps + [a, b, c])[..|steps| + 2] == steps + [a, b];
  }

  /** One round of recovery, from every reachable state: the sender waits, chunk q is missing and among the
      last 256, and a packet arrives that shows it. The receiver asks, the sender sends exactly that chunk
      again, and the receiver takes it in, behind what it has. */
  lemma Recovers(j: Job, channel: seq<byte>, steps: seq<Step>, p: Packet, q: nat)
    requires JobOk(j) && q < |j.chunks| <= q + WINDOW
    requires
      var s := Run(j, channel, steps);
      && s.sender.phase.Waiting? && p in s.net
      && FirstMissing(j, s.receiver, q) && Asks(j, s.receiver, q, Reads(p, true))
    ensures
      var s, s' := Run(j, channel, steps), Run(j, channel, steps + Recovery(j, p, q));
      && s'.receiver.file == s.receiver.file + Stripped(j.id, j.chunks[q]) && FirstMissing(j, s'.receiver, q + 1)
      && s'.sender.phase.Waiting? && s'.sender.phase.resent
  {
    hide Run, Apply, Inv, FirstMissing, Asks, StartMeta, Flat, Stripped;
    RunOk(j, channel, steps);
    RunThree(j, channel, steps, ReceiverReads(p, true), SenderReads(Control(NACK, q, j.id), true),
      ReceiverReads(DataPacket(j, q), true));
    AskStep(Run(j, channel, steps), p, q);
    var s1 := Apply(Run(j, channel, steps), ReceiverReads(p, true));
    AnswerStep(s1, q);
    TakeStep(Apply(s1, SenderReads(Control(NACK, q, j.id), true)), q);
  }

  /** The receiver runs, has not taken in chunk q, and takes no other before it. */
  predicate WaitsFor(r: Receiver, q: nat) {
    r.outcome == Running && r.gotStart && r.expectedSeq == q
  }

  lemma AskStep(s: System, p: Packet, q: nat)
    requires Inv(s) && p in s.net && q < |s.job.chunks|
    requires FirstMissing(s.job, s.receiver, q) && Asks(s.job, s.receiver, q, Reads(p, true))
    ensures s.sender.seqNo <= |s.job.chunks| && |s.sender.cache| == WINDOW
    ensures
      var s1 := Apply(s, ReceiverReads(p, true));
      && Inv(s1) && s1.job == s.job && s1.sender == s.sender && Control(NACK, q, s.job.id) in s1.net
      && WaitsFor(s1.receiver, q) && s1.receiver.file == s.receiver.file
  {
    hide Inv, Published, ReceiverOk, SenderOk, FirstMissing, StartMeta, Receive, Flat, Asks;
    StepOk(s, ReceiverReads(p, true));
    assert JobOk(s.job) && ReceiverOk(s.job, s.receiver) && SenderOk(s.job, s.sender) && NetOk(s) by { InvHas(s); }
    TurnAsks(s.job, s.receiver, s.sender.seqNo, Reads(p, true), q);
    StillRuns(s.job, s.receiver, p, q);
  }

  lemma InvHas(s: System)
    requires Inv(s)
    ensures JobOk(s.job) && SenderOk(s.job, s.sender) && ReceiverOk(s.job, s.receiver)
    ensures s.sender.seqNo <= |s.job.chunks| && |s.sender.cache| == WINDOW && NetOk(s)
  {
  }

  lemma AnswerStep(s: System, q: nat)
    requires Inv(s) && s.sender.phase.Waiting? && q < |s.job.chunks| <= q + WINDOW
    requires Control(NACK, q, s.job.id) in s.net
    ensures s.sender.seqNo <= |s.job.chunks| && |s.sender.cache| == WINDOW
    ensures
      var s1 := Apply(s, SenderReads(Control(NACK, q, s.job.id), true));
      && Inv(s1) && s1.job == s.job && s1.receiver == s.receiver && DataPacket(s.job, q) in s1.net
      && s1.sender.phase.Waiting? && s1.sender.phase.resent
  {
    InvHas(s);
    hide Inv, ReceiverOk, SenderOk, StartMeta, OnControl, Flat, NetOk;
    StepOk(s, SenderReads(Control(NACK, q, s.job.id), true));
    Answers(s.job, s.sender, q);
  }

  lemma TakeStep(s: System, q: nat)
    requires Inv(s) && q < |s.job.chunks| && DataPacket(s.job, q) in s.net && WaitsFor(s.receiver, q)
    ensures s.sender.seqNo <= |s.job.chunks| && |s.sender.cache| == WINDOW
    ensures
      var s1 := Apply(s, ReceiverReads(DataPacket(s.job, q), true));
      && s1.receiver.file == s.receiver.file + Stripped(s.job.id, s.job.chunks[q])
      && FirstMissing(s.job, s1.receiver, q + 1) && s1.sender == s.sender
  {
    InvHas(s);
    hide Inv, ReceiverOk, SenderOk, StartMeta, Receive, Flat, Stripped, NetOk;
    TakesIn(s.job, s.receiver, q);
  }

  lemma StillRuns(j: Job, r: Receiver, p: Packet, q: nat)
    requires JobOk(j) && ReceiverOk(j, r) && FirstMissing(j, r, q) && q < |j.chunks| && Asks(j, r, q, Reads(p, true))
    ensures
      var r' := Receive(r, p, true).0;
      WaitsFor(r', q) && r'.file == r.file
  {
    MissingIs(j, r);
    OneFirstMissing(j, r, q, r.expectedSeq);
    hide Flat, Kept, OnData, OnEnd, ReceiverOk, StartMeta;
    if p == EndPacket(j) {
      EndAsks(j, r);
    } else {
      var i: nat :| i < |j.chunks| && q < i && p == DataPacket(j, i);
      DataAsks(j, r, i, true);
    }
  }
}
