/** What acknowledgements say: every data segment that arrives is acknowledged, also one that was there
    before, and the time stamp that comes back is that of a real transmission of that number. */
module KcpEcho {
  import opened Word32
  import opened KcpWire
  import opened KcpEndpoint
  import opened KcpInvariant
  import opened KcpMessages
  import opened KcpDirection
  import opened KcpSystem
  import opened KcpRuns
  import opened KcpAcks
  import opened KcpProgress

  // ---- Every data segment is acknowledged ----

  /** A data segment not beyond the receive window. */
  predicate Receivable(s: Side, t: Tagged) {
    t.w.cmd == CMD_PUSH && t.sn < s.rnxt + s.k.cfg.rcvWnd
  }

  lemma SegOwes(s: Side, peer: Side, inn: set<Packet>, out: set<Packet>, p: Packet, t: Tagged)
    requires Pair(s, peer, inn, out) && p in inn && t in p.segs && Close(t, s)
    ensures s.k.ackList <= InputTagged(s, t).k.ackList
    ensures Receivable(s, t) ==> InputTagged(s, t).k.ackList == s.k.ackList + [Ack(t.w.sn, t.w.ts)]
  {
    UnaFrame(s.k, t.w);
    var k1 := Shrink(s.k.(rmtWnd := t.w.wnd, sndBuf := DropBefore(s.k.sndBuf, t.w.una)));
    InWindowIs(s, peer, inn, out, p, t);
    hide Pair, InputSeg, InputCmd, Shrink, Close, TimeDiff, Add;
    if t.w.cmd == CMD_ACK { AckFrame(k1, t.w); } else { PushFrame(k1, t.w); }
  }

  /** The comparison of words agrees with that of numbers. */
  lemma InWindowIs(s: Side, peer: Side, inn: set<Packet>, out: set<Packet>, p: Packet, t: Tagged)
    requires Pair(s, peer, inn, out) && p in inn && t in p.segs && Close(t, s)
    ensures Receivable(s, t) ==> TimeDiff(t.w.sn, Add(s.k.rcvNxt, s.k.cfg.rcvWnd)) < 0
  {
    if Receivable(s, t) {
      assert DataTrue(t, Stream(peer.k.cfg.Mss(), peer.sent), peer.nxt);
      assert ReceiverOf(s).Valid(s.k.cfg.rcvWnd);
      var end := s.rnxt + s.k.cfg.rcvWnd;
      AddWrap(s.rnxt, s.k.cfg.rcvWnd);
      TimeDiffWrap(t.sn, end);
      hide Pair, Wrap, TimeDiff, Add, Stream, EndpointOk, InboxOk, WindowOk;
    }
  }

  lemma {:induction false} SegsOwe(s: Side, peer: Side, inn: set<Packet>, out: set<Packet>, p: Packet,
      ts: seq<Tagged>, t: Tagged)
    requires Pair(s, peer, inn, out) && p in inn && Fresh(p, s) && ts <= p.segs
    ensures t in ts && Receivable(s, t) ==> Ack(t.w.sn, t.w.ts) in InputTaggedAll(s, ts).k.ackList
    ensures s.rnxt <= InputTaggedAll(s, ts).rnxt && InputTaggedAll(s, ts).k.cfg == s.k.cfg
    decreases |ts|
  {
    hide Pair, InputTagged, Fresh, Close, Inputs, InputSegs;
    if ts != [] {
      var init, last := ts[..|ts| - 1], ts[|ts| - 1];
      var s1 := InputTaggedAll(s, init);
      assert ts == init + [last];
      SegsOwe(s, peer, inn, out, p, init, t);
      StaysClose(s, peer, inn, out, p, init, last);
      SegOwes(s1, peer, inn, out, p, last);
      InputTaggedKeeps(s1, peer, inn, out, p, last);
      InputsCfg(s1.k, InputTagged(s1, last).k);
      QueueGrows(s1, peer, inn, out, last);
    }
  }

  lemma QueueGrows(s: Side, peer: Side, inn: set<Packet>, out: set<Packet>, t: Tagged)
    requires Pair(s, peer, inn, out)
    ensures |s.k.rcvQueue| <= |InputTagged(s, t).k.rcvQueue|
  {
    InputSegOk(s.k, t.w);
    hide EndpointOk, InputSeg, Inputs;
  }

  /** The acknowledgement of what was owed, in some datagram of the next flush. */
  predicate Acknowledges(k: Kcb, sn: u32, ts: u32)
    requires EndpointOk(k)
  {
    exists d <- FlushOutput(k), w <- Parse(k.cfg.conv, d).0 :: w.cmd == CMD_ACK && w.sn == sn && w.ts == ts
  }

  lemma OwedIsSent(k: Kcb, a: Ack)
    requires EndpointOk(k) && k.updated && a in k.ackList
    ensures Acknowledges(k, a.sn, a.ts)
  {
    FlushSegsFit(k);
    var i :| 0 <= i < |k.ackList| && k.ackList[i] == a;
    var w := AckSegs(k)[i];
    assert w == FlushSegs(k)[i] && w.cmd == CMD_ACK && w.sn == a.sn && w.ts == a.ts;
    hide Parse, EndpointOk, FlushOutput, FlushSegs, Filled, AckSegs;
    FlushOutputDecodes(k);
    Carried(k.cfg.conv, FlushOutput(k), w);
  }

  lemma DeliveryOwes(s: Side, peer: Side, inn: set<Packet>, out: set<Packet>, p: Packet, t: Tagged)
    requires Pair(s, peer, inn, out) && p in inn && Fresh(p, s) && t in p.segs && Receivable(s, t) && s.k.updated
    ensures
      var k := AfterDelivery(s, p).k;
      EndpointOk(k) && Acknowledges(k, t.w.sn, t.w.ts)
  {
    hide Pair, InputTaggedAll, InputSegs, Input, TrackAll, Fresh, AfterInput, Receivable, Acknowledges;
    assert Encodes(s.k.cfg.conv, p) by { PairEncodes(s, peer, inn, out, p); }
    assert EndpointOk(s.k) by { PairOk(s, peer, inn, out); }
    InputTaggedAllKeeps(s, peer, inn, out, p, p.segs);
    SegsOwe(s, peer, inn, out, p, p.segs, t);
    var s1 := InputTaggedAll(s, p.segs);
    hide Encodes, EndpointOk;
    InputDecoded(s.k, p);
    AfterInputFrame(s.k, s1.k, TrackAll(Untag(p.segs)));
    InputOk(s.k, p.bytes);
    StillUpdated(s.k, p.bytes);
    OwedIsSent(Input(s.k, p.bytes).0, Ack(t.w.sn, t.w.ts));
  }

  lemma PairOk(s: Side, peer: Side, inn: set<Packet>, out: set<Packet>)
    requires Pair(s, peer, inn, out)
    ensures EndpointOk(s.k)
  {
  }

  lemma StillUpdated(k: Kcb, b: seq<byte>)
    requires EndpointOk(k)
    ensures Input(k, b).0.updated == k.updated
  {
    if |b| >= OVERHEAD {
      SegsUpdated(k, Parse(k.cfg.conv, b).0);
      hide EndpointOk, Parse, InputSegs, TrackAll, GrowWindow, CountSkipped, TimeDiff;
    }
  }

  lemma {:induction false} SegsUpdated(k: Kcb, segs: seq<WireSeg>)
    ensures InputSegs(k, segs).updated == k.updated
    decreases |segs|
  {
    if segs != [] {
      hide InputSeg;
      SegsUpdated(k, segs[..|segs| - 1]);
      SegUpdated(InputSegs(k, segs[..|segs| - 1]), segs[|segs| - 1]);
    }
  }

  lemma SegUpdated(k: Kcb, w: WireSeg)
    ensures InputSeg(k, w).updated == k.updated
  {
    hide DropBefore, InputCmd;
    CmdUpdated(Shrink(k.(rmtWnd := w.wnd, sndBuf := DropBefore(k.sndBuf, w.una))), w);
  }

  lemma CmdUpdated(k: Kcb, w: WireSeg)
    ensures InputCmd(k, w).updated == k.updated
  {
    UpdateAckFrame(k, TimeDiff(k.current, w.ts));
    hide UpdateAck, DropOne, MoveReady, Insert, TimeDiff, Add;
  }

  /** In every run, at either side: whatever datagram arrives, each of its data segments inside the receive
      window, new or not, is acknowledged by the next flush, with its number and its time stamp. */
  lemma EveryPushAcked(cfgA: Config, cfgB: Config, steps: seq<Step>, p: Packet, t: Tagged)
    requires cfgA.conv == cfgB.conv && t in p.segs
    ensures
      var z := Reached(cfgA, cfgB, steps);
      && (CallAllowed(z.b, Deliver(p), z.toB) && z.b.k.updated && Receivable(z.b, t) ==>
            var k := AfterDelivery(z.b, p).k; EndpointOk(k) && Acknowledges(k, t.w.sn, t.w.ts))
      && (CallAllowed(z.a, Deliver(p), z.toA) && z.a.k.updated && Receivable(z.a, t) ==>
            var k := AfterDelivery(z.a, p).k; EndpointOk(k) && Acknowledges(k, t.w.sn, t.w.ts))
  {
    ReachedOk(cfgA, cfgB, steps);
    var z := Reached(cfgA, cfgB, steps);
    hide Reached, Pair, Receivable, Acknowledges, AfterDelivery, Fresh;
    PairSymmetric(z.a, z.b, z.toA, z.toB);
    if CallAllowed(z.b, Deliver(p), z.toB) && z.b.k.updated && Receivable(z.b, t) {
      DeliveryOwes(z.b, z.a, z.toB, z.toA, p, t);
    }
    if CallAllowed(z.a, Deliver(p), z.toA) && z.a.k.updated && Receivable(z.a, t) {
      DeliveryOwes(z.a, z.b, z.toA, z.toB, p, t);
    }
  }

  // ---- Time stamps ----

  /** The numbers and time stamps of the segments of one kind in these datagrams. */
  function Stamps(cmd: byte, ps: set<Packet>): set<Ack> {
    set p, t | p in ps && t in p.segs && t.w.cmd == cmd :: Ack(t.w.sn, t.w.ts)
  }

  function Owed(s: Side): set<Ack> {
    set a | a in s.k.ackList
  }

  /** What one side has stamped and sent in a run, a if atA holds, else b: the numbers of its data segments,
      with its clock at the time. */
  function SentBy(atA: bool, cfgA: Config, cfgB: Config, steps: seq<Step>): set<Ack>
    decreases |steps|
  {
    if steps == [] then {}
    else
      var init, step := steps[..|steps| - 1], steps[|steps| - 1];
      SentBy(atA, cfgA, cfgB, init) + SentAt(atA, Reached(cfgA, cfgB, init), step)
  }

  /** What it stamps in one step. */
  function SentAt(atA: bool, z: System, step: Step): set<Ack>
    requires EndpointOk(z.a.k) && EndpointOk(z.b.k)
  {
    if !Allowed(z, step) then {}
    else if atA && step.AtA? then Stamps(CMD_PUSH, After(z.a, step.c).1)
    else if !atA && step.AtB? then Stamps(CMD_PUSH, After(z.b, step.c).1)
    else {}
  }

  /** All that is on its way from a side, all its peer owes, and all that comes back, was stamped by it. */
  predicate Echoed(from: set<Packet>, peer: Side, back: set<Packet>, sent: set<Ack>) {
    Stamps(CMD_PUSH, from) <= sent && Owed(peer) <= sent && Stamps(CMD_ACK, back) <= sent
  }

  /** What a flush stamps. */
  lemma FlushStamps(s: Side)
    requires EndpointOk(s.k)
    ensures Stamps(CMD_ACK, FlushPackets(s)) <= Owed(s)
    ensures forall x <- Stamps(CMD_PUSH, FlushPackets(s)) :: x.ts == s.k.current
  {
    FlushSegsFit(s.k);
    FilledOk(s.k);
    hide EndpointOk, Filled;
    forall p, t | p in FlushPackets(s) && t in p.segs
      ensures t.w.cmd == CMD_ACK ==> Ack(t.w.sn, t.w.ts) in s.k.ackList
      ensures t.w.cmd == CMD_PUSH ==> t.w.ts == s.k.current
    {
      PacketSegs(s, p, t);
      SegStamp(s.k, t.w);
    }
  }

  lemma PacketSegs(s: Side, p: Packet, t: Tagged)
    requires EndpointOk(s.k) && p in FlushPackets(s) && t in p.segs
    ensures SmallFrgs(Filled(s.k).sndBuf) && t.w in FlushSegs(s.k)
  {
    hide EndpointOk, Filled, FlushSegs, SmallFrgs, Packets, SnTag;
    FlushSegsFit(s.k);
    TagsFit(s);
    PacketsFrom(s.k.cfg.conv, s.k.cfg.mtu, TaggedFlush(s), p);
    var i :| 0 <= i < |TaggedFlush(s)| && TaggedFlush(s)[i] == t;
    assert t.w == FlushSegs(s.k)[i];
  }

  lemma SegStamp(k: Kcb, w: WireSeg)
    requires EndpointOk(k) && SmallFrgs(Filled(k).sndBuf) && w in FlushSegs(k)
    ensures w.cmd == CMD_ACK ==> Ack(w.sn, w.ts) in k.ackList
    ensures w.cmd == CMD_PUSH ==> w.ts == k.current
  {
    FilledOk(k);
    hide EndpointOk, Filled, Probe;
    var f := Filled(k);
    if w in AckSegs(k) {
      var i :| 0 <= i < |k.ackList| && AckSegs(k)[i] == w;
    } else if w in PushSegs(f, f.sndBuf) {
      PushStamp(f, f.sndBuf, w);
    }
  }

  lemma {:induction false} PushStamp(k: Kcb, buf: seq<OutSeg>, w: WireSeg)
    requires SmallFrgs(buf) && w in PushSegs(k, buf)
    ensures w.cmd == CMD_PUSH && w.ts == k.current
    decreases |buf|
  {
    hide WhySend;
    var n := |buf| - 1;
    if w in PushSegs(k, buf[..n]) { PushStamp(k, buf[..n], w); }
  }

  // ---- Every run ----

  lemma StampsMore(cmd: byte, a: set<Packet>, b: set<Packet>)
    ensures Stamps(cmd, a + b) == Stamps(cmd, a) + Stamps(cmd, b)
  {
  }

  lemma StampsLess(cmd: byte, a: set<Packet>, b: set<Packet>)
    ensures Stamps(cmd, a - b) <= Stamps(cmd, a)
  {
  }

  /** What a side owes and acknowledges comes from what arrived. */
  lemma CallEchoes(s: Side, peer: Side, inn: set<Packet>, out: set<Packet>, c: Call, sent: set<Ack>)
    requires Pair(s, peer, inn, out) && CallAllowed(s, c, inn)
    requires Stamps(CMD_PUSH, inn) <= sent && Owed(s) <= sent
    ensures Owed(After(s, c).0) <= sent && Stamps(CMD_ACK, After(s, c).1) <= sent
  {
    hide Pair, EndpointOk, AfterDelivery, FlushPackets, FlushSide, Tick, AfterSend, AfterRecv, Stamps, Fresh;
    PairOk(s, peer, inn, out);
    NoStamps();
    match c
    case DoSend(msg) => SendEchoes(s, msg);
    case DoRecv(len) => RecvEchoes(s, len);
    case DoFlush => FlushEchoes(s);
    case DoUpdate(now) =>
      TickOk(s.k, now);
      TickFrame(s.k, now);
      FlushEchoes(s.(k := Tick(s.k, now).0));
    case Deliver(p) => DeliveryEchoes(s, peer, inn, out, p, sent);
  }

  lemma SendEchoes(s: Side, msg: Message)
    ensures Owed(AfterSend(s, msg)) == Owed(s)
  {
    AfterSendIs(s, msg);
    hide AfterSend;
  }

  lemma RecvEchoes(s: Side, len: int)
    ensures Owed(AfterRecv(s, len)) == Owed(s)
  {
    RecvFrame(s, len);
    hide Recv;
  }

  lemma NoStamps()
    ensures Stamps(CMD_ACK, {}) == {} && Stamps(CMD_PUSH, {}) == {}
  {
  }

  lemma FlushEchoes(s: Side)
    requires EndpointOk(s.k)
    ensures Owed(FlushSide(s)) <= Owed(s) && Stamps(CMD_ACK, FlushPackets(s)) <= Owed(s)
  {
    FlushStamps(s);
    FlushFrame(s.k);
    hide EndpointOk, Flushed, FlushPackets, Stamps, Filled;
    if s.k.updated { FilledOwes(s.k); }
  }

  lemma FilledOwes(k: Kcb)
    requires EndpointOk(k) && k.updated
    ensures Flushed(k).ackList == []
  {
    ProbeFrame(k);
    var p := Probe(k).(ackList := [], askSend := false, askTell := false);
    FillOwes(p, SendWindow(k));
    var f := Filled(k);
    ShrinkCwndFrame(SentOut(f), k.cwnd, AnyFast(f, f.sndBuf), CountTimeouts(f, f.sndBuf) > 0);
    hide EndpointOk, Probe, FillWindow, ShrinkCwnd, AnyFast, CountTimeouts, ResendAll, AnyDead;
  }

  lemma {:induction false} FillOwes(k: Kcb, window: u32)
    ensures FillWindow(k, window).ackList == k.ackList
    decreases |k.sndQueue|
  {
    hide TimeDiff;
    if Fillable(k, window) { FillOwes(FillOne(k), window); }
  }

  lemma DeliveryEchoes(s: Side, peer: Side, inn: set<Packet>, out: set<Packet>, p: Packet, sent: set<Ack>)
    requires Pair(s, peer, inn, out) && p in inn && Fresh(p, s) && Stamps(CMD_PUSH, inn) <= sent && Owed(s) <= sent
    ensures Owed(AfterDelivery(s, p)) <= sent
  {
    hide Pair, InputSegs, Input, TrackAll, Fresh, AfterInput, EndpointOk;
    PairEncodes(s, peer, inn, out, p);
    InputTaggedAllKeeps(s, peer, inn, out, p, p.segs);
    forall t | t in p.segs && t.w.cmd == CMD_PUSH ensures Ack(t.w.sn, t.w.ts) in sent {
      assert Ack(t.w.sn, t.w.ts) in Stamps(CMD_PUSH, inn);
    }
    SegsEcho(s, p.segs, sent);
    hide InputTaggedAll, Encodes, Stamps;
    InputDecoded(s.k, p);
    AfterInputFrame(s.k, InputTaggedAll(s, p.segs).k, TrackAll(Untag(p.segs)));
  }

  lemma {:induction false} SegsEcho(s: Side, ts: seq<Tagged>, sent: set<Ack>)
    requires Owed(s) <= sent && forall t <- ts | t.w.cmd == CMD_PUSH :: Ack(t.w.sn, t.w.ts) in sent
    ensures Owed(InputTaggedAll(s, ts)) <= sent
    decreases |ts|
  {
    hide InputTagged;
    if ts != [] {
      var init, last := ts[..|ts| - 1], ts[|ts| - 1];
      assert ts == init + [last];
      SegsEcho(s, init, sent);
      SegEcho(InputTaggedAll(s, init), last, sent);
    }
  }

  lemma SegEcho(s: Side, t: Tagged, sent: set<Ack>)
    requires Owed(s) <= sent && (t.w.cmd == CMD_PUSH ==> Ack(t.w.sn, t.w.ts) in sent)
    ensures Owed(InputTagged(s, t)) <= sent
  {
    UnaFrame(s.k, t.w);
    var k1 := Shrink(s.k.(rmtWnd := t.w.wnd, sndBuf := DropBefore(s.k.sndBuf, t.w.una)));
    hide InputSeg, InputCmd, Shrink, TimeDiff, Add;
    if t.w.cmd == CMD_ACK { AckFrame(k1, t.w); } else { PushFrame(k1, t.w); }
  }

  /** One step, for what a stamped and for what b stamped. */
  lemma StepEchoes(z: System, step: Step, sentA: set<Ack>, sentB: set<Ack>)
    requires Inv(z) && EndpointOk(z.a.k) && EndpointOk(z.b.k) && Allowed(z, step)
    requires Echoed(z.toB, z.b, z.toA, sentA) && Echoed(z.toA, z.a, z.toB, sentB)
    ensures
      var z' := Stepped(z, step);
      && Echoed(z'.toB, z'.b, z'.toA, sentA + SentAt(true, z, step))
      && Echoed(z'.toA, z'.a, z'.toB, sentB + SentAt(false, z, step))
  {
    hide Pair, EndpointOk, After, Stamps, Owed, CallAllowed;
    PairSymmetric(z.a, z.b, z.toA, z.toB);
    match step
    case AtA(c) =>
      CallEchoes(z.a, z.b, z.toA, z.toB, c, sentB);
      StampsMore(CMD_PUSH, z.toB, After(z.a, c).1);
      StampsMore(CMD_ACK, z.toB, After(z.a, c).1);
    case AtB(c) =>
      CallEchoes(z.b, z.a, z.toB, z.toA, c, sentA);
      StampsMore(CMD_PUSH, z.toA, After(z.b, c).1);
      StampsMore(CMD_ACK, z.toA, After(z.b, c).1);
    case Lose(la, lb) =>
      StampsLess(CMD_ACK, z.toA, la);
      StampsLess(CMD_PUSH, z.toA, la);
      StampsLess(CMD_ACK, z.toB, lb);
      StampsLess(CMD_PUSH, z.toB, lb);
  }

  /** In every run, for either side: every acknowledgement that is owed to it or on its way back carries the
      number and the time stamp of a data segment it really sent. So what it takes for a round trip time
      is the time since one of its transmissions of that number. */
  lemma {:induction false} EchoedTimes(cfgA: Config, cfgB: Config, steps: seq<Step>)
    requires cfgA.conv == cfgB.conv
    ensures
      var z := Reached(cfgA, cfgB, steps);
      && Echoed(z.toB, z.b, z.toA, SentBy(true, cfgA, cfgB, steps))
      && Echoed(z.toA, z.a, z.toB, SentBy(false, cfgA, cfgB, steps))
    decreases |steps|
  {
    hide Echoed, Stamps, SentAt, Allowed, EndpointOk, Stepped;
    if steps == [] {
      NothingSent(cfgA, cfgB);
    } else {
      var init, step := steps[..|steps| - 1], steps[|steps| - 1];
      EchoedTimes(cfgA, cfgB, init);
      ReachedOk(cfgA, cfgB, init);
      LastStep(cfgA, cfgB, steps);
      var z := Reached(cfgA, cfgB, init);
      hide Reached, Inv;
      var sentA, sentB := SentBy(true, cfgA, cfgB, init), SentBy(false, cfgA, cfgB, init);
      if Allowed(z, step) {
        StepEchoes(z, step, sentA, sentB);
      } else {
        NothingAt(z, step);
        assert sentA + {} == sentA && sentB + {} == sentB;
      }
    }
  }

  lemma NothingAt(z: System, step: Step)
    requires EndpointOk(z.a.k) && EndpointOk(z.b.k) && !Allowed(z, step)
    ensures SentAt(true, z, step) == {} && SentAt(false, z, step) == {}
  {
  }

  lemma NothingSent(cfgA: Config, cfgB: Config)
    ensures
      var z := Reached(cfgA, cfgB, []);
      Echoed(z.toB, z.b, z.toA, {}) && Echoed(z.toA, z.a, z.toB, {})
  {
  }

  lemma LastStep(cfgA: Config, cfgB: Config, steps: seq<Step>)
    requires steps != []
    ensures
      var z, step := Reached(cfgA, cfgB, steps[..|steps| - 1]), steps[|steps| - 1];
      Reached(cfgA, cfgB, steps) == if Allowed(z, step) then Stepped(z, step) else z
  {
    hide Allowed, Stepped, EndpointOk;
  }

  /** A stamp is the sender's clock when it sent the segment. */
  lemma StampIsClock(s: Side, c: Call)
    requires EndpointOk(s.k)
    ensures forall x <- Stamps(CMD_PUSH, After(s, c).1) :: x.ts == After(s, c).0.k.current
  {
    hide EndpointOk, Stamps, FlushPackets, Flushed, Tick, AfterSend, AfterRecv, AfterDelivery;
    NoStamps();
    match c
    case DoFlush => FlushStamps(s); FlushClock(s.k);
    case DoUpdate(now) =>
      TickOk(s.k, now);
      FlushStamps(s.(k := Tick(s.k, now).0));
      FlushClock(Tick(s.k, now).0);
    case _ =>
  }

  lemma FlushClock(k: Kcb)
    requires EndpointOk(k)
    ensures Flushed(k).current == k.current
  {
    FilledOk(k);
    var f := Filled(k);
    ShrinkCwndFrame(SentOut(f), k.cwnd, AnyFast(f, f.sndBuf), CountTimeouts(f, f.sndBuf) > 0);
    hide EndpointOk, Filled, ShrinkCwnd, AnyFast, CountTimeouts, ResendAll, AnyDead;
  }
}
