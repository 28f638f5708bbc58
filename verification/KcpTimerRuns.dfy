/** KCP's retransmission timers over whole runs: how a segment's wait grows from timeout to timeout
    in each of the no-delay modes, and that no segment is due again right after a flush. */
module KcpTimerRuns {
  import opened Word32
  import opened KcpWire
  import opened KcpEndpoint
  import opened KcpInvariant
  import opened KcpSystem
  import opened KcpRuns
  import opened KcpTimers

  // ---- One segment through many flushes ----

  /** A flush as one segment sees it: the endpoint, and the skips counted since the last one. */
  datatype Look = Look(k: Kcb, skips: u32)

  function Through(s: OutSeg, looks: seq<Look>): OutSeg
    decreases |looks|
  {
    if looks == [] then s
    else
      var l := looks[|looks| - 1];
      Resend(l.k, Through(s, looks[..|looks| - 1]).(fastAck := l.skips))
  }

  /** How many of the flushes found the segment's time had come. */
  function Timeouts(s: OutSeg, looks: seq<Look>): nat
    decreases |looks|
  {
    if looks == [] then 0
    else
      var l, init := looks[|looks| - 1], looks[..|looks| - 1];
      Timeouts(s, init) + (if WhySend(l.k, Through(s, init).(fastAck := l.skips)).Timeout? then 1 else 0)
  }

  /** x grown by half of itself, rounded down, n times. */
  function Halves(n: nat, x: nat): (r: nat)
    ensures r >= x
  {
    if n == 0 then x else Halves(n - 1, x) + Halves(n - 1, x) / 2
  }

  lemma RtoBounds(k: Kcb)
    requires RtoOk(k)
    ensures 30 <= k.cfg.minRto <= k.rto <= RTO_MAX
  {
    assert k.cfg.Valid();
  }

  /** Half the endpoint's timeout, summed over the flushes that found the segment's time had come. */
  function Added(s: OutSeg, looks: seq<Look>): nat
    requires forall l <- looks :: RtoOk(l.k)
    decreases |looks|
  {
    if looks == [] then 0
    else
      var l, init := looks[|looks| - 1], looks[..|looks| - 1];
      assert l in looks && forall x <- init :: x in looks;
      RtoBounds(l.k);
      Added(s, init) + (if WhySend(l.k, Through(s, init).(fastAck := l.skips)).Timeout? then l.k.rto / 2 else 0)
  }

  /** One flush: every resend counts a transmission; the wait changes at a timeout only. It then grows
      by the larger of itself and the endpoint's timeout, by half of itself, or by half the
      endpoint's timeout, for no-delay mode 0, 1, and 2 or more. */
  lemma OneLook(k: Kcb, t: OutSeg)
    requires RtoOk(k) && 1 <= t.xmit < MODULUS - 1 && t.rto < HALF
    ensures
      var r := Resend(k, t);
      && t.xmit <= r.xmit <= t.xmit + 1 && (WhySend(k, t).Timeout? ==> r.xmit == t.xmit + 1)
      && r.rto ==
         if !WhySend(k, t).Timeout? then t.rto
         else if k.cfg.noDelay == 0 then t.rto + (if t.rto < k.rto then k.rto else t.rto)
         else if k.cfg.noDelay == 1 then t.rto + t.rto / 2
         else t.rto + k.rto / 2
  {
    RtoBounds(k);
    if !WhySend(k, t).Timeout? {
      NoTimeout(k, t);
    } else {
      hide WhySend;
      assert Wrap(k.rto) == k.rto && Signed(t.rto) == t.rto;
      assert Wrap(k.rto / 2) == k.rto / 2 && Wrap(t.rto / 2) == t.rto / 2;
      hide Wrap, Signed;
    }
  }

  /** So a timeout at least doubles a wait in mode 0, never in mode 1, and in mode 2 or more exactly
      when the wait is at most half the endpoint's timeout. */
  lemma WhenDoubled(k: Kcb, t: OutSeg)
    requires RtoOk(k) && 1 <= t.xmit < MODULUS - 1 && 0 < t.rto < HALF && WhySend(k, t).Timeout?
    ensures 2 * t.rto <= Resend(k, t).rto <==> k.cfg.noDelay == 0 || (k.cfg.noDelay >= 2 && t.rto <= k.rto / 2)
  {
    OneLook(k, t);
    hide Resend;
  }

  /** Any number of flushes, with or without early resends, in mode 0: n timeouts double the wait at
      least n times, and at most double the larger of it and the greatest timeout n times. */
  lemma {:induction false} BackoffDoubles(s: OutSeg, looks: seq<Look>)
    requires 1 <= s.xmit && s.xmit + |looks| < MODULUS
    requires forall l <- looks :: RtoOk(l.k) && l.k.cfg.noDelay == 0
    requires Doubled(Timeouts(s, looks), if s.rto < RTO_MAX then RTO_MAX else s.rto) < HALF
    ensures
      var t, n := Through(s, looks), Timeouts(s, looks);
      && s.xmit + n <= t.xmit <= s.xmit + |looks|
      && Doubled(n, s.rto) <= t.rto <= Doubled(n, if s.rto < RTO_MAX then RTO_MAX else s.rto)
    decreases |looks|
  {
    hide Resend, WhySend, RtoOk;
    if looks != [] {
      var l, init := looks[|looks| - 1], looks[..|looks| - 1];
      assert l in looks && forall x <- init :: x in looks;
      BackoffDoubles(s, init);
      OneLook(l.k, Through(s, init).(fastAck := l.skips));
      RtoBounds(l.k);
    }
  }

  /** In mode 1, in which this repository opens its connections, n timeouts grow the wait by half of
      itself exactly n times, whatever the samples, as long as the wait before the last of them is
      less than half the number space. */
  lemma {:induction false} BackoffHalves(s: OutSeg, looks: seq<Look>)
    requires 1 <= s.xmit && s.xmit + |looks| < MODULUS
    requires forall l <- looks :: RtoOk(l.k) && l.k.cfg.noDelay == 1
    requires Halves(if Timeouts(s, looks) == 0 then 0 else Timeouts(s, looks) - 1, s.rto) < HALF
    ensures
      var t, n := Through(s, looks), Timeouts(s, looks);
      && s.xmit + n <= t.xmit <= s.xmit + |looks|
      && t.rto == Halves(n, s.rto)
    decreases |looks|
  {
    hide Resend, WhySend, RtoOk;
    if looks != [] {
      var l, init := looks[|looks| - 1], looks[..|looks| - 1];
      assert l in looks && forall x <- init :: x in looks;
      BackoffHalves(s, init);
      var t := Through(s, init).(fastAck := l.skips);
      if WhySend(l.k, t).Timeout? { OneLook(l.k, t); } else { NoTimeout(l.k, t); }
    }
  }

  /** Without a timeout the wait stays, however long it is. */
  lemma NoTimeout(k: Kcb, t: OutSeg)
    requires 1 <= t.xmit < MODULUS - 1 && !WhySend(k, t).Timeout?
    ensures Resend(k, t).rto == t.rto && t.xmit <= Resend(k, t).xmit <= t.xmit + 1
  {
    hide TimeDiff;
  }

  /** In mode 2 or more the wait grows by exactly half the endpoint's timeout each time. */
  lemma {:induction false} BackoffAdds(s: OutSeg, looks: seq<Look>)
    requires 1 <= s.xmit && s.xmit + |looks| < MODULUS
    requires forall l <- looks :: RtoOk(l.k) && l.k.cfg.noDelay >= 2
    requires s.rto + Added(s, looks) < HALF
    ensures
      var t, n := Through(s, looks), Timeouts(s, looks);
      && s.xmit + n <= t.xmit <= s.xmit + |looks|
      && t.rto == s.rto + Added(s, looks)
    decreases |looks|
  {
    hide Resend, WhySend, RtoOk;
    if looks != [] {
      var l, init := looks[|looks| - 1], looks[..|looks| - 1];
      assert l in looks && forall x <- init :: x in looks;
      RtoBounds(l.k);
      BackoffAdds(s, init);
      OneLook(l.k, Through(s, init).(fastAck := l.skips));
    }
  }

  /** x added n times. */
  function TimesOf(n: nat, x: nat): nat {
    if n == 0 then 0 else TimesOf(n - 1, x) + x
  }

  /** That is, by n times half a timeout between the least and the greatest. */
  lemma {:induction false} AddedBounds(s: OutSeg, looks: seq<Look>, least: nat)
    requires forall l <- looks :: RtoOk(l.k) && least <= l.k.cfg.minRto
    ensures
      var n := Timeouts(s, looks);
      TimesOf(n, least / 2) <= Added(s, looks) <= TimesOf(n, RTO_MAX / 2)
    decreases |looks|
  {
    hide Through, WhySend, RtoOk;
    if looks != [] {
      var l, init := looks[|looks| - 1], looks[..|looks| - 1];
      assert l in looks && forall x <- init :: x in looks;
      RtoBounds(l.k);
      AddedBounds(s, init, least);
    }
  }

  // ---- A whole endpoint through every call ----

  lemma {:induction false} DropBeforeTimers(cfg: Config, buf: seq<OutSeg>, una: u32)
    requires forall s <- buf :: SegTimer(cfg, s)
    ensures forall s <- DropBefore(buf, una) :: SegTimer(cfg, s)
  {
    hide SegTimer, TimeDiff;
    if buf != [] { DropBeforeTimers(cfg, buf[1..], una); }
  }

  lemma {:induction false} DropOneTimers(cfg: Config, buf: seq<OutSeg>, sn: u32)
    requires forall s <- buf :: SegTimer(cfg, s)
    ensures forall s <- DropOne(buf, sn) :: SegTimer(cfg, s)
  {
    hide SegTimer, TimeDiff;
    if buf != [] {
      assert forall s <- buf[1..] :: s in buf;
      DropOneTimers(cfg, buf[1..], sn);
    }
  }

  lemma {:induction false} CountSkippedTimers(cfg: Config, buf: seq<OutSeg>, sn: u32, ts: u32)
    requires forall s <- buf :: SegTimer(cfg, s)
    ensures forall s <- CountSkipped(buf, sn, ts) :: SegTimer(cfg, s)
  {
    hide TimeDiff;
    if buf != [] {
      assert SegTimer(cfg, buf[0]) && SegTimer(cfg, Skipped(buf[0], sn, ts));
      hide SegTimer, Skipped;
      assert forall s <- buf[1..] :: s in buf;
      CountSkippedTimers(cfg, buf[1..], sn, ts);
    }
  }

  lemma {:induction false} FillTimers(k: Kcb, window: u32)
    requires TimersOk(k)
    ensures TimersOk(FillWindow(k, window)) && FillWindow(k, window).current == k.current
    decreases |k.sndQueue|
  {
    hide TimeDiff;
    if Fillable(k, window) {
      FillTimers(FillOne(k), window);
    }
  }

  lemma FilledTimers(k: Kcb)
    requires TimersOk(k)
    ensures TimersOk(Filled(k)) && Filled(k).current == k.current && Filled(k).cfg == k.cfg
  {
    ProbeFrame(k);
    ProbeTimer(k);
    hide Probe, FillWindow, SegTimer;
    FillTimers(Probe(k).(ackList := [], askSend := false, askTell := false), SendWindow(k));
    FillFrame(Probe(k).(ackList := [], askSend := false, askTell := false), SendWindow(k));
  }

  /** The window after a flush is the filled one, looked at segment by segment. */
  lemma FlushedIs(k: Kcb)
    requires k.updated
    ensures
      var f := Filled(k);
      Flushed(k) == SentOut(f).(ssthresh := Flushed(k).ssthresh, cwnd := Flushed(k).cwnd, incr := Flushed(k).incr)
  {
    var f := Filled(k);
    ShrinkCwndFrame(SentOut(f), k.cwnd, AnyFast(f, f.sndBuf), CountTimeouts(f, f.sndBuf) > 0);
    hide Filled, ShrinkCwnd, SentOut, AnyFast, CountTimeouts;
  }

  lemma FlushTimers(k: Kcb)
    requires TimersOk(k)
    ensures TimersOk(Flushed(k))
  {
    if k.updated {
      var f := Filled(k);
      FilledTimers(k);
      FlushedIs(k);
      forall i | 0 <= i < |f.sndBuf| ensures SegTimer(k.cfg, Resend(f, f.sndBuf[i])) {
        assert f.sndBuf[i] in f.sndBuf;
        ResendTimer(f, f.sndBuf[i]);
      }
      hide Flushed, Filled, SegTimer, CountTimeouts, AnyDead;
    }
  }

  lemma UpdateAckTimers(k: Kcb, rtt: i32)
    requires TimersOk(k) && rtt >= 0
    ensures TimersOk(UpdateAck(k, rtt))
  {
    UpdateAckFrame(k, rtt);
    RtoInRange(k, rtt);
    SmoothedRtt(k, rtt);
    hide UpdateAck, SegTimer;
  }

  lemma InputSegTimers(k: Kcb, w: WireSeg)
    requires TimersOk(k)
    ensures TimersOk(InputSeg(k, w)) && InputSeg(k, w).cfg == k.cfg
  {
    hide SegTimer, DropBefore, InputCmd;
    DropBeforeTimers(k.cfg, k.sndBuf, w.una);
    InputCmdTimers(Shrink(k.(rmtWnd := w.wnd, sndBuf := DropBefore(k.sndBuf, w.una))), w);
  }

  lemma InputCmdTimers(k: Kcb, w: WireSeg)
    requires TimersOk(k)
    ensures TimersOk(InputCmd(k, w)) && InputCmd(k, w).cfg == k.cfg
  {
    hide SegTimer, ParseAck, UpdateAck, TimeDiff, MoveReady, Insert, Add;
    if w.cmd == CMD_ACK { AckTimers(k, w); }
  }

  lemma AckTimers(k: Kcb, w: WireSeg)
    requires TimersOk(k) && w.cmd == CMD_ACK
    ensures TimersOk(InputCmd(k, w)) && InputCmd(k, w).cfg == k.cfg
  {
    hide SegTimer, ParseAck, UpdateAck, TimeDiff, ParseData;
    var rtt := TimeDiff(k.current, w.ts);
    UpdateAckFrame(k, rtt);
    if rtt >= 0 { UpdateAckTimers(k, rtt); }
    ParseAckTimers(if rtt >= 0 then UpdateAck(k, rtt) else k, w.sn);
  }

  lemma ParseAckTimers(k: Kcb, sn: u32)
    requires TimersOk(k)
    ensures TimersOk(ParseAck(k, sn)) && ParseAck(k, sn).cfg == k.cfg
  {
    hide SegTimer, DropOne, TimeDiff;
    DropOneTimers(k.cfg, k.sndBuf, sn);
  }

  lemma {:induction false} InputSegsTimers(k: Kcb, segs: seq<WireSeg>)
    requires TimersOk(k)
    ensures TimersOk(InputSegs(k, segs)) && InputSegs(k, segs).cfg == k.cfg
    decreases |segs|
  {
    hide InputSeg, TimersOk;
    if segs != [] {
      InputSegsTimers(k, segs[..|segs| - 1]);
      InputSegTimers(InputSegs(k, segs[..|segs| - 1]), segs[|segs| - 1]);
    }
  }

  lemma InputTimers(k: Kcb, b: seq<byte>)
    requires TimersOk(k)
    ensures TimersOk(Input(k, b).0)
  {
    hide Parse, InputSegs, SegTimer, GrowWindow, CountSkipped, TimeDiff, TrackAll;
    if |b| >= OVERHEAD {
      var segs := Parse(k.cfg.conv, b).0;
      InputSegsTimers(k, segs);
      var newest := TrackAll(segs);
      if newest.Newest? { CountSkippedTimers(k.cfg, InputSegs(k, segs).sndBuf, newest.sn, newest.ts); }
    }
  }

  lemma TickTimers(k: Kcb, now: u32)
    requires TimersOk(k)
    ensures TimersOk(Tick(k, now).0)
  {
    TickFrame(k, now);
    hide Tick, SegTimer;
  }

  lemma CallTimers(s: Side, c: Call)
    requires EndpointOk(s.k) && TimersOk(s.k)
    ensures TimersOk(After(s, c).0.k)
  {
    hide EndpointOk, Input, Tick, Flushed, InputTaggedAll, FlushPackets, SegTimer;
    match c
    case DoSend(msg) =>
    case DoRecv(len) =>
    case DoUpdate(now) =>
      TickTimers(s.k, now);
      FlushTimers(Tick(s.k, now).0);
    case DoFlush => FlushTimers(s.k);
    case Deliver(p) => InputTimers(s.k, p.bytes);
  }

  lemma {:induction false} RunTimers(y: System, steps: seq<Step>)
    requires EndpointOk(y.a.k) && EndpointOk(y.b.k) && TimersOk(y.a.k) && TimersOk(y.b.k)
    ensures TimersOk(Run(y, steps).a.k) && TimersOk(Run(y, steps).b.k)
    decreases |steps|
  {
    hide EndpointOk, TimersOk, After, Allowed;
    if steps != [] {
      var init, step := steps[..|steps| - 1], steps[|steps| - 1];
      RunTimers(y, init);
      var z := Run(y, init);
      match step
      case AtA(c) => CallTimers(z.a, c);
      case AtB(c) => CallTimers(z.b, c);
      case Lose(_, _) =>
    }
  }

  /** In every reachable state a flush leaves no segment due that was sent at most 16 times: the
      next resend of each lies ahead. The timeout itself stays within its bounds. */
  lemma NothingDueAfterFlush(cfgA: Config, cfgB: Config, steps: seq<Step>)
    ensures
      var z := Reached(cfgA, cfgB, steps);
      forall s <- [z.a, z.b] ::
        && s.k.cfg.minRto <= s.k.rto <= RTO_MAX && s.k.srtt >= 0 && ProbeOk(s.k)
        && (s.k.updated ==> forall t <- Flushed(s.k).sndBuf ::
          1 <= t.xmit <= 16 ==> TimeDiff(s.k.current, t.resendTs) < 0)
  {
    CreatedOk(cfgA);
    CreatedOk(cfgB);
    RunTimers(Start(cfgA, cfgB), steps);
    var z := Reached(cfgA, cfgB, steps);
    assert TimersOk(z.a.k) && TimersOk(z.b.k);
    hide Reached, Run, EndpointOk, Flushed, SegTimer, TimeDiff, Created;
    forall s | s in [z.a, z.b] && s.k.updated
      ensures forall t <- Flushed(s.k).sndBuf :: 1 <= t.xmit <= 16 ==> TimeDiff(s.k.current, t.resendTs) < 0
    {
      NotDue(s.k);
    }
  }

  lemma NotDue(k: Kcb)
    requires TimersOk(k) && k.updated
    ensures forall t <- Flushed(k).sndBuf :: 1 <= t.xmit <= 16 ==> TimeDiff(k.current, t.resendTs) < 0
  {
    FlushTimers(k);
    FilledTimers(k);
    FlushedIs(k);
    var f := Filled(k);
    forall t | t in Flushed(k).sndBuf && 1 <= t.xmit <= 16 ensures TimeDiff(k.current, t.resendTs) < 0 {
      var i :| 0 <= i < |f.sndBuf| && t == Resend(f, f.sndBuf[i]);
      assert SegTimer(k.cfg, t);
      DueAfterFlush(f, f.sndBuf[i]);
    }
  }

  // ---- Two samples that overflow ----

  /** An acknowledgement of number 0 stamped 0. */
  function OldAck(conv: u32): seq<byte> {
    EncodeAll(conv, [WireSeg(CMD_ACK, 0, WND_FRAGMENTS, 0, 0, 0, [])])
  }

  /** Half a lap less a bit after the first update, two such acknowledgements: the first sample is
      taken as it is, and the estimate after the second, equal one is 1. */
  lemma SecondSampleOverflows(cfg: Config)
    ensures
      var k0 := Updated(Created(cfg), 0x1800_0000);
      var k1 := Input(k0, OldAck(cfg.conv)).0;
      var k2 := Input(k1, OldAck(cfg.conv)).0;
      k1.srtt == 0x1800_0000 && (7 * k1.srtt + 0x1800_0000) / 8 == 0x1800_0000 && k2.srtt == 1
  {
    FirstUpdate(cfg, 0x1800_0000);
    var k0 := Updated(Created(cfg), 0x1800_0000);
    var k1 := Input(k0, OldAck(cfg.conv)).0;
    hide Updated, Created, Input, OldAck, UpdateAck;
    OneSample(k0);
    OneSample(k1);
    Estimates(k0, k1);
  }

  lemma Estimates(k0: Kcb, k1: Kcb)
    requires k0.srtt == 0 && k1.srtt == 0x1800_0000
    ensures UpdateAck(k0, 0x1800_0000).srtt == 0x1800_0000 && UpdateAck(k1, 0x1800_0000).srtt == 1
  {
  }

  lemma FirstUpdate(cfg: Config, now: u32)
    ensures Updated(Created(cfg), now).current == now && Updated(Created(cfg), now).srtt == 0
      && Updated(Created(cfg), now).cfg == cfg
  {
    var k := Tick(Created(cfg), now).0;
    assert Filled(k) == k.(tsProbe := 0, probeWait := 0);
    ShrinkCwndFrame(SentOut(Filled(k)), k.cwnd, AnyFast(Filled(k), []), false);
    hide ShrinkCwnd, AnyFast;
  }

  /** What that acknowledgement does to the estimate. */
  lemma OneSample(k: Kcb)
    requires k.current < HALF
    ensures
      var k' := Input(k, OldAck(k.cfg.conv)).0;
      k'.srtt == UpdateAck(k, k.current).srtt && k'.current == k.current && k'.cfg == k.cfg
  {
    hide Parse, EncodeAll, InputSeg, InputSegs, UpdateAck, GrowWindow, CountSkipped, TimeDiff, TrackAll;
    var w := WireSeg(CMD_ACK, 0, WND_FRAGMENTS, 0, 0, 0, []);
    DecodeEncode(k.cfg.conv, [w]);
    SmallestGroup([w]);
    OneSeg(k, w);
    OneAck(k, w);
  }

  lemma OneSeg(k: Kcb, w: WireSeg)
    ensures InputSegs(k, [w]) == InputSeg(k, w)
  {
    hide InputSeg;
    assert [w][..0] == [];
  }

  lemma OneAck(k: Kcb, w: WireSeg)
    requires w.cmd == CMD_ACK && w.ts == 0 && k.current < HALF
    ensures InputSeg(k, w).srtt == UpdateAck(k, k.current).srtt && InputSeg(k, w).current == k.current
      && InputSeg(k, w).cfg == k.cfg
  {
    var k1 := Shrink(k.(rmtWnd := w.wnd, sndBuf := DropBefore(k.sndBuf, w.una)));
    assert TimeDiff(k.current, 0) == k.current;
    UpdateAckFrame(k1, k.current);
    SameEstimate(k, k1, k.current);
    hide UpdateAck, DropBefore, DropOne, TimeDiff;
  }

  lemma SameEstimate(k: Kcb, k1: Kcb, rtt: i32)
    requires k1.srtt == k.srtt
    ensures UpdateAck(k1, rtt).srtt == UpdateAck(k, rtt).srtt
  {
  }
}
