/** KCP's timers: when ikcp_update flushes, and why sleeping until ikcp_check's answer
    misses nothing. */
module KcpScheduler {
  import opened Word32
  import opened KcpEndpoint
  import opened KcpInvariant

  lemma FlushTimer(k: Kcb)
    ensures Flushed(k).tsFlush == k.tsFlush
  {
    if k.updated {
      ProbeFrame(k);
      FillTimer(Probe(k).(ackList := [], askSend := false, askTell := false), SendWindow(k));
      var f := Filled(k);
      ShrinkCwndFrame(SentOut(f), k.cwnd, AnyFast(f, f.sndBuf), CountTimeouts(f, f.sndBuf) > 0);
      hide Probe, FillWindow, ResendAll, CountTimeouts, AnyFast, AnyDead, ShrinkCwnd;
    }
  }

  lemma {:induction false} FillTimer(k: Kcb, cwnd: u32)
    ensures FillWindow(k, cwnd).tsFlush == k.tsFlush
    decreases |k.sndQueue|
  {
    if Fillable(k, cwnd) {
      FillTimer(FillOne(k), cwnd);
    }
  }

  /** After an update the next flush lies ahead, by at most ten seconds. */
  lemma NextFlushAhead(k: Kcb, now: u32)
    ensures 0 < TimeDiff(Updated(k, now).tsFlush, now) <= 10000
  {
    FlushTimer(Tick(k, now).0);
    hide Flushed;
  }

  /** An update flushes unless the next flush lies ahead, by no more than ten seconds. When it flushes, the next
      one is due an interval after this one was, if that is still ahead; else, or when the clock has jumped
      by ten seconds, an interval from now. */
  lemma TickExactly(k: Kcb, now: u32)
    requires k.updated
    ensures
      var (k', due) := Tick(k, now);
      var late := TimeDiff(now, k.tsFlush);
      && (due <==> !(-10000 <= late < 0))
      && k'.tsFlush ==
         if !due then k.tsFlush
         else if 0 <= late < k.cfg.interval then Add(k.tsFlush, k.cfg.interval)
         else Add(now, k.cfg.interval)
  {
  }

  lemma FirstTick(k: Kcb, now: u32)
    requires !k.updated
    ensures Tick(k, now).1 && Tick(k, now).0.tsFlush == Add(now, k.cfg.interval)
  {
  }

  lemma {:induction false} NextResendIs(buf: seq<OutSeg>, now: u32)
    ensures NextResend(buf, now) == 0 <==> exists s <- buf :: TimeDiff(s.resendTs, now) <= 0
    ensures NextResend(buf, now) > 0 ==> forall s <- buf :: NextResend(buf, now) <= TimeDiff(s.resendTs, now)
    decreases |buf|
  {
    if buf != [] {
      var n := |buf| - 1;
      NextResendIs(buf[..n], now);
      hide TimeDiff;
      assert buf == buf[..n] + [buf[n]];
      if exists s <- buf[..n] :: TimeDiff(s.resendTs, now) <= 0 {
        var s :| s in buf[..n] && TimeDiff(s.resendTs, now) <= 0;
        assert s in buf;
      }
    }
  }

  /** ikcp_check says "now" exactly when something is due: a flush, or a retransmission. */
  lemma CheckNow(k: Kcb, now: u32)
    ensures Check(k, now) == now <==> Tick(k, now).1 || exists s <- k.sndBuf :: TimeDiff(s.resendTs, now) <= 0
  {
    NextResendIs(k.sndBuf, now);
    hide NextResend;
    if k.updated && TimeDiff(now, k.tsFlush) < 0 && TimeDiff(now, k.tsFlush) >= -10000
      && NextResend(k.sndBuf, now) > 0 {
      assert TimeDiff(k.tsFlush, now) > 0;
    }
  }

  /** Any update before the time ikcp_check returned flushes nothing, changes nothing but
      the clock, and finds no retransmission due: following ikcp_check never misses one. */
  lemma CheckMissesNothing(k: Kcb, now: u32, d: u32)
    requires k.updated && d < Sub(Check(k, now), now)
    ensures !Tick(k, Add(now, d)).1
    ensures Updated(k, Add(now, d)) == k.(current := Add(now, d))
    ensures forall s <- k.sndBuf :: TimeDiff(Add(now, d), s.resendTs) < 0
  {
    NextResendIs(k.sndBuf, now);
    hide NextResend;
    assert Sub(now, now) == 0;
    assert d < Sub(k.tsFlush, now) <= 10000;
    forall s | s in k.sndBuf ensures TimeDiff(Add(now, d), s.resendTs) < 0 {
      assert d < TimeDiff(s.resendTs, now);
    }
  }

  lemma {:induction false} NextResendIsOne(buf: seq<OutSeg>, now: u32)
    ensures 0 < NextResend(buf, now) < HALF - 1 ==> exists s <- buf :: TimeDiff(s.resendTs, now) == NextResend(buf, now)
    decreases |buf|
  {
    hide TimeDiff;
    if buf != [] {
      var n := |buf| - 1;
      NextResendIsOne(buf[..n], now);
      assert buf == buf[..n] + [buf[n]];
    }
  }

  /** Nor is it too early: at the answer a flush is due, or the time of some segment has come, or an interval has
      passed. */
  lemma CheckTight(k: Kcb, now: u32)
    requires k.updated
    ensures
      var t := Check(k, now);
      || Sub(t, now) == k.cfg.interval || Tick(k, t).1
      || exists s <- k.sndBuf :: TimeDiff(s.resendTs, t) <= 0
  {
    NextResendIs(k.sndBuf, now);
    NextResendIsOne(k.sndBuf, now);
    hide NextResend;
    CheckNow(k, now);
    if Check(k, now) != now {
      var packet, flush := NextResend(k.sndBuf, now), TimeDiff(k.tsFlush, now);
      if packet < flush && packet < k.cfg.interval {
        var s :| s in k.sndBuf && TimeDiff(s.resendTs, now) == packet;
        AheadBy(s.resendTs, now, packet);
      } else if flush < k.cfg.interval {
        AheadBy(k.tsFlush, now, flush);
      }
      hide Tick;
    }
  }

  lemma AheadBy(t: u32, now: u32, d: u32)
    requires TimeDiff(t, now) == d && d < HALF
    ensures Add(now, d) == t && TimeDiff(t, t) == 0
  {
  }

  /** The answer is never more than one interval away. */
  lemma CheckSoon(k: Kcb, now: u32)
    ensures Sub(Check(k, now), now) <= k.cfg.interval
  {
    NextResendIs(k.sndBuf, now);
    hide NextResend;
  }
}
