/** What a flush makes of losses: the congestion window after a timeout or an early resend, and the mark
    of a dead link. */
module KcpLoss {
  import opened Word32
  import opened KcpEndpoint
  import opened KcpCongestion
  import opened KcpInvariant
  import opened KcpWindow

  /** Sent before, and its time has come. */
  predicate Late(k: Kcb, s: OutSeg) {
    s.xmit != 0 && TimeDiff(k.current, s.resendTs) >= 0
  }

  /** Sent before, in time, but overtaken as often as the settings ask for. */
  predicate Overtaken(k: Kcb, s: OutSeg) {
    && s.xmit != 0 && TimeDiff(k.current, s.resendTs) < 0
    && k.cfg.fastResend > 0 && s.fastAck >= k.cfg.fastResend
    && (k.cfg.fastLimit <= 0 || Signed(s.xmit) <= k.cfg.fastLimit)
  }

  /** No segment was counted as overtaken 2^32 - 1 times. */
  predicate FewSkips(k: Kcb) {
    forall s <- k.sndBuf :: s.fastAck < 0xffff_ffff
  }

  lemma WhyIs(k: Kcb, s: OutSeg)
    ensures WhySend(k, s).First? <==> s.xmit == 0
    ensures WhySend(k, s).Timeout? <==> Late(k, s)
    ensures s.fastAck < 0xffff_ffff ==> (WhySend(k, s).Fast? <==> Overtaken(k, s))
  {
  }

  /** The filled window is the old one and segments never sent. */
  lemma FilledIs(k: Kcb)
    requires EndpointOk(k)
    ensures
      var f := Filled(k);
      && k.sndBuf <= f.sndBuf && f.current == k.current && f.cfg == k.cfg && f.sndUna == k.sndUna
      && f.cwnd == k.cwnd && f.ssthresh == k.ssthresh && f.incr == k.incr && f.dead == k.dead && f.xmit == k.xmit
      && forall i | |k.sndBuf| <= i < |f.sndBuf| :: f.sndBuf[i].xmit == 0
  {
    WindowSpan(k);
    ProbeFrame(k);
    var p := Probe(k).(ackList := [], askSend := false, askTell := false);
    FilledOk(k);
    hide EndpointOk, FillWindow, Probe, Sub;
    FillMoves(p, SendWindow(k));
    FillKeeps(p, SendWindow(k));
    hide Moved;
  }

  lemma {:induction false} FillKeeps(k: Kcb, window: u32)
    ensures
      var k' := FillWindow(k, window);
      k' == k.(sndBuf := k'.sndBuf, sndQueue := k'.sndQueue, sndNxt := k'.sndNxt)
    decreases |k.sndQueue|
  {
    hide TimeDiff;
    if Fillable(k, window) { FillKeeps(FillOne(k), window); }
  }

  lemma {:induction false} TimeoutsIs(k: Kcb, buf: seq<OutSeg>)
    ensures CountTimeouts(k, buf) > 0 <==> exists s <- buf :: Late(k, s)
    decreases |buf|
  {
    hide WhySend, Late;
    if buf != [] {
      var n := |buf| - 1;
      TimeoutsIs(k, buf[..n]);
      WhyIs(k, buf[n]);
      assert buf == buf[..n] + [buf[n]];
    }
  }

  lemma LossSeen(k: Kcb, f: Kcb)
    requires k.sndBuf <= f.sndBuf && f.current == k.current && f.cfg == k.cfg && FewSkips(k)
    requires forall i | |k.sndBuf| <= i < |f.sndBuf| :: f.sndBuf[i].xmit == 0
    ensures CountTimeouts(f, f.sndBuf) > 0 <==> exists s <- k.sndBuf :: Late(k, s)
    ensures AnyFast(f, f.sndBuf) <==> exists s <- k.sndBuf :: Overtaken(k, s)
  {
    TimeoutsIs(f, f.sndBuf);
    forall s | s in f.sndBuf
      ensures Late(f, s) ==> s in k.sndBuf && Late(k, s)
      ensures WhySend(f, s).Fast? ==> s in k.sndBuf && Overtaken(k, s)
    {
      var i :| 0 <= i < |f.sndBuf| && f.sndBuf[i] == s;
      WhyIs(f, s);
    }
    forall s | s in k.sndBuf ensures s in f.sndBuf && (Overtaken(k, s) ==> WhySend(f, s).Fast?) { WhyIs(f, s); }
    hide WhySend;
  }

  /** A flush that finds a segment late starts over with a window of one, and the threshold is half the window
      there was. One that finds a segment overtaken only halves what is in flight, and lets the window
      follow, with as many segments more as it took to notice. Otherwise the window stays, but is at
      least one. */
  lemma LossExactly(k: Kcb)
    requires EndpointOk(k) && k.updated && FewSkips(k)
    ensures
      var k', mss := Flushed(k), k.cfg.Mss();
      var flight := Sub(k'.sndNxt, k'.sndUna);
      var half, halfFlight := if k.cwnd / 2 < 2 then 2 else k.cwnd / 2, if flight / 2 < 2 then 2 else flight / 2;
      if exists s <- k.sndBuf :: Late(k, s) then k'.ssthresh == half && k'.cwnd == 1 && k'.incr == mss
      else if exists s <- k.sndBuf :: Overtaken(k, s) then
        && k'.ssthresh == halfFlight && k'.cwnd == halfFlight + k.cfg.fastResend
        && k'.incr == k'.cwnd * mss
      else
        && k'.ssthresh == k.ssthresh
        && (k.cwnd > 0 ==> k'.cwnd == k.cwnd && k'.incr == k.incr)
        && (k.cwnd == 0 ==> k'.cwnd == 1 && k'.incr == mss)
  {
    FilledIs(k);
    var f := Filled(k);
    FilledOk(k);
    WindowSpan(f);
    LossSeen(k, f);
    var fast, lost := AnyFast(f, f.sndBuf), CountTimeouts(f, f.sndBuf) > 0;
    hide EndpointOk, Filled, AnyFast, CountTimeouts, Late, Overtaken, AnyDead, ResendAll, FewSkips;
    ShrinkExactly(SentOut(f), k.cwnd, fast, lost);
  }

  lemma ShrinkExactly(k: Kcb, prior: u32, fast: bool, lost: bool)
    requires Sub(k.sndNxt, k.sndUna) < 0x1_0000 && (fast ==> k.cfg.fastResend > 0)
    ensures
      var k', mss := ShrinkCwnd(k, prior, fast, lost), k.cfg.Mss();
      var flight := Sub(k.sndNxt, k.sndUna);
      var half, halfFlight := if prior / 2 < 2 then 2 else prior / 2, if flight / 2 < 2 then 2 else flight / 2;
      && k'.sndNxt == k.sndNxt && k'.sndUna == k.sndUna && k'.cfg == k.cfg
      && if lost then k'.ssthresh == half && k'.cwnd == 1 && k'.incr == mss
         else if fast then
           k'.ssthresh == halfFlight && k'.cwnd == halfFlight + k.cfg.fastResend && k'.incr == k'.cwnd * mss
         else
           && k'.ssthresh == k.ssthresh
           && (k.cwnd > 0 ==> k'.cwnd == k.cwnd && k'.incr == k.incr)
           && (k.cwnd == 0 ==> k'.cwnd == 1 && k'.incr == mss)
  {
    var thresh := Max(Sub(k.sndNxt, k.sndUna) / 2, THRESH_MIN);
    if fast {
      assert thresh + k.cfg.fastResend < 0x1_0000 && Add(thresh, k.cfg.fastResend) == thresh + k.cfg.fastResend;
      ProductFits(thresh + k.cfg.fastResend, k.cfg.Mss());
      WrapSmall((thresh + k.cfg.fastResend) * k.cfg.Mss());
    }
    hide Wrap, Sub;
  }

  /** The segments of the window that are late. */
  function LateOnes(k: Kcb, buf: seq<OutSeg>): set<nat> {
    set i: nat | i < |buf| && Late(k, buf[i])
  }

  lemma {:induction false} CountIs(k: Kcb, buf: seq<OutSeg>)
    ensures CountTimeouts(k, buf) == |LateOnes(k, buf)|
    decreases |buf|
  {
    hide WhySend, Late;
    if buf != [] {
      var n := |buf| - 1;
      CountIs(k, buf[..n]);
      WhyIs(k, buf[n]);
      if Late(k, buf[n]) {
        assert LateOnes(k, buf) == LateOnes(k, buf[..n]) + {n};
      } else {
        assert LateOnes(k, buf) == LateOnes(k, buf[..n]);
      }
    }
  }

  /** The counter of timeouts goes up by one for each. */
  lemma TimeoutsCounted(k: Kcb)
    requires EndpointOk(k) && k.updated
    ensures Flushed(k).xmit == Wrap(k.xmit + |LateOnes(k, k.sndBuf)|)
  {
    hide EndpointOk, Filled, ShrinkCwnd, AnyFast, AnyDead, CountTimeouts, Wrap, LateOnes, ResendAll;
    FilledIs(k);
    var f := Filled(k);
    ShrinkCwndFrame(SentOut(f), k.cwnd, AnyFast(f, f.sndBuf), CountTimeouts(f, f.sndBuf) > 0);
    CountIs(f, f.sndBuf);
    NewAreInTime(k, f);
  }

  lemma NewAreInTime(k: Kcb, f: Kcb)
    requires k.sndBuf <= f.sndBuf && f.current == k.current
    requires forall i | |k.sndBuf| <= i < |f.sndBuf| :: f.sndBuf[i].xmit == 0
    ensures LateOnes(f, f.sndBuf) == LateOnes(k, k.sndBuf)
  {
    hide TimeDiff;
  }

  // ---- Dead links ----

  /** How often the i-th segment of the window had been sent before the flush. */
  function SentBefore(k: Kcb, i: nat): u32 {
    if i < |k.sndBuf| then k.sndBuf[i].xmit else 0
  }

  /** The flush from k to k' sent the i-th segment, for the deadLink-th time or later. */
  predicate SentTooOften(k: Kcb, k': Kcb, i: nat)
    requires i < |k'.sndBuf|
  {
    k'.sndBuf[i].xmit != SentBefore(k, i) && k'.sndBuf[i].xmit >= k.cfg.deadLink
  }

  /** A flush marks the link as dead exactly when it sends some segment too often. */
  lemma DeadExactly(k: Kcb)
    requires EndpointOk(k) && k.updated
    ensures
      var k' := Flushed(k);
      k'.dead <==> k.dead || exists i :: 0 <= i < |k'.sndBuf| && SentTooOften(k, k', i)
  {
    FilledIs(k);
    var f := Filled(k);
    ShrinkCwndFrame(SentOut(f), k.cwnd, AnyFast(f, f.sndBuf), CountTimeouts(f, f.sndBuf) > 0);
    var k' := Flushed(k);
    hide EndpointOk, Filled, ShrinkCwnd, AnyFast, CountTimeouts;
    forall i | 0 <= i < |f.sndBuf|
      ensures
        && f.sndBuf[i].xmit == SentBefore(k, i)
        && (k'.sndBuf[i].xmit != f.sndBuf[i].xmit <==> !WhySend(f, f.sndBuf[i]).Wait?)
        && (!WhySend(f, f.sndBuf[i]).Wait? ==> k'.sndBuf[i].xmit == Add(f.sndBuf[i].xmit, 1))
    {
      XmitIs(f, f.sndBuf[i]);
    }
    hide WhySend, Resend;
    if AnyDead(f, f.sndBuf) {
      var s :| s in f.sndBuf && !WhySend(f, s).Wait? && Add(s.xmit, 1) >= f.cfg.deadLink;
      var i :| 0 <= i < |f.sndBuf| && f.sndBuf[i] == s;
      assert SentTooOften(k, k', i);
    }
  }

  lemma XmitIs(k: Kcb, s: OutSeg)
    ensures Resend(k, s).xmit != s.xmit <==> !WhySend(k, s).Wait?
    ensures !WhySend(k, s).Wait? ==> Resend(k, s).xmit == Add(s.xmit, 1)
  {
  }
}
