/** What KCP's timers are for: the retransmission timeout follows the measured round trip time
    within bounds, a closed peer window is probed at growing but bounded distances, and a
    flush resends exactly what is new, late, or overtaken. */
module KcpTimers {
  import opened Word32
  import opened KcpEndpoint

  /** The timeout is always within its bounds, whatever the samples were. */
  lemma RtoInRange(k: Kcb, rtt: i32)
    ensures k.cfg.minRto <= UpdateAck(k, rtt).rto <= 60000
  {
    hide TruncDiv;
  }

  /** The first sample is taken as it is. After that the smoothed round trip time is the mean of
      seven parts of the old value and one of the sample, but at least 1, if and only if seven
      times the old value and the sample fit a signed word. */
  lemma SmoothedRtt(k: Kcb, rtt: i32)
    requires 0 <= rtt && 0 <= k.srtt
    ensures k.srtt == 0 ==> UpdateAck(k, rtt).srtt == rtt
    ensures k.srtt > 0 ==>
      var mean := (7 * k.srtt + rtt) / 8;
      UpdateAck(k, rtt).srtt == (if mean < 1 then 1 else mean) <==> 7 * k.srtt + rtt < HALF
    ensures k.srtt > 0 ==> UpdateAck(k, rtt).srtt >= 1
  {
    I32Stays(rtt);
    if k.srtt > 0 { LaterSample(k, rtt); }
    hide ToI32, TruncDiv, Max, Min, Add, Wrap;
  }

  lemma LaterSample(k: Kcb, rtt: i32)
    requires 0 <= rtt && 0 < k.srtt
    ensures
      var mean, srtt := (7 * k.srtt + rtt) / 8, UpdateAck(k, rtt).srtt;
      (srtt == (if mean < 1 then 1 else mean) <==> 7 * k.srtt + rtt < HALF) && srtt >= 1
  {
    var x := ToI32(ToI32(7 * k.srtt) + rtt);
    SevenAndOne(k.srtt, rtt);
    assert TruncDiv(x, 8) < 0x1000_0000 by { hide ToI32; }
    I32Stays(1);
    if x >= 0 { I32Stays(TruncDiv(x, 8)); }
    hide ToI32, TruncDiv, Max, Min, Add, Wrap;
  }

  lemma SevenAndOne(a: i32, b: i32)
    requires 0 <= a && 0 <= b
    ensures 7 * a + b < HALF ==> ToI32(ToI32(7 * a) + b) == 7 * a + b
  {
    if 7 * a + b < HALF {
      I32Stays(7 * a);
      I32Stays(7 * a + b);
    }
  }

  /** So while nothing overflows it moves towards the sample and never past it. */
  lemma SmoothedBetween(k: Kcb, rtt: i32)
    requires 0 <= rtt && 0 < k.srtt && 7 * k.srtt + rtt < HALF
    ensures var s := UpdateAck(k, rtt).srtt; if rtt <= k.srtt then rtt <= s <= k.srtt else k.srtt <= s <= rtt
  {
    hide UpdateAck;
    SmoothedRtt(k, rtt);
  }

  function Distance(a: int, b: int): nat {
    if a < b then b - a else a - b
  }

  /** Nothing overflows a signed word on the way from a sample to the timeout. */
  predicate SampleFits(k: Kcb, rtt: i32) {
    && 0 <= rtt && 0 <= k.srtt && 0 <= k.rttVal
    && if k.srtt == 0 then 3 * rtt < HALF else 7 * k.srtt + rtt < HALF && 3 * k.rttVal + Distance(rtt, k.srtt) < HALF
  }

  /** Then the variation is half the first sample, and later three parts of the old one and one of the
      distance between the sample and the smoothed time. */
  lemma VariationIs(k: Kcb, rtt: i32)
    requires SampleFits(k, rtt)
    ensures
      UpdateAck(k, rtt).rttVal == if k.srtt == 0 then rtt / 2 else (3 * k.rttVal + Distance(rtt, k.srtt)) / 4
  {
    if k.srtt > 0 {
      I32Stays(3 * k.rttVal);
      I32Stays((3 * k.rttVal + Distance(rtt, k.srtt)) / 4);
    } else {
      I32Stays(rtt / 2);
    }
    hide ToI32, Max, Min, Add, Wrap;
  }

  /** And the timeout is the smoothed time plus four times the variation, or plus the interval if that is
      more, cut to its bounds. */
  lemma TimeoutIs(k: Kcb, rtt: i32)
    requires SampleFits(k, rtt)
    ensures
      var k' := UpdateAck(k, rtt);
      var t := k'.srtt + (if 4 * k'.rttVal > k.cfg.interval then 4 * k'.rttVal else k.cfg.interval);
      k'.rto == if t < k.cfg.minRto then k.cfg.minRto else if t > 60000 then 60000 else t
  {
    VariationIs(k, rtt);
    SmoothedRtt(k, rtt);
    var k' := UpdateAck(k, rtt);
    assert 0 <= k'.rttVal && 4 * k'.rttVal < HALF && 0 <= k'.srtt;
    assert k'.srtt + 4 * k'.rttVal < MODULUS && k'.srtt + k.cfg.interval < MODULUS;
    TimeoutFrom(k, rtt);
  }

  lemma TimeoutFrom(k: Kcb, rtt: i32)
    requires
      var k' := UpdateAck(k, rtt);
      && 0 <= k'.srtt && 0 <= 4 * k'.rttVal < HALF
      && k'.srtt + 4 * k'.rttVal < MODULUS && k'.srtt + k.cfg.interval < MODULUS
    ensures
      var k' := UpdateAck(k, rtt);
      var t := k'.srtt + (if 4 * k'.rttVal > k.cfg.interval then 4 * k'.rttVal else k.cfg.interval);
      k'.rto == if t < k.cfg.minRto then k.cfg.minRto else if t > RTO_MAX then RTO_MAX else t
  {
    hide UpdateAck;
    TimesAre(k, rtt);
    Clamped(UpdateAck(k, rtt).srtt, 4 * UpdateAck(k, rtt).rttVal, k.cfg.interval, k.cfg.minRto);
  }

  lemma Clamped(srtt: nat, four: nat, interval: u32, least: u32)
    requires srtt < HALF && four < HALF && srtt + four < MODULUS && srtt + interval < MODULUS && least <= RTO_MAX
    ensures
      var t := srtt + (if four > interval then four else interval);
      ToI32(Min(Max(least, Add(Wrap(srtt), Max(interval, Wrap(four)))), RTO_MAX)) ==
      if t < least then least else if t > RTO_MAX then RTO_MAX else t
  {
    hide ToI32;
    I32Stays(Min(Max(least, srtt + Max(interval, four)), RTO_MAX));
    assert Wrap(srtt) == srtt && Wrap(four) == four;
  }

  /** The timeout is computed from the new times. */
  lemma TimesAre(k: Kcb, rtt: i32)
    ensures
      var k' := UpdateAck(k, rtt);
      k'.rto == ToI32(Min(Max(k.cfg.minRto, Add(Wrap(k'.srtt), Max(k.cfg.interval, Wrap(4 * k'.rttVal)))), RTO_MAX))
  {
    hide Min, Max, Add, Wrap, ToI32, NewRttVal, NewSrtt;
  }

  /** So no segment is given up for lost before a round trip and an interval have passed. */
  lemma TimeoutCoversRoundTrip(k: Kcb, rtt: i32)
    requires SampleFits(k, rtt)
    ensures
      var k' := UpdateAck(k, rtt);
      k'.rto >= if k'.srtt + k.cfg.interval > RTO_MAX then RTO_MAX else k'.srtt + k.cfg.interval
  {
    TimeoutIs(k, rtt);
    hide UpdateAck;
  }

  /** What holds of the probe timer between flushes. */
  predicate ProbeOk(k: Kcb) {
    k.probeWait == 0 || PROBE_INIT <= k.probeWait <= PROBE_LIMIT
  }

  /** While the peer's window is closed the next probe lies at most two minutes ahead; the
      distances grow by half each time up to that; a probe is asked for exactly when one was
      due; and an open window stops the timer. */
  lemma ProbeTimer(k: Kcb)
    requires ProbeOk(k)
    ensures
      var p := Probe(k);
      && ProbeOk(p)
      && (p.probeWait == 0 <==> k.rmtWnd != 0)
      && (p.askSend <==> k.askSend || (k.rmtWnd == 0 && k.probeWait != 0 && TimeDiff(k.current, k.tsProbe) >= 0))
      && (p.tsProbe != k.tsProbe && k.rmtWnd == 0 ==> TimeDiff(p.tsProbe, k.current) == p.probeWait >= k.probeWait)
      && (k.rmtWnd == 0 && k.probeWait != 0 && TimeDiff(k.current, k.tsProbe) >= 0 ==>
            p.probeWait == (if k.probeWait + k.probeWait / 2 > PROBE_LIMIT then PROBE_LIMIT
              else k.probeWait + k.probeWait / 2))
  {
  }

  /** A flush resends a segment exactly when it was never sent, its time has come, or enough
      later ones were acknowledged; only then does it count a transmission and renew the stamp;
      and what it carries never changes. */
  lemma ResendExactly(k: Kcb, s: OutSeg)
    ensures
      var t := Resend(k, s);
      var due := s.xmit == 0 || TimeDiff(k.current, s.resendTs) >= 0;
      var overtaken := s.fastAck >= Resent(k.cfg) && (k.cfg.fastLimit <= 0 || Signed(s.xmit) <= k.cfg.fastLimit);
      && (!WhySend(k, s).Wait? <==> due || overtaken)
      && t.sn == s.sn && t.f == s.f
      && t.xmit == (if due || overtaken then Add(s.xmit, 1) else s.xmit)
      && (due || overtaken ==> t.ts == k.current)
      && (!due && !overtaken ==> t == s)
      && (t.fastAck != s.fastAck ==> overtaken && !due && t.fastAck == 0)
  {
    hide TimeDiff, Add, Signed, Wrap, Max, TruncDiv;
  }

  // ---- When the next resend is due ----

  predicate RtoOk(k: Kcb) {
    k.cfg.minRto <= k.rto <= RTO_MAX
  }

  /** x doubled n times. */
  function Doubled(n: nat, x: nat): (r: nat)
    ensures r >= x
  {
    if n == 0 then x else 2 * Doubled(n - 1, x)
  }

  lemma Doubled15()
    ensures Doubled(15, RTO_MAX) == 32768 * RTO_MAX < HALF
  {
    assert Doubled(5, RTO_MAX) == 32 * RTO_MAX;
    assert Doubled(10, RTO_MAX) == 1024 * RTO_MAX;
  }

  lemma {:induction false} DoubledMono(m: nat, n: nat, x: nat)
    requires m <= n
    ensures Doubled(m, x) <= Doubled(n, x)
  {
    if m < n { DoubledMono(m, n - 1, x); }
  }

  /** A time d ahead is due now exactly when d is 0 or more than half a lap. */
  lemma DueAt(now: u32, d: u32)
    ensures TimeDiff(now, Add(now, d)) >= 0 <==> d == 0 || d > HALF
  {
  }

  /** How long a segment just sent is given: the first time the endpoint's timeout, and an eighth more without
      the no-delay mode; after that its own. */
  lemma ResendAhead(k: Kcb, s: OutSeg)
    requires RtoOk(k) && !WhySend(k, s).Wait?
    ensures
      var t := Resend(k, s);
      if WhySend(k, s).First? then
        t.rto == k.rto && t.resendTs == Add(k.current, k.rto + (if k.cfg.noDelay == 0 then k.rto / 8 else 0))
      else t.resendTs == Add(k.current, t.rto) && (WhySend(k, s).Fast? ==> t.rto == s.rto && t.fastAck == 0)
  {
    hide WhySend;
    if WhySend(k, s).First? {
      assert Wrap(k.rto) == k.rto;
      var extra := if k.cfg.noDelay == 0 then k.rto / 8 else 0;
      hide Add;
      Twice(k.current, k.rto, extra);
    }
  }

  /** Right after a flush a segment of the window is due again if and only if it was sent again
      and its doubled timeout has run over half the number space. */
  lemma DueAfterFlush(k: Kcb, s: OutSeg)
    requires RtoOk(k)
    ensures
      var t := Resend(k, s);
      TimeDiff(k.current, t.resendTs) >= 0 <==>
      !WhySend(k, s).Wait? && !WhySend(k, s).First? && (t.rto == 0 || t.rto > HALF)
  {
    if WhySend(k, s).Wait? {
    } else {
      ResendAhead(k, s);
      if WhySend(k, s).First? {
        DueAt(k.current, k.rto + (if k.cfg.noDelay == 0 then k.rto / 8 else 0));
      } else {
        DueAt(k.current, Resend(k, s).rto);
      }
      hide Resend, WhySend, TimeDiff, Add;
    }
  }

  /** A segment sent n times waits at least the least timeout and at most the
      greatest doubled n - 1 times, for all n up to 16. */
  predicate SegTimer(cfg: Config, s: OutSeg) {
    1 <= s.xmit <= 16 ==> cfg.minRto <= s.rto <= Doubled(s.xmit - 1, RTO_MAX) < HALF
  }

  predicate TimersOk(k: Kcb) {
    RtoOk(k) && ProbeOk(k) && k.srtt >= 0 && forall s <- k.sndBuf :: SegTimer(k.cfg, s)
  }

  /** A resend at most doubles the longer of a segment's timeout and the greatest one. */
  lemma GrownTimeout(k: Kcb, s: OutSeg)
    requires RtoOk(k) && 0 <= s.rto < 0x4000_0000 && (WhySend(k, s).Timeout? || WhySend(k, s).Fast?)
    ensures s.rto <= Resend(k, s).rto <= 2 * (if s.rto < RTO_MAX then RTO_MAX else s.rto)
    ensures WhySend(k, s).Timeout? && k.cfg.noDelay == 0 ==> Resend(k, s).rto >= 2 * s.rto
  {
    hide WhySend;
    assert Wrap(k.rto) == k.rto && Signed(s.rto) == s.rto;
    assert Wrap(k.rto / 2) == k.rto / 2 && Wrap(s.rto / 2) == s.rto / 2;
    hide Wrap, Signed;
  }

  lemma ResendTimer(k: Kcb, s: OutSeg)
    requires RtoOk(k) && SegTimer(k.cfg, s)
    ensures SegTimer(k.cfg, Resend(k, s))
  {
    var t := Resend(k, s);
    ResendExactly(k, s);
    Doubled15();
    if 1 <= s.xmit < 16 && !WhySend(k, s).Wait? {
      DoubledMono(s.xmit, 15, RTO_MAX);
      GrownTimeout(k, s);
      hide Resend, WhySend;
    } else if WhySend(k, s).First? {
      assert t.rto == k.rto && t.xmit == 1;
    }
  }

  lemma Twice(now: u32, a: u32, b: u32)
    requires a + b < HALF
    ensures Add(Add(now, a), b) == Add(now, a + b)
  {
  }
}
