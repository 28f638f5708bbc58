/** Early retransmission and the growth of the window: what one acknowledging datagram counts for. */
module KcpFast {
  import opened Word32
  import opened KcpWire
  import opened KcpEndpoint
  import opened KcpInvariant
  import opened KcpSystem
  import opened KcpProgress
  import opened KcpReopen
  import opened KcpTimers

  // ---- Which acknowledgement of a datagram counts ----

  predicate Later(n: Newest, w: WireSeg) {
    n.NoAck? || (TimeDiff(w.sn, n.sn) > 0 && TimeDiff(w.ts, n.ts) > 0)
  }

  /** The one that counts is the last that is later, in number and in time stamp, than the one that counted
      before it. */
  lemma {:induction false} NewestIs(segs: seq<WireSeg>)
    ensures TrackAll(segs).NoAck? <==> forall w <- segs :: w.cmd != CMD_ACK
    ensures TrackAll(segs).Newest? ==>
      exists i :: 0 <= i < |segs| && segs[i].cmd == CMD_ACK && TrackAll(segs) == Newest(segs[i].sn, segs[i].ts)
        && Later(TrackAll(segs[..i]), segs[i])
        && forall j | i < j < |segs| && segs[j].cmd == CMD_ACK :: !Later(TrackAll(segs), segs[j])
    decreases |segs|
  {
    hide TimeDiff;
    if segs != [] {
      var n := |segs| - 1;
      NewestIs(segs[..n]);
      assert segs == segs[..n] + [segs[n]];
      if segs[n].cmd == CMD_ACK && Later(TrackAll(segs[..n]), segs[n]) {
        assert TrackAll(segs) == Newest(segs[n].sn, segs[n].ts);
      } else if TrackAll(segs).Newest? {
        var i :| 0 <= i < n && segs[..n][i].cmd == CMD_ACK
          && TrackAll(segs[..n]) == Newest(segs[..n][i].sn, segs[..n][i].ts)
          && Later(TrackAll(segs[..n][..i]), segs[..n][i])
          && forall j | i < j < n && segs[..n][j].cmd == CMD_ACK :: !Later(TrackAll(segs[..n]), segs[..n][j]);
        assert segs[..n][..i] == segs[..i] && segs[..n][i] == segs[i];
        forall j | i < j < |segs| && segs[j].cmd == CMD_ACK ensures !Later(TrackAll(segs), segs[j]) {
          if j < n { assert segs[..n][j] == segs[j]; }
        }
      }
    }
  }

  // ---- Which segments it overtakes ----

  /** An acknowledgement for a later number, of a segment sent no earlier. */
  predicate Overtaken(s: OutSeg, sn: u32, ts: u32) {
    TimeDiff(sn, s.sn) > 0 && TimeDiff(ts, s.ts) >= 0
  }

  function CountedUp(s: OutSeg, sn: u32, ts: u32): OutSeg {
    if Overtaken(s, sn, ts) then s.(fastAck := Add(s.fastAck, 1)) else s
  }

  /** In a window in order, the loop counts exactly the overtaken segments, each once. */
  lemma {:induction false} SkipsExactly(buf: seq<OutSeg>, una: u32, sn: u32, ts: u32)
    requires Sub(sn, una) < 0x1_0000 && forall s <- buf :: Sub(s.sn, una) < 0x1_0000
    requires forall i, j | 0 <= i < j < |buf| :: Sub(buf[i].sn, una) < Sub(buf[j].sn, una)
    ensures |CountSkipped(buf, sn, ts)| == |buf|
    ensures forall i | 0 <= i < |buf| :: CountSkipped(buf, sn, ts)[i] == CountedUp(buf[i], sn, ts)
  {
    if buf != [] {
      assert buf[0] in buf;
      TimeDiffFromBase(sn, buf[0].sn, una);
      if TimeDiff(sn, buf[0].sn) < 0 {
        forall i | 0 <= i < |buf| ensures !Overtaken(buf[i], sn, ts) {
          assert buf[i] in buf && (i > 0 ==> Sub(buf[0].sn, una) < Sub(buf[i].sn, una));
          TimeDiffFromBase(sn, buf[i].sn, una);
        }
      } else {
        SameOrLater(sn, buf[0].sn, una);
        SkipsExactly(buf[1..], una, sn, ts);
        hide TimeDiff, Sub;
      }
    }
  }

  lemma SameOrLater(sn: u32, other: u32, una: u32)
    requires Sub(sn, una) < 0x1_0000 && Sub(other, una) < 0x1_0000 && TimeDiff(sn, other) >= 0
    ensures sn == other <==> TimeDiff(sn, other) == 0
  {
  }

  /** Segments that are acknowledged leave the window; the others are as they were. */
  lemma {:induction false} SegsOnlyDrop(k: Kcb, segs: seq<WireSeg>)
    ensures forall s <- InputSegs(k, segs).sndBuf :: s in k.sndBuf
    decreases |segs|
  {
    hide InputSeg;
    if segs != [] {
      var k0 := InputSegs(k, segs[..|segs| - 1]);
      SegsOnlyDrop(k, segs[..|segs| - 1]);
      SegOnlyDrops(k0, segs[|segs| - 1]);
    }
  }

  lemma SegOnlyDrops(k: Kcb, w: WireSeg)
    ensures forall s <- InputSeg(k, w).sndBuf :: s in k.sndBuf
  {
    hide InputSeg, InputCmd, DropBefore, TimeDiff, DropOne, UpdateAck;
    UnaFrame(k, w);
    OnlyDrops(k.sndBuf, w.una, w.sn);
    var k1 := Shrink(k.(rmtWnd := w.wnd, sndBuf := DropBefore(k.sndBuf, w.una)));
    OnlyDrops(k1.sndBuf, w.una, w.sn);
    if w.cmd == CMD_ACK { AckFrame(k1, w); } else { PushFrame(k1, w); }
  }

  lemma OnlyDrops(buf: seq<OutSeg>, una: u32, sn: u32)
    ensures forall s <- DropBefore(buf, una) :: s in buf
    ensures forall s <- DropOne(buf, sn) :: s in buf
  {
    DropBeforeIs(buf, una);
    DropOneIs(buf, sn);
    hide DropBefore, DropOne, TimeDiff;
  }

  /** Where the newest acknowledgement of a datagram lies, once its segments have been taken in. */
  predicate InFlight(k: Kcb, n: Newest) {
    n.Newest? && TimeDiff(n.sn, k.sndUna) >= 0 && TimeDiff(n.sn, k.sndNxt) < 0
  }

  lemma FlightIs(k: Kcb, n: Newest)
    requires EndpointOk(k) && InFlight(k, n)
    ensures Sub(n.sn, k.sndUna) < Sub(k.sndNxt, k.sndUna) < 0x1_0000
  {
    WindowSpan(k);
    hide EndpointOk;
  }

  /** What a good datagram makes of the window: what is left of it, with every segment overtaken by the newest
      acknowledgement counted once, if that is for a number in flight. */
  lemma InputCounts(k: Kcb, d: seq<byte>)
    requires EndpointOk(k) && |d| >= OVERHEAD && Parse(k.cfg.conv, d).1 == 0
    ensures
      var segs := Parse(k.cfg.conv, d).0;
      var k1, n, buf := InputSegs(k, segs), TrackAll(segs), Input(k, d).0.sndBuf;
      && |buf| == |k1.sndBuf|
      && forall i | 0 <= i < |buf| ::
        buf[i] == if InFlight(k1, n) then CountedUp(k1.sndBuf[i], n.sn, n.ts) else k1.sndBuf[i]
  {
    var segs := Parse(k.cfg.conv, d).0;
    InputSegsOk(k, segs);
    var k1, n := InputSegs(k, segs), TrackAll(segs);
    hide Parse, InputSegs, TrackAll, EndpointOk;
    BufferAfter(k, k1, n);
    if InFlight(k1, n) {
      FlightIs(k1, n);
      WindowInOrder(k1);
      SkipsExactly(k1.sndBuf, k1.sndUna, n.sn, n.ts);
    }
    hide AfterInput, CountSkipped, CountedUp;
  }

  lemma BufferAfter(before: Kcb, k: Kcb, n: Newest)
    ensures
      AfterInput(before, k, n).sndBuf ==
      if InFlight(k, n) then CountSkipped(k.sndBuf, n.sn, n.ts) else k.sndBuf
  {
    hide GrowWindow, CountSkipped, TimeDiff;
  }

  lemma WindowInOrder(k: Kcb)
    requires EndpointOk(k)
    ensures forall s <- k.sndBuf :: Sub(s.sn, k.sndUna) < 0x1_0000
    ensures forall i, j | 0 <= i < j < |k.sndBuf| :: Sub(k.sndBuf[i].sn, k.sndUna) < Sub(k.sndBuf[j].sn, k.sndUna)
  {
    WindowSpan(k);
  }

  // ---- Early retransmission ----

  /** The datagram leaves the segment numbered sn unacknowledged and overtakes it. */
  predicate Overtakes(k: Kcb, d: seq<byte>, sn: u32) {
    && |d| >= OVERHEAD && Parse(k.cfg.conv, d).1 == 0
    && var segs := Parse(k.cfg.conv, d).0;
    && InFlight(InputSegs(k, segs), TrackAll(segs))
    && exists s <- InputSegs(k, segs).sndBuf :: s.sn == sn && Overtaken(s, TrackAll(segs).sn, TrackAll(segs).ts)
  }

  lemma OneNumber(k: Kcb, s: OutSeg, t: OutSeg)
    requires EndpointOk(k) && s in k.sndBuf && t in k.sndBuf && s.sn == t.sn
    ensures s == t
  {
    WindowInOrder(k);
    hide EndpointOk;
    var i :| 0 <= i < |k.sndBuf| && k.sndBuf[i] == s;
    var j :| 0 <= j < |k.sndBuf| && k.sndBuf[j] == t;
  }

  lemma OneOvertake(k: Kcb, d: seq<byte>, s: OutSeg)
    requires EndpointOk(k) && s in k.sndBuf && Overtakes(k, d, s.sn)
    ensures EndpointOk(Input(k, d).0) && s.(fastAck := Add(s.fastAck, 1)) in Input(k, d).0.sndBuf
  {
    hide Parse, EndpointOk, Input, InputSegs, TrackAll, TimeDiff;
    var segs := Parse(k.cfg.conv, d).0;
    var k1, n := InputSegs(k, segs), TrackAll(segs);
    InputCounts(k, d);
    InputOk(k, d);
    SegsOnlyDrop(k, segs);
    var t :| t in k1.sndBuf && t.sn == s.sn && Overtaken(t, n.sn, n.ts);
    OneNumber(k, s, t);
    var i :| 0 <= i < |k1.sndBuf| && k1.sndBuf[i] == t;
    assert Input(k, d).0.sndBuf[i] == CountedUp(t, n.sn, n.ts);
  }

  lemma {:induction false} Overtakings(k: Kcb, ds: seq<seq<byte>>, s: OutSeg)
    requires EndpointOk(k) && s in k.sndBuf && s.fastAck + |ds| < MODULUS
    requires forall i | 0 <= i < |ds| :: Overtakes(InputAll(k, ds[..i]), ds[i], s.sn)
    ensures EndpointOk(InputAll(k, ds)) && s.(fastAck := s.fastAck + |ds|) in InputAll(k, ds).sndBuf
    decreases |ds|
  {
    hide Overtakes, EndpointOk, Input;
    if ds != [] {
      var n := |ds| - 1;
      forall i | 0 <= i < n ensures Overtakes(InputAll(k, ds[..n][..i]), ds[..n][i], s.sn) {
        assert ds[..n][..i] == ds[..i] && ds[..n][i] == ds[i];
      }
      Overtakings(k, ds[..n], s);
      OneOvertake(InputAll(k, ds[..n]), ds[n], s.(fastAck := s.fastAck + n));
    }
  }

  /** A segment that has been sent and overtaken by as many datagrams as the settings ask for is sent again by
      the next flush, with the same bytes, although its time has not come. */
  lemma SentEarly(k: Kcb, ds: seq<seq<byte>>, s: OutSeg)
    requires EndpointOk(k) && s in k.sndBuf && s.fastAck + |ds| < MODULUS
    requires forall i | 0 <= i < |ds| :: Overtakes(InputAll(k, ds[..i]), ds[i], s.sn)
    requires 0 < s.xmit < MODULUS - 1 && 0 < k.cfg.fastResend <= s.fastAck + |ds|
    requires k.cfg.fastLimit <= 0 || Signed(s.xmit) <= k.cfg.fastLimit
    requires InputAll(k, ds).updated
    ensures
      var k' := InputAll(k, ds);
      && EndpointOk(k')
      && (exists t <- Flushed(k').sndBuf :: t.sn == s.sn && t.f == s.f && t.xmit == s.xmit + 1)
      && exists d <- FlushOutput(k'), w <- Parse(k.cfg.conv, d).0 ::
        w.cmd == CMD_PUSH && w.sn == s.sn && w.frg == s.f.frg && w.data == s.f.data
  {
    var k', t := InputAll(k, ds), s.(fastAck := s.fastAck + |ds|);
    Overtakings(k, ds, s);
    InputAllOk(k, ds);
    hide EndpointOk, InputAll, Flushed, FlushOutput, Parse, Overtakes;
    GoesOut(k', t);
  }

  lemma GoesOut(k: Kcb, s: OutSeg)
    requires EndpointOk(k) && k.updated && s in k.sndBuf && 0 < s.xmit < MODULUS - 1
    requires 0 < k.cfg.fastResend <= s.fastAck && (k.cfg.fastLimit <= 0 || Signed(s.xmit) <= k.cfg.fastLimit)
    ensures exists t <- Flushed(k).sndBuf :: t.sn == s.sn && t.f == s.f && t.xmit == s.xmit + 1
    ensures exists d <- FlushOutput(k), w <- Parse(k.cfg.conv, d).0 ::
      w.cmd == CMD_PUSH && w.sn == s.sn && w.frg == s.f.frg && w.data == s.f.data
  {
    hide EndpointOk, Flushed, Filled, FlushOutput, Parse, Resend, WhySend;
    SeenAgain(k, s);
    FilledHolds(k, s);
    var i :| 0 <= i < |Filled(k).sndBuf| && Filled(k).sndBuf[i] == s;
    FlushedSeg(k, i);
    PushOut(k, s);
  }

  /** Why it is sent, as the loop sees it. */
  lemma SeenAgain(k: Kcb, s: OutSeg)
    requires EndpointOk(k) && 0 < s.xmit < MODULUS - 1
    requires 0 < k.cfg.fastResend <= s.fastAck && (k.cfg.fastLimit <= 0 || Signed(s.xmit) <= k.cfg.fastLimit)
    ensures
      var f := Filled(k);
      && !WhySend(f, s).Wait?
      && Resend(f, s).sn == s.sn && Resend(f, s).f == s.f && Resend(f, s).xmit == s.xmit + 1
  {
    FilledOk(k);
    ResendExactly(Filled(k), s);
    hide EndpointOk, Filled, Resend, WhySend;
  }

  lemma PushOut(k: Kcb, s: OutSeg)
    requires EndpointOk(k) && k.updated && s in Filled(k).sndBuf && !WhySend(Filled(k), s).Wait?
    ensures exists d <- FlushOutput(k), w <- Parse(k.cfg.conv, d).0 ::
      w.cmd == CMD_PUSH && w.sn == s.sn && w.frg == s.f.frg && w.data == s.f.data
  {
    hide EndpointOk, Filled, FlushOutput, Parse, WhySend;
    FlushSegsFit(k);
    PushedSeg(Filled(k), Filled(k).sndBuf, s);
    var w := Push(Filled(k), s);
    assert w in FlushSegs(k);
    hide FlushSegs;
    FlushOutputDecodes(k);
    Carried(k.cfg.conv, FlushOutput(k), w);
  }

  lemma FilledHolds(k: Kcb, s: OutSeg)
    requires s in k.sndBuf
    ensures s in Filled(k).sndBuf
  {
    ProbeFrame(k);
    FillPrefix(Probe(k).(ackList := [], askSend := false, askTell := false), SendWindow(k));
    hide FillWindow, Probe;
  }

  lemma FlushedSeg(k: Kcb, i: nat)
    requires k.updated && i < |Filled(k).sndBuf|
    ensures i < |Flushed(k).sndBuf| && Flushed(k).sndBuf[i] == Resend(Filled(k), Filled(k).sndBuf[i])
  {
    var f := Filled(k);
    ShrinkCwndFrame(SentOut(f), k.cwnd, AnyFast(f, f.sndBuf), CountTimeouts(f, f.sndBuf) > 0);
    hide Filled, ShrinkCwnd, AnyFast, AnyDead, CountTimeouts, Resend;
  }

  lemma {:induction false} PushedSeg(k: Kcb, buf: seq<OutSeg>, s: OutSeg)
    requires SmallFrgs(buf) && s in buf && !WhySend(k, s).Wait?
    ensures s.f.frg < 256 && Push(k, s) in PushSegs(k, buf)
    decreases |buf|
  {
    hide WhySend;
    var n := |buf| - 1;
    if buf[n] != s {
      assert s in buf[..n];
      PushedSeg(k, buf[..n], s);
    }
  }

  // ---- The window grows with new acknowledgements only ----

  /** A good datagram lets the congestion window grow, by one step, exactly when it moves snd_una on. */
  lemma InputGrows(k: Kcb, d: seq<byte>)
    requires EndpointOk(k) && |d| >= OVERHEAD && Parse(k.cfg.conv, d).1 == 0
    ensures
      var k' := Input(k, d).0;
      var g := GrowCwnd(k.(rmtWnd := k'.rmtWnd));
      && k'.ssthresh == k.ssthresh
      && (k'.cwnd, k'.incr) == if TimeDiff(k'.sndUna, k.sndUna) > 0 then (g.cwnd, g.incr) else (k.cwnd, k.incr)
  {
    var segs := Parse(k.cfg.conv, d).0;
    InputSegsOk(k, segs);
    hide Parse, InputSegs, TrackAll, EndpointOk, GrowWindow, CountSkipped, TimeDiff;
  }
}
