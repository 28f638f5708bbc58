/** KCP makes progress: when the head of the send window is due and the peer has room, one
    flush delivered and one flush back strictly advance snd_una. */
module KcpProgress {
  import opened Word32
  import opened KcpWire
  import opened KcpEndpoint
  import opened KcpInvariant
  import opened KcpMessages
  import opened KcpDirection
  import opened KcpSystem
  import opened KcpRuns
  import opened KcpAhead

  /** Delivering some datagrams one after the other. */
  function InputAll(k: Kcb, ds: seq<seq<byte>>): Kcb
    decreases |ds|
  {
    if ds == [] then k else Input(InputAll(k, ds[..|ds| - 1]), ds[|ds| - 1]).0
  }

  // ---- The receiving side: the head is taken ----

  /** The endpoint is at or past number h, with room if it still waits for h; `c` ties its
      progress to the length of its queue. */
  predicate At(k: Kcb, h: u32, c: int) {
    && EndpointOk(k)
    && c < 0x1_0000 && Sub(k.rcvNxt, h) == c + |k.rcvQueue|
    && (k.rcvNxt == h ==> |k.rcvQueue| < k.cfg.rcvWnd)
  }

  /** The head has been received and an acknowledgement is owed. */
  predicate Taken(k: Kcb, h: u32) {
    Sub(k.rcvNxt, h) > 0 && k.ackList != []
  }

  predicate IsHead(w: WireSeg, h: u32) {
    w.cmd == CMD_PUSH && w.sn == h
  }

  /** Inserting the expected segment puts it first, so it moves to the queue. */
  lemma ExpectedMoves(k: Kcb, s: InSeg)
    requires EndpointOk(k) && |k.rcvQueue| < k.cfg.rcvWnd && s.sn == k.rcvNxt
    ensures |MoveReady(k.cfg.rcvWnd, Inbox(k).(buf := Insert(k.rcvBuf, s))).queue| > |k.rcvQueue|
  {
    var wnd := k.cfg.rcvWnd;
    var buf := Insert(k.rcvBuf, s);
    InsertOk(k.rcvBuf, s, k.rcvNxt, wnd);
    var i :| 0 <= i < |buf| && buf[i].sn == s.sn;
    assert Sub(buf[i].sn, k.rcvNxt) == 0;
    assert forall j | 0 < j < |buf| :: Sub(buf[0].sn, k.rcvNxt) < Sub(buf[j].sn, k.rcvNxt);
    hide Insert, EndpointOk, InReorder;
    var r := Inbox(k).(buf := buf);
    assert ReadyCount(wnd, r) >= 1;
    MoveReadyGrows(wnd, r);
  }

  lemma TakeSeg(k: Kcb, w: WireSeg, h: u32, c: int)
    requires At(k, h, c)
    ensures At(InputSeg(k, w), h, c)
    ensures Taken(k, h) || IsHead(w, h) ==> Taken(InputSeg(k, w), h)
  {
    var k' := InputSeg(k, w);
    InputSegOk(k, w);
    assert Sub(k'.rcvNxt, h) == Sub(k.rcvNxt, h) + Sub(k'.rcvNxt, k.rcvNxt);
    UnaFrame(k, w);
    var k1 := Shrink(k.(rmtWnd := w.wnd, sndBuf := DropBefore(k.sndBuf, w.una)));
    hide InputSeg, Shrink, DropBefore, InputCmd, MoveReady, Insert;
    if w.cmd == CMD_ACK { AckFrame(k1, w); } else { PushFrame(k1, w); }
    if IsHead(w, h) {
      assert TimeDiff(h, Add(k.rcvNxt, k.cfg.rcvWnd)) < 0;
      if k.rcvNxt == h { ExpectedMoves(k, InSeg(w.sn, Frag(w.frg, w.data))); }
    }
  }

  lemma {:induction false} TakeSegs(k: Kcb, segs: seq<WireSeg>, h: u32, c: int)
    requires At(k, h, c)
    ensures At(InputSegs(k, segs), h, c)
    ensures Taken(k, h) || (exists w <- segs :: IsHead(w, h)) ==> Taken(InputSegs(k, segs), h)
    decreases |segs|
  {
    hide At, Taken, InputSeg, IsHead;
    if segs != [] {
      var n := |segs| - 1;
      TakeSegs(k, segs[..n], h, c);
      TakeSeg(InputSegs(k, segs[..n]), segs[n], h, c);
      assert segs == segs[..n] + [segs[n]];
    }
  }

  /** The tail of ikcp_input leaves the receive side alone. */
  lemma InputIs(k: Kcb, conv: u32, d: seq<byte>)
    requires k.cfg.conv == conv && |d| >= OVERHEAD && Parse(conv, d).1 == 0
    ensures
      var k1 := InputSegs(k, Parse(conv, d).0);
      var k' := Input(k, d).0;
      OnlyTimers(k1, k') && (EndpointOk(k1) ==> EndpointOk(k')) && k'.updated == k1.updated
  {
    var segs := Parse(conv, d).0;
    var k1 := InputSegs(k, segs);
    hide Parse, InputSegs, TrackAll;
    AfterInputFrame(k, k1, TrackAll(segs));
    if EndpointOk(k1) { AfterInputOk(k, k1, TrackAll(segs)); }
    hide EndpointOk, GrowWindow, CountSkipped, TimeDiff;
  }

  lemma {:induction false} TakeAll(k: Kcb, conv: u32, ds: seq<seq<byte>>, h: u32, c: int)
    requires At(k, h, c) && k.cfg.conv == conv
    requires forall d <- ds :: |d| >= OVERHEAD && Parse(conv, d).1 == 0
    ensures At(InputAll(k, ds), h, c) && InputAll(k, ds).cfg == k.cfg
    ensures Taken(k, h) || (exists d <- ds, w <- Parse(conv, d).0 :: IsHead(w, h)) ==> Taken(InputAll(k, ds), h)
    decreases |ds|
  {
    hide Parse, IsHead, Input, InputSegs, EndpointOk;
    if ds != [] {
      var n := |ds| - 1;
      var k0 := InputAll(k, ds[..n]);
      assert ds == ds[..n] + [ds[n]];
      TakeAll(k, conv, ds[..n], h, c);
      TakeSegs(k0, Parse(conv, ds[n]).0, h, c);
      InputSegsCfg(k0, Parse(conv, ds[n]).0);
      InputIs(k0, conv, ds[n]);
    }
  }

  lemma InputSegsCfg(k: Kcb, segs: seq<WireSeg>)
    requires EndpointOk(k)
    ensures InputSegs(k, segs).cfg == k.cfg && InputSegs(k, segs).sndNxt == k.sndNxt
  {
    InputSegsOk(k, segs);
  }

  /** Datagrams neither start the flush timer nor move it. */
  lemma {:induction false} SameTimer(k: Kcb, ds: seq<seq<byte>>)
    ensures InputAll(k, ds).updated == k.updated && InputAll(k, ds).tsFlush == k.tsFlush
    decreases |ds|
  {
    if ds != [] {
      SameTimer(k, ds[..|ds| - 1]);
      var k0, d := InputAll(k, ds[..|ds| - 1]), ds[|ds| - 1];
      SegsTimer(k0, Parse(k0.cfg.conv, d).0);
      hide Parse, InputSegs, GrowWindow, CountSkipped, TimeDiff, TrackAll;
    }
  }

  lemma {:induction false} SegsTimer(k: Kcb, segs: seq<WireSeg>)
    ensures InputSegs(k, segs).updated == k.updated && InputSegs(k, segs).tsFlush == k.tsFlush
    decreases |segs|
  {
    if segs != [] {
      SegsTimer(k, segs[..|segs| - 1]);
      SegTimerSame(InputSegs(k, segs[..|segs| - 1]), segs[|segs| - 1]);
      hide InputSeg;
    }
  }

  lemma SegTimerSame(k: Kcb, w: WireSeg)
    ensures InputSeg(k, w).updated == k.updated && InputSeg(k, w).tsFlush == k.tsFlush
  {
    var k1 := Shrink(k.(rmtWnd := w.wnd, sndBuf := DropBefore(k.sndBuf, w.una)));
    hide DropBefore, InputCmd;
    CmdTimerSame(k1, w);
  }

  lemma CmdTimerSame(k: Kcb, w: WireSeg)
    ensures InputCmd(k, w).updated == k.updated && InputCmd(k, w).tsFlush == k.tsFlush
  {
    UpdateAckFrame(k, TimeDiff(k.current, w.ts));
    hide UpdateAck, DropOne, MoveReady, Insert, TimeDiff, Add;
  }

  // ---- The sending side: the head is sent, and its acknowledgement counts ----

  /** The head of the window is due: never sent, or at or after its resendts. */
  predicate HeadDue(k: Kcb) {
    k.sndBuf != [] && (k.sndBuf[0].xmit == 0 || TimeDiff(k.current, k.sndBuf[0].resendTs) >= 0)
  }

  lemma {:induction false} FillPrefix(k: Kcb, cwnd: u32)
    ensures k.sndBuf <= FillWindow(k, cwnd).sndBuf && FillWindow(k, cwnd).current == k.current
    decreases |k.sndQueue|
  {
    if Fillable(k, cwnd) { FillPrefix(FillOne(k), cwnd); }
  }

  lemma {:induction false} PushesAll(k: Kcb, buf: seq<OutSeg>, e: OutSeg)
    requires SmallFrgs(buf) && e in buf && !WhySend(k, e).Wait?
    ensures Push(k, e) in PushSegs(k, buf)
    decreases |buf|
  {
    var n := |buf| - 1;
    hide WhySend, Push;
    if e in buf[..n] { PushesAll(k, buf[..n], e); } else { assert buf[n] == e; }
  }

  /** A due head is among the segments of the flush. */
  lemma HeadSent(k: Kcb)
    requires EndpointOk(k) && HeadDue(k)
    ensures SmallFrgs(Filled(k).sndBuf)
    ensures exists w <- FlushSegs(k) :: IsHead(w, k.sndUna)
  {
    FlushSegsFit(k);
    ProbeFrame(k);
    var k1 := Probe(k).(ackList := [], askSend := false, askTell := false);
    FillPrefix(k1, SendWindow(k));
    var f := Filled(k);
    var e := k.sndBuf[0];
    assert f.sndBuf[0] == e && f.current == k.current;
    assert e in f.sndBuf;
    hide Probe, FillWindow;
    assert !WhySend(f, e).Wait?;
    PushesAll(f, f.sndBuf, e);
    hide WhySend, PushSegs, Filled, AckSegs, ProbeSegs;
    assert Push(f, e) in FlushSegs(k) && IsHead(Push(f, e), k.sndUna);
  }

  lemma {:induction false} FlattenMember(groups: seq<seq<WireSeg>>, w: WireSeg)
    requires w in Flatten(groups)
    ensures exists g <- groups :: w in g
    decreases |groups|
  {
    var n := |groups| - 1;
    if w in Flatten(groups[..n]) {
      FlattenMember(groups[..n], w);
      var g :| g in groups[..n] && w in g;
      assert g in groups;
    } else {
      assert groups[n] in groups;
    }
  }

  /** Every segment of a flush is in one of its datagrams. */
  lemma Carried(conv: u32, ds: seq<seq<byte>>, w: WireSeg)
    requires w in Flatten(ParseAll(conv, ds))
    ensures exists d <- ds :: w in Parse(conv, d).0
  {
    hide Parse;
    var groups := ParseAll(conv, ds);
    FlattenMember(groups, w);
    var g :| g in groups && w in g;
    var j :| 0 <= j < |ds| && groups[j] == g;
    assert ds[j] in ds;
  }

  lemma HeadCarried(k: Kcb)
    requires EndpointOk(k) && k.updated && HeadDue(k)
    ensures exists d <- FlushOutput(k), w <- Parse(k.cfg.conv, d).0 :: IsHead(w, k.sndUna)
  {
    HeadSent(k);
    hide Parse, EndpointOk, FlushOutput, FlushSegs, Filled, HeadDue;
    FlushOutputDecodes(k);
    var w :| w in FlushSegs(k) && IsHead(w, k.sndUna);
    Carried(k.cfg.conv, FlushOutput(k), w);
  }

  /** snd_una counted from h, with the end of the window at distance n. */
  predicate From(k: Kcb, h: u32, n: int) {
    && EndpointOk(k)
    && 0 < n < HALF && Sub(k.sndNxt, h) == n && Sub(k.sndUna, h) + Sub(k.sndNxt, k.sndUna) == n
  }

  lemma UnaOk(k: Kcb, w: WireSeg)
    requires EndpointOk(k)
    ensures
      var k1 := Shrink(k.(rmtWnd := w.wnd, sndBuf := DropBefore(k.sndBuf, w.una)));
      EndpointOk(k1) && Inputs(k, k1)
  {
    ParseUnaOk(k.(rmtWnd := w.wnd), w.una);
    hide WindowOk, InboxOk, Packable, DropBefore, Sub;
  }

  /** Any una past h moves snd_una past h, and it stays there. */
  lemma AckSeg(k: Kcb, w: WireSeg, h: u32, n: int)
    requires From(k, h, n)
    ensures From(InputSeg(k, w), h, n)
    ensures Sub(k.sndUna, h) > 0 || TimeDiff(w.una, h) > 0 ==> Sub(InputSeg(k, w).sndUna, h) > 0
  {
    InputSegOk(k, w);
    UnaOk(k, w);
    UnaFrame(k, w);
    var k1 := Shrink(k.(rmtWnd := w.wnd, sndBuf := DropBefore(k.sndBuf, w.una)));
    InputCmdOk(k1, w);
    var k' := InputSeg(k, w);
    if k.sndUna == h && TimeDiff(w.una, h) > 0 {
      assert Sub(h, h) == 0;
      assert k.sndBuf != [];
      DropBeforeIs(k.sndBuf, w.una);
      assert AckedCount(k.sndBuf, w.una) >= 1;
      AfterHead(k, AckedCount(k.sndBuf, w.una));
    }
    hide EndpointOk, InputSeg, InputCmd, Shrink, DropBefore;
  }

  /** Behind the head every number is different from the head's. */
  lemma AfterHead(k: Kcb, c: nat)
    requires EndpointOk(k) && 1 <= c <= |k.sndBuf| && Sub(k.sndNxt, k.sndUna) > 0
    ensures (if c == |k.sndBuf| then k.sndNxt else k.sndBuf[c].sn) != k.sndUna
  {
    assert Sub(k.sndUna, k.sndUna) == 0;
    if c < |k.sndBuf| {
      assert Sub(k.sndBuf[0].sn, k.sndUna) < Sub(k.sndBuf[c].sn, k.sndUna);
    }
  }

  lemma {:induction false} AckSegsAll(k: Kcb, segs: seq<WireSeg>, h: u32, n: int)
    requires From(k, h, n)
    ensures From(InputSegs(k, segs), h, n)
    ensures Sub(k.sndUna, h) > 0 || (exists w <- segs :: TimeDiff(w.una, h) > 0)
      ==> Sub(InputSegs(k, segs).sndUna, h) > 0
    decreases |segs|
  {
    hide From, InputSeg, Sub, TimeDiff;
    if segs != [] {
      var m := |segs| - 1;
      AckSegsAll(k, segs[..m], h, n);
      AckSeg(InputSegs(k, segs[..m]), segs[m], h, n);
      assert segs == segs[..m] + [segs[m]];
    }
  }

  lemma {:induction false} AckAll(k: Kcb, conv: u32, ds: seq<seq<byte>>, h: u32, n: int)
    requires From(k, h, n) && k.cfg.conv == conv
    requires forall d <- ds :: |d| >= OVERHEAD && Parse(conv, d).1 == 0
    ensures From(InputAll(k, ds), h, n) && InputAll(k, ds).cfg == k.cfg
    ensures Sub(k.sndUna, h) > 0 || (exists d <- ds, w <- Parse(conv, d).0 :: TimeDiff(w.una, h) > 0)
      ==> Sub(InputAll(k, ds).sndUna, h) > 0
    decreases |ds|
  {
    hide Parse, Input, InputSegs, EndpointOk, Sub, TimeDiff;
    if ds != [] {
      var m := |ds| - 1;
      var k0 := InputAll(k, ds[..m]);
      assert ds == ds[..m] + [ds[m]];
      AckAll(k, conv, ds[..m], h, n);
      AckSegsAll(k0, Parse(conv, ds[m]).0, h, n);
      InputSegsCfg(k0, Parse(conv, ds[m]).0);
      InputIs(k0, conv, ds[m]);
    }
  }

  /** With an acknowledgement owed, some datagram of the flush carries rcv_nxt as its una. */
  lemma AckCarried(k: Kcb)
    requires EndpointOk(k) && k.updated && k.ackList != []
    ensures exists d <- FlushOutput(k), w <- Parse(k.cfg.conv, d).0 :: w.una == k.rcvNxt
  {
    FlushSegsFit(k);
    FlushSegsFrom(k, 0);
    var w := FlushSegs(k)[0];
    assert w in FlushSegs(k);
    hide Parse, EndpointOk, FlushOutput, FlushSegs, Filled;
    FlushOutputDecodes(k);
    Carried(k.cfg.conv, FlushOutput(k), w);
  }

  /** What a flush, delivered, and the peer's flush, delivered back, make of the sender. */
  function RoundTrip(a: Kcb, b: Kcb): Kcb
    requires EndpointOk(a) && EndpointOk(b)
  {
    var b1 := InputAll(b, FlushOutput(a));
    if EndpointOk(b1) then InputAll(Flushed(a), FlushOutput(b1)) else a
  }

  /** The peer takes the head and owes an acknowledgement. */
  lemma PeerTakes(a: Kcb, b: Kcb)
    requires EndpointOk(a) && EndpointOk(b) && a.cfg.conv == b.cfg.conv
    requires a.updated && HeadDue(a)
    requires |b.rcvQueue| < b.cfg.rcvWnd && Sub(b.rcvNxt, a.sndUna) < 0x1_0000
    ensures
      var b1 := InputAll(b, FlushOutput(a));
      && EndpointOk(b1) && b1.cfg == b.cfg && b1.updated == b.updated && b1.tsFlush == b.tsFlush && b1.ackList != []
      && TimeDiff(b1.rcvNxt, a.sndUna) > 0
  {
    var h, conv := a.sndUna, a.cfg.conv;
    var c := Sub(b.rcvNxt, h) - |b.rcvQueue|;
    var ds := FlushOutput(a);
    QueueShort(b);
    assert At(b, h, c);
    hide EndpointOk, FlushOutput, Parse, InputAll, HeadDue, IsHead, At, Taken;
    HeadCarried(a);
    FlushOutputDecodes(a);
    TakeAll(b, conv, ds, h, c);
    SameTimer(b, ds);
    TakenAhead(InputAll(b, ds), h, c);
  }

  lemma TakenAhead(k: Kcb, h: u32, c: int)
    requires At(k, h, c) && Taken(k, h) && -0x1_0000 < c < 0x1_0000
    ensures EndpointOk(k) && k.ackList != [] && TimeDiff(k.rcvNxt, h) > 0
  {
    QueueShort(k);
  }

  /** The exchange between two endpoints whose counters stand as the protocol keeps them. */
  lemma RoundTripAdvances(a: Kcb, b: Kcb)
    requires EndpointOk(a) && EndpointOk(b) && a.cfg.conv == b.cfg.conv
    requires a.updated && b.updated && HeadDue(a)
    requires |b.rcvQueue| < b.cfg.rcvWnd && Sub(b.rcvNxt, a.sndUna) < 0x1_0000
    ensures EndpointOk(InputAll(b, FlushOutput(a)))
    ensures TimeDiff(RoundTrip(a, b).sndUna, a.sndUna) > 0
  {
    hide EndpointOk, FlushOutput, InputAll, Flushed, TimeDiff;
    PeerTakes(a, b);
    AckComesBack(a, InputAll(b, FlushOutput(a)));
  }

  lemma AckComesBack(a: Kcb, b1: Kcb)
    requires EndpointOk(a) && EndpointOk(b1) && a.cfg.conv == b1.cfg.conv
    requires a.updated && a.sndBuf != [] && b1.updated && b1.ackList != [] && TimeDiff(b1.rcvNxt, a.sndUna) > 0
    ensures TimeDiff(InputAll(Flushed(a), FlushOutput(b1)).sndUna, a.sndUna) > 0
  {
    hide EndpointOk, Advances, FlushOutput, Parse, InputAll, Flushed, Sub, TimeDiff;
    FlushedOk(a);
    FlushedSpan(a);
    var n := Sub(Flushed(a).sndNxt, a.sndUna);
    assert From(Flushed(a), a.sndUna, n);
    hide From;
    AckCarried(b1);
    FlushOutputDecodes(b1);
    AckAll(Flushed(a), a.cfg.conv, FlushOutput(b1), a.sndUna, n);
    FromAhead(InputAll(Flushed(a), FlushOutput(b1)), a.sndUna, n);
  }

  lemma FromAhead(k: Kcb, h: u32, n: int)
    requires From(k, h, n) && Sub(k.sndUna, h) > 0
    ensures TimeDiff(k.sndUna, h) > 0
  {
  }

  lemma QueueShort(k: Kcb)
    requires EndpointOk(k)
    ensures |k.rcvQueue| < 0x1_0000
  {
  }

  /** After a flush the window is not empty and not wider than snd_wnd. */
  lemma FlushedSpan(k: Kcb)
    requires EndpointOk(k) && k.updated && k.sndBuf != []
    ensures Flushed(k).sndUna == k.sndUna && Flushed(k).cfg == k.cfg
    ensures 0 < Sub(Flushed(k).sndNxt, k.sndUna) < HALF && Sub(k.sndUna, k.sndUna) == 0
  {
    FlushedOk(k);
    FlushFrame(k);
    ProbeFrame(k);
    FillPrefix(Probe(k).(ackList := [], askSend := false, askTell := false), SendWindow(k));
    var f := Filled(k);
    assert |Flushed(k).sndBuf| > 0;
    hide Flushed, Probe, FillWindow, InboxOk, Packable;
  }

  // ---- From every reachable state ----

  /** The head of the window is due at the peer, and the peer has room for it. */
  predicate CanAdvance(a: Kcb, b: Kcb) {
    a.updated && b.updated && HeadDue(a) && |b.rcvQueue| < b.cfg.rcvWnd
  }

  /** Progress, from every reachable state and for either side: when data waits, its head is due,
      and the peer's receive queue has room, one exchange strictly advances snd_una. */
  lemma Progress(cfgA: Config, cfgB: Config, steps: seq<Step>)
    requires cfgA.conv == cfgB.conv
    ensures
      var z := Reached(cfgA, cfgB, steps);
      && (CanAdvance(z.a.k, z.b.k) ==> TimeDiff(RoundTrip(z.a.k, z.b.k).sndUna, z.a.k.sndUna) > 0)
      && (CanAdvance(z.b.k, z.a.k) ==> TimeDiff(RoundTrip(z.b.k, z.a.k).sndUna, z.b.k.sndUna) > 0)
  {
    ReachedOk(cfgA, cfgB, steps);
    var z := Reached(cfgA, cfgB, steps);
    hide Reached, Pair, RoundTrip, CanAdvance;
    PairSymmetric(z.a, z.b, z.toA, z.toB);
    if CanAdvance(z.a.k, z.b.k) { SideAdvances(z.a, z.b, z.toA, z.toB); }
    if CanAdvance(z.b.k, z.a.k) { SideAdvances(z.b, z.a, z.toB, z.toA); }
  }

  lemma SideAdvances(x: Side, y: Side, inn: set<Packet>, out: set<Packet>)
    requires Pair(x, y, inn, out) && EndpointOk(x.k) && EndpointOk(y.k) && CanAdvance(x.k, y.k)
    ensures TimeDiff(RoundTrip(x.k, y.k).sndUna, x.k.sndUna) > 0
  {
    hide Pair, RoundTrip, HeadDue;
    NotAhead(x, y, inn, out);
    RoundTripAdvances(x.k, y.k);
  }

  /** The head of the window is due at time `now`, and so is a flush. */
  predicate DueAtTime(a: Kcb, now: u32) {
    a.sndBuf != [] && (a.sndBuf[0].xmit == 0 || TimeDiff(now, a.sndBuf[0].resendTs) >= 0) && FlushDue(a, now)
  }

  /** ikcp_update flushes at `now`: it is its first call, or ts_flush has come. */
  predicate FlushDue(k: Kcb, now: u32) {
    !k.updated || TimeDiff(now, k.tsFlush) >= 0
  }

  /** What ikcp_update sends. */
  function UpdateOutput(k: Kcb, now: u32): seq<seq<byte>>
    requires EndpointOk(k)
  {
    TickOk(k, now);
    if Tick(k, now).1 then FlushOutput(Tick(k, now).0) else []
  }

  /** What ikcp_update at nowA, delivered, and the peer's ikcp_update at nowB, delivered back,
      make of the sender. */
  function UpdateTrip(a: Kcb, b: Kcb, nowA: u32, nowB: u32): Kcb
    requires EndpointOk(a) && EndpointOk(b)
  {
    var b1 := InputAll(b, UpdateOutput(a, nowA));
    if EndpointOk(b1) then InputAll(Updated(a, nowA), UpdateOutput(b1, nowB)) else a
  }

  /** The same for the call programs make: once the head's resendts and both flush timers have
      come, one ikcp_update on each side strictly advances snd_una. */
  lemma UpdateProgress(cfgA: Config, cfgB: Config, steps: seq<Step>, nowA: u32, nowB: u32)
    requires cfgA.conv == cfgB.conv
    ensures
      var z := Reached(cfgA, cfgB, steps);
      && (DueAtTime(z.a.k, nowA) && FlushDue(z.b.k, nowB) && |z.b.k.rcvQueue| < z.b.k.cfg.rcvWnd ==>
            TimeDiff(UpdateTrip(z.a.k, z.b.k, nowA, nowB).sndUna, z.a.k.sndUna) > 0)
      && (DueAtTime(z.b.k, nowB) && FlushDue(z.a.k, nowA) && |z.a.k.rcvQueue| < z.a.k.cfg.rcvWnd ==>
            TimeDiff(UpdateTrip(z.b.k, z.a.k, nowB, nowA).sndUna, z.b.k.sndUna) > 0)
  {
    ReachedOk(cfgA, cfgB, steps);
    var z := Reached(cfgA, cfgB, steps);
    hide Reached, Pair, UpdateTrip, DueAtTime, FlushDue;
    PairSymmetric(z.a, z.b, z.toA, z.toB);
    if DueAtTime(z.a.k, nowA) && FlushDue(z.b.k, nowB) && |z.b.k.rcvQueue| < z.b.k.cfg.rcvWnd {
      UpdateAdvances(z.a, z.b, z.toA, z.toB, nowA, nowB);
    }
    if DueAtTime(z.b.k, nowB) && FlushDue(z.a.k, nowA) && |z.a.k.rcvQueue| < z.a.k.cfg.rcvWnd {
      UpdateAdvances(z.b, z.a, z.toB, z.toA, nowB, nowA);
    }
  }

  lemma UpdateAdvances(x: Side, y: Side, inn: set<Packet>, out: set<Packet>, nowX: u32, nowY: u32)
    requires Pair(x, y, inn, out) && EndpointOk(x.k) && EndpointOk(y.k)
    requires DueAtTime(x.k, nowX) && FlushDue(y.k, nowY) && |y.k.rcvQueue| < y.k.cfg.rcvWnd
    ensures TimeDiff(UpdateTrip(x.k, y.k, nowX, nowY).sndUna, x.k.sndUna) > 0
  {
    NotAhead(x, y, inn, out);
    var a := Tick(x.k, nowX).0;
    TickDue(x.k, nowX);
    TickOk(x.k, nowX);
    assert HeadDue(a);
    hide Pair, EndpointOk, HeadDue, DueAtTime, FlushOutput, InputAll, Tick, FlushDue, Flushed, TimeDiff;
    PeerTakes(a, y.k);
    var b1 := InputAll(y.k, FlushOutput(a));
    SameDue(y.k, b1, nowY);
    TickDue(b1, nowY);
    TickOk(b1, nowY);
    AckComesBack(a, Tick(b1, nowY).0);
  }

  lemma SameDue(k: Kcb, k': Kcb, now: u32)
    requires FlushDue(k, now) && k'.updated == k.updated && k'.tsFlush == k.tsFlush
    ensures FlushDue(k', now)
  {
  }

  lemma TickDue(k: Kcb, now: u32)
    requires FlushDue(k, now)
    ensures Tick(k, now).1 && Tick(k, now).0.current == now && Tick(k, now).0.updated
    ensures Tick(k, now).0 == k.(current := now, updated := true, tsFlush := Tick(k, now).0.tsFlush)
  {
    TickFrame(k, now);
  }

  /** With room in its queue the peer has delivered everything up to snd_una. */
  lemma NotAhead(x: Side, y: Side, inn: set<Packet>, out: set<Packet>)
    requires Pair(x, y, inn, out) && |y.k.rcvQueue| < y.k.cfg.rcvWnd
    ensures EndpointOk(x.k) && EndpointOk(y.k) && x.k.cfg.conv == y.k.cfg.conv
    ensures Sub(y.k.rcvNxt, x.k.sndUna) < 0x1_0000
  {
    RoomFor(x, y, inn, out);
    assert SideOk(x) && SideOk(y);
    assert Dir(x, y, out, inn);
    hide EndpointOk, Encodes, Stream, Receiving, WindowOk, InboxOk, Conserved, AcksHeld, AllData, AllAcks, Accepts,
      SenderRole;
    assert x.una <= y.rnxt <= x.nxt;
    SubWrap(y.rnxt, x.una);
  }
}
