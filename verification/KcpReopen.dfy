/** A closed window opens again: when a probe is due, one flush delivered and one flush back tell the
    sender exactly the room there is, and data flows again. */
module KcpReopen {
  import opened Word32
  import opened KcpWire
  import opened KcpEndpoint
  import opened KcpCongestion
  import opened KcpInvariant
  import opened KcpSystem
  import opened KcpRuns
  import opened KcpProgress

  /** The peer's window is closed, and it is time to ask. */
  predicate ProbeDue(k: Kcb) {
    k.updated && k.rmtWnd == 0 && k.probeWait != 0 && TimeDiff(k.current, k.tsProbe) >= 0
  }

  // ---- The question ----

  lemma AsksWindow(k: Kcb)
    requires EndpointOk(k) && ProbeDue(k)
    ensures exists d <- FlushOutput(k), w <- Parse(k.cfg.conv, d).0 :: w.cmd == CMD_WASK
  {
    FlushSegsFit(k);
    var w := ProbeSegs(k)[0];
    assert w in FlushSegs(k) && w.cmd == CMD_WASK;
    hide Parse, EndpointOk, FlushOutput, FlushSegs, Filled, ProbeDue;
    FlushOutputDecodes(k);
    Carried(k.cfg.conv, FlushOutput(k), w);
  }

  lemma TellSeg(k: Kcb, w: WireSeg)
    ensures InputSeg(k, w).askTell == (k.askTell || w.cmd == CMD_WASK)
  {
    hide DropBefore, InputCmd;
    TellCmd(Shrink(k.(rmtWnd := w.wnd, sndBuf := DropBefore(k.sndBuf, w.una))), w);
  }

  lemma TellCmd(k: Kcb, w: WireSeg)
    ensures InputCmd(k, w).askTell == (k.askTell || w.cmd == CMD_WASK) && InputCmd(k, w).rmtWnd == k.rmtWnd
  {
    UpdateAckFrame(k, TimeDiff(k.current, w.ts));
    hide UpdateAck, DropOne, MoveReady, Insert, TimeDiff, Add;
  }

  lemma {:induction false} TellSegs(k: Kcb, segs: seq<WireSeg>)
    ensures InputSegs(k, segs).askTell == (k.askTell || exists w <- segs :: w.cmd == CMD_WASK)
    decreases |segs|
  {
    hide InputSeg;
    if segs != [] {
      var n := |segs| - 1;
      TellSegs(k, segs[..n]);
      TellSeg(InputSegs(k, segs[..n]), segs[n]);
      assert segs == segs[..n] + [segs[n]];
    }
  }

  /** Which fields the tail of ikcp_input leaves alone. */
  lemma TailFrame(k: Kcb, conv: u32, d: seq<byte>)
    requires k.cfg.conv == conv && |d| >= OVERHEAD && Parse(conv, d).1 == 0
    ensures
      var k1, k' := InputSegs(k, Parse(conv, d).0), Input(k, d).0;
      k'.askTell == k1.askTell && k'.rmtWnd == k1.rmtWnd
  {
    hide Parse, InputSegs, TrackAll, GrowWindow, CountSkipped, TimeDiff;
  }

  /** Datagrams that decode, delivered one after the other, keep the endpoint in order. */
  lemma {:induction false} InputAllOk(k: Kcb, ds: seq<seq<byte>>)
    requires EndpointOk(k)
    ensures EndpointOk(InputAll(k, ds)) && InputAll(k, ds).cfg == k.cfg
    decreases |ds|
  {
    if ds != [] {
      InputAllOk(k, ds[..|ds| - 1]);
      var k0, d := InputAll(k, ds[..|ds| - 1]), ds[|ds| - 1];
      InputOk(k0, d);
      InputCfgSame(k0, d);
      hide EndpointOk, Input;
    }
  }

  lemma InputCfgSame(k: Kcb, d: seq<byte>)
    requires EndpointOk(k)
    ensures Input(k, d).0.cfg == k.cfg
  {
    if |d| >= OVERHEAD {
      InputSegsCfg(k, Parse(k.cfg.conv, d).0);
      hide EndpointOk, Parse, InputSegs, TrackAll, GrowWindow, CountSkipped, TimeDiff;
    }
  }

  lemma {:induction false} TellAll(k: Kcb, conv: u32, ds: seq<seq<byte>>)
    requires EndpointOk(k) && k.cfg.conv == conv && forall d <- ds :: |d| >= OVERHEAD && Parse(conv, d).1 == 0
    ensures k.askTell || (exists d <- ds, w <- Parse(conv, d).0 :: w.cmd == CMD_WASK) ==> InputAll(k, ds).askTell
    decreases |ds|
  {
    hide Parse, Input, InputSegs, EndpointOk;
    if ds != [] {
      var n := |ds| - 1;
      var k0 := InputAll(k, ds[..n]);
      assert ds == ds[..n] + [ds[n]];
      TellAll(k, conv, ds[..n]);
      InputAllOk(k, ds[..n]);
      TellSegs(k0, Parse(conv, ds[n]).0);
      TailFrame(k0, conv, ds[n]);
    }
  }

  // ---- The answer ----

  /** Every segment of a flush announces the room there is. */
  lemma SegsAnnounce(k: Kcb)
    requires EndpointOk(k) && SmallFrgs(Filled(k).sndBuf)
    ensures forall w <- FlushSegs(k) :: w.wnd == WndUnused(k)
  {
    var f := Filled(k);
    FilledFrame(k);
    PushSegsFrom(f, f.sndBuf);
    assert WndUnused(f) == WndUnused(k);
    hide Filled, EndpointOk, WhySend, PushSegs, WndUnused, Probe;
    forall w | w in FlushSegs(k) ensures w.wnd == WndUnused(k) {
      if w in PushSegs(f, f.sndBuf) {
        var e :| e in f.sndBuf && w == Push(f, e);
      }
    }
  }

  lemma {:induction false} FlattenFrom(groups: seq<seq<WireSeg>>, g: seq<WireSeg>, w: WireSeg)
    requires g in groups && w in g
    ensures w in Flatten(groups)
    decreases |groups|
  {
    var n := |groups| - 1;
    if g in groups[..n] { FlattenFrom(groups[..n], g, w); }
  }

  lemma OutputAnnounces(k: Kcb)
    requires EndpointOk(k) && k.updated
    ensures forall d <- FlushOutput(k), w <- Parse(k.cfg.conv, d).0 :: w.wnd == WndUnused(k)
  {
    FlushSegsFit(k);
    SegsAnnounce(k);
    hide Parse, EndpointOk, FlushOutput, FlushSegs, Filled, WndUnused;
    FlushOutputDecodes(k);
    var ds := FlushOutput(k);
    forall d, w | d in ds && w in Parse(k.cfg.conv, d).0 ensures w.wnd == WndUnused(k) {
      var j :| 0 <= j < |ds| && ds[j] == d;
      var groups := ParseAll(k.cfg.conv, ds);
      assert groups[j] in groups;
      FlattenFrom(groups, groups[j], w);
    }
  }

  lemma SegsSetWindow(k: Kcb, segs: seq<WireSeg>, wnd: u16)
    requires segs != [] && forall w <- segs :: w.wnd == wnd
    ensures InputSegs(k, segs).rmtWnd == wnd
  {
    var w := segs[|segs| - 1];
    var k0 := InputSegs(k, segs[..|segs| - 1]);
    hide DropBefore, InputCmd, InputSegs;
    OneSets(k0, w);
    LastSeg(k, segs);
  }

  lemma OneSets(k: Kcb, w: WireSeg)
    ensures InputSeg(k, w).rmtWnd == w.wnd
  {
    hide DropBefore, InputCmd;
    TellCmd(Shrink(k.(rmtWnd := w.wnd, sndBuf := DropBefore(k.sndBuf, w.una))), w);
  }

  lemma LastSeg(k: Kcb, segs: seq<WireSeg>)
    requires segs != []
    ensures InputSegs(k, segs) == InputSeg(InputSegs(k, segs[..|segs| - 1]), segs[|segs| - 1])
  {
    hide InputSeg;
  }

  lemma SomeSegs(conv: u32, d: seq<byte>)
    requires |d| >= OVERHEAD && Parse(conv, d).1 == 0
    ensures Parse(conv, d).0 != []
  {
  }

  lemma AllSetWindow(k: Kcb, conv: u32, ds: seq<seq<byte>>, wnd: u16)
    requires EndpointOk(k) && k.cfg.conv == conv && ds != []
    requires forall d <- ds :: |d| >= OVERHEAD && Parse(conv, d).1 == 0
    requires forall d <- ds, w <- Parse(conv, d).0 :: w.wnd == wnd
    ensures InputAll(k, ds).rmtWnd == wnd
  {
    hide Parse, Input, InputSegs, EndpointOk;
    var n := |ds| - 1;
    var k0, d := InputAll(k, ds[..n]), ds[n];
    assert d in ds;
    InputAllOk(k, ds[..n]);
    SomeSegs(conv, d);
    SegsSetWindow(k0, Parse(conv, d).0, wnd);
    TailFrame(k0, conv, d);
  }

  /** The exchange leaves the sender with exactly the room the peer has once it has taken what the
      flush carried. */
  lemma LearnsWindow(a: Kcb, b: Kcb)
    requires EndpointOk(a) && EndpointOk(b) && a.cfg.conv == b.cfg.conv && ProbeDue(a) && b.updated
    ensures
      var b1 := InputAll(b, FlushOutput(a));
      EndpointOk(b1) && b1.cfg == b.cfg && RoundTrip(a, b).rmtWnd == WndUnused(b1)
  {
    var ds := FlushOutput(a);
    var b1 := InputAll(b, ds);
    hide EndpointOk, FlushOutput, Parse, InputAll, Flushed, WndUnused, ProbeDue;
    AsksWindow(a);
    FlushOutputDecodes(a);
    InputAllOk(b, ds);
    TellAll(b, a.cfg.conv, ds);
    SameTimer(b, ds);
    Answers(b1);
    OutputAnnounces(b1);
    FlushOutputDecodes(b1);
    FlushedOk(a);
    FlushedCfg(a);
    AllSetWindow(Flushed(a), a.cfg.conv, FlushOutput(b1), WndUnused(b1));
  }

  lemma FlushedCfg(k: Kcb)
    requires EndpointOk(k)
    ensures Flushed(k).cfg == k.cfg
  {
    FlushFrame(k);
    hide Flushed, Filled, SameNumbers, EndpointOk;
  }

  lemma Answers(k: Kcb)
    requires EndpointOk(k) && k.updated && k.askTell
    ensures FlushOutput(k) != []
  {
    FlushSegsFit(k);
    var w := ProbeSegs(k)[|ProbeSegs(k)| - 1];
    assert w in FlushSegs(k);
    hide Parse, EndpointOk, FlushOutput, FlushSegs, Filled;
    FlushOutputDecodes(k);
    Carried(k.cfg.conv, FlushOutput(k), w);
  }

  // ---- How much room that is ----

  /** What the receive side stores. */
  function Load(k: Kcb): nat {
    |k.rcvQueue| + |k.rcvBuf|
  }

  function Pushes(segs: seq<WireSeg>): nat
    decreases |segs|
  {
    if segs == [] then 0 else Pushes(segs[..|segs| - 1]) + (if segs[|segs| - 1].cmd == CMD_PUSH then 1 else 0)
  }

  lemma {:induction false} PushesJoin(a: seq<WireSeg>, b: seq<WireSeg>)
    ensures Pushes(a + b) == Pushes(a) + Pushes(b)
    decreases |b|
  {
    if b == [] {
      assert a + b == a;
    } else {
      var n := |b| - 1;
      assert (a + b)[..|a + b| - 1] == a + b[..n];
      PushesJoin(a, b[..n]);
    }
  }

  lemma {:induction false} MoveReadyLoad(wnd: nat, r: Incoming)
    ensures var r' := MoveReady(wnd, r); |r'.queue| + |r'.buf| == |r.queue| + |r.buf|
    decreases |r.buf|
  {
    if r.buf != [] && r.buf[0].sn == r.rcvNxt && |r.queue| < wnd {
      MoveReadyLoad(wnd, Incoming(Add(r.rcvNxt, 1), r.queue + [r.buf[0].f], r.buf[1..]));
    }
  }

  lemma SegLoad(k: Kcb, w: WireSeg)
    ensures w.cmd != CMD_PUSH ==> Inbox(InputSeg(k, w)) == Inbox(k)
    ensures Load(InputSeg(k, w)) <= Load(k) + (if w.cmd == CMD_PUSH then 1 else 0)
  {
    UnaFrame(k, w);
    var k1 := Shrink(k.(rmtWnd := w.wnd, sndBuf := DropBefore(k.sndBuf, w.una)));
    hide InputSeg, Shrink, DropBefore, MoveReady, Insert, TimeDiff, Add;
    if w.cmd == CMD_ACK { AckFrame(k1, w); } else { PushFrame(k1, w); }
    InputCfg(k1, w);
    var s := InSeg(w.sn, Frag(w.frg, w.data));
    InsertLoad(k.rcvBuf, s);
    MoveReadyLoad(k.cfg.rcvWnd, Inbox(k1).(buf := Insert(k1.rcvBuf, s)));
    hide InputCmd;
  }

  lemma InsertLoad(buf: seq<InSeg>, s: InSeg)
    ensures |Insert(buf, s)| <= |buf| + 1
  {
    hide InsertAt;
  }

  lemma {:induction false} SegsLoad(k: Kcb, segs: seq<WireSeg>)
    ensures Load(InputSegs(k, segs)) <= Load(k) + Pushes(segs)
    ensures Pushes(segs) == 0 ==> Inbox(InputSegs(k, segs)) == Inbox(k)
    decreases |segs|
  {
    hide InputSeg;
    if segs != [] {
      SegsLoad(k, segs[..|segs| - 1]);
      SegLoad(InputSegs(k, segs[..|segs| - 1]), segs[|segs| - 1]);
    }
  }

  lemma {:induction false} AllLoad(k: Kcb, conv: u32, ds: seq<seq<byte>>)
    requires EndpointOk(k) && k.cfg.conv == conv && forall d <- ds :: |d| >= OVERHEAD && Parse(conv, d).1 == 0
    ensures Load(InputAll(k, ds)) <= Load(k) + Pushes(Flatten(ParseAll(conv, ds)))
    ensures Pushes(Flatten(ParseAll(conv, ds))) == 0 ==> Inbox(InputAll(k, ds)) == Inbox(k)
    decreases |ds|
  {
    hide Parse, Input, InputSegs, EndpointOk, Pushes, Flatten, ParseAll;
    if ds != [] {
      var n := |ds| - 1;
      var k0 := InputAll(k, ds[..n]);
      assert ds == ds[..n] + [ds[n]];
      AllLoad(k, conv, ds[..n]);
      InputAllOk(k, ds[..n]);
      SegsLoad(k0, Parse(conv, ds[n]).0);
      InputIs(k0, conv, ds[n]);
      LastDatagram(conv, ds);
    } else {
      NoPushes();
    }
  }

  lemma LastDatagram(conv: u32, ds: seq<seq<byte>>)
    requires ds != []
    ensures
      Pushes(Flatten(ParseAll(conv, ds))) ==
      Pushes(Flatten(ParseAll(conv, ds[..|ds| - 1]))) + Pushes(Parse(conv, ds[|ds| - 1]).0)
  {
    hide Parse, Pushes;
    var n := |ds| - 1;
    var groups := ParseAll(conv, ds);
    assert groups[..n] == ParseAll(conv, ds[..n]);
    PushesJoin(Flatten(groups[..n]), Parse(conv, ds[n]).0);
  }

  lemma NoPushes()
    ensures Pushes([]) == 0
  {
  }

  lemma {:induction false} PushCount(k: Kcb, buf: seq<OutSeg>)
    requires SmallFrgs(buf)
    ensures Pushes(PushSegs(k, buf)) <= |buf|
    decreases |buf|
  {
    if buf != [] {
      var n := |buf| - 1;
      assert buf[n] in buf;
      PushCount(k, buf[..n]);
      var last := if WhySend(k, buf[n]).Wait? then [] else [Push(k, buf[n])];
      PushesJoin(PushSegs(k, buf[..n]), last);
      OnePush(last);
      hide WhySend, Push;
    }
  }

  lemma OnePush(segs: seq<WireSeg>)
    requires |segs| <= 1
    ensures Pushes(segs) <= |segs|
  {
  }

  lemma {:induction false} NoneArePushes(segs: seq<WireSeg>)
    requires forall w <- segs :: w.cmd != CMD_PUSH
    ensures Pushes(segs) == 0
    decreases |segs|
  {
    if segs != [] {
      assert segs[|segs| - 1] in segs;
      NoneArePushes(segs[..|segs| - 1]);
    }
  }

  /** With the window closed a flush sends at most what already waits for its acknowledgement. */
  lemma ClosedSends(k: Kcb)
    requires EndpointOk(k) && k.rmtWnd == 0 && SmallFrgs(Filled(k).sndBuf)
    ensures Pushes(FlushSegs(k)) <= |k.sndBuf|
  {
    ClosedFills(k);
    var control, data := AckSegs(k) + ProbeSegs(k), PushSegs(Filled(k), Filled(k).sndBuf);
    NoneArePushes(control);
    PushCount(Filled(k), Filled(k).sndBuf);
    PushesJoin(control, data);
    hide EndpointOk, PushSegs, Filled, AckSegs, ProbeSegs;
  }

  lemma ClosedFills(k: Kcb)
    requires EndpointOk(k) && k.rmtWnd == 0
    ensures Filled(k).sndBuf == k.sndBuf
  {
    ProbeFrame(k);
    var k1 := Probe(k).(ackList := [], askSend := false, askTell := false);
    assert SendWindow(k) == 0;
    assert Add(k.sndUna, 0) == k.sndUna;
    assert !Fillable(k1, 0);
    hide Probe;
  }

  /** So the window reopens by at least what is free after all that the peer stores and the sender
      may resend; and by exactly what the peer has free if nothing waits at the sender. */
  lemma Reopens(a: Kcb, b: Kcb)
    requires EndpointOk(a) && EndpointOk(b) && a.cfg.conv == b.cfg.conv && ProbeDue(a) && b.updated
    ensures RoundTrip(a, b).rmtWnd >= b.cfg.rcvWnd - (Load(b) + |a.sndBuf|)
    ensures a.sndBuf == [] ==> RoundTrip(a, b).rmtWnd == WndUnused(b)
  {
    var ds := FlushOutput(a);
    var b1 := InputAll(b, ds);
    LearnsWindow(a, b);
    FlushSegsFit(a);
    ClosedSends(a);
    hide EndpointOk, FlushOutput, Parse, InputAll, Flushed, Filled, FlushSegs, RoundTrip;
    FlushOutputDecodes(a);
    AllLoad(b, a.cfg.conv, ds);
  }

  /** Room at the peer alone is not enough: when the head is due, is the number the peer waits for, and
      takes the last place, the answer is that the window is closed. KcpShut has a run that gets there. */
  lemma StaysClosed(a: Kcb, b: Kcb)
    requires EndpointOk(a) && EndpointOk(b) && a.cfg.conv == b.cfg.conv && ProbeDue(a) && b.updated
    requires HeadDue(a) && b.rcvNxt == a.sndUna && |b.rcvQueue| + 1 == b.cfg.rcvWnd
    ensures RoundTrip(a, b).rmtWnd == 0
  {
    var ds, h, c := FlushOutput(a), a.sndUna, -|b.rcvQueue|;
    QueueShort(b);
    assert At(b, h, c);
    hide EndpointOk, FlushOutput, Parse, InputAll, HeadDue, IsHead, At, Taken, RoundTrip;
    LearnsWindow(a, b);
    HeadCarried(a);
    FlushOutputDecodes(a);
    TakeAll(b, a.cfg.conv, ds, h, c);
    NowFull(InputAll(b, ds), h, c);
  }

  lemma NowFull(k: Kcb, h: u32, c: int)
    requires At(k, h, c) && Taken(k, h) && -c + 1 == k.cfg.rcvWnd
    ensures WndUnused(k) == 0
  {
  }

  // ---- Data flows again ----

  lemma {:induction false} NothingComesBack(k: Kcb, ds: seq<seq<byte>>)
    requires EndpointOk(k) && k.sndBuf == []
    ensures InputAll(k, ds).sndBuf == [] && InputAll(k, ds).sndQueue == k.sndQueue
    decreases |ds|
  {
    if ds != [] {
      NothingComesBack(k, ds[..|ds| - 1]);
      InputAllOk(k, ds[..|ds| - 1]);
      EmptyStays(InputAll(k, ds[..|ds| - 1]), ds[|ds| - 1]);
      hide EndpointOk, Input;
    }
  }

  lemma EmptyStays(k: Kcb, d: seq<byte>)
    requires k.sndBuf == []
    ensures Input(k, d).0.sndBuf == [] && Input(k, d).0.sndQueue == k.sndQueue
  {
    if |d| >= OVERHEAD {
      var segs := Parse(k.cfg.conv, d).0;
      EmptyStaysSegs(k, segs);
      AfterInputFrame(k, InputSegs(k, segs), TrackAll(segs));
      hide Parse, InputSegs, AfterInput, TrackAll;
    }
  }

  lemma {:induction false} EmptyStaysSegs(k: Kcb, segs: seq<WireSeg>)
    requires k.sndBuf == []
    ensures InputSegs(k, segs).sndBuf == [] && InputSegs(k, segs).sndQueue == k.sndQueue
    decreases |segs|
  {
    hide InputSeg;
    if segs != [] {
      var k0 := InputSegs(k, segs[..|segs| - 1]);
      EmptyStaysSegs(k, segs[..|segs| - 1]);
      InputSendFields(k0, segs[|segs| - 1]);
      hide TimeDiff;
    }
  }

  /** With an open window, and nothing in it, the next flush sends the first queued fragment. */
  lemma FirstGoesOut(k: Kcb)
    requires EndpointOk(k) && k.updated && k.rmtWnd > 0 && (k.cfg.noCwnd || k.cwnd > 0)
    requires k.sndBuf == [] && k.sndQueue != []
    ensures exists d <- FlushOutput(k), w <- Parse(k.cfg.conv, d).0 ::
      IsHead(w, k.sndNxt) && Frag(w.frg, w.data) == k.sndQueue[0]
  {
    FlushSegsFit(k);
    ProbeFrame(k);
    var k1 := Probe(k).(ackList := [], askSend := false, askTell := false);
    var e := NewOut(k1);
    FillsFirst(k);
    var f := Filled(k);
    assert e in f.sndBuf && WhySend(f, e).First?;
    hide Probe, FillWindow, Filled;
    PushesAll(f, f.sndBuf, e);
    var w := Push(f, e);
    hide PushSegs, AckSegs, ProbeSegs, WhySend;
    assert w in FlushSegs(k) && IsHead(w, k.sndNxt);
    hide Parse, EndpointOk, FlushOutput, FlushSegs;
    FlushOutputDecodes(k);
    Carried(k.cfg.conv, FlushOutput(k), w);
  }

  lemma FillsFirst(k: Kcb)
    requires EndpointOk(k) && k.rmtWnd > 0 && (k.cfg.noCwnd || k.cwnd > 0) && k.sndBuf == [] && k.sndQueue != []
    ensures
      var k1 := Probe(k).(ackList := [], askSend := false, askTell := false);
      k1.sndQueue == k.sndQueue && k1.sndNxt == k.sndNxt && NewOut(k1) in Filled(k).sndBuf
  {
    ProbeFrame(k);
    var k1 := Probe(k).(ackList := [], askSend := false, askTell := false);
    var wnd := SendWindow(k);
    assert 0 < wnd < 0x1_0000;
    assert Fillable(k1, wnd);
    FillPrefix(FillOne(k1), wnd);
    assert FillOne(k1).sndBuf[0] == NewOut(k1);
    assert Filled(k).sndBuf[0] == NewOut(k1);
  }

  /** A flush leaves the congestion window open, and datagrams never shut it. */
  lemma FlushedCwnd(k: Kcb)
    requires EndpointOk(k) && k.updated
    ensures Flushed(k).cwnd >= 1
  {
    hide Filled, SentOut, AnyFast, CountTimeouts, EndpointOk;
  }

  lemma {:induction false} CwndStays(k: Kcb, ds: seq<seq<byte>>)
    requires EndpointOk(k) && k.cwnd >= 1
    ensures InputAll(k, ds).cwnd >= 1
    decreases |ds|
  {
    if ds != [] {
      CwndStays(k, ds[..|ds| - 1]);
      InputAllOk(k, ds[..|ds| - 1]);
      InputCwnd(InputAll(k, ds[..|ds| - 1]), ds[|ds| - 1]);
      hide EndpointOk, Input;
    }
  }

  lemma InputCwnd(k: Kcb, d: seq<byte>)
    requires EndpointOk(k) && k.cwnd >= 1
    ensures Input(k, d).0.cwnd >= 1
  {
    if |d| >= OVERHEAD {
      var segs := Parse(k.cfg.conv, d).0;
      var k1 := InputSegs(k, segs);
      SegsCwnd(k, segs);
      InputSegsOk(k, segs);
      var newest := TrackAll(segs);
      var k2 := if newest.NoAck? then k1 else ParseFastAck(k1, newest.sn, newest.ts);
      assert CwndOk(k2) by {
        hide Near, TimeDiff, CountSkipped, InputSegs, Parse, TrackAll, WindowOk, InboxOk, Packable;
      }
      GrowCwndOk(k2);
      hide EndpointOk, Parse, InputSegs, TrackAll, GrowWindow, CountSkipped, TimeDiff, Near;
    }
  }

  lemma {:induction false} SegsCwnd(k: Kcb, segs: seq<WireSeg>)
    ensures InputSegs(k, segs).cwnd == k.cwnd
    decreases |segs|
  {
    hide InputSeg;
    if segs != [] {
      SegsCwnd(k, segs[..|segs| - 1]);
      SegCwnd(InputSegs(k, segs[..|segs| - 1]), segs[|segs| - 1]);
    }
  }

  lemma SegCwnd(k: Kcb, w: WireSeg)
    ensures InputSeg(k, w).cwnd == k.cwnd
  {
    hide DropBefore, InputCmd;
    CmdCwnd(Shrink(k.(rmtWnd := w.wnd, sndBuf := DropBefore(k.sndBuf, w.una))), w);
  }

  lemma CmdCwnd(k: Kcb, w: WireSeg)
    ensures InputCmd(k, w).cwnd == k.cwnd
  {
    UpdateAckFrame(k, TimeDiff(k.current, w.ts));
    hide UpdateAck, DropOne, MoveReady, Insert, TimeDiff, Add;
  }

  /** The sender after the exchange, when nothing waited for an acknowledgement. */
  lemma ReadyToSend(a: Kcb, b: Kcb)
    requires EndpointOk(a) && EndpointOk(b) && a.cfg.conv == b.cfg.conv && ProbeDue(a) && b.updated && a.sndBuf == []
    ensures
      var a2 := RoundTrip(a, b);
      EndpointOk(a2) && a2.updated && a2.sndBuf == [] && a2.sndQueue == a.sndQueue && a2.cwnd >= 1
  {
    var b1 := InputAll(b, FlushOutput(a));
    LearnsWindow(a, b);
    FlushedOk(a);
    ClosedFlush(a);
    FlushedCwnd(a);
    hide EndpointOk, FlushOutput, InputAll, Flushed;
    InputAllOk(Flushed(a), FlushOutput(b1));
    SameTimer(Flushed(a), FlushOutput(b1));
    NothingComesBack(Flushed(a), FlushOutput(b1));
    CwndStays(Flushed(a), FlushOutput(b1));
  }

  lemma ClosedFlush(k: Kcb)
    requires EndpointOk(k) && k.updated && k.rmtWnd == 0 && k.sndBuf == []
    ensures Flushed(k).sndBuf == [] && Flushed(k).sndQueue == k.sndQueue && Flushed(k).updated
  {
    ProbeFrame(k);
    var k1 := Probe(k).(ackList := [], askSend := false, askTell := false);
    assert SendWindow(k) == 0 && Add(k.sndUna, 0) == k.sndUna && !Fillable(k1, 0);
    var f := Filled(k);
    ShrinkCwndFrame(SentOut(f), k.cwnd, AnyFast(f, f.sndBuf), CountTimeouts(f, f.sndBuf) > 0);
    hide Probe, ShrinkCwnd, AnyFast, CountTimeouts, AnyDead;
  }

  /** A flush of k carries this fragment, numbered. */
  predicate SendsNext(k: Kcb, f: Frag)
    requires EndpointOk(k)
  {
    exists d <- FlushOutput(k), w <- Parse(k.cfg.conv, d).0 :: IsHead(w, k.sndNxt) && Frag(w.frg, w.data) == f
  }

  /** What the exchange brings when x's probe is due. */
  predicate Reopened(x: Kcb, y: Kcb)
    requires EndpointOk(x) && EndpointOk(y)
  {
    var x2, y1 := RoundTrip(x, y), InputAll(y, FlushOutput(x));
    && x2.rmtWnd == WndUnused(y1)
    && x2.rmtWnd >= y.cfg.rcvWnd - (Load(y) + |x.sndBuf|)
    && (x.sndBuf == [] && |y.rcvQueue| < y.cfg.rcvWnd ==>
          && x2.rmtWnd == y.cfg.rcvWnd - |y.rcvQueue| > 0
          && (x.sndQueue != [] ==> EndpointOk(x2) && SendsNext(x2, x.sndQueue[0])))
  }

  /** From every reachable state, for either side: when the peer's window is closed and a probe is due,
      one exchange tells the sender exactly the room left at the peer. That is never less than what is
      free after all the peer stores and the sender may resend; and when nothing waits at the sender it
      is what the peer has free, so that with any room at all the next flush sends queued data. */
  lemma WindowReopens(cfgA: Config, cfgB: Config, steps: seq<Step>)
    requires cfgA.conv == cfgB.conv
    ensures
      var z := Reached(cfgA, cfgB, steps);
      && (ProbeDue(z.a.k) && z.b.k.updated ==> Reopened(z.a.k, z.b.k))
      && (ProbeDue(z.b.k) && z.a.k.updated ==> Reopened(z.b.k, z.a.k))
  {
    ReachedOk(cfgA, cfgB, steps);
    var z := Reached(cfgA, cfgB, steps);
    hide Reached, SideOk, Dir, Encodes, Reopened, ProbeDue;
    if ProbeDue(z.a.k) && z.b.k.updated { SideReopens(z.a.k, z.b.k); }
    if ProbeDue(z.b.k) && z.a.k.updated { SideReopens(z.b.k, z.a.k); }
  }

  lemma SideReopens(x: Kcb, y: Kcb)
    requires EndpointOk(x) && EndpointOk(y) && x.cfg.conv == y.cfg.conv && ProbeDue(x) && y.updated
    ensures Reopened(x, y)
  {
    hide EndpointOk, FlushOutput, InputAll, RoundTrip, ProbeDue, SendsNext;
    LearnsWindow(x, y);
    Reopens(x, y);
    if x.sndBuf == [] && x.sndQueue != [] && |y.rcvQueue| < y.cfg.rcvWnd {
      ReadyToSend(x, y);
      NextGoesOut(RoundTrip(x, y));
    }
  }

  lemma NextGoesOut(k: Kcb)
    requires EndpointOk(k) && k.updated && k.rmtWnd > 0 && k.cwnd >= 1 && k.sndBuf == [] && k.sndQueue != []
    ensures SendsNext(k, k.sndQueue[0])
  {
    hide EndpointOk, FlushOutput, Parse;
    FirstGoesOut(k);
  }
}
