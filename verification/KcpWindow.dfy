/** How much a flush lets out: exactly what the send window, the peer's window and the congestion
    window leave room for, in order, and all of it is sent at once. */
module KcpWindow {
  import opened Word32
  import opened KcpEndpoint
  import opened KcpInvariant
  import opened KcpDirection
  import opened KcpSystem
  import opened KcpRuns

  function Least(a: int, b: int): int {
    if a < b then a else b
  }

  /** How many fragments may go out: the least of the windows that apply, less what is unacknowledged,
      but no more than there are. */
  function Room(k: Kcb): nat {
    var windows := Least(k.cfg.sndWnd, if k.cfg.noCwnd then k.rmtWnd else Least(k.rmtWnd, k.cwnd));
    var free := windows - Sub(k.sndNxt, k.sndUna);
    Least(|k.sndQueue|, if free < 0 then 0 else free)
  }

  /** The first n fragments of the queue were numbered and put behind the window. */
  predicate Moved(k: Kcb, k': Kcb, n: nat) {
    && n <= |k.sndQueue| && k'.sndQueue == k.sndQueue[n..] && k'.sndNxt == Wrap(k.sndNxt + n)
    && |k'.sndBuf| == |k.sndBuf| + n
    && (forall i | 0 <= i < |k.sndBuf| :: k'.sndBuf[i].sn == k.sndBuf[i].sn && k'.sndBuf[i].f == k.sndBuf[i].f)
    && forall i | |k.sndBuf| <= i < |k'.sndBuf| ::
      k'.sndBuf[i].sn == Wrap(k.sndNxt + (i - |k.sndBuf|)) && k'.sndBuf[i].f == k.sndQueue[i - |k.sndBuf|]
  }

  /** The new part of the window has been sent so many times. */
  predicate NewSent(k: Kcb, k': Kcb, times: u32) {
    forall i | |k.sndBuf| <= i < |k'.sndBuf| :: k'.sndBuf[i].xmit == times
  }

  // ---- Filling the window ----

  lemma FillableIs(k: Kcb, window: u32)
    requires window < 0x1_0000 && Sub(k.sndNxt, k.sndUna) < 0x1_0000
    ensures Fillable(k, window) <==> Sub(k.sndNxt, k.sndUna) < window && k.sndQueue != []
  {
    assert Sub(Add(k.sndUna, window), k.sndUna) == window;
    TimeDiffFromBase(k.sndNxt, Add(k.sndUna, window), k.sndUna);
  }

  /** How many rounds the loop makes. */
  function Rounds(k: Kcb, window: u32): nat {
    var free := window - Sub(k.sndNxt, k.sndUna);
    Least(|k.sndQueue|, if free < 0 then 0 else free)
  }

  lemma {:induction false} FillMoves(k: Kcb, window: u32)
    requires window < 0x1_0000 && Sub(k.sndNxt, k.sndUna) < 0x1_0000
    ensures Moved(k, FillWindow(k, window), Rounds(k, window)) && NewSent(k, FillWindow(k, window), 0)
    ensures k.sndBuf <= FillWindow(k, window).sndBuf
    decreases |k.sndQueue|
  {
    FillableIs(k, window);
    if Fillable(k, window) {
      var k1 := FillOne(k);
      NextNumber(k);
      FillMoves(k1, window);
      OneMoved(k, FillWindow(k, window), Rounds(k1, window));
    } else {
      NoneMoved(k);
    }
  }

  lemma NextNumber(k: Kcb)
    requires k.sndQueue != [] && Sub(k.sndNxt, k.sndUna) < 0x1_0000
    ensures
      var k1 := FillOne(k);
      && k1.sndUna == k.sndUna && k1.sndNxt == Wrap(k.sndNxt + 1)
      && Sub(k1.sndNxt, k.sndUna) == Sub(k.sndNxt, k.sndUna) + 1
  {
  }

  lemma NoneMoved(k: Kcb)
    ensures Moved(k, k, 0)
  {
  }

  lemma OneMoved(k: Kcb, k': Kcb, n: nat)
    requires k.sndQueue != [] && FillOne(k).sndNxt == Wrap(k.sndNxt + 1)
    requires Moved(FillOne(k), k', n) && NewSent(FillOne(k), k', 0) && FillOne(k).sndBuf <= k'.sndBuf
    ensures Moved(k, k', n + 1) && NewSent(k, k', 0)
  {
    hide Wrap;
    var k1, b := FillOne(k), |k.sndBuf|;
    assert k.sndQueue[1..][n..] == k.sndQueue[n + 1..];
    assert k1.sndBuf[b] == NewOut(k) && k.sndNxt == Wrap(k.sndNxt + 0) by { SameWord(k.sndNxt); }
    WrapTwice(k.sndNxt, n);
    forall i | b <= i < |k'.sndBuf|
      ensures k'.sndBuf[i].sn == Wrap(k.sndNxt + (i - b)) && k'.sndBuf[i].f == k.sndQueue[i - b]
    {
      if i > b {
        WrapTwice(k.sndNxt, i - b - 1);
        assert k'.sndBuf[i].sn == Wrap(k1.sndNxt + (i - (b + 1)));
        assert k.sndQueue[1..][i - b - 1] == k.sndQueue[i - b];
      } else {
        assert k'.sndBuf[b].sn == k1.sndBuf[b].sn && k'.sndBuf[b].f == k1.sndBuf[b].f;
      }
    }
    forall i | 0 <= i < b ensures k'.sndBuf[i].sn == k.sndBuf[i].sn && k'.sndBuf[i].f == k.sndBuf[i].f {
      assert k1.sndBuf[i] == k.sndBuf[i];
    }
  }

  lemma SameWord(a: u32)
    ensures Wrap(a + 0) == a
  {
  }

  lemma WrapTwice(a: u32, i: nat)
    ensures Wrap(Wrap(a + 1) + i) == Wrap(a + (i + 1))
  {
  }

  // ---- A flush ----

  /** A flush numbers exactly as many fragments as there is room for, from the front of the queue, and
      has sent each of them once. */
  lemma FlushMoves(k: Kcb)
    requires EndpointOk(k) && k.updated
    ensures Moved(k, Flushed(k), Room(k)) && NewSent(k, Flushed(k), 1)
    ensures |k.sndQueue| - |Flushed(k).sndQueue| == Room(k)
  {
    hide EndpointOk, FillWindow, Probe, Sub, ShrinkCwnd, ResendAll, AnyFast, CountTimeouts, AnyDead, Moved,
      NewSent, Wrap;
    WindowSpan(k);
    ProbeFrame(k);
    var p := Probe(k).(ackList := [], askSend := false, askTell := false);
    FillMoves(p, SendWindow(k));
    var f := Filled(k);
    MovedFrom(p, k, f, Room(k));
    ShrinkCwndFrame(SentOut(f), k.cwnd, AnyFast(f, f.sndBuf), CountTimeouts(f, f.sndBuf) > 0);
    SentOnce(k, f, Room(k));
    MovedTo(k, SentOut(f), Flushed(k), Room(k));
  }

  /** Only the queues and the numbers matter. */
  lemma MovedFrom(p: Kcb, k: Kcb, f: Kcb, n: nat)
    requires p.sndQueue == k.sndQueue && p.sndBuf == k.sndBuf && p.sndNxt == k.sndNxt
    requires Moved(p, f, n) && NewSent(p, f, 0)
    ensures Moved(k, f, n) && NewSent(k, f, 0)
  {
    hide Wrap;
  }

  lemma MovedTo(k: Kcb, f: Kcb, f': Kcb, n: nat)
    requires f'.sndQueue == f.sndQueue && f'.sndBuf == f.sndBuf && f'.sndNxt == f.sndNxt
    requires Moved(k, f, n) && NewSent(k, f, 1)
    ensures Moved(k, f', n) && NewSent(k, f', 1) && |k.sndQueue| - |f'.sndQueue| == n
  {
    hide Wrap;
  }

  lemma SentOnce(k: Kcb, f: Kcb, n: nat)
    requires Moved(k, f, n) && NewSent(k, f, 0)
    ensures Moved(k, SentOut(f), n) && NewSent(k, SentOut(f), 1)
  {
    hide Wrap, AnyDead, CountTimeouts, Resend;
    forall i | 0 <= i < |f.sndBuf|
      ensures
        var t := SentOut(f).sndBuf[i];
        t.sn == f.sndBuf[i].sn && t.f == f.sndBuf[i].f && (|k.sndBuf| <= i ==> t.xmit == 1)
    {
      OneSent(f, f.sndBuf[i]);
    }
  }

  lemma OneSent(f: Kcb, s: OutSeg)
    ensures Resend(f, s).sn == s.sn && Resend(f, s).f == s.f
    ensures s.xmit == 0 ==> Resend(f, s).xmit == 1
  {
  }

  // ---- In every run ----

  /** The numbers c newly gives out at s end inside the window the peer announced, inside the send window,
      and inside the congestion window if that applies. */
  predicate InsideWindows(s: Side, c: Call)
    requires EndpointOk(s.k)
  {
    var end := After(s, c).0.nxt;
    s.nxt <= end
    && (s.nxt < end ==>
      end <= s.una + s.k.rmtWnd && end <= s.una + s.k.cfg.sndWnd && (!s.k.cfg.noCwnd ==> end <= s.una + s.k.cwnd))
  }

  /** In every run, for either side and any call: the peer's window, as last announced, is kept. */
  lemma WindowKept(cfgA: Config, cfgB: Config, steps: seq<Step>, c: Call)
    requires cfgA.conv == cfgB.conv
    ensures
      var z := Reached(cfgA, cfgB, steps);
      InsideWindows(z.a, c) && InsideWindows(z.b, c)
  {
    ReachedOk(cfgA, cfgB, steps);
    var z := Reached(cfgA, cfgB, steps);
    hide Reached, InsideWindows, SideOk, Dir, Encodes;
    assert SideOk(z.a) && SideOk(z.b);
    SideKeepsWindow(z.a, c);
    SideKeepsWindow(z.b, c);
  }

  lemma SideKeepsWindow(s: Side, c: Call)
    requires SideOk(s)
    ensures EndpointOk(s.k) && InsideWindows(s, c)
  {
    hide EndpointOk, AfterSend, AfterRecv, AfterDelivery, FlushSide, FlushPackets, Tick;
    match c
    case DoSend(msg) => AfterSendIs(s, msg);
    case DoRecv(len) => RecvStill(s, len);
    case DoFlush => FlushInside(s);
    case DoUpdate(now) =>
      TickOk(s.k, now);
      TickFrame(s.k, now);
      FlushInside(s.(k := Tick(s.k, now).0));
    case Deliver(p) =>
      DeliveryStill(s, p.segs);
      assert AfterDelivery(s, p).nxt == s.nxt by { DeliveredIs(s, p); }
  }

  lemma RecvStill(s: Side, len: int)
    ensures AfterRecv(s, len).nxt == s.nxt
  {
    assert Sub(s.k.sndNxt, s.k.sndNxt) == 0;
    hide MoveReady, PeekSize, FirstRun;
  }

  lemma {:induction false} DeliveryStill(s: Side, ts: seq<Tagged>)
    requires EndpointOk(s.k)
    ensures InputTaggedAll(s, ts).nxt == s.nxt && EndpointOk(InputTaggedAll(s, ts).k)
    decreases |ts|
  {
    if ts != [] {
      var s1, t := InputTaggedAll(s, ts[..|ts| - 1]), ts[|ts| - 1];
      DeliveryStill(s, ts[..|ts| - 1]);
      InputSegOk(s1.k, t.w);
      assert Sub(s1.k.sndNxt, s1.k.sndNxt) == 0;
      hide EndpointOk, InputSeg;
    }
  }

  lemma DeliveredIs(s: Side, p: Packet)
    ensures AfterDelivery(s, p).nxt == InputTaggedAll(s, p.segs).nxt
  {
  }

  lemma FlushInside(s: Side)
    requires EndpointOk(s.k) && s.nxt - s.una == Sub(s.k.sndNxt, s.k.sndUna)
    ensures
      var end := FlushSide(s).nxt;
      s.nxt <= end
      && (s.nxt < end ==>
        end <= s.una + s.k.rmtWnd && end <= s.una + s.k.cfg.sndWnd && (!s.k.cfg.noCwnd ==> end <= s.una + s.k.cwnd))
  {
    hide EndpointOk, Flushed;
    WindowSpan(s.k);
    if s.k.updated {
      FlushMoves(s.k);
      assert Sub(Wrap(s.k.sndNxt + Room(s.k)), s.k.sndNxt) == Room(s.k);
    } else {
      assert Flushed(s.k) == s.k by { NotUpdated(s.k); }
      assert Sub(s.k.sndNxt, s.k.sndNxt) == 0;
    }
  }

  lemma NotUpdated(k: Kcb)
    requires !k.updated
    ensures Flushed(k) == k
  {
  }
}
