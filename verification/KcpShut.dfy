/** A run to a state from which asking for the window does not open it although the peer has room: the
    last message, lost once, is sent again with the question and takes the last place. */
module KcpShut {
  import opened Word32
  import opened KcpEndpoint
  import opened KcpInvariant
  import opened KcpDirection
  import opened KcpSystem
  import opened KcpRuns
  import opened KcpProgress
  import opened KcpReopen
  import opened KcpOvertake

  // ---- The run ----

  /** 256 messages fill b's queue; the acknowledgement of the first arrives once more, message 256 goes out
      and is lost, and the last acknowledgement closes the window again. */
  function Closing(): seq<Step> {
    Rounds(WND) + [AtA(Deliver(Acks(0, 1, 255)))] + [AtA(DoSend([]))] + [AtA(DoFlush)]
    + [AtA(Deliver(Acks(255, 256, 0)))]
  }

  /** Time passes at a until message 256 and the question are both due; b's user reads one message; a's
      user sends another. */
  function Waiting(): seq<Step> {
    Closing() + [AtA(DoFlush)] + [AtA(DoUpdate(4959))] + [AtA(DoUpdate(4995))] + [AtA(DoUpdate(5004))]
    + [AtB(DoRecv(0))] + [AtA(DoSend([]))]
  }

  // ---- What a waits for ----

  /** a with message 256 unacknowledged and the window closed; the next flush is due at `flush`, and the
      question at 5000 once its timer runs. */
  predicate Stuck(k: Kcb, now: u32, flush: u32, wait: u32, e: OutSeg) {
    && k.cfg == CFG && k.updated && k.current == now && k.tsFlush == flush
    && k.sndUna == 256 && k.sndNxt == 257 && k.sndBuf == [e] && e.sn == 256 && k.sndQueue == []
    && k.ackList == [] && !k.askSend && !k.askTell && k.rmtWnd == 0
    && k.probeWait == wait && (wait != 0 ==> k.tsProbe == 5000)
  }

  /** The last acknowledgement once more: only the window changes. */
  lemma Closes(s: Side)
    requires Sent(s, 256)
    ensures Stuck(AfterDelivery(s, Acks(255, 256, 0)).k, 0, 10, 0, FirstTry(256))
  {
    var w := KcpOvertake.AckSeg(255, 256, 0);
    DeliverOne(s, Tagged(w, 255, 256));
    var k1 := InputSeg(s.k, w);
    assert TimeDiff(256, 256) == 0 && TimeDiff(255, 256) < 0;
    assert Shrink(s.k.(rmtWnd := 0)) == s.k.(rmtWnd := 0);
    CalmSample(s.k.(rmtWnd := 0));
    hide UpdateAck;
    assert k1 == s.k.(rmtWnd := 0);
    assert AfterInput(s.k, k1, Newest(255, 0)) == k1;
    hide AfterDelivery, InputSeg, AfterInput, DropBefore, DropOne;
  }

  /** A flush while the question is not due and nothing is queued. */
  lemma StuckFlush(k: Kcb, now: u32, flush: u32, wait: u32, e: OutSeg)
    requires Stuck(k, now, flush, wait, e) && (wait == 0 ==> now == 0) && (wait != 0 ==> wait == 5000 && now < 5000)
    ensures Stuck(Flushed(k), now, flush, 5000, Resend(k, e))
  {
    var p := Probe(k).(ackList := [], askSend := false, askTell := false);
    assert p == k.(probeWait := 5000, tsProbe := 5000);
    assert SendWindow(k) == 0 && !Fillable(p, 0);
    assert Filled(k) == p;
    assert ResendAll(p, [e]) == [Resend(p, e)] == [Resend(k, e)];
    ShrinkCwndFrame(SentOut(p), k.cwnd, AnyFast(p, p.sndBuf), CountTimeouts(p, p.sndBuf) > 0);
    hide ShrinkCwnd, Filled, Probe;
  }

  /** Message 256 after its first timeout. */
  const AGAIN: OutSeg := OutSeg(256, Frag(0, []), 4959, 5004, 45, 0, 2)

  /** An update that flushes. */
  lemma StuckUpdate(k: Kcb, now: u32, t: u32, flush: u32, e: OutSeg)
    requires EndpointOk(k) && Stuck(k, now, flush, 5000, e) && flush + 10 <= t < 5000
    ensures
      var k1 := Tick(k, t).0;
      && Tick(k, t).1 && Stuck(k1, t, t + 10, 5000, e)
      && Stuck(Flushed(k1), t, t + 10, 5000, Resend(k1, e))
  {
    hide EndpointOk, Flushed, Resend;
    assert TimeDiff(t, flush) == t - flush && TimeDiff(t, flush + 10) == t - flush - 10;
    StuckFlush(Tick(k, t).0, t, t + 10, 5000, e);
  }

  /** Its timeout comes at 30, and then at 5004. */
  lemma WhenResent(k: Kcb)
    requires k.cfg == CFG
    ensures k.current == 0 ==> Resend(k, FirstTry(256)) == FirstTry(256)
    ensures k.current == 4995 ==> Resend(k, AGAIN) == AGAIN
    ensures k.current == 4959 ==> Resend(k, FirstTry(256)) == AGAIN
  {
    assert TimeDiff(0, 30) < 0 && TimeDiff(4995, 5004) < 0 && TimeDiff(4959, 30) >= 0;
  }

  /** a's part: until both are due. */
  lemma Waits(steps: seq<Step>)
    requires Stuck(Reached(CFG, CFG, steps).a.k, 0, 10, 0, FirstTry(256))
    ensures
      var z := Reached(CFG, CFG, steps);
      var steps' := steps + [AtA(DoFlush)] + [AtA(DoUpdate(4959))] + [AtA(DoUpdate(4995))] + [AtA(DoUpdate(5004))];
      Stuck(Reached(CFG, CFG, steps').a.k, 5004, 5005, 5000, AGAIN) && Reached(CFG, CFG, steps').b == z.b
  {
    hide EndpointOk, Reached, Stuck, Tick, Flushed, FlushPackets, Resend;
    var k := Reached(CFG, CFG, steps).a.k;
    NextA(steps, DoFlush);
    StuckFlush(k, 0, 10, 0, FirstTry(256));
    StuckCfg(k, 0, 10, 0, FirstTry(256));
    WhenResent(k);
    var steps1 := steps + [AtA(DoFlush)];
    var k1 := Reached(CFG, CFG, steps1).a.k;
    AtTime(steps1, 0, 4959, 10, FirstTry(256));
    var steps2 := steps1 + [AtA(DoUpdate(4959))];
    AtTime(steps2, 4959, 4995, 4969, AGAIN);
    var steps3 := steps2 + [AtA(DoUpdate(4995))];
    NextA(steps3, DoUpdate(5004));
    LastTick(Reached(CFG, CFG, steps3).a.k);
  }

  lemma StuckCfg(k: Kcb, now: u32, flush: u32, wait: u32, e: OutSeg)
    requires Stuck(k, now, flush, wait, e)
    ensures k.cfg == CFG && k.current == now
  {
  }

  /** One such update as a step of the run. */
  lemma AtTime(steps: seq<Step>, now: u32, t: u32, flush: u32, e: OutSeg)
    requires Stuck(Reached(CFG, CFG, steps).a.k, now, flush, 5000, e) && flush + 10 <= t < 5000
    requires (t == 4959 && e == FirstTry(256)) || (t == 4995 && e == AGAIN)
    ensures
      var z, z' := Reached(CFG, CFG, steps), Reached(CFG, CFG, steps + [AtA(DoUpdate(t))]);
      Stuck(z'.a.k, t, t + 10, 5000, AGAIN) && z'.b == z.b
  {
    hide EndpointOk, Reached, Stuck, Tick, Flushed, FlushPackets, Resend;
    NextA(steps, DoUpdate(t));
    var k := Reached(CFG, CFG, steps).a.k;
    StuckUpdate(k, now, t, flush, e);
    StuckCfg(Tick(k, t).0, t, t + 10, 5000, e);
    WhenResent(Tick(k, t).0);
  }

  /** An update just before the next flush only sets the clock. */
  lemma LastTick(k: Kcb)
    requires Stuck(k, 4995, 5005, 5000, AGAIN)
    ensures !Tick(k, 5004).1 && Stuck(Tick(k, 5004).0, 5004, 5005, 5000, AGAIN)
  {
    assert TimeDiff(5004, 5005) == -1;
  }

  // ---- What b has ----

  /** b's user reads the first of 256 empty messages. */
  lemma ReadsOne(s: Side)
    requires Holds(s, 256) && s.k.cfg == CFG && s.k.updated
    ensures
      var k := AfterRecv(s, 0).k;
      k.cfg == CFG && k.updated && k.rcvNxt == 256 && |k.rcvQueue| == 255
  {
    assert s.k.rcvQueue[0] in s.k.rcvQueue;
    assert FirstRun(s.k.rcvQueue) == 1;
    assert s.k.rcvQueue[..1] == [Frag(0, [])];
    assert MoveReady(256, Incoming(256, s.k.rcvQueue[1..], [])) == Incoming(256, s.k.rcvQueue[1..], []);
    hide MoveReady, FirstRun;
  }

  lemma SendsLater(s: Side)
    requires Stuck(s.k, 5004, 5005, 5000, AGAIN)
    ensures
      var k := AfterSend(s, []).k;
      && ProbeDue(k) && HeadDue(k) && k.cfg == CFG && k.sndUna == 256 && k.sndQueue == [Frag(0, [])]
  {
    AfterSendIs(s, []);
    assert Fragments(CFG.Mss(), []) == [Frag(0, [])];
    assert [] + Fragments(CFG.Mss(), []) == [Frag(0, [])];
    assert TimeDiff(5004, 5000) >= 0 && TimeDiff(5004, 5004) == 0;
    hide AfterSend, Fragments;
  }

  // ---- The whole run ----

  lemma CloseSteps()
    ensures
      var z := Reached(CFG, CFG, Closing());
      && Stuck(z.a.k, 0, 10, 0, FirstTry(256))
      && Holds(z.b, 256) && z.b.k.cfg == CFG && z.b.k.updated
  {
    hide EndpointOk, Reached, Quiet, Loaded, Sent, Stuck, Holds, Data, Acks, Rounds, AfterDelivery, AfterSend,
      FlushSide, FlushPackets;
    RoundsWork(WND);
    var steps := Rounds(WND);
    var z := Reached(CFG, CFG, steps);
    var again := Deliver(Acks(0, 1, 255));
    QuietNxt(z.a, WND, 0);
    FreshAck(z.a, 0, 1, 255);
    NextA(steps, again);
    TakesOld(z.a, WND, 0);
    var steps1 := steps + [AtA(again)];
    var z1 := Reached(CFG, CFG, steps1);
    NextA(steps1, DoSend([]));
    SendsFrag(z1.a, WND, 255);
    var steps2 := steps1 + [AtA(DoSend([]))];
    var z2 := Reached(CFG, CFG, steps2);
    NextA(steps2, DoFlush);
    SendsOne(z2.a, WND);
    var steps3 := steps2 + [AtA(DoFlush)];
    var z3 := Reached(CFG, CFG, steps3);
    SentNxt(z3.a, WND);
    FreshAck(z3.a, 255, 256, 0);
    NextA(steps3, Deliver(Acks(255, 256, 0)));
    Closes(z3.a);
    QuietCfg(z.b, 0, WND);
  }

  lemma SentNxt(s: Side, n: nat)
    requires Sent(s, n)
    ensures s.nxt == n + 1
  {
  }

  lemma QuietCfg(s: Side, n: nat, room: nat)
    requires Quiet(s, n, room)
    ensures s.k.cfg == CFG && s.k.updated
  {
  }

  /** A reachable state with the window closed, a probe due, a fragment queued and room at the peer, where
      the question is answered with a closed window. */
  lemma RoomIsNotEnough()
    ensures
      var z := Reached(CFG, CFG, Waiting());
      && ProbeDue(z.a.k) && z.a.k.sndQueue != [] && z.b.k.updated && |z.b.k.rcvQueue| < z.b.k.cfg.rcvWnd
      && EndpointOk(z.a.k) && EndpointOk(z.b.k) && RoundTrip(z.a.k, z.b.k).rmtWnd == 0
  {
    hide EndpointOk, Reached, Stuck, Holds, ProbeDue, HeadDue, AfterSend, AfterRecv, Closing, RoundTrip;
    CloseSteps();
    var steps := Closing();
    Waits(steps);
    var steps1 := steps + [AtA(DoFlush)] + [AtA(DoUpdate(4959))] + [AtA(DoUpdate(4995))] + [AtA(DoUpdate(5004))];
    var z1 := Reached(CFG, CFG, steps1);
    NextB(steps1, DoRecv(0));
    ReadsOne(z1.b);
    var steps2 := steps1 + [AtB(DoRecv(0))];
    NextA(steps2, DoSend([]));
    SendsLater(z1.a);
    var z := Reached(CFG, CFG, steps2 + [AtA(DoSend([]))]);
    StaysClosed(z.a.k, z.b.k);
  }
}
