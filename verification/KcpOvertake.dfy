/** A run at whose end snd_una is ahead of the peer's rcv_nxt: the receive queue fills up, an old
    datagram reopens the sender's view of the peer's window, and the fragment sent then is
    acknowledged by its number while it waits in the reorder buffer. */
module KcpOvertake {
  import opened Word32
  import opened KcpWire
  import opened KcpEndpoint
  import opened KcpInvariant
  import opened KcpDirection
  import opened KcpSystem
  import opened KcpRuns

  /** The settings udp_kcp_transport.c opens every connection with. */
  const CFG: Config := Settings(1, 1400, 256, 256, 10, 1, 2, 5, true, 30, 20)

  const WND: nat := 256

  // ---- The run ----

  function DataSeg(n: u32): WireSeg {
    WireSeg(CMD_PUSH, 0, 256, 0, n, 0, [])
  }

  function AckSeg(n: u32, una: u32, wnd: u16): WireSeg {
    WireSeg(CMD_ACK, 0, wnd, 0, n, una, [])
  }

  /** A datagram with one segment. */
  function Single(w: WireSeg, sn: nat, una: nat): Packet
    requires Sendable(w)
  {
    Packet(EncodeAll(CFG.conv, [w]), [Tagged(w, sn, una)])
  }

  function Data(n: u32): Packet {
    Single(DataSeg(n), n, 0)
  }

  function Acks(n: u32, una: u32, wnd: u16): Packet {
    Single(AckSeg(n, una, wnd), n, una)
  }

  /** One empty message from a to b, and the acknowledgement back; b reads nothing. */
  function Round(n: u32, una: u32, wnd: u16): seq<Step> {
    [AtA(DoSend([])), AtA(DoFlush), AtB(Deliver(Data(n))), AtB(DoFlush), AtA(Deliver(Acks(n, una, wnd)))]
  }

  function Rounds(n: nat): seq<Step>
    requires n <= WND
  {
    if n == 0 then [AtA(DoUpdate(0)), AtB(DoUpdate(0))] else Rounds(n - 1) + Round(n - 1, n, WND - n)
  }

  /** 256 messages fill b's queue; the acknowledgement of the first arrives once more; one more
      message follows. */
  function Overtaking(): seq<Step> {
    Rounds(WND) + [AtA(Deliver(Acks(0, 1, 255)))] + Round(WND, WND, 0)
  }

  // ---- What it leads to ----

  /** The timeout before any sample, and after samples of no time. */
  function Rto(n: nat): i32 {
    if n == 0 then 200 else 30
  }

  predicate Calm(k: Kcb, n: nat) {
    k.srtt == 0 && k.rttVal == 0 && k.rto == Rto(n) && k.tsFlush == 10
  }

  /** Nothing to send: n messages were acknowledged, and the peer announced `room`. */
  predicate Quiet(s: Side, n: nat, room: nat) {
    && n < 1000 && s.k.cfg == CFG && s.k.updated && s.k.current == 0 && Calm(s.k, n)
    && s.una == s.nxt == s.k.sndUna == s.k.sndNxt == n
    && s.k.sndBuf == [] && s.k.sndQueue == [] && s.k.ackList == [] && s.ackNums == []
    && !s.k.askSend && !s.k.askTell && s.k.rmtWnd == room
  }

  /** m messages were received, and none was read. */
  predicate Holds(s: Side, m: nat) {
    && s.rnxt == s.k.rcvNxt == m && |s.k.rcvQueue| == m && s.k.rcvBuf == []
    && forall f <- s.k.rcvQueue :: f == Frag(0, [])
  }

  /** The window a knows of: b's, once b has announced it. */
  function Announced(n: nat): nat
    requires n <= WND
  {
    if n == 0 then WND_FRAGMENTS else WND - n
  }

  predicate Ready(z: System, n: nat) {
    && n <= WND && Quiet(z.a, n, Announced(n)) && Holds(z.a, 0)
    && Quiet(z.b, 0, if n == 0 then WND_FRAGMENTS else WND) && Holds(z.b, n)
    && (n > 0 ==> Acks(0, 1, 255) in z.toA && Acks(n - 1, n, WND - n) in z.toA)
  }

  // ---- One flush ----

  /** The fields of a state that do not matter here. */
  predicate Alike(k: Kcb, k': Kcb) {
    k' == k.(tsProbe := k'.tsProbe, probeWait := k'.probeWait, cwnd := k'.cwnd, incr := k'.incr,
             ssthresh := k'.ssthresh, xmit := k'.xmit, dead := k'.dead)
  }

  lemma FlushNothing(k: Kcb)
    requires k.updated && k.rmtWnd > 0 && k.sndQueue == [] && k.sndBuf == [] && !k.askSend && !k.askTell
    ensures SmallFrgs(Filled(k).sndBuf) && FlushSegs(k) == AckSegs(k)
    ensures Alike(k.(ackList := []), Flushed(k))
  {
    assert Filled(k) == k.(tsProbe := 0, probeWait := 0, ackList := []);
    ShrinkCwndFrame(SentOut(Filled(k)), k.cwnd, false, false);
    hide ShrinkCwnd;
  }

  lemma FlushOne(k: Kcb)
    requires k.updated && k.rmtWnd > 0 && k.cfg.noCwnd && k.sndUna == k.sndNxt < 1000
    requires k.sndQueue == [Frag(0, [])] && k.sndBuf == [] && k.ackList == [] && !k.askSend && !k.askTell
    ensures SmallFrgs(Filled(k).sndBuf) && FlushSegs(k) == [Push(k, NewOut(k))]
    ensures Flushed(k).sndBuf == [Resend(k, NewOut(k))] && Flushed(k).probeWait == 0
    ensures Alike(k.(sndBuf := Flushed(k).sndBuf, sndQueue := [], sndNxt := k.sndNxt + 1), Flushed(k))
  {
    FillOneFrag(k);
    var f := Filled(k);
    var e := NewOut(k);
    hide Filled;
    assert f.sndBuf[..0] == [];
    assert PushSegs(f, f.sndBuf) == [Push(k, e)];
    assert ResendAll(f, f.sndBuf) == [Resend(k, e)];
    assert CountTimeouts(f, f.sndBuf) == 0;
    ShrinkCwndFrame(SentOut(f), k.cwnd, AnyFast(f, f.sndBuf), false);
    hide ShrinkCwnd;
  }

  lemma FillOneFrag(k: Kcb)
    requires k.rmtWnd > 0 && k.cfg.noCwnd && k.sndUna == k.sndNxt < 1000 && k.sndQueue == [Frag(0, [])]
      && k.sndBuf == []
    ensures Filled(k) == k.(tsProbe := 0, probeWait := 0, ackList := [], askSend := false, askTell := false,
                            sndBuf := [NewOut(k)], sndQueue := [], sndNxt := k.sndNxt + 1)
  {
    var k1 := Probe(k).(ackList := [], askSend := false, askTell := false);
    assert Fillable(k1, SendWindow(k));
    assert k1.sndQueue[1..] == [];
    assert FillWindow(FillOne(k1), SendWindow(k)) == FillOne(k1);
  }

  /** What one segment alone is packed into. */
  lemma OnePacket(t: Tagged, mtu: nat)
    requires Sendable(t.w) && TaggedSize(t) <= mtu
    ensures Packets(CFG.conv, mtu, [t]) == {Single(t.w, t.sn, t.una)}
  {
    var none: seq<Tagged> := [];
    assert [t][..|[t]| - 1] == none && Untag([t]) == [t.w];
    assert Pack(TaggedSize, mtu, none) == Packing([], none) && none + [t] == [t];
    assert Pack(TaggedSize, mtu, [t]) == Packing([], [t]);
    assert Emitted(Packing([], [t])) == [[t]];
    hide EncodeAll, Pack;
    assert Packets(CFG.conv, mtu, [t]) == {Packet(EncodeAll(CFG.conv, [t.w]), [t])};
  }

  /** a after ikcp_send and a flush: the message is in flight. */
  predicate Sent(s: Side, n: nat) {
    && n < 1000 && s.k.cfg == CFG && s.k.updated && s.k.current == 0 && Calm(s.k, n)
    && s.una == s.k.sndUna == n && s.nxt == s.k.sndNxt == n + 1
    && s.k.sndBuf == [FirstTry(n)] && s.k.sndQueue == [] && s.k.ackList == [] && s.ackNums == []
    && !s.k.askSend && !s.k.askTell && s.k.probeWait == 0
  }

  /** Message n, sent once at time 0. */
  function FirstTry(n: u32): OutSeg {
    OutSeg(n, Frag(0, []), 0, Rto(n), Rto(n), 0, 1)
  }

  /** a with its message in snd_queue. */
  predicate Loaded(s: Side, n: nat) {
    && n < 1000 && s.k.cfg == CFG && s.k.updated && s.k.current == 0 && Calm(s.k, n)
    && s.una == s.nxt == s.k.sndUna == s.k.sndNxt == n
    && s.k.sndBuf == [] && s.k.sndQueue == [Frag(0, [])] && s.k.ackList == [] && s.ackNums == []
    && !s.k.askSend && !s.k.askTell && s.k.rmtWnd > 0
    && Holds(s, 0)
  }

  lemma SendsFrag(s: Side, n: nat, room: nat)
    requires Quiet(s, n, room) && Holds(s, 0) && 0 < room
    ensures Loaded(AfterSend(s, []), n)
  {
    AfterSendIs(s, []);
    assert Fragments(CFG.Mss(), []) == [Frag(0, [])];
    assert [] + Fragments(CFG.Mss(), []) == [Frag(0, [])];
  }

  lemma SendsOne(s: Side, n: nat)
    requires EndpointOk(s.k) && Loaded(s, n)
    ensures FlushPackets(s) == {Data(n)} && Sent(FlushSide(s), n) && Holds(FlushSide(s), 0)
  {
    hide EndpointOk, SmallFrgs, Filled, Flushed, FlushSegs, Resend, Alike;
    FlushOne(s.k);
    SentFirst(s.k, n);
    AlikeFields(s.k.(sndBuf := Flushed(s.k).sndBuf, sndQueue := [], sndNxt := n + 1), Flushed(s.k));
    TagOne(s, n);
    OnePacket(Tagged(DataSeg(n), n, 0), CFG.mtu);
    hide Packets, EncodeAll, TaggedFlush;
  }

  /** What it sends, and what it keeps for a resend. */
  lemma SentFirst(k: Kcb, n: nat)
    requires k.cfg == CFG && k.current == 0 && k.sndNxt == n < 1000 && Calm(k, n)
    requires k.sndQueue == [Frag(0, [])] && k.rcvNxt == 0 && k.rcvQueue == []
    ensures Push(k, NewOut(k)) == DataSeg(n) && Resend(k, NewOut(k)) == FirstTry(n)
  {
  }

  lemma TagOne(s: Side, n: nat)
    requires EndpointOk(s.k) && Loaded(s, n) && SmallFrgs(Filled(s.k).sndBuf) && FlushSegs(s.k) == [DataSeg(n)]
    ensures TaggedFlush(s) == [Tagged(DataSeg(n), n, 0)]
  {
    hide EndpointOk, SmallFrgs, FlushSegs;
  }

  // ---- One delivery ----

  lemma DeliverOne(s: Side, t: Tagged)
    requires Sendable(t.w) && s.k.cfg.conv == CFG.conv
    ensures
      AfterDelivery(s, Single(t.w, t.sn, t.una)) ==
      InputTagged(s, t).(k := AfterInput(s.k, InputSeg(s.k, t.w),
        if t.w.cmd == CMD_ACK then Newest(t.w.sn, t.w.ts) else NoAck))
  {
    var p := Single(t.w, t.sn, t.una);
    assert Untag([t]) == [t.w];
    InputDecoded(s.k, p);
    var segs, ts := [t.w], [t];
    assert segs[..0] == [] && ts[..0] == [];
    hide InputSeg, AfterInput, Input, EncodeAll, Sub;
    assert InputSegs(s.k, segs) == InputSeg(s.k, t.w);
    assert InputTaggedAll(s, ts) == InputTagged(s, t);
  }

  /** b owes the acknowledgement of message n. */
  predicate Owes(s: Side, n: nat) {
    && n < 1000 && s.k.cfg == CFG && s.k.updated && s.k.current == 0 && Calm(s.k, 0)
    && s.una == s.nxt == s.k.sndUna == s.k.sndNxt == 0
    && s.k.sndBuf == [] && s.k.sndQueue == [] && s.k.ackList == [Ack(n, 0)] && s.ackNums == [n]
    && !s.k.askSend && !s.k.askTell && s.k.rmtWnd == WND
  }

  /** b's queue is full, and message 256 waits in the reorder buffer. */
  predicate Full(s: Side) {
    s.rnxt == s.k.rcvNxt == |s.k.rcvQueue| == WND && s.k.rcvBuf == [InSeg(WND, Frag(0, []))]
  }

  /** The endpoint after the data segment. */
  lemma TakesSeg(k: Kcb, n: u32)
    requires k.cfg == CFG && k.rcvNxt == n <= WND && |k.rcvQueue| == n && k.rcvBuf == [] && k.sndBuf == []
    ensures
      var k1 := k.(rmtWnd := WND, sndUna := k.sndNxt, ackList := k.ackList + [Ack(n, 0)]);
      InputSeg(k, DataSeg(n)) ==
        if n < WND then k1.(rcvNxt := n + 1, rcvQueue := k.rcvQueue + [Frag(0, [])])
        else k1.(rcvBuf := [InSeg(n, Frag(0, []))])
  {
    var seg := InSeg(n, Frag(0, []));
    assert Insert(k.rcvBuf, seg) == [seg];
    var box := Incoming(n, k.rcvQueue, [seg]);
    assert MoveReady(WND, box) == if n < WND then Incoming(n + 1, k.rcvQueue + [seg.f], []) else box;
    hide MoveReady, Insert;
  }

  lemma TakesData(s: Side, n: nat, room: nat)
    requires Quiet(s, 0, room) && Holds(s, n) && n <= WND
    ensures Owes(AfterDelivery(s, Data(n)), n)
    ensures if n < WND then Holds(AfterDelivery(s, Data(n)), n + 1) else Full(AfterDelivery(s, Data(n)))
  {
    hide AfterDelivery, InputSeg, EncodeAll;
    DeliverOne(s, Tagged(DataSeg(n), n, 0));
    TakesSeg(s.k, n);
  }

  /** b's flush sends the acknowledgement it owes. */
  lemma AcksOne(s: Side, n: nat)
    requires EndpointOk(s.k) && Owes(s, n) && s.rnxt == s.k.rcvNxt && |s.k.rcvQueue| <= WND
    ensures FlushPackets(s) == {Acks(n, s.k.rcvNxt, WND - |s.k.rcvQueue|)}
    ensures Quiet(FlushSide(s), 0, WND) && FlushSide(s).rnxt == s.rnxt && Inbox(FlushSide(s).k) == Inbox(s.k)
  {
    hide EndpointOk, SmallFrgs;
    FlushNothing(s.k);
    hide Filled, Flushed;
    var w := AckSeg(n, s.k.rcvNxt, WND - |s.k.rcvQueue|);
    assert FlushSegs(s.k) == [w];
    hide FlushSegs;
    AckTagOne(s, n);
    OnePacket(Tagged(w, n, s.rnxt), CFG.mtu);
    hide Packets, EncodeAll, TaggedFlush;
  }

  lemma AckTagOne(s: Side, n: nat)
    requires EndpointOk(s.k) && Owes(s, n) && |s.k.rcvQueue| <= WND && SmallFrgs(Filled(s.k).sndBuf)
    requires FlushSegs(s.k) == [AckSeg(n, s.k.rcvNxt, WND - |s.k.rcvQueue|)]
    ensures TaggedFlush(s) == [Tagged(AckSeg(n, s.k.rcvNxt, WND - |s.k.rcvQueue|), n, s.rnxt)]
  {
    hide EndpointOk, SmallFrgs, FlushSegs;
  }

  /** a takes the acknowledgement of the one message under way, by una or only by number. */
  lemma TakesAck(s: Side, n: nat, una: u32, wnd: u16)
    requires Sent(s, n) && n < 999 && Holds(s, 0) && (una == n || una == n + 1)
    ensures Quiet(AfterDelivery(s, Acks(n, una, wnd)), n + 1, wnd) && Holds(AfterDelivery(s, Acks(n, una, wnd)), 0)
  {
    hide AfterDelivery, InputSeg, AfterInput, InputTagged, EncodeAll, Alike;
    var t := Tagged(AckSeg(n, una, wnd), n, una);
    var k1 := InputSeg(s.k, t.w);
    var k2 := AfterInput(s.k, k1, Newest(n, 0));
    DeliverOne(s, t);
    TakesAckSeg(s.k, n, una, wnd);
    AlikeFields(s.k.(rmtWnd := wnd, sndUna := n + 1, sndBuf := [], rto := 30), k1);
    GrowAlike(s.k, k1, n);
    AlikeFields(k1, k2);
    AckRenumbers(s, t, n);
  }

  lemma AlikeFields(k: Kcb, k2: Kcb)
    requires Alike(k, k2)
    ensures k2.cfg == k.cfg && k2.updated == k.updated && k2.current == k.current && k2.sndUna == k.sndUna
      && k2.sndNxt == k.sndNxt
    ensures k2.sndBuf == k.sndBuf && k2.sndQueue == k.sndQueue && k2.ackList == k.ackList && Inbox(k2) == Inbox(k)
    ensures k2.askSend == k.askSend && k2.askTell == k.askTell && k2.rmtWnd == k.rmtWnd
    ensures forall n :: Calm(k2, n) == Calm(k, n)
  {
  }

  lemma AckRenumbers(s: Side, t: Tagged, n: nat)
    requires Sent(s, n) && Holds(s, 0)
    requires
      var k1 := InputSeg(s.k, t.w);
      k1.sndUna == n + 1 && k1.sndNxt == s.k.sndNxt && k1.rcvNxt == s.k.rcvNxt && k1.ackList == s.k.ackList
    ensures
      var s' := InputTagged(s, t);
      s'.una == s'.nxt == n + 1 && s'.rnxt == s.rnxt && s'.ackNums == []
  {
    hide InputSeg;
  }

  /** A sample of no time. */
  lemma CalmSample(k: Kcb)
    requires k.srtt == 0 && k.rttVal == 0 && k.cfg == CFG
    ensures UpdateAck(k, 0) == k.(rto := 30)
  {
  }

  lemma TakesAckSeg(k: Kcb, n: u32, una: u32, wnd: u16)
    requires n < 1000 && k.sndUna == n && k.sndNxt == n + 1 && |k.sndBuf| == 1 && k.sndBuf[0].sn == n
      && (una == n || una == n + 1)
    requires Calm(k, n) && k.cfg == CFG && k.current == 0
    ensures Alike(k.(rmtWnd := wnd, sndUna := n + 1, sndBuf := [], rto := 30), InputSeg(k, AckSeg(n, una, wnd)))
  {
    var buf := DropBefore(k.sndBuf, una);
    assert k.sndBuf[1..] == [] && DropBefore(k.sndBuf[1..], una) == [];
    assert TimeDiff(n, n) == 0 && TimeDiff(n + 1, n) == 1;
    assert buf == if una == n then k.sndBuf else [];
    assert DropOne(buf, n) == [] || una == n + 1;
    CalmSample(Shrink(k.(rmtWnd := wnd, sndBuf := buf)));
    hide UpdateAck, DropBefore, DropOne;
  }

  lemma GrowAlike(k: Kcb, k1: Kcb, n: u32)
    requires k1.sndBuf == []
    ensures Alike(k1, AfterInput(k, k1, Newest(n, 0)))
  {
    hide GrowWindow;
  }

  /** The first acknowledgement once more: only the peer's window changes. */
  lemma TakesOld(s: Side, n: nat, room: nat)
    requires Quiet(s, n, room) && Holds(s, 0) && 0 < n
    ensures Quiet(AfterDelivery(s, Acks(0, 1, 255)), n, WND - 1) && Holds(AfterDelivery(s, Acks(0, 1, 255)), 0)
  {
    DeliverOne(s, Tagged(AckSeg(0, 1, 255), 0, 1));
    var k1 := InputSeg(s.k, AckSeg(0, 1, 255));
    CalmSample(Shrink(s.k.(rmtWnd := 255)));
    hide UpdateAck;
    assert Alike(s.k.(rmtWnd := 255, rto := 30), k1);
    GrowAlike(s.k, k1, 0);
    hide AfterDelivery, InputSeg, AfterInput;
  }

  // ---- The whole run ----

  lemma Next(steps: seq<Step>, step: Step)
    ensures
      var z := Reached(CFG, CFG, steps);
      Reached(CFG, CFG, steps + [step]) == if Allowed(z, step) then Stepped(z, step) else z
  {
    assert (steps + [step])[..|steps|] == steps;
    hide Allowed, Stepped, EndpointOk;
  }

  lemma NextA(steps: seq<Step>, c: Call)
    requires var z := Reached(CFG, CFG, steps); CallAllowed(z.a, c, z.toA)
    ensures
      var z, z' := Reached(CFG, CFG, steps), Reached(CFG, CFG, steps + [AtA(c)]);
      z' == z.(a := After(z.a, c).0, toB := z.toB + After(z.a, c).1)
  {
    hide CallAllowed, After, EndpointOk, Reached;
    Next(steps, AtA(c));
  }

  lemma NextB(steps: seq<Step>, c: Call)
    requires var z := Reached(CFG, CFG, steps); CallAllowed(z.b, c, z.toB)
    ensures
      var z, z' := Reached(CFG, CFG, steps), Reached(CFG, CFG, steps + [AtB(c)]);
      z' == z.(b := After(z.b, c).0, toA := z.toA + After(z.b, c).1)
  {
    hide CallAllowed, After, EndpointOk, Reached;
    Next(steps, AtB(c));
  }

  lemma StartReady()
    ensures Ready(Reached(CFG, CFG, Rounds(0)), 0)
  {
    CreatedOk(CFG);
    hide EndpointOk, AfterUpdate, FlushPackets, Quiet, Holds, Run;
    Opens(Opened(CFG));
    var none: seq<Step> := [];
    assert none + [AtA(DoUpdate(0))] == [AtA(DoUpdate(0))] && [AtA(DoUpdate(0))] + [AtB(DoUpdate(0))] == Rounds(0);
    Starts();
    hide Reached;
    NextA(none, DoUpdate(0));
    NextB([AtA(DoUpdate(0))], DoUpdate(0));
  }

  lemma Starts()
    ensures Reached(CFG, CFG, []) == Start(CFG, CFG)
  {
    hide EndpointOk, Created;
  }

  /** The first ikcp_update, with nothing to send. */
  lemma Opens(s: Side)
    requires EndpointOk(s.k) && s == Opened(CFG)
    ensures Quiet(AfterUpdate(s, 0).0, 0, WND_FRAGMENTS) && Holds(AfterUpdate(s, 0).0, 0)
  {
    hide EndpointOk, Flushed, Alike, Filled, FlushSegs, FlushPackets;
    TickOk(s.k, 0);
    var k1 := Tick(s.k, 0).0;
    FirstTick(s.k);
    FlushNothing(k1);
    AlikeFields(k1.(ackList := []), Flushed(k1));
    hide Tick, Created, AckSegs;
  }

  lemma FirstTick(k: Kcb)
    requires k == Created(CFG)
    ensures Tick(k, 0).1
    ensures
      var k1 := Tick(k, 0).0;
      && k1.cfg == CFG && k1.updated && k1.current == 0 && k1.sndUna == k1.sndNxt == k1.rcvNxt == 0
      && k1.sndBuf == [] && k1.ackList == [] && k1.sndQueue == [] && k1.rcvQueue == [] && k1.rcvBuf == []
      && !k1.askSend && !k1.askTell && k1.rmtWnd == WND_FRAGMENTS && Calm(k1, 0)
  {
  }

  /** a and b before one round. */
  predicate Before(z: System, n: nat, room: nat, back: nat) {
    Quiet(z.a, n, room) && Holds(z.a, 0) && Quiet(z.b, 0, back) && Holds(z.b, n) && 0 < room && n <= WND
  }

  /** The first half: the message reaches b. */
  lemma RoundOut(steps: seq<Step>, n: nat, room: nat, back: nat)
    requires Before(Reached(CFG, CFG, steps), n, room, back)
    ensures
      var z, z' := Reached(CFG, CFG, steps),
        Reached(CFG, CFG, steps + [AtA(DoSend([]))] + [AtA(DoFlush)] + [AtB(Deliver(Data(n)))]);
      && Sent(z'.a, n) && Holds(z'.a, 0) && Owes(z'.b, n) && z'.toA == z.toA
      && (if n < WND then Holds(z'.b, n + 1) else Full(z'.b))
  {
    hide EndpointOk, AfterSend, FlushPackets, FlushSide, Quiet, Holds, Loaded, Sent, Owes, Full, Reached,
      AfterDelivery, Data;
    var z := Reached(CFG, CFG, steps);
    NextA(steps, DoSend([]));
    SendsFrag(z.a, n, room);
    var steps1 := steps + [AtA(DoSend([]))];
    var z1 := Reached(CFG, CFG, steps1);
    NextA(steps1, DoFlush);
    SendsOne(z1.a, n);
    var steps2 := steps1 + [AtA(DoFlush)];
    var z2 := Reached(CFG, CFG, steps2);
    assert Data(n) in z2.toB;
    FreshData(z2.b, n, back);
    NextB(steps2, Deliver(Data(n)));
    TakesData(z2.b, n, back);
  }

  lemma FreshData(s: Side, n: nat, room: nat)
    requires Quiet(s, 0, room) && Holds(s, n) && n <= WND
    ensures Fresh(Data(n), s)
  {
  }

  lemma FreshAck(s: Side, n: u32, una: u32, wnd: u16)
    requires s.nxt <= 1000
    ensures Fresh(Acks(n, una, wnd), s)
  {
  }

  /** The second half: b's acknowledgement reaches a. */
  lemma RoundBack(steps: seq<Step>, n: nat, una: nat, wnd: u16)
    requires
      var z := Reached(CFG, CFG, steps);
      && Sent(z.a, n) && Holds(z.a, 0) && Owes(z.b, n) && n <= WND
      && z.b.rnxt == z.b.k.rcvNxt == una && |z.b.k.rcvQueue| <= WND && wnd == WND - |z.b.k.rcvQueue|
        && n <= una <= n + 1
    ensures
      var z, z' := Reached(CFG, CFG, steps),
        Reached(CFG, CFG, steps + [AtB(DoFlush)] + [AtA(Deliver(Acks(n, una, wnd)))]);
      && Quiet(z'.a, n + 1, wnd) && Holds(z'.a, 0)
      && Quiet(z'.b, 0, WND) && z'.b.rnxt == una && Inbox(z'.b.k) == Inbox(z.b.k)
      && z'.toA == z.toA + {Acks(n, una, wnd)}
  {
    hide EndpointOk, FlushPackets, FlushSide, Quiet, Holds, Owes, Reached, AfterDelivery, Acks;
    var z := Reached(CFG, CFG, steps);
    NextB(steps, DoFlush);
    AcksOne(z.b, n);
    var steps1 := steps + [AtB(DoFlush)];
    var z1 := Reached(CFG, CFG, steps1);
    FreshAck(z1.a, n, una, wnd);
    NextA(steps1, Deliver(Acks(n, una, wnd)));
    TakesAck(z1.a, n, una, wnd);
  }

  lemma RoundSplit(steps: seq<Step>, n: u32, una: u32, wnd: u16)
    ensures
      steps + Round(n, una, wnd) ==
      steps + [AtA(DoSend([]))] + [AtA(DoFlush)] + [AtB(Deliver(Data(n)))] + [AtB(DoFlush)]
        + [AtA(Deliver(Acks(n, una, wnd)))]
  {
    hide Data, Acks;
  }

  /** A message and its acknowledgement while b's queue has room. */
  lemma RoundWorks(steps: seq<Step>, n: nat)
    requires n < WND && Ready(Reached(CFG, CFG, steps), n)
    ensures Ready(Reached(CFG, CFG, steps + Round(n, n + 1, WND - 1 - n)), n + 1)
  {
    hide EndpointOk, Reached, Quiet, Data, Acks, Owes, Sent;
    RoundOut(steps, n, Announced(n), if n == 0 then WND_FRAGMENTS else WND);
    RoundBack(steps + [AtA(DoSend([]))] + [AtA(DoFlush)] + [AtB(Deliver(Data(n)))], n, n + 1, WND - 1 - n);
    RoundSplit(steps, n, n + 1, WND - 1 - n);
  }

  predicate ReadyAfter(n: nat)
    requires n <= WND
  {
    Ready(Reached(CFG, CFG, Rounds(n)), n)
  }

  lemma OneMoreRound(n: nat)
    requires 0 < n <= WND && ReadyAfter(n - 1)
    ensures ReadyAfter(n)
  {
    hide Reached, Ready, Round;
    RoundWorks(Rounds(n - 1), n - 1);
  }

  lemma {:induction false} RoundsWork(n: nat)
    requires n <= WND
    ensures ReadyAfter(n)
  {
    if n == 0 {
      StartReady();
    } else {
      hide ReadyAfter;
      RoundsWork(n - 1);
      OneMoreRound(n);
    }
  }

  /** snd_una really overtakes the peer's rcv_nxt. */
  lemma Overtakes()
    ensures
      var z := Reached(CFG, CFG, Overtaking());
      z.a.una == 257 && z.b.rnxt == 256
  {
    hide EndpointOk, Reached, Quiet, Data, Acks, Owes, Sent, Rounds;
    RoundsWork(WND);
    var steps := Rounds(WND);
    var z := Reached(CFG, CFG, steps);
    var again := Deliver(Acks(0, 1, 255));
    QuietNxt(z.a, WND, 0);
    FreshAck(z.a, 0, 1, 255);
    NextA(steps, again);
    TakesOld(z.a, WND, 0);
    var steps1 := steps + [AtA(again)];
    RoundOut(steps1, WND, WND - 1, WND);
    RoundBack(steps1 + [AtA(DoSend([]))] + [AtA(DoFlush)] + [AtB(Deliver(Data(WND)))], WND, WND, 0);
    RoundSplit(steps1, WND, WND, 0);
    QuietNxt(Reached(CFG, CFG, Overtaking()).a, 257, 0);
  }

  lemma QuietNxt(s: Side, n: nat, room: nat)
    requires Quiet(s, n, room)
    ensures s.una == s.nxt == n
  {
  }
}
