/** What a datagram takes from the send window: exactly the fragments its segments acknowledge, by
    una or by number, whatever the order in which it is read and whatever was lost before; and
    when that makes snd_una pass the peer's rcv_nxt. */
module KcpAcks {
  import opened Word32
  import opened KcpEndpoint
  import opened KcpWire
  import opened KcpInvariant
  import opened KcpMessages
  import opened KcpDirection
  import opened KcpSystem
  import opened KcpRuns
  import opened KcpAhead

  /** A segment acknowledges number n: its una lies behind n, or it is the acknowledgement of n. */
  predicate Names(t: Tagged, n: nat) {
    n < t.una || (t.w.cmd == CMD_ACK && t.sn == n)
  }

  // ---- One half of one segment ----

  /** Behind the segments that una drops, none is left that it names. */
  lemma UnaLeaves(s: Sender, wnd: nat, una: nat, e: OutSeg)
    requires s.Valid(wnd) && una <= s.nxt && s.nxt - una <= HALF && e in DropBefore(s.buf, Wrap(una))
    ensures una <= s.Num(e.sn)
  {
    hide Wrap, TimeDiff;
    DropBeforeIs(s.buf, Wrap(una));
    var c := AckedCount(s.buf, Wrap(una));
    var i :| c <= i < |s.buf| && s.buf[i] == e;
    var first := s.buf[c];
    AckedStops(s.buf, Wrap(una));
    assert first in s.buf && e in s.buf;
    SenderNum(s, wnd, first);
    TimeDiffWrap(una, s.Num(first.sn));
    assert c < i ==> Sub(s.buf[c].sn, s.sndUna) < Sub(s.buf[i].sn, s.sndUna);
  }

  lemma {:induction false} AckedStops(buf: seq<OutSeg>, una: u32)
    ensures AckedCount(buf, una) < |buf| ==> TimeDiff(una, buf[AckedCount(buf, una)].sn) <= 0
  {
    hide TimeDiff;
    if buf != [] && TimeDiff(una, buf[0].sn) > 0 { AckedStops(buf[1..], una); }
  }

  /** Dropping segments leaves the others waiting under their numbers. */
  lemma LeftWaits(s: Sender, wnd: nat, buf: seq<OutSeg>, n: nat)
    requires s.Valid(wnd) && InWindow(buf, s.sndUna, s.sndNxt, wnd)
    ensures Left(s, buf).Waiting(n) <==> exists e <- buf :: s.Num(e.sn) == n
  {
    LeftNums(s, wnd, buf);
    hide Sub, Wrap, InWindow, WindowOk;
  }

  lemma UnaDropsExactly(s: Sender, wnd: nat, una: nat, n: nat)
    requires s.Valid(wnd) && una <= s.nxt && s.nxt - una <= HALF
    ensures Left(s, DropBefore(s.buf, Wrap(una))).Waiting(n) <==> s.Waiting(n) && una <= n
  {
    hide Wrap, TimeDiff, Sub, DropBefore, InWindow, WindowOk;
    var buf := DropBefore(s.buf, Wrap(una));
    UnaInWindow(s, wnd, una);
    LeftWaits(s, wnd, buf, n);
    DropBeforeKeeps(s.buf, Wrap(una));
    if e :| e in buf && s.Num(e.sn) == n { UnaLeaves(s, wnd, una, e); }
    if s.Waiting(n) && una <= n {
      var e :| e in s.buf && s.Num(e.sn) == n;
      SenderNum(s, wnd, e);
      TimeDiffWrap(una, n);
      assert e in buf;
    }
  }

  lemma UnaInWindow(s: Sender, wnd: nat, una: nat)
    requires s.Valid(wnd)
    ensures InWindow(DropBefore(s.buf, Wrap(una)), s.sndUna, s.sndNxt, wnd)
  {
    DropBeforeInWindow(s.buf, s.sndUna, s.sndNxt, wnd, Wrap(una));
  }

  /** The search of ikcp_parse_ack finds what it looks for if it is there. */
  lemma {:induction false} FoundIfThere(buf: seq<OutSeg>, una: u32, sn: u32, i: nat)
    requires i < |buf| && buf[i].sn == sn
    requires forall j | 0 <= j < |buf| :: Sub(buf[j].sn, una) < HALF
    requires forall j, k | 0 <= j < k < |buf| :: Sub(buf[j].sn, una) < Sub(buf[k].sn, una)
    ensures Found(buf, sn) == i
  {
    hide Sub;
    if i > 0 {
      assert Sub(buf[0].sn, una) < Sub(buf[i].sn, una);
      TimeDiffFromBase(sn, buf[0].sn, una);
      hide TimeDiff;
      FoundIfThere(buf[1..], una, sn, i - 1);
    }
  }

  lemma AckDropsExactly(s: Sender, wnd: nat, sn: nat, n: nat)
    requires s.Valid(wnd) && sn < s.nxt && s.nxt - sn <= HALF
    ensures Left(s, DropOne(s.buf, Wrap(sn))).Waiting(n) <==> s.Waiting(n) && n != sn
  {
    hide Wrap, Sub, DropOne, Found, TimeDiff;
    var buf := DropOne(s.buf, Wrap(sn));
    DropOneInWindow(s.buf, s.sndUna, s.sndNxt, wnd, Wrap(sn));
    LeftWaits(s, wnd, buf, n);
    DropOneKeeps(s.buf, Wrap(sn));
    if e :| e in buf && s.Num(e.sn) == n { OneLeaves(s, wnd, sn, e); }
    if s.Waiting(n) && n != sn {
      var e :| e in s.buf && s.Num(e.sn) == n;
      SenderNum(s, wnd, e);
      if e.sn == Wrap(sn) { WrapInjective(n, sn); }
      assert e in buf;
    }
  }

  lemma OneLeaves(s: Sender, wnd: nat, sn: nat, e: OutSeg)
    requires s.Valid(wnd) && sn < s.nxt && s.nxt - sn <= HALF && e in DropOne(s.buf, Wrap(sn))
    ensures s.Num(e.sn) != sn
  {
    hide Wrap;
    DropOneIs(s.buf, Wrap(sn));
    DropOneKeeps(s.buf, Wrap(sn));
    if s.Num(e.sn) == sn {
      SenderNum(s, wnd, e);
      var i :| 0 <= i < |s.buf| && s.buf[i] == e;
      FoundIfThere(s.buf, s.sndUna, Wrap(sn), i);
    }
  }

  // ---- A segment, a datagram ----

  lemma SegDrops(s: Side, peer: Side, inn: set<Packet>, out: set<Packet>, p: Packet, t: Tagged, n: nat)
    requires Pair(s, peer, inn, out) && p in inn && t in p.segs && Close(t, s)
    ensures SenderOf(InputTagged(s, t)).Waiting(n) <==> SenderOf(s).Waiting(n) && !Names(t, n)
  {
    InputSender(s, t);
    AckIsTrue(s, peer, inn, out, p, t);
    hide InputTagged, Pair, SideOk, Wrap, DropBefore, DropOne, WindowOk;
    SenderDrops(SenderOf(s), s.k.cfg.sndWnd, t, n);
  }

  lemma AckIsTrue(s: Side, peer: Side, inn: set<Packet>, out: set<Packet>, p: Packet, t: Tagged)
    requires Pair(s, peer, inn, out) && p in inn && t in p.segs && Close(t, s)
    ensures SideOk(s) && SenderOf(s).Valid(s.k.cfg.sndWnd)
    ensures t.w.una == Wrap(t.una) && t.una <= s.nxt && s.nxt - t.una <= HALF
    ensures t.w.cmd == CMD_ACK ==> t.w.sn == Wrap(t.sn) && t.sn < s.nxt && s.nxt - t.sn <= HALF
  {
    assert AckTrue(t, ReceiverOf(peer));
    if t.w.cmd == CMD_ACK {
      HeldSent(SenderOf(s), ReceiverOf(peer), s.k.cfg.Mss(), s.sent, peer.got, out, inn, t.sn);
    }
    hide EndpointOk, Encodes, Wrap, Stream, Conserved, AcksHeld, AllData, Receiving, WindowOk, InboxOk;
  }

  lemma SenderDrops(s: Sender, wnd: nat, t: Tagged, n: nat)
    requires s.Valid(wnd) && t.w.una == Wrap(t.una) && t.una <= s.nxt && s.nxt - t.una <= HALF
    requires t.w.cmd == CMD_ACK ==> t.w.sn == Wrap(t.sn) && t.sn < s.nxt && s.nxt - t.sn <= HALF
    ensures Acked(s, t.w).Waiting(n) <==> s.Waiting(n) && !Names(t, n)
  {
    hide Wrap, DropBefore, DropOne, Sub;
    UnaDropsExactly(s, wnd, t.una, n);
    UnaInWindow(s, wnd, t.una);
    var s1 := Left(s, DropBefore(s.buf, t.w.una));
    LeftNums(s, wnd, DropBefore(s.buf, t.w.una));
    if t.w.cmd == CMD_ACK {
      AckDropsExactly(s1, wnd, t.sn, n);
      if s1.Waiting(t.sn) { WaitsInRange(s1, wnd, t.sn); }
    }
  }

  /** A number that waits passes the range check of ikcp_parse_ack. */
  lemma WaitsInRange(s: Sender, wnd: nat, n: nat)
    requires s.Valid(wnd) && s.Waiting(n)
    ensures TimeDiff(Wrap(n), s.sndUna) >= 0 && TimeDiff(Wrap(n), s.sndNxt) < 0
  {
    var e :| e in s.buf && s.Num(e.sn) == n;
    SenderNum(s, wnd, e);
    TimeDiffWrap(n, s.una);
    TimeDiffWrap(n, s.nxt);
    hide TimeDiff, Wrap, WindowOk;
  }

  lemma {:induction false} SegsDrop(s: Side, peer: Side, inn: set<Packet>, out: set<Packet>, p: Packet,
      ts: seq<Tagged>, n: nat)
    requires Pair(s, peer, inn, out) && p in inn && Fresh(p, s) && ts <= p.segs
    ensures SenderOf(InputTaggedAll(s, ts)).Waiting(n) <==> SenderOf(s).Waiting(n) && forall t <- ts :: !Names(t, n)
    decreases |ts|
  {
    hide Pair, InputTagged, Fresh, Close, Names, Sub;
    if ts != [] {
      var init, t := ts[..|ts| - 1], ts[|ts| - 1];
      assert ts == init + [t];
      SegsDrop(s, peer, inn, out, p, init, n);
      StaysClose(s, peer, inn, out, p, init, t);
      SegDrops(InputTaggedAll(s, init), peer, inn, out, p, t, n);
    }
  }

  lemma StaysClose(s: Side, peer: Side, inn: set<Packet>, out: set<Packet>, p: Packet, init: seq<Tagged>, t: Tagged)
    requires Pair(s, peer, inn, out) && p in inn && Fresh(p, s) && init + [t] <= p.segs
    ensures t in p.segs && Pair(InputTaggedAll(s, init), peer, inn, out) && Close(t, InputTaggedAll(s, init))
  {
    hide Pair, InputTaggedAll, Fresh, Close, Inputs, InputSegs, EndpointOk;
    var s1 := InputTaggedAll(s, init);
    assert init <= p.segs && p.segs[|init|] == t;
    InputTaggedAllKeeps(s, peer, inn, out, p, init);
    QueueBound(s, peer, inn, out);
    QueueBound(s1, peer, inn, out);
    InputSegsOk(s.k, Untag(init));
    InputsCfg(s.k, s1.k);
    FreshClose(p, s, s1, t);
  }

  /** A datagram drops from the window exactly what its segments name. */
  lemma DeliveryDrops(s: Side, peer: Side, inn: set<Packet>, out: set<Packet>, p: Packet, n: nat)
    requires Pair(s, peer, inn, out) && p in inn && Fresh(p, s)
    ensures SenderOf(AfterDelivery(s, p)).Waiting(n) <==> SenderOf(s).Waiting(n) && forall t <- p.segs :: !Names(t, n)
  {
    hide Pair, InputTaggedAll, InputSegs, Input, TrackAll, Fresh, AfterInput, Names, Sub;
    assert Encodes(s.k.cfg.conv, p) by { PairEncodes(s, peer, inn, out, p); }
    InputTaggedAllKeeps(s, peer, inn, out, p, p.segs);
    SegsDrop(s, peer, inn, out, p, p.segs, n);
    var s1 := InputTaggedAll(s, p.segs);
    hide Encodes;
    InputDecoded(s.k, p);
    AfterInputFrame(s.k, s1.k, TrackAll(Untag(p.segs)));
    SameWaiting(s1, AfterDelivery(s, p), n);
  }

  lemma PairEncodes(s: Side, peer: Side, inn: set<Packet>, out: set<Packet>, p: Packet)
    requires Pair(s, peer, inn, out) && p in inn
    ensures Encodes(s.k.cfg.conv, p)
  {
  }

  lemma SameWaiting(s: Side, s': Side, n: nat)
    requires s' == s.(k := s'.k) && OnlyTimers(s.k, s'.k)
    ensures SenderOf(s').Waiting(n) <==> SenderOf(s).Waiting(n)
  {
    hide Sub;
    if SenderOf(s).Waiting(n) {
      var e :| e in s.k.sndBuf && SenderOf(s).Num(e.sn) == n;
      var i :| 0 <= i < |s.k.sndBuf| && s.k.sndBuf[i] == e;
      assert s'.k.sndBuf[i] in s'.k.sndBuf;
    }
    if SenderOf(s').Waiting(n) {
      var e :| e in s'.k.sndBuf && SenderOf(s').Num(e.sn) == n;
      var i :| 0 <= i < |s'.k.sndBuf| && s'.k.sndBuf[i] == e;
      assert s.k.sndBuf[i] in s.k.sndBuf;
    }
  }

  // ---- How snd_una passes the peer's rcv_nxt ----

  /** The peer holds the fragment it waits for, and the datagram acknowledges all that waits at or
      below its number. */
  predicate LetsPass(x: Side, y: Side, p: Packet) {
    && ReceiverOf(y).InReorderBuf(y.rnxt)
    && forall n: nat | n <= y.rnxt && SenderOf(x).Waiting(n) :: exists t <- p.segs :: Names(t, n)
  }

  lemma PassesAt(x: Side, y: Side, inn: set<Packet>, out: set<Packet>, p: Packet)
    requires Pair(x, y, inn, out) && p in inn && Fresh(p, x)
    ensures y.rnxt < AfterDelivery(x, p).una <==> LetsPass(x, y, p)
    ensures LetsPass(x, y, p) && SenderOf(x).Waiting(y.rnxt)
      ==> exists t <- p.segs :: t.w.cmd == CMD_ACK && t.sn == y.rnxt
  {
    hide Pair, AfterDelivery, Fresh, Sub, HeldBack;
    var x' := AfterDelivery(x, p);
    UnasReached(x, y, inn, out, p);
    InputKeeps(x, y, inn, out, p);
    AheadOf(x', y, inn, out);
    HeldBackIs(x', y);
    forall n: nat | n <= y.rnxt
      ensures SenderOf(x').Waiting(n) <==> SenderOf(x).Waiting(n) && forall t <- p.segs :: !Names(t, n)
    {
      DeliveryDrops(x, y, inn, out, p, n);
    }
    NothingLeft(SenderOf(x), SenderOf(x'), y.rnxt, p);
  }

  /** Nothing at or below m waits afterwards exactly when all of it was acknowledged. */
  lemma NothingLeft(s: Sender, s': Sender, m: nat, p: Packet)
    requires forall n: nat | n <= m :: s'.Waiting(n) <==> s.Waiting(n) && forall t <- p.segs :: !Names(t, n)
    ensures (forall n: nat | n <= m :: !s'.Waiting(n))
      <==> forall n: nat | n <= m && s.Waiting(n) :: exists t <- p.segs :: Names(t, n)
  {
    hide Names, Sub;
  }

  lemma HeldBackIs(x: Side, y: Side)
    ensures HeldBack(x, y) <==>
      ReceiverOf(y).InReorderBuf(y.rnxt) && forall n: nat | n <= y.rnxt :: !SenderOf(x).Waiting(n)
  {
    hide Sub;
    if e :| e in x.k.sndBuf && SenderOf(x).Num(e.sn) <= y.rnxt {
      assert SenderOf(x).Waiting(SenderOf(x).Num(e.sn));
    }
  }

  lemma UnasReached(x: Side, y: Side, inn: set<Packet>, out: set<Packet>, p: Packet)
    requires Pair(x, y, inn, out) && p in inn
    ensures forall t <- p.segs :: t.una <= y.rnxt
  {
    forall t | t in p.segs ensures t.una <= y.rnxt { assert AckTrue(t, ReceiverOf(y)); }
  }

  /** No other call moves snd_una. */
  lemma OnlyDeliveries(x: Side, c: Call)
    requires EndpointOk(x.k) && !c.Deliver?
    ensures After(x, c).0.una == x.una
  {
    assert Sub(x.k.sndUna, x.k.sndUna) == 0;
    hide EndpointOk, Sub, FlushPackets, Flushed, Tick, Send, Recv;
    match c
    case DoSend(msg) => SendStill(x.k, msg);
    case DoRecv(len) => RecvFrame(x, len);
    case DoFlush => FlushFrame(x.k);
    case DoUpdate(now) =>
      TickOk(x.k, now);
      TickFrame(x.k, now);
      FlushFrame(Tick(x.k, now).0);
  }

  lemma SendStill(k: Kcb, msg: Message)
    ensures Send(k, msg).0.sndUna == k.sndUna
  {
  }

  /** In every run, for either side: a call makes snd_una pass the peer's rcv_nxt, where it was not
      ahead before, exactly when it is the delivery of a datagram that lets it pass; if the
      awaited number itself still waits, that datagram acknowledges it by number. */
  lemma PassesExactly(cfgA: Config, cfgB: Config, steps: seq<Step>, c: Call)
    requires cfgA.conv == cfgB.conv
    ensures
      var z := Reached(cfgA, cfgB, steps);
      && (CallAllowed(z.a, c, z.toA) && z.a.una <= z.b.rnxt ==> PassIs(z.a, z.b, c))
      && (CallAllowed(z.b, c, z.toB) && z.b.una <= z.a.rnxt ==> PassIs(z.b, z.a, c))
  {
    ReachedOk(cfgA, cfgB, steps);
    var z := Reached(cfgA, cfgB, steps);
    hide Reached, Pair, PassIs, CallAllowed;
    PairSymmetric(z.a, z.b, z.toA, z.toB);
    if CallAllowed(z.a, c, z.toA) && z.a.una <= z.b.rnxt { SidePasses(z.a, z.b, z.toA, z.toB, c); }
    if CallAllowed(z.b, c, z.toB) && z.b.una <= z.a.rnxt { SidePasses(z.b, z.a, z.toB, z.toA, c); }
  }

  predicate PassIs(x: Side, y: Side, c: Call)
    requires EndpointOk(x.k)
  {
    && (y.rnxt < After(x, c).0.una <==> c.Deliver? && LetsPass(x, y, c.p))
    && (y.rnxt < After(x, c).0.una && SenderOf(x).Waiting(y.rnxt)
      ==> exists t <- c.p.segs :: t.w.cmd == CMD_ACK && t.sn == y.rnxt)
  }

  lemma SidePasses(x: Side, y: Side, inn: set<Packet>, out: set<Packet>, c: Call)
    requires Pair(x, y, inn, out) && EndpointOk(x.k) && CallAllowed(x, c, inn) && x.una <= y.rnxt
    ensures PassIs(x, y, c)
  {
    hide Pair, EndpointOk, AfterDelivery, AfterSend, AfterRecv, AfterUpdate, FlushSide, FlushPackets, LetsPass, Fresh;
    if c.Deliver? { PassesAt(x, y, inn, out, c.p); } else { OnlyDeliveries(x, c); }
  }

  /** The acknowledgement that lets it pass need not be that of the awaited number: here number 1 is
      awaited, held, and no longer waits, and the acknowledgement of number 0 moves snd_una to 2. */
  lemma PassesByAnother()
    ensures
      var f := Frag(0, []);
      var s := Sender(0, 2, 0, 2, [OutSeg(0, f, 0, 0, 0, 0, 1)], []);
      var r := Receiver(1, Incoming(1, [f], [InSeg(1, f)]), [], []);
      var t := Tagged(WireSeg(CMD_ACK, 0, 0, 0, 0, 1, []), 0, 1);
      && s.Valid(2) && r.Valid(1) && SenderRole(s, [f, f]) && Conserved(s, r) && AckTrue(t, r)
      && s.una <= r.nxt < Acked(s, t.w).una && t.sn != r.nxt
  {
    var f := Frag(0, []);
    var s := Sender(0, 2, 0, 2, [OutSeg(0, f, 0, 0, 0, 0, 1)], []);
    var r := Receiver(1, Incoming(1, [f], [InSeg(1, f)]), [], []);
    assert s.buf[0] in s.buf && s.Num(0) == 0 && s.Waiting(0);
    assert r.box.buf[0] in r.box.buf && r.Num(1) == 1 && r.Held(1);
    assert s.buf[1..] == [];
    assert DropBefore(s.buf, 1) == [];
  }
}
