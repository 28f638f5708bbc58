/** How snd_una stands to the peer's rcv_nxt: never ahead of it while the peer's receive queue has
    room, ahead of it in exactly one situation, and a run that gets there. */
module KcpAhead {
  import opened Word32
  import opened KcpEndpoint
  import opened KcpInvariant
  import opened KcpMessages
  import opened KcpDirection
  import opened KcpSystem
  import opened KcpRuns

  // ---- In every run ----

  /** The fragment y waits for lies in y's reorder buffer, and x has nothing at or below its
      number left to send again. */
  predicate HeldBack(x: Side, y: Side) {
    && ReceiverOf(y).InReorderBuf(y.rnxt)
    && forall e <- x.k.sndBuf :: y.rnxt < SenderOf(x).Num(e.sn)
  }

  /** snd_una is ahead of the peer's rcv_nxt exactly when the peer is held back, which takes a
      full receive queue. */
  lemma AheadExactly(cfgA: Config, cfgB: Config, steps: seq<Step>)
    requires cfgA.conv == cfgB.conv
    ensures
      var z := Reached(cfgA, cfgB, steps);
      && (z.b.rnxt < z.a.una <==> HeldBack(z.a, z.b))
      && (z.a.rnxt < z.b.una <==> HeldBack(z.b, z.a))
  {
    ReachedOk(cfgA, cfgB, steps);
    var z := Reached(cfgA, cfgB, steps);
    hide Reached, Pair, HeldBack;
    PairSymmetric(z.a, z.b, z.toA, z.toB);
    AheadOf(z.a, z.b, z.toA, z.toB);
    AheadOf(z.b, z.a, z.toB, z.toA);
  }

  lemma AheadOf(x: Side, y: Side, inn: set<Packet>, out: set<Packet>)
    requires Pair(x, y, inn, out)
    ensures y.rnxt < x.una <==> HeldBack(x, y)
  {
    var s, r := SenderOf(x), ReceiverOf(y);
    assert SideOk(x) && SideOk(y) && Dir(x, y, out, inn);
    hide Pair, EndpointOk, Encodes, AcksHeld, AllData, AllAcks, Stream, Wrap, Receiving, Sub;
    forall e | e in s.buf ensures s.una <= s.Num(e.sn) < s.nxt { SenderNum(s, x.k.cfg.sndWnd, e); }
    hide WindowOk, InboxOk;
    if r.nxt < s.una {
      assert s.Waiting(r.nxt) || r.Held(r.nxt);
    } else if HeldBack(x, y) {
      HeadWaits(s, x.k.cfg.sndWnd, r);
    }
  }

  /** A window that is not empty starts at snd_una. */
  lemma HeadWaits(s: Sender, wnd: nat, r: Receiver)
    requires s.Valid(wnd) && s.una <= r.nxt && r.nxt < s.nxt
    ensures exists e <- s.buf :: s.Num(e.sn) <= r.nxt
  {
    assert Sub(s.sndUna, s.sndUna) == 0;
    if s.buf == [] {
      assert Wrap(s.una) == Wrap(s.nxt);
      WrapInjective(s.nxt, s.una);
    } else {
      assert s.Num(s.buf[0].sn) == s.una;
    }
  }

  /** Room in the peer's receive queue is enough for snd_una not to be ahead. */
  lemma RoomReaches(cfgA: Config, cfgB: Config, steps: seq<Step>)
    requires cfgA.conv == cfgB.conv
    ensures
      var z := Reached(cfgA, cfgB, steps);
      && (|z.b.k.rcvQueue| < z.b.k.cfg.rcvWnd ==> z.a.una <= z.b.rnxt)
      && (|z.a.k.rcvQueue| < z.a.k.cfg.rcvWnd ==> z.b.una <= z.a.rnxt)
  {
    ReachedOk(cfgA, cfgB, steps);
    var z := Reached(cfgA, cfgB, steps);
    hide Reached, Pair;
    PairSymmetric(z.a, z.b, z.toA, z.toB);
    if |z.b.k.rcvQueue| < z.b.k.cfg.rcvWnd { RoomFor(z.a, z.b, z.toA, z.toB); }
    if |z.a.k.rcvQueue| < z.a.k.cfg.rcvWnd { RoomFor(z.b, z.a, z.toB, z.toA); }
  }

  lemma RoomFor(x: Side, y: Side, inn: set<Packet>, out: set<Packet>)
    requires Pair(x, y, inn, out) && |y.k.rcvQueue| < y.k.cfg.rcvWnd
    ensures x.una <= y.rnxt
  {
    AheadOf(x, y, inn, out);
    if HeldBack(x, y) {
      assert ReceiverOf(y).Valid(y.k.cfg.rcvWnd);
      hide Pair;
      HeldBackFull(ReceiverOf(y), y.k.cfg.rcvWnd);
    }
  }

  /** The next fragment waits in the reorder buffer only while the queue is full. */
  lemma HeldBackFull(r: Receiver, wnd: nat)
    requires r.Valid(wnd) && r.InReorderBuf(r.nxt)
    ensures |r.box.queue| == wnd
  {
    var e :| e in r.box.buf && r.Num(e.sn) == r.nxt;
    assert e.sn == r.box.rcvNxt;
    assert forall j | 0 < j < |r.box.buf| :: Sub(r.box.buf[0].sn, r.box.rcvNxt) < Sub(r.box.buf[j].sn, r.box.rcvNxt);
  }
}
