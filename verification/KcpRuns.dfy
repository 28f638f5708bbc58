/** What two KCP endpoints guarantee over every run: whatever is sent, whenever the timers
    fire, and whatever the network drops, duplicates or reorders. */
module KcpRuns {
  import opened Word32
  import opened KcpEndpoint
  import opened KcpInvariant
  import opened KcpMessages
  import opened KcpDirection
  import opened KcpSystem

  lemma UpdateKeeps(s: Side, peer: Side, inn: set<Packet>, out: set<Packet>, now: u32)
    requires Pair(s, peer, inn, out)
    ensures Pair(AfterUpdate(s, now).0, peer, inn, out + AfterUpdate(s, now).1)
  {
    TickOk(s.k, now);
    TickFrame(s.k, now);
    var s1 := s.(k := Tick(s.k, now).0);
    assert SameNumbers(s1.k.sndBuf, s.k.sndBuf);
    assert out + {} == out;
    hide Pair, EndpointOk, Tick, FlushSide, FlushPackets, SameNumbers;
    RetimedKeeps(s, peer, inn, out, s1.k);
    FlushKeeps(s1, peer, inn, out);
  }

  /** Every call keeps both directions in order. */
  lemma CallKeeps(s: Side, peer: Side, inn: set<Packet>, out: set<Packet>, c: Call)
    requires Pair(s, peer, inn, out) && CallAllowed(s, c, inn)
    ensures Pair(After(s, c).0, peer, inn, out + After(s, c).1)
  {
    assert out + {} == out;
    hide Pair, AfterSend, AfterRecv, AfterUpdate, AfterDelivery, FlushSide, FlushPackets, Fresh;
    match c
    case DoSend(msg) => SendKeeps(s, peer, inn, out, msg);
    case DoRecv(len) => RecvKeeps(s, peer, inn, out, len);
    case DoUpdate(now) => UpdateKeeps(s, peer, inn, out, now);
    case DoFlush => FlushKeeps(s, peer, inn, out);
    case Deliver(p) => InputKeeps(s, peer, inn, out, p);
  }

  lemma LoseKeeps(s: Side, peer: Side, inn: set<Packet>, out: set<Packet>, inn': set<Packet>, out': set<Packet>)
    requires Pair(s, peer, inn, out) && inn' <= inn && out' <= out
    ensures Pair(s, peer, inn', out')
  {
    hide SideOk, Encodes, SenderRole, ReceiverRole, Conserved, AcksHeld, Stream;
  }

  lemma StepKeeps(y: System, step: Step)
    requires Inv(y) && Allowed(y, step)
    ensures Inv(Stepped(y, step))
  {
    assert EndpointOk(y.a.k) && EndpointOk(y.b.k);
    hide Pair, After, CallAllowed, EndpointOk;
    match step
    case AtA(c) => CallKeeps(y.a, y.b, y.toA, y.toB, c);
    case AtB(c) =>
      PairSymmetric(y.a, y.b, y.toA, y.toB);
      CallKeeps(y.b, y.a, y.toB, y.toA, c);
      PairSymmetric(Stepped(y, step).b, Stepped(y, step).a, y.toB, y.toA + After(y.b, c).1);
    case Lose(la, lb) => LoseKeeps(y.a, y.b, y.toA, y.toB, y.toA - la, y.toB - lb);
  }

  lemma StartOk(cfgA: Config, cfgB: Config)
    requires cfgA.conv == cfgB.conv
    ensures Inv(Start(cfgA, cfgB))
  {
    CreatedOk(cfgA);
    CreatedOk(cfgB);
    hide EndpointOk;
    OpenedDirection(cfgA, cfgB);
    OpenedDirection(cfgB, cfgA);
    hide Dir;
  }

  lemma OpenedDirection(cfgA: Config, cfgB: Config)
    ensures Dir(Opened(cfgA), Opened(cfgB), {}, {})
  {
    assert Stream(cfgA.Mss(), []) == [];
  }

  /** Any call, and any bytes, leave an endpoint's own invariant alone. */
  lemma CallOk(s: Side, c: Call)
    requires EndpointOk(s.k)
    ensures EndpointOk(After(s, c).0.k)
  {
    hide EndpointOk, Advances, Send, Recv, Input, Tick, Flushed, InputTaggedAll, FlushPackets;
    match c
    case DoSend(msg) => SendOk(s.k, msg);
    case DoRecv(len) => RecvOk(s.k, len);
    case DoUpdate(now) =>
      TickOk(s.k, now);
      FlushedOk(Tick(s.k, now).0);
    case DoFlush => FlushedOk(s.k);
    case Deliver(p) => InputOk(s.k, p.bytes);
  }

  lemma StepOk(y: System, step: Step)
    requires EndpointOk(y.a.k) && EndpointOk(y.b.k)
    ensures EndpointOk(Stepped(y, step).a.k) && EndpointOk(Stepped(y, step).b.k)
  {
    hide EndpointOk, After;
    match step
    case AtA(c) => CallOk(y.a, c);
    case AtB(c) => CallOk(y.b, c);
    case Lose(_, _) =>
  }

  /** The system after a run; a step that is not allowed when its turn comes is skipped. */
  function Run(y: System, steps: seq<Step>): (z: System)
    requires EndpointOk(y.a.k) && EndpointOk(y.b.k)
    ensures EndpointOk(z.a.k) && EndpointOk(z.b.k)
    decreases |steps|
  {
    if steps == [] then y
    else
      var z := Run(y, steps[..|steps| - 1]);
      var step := steps[|steps| - 1];
      if Allowed(z, step) then (StepOk(z, step); Stepped(z, step)) else z
  }

  /** The state of a connection after a run from its opening. */
  function Reached(cfgA: Config, cfgB: Config, steps: seq<Step>): (z: System)
    ensures EndpointOk(z.a.k) && EndpointOk(z.b.k)
  {
    CreatedOk(cfgA);
    CreatedOk(cfgB);
    Run(Start(cfgA, cfgB), steps)
  }

  /** Every reachable state satisfies the invariant of the two directions. */
  lemma {:induction false} RunOk(y: System, steps: seq<Step>)
    requires Inv(y) && EndpointOk(y.a.k) && EndpointOk(y.b.k)
    ensures Inv(Run(y, steps))
    decreases |steps|
  {
    hide Inv, Stepped, Allowed, EndpointOk;
    if steps != [] {
      var init, step := steps[..|steps| - 1], steps[|steps| - 1];
      RunOk(y, init);
      if Allowed(Run(y, init), step) { StepKeeps(Run(y, init), step); }
    }
  }

  lemma ReachedOk(cfgA: Config, cfgB: Config, steps: seq<Step>)
    requires cfgA.conv == cfgB.conv
    ensures Inv(Reached(cfgA, cfgB, steps))
  {
    hide Inv, EndpointOk, Run;
    CreatedOk(cfgA);
    CreatedOk(cfgB);
    StartOk(cfgA, cfgB);
    RunOk(Start(cfgA, cfgB), steps);
  }

  /** End to end: what each side has received is, at any moment, a prefix of what the other
      side sent, message by message and byte by byte. */
  lemma Delivery(cfgA: Config, cfgB: Config, steps: seq<Step>)
    requires cfgA.conv == cfgB.conv
    ensures
      var z := Reached(cfgA, cfgB, steps);
      z.b.got <= z.a.sent && z.a.got <= z.b.sent
  {
    ReachedOk(cfgA, cfgB, steps);
    var z := Reached(cfgA, cfgB, steps);
    hide Reached, SideOk, SenderRole, Conserved, AcksHeld, AllData, AllAcks, Encodes, Stream;
    assert Dir(z.a, z.b, z.toB, z.toA) && Dir(z.b, z.a, z.toA, z.toB);
  }

  /** Conservation, for the data of x: every fragment of every accepted message is with the
      receiver, waits for its acknowledgement, or waits to be sent; and every number that
      was given out and no longer waits is with the receiver. */
  predicate NothingLost(x: Side, y: Side) {
    var stream := Stream(x.k.cfg.Mss(), x.sent);
    && x.nxt <= |stream| && x.k.sndQueue == stream[x.nxt..]
    && (forall n: nat | n < x.nxt :: SenderOf(x).Waiting(n) || ReceiverOf(y).Held(n))
    && (forall e <- x.k.sndBuf :: SenderOf(x).Num(e.sn) < x.nxt && e.f == stream[SenderOf(x).Num(e.sn)])
    && (forall e <- y.k.rcvBuf :: ReceiverOf(y).Num(e.sn) < x.nxt && e.f == stream[ReceiverOf(y).Num(e.sn)])
    && |Stream(x.k.cfg.Mss(), y.got)| <= y.rnxt <= |stream|
    && y.k.rcvQueue == stream[|Stream(x.k.cfg.Mss(), y.got)|..y.rnxt]
  }

  lemma Conservation(cfgA: Config, cfgB: Config, steps: seq<Step>)
    requires cfgA.conv == cfgB.conv
    ensures
      var z := Reached(cfgA, cfgB, steps);
      NothingLost(z.a, z.b) && NothingLost(z.b, z.a)
  {
    ReachedOk(cfgA, cfgB, steps);
    var z := Reached(cfgA, cfgB, steps);
    hide Reached, SideOk, AcksHeld, AllData, AllAcks, Encodes, Stream;
    assert Dir(z.a, z.b, z.toB, z.toA) && Dir(z.b, z.a, z.toA, z.toB);
  }

  /** Every una and every acknowledgement in flight, and every acknowledgement still owed,
      is backed by data the receiver holds. */
  lemma AcksBacked(cfgA: Config, cfgB: Config, steps: seq<Step>)
    requires cfgA.conv == cfgB.conv
    ensures
      var z := Reached(cfgA, cfgB, steps);
      && (forall p <- z.toA, t <- p.segs :: AckTrue(t, ReceiverOf(z.b)))
      && (forall p <- z.toB, t <- p.segs :: AckTrue(t, ReceiverOf(z.a)))
      && AcksHeld(ReceiverOf(z.a)) && AcksHeld(ReceiverOf(z.b))
  {
    ReachedOk(cfgA, cfgB, steps);
    var z := Reached(cfgA, cfgB, steps);
    hide Reached, SideOk, AcksHeld, AllData, Encodes, Stream, SenderRole, ReceiverRole, Conserved;
    assert Dir(z.a, z.b, z.toB, z.toA) && Dir(z.b, z.a, z.toA, z.toB);
  }

  /** The endpoint invariant in every reachable state, and the words agree with the
      unbounded numbers despite wrapping. */
  lemma Numbering(cfgA: Config, cfgB: Config, steps: seq<Step>)
    requires cfgA.conv == cfgB.conv
    ensures
      var z := Reached(cfgA, cfgB, steps);
      && EndpointOk(z.a.k) && EndpointOk(z.b.k)
      && (forall s <- [z.a, z.b] ::
            && s.k.sndUna == Wrap(s.una) && s.k.sndNxt == Wrap(s.nxt) && s.k.rcvNxt == Wrap(s.rnxt)
            && s.una <= s.nxt <= s.una + s.k.cfg.sndWnd)
  {
    ReachedOk(cfgA, cfgB, steps);
    var z := Reached(cfgA, cfgB, steps);
    hide Reached, EndpointOk, Dir, Encodes, Wrap;
    assert SideOk(z.a) && SideOk(z.b);
  }

  /** y's receive side, which gets what x sent, does not jam: peeksize tells exactly whether the
      next message is complete, and how long it is; and a receive queue of a window or more always
      starts with a complete one. */
  predicate NotJammed(x: Side, y: Side) {
    var mss, sent, got, peek := x.k.cfg.Mss(), x.sent, y.got, PeekSize(y.k.rcvQueue);
    && (peek >= 0 <==> |got| < |sent| && |Stream(mss, got)| + |Fragments(mss, sent[|got|])| <= y.rnxt)
    && (peek >= 0 ==> peek == |sent[|got|]|)
    && (|y.k.rcvQueue| >= y.k.cfg.rcvWnd ==> peek >= 0)
  }

  lemma NeverJams(cfgA: Config, cfgB: Config, steps: seq<Step>)
    requires cfgA.conv == cfgB.conv
    ensures
      var z := Reached(cfgA, cfgB, steps);
      NotJammed(z.a, z.b) && NotJammed(z.b, z.a)
  {
    ReachedOk(cfgA, cfgB, steps);
    var z := Reached(cfgA, cfgB, steps);
    hide Reached, Pair, NotJammed;
    PairSymmetric(z.a, z.b, z.toA, z.toB);
    SideNeverJams(z.a, z.b, z.toA, z.toB);
    SideNeverJams(z.b, z.a, z.toB, z.toA);
  }

  lemma SideNeverJams(x: Side, y: Side, inn: set<Packet>, out: set<Packet>)
    requires Pair(x, y, inn, out)
    ensures NotJammed(x, y)
  {
    hide Encodes, PeekSize, Stream, SenderRole, Conserved, AcksHeld, AllData, AllAcks, EndpointOk;
    hide Wrap, WindowOk, InboxOk, Fragments, Receiving, FragmentCount;
    assert Dir(x, y, out, inn) && SideOk(x);
    var mss := x.k.cfg.Mss();
    PeekSizeExact(mss, x.sent, y.got, y.k.rcvQueue, y.rnxt);
    if |y.k.rcvQueue| >= y.k.cfg.rcvWnd {
      FullQueueReadable(mss, x.sent, y.got, y.k.rcvQueue, y.rnxt);
    }
  }
}
