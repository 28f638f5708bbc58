/** Two KCP endpoints and a network that may drop, duplicate and reorder datagrams: what
    holds in every reachable state. */
module KcpSystem {
  import opened Word32
  import opened KcpWire
  import opened KcpEndpoint
  import opened KcpInvariant
  import opened KcpMessages
  import opened KcpDirection

  /** An endpoint with its history: the unbounded snd_una, snd_nxt and rcv_nxt, the numbers
      of the acknowledgements it owes, and the messages sent and received so far. */
  datatype Side = Side(k: Kcb, una: nat, nxt: nat, rnxt: nat, ackNums: seq<nat>, sent: seq<Message>, got: seq<Message>)

  function SenderOf(s: Side): Sender {
    Sender(s.una, s.nxt, s.k.sndUna, s.k.sndNxt, s.k.sndBuf, s.k.sndQueue)
  }

  function ReceiverOf(s: Side): Receiver {
    Receiver(s.rnxt, Inbox(s.k), s.k.ackList, s.ackNums)
  }

  /** The unbounded numbers move as far as the words do. */
  function Renumbered(s: Side, k: Kcb): Side {
    s.(k := k,
       una := s.una + Sub(k.sndUna, s.k.sndUna),
       nxt := s.nxt + Sub(k.sndNxt, s.k.sndNxt),
       rnxt := s.rnxt + Sub(k.rcvNxt, s.k.rcvNxt))
  }

  // ---- The calls of one side ----

  function Untag(segs: seq<Tagged>): (r: seq<WireSeg>)
    ensures |r| == |segs|
  {
    seq(|segs|, i requires 0 <= i < |segs| => segs[i].w)
  }

  function InputTagged(s: Side, t: Tagged): Side {
    var k := InputSeg(s.k, t.w);
    Renumbered(s, k).(ackNums := if |k.ackList| > |s.k.ackList| then s.ackNums + [t.sn] else s.ackNums)
  }

  function InputTaggedAll(s: Side, ts: seq<Tagged>): Side
    decreases |ts|
  {
    if ts == [] then s else InputTagged(InputTaggedAll(s, ts[..|ts| - 1]), ts[|ts| - 1])
  }

  /** The unbounded number of the sn of the i-th segment of a flush. */
  function SnTag(s: Side, segs: seq<WireSeg>, i: nat): nat
    requires i < |segs|
  {
    if i < |s.ackNums| then s.ackNums[i]
    else if segs[i].cmd == CMD_PUSH then s.una + Sub(segs[i].sn, s.k.sndUna)
    else 0
  }

  function TaggedFlush(s: Side): (r: seq<Tagged>)
    requires EndpointOk(s.k)
  {
    FlushSegsFit(s.k);
    var segs := FlushSegs(s.k);
    seq(|segs|, i requires 0 <= i < |segs| => Tagged(segs[i], SnTag(s, segs, i), s.rnxt))
  }

  function TaggedSize(t: Tagged): nat {
    SegSize(t.w)
  }

  predicate Encodes(conv: u32, p: Packet) {
    p.segs != [] && AllSendable(Untag(p.segs)) && p.bytes == EncodeAll(conv, Untag(p.segs))
  }

  /** Tagged packets, as a flush of these segments puts them in flight. */
  function Packets(conv: u32, mtu: nat, ts: seq<Tagged>): set<Packet> {
    set g | g in Emitted(Pack(TaggedSize, mtu, ts)) && AllSendable(Untag(g)) :: Packet(EncodeAll(conv, Untag(g)), g)
  }

  /** The datagrams of a flush, with their numbers. */
  function FlushPackets(s: Side): set<Packet>
    requires EndpointOk(s.k)
  {
    if !s.k.updated then {} else Packets(s.k.cfg.conv, s.k.cfg.mtu, TaggedFlush(s))
  }

  function FlushSide(s: Side): Side {
    Renumbered(s, Flushed(s.k)).(ackNums := if s.k.updated then [] else s.ackNums)
  }

  /** A call at one side. Time is an argument; `len` is the size of the receive buffer, or
      its negation to peek. */
  datatype Call = DoSend(msg: Message) | DoRecv(len: int) | DoUpdate(now: u32) | DoFlush | Deliver(p: Packet)

  function AfterSend(s: Side, msg: Message): Side {
    var (k, rc) := Send(s.k, msg);
    Renumbered(s, k).(sent := if rc >= 0 then s.sent + [msg] else s.sent)
  }

  function AfterRecv(s: Side, len: int): Side {
    var (k, rc, data) := Recv(s.k, len);
    Renumbered(s, k).(got := if rc >= 0 && len >= 0 then s.got + [data] else s.got)
  }

  function AfterDelivery(s: Side, p: Packet): Side {
    InputTaggedAll(s, p.segs).(k := Input(s.k, p.bytes).0)
  }

  function AfterUpdate(s: Side, now: u32): (Side, set<Packet>)
    requires EndpointOk(s.k)
  {
    TickOk(s.k, now);
    var s1 := s.(k := Tick(s.k, now).0);
    if Tick(s.k, now).1 then (FlushSide(s1), FlushPackets(s1)) else (s1, {})
  }

  /** The side after a call, and the datagrams it sent. */
  function After(s: Side, c: Call): (r: (Side, set<Packet>))
    requires EndpointOk(s.k)
  {
    match c
    case DoSend(msg) => (AfterSend(s, msg), {})
    case DoRecv(len) => (AfterRecv(s, len), {})
    case DoUpdate(now) => AfterUpdate(s, now)
    case DoFlush => (FlushSide(s), FlushPackets(s))
    case Deliver(p) => (AfterDelivery(s, p), {})
  }

  // ---- The system ----

  datatype System = System(a: Side, b: Side, toA: set<Packet>, toB: set<Packet>)

  /** One step of a run. Delivering leaves the datagram in the network, where it may be
      delivered again; any datagrams may be lost at any time. */
  datatype Step = AtA(c: Call) | AtB(c: Call) | Lose(fromA: set<Packet>, fromB: set<Packet>)

  /** No number outlives the comparisons made with it: what arrives is less than half the
      number space behind. */
  predicate Fresh(p: Packet, s: Side) {
    forall t <- p.segs ::
      && s.nxt - t.una <= HALF
      && (t.w.cmd == CMD_ACK ==> s.nxt - t.sn <= HALF)
      && (t.w.cmd == CMD_PUSH ==> s.rnxt + 2 * s.k.cfg.rcvWnd - t.sn <= HALF)
  }

  predicate CallAllowed(s: Side, c: Call, inbox: set<Packet>) {
    c.Deliver? ==> c.p in inbox && Fresh(c.p, s)
  }

  predicate Allowed(y: System, step: Step) {
    match step
    case AtA(c) => CallAllowed(y.a, c, y.toA)
    case AtB(c) => CallAllowed(y.b, c, y.toB)
    case Lose(_, _) => true
  }

  function Stepped(y: System, step: Step): System
    requires EndpointOk(y.a.k) && EndpointOk(y.b.k)
  {
    match step
    case AtA(c) => var (a, out) := After(y.a, c); y.(a := a, toB := y.toB + out)
    case AtB(c) => var (b, out) := After(y.b, c); y.(b := b, toA := y.toA + out)
    case Lose(la, lb) => y.(toA := y.toA - la, toB := y.toB - lb)
  }

  function Opened(cfg: Config): Side {
    Side(Created(cfg), 0, 0, 0, [], [], [])
  }

  function Start(cfgA: Config, cfgB: Config): System {
    System(Opened(cfgA), Opened(cfgB), {}, {})
  }

  // ---- The invariant ----

  predicate SideOk(s: Side) {
    && EndpointOk(s.k)
    && SenderOf(s).Valid(s.k.cfg.sndWnd)
    && ReceiverOf(s).Valid(s.k.cfg.rcvWnd)
    && forall m <- s.sent :: Accepts(s.k.cfg, m)
  }

  /** The direction from x to y; `xy` and `yx` are the datagrams in flight. */
  predicate Dir(x: Side, y: Side, xy: set<Packet>, yx: set<Packet>) {
    Direction(SenderOf(x), ReceiverOf(y), x.k.cfg.Mss(), x.sent, y.got, xy, yx)
  }

  /** What holds around one side: `inn` is in flight to it and `out` from it. */
  predicate Pair(s: Side, peer: Side, inn: set<Packet>, out: set<Packet>) {
    && SideOk(s) && SideOk(peer)
    && s.k.cfg.conv == peer.k.cfg.conv
    && Dir(s, peer, out, inn)
    && Dir(peer, s, inn, out)
    && forall p <- inn + out :: Encodes(s.k.cfg.conv, p)
  }

  predicate Inv(y: System) {
    Pair(y.a, y.b, y.toA, y.toB)
  }

  lemma PairSymmetric(s: Side, peer: Side, inn: set<Packet>, out: set<Packet>)
    requires Pair(s, peer, inn, out)
    ensures Pair(peer, s, out, inn)
  {
    hide SideOk, Dir, Encodes;
  }

  /** A receiver that only gained keeps its direction. */
  lemma ReceiverGains(s: Sender, r: Receiver, r': Receiver, mss: nat, sent: seq<Message>, got: seq<Message>,
      got': seq<Message>, data: set<Packet>, acks: set<Packet>)
    requires 0 < mss && Direction(s, r, mss, sent, got, data, acks)
    requires ReceiverRole(r', mss, sent, got', s.nxt) && AcksHeld(r')
    requires r.nxt <= r'.nxt && forall n: nat | r.Held(n) :: r'.Held(n)
    ensures Direction(s, r', mss, sent, got', data, acks)
  {
    hide SenderRole, ReceiverRole, AcksHeld, AllData;
    assert Conserved(s, r');
    assert AllAcks(acks, r') by {
      forall p, t | p in acks && t in p.segs ensures AckTrue(t, r') {
        assert AckTrue(t, r);
      }
    }
  }

  // ---- Send ----

  lemma SendKeeps(s: Side, peer: Side, inn: set<Packet>, out: set<Packet>, msg: Message)
    requires Pair(s, peer, inn, out)
    ensures Pair(AfterSend(s, msg), peer, inn, out)
  {
    hide AfterSend, Direction, EndpointOk, Advances, Fragments, WindowOk, InboxOk, Wrap, Stream, FragmentCount,
      Encodes, Sub;
    AfterSendIs(s, msg);
    SendOk(s.k, msg);
    var s', mss := AfterSend(s, msg), s.k.cfg.Mss();
    hide Send;
    if Accepts(s.k.cfg, msg) {
      assert ReceiverOf(s') == ReceiverOf(s);
      SendStream(SenderOf(s), ReceiverOf(peer), mss, s.sent, msg, peer.got, out, inn);
    }
  }

  lemma AfterSendIs(s: Side, msg: Message)
    ensures !Accepts(s.k.cfg, msg) ==> AfterSend(s, msg) == s
    ensures Accepts(s.k.cfg, msg) ==>
      var s', fs := AfterSend(s, msg), Fragments(s.k.cfg.Mss(), msg);
      && s' == s.(k := s.k.(sndQueue := s.k.sndQueue + fs), sent := s.sent + [msg])
      && s'.k == Send(s.k, msg).0
      && SenderOf(s') == SenderOf(s).(queue := SenderOf(s).queue + fs)
  {
    assert Sub(s.k.sndNxt, s.k.sndNxt) == 0 && Sub(s.k.sndUna, s.k.sndUna) == 0 && Sub(s.k.rcvNxt, s.k.rcvNxt) == 0;
    hide Fragments, Sub, FragmentCount;
  }

  lemma SendStream(s: Sender, r: Receiver, mss: nat, sent: seq<Message>, msg: Message, got: seq<Message>,
                   data: set<Packet>, acks: set<Packet>)
    requires 0 < mss && Direction(s, r, mss, sent, got, data, acks)
    ensures Direction(s.(queue := s.queue + Fragments(mss, msg)), r, mss, sent + [msg], got, data, acks)
  {
    KcpDirection.SendRole(s, mss, sent, msg);
    SendMore(mss, sent, msg, got, r.box.queue, r.nxt);
    SendDirection(s, s.(queue := s.queue + Fragments(mss, msg)), r, mss, sent, sent + [msg], got, data, acks);
  }

  lemma SendDirection(s: Sender, s': Sender, r: Receiver, mss: nat, sent: seq<Message>, sent': seq<Message>,
      got: seq<Message>, data: set<Packet>, acks: set<Packet>)
    requires 0 < mss && Direction(s, r, mss, sent, got, data, acks)
    requires SenderRole(s', Stream(mss, sent')) && Stream(mss, sent) <= Stream(mss, sent')
    requires Receiving(mss, sent', got, r.box.queue, r.nxt)
    requires s' == s.(queue := s'.queue)
    ensures Direction(s', r, mss, sent', got, data, acks)
  {
    hide Receiving, SenderRole, Stream, AllAcks, AcksHeld;
    assert forall n: nat :: s'.Waiting(n) <==> s.Waiting(n);
    assert Conserved(s', r);
    hide Conserved;
    assert ReceiverRole(r, mss, sent', got, s'.nxt);
    forall p, t | p in data && t in p.segs ensures DataTrue(t, Stream(mss, sent'), s'.nxt) {
      assert DataTrue(t, Stream(mss, sent), s.nxt);
    }
  }

  // ---- Recv ----

  lemma RecvReceiver(r: Receiver, wnd: u32, len: int, mss: nat, sent: seq<Message>, got: seq<Message>, sndNxt: nat)
    requires 0 < mss && r.Valid(wnd) && ReceiverRole(r, mss, sent, got, sndNxt) && AcksHeld(r)
    requires 0 <= PeekSize(r.box.queue)
    ensures
      var n := FirstRun(r.box.queue);
      var q := if len < 0 then r.box.queue else r.box.queue[n..];
      var r' := Moved(r, MoveReady(wnd, r.box.(queue := q)));
      var got' := if len < 0 then got else got + [Joined(r.box.queue[..n])];
      && r'.Valid(wnd) && ReceiverRole(r', mss, sent, got', sndNxt) && AcksHeld(r')
      && r.nxt <= r'.nxt
      && forall k: nat | r.Held(k) :: r'.Held(k)
  {
    if len < 0 {
      assert r.box.(queue := r.box.queue) == r.box;
      hide MoveReady, PeekSize, Joined, FirstRun, ReceiverRole;
      MoveReadyRole(r, wnd, mss, sent, got, sndNxt);
    } else {
      TakeRole(r, wnd, mss, sent, got, sndNxt);
    }
  }

  /** Which fields ikcp_recv touches when it succeeds. */
  lemma RecvFrame(s: Side, len: int)
    ensures
      var (k', rc, data) := Recv(s.k, len);
      var n := FirstRun(s.k.rcvQueue);
      var q := if len < 0 then s.k.rcvQueue else s.k.rcvQueue[n..];
      if rc < 0 then k' == s.k
      else
        && PeekSize(s.k.rcvQueue) >= 0
        && k'.cfg == s.k.cfg && k'.sndUna == s.k.sndUna && k'.sndNxt == s.k.sndNxt
        && k'.sndBuf == s.k.sndBuf && k'.sndQueue == s.k.sndQueue && k'.ackList == s.k.ackList
        && Inbox(k') == MoveReady(s.k.cfg.rcvWnd, Inbox(s.k).(queue := q))
        && data == Joined(s.k.rcvQueue[..n])
  {
    hide MoveReady, PeekSize, Joined, FirstRun;
  }

  /** ikcp_recv at one side, seen from its two halves. */
  lemma RecvHalves(s: Side, len: int)
    requires EndpointOk(s.k)
    ensures
      var s' := AfterRecv(s, len);
      var n := FirstRun(s.k.rcvQueue);
      var q := if len < 0 then s.k.rcvQueue else s.k.rcvQueue[n..];
      if Recv(s.k, len).1 < 0 then s' == s
      else
        && PeekSize(s.k.rcvQueue) >= 0
        && EndpointOk(s'.k) && s'.k.cfg == s.k.cfg && s'.sent == s.sent
        && s'.got == (if len < 0 then s.got else s.got + [Joined(s.k.rcvQueue[..n])])
        && SenderOf(s') == SenderOf(s)
        && ReceiverOf(s') == Moved(ReceiverOf(s), MoveReady(s.k.cfg.rcvWnd, Inbox(s.k).(queue := q)))
  {
    RecvOk(s.k, len);
    RecvFrame(s, len);
    assert Sub(s.k.sndNxt, s.k.sndNxt) == 0 && Sub(s.k.sndUna, s.k.sndUna) == 0 && Sub(s.k.rcvNxt, s.k.rcvNxt) == 0;
    hide EndpointOk, MoveReady, PeekSize, Joined, FirstRun, Recv, Sub;
  }

  lemma RecvKeeps(s: Side, peer: Side, inn: set<Packet>, out: set<Packet>, len: int)
    requires Pair(s, peer, inn, out)
    ensures Pair(AfterRecv(s, len), peer, inn, out)
  {
    var s' := AfterRecv(s, len);
    PairReceiver(s, peer, inn, out);
    hide Pair, EndpointOk, MoveReady, PeekSize, Joined, FirstRun, ReceiverRole, AcksHeld, Recv, AfterRecv, Moved,
      Wrap, InboxOk;
    RecvHalves(s, len);
    if Recv(s.k, len).1 >= 0 {
      RecvReceiver(ReceiverOf(s), s.k.cfg.rcvWnd, len, peer.k.cfg.Mss(), peer.sent, s.got, peer.nxt);
      ReceiverChanged(s, s', peer, inn, out);
    }
  }

  lemma PairReceiver(s: Side, peer: Side, inn: set<Packet>, out: set<Packet>)
    requires Pair(s, peer, inn, out)
    ensures EndpointOk(s.k) && ReceiverOf(s).Valid(s.k.cfg.rcvWnd) && AcksHeld(ReceiverOf(s))
    ensures ReceiverRole(ReceiverOf(s), peer.k.cfg.Mss(), peer.sent, s.got, peer.nxt)
  {
  }

  /** A call that only touches the receive half, and only to its gain. */
  lemma ReceiverChanged(s: Side, s': Side, peer: Side, inn: set<Packet>, out: set<Packet>)
    requires Pair(s, peer, inn, out) && EndpointOk(s'.k)
    requires s'.k.cfg == s.k.cfg && s'.sent == s.sent && SenderOf(s') == SenderOf(s)
    requires ReceiverOf(s').Valid(s.k.cfg.rcvWnd) && AcksHeld(ReceiverOf(s'))
    requires ReceiverRole(ReceiverOf(s'), peer.k.cfg.Mss(), peer.sent, s'.got, peer.nxt)
    requires s.rnxt <= s'.rnxt && forall n: nat | ReceiverOf(s).Held(n) :: ReceiverOf(s').Held(n)
    ensures Pair(s', peer, inn, out)
  {
    ReceiverGains(SenderOf(peer), ReceiverOf(s), ReceiverOf(s'), peer.k.cfg.Mss(), peer.sent, s.got, s'.got, inn, out);
    hide EndpointOk, Direction, Encodes, Accepts, Wrap, WindowOk, InboxOk;
  }

  // ---- Input ----

  /** The send half after the una of a segment, and after its selective acknowledgement. */
  function Acked(s: Sender, w: WireSeg): Sender {
    var s1 := Left(s, DropBefore(s.buf, w.una));
    if w.cmd == CMD_ACK && TimeDiff(w.sn, s1.sndUna) >= 0 && TimeDiff(w.sn, s1.sndNxt) < 0
    then Left(s1, DropOne(s1.buf, w.sn))
    else s1
  }

  lemma SubChain(u0: u32, u1: u32, u2: u32, nxt: u32)
    requires Sub(nxt, u0) == Sub(nxt, u1) + Sub(u1, u0) && Sub(nxt, u1) == Sub(nxt, u2) + Sub(u2, u1)
    ensures Sub(u2, u0) == Sub(u1, u0) + Sub(u2, u1)
  {
  }

  /** Which fields the command of a segment touches. */
  lemma AckFrame(k: Kcb, w: WireSeg)
    requires w.cmd == CMD_ACK
    ensures
      var k' := InputCmd(k, w);
      && k'.sndNxt == k.sndNxt && k'.sndQueue == k.sndQueue && k'.sndBuf == ParseAck(k, w.sn).sndBuf
      && k'.sndUna == (if k'.sndBuf == [] then k.sndNxt else k'.sndBuf[0].sn)
      && Inbox(k') == Inbox(k) && k'.ackList == k.ackList
  {
    UpdateAckFrame(k, TimeDiff(k.current, w.ts));
    hide UpdateAck, DropOne, TimeDiff;
  }

  lemma PushFrame(k: Kcb, w: WireSeg)
    requires w.cmd != CMD_ACK
    ensures
      var k' := InputCmd(k, w);
      && k'.sndNxt == k.sndNxt && k'.sndQueue == k.sndQueue && k'.sndBuf == k.sndBuf && k'.sndUna == k.sndUna
      && (w.cmd != CMD_PUSH ==> Inbox(k') == Inbox(k) && k'.ackList == k.ackList)
      && (w.cmd == CMD_PUSH ==>
            if TimeDiff(w.sn, Add(k.rcvNxt, k.cfg.rcvWnd)) >= 0 then Inbox(k') == Inbox(k) && k'.ackList == k.ackList
            else
              && k'.ackList == k.ackList + [Ack(w.sn, w.ts)]
              && Inbox(k') == if TimeDiff(w.sn, k.rcvNxt) < 0 then Inbox(k)
                              else MoveReady(k.cfg.rcvWnd,
                                Inbox(k).(buf := Insert(k.rcvBuf, InSeg(w.sn, Frag(w.frg, w.data))))))
  {
    hide MoveReady, Insert, TimeDiff, Add;
  }

  /** Every segment first passes its una and window. */
  lemma UnaFrame(k: Kcb, w: WireSeg)
    ensures
      var k1 := Shrink(k.(rmtWnd := w.wnd, sndBuf := DropBefore(k.sndBuf, w.una)));
      && InputSeg(k, w) == InputCmd(k1, w)
      && k1.cfg == k.cfg && Inbox(k1) == Inbox(k) && k1.ackList == k.ackList
      && k1.sndNxt == k.sndNxt && k1.sndQueue == k.sndQueue && k1.sndBuf == DropBefore(k.sndBuf, w.una)
      && k1.sndUna == (if k1.sndBuf == [] then k.sndNxt else k1.sndBuf[0].sn)
  {
    hide DropBefore, InputCmd;
  }

  function HeadOr(buf: seq<OutSeg>, nxt: u32): u32 {
    if buf == [] then nxt else buf[0].sn
  }

  /** What is left waiting after a segment was taken. */
  function LeftAfter(k: Kcb, w: WireSeg): seq<OutSeg> {
    var buf := DropBefore(k.sndBuf, w.una);
    if w.cmd == CMD_ACK && TimeDiff(w.sn, HeadOr(buf, k.sndNxt)) >= 0 && TimeDiff(w.sn, k.sndNxt) < 0
    then DropOne(buf, w.sn)
    else buf
  }

  lemma InputSendFields(k: Kcb, w: WireSeg)
    ensures
      var k' := InputSeg(k, w);
      && k'.cfg == k.cfg && k'.sndNxt == k.sndNxt && k'.sndQueue == k.sndQueue
      && k'.sndBuf == LeftAfter(k, w)
      && k'.sndUna == (if w.cmd == CMD_ACK then HeadOr(LeftAfter(k, w), k.sndNxt)
        else HeadOr(DropBefore(k.sndBuf, w.una), k.sndNxt))
  {
    UnaFrame(k, w);
    var k1 := Shrink(k.(rmtWnd := w.wnd, sndBuf := DropBefore(k.sndBuf, w.una)));
    hide Shrink, InputSeg, DropBefore, DropOne, TimeDiff;
    if w.cmd == CMD_ACK { AckFrame(k1, w); } else { PushFrame(k1, w); }
    InputCfg(k1, w);
    hide InputCmd;
  }

  lemma InputCfg(k: Kcb, w: WireSeg)
    ensures InputCmd(k, w).cfg == k.cfg
  {
    hide MoveReady, Insert, TimeDiff, Add, DropOne;
  }

  /** snd_una moves twice when a segment carries both kinds of acknowledgement. */
  lemma InputUnaChain(k: Kcb, w: WireSeg)
    requires EndpointOk(k)
    ensures
      var u1 := HeadOr(DropBefore(k.sndBuf, w.una), k.sndNxt);
      var u2 := HeadOr(LeftAfter(k, w), k.sndNxt);
      Sub(u2, k.sndUna) == Sub(u1, k.sndUna) + Sub(u2, u1)
  {
    var wnd := k.cfg.sndWnd;
    var buf := DropBefore(k.sndBuf, w.una);
    var u1 := HeadOr(buf, k.sndNxt);
    DropBeforeInWindow(k.sndBuf, k.sndUna, k.sndNxt, wnd, w.una);
    Rebase(buf, k.sndUna, k.sndNxt, wnd);
    DropOneInWindow(buf, u1, k.sndNxt, wnd, w.sn);
    Rebase(LeftAfter(k, w), u1, k.sndNxt, wnd);
    hide InWindow, DropBefore, DropOne, InboxOk, Packable, TimeDiff;
    SubChain(k.sndUna, u1, HeadOr(LeftAfter(k, w), k.sndNxt), k.sndNxt);
  }

  /** The send half of ikcp_input for one segment. */
  lemma InputSender(s: Side, t: Tagged)
    requires SideOk(s)
    ensures SenderOf(InputTagged(s, t)) == Acked(SenderOf(s), t.w)
  {
    var buf := DropBefore(s.k.sndBuf, t.w.una);
    InputSendFields(s.k, t.w);
    InputUnaChain(s.k, t.w);
    assert Sub(s.k.sndNxt, s.k.sndNxt) == 0;
    var u1 := HeadOr(buf, s.k.sndNxt);
    assert Sub(u1, u1) == 0;
    hide InputSeg, EndpointOk, Wrap, Sub, TimeDiff, DropOne, DropBefore;
    assert Left(SenderOf(s), buf) == Sender(s.una + Sub(u1, s.k.sndUna), s.nxt, u1, s.k.sndNxt, buf, s.k.sndQueue);
  }

  /** The receive half of ikcp_input for one segment. */
  lemma InputReceiver(s: Side, t: Tagged)
    requires SideOk(s)
    ensures ReceiverOf(InputTagged(s, t)) ==
      if t.w.cmd == CMD_PUSH then Receive(ReceiverOf(s), s.k.cfg.rcvWnd, t) else ReceiverOf(s)
  {
    UnaFrame(s.k, t.w);
    var k1 := Shrink(s.k.(rmtWnd := t.w.wnd, sndBuf := DropBefore(s.k.sndBuf, t.w.una)));
    assert Sub(s.k.rcvNxt, s.k.rcvNxt) == 0;
    hide InputSeg, Shrink, EndpointOk, Wrap, Sub, TimeDiff, Add, DropBefore, MoveReady, Insert;
    if t.w.cmd == CMD_ACK {
      AckFrame(k1, t.w);
      hide InputCmd;
    } else {
      PushFrame(k1, t.w);
      hide InputCmd;
    }
  }

  /** Acknowledgements in flight drop only what the peer holds. */
  lemma AckedKeeps(s: Sender, r: Receiver, wnd: nat, mss: nat, sent: seq<Message>, got: seq<Message>,
                   data: set<Packet>, acks: set<Packet>, t: Tagged)
    requires 0 < mss && s.Valid(wnd) && Direction(s, r, mss, sent, got, data, acks)
    requires AckTrue(t, r) && s.nxt - t.una <= HALF
    requires t.w.cmd == CMD_ACK ==> t.sn < s.nxt && s.nxt - t.sn <= HALF
    ensures Acked(s, t.w).Valid(wnd) && Acked(s, t.w).una >= s.una
    ensures Direction(Acked(s, t.w), r, mss, sent, got, data, acks)
  {
    var stream := Stream(mss, sent);
    UnaDrops(s, r, wnd, stream, t.una);
    var s1 := Left(s, DropBefore(s.buf, t.w.una));
    if t.w.cmd == CMD_ACK {
      AckDrops(s1, r, wnd, stream, t.sn);
    }
    var s' := Acked(s, t.w);
    assert s'.nxt == s.nxt;
    hide SenderRole, Conserved, ReceiverRole, AcksHeld, AllData, AllAcks, DropBefore, DropOne, Wrap, TimeDiff,
      WindowOk, Acked;
  }

  /** What is held was sent. */
  lemma HeldSent(s: Sender, r: Receiver, mss: nat, sent: seq<Message>, got: seq<Message>, data: set<Packet>,
      acks: set<Packet>, n: nat)
    requires 0 < mss && Direction(s, r, mss, sent, got, data, acks) && r.Held(n)
    ensures n < s.nxt
  {
    hide SenderRole, Conserved, AcksHeld, AllData, AllAcks, Receiving, Stream, Sub;
  }

  /** Numbers close enough for the comparisons ikcp_input makes with one segment. */
  predicate Close(t: Tagged, s: Side) {
    && s.nxt - t.una <= HALF
    && (t.w.cmd == CMD_ACK ==> s.nxt - t.sn <= HALF)
    && (t.w.cmd == CMD_PUSH ==> s.rnxt + s.k.cfg.rcvWnd - t.sn <= HALF)
  }

  lemma InputSenderKeeps(s: Side, peer: Side, inn: set<Packet>, out: set<Packet>, p: Packet, t: Tagged)
    requires Pair(s, peer, inn, out) && p in inn && t in p.segs && Close(t, s)
    ensures SenderOf(InputTagged(s, t)).Valid(s.k.cfg.sndWnd)
    ensures Direction(SenderOf(InputTagged(s, t)), ReceiverOf(peer), s.k.cfg.Mss(), s.sent, peer.got, out, inn)
  {
    InputSender(s, t);
    var mss := s.k.cfg.Mss();
    assert AckTrue(t, ReceiverOf(peer));
    if t.w.cmd == CMD_ACK {
      HeldSent(SenderOf(s), ReceiverOf(peer), mss, s.sent, peer.got, out, inn, t.sn);
    }
    hide InputTagged, Acked, EndpointOk, Encodes, Direction, Wrap, WindowOk, InboxOk, Stream;
    AckedKeeps(SenderOf(s), ReceiverOf(peer), s.k.cfg.sndWnd, mss, s.sent, peer.got, out, inn, t);
  }

  lemma InputReceiverKeeps(s: Side, peer: Side, inn: set<Packet>, out: set<Packet>, p: Packet, t: Tagged)
    requires Pair(s, peer, inn, out) && p in inn && t in p.segs && Close(t, s)
    ensures ReceiverOf(InputTagged(s, t)).Valid(s.k.cfg.rcvWnd)
    ensures Direction(SenderOf(peer), ReceiverOf(InputTagged(s, t)), peer.k.cfg.Mss(), peer.sent, s.got, inn, out)
  {
    InputReceiver(s, t);
    var mss, r := peer.k.cfg.Mss(), ReceiverOf(s);
    assert DataTrue(t, Stream(mss, peer.sent), peer.nxt);
    UnaBound(SenderOf(peer), r, peer.k.cfg.sndWnd, s.k.cfg.rcvWnd);
    assert peer.nxt <= s.rnxt + s.k.cfg.rcvWnd + peer.k.cfg.sndWnd;
    hide InputTagged, EndpointOk, Encodes, Wrap, WindowOk, InboxOk, Stream, SenderRole, Conserved, AcksHeld, AllData,
      AllAcks, ReceiverRole, Receive;
    if t.w.cmd == CMD_PUSH {
      ReceiveRole(r, s.k.cfg.rcvWnd, t, mss, peer.sent, s.got, peer.nxt);
      ReceiverGains(SenderOf(peer), r, Receive(r, s.k.cfg.rcvWnd, t), mss, peer.sent, s.got, s.got, inn, out);
    }
  }

  lemma InputTaggedKeeps(s: Side, peer: Side, inn: set<Packet>, out: set<Packet>, p: Packet, t: Tagged)
    requires Pair(s, peer, inn, out) && p in inn && t in p.segs && Close(t, s)
    ensures Pair(InputTagged(s, t), peer, inn, out)
    ensures Inputs(s.k, InputTagged(s, t).k) && InputTagged(s, t).k == InputSeg(s.k, t.w)
    ensures InputTagged(s, t).nxt == s.nxt
    ensures InputTagged(s, t).rnxt - s.rnxt == |InputTagged(s, t).k.rcvQueue| - |s.k.rcvQueue|
  {
    InputSegOk(s.k, t.w);
    InputSenderKeeps(s, peer, inn, out, p, t);
    InputReceiverKeeps(s, peer, inn, out, p, t);
    assert Sub(s.k.sndNxt, s.k.sndNxt) == 0;
    hide EndpointOk, Encodes, Direction, Wrap, WindowOk, InboxOk, Stream, InputSeg, Sub, Accepts;
  }

  lemma {:induction false} InputTaggedAllKeeps(s: Side, peer: Side, inn: set<Packet>, out: set<Packet>, p: Packet,
      ts: seq<Tagged>)
    requires Pair(s, peer, inn, out) && p in inn && Fresh(p, s) && ts <= p.segs
    ensures Pair(InputTaggedAll(s, ts), peer, inn, out)
    ensures InputTaggedAll(s, ts).k == InputSegs(s.k, Untag(ts))
    ensures InputTaggedAll(s, ts).nxt == s.nxt
    ensures InputTaggedAll(s, ts).rnxt - s.rnxt == |InputTaggedAll(s, ts).k.rcvQueue| - |s.k.rcvQueue|
    decreases |ts|
  {
    hide Pair, EndpointOk, InputTagged, InputSeg, Fresh, Close, Inputs, SideOk, Inbox;
    if ts != [] {
      var init, t := ts[..|ts| - 1], ts[|ts| - 1];
      InputTaggedAllKeeps(s, peer, inn, out, p, init);
      assert Untag(ts)[..|ts| - 1] == Untag(init);
      assert t in p.segs;
      var s1 := InputTaggedAll(s, init);
      QueueBound(s, peer, inn, out);
      QueueBound(s1, peer, inn, out);
      InputSegsOk(s.k, Untag(init));
      InputsCfg(s.k, s1.k);
      FreshClose(p, s, s1, t);
      InputTaggedKeeps(s1, peer, inn, out, p, t);
    }
  }

  lemma InputsCfg(k: Kcb, k': Kcb)
    requires Inputs(k, k')
    ensures k'.cfg == k.cfg
  {
  }

  /** A fresh datagram stays close while its own segments are taken. */
  lemma FreshClose(p: Packet, s: Side, s1: Side, t: Tagged)
    requires Fresh(p, s) && t in p.segs
    requires s1.nxt == s.nxt && s1.rnxt <= s.rnxt + s.k.cfg.rcvWnd && s1.k.cfg == s.k.cfg
    ensures Close(t, s1)
  {
  }

  lemma QueueBound(s: Side, peer: Side, inn: set<Packet>, out: set<Packet>)
    requires Pair(s, peer, inn, out)
    ensures EndpointOk(s.k) && |s.k.rcvQueue| <= s.k.cfg.rcvWnd
  {
  }

  lemma InputKeeps(s: Side, peer: Side, inn: set<Packet>, out: set<Packet>, p: Packet)
    requires Pair(s, peer, inn, out) && p in inn && Fresh(p, s)
    ensures Pair(AfterDelivery(s, p), peer, inn, out)
  {
    assert Encodes(s.k.cfg.conv, p);
    hide Pair, InputTaggedAll, InputSegs, Input, TrackAll, Fresh, AfterInput, Encodes;
    InputTaggedAllKeeps(s, peer, inn, out, p, p.segs);
    var s1 := InputTaggedAll(s, p.segs);
    InputDecoded(s.k, p);
    AfterInputKeeps(s1, peer, inn, out, s.k, TrackAll(Untag(p.segs)));
  }

  /** The decoding loop reads back what the packet was built from. */
  lemma InputDecoded(k: Kcb, p: Packet)
    requires Encodes(k.cfg.conv, p)
    ensures Input(k, p.bytes).0 == AfterInput(k, InputSegs(k, Untag(p.segs)), TrackAll(Untag(p.segs)))
  {
    DecodeEncode(k.cfg.conv, Untag(p.segs));
    SmallestGroup(Untag(p.segs));
    hide Parse, InputSegs, TrackAll, AfterInput, EncodeAll;
  }

  lemma AfterInputKeeps(s: Side, peer: Side, inn: set<Packet>, out: set<Packet>, before: Kcb, newest: Newest)
    requires Pair(s, peer, inn, out)
    ensures Pair(s.(k := AfterInput(before, s.k, newest)), peer, inn, out)
  {
    var k := s.k;
    var k' := AfterInput(before, k, newest);
    AfterInputOk(before, k, newest);
    AfterInputFrame(before, k, newest);
    hide AfterInput;
    RetimedKeeps(s, peer, inn, out, k');
  }

  lemma AfterInputFrame(before: Kcb, k: Kcb, newest: Newest)
    ensures OnlyTimers(k, AfterInput(before, k, newest))
  {
    if newest.Newest? { CountSkippedSame(k.sndBuf, newest.sn, newest.ts); }
    hide GrowWindow, CountSkipped, TimeDiff;
  }

  /** Nothing changed but timers, counters and the congestion window. */
  predicate OnlyTimers(k: Kcb, k': Kcb) {
    && k'.cfg == k.cfg && (k'.sndUna, k'.sndNxt, k'.sndQueue) == (k.sndUna, k.sndNxt, k.sndQueue)
    && Inbox(k') == Inbox(k) && k'.ackList == k.ackList && SameNumbers(k'.sndBuf, k.sndBuf)
  }

  lemma RetimedKeeps(s: Side, peer: Side, inn: set<Packet>, out: set<Packet>, k': Kcb)
    requires Pair(s, peer, inn, out) && EndpointOk(k') && OnlyTimers(s.k, k')
    ensures Pair(s.(k := k'), peer, inn, out)
  {
    var s' := s.(k := k');
    RetimedRole(SenderOf(s), ReceiverOf(peer), s.k.cfg.sndWnd, Stream(s.k.cfg.Mss(), s.sent), k'.sndBuf);
    assert SenderOf(s') == SenderOf(s).(buf := k'.sndBuf);
    assert ReceiverOf(s') == ReceiverOf(s);
    hide EndpointOk, WindowOk, InboxOk, Wrap, Stream, Encodes, SenderRole, ReceiverRole, Conserved, AcksHeld, AllData,
      AllAcks, Accepts;
  }

  // ---- Flush ----

  function FillCount(k: Kcb, cwnd: u32): nat
    decreases |k.sndQueue|
  {
    if Fillable(k, cwnd) then 1 + FillCount(FillOne(k), cwnd) else 0
  }

  lemma FillOneOk(k: Kcb, cwnd: u32)
    requires EndpointOk(k) && cwnd <= k.cfg.sndWnd && Fillable(k, cwnd)
    ensures EndpointOk(FillOne(k)) && Sub(k.sndNxt, k.sndUna) < cwnd
    ensures Sub(FillOne(k).sndNxt, k.sndUna) == Sub(k.sndNxt, k.sndUna) + 1
  {
  }

  lemma {:induction false} FillCountIs(k: Kcb, cwnd: u32)
    requires EndpointOk(k) && cwnd <= k.cfg.sndWnd
    ensures FillCount(k, cwnd) <= k.cfg.sndWnd && FillWindow(k, cwnd).sndNxt == Add(k.sndNxt, FillCount(k, cwnd))
    ensures Sub(k.sndNxt, k.sndUna) + FillCount(k, cwnd) <= k.cfg.sndWnd
    decreases |k.sndQueue|
  {
    if Fillable(k, cwnd) {
      FillOneOk(k, cwnd);
      hide EndpointOk, TimeDiff;
      FillCountIs(FillOne(k), cwnd);
    }
  }

  /** Filling the window numbers the next fragments of the stream. */
  lemma {:induction false} FillKeeps(s: Side, cwnd: u32, r: Receiver, stream: seq<Frag>)
    requires EndpointOk(s.k) && cwnd <= s.k.cfg.sndWnd
    requires SenderOf(s).Valid(s.k.cfg.sndWnd) && SenderRole(SenderOf(s), stream) && Conserved(SenderOf(s), r)
    ensures
      var s' := s.(k := FillWindow(s.k, cwnd), nxt := s.nxt + FillCount(s.k, cwnd));
      && SenderOf(s').Valid(s.k.cfg.sndWnd) && SenderRole(SenderOf(s'), stream) && Conserved(SenderOf(s'), r)
    decreases |s.k.sndQueue|
  {
    hide EndpointOk, Sub, Add, Wrap, WindowOk, SenderRole, Conserved, NewOut, TimeDiff;
    if Fillable(s.k, cwnd) {
      var s1 := s.(k := FillOne(s.k), nxt := s.nxt + 1);
      FillOneOk(s.k, cwnd);
      FillOneKeeps(s, cwnd, r, stream);
      FillKeeps(s1, cwnd, r, stream);
    }
  }

  lemma FillOneKeeps(s: Side, cwnd: u32, r: Receiver, stream: seq<Frag>)
    requires EndpointOk(s.k) && cwnd <= s.k.cfg.sndWnd && Fillable(s.k, cwnd)
    requires SenderOf(s).Valid(s.k.cfg.sndWnd) && SenderRole(SenderOf(s), stream) && Conserved(SenderOf(s), r)
    ensures
      var s1 := s.(k := FillOne(s.k), nxt := s.nxt + 1);
      && SenderOf(s1).Valid(s.k.cfg.sndWnd) && SenderRole(SenderOf(s1), stream) && Conserved(SenderOf(s1), r)
  {
    var s1 := s.(k := FillOne(s.k), nxt := s.nxt + 1);
    FillOneOk(s.k, cwnd);
    SubWrap(s.nxt, s.una);
    assert s.nxt - s.una < s.k.cfg.sndWnd;
    assert SenderOf(s1) == Numbered(SenderOf(s), NewOut(s.k));
    hide EndpointOk, Sub, Add, Wrap, WindowOk, SenderRole, Conserved, TimeDiff;
    NumberedRole(SenderOf(s), r, s.k.cfg.sndWnd, stream, NewOut(s.k));
  }

  lemma AddSub(x: u32, d: u32)
    ensures Sub(Add(x, d), x) == d
  {
  }

  /** The send half of a flush: more of the stream is numbered, nothing is lost. */
  lemma FlushSender(s: Side, r: Receiver, stream: seq<Frag>)
    requires EndpointOk(s.k)
    requires SenderOf(s).Valid(s.k.cfg.sndWnd) && SenderRole(SenderOf(s), stream) && Conserved(SenderOf(s), r)
    ensures
      var s' := FlushSide(s);
      && SenderOf(s').Valid(s.k.cfg.sndWnd) && SenderRole(SenderOf(s'), stream) && Conserved(SenderOf(s'), r)
      && s.nxt <= s'.nxt
      && (s.k.updated ==>
        SenderOf(s').Num(0) == SenderOf(s).Num(0) && s'.nxt == s.nxt + Sub(Filled(s.k).sndNxt, s.k.sndNxt))
  {
    hide EndpointOk, Flushed, Sub, Filled, SenderRole, Conserved, Wrap, WindowOk, SameNumbers, FlushSide, SenderOf;
    if s.k.updated {
      FilledSide(s, r, stream);
      FlushFrame(s.k);
      FlushSideIs(s);
      var f := Filled(s.k);
      var sf := s.(k := f, nxt := s.nxt + Sub(f.sndNxt, s.k.sndNxt));
      RetimedRole(SenderOf(sf), r, s.k.cfg.sndWnd, stream, Flushed(s.k).sndBuf);
    } else {
      FlushSideStill(s);
    }
  }

  lemma FlushSideStill(s: Side)
    requires !s.k.updated
    ensures FlushSide(s) == s
  {
    assert Sub(s.k.sndNxt, s.k.sndNxt) == 0 && Sub(s.k.sndUna, s.k.sndUna) == 0 && Sub(s.k.rcvNxt, s.k.rcvNxt) == 0;
  }

  /** The sending half of a side after a flush: the filled window with new timers. */
  lemma FlushSideIs(s: Side)
    requires EndpointOk(s.k) && s.k.updated
    ensures
      var f := Filled(s.k);
      var sf := s.(k := f, nxt := s.nxt + Sub(f.sndNxt, s.k.sndNxt));
      && SenderOf(sf).buf == f.sndBuf
      && SenderOf(FlushSide(s)) == SenderOf(sf).(buf := Flushed(s.k).sndBuf)
      && FlushSide(s).nxt == sf.nxt
      && SenderOf(sf).una == SenderOf(s).una && SenderOf(sf).sndUna == SenderOf(s).sndUna
  {
    assert Sub(s.k.sndUna, s.k.sndUna) == 0;
    FlushFrame(s.k);
    hide EndpointOk, Flushed, Sub, Filled, SameNumbers;
  }

  /** Which fields a flush touches. */
  lemma FlushFrame(k: Kcb)
    requires EndpointOk(k)
    ensures
      var k' := Flushed(k);
      if !k.updated then k' == k
      else
        var f := Filled(k);
        && k'.cfg == k.cfg && k'.sndUna == k.sndUna && k'.sndNxt == f.sndNxt && k'.sndQueue == f.sndQueue
        && SameNumbers(k'.sndBuf, f.sndBuf)
        && Inbox(k') == Inbox(k) && k'.ackList == []
  {
    if k.updated {
      var f := Filled(k);
      FilledFrame(k);
      ResendSame(f, f.sndBuf);
      SentOutFrame(f);
      ShrinkCwndFrame(SentOut(f), k.cwnd, AnyFast(f, f.sndBuf), CountTimeouts(f, f.sndBuf) > 0);
      hide Filled, ResendAll, SameNumbers, EndpointOk, ShrinkCwnd, CountTimeouts, AnyDead, AnyFast, Wrap, SentOut;
    }
  }

  lemma SentOutFrame(k: Kcb)
    ensures
      var k' := SentOut(k);
      && k'.cfg == k.cfg && k'.sndUna == k.sndUna && k'.sndNxt == k.sndNxt && k'.sndQueue == k.sndQueue
      && k'.sndBuf == ResendAll(k, k.sndBuf) && Inbox(k') == Inbox(k) && k'.ackList == k.ackList
  {
    hide ResendAll, CountTimeouts, AnyDead;
  }

  lemma ResendSame(k: Kcb, buf: seq<OutSeg>)
    ensures SameNumbers(ResendAll(k, buf), buf)
  {
    forall i | 0 <= i < |buf| ensures ResendAll(k, buf)[i].sn == buf[i].sn && ResendAll(k, buf)[i].f == buf[i].f {
    }
  }

  lemma FilledFrame(k: Kcb)
    ensures Filled(k).cfg == k.cfg && Filled(k).sndUna == k.sndUna && Inbox(Filled(k)) == Inbox(k)
      && Filled(k).ackList == []
  {
    ProbeFrame(k);
    hide Probe;
    FillFrame(Probe(k).(ackList := [], askSend := false, askTell := false), SendWindow(k));
  }

  lemma {:induction false} FillFrame(k: Kcb, cwnd: u32)
    ensures
      var k' := FillWindow(k, cwnd);
      k'.cfg == k.cfg && k'.sndUna == k.sndUna && Inbox(k') == Inbox(k) && k'.ackList == k.ackList
    decreases |k.sndQueue|
  {
    if Fillable(k, cwnd) { FillFrame(FillOne(k), cwnd); }
  }

  lemma FilledSide(s: Side, r: Receiver, stream: seq<Frag>)
    requires EndpointOk(s.k)
    requires SenderOf(s).Valid(s.k.cfg.sndWnd) && SenderRole(SenderOf(s), stream) && Conserved(SenderOf(s), r)
    ensures
      var f := Filled(s.k);
      var sf := s.(k := f, nxt := s.nxt + Sub(f.sndNxt, s.k.sndNxt));
      && SenderOf(sf).Valid(s.k.cfg.sndWnd) && SenderRole(SenderOf(sf), stream) && Conserved(SenderOf(sf), r)
  {
    var k := s.k;
    ProbeFrame(k);
    var k1 := Probe(k).(ackList := [], askSend := false, askTell := false);
    var s1 := s.(k := k1);
    assert EndpointOk(k1) by { hide Probe, WindowOk, InboxOk, Packable; }
    hide Probe, EndpointOk, SenderRole, Conserved, Wrap, WindowOk, FillWindow, FillCount;
    assert SenderOf(s1) == SenderOf(s);
    var w := SendWindow(k);
    FillKeeps(s1, w, r, stream);
    FillCountIs(k1, w);
    AddSub(k.sndNxt, FillCount(k1, w));
    hide Sub, Add;
  }

  /** Where a data segment of a flush comes from. */
  lemma {:induction false} PushSegsFrom(k: Kcb, buf: seq<OutSeg>)
    requires SmallFrgs(buf)
    ensures forall w <- PushSegs(k, buf) :: exists e <- buf :: w == Push(k, e)
    decreases |buf|
  {
    if buf != [] {
      var n := |buf| - 1;
      PushSegsFrom(k, buf[..n]);
      hide Push, WhySend;
      forall w | w in PushSegs(k, buf) ensures exists e <- buf :: w == Push(k, e) {
        if w in PushSegs(k, buf[..n]) {
          var e :| e in buf[..n] && w == Push(k, e);
          assert e in buf;
        } else {
          assert buf[n] in buf && w == Push(k, buf[n]);
        }
      }
    }
  }

  /** Every segment of a flush is one of: an acknowledgement owed, a probe, or data from the
      window; and all carry rcv_nxt. */
  lemma FlushSegsFrom(k: Kcb, i: nat)
    requires EndpointOk(k) && SmallFrgs(Filled(k).sndBuf) && i < |FlushSegs(k)|
    ensures
      var w := FlushSegs(k)[i];
      && w.una == k.rcvNxt
      && (if i < |k.ackList| then w.cmd == CMD_ACK && w.sn == k.ackList[i].sn
          else if w.cmd == CMD_PUSH then exists e <- Filled(k).sndBuf :: w.sn == e.sn && Frag(w.frg, w.data) == e.f
          else w.cmd != CMD_ACK)
  {
    var f := Filled(k);
    FilledFrame(k);
    PushSegsFrom(f, f.sndBuf);
    hide Filled, EndpointOk, Probe, WhySend, PushSegs;
    var a, b := |k.ackList|, |ProbeSegs(k)|;
    var w := FlushSegs(k)[i];
    if i < a {
      assert w == AckSegs(k)[i];
    } else if i < a + b {
      assert w == ProbeSegs(k)[i - a];
    } else {
      assert w == PushSegs(f, f.sndBuf)[i - a - b];
      assert w in PushSegs(f, f.sndBuf);
      var e :| e in f.sndBuf && w == Push(f, e);
      assert w.sn == e.sn && Frag(w.frg, w.data) == e.f;
    }
  }

  /** What a flush sends is true: data copied from the stream, acknowledgements of what is held. */
  lemma FlushTagsTrue(s: Side, r: Receiver, stream: seq<Frag>)
    requires EndpointOk(s.k) && s.k.updated
    requires SenderOf(s).Valid(s.k.cfg.sndWnd) && SenderRole(SenderOf(s), stream) && Conserved(SenderOf(s), r)
    requires ReceiverOf(s).Valid(s.k.cfg.rcvWnd) && AcksHeld(ReceiverOf(s))
    ensures FlushSide(s).nxt <= |stream|
    ensures forall t <- TaggedFlush(s) :: DataTrue(t, stream, FlushSide(s).nxt) && AckTrue(t, ReceiverOf(s))
  {
    FlushSegsFit(s.k);
    FlushSender(s, r, stream);
    forall t | t in TaggedFlush(s) ensures DataTrue(t, stream, FlushSide(s).nxt) && AckTrue(t, ReceiverOf(s)) {
      var i :| 0 <= i < |TaggedFlush(s)| && TaggedFlush(s)[i] == t;
      hide FlushSide, SenderRole, Conserved, AcksHeld;
      FlushTagTrue(s, r, stream, i);
    }
  }

  lemma FlushTagTrue(s: Side, r: Receiver, stream: seq<Frag>, i: nat)
    requires EndpointOk(s.k) && s.k.updated && i < |TaggedFlush(s)|
    requires SenderOf(s).Valid(s.k.cfg.sndWnd) && SenderRole(SenderOf(s), stream) && Conserved(SenderOf(s), r)
    requires ReceiverOf(s).Valid(s.k.cfg.rcvWnd) && AcksHeld(ReceiverOf(s))
    ensures FlushSide(s).nxt <= |stream|
    ensures DataTrue(TaggedFlush(s)[i], stream, FlushSide(s).nxt) && AckTrue(TaggedFlush(s)[i], ReceiverOf(s))
  {
    hide Filled, FlushSegs, EndpointOk, Conserved, FlushSide, WindowOk, InboxOk, SmallFrgs;
    FlushSegsFit(s.k);
    FilledSide(s, r, stream);
    FlushSender(s, r, stream);
    FlushSegsFrom(s.k, i);
    FilledFrame(s.k);
    var f := Filled(s.k);
    var t := TaggedFlush(s)[i];
    if t.w.cmd == CMD_PUSH {
      var sf := s.(k := f, nxt := s.nxt + Sub(f.sndNxt, s.k.sndNxt));
      var e :| e in f.sndBuf && t.w.sn == e.sn && Frag(t.w.frg, t.w.data) == e.f;
      SenderNum(SenderOf(sf), s.k.cfg.sndWnd, e);
      assert t.sn == SenderOf(sf).Num(e.sn);
    }
  }

  /** Every segment of a flush fits the mtu. */
  lemma TagsFit(s: Side)
    requires EndpointOk(s.k)
    ensures forall t <- TaggedFlush(s) :: TaggedSize(t) <= s.k.cfg.mtu
  {
    FlushSegsFit(s.k);
    hide EndpointOk, FlushSegs, SnTag;
    forall t | t in TaggedFlush(s) ensures TaggedSize(t) <= s.k.cfg.mtu {
      var i :| 0 <= i < |TaggedFlush(s)| && TaggedFlush(s)[i] == t;
      assert t.w == FlushSegs(s.k)[i] && t.w in FlushSegs(s.k);
    }
  }

  /** A datagram carries some of the segments it was packed from. */
  lemma PacketsFrom(conv: u32, mtu: nat, ts: seq<Tagged>, p: Packet)
    requires p in Packets(conv, mtu, ts) && forall t <- ts :: TaggedSize(t) <= mtu
    ensures Encodes(conv, p) && forall t <- p.segs :: t in ts
  {
    PackSound(TaggedSize, mtu, ts);
    hide Pack, Emitted, EncodeAll, TaggedSize;
  }

  lemma FlushPacketsTrue(s: Side, r: Receiver, stream: seq<Frag>, p: Packet)
    requires EndpointOk(s.k) && p in FlushPackets(s)
    requires SenderOf(s).Valid(s.k.cfg.sndWnd) && SenderRole(SenderOf(s), stream) && Conserved(SenderOf(s), r)
    requires ReceiverOf(s).Valid(s.k.cfg.rcvWnd) && AcksHeld(ReceiverOf(s))
    ensures Encodes(s.k.cfg.conv, p)
    ensures FlushSide(s).nxt <= |stream|
    ensures forall t <- p.segs :: DataTrue(t, stream, FlushSide(s).nxt) && AckTrue(t, ReceiverOf(s))
  {
    hide EndpointOk, DataTrue, AckTrue, TaggedFlush, TaggedSize, Encodes, FlushSide, SenderRole, Conserved, AcksHeld,
      Packets, WindowOk, InboxOk;
    FlushTagsTrue(s, r, stream);
    TagsFit(s);
    PacketsFrom(s.k.cfg.conv, s.k.cfg.mtu, TaggedFlush(s), p);
  }

  // ---- What is on the wire ----

  lemma UntagSnoc(ts: seq<Tagged>, t: Tagged)
    ensures Untag(ts + [t]) == Untag(ts) + [t.w]
  {
  }

  lemma {:induction false} SameSize(ts: seq<Tagged>)
    ensures TotalSize(TaggedSize, ts) == TotalSize(SegSize, Untag(ts))
    decreases |ts|
  {
    if ts != [] {
      SameSize(ts[..|ts| - 1]);
      assert Untag(ts)[..|ts| - 1] == Untag(ts[..|ts| - 1]);
    }
  }

  function UntagGroups(groups: seq<seq<Tagged>>): (r: seq<seq<WireSeg>>)
    ensures |r| == |groups|
  {
    seq(|groups|, i requires 0 <= i < |groups| => Untag(groups[i]))
  }

  function UntagPacking(p: Packing<Tagged>): Packing<WireSeg> {
    Packing(UntagGroups(p.full), Untag(p.open))
  }

  lemma PutUntag(mtu: nat, p: Packing<Tagged>, t: Tagged)
    ensures PutItem(SegSize, mtu, UntagPacking(p), t.w) == UntagPacking(PutItem(TaggedSize, mtu, p, t))
  {
    SameSize(p.open);
    UntagSnoc(p.open, t);
    assert UntagGroups(p.full + [p.open]) == UntagGroups(p.full) + [Untag(p.open)];
    assert Untag([t]) == [t.w];
    hide Untag, UntagGroups, TotalSize;
  }

  /** Packing with and without the tags makes the same groups. */
  lemma {:induction false} PackUntag(mtu: nat, ts: seq<Tagged>)
    ensures Pack(SegSize, mtu, Untag(ts)) == UntagPacking(Pack(TaggedSize, mtu, ts))
    decreases |ts|
  {
    hide PutItem, TaggedSize, SegSize;
    if ts == [] {
      assert Untag(ts) == [] && UntagGroups([]) == [];
    } else {
      var init, t := ts[..|ts| - 1], ts[|ts| - 1];
      PackUntag(mtu, init);
      assert Untag(ts)[..|ts| - 1] == Untag(init);
      PutUntag(mtu, Pack(TaggedSize, mtu, init), t);
    }
  }

  lemma PacketsAre(conv: u32, mtu: nat, ts: seq<Tagged>)
    requires AllSendable(Untag(ts)) && forall w <- Untag(ts) :: SegSize(w) <= mtu
    ensures (set p | p in Packets(conv, mtu, ts) :: p.bytes) == (set d | d in Datagrams(conv, mtu, Untag(ts)))
  {
    EmittedUntag(mtu, ts);
    hide Pack, Emitted, TaggedSize, SegSize, Sendable, EncodeAll, Untag, AllSendable;
    PackSound(SegSize, mtu, Untag(ts));
    AllGroupsSendable(mtu, Untag(ts));
    SameDatagrams(conv, Emitted(Pack(TaggedSize, mtu, ts)), Emitted(Pack(SegSize, mtu, Untag(ts))));
  }

  lemma EmittedUntag(mtu: nat, ts: seq<Tagged>)
    ensures Emitted(Pack(SegSize, mtu, Untag(ts))) == UntagGroups(Emitted(Pack(TaggedSize, mtu, ts)))
  {
    PackUntag(mtu, ts);
    hide Pack;
    var p := Pack(TaggedSize, mtu, ts);
    assert UntagGroups(p.full + [p.open]) == UntagGroups(p.full) + [Untag(p.open)];
  }

  lemma AllGroupsSendable(mtu: nat, segs: seq<WireSeg>)
    requires AllSendable(segs) && forall w <- segs :: SegSize(w) <= mtu
    ensures forall g <- Emitted(Pack(SegSize, mtu, segs)) :: AllSendable(g)
  {
    PackSound(SegSize, mtu, segs);
    hide Pack, Emitted, Sendable, SegSize;
  }

  /** The datagrams the system puts in flight are, byte for byte, those the flush sends. */
  lemma FlushPacketsAre(s: Side)
    requires EndpointOk(s.k)
    ensures (set p | p in FlushPackets(s) :: p.bytes) == (set d | d in FlushOutput(s.k))
  {
    hide EndpointOk, FlushSegs, Packets, Datagrams, SegSize;
    if s.k.updated {
      FlushSegsFit(s.k);
      UntaggedFlush(s);
      PacketsAre(s.k.cfg.conv, s.k.cfg.mtu, TaggedFlush(s));
    }
  }

  lemma UntaggedFlush(s: Side)
    requires EndpointOk(s.k)
    ensures SmallFrgs(Filled(s.k).sndBuf) && Untag(TaggedFlush(s)) == FlushSegs(s.k)
  {
    FlushSegsFit(s.k);
    hide EndpointOk, FlushSegs;
  }

  lemma SameDatagrams(conv: u32, tagged: seq<seq<Tagged>>, groups: seq<seq<WireSeg>>)
    requires groups == UntagGroups(tagged) && forall g <- groups :: AllSendable(g)
    ensures
      (set p | p in (set g | g in tagged && AllSendable(Untag(g)) :: Packet(EncodeAll(conv, Untag(g)), g)) ::
        p.bytes) ==
      (set d | d in EncodeGroups(conv, groups))
  {
    hide EncodeAll, AllSendable;
    var left := set g | g in tagged && AllSendable(Untag(g)) :: Packet(EncodeAll(conv, Untag(g)), g);
    forall d | d in EncodeGroups(conv, groups) ensures d in set p | p in left :: p.bytes {
      var i :| 0 <= i < |groups| && EncodeGroups(conv, groups)[i] == d;
      assert groups[i] in groups && tagged[i] in tagged && Untag(tagged[i]) == groups[i];
      assert Packet(EncodeAll(conv, groups[i]), tagged[i]) in left;
    }
    forall p | p in left ensures p.bytes in EncodeGroups(conv, groups) {
      var i :| 0 <= i < |tagged| && tagged[i] == p.segs;
      assert EncodeGroups(conv, groups)[i] == p.bytes;
    }
  }

  /** The receiver without acknowledgements to send. */
  lemma FlushReceiver(s: Side)
    requires EndpointOk(s.k)
    ensures ReceiverOf(FlushSide(s)) == if s.k.updated then ReceiverOf(s).(acks := [], ackNums := []) else ReceiverOf(s)
    ensures FlushSide(s).k == Flushed(s.k) && FlushSide(s).k.cfg == s.k.cfg
    ensures FlushSide(s).sent == s.sent && FlushSide(s).got == s.got
  {
    FlushFrame(s.k);
    assert Sub(s.k.rcvNxt, s.k.rcvNxt) == 0;
    hide EndpointOk, Flushed, Sub, Filled, SameNumbers;
  }

  lemma FlushKeeps(s: Side, peer: Side, inn: set<Packet>, out: set<Packet>)
    requires Pair(s, peer, inn, out)
    ensures Pair(FlushSide(s), peer, inn, out + FlushPackets(s))
  {
    var stream := Stream(s.k.cfg.Mss(), s.sent);
    var s', new_ := FlushSide(s), FlushPackets(s);
    FlushedOk(s.k);
    FlushReceiver(s);
    FlushSender(s, ReceiverOf(peer), stream);
    hide FlushSide, Flushed, Stream, EndpointOk, DataTrue, AckTrue, Encodes;
    forall p | p in new_
      ensures Encodes(s.k.cfg.conv, p)
      ensures forall t <- p.segs :: DataTrue(t, stream, s'.nxt) && AckTrue(t, ReceiverOf(s))
    {
      hide FlushPackets, Direction;
      FlushPacketsTrue(s, ReceiverOf(peer), stream, p);
    }
    FlushPair(s, s', peer, inn, out, new_);
  }

  /** Both directions after a flush put these datagrams into the network. */
  lemma FlushPair(s: Side, s': Side, peer: Side, inn: set<Packet>, out: set<Packet>, more: set<Packet>)
    requires Pair(s, peer, inn, out) && EndpointOk(s'.k)
    requires s'.k.cfg == s.k.cfg && s'.sent == s.sent && s'.got == s.got && s.nxt <= s'.nxt
    requires ReceiverOf(s') == ReceiverOf(s) || ReceiverOf(s') == ReceiverOf(s).(acks := [], ackNums := [])
    requires SenderOf(s').Valid(s.k.cfg.sndWnd)
    requires SenderRole(SenderOf(s'), Stream(s.k.cfg.Mss(), s.sent)) && Conserved(SenderOf(s'), ReceiverOf(peer))
    requires forall p <- more :: Encodes(s.k.cfg.conv, p)
    requires forall p <- more, t <- p.segs ::
      DataTrue(t, Stream(s.k.cfg.Mss(), s.sent), s'.nxt) && AckTrue(t, ReceiverOf(s))
    ensures Pair(s', peer, inn, out + more)
  {
    hide EndpointOk, Encodes, DataTrue, AckTrue, Stream, WindowOk, InboxOk, Wrap, Accepts, SenderRole, Conserved,
      Direction;
    FlushOutbound(SenderOf(s), SenderOf(s'), ReceiverOf(peer), s.k.cfg.Mss(), s.sent, peer.got, out, more, inn);
    FlushInbound(SenderOf(peer), ReceiverOf(s), ReceiverOf(s'), peer.k.cfg.Mss(), peer.sent, s.got, inn, out, more);
  }

  lemma FlushOutbound(s: Sender, s': Sender, r: Receiver, mss: nat, sent: seq<Message>, got: seq<Message>,
                      data: set<Packet>, more: set<Packet>, acks: set<Packet>)
    requires 0 < mss && Direction(s, r, mss, sent, got, data, acks)
    requires SenderRole(s', Stream(mss, sent)) && Conserved(s', r) && s.nxt <= s'.nxt
    requires forall p <- more, t <- p.segs :: DataTrue(t, Stream(mss, sent), s'.nxt)
    ensures Direction(s', r, mss, sent, got, data + more, acks)
  {
    hide Conserved, AcksHeld, AllAcks, Receiving, Stream;
    assert ReceiverRole(r, mss, sent, got, s'.nxt);
    forall p, t | p in data + more && t in p.segs ensures DataTrue(t, Stream(mss, sent), s'.nxt) {
      if p in data { assert DataTrue(t, Stream(mss, sent), s.nxt); }
    }
  }

  lemma FlushInbound(s: Sender, r: Receiver, r': Receiver, mss: nat, sent: seq<Message>, got: seq<Message>,
                     data: set<Packet>, acks: set<Packet>, more: set<Packet>)
    requires 0 < mss && Direction(s, r, mss, sent, got, data, acks)
    requires r' == r || r' == r.(acks := [], ackNums := [])
    requires forall p <- more, t <- p.segs :: AckTrue(t, r)
    ensures Direction(s, r', mss, sent, got, data, acks + more)
  {
    hide SenderRole, AllData, Receiving, Stream, Wrap, Sub;
    assert forall n: nat :: r'.Held(n) <==> r.Held(n);
    assert Conserved(s, r') && ReceiverRole(r', mss, sent, got, s.nxt) && AcksHeld(r');
    forall p, t | p in acks + more && t in p.segs ensures AckTrue(t, r') {
      assert AckTrue(t, r);
    }
  }
}
