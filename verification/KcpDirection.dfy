/** One direction of a KCP connection: a sender, a receiver, and what is in flight between
    them, with every 32-bit word tied to the unbounded number it stands for. */
module KcpDirection {
  import opened Word32
  import opened KcpWire
  import opened KcpEndpoint
  import opened KcpInvariant
  import opened KcpMessages

  /** The send half of an endpoint; una and nxt are the unbounded snd_una and snd_nxt. */
  datatype Sender = Sender(una: nat, nxt: nat, sndUna: u32, sndNxt: u32, buf: seq<OutSeg>, queue: seq<Frag>)
  {
    /** The unbounded number of a waiting segment. */
    function Num(sn: u32): nat {
      una + Sub(sn, sndUna)
    }

    predicate Waiting(n: nat) {
      exists s <- buf :: Num(s.sn) == n
    }

    predicate Valid(wnd: nat) {
      && wnd < 0x1_0000
      && WindowOk(buf, sndUna, sndNxt, wnd)
      && sndUna == Wrap(una) && sndNxt == Wrap(nxt) && una <= nxt <= una + wnd
    }
  }

  /** The receive half of an endpoint; nxt is the unbounded rcv_nxt, ackNums are the numbers
      of the acknowledgements to be sent. */
  datatype Receiver = Receiver(nxt: nat, box: Incoming, acks: seq<Ack>, ackNums: seq<nat>)
  {
    function Num(sn: u32): nat {
      nxt + Sub(sn, box.rcvNxt)
    }

    predicate InReorderBuf(n: nat) {
      exists s <- box.buf :: Num(s.sn) == n
    }

    /** Fragment n was delivered, or waits in rcv_queue or in rcv_buf. */
    predicate Held(n: nat) {
      n < nxt || InReorderBuf(n)
    }

    predicate Valid(wnd: nat) {
      && wnd < 0x1_0000
      && InboxOk(box, wnd)
      && box.rcvNxt == Wrap(nxt)
    }
  }

  /** A segment in flight with the unbounded numbers its sn and una were when it was sent. */
  datatype Tagged = Tagged(w: WireSeg, sn: nat, una: nat)

  // ---- The invariant of a direction ----

  /** The sender's buffers are a window on the stream of fragments. */
  predicate SenderRole(s: Sender, stream: seq<Frag>) {
    && s.nxt <= |stream|
    && s.queue == stream[s.nxt..]
    && forall e <- s.buf :: s.Num(e.sn) < s.nxt && e.f == stream[s.Num(e.sn)]
  }

  /** The receiver's buffers are parts of the same stream, none beyond what was sent. */
  predicate ReceiverRole(r: Receiver, mss: nat, sent: seq<Message>, got: seq<Message>, sndNxt: nat)
    requires 0 < mss
  {
    && Receiving(mss, sent, got, r.box.queue, r.nxt)
    && r.nxt <= sndNxt <= |Stream(mss, sent)|
    && forall e <- r.box.buf :: r.Num(e.sn) < sndNxt && e.f == Stream(mss, sent)[r.Num(e.sn)]
  }

  /** Nothing is lost: what was numbered waits at the sender or is held by the receiver. */
  predicate Conserved(s: Sender, r: Receiver) {
    forall n: nat | n < s.nxt :: s.Waiting(n) || r.Held(n)
  }

  predicate AcksHeld(r: Receiver) {
    && |r.acks| == |r.ackNums|
    && forall i | 0 <= i < |r.acks| :: r.acks[i].sn == Wrap(r.ackNums[i]) && r.Held(r.ackNums[i])
  }

  /** A data segment in flight is a faithful copy of a numbered fragment. */
  predicate DataTrue(t: Tagged, stream: seq<Frag>, sndNxt: nat)
    requires sndNxt <= |stream|
  {
    t.w.cmd == CMD_PUSH ==>
      t.sn < sndNxt && t.w.sn == Wrap(t.sn) && Frag(t.w.frg, t.w.data) == stream[t.sn]
  }

  /** Every una and every acknowledgement in flight is backed by what the receiver holds. */
  predicate AckTrue(t: Tagged, r: Receiver) {
    && t.w.una == Wrap(t.una) && t.una <= r.nxt
    && (t.w.cmd == CMD_ACK ==> t.w.sn == Wrap(t.sn) && r.Held(t.sn))
  }

  /** A datagram in flight: its bytes, and its segments with their unbounded numbers. */
  datatype Packet = Packet(bytes: seq<byte>, segs: seq<Tagged>)

  predicate AllData(net: set<Packet>, stream: seq<Frag>, sndNxt: nat)
    requires sndNxt <= |stream|
  {
    forall p <- net, t <- p.segs :: DataTrue(t, stream, sndNxt)
  }

  predicate AllAcks(net: set<Packet>, r: Receiver) {
    forall p <- net, t <- p.segs :: AckTrue(t, r)
  }

  /** `data` are the datagrams in flight to the receiver, `acks` those to the sender. */
  predicate Direction(s: Sender, r: Receiver, mss: nat, sent: seq<Message>, got: seq<Message>,
                      data: set<Packet>, acks: set<Packet>)
    requires 0 < mss
  {
    && SenderRole(s, Stream(mss, sent))
    && ReceiverRole(r, mss, sent, got, s.nxt)
    && Conserved(s, r)
    && AcksHeld(r)
    && AllData(data, Stream(mss, sent), s.nxt)
    && AllAcks(acks, r)
  }

  // ---- Words and numbers ----

  lemma SenderNum(s: Sender, wnd: nat, e: OutSeg)
    requires s.Valid(wnd) && e in s.buf
    ensures e.sn == Wrap(s.Num(e.sn)) && s.una <= s.Num(e.sn) < s.nxt
  {
    SubWrap(s.nxt, s.una);
    var d := Sub(e.sn, s.sndUna);
    assert e.sn == Add(s.sndUna, d);
    AddWrap(s.una, d);
  }

  lemma ReceiverNum(r: Receiver, wnd: nat, e: InSeg)
    requires r.Valid(wnd) && e in r.box.buf
    ensures e.sn == Wrap(r.Num(e.sn)) && r.nxt <= r.Num(e.sn) < r.nxt + wnd
  {
    var d := Sub(e.sn, r.box.rcvNxt);
    assert e.sn == Add(r.box.rcvNxt, d);
    AddWrap(r.nxt, d);
  }

  /** snd_una may run ahead of the peer's rcv_nxt, but only over segments in its reorder buffer. */
  lemma UnaBound(s: Sender, r: Receiver, sndWnd: nat, rcvWnd: nat)
    requires s.Valid(sndWnd) && r.Valid(rcvWnd) && Conserved(s, r)
    ensures s.una <= r.nxt + rcvWnd
  {
    if s.una > r.nxt + rcvWnd {
      var n := s.una - 1;
      assert s.Waiting(n) || r.Held(n);
      forall e | e in s.buf ensures s.Num(e.sn) != n { SenderNum(s, sndWnd, e); }
      forall e | e in r.box.buf ensures r.Num(e.sn) != n { ReceiverNum(r, rcvWnd, e); }
    }
  }

  // ---- The sender takes acknowledgements ----

  /** The sender after only the segments `buf` are left waiting. */
  function Left(s: Sender, buf: seq<OutSeg>): Sender {
    var u := if buf == [] then s.sndNxt else buf[0].sn;
    s.(una := s.una + Sub(u, s.sndUna), sndUna := u, buf := buf)
  }

  /** Dropping segments renumbers none of the others. */
  lemma LeftNums(s: Sender, wnd: nat, buf: seq<OutSeg>)
    requires s.Valid(wnd) && InWindow(buf, s.sndUna, s.sndNxt, wnd)
    ensures Left(s, buf).Valid(wnd) && Left(s, buf).una >= s.una
    ensures forall e <- buf :: Left(s, buf).Num(e.sn) == s.Num(e.sn)
  {
    var s' := Left(s, buf);
    SubWrap(s.nxt, s.una);
    Rebase(buf, s.sndUna, s.sndNxt, wnd);
    var d := Sub(s'.sndUna, s.sndUna);
    assert s'.sndUna == Add(s.sndUna, d);
    AddWrap(s.una, d);
    hide Wrap;
    forall e | e in buf ensures s'.Num(e.sn) == s.Num(e.sn) {
      var i :| 0 <= i < |buf| && buf[i] == e;
      assert i > 0 ==> Sub(buf[0].sn, s.sndUna) < Sub(buf[i].sn, s.sndUna);
      SubShift(e.sn, s.sndUna, d);
    }
  }

  /** Dropping segments the receiver holds keeps the direction in order. */
  lemma LeftOk(s: Sender, r: Receiver, wnd: nat, stream: seq<Frag>, buf: seq<OutSeg>)
    requires s.Valid(wnd) && SenderRole(s, stream) && Conserved(s, r)
    requires InWindow(buf, s.sndUna, s.sndNxt, wnd)
    requires forall e <- buf :: e in s.buf
    requires forall e <- s.buf :: e in buf || r.Held(s.Num(e.sn))
    ensures Left(s, buf).Valid(wnd) && SenderRole(Left(s, buf), stream) && Conserved(Left(s, buf), r)
    ensures Left(s, buf).una >= s.una
  {
    LeftNums(s, wnd, buf);
    var s' := Left(s, buf);
    hide Sub, Wrap, WindowOk, InWindow;
    assert s'.buf == buf && s'.nxt == s.nxt;
    forall n: nat | n < s'.nxt && !r.Held(n) ensures s'.Waiting(n) {
      assert s.Waiting(n);
      var e :| e in s.buf && s.Num(e.sn) == n;
      assert s'.Num(e.sn) == n;
    }
  }

  lemma DropBeforeKeeps(buf: seq<OutSeg>, una: u32)
    ensures forall e <- DropBefore(buf, una) :: e in buf
    ensures forall e <- buf :: e in DropBefore(buf, una) || TimeDiff(una, e.sn) > 0
  {
    DropBeforeIs(buf, una);
    var n := AckedCount(buf, una);
    hide TimeDiff, AckedCount;
    forall e | e in buf ensures e in DropBefore(buf, una) || TimeDiff(una, e.sn) > 0 {
      var i :| 0 <= i < |buf| && buf[i] == e;
      if i >= n { assert DropBefore(buf, una)[i - n] == e; }
    }
  }

  /** A cumulative acknowledgement drops only what the receiver holds. */
  lemma UnaDrops(s: Sender, r: Receiver, wnd: nat, stream: seq<Frag>, una: nat)
    requires s.Valid(wnd) && SenderRole(s, stream) && Conserved(s, r)
    requires una <= r.nxt <= s.nxt && s.nxt - una <= HALF
    ensures
      var s' := Left(s, DropBefore(s.buf, Wrap(una)));
      s'.Valid(wnd) && SenderRole(s', stream) && Conserved(s', r) && s'.una >= s.una
  {
    DropBeforeKeeps(s.buf, Wrap(una));
    DropBeforeInWindow(s.buf, s.sndUna, s.sndNxt, wnd, Wrap(una));
    hide Conserved, SenderRole, Sub, InWindow, DropBefore, Wrap, TimeDiff;
    forall e | e in s.buf ensures e in DropBefore(s.buf, Wrap(una)) || r.Held(s.Num(e.sn)) {
      SenderNum(s, wnd, e);
      TimeDiffWrap(una, s.Num(e.sn));
    }
    LeftOk(s, r, wnd, stream, DropBefore(s.buf, Wrap(una)));
  }

  lemma DropOneKeeps(buf: seq<OutSeg>, sn: u32)
    ensures forall e <- DropOne(buf, sn) :: e in buf
    ensures forall e <- buf :: e in DropOne(buf, sn) || e.sn == sn
  {
    DropOneIs(buf, sn);
    var f := Found(buf, sn);
    forall e | e in buf ensures e in DropOne(buf, sn) || e.sn == sn {
      var i :| 0 <= i < |buf| && buf[i] == e;
      if i < f { assert DropOne(buf, sn)[i] == e; }
      if i > f { assert DropOne(buf, sn)[i - 1] == e; }
    }
  }

  /** A selective acknowledgement of a held segment drops that segment. */
  lemma AckDrops(s: Sender, r: Receiver, wnd: nat, stream: seq<Frag>, n: nat)
    requires s.Valid(wnd) && SenderRole(s, stream) && Conserved(s, r)
    requires r.Held(n) && n < s.nxt && s.nxt - n <= HALF
    ensures
      var s' := Left(s, DropOne(s.buf, Wrap(n)));
      s'.Valid(wnd) && SenderRole(s', stream) && Conserved(s', r) && s'.una >= s.una
  {
    DropOneKeeps(s.buf, Wrap(n));
    DropOneInWindow(s.buf, s.sndUna, s.sndNxt, wnd, Wrap(n));
    hide Conserved, SenderRole, Sub, InWindow, DropOne, Wrap;
    forall e | e in s.buf ensures e in DropOne(s.buf, Wrap(n)) || r.Held(s.Num(e.sn)) {
      SenderNum(s, wnd, e);
      if e.sn == Wrap(n) { WrapInjective(n, s.Num(e.sn)); }
    }
    LeftOk(s, r, wnd, stream, DropOne(s.buf, Wrap(n)));
  }

  // ---- The receiver takes data ----

  /** The receiver with other contents: the unbounded rcv_nxt moves as the word does. */
  function Moved(r: Receiver, box: Incoming): Receiver {
    r.(nxt := r.nxt + Sub(box.rcvNxt, r.box.rcvNxt), box := box)
  }

  /** The receiver after its next fragment moved to the queue. */
  function Next(r: Receiver): Receiver
    requires r.box.buf != []
  {
    var b := r.box;
    Receiver(r.nxt + 1, Incoming(Add(b.rcvNxt, 1), b.queue + [b.buf[0].f], b.buf[1..]), r.acks, r.ackNums)
  }

  /** Moving the next fragment renumbers nothing. */
  lemma NextNums(r: Receiver, wnd: nat)
    requires wnd < 0x1_0000 && r.box.rcvNxt == Wrap(r.nxt)
    requires InReorder(r.box.buf, r.box.rcvNxt, wnd)
    requires r.box.buf != [] && r.box.buf[0].sn == r.box.rcvNxt
    ensures Next(r).box.rcvNxt == Wrap(r.nxt + 1)
    ensures InReorder(Next(r).box.buf, Next(r).box.rcvNxt, wnd)
    ensures r.Num(r.box.buf[0].sn) == r.nxt
    ensures forall e <- Next(r).box.buf :: e in r.box.buf && Next(r).Num(e.sn) == r.Num(e.sn)
    ensures forall n: nat | r.Held(n) :: Next(r).Held(n)
  {
    var b, r1 := r.box, Next(r);
    AddWrap(r.nxt, 1);
    ShiftReorder(b.buf, b.rcvNxt, wnd);
    forall e | e in r1.box.buf ensures e in b.buf && r1.Num(e.sn) == r.Num(e.sn) {
      var i :| 0 <= i < |r1.box.buf| && r1.box.buf[i] == e;
      assert b.buf[i + 1] == e;
    }
    forall n: nat | r.Held(n) && n > r.nxt ensures r1.Held(n) {
      var e :| e in b.buf && r.Num(e.sn) == n;
      assert e in r1.box.buf;
    }
  }

  lemma NextRole(r: Receiver, wnd: nat, mss: nat, sent: seq<Message>, got: seq<Message>, sndNxt: nat)
    requires 0 < mss && wnd < 0x1_0000 && r.box.rcvNxt == Wrap(r.nxt)
    requires InReorder(r.box.buf, r.box.rcvNxt, wnd)
    requires r.box.buf != [] && r.box.buf[0].sn == r.box.rcvNxt
    requires ReceiverRole(r, mss, sent, got, sndNxt)
    ensures ReceiverRole(Next(r), mss, sent, got, sndNxt)
  {
    NextNums(r, wnd);
    assert r.box.buf[0] in r.box.buf;
    hide InReorder, Add, Sub;
    assert Next(r).box.queue == Stream(mss, sent)[|Stream(mss, got)|..r.nxt + 1];
  }

  /** What a call of MoveReady keeps: it moves the next fragments of the stream to the
      queue, and everything held stays held. */
  lemma {:induction false} MoveReadyRole(r: Receiver, wnd: nat, mss: nat, sent: seq<Message>, got: seq<Message>,
      sndNxt: nat)
    requires 0 < mss && wnd < 0x1_0000 && r.box.rcvNxt == Wrap(r.nxt)
    requires InReorder(r.box.buf, r.box.rcvNxt, wnd) && |r.box.queue| <= wnd
    requires ReceiverRole(r, mss, sent, got, sndNxt)
    ensures
      var r' := Moved(r, MoveReady(wnd, r.box));
      && r'.Valid(wnd) && ReceiverRole(r', mss, sent, got, sndNxt)
      && r.nxt <= r'.nxt <= r.nxt + wnd
      && forall n: nat | r.Held(n) :: r'.Held(n)
    decreases |r.box.buf|
  {
    hide ReceiverRole, InReorder, InboxOk, Sub, Wrap;
    var b := r.box;
    if b.buf != [] && b.buf[0].sn == b.rcvNxt && |b.queue| < wnd {
      NextNums(r, wnd);
      NextRole(r, wnd, mss, sent, got, sndNxt);
      MoveReadyRole(Next(r), wnd, mss, sent, got, sndNxt);
      MoveReadySteps(r, wnd);
    } else {
      MoveReadyOk(wnd, b);
      AddSubNone(b.rcvNxt);
      assert Moved(r, MoveReady(wnd, b)) == r;
    }
  }

  lemma AddSubNone(x: u32)
    ensures Sub(x, x) == 0
  {
  }

  /** Moving the first segment and then the rest is moving all. */
  lemma MoveReadySteps(r: Receiver, wnd: nat)
    requires wnd < 0x1_0000 && r.box.rcvNxt == Wrap(r.nxt)
    requires InReorder(r.box.buf, r.box.rcvNxt, wnd) && |r.box.queue| < wnd
    requires r.box.buf != [] && r.box.buf[0].sn == r.box.rcvNxt
    requires InReorder(Next(r).box.buf, Next(r).box.rcvNxt, wnd)
    ensures Moved(r, MoveReady(wnd, r.box)) == Moved(Next(r), MoveReady(wnd, Next(r).box))
    ensures Moved(r, MoveReady(wnd, r.box)).nxt <= r.nxt + wnd
  {
    MoveReadyOk(wnd, r.box);
    MoveReadyOk(wnd, Next(r).box);
    hide InReorder, InboxOk;
  }

  /** The receive half of ikcp_input for one data segment. */
  function Receive(r: Receiver, wnd: u32, t: Tagged): Receiver {
    if TimeDiff(t.w.sn, Add(r.box.rcvNxt, wnd)) >= 0 then r
    else
      var r1 := r.(acks := r.acks + [Ack(t.w.sn, t.w.ts)], ackNums := r.ackNums + [t.sn]);
      if TimeDiff(t.w.sn, r.box.rcvNxt) < 0 then r1
      else Moved(r1, MoveReady(wnd, r.box.(buf := Insert(r.box.buf, InSeg(t.w.sn, Frag(t.w.frg, t.w.data))))))
  }

  /** The receiver with one more segment in its reorder buffer. */
  function Inserted(r: Receiver, e: InSeg): Receiver {
    r.(box := r.box.(buf := Insert(r.box.buf, e)))
  }

  lemma InsertedRole(r: Receiver, e: InSeg, mss: nat, sent: seq<Message>, got: seq<Message>, sndNxt: nat)
    requires 0 < mss && ReceiverRole(r, mss, sent, got, sndNxt)
    requires r.Num(e.sn) < sndNxt && e.f == Stream(mss, sent)[r.Num(e.sn)]
    ensures ReceiverRole(Inserted(r, e), mss, sent, got, sndNxt)
  {
    InsertMembers(r.box.buf, e);
    hide Insert, Receiving, Stream, Sub;
  }

  lemma InsertedHeld(r: Receiver, wnd: nat, e: InSeg)
    requires r.Valid(wnd) && Sub(e.sn, r.box.rcvNxt) < wnd
    ensures InReorder(Inserted(r, e).box.buf, r.box.rcvNxt, wnd)
    ensures Inserted(r, e).Held(r.Num(e.sn))
    ensures forall n: nat | r.Held(n) :: Inserted(r, e).Held(n)
  {
    var r' := Inserted(r, e);
    InsertOk(r.box.buf, e, r.box.rcvNxt, wnd);
    InsertMembers(r.box.buf, e);
    hide Insert, InReorder, Sub;
    var i :| 0 <= i < |r'.box.buf| && r'.box.buf[i].sn == e.sn;
    assert r'.box.buf[i] in r'.box.buf;
    forall n: nat | r.Held(n) ensures r'.Held(n) {
      if n >= r.nxt {
        var x :| x in r.box.buf && r.Num(x.sn) == n;
        assert r'.Num(x.sn) == n;
      }
    }
  }

  lemma InsertMembers(buf: seq<InSeg>, e: InSeg)
    ensures forall x <- Insert(buf, e) :: x in buf || x == e
    ensures forall x <- buf :: x in Insert(buf, e)
  {
    var p := InsertAt(buf, e.sn);
    assert buf == buf[..p] + buf[p..];
    hide InsertAt;
  }

  /** A faithful data segment keeps the receiver's half in order: it is acknowledged only
      when its fragment is held. */
  lemma ReceiveRole(r: Receiver, wnd: u32, t: Tagged, mss: nat, sent: seq<Message>, got: seq<Message>, sndNxt: nat)
    requires 0 < mss && r.Valid(wnd) && ReceiverRole(r, mss, sent, got, sndNxt) && AcksHeld(r)
    requires t.w.cmd == CMD_PUSH && DataTrue(t, Stream(mss, sent), sndNxt)
    requires r.nxt + wnd - t.sn <= HALF && t.sn < r.nxt + wnd + 0x1_0000
    ensures
      var r' := Receive(r, wnd, t);
      && r'.Valid(wnd) && ReceiverRole(r', mss, sent, got, sndNxt) && AcksHeld(r')
      && r.nxt <= r'.nxt
      && forall n: nat | r.Held(n) :: r'.Held(n)
  {
    AddWrap(r.nxt, wnd);
    TimeDiffWrap(t.sn, r.nxt + wnd);
    TimeDiffWrap(t.sn, r.nxt);
    hide Wrap, TimeDiff, Moved, InboxOk, Receiving, MoveReady, Insert, Stream, Add, Sub;
    var acks, nums := r.acks + [Ack(t.w.sn, t.w.ts)], r.ackNums + [t.sn];
    if t.sn < r.nxt {
      assert Receive(r, wnd, t) == r.(acks := acks, ackNums := nums);
      hide ReceiverRole, Receive;
      SameBox(r, acks, nums, wnd, mss, sent, got, sndNxt);
    } else if t.sn < r.nxt + wnd {
      var e := InSeg(t.w.sn, Frag(t.w.frg, t.w.data));
      assert Receive(r, wnd, t) == Moved(r.(acks := acks, ackNums := nums), MoveReady(wnd, Inserted(r, e).box));
      MovedTail(r, Inserted(r, e), MoveReady(wnd, Inserted(r, e).box), acks, nums);
      hide ReceiverRole, Receive, Inserted;
      ReceiveNew(r, wnd, t, mss, sent, got, sndNxt);
    }
  }

  lemma MovedTail(r: Receiver, r1: Receiver, box: Incoming, acks: seq<Ack>, nums: seq<nat>)
    requires r1.nxt == r.nxt && r1.box.rcvNxt == r.box.rcvNxt
    ensures Moved(r.(acks := acks, ackNums := nums), box) == Moved(r1, box).(acks := acks, ackNums := nums)
  {
  }

  /** The acknowledgements to be sent play no part in what is held. */
  lemma SameBox(r: Receiver, acks: seq<Ack>, nums: seq<nat>, wnd: nat, mss: nat, sent: seq<Message>,
      got: seq<Message>, sndNxt: nat)
    requires 0 < mss && r.Valid(wnd) && ReceiverRole(r, mss, sent, got, sndNxt)
    ensures r.(acks := acks, ackNums := nums).Valid(wnd)
    ensures ReceiverRole(r.(acks := acks, ackNums := nums), mss, sent, got, sndNxt)
    ensures forall n: nat :: r.(acks := acks, ackNums := nums).Held(n) <==> r.Held(n)
  {
    hide Receiving, Stream, Sub, InboxOk;
  }

  lemma NumOfNew(r: Receiver, wnd: u32, t: Tagged)
    requires r.Valid(wnd) && t.w.sn == Wrap(t.sn) && r.nxt <= t.sn < r.nxt + wnd
    ensures r.Num(t.w.sn) == t.sn && Sub(t.w.sn, r.box.rcvNxt) < wnd
    ensures InReorder(r.box.buf, r.box.rcvNxt, wnd) && |r.box.queue| <= wnd
  {
    SubWrap(t.sn, r.nxt);
    hide InReorder;
  }

  /** A fragment inside the window is stored, or found to be stored already. */
  lemma ReceiveNew(r: Receiver, wnd: u32, t: Tagged, mss: nat, sent: seq<Message>, got: seq<Message>, sndNxt: nat)
    requires 0 < mss && r.Valid(wnd) && ReceiverRole(r, mss, sent, got, sndNxt) && AcksHeld(r)
    requires t.w.cmd == CMD_PUSH && DataTrue(t, Stream(mss, sent), sndNxt)
    requires r.nxt <= t.sn < r.nxt + wnd
    ensures
      var e := InSeg(t.w.sn, Frag(t.w.frg, t.w.data));
      var r' := Moved(Inserted(r, e), MoveReady(wnd, Inserted(r, e).box)).(acks := r.acks + [Ack(t.w.sn, t.w.ts)],
        ackNums := r.ackNums + [t.sn]);
      && r'.Valid(wnd) && ReceiverRole(r', mss, sent, got, sndNxt) && AcksHeld(r')
      && r.nxt <= r'.nxt
      && forall n: nat | r.Held(n) :: r'.Held(n)
  {
    hide Wrap, Sub, Insert, Receiving, InReorder, Stream, MoveReady, ReceiverRole, Moved, InboxOk, Add;
    NumOfNew(r, wnd, t);
    var e := InSeg(t.w.sn, Frag(t.w.frg, t.w.data));
    InsertedRole(r, e, mss, sent, got, sndNxt);
    InsertedHeld(r, wnd, e);
    MoveReadyRole(Inserted(r, e), wnd, mss, sent, got, sndNxt);
    var m := Moved(Inserted(r, e), MoveReady(wnd, Inserted(r, e).box));
    SameBox(m, r.acks + [Ack(t.w.sn, t.w.ts)], r.ackNums + [t.sn], wnd, mss, sent, got, sndNxt);
    OneMoreAck(r, m, Ack(t.w.sn, t.w.ts), t.sn);
  }

  /** An acknowledgement of what is held may join those to be sent. */
  lemma OneMoreAck(r: Receiver, m: Receiver, ack: Ack, n: nat)
    requires AcksHeld(r) && (forall k: nat | r.Held(k) :: m.Held(k)) && m.Held(n) && ack.sn == Wrap(n)
    ensures AcksHeld(m.(acks := r.acks + [ack], ackNums := r.ackNums + [n]))
  {
    hide Wrap, Sub;
    var m' := m.(acks := r.acks + [ack], ackNums := r.ackNums + [n]);
    assert forall k: nat :: m'.Held(k) <==> m.Held(k);
  }

  // ---- The other calls ----

  /** ikcp_recv of a whole message delivers the next one sent. */
  lemma TakeRole(r: Receiver, wnd: u32, mss: nat, sent: seq<Message>, got: seq<Message>, sndNxt: nat)
    requires 0 < mss && r.Valid(wnd) && ReceiverRole(r, mss, sent, got, sndNxt) && AcksHeld(r)
    requires PeekSize(r.box.queue) >= 0
    ensures
      var n := FirstRun(r.box.queue);
      var r' := Moved(r, MoveReady(wnd, r.box.(queue := r.box.queue[n..])));
      && r'.Valid(wnd) && ReceiverRole(r', mss, sent, got + [Joined(r.box.queue[..n])], sndNxt) && AcksHeld(r')
      && r.nxt <= r'.nxt
      && forall k: nat | r.Held(k) :: r'.Held(k)
  {
    var n := FirstRun(r.box.queue);
    TakeMessage(mss, sent, got, r.box.queue, r.nxt);
    var got' := got + [Joined(r.box.queue[..n])];
    var r1 := r.(box := r.box.(queue := r.box.queue[n..]));
    hide Receiving, FirstRun, Joined, MoveReady, PeekSize, Stream, Sub, Add;
    assert forall k: nat :: r1.Held(k) <==> r.Held(k);
    assert ReceiverRole(r1, mss, sent, got', sndNxt);
    hide ReceiverRole, Wrap, InboxOk;
    MoveReadyRole(r1, wnd, mss, sent, got', sndNxt);
    assert Moved(r1, MoveReady(wnd, r1.box)) == Moved(r, MoveReady(wnd, r1.box));
    hide Moved;
  }

  /** ikcp_send appends to the stream. */
  lemma SendRole(s: Sender, mss: nat, sent: seq<Message>, msg: Message)
    requires 0 < mss && SenderRole(s, Stream(mss, sent))
    ensures SenderRole(s.(queue := s.queue + Fragments(mss, msg)), Stream(mss, sent + [msg]))
    ensures Stream(mss, sent) <= Stream(mss, sent + [msg])
  {
    StreamSnoc(mss, sent, msg);
  }

  /** The sender after its next fragment was numbered. */
  function Numbered(s: Sender, e: OutSeg): Sender
    requires s.queue != []
  {
    s.(nxt := s.nxt + 1, sndNxt := Add(s.sndNxt, 1), buf := s.buf + [e], queue := s.queue[1..])
  }

  lemma NumberedRole(s: Sender, r: Receiver, wnd: nat, stream: seq<Frag>, e: OutSeg)
    requires s.Valid(wnd) && SenderRole(s, stream) && Conserved(s, r)
    requires s.queue != [] && e.sn == s.sndNxt && e.f == s.queue[0] && s.nxt - s.una < wnd
    ensures
      var s' := Numbered(s, e);
      s'.Valid(wnd) && SenderRole(s', stream) && Conserved(s', r)
  {
    var s' := Numbered(s, e);
    SubWrap(s.nxt, s.una);
    AddWrap(s.nxt, 1);
    SubWrap(s.nxt + 1, s.una);
    assert s.Num(e.sn) == s.nxt;
    assert e in s'.buf;
    assert s'.Valid(wnd);
    hide Sub, Wrap, Add, WindowOk;
    forall n: nat | n < s'.nxt && !r.Held(n) ensures s'.Waiting(n) {
      if n < s.nxt {
        assert s.Waiting(n);
        var x :| x in s.buf && s.Num(x.sn) == n;
        assert x in s'.buf && s'.Num(x.sn) == n;
      } else {
        assert s'.Num(e.sn) == n;
      }
    }
  }

  /** Timers and counters of the waiting segments play no part. */
  lemma RetimedRole(s: Sender, r: Receiver, wnd: nat, stream: seq<Frag>, buf: seq<OutSeg>)
    requires s.Valid(wnd) && SenderRole(s, stream) && Conserved(s, r) && SameNumbers(buf, s.buf)
    ensures
      var s' := s.(buf := buf);
      s'.Valid(wnd) && SenderRole(s', stream) && Conserved(s', r)
  {
    RetimedSender(s, wnd, stream, buf);
    hide Sub, Wrap, WindowOk, SenderRole;
    var s' := s.(buf := buf);
    forall n: nat | n < s.nxt && !r.Held(n) ensures s'.Waiting(n) {
      assert s.Waiting(n);
      var x :| x in s.buf && s.Num(x.sn) == n;
      var i :| 0 <= i < |s.buf| && s.buf[i] == x;
      assert buf[i] in buf && s'.Num(buf[i].sn) == n;
    }
  }

  lemma RetimedSender(s: Sender, wnd: nat, stream: seq<Frag>, buf: seq<OutSeg>)
    requires s.Valid(wnd) && SenderRole(s, stream) && SameNumbers(buf, s.buf)
    ensures s.(buf := buf).Valid(wnd) && SenderRole(s.(buf := buf), stream)
  {
    var s' := s.(buf := buf);
    hide Sub, Wrap;
    assert InWindow(buf, s.sndUna, s.sndNxt, wnd);
    hide InWindow;
    forall e | e in buf ensures s'.Num(e.sn) < s'.nxt && e.f == stream[s'.Num(e.sn)] {
      var i :| 0 <= i < |buf| && buf[i] == e;
      assert s.buf[i] in s.buf;
    }
  }
}
