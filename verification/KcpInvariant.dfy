/** The invariant of one KCP endpoint, and its preservation by every call, whatever bytes
    arrive and whatever the clock says. */
module KcpInvariant {
  import opened Word32
  import opened KcpWire
  import opened KcpEndpoint
  import opened KcpCongestion

  // ---- The send window ----

  /** The segments lie, strictly ascending, between una and nxt. */
  predicate InWindow(buf: seq<OutSeg>, una: u32, nxt: u32, wnd: nat) {
    && Sub(nxt, una) <= wnd
    && (forall i | 0 <= i < |buf| :: Sub(buf[i].sn, una) < Sub(nxt, una))
    && (forall i, j | 0 <= i < j < |buf| :: Sub(buf[i].sn, una) < Sub(buf[j].sn, una))
  }

  /** Moreover una is the head of the buffer, or nxt when nothing waits. */
  predicate WindowOk(buf: seq<OutSeg>, una: u32, nxt: u32, wnd: nat) {
    && InWindow(buf, una, nxt, wnd)
    && una == if buf == [] then nxt else buf[0].sn
  }

  /** How many segments ikcp_parse_una drops. */
  function AckedCount(buf: seq<OutSeg>, una: u32): (n: nat)
    ensures n <= |buf|
  {
    if buf != [] && TimeDiff(una, buf[0].sn) > 0 then 1 + AckedCount(buf[1..], una) else 0
  }

  lemma {:induction false} DropBeforeIs(buf: seq<OutSeg>, una: u32)
    ensures DropBefore(buf, una) == buf[AckedCount(buf, una)..]
    ensures forall i | 0 <= i < AckedCount(buf, una) :: TimeDiff(una, buf[i].sn) > 0
  {
    if buf != [] && TimeDiff(una, buf[0].sn) > 0 {
      DropBeforeIs(buf[1..], una);
      forall i | 0 < i < AckedCount(buf, una) ensures TimeDiff(una, buf[i].sn) > 0 {
        assert buf[i] == buf[1..][i - 1];
      }
    }
  }

  /** Where ikcp_parse_ack finds a number, or the length of the buffer. */
  function Found(buf: seq<OutSeg>, sn: u32): (n: nat)
    ensures n <= |buf|
    ensures n < |buf| ==> buf[n].sn == sn
  {
    if buf == [] then 0
    else if buf[0].sn == sn then 0
    else if TimeDiff(sn, buf[0].sn) < 0 then |buf|
    else 1 + Found(buf[1..], sn)
  }

  function Without<T>(s: seq<T>, n: nat): seq<T> {
    if n < |s| then s[..n] + s[n + 1..] else s
  }

  lemma {:induction false} DropOneIs(buf: seq<OutSeg>, sn: u32)
    ensures DropOne(buf, sn) == Without(buf, Found(buf, sn))
  {
    if buf != [] && buf[0].sn != sn && TimeDiff(sn, buf[0].sn) >= 0 {
      DropOneIs(buf[1..], sn);
    }
  }

  /** Dropping any segments and then moving una to the new head restores the window. */
  lemma Rebase(buf: seq<OutSeg>, una: u32, nxt: u32, wnd: nat)
    requires wnd < HALF
    requires InWindow(buf, una, nxt, wnd)
    ensures
      var una' := if buf == [] then nxt else buf[0].sn;
      && WindowOk(buf, una', nxt, wnd)
      && Sub(una', una) <= Sub(nxt, una)
      && Sub(nxt, una') == Sub(nxt, una) - Sub(una', una)
  {
    if buf != [] {
      var d := Sub(buf[0].sn, una);
      assert Add(una, d) == buf[0].sn;
      SubShift(nxt, una, d);
      forall i | 0 <= i < |buf| ensures Sub(buf[i].sn, buf[0].sn) == Sub(buf[i].sn, una) - d {
        assert i > 0 ==> Sub(buf[0].sn, una) < Sub(buf[i].sn, una);
        SubShift(buf[i].sn, una, d);
      }
    }
  }

  lemma DropBeforeInWindow(buf: seq<OutSeg>, una: u32, nxt: u32, wnd: nat, ack: u32)
    requires InWindow(buf, una, nxt, wnd)
    ensures InWindow(DropBefore(buf, ack), una, nxt, wnd)
  {
    DropBeforeIs(buf, ack);
  }

  lemma DropOneInWindow(buf: seq<OutSeg>, una: u32, nxt: u32, wnd: nat, sn: u32)
    requires InWindow(buf, una, nxt, wnd)
    ensures InWindow(DropOne(buf, sn), una, nxt, wnd)
  {
    DropOneIs(buf, sn);
  }

  /** Two buffers with the same numbers and payloads. */
  predicate SameNumbers(a: seq<OutSeg>, b: seq<OutSeg>) {
    |a| == |b| && forall i | 0 <= i < |a| :: a[i].sn == b[i].sn && a[i].f == b[i].f
  }

  lemma {:induction false} CountSkippedSame(buf: seq<OutSeg>, sn: u32, ts: u32)
    ensures SameNumbers(CountSkipped(buf, sn, ts), buf)
  {
    if buf != [] && TimeDiff(sn, buf[0].sn) >= 0 {
      CountSkippedSame(buf[1..], sn, ts);
    }
  }

  // ---- The receive side ----

  predicate InReorder(buf: seq<InSeg>, rcvNxt: u32, wnd: nat) {
    && (forall i | 0 <= i < |buf| :: Sub(buf[i].sn, rcvNxt) < wnd)
    && (forall i, j | 0 <= i < j < |buf| :: Sub(buf[i].sn, rcvNxt) < Sub(buf[j].sn, rcvNxt))
  }

  /** The reorder buffer ascends inside the window, the queue fits, and the next segment
      waits in the reorder buffer only when the queue is full. */
  predicate InboxOk(r: Incoming, wnd: nat) {
    && InReorder(r.buf, r.rcvNxt, wnd)
    && |r.queue| <= wnd
    && (r.buf != [] && r.buf[0].sn == r.rcvNxt ==> |r.queue| == wnd)
  }

  lemma ShiftReorder(buf: seq<InSeg>, rcvNxt: u32, wnd: nat)
    requires wnd < HALF
    requires buf != [] && buf[0].sn == rcvNxt && InReorder(buf, rcvNxt, wnd)
    ensures InReorder(buf[1..], Add(rcvNxt, 1), wnd)
    ensures forall i | 0 < i < |buf| :: Sub(buf[i].sn, Add(rcvNxt, 1)) == Sub(buf[i].sn, rcvNxt) - 1
  {
    forall i | 0 < i < |buf| ensures Sub(buf[i].sn, Add(rcvNxt, 1)) == Sub(buf[i].sn, rcvNxt) - 1 {
      assert Sub(buf[0].sn, rcvNxt) < Sub(buf[i].sn, rcvNxt);
      SubShift(buf[i].sn, rcvNxt, 1);
    }
  }

  /** How many segments ikcp_recv and ikcp_parse_data move to the queue. */
  function ReadyCount(rcvWnd: nat, r: Incoming): nat
    decreases |r.buf|
  {
    if r.buf != [] && r.buf[0].sn == r.rcvNxt && |r.queue| < rcvWnd then
      1 + ReadyCount(rcvWnd, Incoming(Add(r.rcvNxt, 1), r.queue + [r.buf[0].f], r.buf[1..]))
    else 0
  }

  lemma {:induction false} MoveReadyOk(wnd: nat, r: Incoming)
    requires wnd < HALF
    requires InReorder(r.buf, r.rcvNxt, wnd) && |r.queue| <= wnd
    ensures InboxOk(MoveReady(wnd, r), wnd)
    ensures ReadyCount(wnd, r) <= wnd - |r.queue|
    ensures MoveReady(wnd, r).rcvNxt == Add(r.rcvNxt, ReadyCount(wnd, r))
    decreases |r.buf|
  {
    if r.buf != [] && r.buf[0].sn == r.rcvNxt && |r.queue| < wnd {
      ShiftReorder(r.buf, r.rcvNxt, wnd);
      MoveReadyOk(wnd, Incoming(Add(r.rcvNxt, 1), r.queue + [r.buf[0].f], r.buf[1..]));
    }
  }

  /** The search of ikcp_parse_data finds the place in the order. */
  lemma {:induction false} InsertAtSplits(buf: seq<InSeg>, sn: u32, rcvNxt: u32, wnd: nat)
    requires wnd < HALF && InReorder(buf, rcvNxt, wnd) && Sub(sn, rcvNxt) < wnd
    ensures
      var p := InsertAt(buf, sn);
      && (forall i | p <= i < |buf| :: Sub(sn, rcvNxt) < Sub(buf[i].sn, rcvNxt))
      && (forall i | 0 <= i < p :: Sub(buf[i].sn, rcvNxt) <= Sub(sn, rcvNxt))
      && (forall i | 0 <= i < p - 1 :: buf[i].sn != sn)
    decreases |buf|
  {
    if buf != [] {
      var n := |buf| - 1;
      TimeDiffFromBase(sn, buf[n].sn, rcvNxt);
      if !(buf[n].sn == sn || TimeDiff(sn, buf[n].sn) > 0) {
        InsertAtSplits(buf[..n], sn, rcvNxt, wnd);
        assert forall i | InsertAt(buf, sn) <= i < n :: buf[i] == buf[..n][i];
        assert forall i | 0 <= i < InsertAt(buf, sn) :: buf[i] == buf[..n][i];
      }
    }
  }

  lemma InsertOk(buf: seq<InSeg>, s: InSeg, rcvNxt: u32, wnd: nat)
    requires wnd < HALF && InReorder(buf, rcvNxt, wnd) && Sub(s.sn, rcvNxt) < wnd
    ensures InReorder(Insert(buf, s), rcvNxt, wnd)
    ensures exists i :: 0 <= i < |Insert(buf, s)| && Insert(buf, s)[i].sn == s.sn
  {
    hide InsertAt, Sub;
    var p := InsertAt(buf, s.sn);
    InsertAtSplits(buf, s.sn, rcvNxt, wnd);
    if p > 0 && buf[p - 1].sn == s.sn {
      assert Insert(buf, s)[p - 1].sn == s.sn;
    } else {
      assert Insert(buf, s)[p].sn == s.sn;
      forall i | 0 <= i < p ensures Sub(buf[i].sn, rcvNxt) < Sub(s.sn, rcvNxt) {
        if Sub(buf[i].sn, rcvNxt) == Sub(s.sn, rcvNxt) { SubInjective(buf[i].sn, s.sn, rcvNxt); }
      }
    }
  }

  lemma SubInjective(a: u32, b: u32, base: u32)
    requires Sub(a, base) == Sub(b, base)
    ensures a == b
  {
  }

  /** In-window numbers are those ikcp_parse_data does not throw away. */
  lemma AcceptedOffset(sn: u32, rcvNxt: u32, wnd: u32)
    requires wnd < HALF
    ensures TimeDiff(sn, Add(rcvNxt, wnd)) < 0 && TimeDiff(sn, rcvNxt) >= 0 <==> Sub(sn, rcvNxt) < wnd
  {
  }

  // ---- The whole endpoint ----

  /** What holds of an endpoint between any two calls. */
  predicate EndpointOk(k: Kcb) {
    && WindowOk(k.sndBuf, k.sndUna, k.sndNxt, k.cfg.sndWnd)
    && InboxOk(Inbox(k), k.cfg.rcvWnd)
    && Packable(k.cfg, k.sndBuf, k.sndQueue)
    && CwndOk(k)
  }

  /** What a call never does: change the settings, or move snd_una or rcv_nxt back. */
  predicate Advances(k: Kcb, k': Kcb) {
    && k'.cfg == k.cfg
    && TimeDiff(k'.sndUna, k.sndUna) >= 0
    && TimeDiff(k'.rcvNxt, k.rcvNxt) >= 0
  }

  lemma CreatedOk(cfg: Config)
    ensures EndpointOk(Created(cfg))
  {
    CreatedCwnd(cfg);
  }

  /** The pieces of a message fit a segment, and count down to 0. */
  lemma {:induction false} FragmentsFromOk(mss: nat, msg: seq<byte>, count: nat)
    requires 0 < mss && Covers(mss, |msg|, count)
    ensures |FragmentsFrom(mss, msg, count)| == count
    ensures forall i | 0 <= i < count :: FragmentsFrom(mss, msg, count)[i].frg == count - 1 - i
    ensures forall i | 0 <= i < count :: |FragmentsFrom(mss, msg, count)[i].data| <= mss
    ensures Joined(FragmentsFrom(mss, msg, count)) == msg
    decreases count
  {
    CoversLess(mss, |msg|, count);
    hide Covers;
    if count > 0 {
      var size := if |msg| > mss then mss else |msg|;
      FragmentsFromOk(mss, msg[size..], count - 1);
      var rest := FragmentsFrom(mss, msg[size..], count - 1);
      assert FragmentsFrom(mss, msg, count)[1..] == rest;
      assert msg == msg[..size] + msg[size..];
    }
  }

  /** That many pieces of at most mss bytes are enough. */
  predicate Covers(mss: nat, len: nat, count: nat) {
    len <= count * mss
  }

  lemma CoversLess(mss: nat, len: nat, count: nat)
    requires 0 < mss && Covers(mss, len, count)
    ensures count == 0 ==> len == 0
    ensures count > 0 ==> Covers(mss, if len > mss then len - mss else 0, count - 1)
  {
    if count > 0 {
      Products(count, mss);
      MulMono(0, count - 1, mss);
    }
  }

  lemma CountCovers(mss: nat, len: nat)
    requires 0 < mss
    ensures 0 < FragmentCount(mss, len) && len <= FragmentCount(mss, len) * mss
  {
    if len > mss {
      var x := len + mss - 1;
      DivLower(x, mss, 1);
      assert x == mss * (x / mss) + x % mss;
    }
  }

  /** The fragments of a message: numbered down to 0, each within the mss, and joined they
      are the message again. */
  lemma FragmentsOk(mss: nat, msg: seq<byte>)
    requires 0 < mss
    ensures
      var fs := Fragments(mss, msg);
      && |fs| == FragmentCount(mss, |msg|) > 0
      && (forall i | 0 <= i < |fs| :: fs[i].frg == |fs| - 1 - i && |fs[i].data| <= mss)
      && Joined(fs) == msg
  {
    CountCovers(mss, |msg|);
    FragmentsFromOk(mss, msg, FragmentCount(mss, |msg|));
  }

  lemma SendOk(k: Kcb, msg: seq<byte>)
    requires EndpointOk(k)
    ensures EndpointOk(Send(k, msg).0) && Advances(k, Send(k, msg).0)
  {
    FragmentsOk(k.cfg.Mss(), msg);
    TimeDiffSelf(k.sndUna);
    TimeDiffSelf(k.rcvNxt);
    hide Fragments, FragmentCount, WindowOk, InboxOk, Near, TimeDiff;
  }

  lemma RecvOk(k: Kcb, len: int)
    requires EndpointOk(k)
    ensures EndpointOk(Recv(k, len).0) && Advances(k, Recv(k, len).0)
  {
    hide EndpointOk, MoveReady, TimeDiff, ReadyCount, Recv, InReorder;
    TimeDiffSelf(k.sndUna);
    TimeDiffSelf(k.rcvNxt);
    var r := Read(k, len);
    ReadIs(k, len);
    MoveReadyOk(k.cfg.rcvWnd, r);
    TimeDiffAdd(k.rcvNxt, ReadyCount(k.cfg.rcvWnd, r));
    InboxChanged(k, MoveReady(k.cfg.rcvWnd, r), Recv(k, len).0.askTell);
  }

  /** The receive side after ikcp_recv took a message off its queue, before ready segments follow. */
  function Read(k: Kcb, len: int): Incoming {
    Incoming(k.rcvNxt, if len < 0 then k.rcvQueue else k.rcvQueue[FirstRun(k.rcvQueue)..], k.rcvBuf)
  }

  lemma ReadIs(k: Kcb, len: int)
    requires EndpointOk(k)
    ensures var r := Read(k, len); InReorder(r.buf, r.rcvNxt, k.cfg.rcvWnd) && |r.queue| <= k.cfg.rcvWnd
    ensures
      var k' := Recv(k, len).0;
      k' == k || k' == WithInbox(k, MoveReady(k.cfg.rcvWnd, Read(k, len))).(askTell := k'.askTell)
  {
    hide WindowOk, Packable, Near, MoveReady, Joined, FirstRun, PeekSize, Sub, InReorder;
  }

  lemma InboxChanged(k: Kcb, r: Incoming, tell: bool)
    requires EndpointOk(k) && InboxOk(r, k.cfg.rcvWnd)
    ensures EndpointOk(WithInbox(k, r).(askTell := tell))
  {
    hide WindowOk, InboxOk, Packable, Near;
  }

  // ---- Input ----

  /** What the segments of a datagram may change, one after the other: data acknowledged
      at one side, received at the other. */
  predicate Inputs(k: Kcb, k': Kcb) {
    && k'.cfg == k.cfg && k'.sndNxt == k.sndNxt
    && (k'.cwnd, k'.incr, k'.ssthresh) == (k.cwnd, k.incr, k.ssthresh)
    && Sub(k.sndNxt, k.sndUna) == Sub(k'.sndNxt, k'.sndUna) + Sub(k'.sndUna, k.sndUna)
    && Sub(k'.rcvNxt, k.rcvNxt) == |k'.rcvQueue| - |k.rcvQueue|
  }

  lemma InputsTransitive(a: Kcb, b: Kcb, c: Kcb)
    requires Inputs(a, b) && Inputs(b, c)
    requires |a.rcvQueue| <= |b.rcvQueue| <= |c.rcvQueue| < HALF
    requires Sub(a.sndNxt, a.sndUna) < HALF
    ensures Inputs(a, c)
  {
  }

  /** The send side after segments were dropped and snd_una recomputed. */
  lemma ShrinkOk(k: Kcb, buf: seq<OutSeg>)
    requires WindowOk(k.sndBuf, k.sndUna, k.sndNxt, k.cfg.sndWnd)
    requires InWindow(buf, k.sndUna, k.sndNxt, k.cfg.sndWnd)
    ensures
      var k' := Shrink(k.(sndBuf := buf));
      && WindowOk(k'.sndBuf, k'.sndUna, k'.sndNxt, k'.cfg.sndWnd)
      && Sub(k.sndNxt, k.sndUna) == Sub(k'.sndNxt, k'.sndUna) + Sub(k'.sndUna, k.sndUna)
  {
    Rebase(buf, k.sndUna, k.sndNxt, k.cfg.sndWnd);
  }

  /** Dropping acknowledged segments and recomputing snd_una. */
  lemma DroppedOk(k: Kcb, buf: seq<OutSeg>)
    requires EndpointOk(k)
    requires InWindow(buf, k.sndUna, k.sndNxt, k.cfg.sndWnd)
    requires Packable(k.cfg, buf, k.sndQueue)
    ensures EndpointOk(Shrink(k.(sndBuf := buf))) && Inputs(k, Shrink(k.(sndBuf := buf)))
  {
    ShrinkOk(k, buf);
    assert Sub(k.rcvNxt, k.rcvNxt) == 0;
    hide InboxOk, Near, Packable, WindowOk, Sub;
  }

  lemma ParseAckOk(k: Kcb, sn: u32)
    requires EndpointOk(k)
    ensures EndpointOk(Shrink(ParseAck(k, sn))) && Inputs(k, Shrink(ParseAck(k, sn)))
  {
    hide EndpointOk, Inputs, InWindow, Packable, DropOne, TimeDiff, Shrink;
    OneDropped(k, sn);
    DroppedOk(k, k.sndBuf);
    DroppedOk(k, DropOne(k.sndBuf, sn));
  }

  lemma OneDropped(k: Kcb, sn: u32)
    requires EndpointOk(k)
    ensures forall buf <- [k.sndBuf, DropOne(k.sndBuf, sn)] ::
      InWindow(buf, k.sndUna, k.sndNxt, k.cfg.sndWnd) && Packable(k.cfg, buf, k.sndQueue)
  {
    hide InWindow, DropOne, Found, InboxOk, Near;
    DropOneInWindow(k.sndBuf, k.sndUna, k.sndNxt, k.cfg.sndWnd, sn);
    DropOneIs(k.sndBuf, sn);
  }

  lemma ParseUnaOk(k: Kcb, una: u32)
    requires EndpointOk(k)
    ensures
      var k' := Shrink(k.(sndBuf := DropBefore(k.sndBuf, una)));
      EndpointOk(k') && Inputs(k, k')
  {
    DropBeforeInWindow(k.sndBuf, k.sndUna, k.sndNxt, k.cfg.sndWnd, una);
    DropBeforeIs(k.sndBuf, una);
    DroppedOk(k, DropBefore(k.sndBuf, una));
  }

  lemma ParseDataOk(k: Kcb, s: InSeg)
    requires EndpointOk(k)
    ensures EndpointOk(ParseData(k, s)) && Inputs(k, ParseData(k, s))
    ensures |k.rcvQueue| <= |ParseData(k, s).rcvQueue|
  {
    AcceptedOffset(s.sn, k.rcvNxt, k.cfg.rcvWnd);
    if Sub(s.sn, k.rcvNxt) < k.cfg.rcvWnd {
      InsertOk(k.rcvBuf, s, k.rcvNxt, k.cfg.rcvWnd);
      var r := Incoming(k.rcvNxt, k.rcvQueue, Insert(k.rcvBuf, s));
      MoveReadyOk(k.cfg.rcvWnd, r);
      MoveReadyGrows(k.cfg.rcvWnd, r);
    }
  }

  lemma {:induction false} MoveReadyGrows(wnd: nat, r: Incoming)
    ensures |MoveReady(wnd, r).queue| == |r.queue| + ReadyCount(wnd, r)
    decreases |r.buf|
  {
    if r.buf != [] && r.buf[0].sn == r.rcvNxt && |r.queue| < wnd {
      MoveReadyGrows(wnd, Incoming(Add(r.rcvNxt, 1), r.queue + [r.buf[0].f], r.buf[1..]));
    }
  }

  /** The round trip estimate touches nothing else. */
  lemma UpdateAckFrame(k: Kcb, rtt: i32)
    ensures UpdateAck(k, rtt) ==
      k.(rttVal := UpdateAck(k, rtt).rttVal, srtt := UpdateAck(k, rtt).srtt, rto := UpdateAck(k, rtt).rto)
  {
  }

  lemma InputCmdOk(k: Kcb, w: WireSeg)
    requires EndpointOk(k)
    ensures EndpointOk(InputCmd(k, w)) && Inputs(k, InputCmd(k, w))
    ensures |k.rcvQueue| <= |InputCmd(k, w).rcvQueue|
  {
    hide WindowOk, InboxOk, Packable, Near, ParseData;
    if w.cmd == CMD_ACK {
      hide UpdateAck, ParseAck, Shrink;
      var rtt := TimeDiff(k.current, w.ts);
      UpdateAckFrame(k, rtt);
      ParseAckOk(if rtt >= 0 then UpdateAck(k, rtt) else k, w.sn);
    } else if w.cmd == CMD_PUSH {
      ParseDataOk(k.(ackList := k.ackList + [Ack(w.sn, w.ts)]), InSeg(w.sn, Frag(w.frg, w.data)));
    }
  }

  lemma InputSegOk(k: Kcb, w: WireSeg)
    requires EndpointOk(k)
    ensures EndpointOk(InputSeg(k, w)) && Inputs(k, InputSeg(k, w))
    ensures |k.rcvQueue| <= |InputSeg(k, w).rcvQueue|
  {
    var k0 := k.(rmtWnd := w.wnd);
    ParseUnaOk(k0, w.una);
    var k1 := Shrink(k0.(sndBuf := DropBefore(k.sndBuf, w.una)));
    InputCmdOk(k1, w);
    InputsTransitive(k, k1, InputCmd(k1, w));
  }

  lemma {:induction false} InputSegsOk(k: Kcb, segs: seq<WireSeg>)
    requires EndpointOk(k)
    ensures EndpointOk(InputSegs(k, segs)) && Inputs(k, InputSegs(k, segs))
    ensures |k.rcvQueue| <= |InputSegs(k, segs).rcvQueue|
    decreases |segs|
  {
    if segs != [] {
      var init := segs[..|segs| - 1];
      InputSegsOk(k, init);
      InputSegOk(InputSegs(k, init), segs[|segs| - 1]);
      InputsTransitive(k, InputSegs(k, init), InputSegs(k, segs));
    }
  }

  lemma AfterInputOk(before: Kcb, k: Kcb, newest: Newest)
    requires EndpointOk(k)
    ensures EndpointOk(AfterInput(before, k, newest))
    ensures (AfterInput(before, k, newest).sndUna, AfterInput(before, k, newest).rcvNxt) == (k.sndUna, k.rcvNxt)
  {
    if newest.Newest? {
      CountSkippedSame(k.sndBuf, newest.sn, newest.ts);
      SameNumbersOk(k, CountSkipped(k.sndBuf, newest.sn, newest.ts));
    }
    hide WindowOk, InboxOk, Packable, Near, CountSkipped, GrowWindow, TimeDiff;
    var k1 := if newest.NoAck? then k else ParseFastAck(k, newest.sn, newest.ts);
    GrowCwndOk(k1);
  }

  /** Whatever bytes arrive, the endpoint stays in order and nothing goes back. */
  lemma InputOk(k: Kcb, b: seq<byte>)
    requires EndpointOk(k)
    ensures EndpointOk(Input(k, b).0) && Advances(k, Input(k, b).0)
  {
    if |b| >= OVERHEAD {
      var segs := Parse(k.cfg.conv, b).0;
      hide Parse;
      InputSegsOk(k, segs);
      AfterInputOk(k, InputSegs(k, segs), TrackAll(segs));
      InputsAdvance(k, InputSegs(k, segs));
      hide EndpointOk, AfterInput, TimeDiff, Inputs;
    }
    TimeDiffSelf(k.sndUna);
    TimeDiffSelf(k.rcvNxt);
  }

  lemma InputsAdvance(k: Kcb, k': Kcb)
    requires EndpointOk(k) && EndpointOk(k') && Inputs(k, k')
    ensures Advances(k, k')
  {
  }

  // ---- Flush ----

  lemma {:induction false} FillWindowOk(k: Kcb, cwnd: u32)
    requires EndpointOk(k) && cwnd <= k.cfg.sndWnd
    ensures
      var k' := FillWindow(k, cwnd);
      && EndpointOk(k') && k'.sndUna == k.sndUna && k'.cfg == k.cfg && Inbox(k') == Inbox(k)
      && k'.current == k.current && k'.ackList == k.ackList
      && Sub(k'.sndNxt, k'.sndUna) <= (if Sub(k.sndNxt, k.sndUna) > cwnd then Sub(k.sndNxt, k.sndUna) else cwnd)
    decreases |k.sndQueue|
  {
    if Fillable(k, cwnd) {
      var k1 := FillOne(k);
      assert Sub(k1.sndNxt, k.sndUna) == Sub(k.sndNxt, k.sndUna) + 1 <= cwnd;
      assert EndpointOk(k1);
      FillWindowOk(k1, cwnd);
    }
  }

  /** The probe timer touches nothing else. */
  lemma ProbeFrame(k: Kcb)
    ensures Probe(k) == k.(tsProbe := Probe(k).tsProbe, probeWait := Probe(k).probeWait, askSend := Probe(k).askSend)
  {
  }

  lemma TickFrame(k: Kcb, now: u32)
    ensures Tick(k, now).0 == k.(current := now, updated := true, tsFlush := Tick(k, now).0.tsFlush)
  {
  }

  lemma TickOk(k: Kcb, now: u32)
    requires EndpointOk(k)
    ensures EndpointOk(Tick(k, now).0)
  {
    TickFrame(k, now);
    hide WindowOk, InboxOk, Packable, Near, Tick;
  }

  lemma FilledOk(k: Kcb)
    requires EndpointOk(k)
    ensures
      var f := Filled(k);
      EndpointOk(f) && f.sndUna == k.sndUna && f.cfg == k.cfg && Inbox(f) == Inbox(k) && f.current == k.current
  {
    ProbeFrame(k);
    hide WindowOk, InboxOk, Packable, Near, FillWindow, Probe;
    FillWindowOk(Probe(k).(ackList := [], askSend := false, askTell := false), SendWindow(k));
  }

  /** The window after a flush: same numbers and payloads, new timers. */
  lemma ResendAllOk(k: Kcb)
    requires EndpointOk(k)
    ensures SameNumbers(ResendAll(k, k.sndBuf), k.sndBuf)
    ensures WindowOk(ResendAll(k, k.sndBuf), k.sndUna, k.sndNxt, k.cfg.sndWnd)
    ensures Packable(k.cfg, ResendAll(k, k.sndBuf), k.sndQueue)
  {
    var buf := ResendAll(k, k.sndBuf);
    assert SameNumbers(buf, k.sndBuf);
    SameNumbersOk(k, buf);
  }

  lemma SameNumbersOk(k: Kcb, buf: seq<OutSeg>)
    requires EndpointOk(k) && SameNumbers(buf, k.sndBuf)
    ensures WindowOk(buf, k.sndUna, k.sndNxt, k.cfg.sndWnd)
    ensures Packable(k.cfg, buf, k.sndQueue)
  {
    hide InboxOk, Near;
    assert InWindow(buf, k.sndUna, k.sndNxt, k.cfg.sndWnd) by { hide Sub; }
    forall s | s in buf ensures s.f.frg < WND_FRAGMENTS && |s.f.data| <= k.cfg.Mss() {
      var i :| 0 <= i < |buf| && buf[i] == s;
      assert k.sndBuf[i] in k.sndBuf;
    }
  }

  lemma FlushedOk(k: Kcb)
    requires EndpointOk(k)
    ensures EndpointOk(Flushed(k)) && Advances(k, Flushed(k))
  {
    TimeDiffSelf(k.sndUna);
    TimeDiffSelf(k.rcvNxt);
    hide WindowOk, InboxOk, Packable, Near, ShrinkCwnd, Filled, ResendAll, TimeDiff, CountTimeouts, AnyFast,
      AnyDead, Sub;
    if k.updated {
      FilledOk(k);
      var f := Filled(k);
      ResendAllOk(f);
      WindowSpan(f);
      ShrinkCwndOk(SentOut(f), k.cwnd, AnyFast(f, f.sndBuf), CountTimeouts(f, f.sndBuf) > 0);
      ShrinkCwndFrame(SentOut(f), k.cwnd, AnyFast(f, f.sndBuf), CountTimeouts(f, f.sndBuf) > 0);
    }
  }

  lemma WindowSpan(k: Kcb)
    requires EndpointOk(k)
    ensures Sub(k.sndNxt, k.sndUna) < 0x1_0000
  {
  }

  lemma ShrinkCwndFrame(k: Kcb, prior: u32, fast: bool, lost: bool)
    ensures
      var k' := ShrinkCwnd(k, prior, fast, lost);
      k' == k.(ssthresh := k'.ssthresh, cwnd := k'.cwnd, incr := k'.incr)
  {
  }

  lemma UpdatedOk(k: Kcb, now: u32)
    requires EndpointOk(k)
    ensures EndpointOk(Updated(k, now)) && Advances(k, Updated(k, now))
  {
    TickFrame(k, now);
    hide WindowOk, InboxOk, Packable, Near, Flushed, Tick;
    FlushedOk(Tick(k, now).0);
    TimeDiffSelf(k.sndUna);
    TimeDiffSelf(k.rcvNxt);
    hide TimeDiff;
  }

  lemma TimeDiffAdd(x: u32, d: u32)
    requires d < HALF
    ensures TimeDiff(Add(x, d), x) == d
  {
  }

  lemma TimeDiffSelf(x: u32)
    ensures TimeDiff(x, x) == 0
  {
  }

  /** Every datagram of a flush can be built: numbers and lengths fit their fields. */
  lemma FlushSegsFit(k: Kcb)
    requires EndpointOk(k)
    ensures SmallFrgs(Filled(k).sndBuf)
    ensures AllSendable(FlushSegs(k)) && forall s <- FlushSegs(k) :: SegSize(s) <= k.cfg.mtu
  {
    FilledOk(k);
    ControlSegsFit(k);
    hide WindowOk, InboxOk, Near, Filled, PushSegs, AckSegs, ProbeSegs;
    PushSegsFit(Filled(k), Filled(k).sndBuf);
  }

  lemma ControlSegsFit(k: Kcb)
    ensures forall w <- AckSegs(k) + ProbeSegs(k) :: KnownCmd(w.cmd) && w.data == []
  {
    hide Probe, WndUnused;
  }

  lemma {:induction false} PushSegsFit(k: Kcb, buf: seq<OutSeg>)
    requires SmallFrgs(buf)
    requires forall s <- buf :: |s.f.data| <= k.cfg.Mss()
    ensures forall w <- PushSegs(k, buf) :: w.cmd == CMD_PUSH && SegSize(w) <= k.cfg.mtu
    decreases |buf|
  {
    if buf != [] {
      PushSegsFit(k, buf[..|buf| - 1]);
      assert buf[|buf| - 1] in buf;
    }
  }

  /** The datagrams of a flush. */
  function FlushOutput(k: Kcb): seq<seq<byte>>
    requires EndpointOk(k)
  {
    if !k.updated then []
    else
      FlushSegsFit(k);
      Datagrams(k.cfg.conv, k.cfg.mtu, FlushSegs(k))
  }

  /** Each is non-empty, at most mtu bytes, and the peer's decoding loop reads, without
      error and without leftover, exactly the segments that were flushed. */
  lemma FlushOutputDecodes(k: Kcb)
    requires EndpointOk(k)
    ensures forall d <- FlushOutput(k) :: OVERHEAD <= |d| <= k.cfg.mtu && Parse(k.cfg.conv, d).1 == 0
    ensures k.updated ==> Flatten(ParseAll(k.cfg.conv, FlushOutput(k))) == (FlushSegsFit(k); FlushSegs(k))
  {
    hide Parse;
    FlushSegsFit(k);
    DatagramsDecode(k.cfg.conv, k.cfg.mtu, FlushSegs(k));
  }
}
