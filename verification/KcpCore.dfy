/** One KCP endpoint as ikcp.c runs it: fields and queues changed in place, in loops. Every
    method is proved to take the state where its specification in KcpEndpoint does, and to
    keep the endpoint's invariant. */
module KcpCore {
  import opened Word32
  import opened Bytes
  import opened KcpWire
  import opened KcpEndpoint
  import opened KcpInvariant
  import KcpCongestion

  class Kcp {
    const cfg: Config
    var sndUna: u32
    var sndNxt: u32
    var rcvNxt: u32
    var ssthresh: u32
    var cwnd: u32
    var incr: u32
    var rmtWnd: u32
    var rttVal: i32
    var srtt: i32
    var rto: i32
    var current: u32
    var tsFlush: u32
    var updated: bool
    var tsProbe: u32
    var probeWait: u32
    var askSend: bool
    var askTell: bool
    var xmit: u32
    var dead: bool
    var nrcvBuf: nat
    var nsndBuf: nat
    var nrcvQue: nat
    var nsndQue: nat
    var sndQueue: seq<Frag>
    var sndBuf: seq<OutSeg>
    var rcvQueue: seq<Frag>
    var rcvBuf: seq<InSeg>
    var ackList: seq<Ack>

    ghost function State(): Kcb
      reads this
    {
      Kcb(cfg, sndUna, sndNxt, rcvNxt, ssthresh, cwnd, incr, rmtWnd, rttVal, srtt, rto, current, tsFlush, updated,
          tsProbe, probeWait, askSend, askTell, xmit, dead, sndQueue, sndBuf, rcvQueue, rcvBuf, ackList)
    }

    lemma Fields()
      ensures State().cfg == cfg && State().current == current && State().updated == updated
      ensures State().sndUna == sndUna && State().sndNxt == sndNxt && State().cwnd == cwnd
      ensures State().sndBuf == sndBuf && State().sndQueue == sndQueue && State().rto == rto
      ensures State().rcvNxt == rcvNxt && State().askSend == askSend && State().askTell == askTell
      ensures State().ackList == ackList && State().rmtWnd == rmtWnd && State().rcvQueue == rcvQueue
    {
    }

    /** The four counters are the lengths of the queues. */
    ghost predicate Counted()
      reads this
    {
      nrcvBuf == |rcvBuf| && nsndBuf == |sndBuf| && nrcvQue == |rcvQueue| && nsndQue == |sndQueue|
    }

    ghost predicate Valid()
      reads this
    {
      Counted() && EndpointOk(State())
    }

    constructor (cfg: Config)
      ensures Valid() && State() == Created(cfg)
    {
      this.cfg := cfg;
      sndUna, sndNxt, rcvNxt := 0, 0, 0;
      ssthresh, cwnd, incr, rmtWnd := THRESH_INIT, 0, 0, WND_FRAGMENTS;
      rttVal, srtt, rto := 0, 0, RTO_DEF;
      current, tsFlush, updated := 0, 100, false;
      tsProbe, probeWait, askSend, askTell := 0, 0, false, false;
      xmit, dead := 0, false;
      nrcvBuf, nsndBuf, nrcvQue, nsndQue := 0, 0, 0, 0;
      sndQueue, sndBuf, rcvQueue, rcvBuf, ackList := [], [], [], [], [];
      new;
      CreatedOk(cfg);
    }

    // ---- ikcp_send ----

    /** The loop of ikcp_send that cuts the message. */
    method Fragment(msg: seq<byte>, count: nat) returns (sent: nat)
      requires Counted() && Covers(cfg.Mss(), |msg|, count)
      modifies `sndQueue, `nsndQue
      ensures Counted() && sent == |msg|
      ensures sndQueue == old(sndQueue) + FragmentsFrom(cfg.Mss(), msg, count)
    {
      var mss := cfg.Mss();
      var rest := msg;
      sent := 0;
      var i := 0;
      while i < count
        invariant 0 <= i <= count && Counted() && sent + |rest| == |msg|
        invariant sndQueue + FragmentsFrom(mss, rest, count - i) == old(sndQueue) + FragmentsFrom(mss, msg, count)
        invariant Covers(mss, |rest|, count - i)
      {
        var size := if |rest| > mss then mss else |rest|;
        ghost var before := sndQueue;
        ghost var later := FragmentsFrom(mss, rest[size..], count - i - 1);
        sndQueue := sndQueue + [Frag(count - i - 1, rest[..size])];
        nsndQue := nsndQue + 1;
        assert before + ([Frag(count - i - 1, rest[..size])] + later) == sndQueue + later;
        CoversLess(mss, |rest|, count - i);
        rest := rest[size..];
        sent := sent + size;
        i := i + 1;
      }
      CoversLess(mss, |rest|, 0);
      assert FragmentsFrom(mss, rest, 0) == [];
    }

    method Send(msg: seq<byte>) returns (rc: int)
      requires Valid()
      modifies `sndQueue, `nsndQue
      ensures Valid() && (State(), rc) == KcpEndpoint.Send(old(State()), msg)
    {
      hide EndpointOk, FragmentsFrom, Advances;
      SendOk(State(), msg);
      var mss := cfg.Mss();
      var count := if |msg| <= mss then 1 else (|msg| + mss - 1) / mss;
      if count >= WND_FRAGMENTS { return -2; }
      CountCovers(mss, |msg|);
      rc := Fragment(msg, count);
    }

    // ---- ikcp_peeksize and ikcp_recv ----

    method PeekSize() returns (n: int)
      requires Counted()
      ensures n == KcpEndpoint.PeekSize(rcvQueue)
    {
      if rcvQueue == [] { return -1; }
      if rcvQueue[0].frg == 0 { return |rcvQueue[0].data|; }
      if nrcvQue < rcvQueue[0].frg + 1 { return -1; }
      n := 0;
      var i := 0;
      assert rcvQueue[0..] == rcvQueue;
      while i < |rcvQueue|
        invariant 0 <= i <= |rcvQueue| && n >= 0
        invariant |Joined(rcvQueue[..FirstRun(rcvQueue)])| == n + |Joined(rcvQueue[i..][..FirstRun(rcvQueue[i..])])|
      {
        n := n + |rcvQueue[i].data|;
        JoinedStep(rcvQueue[i..]);
        assert rcvQueue[i..][1..] == rcvQueue[i + 1..];
        if rcvQueue[i].frg == 0 { return; }
        i := i + 1;
      }
    }

    /** The loop at the end of ikcp_recv and of ikcp_parse_data. */
    method TakeReady()
      requires Counted()
      modifies `rcvBuf, `nrcvBuf, `rcvQueue, `nrcvQue, `rcvNxt
      ensures Counted()
      ensures Incoming(rcvNxt, rcvQueue, rcvBuf) == MoveReady(cfg.rcvWnd, old(Incoming(rcvNxt, rcvQueue, rcvBuf)))
    {
      while rcvBuf != [] && rcvBuf[0].sn == rcvNxt && nrcvQue < cfg.rcvWnd
        invariant Counted()
        invariant MoveReady(cfg.rcvWnd, Incoming(rcvNxt, rcvQueue, rcvBuf)) ==
          MoveReady(cfg.rcvWnd, old(Incoming(rcvNxt, rcvQueue, rcvBuf)))
        decreases |rcvBuf|
      {
        var seg := rcvBuf[0];
        rcvBuf := rcvBuf[1..];
        nrcvBuf := nrcvBuf - 1;
        rcvQueue := rcvQueue + [seg.f];
        nrcvQue := nrcvQue + 1;
        rcvNxt := Add(rcvNxt, 1);
      }
    }

    /** The merge loop of ikcp_recv: the data of the first message, and its fragments. */
    method Merge() returns (n: nat, data: seq<byte>)
      ensures n == FirstRun(rcvQueue) && data == Joined(rcvQueue[..n])
    {
      data := [];
      n := 0;
      assert rcvQueue[0..] == rcvQueue;
      while n < |rcvQueue|
        invariant 0 <= n <= |rcvQueue|
        invariant Joined(rcvQueue[..FirstRun(rcvQueue)]) == data + Joined(rcvQueue[n..][..FirstRun(rcvQueue[n..])])
        invariant FirstRun(rcvQueue) == n + FirstRun(rcvQueue[n..])
      {
        data := data + rcvQueue[n].data;
        JoinedStep(rcvQueue[n..]);
        assert rcvQueue[n..][1..] == rcvQueue[n + 1..];
        n := n + 1;
        if rcvQueue[n - 1].frg == 0 { return; }
      }
    }

    /** What ikcp_recv does once the first message is known to be complete and to fit. */
    method TakeMessage(keep: bool) returns (data: seq<byte>)
      requires Counted()
      modifies `rcvBuf, `nrcvBuf, `rcvQueue, `nrcvQue, `rcvNxt, `askTell
      ensures Counted()
      ensures data == Joined(old(rcvQueue)[..FirstRun(old(rcvQueue))])
      ensures
        var q := if keep then old(rcvQueue) else old(rcvQueue)[FirstRun(old(rcvQueue))..];
        Incoming(rcvNxt, rcvQueue, rcvBuf) == MoveReady(cfg.rcvWnd, Incoming(old(rcvNxt), q, old(rcvBuf)))
      ensures askTell == (old(askTell) || (old(|rcvQueue|) >= cfg.rcvWnd && |rcvQueue| < cfg.rcvWnd))
    {
      hide MoveReady, FirstRun, Joined;
      var recover := nrcvQue >= cfg.rcvWnd;
      var n;
      n, data := Merge();
      if !keep {
        rcvQueue := rcvQueue[n..];
        nrcvQue := nrcvQue - n;
      }
      TakeReady();
      if nrcvQue < cfg.rcvWnd && recover { askTell := true; }
    }

    /** The part of ikcp_recv after its checks. */
    method RecvMessage(len: int) returns (data: seq<byte>)
      requires Counted() && rcvQueue != [] && 0 <= KcpEndpoint.PeekSize(rcvQueue) <= (if len < 0 then -len else len)
      modifies `rcvBuf, `nrcvBuf, `rcvQueue, `nrcvQue, `rcvNxt, `askTell
      ensures Counted() && (State(), |data|, data) == KcpEndpoint.Recv(old(State()), len)
    {
      hide MoveReady, FirstRun, Joined, KcpEndpoint.PeekSize, KcpEndpoint.Recv;
      ghost var k := State();
      data := TakeMessage(len < 0);
      TakenState(k, State(), len);
    }

    method Recv(len: int) returns (rc: int, data: seq<byte>)
      requires Valid()
      modifies `rcvBuf, `nrcvBuf, `rcvQueue, `nrcvQue, `rcvNxt, `askTell
      ensures Valid() && (State(), rc, data) == KcpEndpoint.Recv(old(State()), len)
    {
      hide EndpointOk, KcpEndpoint.PeekSize, KcpEndpoint.Recv, Advances;
      RecvOk(State(), len);
      RecvCases(State(), len);
      if rcvQueue == [] { return -1, []; }
      var peek := PeekSize();
      if peek < 0 { return -2, []; }
      if peek > (if len < 0 then -len else len) { return -3, []; }
      data := RecvMessage(len);
      rc := |data|;
    }

    // ---- ikcp_input and its parts ----

    method UpdateAckTimes(rtt: i32)
      modifies `rttVal, `srtt, `rto
      ensures State() == UpdateAck(old(State()), rtt)
    {
      hide UpdateAck;
      UpdateAckFrame(State(), rtt);
      SetTimes(rtt);
    }

    method SetTimes(rtt: i32)
      modifies `rttVal, `srtt, `rto
      ensures
        var k := UpdateAck(old(State()), rtt);
        (rttVal, srtt, rto) == (k.rttVal, k.srtt, k.rto)
    {
      SmallRtt(State(), rtt);
      hide ToI32, TruncDiv, Wrap, Add, Max, Min;
      if srtt == 0 {
        srtt := rtt;
        rttVal := ToI32(TruncDiv(rtt, 2));
      } else {
        var delta := rtt - srtt;
        if delta < 0 { delta := -delta; }
        rttVal := ToI32(TruncDiv(ToI32(3 * rttVal) + delta, 4));
        srtt := ToI32(TruncDiv(ToI32(ToI32(7 * srtt) + rtt), 8));
        if srtt < 1 { srtt := 1; }
      }
      var t := Add(Wrap(srtt), Max(cfg.interval, Wrap(4 * rttVal)));
      rto := ToI32(Min(Max(cfg.minRto, t), RTO_MAX));
    }

    method ShrinkBuf()
      modifies `sndUna
      ensures State() == Shrink(old(State()))
    {
      if sndBuf != [] { sndUna := sndBuf[0].sn; } else { sndUna := sndNxt; }
    }

    method ParseUna(una: u32)
      requires nsndBuf == |sndBuf|
      modifies `sndBuf, `nsndBuf
      ensures nsndBuf == |sndBuf| && sndBuf == DropBefore(old(sndBuf), una)
    {
      while sndBuf != [] && TimeDiff(una, sndBuf[0].sn) > 0
        invariant nsndBuf == |sndBuf| && DropBefore(sndBuf, una) == DropBefore(old(sndBuf), una)
        decreases |sndBuf|
      {
        sndBuf := sndBuf[1..];
        nsndBuf := nsndBuf - 1;
      }
    }

    method ParseAckNumber(sn: u32)
      requires nsndBuf == |sndBuf|
      modifies `sndBuf, `nsndBuf
      ensures nsndBuf == |sndBuf|
      ensures sndBuf == if TimeDiff(sn, sndUna) < 0 || TimeDiff(sn, sndNxt) >= 0 then old(sndBuf)
        else DropOne(old(sndBuf), sn)
    {
      hide TimeDiff, DropOne;
      if TimeDiff(sn, sndUna) < 0 || TimeDiff(sn, sndNxt) >= 0 { return; }
      var i := 0;
      while i < |sndBuf| && TimeDiff(sn, sndBuf[i].sn) >= 0
        invariant 0 <= i <= |sndBuf| && sndBuf == old(sndBuf) && nsndBuf == |sndBuf|
        invariant forall j | 0 <= j < i :: sndBuf[j].sn != sn && TimeDiff(sn, sndBuf[j].sn) >= 0
      {
        if sn == sndBuf[i].sn {
          DropOneAt(sndBuf, i, sn);
          sndBuf := sndBuf[..i] + sndBuf[i + 1..];
          nsndBuf := nsndBuf - 1;
          return;
        }
        i := i + 1;
      }
      DropOneAt(sndBuf, i, sn);
    }

    method ParseFastAckNumber(sn: u32, ts: u32)
      requires nsndBuf == |sndBuf|
      modifies `sndBuf
      ensures nsndBuf == |sndBuf|
      ensures sndBuf == if TimeDiff(sn, sndUna) < 0 || TimeDiff(sn, sndNxt) >= 0 then old(sndBuf)
        else CountSkipped(old(sndBuf), sn, ts)
    {
      hide TimeDiff, Add, CountSkipped;
      if TimeDiff(sn, sndUna) < 0 || TimeDiff(sn, sndNxt) >= 0 { return; }
      ghost var buf := sndBuf;
      var i := 0;
      while i < |sndBuf| && TimeDiff(sn, sndBuf[i].sn) >= 0
        invariant 0 <= i <= |sndBuf| == |buf|
        invariant forall j | 0 <= j < i :: TimeDiff(sn, buf[j].sn) >= 0 && sndBuf[j] == Skipped(buf[j], sn, ts)
        invariant forall j | i <= j < |buf| :: sndBuf[j] == buf[j]
      {
        if sn != sndBuf[i].sn && TimeDiff(ts, sndBuf[i].ts) >= 0 {
          sndBuf := sndBuf[i := sndBuf[i].(fastAck := Add(sndBuf[i].fastAck, 1))];
        }
        i := i + 1;
      }
      CountSkippedIs(buf, sndBuf, i, sn, ts);
    }

    method ParseSegment(seg: InSeg)
      requires Counted()
      modifies `rcvBuf, `nrcvBuf, `rcvQueue, `nrcvQue, `rcvNxt
      ensures Counted()
      ensures Incoming(rcvNxt, rcvQueue, rcvBuf) == AfterData(cfg.rcvWnd, old(Incoming(rcvNxt, rcvQueue, rcvBuf)), seg)
    {
      var sn := seg.sn;
      if TimeDiff(sn, Add(rcvNxt, cfg.rcvWnd)) >= 0 || TimeDiff(sn, rcvNxt) < 0 { return; }
      var p := |rcvBuf|;
      var repeated := false;
      assert rcvBuf[..p] == rcvBuf;
      while p > 0
        invariant 0 <= p <= |rcvBuf| && unchanged(this) && !repeated
        invariant InsertAt(rcvBuf, sn) == InsertAt(rcvBuf[..p], sn)
      {
        if rcvBuf[p - 1].sn == sn { repeated := true; break; }
        if TimeDiff(sn, rcvBuf[p - 1].sn) > 0 { break; }
        assert rcvBuf[..p][..p - 1] == rcvBuf[..p - 1];
        p := p - 1;
      }
      assert p == InsertAt(rcvBuf, sn);
      if !repeated {
        rcvBuf := rcvBuf[..p] + [seg] + rcvBuf[p..];
        nrcvBuf := nrcvBuf + 1;
      }
      hide InsertAt, MoveReady, TimeDiff, Add;
      TakeReady();
    }

    /** ikcp_ack_push. */
    method PushAck(sn: u32, ts: u32)
      modifies `ackList
      ensures ackList == old(ackList) + [Ack(sn, ts)]
    {
      ackList := ackList + [Ack(sn, ts)];
    }

    /** The branch of ikcp_input for an acknowledgement. */
    method InputAck(sn: u32, ts: u32)
      requires nsndBuf == |sndBuf|
      modifies `rttVal, `srtt, `rto, `sndBuf, `nsndBuf, `sndUna
      ensures nsndBuf == |sndBuf|
      ensures
        var k, rtt := old(State()), TimeDiff(old(current), ts);
        State() == Shrink(ParseAck(if rtt >= 0 then UpdateAck(k, rtt) else k, sn))
    {
      hide TimeDiff, UpdateAck, DropOne;
      if TimeDiff(current, ts) >= 0 { UpdateAckTimes(TimeDiff(current, ts)); }
      ghost var k1 := State();
      ParseAckNumber(sn);
      assert State() == ParseAck(k1, sn);
      hide ParseAck;
      ShrinkBuf();
    }

    /** The branch of ikcp_input for data. */
    method InputPush(w: WireSeg)
      requires Counted() && w.cmd == CMD_PUSH
      modifies `ackList, `rcvBuf, `nrcvBuf, `rcvQueue, `nrcvQue, `rcvNxt
      ensures Counted() && State() == InputCmd(old(State()), w)
    {
      hide InputCmd, TimeDiff, Add, AfterData;
      TakePush(w);
      PushedState(old(State()), State(), w);
    }

    method TakePush(w: WireSeg)
      requires Counted() && w.cmd == CMD_PUSH
      modifies `ackList, `rcvBuf, `nrcvBuf, `rcvQueue, `nrcvQue, `rcvNxt
      ensures Counted()
      ensures TimeDiff(w.sn, Add(old(rcvNxt), cfg.rcvWnd)) >= 0 ==>
        && ackList == old(ackList)
        && Incoming(rcvNxt, rcvQueue, rcvBuf) == old(Incoming(rcvNxt, rcvQueue, rcvBuf))
      ensures TimeDiff(w.sn, Add(old(rcvNxt), cfg.rcvWnd)) < 0 ==>
        && ackList == old(ackList) + [Ack(w.sn, w.ts)]
        && Incoming(rcvNxt, rcvQueue, rcvBuf) ==
          AfterData(cfg.rcvWnd, old(Incoming(rcvNxt, rcvQueue, rcvBuf)), InSeg(w.sn, Frag(w.frg, w.data)))
    {
      hide TimeDiff, Add, MoveReady, Insert;
      if TimeDiff(w.sn, Add(rcvNxt, cfg.rcvWnd)) < 0 {
        PushAck(w.sn, w.ts);
        if TimeDiff(w.sn, rcvNxt) >= 0 {
          ParseSegment(InSeg(w.sn, Frag(w.frg, w.data)));
        }
      }
    }

    /** What ikcp_input does with every segment: window, cumulative acknowledgement. */
    method InputHeader(wnd: u16, una: u32)
      requires nsndBuf == |sndBuf|
      modifies `rmtWnd, `sndBuf, `nsndBuf, `sndUna
      ensures nsndBuf == |sndBuf|
      ensures State() == Shrink(old(State()).(rmtWnd := wnd, sndBuf := DropBefore(old(sndBuf), una)))
    {
      hide DropBefore, Shrink;
      TakeUna(wnd, una);
      ShrinkBuf();
    }

    method TakeUna(wnd: u16, una: u32)
      requires nsndBuf == |sndBuf|
      modifies `rmtWnd, `sndBuf, `nsndBuf
      ensures nsndBuf == |sndBuf| && rmtWnd == wnd && sndBuf == DropBefore(old(sndBuf), una)
    {
      rmtWnd := wnd;
      ParseUna(una);
    }

    /** What ikcp_input does with one decoded segment. */
    method InputSegment(w: WireSeg)
      requires Counted()
      modifies this
      ensures Counted() && State() == InputSeg(old(State()), w)
    {
      hide DropBefore, InputCmd, State, Shrink;
      ghost var k := State();
      Fields();
      InputHeader(w.wnd, w.una);
      InputCommand(w);
    }

    method InputCommand(w: WireSeg)
      requires Counted()
      modifies `rttVal, `srtt, `rto, `sndBuf, `nsndBuf, `sndUna, `ackList, `rcvBuf, `nrcvBuf, `rcvQueue, `nrcvQue,
        `rcvNxt, `askTell
      ensures Counted() && State() == InputCmd(old(State()), w)
    {
      InputCmdCases(State(), w);
      hide InputCmd, Shrink, ParseAck, UpdateAck, TimeDiff, State;
      Fields();
      if w.cmd == CMD_ACK {
        InputAck(w.sn, w.ts);
      } else if w.cmd == CMD_PUSH {
        InputPush(w);
      } else if w.cmd == CMD_WASK {
        AskTell();
      }
    }

    method AskTell()
      modifies `askTell
      ensures State() == old(State()).(askTell := true)
    {
      askTell := true;
    }

    /** The growth of the congestion window at the end of ikcp_input. */
    method Grow()
      modifies `cwnd, `incr
      ensures (cwnd, incr) == GrowWindow(old(cwnd), old(incr), ssthresh, rmtWnd, cfg.Mss())
    {
      if cwnd < rmtWnd {
        var mss := cfg.Mss();
        if cwnd < ssthresh {
          cwnd := Add(cwnd, 1);
          incr := Wrap(incr + mss);
        } else {
          if incr < mss { incr := mss; }
          incr := Wrap(incr + mss * mss / incr + mss / 16);
          if Wrap((cwnd + 1) * mss) <= incr {
            cwnd := Wrap(Wrap(incr + mss - 1) / mss);
          }
        }
        if cwnd > rmtWnd {
          cwnd := rmtWnd;
          incr := Wrap(rmtWnd * mss);
        }
      }
    }

    /** The decoding loop of ikcp_input. */
    method InputLoop(data: seq<byte>) returns (rc: int, newest: Newest)
      requires Counted()
      modifies this
      ensures Counted()
      ensures State() == InputSegs(old(State()), Parse(cfg.conv, data).0) && rc == Parse(cfg.conv, data).1
      ensures newest == TrackAll(Parse(cfg.conv, data).0)
    {
      hide InputSeg, Parse, Track, State;
      ghost var k0 := State();
      ghost var done: seq<WireSeg> := [];
      var rest := data;
      assert done + Parse(cfg.conv, rest).0 == Parse(cfg.conv, rest).0;
      newest := NoAck;
      while |rest| >= OVERHEAD
        invariant Counted() && State() == InputSegs(k0, done) && newest == TrackAll(done)
        invariant Parse(cfg.conv, data) == (done + Parse(cfg.conv, rest).0, Parse(cfg.conv, rest).1)
        decreases |rest|
      {
        ParseStep(cfg.conv, rest);
        if Get32(rest[0..4]) != cfg.conv { assert done + [] == done; return -1, newest; }
        var len := Get32(rest[20..24]);
        if |rest| - OVERHEAD < len || len >= HALF { assert done + [] == done; return -2, newest; }
        if !KnownCmd(rest[4]) { assert done + [] == done; return -3, newest; }
        var w := WireSeg(rest[4], rest[5], Get16(rest[6..8]), Get32(rest[8..12]), Get32(rest[12..16]),
          Get32(rest[16..20]), rest[24..24 + len]);
        InputSegment(w);
        newest := Track(newest, w);
        assert (done + [w])[..|done|] == done;
        assert done + ([w] + Parse(cfg.conv, rest[24 + len..]).0) == (done + [w]) + Parse(cfg.conv, rest[24 + len..]).0;
        done := done + [w];
        rest := rest[24 + len..];
      }
      ParseStep(cfg.conv, rest);
      assert done + [] == done;
      rc := 0;
    }

    /** The end of ikcp_input. */
    method FinishInput(ghost before: Kcb, prevUna: u32, newest: Newest)
      requires nsndBuf == |sndBuf| && prevUna == before.sndUna
      modifies `sndBuf, `cwnd, `incr
      ensures nsndBuf == |sndBuf| && State() == AfterInput(before, old(State()), newest)
    {
      hide GrowWindow, TimeDiff, CountSkipped;
      if newest.Newest? {
        ParseFastAckNumber(newest.sn, newest.ts);
      }
      ghost var k1 := State();
      assert k1 == if newest.NoAck? then old(State()) else ParseFastAck(old(State()), newest.sn, newest.ts);
      if TimeDiff(sndUna, prevUna) > 0 {
        Grow();
        assert State() == GrowCwnd(k1);
      }
    }

    method Input(data: seq<byte>) returns (rc: int)
      requires Valid()
      modifies this
      ensures Valid() && (State(), rc) == KcpEndpoint.Input(old(State()), data)
    {
      hide EndpointOk, Advances, InputSegs, Parse, TrackAll, AfterInput, State;
      InputOk(State(), data);
      ghost var k := State();
      Fields();
      var prevUna := sndUna;
      if |data| < OVERHEAD { return -1; }
      var newest;
      rc, newest := InputLoop(data);
      if rc == 0 { FinishInput(k, prevUna, newest); }
    }

    // ---- ikcp_flush and its parts ----

    /** Encodes a segment behind the buffer, which goes out first when the segment does not
        fit behind it. */
    method Put(w: WireSeg, out0: seq<seq<byte>>, buffer0: seq<byte>, ghost done: seq<WireSeg>)
        returns (out: seq<seq<byte>>, buffer: seq<byte>)
      requires Packed(cfg, out0, buffer0, done) && Sendable(w) && SegSize(w) <= cfg.mtu
      ensures Packed(cfg, out, buffer, done + [w])
    {
      PutPacked(cfg, out0, buffer0, done, w);
      out, buffer := out0, buffer0;
      if |buffer| + OVERHEAD + |w.data| > cfg.mtu {
        out := Output(out, buffer);
        buffer := [];
      }
      buffer := buffer + EncodeSeg(cfg.conv, w);
    }

    /** The loop that sends the acknowledgements; also what the shared header is left with. */
    method FlushAcks(wnd: u16) returns (out: seq<seq<byte>>, buffer: seq<byte>, last: Ack)
      requires wnd == WndUnused(State())
      ensures Packed(cfg, out, buffer, AckSegs(State()))
      ensures last == if ackList == [] then Ack(0, 0) else ackList[|ackList| - 1]
    {
      hide Packed;
      out, buffer, last := [], [], Ack(0, 0);
      PackedEmpty(cfg);
      var i := 0;
      while i < |ackList|
        invariant 0 <= i <= |ackList|
        invariant Packed(cfg, out, buffer, AckSegs(State())[..i])
        invariant last == if i == 0 then Ack(0, 0) else ackList[i - 1]
      {
        last := ackList[i];
        out, buffer := Put(WireSeg(CMD_ACK, 0, wnd, last.ts, last.sn, rcvNxt, []), out, buffer, AckSegs(State())[..i]);
        assert AckSegs(State())[..i] + [AckSegs(State())[i]] == AckSegs(State())[..i + 1];
        i := i + 1;
      }
      assert AckSegs(State())[..i] == AckSegs(State());
    }

    method RunProbe()
      modifies `tsProbe, `probeWait, `askSend
      ensures State() == Probe(old(State()))
    {
      hide Probe;
      ProbeFrame(State());
      SetProbe();
    }

    method SetProbe()
      modifies `tsProbe, `probeWait, `askSend
      ensures
        var k := Probe(old(State()));
        (tsProbe, probeWait, askSend) == (k.tsProbe, k.probeWait, k.askSend)
    {
      hide TimeDiff, Add, Wrap;
      if rmtWnd == 0 {
        if probeWait == 0 {
          probeWait := PROBE_INIT;
          tsProbe := Add(current, probeWait);
        } else if TimeDiff(current, tsProbe) >= 0 {
          if probeWait < PROBE_INIT { probeWait := PROBE_INIT; }
          probeWait := Wrap(probeWait + probeWait / 2);
          if probeWait > PROBE_LIMIT { probeWait := PROBE_LIMIT; }
          tsProbe := Add(current, probeWait);
          askSend := true;
        }
      } else {
        tsProbe := 0;
        probeWait := 0;
      }
    }

    /** Numbers the first fragment of snd_queue and moves it to snd_buf. */
    method MoveOne()
      requires Counted() && sndQueue != []
      modifies `sndQueue, `nsndQue, `sndBuf, `nsndBuf, `sndNxt
      ensures Counted() && sndQueue == old(sndQueue)[1..] && sndNxt == Add(old(sndNxt), 1)
      ensures sndBuf == old(sndBuf) + [OutSeg(old(sndNxt), old(sndQueue)[0], current, current, Wrap(rto), 0, 0)]
    {
      hide Add, Wrap;
      sndBuf := sndBuf + [OutSeg(sndNxt, sndQueue[0], current, current, Wrap(rto), 0, 0)];
      nsndBuf := nsndBuf + 1;
      sndQueue := sndQueue[1..];
      nsndQue := nsndQue - 1;
      sndNxt := Add(sndNxt, 1);
    }

    method MoveSegment()
      requires Counted() && sndQueue != []
      modifies `sndQueue, `nsndQue, `sndBuf, `nsndBuf, `sndNxt
      ensures Counted() && sndQueue == old(sndQueue)[1..] && State() == FillOne(old(State()))
    {
      hide Add, Wrap;
      MoveOne();
    }

    /** The loop that moves data from snd_queue to snd_buf. */
    method Fill(window: u32)
      requires Counted()
      modifies `sndQueue, `nsndQue, `sndBuf, `nsndBuf, `sndNxt
      ensures Counted() && State() == FillWindow(old(State()), window)
    {
      hide TimeDiff, Add, FillWindow, State, Counted, FillOne;
      Fields();
      FillStep(State(), window);
      while TimeDiff(sndNxt, Add(sndUna, window)) < 0 && sndQueue != []
        invariant Counted() && FillWindow(State(), window) == FillWindow(old(State()), window)
        decreases |sndQueue|
      {
        Fields();
        FillStep(State(), window);
        MoveSegment();
      }
      Fields();
      FillStep(State(), window);
    }

    /** What the resend loop does with one segment: the segment after it, and why it is sent,
        if it is. */
    method Consider(seg: OutSeg, ghost f: Kcb) returns (s: OutSeg, why: Reason)
      requires f.cfg == cfg && f.current == current && f.rto == rto
      ensures why == WhySend(f, seg) && s == Resend(f, seg)
    {
      s := seg;
      why := Wait;
      if s.xmit == 0 {
        why := First;
        s := s.(xmit := Add(s.xmit, 1), rto := Wrap(rto));
        var rtoMin := if cfg.noDelay == 0 then Wrap(rto) / 8 else 0;
        s := s.(resendTs := Add(Add(current, s.rto), rtoMin));
      } else if TimeDiff(current, s.resendTs) >= 0 {
        why := Timeout;
        s := s.(xmit := Add(s.xmit, 1));
        if cfg.noDelay == 0 {
          s := s.(rto := Add(s.rto, Max(s.rto, Wrap(rto))));
        } else {
          var step: int := if cfg.noDelay < 2 then Signed(s.rto) else rto;
          s := s.(rto := Add(s.rto, Wrap(TruncDiv(step, 2))));
        }
        s := s.(resendTs := Add(current, s.rto));
      } else if s.fastAck >= Resent(cfg) {
        if Signed(s.xmit) <= cfg.fastLimit || cfg.fastLimit <= 0 {
          why := Fast;
          s := s.(xmit := Add(s.xmit, 1), fastAck := 0, resendTs := Add(current, s.rto));
        }
      }
      if why != Wait { s := s.(ts := current); }
    }

    /** One turn of the resend loop: the segment number i after it, why it is sent, and what
        has gone out. */
    method SendOne(wnd: u16, i: nat, out0: seq<seq<byte>>, buffer0: seq<byte>, ghost f: Kcb, ghost buf: seq<OutSeg>,
        ghost done: seq<WireSeg>)
      returns (s: OutSeg, why: Reason, out: seq<seq<byte>>, buffer: seq<byte>)
      requires f.cfg == cfg && f.current == current && f.rto == rto && f.rcvNxt == rcvNxt && WndUnused(f) == wnd
      requires i < |buf| == |sndBuf| && buf[i] == sndBuf[i]
      requires SmallFrgs(buf) && SmallFrgs(buf[..i]) && forall s <- buf :: |s.f.data| <= cfg.Mss()
      requires Packed(cfg, out0, buffer0, done + PushSegs(f, buf[..i]))
      ensures s == Resend(f, buf[i]) && why == WhySend(f, buf[i])
      ensures SmallFrgs(buf[..i + 1]) && Packed(cfg, out, buffer, done + PushSegs(f, buf[..i + 1]))
    {
      hide Packed, WhySend, Resend, PushSegs, CountTimeouts, AnyFast, AnyDead;
      ResendStep(f, buf, i, done);
      s, why := Consider(sndBuf[i], f);
      ResendKeeps(f, buf[i]);
      out, buffer := out0, buffer0;
      if why != Wait {
        out, buffer := Put(WireSeg(CMD_PUSH, s.f.frg, wnd, s.ts, s.sn, rcvNxt, s.f.data), out, buffer,
          done + PushSegs(f, buf[..i]));
      } else {
        assert done + PushSegs(f, buf[..i]) + [] == done + PushSegs(f, buf[..i]);
      }
    }

    /** The loop that sends the data segments, and how many were fast retransmissions and
        timeouts. */
    method ResendLoop(wnd: u16, out0: seq<seq<byte>>, buffer0: seq<byte>, ghost f: Kcb, ghost done: seq<WireSeg>)
      returns (out: seq<seq<byte>>, buffer: seq<byte>, change: bool, lost: bool)
      requires f.cfg == cfg && f.current == current && f.rto == rto && f.rcvNxt == rcvNxt && WndUnused(f) == wnd
      requires f.sndBuf == sndBuf && f.xmit == xmit && f.dead == dead
      requires SmallFrgs(f.sndBuf) && forall s <- f.sndBuf :: |s.f.data| <= cfg.Mss()
      requires Packed(cfg, out0, buffer0, done)
      modifies `sndBuf, `xmit, `dead
      ensures Packed(cfg, out, buffer, done + PushSegs(f, f.sndBuf))
      ensures (sndBuf, xmit, dead) == (SentOut(f).sndBuf, SentOut(f).xmit, SentOut(f).dead)
      ensures change == AnyFast(f, f.sndBuf) && lost == (CountTimeouts(f, f.sndBuf) > 0)
    {
      hide Packed, WhySend, Resend, Add, PushSegs, CountTimeouts, AnyFast, AnyDead;
      out, buffer, change, lost := out0, buffer0, false, false;
      ghost var buf := f.sndBuf;
      NothingResent(f, done);
      var i := 0;
      while i < |sndBuf|
        invariant 0 <= i <= |sndBuf| == |buf|
        invariant forall j | 0 <= j < i :: sndBuf[j] == Resend(f, buf[j])
        invariant forall j | i <= j < |buf| :: sndBuf[j] == buf[j]
        invariant SmallFrgs(buf[..i]) && Packed(cfg, out, buffer, done + PushSegs(f, buf[..i]))
        invariant xmit == Wrap(f.xmit + CountTimeouts(f, buf[..i])) && dead == (f.dead || AnyDead(f, buf[..i]))
        invariant change == AnyFast(f, buf[..i]) && lost == (CountTimeouts(f, buf[..i]) > 0)
      {
        CountStep(f, buf, i);
        ResendKeeps(f, buf[i]);
        var s, why;
        s, why, out, buffer := SendOne(wnd, i, out, buffer, f, buf, done);
        sndBuf := sndBuf[i := s];
        if why == Timeout {
          xmit := Add(xmit, 1);
          lost := true;
        }
        change := change || why == Fast;
        dead := dead || (why != Wait && s.xmit >= cfg.deadLink);
        i := i + 1;
      }
      assert buf[..i] == buf;
      assert sndBuf == ResendAll(f, buf);
    }

    /** ikcp_wnd_unused. */
    method UnusedWindow() returns (wnd: u16)
      requires Counted()
      ensures wnd == WndUnused(State())
    {
      wnd := if nrcvQue < cfg.rcvWnd then cfg.rcvWnd - nrcvQue else 0;
    }

    /** The window segments of a flush. */
    method FlushProbes(wnd: u16, last: Ack, out0: seq<seq<byte>>, buffer0: seq<byte>, ghost k: Kcb)
      returns (out: seq<seq<byte>>, buffer: seq<byte>)
      requires wnd == WndUnused(k) && rcvNxt == k.rcvNxt && askSend == Probe(k).askSend && askTell == k.askTell
      requires last == if k.ackList == [] then Ack(0, 0) else k.ackList[|k.ackList| - 1]
      requires Packed(cfg, out0, buffer0, AckSegs(k))
      ensures Packed(cfg, out, buffer, AckSegs(k) + ProbeSegs(k))
    {
      hide Packed, Probe, AckSegs;
      out, buffer := out0, buffer0;
      ghost var done := AckSegs(k);
      if askSend {
        out, buffer := Put(WireSeg(CMD_WASK, 0, wnd, last.ts, last.sn, rcvNxt, []), out, buffer, done);
        done := done + [Control(k, CMD_WASK, last.sn, last.ts)];
      }
      if askTell {
        out, buffer := Put(WireSeg(CMD_WINS, 0, wnd, last.ts, last.sn, rcvNxt, []), out, buffer, done);
        done := done + [Control(k, CMD_WINS, last.sn, last.ts)];
      }
      assert done == AckSegs(k) + ProbeSegs(k);
    }

    method ForgetAcksAndProbes()
      modifies `ackList, `askSend, `askTell
      ensures State() == old(State()).(ackList := [], askSend := false, askTell := false)
    {
      ackList := [];
      askSend, askTell := false, false;
    }

    /** The first half of ikcp_flush: acknowledgements, probes, filling the window. */
    method FlushControl(wnd: u16) returns (out: seq<seq<byte>>, buffer: seq<byte>)
      requires Counted() && wnd == WndUnused(State())
      modifies `ackList, `tsProbe, `probeWait, `askSend, `askTell, `sndQueue, `nsndQue, `sndBuf, `nsndBuf, `sndNxt
      ensures Counted() && State() == Filled(old(State()))
      ensures Packed(cfg, out, buffer, AckSegs(old(State())) + ProbeSegs(old(State())))
    {
      hide Packed, Probe, AckSegs, ProbeSegs, FillWindow, State, WndUnused;
      ghost var k := State();
      ProbeFrame(k);
      Fields();
      var last;
      out, buffer, last := FlushAcks(wnd);
      RunProbe();
      Fields();
      out, buffer := FlushProbes(wnd, last, out, buffer, k);
      ForgetAcksAndProbes();
      Fields();
      var window := Min(cfg.sndWnd, rmtWnd);
      if !cfg.noCwnd { window := Min(cwnd, window); }
      Fill(window);
    }

    /** The second half of ikcp_flush: the data segments. */
    method FlushData(wnd: u16, out0: seq<seq<byte>>, buffer0: seq<byte>, ghost done: seq<WireSeg>)
      returns (out: seq<seq<byte>>, change: bool, lost: bool)
      requires Counted() && wnd == WndUnused(State()) && Packed(cfg, out0, buffer0, done)
      requires SmallFrgs(sndBuf) && forall s <- sndBuf :: |s.f.data| <= cfg.Mss()
      modifies `sndBuf, `xmit, `dead
      ensures Counted() && State() == SentOut(old(State()))
      ensures AllSendable(done + PushSegs(old(State()), old(sndBuf)))
        && forall s <- done + PushSegs(old(State()), old(sndBuf)) :: SegSize(s) <= cfg.mtu
      ensures out == Datagrams(cfg.conv, cfg.mtu, done + PushSegs(old(State()), old(sndBuf)))
      ensures change == AnyFast(old(State()), old(sndBuf)) && lost == (CountTimeouts(old(State()), old(sndBuf)) > 0)
    {
      hide PushSegs, CountTimeouts, AnyFast, AnyDead, ResendAll, WndUnused, Datagrams, SegSize, Encodes;
      ghost var f := State();
      var buffer;
      out, buffer, change, lost := ResendLoop(wnd, out0, buffer0, f, done);
      PackedSent(cfg, out, buffer, done + PushSegs(f, f.sndBuf));
      out := Output(out, buffer);
    }

    /** The end of ikcp_flush. */
    method ReduceCwnd(prior: u32, change: bool, lost: bool)
      requires Counted()
      modifies `ssthresh, `cwnd, `incr
      ensures Counted() && State() == ShrinkCwnd(old(State()), prior, change, lost)
    {
      hide ShrinkCwnd;
      ShrinkCwndFrame(State(), prior, change, lost);
      SetCwnd(prior, change, lost);
    }

    method SetCwnd(prior: u32, change: bool, lost: bool)
      modifies `ssthresh, `cwnd, `incr
      ensures
        var k := ShrinkCwnd(old(State()), prior, change, lost);
        (ssthresh, cwnd, incr) == (k.ssthresh, k.cwnd, k.incr)
    {
      hide Wrap, Add, Max, Sub, Resent;
      var mss := cfg.Mss();
      if change {
        ssthresh := Max(Sub(sndNxt, sndUna) / 2, THRESH_MIN);
        cwnd := Add(ssthresh, Resent(cfg));
        incr := Wrap(cwnd * mss);
      }
      if lost {
        ssthresh := Max(prior / 2, THRESH_MIN);
        cwnd := 1;
        incr := mss;
      }
      if cwnd < 1 {
        cwnd := 1;
        incr := mss;
      }
    }

    /** ikcp_flush: what it sends, and the state it leaves. */
    method Flush() returns (out: seq<seq<byte>>)
      requires Valid()
      modifies this
      ensures Valid() && State() == Flushed(old(State())) && out == FlushOutput(old(State()))
    {
      hide EndpointOk, Advances, State;
      Fields();
      FlushedOk(State());
      if updated {
        out := FlushUpdated();
      } else {
        out := [];
      }
    }

    method FlushUpdated() returns (out: seq<seq<byte>>)
      requires Valid() && updated
      modifies this
      ensures Counted() && State() == Flushed(old(State())) && out == FlushOutput(old(State()))
    {
      hide EndpointOk, Packed, AckSegs, ProbeSegs, PushSegs, Filled, SentOut, WndUnused, ShrinkCwnd, AnyFast;
      hide CountTimeouts, State, Datagrams, SegSize, Flushed, FlushOutput, Counted, AllSendable, SmallFrgs;
      ghost var k := State();
      Fields();
      FilledFits(k);
      FlushParts(k);
      var prior := cwnd;
      var wnd := UnusedWindow();
      var buffer;
      out, buffer := FlushControl(wnd);
      Fields();
      var change, lost;
      out, change, lost := FlushData(wnd, out, buffer, AckSegs(k) + ProbeSegs(k));
      ReduceCwnd(prior, change, lost);
    }

    // ---- ikcp_update and ikcp_check ----

    /** The timer part of ikcp_update, and whether a flush is due. */
    method RunTimer(now: u32) returns (due: bool)
      modifies `current, `updated, `tsFlush
      ensures (State(), due) == Tick(old(State()), now)
    {
      hide Tick;
      TickFrame(State(), now);
      due := SetTimer(now);
    }

    method SetTimer(now: u32) returns (due: bool)
      modifies `current, `updated, `tsFlush
      ensures current == now && updated
      ensures (tsFlush, due) == (Tick(old(State()), now).0.tsFlush, Tick(old(State()), now).1)
    {
      hide Add, TimeDiff;
      current := now;
      if !updated {
        updated := true;
        tsFlush := current;
      }
      var slap := TimeDiff(current, tsFlush);
      if slap >= 10000 || slap < -10000 {
        tsFlush := current;
        slap := 0;
      }
      due := slap >= 0;
      if due {
        tsFlush := Add(tsFlush, cfg.interval);
        if TimeDiff(current, tsFlush) >= 0 {
          tsFlush := Add(current, cfg.interval);
        }
      }
    }

    method Update(now: u32) returns (out: seq<seq<byte>>)
      requires Valid()
      modifies this
      ensures Valid() && State() == Updated(old(State()), now)
      ensures
        var t := Tick(old(State()), now);
        EndpointOk(t.0) && out == if t.1 then FlushOutput(t.0) else []
    {
      hide EndpointOk, Flushed, Tick, FlushOutput, State;
      TickOk(State(), now);
      UpdatedOk(State(), now);
      var due := RunTimer(now);
      out := [];
      if due { out := Flush(); }
    }

    method Check(now: u32) returns (t: u32)
      requires Valid()
      ensures t == KcpEndpoint.Check(State(), now)
    {
      hide Add, TimeDiff, EndpointOk;
      if !updated { return now; }
      var flushAt := tsFlush;
      if TimeDiff(now, flushAt) >= 10000 || TimeDiff(now, flushAt) < -10000 { return now; }
      if TimeDiff(now, flushAt) >= 0 { return now; }
      var flush := TimeDiff(flushAt, now);
      TimeDiffFlips(flushAt, now);
      var packet := HALF - 1;
      var i := 0;
      while i < |sndBuf|
        invariant 0 <= i <= |sndBuf|
        invariant packet == NextResend(sndBuf[..i], now) > 0
      {
        var d := TimeDiff(sndBuf[i].resendTs, now);
        assert sndBuf[..i + 1][..i] == sndBuf[..i];
        if d <= 0 {
          NoneLeft(sndBuf, i + 1, now);
          return now;
        }
        if d < packet { packet := d; }
        i := i + 1;
      }
      assert sndBuf[..i] == sndBuf;
      var minimal := if packet < flush then packet else flush;
      if minimal >= cfg.interval { minimal := cfg.interval; }
      t := Add(now, minimal);
    }
  }

  /** One turn of the decoding loop. */
  lemma ParseStep(conv: u32, b: seq<byte>)
    ensures Parse(conv, b) ==
      if |b| < OVERHEAD then ([], 0)
      else if Get32(b[0..4]) != conv then ([], -1)
      else
        var len := Get32(b[20..24]);
        if |b| - OVERHEAD < len || len >= HALF then ([], -2)
        else if !KnownCmd(b[4]) then ([], -3)
        else
          var seg := WireSeg(b[4], b[5], Get16(b[6..8]), Get32(b[8..12]), Get32(b[12..16]), Get32(b[16..20]),
            b[24..24 + len]);
          var rest := Parse(conv, b[24 + len..]);
          ([seg] + rest.0, rest.1)
  {
    hide Get16, Get32;
  }

  lemma PushedState(k: Kcb, k': Kcb, w: WireSeg)
    requires w.cmd == CMD_PUSH
    requires k' == k.(ackList := k'.ackList, rcvNxt := k'.rcvNxt, rcvQueue := k'.rcvQueue, rcvBuf := k'.rcvBuf)
    requires TimeDiff(w.sn, Add(k.rcvNxt, k.cfg.rcvWnd)) >= 0 ==> k'.ackList == k.ackList && Inbox(k') == Inbox(k)
    requires TimeDiff(w.sn, Add(k.rcvNxt, k.cfg.rcvWnd)) < 0 ==>
      && k'.ackList == k.ackList + [Ack(w.sn, w.ts)]
      && Inbox(k') == AfterData(k.cfg.rcvWnd, Inbox(k), InSeg(w.sn, Frag(w.frg, w.data)))
    ensures k' == InputCmd(k, w)
  {
    hide TimeDiff, Add, MoveReady, Insert, Shrink, ParseAck, UpdateAck;
  }

  /** The datagrams sent and the bytes still in the buffer are the packing of what was put. */
  ghost predicate Packed(cfg: Config, out: seq<seq<byte>>, buffer: seq<byte>, done: seq<WireSeg>) {
    AllSendable(done) && (forall s <- done :: SegSize(s) <= cfg.mtu)
      && Encodes(cfg, out, buffer, Pack(SegSize, cfg.mtu, done))
  }

  ghost predicate Encodes(cfg: Config, out: seq<seq<byte>>, buffer: seq<byte>, p: Packing<WireSeg>) {
    && AllSendable(p.open) && (forall g <- p.full :: AllSendable(g))
    && out == EncodeGroups(cfg.conv, p.full) && buffer == EncodeAll(cfg.conv, p.open)
  }

  /** ikcp_output, which skips an empty buffer. */
  function Output(out: seq<seq<byte>>, buffer: seq<byte>): seq<seq<byte>> {
    if buffer == [] then out else out + [buffer]
  }

  lemma PackedEmpty(cfg: Config)
    ensures Packed(cfg, [], [], [])
  {
  }

  lemma OpenBytes(cfg: Config, open: seq<WireSeg>)
    requires AllSendable(open)
    ensures |EncodeAll(cfg.conv, open)| == TotalSize(SegSize, open)
    ensures EncodeAll(cfg.conv, open) == [] <==> open == []
  {
  }

  lemma EncodeAllSnoc(conv: u32, segs: seq<WireSeg>, w: WireSeg)
    requires AllSendable(segs) && Sendable(w)
    ensures AllSendable(segs + [w]) && EncodeAll(conv, segs + [w]) == EncodeAll(conv, segs) + EncodeSeg(conv, w)
  {
    assert (segs + [w])[..|segs|] == segs;
  }

  lemma EncodeGroupsSnoc(conv: u32, groups: seq<seq<WireSeg>>, g: seq<WireSeg>)
    requires AllSendable(g) && forall h <- groups :: AllSendable(h)
    ensures EncodeGroups(conv, groups + [g]) == EncodeGroups(conv, groups) + [EncodeAll(conv, g)]
  {
  }

  /** Putting one more segment in is the next step of the packing. */
  lemma PutPacked(cfg: Config, out: seq<seq<byte>>, buffer: seq<byte>, done: seq<WireSeg>, w: WireSeg)
    requires Packed(cfg, out, buffer, done) && Sendable(w) && SegSize(w) <= cfg.mtu
    ensures |buffer| + SegSize(w) > cfg.mtu
      ==> Packed(cfg, Output(out, buffer), [] + EncodeSeg(cfg.conv, w), done + [w])
    ensures |buffer| + SegSize(w) <= cfg.mtu ==> Packed(cfg, out, buffer + EncodeSeg(cfg.conv, w), done + [w])
  {
    assert (done + [w])[..|done|] == done;
    assert AllSendable(done + [w]) && forall s <- done + [w] :: SegSize(s) <= cfg.mtu;
    PutEncodes(cfg, out, buffer, Pack(SegSize, cfg.mtu, done), w);
    hide Encodes, PutItem;
  }

  lemma PutEncodes(cfg: Config, out: seq<seq<byte>>, buffer: seq<byte>, p: Packing<WireSeg>, w: WireSeg)
    requires Encodes(cfg, out, buffer, p) && Sendable(w) && SegSize(w) <= cfg.mtu
    ensures |buffer| + SegSize(w) > cfg.mtu
      ==> Encodes(cfg, Output(out, buffer), [] + EncodeSeg(cfg.conv, w), PutItem(SegSize, cfg.mtu, p, w))
    ensures |buffer| + SegSize(w) <= cfg.mtu
      ==> Encodes(cfg, out, buffer + EncodeSeg(cfg.conv, w), PutItem(SegSize, cfg.mtu, p, w))
  {
    hide EncodeSeg, SegSize, EncodeAll, EncodeGroups, TotalSize, Sendable;
    OpenBytes(cfg, p.open);
    if |buffer| + SegSize(w) > cfg.mtu {
      EncodeAllSnoc(cfg.conv, [], w);
      OpenBytes(cfg, []);
      assert [] + [w] == [w];
      EncodeGroupsSnoc(cfg.conv, p.full, p.open);
    } else {
      EncodeAllSnoc(cfg.conv, p.open, w);
    }
  }

  /** What has gone out once the buffer is flushed too. */
  lemma PackedSent(cfg: Config, out: seq<seq<byte>>, buffer: seq<byte>, done: seq<WireSeg>)
    requires Packed(cfg, out, buffer, done)
    ensures Datagrams(cfg.conv, cfg.mtu, done) == Output(out, buffer)
  {
    hide EncodeSeg, EncodeAll, TotalSize, SegSize;
    var p := Pack(SegSize, cfg.mtu, done);
    OpenBytes(cfg, p.open);
    EncodeGroupsSnoc(cfg.conv, p.full, p.open);
  }

  /** What one more segment adds to what a flush sends and counts. */
  lemma ResendStep(f: Kcb, buf: seq<OutSeg>, i: nat, done: seq<WireSeg>)
    requires i < |buf| && SmallFrgs(buf) && forall s <- buf :: |s.f.data| <= f.cfg.Mss()
    ensures
      var s := buf[i];
      && SmallFrgs(buf[..i]) && SmallFrgs(buf[..i + 1])
      && s.f.frg < 256 && Sendable(Push(f, s)) && SegSize(Push(f, s)) <= f.cfg.mtu
      && done + PushSegs(f, buf[..i + 1]) ==
        (done + PushSegs(f, buf[..i])) + (if WhySend(f, s).Wait? then [] else [Push(f, s)])
  {
    hide WhySend, Add;
    assert buf[i] in buf;
    assert buf[..i + 1][..i] == buf[..i];
    assert buf[..i + 1] == buf[..i] + [buf[i]];
  }

  /** What one more segment adds to the counts of a flush. */
  lemma CountStep(f: Kcb, buf: seq<OutSeg>, i: nat)
    requires i < |buf| && SmallFrgs(buf)
    ensures
      var s, t := buf[i], CountTimeouts(f, buf[..i + 1]);
      && t == CountTimeouts(f, buf[..i]) + (if WhySend(f, s).Timeout? then 1 else 0)
      && (WhySend(f, s).Timeout? ==> Wrap(f.xmit + t) == Add(Wrap(f.xmit + CountTimeouts(f, buf[..i])), 1))
      && AnyFast(f, buf[..i + 1]) == (AnyFast(f, buf[..i]) || WhySend(f, s).Fast?)
      && AnyDead(f, buf[..i + 1]) ==
        (AnyDead(f, buf[..i]) || (!WhySend(f, s).Wait? && Add(s.xmit, 1) >= f.cfg.deadLink))
  {
    hide WhySend, Add;
    assert buf[..i + 1][..i] == buf[..i];
    assert buf[..i + 1] == buf[..i] + [buf[i]];
    AddWrap(f.xmit + CountTimeouts(f, buf[..i]), 1);
  }

  lemma NothingResent(f: Kcb, done: seq<WireSeg>)
    ensures SmallFrgs(f.sndBuf[..0]) && done + PushSegs(f, f.sndBuf[..0]) == done
    ensures CountTimeouts(f, f.sndBuf[..0]) == 0 && !AnyFast(f, f.sndBuf[..0]) && !AnyDead(f, f.sndBuf[..0])
    ensures Wrap(f.xmit) == f.xmit
  {
  }

  /** What a resend leaves of a segment, and what it sends. */
  lemma ResendKeeps(f: Kcb, s: OutSeg)
    ensures
      var t := Resend(f, s);
      && t.sn == s.sn && t.f == s.f
      && (!WhySend(f, s).Wait? ==> t.xmit == Add(s.xmit, 1) && t.ts == f.current)
  {
    hide WhySend;
  }

  /** The filled window has the data and the advertised window of its endpoint. */
  lemma FilledFits(k: Kcb)
    requires EndpointOk(k)
    ensures SmallFrgs(Filled(k).sndBuf) && forall s <- Filled(k).sndBuf :: |s.f.data| <= k.cfg.Mss()
    ensures WndUnused(Filled(k)) == WndUnused(k) && Filled(k).cfg == k.cfg
  {
    hide WindowOk, InboxOk, KcpCongestion.Near, Filled;
    FilledOk(k);
  }

  lemma TimeDiffFlips(a: u32, b: u32)
    requires TimeDiff(b, a) >= -10000
    ensures TimeDiff(a, b) == -TimeDiff(b, a)
  {
  }

  /** Once a segment is due, the search of ikcp_check finds nothing later. */
  lemma {:induction false} NoneLeft(buf: seq<OutSeg>, i: nat, now: u32)
    requires i <= |buf| && NextResend(buf[..i], now) == 0
    ensures NextResend(buf, now) == 0
    decreases |buf| - i
  {
    if i == |buf| {
      assert buf[..i] == buf;
    } else {
      assert buf[..i + 1][..i] == buf[..i];
      NoneLeft(buf, i + 1, now);
    }
  }

  /** A flush, put together from its parts. */
  lemma FlushParts(k: Kcb)
    requires EndpointOk(k) && k.updated && SmallFrgs(Filled(k).sndBuf)
    ensures
      var f := Filled(k);
      var segs := AckSegs(k) + ProbeSegs(k) + PushSegs(f, f.sndBuf);
      && Flushed(k) == ShrinkCwnd(SentOut(f), k.cwnd, AnyFast(f, f.sndBuf), CountTimeouts(f, f.sndBuf) > 0)
      && AllSendable(segs) && (forall s <- segs :: SegSize(s) <= k.cfg.mtu)
      && FlushOutput(k) == Datagrams(k.cfg.conv, k.cfg.mtu, segs)
  {
    hide EndpointOk, AckSegs, ProbeSegs, PushSegs, Filled, SentOut, ShrinkCwnd, AnyFast, CountTimeouts, Datagrams,
      SegSize, SmallFrgs;
    FlushSegsFit(k);
  }

  lemma FillStep(k: Kcb, window: u32)
    ensures
      FillWindow(k, window) ==
      if Fillable(k, window) then
        FillWindow(FillOne(k), window)
      else k
  {
    hide TimeDiff, Add;
  }

  lemma InputCmdCases(k: Kcb, w: WireSeg)
    ensures w.cmd == CMD_ACK ==>
      InputCmd(k, w) == Shrink(ParseAck(
        if TimeDiff(k.current, w.ts) >= 0 then UpdateAck(k, TimeDiff(k.current, w.ts)) else k, w.sn))
    ensures w.cmd == CMD_WASK ==> InputCmd(k, w) == k.(askTell := true)
    ensures w.cmd !in [CMD_ACK, CMD_PUSH, CMD_WASK] ==> InputCmd(k, w) == k
  {
    hide Shrink, ParseAck, UpdateAck, TimeDiff, ParseData;
  }

  /** The search for a segment drops it, unless it meets a later one first. */
  lemma {:induction false} DropOneAt(buf: seq<OutSeg>, n: nat, sn: u32)
    requires n <= |buf| && forall j | 0 <= j < n :: buf[j].sn != sn && TimeDiff(sn, buf[j].sn) >= 0
    ensures n < |buf| && buf[n].sn == sn ==> DropOne(buf, sn) == buf[..n] + buf[n + 1..]
    ensures (n < |buf| ==> TimeDiff(sn, buf[n].sn) < 0) ==> DropOne(buf, sn) == buf
  {
    TimeDiffSelf(sn);
    hide TimeDiff;
    if n > 0 {
      DropOneAt(buf[1..], n - 1, sn);
      assert buf == [buf[0]] + buf[1..];
    }
  }

  /** Counting skipped segments changes those before the first numbered after sn. */
  lemma {:induction false} CountSkippedIs(buf: seq<OutSeg>, counted: seq<OutSeg>, n: nat, sn: u32, ts: u32)
    requires n <= |buf| == |counted|
    requires forall j | 0 <= j < n :: TimeDiff(sn, buf[j].sn) >= 0 && counted[j] == Skipped(buf[j], sn, ts)
    requires forall j | n <= j < |buf| :: counted[j] == buf[j]
    requires n < |buf| ==> TimeDiff(sn, buf[n].sn) < 0
    ensures counted == CountSkipped(buf, sn, ts)
  {
    hide TimeDiff, Skipped;
    if n > 0 {
      CountSkippedIs(buf[1..], counted[1..], n - 1, sn, ts);
      assert counted == [counted[0]] + counted[1..];
    }
  }

  /** The inbox after ikcp_parse_data. */
  function AfterData(wnd: u32, r: Incoming, seg: InSeg): Incoming {
    if TimeDiff(seg.sn, Add(r.rcvNxt, wnd)) >= 0 || TimeDiff(seg.sn, r.rcvNxt) < 0 then r
    else MoveReady(wnd, Incoming(r.rcvNxt, r.queue, Insert(r.buf, seg)))
  }

  lemma SmallRtt(k: Kcb, rtt: i32)
    ensures ToI32(TruncDiv(rtt, 2)) == TruncDiv(rtt, 2) && ToI32(rtt) == rtt && ToI32(1) == 1
    ensures ToI32(ToI32(TruncDiv(ToI32(3 * k.rttVal)
      + (if rtt - k.srtt < 0 then -(rtt - k.srtt) else rtt - k.srtt), 4)))
         == ToI32(TruncDiv(ToI32(3 * k.rttVal) + (if rtt - k.srtt < 0 then -(rtt - k.srtt) else rtt - k.srtt), 4))
    ensures ToI32(TruncDiv(ToI32(ToI32(7 * k.srtt) + rtt), 8)) == TruncDiv(ToI32(ToI32(7 * k.srtt) + rtt), 8)
  {
    I32Stays(TruncDiv(rtt, 2));
    I32Stays(rtt);
    I32Stays(1);
    I32Stays(ToI32(TruncDiv(ToI32(3 * k.rttVal) + (if rtt - k.srtt < 0 then -(rtt - k.srtt) else rtt - k.srtt), 4)));
    I32Stays(TruncDiv(ToI32(ToI32(7 * k.srtt) + rtt), 8));
  }

  /** A state that differs in the fields ikcp_recv sets is the state it specifies. */
  lemma TakenState(k: Kcb, k': Kcb, len: int)
    requires k.rcvQueue != [] && 0 <= KcpEndpoint.PeekSize(k.rcvQueue) <= (if len < 0 then -len else len)
    requires
      var q := if len < 0 then k.rcvQueue else k.rcvQueue[FirstRun(k.rcvQueue)..];
      Incoming(k'.rcvNxt, k'.rcvQueue, k'.rcvBuf) == MoveReady(k.cfg.rcvWnd, Incoming(k.rcvNxt, q, k.rcvBuf))
    requires k'.askTell == (k.askTell || (|k.rcvQueue| >= k.cfg.rcvWnd && |k'.rcvQueue| < k.cfg.rcvWnd))
    requires k' == k.(rcvNxt := k'.rcvNxt, rcvQueue := k'.rcvQueue, rcvBuf := k'.rcvBuf, askTell := k'.askTell)
    ensures KcpEndpoint.Recv(k, len) ==
      (k', |Joined(k.rcvQueue[..FirstRun(k.rcvQueue)])|, Joined(k.rcvQueue[..FirstRun(k.rcvQueue)]))
  {
    hide MoveReady, FirstRun, Joined, KcpEndpoint.PeekSize;
  }

  /** The ways ikcp_recv fails. */
  lemma RecvCases(k: Kcb, len: int)
    ensures k.rcvQueue == [] ==> KcpEndpoint.Recv(k, len) == (k, -1, [])
    ensures k.rcvQueue != [] && KcpEndpoint.PeekSize(k.rcvQueue) < 0 ==> KcpEndpoint.Recv(k, len) == (k, -2, [])
    ensures k.rcvQueue != [] && KcpEndpoint.PeekSize(k.rcvQueue) > (if len < 0 then -len else len)
      ==> KcpEndpoint.Recv(k, len) == (k, -3, [])
  {
    hide MoveReady, FirstRun, Joined, KcpEndpoint.PeekSize;
  }

  /** The first fragment of a run, and the rest of it. */
  lemma JoinedStep(q: seq<Frag>)
    requires q != []
    ensures Joined(q[..FirstRun(q)]) == q[0].data + (if q[0].frg == 0 then [] else Joined(q[1..][..FirstRun(q[1..])]))
  {
    var n := FirstRun(q);
    assert q[..n][1..] == q[1..][..n - 1];
    if q[0].frg == 0 {
      assert q[..1][1..] == [];
    }
  }
}
