/** What ikcp_send and ikcp_recv promise their callers, and how reading from a full queue makes the window
    known again. */
module KcpCalls {
  import opened Word32
  import opened Bytes
  import opened KcpWire
  import opened KcpEndpoint
  import opened KcpCongestion
  import opened KcpInvariant
  import opened KcpProgress
  import opened KcpReopen

  // ---- Sending ----

  /** As few pieces of at most mss bytes as it takes, but at least one. */
  lemma CountIsLeast(mss: nat, len: nat)
    requires 0 < mss
    ensures
      var n := FragmentCount(mss, len);
      0 < n && len <= n * mss && (n > 1 ==> (n - 1) * mss < len)
  {
    CountCovers(mss, len);
    if len > mss {
      var x := len + mss - 1;
      assert x == mss * (x / mss) + x % mss;
      Products(x / mss, mss);
    }
  }

  /** ikcp_send takes every message of up to 127 full segments, and refuses every longer one without
      touching anything. What it takes goes behind what is queued, in as few fragments as possible. */
  lemma SendExactly(k: Kcb, msg: seq<byte>)
    ensures
      var (k', rc) := Send(k, msg);
      var mss, n := k.cfg.Mss(), |k'.sndQueue| - |k.sndQueue|;
      if |msg| <= 127 * mss then
        && rc == |msg| && k' == k.(sndQueue := k'.sndQueue) && k.sndQueue <= k'.sndQueue
        && 0 < n <= 127 && |msg| <= n * mss && (n > 1 ==> (n - 1) * mss < |msg|)
        && Joined(k'.sndQueue[|k.sndQueue|..]) == msg
      else rc == -2 && k' == k
  {
    var mss := k.cfg.Mss();
    CountIsLeast(mss, |msg|);
    FragmentsOk(mss, msg);
    var n := FragmentCount(mss, |msg|);
    if n <= 127 { MulMono(n, 127, mss); } else { MulMono(127, n - 1, mss); }
    hide FragmentCount, Fragments, Joined;
    var fs := Fragments(mss, msg);
    assert (k.sndQueue + fs)[|k.sndQueue|..] == fs;
  }

  // ---- Receiving ----

  /** When ikcp_recv returns which code: nothing queued, a message not all there, one that does not fit the
      buffer. Then nothing changes. Otherwise it returns the size of the message; and a negative size only
      looks at it. */
  lemma RecvExactly(k: Kcb, len: int)
    ensures
      var (k', rc, data) := Recv(k, len);
      var q, peek, cap := k.rcvQueue, PeekSize(k.rcvQueue), if len < 0 then -len else len;
      && (rc == -1 <==> q == [])
      && (rc == -2 <==> q != [] && peek < 0)
      && (rc == -3 <==> q != [] && peek > cap)
      && (rc < 0 ==> rc >= -3 && k' == k && data == [])
      && (rc >= 0 ==> rc == peek == |data| <= cap && (len < 0 ==> q <= k'.rcvQueue))
  {
    PeekIsSize(k.rcvQueue);
    MoveReadyKeeps(k.cfg.rcvWnd, Incoming(k.rcvNxt, k.rcvQueue, k.rcvBuf));
    hide PeekSize, FirstRun, Joined, MoveReady;
  }

  lemma PeekIsSize(q: seq<Frag>)
    ensures PeekSize(q) >= 0 ==> PeekSize(q) == |Joined(q[..FirstRun(q)])|
    ensures q != [] ==> PeekSize(q) >= -1
  {
    if q != [] && q[0].frg == 0 {
      assert q[..1] == [q[0]] && q[..1][1..] == [];
      assert Joined(q[..1]) == q[0].data + Joined([]);
    }
  }

  lemma {:induction false} MoveReadyKeeps(wnd: nat, r: Incoming)
    ensures r.queue <= MoveReady(wnd, r).queue
    decreases |r.buf|
  {
    if r.buf != [] && r.buf[0].sn == r.rcvNxt && |r.queue| < wnd {
      MoveReadyKeeps(wnd, Incoming(Add(r.rcvNxt, 1), r.queue + [r.buf[0].f], r.buf[1..]));
    }
  }

  /** Reading what makes room in a full queue, and only that, makes a receive announce the window. */
  lemma RecvTells(k: Kcb, len: int)
    ensures
      var (k', rc, data) := Recv(k, len);
      k'.askTell <==> k.askTell || (rc >= 0 && |k.rcvQueue| >= k.cfg.rcvWnd && |k'.rcvQueue| < k.cfg.rcvWnd)
  {
    hide PeekSize, FirstRun, Joined, MoveReady;
  }

  /** So after reading from a full queue the next flush, delivered, leaves the peer with exactly the room there
      is now; it need not ask. */
  lemma ReadingReopens(k: Kcb, len: int, peer: Kcb)
    requires EndpointOk(k) && EndpointOk(peer) && peer.cfg.conv == k.cfg.conv && k.updated
    requires |k.rcvQueue| >= k.cfg.rcvWnd && Recv(k, len).1 >= 0
    ensures
      var k' := Recv(k, len).0;
      && EndpointOk(k')
      && (|k'.rcvQueue| < k.cfg.rcvWnd ==>
        InputAll(peer, FlushOutput(k')).rmtWnd == k.cfg.rcvWnd - |k'.rcvQueue| > 0)
  {
    hide EndpointOk, FlushOutput, InputAll, Recv, Parse, FlushSegs;
    RecvOk(k, len);
    RecvTells(k, len);
    RecvCfg(k, len);
    var k' := Recv(k, len).0;
    if |k'.rcvQueue| < k.cfg.rcvWnd {
      Answers(k');
      OutputAnnounces(k');
      FlushOutputDecodes(k');
      AllSetWindow(peer, k.cfg.conv, FlushOutput(k'), WndUnused(k'));
    }
  }

  lemma RecvCfg(k: Kcb, len: int)
    ensures Recv(k, len).0.cfg == k.cfg && Recv(k, len).0.updated == k.updated
  {
    hide PeekSize, FirstRun, Joined, MoveReady;
  }

  // ---- Malformed datagrams ----

  /** The segments in front of a malformed one have their full effect, and nothing else has any; less than a
      header does nothing. */
  lemma MalformedTail(k: Kcb, segs: seq<WireSeg>, bad: seq<byte>, rc: int)
    requires AllSendable(segs) && |bad| >= OVERHEAD && Stops(k.cfg.conv, bad, rc)
    ensures rc < 0 && Input(k, EncodeAll(k.cfg.conv, segs) + bad) == (InputSegs(k, segs), rc)
  {
    hide InputSegs, TrackAll, EncodeAll;
    StopsParse(k.cfg.conv, bad, rc);
    ParsePrefix(k.cfg.conv, segs, bad);
    assert segs + [] == segs;
    hide Parse;
  }

  lemma StopsParse(conv: u32, bad: seq<byte>, rc: int)
    requires |bad| >= OVERHEAD && Stops(conv, bad, rc)
    ensures Parse(conv, bad) == ([], rc) && rc < 0
  {
    ConvIs(conv, bad);
    hide Get32, Get16, Put32;
  }
}
