/** What one KCP endpoint does, as functions on its state. Every function here specifies
    one function of ikcp.c; the class in KcpCore runs them in place, and the other KCP
    modules prove what they promise. */
module KcpEndpoint {
  import opened Word32
  import opened KcpWire

  const RTO_DEF: i32 := 200
  const RTO_MAX: u32 := 60000
  const WND_FRAGMENTS: nat := 128   // IKCP_WND_RCV, also the bound on fragments per message
  const PROBE_INIT: u32 := 5000
  const PROBE_LIMIT: u32 := 120000
  const THRESH_INIT: u32 := 2
  const THRESH_MIN: u32 := 2

  /** What is set once, when the connection is opened. */
  datatype Settings = Settings(
    conv: u32, mtu: u32, sndWnd: u32, rcvWnd: u32,
    interval: u32, noDelay: u32, fastResend: u32, fastLimit: i32, noCwnd: bool, minRto: u32, deadLink: u32)
  {
    function Mss(): nat
      requires Valid()
    {
      mtu - OVERHEAD
    }

    /** The ranges ikcp_setmtu, ikcp_wndsize, ikcp_interval and ikcp_nodelay leave; the
        upper bounds are those of a UDP datagram, of the 16-bit window field and of the
        resend count. */
    predicate Valid() {
      && 50 <= mtu < 0x1_0000
      && 0 < sndWnd < 0x1_0000
      && WND_FRAGMENTS <= rcvWnd < 0x1_0000
      && 10 <= interval <= 5000
      && fastResend < 0x8000
      && 30 <= minRto <= 100
    }
  }

  type Config = s: Settings | s.Valid()
    witness Settings(1, 1400, 32, 128, 100, 0, 0, 5, false, 100, 20)

  /** One fragment of a message: how many fragments of it follow, and its bytes. */
  datatype Frag = Frag(frg: nat, data: seq<byte>)

  /** A segment waiting for its acknowledgement. */
  datatype OutSeg = OutSeg(sn: u32, f: Frag, ts: u32, resendTs: u32, rto: u32, fastAck: u32, xmit: u32)

  /** A segment received ahead of its turn. */
  datatype InSeg = InSeg(sn: u32, f: Frag)

  datatype Ack = Ack(sn: u32, ts: u32)

  /** The fields of ikcpcb that change. The four counters are the lengths of the queues. */
  datatype Kcb = Kcb(
    cfg: Config,
    sndUna: u32, sndNxt: u32, rcvNxt: u32,
    ssthresh: u32, cwnd: u32, incr: u32, rmtWnd: u32,
    rttVal: i32, srtt: i32, rto: i32,
    current: u32, tsFlush: u32, updated: bool,
    tsProbe: u32, probeWait: u32, askSend: bool, askTell: bool,
    xmit: u32, dead: bool,
    sndQueue: seq<Frag>, sndBuf: seq<OutSeg>, rcvQueue: seq<Frag>, rcvBuf: seq<InSeg>,
    ackList: seq<Ack>)

  function Created(cfg: Config): Kcb {
    Kcb(cfg, 0, 0, 0, THRESH_INIT, 0, 0, WND_FRAGMENTS, 0, 0, RTO_DEF, 0, 100, false,
        0, 0, false, false, 0, false, [], [], [], [], [])
  }

  // ---- ikcp_send ----

  function FragmentCount(mss: nat, len: nat): nat
    requires 0 < mss
  {
    if len <= mss then 1 else (len + mss - 1) / mss
  }

  /** The fragments from number i on of a message cut into `count` pieces. */
  function FragmentsFrom(mss: nat, msg: seq<byte>, count: nat): seq<Frag>
    requires 0 < mss
    decreases count
  {
    if count == 0 then []
    else
      var size := if |msg| > mss then mss else |msg|;
      [Frag(count - 1, msg[..size])] + FragmentsFrom(mss, msg[size..], count - 1)
  }

  function Fragments(mss: nat, msg: seq<byte>): seq<Frag>
    requires 0 < mss
  {
    FragmentsFrom(mss, msg, FragmentCount(mss, |msg|))
  }

  /** True when ikcp_send takes the message rather than returning -2. */
  predicate Accepts(cfg: Config, msg: seq<byte>)
  {
    FragmentCount(cfg.Mss(), |msg|) < WND_FRAGMENTS
  }

  function Send(k: Kcb, msg: seq<byte>): (r: (Kcb, int)) {
    if !Accepts(k.cfg, msg) then (k, -2)
    else (k.(sndQueue := k.sndQueue + Fragments(k.cfg.Mss(), msg)), |msg|)
  }

  // ---- ikcp_peeksize and ikcp_recv ----

  /** The fragments up to and including the first whose number is 0, or all of them. */
  function FirstRun(q: seq<Frag>): (n: nat)
    ensures n <= |q|
    ensures q != [] ==> 0 < n
  {
    if q == [] then 0 else if q[0].frg == 0 then 1 else 1 + FirstRun(q[1..])
  }

  function Joined(q: seq<Frag>): seq<byte> {
    if q == [] then [] else q[0].data + Joined(q[1..])
  }

  function PeekSize(q: seq<Frag>): int {
    if q == [] then -1
    else if q[0].frg == 0 then |q[0].data|
    else if |q| < q[0].frg + 1 then -1
    else |Joined(q[..FirstRun(q)])|
  }

  datatype Incoming = Incoming(rcvNxt: u32, queue: seq<Frag>, buf: seq<InSeg>)

  /** Moves what is next in sequence from the reorder buffer to the receive queue while the
      queue has room. */
  function MoveReady(rcvWnd: nat, r: Incoming): Incoming
    decreases |r.buf|
  {
    if r.buf != [] && r.buf[0].sn == r.rcvNxt && |r.queue| < rcvWnd then
      MoveReady(rcvWnd, Incoming(Add(r.rcvNxt, 1), r.queue + [r.buf[0].f], r.buf[1..]))
    else r
  }

  function Inbox(k: Kcb): Incoming {
    Incoming(k.rcvNxt, k.rcvQueue, k.rcvBuf)
  }

  function WithInbox(k: Kcb, r: Incoming): Kcb {
    k.(rcvNxt := r.rcvNxt, rcvQueue := r.queue, rcvBuf := r.buf)
  }

  /** ikcp_recv into a buffer of |len| bytes; a negative len only peeks. Returns the code
      and the bytes written. */
  function Recv(k: Kcb, len: int): (r: (Kcb, int, seq<byte>)) {
    var cap := if len < 0 then -len else len;
    var peek := PeekSize(k.rcvQueue);
    if k.rcvQueue == [] then (k, -1, [])
    else if peek < 0 then (k, -2, [])
    else if peek > cap then (k, -3, [])
    else
      var n := FirstRun(k.rcvQueue);
      var data := Joined(k.rcvQueue[..n]);
      var rest := if len < 0 then k.rcvQueue else k.rcvQueue[n..];
      var r := MoveReady(k.cfg.rcvWnd, Incoming(k.rcvNxt, rest, k.rcvBuf));
      var recover := |k.rcvQueue| >= k.cfg.rcvWnd && |r.queue| < k.cfg.rcvWnd;
      (WithInbox(k, r).(askTell := k.askTell || recover), |data|, data)
  }

  // ---- ikcp_input ----

  function TruncDiv(a: int, b: int): int
    requires 0 < b
  {
    if a >= 0 then a / b else -(-a / b)
  }

  function ToI32(x: int): i32 {
    Signed(Wrap(x))
  }

  lemma I32Stays(x: int)
    requires -HALF <= x < HALF
    ensures ToI32(x) == x
  {
  }

  function Min(a: u32, b: u32): u32 { if a <= b then a else b }

  function Max(a: u32, b: u32): u32 { if a >= b then a else b }

  /** The variation of the round trip time after a sample. */
  function NewRttVal(k: Kcb, rtt: i32): i32 {
    var delta := if rtt - k.srtt < 0 then k.srtt - rtt else rtt - k.srtt;
    if k.srtt == 0 then TruncDiv(rtt, 2) else ToI32(TruncDiv(ToI32(3 * k.rttVal) + delta, 4))
  }

  /** The smoothed round trip time after a sample. */
  function NewSrtt(k: Kcb, rtt: i32): i32 {
    var smooth := if k.srtt == 0 then rtt else TruncDiv(ToI32(ToI32(7 * k.srtt) + rtt), 8);
    if k.srtt != 0 && smooth < 1 then 1 else smooth
  }

  /** ikcp_update_ack: the smoothed round trip time and the retransmission timeout. */
  function UpdateAck(k: Kcb, rtt: i32): Kcb {
    var rttVal, srtt := NewRttVal(k, rtt), NewSrtt(k, rtt);
    var rto := Add(Wrap(srtt), Max(k.cfg.interval, Wrap(4 * rttVal)));
    k.(rttVal := rttVal, srtt := srtt, rto := ToI32(Min(Max(k.cfg.minRto, rto), RTO_MAX)))
  }

  /** ikcp_parse_una: drops the segments before the peer's next expected number. */
  function DropBefore(buf: seq<OutSeg>, una: u32): seq<OutSeg> {
    if buf != [] && TimeDiff(una, buf[0].sn) > 0 then DropBefore(buf[1..], una) else buf
  }

  /** The search of ikcp_parse_ack: drops the segment numbered sn. */
  function DropOne(buf: seq<OutSeg>, sn: u32): seq<OutSeg> {
    if buf == [] then []
    else if buf[0].sn == sn then buf[1..]
    else if TimeDiff(sn, buf[0].sn) < 0 then buf
    else [buf[0]] + DropOne(buf[1..], sn)
  }

  function ParseAck(k: Kcb, sn: u32): Kcb {
    if TimeDiff(sn, k.sndUna) < 0 || TimeDiff(sn, k.sndNxt) >= 0 then k
    else k.(sndBuf := DropOne(k.sndBuf, sn))
  }

  /** ikcp_shrink_buf. */
  function Shrink(k: Kcb): Kcb {
    k.(sndUna := if k.sndBuf == [] then k.sndNxt else k.sndBuf[0].sn)
  }

  /** A waiting segment when one other than it, sent at ts, was acknowledged. */
  function Skipped(s: OutSeg, sn: u32, ts: u32): OutSeg {
    if sn != s.sn && TimeDiff(ts, s.ts) >= 0 then s.(fastAck := Add(s.fastAck, 1)) else s
  }

  /** ikcp_parse_fastack: counts, per waiting segment, acknowledgements of later ones. */
  function CountSkipped(buf: seq<OutSeg>, sn: u32, ts: u32): (r: seq<OutSeg>)
    ensures |r| == |buf|
  {
    if buf == [] || TimeDiff(sn, buf[0].sn) < 0 then buf
    else [Skipped(buf[0], sn, ts)] + CountSkipped(buf[1..], sn, ts)
  }

  function ParseFastAck(k: Kcb, sn: u32, ts: u32): Kcb {
    if TimeDiff(sn, k.sndUna) < 0 || TimeDiff(sn, k.sndNxt) >= 0 then k
    else k.(sndBuf := CountSkipped(k.sndBuf, sn, ts))
  }

  /** Where the search of ikcp_parse_data, from the back, stops: just behind the last segment
      not numbered after sn. */
  function InsertAt(buf: seq<InSeg>, sn: u32): (p: nat)
    ensures p <= |buf|
  {
    if buf == [] then 0
    else
      var last := buf[|buf| - 1];
      if last.sn == sn || TimeDiff(sn, last.sn) > 0 then |buf| else InsertAt(buf[..|buf| - 1], sn)
  }

  function Insert(buf: seq<InSeg>, s: InSeg): seq<InSeg> {
    var p := InsertAt(buf, s.sn);
    if p > 0 && buf[p - 1].sn == s.sn then buf else buf[..p] + [s] + buf[p..]
  }

  /** ikcp_parse_data. */
  function ParseData(k: Kcb, s: InSeg): Kcb {
    if TimeDiff(s.sn, Add(k.rcvNxt, k.cfg.rcvWnd)) >= 0 || TimeDiff(s.sn, k.rcvNxt) < 0 then k
    else WithInbox(k, MoveReady(k.cfg.rcvWnd, Incoming(k.rcvNxt, k.rcvQueue, Insert(k.rcvBuf, s))))
  }

  /** The part of ikcp_input that depends on the command of one segment. */
  function InputCmd(k: Kcb, w: WireSeg): Kcb {
    if w.cmd == CMD_ACK then
      var rtt := TimeDiff(k.current, w.ts);
      Shrink(ParseAck(if rtt >= 0 then UpdateAck(k, rtt) else k, w.sn))
    else if w.cmd == CMD_PUSH then
      if TimeDiff(w.sn, Add(k.rcvNxt, k.cfg.rcvWnd)) < 0 then
        var k1 := k.(ackList := k.ackList + [Ack(w.sn, w.ts)]);
        if TimeDiff(w.sn, k.rcvNxt) >= 0 then ParseData(k1, InSeg(w.sn, Frag(w.frg, w.data))) else k1
      else k
    else if w.cmd == CMD_WASK then k.(askTell := true)
    else k
  }

  /** What ikcp_input does with one segment. */
  function InputSeg(k: Kcb, w: WireSeg): Kcb {
    InputCmd(Shrink(k.(rmtWnd := w.wnd, sndBuf := DropBefore(k.sndBuf, w.una))), w)
  }

  function InputSegs(k: Kcb, segs: seq<WireSeg>): Kcb
    decreases |segs|
  {
    if segs == [] then k else InputSeg(InputSegs(k, segs[..|segs| - 1]), segs[|segs| - 1])
  }

  /** The newest acknowledgement of a datagram, as ikcp_input tracks it. */
  datatype Newest = NoAck | Newest(sn: u32, ts: u32)

  function Track(n: Newest, w: WireSeg): Newest {
    if w.cmd != CMD_ACK then n
    else if n.NoAck? || (TimeDiff(w.sn, n.sn) > 0 && TimeDiff(w.ts, n.ts) > 0) then Newest(w.sn, w.ts)
    else n
  }

  function TrackAll(segs: seq<WireSeg>): Newest
    decreases |segs|
  {
    if segs == [] then NoAck else Track(TrackAll(segs[..|segs| - 1]), segs[|segs| - 1])
  }

  /** The growth of the congestion window, and of its count in bytes, after new data was
      acknowledged. */
  function GrowWindow(cwnd: u32, incr: u32, thresh: u32, rmtWnd: u32, mss: nat): (r: (u32, u32))
    requires 0 < mss
  {
    if cwnd >= rmtWnd then (cwnd, incr)
    else
      var (c, i) :=
        if cwnd < thresh then (Add(cwnd, 1), Wrap(incr + mss))
        else
          var base := if incr < mss then mss else incr;
          var i := Wrap(base + mss * mss / base + mss / 16);
          (if Wrap((cwnd + 1) * mss) <= i then Wrap(Wrap(i + mss - 1) / mss) else cwnd, i);
      if c > rmtWnd then (rmtWnd, Wrap(rmtWnd * mss)) else (c, i)
  }

  function GrowCwnd(k: Kcb): Kcb {
    var (c, i) := GrowWindow(k.cwnd, k.incr, k.ssthresh, k.rmtWnd, k.cfg.Mss());
    k.(cwnd := c, incr := i)
  }

  /** ikcp_input on the bytes of one datagram: the new state and the return code. */
  function Input(k: Kcb, b: seq<byte>): (r: (Kcb, int)) {
    if |b| < OVERHEAD then (k, -1)
    else
      var (segs, rc) := Parse(k.cfg.conv, b);
      var k1 := InputSegs(k, segs);
      if rc != 0 then (k1, rc) else (AfterInput(k, k1, TrackAll(segs)), 0)
  }

  /** The end of ikcp_input: counts skipped segments and lets the window grow if snd_una moved. */
  function AfterInput(before: Kcb, k: Kcb, newest: Newest): Kcb {
    var k1 := if newest.NoAck? then k else ParseFastAck(k, newest.sn, newest.ts);
    if TimeDiff(k1.sndUna, before.sndUna) > 0 then GrowCwnd(k1) else k1
  }

  // ---- ikcp_flush ----

  /** ikcp_wnd_unused, as it is stored in the 16-bit window field. */
  function WndUnused(k: Kcb): u16 {
    if |k.rcvQueue| < k.cfg.rcvWnd then k.cfg.rcvWnd - |k.rcvQueue| else 0
  }

  function Control(k: Kcb, cmd: byte, sn: u32, ts: u32): WireSeg {
    WireSeg(cmd, 0, WndUnused(k), ts, sn, k.rcvNxt, [])
  }

  /** The acknowledgements a flush sends, one segment each. */
  function AckSegs(k: Kcb): (r: seq<WireSeg>)
    ensures |r| == |k.ackList|
  {
    seq(|k.ackList|, i requires 0 <= i < |k.ackList| => Control(k, CMD_ACK, k.ackList[i].sn, k.ackList[i].ts))
  }

  /** The probe timer, which runs while the peer's window is closed. */
  function Probe(k: Kcb): Kcb {
    if k.rmtWnd != 0 then k.(tsProbe := 0, probeWait := 0)
    else if k.probeWait == 0 then k.(probeWait := PROBE_INIT, tsProbe := Add(k.current, PROBE_INIT))
    else if TimeDiff(k.current, k.tsProbe) >= 0 then
      var w := if k.probeWait < PROBE_INIT then PROBE_INIT else k.probeWait;
      var wait := Min(Wrap(w + w / 2), PROBE_LIMIT);
      k.(probeWait := wait, tsProbe := Add(k.current, wait), askSend := true)
    else k
  }

  /** The window segments of a flush; sn and ts are left over from the last acknowledgement. */
  function ProbeSegs(k: Kcb): seq<WireSeg> {
    var n := |k.ackList|;
    var last := if n == 0 then Ack(0, 0) else k.ackList[n - 1];
    (if Probe(k).askSend then [Control(k, CMD_WASK, last.sn, last.ts)] else []) +
    (if k.askTell then [Control(k, CMD_WINS, last.sn, last.ts)] else [])
  }

  function SendWindow(k: Kcb): u32 {
    var w := Min(k.cfg.sndWnd, k.rmtWnd);
    if k.cfg.noCwnd then w else Min(k.cwnd, w)
  }

  function NewOut(k: Kcb): OutSeg
    requires k.sndQueue != []
  {
    OutSeg(k.sndNxt, k.sndQueue[0], k.current, k.current, Wrap(k.rto), 0, 0)
  }

  /** One round of the loop that fills the window. */
  function FillOne(k: Kcb): Kcb
    requires k.sndQueue != []
  {
    k.(sndBuf := k.sndBuf + [NewOut(k)], sndQueue := k.sndQueue[1..], sndNxt := Add(k.sndNxt, 1))
  }

  predicate Fillable(k: Kcb, cwnd: u32) {
    TimeDiff(k.sndNxt, Add(k.sndUna, cwnd)) < 0 && k.sndQueue != []
  }

  /** Moves fragments from snd_queue into the window, numbering them. */
  function FillWindow(k: Kcb, cwnd: u32): Kcb
    decreases |k.sndQueue|
  {
    if Fillable(k, cwnd) then FillWindow(FillOne(k), cwnd) else k
  }

  /** Why a flush sends a segment: the first time, on timeout, or because later ones were
      acknowledged often enough. */
  datatype Reason = First | Timeout | Fast | Wait

  function Resent(cfg: Config): u32 {
    if cfg.fastResend > 0 then cfg.fastResend else 0xffff_ffff
  }

  function WhySend(k: Kcb, s: OutSeg): Reason {
    if s.xmit == 0 then First
    else if TimeDiff(k.current, s.resendTs) >= 0 then Timeout
    else if s.fastAck >= Resent(k.cfg) && (Signed(s.xmit) <= k.cfg.fastLimit || k.cfg.fastLimit <= 0) then Fast
    else Wait
  }

  /** A segment after a flush has looked at it. */
  function Resend(k: Kcb, s: OutSeg): OutSeg {
    var t := s.(xmit := Add(s.xmit, 1), ts := k.current);
    match WhySend(k, s)
    case First =>
      var extra := if k.cfg.noDelay == 0 then Wrap(k.rto) / 8 else 0;
      t.(rto := Wrap(k.rto), resendTs := Add(Add(k.current, Wrap(k.rto)), extra))
    case Timeout =>
      var step := if k.cfg.noDelay == 0 then Max(s.rto, Wrap(k.rto))
                  else Wrap(TruncDiv(if k.cfg.noDelay < 2 then Signed(s.rto) else k.rto, 2));
      t.(rto := Add(s.rto, step), resendTs := Add(k.current, Add(s.rto, step)))
    case Fast => t.(fastAck := 0, resendTs := Add(k.current, s.rto))
    case Wait => s
  }

  function Push(k: Kcb, s: OutSeg): WireSeg
    requires s.f.frg < 256
  {
    WireSeg(CMD_PUSH, s.f.frg, WndUnused(k), k.current, s.sn, k.rcvNxt, s.f.data)
  }

  /** The segments of the window, each as a flush leaves it. */
  function ResendAll(k: Kcb, buf: seq<OutSeg>): (r: seq<OutSeg>)
    ensures |r| == |buf|
  {
    seq(|buf|, i requires 0 <= i < |buf| => Resend(k, buf[i]))
  }

  predicate SmallFrgs(buf: seq<OutSeg>) {
    forall s <- buf :: s.f.frg < 256
  }

  /** The data segments a flush sends. */
  function PushSegs(k: Kcb, buf: seq<OutSeg>): seq<WireSeg>
    requires SmallFrgs(buf)
    decreases |buf|
  {
    if buf == [] then []
    else
      var n := |buf| - 1;
      assert buf[n] in buf;
      PushSegs(k, buf[..n]) + (if WhySend(k, buf[n]).Wait? then [] else [Push(k, buf[n])])
  }

  function CountTimeouts(k: Kcb, buf: seq<OutSeg>): nat
    decreases |buf|
  {
    if buf == [] then 0
    else CountTimeouts(k, buf[..|buf| - 1]) + (if WhySend(k, buf[|buf| - 1]).Timeout? then 1 else 0)
  }

  predicate AnyFast(k: Kcb, buf: seq<OutSeg>) {
    exists s <- buf :: WhySend(k, s).Fast?
  }

  predicate AnyDead(k: Kcb, buf: seq<OutSeg>) {
    exists s <- buf :: !WhySend(k, s).Wait? && Add(s.xmit, 1) >= k.cfg.deadLink
  }

  /** The congestion window after a flush: what loss and fast retransmission do to it. */
  function ShrinkCwnd(k: Kcb, priorCwnd: u32, fast: bool, lost: bool): Kcb {
    var mss := k.cfg.Mss();
    var k1 :=
      if !fast then k
      else
        var thresh := Max(Sub(k.sndNxt, k.sndUna) / 2, THRESH_MIN);
        var cwnd := Add(thresh, Resent(k.cfg));
        k.(ssthresh := thresh, cwnd := cwnd, incr := Wrap(cwnd * mss));
    var k2 := if !lost then k1 else k1.(ssthresh := Max(priorCwnd / 2, THRESH_MIN), cwnd := 1, incr := mss);
    if k2.cwnd < 1 then k2.(cwnd := 1, incr := mss) else k2
  }

  /** The state in which a flush looks at the window: acknowledgements and probes are out,
      and the window is filled. */
  function Filled(k: Kcb): Kcb {
    FillWindow(Probe(k).(ackList := [], askSend := false, askTell := false), SendWindow(k))
  }

  /** Everything a flush sends, in order. */
  function FlushSegs(k: Kcb): seq<WireSeg>
    requires SmallFrgs(Filled(k).sndBuf)
  {
    AckSegs(k) + ProbeSegs(k) + PushSegs(Filled(k), Filled(k).sndBuf)
  }

  /** The window after its segments were sent, and the counters of what was sent. */
  function SentOut(k: Kcb): Kcb {
    k.(sndBuf := ResendAll(k, k.sndBuf),
       xmit := Wrap(k.xmit + CountTimeouts(k, k.sndBuf)),
       dead := k.dead || AnyDead(k, k.sndBuf))
  }

  /** The state after ikcp_flush. */
  function Flushed(k: Kcb): Kcb {
    if !k.updated then k
    else
      var f := Filled(k);
      ShrinkCwnd(SentOut(f), k.cwnd, AnyFast(f, f.sndBuf), CountTimeouts(f, f.sndBuf) > 0)
  }

  /** A state whose flushes stay inside the buffer: fragment numbers fit their byte and
      fragments fit the mtu. */
  predicate Packable(cfg: Config, buf: seq<OutSeg>, queue: seq<Frag>) {
    && (forall s <- buf :: s.f.frg < WND_FRAGMENTS && |s.f.data| <= cfg.Mss())
    && (forall f <- queue :: f.frg < WND_FRAGMENTS && |f.data| <= cfg.Mss())
  }

  // ---- ikcp_update and ikcp_check ----

  /** The timer part of ikcp_update: the state in which the flush, if any, happens, and
      whether there is one. */
  function Tick(k: Kcb, now: u32): (Kcb, bool) {
    var k1 := k.(current := now, updated := true, tsFlush := if k.updated then k.tsFlush else now);
    var slap := TimeDiff(now, k1.tsFlush);
    var jump := slap >= 10000 || slap < -10000;
    var k2 := if jump then k1.(tsFlush := now) else k1;
    if !jump && slap < 0 then (k2, false)
    else
      var next := Add(k2.tsFlush, k.cfg.interval);
      (k2.(tsFlush := if TimeDiff(now, next) >= 0 then Add(now, k.cfg.interval) else next), true)
  }

  function Updated(k: Kcb, now: u32): Kcb {
    var (k1, due) := Tick(k, now);
    if due then Flushed(k1) else k1
  }

  /** The least time to a retransmission, or 0 when one is due. */
  function NextResend(buf: seq<OutSeg>, now: u32): (r: nat)
    ensures r < HALF
    decreases |buf|
  {
    if buf == [] then HALF - 1
    else
      var d := TimeDiff(buf[|buf| - 1].resendTs, now);
      var rest := NextResend(buf[..|buf| - 1], now);
      if d <= 0 then 0 else if d < rest then d else rest
  }

  /** ikcp_check: when to call ikcp_update next. */
  function Check(k: Kcb, now: u32): u32 {
    var d := TimeDiff(now, k.tsFlush);
    if !k.updated || d >= 0 || d < -10000 then now
    else
      var packet := NextResend(k.sndBuf, now);
      if packet == 0 then now
      else
        var flush := TimeDiff(k.tsFlush, now);
        var minimal := if packet < flush then packet else flush;
        Add(now, if minimal >= k.cfg.interval then k.cfg.interval else minimal)
  }
}
