/** The daemon's side of a client socket (client_manager.c): bytes are read into a buffer in pieces of
    any size, whole frames are taken from its front, and a frame whose publishing is refused
    stays there until it is tried again. */
module ClientRx {
  import opened Word32
  import opened Bytes
  import opened Protocol
  import opened Status
  import opened Ipc

  const CAPACITY: nat := 0x4_0000    // 256 KiB
  const FRAME_MAX: nat := IPC_HEADER + MAX_CHANNEL + MAX_TOPIC + MAX_PAYLOAD

  /** What a frame asks of the daemon. */
  datatype Request = Publish(msg: Message) | Subscribe(topic: seq<byte>) | Stats | ShmSetup | ShmKick

  /** What lies at the front of the buffer. */
  datatype Head = Incomplete | Malformed | Whole(len: nat, req: Request)

  /** bc_ipc_header_size. */
  function HeaderSize(version: u16): nat {
    if version >= IPC_VERSION then IPC_HEADER else 16
  }

  function FrameLen(b: seq<byte>): nat
    requires |b| >= 16
  {
    HeaderSize(Get16(b[4..6])) + Get16(b[10..12]) + Get16(b[8..10]) + Get32(b[12..16])
  }

  /** process_frame_buffer up to the request, on the frame in front; None is BC_ERR_INVALID. */
  function RequestOf(b: seq<byte>): Option<Request>
    requires |b| >= 16 && FrameLen(b) <= |b|
  {
    var version, kind := Get16(b[4..6]), Get16(b[6..8]);
    var topicLen, channelLen, payloadLen := Get16(b[8..10]), Get16(b[10..12]), Get32(b[12..16]);
    if channelLen >= MAX_CHANNEL || topicLen == 0 || topicLen >= MAX_TOPIC || payloadLen > MAX_PAYLOAD then None
    else
      var c := HeaderSize(version);
      var t := c + channelLen;
      var p := t + topicLen;
      var channel, topic, payload := CStr(b[c..t]), CStr(b[t..p]), b[p..p + payloadLen];
      if kind == IPC_SUBSCRIBE then Some(Subscribe(topic))
      else if kind == IPC_PUBLISH then
        if version >= IPC_VERSION then
          var dst, qos, flags, seqNo := Get32(b[16..20]), Get16(b[20..22]), Get16(b[22..24]), Get32(b[24..28]);
          Some(Publish(Message(0, dst, flags, qos, seqNo, channel, topic, payload)))
        else Some(Publish(Message(0, 0, 0, 0, 0, channel, topic, payload)))
      else if kind == IPC_STATS then Some(Stats)
      else if kind == IPC_SHM_SETUP then Some(ShmSetup)
      else if kind == IPC_SHM_KICK then Some(ShmKick)
      else None
  }

  /** process_one_message before anything is done. */
  function HeadOf(b: seq<byte>): (r: Head)
    ensures r.Whole? ==> 16 <= r.len <= |b|
  {
    if |b| < 16 then Incomplete
    else if Get32(b[0..4]) != IPC_MAGIC then Malformed
    else
      var n := FrameLen(b);
      if |b| < n then Incomplete
      else if n > FRAME_MAX then Malformed
      else if RequestOf(b) == None then Malformed
      else Whole(n, RequestOf(b).value)
  }

  /** The code the daemon's part of a request returns: subscribing and kicks always succeed. */
  function Answer(req: Request, code: Code): Code {
    if req.Subscribe? || req.ShmKick? then Ok else code
  }

  /** What process_messages leaves: the requests that were dealt with, the buffer, and its code. */
  datatype Worked = Worked(done: seq<Request>, rest: seq<byte>, rc: Code)

  function First(codes: seq<Code>): Code {
    if codes == [] then Ok else codes[0]
  }

  function Later(codes: seq<Code>): seq<Code> {
    if codes == [] then [] else codes[1..]
  }

  /** process_messages, where the i-th frame it comes to meets codes[i], and BC_OK after the last. */
  function Work(b: seq<byte>, codes: seq<Code>): (r: Worked)
    ensures |r.rest| <= |b|
    decreases |b|
  {
    match HeadOf(b)
    case Incomplete => Worked([], b, Ok)
    case Malformed => Worked([], b, Invalid)
    case Whole(n, req) =>
      var rc := Answer(req, First(codes));
      if rc == Ok then
        var r := Work(b[n..], Later(codes));
        Worked([req] + r.done, r.rest, r.rc)
      else if rc == NotFound then Worked([], b, Ok)
      else Worked([], b, rc)
  }

  class Receiver {
    const rxBuf: array<byte>
    var rxLen: nat

    ghost predicate Valid()
      reads this
    {
      rxBuf.Length == CAPACITY && rxLen <= CAPACITY
    }

    constructor ()
      ensures Valid() && rxLen == 0 && fresh(rxBuf)
    {
      rxBuf := new byte[CAPACITY](_ => 0);
      rxLen := 0;
    }

    /** The memmove behind a frame. */
    method DropFront(n: nat)
      requires Valid() && n <= rxLen
      modifies this`rxLen, rxBuf
      ensures Valid() && rxLen == old(rxLen) - n && rxBuf[..rxLen] == old(rxBuf[..rxLen])[n..]
    {
      ghost var b := rxBuf[..rxLen];
      forall i | 0 <= i < rxLen - n { rxBuf[i] := rxBuf[n + i]; }
      rxLen := rxLen - n;
      assert rxBuf[..rxLen] == b[n..];
    }

    /** process_messages. */
    method ProcessMessages(codes: seq<Code>) returns (rc: Code, done: seq<Request>)
      requires Valid()
      modifies this`rxLen, rxBuf
      ensures Valid() && rxLen <= old(rxLen)
      ensures Worked(done, rxBuf[..rxLen], rc) == Work(old(rxBuf[..rxLen]), codes)
    {
      hide HeadOf, Work;
      done := [];
      ghost var start := rxBuf[..rxLen];
      var left := codes;
      assert [] + Work(start, codes).done == Work(start, codes).done;
      while true
        invariant Valid() && rxLen <= old(rxLen)
        invariant
          var r := Work(rxBuf[..rxLen], left);
          Work(start, codes) == Worked(done + r.done, r.rest, r.rc)
        decreases rxLen
      {
        var b := rxBuf[..rxLen];
        WorkStep(b, left);
        var head := HeadOf(b);
        if head == Incomplete { return Ok, done; }
        if head == Malformed { return Invalid, done; }
        rc := Answer(head.req, First(left));
        if rc == NotFound { return Ok, done; }
        if rc != Ok { return rc, done; }
        ghost var r := Work(b[head.len..], Later(left));
        assert done + ([head.req] + r.done) == (done + [head.req]) + r.done;
        done := done + [head.req];
        left := Later(left);
        DropFront(head.len);
      }
    }

    /** One turn of the read loop of on_client_event with the bytes a read returned. */
    method OnRead(chunk: seq<byte>, codes: seq<Code>) returns (rc: Code, done: seq<Request>)
      requires Valid() && |chunk| <= CAPACITY - rxLen
      modifies this`rxLen, rxBuf
      ensures Valid()
      ensures Worked(done, rxBuf[..rxLen], rc) == Work(old(rxBuf[..rxLen]) + chunk, codes)
    {
      hide Work;
      ghost var b := rxBuf[..rxLen];
      forall i | 0 <= i < |chunk| { rxBuf[rxLen + i] := chunk[i]; }
      rxLen := rxLen + |chunk|;
      assert rxBuf[..rxLen] == b + chunk;
      rc, done := ProcessMessages(codes);
    }
  }

  /** One frame of the loop. */
  lemma WorkStep(b: seq<byte>, codes: seq<Code>)
    ensures HeadOf(b) == Incomplete ==> Work(b, codes) == Worked([], b, Ok)
    ensures HeadOf(b) == Malformed ==> Work(b, codes) == Worked([], b, Invalid)
    ensures HeadOf(b).Whole? ==>
      var h := HeadOf(b);
      var rc, r := Answer(h.req, First(codes)), Work(b[h.len..], Later(codes));
      && 0 < h.len <= |b|
      && Work(b, codes) ==
         if rc == Ok then Worked([h.req] + r.done, r.rest, r.rc)
         else if rc == NotFound then Worked([], b, Ok) else Worked([], b, rc)
  {
    hide HeadOf;
  }

  /** What the loop does with a whole frame in front, told by the code its request meets: a subscription and an
      announcement are always done with; otherwise BC_ERR_NOT_FOUND ends the turn as if more bytes were
      needed, any other error ends it as it is, and either leaves the frame where it is. */
  lemma WorkExactly(b: seq<byte>, code: Code, later: seq<Code>)
    requires HeadOf(b).Whole?
    ensures
      var h, w := HeadOf(b), Work(b, [code] + later);
      if h.req.Subscribe? || h.req.ShmKick? || code == Ok then
        w.done == [h.req] + Work(b[h.len..], later).done && w.rc == Work(b[h.len..], later).rc
      else w == Worked([], b, if code == NotFound then Ok else code)
  {
    WorkStep(b, [code] + later);
    assert ([code] + later)[1..] == later;
    hide HeadOf, Work;
  }

  // ---- What a frame has to be ----

  /** The sizes of the frame in front: 28 bytes of header from version 2 on, 16 before. */
  function SizeOf(b: seq<byte>): nat
    requires |b| >= 16
  {
    (if Get16(b[4..6]) >= 2 then 28 else 16) + Get16(b[8..10]) + Get16(b[10..12]) + Get32(b[12..16])
  }

  /** The frame in front is waited for, refused, or taken: refused for a wrong magic at once, and, once all of it
      is there, for a size out of bounds, a missing topic, or an unknown kind. */
  lemma HeadExactly(b: seq<byte>)
    ensures |b| < 16 ==> HeadOf(b) == Incomplete
    ensures |b| >= 16 ==>
      var t, c, p, kind := Get16(b[8..10]), Get16(b[10..12]), Get32(b[12..16]), Get16(b[6..8]);
      var magic, sizes := b[0..4] == Put32(0x4243_4950), c < 32 && 0 < t < 64 && p <= 1400;
      && (HeadOf(b).Incomplete? <==> magic && |b| < SizeOf(b))
      && (HeadOf(b).Malformed? <==> !magic || (|b| >= SizeOf(b) && !(sizes && 1 <= kind <= 6 && kind != 3)))
      && (HeadOf(b).Whole? ==> HeadOf(b).len == SizeOf(b) && KindIs(b, kind, HeadOf(b).req))
  {
    hide KindIs, RequestOf, Get32, Get16, Put32, CStr;
    if |b| >= 16 {
      Unique32(b[0..4]);
      RoundTrip32(IPC_MAGIC);
      if FrameLen(b) <= |b| { RequestIs(b); }
    }
  }

  lemma RequestIs(b: seq<byte>)
    requires |b| >= 16 && FrameLen(b) <= |b|
    ensures
      var t, c, p, kind := Get16(b[8..10]), Get16(b[10..12]), Get32(b[12..16]), Get16(b[6..8]);
      && (RequestOf(b) == None <==> !(c < 32 && 0 < t < 64 && p <= 1400 && 1 <= kind <= 6 && kind != 3))
      && (RequestOf(b).Some? ==> FrameLen(b) <= FRAME_MAX && KindIs(b, kind, RequestOf(b).value))
  {
    hide Get32, Get16, Put32, CStr;
  }

  /** The request a frame of this kind makes, with the fields of the header: a frame of version 1 has no
      destination, quality, flags and number. */
  predicate KindIs(b: seq<byte>, kind: u16, req: Request)
    requires |b| >= 16 && SizeOf(b) <= |b|
  {
    var h := if Get16(b[4..6]) >= 2 then 28 else 16;
    var t, c := Get16(b[8..10]), Get16(b[10..12]);
    var channel, topic := CStr(b[h..h + c]), CStr(b[h + c..h + c + t]);
    match req
    case Publish(m) =>
      && kind == 1 && m.src == 0 && m.channel == channel && m.topic == topic && m.payload == b[h + c + t..SizeOf(b)]
      && (m.dst, m.qos, m.flags, m.seqNo) ==
         if h == 16 then (0, 0, 0, 0) else (Get32(b[16..20]), Get16(b[20..22]), Get16(b[22..24]), Get32(b[24..28]))
    case Subscribe(x) => kind == 2 && x == topic
    case Stats => kind == 4
    case ShmSetup => kind == 5
    case ShmKick => kind == 6
  }

  // ---- What a client sends ----

  /** Requests the client library puts into frames: names without NUL bytes and of the sizes it checks. */
  predicate Sendable(req: Request) {
    match req
    case Publish(m) => Publishable(m) && NoNul(m.channel) && NoNul(m.topic) && m.src == 0
    case Subscribe(topic) => 0 < |topic| < MAX_TOPIC && NoNul(topic)
    case _ => false
  }

  function TopicOnly(topic: seq<byte>): Message {
    Message(0, 0, 0, 0, 0, [], topic, [])
  }

  /** build_ipc_frame. */
  function ClientFrame(req: Request): (r: seq<byte>)
    requires Sendable(req)
    ensures IPC_HEADER < |r| <= FRAME_MAX
  {
    match req
    case Publish(m) => IpcFrame(IPC_PUBLISH, m)
    case Subscribe(topic) => IpcFrame(IPC_SUBSCRIBE, TopicOnly(topic))
  }

  lemma FrameOf(kind: u16, m: Message, rest: seq<byte>)
    requires Publishable(m)
    ensures
      var f, b := IpcFrame(kind, m), IpcFrame(kind, m) + rest;
      |b| >= 16 && Get32(b[0..4]) == IPC_MAGIC && FrameLen(b) == |f| <= FRAME_MAX
  {
    HeaderAt(kind, m, IpcFrame(kind, m) + rest);
    hide Get32, Get16, IpcFrame;
  }

  lemma FieldsBack(kind: u16, m: Message, rest: seq<byte>)
    requires Publishable(m) && NoNul(m.channel) && NoNul(m.topic) && m.src == 0
      && (kind == IPC_PUBLISH || kind == IPC_SUBSCRIBE)
    ensures
      var f := IpcFrame(kind, m);
      HeadOf(f + rest) == Whole(|f|, if kind == IPC_PUBLISH then Publish(m) else Subscribe(m.topic))
  {
    hide Get32, Get16, Put32, Put16, IpcFrame, CStr, FrameLen;
    var b := IpcFrame(kind, m) + rest;
    FrameOf(kind, m, rest);
    HeaderAt(kind, m, b);
    BodyAt(kind, m, rest);
    OptionsAt(kind, m, rest);
  }

  lemma OptionsAt(kind: u16, m: Message, rest: seq<byte>)
    requires Publishable(m)
    ensures
      var b := IpcFrame(kind, m) + rest;
      Get32(b[16..20]) == m.dst && Get16(b[20..22]) == m.qos && Get16(b[22..24]) == m.flags
        && Get32(b[24..28]) == m.seqNo
  {
    hide Get32, Get16, Put32, Put16, IpcFrame;
    var f := IpcFrame(kind, m);
    var b := f + rest;
    OptionBytes(kind, m);
    assert b[16..20] == f[16..20] && b[20..22] == f[20..22] && b[22..24] == f[22..24] && b[24..28] == f[24..28];
    RoundTrip32(m.dst);
    RoundTrip16(m.qos);
    RoundTrip16(m.flags);
    RoundTrip32(m.seqNo);
  }

  /** A frame is recognised whatever follows it. */
  lemma HeadBack(req: Request, rest: seq<byte>)
    requires Sendable(req)
    ensures HeadOf(ClientFrame(req) + rest) == Whole(|ClientFrame(req)|, req)
  {
    hide HeadOf, IpcFrame;
    match req
    case Publish(m) => FieldsBack(IPC_PUBLISH, m, rest);
    case Subscribe(topic) => FieldsBack(IPC_SUBSCRIBE, TopicOnly(topic), rest);
  }

  /** No part of a frame is taken for a whole or a malformed one. */
  lemma HeadWaits(req: Request, b: seq<byte>)
    requires Sendable(req) && b < ClientFrame(req)
    ensures HeadOf(b) == Incomplete
  {
    if |b| >= 16 {
      var (kind, m) := match req case Publish(m) => (IPC_PUBLISH, m) case Subscribe(t) => (IPC_SUBSCRIBE, TopicOnly(t));
      assert b[..16] == IpcFrame(kind, m)[..16];
      HeaderAt(kind, m, b);
      hide Get32, Get16, IpcFrame;
    }
  }

  /** The frames with which clients ask for shared memory or statistics and announce ring traffic have
      no topic, and that is refused as malformed before their kind is looked at, whatever follows. */
  lemma HeaderOnlyRefused(kind: u16, rest: seq<byte>, codes: seq<Code>)
    ensures
      var b := Put32(IPC_MAGIC) + Put16(IPC_VERSION) + Put16(kind) + seq(20, i => 0) + rest;
      HeadOf(b) == Malformed && Work(b, codes) == Worked([], b, Invalid)
  {
    var b := Put32(IPC_MAGIC) + Put16(IPC_VERSION) + Put16(kind) + seq(20, i => 0) + rest;
    assert b[0..4] == Put32(IPC_MAGIC) && b[4..6] == Put16(IPC_VERSION);
    assert b[8..10] == [0, 0] && b[10..12] == [0, 0] && b[12..16] == [0, 0, 0, 0];
    RoundTrip32(IPC_MAGIC);
    RoundTrip16(IPC_VERSION);
    assert FrameLen(b) == IPC_HEADER;
    hide Put32, Put16;
  }

  // ---- Runs ----

  predicate AllSendable(reqs: seq<Request>) {
    forall r <- reqs :: Sendable(r)
  }

  /** The bytes a client sends. */
  function AllFrames(reqs: seq<Request>): seq<byte>
    requires AllSendable(reqs)
  {
    if reqs == [] then []
    else
      assert reqs[0] in reqs && forall r <- reqs[1..] :: r in reqs;
      ClientFrame(reqs[0]) + AllFrames(reqs[1..])
  }

  /** The codes that do not close a client. */
  predicate Mild(codes: seq<Code>) {
    forall c <- codes :: c == Ok || c == NoMem || c == NotFound
  }

  /** What working on b takes off a stream of frames. */
  predicate Takes(reqs: seq<Request>, b: seq<byte>, codes: seq<Code>)
    requires AllSendable(reqs) && |b| <= |AllFrames(reqs)|
  {
    var w := Work(b, codes);
    && w.done <= reqs && AllSendable(reqs[|w.done|..])
    && w.rest + AllFrames(reqs)[|b|..] == AllFrames(reqs[|w.done|..])
    && (Mild(codes) ==> w.rc == Ok || w.rc == NoMem)
    && (codes == [] ==> w.rc == Ok && HeadOf(w.rest) == Incomplete)
  }

  /** Working on any number of bytes of a client's stream takes off the frames of its first requests, in
      order, and nothing else. With mild codes it never closes the client; and if nothing is refused it
      leaves only a part of one frame. */
  lemma {:induction false} WorkTakes(reqs: seq<Request>, b: seq<byte>, codes: seq<Code>)
    requires AllSendable(reqs) && b <= AllFrames(reqs)
    ensures Takes(reqs, b, codes)
    decreases |reqs|
  {
    hide HeadOf, Work, ClientFrame, Sendable, Answer, Takes;
    if reqs == [] {
      EmptyHead(b);
      NothingTaken(reqs, b, codes);
    } else {
      FirstAndRest(reqs);
      var f, rest := ClientFrame(reqs[0]), AllFrames(reqs[1..]);
      if |b| < |f| {
        assert b < f;
        HeadWaits(reqs[0], b);
        NothingTaken(reqs, b, codes);
      } else {
        var b' := b[|f|..];
        assert b == f + b' && b' <= rest;
        WorkTakes(reqs[1..], b', Later(codes));
        OneTaken(reqs, b', codes);
      }
    }
  }

  lemma FirstAndRest(reqs: seq<Request>)
    requires AllSendable(reqs) && reqs != []
    ensures Sendable(reqs[0]) && AllSendable(reqs[1..])
    ensures AllFrames(reqs) == ClientFrame(reqs[0]) + AllFrames(reqs[1..])
  {
    hide Sendable, ClientFrame;
    assert reqs[0] in reqs && forall r <- reqs[1..] :: r in reqs;
  }

  lemma NothingTaken(reqs: seq<Request>, b: seq<byte>, codes: seq<Code>)
    requires AllSendable(reqs) && b <= AllFrames(reqs) && HeadOf(b) == Incomplete
    ensures Takes(reqs, b, codes)
  {
    hide HeadOf, Work, AllFrames, Sendable;
    WorkStep(b, codes);
    assert reqs[0..] == reqs;
    assert b + AllFrames(reqs)[|b|..] == AllFrames(reqs);
  }

  lemma OneTaken(reqs: seq<Request>, b: seq<byte>, codes: seq<Code>)
    requires AllSendable(reqs) && reqs != [] && Sendable(reqs[0]) && AllSendable(reqs[1..])
    requires AllFrames(reqs) == ClientFrame(reqs[0]) + AllFrames(reqs[1..])
    requires b <= AllFrames(reqs[1..]) && Takes(reqs[1..], b, Later(codes))
    ensures Takes(reqs, ClientFrame(reqs[0]) + b, codes)
  {
    hide HeadOf, Work, ClientFrame, Sendable, Answer, AllFrames, AllSendable;
    var f, rest := ClientFrame(reqs[0]), AllFrames(reqs[1..]);
    HeadBack(reqs[0], b);
    WorkStep(f + b, codes);
    assert (f + b)[|f|..] == b;
    var w := Work(b, Later(codes));
    assert AllFrames(reqs)[|f + b|..] == rest[|b|..];
    assert reqs[1..][|w.done|..] == reqs[1 + |w.done|..];
    assert reqs[0..] == reqs;
    assert f + b + rest[|b|..] == AllFrames(reqs);
    if Mild(codes) { AnswerMild(reqs[0], codes); }
    AnswerOk(reqs[0]);
  }

  lemma EmptyHead(b: seq<byte>)
    requires |b| == 0
    ensures HeadOf(b) == Incomplete
  {
  }

  lemma AnswerMild(req: Request, codes: seq<Code>)
    requires Mild(codes)
    ensures Mild(Later(codes))
    ensures var a := Answer(req, First(codes)); a == Ok || a == NoMem || a == NotFound
  {
    assert forall c <- Later(codes) :: c in codes;
    assert codes != [] ==> codes[0] in codes;
  }

  lemma AnswerOk(req: Request)
    ensures Answer(req, First([])) == Ok
  {
  }

  /** A client's connection: the buffer, what the socket still holds, the requests dealt with, and whether
      it is open. */
  datatype Rx = Rx(buf: seq<byte>, pending: seq<byte>, done: seq<Request>, open: bool)

  /** A read of up to `size` bytes and the work that follows, or another try because some output buffer
      drained. */
  datatype Step = Read(size: nat, codes: seq<Code>) | Retry(codes: seq<Code>)

  function WorkedOn(rx: Rx, b: seq<byte>, pending: seq<byte>, codes: seq<Code>): Rx {
    var w := Work(b, codes);
    Rx(w.rest, pending, rx.done + w.done, w.rc == Ok || w.rc == NoMem)
  }

  function Least(a: nat, b: nat): nat {
    if a < b then a else b
  }

  function Next(rx: Rx, step: Step): (r: Rx)
    requires |rx.buf| <= CAPACITY
    ensures |r.buf| <= CAPACITY
  {
    match step
    case Read(size, codes) =>
      var n := Least(size, Least(CAPACITY - |rx.buf|, |rx.pending|));
      if !rx.open || n == 0 then rx else WorkedOn(rx, rx.buf + rx.pending[..n], rx.pending[n..], codes)
    case Retry(codes) =>
      if !rx.open || rx.buf == [] then rx else WorkedOn(rx, rx.buf, rx.pending, codes)
  }

  /** A turn closes the client exactly when a malformed frame comes to the front, or one whose request meets an
      error other than a want of room or of a route. The frame stays where it is. */
  lemma Closes(rx: Rx, b: seq<byte>, pending: seq<byte>, code: Code, later: seq<Code>)
    ensures HeadOf(b) == Malformed ==> WorkedOn(rx, b, pending, [code] + later) == Rx(b, pending, rx.done, false)
    ensures HeadOf(b).Whole? && !HeadOf(b).req.Subscribe? && !HeadOf(b).req.ShmKick? && code != Ok ==>
      WorkedOn(rx, b, pending, [code] + later) == Rx(b, pending, rx.done, code == NoMem || code == NotFound)
    ensures HeadOf(b) == Incomplete ==> WorkedOn(rx, b, pending, [code] + later) == Rx(b, pending, rx.done, true)
  {
    WorkStep(b, [code] + later);
    if HeadOf(b).Whole? { WorkExactly(b, code, later); }
    assert rx.done + [] == rx.done;
    hide HeadOf, Work;
  }

  function Run(reqs: seq<Request>, steps: seq<Step>): (r: Rx)
    requires AllSendable(reqs)
    ensures |r.buf| <= CAPACITY
    decreases |steps|
  {
    if steps == [] then Rx([], AllFrames(reqs), [], true)
    else Next(Run(reqs, steps[..|steps| - 1]), steps[|steps| - 1])
  }

  /** The requests dealt with are the client's first ones, and the rest of its stream is in the buffer and
      on the socket, whole and in order. */
  predicate InStep(reqs: seq<Request>, rx: Rx)
    requires AllSendable(reqs)
  {
    rx.done <= reqs && AllSendable(reqs[|rx.done|..]) && rx.buf + rx.pending == AllFrames(reqs[|rx.done|..])
  }

  lemma WorkInStep(reqs: seq<Request>, rx: Rx, b: seq<byte>, pending: seq<byte>, codes: seq<Code>)
    requires AllSendable(reqs) && InStep(reqs, rx) && b + pending == rx.buf + rx.pending
    ensures InStep(reqs, WorkedOn(rx, b, pending, codes))
    ensures Mild(codes) ==> WorkedOn(rx, b, pending, codes).open
    ensures codes == [] ==> HeadOf(WorkedOn(rx, b, pending, codes).buf) == Incomplete
  {
    hide Work, HeadOf, AllFrames;
    var left := reqs[|rx.done|..];
    WorkTakes(left, b, codes);
    var w := Work(b, codes);
    assert AllFrames(left)[|b|..] == pending;
    assert left[|w.done|..] == reqs[|rx.done + w.done|..];
  }

  lemma StepInStep(reqs: seq<Request>, rx: Rx, step: Step)
    requires AllSendable(reqs) && InStep(reqs, rx) && |rx.buf| <= CAPACITY
    ensures InStep(reqs, Next(rx, step))
    ensures rx.open && Mild(step.codes) ==> Next(rx, step).open
  {
    hide WorkedOn, InStep;
    match step
    case Read(size, codes) =>
      var n := Least(size, Least(CAPACITY - |rx.buf|, |rx.pending|));
      assert (rx.buf + rx.pending[..n]) + rx.pending[n..] == rx.buf + rx.pending;
      WorkInStep(reqs, rx, rx.buf + rx.pending[..n], rx.pending[n..], codes);
    case Retry(codes) => WorkInStep(reqs, rx, rx.buf, rx.pending, codes);
  }

  /** However the bytes are cut into reads, and however often a frame is refused and tried again: at any
      moment the requests dealt with are the client's first ones, each once and in order; everything
      behind them is still there; and a client is closed only for a code of its own requests. */
  lemma {:induction false} FramesInOrder(reqs: seq<Request>, steps: seq<Step>)
    requires AllSendable(reqs)
    ensures InStep(reqs, Run(reqs, steps))
    ensures (forall s <- steps :: Mild(s.codes)) ==> Run(reqs, steps).open
    decreases |steps|
  {
    hide Next, AllFrames, Mild;
    if steps == [] {
      assert reqs[0..] == reqs;
    } else {
      var init, s := steps[..|steps| - 1], steps[|steps| - 1];
      assert s in steps && forall x <- init :: x in steps;
      FramesInOrder(reqs, init);
      hide InStep;
      StepInStep(reqs, Run(reqs, init), s);
    }
  }

  /** And when nothing is refused at a step, what stays in the buffer is less than one frame: the buffer
      never fills up for want of work. */
  lemma NothingLeftOver(reqs: seq<Request>, steps: seq<Step>, size: nat)
    requires AllSendable(reqs) && 0 < size
    ensures
      var rx, rx' := Run(reqs, steps), Run(reqs, steps + [Read(size, [])]);
      rx.open && rx.pending != [] && |rx.buf| < CAPACITY ==>
        HeadOf(rx'.buf) == Incomplete && |rx'.buf| < FRAME_MAX
  {
    hide Run, InStep, HeadOf, WorkedOn;
    FramesInOrder(reqs, steps);
    RunNext(reqs, steps, Read(size, []));
    var rx := Run(reqs, steps);
    if rx.open && rx.pending != [] && |rx.buf| < CAPACITY {
      CleanRead(reqs, rx, size);
    }
  }

  lemma RunNext(reqs: seq<Request>, steps: seq<Step>, step: Step)
    requires AllSendable(reqs)
    ensures Run(reqs, steps + [step]) == Next(Run(reqs, steps), step)
  {
    hide Next, AllFrames;
    assert (steps + [step])[..|steps|] == steps;
  }

  lemma CleanRead(reqs: seq<Request>, rx: Rx, size: nat)
    requires AllSendable(reqs) && InStep(reqs, rx) && rx.open && 0 < size && rx.pending != [] && |rx.buf| < CAPACITY
    ensures
      var r := Next(rx, Read(size, []));
      HeadOf(r.buf) == Incomplete && |r.buf| < FRAME_MAX
  {
    hide HeadOf, WorkedOn, AllFrames;
    var n := Least(size, Least(CAPACITY - |rx.buf|, |rx.pending|));
    assert (rx.buf + rx.pending[..n]) + rx.pending[n..] == rx.buf + rx.pending;
    WorkInStep(reqs, rx, rx.buf + rx.pending[..n], rx.pending[n..], []);
    var r := Next(rx, Read(size, []));
    assert r.buf <= AllFrames(reqs[|r.done|..]);
    PartOfFrame(reqs[|r.done|..], r.buf);
  }

  /** Bytes of a stream that hold no whole frame are fewer than a frame has. */
  lemma PartOfFrame(reqs: seq<Request>, b: seq<byte>)
    requires AllSendable(reqs) && b <= AllFrames(reqs) && HeadOf(b) == Incomplete
    ensures |b| < FRAME_MAX
  {
    hide HeadOf, ClientFrame;
    if reqs != [] {
      assert reqs[0] in reqs;
      var f := ClientFrame(reqs[0]);
      if |f| <= |b| {
        assert b == f + b[|f|..];
        HeadBack(reqs[0], b[|f|..]);
      }
    }
  }
}
