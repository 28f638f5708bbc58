/** The frames between the daemon and its local clients: the DELIVER frame of message_bus.c and
    the reading side of the client library (bc_client.c). */
module Ipc {
  import opened Word32
  import opened Bytes
  import opened Protocol

  const IPC_MAGIC: u32 := 0x4243_4950
  const IPC_VERSION: u16 := 2
  const IPC_PUBLISH: u16 := 1
  const IPC_SUBSCRIBE: u16 := 2
  const IPC_DELIVER: u16 := 3
  const IPC_STATS: u16 := 4
  const IPC_SHM_SETUP: u16 := 5
  const IPC_SHM_KICK: u16 := 6
  const IPC_HEADER: nat := 28

  /** The sizes process_frame_buffer lets pass. */
  predicate Publishable(m: Message) {
    |m.channel| < MAX_CHANNEL && 0 < |m.topic| < MAX_TOPIC && |m.payload| <= MAX_PAYLOAD
  }

  /** A frame of the current version. */
  function IpcFrame(kind: u16, m: Message): (r: seq<byte>)
    requires Publishable(m)
    ensures |r| == IPC_HEADER + |m.channel| + |m.topic| + |m.payload|
  {
    Put32(IPC_MAGIC) + Put16(IPC_VERSION) + Put16(kind) + Put16(|m.topic|) + Put16(|m.channel|)
    + Put32(|m.payload|) + Put32(m.dst) + Put16(m.qos) + Put16(m.flags) + Put32(m.seqNo)
    + Body(m)
  }

  /** The frame bc_message_bus_deliver_local builds for a subscriber. */
  function DeliverFrame(m: Message): (r: seq<byte>)
    requires Publishable(m)
    ensures |r| == IPC_HEADER + |m.channel| + |m.topic| + |m.payload|
  {
    IpcFrame(IPC_DELIVER, m)
  }

  /** What bc_poll hands to the callback. */
  datatype Seen = Seen(topic: seq<byte>, payload: seq<byte>)

  /** One bc_read with the buffers of bc_poll on what the socket holds: it is still waiting, fails,
      or returns a message and leaves the rest. */
  datatype Read = Waiting | Broken | Got(what: Seen, rest: seq<byte>)

  function ReadDeliver(b: seq<byte>): (r: Read)
    ensures r.Got? ==> |r.rest| < |b|
  {
    if |b| < IPC_HEADER then Waiting
    else if Get32(b[0..4]) != IPC_MAGIC then Broken
    else if Get16(b[6..8]) == IPC_STATS then
      var payloadLen := Get32(b[12..16]);
      if payloadLen > MAX_PAYLOAD then Broken
      else if |b| < IPC_HEADER + payloadLen then Waiting
      else Got(Seen([], b[IPC_HEADER..IPC_HEADER + payloadLen]), b[IPC_HEADER + payloadLen..])
    else if Get16(b[6..8]) != IPC_DELIVER then Broken
    else
      var topicLen, channelLen, payloadLen := Get16(b[8..10]), Get16(b[10..12]), Get32(b[12..16]);
      if channelLen >= MAX_CHANNEL || topicLen == 0 || topicLen >= MAX_TOPIC || payloadLen > MAX_PAYLOAD then Broken
      else
        var t := IPC_HEADER + channelLen;
        var p := t + topicLen;
        if |b| < p + payloadLen then Waiting
        else Got(Seen(b[t..p], b[p..p + payloadLen]), b[p + payloadLen..])
  }

  /** The client reads a message exactly when a header of the daemon is complete, announces a delivery with sizes
      in bounds, or statistics, and all of it is there; any other header is an error; and less than what is
      announced is waited for. Statistics come without a topic, whatever the header says of names. */
  lemma ReadExactly(b: seq<byte>)
    ensures |b| < 28 ==> ReadDeliver(b).Waiting?
    ensures |b| >= 28 ==>
      var t, c, p := Get16(b[8..10]), Get16(b[10..12]), Get32(b[12..16]);
      var delivery, stats := b[6..8] == Put16(3) && c < 32 && 0 < t < 64, b[6..8] == Put16(4);
      var good := b[0..4] == Put32(0x4243_4950) && p <= 1400 && (delivery || stats);
      var at := if stats then 28 else 28 + c + t;
      && (ReadDeliver(b).Broken? <==> !good)
      && (ReadDeliver(b).Waiting? <==> good && |b| < at + p)
      && (ReadDeliver(b).Got? ==>
            && ReadDeliver(b).what == Seen(if stats then [] else b[28 + c..at], b[at..at + p])
            && ReadDeliver(b).rest == b[at + p..])
  {
    if |b| >= 28 {
      Unique32(b[0..4]);
      Unique16(b[6..8]);
      RoundTrip32(IPC_MAGIC);
      RoundTrip16(IPC_DELIVER);
      RoundTrip16(IPC_STATS);
      hide Get32, Get16, Put32, Put16;
    }
  }

  /** What successive calls return. */
  function ReadAll(b: seq<byte>): seq<Seen>
    decreases |b|
  {
    match ReadDeliver(b)
    case Got(what, rest) => [what] + ReadAll(rest)
    case _ => []
  }

  /** A frame is read back whatever follows, and no proper prefix of it is mistaken for anything. */
  lemma ReadsBack(m: Message, rest: seq<byte>)
    requires Publishable(m)
    ensures ReadDeliver(DeliverFrame(m) + rest) == Got(Seen(m.topic, m.payload), rest)
  {
    var b := DeliverFrame(m) + rest;
    HeaderAt(IPC_DELIVER, m, b);
    BodyAt(IPC_DELIVER, m, rest);
    hide Get32, Get16, Put32, Put16;
  }

  lemma WaitsForAll(m: Message, b: seq<byte>)
    requires Publishable(m) && b < DeliverFrame(m)
    ensures ReadDeliver(b) == Waiting
  {
    if |b| >= IPC_HEADER { HeaderAt(IPC_DELIVER, m, b); }
  }

  /** Where the sizes and the kind of a frame lie. */
  lemma HeaderAt(kind: u16, m: Message, b: seq<byte>)
    requires Publishable(m) && |b| >= 16 && b[..16] == IpcFrame(kind, m)[..16]
    ensures Get32(b[0..4]) == IPC_MAGIC && Get16(b[4..6]) == IPC_VERSION && Get16(b[6..8]) == kind
    ensures Get16(b[8..10]) == |m.topic| && Get16(b[10..12]) == |m.channel| && Get32(b[12..16]) == |m.payload|
  {
    var f := IpcFrame(kind, m);
    HeaderBytes(kind, m);
    hide IpcFrame, Get32, Get16, Put32, Put16;
    SamePart(f, b, 0, 4);
    SamePart(f, b, 4, 6);
    SamePart(f, b, 6, 8);
    SamePart(f, b, 8, 10);
    SamePart(f, b, 10, 12);
    SamePart(f, b, 12, 16);
    RoundTrip32(IPC_MAGIC);
    RoundTrip16(IPC_VERSION);
    RoundTrip16(kind);
    RoundTrip16(|m.topic|);
    RoundTrip16(|m.channel|);
    RoundTrip32(|m.payload|);
  }

  lemma SamePart(f: seq<byte>, b: seq<byte>, i: nat, j: nat)
    requires i <= j <= 16 <= |f| && 16 <= |b| && b[..16] == f[..16]
    ensures b[i..j] == f[i..j]
  {
    assert forall k | 0 <= k < 16 :: b[k] == b[..16][k] == f[..16][k] == f[k];
  }

  lemma HeaderBytes(kind: u16, m: Message)
    requires Publishable(m)
    ensures
      var f := IpcFrame(kind, m);
      && f[0..4] == Put32(IPC_MAGIC) && f[4..6] == Put16(IPC_VERSION) && f[6..8] == Put16(kind)
      && f[8..10] == Put16(|m.topic|) && f[10..12] == Put16(|m.channel|) && f[12..16] == Put32(|m.payload|)
  {
    hide Put32, Put16;
  }

  /** The fields behind the sizes. */
  lemma OptionBytes(kind: u16, m: Message)
    requires Publishable(m)
    ensures
      var f := IpcFrame(kind, m);
      && f[16..20] == Put32(m.dst) && f[20..22] == Put16(m.qos) && f[22..24] == Put16(m.flags)
        && f[24..28] == Put32(m.seqNo)
  {
    hide Put32, Put16;
  }

  /** Where the names and the payload lie, and what follows. */
  lemma BodyAt(kind: u16, m: Message, rest: seq<byte>)
    requires Publishable(m)
    ensures
      var b, t := IpcFrame(kind, m) + rest, IPC_HEADER + |m.channel|;
      var p := t + |m.topic|;
      && b[IPC_HEADER..t] == m.channel && b[t..p] == m.topic && b[p..p + |m.payload|] == m.payload
      && b[p + |m.payload|..] == rest
  {
  }

  // ---- Streams of frames ----

  predicate AllPublishable(ms: seq<Message>) {
    forall m <- ms :: Publishable(m)
  }

  /** The frames of some messages one behind the other. */
  function Encoded(ms: seq<Message>): seq<byte>
    requires AllPublishable(ms)
  {
    if ms == [] then []
    else
      assert ms[0] in ms && forall m <- ms[1..] :: m in ms;
      DeliverFrame(ms[0]) + Encoded(ms[1..])
  }

  lemma {:induction false} EncodedSnoc(ms: seq<Message>, m: Message)
    requires AllPublishable(ms) && Publishable(m)
    ensures Encoded(ms + [m]) == Encoded(ms) + DeliverFrame(m)
  {
    hide DeliverFrame, Publishable;
    if ms == [] {
      assert ms + [m] == [m] && [m][1..] == [];
    } else {
      assert ms[0] in ms && forall x <- ms[1..] :: x in ms;
      assert (ms + [m])[1..] == ms[1..] + [m];
      EncodedSnoc(ms[1..], m);
      assert Encoded(ms + [m]) == DeliverFrame(ms[0]) + (Encoded(ms[1..]) + DeliverFrame(m));
    }
  }

  function SeenOf(ms: seq<Message>): (r: seq<Seen>)
    ensures |r| == |ms|
  {
    seq(|ms|, i requires 0 <= i < |ms| => Seen(ms[i].topic, ms[i].payload))
  }

  /** However much of a stream of frames has arrived, a client has read the first messages of it,
      and it has read all of them when everything has arrived. */
  lemma {:induction false} ReadsPrefix(ms: seq<Message>, b: seq<byte>)
    requires AllPublishable(ms) && b <= Encoded(ms)
    ensures ReadAll(b) <= SeenOf(ms) && (b == Encoded(ms) ==> ReadAll(b) == SeenOf(ms))
    decreases |ms|
  {
    hide ReadDeliver, DeliverFrame;
    if ms != [] {
      var m, frame := ms[0], DeliverFrame(ms[0]);
      assert m in ms && forall x <- ms[1..] :: x in ms;
      assert SeenOf(ms) == [Seen(m.topic, m.payload)] + SeenOf(ms[1..]);
      if |b| < |frame| {
        assert b < frame;
        WaitsForAll(m, b);
      } else {
        var rest := b[|frame|..];
        assert b == frame + rest;
        assert rest <= Encoded(ms[1..]);
        ReadsBack(m, rest);
        ReadsPrefix(ms[1..], rest);
        assert b == Encoded(ms) ==> rest == Encoded(ms[1..]);
      }
    } else {
      assert |b| == 0;
      NothingThere(b);
    }
  }

  lemma NothingThere(b: seq<byte>)
    requires |b| == 0
    ensures ReadAll(b) == []
  {
  }
}
