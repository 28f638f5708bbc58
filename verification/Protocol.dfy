/** The wire codec of protocol.c: a 36-byte header, the channel and topic names, the payload
    and its checksum. */
module Protocol {
  import opened Word32
  import opened Bytes
  import Crc

  const MAGIC: u32 := 0x4243_4652
  const VERSION: u16 := 1
  const HEADER: nat := 36
  const MAX_CHANNEL: nat := 32
  const MAX_TOPIC: nat := 64
  const MAX_PAYLOAD: nat := 1400
  const MAX_FRAME: nat := 1600

  datatype Option<T> = None | Some(value: T)

  /** bc_message_t; the two names are C strings, given without their terminator. */
  datatype Message = Message(
    src: u32, dst: u32, flags: u16, qos: u16, seqNo: u32, channel: seq<byte>, topic: seq<byte>, payload: seq<byte>)

  predicate NoNul(s: seq<byte>) {
    forall c <- s :: c != 0
  }

  /** The part of an array that is the C string in it. */
  function CStr(s: seq<byte>): (r: seq<byte>)
    ensures |r| <= |s| && NoNul(r)
    ensures NoNul(s) ==> r == s
  {
    if s == [] then []
    else
      assert s[0] in s && s == [s[0]] + s[1..] && forall c <- s[1..] :: c in s;
      if s[0] == 0 then [] else [s[0]] + CStr(s[1..])
  }

  predicate Encodable(m: Message) {
    && |m.channel| < MAX_CHANNEL && NoNul(m.channel)
    && 0 < |m.topic| < MAX_TOPIC && NoNul(m.topic)
    && |m.payload| <= MAX_PAYLOAD
  }

  function Header(m: Message): (r: seq<byte>)
    requires |m.channel| < MAX_CHANNEL && |m.topic| < MAX_TOPIC && |m.payload| <= MAX_PAYLOAD
    ensures |r| == HEADER
  {
    Put32(MAGIC) + Put16(VERSION) + Put16(HEADER) + Put32(m.src) + Put32(m.dst) + Put16(m.flags) + Put16(m.qos)
    + Put32(m.seqNo) + Put16(|m.channel|) + Put16(|m.topic|) + Put32(|m.payload|) + Put32(Crc.Checksum(m.payload))
  }

  function Body(m: Message): (r: seq<byte>)
    ensures |r| == |m.channel| + |m.topic| + |m.payload|
  {
    m.channel + m.topic + m.payload
  }

  /** bc_protocol_encode: None is BC_ERR_INVALID. */
  function Encode(m: Message): (r: Option<seq<byte>>) {
    if |m.channel| >= MAX_CHANNEL || |m.topic| == 0 || |m.topic| >= MAX_TOPIC || |m.payload| > MAX_PAYLOAD then None
    else if HEADER + |m.channel| + |m.topic| + |m.payload| > MAX_FRAME then None
    else Some(Header(m) + Body(m))
  }

  datatype Length = NeedMore | Bad | Complete(len: nat)

  predicate GoodHeader(b: seq<byte>)
    requires |b| >= HEADER
  {
    && Get32(b[0..4]) == MAGIC && Get16(b[4..6]) == VERSION && Get16(b[6..8]) == HEADER
    && Get16(b[24..26]) < MAX_CHANNEL && 0 < Get16(b[26..28]) < MAX_TOPIC && Get32(b[28..32]) <= MAX_PAYLOAD
  }

  function FrameSize(b: seq<byte>): nat
    requires |b| >= HEADER
  {
    HEADER + Get16(b[24..26]) + Get16(b[26..28]) + Get32(b[28..32])
  }

  /** bc_protocol_frame_length: not enough bytes, not a frame, or the length of the frame. */
  function FrameLength(b: seq<byte>): Length {
    if |b| < HEADER then NeedMore
    else if !GoodHeader(b) || FrameSize(b) > MAX_FRAME then Bad
    else if |b| < FrameSize(b) then NeedMore
    else Complete(FrameSize(b))
  }

  /** bc_protocol_decode: None is BC_ERR_INVALID. */
  function Decode(b: seq<byte>): (r: Option<Message>) {
    if |b| < HEADER || !GoodHeader(b) || |b| < FrameSize(b) then None
    else if Crc.Checksum(Payload(b)) != Get32(b[32..36]) then None
    else Some(Fields(b))
  }

  function Payload(b: seq<byte>): seq<byte>
    requires HEADER <= |b| && FrameSize(b) <= |b|
  {
    b[FrameSize(b) - Get32(b[28..32])..FrameSize(b)]
  }

  function Fields(b: seq<byte>): Message
    requires HEADER <= |b| && FrameSize(b) <= |b|
  {
    var c := HEADER + Get16(b[24..26]);
    Message(Get32(b[8..12]), Get32(b[12..16]), Get16(b[16..18]), Get16(b[18..20]), Get32(b[20..24]),
            CStr(b[HEADER..c]), CStr(b[c..c + Get16(b[26..28])]), Payload(b))
  }

  /** A buffer that starts with what was copied in, and is as it was behind that. */
  predicate Begins(now: seq<byte>, done: seq<byte>, was: seq<byte>) {
    |done| <= |was| && now == done + was[|done|..]
  }

  /** memcpy behind what was already copied into a buffer. */
  method CopyInto(dst: array<byte>, at: nat, src: seq<byte>, ghost done: seq<byte>, ghost was: seq<byte>)
    requires at == |done| && at + |src| <= dst.Length == |was| && Begins(dst[..], done, was)
    modifies dst
    ensures Begins(dst[..], done + src, was)
  {
    forall i | 0 <= i < |src| { dst[at + i] := src[i]; }
    assert dst[..] == (done + src) + was[|done + src|..];
  }

  /** Four memcpys, one behind the other. */
  method CopyFour(dst: array<byte>, a: seq<byte>, b: seq<byte>, c: seq<byte>, d: seq<byte>)
    requires |a| + |b| + |c| + |d| <= dst.Length
    modifies dst
    ensures Begins(dst[..], a + b + c + d, old(dst[..]))
  {
    ghost var was := dst[..];
    assert Begins(was, [], was);
    hide Begins;
    CopyInto(dst, 0, a, [], was);
    assert [] + a == a;
    CopyInto(dst, |a|, b, a, was);
    CopyInto(dst, |a| + |b|, c, a + b, was);
    CopyInto(dst, |a| + |b| + |c|, d, a + b + c, was);
  }

  lemma BodyBehind(m: Message)
    requires |m.channel| < MAX_CHANNEL && |m.topic| < MAX_TOPIC && |m.payload| <= MAX_PAYLOAD
    ensures Header(m) + m.channel + m.topic + m.payload == Header(m) + Body(m)
  {
  }

  /** bc_protocol_encode into a frame buffer: the frame, and nothing behind it. */
  method EncodeInto(m: Message, frame: array<byte>) returns (len: Option<nat>)
    requires frame.Length == MAX_FRAME
    modifies frame
    ensures len.None? <==> Encode(m).None?
    ensures len.None? ==> frame[..] == old(frame[..])
    ensures len.Some? ==>
      frame[..] == Encode(m).value + old(frame[..])[|Encode(m).value|..] && len.value == |Encode(m).value|
  {
    hide Header, Body;
    if |m.channel| >= MAX_CHANNEL { return None; }
    if |m.topic| == 0 || |m.topic| >= MAX_TOPIC || |m.payload| > MAX_PAYLOAD { return None; }
    var total := HEADER + |m.channel| + |m.topic| + |m.payload|;
    if total > MAX_FRAME { return None; }
    CopyFour(frame, Header(m), m.channel, m.topic, m.payload);
    BodyBehind(m);
    len := Some(total);
  }

  // ---- What encoded frames look like ----

  /** A message is encoded exactly when its names and payload are in bounds; the total is then
      always below the frame limit, so that check never fails. */
  lemma EncodeSize(m: Message)
    ensures Encode(m).Some? <==> |m.channel| < MAX_CHANNEL && 0 < |m.topic| < MAX_TOPIC && |m.payload| <= MAX_PAYLOAD
    ensures Encode(m).Some? ==> HEADER < |Encode(m).value| <= 1530 < MAX_FRAME
  {
  }

  lemma HeaderFields(m: Message, rest: seq<byte>)
    requires Encodable(m)
    ensures
      var b := Header(m) + rest;
      && b[0..4] == Put32(MAGIC) && b[4..6] == Put16(VERSION) && b[6..8] == Put16(HEADER)
      && b[8..12] == Put32(m.src) && b[12..16] == Put32(m.dst) && b[16..18] == Put16(m.flags)
        && b[18..20] == Put16(m.qos)
      && b[20..24] == Put32(m.seqNo) && b[24..26] == Put16(|m.channel|) && b[26..28] == Put16(|m.topic|)
      && b[28..32] == Put32(|m.payload|) && b[32..36] == Put32(Crc.Checksum(m.payload))
  {
    hide Put16, Put32, Crc.Checksum;
  }

  lemma HeaderValues(m: Message, rest: seq<byte>)
    requires Encodable(m)
    ensures
      var b := Header(m) + rest;
      && GoodHeader(b) && FrameSize(b) == HEADER + |m.channel| + |m.topic| + |m.payload|
      && Get16(b[24..26]) == |m.channel| && Get16(b[26..28]) == |m.topic| && Get32(b[28..32]) == |m.payload|
        && Get32(b[32..36]) == Crc.Checksum(m.payload)
      && Get32(b[8..12]) == m.src && Get32(b[12..16]) == m.dst && Get16(b[16..18]) == m.flags
      && Get16(b[18..20]) == m.qos && Get32(b[20..24]) == m.seqNo
  {
    HeaderFields(m, rest);
    hide Put16, Put32, Get16, Get32, Crc.Checksum, Header;
    RoundTrip32(MAGIC);
    RoundTrip16(VERSION);
    RoundTrip16(HEADER);
    RoundTrip32(m.src);
    RoundTrip32(m.dst);
    RoundTrip16(m.flags);
    RoundTrip16(m.qos);
    RoundTrip32(m.seqNo);
    RoundTrip16(|m.channel|);
    RoundTrip16(|m.topic|);
    RoundTrip32(|m.payload|);
    RoundTrip32(Crc.Checksum(m.payload));
  }

  /** What the receiver makes of a good header followed by anything. */
  lemma FrameLengthIs(m: Message, rest: seq<byte>)
    requires Encodable(m)
    ensures FrameLength(Header(m) + rest) ==
      if |rest| < |Body(m)| then NeedMore else Complete(HEADER + |Body(m)|)
  {
    HeaderValues(m, rest);
    hide GoodHeader, FrameSize, Get16, Get32, Header;
  }

  lemma DecodeIs(m: Message, rest: seq<byte>)
    requires Encodable(m) && |rest| >= |Body(m)|
    ensures
      var c, t := |m.channel|, |m.channel| + |m.topic|;
      var payload := rest[t..|Body(m)|];
      Decode(Header(m) + rest) ==
      if Crc.Checksum(payload) != Crc.Checksum(m.payload) then None
      else Some(Message(m.src, m.dst, m.flags, m.qos, m.seqNo, CStr(rest[..c]), CStr(rest[c..t]), payload))
  {
    hide GoodHeader, FrameSize, Get16, Get32, Crc.Checksum, Header, CStr, NoNul;
    HeaderValues(m, rest);
    PartsOf(m, rest);
  }

  lemma PartsOf(m: Message, rest: seq<byte>)
    requires Encodable(m) && |rest| >= |Body(m)|
    ensures
      var b := Header(m) + rest;
      var c, t := |m.channel|, |m.channel| + |m.topic|;
      FrameSize(b) == HEADER + |Body(m)| <= |b|
      && Payload(b) == rest[t..|Body(m)|]
      && Fields(b) == Message(m.src, m.dst, m.flags, m.qos, m.seqNo, CStr(rest[..c]), CStr(rest[c..t]),
        rest[t..|Body(m)|])
  {
    hide GoodHeader, FrameSize, Get16, Get32, Header, CStr, NoNul;
    HeaderValues(m, rest);
    var b := Header(m) + rest;
    var c, t := |m.channel|, |m.channel| + |m.topic|;
    assert b[HEADER..HEADER + c] == rest[..c];
    assert b[HEADER + c..HEADER + t] == rest[c..t];
    assert b[HEADER + t..HEADER + |Body(m)|] == rest[t..|Body(m)|];
  }

  /** Decoding inverts encoding, whatever follows the frame. */
  lemma DecodeEncode(m: Message, rest: seq<byte>)
    requires Encodable(m)
    ensures Encode(m).Some?
    ensures FrameLength(Encode(m).value + rest) == Complete(|Encode(m).value|)
    ensures Decode(Encode(m).value + rest) == Some(m)
  {
    hide FrameLength, Decode, Header, Crc.Checksum, NoNul;
    var more := Body(m) + rest;
    assert Encode(m).value + rest == Header(m) + more;
    FrameLengthIs(m, more);
    DecodeIs(m, more);
    var c, t := |m.channel|, |m.channel| + |m.topic|;
    assert more[..c] == m.channel && more[c..t] == m.topic && more[t..|Body(m)|] == m.payload;
  }

  /** A C string ends before the first NUL byte, or with the array. */
  lemma {:induction false} CStrExactly(s: seq<byte>)
    ensures CStr(s) <= s && NoNul(CStr(s)) && (|CStr(s)| < |s| ==> s[|CStr(s)|] == 0)
  {
    if s != [] && s[0] != 0 { CStrExactly(s[1..]); }
  }

  /** The start of a frame: magic, version and header length, and sizes within their bounds. */
  predicate StartsFrame(b: seq<byte>)
    requires |b| >= HEADER
  {
    && b[0..4] == Put32(0x4243_4652) && b[4..6] == Put16(1) && b[6..8] == Put16(36)
    && Get16(b[24..26]) < 32 && 0 < Get16(b[26..28]) < 64 && Get32(b[28..32]) <= 1400
  }

  function Claimed(b: seq<byte>): nat
    requires |b| >= HEADER
  {
    36 + Get16(b[24..26]) + Get16(b[26..28]) + Get32(b[28..32])
  }

  lemma StartIs(b: seq<byte>)
    requires |b| >= HEADER
    ensures GoodHeader(b) <==> StartsFrame(b)
    ensures FrameSize(b) == Claimed(b)
  {
    Unique32(b[0..4]);
    Unique16(b[4..6]);
    Unique16(b[6..8]);
    RoundTrip32(MAGIC);
    RoundTrip16(VERSION);
    RoundTrip16(HEADER);
    hide Put16, Put32, Get16, Get32;
  }

  /** Which bytes are a frame, or could become one, and which are decoded: those that start like a frame, are as
      long as it claims, and carry the checksum of their payload. */
  lemma FramesExactly(b: seq<byte>)
    ensures FrameLength(b) == Bad <==> |b| >= 36 && !StartsFrame(b)
    ensures FrameLength(b).Complete? <==> |b| >= 36 && StartsFrame(b) && Claimed(b) <= |b|
    ensures FrameLength(b).Complete? ==> FrameLength(b).len == Claimed(b)
    ensures Decode(b).Some? <==>
      && |b| >= 36 && StartsFrame(b) && Claimed(b) <= |b|
      && Crc.Checksum(b[Claimed(b) - Get32(b[28..32])..Claimed(b)]) == Get32(b[32..36])
  {
    if |b| >= 36 {
      StartIs(b);
      hide GoodHeader, StartsFrame, Get16, Get32, Crc.Checksum;
      if GoodHeader(b) { assert FrameSize(b) <= 36 + 31 + 63 + 1400 by { SizeBound(b); } }
    }
  }

  lemma SizeBound(b: seq<byte>)
    requires |b| >= HEADER && GoodHeader(b)
    ensures FrameSize(b) <= 1530
  {
  }

  /** Encoding inverts decoding: a frame that is decoded and whose names hold no NUL bytes is, byte for byte, the
      encoding of the message. */
  lemma EncodeDecode(b: seq<byte>)
    requires |b| >= HEADER && Decode(b).Some?
    requires FrameSize(b) <= |b| && NoNul(b[HEADER..FrameSize(b) - Get32(b[28..32])])
    ensures Encode(Decode(b).value) == Some(b[..FrameSize(b)])
  {
    hide Crc.Checksum, Header, Get16, Get32, CStr;
    var c := HEADER + Get16(b[24..26]);
    var t := c + Get16(b[26..28]);
    NoNulParts(b, c, t);
    FieldsAre(b, c, t);
    HeaderBack(b, Decode(b).value);
    Glued(b, c, t, FrameSize(b));
  }

  lemma NoNulParts(b: seq<byte>, c: nat, t: nat)
    requires HEADER <= c <= t <= |b| && NoNul(b[HEADER..t])
    ensures NoNul(b[HEADER..c]) && NoNul(b[c..t])
  {
    assert forall x <- b[HEADER..c] :: x in b[HEADER..t];
    assert forall x <- b[c..t] :: x in b[HEADER..t];
  }

  lemma Glued(b: seq<byte>, c: nat, t: nat, n: nat)
    requires HEADER <= c <= t <= n <= |b|
    ensures b[..HEADER] + (b[HEADER..c] + b[c..t] + b[t..n]) == b[..n]
  {
  }

  lemma FieldsAre(b: seq<byte>, c: nat, t: nat)
    requires |b| >= HEADER && Decode(b).Some?
    requires c == HEADER + Get16(b[24..26]) && t == c + Get16(b[26..28]) && FrameSize(b) == t + Get32(b[28..32]) <= |b|
    requires NoNul(b[HEADER..c]) && NoNul(b[c..t])
    ensures
      var m := Decode(b).value;
      m.channel == b[HEADER..c] && m.topic == b[c..t] && m.payload == b[t..FrameSize(b)]
  {
    hide Crc.Checksum, Get16, Get32, CStr;
  }

  /** The header of a message that was decoded. */
  lemma HeaderBack(b: seq<byte>, m: Message)
    requires |b| >= HEADER && GoodHeader(b) && FrameSize(b) <= |b|
    requires m.src == Get32(b[8..12]) && m.dst == Get32(b[12..16]) && m.flags == Get16(b[16..18])
    requires m.qos == Get16(b[18..20]) && m.seqNo == Get32(b[20..24]) && Crc.Checksum(m.payload) == Get32(b[32..36])
    requires |m.channel| == Get16(b[24..26]) && |m.topic| == Get16(b[26..28]) && |m.payload| == Get32(b[28..32])
    ensures Header(m) == b[..HEADER]
  {
    Unique32(b[0..4]);
    Unique16(b[4..6]);
    Unique16(b[6..8]);
    Unique32(b[8..12]);
    Unique32(b[12..16]);
    Unique16(b[16..18]);
    Unique16(b[18..20]);
    Unique32(b[20..24]);
    Unique16(b[24..26]);
    Unique16(b[26..28]);
    Unique32(b[28..32]);
    Unique32(b[32..36]);
    hide Put16, Put32, Get16, Get32, Crc.Checksum;
    assert b[..HEADER] == b[0..4] + b[4..6] + b[6..8] + b[8..12] + b[12..16] + b[16..18] + b[18..20]
      + b[20..24] + b[24..26] + b[26..28] + b[28..32] + b[32..36];
  }

  /** A frame that has not fully arrived is never taken for a complete or a bad one. */
  lemma PartialFrame(m: Message, k: nat)
    requires Encodable(m) && Encode(m).Some? && k < |Encode(m).value|
    ensures FrameLength(Encode(m).value[..k]) == NeedMore
  {
    hide GoodHeader, FrameSize, Header, Body;
    if k >= HEADER {
      FrameLengthIs(m, Body(m)[..k - HEADER]);
      assert Encode(m).value[..k] == Header(m) + Body(m)[..k - HEADER];
    }
  }

  /** A frame whose payload was changed only within four consecutive bytes is rejected. */
  lemma CorruptionDetected(m: Message, b: seq<byte>, i: nat, j: nat)
    requires Encodable(m) && Encode(m).Some?
    requires |b| == |Encode(m).value| && b != Encode(m).value
    requires HEADER + |m.channel| + |m.topic| <= i <= j <= |b| && j - i <= 4
    requires b[..i] == Encode(m).value[..i] && b[j..] == Encode(m).value[j..]
    ensures Decode(b) == None
  {
    hide Decode, Header, Crc.Checksum, Encodable, Body, Encode;
    var n := HEADER + |m.channel| + |m.topic|;
    SameHeader(m, b, i, j);
    DecodeIs(m, b[HEADER..]);
    SamePayload(m, b, i, j);
    Crc.BurstDetected(b[n..], m.payload, i - n, j - n);
  }

  lemma SameHeader(m: Message, b: seq<byte>, i: nat, j: nat)
    requires Encodable(m) && Encode(m).Some? && |b| == |Encode(m).value|
    requires HEADER + |m.channel| + |m.topic| <= i <= |b| && b[..i] == Encode(m).value[..i]
    ensures b == Header(m) + b[HEADER..] && |b[HEADER..]| == |Body(m)|
    ensures b[HEADER..][|m.channel| + |m.topic|..|Body(m)|] == b[HEADER + |m.channel| + |m.topic|..]
    ensures |b[HEADER + |m.channel| + |m.topic|..]| == |m.payload|
  {
    hide Header;
    var f := Encode(m).value;
    assert b[..HEADER] == b[..i][..HEADER] == f[..i][..HEADER] == Header(m);
  }

  lemma SamePayload(m: Message, b: seq<byte>, i: nat, j: nat)
    requires Encodable(m) && Encode(m).Some?
    requires |b| == |Encode(m).value| && b != Encode(m).value
    requires HEADER + |m.channel| + |m.topic| <= i <= j <= |b|
    requires b[..i] == Encode(m).value[..i] && b[j..] == Encode(m).value[j..]
    ensures
      var n := HEADER + |m.channel| + |m.topic|;
      b[n..] != m.payload && b[n..][..i - n] == m.payload[..i - n] && b[n..][j - n..] == m.payload[j - n..]
  {
    hide Header;
    var f, n := Encode(m).value, HEADER + |m.channel| + |m.topic|;
    assert f[n..] == m.payload;
    assert b[n..][..i - n] == b[..i][n..] == f[..i][n..] == f[n..][..i - n];
    assert b[n..][j - n..] == b[j..] == f[j..] == f[n..][j - n..];
    assert b[..n] == b[..i][..n] == f[..i][..n] == f[..n];
    assert b == b[..n] + b[n..] && f == f[..n] + f[n..];
  }
}
