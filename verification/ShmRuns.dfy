/** One writer and one reader on the shared ring at the same time. Every access to the shared
    memory is a step of its own (one counter, or one byte), steps interleave in any order, and
    memory is sequentially consistent. */
module ShmRuns {
  import opened Word32
  import opened Bytes
  import opened ShmRing
  import opened Status

  /** Where the writer is: outside bc_shm_ring_write, with the code it last returned, or with
      `done` bytes of a frame stored and head not yet advanced. */
  datatype Writer = Returned(rc: Code) | Writing(msg: seq<byte>, done: nat)

  /** Where the reader is: outside bc_shm_ring_read, reading the length, or reading the body. */
  datatype Reader =
    | Finished(rc: Code, out: seq<byte>)
    | ReadLen(cap: nat, avail: u32, got: seq<byte>)
    | ReadBody(len: nat, got: seq<byte>)

  /** The shared memory, the two programs, and the messages whose write or read returned. */
  datatype State = State(
    head: u32, tail: u32, data: seq<byte>, writer: Writer, reader: Reader,
    written: seq<seq<byte>>, read: seq<seq<byte>>)

  datatype Action = CallWrite(msg: seq<byte>) | WriterStep | CallRead(cap: nat) | ReaderStep

  function CallWriteStep(s: State, msg: seq<byte>): State {
    if !s.writer.Returned? then s
    else if |msg| > RING - LEN then s.(writer := Returned(Invalid))
    else if Sub(RING, Sub(s.head, s.tail)) < LEN + |msg| then s.(writer := Returned(NoMem))
    else s.(writer := Writing(msg, 0))
  }

  /** One byte of the frame, or, when all are stored, publishing it by moving head. */
  function WriteStep(s: State): State
    requires |s.data| == RING
  {
    if !s.writer.Writing? || |s.writer.msg| > RING - LEN then s
    else
      var msg, i := s.writer.msg, s.writer.done;
      if i < LEN + |msg| then
        s.(data := s.data[Index(s.head, i) := if i < LEN then Put32(|msg|)[i] else msg[i - LEN]],
          writer := Writing(msg, i + 1))
      else
        s.(head := Add(s.head, LEN + |msg|), writer := Returned(Ok), written := s.written + [msg])
  }

  function CallReadStep(s: State, cap: nat): State {
    if !s.reader.Finished? then s
    else
      var avail := Sub(s.head, s.tail);
      s.(reader := if avail < LEN then Finished(NotFound, []) else ReadLen(cap, avail, []))
  }

  /** One byte of the length or of the body, the checks between them, or the move of tail. */
  function ReadStep(s: State): State
    requires |s.data| == RING
  {
    match s.reader
    case Finished(_, _) => s
    case ReadLen(cap, avail, got) =>
      if |got| < LEN then s.(reader := ReadLen(cap, avail, got + [s.data[Index(s.tail, |got|)]]))
      else
        var len := Get32(got[..LEN]);
        s.(reader := if avail < LEN + len then Finished(NotFound, []) else if len > cap then Finished(Invalid, [])
          else ReadBody(len, []))
    case ReadBody(len, got) =>
      if |got| < len then s.(reader := ReadBody(len, got + [s.data[Index(s.tail, LEN + |got|)]]))
      else if LEN + len >= MODULUS then s
      else s.(tail := Add(s.tail, LEN + len), reader := Finished(Ok, got), read := s.read + [got])
  }

  function Next(s: State, a: Action): State
    requires |s.data| == RING
  {
    match a
    case CallWrite(msg) => CallWriteStep(s, msg)
    case WriterStep => WriteStep(s)
    case CallRead(cap) => CallReadStep(s, cap)
    case ReaderStep => ReadStep(s)
  }

  // ---- What holds in between ----

  predicate Prefix(a: seq<seq<byte>>, b: seq<seq<byte>>) {
    |a| <= |b| && b[..|a|] == a
  }

  /** The frames a reader has not taken yet: the abstract queue. */
  function Unread(s: State): seq<seq<byte>>
    requires Prefix(s.read, s.written)
  {
    s.written[|s.read|..]
  }

  /** The part of a frame that is stored but not published. */
  function Unpublished(w: Writer): seq<byte>
    requires w.Writing? ==> |w.msg| <= RING - LEN && w.done <= LEN + |w.msg|
  {
    if w.Returned? then [] else Frame(w.msg)[..w.done]
  }

  predicate WriterOk(w: Writer, used: nat) {
    w.Writing? ==> w.done <= LEN + |w.msg| && |w.msg| <= RING - LEN && used + LEN + |w.msg| <= RING
  }

  /** A reader that is under way is reading the oldest frame. */
  predicate ReaderOk(r: Reader, q: seq<seq<byte>>)
    requires Fit(q)
  {
    match r
    case Finished(_, _) => true
    case ReadLen(_, avail, got) => q != [] && avail >= LEN + |q[0]| && |got| <= LEN && got == Put32(|q[0]|)[..|got|]
    case ReadBody(len, got) => q != [] && len == |q[0]| && |got| <= len && got == q[0][..|got|]
  }

  predicate Inv(s: State) {
    && |s.data| == RING && Fit(s.written) && Prefix(s.read, s.written)
    && Fit(s.read) && Fit(Unread(s))
    && var t, u := |Stream(s.read)|, Stream(Unread(s));
    && s.tail == Wrap(t) && s.head == Wrap(t + |u|)
    && WriterOk(s.writer, |u|) && ReaderOk(s.reader, Unread(s))
    && Holds(s.data, t, u + Unpublished(s.writer))
  }

  predicate Initial(s: State) {
    && |s.data| == RING && s.head == s.tail == 0 && s.written == s.read == []
    && s.writer.Returned? && s.reader.Finished?
  }

  lemma InitialOk(s: State)
    requires Initial(s)
    ensures Inv(s)
  {
  }

  /** The bytes used are at most the ring. */
  lemma Used(s: State)
    requires Inv(s)
    ensures |Stream(Unread(s))| <= RING
    ensures Sub(s.head, s.tail) == |Stream(Unread(s))| && Sub(RING, Sub(s.head, s.tail)) == RING - |Stream(Unread(s))|
  {
    hide Stream, ReaderOk;
    Counters(|Stream(s.read)|, |Stream(Unread(s))|);
  }

  /** A write fails for want of space exactly when the unread frames leave too little. */
  lemma CallWriteOk(s: State, msg: seq<byte>)
    requires Inv(s)
    ensures Inv(CallWriteStep(s, msg))
    ensures s.writer.Returned? ==>
      CallWriteStep(s, msg).writer ==
      if |msg| > RING - LEN then Returned(Invalid)
      else if |Stream(Unread(s))| + LEN + |msg| > RING then Returned(NoMem)
      else Writing(msg, 0)
  {
    Used(s);
    hide Stream, ReaderOk, Holds;
    assert Frame([])[..0] == [];
    if |msg| <= RING - LEN { assert Frame(msg)[..0] == []; }
  }

  lemma WriteOk(s: State)
    requires Inv(s)
    ensures Inv(WriteStep(s))
  {
    if s.writer.Writing? {
      if s.writer.done < LEN + |s.writer.msg| { StoreByteOk(s); } else { PublishOk(s); }
    }
  }

  lemma StoreByteOk(s: State)
    requires Inv(s) && s.writer.Writing? && s.writer.done < LEN + |s.writer.msg|
    ensures Inv(WriteStep(s))
  {
    hide Stream, Holds, Index, Frame, ReaderOk, Wrap;
    var msg, i := s.writer.msg, s.writer.done;
    var t, u := |Stream(s.read)|, Stream(Unread(s));
    IndexIs(t + |u|, i);
    FrameAt(msg, i);
    HoldsPut(s.data, t, u + Frame(msg)[..i], Frame(msg)[i]);
    assert u + Frame(msg)[..i] + [Frame(msg)[i]] == u + Frame(msg)[..i + 1];
  }

  lemma PublishOk(s: State)
    requires Inv(s) && s.writer.Writing? && s.writer.done == LEN + |s.writer.msg|
    ensures Inv(WriteStep(s))
  {
    hide Stream, Holds, Index, Frame, Wrap, Put32;
    var msg, s' := s.writer.msg, WriteStep(s);
    var t, u := |Stream(s.read)|, Stream(Unread(s));
    assert Frame(msg)[..s.writer.done] == Frame(msg);
    assert Unread(s') == Unread(s) + [msg];
    StreamSnoc(Unread(s), msg);
    AddWrap(t + |u|, LEN + |msg|);
    assert Stream(Unread(s')) + [] == Stream(Unread(s'));
  }

  /** A read finds nothing exactly when every published frame has been read. */
  lemma CallReadOk(s: State, cap: nat)
    requires Inv(s)
    ensures Inv(CallReadStep(s, cap))
    ensures s.reader.Finished? ==> (CallReadStep(s, cap).reader.Finished? <==> s.read == s.written)
    ensures s.reader.Finished? && s.read == s.written ==> CallReadStep(s, cap).reader == Finished(NotFound, [])
  {
    Used(s);
    if Unread(s) != [] { Oldest(Unread(s)); }
    hide Holds;
  }

  /** The byte of the oldest frame a reader looks at. */
  lemma ReadsOldest(s: State, i: nat)
    requires Inv(s) && Unread(s) != [] && i < LEN + |Unread(s)[0]|
    ensures s.data[Index(s.tail, i)] == Frame(Unread(s)[0])[i]
  {
    var q := Unread(s);
    Oldest(q);
    hide ReaderOk, Index, Stream, Frame, Unpublished;
    var bytes := Stream(q) + Unpublished(s.writer);
    assert bytes[i] == Stream(q)[i] == Frame(q[0])[i];
    IndexIs(|Stream(s.read)|, i);
    assert s.data[(|Stream(s.read)| + i) % RING] == bytes[i];
  }

  lemma {:induction false} StreamJoin(a: seq<seq<byte>>, b: seq<seq<byte>>)
    requires Fit(a) && Fit(b)
    ensures Fit(a + b) && Stream(a + b) == Stream(a) + Stream(b)
  {
    hide Frame;
    assert Fit(a + b);
    if a == [] {
      assert a + b == b;
    } else {
      assert (a + b)[1..] == a[1..] + b;
      StreamJoin(a[1..], b);
    }
  }

  /** A read that returns, returns the oldest unread frame intact and takes it off the queue,
      or finds it longer than the caller's buffer and leaves it; it never finds half a frame. */
  lemma ReadOk(s: State)
    requires Inv(s)
    ensures Inv(ReadStep(s))
    ensures !s.reader.Finished? && ReadStep(s).reader.Finished? ==>
      && Unread(s) != []
      && var m := Unread(s)[0];
      && (ReadStep(s).reader == Finished(Ok, m) || ReadStep(s).reader == Finished(Invalid, []))
      && (ReadStep(s).reader.rc == Ok ==> ReadStep(s).read == s.read + [m])
      && (ReadStep(s).reader.rc == Invalid ==> ReadStep(s).read == s.read && s.reader.ReadLen? && s.reader.cap < |m|)
  {
    match s.reader
    case Finished(_, _) =>
    case ReadLen(cap, avail, got) =>
      if |got| < LEN {
        ReadsOldest(s, |got|);
        hide Holds, Stream;
      } else {
        LengthKnown(s);
      }
    case ReadBody(len, got) =>
      if |got| < len {
        ReadsOldest(s, LEN + |got|);
        hide Holds, Stream;
      } else {
        Taken(s);
      }
  }

  lemma LengthKnown(s: State)
    requires Inv(s) && s.reader.ReadLen? && |s.reader.got| == LEN
    ensures Inv(ReadStep(s)) && Unread(s) != []
    ensures ReadStep(s).reader.Finished? ==>
      ReadStep(s).reader == Finished(Invalid, []) && ReadStep(s).read == s.read && s.reader.cap < |Unread(s)[0]|
  {
    hide Holds, Stream, Put32, Get32;
    var len := |Unread(s)[0]|;
    assert s.reader.got[..LEN] == s.reader.got && Put32(len)[..LEN] == Put32(len);
    RoundTrip32(|Unread(s)[0]|);
  }

  lemma Taken(s: State)
    requires Inv(s) && s.reader.ReadBody? && |s.reader.got| == s.reader.len
    ensures Inv(ReadStep(s))
  {
    hide Stream, Holds, Frame, Index, Get32, Put32;
    var s', q := ReadStep(s), Unread(s);
    var m := q[0];
    assert s.reader.got == m;
    TakenBytes(s.data, s.read, q, Unpublished(s.writer));
    hide ReaderOk;
    assert Unread(s') == q[1..];
    AddWrap(|Stream(s.read)|, LEN + |m|);
  }

  /** Moving the tail past the oldest frame. */
  lemma TakenBytes(data: seq<byte>, read: seq<seq<byte>>, q: seq<seq<byte>>, more: seq<byte>)
    requires |data| == RING && Fit(read) && Fit(q) && q != [] && Holds(data, |Stream(read)|, Stream(q) + more)
    ensures Fit(read + [q[0]]) && Fit(q[1..])
    ensures |Stream(read + [q[0]])| == |Stream(read)| + LEN + |q[0]|
    ensures |Stream(read + [q[0]])| + |Stream(q[1..])| == |Stream(read)| + |Stream(q)|
    ensures Holds(data, |Stream(read + [q[0]])|, Stream(q[1..]) + more)
  {
    hide Stream, Frame, Holds, Put32;
    Oldest(q);
    var n := LEN + |q[0]|;
    StreamJoin(read, [q[0]]);
    FrameAlone(q[0]);
    HoldsDrop(data, |Stream(read)|, Stream(q) + more, n);
    assert (Stream(q) + more)[n..] == Stream(q)[n..] + more;
  }

  lemma FrameAlone(m: seq<byte>)
    requires |m| <= RING - LEN
    ensures |Stream([m])| == LEN + |m|
  {
    assert [m][1..] == [];
  }

  // ---- Runs ----

  function Run(s: State, actions: seq<Action>): (r: State)
    requires |s.data| == RING
    ensures |r.data| == RING
    decreases |actions|
  {
    if actions == [] then s else Next(Run(s, actions[..|actions| - 1]), actions[|actions| - 1])
  }

  lemma StepOk(s: State, a: Action)
    requires Inv(s)
    ensures Inv(Next(s, a))
  {
    match a
    case CallWrite(msg) => CallWriteOk(s, msg);
    case WriterStep => WriteOk(s);
    case CallRead(cap) => CallReadOk(s, cap);
    case ReaderStep => ReadOk(s);
  }

  /** Under every interleaving, from fresh memory: what has been read is a prefix of what has
      been written, message by message and byte by byte. */
  lemma {:induction false} FirstInFirstOut(s: State, actions: seq<Action>)
    requires Initial(s)
    ensures Inv(Run(s, actions))
    ensures Prefix(Run(s, actions).read, Run(s, actions).written)
    decreases |actions|
  {
    hide Next, Stream, Holds;
    if actions == [] {
      InitialOk(s);
    } else {
      var init, a := actions[..|actions| - 1], actions[|actions| - 1];
      FirstInFirstOut(s, init);
      StepOk(Run(s, init), a);
    }
  }

  /** What one step can do to the queue of frames: nothing, publish at the back the message
      whose write returns at this step, or take from the front the message whose read does. */
  lemma StepRefines(s: State, a: Action)
    requires Inv(s)
    ensures Inv(Next(s, a))
    ensures
      var s' := Next(s, a);
      || Unread(s') == Unread(s)
      || (s.writer.Writing? && s'.writer == Returned(Ok) && Unread(s') == Unread(s) + [s.writer.msg])
      || (Unread(s) != [] && !s.reader.Finished? && s'.reader == Finished(Ok, Unread(s)[0])
        && Unread(s') == Unread(s)[1..])
  {
    hide Inv, Stream, Holds, Index, Frame, ReaderOk, Get32, Put32, Sub, Add, ReadStep, WriteStep, CallReadStep,
      CallWriteStep;
    Ordered(s);
    StepOk(s, a);
    Ordered(Next(s, a));
    match a
    case CallWrite(msg) => CallsKeepQueue(s, msg, 0);
    case WriterStep =>
      WriteRefines(s);
      if s.writer.Writing? { assert (s.written + [s.writer.msg])[|s.read|..] == Unread(s) + [s.writer.msg]; }
    case CallRead(cap) => CallsKeepQueue(s, [], cap);
    case ReaderStep => ReadRefines(s);
  }

  lemma Ordered(s: State)
    requires Inv(s)
    ensures Prefix(s.read, s.written) && |s.data| == RING
  {
    hide Holds, Stream;
  }

  lemma CallsKeepQueue(s: State, msg: seq<byte>, cap: nat)
    requires Inv(s)
    ensures CallWriteStep(s, msg).read == CallReadStep(s, cap).read == s.read
    ensures CallWriteStep(s, msg).written == CallReadStep(s, cap).written == s.written
  {
    hide Inv, Sub, Get32;
  }

  lemma WriteRefines(s: State)
    requires Inv(s) && Prefix(s.read, s.written)
    ensures
      var s' := WriteStep(s);
      && s'.read == s.read
      && (s'.written == s.written
        || (s.writer.Writing? && s'.writer == Returned(Ok) && s'.written == s.written + [s.writer.msg]))
  {
    hide Inv, Frame, Index, Add;
  }

  lemma ReadRefines(s: State)
    requires Inv(s) && Prefix(s.read, s.written)
    ensures
      var s' := ReadStep(s);
      && s'.written == s.written
      && (s'.read == s.read
          || (Unread(s) != [] && !s.reader.Finished? && s'.reader == Finished(Ok, Unread(s)[0])
            && s'.read == s.read + [Unread(s)[0]]))
  {
    ReadOk(s);
    hide Inv, Index, Get32, Add, Frame;
  }
}
