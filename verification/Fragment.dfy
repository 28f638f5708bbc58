/** Fragmentation and reassembly of fragment.c, for any chunk size that leaves room for the
    8-byte fragment header. */
module Fragment {
  import opened Word32
  import opened Bytes
  import opened Protocol
  import opened Status

  const HDR: nat := 8
  const SLOTS: nat := 16
  const FLAG_FRAGMENT: u16 := 1

  predicate ChunkOk(chunk: nat) {
    0 < chunk <= MAX_PAYLOAD - HDR
  }

  // ---- Cutting ----

  /** The number of pieces of a payload. */
  function PieceCount(chunk: nat, len: nat): nat
    requires 0 < chunk
  {
    (len + chunk - 1) / chunk
  }

  function PieceEnd(chunk: nat, len: nat, i: nat): nat {
    if len - i * chunk > chunk then i * chunk + chunk else len
  }

  /** Piece i of a message, as bc_fragment_publish emits it. */
  function Piece(chunk: nat, m: Message, i: nat): Message
    requires ChunkOk(chunk) && |m.payload| <= MAX_PAYLOAD && i * chunk < |m.payload| && i < 0x1_0000
  {
    SmallCount(chunk, |m.payload|);
    m.(flags := FLAG_FRAGMENT,
       payload := Put16(i) + Put16(PieceCount(chunk, |m.payload|)) + [0, 0, 0, 0]
         + m.payload[i * chunk..PieceEnd(chunk, |m.payload|, i)])
  }

  /** Every piece of a message; one that fits is sent as it is. */
  function Pieces(chunk: nat, m: Message): seq<Message>
    requires ChunkOk(chunk) && |m.payload| <= MAX_PAYLOAD
  {
    if |m.payload| <= chunk then [m]
    else
      SmallCount(chunk, |m.payload|);
      seq(PieceCount(chunk, |m.payload|), i requires 0 <= i < PieceCount(chunk, |m.payload|) =>
        (InRange(chunk, |m.payload|, i); Piece(chunk, m, i)))
  }

  lemma SmallCount(chunk: nat, len: nat)
    requires 0 < chunk && len <= MAX_PAYLOAD
    ensures PieceCount(chunk, len) <= MAX_PAYLOAD
    ensures 0 < len ==> 0 < PieceCount(chunk, len)
  {
    if len == 0 {
      assert (chunk - 1) / chunk == 0;
    } else {
      Quotient(len + chunk - 1, chunk, PieceCount(chunk, len));
      Products(PieceCount(chunk, len), chunk, len);
    }
  }

  lemma Products(q: nat, chunk: nat, len: nat)
    requires 0 < chunk && q * chunk <= len + chunk - 1
    ensures len > 0 ==> q <= len
  {
    Factor(len, chunk);
    Ordered(chunk, len, q);
  }

  lemma Factor(a: nat, b: nat)
    requires 0 < b
    ensures a <= a * b
  {
  }

  /** Division by its two inequalities. */
  lemma Quotient(n: nat, d: nat, q: nat)
    requires 0 < d && q == n / d
    ensures q * d <= n < q * d + d
  {
  }

  lemma InRange(chunk: nat, len: nat, i: nat)
    requires 0 < chunk && i < PieceCount(chunk, len)
    ensures i * chunk < len
  {
    Quotient(len + chunk - 1, chunk, PieceCount(chunk, len));
    var q := PieceCount(chunk, len);
    assert i * chunk <= (q - 1) * chunk == q * chunk - chunk;
  }

  /** Byte j of a payload lies in piece j / chunk, and only there. */
  lemma WhichPiece(chunk: nat, len: nat, i: nat, j: nat)
    requires 0 < chunk && j < len && i * chunk < len
    ensures i * chunk <= j < PieceEnd(chunk, len, i) <==> j / chunk == i
    ensures j / chunk < PieceCount(chunk, len)
  {
    var q := j / chunk;
    Quotient(j, chunk, q);
    Quotient(len + chunk - 1, chunk, PieceCount(chunk, len));
    Ordered(chunk, q, i);
    Ordered(chunk, q, PieceCount(chunk, len));
  }

  lemma Ordered(chunk: nat, a: nat, b: nat)
    requires 0 < chunk
    ensures a < b ==> a * chunk + chunk <= b * chunk
    ensures b < a ==> b * chunk + chunk <= a * chunk
  {
    if a < b { Steps(chunk, a, b); }
    if b < a { Steps(chunk, b, a); }
  }

  lemma {:induction false} Steps(chunk: nat, a: nat, b: nat)
    requires a < b
    ensures a * chunk + chunk <= b * chunk
  {
    assert b * chunk == (b - 1) * chunk + chunk;
    if a < b - 1 { Steps(chunk, a, b - 1); }
  }

  lemma LastPiece(chunk: nat, len: nat)
    requires 0 < chunk && 0 < len
    ensures
      var n := PieceCount(chunk, len);
      0 < n && (n - 1) * chunk < len && PieceEnd(chunk, len, n - 1) == len
  {
    Quotient(len + chunk - 1, chunk, PieceCount(chunk, len));
    var n := PieceCount(chunk, len);
    InRange(chunk, len, n - 1);
    assert (n - 1) * chunk == n * chunk - chunk;
  }

  /** The loop of bc_fragment_publish with a callback that takes `budget` pieces and then fails:
      the pieces go out in order, up to the first that is not taken, and its error is returned. */
  method Publish(chunk: nat, m: Message, budget: nat) returns (ok: bool, pieces: seq<Message>)
    requires ChunkOk(chunk) && |m.payload| <= MAX_PAYLOAD
    ensures ok <==> |Pieces(chunk, m)| <= budget
    ensures pieces == Pieces(chunk, m)[..if ok then |Pieces(chunk, m)| else budget]
  {
    if |m.payload| <= chunk {
      assert [m][..1] == [m] && [m][..0] == [];
      return budget > 0, if budget > 0 then [m] else [];
    }
    SmallCount(chunk, |m.payload|);
    var total := (|m.payload| + chunk - 1) / chunk;
    pieces := [];
    var index := 0;
    while index < total
      invariant 0 <= index <= total && |pieces| == index <= budget
      invariant forall i | 0 <= i < index :: pieces[i] == Pieces(chunk, m)[i]
    {
      InRange(chunk, |m.payload|, index);
      var offset := index * chunk;
      var len := |m.payload| - offset;
      if len > chunk { len := chunk; }
      var piece := m.(flags := FLAG_FRAGMENT,
        payload := Put16(index) + Put16(total) + [0, 0, 0, 0] + m.payload[offset..offset + len]);
      assert piece == Piece(chunk, m, index);
      if index == budget { return false, pieces; }
      pieces := pieces + [piece];
      index := index + 1;
    }
    ok := true;
  }

  // ---- Reassembly ----

  datatype Slot = Slot(
    active: bool, seqNo: u32, src: u32, total: u16, received: u16, bitmap: seq<bool>,
    topic: seq<byte>, channel: seq<byte>, dst: u32, qos: u16, payload: seq<byte>, payloadLen: nat)

  predicate Shaped(chunk: nat, s: Slot)
    requires 0 < chunk
  {
    |s.bitmap| == MAX_PAYLOAD / chunk + 1 && |s.payload| == MAX_PAYLOAD && s.payloadLen <= MAX_PAYLOAD
  }

  predicate AllShaped(chunk: nat, slots: seq<Slot>)
    requires 0 < chunk
  {
    |slots| == SLOTS && forall s <- slots :: Shaped(chunk, s)
  }

  predicate Matches(s: Slot, seqNo: u32, src: u32) {
    s.active && s.seqNo == seqNo && s.src == src
  }

  /** The first slot from number i on that holds this message. */
  function FindMatch(slots: seq<Slot>, seqNo: u32, src: u32, i: nat): (r: nat)
    requires i <= |slots|
    ensures i <= r <= |slots|
    ensures forall j | i <= j < r :: !Matches(slots[j], seqNo, src)
    ensures r < |slots| ==> Matches(slots[r], seqNo, src)
    decreases |slots| - i
  {
    if i == |slots| || Matches(slots[i], seqNo, src) then i else FindMatch(slots, seqNo, src, i + 1)
  }

  function FindFree(slots: seq<Slot>, i: nat): (r: nat)
    requires i <= |slots|
    ensures i <= r <= |slots|
    ensures forall j | i <= j < r :: slots[j].active
    ensures r < |slots| ==> !slots[r].active
    decreases |slots| - i
  {
    if i == |slots| || !slots[i].active then i else FindFree(slots, i + 1)
  }

  /** find_slot: the message's slot, else the first free one; |slots| when there is neither. */
  function Find(slots: seq<Slot>, seqNo: u32, src: u32): (r: nat)
    ensures r <= |slots|
  {
    var k := FindMatch(slots, seqNo, src, 0);
    if k < |slots| then k else FindFree(slots, 0)
  }

  /** strncpy into an array of `size` bytes whose last byte stays 0. */
  function CopyName(s: seq<byte>, size: nat): seq<byte>
    requires 0 < size
  {
    if |s| < size then s else s[..size - 1]
  }

  function Opened(chunk: nat, s: Slot, frag: Message, total: u16): (r: Slot)
    requires 0 < chunk && Shaped(chunk, s)
    ensures Shaped(chunk, r) && r.total == total
  {
    Slot(true, frag.seqNo, frag.src, total, 0, seq(MAX_PAYLOAD / chunk + 1, i => false),
         CopyName(frag.topic, MAX_TOPIC), CopyName(frag.channel, MAX_CHANNEL), frag.dst, frag.qos, s.payload, 0)
  }

  /** A slot after a piece's bytes were copied in. */
  function Stored(chunk: nat, s: Slot, index: nat, data: seq<byte>): Slot
    requires 0 < chunk && Shaped(chunk, s) && index * chunk + |data| <= MAX_PAYLOAD && index < |s.bitmap|
  {
    var offset := index * chunk;
    s.(payload := s.payload[..offset] + data + s.payload[offset + |data|..],
       bitmap := s.bitmap[index := true],
       received := (s.received + 1) % 0x1_0000,
       payloadLen := if offset + |data| > s.payloadLen then offset + |data| else s.payloadLen)
  }

  function Assembled(s: Slot): Message
    requires s.payloadLen <= |s.payload|
  {
    Message(s.src, s.dst, 0, s.qos, s.seqNo, CopyName(s.channel, MAX_CHANNEL), CopyName(s.topic, MAX_TOPIC),
      s.payload[..s.payloadLen])
  }

  /** The index and the total a fragment carries. */
  function IndexOf(frag: Message): u16
    requires |frag.payload| >= HDR
  {
    Get16(frag.payload[0..2])
  }

  function TotalOf(frag: Message): u16
    requires |frag.payload| >= HDR
  {
    Get16(frag.payload[2..4])
  }

  predicate Plausible(frag: Message) {
    |frag.payload| >= HDR && TotalOf(frag) != 0 && IndexOf(frag) < TotalOf(frag)
  }

  /** The outcome for the one slot a fragment belongs to: the slot, the code and the message. */
  function FeedSlot(chunk: nat, s: Slot, frag: Message): (r: (Slot, Code, Option<Message>))
    requires ChunkOk(chunk) && Shaped(chunk, s) && Plausible(frag)
    ensures Shaped(chunk, r.0)
  {
    var index, total := IndexOf(frag), TotalOf(frag);
    var data := frag.payload[HDR..];
    if s.active && s.total != total then (s, Invalid, None)
    else
      var s1 := if s.active then s else Opened(chunk, s, frag, total);
      if index * chunk + |data| > MAX_PAYLOAD then (s1, Invalid, None)
      else
        BitmapBound(chunk, index);
        if s1.bitmap[index] then (s1, NotFound, None)
        else
          var s2 := Stored(chunk, s1, index, data);
          if s2.received < s2.total then (s2, NotFound, None)
          else (s2.(active := false), Ok, Some(Assembled(s2)))
  }

  /** The offset check keeps the bitmap index in bounds, whatever index a fragment claims. */
  lemma BitmapBound(chunk: nat, index: nat)
    requires 0 < chunk && index * chunk <= MAX_PAYLOAD
    ensures index < MAX_PAYLOAD / chunk + 1
  {
    Quotient(MAX_PAYLOAD, chunk, MAX_PAYLOAD / chunk);
    Ordered(chunk, MAX_PAYLOAD / chunk, index);
  }

  /** bc_reasm_feed on the slot table. */
  function Fed(chunk: nat, slots: seq<Slot>, frag: Message): (r: (seq<Slot>, Code, Option<Message>))
    requires ChunkOk(chunk) && AllShaped(chunk, slots)
    ensures AllShaped(chunk, r.0)
  {
    if !Plausible(frag) then (slots, Invalid, None)
    else
      var k := Find(slots, frag.seqNo, frag.src);
      if k == |slots| then (slots, NoMem, None)
      else
        assert slots[k] in slots;
        var r := FeedSlot(chunk, slots[k], frag);
        (slots[k := r.0], r.1, r.2)
  }

  /** The reassembly table of bc_reasm_t. */
  class Reassembler {
    const chunk: nat
    const slots: array<Slot>

    ghost predicate Valid()
      reads slots
    {
      ChunkOk(chunk) && AllShaped(chunk, slots[..])
    }

    constructor (chunk: nat)
      requires ChunkOk(chunk)
      ensures Valid() && this.chunk == chunk && fresh(slots) && forall s <- slots[..] :: !s.active
    {
      this.chunk := chunk;
      var bitmap := seq(MAX_PAYLOAD / chunk + 1, i => false);
      var payload: seq<byte> := seq(MAX_PAYLOAD, i => 0);
      slots := new Slot[SLOTS](_ => Slot(false, 0, 0, 0, 0, bitmap, [], [], 0, 0, payload, 0));
    }

    method FindSlot(seqNo: u32, src: u32) returns (k: nat)
      requires Valid()
      ensures k == Find(slots[..], seqNo, src)
    {
      ghost var all := slots[..];
      var free := slots.Length;
      k := 0;
      while k < slots.Length
        invariant k <= slots.Length && free <= slots.Length && slots[..] == all
        invariant FindMatch(all, seqNo, src, 0) == FindMatch(all, seqNo, src, k)
        invariant free < slots.Length ==> FindFree(all, 0) == free
        invariant free == slots.Length ==> FindFree(all, 0) == FindFree(all, k)
      {
        if slots[k].active && slots[k].seqNo == seqNo && slots[k].src == src { return; }
        if !slots[k].active && free == slots.Length { free := k; }
        k := k + 1;
      }
      k := free;
    }

    method Feed(frag: Message) returns (rc: Code, out: Option<Message>)
      requires Valid()
      modifies slots
      ensures Valid()
      ensures (slots[..], rc, out) == Fed(chunk, old(slots[..]), frag)
    {
      hide Find, Get16, Opened, Stored, Assembled;
      out := None;
      if |frag.payload| < HDR { return Invalid, None; }
      var index, total := Get16(frag.payload[0..2]), Get16(frag.payload[2..4]);
      if total == 0 || index >= total { return Invalid, None; }
      var k := FindSlot(frag.seqNo, frag.src);
      if k == slots.Length { return NoMem, None; }
      assert slots[..][k] in slots[..];
      ghost var was := slots[..];
      ghost var spec := FeedSlot(chunk, slots[k], frag);
      if !slots[k].active {
        slots[k] := Opened(chunk, slots[k], frag, total);
      } else if slots[k].total != total {
        assert was[k := was[k]] == was;
        return Invalid, None;
      }
      var data := frag.payload[HDR..];
      if index * chunk + |data| > MAX_PAYLOAD {
        assert slots[..] == was[k := spec.0];
        return Invalid, None;
      }
      BitmapBound(chunk, index);
      if slots[k].bitmap[index] {
        assert slots[..] == was[k := spec.0];
        return NotFound, None;
      }
      slots[k] := Stored(chunk, slots[k], index, data);
      if slots[k].received < slots[k].total {
        assert slots[..] == was[k := spec.0];
        return NotFound, None;
      }
      out := Some(Assembled(slots[k]));
      slots[k] := slots[k].(active := false);
      rc := Ok;
      assert slots[..] == was[k := spec.0];
    }
  }

  /** The first fragment of a message opens a slot before its size is checked: it is refused if
      and only if its bytes would lie outside the payload, and then the slot stays taken, empty. */
  lemma RefusedKeepsSlot(chunk: nat, slots: seq<Slot>, frag: Message)
    requires ChunkOk(chunk) && AllShaped(chunk, slots) && Plausible(frag)
    requires FindMatch(slots, frag.seqNo, frag.src, 0) == |slots| && FindFree(slots, 0) < |slots|
    ensures
      var r, k := Fed(chunk, slots, frag), FindFree(slots, 0);
      && (r.1 == Invalid <==> IndexOf(frag) * chunk + |frag.payload| - HDR > MAX_PAYLOAD)
      && (r.1 == Invalid ==> r.0[k].active && r.0[k].received == 0 && KeyIs(r.0[k], frag))
  {
    var k := FindFree(slots, 0);
    assert slots[k] in slots;
  }

  /** A fragment that claims a place outside the payload. */
  predicate Overlong(chunk: nat, frag: Message) {
    Plausible(frag) && IndexOf(frag) * chunk + |frag.payload| - HDR > MAX_PAYLOAD
  }

  predicate KeyIs(s: Slot, frag: Message) {
    s.seqNo == frag.seqNo && s.src == frag.src
  }

  /** For example: chunks of 1392 bytes, and a fragment with index 1 and 9 bytes. */
  lemma ExampleRefused(slots: seq<Slot>)
    requires AllShaped(1392, slots) && forall s <- slots :: !s.active
    ensures
      var frag := Message(7, 0, FLAG_FRAGMENT, 0, 1, [], [116], [1, 0, 2, 0, 0, 0, 0, 0, 1, 2, 3, 4, 5, 6, 7, 8, 9]);
      ChunkOk(1392) && Overlong(1392, frag) && Fed(1392, slots, frag).1 == Invalid && Fed(1392, slots, frag).0[0].active
  {
    var frag := Message(7, 0, FLAG_FRAGMENT, 0, 1, [], [116], [1, 0, 2, 0, 0, 0, 0, 0, 1, 2, 3, 4, 5, 6, 7, 8, 9]);
    assert slots[0] in slots;
    NoMatch(slots, frag, 0);
    assert FindFree(slots, 0) == 0;
    RefusedKeepsSlot(1392, slots, frag);
  }

  lemma {:induction false} NoMatch(slots: seq<Slot>, frag: Message, i: nat)
    requires i <= |slots| && forall s <- slots :: !(s.active && KeyIs(s, frag))
    ensures FindMatch(slots, frag.seqNo, frag.src, i) == |slots|
    decreases |slots| - i
  {
    if i < |slots| {
      assert slots[i] in slots;
      NoMatch(slots, frag, i + 1);
    }
  }
}
