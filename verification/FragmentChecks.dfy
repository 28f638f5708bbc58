/** What becomes of any fragment at all, well formed or not, in any state of the reassembly table. */
module FragmentChecks {
  import opened Word32
  import opened Bytes
  import opened Protocol
  import opened Status
  import opened Fragment

  /** The fragment could be piece `index` of `total` of some message. */
  predicate Piecelike(frag: Message) {
    |frag.payload| >= 8 && Get16(frag.payload[0..2]) < Get16(frag.payload[2..4])
  }

  /** Slot k is the first that holds the message of the fragment, or, when none does, the first that is free. */
  predicate Owner(slots: seq<Slot>, frag: Message, k: nat) {
    && k < |slots|
    && if exists s <- slots :: s.active && s.seqNo == frag.seqNo && s.src == frag.src then
         && slots[k].active && slots[k].seqNo == frag.seqNo && slots[k].src == frag.src
         && forall i | 0 <= i < k :: !(slots[i].active && slots[i].seqNo == frag.seqNo && slots[i].src == frag.src)
       else !slots[k].active && forall i | 0 <= i < k :: slots[i].active
  }

  lemma OwnerIs(slots: seq<Slot>, frag: Message)
    ensures
      var k := Find(slots, frag.seqNo, frag.src);
      if k < |slots| then Owner(slots, frag, k)
      else forall s <- slots :: s.active && !(s.seqNo == frag.seqNo && s.src == frag.src)
  {
    var m := FindMatch(slots, frag.seqNo, frag.src, 0);
    if m < |slots| {
      assert slots[m] in slots;
    } else {
      forall s | s in slots ensures !(s.active && s.seqNo == frag.seqNo && s.src == frag.src) {
        var i :| 0 <= i < |slots| && slots[i] == s;
      }
      if FindFree(slots, 0) == |slots| {
        forall s | s in slots ensures s.active { var i :| 0 <= i < |slots| && slots[i] == s; }
      }
    }
  }

  lemma OneOwner(slots: seq<Slot>, frag: Message, j: nat, k: nat)
    requires Owner(slots, frag, j) && Owner(slots, frag, k)
    ensures j == k
  {
  }

  /** Nothing is done with what cannot be a piece, or with a piece that finds no slot. */
  lemma Unowned(chunk: nat, slots: seq<Slot>, frag: Message)
    requires ChunkOk(chunk) && AllShaped(chunk, slots)
    ensures !Piecelike(frag) ==> Fed(chunk, slots, frag) == (slots, Invalid, None)
    ensures Piecelike(frag) && (forall k | 0 <= k < 16 :: !Owner(slots, frag, k)) ==>
      Fed(chunk, slots, frag) == (slots, NoMem, None)
  {
    OwnerIs(slots, frag);
    hide Find, Get16, FeedSlot, Owner;
  }

  /** What a piece does to the slot that owns it. */
  predicate Does(chunk: nat, s: Slot, frag: Message, s': Slot, rc: Code, out: Option<Message>)
    requires ChunkOk(chunk) && Shaped(chunk, s) && Piecelike(frag)
  {
    var index, total, data := Get16(frag.payload[0..2]), Get16(frag.payload[2..4]), frag.payload[8..];
    var seen := if s.active then s.received else 0;
    if s.active && s.total != total then (s', rc, out) == (s, Invalid, None)
    else if index * chunk + |data| > 1400 then
      rc == Invalid && out == None && s'.active && (s.active ==> s' == s) && s'.received == seen
    else
      BitmapBound(chunk, index);
      if s.active && s.bitmap[index] then (s', rc, out) == (s, NotFound, None)
      else
        && s'.received == (seen + 1) % 0x1_0000 && s'.total == total
        && s'.active == (rc == NotFound) && (rc == Ok <==> s'.received >= total) && (rc == Ok <==> out.Some?)
        && (rc == Ok || rc == NotFound)
        && |s'.payload| == 1400 && s'.payload[index * chunk..index * chunk + |data|] == data
        && (out.Some? ==> out.value.payload <= s'.payload && index * chunk + |data| <= |out.value.payload|)
  }

  /** Any piece with a slot: the other slots stay, and it does to its own what it should. */
  lemma Owned(chunk: nat, slots: seq<Slot>, frag: Message, k: nat)
    requires ChunkOk(chunk) && AllShaped(chunk, slots) && Piecelike(frag) && Owner(slots, frag, k)
    ensures slots[k] in slots
    ensures
      var (slots', rc, out) := Fed(chunk, slots, frag);
      && |slots'| == |slots| && (forall i | 0 <= i < |slots| && i != k :: slots'[i] == slots[i])
      && Does(chunk, slots[k], frag, slots'[k], rc, out)
  {
    OwnerIs(slots, frag);
    var j := Find(slots, frag.seqNo, frag.src);
    if j == |slots| { NoOwner(slots, frag, k); }
    OneOwner(slots, frag, j, k);
    assert slots[k] in slots;
    hide Find, Owner, Does, FeedSlot;
    SlotDoes(chunk, slots[k], frag);
  }

  lemma NoOwner(slots: seq<Slot>, frag: Message, k: nat)
    requires forall s <- slots :: s.active && !(s.seqNo == frag.seqNo && s.src == frag.src)
    ensures !Owner(slots, frag, k)
  {
    if k < |slots| { assert slots[k] in slots; }
  }

  lemma SlotDoes(chunk: nat, s: Slot, frag: Message)
    requires ChunkOk(chunk) && Shaped(chunk, s) && Piecelike(frag)
    ensures var r := FeedSlot(chunk, s, frag); Does(chunk, s, frag, r.0, r.1, r.2)
  {
    hide Get16, Opened, Stored;
    var index, total, data := IndexOf(frag), TotalOf(frag), frag.payload[HDR..];
    OpenedIs(chunk, s, frag, total);
    if !(s.active && s.total != total) && index * chunk + |data| <= MAX_PAYLOAD {
      BitmapBound(chunk, index);
      StoredIs(chunk, if s.active then s else Opened(chunk, s, frag, total), index, data);
    }
  }

  lemma OpenedIs(chunk: nat, s: Slot, frag: Message, total: u16)
    requires ChunkOk(chunk) && Shaped(chunk, s)
    ensures var r := Opened(chunk, s, frag, total); r.active && r.received == 0 && r.total == total
    ensures forall i | 0 <= i < |Opened(chunk, s, frag, total).bitmap| :: !Opened(chunk, s, frag, total).bitmap[i]
  {
  }

  lemma StoredIs(chunk: nat, s: Slot, index: nat, data: seq<byte>)
    requires ChunkOk(chunk) && Shaped(chunk, s) && index * chunk + |data| <= MAX_PAYLOAD && index < |s.bitmap|
    ensures
      var r, at := Stored(chunk, s, index, data), index * chunk;
      && r.active == s.active && r.received == (s.received + 1) % 0x1_0000 && r.total == s.total
      && |r.payload| == MAX_PAYLOAD && r.payload[at..at + |data|] == data && r.payloadLen >= at + |data|
      && r.payloadLen <= MAX_PAYLOAD
  {
  }

  /** Whatever fragments come in: a message that comes out has names and a payload within the bounds of messages,
      and no flags. */
  lemma OutputInBounds(chunk: nat, slots: seq<Slot>, frag: Message)
    requires ChunkOk(chunk) && AllShaped(chunk, slots)
    ensures
      var out := Fed(chunk, slots, frag).2;
      out.Some? ==>
        |out.value.channel| < 32 && |out.value.topic| < 64 && |out.value.payload| <= 1400 && out.value.flags == 0
  {
    hide Find, Get16, Opened, Stored;
  }
}
