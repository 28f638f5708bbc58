/** Reassembly inverts fragmentation: pieces of many messages in any order and any interleaving
    give back each message, once, when its last missing piece arrives. */
module Reassembly {
  import opened Word32
  import opened Bytes
  import opened Protocol
  import opened Status
  import opened Fragment

  datatype Key = Key(seqNo: u32, src: u32)

  function KeyOf(s: Slot): Key {
    Key(s.seqNo, s.src)
  }

  /** A message that bc_fragment_publish cuts: it does not fit one piece. */
  predicate Cuttable(chunk: nat, m: Message) {
    Encodable(m) && ChunkOk(chunk) && chunk < |m.payload|
  }

  function Count(chunk: nat, m: Message): (n: nat)
    requires Cuttable(chunk, m)
    ensures 0 < n <= MAX_PAYLOAD
  {
    SmallCount(chunk, |m.payload|);
    PieceCount(chunk, |m.payload|)
  }

  function PieceOf(chunk: nat, m: Message, i: nat): Message
    requires Cuttable(chunk, m) && i < Count(chunk, m)
  {
    InRange(chunk, |m.payload|, i);
    Piece(chunk, m, i)
  }

  function Data(chunk: nat, m: Message, i: nat): (d: seq<byte>)
    requires Cuttable(chunk, m) && i < Count(chunk, m)
    ensures i * chunk + |d| == PieceEnd(chunk, |m.payload|, i) <= |m.payload| <= MAX_PAYLOAD
    ensures i < MAX_PAYLOAD / chunk + 1
  {
    InRange(chunk, |m.payload|, i);
    BitmapBound(chunk, i);
    m.payload[i * chunk..PieceEnd(chunk, |m.payload|, i)]
  }

  /** A slot that has the pieces g of m, and nothing else. */
  predicate Has(chunk: nat, s: Slot, m: Message, g: set<nat>)
    requires Cuttable(chunk, m)
  {
    && Shaped(chunk, s) && s.active && KeyOf(s) == Key(m.seqNo, m.src)
    && s.total == Count(chunk, m) && s.received == |g|
    && s.topic == m.topic && s.channel == m.channel && s.dst == m.dst && s.qos == m.qos
    && (forall i <- g :: i < Count(chunk, m))
    && (forall i | 0 <= i < |s.bitmap| :: s.bitmap[i] <==> i in g)
    && (forall j | 0 <= j < |m.payload| && j / chunk in g :: s.payload[j] == m.payload[j])
    && s.payloadLen <= |m.payload| && (Count(chunk, m) - 1 in g ==> s.payloadLen == |m.payload|)
  }

  /** The numbers of all n pieces. */
  function All(n: nat): (r: set<nat>)
    ensures |r| == n && forall i: nat :: i in r <==> i < n
  {
    if n == 0 then {} else All(n - 1) + {n - 1}
  }

  /** Having as many pieces as there are is having them all. */
  lemma Everything(g: set<nat>, n: nat)
    requires forall i <- g :: i < n
    ensures |g| <= n && (|g| == n <==> g == All(n))
  {
    assert g <= All(n);
    var rest := All(n) - g;
    assert All(n) == g + rest;
  }

  lemma AtMost(g: set<nat>, n: nat)
    requires forall i <- g :: i < n
    ensures |g| <= n
  {
    Everything(g, n);
  }

  lemma PieceFields(chunk: nat, m: Message, i: nat)
    requires Cuttable(chunk, m) && i < Count(chunk, m)
    ensures
      var p := PieceOf(chunk, m, i);
      && Plausible(p) && IndexOf(p) == i && TotalOf(p) == Count(chunk, m) && p.payload[HDR..] == Data(chunk, m, i)
      && p == m.(flags := FLAG_FRAGMENT, payload := p.payload)
  {
    InRange(chunk, |m.payload|, i);
    hide Put16, Get16;
    var p := Piece(chunk, m, i);
    assert p.payload[0..2] == Put16(i) && p.payload[2..4] == Put16(Count(chunk, m));
    RoundTrip16(i);
    RoundTrip16(Count(chunk, m));
  }

  lemma LastEnds(chunk: nat, m: Message, i: nat)
    requires Cuttable(chunk, m) && i == Count(chunk, m) - 1
    ensures PieceEnd(chunk, |m.payload|, i) == |m.payload|
  {
    LastPiece(chunk, |m.payload|);
  }

  lemma OpenedHas(chunk: nat, s: Slot, m: Message, frag: Message)
    requires Cuttable(chunk, m) && Shaped(chunk, s)
    requires frag == m.(flags := frag.flags, payload := frag.payload)
    ensures Has(chunk, Opened(chunk, s, frag, Count(chunk, m)), m, {})
  {
  }

  /** Where the bytes of a payload come from once piece i is stored. */
  lemma StoredBytes(chunk: nat, s: Slot, m: Message, i: nat, j: nat)
    requires Cuttable(chunk, m) && i < Count(chunk, m) && Shaped(chunk, s) && j < |m.payload|
    ensures
      Stored(chunk, s, i, Data(chunk, m, i)).payload[j] == if j / chunk == i then m.payload[j] else s.payload[j]
  {
    InRange(chunk, |m.payload|, i);
    WhichPiece(chunk, |m.payload|, i, j);
  }

  lemma StoredHas(chunk: nat, s: Slot, m: Message, g: set<nat>, i: nat)
    requires Cuttable(chunk, m) && Has(chunk, s, m, g) && i < Count(chunk, m) && i !in g
    ensures Has(chunk, Stored(chunk, s, i, Data(chunk, m, i)), m, g + {i})
  {
    if i == Count(chunk, m) - 1 { LastEnds(chunk, m, i); }
    AtMost(g, Count(chunk, m));
    StoredFields(chunk, s, i, Data(chunk, m, i));
    var t := Stored(chunk, s, i, Data(chunk, m, i));
    forall j | 0 <= j < |m.payload| ensures t.payload[j] == if j / chunk == i then m.payload[j] else s.payload[j] {
      StoredBytes(chunk, s, m, i, j);
    }
    hide Data, Count, PieceEnd, Stored, PieceCount;
  }

  lemma StoredFields(chunk: nat, s: Slot, i: nat, d: seq<byte>)
    requires 0 < chunk && Shaped(chunk, s) && i * chunk + |d| <= MAX_PAYLOAD && i < |s.bitmap|
    ensures
      var t := Stored(chunk, s, i, d);
      && Shaped(chunk, t) && t.active == s.active && KeyOf(t) == KeyOf(s) && t.total == s.total
      && t.topic == s.topic && t.channel == s.channel && t.dst == s.dst && t.qos == s.qos
      && t.received == (s.received + 1) % 0x1_0000 && t.bitmap == s.bitmap[i := true]
      && t.payloadLen == if i * chunk + |d| > s.payloadLen then i * chunk + |d| else s.payloadLen
  {
  }

  /** A slot that has every piece gives the message back, with its flags cleared. */
  lemma HasAll(chunk: nat, s: Slot, m: Message)
    requires Cuttable(chunk, m) && Has(chunk, s, m, All(Count(chunk, m)))
    ensures Assembled(s) == m.(flags := 0)
  {
    forall j | 0 <= j < |m.payload| ensures s.payload[j] == m.payload[j] {
      InRange(chunk, |m.payload|, 0);
      WhichPiece(chunk, |m.payload|, 0, j);
    }
    assert s.payload[..s.payloadLen] == m.payload;
  }

  /** One piece and the slot it goes to. */
  lemma SlotStep(chunk: nat, s: Slot, m: Message, g: set<nat>, i: nat)
    requires Cuttable(chunk, m) && i < Count(chunk, m) && Shaped(chunk, s)
    requires if s.active then Has(chunk, s, m, g) && |g| < Count(chunk, m) else g == {}
    ensures Plausible(PieceOf(chunk, m, i))
    ensures
      var r := FeedSlot(chunk, s, PieceOf(chunk, m, i));
      if g + {i} == All(Count(chunk, m)) then !r.0.active && r.1 == Ok && r.2 == Some(m.(flags := 0))
      else Has(chunk, r.0, m, g + {i}) && r.1 == NotFound && r.2 == None
  {
    var p, n := PieceOf(chunk, m, i), Count(chunk, m);
    PieceFields(chunk, m, i);
    OpenedHas(chunk, s, m, p);
    Everything(g, n);
    Everything(g + {i}, n);
    var s1 := if s.active then s else Opened(chunk, s, p, n);
    hide Opened, PieceOf, Data, IndexOf, TotalOf, All;
    if i in g {
      assert g + {i} == g;
    } else {
      StoredHas(chunk, s1, m, g, i);
      var s2 := Stored(chunk, s1, i, Data(chunk, m, i));
      hide Stored;
      if g + {i} == All(n) { HasAll(chunk, s2, m); }
    }
  }

  // ---- The table, and every interleaving of many messages ----

  /** The messages under way, by the key the slots know them by. */
  type Sent = map<Key, Message>
  type Got = map<Key, set<nat>>

  predicate SentOk(chunk: nat, sent: Sent) {
    forall key <- sent :: Cuttable(chunk, sent[key]) && Key(sent[key].seqNo, sent[key].src) == key
  }

  /** Begun and not complete. */
  predicate Open(chunk: nat, sent: Sent, got: Got, key: Key)
    requires SentOk(chunk, sent) && got.Keys == sent.Keys && key in sent
  {
    got[key] != {} && |got[key]| < Count(chunk, sent[key])
  }

  function OpenKeys(chunk: nat, sent: Sent, got: Got): set<Key>
    requires SentOk(chunk, sent) && got.Keys == sent.Keys
  {
    set key | key in sent && Open(chunk, sent, got, key)
  }

  predicate InSlot(slots: seq<Slot>, k: nat, key: Key) {
    k < |slots| && slots[k].active && KeyOf(slots[k]) == key
  }

  /** Every active slot holds the pieces of one open message, no two the same one, and every
      open message has a slot. */
  ghost predicate Tracks(chunk: nat, slots: seq<Slot>, sent: Sent, got: Got)
    requires ChunkOk(chunk) && SentOk(chunk, sent)
  {
    && AllShaped(chunk, slots) && got.Keys == sent.Keys
    && (forall k | 0 <= k < SLOTS && slots[k].active ::
          KeyOf(slots[k]) in sent && Open(chunk, sent, got, KeyOf(slots[k]))
          && Has(chunk, slots[k], sent[KeyOf(slots[k])], got[KeyOf(slots[k])]))
    && (forall j, k | 0 <= j < k < SLOTS && slots[j].active && slots[k].active :: KeyOf(slots[j]) != KeyOf(slots[k]))
    && (forall key <- sent | Open(chunk, sent, got, key) :: exists k :: InSlot(slots, k, key))
  }

  /** The keys of the first n slots. */
  function Keys(slots: seq<Slot>, n: nat): set<Key>
    requires n <= |slots|
  {
    if n == 0 then {} else Keys(slots, n - 1) + {KeyOf(slots[n - 1])}
  }

  lemma {:induction false} KeyFrom(slots: seq<Slot>, n: nat, key: Key)
    requires n <= |slots| && key in Keys(slots, n)
    ensures exists k | 0 <= k < n :: KeyOf(slots[k]) == key
  {
    hide KeyOf;
    if key in Keys(slots, n - 1) { KeyFrom(slots, n - 1, key); }
  }

  lemma {:induction false} KeysSize(slots: seq<Slot>, n: nat)
    requires n <= |slots| && forall j, k | 0 <= j < k < n :: KeyOf(slots[j]) != KeyOf(slots[k])
    ensures |Keys(slots, n)| == n
  {
    hide KeyOf;
    if n > 0 {
      KeysSize(slots, n - 1);
      if KeyOf(slots[n - 1]) in Keys(slots, n - 1) { KeyFrom(slots, n - 1, KeyOf(slots[n - 1])); }
    }
  }

  /** While at most 16 messages are open there is a slot: its own, or a free one. */
  lemma HasSlot(chunk: nat, slots: seq<Slot>, sent: Sent, got: Got, key: Key)
    requires ChunkOk(chunk) && SentOk(chunk, sent) && Tracks(chunk, slots, sent, got) && key in sent
    requires |OpenKeys(chunk, sent, got) + {key}| <= SLOTS
    ensures
      var k := Find(slots, key.seqNo, key.src);
      k < SLOTS && (if Open(chunk, sent, got, key) then InSlot(slots, k, key) else !slots[k].active)
  {
    hide Has, Shaped, OpenKeys;
    if Open(chunk, sent, got, key) {
      FindsOwn(chunk, slots, sent, got, key);
    } else if FindFree(slots, 0) == SLOTS {
      FullTable(chunk, slots, sent, got);
      NotOpen(chunk, sent, got, key);
      assert false;
    }
  }

  lemma FindsOwn(chunk: nat, slots: seq<Slot>, sent: Sent, got: Got, key: Key)
    requires ChunkOk(chunk) && SentOk(chunk, sent) && Tracks(chunk, slots, sent, got)
    requires key in sent && Open(chunk, sent, got, key)
    ensures InSlot(slots, Find(slots, key.seqNo, key.src), key)
  {
    hide Has, Shaped;
    var k: nat :| InSlot(slots, k, key);
    assert Matches(slots[k], key.seqNo, key.src);
  }

  /** With no slot free, 16 messages are open. */
  lemma FullTable(chunk: nat, slots: seq<Slot>, sent: Sent, got: Got)
    requires ChunkOk(chunk) && SentOk(chunk, sent) && Tracks(chunk, slots, sent, got)
    requires forall k | 0 <= k < SLOTS :: slots[k].active
    ensures |OpenKeys(chunk, sent, got)| >= SLOTS
  {
    hide Has, Shaped;
    KeysSize(slots, SLOTS);
    forall x | x in Keys(slots, SLOTS) ensures x in OpenKeys(chunk, sent, got) {
      KeyFrom(slots, SLOTS, x);
      var k :| 0 <= k < SLOTS && KeyOf(slots[k]) == x;
    }
    SubsetSize(Keys(slots, SLOTS), OpenKeys(chunk, sent, got));
  }

  lemma NotOpen(chunk: nat, sent: Sent, got: Got, key: Key)
    requires SentOk(chunk, sent) && got.Keys == sent.Keys && key in sent && !Open(chunk, sent, got, key)
    ensures |OpenKeys(chunk, sent, got) + {key}| == |OpenKeys(chunk, sent, got)| + 1
  {
    assert key !in OpenKeys(chunk, sent, got);
  }

  lemma SubsetSize(a: set<Key>, b: set<Key>)
    requires a <= b
    ensures |a| <= |b|
  {
    assert b == a + (b - a);
  }

  function Add(got: Got, key: Key, i: nat): Got
    requires key in got
  {
    got[key := got[key] + {i}]
  }

  /** Feeding one piece of a message that is not complete. */
  lemma FeedPiece(chunk: nat, slots: seq<Slot>, sent: Sent, got: Got, key: Key, i: nat)
    requires ChunkOk(chunk) && SentOk(chunk, sent) && Tracks(chunk, slots, sent, got)
    requires key in sent && i < Count(chunk, sent[key]) && |got[key]| < Count(chunk, sent[key])
    requires |OpenKeys(chunk, sent, got) + {key}| <= SLOTS
    ensures
      var r := Fed(chunk, slots, PieceOf(chunk, sent[key], i));
      && Tracks(chunk, r.0, sent, Add(got, key, i))
      && (r.1, r.2) == if got[key] + {i} == All(Count(chunk, sent[key])) then (Ok, Some(sent[key].(flags := 0)))
        else (NotFound, None)
  {
    var m, g := sent[key], got[key];
    var p := PieceOf(chunk, m, i);
    PieceFields(chunk, m, i);
    HasSlot(chunk, slots, sent, got, key);
    var k := Find(slots, key.seqNo, key.src);
    hide PieceOf, FeedSlot, Find, Shaped, OpenKeys;
    assert slots[k] in slots;
    if !Open(chunk, sent, got, key) { assert g == {}; }
    SlotStep(chunk, slots[k], m, g, i);
    Replaced(chunk, slots, sent, got, key, i, k, FeedSlot(chunk, slots[k], p).0);
  }

  /** The table after the one slot a piece belongs to has changed. */
  lemma Replaced(chunk: nat, slots: seq<Slot>, sent: Sent, got: Got, key: Key, i: nat, k: nat, s: Slot)
    requires ChunkOk(chunk) && SentOk(chunk, sent) && Tracks(chunk, slots, sent, got)
    requires key in sent && k < SLOTS && Shaped(chunk, s)
    requires if Open(chunk, sent, got, key) then InSlot(slots, k, key) else !slots[k].active
    requires
      if got[key] + {i} == All(Count(chunk, sent[key])) then !s.active
      else Has(chunk, s, sent[key], got[key] + {i}) && |got[key] + {i}| < Count(chunk, sent[key])
    ensures Tracks(chunk, slots[k := s], sent, Add(got, key, i))
  {
    hide Has, Shaped;
    var slots', got' := slots[k := s], Add(got, key, i);
    assert forall t <- slots' :: t == s || t in slots;
    forall x | x in sent && Open(chunk, sent, got', x) ensures exists j :: InSlot(slots', j, x) {
      if x == key {
        KeyOfHas(chunk, s, sent[key], got'[key]);
        assert InSlot(slots', k, key);
      } else {
        assert Open(chunk, sent, got, x);
        var j :| InSlot(slots, j, x);
        assert InSlot(slots', j, x);
      }
    }
    if s.active { KeyOfHas(chunk, s, sent[key], got'[key]); }
  }

  lemma KeyOfHas(chunk: nat, s: Slot, m: Message, g: set<nat>)
    requires Cuttable(chunk, m) && Has(chunk, s, m, g)
    ensures s.active && KeyOf(s) == Key(m.seqNo, m.src)
  {
  }

  // ---- Runs ----

  datatype Event = Event(key: Key, index: nat)

  /** Which pieces have been fed. */
  function GotAfter(sent: Sent, events: seq<Event>): (g: Got)
    requires forall e <- events :: e.key in sent
    ensures g.Keys == sent.Keys
    decreases |events|
  {
    if events == [] then map key | key in sent :: {}
    else
      var e := events[|events| - 1];
      Add(GotAfter(sent, events[..|events| - 1]), e.key, e.index)
  }

  /** Every piece fed belongs to a message that is not yet complete, with at most 16 messages
      open at once. */
  predicate Legal(chunk: nat, sent: Sent, events: seq<Event>)
    requires SentOk(chunk, sent)
    ensures Legal(chunk, sent, events) ==> forall e <- events :: e.key in sent && e.index < Count(chunk, sent[e.key])
    decreases |events|
  {
    events == [] ||
    var init, e := events[..|events| - 1], events[|events| - 1];
    && Legal(chunk, sent, init)
    && e.key in sent && e.index < Count(chunk, sent[e.key])
    && var got := GotAfter(sent, init);
    && |got[e.key]| < Count(chunk, sent[e.key])
    && |OpenKeys(chunk, sent, got) + {e.key}| <= SLOTS
  }

  /** The table after these pieces were fed to an empty one. */
  function Table(chunk: nat, slots: seq<Slot>, sent: Sent, events: seq<Event>): (r: seq<Slot>)
    requires ChunkOk(chunk) && SentOk(chunk, sent) && AllShaped(chunk, slots) && Legal(chunk, sent, events)
    ensures AllShaped(chunk, r)
    decreases |events|
  {
    if events == [] then slots
    else
      var e := events[|events| - 1];
      assert e in events;
      Fed(chunk, Table(chunk, slots, sent, events[..|events| - 1]), PieceOf(chunk, sent[e.key], e.index)).0
  }

  lemma {:induction false} TableTracks(chunk: nat, slots: seq<Slot>, sent: Sent, events: seq<Event>)
    requires ChunkOk(chunk) && SentOk(chunk, sent) && AllShaped(chunk, slots) && Legal(chunk, sent, events)
    requires forall s <- slots :: !s.active
    ensures Tracks(chunk, Table(chunk, slots, sent, events), sent, GotAfter(sent, events))
    decreases |events|
  {
    hide Has, Shaped, Fed, PieceOf;
    if events == [] {
      assert forall k | 0 <= k < SLOTS :: slots[k] in slots;
    } else {
      var init, e := events[..|events| - 1], events[|events| - 1];
      TableTracks(chunk, slots, sent, init);
      FeedPiece(chunk, Table(chunk, slots, sent, init), sent, GotAfter(sent, init), e.key, e.index);
    }
  }

  /** Whatever was fed before: a piece gives back its message, equal to the one sent with the
      flags cleared, exactly when it is the last one missing; otherwise nothing. */
  lemma Reassembles(chunk: nat, slots: seq<Slot>, sent: Sent, events: seq<Event>, e: Event)
    requires ChunkOk(chunk) && SentOk(chunk, sent) && AllShaped(chunk, slots) && forall s <- slots :: !s.active
    requires Legal(chunk, sent, events) && Legal(chunk, sent, events + [e])
    ensures
      var r := (assert e in events + [e];
        Fed(chunk, Table(chunk, slots, sent, events), PieceOf(chunk, sent[e.key], e.index)));
      (r.1, r.2) ==
      if GotAfter(sent, events + [e])[e.key] == All(Count(chunk, sent[e.key])) then (Ok, Some(sent[e.key].(flags := 0)))
      else (NotFound, None)
  {
    hide Has, Shaped, Fed, PieceOf, Tracks;
    TableTracks(chunk, slots, sent, events);
    assert (events + [e])[..|events|] == events;
    FeedPiece(chunk, Table(chunk, slots, sent, events), sent, GotAfter(sent, events), e.key, e.index);
  }

  // ---- What is published is what is reassembled ----

  /** A message that fits a chunk goes out as it is. A larger one goes out as the fewest pieces that hold it, from
      the first to the last. */
  lemma PublishedPieces(chunk: nat, m: Message)
    requires ChunkOk(chunk) && Encodable(m)
    ensures |m.payload| <= chunk ==> Pieces(chunk, m) == [m]
    ensures |m.payload| > chunk ==>
      var n := |Pieces(chunk, m)|;
      && n == Count(chunk, m) && (n - 1) * chunk < |m.payload| <= n * chunk
      && forall i | 0 <= i < n :: Pieces(chunk, m)[i] == PieceOf(chunk, m, i)
  {
    if |m.payload| > chunk {
      LastPiece(chunk, |m.payload|);
      Quotient(|m.payload| + chunk - 1, chunk, PieceCount(chunk, |m.payload|));
    }
    hide PieceCount, Piece;
  }
}
