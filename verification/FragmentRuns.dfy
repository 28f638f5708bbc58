/** The reassembly table over whole runs: a slot belongs to its message until that message is
    complete, so fragments that were refused after they took a slot can fill the table for good. */
module FragmentRuns {
  import opened Protocol
  import opened Status
  import opened Fragment

  /** The table after some fragments. */
  function FedAll(chunk: nat, slots: seq<Slot>, frags: seq<Message>): (r: seq<Slot>)
    requires ChunkOk(chunk) && AllShaped(chunk, slots)
    ensures AllShaped(chunk, r)
    decreases |frags|
  {
    if frags == [] then slots
    else Fed(chunk, FedAll(chunk, slots, frags[..|frags| - 1]), frags[|frags| - 1]).0
  }

  lemma {:induction false} FedMore(chunk: nat, slots: seq<Slot>, a: seq<Message>, b: seq<Message>)
    requires ChunkOk(chunk) && AllShaped(chunk, slots)
    ensures FedAll(chunk, slots, a + b) == FedAll(chunk, FedAll(chunk, slots, a), b)
    decreases |b|
  {
    hide Fed;
    if b == [] {
      assert a + b == a;
    } else {
      var n := |b| - 1;
      assert (a + b)[..|a + b| - 1] == a + b[..n];
      FedMore(chunk, slots, a, b[..n]);
    }
  }

  /** A fragment of another message leaves a taken slot alone. */
  lemma OthersLeave(chunk: nat, slots: seq<Slot>, frag: Message, k: nat)
    requires ChunkOk(chunk) && AllShaped(chunk, slots) && k < |slots| && slots[k].active && !KeyIs(slots[k], frag)
    ensures Fed(chunk, slots, frag).0[k] == slots[k]
  {
    hide FeedSlot;
  }

  lemma {:induction false} StaysTaken(chunk: nat, slots: seq<Slot>, frags: seq<Message>, k: nat)
    requires ChunkOk(chunk) && AllShaped(chunk, slots) && k < |slots| && slots[k].active
    requires forall frag <- frags :: !KeyIs(slots[k], frag)
    ensures FedAll(chunk, slots, frags)[k] == slots[k]
    decreases |frags|
  {
    hide Fed;
    if frags != [] {
      var n := |frags| - 1;
      assert frags[n] in frags && forall x <- frags[..n] :: x in frags;
      StaysTaken(chunk, slots, frags[..n], k);
      OthersLeave(chunk, FedAll(chunk, slots, frags[..n]), frags[n], k);
    }
  }

  /** Every slot is taken, slot k by the message of fragment k. */
  predicate TakenBy(slots: seq<Slot>, bad: seq<Message>, n: nat) {
    && n <= |bad| && n <= |slots|
    && (forall k | 0 <= k < n :: slots[k].active && KeyIs(slots[k], bad[k]))
    && forall k | n <= k < |slots| :: !slots[k].active
  }

  predicate DistinctKeys(frags: seq<Message>) {
    forall i, j | 0 <= i < j < |frags| :: frags[i].seqNo != frags[j].seqNo || frags[i].src != frags[j].src
  }

  /** One more refused fragment takes one more slot. */
  lemma OneTaken(chunk: nat, slots: seq<Slot>, bad: seq<Message>, n: nat)
    requires ChunkOk(chunk) && AllShaped(chunk, slots) && n < |bad| <= |slots| && DistinctKeys(bad)
    requires TakenBy(slots, bad, n) && Overlong(chunk, bad[n])
    ensures TakenBy(Fed(chunk, slots, bad[n]).0, bad, n + 1) && Fed(chunk, slots, bad[n]).1 == Invalid
  {
    hide FeedSlot;
    forall s | s in slots ensures !(s.active && KeyIs(s, bad[n])) {
      var k :| 0 <= k < |slots| && slots[k] == s;
    }
    NoMatch(slots, bad[n], 0);
    assert !slots[n].active && FindFree(slots, 0) <= n;
    assert FindFree(slots, 0) == n;
    RefusedKeepsSlot(chunk, slots, bad[n]);
  }

  lemma {:induction false} AllTaken(chunk: nat, slots: seq<Slot>, bad: seq<Message>, n: nat)
    requires ChunkOk(chunk) && AllShaped(chunk, slots) && (forall s <- slots :: !s.active)
    requires n <= |bad| <= |slots| && DistinctKeys(bad) && forall frag <- bad :: Overlong(chunk, frag)
    ensures TakenBy(FedAll(chunk, slots, bad[..n]), bad, n)
  {
    hide Fed, Overlong;
    if n > 0 {
      AllTaken(chunk, slots, bad, n - 1);
      assert bad[..n][..n - 1] == bad[..n - 1] && bad[n - 1] in bad;
      OneTaken(chunk, FedAll(chunk, slots, bad[..n - 1]), bad, n - 1);
    }
  }

  lemma FullRefuses(chunk: nat, slots: seq<Slot>, frag: Message)
    requires ChunkOk(chunk) && AllShaped(chunk, slots)
    requires forall s <- slots :: s.active && !KeyIs(s, frag)
    ensures Fed(chunk, slots, frag) == (slots, if Plausible(frag) then NoMem else Invalid, None)
  {
    NoMatch(slots, frag, 0);
    assert FindFree(slots, 0) == |slots|;
    hide FeedSlot;
  }

  /** Sixteen first fragments of different messages, each refused for its size, fill an empty table:
      whatever fragments of other messages follow, every one of them that is plausible is refused
      for want of a slot, for the rest of the run. */
  lemma FullForGood(chunk: nat, slots: seq<Slot>, bad: seq<Message>, more: seq<Message>, frag: Message)
    requires ChunkOk(chunk) && AllShaped(chunk, slots) && (forall s <- slots :: !s.active)
    requires |bad| == SLOTS && DistinctKeys(bad) && forall x <- bad :: Overlong(chunk, x)
    requires forall x <- bad, y <- more + [frag] :: x.seqNo != y.seqNo || x.src != y.src
    requires Plausible(frag)
    ensures
      var full := FedAll(chunk, slots, bad);
      FedAll(chunk, slots, bad + more) == full && Fed(chunk, full, frag) == (full, NoMem, None)
  {
    hide Fed, FedAll, Plausible, Overlong;
    AllTaken(chunk, slots, bad, SLOTS);
    assert bad[..SLOTS] == bad;
    var full := FedAll(chunk, slots, bad);
    FedMore(chunk, slots, bad, more);
    forall s, y | s in full && y in more + [frag] ensures s.active && !KeyIs(s, y) {
      var k :| 0 <= k < |full| && full[k] == s;
      assert bad[k] in bad;
    }
    var end := FedAll(chunk, full, more);
    forall k | 0 <= k < SLOTS ensures end[k] == full[k] {
      assert full[k] in full && forall y <- more :: y in more + [frag];
      StaysTaken(chunk, full, more, k);
    }
    assert end == full;
    assert frag in more + [frag];
    FullRefuses(chunk, full, frag);
  }
}
