/** Messages as streams of fragments, and what ikcp_recv makes of them: the receive queue
    never jams, and it gives the messages back whole. */
module KcpMessages {
  import opened Word32
  import opened KcpEndpoint
  import opened KcpInvariant

  type Message = seq<byte>

  /** All fragments of a list of messages, in order. */
  function Stream(mss: nat, msgs: seq<Message>): seq<Frag>
    requires 0 < mss
    decreases |msgs|
  {
    if msgs == [] then [] else Stream(mss, msgs[..|msgs| - 1]) + Fragments(mss, msgs[|msgs| - 1])
  }

  lemma StreamSnoc(mss: nat, msgs: seq<Message>, msg: Message)
    requires 0 < mss
    ensures Stream(mss, msgs + [msg]) == Stream(mss, msgs) + Fragments(mss, msg)
  {
    assert (msgs + [msg])[..|msgs|] == msgs;
  }

  /** The stream of the first g messages, then the fragments of the next, then the rest. */
  lemma {:induction false} StreamSplits(mss: nat, msgs: seq<Message>, g: nat)
    requires 0 < mss && g < |msgs|
    ensures Stream(mss, msgs[..g]) + Fragments(mss, msgs[g]) <= Stream(mss, msgs)
    decreases |msgs|
  {
    var init := msgs[..|msgs| - 1];
    if g < |init| {
      StreamSplits(mss, init, g);
      assert init[..g] == msgs[..g];
    } else {
      assert msgs[..g] == init;
    }
  }

  /** What a receiver holds of a stream: the first `got` messages were delivered, and the
      queue continues the stream up to fragment number rnxt. */
  predicate Receiving(mss: nat, sent: seq<Message>, got: seq<Message>, queue: seq<Frag>, rnxt: nat)
    requires 0 < mss
  {
    && got <= sent
    && |Stream(mss, got)| <= rnxt <= |Stream(mss, sent)|
    && queue == Stream(mss, sent)[|Stream(mss, got)|..rnxt]
  }

  /** The message at the head of the queue: which one it is, and which of its fragments
      have arrived. */
  lemma HeadMessage(mss: nat, sent: seq<Message>, got: seq<Message>, queue: seq<Frag>, rnxt: nat)
    requires 0 < mss && Receiving(mss, sent, got, queue, rnxt) && queue != []
    ensures |got| < |sent|
    ensures
      var fs := Fragments(mss, sent[|got|]);
      && Stream(mss, got) + fs <= Stream(mss, sent)
      && 0 < |fs| && queue[0].frg == |fs| - 1
      && (if |fs| <= |queue| then fs <= queue else queue <= fs)
  {
    var s := Stream(mss, sent);
    var d := |Stream(mss, got)|;
    assert sent[..|got|] == got;
    assert |got| == |sent| ==> got == sent;
    StreamSplits(mss, sent, |got|);
    FragmentsOk(mss, sent[|got|]);
    var fs := Fragments(mss, sent[|got|]);
    assert forall i | 0 <= i < |fs| :: s[d + i] == fs[i];
    assert forall i | 0 <= i < |queue| :: queue[i] == s[d + i];
  }

  /** The first run of a queue that starts with the fragments of a message. */
  lemma {:induction false} FirstRunIs(fs: seq<Frag>, queue: seq<Frag>)
    requires fs != [] && fs <= queue
    requires forall i | 0 <= i < |fs| :: fs[i].frg == |fs| - 1 - i
    ensures FirstRun(queue) == |fs|
  {
    assert queue[0] == fs[0];
    if |fs| > 1 {
      FirstRunIs(fs[1..], queue[1..]);
    }
  }

  /** ikcp_peeksize is not negative exactly when the first message is fully queued, and then
      it is that message's length. */
  lemma PeekSizeExact(mss: nat, sent: seq<Message>, got: seq<Message>, queue: seq<Frag>, rnxt: nat)
    requires 0 < mss && Receiving(mss, sent, got, queue, rnxt)
    ensures PeekSize(queue) >= 0 <==> |got| < |sent| && |Stream(mss, got)| + |Fragments(mss, sent[|got|])| <= rnxt
    ensures PeekSize(queue) >= 0 ==>
      && |got| < |sent|
      && FirstRun(queue) == |Fragments(mss, sent[|got|])|
      && queue[..FirstRun(queue)] == Fragments(mss, sent[|got|])
      && Joined(queue[..FirstRun(queue)]) == sent[|got|]
      && PeekSize(queue) == |sent[|got|]|
  {
    if queue == [] {
      if |got| < |sent| { FragmentsOk(mss, sent[|got|]); }
    } else {
      HeadMessage(mss, sent, got, queue, rnxt);
      var fs := Fragments(mss, sent[|got|]);
      FragmentsOk(mss, sent[|got|]);
      assert rnxt == |Stream(mss, got)| + |queue|;
      if |fs| <= |queue| {
        FirstRunIs(fs, queue);
        assert queue[..|fs|] == fs;
        if |fs| == 1 {
          assert Joined(fs) == fs[0].data + Joined(fs[1..]);
          assert fs[1..] == [];
        }
      }
    }
  }

  /** A receive queue as long as the window starts with a complete message: the receiver
      can always make room. */
  lemma FullQueueReadable(mss: nat, sent: seq<Message>, got: seq<Message>, queue: seq<Frag>, rnxt: nat)
    requires 0 < mss && Receiving(mss, sent, got, queue, rnxt)
    requires forall m <- sent :: FragmentCount(mss, |m|) < WND_FRAGMENTS
    requires |queue| >= WND_FRAGMENTS
    ensures PeekSize(queue) >= 0
  {
    HeadMessage(mss, sent, got, queue, rnxt);
    assert sent[|got|] in sent;
    FragmentsOk(mss, sent[|got|]);
    PeekSizeExact(mss, sent, got, queue, rnxt);
  }

  /** The assertion in ikcp_recv: for any queue at all, what peeksize announces is the
      length of what recv merges. */
  lemma PeekMatchesRecv(queue: seq<Frag>)
    requires PeekSize(queue) >= 0
    ensures PeekSize(queue) == |Joined(queue[..FirstRun(queue)])|
  {
    if queue[0].frg == 0 {
      assert queue[..1] == [queue[0]];
      assert Joined([queue[0]]) == queue[0].data + Joined([]);
    }
  }

  /** Taking the first message from the queue delivers the next one sent. */
  lemma TakeMessage(mss: nat, sent: seq<Message>, got: seq<Message>, queue: seq<Frag>, rnxt: nat)
    requires 0 < mss && Receiving(mss, sent, got, queue, rnxt) && PeekSize(queue) >= 0
    ensures
      var n := FirstRun(queue);
      Receiving(mss, sent, got + [Joined(queue[..n])], queue[n..], rnxt)
  {
    PeekSizeExact(mss, sent, got, queue, rnxt);
    var msg := sent[|got|];
    StreamSnoc(mss, got, msg);
    var n := FirstRun(queue);
    assert got + [msg] == sent[..|got| + 1];
    var s, d := Stream(mss, sent), |Stream(mss, got)|;
    assert queue[n..] == s[d + n..rnxt];
  }

  /** Sending another message extends the stream and disturbs nothing received. */
  lemma SendMore(mss: nat, sent: seq<Message>, msg: Message, got: seq<Message>, queue: seq<Frag>, rnxt: nat)
    requires 0 < mss && Receiving(mss, sent, got, queue, rnxt)
    ensures Receiving(mss, sent + [msg], got, queue, rnxt)
  {
    StreamSnoc(mss, sent, msg);
  }
}
