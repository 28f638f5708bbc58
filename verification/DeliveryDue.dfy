/** What one publish attempt gives whom, and over what, told by the fields of the frame. */
module DeliveryDue {
  import opened Protocol
  import opened MessageBus
  import opened Status
  import opened Ipc
  import opened DeliverySystem
  import opened DeliveryRuns
  import opened DeliveryJams

  /** A copy is the frame with the node's number as its source, and a number if it had none. */
  predicate CopyOf(w: World, frame: Message, m: Message) {
    && m == frame.(src := w.settings.node, seqNo := m.seqNo)
    && (frame.seqNo != 0 ==> m.seqNo == frame.seqNo)
  }

  /** What an attempt of c on this frame adds to the stream of fd. */
  predicate Adds(w: World, s: State, c: nat, frame: Message, left: bool, fd: nat, before: seq<Copy>, after: seq<Copy>) {
    var here, share := frame.dst == 0 || frame.dst == w.settings.node, Subscribed(w.matches, s.subs, frame.topic, fd);
    var due := if fd == c || !here then 0 else |share|;
    && before <= after && |after| - |before| <= due
    && (left ==> |after| - |before| == due)
    && forall k | |before| <= k < |after| :: CopyOf(w, frame, after[k].msg)
  }

  /** In every run: an attempt on a frame for this node, or for all, that returns BC_OK gives every client
      but the publisher exactly one copy per matching subscription, and one that returns an error no more
      than that; one on a frame for another node gives nobody any. Whoever has a subscription is
      connected. */
  lemma AttemptGives(w: World, actions: seq<Action>, c: nat, epollOk: seq<bool>, sendRc: Code, fd: nat)
    requires var s := Run(w, actions); Live(s, c) && HasHead(s, c) && |epollOk| == |s.subs| && fd in s.clients
    ensures
      var s, s' := Run(w, actions), Run(w, actions + [Attempt(c, epollOk, sendRc)]);
      && fd in s'.clients && c in s'.clients && (forall x <- s.subs :: Live(s, x.fd))
      && Adds(w, s, c, s.clients[c].frames[s.clients[c].done], s'.clients[c].done > s.clients[c].done, fd,
        s.clients[fd].stream, s'.clients[fd].stream)
  {
    RunOk(w, actions);
    OneMoreAttempt(w, actions, c, epollOk, sendRc);
    var s := Run(w, actions);
    hide Run, ClientsOk, EntryOk, LogOrder, LeftOnce, Numbered, HeadPublishable, TryHead, Adds;
    if HeadPublishable(s, c) {
      GoodGives(w, s, c, epollOk, sendRc, fd);
    } else {
      BadGives(w, s, c, epollOk, sendRc, fd);
    }
  }

  lemma BadGives(w: World, s: State, c: nat, epollOk: seq<bool>, sendRc: Code, fd: nat)
    requires HasHead(s, c) && !HeadPublishable(s, c) && |epollOk| == |s.subs| && fd in s.clients
    ensures
      var s' := TryHead(w, s, c, epollOk, sendRc);
      && fd in s'.clients && c in s'.clients
      && Adds(w, s, c, s.clients[c].frames[s.clients[c].done], s'.clients[c].done > s.clients[c].done, fd,
        s.clients[fd].stream, s'.clients[fd].stream)
  {
    hide HeadPublishable, Logged, Subscribed;
  }

  lemma GoodGives(w: World, s: State, c: nat, epollOk: seq<bool>, sendRc: Code, fd: nat)
    requires HasHead(s, c) && HeadPublishable(s, c) && |epollOk| == |s.subs| && fd in s.clients
    ensures
      var s' := TryHead(w, s, c, epollOk, sendRc);
      && fd in s'.clients && c in s'.clients
      && Adds(w, s, c, s.clients[c].frames[s.clients[c].done], s'.clients[c].done > s.clients[c].done, fd,
        s.clients[fd].stream, s'.clients[fd].stream)
  {
    hide HeadPublishable, Logged, TryHead, Entry, Given, Matching, Subscribed, HeadCopy;
    var frame := s.clients[c].frames[s.clients[c].done];
    var s1, e, x := Logged(w, s, c, epollOk, sendRc), Entry(w, s, c, epollOk, sendRc), HeadCopy(w, s, c);
    HeadCopyIs(w, s, c);
    LoggedLog(w, s, c, epollOk, sendRc);
    AttemptCopies(w, s, c, epollOk, sendRc, fd);
    var n: nat :| Given(s.clients[fd], s1.clients[fd], x, n) && n <= Due(w, e, fd)
      && (!e.refused ==> n == Due(w, e, fd));
    EntryIs(w, s, c, epollOk, sendRc);
    HeadEnds(w, s, c, epollOk, sendRc);
    MatchingIs(w.matches, s.subs, c, frame, fd);
    GivenAdds(s.clients[fd], s1.clients[fd], x, n);
    AttemptCopies(w, s, c, epollOk, sendRc, c);
    var n': nat :| Given(s.clients[c], s1.clients[c], x, n') && n' <= Due(w, e, c);
    GivenAdds(s.clients[c], s1.clients[c], x, n');
  }

  lemma HeadCopyIs(w: World, s: State, c: nat)
    requires HasHead(s, c)
    ensures CopyOf(w, s.clients[c].frames[s.clients[c].done], HeadCopy(w, s, c).msg)
    ensures HeadPublishable(s, c) ==> Publishable(HeadCopy(w, s, c).msg)
  {
  }

  lemma GivenAdds(before: Client, after: Client, x: Copy, n: nat)
    requires Publishable(x.msg) && Given(before, after, x, n)
    ensures before.stream <= after.stream && |after.stream| == |before.stream| + n && after.done == before.done
    ensures forall k | |before.stream| <= k < |after.stream| :: after.stream[k] == x
  {
    hide DeliverFrame, Publishable, OutOk;
  }

  // ---- The network, and the code ----

  /** What an entry of the log says of the network and of the code, told by the fields of the frame. */
  predicate EntryExactly(w: World, e: Try) {
    var out, routable := GoesOut(w.settings, e.frame), w.routable(e.frame.channel, e.frame.topic);
    && (e.net.Some? <==> out && routable)
    && (e.refused ==> e.rc == NoMem)
    && (!e.refused && !out ==> e.rc == Ok)
    && (!e.refused && out && !routable ==> e.rc == if w.settings.requireRoute then NotFound else Ok)
    && (!e.refused && e.net.Some? ==> e.rc == Ok || (e.rc == e.net.value && e.frame.qos >= 1))
  }

  lemma NewEntryExactly(w: World, s: State, c: nat, replies: seq<Reply>, sendRc: Code)
    requires HasHead(s, c) && |replies| == |s.subs|
    ensures EntryExactly(w, TryOf(w, s, c, replies, sendRc))
  {
    var frame := s.clients[c].frames[s.clients[c].done];
    var sent := Stamp(w.settings, frame, NextSeq(s, frame));
    NetworkIs(w.settings, sent);
    assert GoesOut(w.settings, sent) == GoesOut(w.settings, frame);
    hide NeedsNetwork, GoesOut, Refused, LocalCopies, DeliversLocally;
    var refused := DeliversLocally(w.settings, sent) && Refused(w.matches, s.subs, c, sent, replies);
    var n := |LocalCopies(w.settings, w.matches, s.subs, c, sent, replies)|;
    var net := if w.routable(frame.channel, frame.topic) then Sends(sendRc) else NoRoute;
    CodeExactly(w.settings, sent, refused, n, net);
    hide PublishCode;
  }

  /** In every run, for every attempt made: whether a transport was asked, and what the attempt returned. */
  lemma {:induction false} EveryEntry(w: World, actions: seq<Action>)
    ensures forall e <- Run(w, actions).log :: EntryExactly(w, e)
    decreases |actions|
  {
    hide EntryExactly;
    if actions != [] {
      var s, a := Run(w, actions[..|actions| - 1]), actions[|actions| - 1];
      EveryEntry(w, actions[..|actions| - 1]);
      hide Run, Next;
      StepEntries(w, s, a);
      assert Run(w, actions) == Next(w, s, a) by { LastAction(w, actions); }
    }
  }

  lemma LastAction(w: World, actions: seq<Action>)
    requires actions != []
    ensures Run(w, actions) == Next(w, Run(w, actions[..|actions| - 1]), actions[|actions| - 1])
  {
  }

  lemma StepEntries(w: World, s: State, a: Action)
    requires forall e <- s.log :: EntryExactly(w, e)
    ensures forall e <- Next(w, s, a).log :: EntryExactly(w, e)
  {
    hide EntryExactly, TryHead;
    if a.Attempt? && Live(s, a.c) && HasHead(s, a.c) && |a.epollOk| == |s.subs| {
      HeadEntries(w, s, a.c, a.epollOk, a.sendRc);
    }
  }

  lemma HeadEntries(w: World, s: State, c: nat, epollOk: seq<bool>, sendRc: Code)
    requires HasHead(s, c) && |epollOk| == |s.subs| && forall e <- s.log :: EntryExactly(w, e)
    ensures forall e <- TryHead(w, s, c, epollOk, sendRc).log :: EntryExactly(w, e)
  {
    hide EntryExactly, HeadPublishable, Offered, TryOf, HeadCopy;
    if HeadPublishable(s, c) {
      HeadCopyIs(w, s, c);
      NewEntryExactly(w, s, c, Offered(w, s, c, HeadCopy(w, s, c), epollOk).1, sendRc);
    }
  }
}
