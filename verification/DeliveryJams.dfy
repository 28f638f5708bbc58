/** The frame that never leaves: publishing returns BC_ERR_NOT_FOUND for want of a route, and the
    frame loop takes that code for an incomplete frame. */
module DeliveryJams {
  import opened Protocol
  import opened MessageBus
  import opened Status
  import opened Ipc
  import opened DeliverySystem
  import opened DeliveryRuns
  import ClientQueue

  /** A message that needs a route there is none for, on a daemon that insists on one. */
  predicate Jams(w: World, msg: Message) {
    NeedsNetwork(w.settings, msg) && w.settings.requireRoute && !w.routable(msg.channel, msg.topic)
  }

  /** How many copies of client c's head frame the subscriptions of fd ask for. */
  function Wanted(w: World, s: State, c: nat, fd: nat): nat
    requires HasHead(s, c)
  {
    var msg := s.clients[c].frames[s.clients[c].done];
    if DeliversLocally(w.settings, msg) then Matching(w.matches, s.subs, c, msg, fd) else 0
  }

  /** Every subscriber's output buffer has room for the copies it wants of the head frame. */
  predicate RoomForAll(w: World, s: State, c: nat)
    requires HasHead(s, c) && HeadPublishable(s, c)
  {
    forall fd <- s.clients ::
      |s.clients[fd].out.pending| + Wanted(w, s, c, fd) * |DeliverFrame(s.clients[c].frames[s.clients[c].done])|
        <= ClientQueue.CAPACITY
  }

  // ---- With room nobody is refused ----

  lemma {:induction false} MatchingGrows(matches: Matcher, subs: seq<Sub>, source: int, msg: Message, fd: nat, n: nat)
    requires n <= |subs|
    ensures Matching(matches, subs[..n], source, msg, fd) <= Matching(matches, subs, source, msg, fd)
    decreases |subs|
  {
    if n < |subs| {
      var m := |subs| - 1;
      assert subs[..m][..n] == subs[..n];
      MatchingGrows(matches, subs[..m], source, msg, fd, n);
    } else {
      assert subs[..n] == subs;
    }
  }

  predicate Roomy(matches: Matcher, clients: map<nat, Client>, subs: seq<Sub>, source: nat, x: Copy)
    requires Publishable(x.msg)
  {
    forall fd <- clients ::
      |clients[fd].out.pending| + Matching(matches, subs, source, x.msg, fd) * |DeliverFrame(x.msg)|
        <= ClientQueue.CAPACITY
  }

  lemma RoomyBefore(matches: Matcher, clients: map<nat, Client>, subs: seq<Sub>, source: nat, x: Copy)
    requires Publishable(x.msg) && subs != [] && Roomy(matches, clients, subs, source, x)
    ensures Roomy(matches, clients, subs[..|subs| - 1], source, x)
  {
    var n, len := |subs| - 1, |DeliverFrame(x.msg)|;
    forall fd | fd in clients
      ensures |clients[fd].out.pending| + Matching(matches, subs[..n], source, x.msg, fd) * len <= ClientQueue.CAPACITY
    {
      MatchingGrows(matches, subs, source, x.msg, fd, n);
      Scaled(Matching(matches, subs[..n], source, x.msg, fd), Matching(matches, subs, source, x.msg, fd), len);
    }
  }

  lemma Scaled(a: nat, b: nat, len: nat)
    requires a <= b
    ensures a * len <= b * len
  {
  }

  predicate AllTook(rs: seq<Reply>) {
    forall r <- rs :: r.Took?
  }

  lemma {:induction false} AllTaken(matches: Matcher, clients: map<nat, Client>, subs: seq<Sub>, source: nat, x: Copy,
      epollOk: seq<bool>)
    requires Publishable(x.msg) && |epollOk| == |subs| && (forall ok <- epollOk :: ok)
    requires forall y <- subs :: y.fd in clients && clients[y.fd].alive
    requires Roomy(matches, clients, subs, source, x)
    ensures AllTook(OfferAll(matches, clients, subs, source, x, epollOk).1)
    decreases |subs|
  {
    if subs != [] {
      var n := |subs| - 1;
      var fd := subs[n].fd;
      assert subs[n] in subs && epollOk[n] in epollOk;
      assert forall y <- subs[..n] :: y in subs;
      assert forall ok <- epollOk[..n] :: ok in epollOk;
      RoomyBefore(matches, clients, subs, source, x);
      hide Roomy, Publishable, DeliverFrame;
      AllTaken(matches, clients, subs[..n], source, x, epollOk[..n]);
      var (cs, rs) := OfferAll(matches, clients, subs[..n], source, x, epollOk[..n]);
      if Wants(matches, subs[n], source, x.msg) {
        OneFits(matches, clients, subs, source, x, epollOk);
        hide OfferAll, Wants;
        LastTaken(cs, fd, x, epollOk[n], rs);
      }
    }
  }

  lemma LastTaken(cs: map<nat, Client>, fd: nat, x: Copy, ok: bool, rs: seq<Reply>)
    requires Publishable(x.msg) && fd in cs && cs[fd].alive && cs[fd].out.Fits(DeliverFrame(x.msg)) && ok && AllTook(rs)
    ensures AllTook(rs + [OfferOne(cs, fd, x, ok).1])
  {
  }

  /** The copy for the last subscription fits behind those for the others. */
  lemma OneFits(matches: Matcher, clients: map<nat, Client>, subs: seq<Sub>, source: nat, x: Copy, epollOk: seq<bool>)
    requires Publishable(x.msg) && subs != [] && |epollOk| == |subs|
    requires Wants(matches, subs[|subs| - 1], source, x.msg) && subs[|subs| - 1].fd in clients
      && clients[subs[|subs| - 1].fd].alive
    requires Roomy(matches, clients, subs, source, x)
    ensures
      var n := |subs| - 1;
      var cl := OfferAll(matches, clients, subs[..n], source, x, epollOk[..n]).0[subs[n].fd];
      cl.alive && cl.out.Fits(DeliverFrame(x.msg))
  {
    var n, len := |subs| - 1, |DeliverFrame(x.msg)|;
    var fd := subs[n].fd;
    var (cs, rs) := OfferAll(matches, clients, subs[..n], source, x, epollOk[..n]);
    OffersGive(matches, clients, subs[..n], source, x, epollOk[..n], fd);
    CopiesCount(matches, subs[..n], source, x.msg, rs, fd);
    var k, m := Times(Copies(matches, subs[..n], source, x.msg, rs), fd),
      Matching(matches, subs[..n], source, x.msg, fd);
    assert Matching(matches, subs, source, x.msg, fd) == m + 1;
    Scaled(k + 1, m + 1, len);
    OneMoreFrame(k, len);
    hide OfferAll, Copies, Matching, DeliverFrame, Publishable, OutOk, Times;
  }

  // ---- When the head frame leaves ----

  /** With room at every subscriber and a network that takes what it is given, the head frame
      leaves its buffer if and only if it does not jam. If it does, it stays, its client is not
      told, and every subscription it matches is given one more copy. */
  lemma LeavesUnlessJammed(w: World, actions: seq<Action>, c: nat, epollOk: seq<bool>)
    requires
      var s := Run(w, actions);
      && Live(s, c) && HasHead(s, c) && HeadPublishable(s, c) && RoomForAll(w, s, c)
      && |epollOk| == |s.subs| && forall ok <- epollOk :: ok
    ensures
      var s := Run(w, actions);
      var s' := Run(w, actions + [Attempt(c, epollOk, Ok)]);
      var msg := s.clients[c].frames[s.clients[c].done];
      && (Live(s', c) && s'.clients[c].done == s.clients[c].done + 1 <==> !Jams(w, msg))
      && (Jams(w, msg) ==>
            && Live(s', c) && s'.clients[c].done == s.clients[c].done
            && forall fd <- s.clients ::
              fd in s'.clients && |s'.clients[fd].stream| == |s.clients[fd].stream| + Wanted(w, s, c, fd))
  {
    hide Run, RoomForAll, HeadPublishable, TryHead, Jams, Wanted;
    var s := Run(w, actions);
    SubscribersLive(w, actions);
    OneMoreAttempt(w, actions, c, epollOk, Ok);
    HeadLeaves(w, s, c, epollOk);
  }

  lemma SubscribersLive(w: World, actions: seq<Action>)
    ensures SubsLive(Run(w, actions))
  {
    RunOk(w, actions);
    hide Run, ClientsOk, LogOrder, LeftOnce, Numbered, EntryOk;
  }

  lemma OneMoreAttempt(w: World, actions: seq<Action>, c: nat, epollOk: seq<bool>, sendRc: Code)
    requires var s := Run(w, actions); Live(s, c) && HasHead(s, c) && |epollOk| == |s.subs|
    ensures Run(w, actions + [Attempt(c, epollOk, sendRc)]) == TryHead(w, Run(w, actions), c, epollOk, sendRc)
  {
    var a := Attempt(c, epollOk, sendRc);
    assert (actions + [a])[..|actions|] == actions;
    hide TryHead;
  }

  predicate SubsLive(s: State) {
    forall x <- s.subs :: Live(s, x.fd)
  }

  lemma HeadLeaves(w: World, s: State, c: nat, epollOk: seq<bool>)
    requires Live(s, c) && HasHead(s, c) && HeadPublishable(s, c) && RoomForAll(w, s, c) && SubsLive(s)
    requires |epollOk| == |s.subs| && forall ok <- epollOk :: ok
    ensures
      var s' := TryHead(w, s, c, epollOk, Ok);
      var msg := s.clients[c].frames[s.clients[c].done];
      && c in s'.clients
      && (s'.clients[c].alive && s'.clients[c].done == s.clients[c].done + 1 <==> !Jams(w, msg))
      && (Jams(w, msg) ==>
            && s'.clients[c].alive && s'.clients[c].done == s.clients[c].done
            && forall fd <- s.clients ::
              fd in s'.clients && |s'.clients[fd].stream| == |s.clients[fd].stream| + Wanted(w, s, c, fd))
  {
    var e, s1, s' := Entry(w, s, c, epollOk, Ok), Logged(w, s, c, epollOk, Ok), TryHead(w, s, c, epollOk, Ok);
    NobodyRefuses(w, s, c, epollOk);
    EndsAsCoded(w, s, c, epollOk);
    hide Entry, Logged, Jams, RoomForAll, HeadPublishable, TryHead;
    forall fd | fd in s.clients
      ensures fd in s1.clients && s1.clients[fd].alive == s.clients[fd].alive
        && s1.clients[fd].done == s.clients[fd].done
      ensures |s1.clients[fd].stream| == |s.clients[fd].stream| + Wanted(w, s, c, fd)
    {
      Attempted(w, s, c, epollOk, fd);
    }
  }

  lemma Attempted(w: World, s: State, c: nat, epollOk: seq<bool>, fd: nat)
    requires HasHead(s, c) && HeadPublishable(s, c) && |epollOk| == |s.subs| && fd in s.clients
    requires !Entry(w, s, c, epollOk, Ok).refused
    ensures
      var s1 := Logged(w, s, c, epollOk, Ok);
      && fd in s1.clients && s1.clients[fd].alive == s.clients[fd].alive && s1.clients[fd].done == s.clients[fd].done
      && |s1.clients[fd].stream| == |s.clients[fd].stream| + Wanted(w, s, c, fd)
  {
    var e, x, s1 := Entry(w, s, c, epollOk, Ok), HeadCopy(w, s, c), Logged(w, s, c, epollOk, Ok);
    AttemptCopies(w, s, c, epollOk, Ok, fd);
    EntryIs(w, s, c, epollOk, Ok);
    hide Entry, Logged, HeadCopy, Matching, OutOk;
    var n: nat :| Given(s.clients[fd], s1.clients[fd], x, n) && n <= Due(w, e, fd)
      && (!e.refused ==> n == Due(w, e, fd));
  }

  lemma NobodyRefuses(w: World, s: State, c: nat, epollOk: seq<bool>)
    requires HasHead(s, c) && HeadPublishable(s, c) && RoomForAll(w, s, c) && SubsLive(s)
    requires |epollOk| == |s.subs| && forall ok <- epollOk :: ok
    ensures !Entry(w, s, c, epollOk, Ok).refused
  {
    var x := HeadCopy(w, s, c);
    var msg := s.clients[c].frames[s.clients[c].done];
    if DeliversLocally(w.settings, x.msg) {
      forall fd | fd in s.clients
        ensures |s.clients[fd].out.pending| + Matching(w.matches, s.subs, c, x.msg, fd) * |DeliverFrame(x.msg)|
          <= ClientQueue.CAPACITY
      {
        SameTopic(w.matches, s.subs, c, x.msg, msg, fd);
        hide Matching;
        assert |DeliverFrame(x.msg)| == |DeliverFrame(msg)|;
      }
      hide Matching, DeliverFrame, Publishable, OfferAll;
      AllTaken(w.matches, s.clients, s.subs, c, x, epollOk);
    }
  }

  /** What becomes of the head frame when nobody refuses it and the network takes it. */
  lemma EndsAsCoded(w: World, s: State, c: nat, epollOk: seq<bool>)
    requires HasHead(s, c) && HeadPublishable(s, c) && |epollOk| == |s.subs| && !Entry(w, s, c, epollOk, Ok).refused
    ensures
      var s1, s' := Logged(w, s, c, epollOk, Ok), TryHead(w, s, c, epollOk, Ok);
      var msg := s.clients[c].frames[s.clients[c].done];
      && c in s1.clients
      && s' == if Jams(w, msg) then s1
        else s1.(clients := s1.clients[c := s1.clients[c].(done := s1.clients[c].done + 1)])
  {
    hide Offered, Refused, Copies, Publishable;
  }

  /** What becomes of a head frame and its client. */
  datatype Fate = Leaves | Stays | Closes

  /** No local copy is made of the head frame even when nobody refuses one. */
  predicate NoCopies(w: World, s: State, c: nat)
    requires HasHead(s, c)
  {
    var msg := s.clients[c].frames[s.clients[c].done];
    !DeliversLocally(w.settings, msg) || forall x <- s.subs :: !Wants(w.matches, x, c, msg)
  }

  /** A transport was asked and failed, and that matters: the frame asks for delivery at least once and
      nobody here got it. */
  predicate NetworkFails(w: World, s: State, c: nat, sendRc: Code)
    requires HasHead(s, c)
  {
    var msg := s.clients[c].frames[s.clients[c].done];
    && NeedsNetwork(w.settings, msg) && w.routable(msg.channel, msg.topic)
    && sendRc != Ok && msg.qos >= 1 && NoCopies(w, s, c)
  }

  function HeadFate(w: World, s: State, c: nat, refused: bool, sendRc: Code): Fate
    requires HasHead(s, c)
  {
    if !HeadPublishable(s, c) then Closes
    else if refused || Jams(w, s.clients[c].frames[s.clients[c].done]) then Stays
    else if NetworkFails(w, s, c, sendRc) then (if sendRc == NoMem || sendRc == NotFound then Stays else Closes)
    else Leaves
  }

  /** Some subscriber reports an error for its copy of the head frame. */
  predicate HeadRefused(w: World, s: State, c: nat, epollOk: seq<bool>)
    requires HasHead(s, c) && |epollOk| == |s.subs|
  {
    HeadPublishable(s, c) && Entry(w, s, c, epollOk, Ok).refused
  }

  predicate Meets(s: State, s': State, c: nat, fate: Fate)
    requires HasHead(s, c)
  {
    && c in s'.clients && s'.clients[c].alive == !fate.Closes?
    && s'.clients[c].done == s.clients[c].done + (if fate.Leaves? then 1 else 0)
  }

  /** In every run, for any room in the buffers and any answer of the network: when the head frame
      leaves, when it stays, and when its publisher is closed. */
  lemma HeadFateIs(w: World, actions: seq<Action>, c: nat, epollOk: seq<bool>, sendRc: Code)
    requires var s := Run(w, actions); Live(s, c) && HasHead(s, c) && |epollOk| == |s.subs|
    ensures
      var s := Run(w, actions);
      Meets(s, Run(w, actions + [Attempt(c, epollOk, sendRc)]), c,
        HeadFate(w, s, c, HeadRefused(w, s, c, epollOk), sendRc))
  {
    hide Run, HeadPublishable, TryHead, HeadFate, HeadRefused, Meets;
    var s := Run(w, actions);
    OneMoreAttempt(w, actions, c, epollOk, sendRc);
    if HeadPublishable(s, c) { FateOfGood(w, s, c, epollOk, sendRc); } else { FateOfBad(w, s, c, epollOk, sendRc); }
  }

  lemma FateOfBad(w: World, s: State, c: nat, epollOk: seq<bool>, sendRc: Code)
    requires Live(s, c) && HasHead(s, c) && |epollOk| == |s.subs| && !HeadPublishable(s, c)
    ensures Meets(s, TryHead(w, s, c, epollOk, sendRc), c, HeadFate(w, s, c, HeadRefused(w, s, c, epollOk), sendRc))
  {
    hide HeadPublishable, Logged;
    BadHeadCloses(w, s, c, epollOk, sendRc);
  }

  lemma FateOfGood(w: World, s: State, c: nat, epollOk: seq<bool>, sendRc: Code)
    requires Live(s, c) && HasHead(s, c) && |epollOk| == |s.subs| && HeadPublishable(s, c)
    ensures Meets(s, TryHead(w, s, c, epollOk, sendRc), c, HeadFate(w, s, c, HeadRefused(w, s, c, epollOk), sendRc))
  {
    hide HeadPublishable, Logged, Entry, TryHead, NetworkFails, Jams, HeadFate;
    CodeIs(w, s, c, epollOk, sendRc);
    EndsByCode(w, s, c, epollOk, sendRc);
    LoggedKeeps(w, s, c, epollOk, sendRc, c);
  }

  /** The code publishing the head frame returns. */
  lemma CodeIs(w: World, s: State, c: nat, epollOk: seq<bool>, sendRc: Code)
    requires HasHead(s, c) && |epollOk| == |s.subs| && HeadPublishable(s, c)
    ensures
      var e, fate := Entry(w, s, c, epollOk, sendRc), HeadFate(w, s, c, HeadRefused(w, s, c, epollOk), sendRc);
      (fate.Leaves? <==> e.rc == Ok) && (fate.Stays? <==> e.rc == NoMem || e.rc == NotFound)
  {
    var x := HeadCopy(w, s, c);
    var rs := Offered(w, s, c, x, epollOk).1;
    var msg := s.clients[c].frames[s.clients[c].done];
    if DeliversLocally(w.settings, msg) && !Refused(w.matches, s.subs, c, x.msg, rs) {
      CopiesNone(w.matches, s.subs, c, x.msg, rs);
    }
    assert forall y <- s.subs :: Wants(w.matches, y, c, x.msg) == Wants(w.matches, y, c, msg);
    hide Offered, Refused, Copies, HeadPublishable, Wants;
  }

  lemma {:induction false} CopiesNone(matches: Matcher, subs: seq<Sub>, source: int, msg: Message, replies: seq<Reply>)
    requires |replies| == |subs| && !Refused(matches, subs, source, msg, replies)
    ensures |Copies(matches, subs, source, msg, replies)| == 0 <==> forall x <- subs :: !Wants(matches, x, source, msg)
    decreases |subs|
  {
    if subs != [] {
      var n := |subs| - 1;
      NotRefusedBefore(matches, subs, source, msg, replies);
      hide Wants, Refused;
      CopiesNone(matches, subs[..n], source, msg, replies[..n]);
      assert subs == subs[..n] + [subs[n]];
    }
  }

  lemma EndsByCode(w: World, s: State, c: nat, epollOk: seq<bool>, sendRc: Code)
    requires HasHead(s, c) && HeadPublishable(s, c) && |epollOk| == |s.subs|
    ensures
      var s1, s', rc := Logged(w, s, c, epollOk, sendRc), TryHead(w, s, c, epollOk, sendRc),
        Entry(w, s, c, epollOk, sendRc).rc;
      && c in s1.clients && c in s'.clients
      && s'.clients[c].done == s1.clients[c].done + (if rc == Ok then 1 else 0)
      && s'.clients[c].alive == (s1.clients[c].alive && (rc == Ok || rc == NoMem || rc == NotFound))
  {
    hide Offered, TryOf, HeadPublishable;
  }

  /** So an I/O error of the network closes the publisher of a frame that asks for delivery at least
      once when nobody here got it, and no publisher otherwise. */
  lemma IoErrorCloses(w: World, s: State, c: nat, refused: bool)
    requires HasHead(s, c) && HeadPublishable(s, c)
    ensures
      var msg := s.clients[c].frames[s.clients[c].done];
      HeadFate(w, s, c, refused, IoError).Closes? <==>
        !refused && NeedsNetwork(w.settings, msg) && w.routable(msg.channel, msg.topic) && msg.qos >= 1
          && NoCopies(w, s, c)
  {
    hide HeadPublishable, NoCopies;
  }

  // ---- For the rest of the run ----

  predicate JammedAt(w: World, s: State, c: nat, n: nat) {
    c in s.clients && s.clients[c].done == n < |s.clients[c].frames| && Jams(w, s.clients[c].frames[n])
  }

  /** An attempt on such a frame never succeeds. */
  lemma JamCode(w: World, s: State, c: nat, epollOk: seq<bool>, sendRc: Code)
    requires HasHead(s, c) && HeadPublishable(s, c) && |epollOk| == |s.subs|
    requires Jams(w, s.clients[c].frames[s.clients[c].done])
    ensures Entry(w, s, c, epollOk, sendRc).rc != Ok
  {
    hide Offered, Refused, Copies, Publishable;
  }

  lemma AttemptKeepsJam(w: World, s: State, c: nat, n: nat, a: nat, epollOk: seq<bool>, sendRc: Code)
    requires JammedAt(w, s, c, n) && HasHead(s, a) && |epollOk| == |s.subs|
    ensures JammedAt(w, TryHead(w, s, a, epollOk, sendRc), c, n)
  {
    hide Jams, HeadPublishable, TryHead, Logged, Entry;
    if HeadPublishable(s, a) {
      HeadEnds(w, s, a, epollOk, sendRc);
      if a == c { JamCode(w, s, c, epollOk, sendRc); }
      LoggedKeeps(w, s, a, epollOk, sendRc, c);
    } else {
      BadHeadCloses(w, s, a, epollOk, sendRc);
    }
  }

  lemma BadHeadCloses(w: World, s: State, c: nat, epollOk: seq<bool>, sendRc: Code)
    requires HasHead(s, c) && |epollOk| == |s.subs| && !HeadPublishable(s, c)
    ensures TryHead(w, s, c, epollOk, sendRc) == Closed(s, c)
  {
    hide HeadPublishable, Logged;
  }

  lemma LoggedKeeps(w: World, s: State, a: nat, epollOk: seq<bool>, sendRc: Code, c: nat)
    requires HasHead(s, a) && HeadPublishable(s, a) && |epollOk| == |s.subs| && c in s.clients
    ensures
      var s1 := Logged(w, s, a, epollOk, sendRc);
      c in s1.clients && s1.clients[c].frames == s.clients[c].frames && s1.clients[c].done == s.clients[c].done
      && s1.clients[c].alive == s.clients[c].alive
  {
    AttemptCopies(w, s, a, epollOk, sendRc, c);
    hide Logged, Entry, HeadCopy, Due, OutOk, Publishable;
    var s1, e, x := Logged(w, s, a, epollOk, sendRc), Entry(w, s, a, epollOk, sendRc), HeadCopy(w, s, a);
    var n: nat :| Given(s.clients[c], s1.clients[c], x, n) && n <= Due(w, e, c) && (!e.refused ==> n == Due(w, e, c));
  }

  lemma JamStays(w: World, s: State, c: nat, n: nat, a: Action)
    requires JammedAt(w, s, c, n)
    ensures JammedAt(w, Next(w, s, a), c, n)
  {
    hide Jams, TryHead;
    if a.Attempt? && Live(s, a.c) && HasHead(s, a.c) && |a.epollOk| == |s.subs| {
      AttemptKeepsJam(w, s, c, n, a.c, a.epollOk, a.sendRc);
    }
  }

  /** Once such a frame is at the head of a buffer it stays there, and everything behind it
      waits, for the rest of the run. */
  lemma {:induction false} JamsForever(w: World, actions: seq<Action>, more: seq<Action>, c: nat, n: nat)
    requires JammedAt(w, Run(w, actions), c, n)
    ensures JammedAt(w, Run(w, actions + more), c, n)
    decreases |more|
  {
    hide JammedAt, Next;
    if more == [] {
      assert actions + more == actions;
    } else {
      var init := more[..|more| - 1];
      assert (actions + more)[..|actions + more| - 1] == actions + init;
      JamsForever(w, actions, init, c, n);
      JamStays(w, Run(w, actions + init), c, n, more[|more| - 1]);
    }
  }

  /** Two actions lead there: a client connects, and its first frame is such a message. */
  lemma JamReached(w: World, c: nat, msg: Message)
    requires Jams(w, msg)
    ensures JammedAt(w, Run(w, [Connect(c), Arrive(c, msg)]), c, 0)
  {
    hide Jams;
    var none: seq<Action> := [];
    assert [Connect(c)][..0] == none && [Connect(c), Arrive(c, msg)][..1] == [Connect(c)];
    assert Run(w, [Connect(c)]) == Next(w, Run(w, none), Connect(c));
    var s := Run(w, [Connect(c)]);
    assert Run(w, [Connect(c), Arrive(c, msg)]) == Next(w, s, Arrive(c, msg));
    assert s.clients[c].frames + [msg] == [msg];
  }

  /** For example: a daemon that bridges and requires routes, but has none, and any broadcast. */
  lemma ExampleJams()
    ensures
      var w := World(Settings(1, true, true), (pattern, topic) => true, (channel, topic) => false);
      JammedAt(w, Run(w, [Connect(0), Arrive(0, Message(0, 0, 0, 0, 0, [], [104], []))]), 0, 0)
  {
    var w := World(Settings(1, true, true), (pattern, topic) => true, (channel, topic) => false);
    JamReached(w, 0, Message(0, 0, 0, 0, 0, [], [104], []));
  }
}
