/** A frame that has to be published again: how many copies of it there are, which of them are
    equal, and how often it goes out over the network. */
module DeliveryRepeats {
  import opened Word32
  import opened Protocol
  import opened MessageBus
  import opened Status
  import opened Ipc
  import opened DeliverySystem
  import opened DeliveryRuns
  import ClientQueue

  predicate IsOn(e: Try, p: nat, i: nat) {
    e.publisher == p && e.index == i
  }

  // ---- How many copies ----

  /** The copies of publisher p's frame i in a stream. */
  function Number(log: seq<Try>, stream: seq<Copy>, p: nat, i: nat): nat
    decreases |stream|
  {
    if stream == [] then 0
    else
      var x := stream[|stream| - 1];
      Number(log, stream[..|stream| - 1], p, i) + (if x.attempt < |log| && IsOn(log[x.attempt], p, i) then 1 else 0)
  }

  /** The copies a client's subscriptions asked for, over all attempts on the frame. */
  function Asked(w: World, log: seq<Try>, p: nat, i: nat, fd: nat): nat
    decreases |log|
  {
    if log == [] then 0
    else
      var e := log[|log| - 1];
      Asked(w, log[..|log| - 1], p, i, fd) + (if IsOn(e, p, i) then Due(w, e, fd) else 0)
  }

  /** The copies that come from the first attempts. */
  function FromAll(log: seq<Try>, stream: seq<Copy>, p: nat, i: nat): nat
    decreases |log|
  {
    if log == [] then 0
    else
      var n := |log| - 1;
      FromAll(log[..n], stream, p, i) + (if IsOn(log[n], p, i) then From(stream, n) else 0)
  }

  lemma {:induction false} FromAllSnoc(log: seq<Try>, stream: seq<Copy>, x: Copy, p: nat, i: nat)
    ensures
      FromAll(log, stream + [x], p, i) ==
      FromAll(log, stream, p, i) + (if x.attempt < |log| && IsOn(log[x.attempt], p, i) then 1 else 0)
    decreases |log|
  {
    if log != [] {
      var n := |log| - 1;
      FromAllSnoc(log[..n], stream, x, p, i);
      FromSnoc(stream, x, n);
      hide From;
    }
  }

  lemma {:induction false} FromAllNone(log: seq<Try>, p: nat, i: nat)
    ensures FromAll(log, [], p, i) == 0
    decreases |log|
  {
    if log != [] { FromAllNone(log[..|log| - 1], p, i); }
  }

  lemma {:induction false} NumberIs(log: seq<Try>, stream: seq<Copy>, p: nat, i: nat)
    ensures Number(log, stream, p, i) == FromAll(log, stream, p, i)
    decreases |stream|
  {
    if stream == [] {
      FromAllNone(log, p, i);
    } else {
      var n := |stream| - 1;
      NumberIs(log, stream[..n], p, i);
      FromAllSnoc(log, stream[..n], stream[n], p, i);
      assert stream[..n] + [stream[n]] == stream;
    }
  }

  /** With up to `n` attempts looked at. */
  lemma {:induction false} FromAllAsked(w: World, log: seq<Try>, stream: seq<Copy>, p: nat, i: nat, fd: nat, n: nat)
    requires StreamOk(w, log, stream, fd) && n <= |log|
    ensures FromAll(log[..n], stream, p, i) <= Asked(w, log[..n], p, i, fd)
    ensures (forall e <- log[..n] | IsOn(e, p, i) :: !e.refused)
      ==> FromAll(log[..n], stream, p, i) == Asked(w, log[..n], p, i, fd)
  {
    hide StreamOk, From, Due;
    if n > 0 {
      FromAllAsked(w, log, stream, p, i, fd, n - 1);
      assert log[..n][..n - 1] == log[..n - 1];
      OneAttempt(w, log, stream, fd, n - 1);
      assert log[n - 1] in log[..n] && forall e <- log[..n - 1] :: e in log[..n];
    }
  }

  lemma OneAttempt(w: World, log: seq<Try>, stream: seq<Copy>, fd: nat, k: nat)
    requires StreamOk(w, log, stream, fd) && k < |log|
    ensures From(stream, k) <= Due(w, log[k], fd) && (!log[k].refused ==> From(stream, k) == Due(w, log[k], fd))
  {
    hide From, Due;
  }

  /** In every run: no more copies of a frame than its attempts were asked for, and exactly that
      many if no attempt on it was refused by anybody. */
  lemma CopiesBounded(w: World, actions: seq<Action>, p: nat, i: nat, fd: nat)
    requires fd in Run(w, actions).clients
    ensures
      var s := Run(w, actions);
      var n := Number(s.log, s.clients[fd].stream, p, i);
      && n <= Asked(w, s.log, p, i, fd)
      && ((forall e <- s.log | IsOn(e, p, i) :: !e.refused) ==> n == Asked(w, s.log, p, i, fd))
  {
    RunOk(w, actions);
    var s := Run(w, actions);
    hide Run, StreamOk;
    var stream := s.clients[fd].stream;
    NumberIs(s.log, stream, p, i);
    FromAllAsked(w, s.log, stream, p, i, fd, |s.log|);
    assert s.log[..|s.log|] == s.log;
  }

  // ---- Which of them are equal ----

  /** The attempts up to and including number k that needed a fresh number. */
  function OpensTo(log: seq<Try>, k: nat): nat
    requires k < |log|
  {
    Opens(log[..k + 1])
  }

  lemma {:induction false} OpensMove(log: seq<Try>, j: nat, k: nat)
    requires j <= k < |log|
    ensures OpensTo(log, j) <= OpensTo(log, k) <= OpensTo(log, j) + (k - j)
    ensures j < k && log[k].frame.seqNo == 0 ==> OpensTo(log, j) < OpensTo(log, k)
    decreases k
  {
    if j < k {
      OpensMove(log, j, k - 1);
      assert log[..k + 1][..k] == log[..k];
    }
  }

  /** Two copies of one frame, given to the same subscriber or to two, are equal exactly when the
      client numbered the frame itself or a multiple of 2^32 fresh numbers lies between the two
      attempts. So copies of one attempt are equal, and those of two attempts less than 2^32
      attempts apart are not. */
  lemma WhichCopiesEqual(w: World, actions: seq<Action>, p: nat, i: nat, fd: nat, fd': nat, x: Copy, y: Copy)
    requires var s := Run(w, actions);
      fd in s.clients && fd' in s.clients && x in s.clients[fd].stream && y in s.clients[fd'].stream
    requires var s := Run(w, actions);
      x.attempt <= y.attempt < |s.log| && IsOn(s.log[x.attempt], p, i) && IsOn(s.log[y.attempt], p, i)
    ensures
      var s := Run(w, actions);
      && p in s.clients && i < |s.clients[p].frames|
      && (var frame := s.clients[p].frames[i];
          && (x.msg == y.msg <==>
            frame.seqNo != 0 || (OpensTo(s.log, y.attempt) - OpensTo(s.log, x.attempt)) % MODULUS == 0)
          && (x.attempt == y.attempt ==> x.msg == y.msg)
          && (frame.seqNo == 0 && 0 < y.attempt - x.attempt < MODULUS ==> x.msg != y.msg))
  {
    RunOk(w, actions);
    var s := Run(w, actions);
    hide Run, From, Due, Publishable, LogOrder, LeftOnce, OutOk, Opens, Wrap;
    var a, b := s.log[x.attempt], s.log[y.attempt];
    assert EntryOk(s.clients, a) && EntryOk(s.clients, b);
    assert StreamOk(w, s.log, s.clients[fd].stream, fd) && StreamOk(w, s.log, s.clients[fd'].stream, fd');
    assert x.msg == SentBy(w, a) && y.msg == SentBy(w, b);
    OpensMove(s.log, x.attempt, y.attempt);
    WrapsEqual(OpensTo(s.log, x.attempt), OpensTo(s.log, y.attempt));
    SmallStep(OpensTo(s.log, y.attempt) - OpensTo(s.log, x.attempt));
  }

  lemma WrapsEqual(m: nat, n: nat)
    requires m <= n
    ensures Wrap(m) == Wrap(n) <==> (n - m) % MODULUS == 0
  {
    var q, r := m / MODULUS, n / MODULUS;
    assert m == MODULUS * q + Wrap(m) && n == MODULUS * r + Wrap(n);
    assert n - m == MODULUS * (r - q) + (Wrap(n) - Wrap(m));
  }

  lemma SmallStep(d: nat)
    ensures 0 < d < MODULUS ==> d % MODULUS != 0
  {
  }

  // ---- How often over the network ----

  /** Attempts on a frame whose message a transport accepted. */
  function Sends(log: seq<Try>, p: nat, i: nat): nat
    decreases |log|
  {
    if log == [] then 0
    else
      var e := log[|log| - 1];
      Sends(log[..|log| - 1], p, i) + (if IsOn(e, p, i) && e.net == Some(Ok) then 1 else 0)
  }

  /** Those among them that a subscriber refused, so that the frame stayed where it was. */
  function RefusedSends(log: seq<Try>, p: nat, i: nat): nat
    decreases |log|
  {
    if log == [] then 0
    else
      var e := log[|log| - 1];
      RefusedSends(log[..|log| - 1], p, i) + (if IsOn(e, p, i) && e.net == Some(Ok) && e.refused then 1 else 0)
  }

  /** The frame left its buffer by an attempt that a transport accepted. */
  predicate LeftByNetwork(log: seq<Try>, p: nat, i: nat) {
    exists e <- log :: IsOn(e, p, i) && e.rc == Ok && e.net == Some(Ok)
  }

  lemma {:induction false} CountSends(clients: map<nat, Client>, log: seq<Try>, p: nat, i: nat)
    requires LogOrder(log) && forall e <- log :: EntryOk(clients, e)
    ensures Sends(log, p, i) == RefusedSends(log, p, i) + (if LeftByNetwork(log, p, i) then 1 else 0)
    decreases |log|
  {
    if log != [] {
      var n := |log| - 1;
      var init, e := log[..n], log[n];
      assert forall x <- init :: x in log;
      CountSends(clients, init, p, i);
      assert EntryOk(clients, e);
      hide EntryOk, Sends, RefusedSends, LogOrder;
      LeftByLast(log, p, i);
    }
  }

  /** Only the last attempt on a frame can be the one it left by. */
  lemma LeftByLast(log: seq<Try>, p: nat, i: nat)
    requires LogOrder(log) && log != []
    ensures
      var init, e := log[..|log| - 1], log[|log| - 1];
      && (LeftByNetwork(log, p, i) <==> LeftByNetwork(init, p, i) || (IsOn(e, p, i) && e.rc == Ok && e.net == Some(Ok)))
      && (IsOn(e, p, i) ==> !LeftByNetwork(init, p, i))
  {
    var n := |log| - 1;
    var init, e := log[..n], log[n];
    assert log == init + [e];
  }

  /** In every run a frame goes out over the network once for every attempt that a transport
      accepted although a subscriber refused it, and once more when it leaves with a transport
      accepting it. So a frame that left over the network was sent once if and only if no attempt
      on it was refused by a subscriber while a transport accepted it; and at any moment it has been
      sent at most once if and only if there was no such attempt, or one and the frame has not
      left over the network. */
  lemma NetworkSends(w: World, actions: seq<Action>, p: nat, i: nat)
    ensures
      var log := Run(w, actions).log;
      && Sends(log, p, i) == RefusedSends(log, p, i) + (if LeftByNetwork(log, p, i) then 1 else 0)
      && (LeftByNetwork(log, p, i) ==> (Sends(log, p, i) == 1 <==> RefusedSends(log, p, i) == 0))
      && (Sends(log, p, i) <= 1 <==>
            RefusedSends(log, p, i) == 0 || (RefusedSends(log, p, i) == 1 && !LeftByNetwork(log, p, i)))
  {
    RunOk(w, actions);
    var s := Run(w, actions);
    hide Run, LeftByNetwork, Numbered, LeftOnce, ClientsOk;
    CountSends(s.clients, s.log, p, i);
  }

  // ---- A run in which a frame is published twice ----

  function Anything(): World {
    World(Settings(1, false, true), (pattern, topic) => true, (channel, topic) => true)
  }

  /** A frame that leaves its number open. */
  function Hello(): Message {
    Message(0, 0, 0, 0, 0, [], [104], [1])
  }

  /** Client 0 publishes to client 1. The copy is enqueued, but the epoll update after it fails,
      so the frame is published again. */
  function Twice(): seq<Action> {
    [Connect(0), Connect(1), SubscribeTo(1, [104]), Arrive(0, Hello()), Attempt(0, [false], Ok), Attempt(0, [true], Ok)]
  }

  function Fresh(frames: seq<Message>): Client {
    Client(true, frames, 0, [], ClientQueue.Tx([], []))
  }

  /** The state after the first actions. */
  lemma {:induction false} Prepared()
    ensures
      var s := Run(Anything(), Twice()[..4]);
      AboutTo(s) && s.log == [] && s.nextSeq == 0 && s.clients[1] == Fresh([])
  {
    hide Run, Anything, TryHead;
    var w, t := Anything(), Twice();
    Steps(w, t, 0);
    Steps(w, t, 1);
    Steps(w, t, 2);
    Steps(w, t, 3);
    assert t[..0] == [];
    assert Run(w, t[..1]) == State([], map[0 := Fresh([])], 0, []);
    assert Run(w, t[..2]) == State([], map[0 := Fresh([]), 1 := Fresh([])], 0, []);
    assert Run(w, t[..3]) == State([Sub(1, [104])], map[0 := Fresh([]), 1 := Fresh([])], 0, []);
    assert [] + [Hello()] == [Hello()];
    assert Run(w, t[..4]) == State([Sub(1, [104])], map[0 := Fresh([Hello()]), 1 := Fresh([])], 0, []);
  }

  lemma Steps(w: World, actions: seq<Action>, k: nat)
    requires k < |actions|
    ensures Run(w, actions[..k + 1]) == Next(w, Run(w, actions[..k]), actions[k])
    ensures Run(w, []) == Start()
  {
    assert actions[..k + 1][..k] == actions[..k];
    hide Next;
  }

  /** Client 0 is about to publish its frame to client 1. */
  predicate AboutTo(s: State)
    ensures AboutTo(s) ==> s.clients.Keys == {0, 1}
  {
    && s.subs == [Sub(1, [104])] && s.clients.Keys == {0, 1}
    && s.clients[0] == Fresh([Hello()])
    && s.clients[1].alive && |s.clients[1].out.pending| < 1000
  }

  /** The copy is enqueued whether or not the epoll update works. */
  lemma {:induction false} OneOffer(s: State, x: Copy, ok: bool)
    requires AboutTo(s) && Publishable(x.msg) && |DeliverFrame(x.msg)| == 30
    ensures
      var cl := s.clients[1];
      var reply := if ok then Took else Failed;
      && OfferAll(Anything().matches, s.clients, s.subs, 0, x, [ok]) ==
           (s.clients[1 := cl.(stream := cl.stream + [x], out := cl.out.Enqueued(DeliverFrame(x.msg)))], [reply])
      && Copies(Anything().matches, s.subs, 0, x.msg, [reply]) == [1]
      && (Refused(Anything().matches, s.subs, 0, x.msg, [reply]) <==> !ok)
  {
    var oks, m := [ok], Anything().matches;
    var rs := [if ok then Took else Failed];
    assert s.subs[..0] == [] && oks[..0] == [] && rs[..0] == [];
    assert OfferAll(m, s.clients, s.subs[..0], 0, x, oks[..0]) == (s.clients, []);
    assert Copies(m, s.subs[..0], 0, x.msg, rs[..0]) == [];
    assert Wants(m, s.subs[0], 0, x.msg);
    hide DeliverFrame, Publishable;
    assert [] + rs == rs;
  }

  lemma {:induction false} OnePublish(s: State, ok: bool)
    requires AboutTo(s)
    ensures
      var s' := Next(Anything(), s, Attempt(0, [ok], Ok));
      var e := Try(0, 0, Hello(), Add(s.nextSeq, 1), s.subs, !ok, Some(Ok), if ok then Ok else NoMem);
      && s'.log == s.log + [e] && s'.nextSeq == e.number && s'.subs == s.subs && s'.clients.Keys == s.clients.Keys
      && s'.clients[0] == s.clients[0].(done := if ok then 1 else 0)
      && s'.clients[1].stream == s.clients[1].stream + [Copy(|s.log|, SentBy(Anything(), e))]
      && (!ok && |s.clients[1].out.pending| < 900 ==> AboutTo(s'))
  {
    var w, x := Anything(), HeadCopy(Anything(), s, 0);
    assert x == Copy(|s.log|, Stamp(w.settings, Hello(), Add(s.nextSeq, 1)));
    OneOffer(s, x, ok);
    hide OfferAll, DeliverFrame, Copies, Refused;
  }

  /** After the first attempt the message has gone out once although a subscriber refused it; after
      the second it has gone out twice, and the subscriber has two copies that differ. */
  lemma PublishedTwice()
    ensures
      var s := Run(Anything(), Twice()[..5]);
      Sends(s.log, 0, 0) == 1 && RefusedSends(s.log, 0, 0) == 1 && s.clients.Keys == {0, 1} && s.clients[0].done == 0
    ensures
      var s := Run(Anything(), Twice());
      && Sends(s.log, 0, 0) == 2 && LeftByNetwork(s.log, 0, 0) && s.clients.Keys == {0, 1} && s.clients[0].done == 1
      && |s.clients[1].stream| == 2 && s.clients[1].stream[0].msg != s.clients[1].stream[1].msg
  {
    hide Run, Next, SentBy, Sends, RefusedSends, LeftByNetwork, Anything;
    var w, t := Anything(), Twice();
    assert t[..6] == t;
    FirstTry();
    Steps(w, t, 5);
    var s1, s2 := Run(w, t[..5]), Run(w, t);
    OnePublish(s1, true);
    var first := Try(0, 0, Hello(), 1, s1.subs, true, Some(Ok), NoMem);
    var second := Try(0, 0, Hello(), 2, s1.subs, false, Some(Ok), Ok);
    assert s2.log == [first, second];
    BothTries(first, second);
  }

  lemma FirstTry()
    ensures
      var s := Run(Anything(), Twice()[..5]);
      var first := Try(0, 0, Hello(), 1, s.subs, true, Some(Ok), NoMem);
      AboutTo(s) && s.log == [first] && s.nextSeq == 1 && s.clients[1].stream == [Copy(0, SentBy(Anything(), first))]
  {
    hide Run, Next, SentBy, AboutTo, Anything;
    var w, t := Anything(), Twice();
    Prepared();
    Steps(w, t, 4);
    FirstPublish(Run(w, t[..4]));
  }

  lemma FirstPublish(s: State)
    requires AboutTo(s) && s.log == [] && s.nextSeq == 0 && s.clients[1] == Fresh([])
    ensures
      var s' := Next(Anything(), s, Attempt(0, [false], Ok));
      var first := Try(0, 0, Hello(), 1, s'.subs, true, Some(Ok), NoMem);
      AboutTo(s') && s'.log == [first] && s'.nextSeq == 1
        && s'.clients[1].stream == [Copy(0, SentBy(Anything(), first))]
  {
    hide Next, SentBy, AboutTo;
    OnePublish(s, false);
  }

  lemma BothTries(first: Try, second: Try)
    requires IsOn(first, 0, 0) && first.refused && first.net == Some(Ok)
    requires IsOn(second, 0, 0) && !second.refused && second.net == Some(Ok) && second.rc == Ok
    requires first.frame == second.frame == Hello() && first.number != second.number
    ensures Sends([first], 0, 0) == 1 && RefusedSends([first], 0, 0) == 1
    ensures Sends([first, second], 0, 0) == 2 && LeftByNetwork([first, second], 0, 0)
    ensures SentBy(Anything(), first) != SentBy(Anything(), second)
  {
    var both := [first, second];
    assert both[..1] == [first] && [first][..0] == [] && both[1] in both;
  }
}
