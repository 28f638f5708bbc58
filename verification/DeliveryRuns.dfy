/** What local delivery guarantees over every run: however buffers fill and drain, whatever the
    network says, and however often a frame has to be published again. */
module DeliveryRuns {
  import opened Word32
  import opened Protocol
  import opened MessageBus
  import opened Status
  import opened Ipc
  import opened DeliverySystem

  // ---- What every reachable state satisfies ----

  /** How many copies the subscriptions of one client ask for at an attempt. */
  function Due(w: World, e: Try, fd: nat): nat {
    if DeliversLocally(w.settings, e.frame) then Matching(w.matches, e.subs, e.publisher, e.frame, fd) else 0
  }

  /** How many copies in a stream come from one attempt. */
  function From(stream: seq<Copy>, k: nat): nat
    decreases |stream|
  {
    if stream == [] then 0
    else From(stream[..|stream| - 1], k) + (if stream[|stream| - 1].attempt == k then 1 else 0)
  }

  /** A subscriber's stream: copies of what the attempts sent, in the order of the attempts; never
      more than its subscriptions asked for, and no fewer unless the attempt reported a refusal. */
  predicate StreamOk(w: World, log: seq<Try>, stream: seq<Copy>, fd: nat) {
    && (forall x <- stream :: x.attempt < |log| && x.msg == SentBy(w, log[x.attempt]))
    && (forall j, k | 0 <= j < k < |stream| :: stream[j].attempt <= stream[k].attempt)
    && (forall k | 0 <= k < |log| ::
      From(stream, k) <= Due(w, log[k], fd) && (!log[k].refused ==> From(stream, k) == Due(w, log[k], fd)))
  }

  function Msgs(stream: seq<Copy>): (r: seq<Message>)
    ensures |r| == |stream|
  {
    seq(|stream|, i requires 0 <= i < |stream| => stream[i].msg)
  }

  /** The bytes on a client's socket and those that wait are the frames of its copies. */
  predicate OutOk(cl: Client) {
    AllPublishable(Msgs(cl.stream)) && cl.out.sent + cl.out.pending == Encoded(Msgs(cl.stream))
  }

  /** An attempt was on a frame that had arrived, not beyond the head. */
  predicate EntryOk(clients: map<nat, Client>, e: Try) {
    && e.publisher in clients
    && (var p := clients[e.publisher];
        e.index < |p.frames| && e.frame == p.frames[e.index] && e.index <= p.done && (e.rc == Ok ==> e.index < p.done))
    && (forall x <- e.subs :: x.fd in clients)
    && Publishable(e.frame)
    && (e.refused ==> e.rc == NoMem) && (!e.refused && e.net == Some(Ok) ==> e.rc == Ok)
  }

  /** A publisher's frames are attempted in order, and none again after it has left. */
  predicate LogOrder(log: seq<Try>) {
    forall j, k | 0 <= j < k < |log| && log[j].publisher == log[k].publisher ::
      log[j].index <= log[k].index && (log[j].rc == Ok ==> log[j].index < log[k].index)
  }

  predicate LeftAt(log: seq<Try>, p: nat, i: nat, k: nat) {
    k < |log| && log[k].publisher == p && log[k].index == i && log[k].rc == Ok
  }

  predicate HasLeft(log: seq<Try>, p: nat, i: nat) {
    exists k | 0 <= k < |log| :: LeftAt(log, p, i, k)
  }

  /** Every frame that left its buffer left by an attempt that returned BC_OK. */
  predicate LeftOnce(s: State) {
    forall p, i: nat | p in s.clients && i < s.clients[p].done :: HasLeft(s.log, p, i)
  }

  /** How many attempts needed a fresh number. */
  function Opens(log: seq<Try>): nat
    decreases |log|
  {
    if log == [] then 0 else Opens(log[..|log| - 1]) + (if log[|log| - 1].frame.seqNo == 0 then 1 else 0)
  }

  /** Fresh numbers count up, in 32 bits. */
  predicate Numbered(s: State) {
    && s.nextSeq == Wrap(Opens(s.log))
    && forall k | 0 <= k < |s.log| :: s.log[k].number == Wrap(Opens(s.log[..k + 1]))
  }

  predicate ClientsOk(w: World, s: State) {
    forall fd <- s.clients :: StreamOk(w, s.log, s.clients[fd].stream, fd) && OutOk(s.clients[fd])
  }

  predicate Inv(w: World, s: State) {
    && (forall x <- s.subs :: Live(s, x.fd))
    && (forall e <- s.log :: EntryOk(s.clients, e))
    && (forall p <- s.clients :: s.clients[p].done <= |s.clients[p].frames|)
    && LogOrder(s.log) && LeftOnce(s) && Numbered(s)
    && ClientsOk(w, s)
  }

  // ---- Copies ----

  function Repeat(x: Copy, n: nat): (r: seq<Copy>)
    ensures |r| == n && forall k | 0 <= k < n :: r[k] == x
  {
    seq(n, k => x)
  }

  lemma FromSnoc(stream: seq<Copy>, x: Copy, k: nat)
    ensures From(stream + [x], k) == From(stream, k) + (if x.attempt == k then 1 else 0)
  {
    assert (stream + [x])[..|stream|] == stream;
  }

  lemma {:induction false} FromRepeat(stream: seq<Copy>, x: Copy, n: nat, k: nat)
    ensures From(stream + Repeat(x, n), k) == From(stream, k) + (if x.attempt == k then n else 0)
  {
    if n == 0 {
      assert stream + Repeat(x, 0) == stream;
    } else {
      assert stream + Repeat(x, n) == (stream + Repeat(x, n - 1)) + [x];
      FromRepeat(stream, x, n - 1, k);
      FromSnoc(stream + Repeat(x, n - 1), x, k);
    }
  }

  lemma {:induction false} FromNone(stream: seq<Copy>, k: nat)
    requires forall x <- stream :: x.attempt < k
    ensures From(stream, k) == 0
    decreases |stream|
  {
    if stream != [] {
      assert stream[|stream| - 1] in stream;
      FromNone(stream[..|stream| - 1], k);
    }
  }

  /** Whether a subscription wants a message depends on its topic only. */
  lemma {:induction false} SameTopic(matches: Matcher, subs: seq<Sub>, source: int, a: Message, b: Message, fd: nat)
    requires a.topic == b.topic
    ensures Matching(matches, subs, source, a, fd) == Matching(matches, subs, source, b, fd)
    decreases |subs|
  {
    if subs != [] { SameTopic(matches, subs[..|subs| - 1], source, a, b, fd); }
  }

  lemma OneMoreOut(cl: Client, x: Copy)
    requires OutOk(cl) && Publishable(x.msg) && cl.out.Fits(DeliverFrame(x.msg))
    ensures OutOk(cl.(stream := cl.stream + [x], out := cl.out.Enqueued(DeliverFrame(x.msg))))
  {
    hide Encoded, DeliverFrame, Publishable;
    assert Msgs(cl.stream + [x]) == Msgs(cl.stream) + [x.msg];
    EncodedSnoc(Msgs(cl.stream), x.msg);
    assert cl.out.sent + (cl.out.pending + DeliverFrame(x.msg)) == Encoded(Msgs(cl.stream)) + DeliverFrame(x.msg);
  }

  /** How a client is left by an attempt that gave it n copies. */
  predicate Given(before: Client, after: Client, x: Copy, n: nat)
    requires Publishable(x.msg)
  {
    && after == before.(stream := before.stream + Repeat(x, n), out := after.out)
    && (OutOk(before) ==> OutOk(after))
    && |after.out.pending| == |before.out.pending| + n * |DeliverFrame(x.msg)|
  }

  lemma GivenNone(cl: Client, x: Copy)
    requires Publishable(x.msg)
    ensures Given(cl, cl, x, 0)
  {
    assert cl.stream + Repeat(x, 0) == cl.stream;
  }

  lemma GivenOne(before: Client, after: Client, x: Copy, n: nat)
    requires Publishable(x.msg) && Given(before, after, x, n) && after.out.Fits(DeliverFrame(x.msg))
    ensures Given(before, after.(stream := after.stream + [x], out := after.out.Enqueued(DeliverFrame(x.msg))), x,
      n + 1)
  {
    if OutOk(before) { OneMoreOut(after, x); }
    assert before.stream + Repeat(x, n + 1) == before.stream + Repeat(x, n) + [x];
    OneMoreFrame(n, |DeliverFrame(x.msg)|);
    hide OutOk, DeliverFrame, Publishable, Repeat;
  }

  lemma OneMoreFrame(n: nat, len: nat)
    ensures (n + 1) * len == n * len + len
  {
  }

  /** Offering a copy to all subscriptions gives each client as many as deliver_local counts. */
  lemma {:induction false} OffersGive(matches: Matcher, clients: map<nat, Client>, subs: seq<Sub>, source: nat,
      x: Copy, epollOk: seq<bool>, fd: nat)
    requires Publishable(x.msg) && |epollOk| == |subs| && fd in clients
    ensures
      var (cs, rs) := OfferAll(matches, clients, subs, source, x, epollOk);
      Given(clients[fd], cs[fd], x, Times(Copies(matches, subs, source, x.msg, rs), fd))
    decreases |subs|
  {
    hide Given, Wants, Publishable, DeliverFrame;
    if subs == [] {
      GivenNone(clients[fd], x);
    } else {
      var n := |subs| - 1;
      OffersGive(matches, clients, subs[..n], source, x, epollOk[..n], fd);
      var (cs, rs) := OfferAll(matches, clients, subs[..n], source, x, epollOk[..n]);
      var some := Copies(matches, subs[..n], source, x.msg, rs);
      var (cs', rs') := OfferAll(matches, clients, subs, source, x, epollOk);
      assert rs'[..n] == rs;
      TimesSnoc(some, subs[n].fd, fd);
      assert some + [] == some;
      hide Times, Copies;
      if Wants(matches, subs[n], source, x.msg) && subs[n].fd == fd && !rs'[n].Full? {
        GivenOne(clients[fd], cs[fd], x, Times(some, fd));
      }
    }
  }

  // ---- An attempt ----

  /** The attempt that is about to be logged. */
  function Entry(w: World, s: State, c: nat, epollOk: seq<bool>, sendRc: Code): Try
    requires HasHead(s, c) && HeadPublishable(s, c) && |epollOk| == |s.subs|
  {
    TryOf(w, s, c, Offered(w, s, c, HeadCopy(w, s, c), epollOk).1, sendRc)
  }

  /** How many copies it gives a client: as many as asked for, or fewer and a refusal is reported. */
  lemma AttemptCopies(w: World, s: State, c: nat, epollOk: seq<bool>, sendRc: Code, fd: nat)
    requires HasHead(s, c) && HeadPublishable(s, c) && |epollOk| == |s.subs| && fd in s.clients
    ensures
      var s1, e, x := Logged(w, s, c, epollOk, sendRc), Entry(w, s, c, epollOk, sendRc), HeadCopy(w, s, c);
      exists n: nat ::
        && Given(s.clients[fd], s1.clients[fd], x, n)
        && n <= Due(w, e, fd) && (!e.refused ==> n == Due(w, e, fd))
  {
    var x := HeadCopy(w, s, c);
    var msg := s.clients[c].frames[s.clients[c].done];
    hide Given, Publishable, DeliverFrame, Copies, Refused, Matching, Times;
    if DeliversLocally(w.settings, x.msg) {
      var (cs, rs) := OfferAll(w.matches, s.clients, s.subs, c, x, epollOk);
      OffersGive(w.matches, s.clients, s.subs, c, x, epollOk, fd);
      CopiesCount(w.matches, s.subs, c, x.msg, rs, fd);
      SameTopic(w.matches, s.subs, c, x.msg, msg, fd);
      var n := Times(Copies(w.matches, s.subs, c, x.msg, rs), fd);
      assert Given(s.clients[fd], Logged(w, s, c, epollOk, sendRc).clients[fd], x, n);
    } else {
      GivenNone(s.clients[fd], x);
      assert Given(s.clients[fd], Logged(w, s, c, epollOk, sendRc).clients[fd], x, 0);
    }
  }

  lemma StreamGrows(w: World, log: seq<Try>, e: Try, stream: seq<Copy>, x: Copy, n: nat, fd: nat)
    requires StreamOk(w, log, stream, fd) && x == Copy(|log|, SentBy(w, e))
    requires n <= Due(w, e, fd) && (!e.refused ==> n == Due(w, e, fd))
    ensures StreamOk(w, log + [e], stream + Repeat(x, n), fd)
  {
    hide Due, SentBy;
    var more := stream + Repeat(x, n);
    forall j, k | 0 <= j < k < |more| ensures more[j].attempt <= more[k].attempt {
      if j < |stream| { assert stream[j] in stream; }
    }
    FromNone(stream, |log|);
    forall k | 0 <= k < |log + [e]|
      ensures From(more, k) <= Due(w, (log + [e])[k], fd)
        && (!(log + [e])[k].refused ==> From(more, k) == Due(w, (log + [e])[k], fd))
    {
      FromRepeat(stream, x, n, k);
    }
  }

  lemma ClientsLogged(w: World, s: State, c: nat, epollOk: seq<bool>, sendRc: Code)
    requires ClientsOk(w, s) && HasHead(s, c) && HeadPublishable(s, c) && |epollOk| == |s.subs|
    ensures ClientsOk(w, Logged(w, s, c, epollOk, sendRc))
    ensures
      var s1 := Logged(w, s, c, epollOk, sendRc);
      && s1.clients.Keys == s.clients.Keys
      && forall fd <- s.clients ::
        s1.clients[fd] == s.clients[fd].(stream := s1.clients[fd].stream, out := s1.clients[fd].out)
  {
    hide Logged, OutOk, StreamOk, HeadPublishable;
    LoggedLog(w, s, c, epollOk, sendRc);
    var s1 := Logged(w, s, c, epollOk, sendRc);
    forall fd | fd in s.clients
      ensures StreamOk(w, s1.log, s1.clients[fd].stream, fd) && OutOk(s1.clients[fd])
      ensures s1.clients[fd] == s.clients[fd].(stream := s1.clients[fd].stream, out := s1.clients[fd].out)
    {
      ClientLogged(w, s, c, epollOk, sendRc, fd);
    }
  }

  lemma LoggedLog(w: World, s: State, c: nat, epollOk: seq<bool>, sendRc: Code)
    requires HasHead(s, c) && HeadPublishable(s, c) && |epollOk| == |s.subs|
    ensures
      var s1 := Logged(w, s, c, epollOk, sendRc);
      s1.log == s.log + [Entry(w, s, c, epollOk, sendRc)] && s1.clients.Keys == s.clients.Keys
  {
    hide Offered, TryOf;
  }

  lemma ClientLogged(w: World, s: State, c: nat, epollOk: seq<bool>, sendRc: Code, fd: nat)
    requires HasHead(s, c) && HeadPublishable(s, c) && |epollOk| == |s.subs| && fd in s.clients
    requires StreamOk(w, s.log, s.clients[fd].stream, fd) && OutOk(s.clients[fd])
    ensures
      var s1 := Logged(w, s, c, epollOk, sendRc);
      && fd in s1.clients && StreamOk(w, s1.log, s1.clients[fd].stream, fd) && OutOk(s1.clients[fd])
      && s1.clients[fd] == s.clients[fd].(stream := s1.clients[fd].stream, out := s1.clients[fd].out)
  {
    var s1, e, x := Logged(w, s, c, epollOk, sendRc), Entry(w, s, c, epollOk, sendRc), HeadCopy(w, s, c);
    assert x == Copy(|s.log|, SentBy(w, e));
    LoggedLog(w, s, c, epollOk, sendRc);
    hide Logged, Entry, HeadCopy, OutOk, StreamOk, Due, HeadPublishable, DeliverFrame;
    AttemptCopies(w, s, c, epollOk, sendRc, fd);
    var n: nat :| Given(s.clients[fd], s1.clients[fd], x, n) && n <= Due(w, e, fd)
      && (!e.refused ==> n == Due(w, e, fd));
    StreamGrows(w, s.log, e, s.clients[fd].stream, x, n, fd);
  }

  /** What the new entry says of the attempt. */
  lemma EntryIs(w: World, s: State, c: nat, epollOk: seq<bool>, sendRc: Code)
    requires HasHead(s, c) && HeadPublishable(s, c) && |epollOk| == |s.subs|
    ensures
      var e, cl := Entry(w, s, c, epollOk, sendRc), s.clients[c];
      && e.publisher == c && e.index == cl.done && e.frame == cl.frames[cl.done] && e.subs == s.subs
        && Publishable(e.frame)
      && e.number == NextSeq(s, e.frame)
      && (e.refused ==> e.rc == NoMem) && (!e.refused && e.net == Some(Ok) ==> e.rc == Ok)
  {
    hide Offered, Refused, LocalCopies, DeliversLocally, Publishable;
  }

  lemma OpensSnoc(log: seq<Try>, e: Try)
    ensures Opens(log + [e]) == Opens(log) + (if e.frame.seqNo == 0 then 1 else 0)
  {
    assert (log + [e])[..|log|] == log;
  }

  lemma NumbersGrow(s: State, e: Try, s1: State)
    requires Numbered(s) && e.number == NextSeq(s, e.frame) && s1.log == s.log + [e] && s1.nextSeq == e.number
    ensures Numbered(s1)
  {
    OpensSnoc(s.log, e);
    AddWrap(Opens(s.log), 1);
    hide Opens, Wrap;
    forall k | 0 <= k < |s1.log| ensures s1.log[k].number == Wrap(Opens(s1.log[..k + 1])) {
      if k < |s.log| { assert s1.log[..k + 1] == s.log[..k + 1]; } else { assert s1.log[..k + 1] == s1.log; }
    }
  }

  lemma OrderGrows(clients: map<nat, Client>, log: seq<Try>, e: Try)
    requires LogOrder(log) && forall x <- log :: EntryOk(clients, x)
    requires e.publisher in clients && e.index == clients[e.publisher].done
    ensures LogOrder(log + [e])
  {
    hide Publishable;
    var more := log + [e];
    forall j, k | 0 <= j < k < |more| && more[j].publisher == more[k].publisher
      ensures more[j].index <= more[k].index && (more[j].rc == Ok ==> more[j].index < more[k].index)
    {
      assert log[j] in log;
    }
  }

  /** What leaving, staying or closing makes of the publisher after the attempt was logged. */
  lemma HeadEnds(w: World, s: State, c: nat, epollOk: seq<bool>, sendRc: Code)
    requires HasHead(s, c) && HeadPublishable(s, c) && |epollOk| == |s.subs|
    ensures
      var s1, s2, e := Logged(w, s, c, epollOk, sendRc), TryHead(w, s, c, epollOk, sendRc),
        Entry(w, s, c, epollOk, sendRc);
      && s1.log == s.log + [e] && s1.subs == s.subs && s1.nextSeq == e.number
      && s2.log == s1.log && s2.nextSeq == s1.nextSeq
      && (s2.subs == Without(s.subs, c) || (s2.subs == s.subs && s2.clients[c].alive == s1.clients[c].alive))
      && s2.clients == s1.clients[c := s2.clients[c]]
      && s2.clients[c] == s1.clients[c].(alive := s2.clients[c].alive,
                                         done := if e.rc == Ok then s1.clients[c].done + 1 else s1.clients[c].done)
  {
    var s1 := Logged(w, s, c, epollOk, sendRc);
    assert s1.clients[c := s1.clients[c]] == s1.clients;
    hide TryOf, Offered, HeadCopy;
  }

  lemma EntriesKeep(clients: map<nat, Client>, clients': map<nat, Client>, e: Try)
    requires EntryOk(clients, e) && clients.Keys <= clients'.Keys
    requires forall p <- clients :: clients[p].frames <= clients'[p].frames && clients[p].done <= clients'[p].done
    ensures EntryOk(clients', e)
  {
    hide Publishable;
  }

  lemma LeavingLogged(s: State, s2: State, c: nat, e: Try)
    requires LeftOnce(s) && c in s.clients && s2.log == s.log + [e] && s2.clients.Keys == s.clients.Keys
    requires e.publisher == c && e.index == s.clients[c].done
    requires forall p <- s.clients :: s2.clients[p].done == s.clients[p].done + (if p == c && e.rc == Ok then 1 else 0)
    ensures LeftOnce(s2)
  {
    forall p, i: nat | p in s2.clients && i < s2.clients[p].done ensures HasLeft(s2.log, p, i) {
      if i < s.clients[p].done {
        assert HasLeft(s.log, p, i);
        var k :| 0 <= k < |s.log| && LeftAt(s.log, p, i, k);
        assert LeftAt(s2.log, p, i, k);
      } else {
        assert LeftAt(s2.log, p, i, |s.log|);
      }
    }
  }

  lemma TryHeadOk(w: World, s: State, c: nat, epollOk: seq<bool>, sendRc: Code)
    requires Inv(w, s) && HasHead(s, c) && |epollOk| == |s.subs|
    ensures Inv(w, TryHead(w, s, c, epollOk, sendRc))
  {
    hide ClientsOk, EntryOk, LogOrder, LeftOnce, Numbered, HeadPublishable, Logged, Entry, TryHead;
    if HeadPublishable(s, c) {
      HeadEnds(w, s, c, epollOk, sendRc);
      EntryIs(w, s, c, epollOk, sendRc);
      ClientsLogged(w, s, c, epollOk, sendRc);
      var s1, s2, e := Logged(w, s, c, epollOk, sendRc), TryHead(w, s, c, epollOk, sendRc),
        Entry(w, s, c, epollOk, sendRc);
      NumbersGrow(s, e, s2);
      OrderGrows(s.clients, s.log, e);
      LeavingLogged(s, s2, c, e);
      forall x | x in s2.log ensures EntryOk(s2.clients, x) {
        if x in s.log { EntriesKeep(s.clients, s2.clients, x); } else { NewEntryOk(s.clients, s2.clients, e, s.subs); }
      }
      OthersOnly(s.subs, |s.subs|, c);
      SameStreams(w, s1, s2);
    } else {
      ClosedHead(w, s, c, epollOk, sendRc);
    }
  }

  lemma NewEntryOk(clients: map<nat, Client>, clients': map<nat, Client>, e: Try, subs: seq<Sub>)
    requires clients'.Keys == clients.Keys && e.publisher in clients && e.subs == subs
      && forall x <- subs :: x.fd in clients
    requires e.index == clients[e.publisher].done < |clients'[e.publisher].frames|
      && e.frame == clients'[e.publisher].frames[e.index]
    requires clients'[e.publisher].done == e.index + (if e.rc == Ok then 1 else 0) && Publishable(e.frame)
    requires (e.refused ==> e.rc == NoMem) && (!e.refused && e.net == Some(Ok) ==> e.rc == Ok)
    ensures EntryOk(clients', e)
  {
    hide Publishable;
  }

  /** The streams and the output buffers are all that matters here. */
  lemma SameStreams(w: World, s: State, s': State)
    requires ClientsOk(w, s) && s'.log == s.log && s'.clients.Keys == s.clients.Keys
    requires forall fd <- s.clients ::
      s'.clients[fd].stream == s.clients[fd].stream && s'.clients[fd].out == s.clients[fd].out
    ensures ClientsOk(w, s')
  {
    hide StreamOk;
  }

  lemma ClosedOk(w: World, s: State, c: nat)
    requires Inv(w, s) && c in s.clients
    ensures Inv(w, Closed(s, c))
  {
    hide ClientsOk, EntryOk, LogOrder, HasLeft, Opens, Wrap;
    var s' := Closed(s, c);
    OthersOnly(s.subs, |s.subs|, c);
    SameStreams(w, s, s');
    forall e | e in s'.log ensures EntryOk(s'.clients, e) { EntriesKeep(s.clients, s'.clients, e); }
  }

  lemma ClosedHead(w: World, s: State, c: nat, epollOk: seq<bool>, sendRc: Code)
    requires Inv(w, s) && HasHead(s, c) && |epollOk| == |s.subs| && !HeadPublishable(s, c)
    ensures Inv(w, TryHead(w, s, c, epollOk, sendRc))
  {
    hide Inv, HeadPublishable, Logged;
    ClosedOk(w, s, c);
  }

  // ---- The other actions ----

  lemma {:induction false} NoSubs(matches: Matcher, subs: seq<Sub>, source: int, msg: Message, fd: nat)
    requires forall x <- subs :: x.fd != fd
    ensures Matching(matches, subs, source, msg, fd) == 0
    decreases |subs|
  {
    if subs != [] {
      assert subs[|subs| - 1] in subs;
      NoSubs(matches, subs[..|subs| - 1], source, msg, fd);
    }
  }

  /** A client that connects late is owed nothing: it had no subscriptions. */
  lemma OwedNothing(w: World, s: State, c: nat)
    requires (forall e <- s.log :: EntryOk(s.clients, e)) && c !in s.clients
    ensures StreamOk(w, s.log, [], c)
  {
    hide Publishable;
    forall k | 0 <= k < |s.log| ensures Due(w, s.log[k], c) == 0 {
      var e := s.log[k];
      assert EntryOk(s.clients, e);
      NoSubs(w.matches, e.subs, e.publisher, e.frame, c);
    }
  }

  lemma ConnectOk(w: World, s: State, c: nat)
    requires Inv(w, s) && c !in s.clients
    ensures Inv(w, Next(w, s, Connect(c)))
  {
    hide EntryOk, LogOrder, HasLeft, Opens, Wrap, ClientsOk;
    var s' := Next(w, s, Connect(c));
    NewClient(w, s, c);
    forall e | e in s'.log ensures EntryOk(s'.clients, e) { EntriesKeep(s.clients, s'.clients, e); }
  }

  lemma NewClient(w: World, s: State, c: nat)
    requires ClientsOk(w, s) && (forall e <- s.log :: EntryOk(s.clients, e)) && c !in s.clients
    ensures ClientsOk(w, Next(w, s, Connect(c)))
  {
    hide EntryOk, StreamOk;
    OwedNothing(w, s, c);
    assert Msgs([]) == [];
  }

  lemma ArriveOk(w: World, s: State, c: nat, msg: Message)
    requires Inv(w, s) && Live(s, c)
    ensures Inv(w, Next(w, s, Arrive(c, msg)))
  {
    hide ClientsOk, EntryOk, LogOrder, HasLeft, Opens, Wrap;
    var s' := Next(w, s, Arrive(c, msg));
    SameStreams(w, s, s');
    forall e | e in s'.log ensures EntryOk(s'.clients, e) { EntriesKeep(s.clients, s'.clients, e); }
  }

  lemma SubscribeOk(w: World, s: State, c: nat, topic: seq<byte>)
    requires Inv(w, s)
    ensures Inv(w, Next(w, s, SubscribeTo(c, topic)))
  {
    hide EntryOk, LogOrder, HasLeft, Opens, Wrap, StreamOk;
  }

  lemma DrainOk(w: World, s: State, c: nat, n: nat)
    requires Inv(w, s) && Live(s, c)
    ensures Inv(w, Next(w, s, Drain(c, n)))
  {
    hide EntryOk, LogOrder, HasLeft, Opens, Wrap, StreamOk, Encoded;
    var s' := Next(w, s, Drain(c, n));
    forall e | e in s'.log ensures EntryOk(s'.clients, e) { EntriesKeep(s.clients, s'.clients, e); }
  }

  lemma StepOk(w: World, s: State, a: Action)
    requires Inv(w, s)
    ensures Inv(w, Next(w, s, a))
  {
    hide Inv, TryHead, Closed;
    match a
    case Connect(c) => if c !in s.clients { ConnectOk(w, s, c); }
    case Arrive(c, msg) => if Live(s, c) { ArriveOk(w, s, c, msg); }
    case SubscribeTo(c, topic) => SubscribeOk(w, s, c, topic);
    case Close(c) => if Live(s, c) { ClosedOk(w, s, c); }
    case Drain(c, n) => if Live(s, c) { DrainOk(w, s, c, n); }
    case Attempt(c, epollOk, sendRc) =>
      if Live(s, c) && HasHead(s, c) && |epollOk| == |s.subs| { TryHeadOk(w, s, c, epollOk, sendRc); }
  }

  lemma {:induction false} RunOk(w: World, actions: seq<Action>)
    ensures Inv(w, Run(w, actions))
    decreases |actions|
  {
    hide Next;
    if actions != [] {
      hide Inv;
      RunOk(w, actions[..|actions| - 1]);
      StepOk(w, Run(w, actions[..|actions| - 1]), actions[|actions| - 1]);
    }
  }

  // ---- What subscribers get ----

  /** A copy of one of p's frames. */
  predicate CopyOf(log: seq<Try>, x: Copy, p: nat) {
    x.attempt < |log| && log[x.attempt].publisher == p
  }

  /** A publisher's frames come in the order it sent them; copies of one may repeat. */
  predicate InOrder(log: seq<Try>, stream: seq<Copy>, p: nat) {
    forall j, k | 0 <= j < k < |stream| && CopyOf(log, stream[j], p) && CopyOf(log, stream[k], p) ::
      log[stream[j].attempt].index <= log[stream[k].attempt].index
  }

  /** Every copy is a frame that arrived, with the node filled in, and the number of its attempt if
      the client left that open. */
  predicate Faithful(w: World, log: seq<Try>, stream: seq<Copy>, p: nat, frames: seq<Message>) {
    forall x <- stream | CopyOf(log, x, p) ::
      && log[x.attempt].index < |frames|
      && x.msg == Stamp(w.settings, frames[log[x.attempt].index], log[x.attempt].number)
  }

  /** For every frame that left its publisher's buffer there is the attempt by which it left, and
      that attempt gave the subscriber exactly the copies its subscriptions asked for. */
  predicate NoneSkipped(w: World, log: seq<Try>, stream: seq<Copy>, p: nat, done: nat, fd: nat) {
    forall i: nat | i < done :: Served(w, log, stream, p, i, fd)
  }

  predicate Served(w: World, log: seq<Try>, stream: seq<Copy>, p: nat, i: nat, fd: nat) {
    exists k | 0 <= k < |log| :: LeftAt(log, p, i, k) && From(stream, k) == Due(w, log[k], fd)
  }

  lemma Delivered(w: World, actions: seq<Action>, p: nat, fd: nat)
    requires p in Run(w, actions).clients && fd in Run(w, actions).clients
    ensures
      var s := Run(w, actions);
      var stream := s.clients[fd].stream;
      && InOrder(s.log, stream, p)
      && Faithful(w, s.log, stream, p, s.clients[p].frames)
      && NoneSkipped(w, s.log, stream, p, s.clients[p].done, fd)
  {
    RunOk(w, actions);
    var s := Run(w, actions);
    hide Run, InOrder, Faithful, NoneSkipped, StreamOk, OutOk, Numbered, EntryOk, LogOrder, LeftOnce;
    StreamInOrder(w, s.log, s.clients[fd].stream, p, fd);
    StreamFaithful(w, s.log, s.clients, s.clients[fd].stream, p, fd);
    NoneIsSkipped(w, s, p, fd);
  }

  lemma StreamInOrder(w: World, log: seq<Try>, stream: seq<Copy>, p: nat, fd: nat)
    requires StreamOk(w, log, stream, fd) && LogOrder(log)
    ensures InOrder(log, stream, p)
  {
    hide From, Due, SentBy;
  }

  lemma StreamFaithful(w: World, log: seq<Try>, clients: map<nat, Client>, stream: seq<Copy>, p: nat, fd: nat)
    requires StreamOk(w, log, stream, fd) && p in clients && forall e <- log :: EntryOk(clients, e)
    ensures Faithful(w, log, stream, p, clients[p].frames)
  {
    hide From, Due, Publishable;
    forall x | x in stream && CopyOf(log, x, p)
      ensures log[x.attempt].index < |clients[p].frames|
      ensures x.msg == Stamp(w.settings, clients[p].frames[log[x.attempt].index], log[x.attempt].number)
    {
      assert EntryOk(clients, log[x.attempt]);
    }
  }

  lemma NoneIsSkipped(w: World, s: State, p: nat, fd: nat)
    requires p in s.clients && fd in s.clients && LeftOnce(s) && StreamOk(w, s.log, s.clients[fd].stream, fd)
    requires forall e <- s.log :: EntryOk(s.clients, e)
    ensures NoneSkipped(w, s.log, s.clients[fd].stream, p, s.clients[p].done, fd)
  {
    hide From, Due, Publishable, SentBy;
    forall i: nat | i < s.clients[p].done ensures Served(w, s.log, s.clients[fd].stream, p, i, fd) {
      assert HasLeft(s.log, p, i);
      var k :| 0 <= k < |s.log| && LeftAt(s.log, p, i, k);
      assert EntryOk(s.clients, s.log[k]);
    }
  }

  /** What is on a client's socket and what waits are, together, the frames of its copies; and what
      it has read from the socket are the first of these messages, all of them once nothing waits. */
  lemma SubscriberReads(w: World, actions: seq<Action>, fd: nat)
    requires fd in Run(w, actions).clients
    ensures
      var cl := Run(w, actions).clients[fd];
      && AllPublishable(Msgs(cl.stream)) && cl.out.sent + cl.out.pending == Encoded(Msgs(cl.stream))
      && ReadAll(cl.out.sent) <= SeenOf(Msgs(cl.stream))
      && (cl.out.pending == [] ==> ReadAll(cl.out.sent) == SeenOf(Msgs(cl.stream)))
  {
    RunOk(w, actions);
    var cl := Run(w, actions).clients[fd];
    hide Run, StreamOk, Numbered, EntryOk, LogOrder, LeftOnce, Encoded, ReadAll;
    assert OutOk(cl);
    ReadsPrefix(Msgs(cl.stream), cl.out.sent);
    if cl.out.pending == [] { assert cl.out.sent + cl.out.pending == cl.out.sent; }
  }
}
