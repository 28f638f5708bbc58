/** The bus of message_bus.c on one node: the subscription table, local delivery, and what
    publishing a message returns. Topic matching and the router are parameters. */
module MessageBus {
  import opened Word32
  import opened Protocol
  import opened Status

  const MAX_SUBSCRIPTIONS: nat := 128
  const FLAG_ACK: u16 := 2
  const FLAG_NO_BRIDGE: u16 := 4

  type Matcher = (seq<byte>, seq<byte>) -> bool

  datatype Sub = Sub(fd: nat, topic: seq<byte>)

  /** What enqueueing a copy for a subscriber came to: done; no room, nothing enqueued; or
      enqueued, with an error reported all the same (of the epoll update that follows). */
  datatype Reply = Took | Full | Failed

  datatype Settings = Settings(node: u32, requireRoute: bool, bridge: bool)

  /** A subscription that is to get a message; fd -1 stands for the network. */
  predicate Wants(matches: Matcher, s: Sub, source: int, msg: Message) {
    s.fd != source && matches(s.topic, msg.topic)
  }

  /** The clients that got a copy, in order, when replies[i] says what became of the copy for
      subscription i. */
  function Copies(matches: Matcher, subs: seq<Sub>, source: int, msg: Message, replies: seq<Reply>): seq<nat>
    requires |replies| == |subs|
    decreases |subs|
  {
    if subs == [] then []
    else
      var n := |subs| - 1;
      Copies(matches, subs[..n], source, msg, replies[..n]) +
      (if Wants(matches, subs[n], source, msg) && !replies[n].Full? then [subs[n].fd] else [])
  }

  /** How many subscriptions of one client want a message. */
  function Matching(matches: Matcher, subs: seq<Sub>, source: int, msg: Message, fd: nat): nat
    decreases |subs|
  {
    if subs == [] then 0
    else
      var n := |subs| - 1;
      Matching(matches, subs[..n], source, msg, fd)
      + (if subs[n].fd == fd && Wants(matches, subs[n], source, msg) then 1 else 0)
  }

  /** For some client that should have got a copy an error was reported. */
  predicate Refused(matches: Matcher, subs: seq<Sub>, source: int, msg: Message, replies: seq<Reply>)
    requires |replies| == |subs|
  {
    exists i | 0 <= i < |subs| :: Wants(matches, subs[i], source, msg) && !replies[i].Took?
  }

  function Times(fds: seq<nat>, fd: nat): nat
    decreases |fds|
  {
    if fds == [] then 0 else Times(fds[..|fds| - 1], fd) + (if fds[|fds| - 1] == fd then 1 else 0)
  }

  lemma TimesSnoc(fds: seq<nat>, c: nat, fd: nat)
    ensures Times(fds + [c], fd) == Times(fds, fd) + (if c == fd then 1 else 0)
  {
    assert (fds + [c])[..|fds|] == fds;
  }

  /** A client gets at most one copy per subscription, and exactly that many unless somebody
      was refused. */
  lemma {:induction false} CopiesCount(matches: Matcher, subs: seq<Sub>, source: int, msg: Message,
      replies: seq<Reply>, fd: nat)
    requires |replies| == |subs|
    ensures Times(Copies(matches, subs, source, msg, replies), fd) <= Matching(matches, subs, source, msg, fd)
    ensures !Refused(matches, subs, source, msg, replies) ==>
      Times(Copies(matches, subs, source, msg, replies), fd) == Matching(matches, subs, source, msg, fd)
    decreases |subs|
  {
    if subs != [] {
      var n := |subs| - 1;
      CopiesCount(matches, subs[..n], source, msg, replies[..n], fd);
      var init := Copies(matches, subs[..n], source, msg, replies[..n]);
      TimesSnoc(init, subs[n].fd, fd);
      assert init + [] == init;
      NotRefusedBefore(matches, subs, source, msg, replies);
      hide Wants, Times, Refused;
    }
  }

  lemma NotRefusedBefore(matches: Matcher, subs: seq<Sub>, source: int, msg: Message, replies: seq<Reply>)
    requires |replies| == |subs| > 0
    ensures
      var n := |subs| - 1;
      !Refused(matches, subs, source, msg, replies) ==>
        !Refused(matches, subs[..n], source, msg, replies[..n])
          && (Wants(matches, subs[n], source, msg) ==> replies[n].Took?)
  {
  }

  /** Copies go to clients that have a subscription, and never back to the publisher. */
  lemma {:induction false} CopiesTo(matches: Matcher, subs: seq<Sub>, source: int, msg: Message, replies: seq<Reply>,
      c: nat)
    requires |replies| == |subs| && c in Copies(matches, subs, source, msg, replies)
    ensures c != source && exists i | 0 <= i < |subs| :: subs[i].fd == c
    decreases |subs|
  {
    hide Refused;
    var n := |subs| - 1;
    if c in Copies(matches, subs[..n], source, msg, replies[..n]) {
      CopiesTo(matches, subs[..n], source, msg, replies[..n], c);
      var i :| 0 <= i < n && subs[..n][i].fd == c;
      assert subs[i].fd == c;
    } else {
      assert subs[n].fd == c;
    }
  }

  /** The subscriptions of one client whose topic matches. */
  function Subscribed(matches: Matcher, subs: seq<Sub>, topic: seq<byte>, fd: nat): set<nat> {
    set i: nat | i < |subs| && subs[i].fd == fd && matches(subs[i].topic, topic)
  }

  /** A client's share is one copy per matching subscription; the publisher's is none. */
  lemma {:induction false} MatchingIs(matches: Matcher, subs: seq<Sub>, source: int, msg: Message, fd: nat)
    ensures
      Matching(matches, subs, source, msg, fd) ==
      if fd == source then 0 else |Subscribed(matches, subs, msg.topic, fd)|
    decreases |subs|
  {
    if subs != [] {
      var n := |subs| - 1;
      MatchingIs(matches, subs[..n], source, msg, fd);
      var before, now := Subscribed(matches, subs[..n], msg.topic, fd), Subscribed(matches, subs, msg.topic, fd);
      if subs[n].fd == fd && matches(subs[n].topic, msg.topic) {
        assert now == before + {n};
      } else {
        assert now == before;
      }
    }
  }

  // ---- Publishing ----

  predicate DeliversLocally(b: Settings, msg: Message) {
    msg.dst == 0 || msg.dst == b.node
  }

  /** The clients that get a copy of a message, if it is for this node at all. */
  function LocalCopies(b: Settings, matches: Matcher, subs: seq<Sub>, source: int, msg: Message, replies: seq<Reply>)
    : seq<nat>
    requires |replies| == |subs|
  {
    if DeliversLocally(b, msg) then Copies(matches, subs, source, msg, replies) else []
  }

  /** A message for another node is given to nobody here. One for this node or for all is given to every
      client but its publisher, once per matching subscription, when every copy is taken. */
  lemma CopiesByDestination(b: Settings, matches: Matcher, subs: seq<Sub>, source: int, msg: Message,
      replies: seq<Reply>, fd: nat)
    requires |replies| == |subs|
    ensures msg.dst != 0 && msg.dst != b.node ==> LocalCopies(b, matches, subs, source, msg, replies) == []
    ensures (msg.dst == 0 || msg.dst == b.node) && (forall r <- replies :: r.Took?) ==>
      Times(LocalCopies(b, matches, subs, source, msg, replies), fd) ==
      if fd == source then 0 else |Subscribed(matches, subs, msg.topic, fd)|
  {
    hide Times, Copies, Matching, Subscribed;
    CopiesCount(matches, subs, source, msg, replies, fd);
    MatchingIs(matches, subs, source, msg, fd);
  }

  predicate Forwards(b: Settings, msg: Message) {
    if msg.dst == 0 then b.bridge else msg.dst != b.node
  }

  predicate NeedsNetwork(b: Settings, msg: Message) {
    var far := msg.channel != [] || (msg.dst != 0 && msg.dst != b.node);
    if msg.flags / FLAG_NO_BRIDGE % 2 != 0 then far else Forwards(b, msg) || far
  }

  /** A publish goes out over the network if the message is for another node or names a channel; or if it is
      for all, the node bridges, and the message does not forbid it. */
  predicate GoesOut(b: Settings, msg: Message) {
    (msg.dst != 0 && msg.dst != b.node) || msg.channel != [] || (msg.dst == 0 && b.bridge && msg.flags / 4 % 2 == 0)
  }

  lemma NetworkIs(b: Settings, msg: Message)
    ensures NeedsNetwork(b, msg) <==> GoesOut(b, msg)
  {
  }

  /** What a publish returns: BC_ERR_NOMEM when somebody here was refused. Otherwise an error of the network
      only if there had to be a route and none was found, or if nobody here got a message that asks for
      delivery at least once and sending it failed. */
  lemma CodeExactly(b: Settings, msg: Message, refused: bool, delivered: nat, net: Network)
    ensures
      PublishCode(b, msg, refused, delivered, net) ==
      if refused then NoMem
      else if !GoesOut(b, msg) then Ok
      else if net.NoRoute? then (if b.requireRoute then NotFound else Ok)
      else if msg.qos >= 1 && delivered == 0 then net.rc
      else Ok
  {
    NetworkIs(b, msg);
    hide NeedsNetwork, GoesOut;
  }

  /** bc_message_bus_publish fills in the node, and a fresh number if the client gave none. */
  function Stamp(b: Settings, msg: Message, next: u32): Message {
    msg.(src := b.node, seqNo := if msg.seqNo == 0 then next else msg.seqNo)
  }

  /** What the network part of a publish meets: whether there is a route, and what sending on
      it returns. */
  datatype Network = NoRoute | Sends(rc: Code)

  /** The return code of bc_message_bus_publish; `delivered` counts the local copies of a
      delivery nobody refused. */
  function PublishCode(b: Settings, msg: Message, refused: bool, delivered: nat, net: Network): Code {
    var local := if refused then NoMem else Ok;
    if NeedsNetwork(b, msg) && net.NoRoute? then
      if b.requireRoute then (if refused then NoMem else NotFound) else local
    else if NeedsNetwork(b, msg) && net.rc != Ok && msg.qos >= 1 && (refused || delivered == 0) then
      if refused then NoMem else net.rc
    else local
  }

  /** Backpressure is never swallowed: a publish whose delivery somebody refused says so on
      every path, so its caller keeps the frame. */
  lemma RefusalPropagates(b: Settings, msg: Message, delivered: nat, net: Network)
    ensures PublishCode(b, msg, true, delivered, net) == NoMem
  {
  }

  /** The entries of other clients among the first i. */
  function Others(subs: seq<Sub>, i: nat, fd: nat): (r: seq<Sub>)
    requires i <= |subs|
    ensures |r| <= i
  {
    if i == 0 then [] else Others(subs, i - 1, fd) + (if subs[i - 1].fd == fd then [] else [subs[i - 1]])
  }

  function Without(subs: seq<Sub>, fd: nat): seq<Sub> {
    Others(subs, |subs|, fd)
  }

  /** Only entries of other clients are left. */
  lemma {:induction false} OthersOnly(subs: seq<Sub>, i: nat, fd: nat)
    requires i <= |subs|
    ensures forall s <- Others(subs, i, fd) :: s.fd != fd && s in subs
  {
    if i > 0 { OthersOnly(subs, i - 1, fd); }
  }

  /** Exactly the entries of that client are gone, and every other is there as often as before. */
  lemma {:induction false} WithoutExactly(subs: seq<Sub>, i: nat, fd: nat, s: Sub)
    requires i <= |subs|
    ensures multiset(Others(subs, i, fd))[s] == if s.fd == fd then 0 else multiset(subs[..i])[s]
  {
    if i > 0 {
      var init, last := Others(subs, i - 1, fd), subs[i - 1];
      WithoutExactly(subs, i - 1, fd, s);
      assert subs[..i] == subs[..i - 1] + [last];
      CountSnoc(subs[..i - 1], last, s);
      if last.fd == fd {
        assert Others(subs, i, fd) == init + [] == init;
      } else {
        CountSnoc(init, last, s);
      }
      hide Others;
    } else {
      assert subs[..0] == [];
    }
  }

  lemma CountSnoc(q: seq<Sub>, x: Sub, s: Sub)
    ensures multiset(q + [x])[s] == multiset(q)[s] + if x == s then 1 else 0
  {
  }

  /** And the order is that of before: what is left of two tables in a row is what is left of each. */
  lemma {:induction false} WithoutInOrder(a: seq<Sub>, b: seq<Sub>, i: nat, fd: nat)
    requires i <= |b|
    ensures Others(a + b, |a| + i, fd) == Others(a, |a|, fd) + Others(b, i, fd)
  {
    if i > 0 {
      WithoutInOrder(a, b, i - 1, fd);
      assert (a + b)[|a| + i - 1] == b[i - 1];
    } else {
      OthersPrefix(a, b, |a|, fd);
    }
  }

  lemma {:induction false} OthersPrefix(a: seq<Sub>, b: seq<Sub>, i: nat, fd: nat)
    requires i <= |a|
    ensures Others(a + b, i, fd) == Others(a, i, fd)
  {
    if i > 0 { OthersPrefix(a, b, i - 1, fd); }
  }

  class Bus {
    const settings: Settings
    const subscriptions: array<Sub>
    var count: nat
    var nextSeq: u32

    ghost predicate Valid()
      reads this
    {
      subscriptions.Length == MAX_SUBSCRIPTIONS && count <= MAX_SUBSCRIPTIONS
    }

    ghost function Subs(): seq<Sub>
      requires Valid()
      reads this, subscriptions
    {
      subscriptions[..count]
    }

    constructor (settings: Settings)
      ensures Valid() && Subs() == [] && nextSeq == 0 && this.settings == settings && fresh(subscriptions)
    {
      this.settings := settings;
      subscriptions := new Sub[MAX_SUBSCRIPTIONS](_ => Sub(0, []));
      count, nextSeq := 0, 0;
    }

    method Subscribe(fd: nat, topic: seq<byte>) returns (rc: Code)
      requires Valid()
      modifies this`count, subscriptions
      ensures Valid()
      ensures rc == if topic == [] then Invalid else if old(count) >= 128 then NoMem else Ok
      ensures Subs() == if rc == Ok && Sub(fd, topic) !in old(Subs()) then old(Subs()) + [Sub(fd, topic)]
        else old(Subs())
    {
      if topic == [] { return Invalid; }
      if count >= MAX_SUBSCRIPTIONS { return NoMem; }
      var i := 0;
      while i < count
        invariant i <= count && forall k | 0 <= k < i :: subscriptions[k] != Sub(fd, topic)
      {
        if subscriptions[i].fd == fd && subscriptions[i].topic == topic {
          assert Subs()[i] == Sub(fd, topic);
          return Ok;
        }
        i := i + 1;
      }
      subscriptions[count] := Sub(fd, topic);
      count := count + 1;
      rc := Ok;
    }

    /** bc_message_bus_remove_client: closes the gaps in place, keeping the order. */
    method RemoveClient(fd: nat)
      requires Valid()
      modifies this`count, subscriptions
      ensures Valid() && Subs() == Without(old(Subs()), fd)
    {
      ghost var was := Subs();
      var out, i := 0, 0;
      while i < count
        invariant i <= count == |was| && |Others(was, i, fd)| == out <= i
        invariant forall k | 0 <= k < out :: subscriptions[k] == Others(was, i, fd)[k]
        invariant forall k | i <= k < count :: subscriptions[k] == was[k]
        modifies subscriptions
      {
        if subscriptions[i].fd != fd {
          if out != i { subscriptions[out] := subscriptions[i]; }
          out := out + 1;
        }
        i := i + 1;
      }
      count := out;
    }

    /** bc_message_bus_deliver_local: the number of copies, or BC_ERR_NOMEM. When nobody was
        refused the count is that of the copies made. */
    method DeliverLocal(matches: Matcher, source: int, msg: Message, replies: seq<Reply>)
      returns (refused: bool, delivered: nat, ghost copies: seq<nat>)
      requires Valid() && |replies| == count
      ensures refused == Refused(matches, Subs(), source, msg, replies)
      ensures copies == Copies(matches, Subs(), source, msg, replies) && delivered <= |copies|
        && (!refused ==> delivered == |copies|)
    {
      var matched, failed := 0, 0;
      delivered := 0;
      copies := [];
      var i := 0;
      while i < count
        invariant i <= count && matched == delivered + failed && delivered <= |copies|
          && (failed == 0 ==> delivered == |copies|)
        invariant copies == Copies(matches, Subs()[..i], source, msg, replies[..i])
        invariant failed > 0 <==> Refused(matches, Subs()[..i], source, msg, replies[..i])
      {
        var sub := subscriptions[i];
        RefusedStep(matches, Subs(), source, msg, replies, i);
        if sub.fd != source && matches(sub.topic, msg.topic) {
          matched := matched + 1;
          if replies[i].Took? { delivered := delivered + 1; } else { failed := failed + 1; }
          copies := copies + (if replies[i].Full? then [] else [sub.fd]);
        } else {
          assert copies + [] == copies;
        }
        i := i + 1;
      }
      assert Subs()[..i] == Subs() && replies[..i] == replies;
      refused := failed > 0 || (matched > 0 && delivered == 0);
    }

    /** bc_message_bus_publish: the code, the message as sent, and who got copies. */
    method Publish(matches: Matcher, source: int, msg: Message, replies: seq<Reply>, net: Network)
      returns (rc: Code, sent: Message, ghost copies: seq<nat>)
      requires Valid() && |replies| == count
      modifies this`nextSeq
      ensures Valid()
      ensures nextSeq == if msg.seqNo == 0 then Add(old(nextSeq), 1) else old(nextSeq)
      ensures sent == Stamp(settings, msg, nextSeq)
      ensures
        var local := DeliversLocally(settings, msg);
        && copies == LocalCopies(settings, matches, Subs(), source, sent, replies)
        && rc == PublishCode(settings, sent, local && Refused(matches, Subs(), source, sent, replies), |copies|, net)
    {
      sent := msg.(src := settings.node);
      if sent.seqNo == 0 {
        nextSeq := Add(nextSeq, 1);
        sent := sent.(seqNo := nextSeq);
      }
      var need := Forwards(settings, sent) || sent.channel != [] || (sent.dst != 0 && sent.dst != settings.node);
      if sent.flags / FLAG_NO_BRIDGE % 2 != 0 {
        need := sent.channel != [] || (sent.dst != 0 && sent.dst != settings.node);
      }
      var refused, delivered := false, 0;
      copies := [];
      if DeliversLocally(settings, sent) {
        refused, delivered, copies := DeliverLocal(matches, source, sent, replies);
        if refused { delivered := 0; }
      }
      if need && net.NoRoute? {
        if settings.requireRoute { return if refused then NoMem else NotFound, sent, copies; }
        return if refused then NoMem else Ok, sent, copies;
      }
      if need && net.rc != Ok && sent.qos >= 1 && delivered == 0 {
        return if refused then NoMem else net.rc, sent, copies;
      }
      rc := if refused then NoMem else Ok;
    }
  }

  lemma RefusedStep(matches: Matcher, subs: seq<Sub>, source: int, msg: Message, replies: seq<Reply>, i: nat)
    requires |replies| == |subs| && i < |subs|
    ensures
      Refused(matches, subs[..i + 1], source, msg, replies[..i + 1]) <==>
      Refused(matches, subs[..i], source, msg, replies[..i])
        || (Wants(matches, subs[i], source, msg) && !replies[i].Took?)
    ensures
      Copies(matches, subs[..i + 1], source, msg, replies[..i + 1]) ==
      Copies(matches, subs[..i], source, msg, replies[..i])
      + (if Wants(matches, subs[i], source, msg) && !replies[i].Full? then [subs[i].fd] else [])
  {
    var s, a := subs[..i + 1], replies[..i + 1];
    assert s[..i] == subs[..i] && a[..i] == replies[..i];
    if Refused(matches, subs[..i], source, msg, replies[..i]) {
      var k :| 0 <= k < i && Wants(matches, subs[..i][k], source, msg) && !replies[..i][k].Took?;
      assert Wants(matches, s[k], source, msg) && !a[k].Took?;
    }
    if Refused(matches, s, source, msg, a) {
      var k :| 0 <= k < i + 1 && Wants(matches, s[k], source, msg) && !a[k].Took?;
      if k < i { assert Wants(matches, subs[..i][k], source, msg) && !replies[..i][k].Took?; }
    }
    if Wants(matches, subs[i], source, msg) && !replies[i].Took? {
      assert Wants(matches, s[i], source, msg) && !a[i].Took?;
    }
  }
}
