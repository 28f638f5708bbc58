/** Where a message gets: along its routes, node by node, as long as nothing is lost or refused. */
module ForwardingReach {
  import opened Protocol
  import opened MessageBus
  import opened Status
  import opened Forwarding
  import opened ForwardingRuns

  /** The node sends the message on: it is for another node, or for all and the node bridges. */
  predicate PassesOn(b: Settings, msg: Message) {
    if msg.dst == 0 then b.bridge else msg.dst != b.node
  }

  /** The routers lead the message along these hops, and every node on the way sends it on. */
  predicate Leads(w: World, msg: Message, path: seq<Port>) {
    && Walk(w.net, path) && path != [] && msg.flags / 2 % 2 == 0
    && (forall p <- path :: w.routes(p.node, msg.channel, msg.topic) == Some(p.transport))
    && GoesOut(w.settings(path[0].node), msg)
    && forall i | 0 < i < |path| :: PassesOn(w.settings(path[i].node), msg)
  }

  /** Nothing is lost, refused, or fails to be sent. */
  predicate Smooth(actions: seq<Action>) {
    forall a <- actions :: a.Arrives? && !a.refused && a.sendRc == Ok
  }

  /** The message is on its way along the path, or has made all of it. */
  predicate Underway(w: World, s: Spread, path: seq<Port>)
    requires Walk(w.net, path)
  {
    var n := |s.buses|;
    if n < |path| then s.hops == path[..n + 1] && InFlight(w.net.links[path[n]], s.msg) in s.flying else path <= s.hops
  }

  lemma PublishedOut(w: World, msg: Message, path: seq<Port>)
    requires Leads(w, msg, path)
    ensures
      var s := Publish(w, path[0].node, msg, Ok);
      Underway(w, s, path) && s.msg == msg
  {
    assert path[0] in path && path[..1] == [path[0]];
  }

  lemma ArrivalUnderway(w: World, s: Spread, path: seq<Port>, x: InFlight)
    requires Wellformed(w.net) && Leads(w, s.msg, path) && Inv(w, s) && Underway(w, s, path) && x in s.flying
    ensures Underway(w, Arrive(w, s, x, false, Ok), path) && Arrive(w, s, x, false, Ok).msg == s.msg
  {
    var n := |s.buses|;
    if HasFlag(x.msg, FLAG_ACK) {
      hide Inv, Arrive, Leads;
      AcksStop(w, s, x, false, Ok);
      NoAck(w, s.msg, path);
    } else {
      HandledOk(w, s, x);
      hide Inv, HasFlag;
      if n + 1 < |path| { NextHop(w, s, path, x); } else { LastHop(w, s, path, x); }
    }
  }

  lemma LeadsWalk(w: World, msg: Message, path: seq<Port>)
    requires Leads(w, msg, path)
    ensures Walk(w.net, path) && path != []
  {
  }

  lemma NoAck(w: World, msg: Message, path: seq<Port>)
    requires Leads(w, msg, path)
    ensures !HasFlag(msg, FLAG_ACK)
  {
  }

  /** The next node sends it on over the next link. */
  lemma NextHop(w: World, s: Spread, path: seq<Port>, x: InFlight)
    requires Leads(w, s.msg, path) && |s.buses| + 1 < |path| && s.hops == path[..|s.buses| + 1]
    requires x == InFlight(w.net.links[path[|s.buses|]], s.msg) && !HasFlag(x.msg, FLAG_ACK)
    ensures Underway(w, Arrive(w, s, x, false, Ok), path) && Arrive(w, s, x, false, Ok).msg == s.msg
  {
    hide HasFlag;
    var n := |s.buses|;
    var p, b := path[n + 1], w.settings(x.at.node);
    assert p in path && p == Port(x.at.node, p.transport) && p.transport != x.at.transport;
    InboundExactly(b, x.msg, Some(x.at.transport), Some(p.transport), false, Ok);
    hide Inbound;
    assert path[..n + 2] == path[..n + 1] + [p];
  }

  lemma LastHop(w: World, s: Spread, path: seq<Port>, x: InFlight)
    requires Walk(w.net, path) && |path| <= |s.buses| + 1 && path <= s.hops && !HasFlag(x.msg, FLAG_ACK)
    ensures Underway(w, Arrive(w, s, x, false, Ok), path) && Arrive(w, s, x, false, Ok).msg == s.msg
  {
    hide Inbound, HasFlag;
  }

  lemma {:induction false} StaysUnderway(w: World, msg: Message, path: seq<Port>, actions: seq<Action>)
    requires Wellformed(w.net) && Leads(w, msg, path) && Smooth(actions)
    ensures
      var s := Run(w, path[0].node, msg, Ok, actions);
      Inv(w, s) && Underway(w, s, path) && s.msg == msg
    decreases |actions|
  {
    hide Inv, Leads, Underway, Arrive, Publish, Walk;
    LeadsWalk(w, msg, path);
    RunOk(w, path[0].node, msg, Ok, actions);
    if actions == [] {
      PublishedOut(w, msg, path);
    } else {
      var init, a := actions[..|actions| - 1], actions[|actions| - 1];
      assert a in actions && forall x <- init :: x in actions;
      StaysUnderway(w, msg, path, init);
      var s := Run(w, path[0].node, msg, Ok, init);
      if a.x in s.flying { ArrivalUnderway(w, s, path, a.x); }
    }
  }

  /** In every run without losses, refusals and errors, in whatever order messages and acknowledgements
      arrive: the buses reached so far are the next nodes of the path, in order; and until the last of them
      is reached the message is on its way to the next. */
  lemma Reaches(w: World, msg: Message, path: seq<Port>, actions: seq<Action>)
    requires Wellformed(w.net) && Leads(w, msg, path) && Smooth(actions)
    ensures
      var s := Run(w, path[0].node, msg, Ok, actions);
      && (forall i | 0 <= i < |s.buses| && i < |path| :: s.buses[i] == w.net.links[path[i]].node)
      && (|s.buses| < |path| ==> InFlight(w.net.links[path[|s.buses|]], msg) in s.flying)
  {
    hide Leads;
    StaysUnderway(w, msg, path, actions);
  }

  /** A message that asks for it is acknowledged, over the link it came by, by every node it is delivered at:
      nobody refuses it there, and sending it on does not fail where it has to succeed. */
  lemma Acknowledged(w: World, s: Spread, x: InFlight, sendRc: Code)
    requires x.msg.flags / 2 % 2 == 0 && x.msg.qos == 1 && x.at in w.net.links
    requires
      var b, route := w.settings(x.at.node), w.routes(x.at.node, x.msg.channel, x.msg.topic);
      && (x.msg.dst == 0 || x.msg.dst == b.node)
      && (b.requireRoute && b.bridge ==> route.Some? && (sendRc == Ok || route == Some(x.at.transport)))
    ensures
      var s', m := Arrive(w, s, x, false, sendRc), x.msg;
      && s'.acks == s.acks + 1
      && InFlight(w.net.links[x.at],
           Message(w.settings(x.at.node).node, m.src, 2, 0, m.seqNo, m.channel, m.topic, [])) in s'.flying
  {
    var b, route := w.settings(x.at.node), w.routes(x.at.node, x.msg.channel, x.msg.topic);
    InboundExactly(b, x.msg, Some(x.at.transport), route, false, sendRc);
    AckExactly(b, x.msg);
    hide Inbound;
  }

  // ---- All the way ----

  function Arrivals(w: World, msg: Message, path: seq<Port>): seq<Action>
    requires Walk(w.net, path)
  {
    seq(|path|, i requires 0 <= i < |path| => Arrives(InFlight(w.net.links[path[i]], msg), false, Ok))
  }

  lemma {:induction false} BusesAfter(w: World, msg: Message, path: seq<Port>, n: nat)
    requires Wellformed(w.net) && Leads(w, msg, path) && n <= |path|
    ensures |Run(w, path[0].node, msg, Ok, Arrivals(w, msg, path)[..n]).buses| == n
  {
    hide Leads, Inv, Walk, Arrive, Publish;
    LeadsWalk(w, msg, path);
    var all := Arrivals(w, msg, path);
    if n == 0 {
      PublishedAlone(w, path[0].node, msg);
    } else {
      BusesAfter(w, msg, path, n - 1);
      assert all[..n][..n - 1] == all[..n - 1];
      StaysUnderway(w, msg, path, all[..n - 1]);
      NoAck(w, msg, path);
      OneMoreBus(w, Run(w, path[0].node, msg, Ok, all[..n - 1]), all[n - 1].x);
    }
  }

  lemma OneMoreBus(w: World, s: Spread, x: InFlight)
    requires !HasFlag(x.msg, FLAG_ACK)
    ensures |Arrive(w, s, x, false, Ok).buses| == |s.buses| + 1
  {
    hide Inbound, HasFlag;
  }

  lemma PublishedAlone(w: World, origin: nat, msg: Message)
    ensures Run(w, origin, msg, Ok, []).buses == []
  {
  }

  /** So there is such a run that reaches every node of the path. */
  lemma ReachesAll(w: World, msg: Message, path: seq<Port>)
    requires Wellformed(w.net) && Leads(w, msg, path)
    ensures
      var s := Run(w, path[0].node, msg, Ok, Arrivals(w, msg, path));
      |s.buses| == |path| && forall p <- path :: w.net.links[p].node in s.buses
  {
    hide Leads;
    LeadsWalk(w, msg, path);
    var all := Arrivals(w, msg, path);
    BusesAfter(w, msg, path, |path|);
    assert all[..|path|] == all;
    Reaches(w, msg, path, all);
    var s := Run(w, path[0].node, msg, Ok, all);
    forall p | p in path ensures w.net.links[p].node in s.buses {
      var i :| 0 <= i < |path| && path[i] == p;
      assert s.buses[i] == w.net.links[p].node;
    }
  }
}
