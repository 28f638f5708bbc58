/** One published message, and the acknowledgements it causes, in a network of buses: every way
    it can spread, with transports that fail or lose what they carry. */
module ForwardingRuns {
  import opened Word32
  import opened Protocol
  import opened MessageBus
  import opened Status
  import opened Forwarding

  /** A network, the settings of its nodes, and their routers: a transport, or none, per node,
      channel and topic. */
  datatype World = World(net: Net, settings: nat -> Settings, routes: (nat, seq<byte>, seq<byte>) -> Option<nat>)

  /** A message on its way into a node over one of its transports. */
  datatype InFlight = InFlight(at: Port, msg: Message)

  /** What is on its way; the ports the message has left through, in order; the nodes whose bus
      has handled it, in order; and how many acknowledgements were sent. */
  datatype Spread = Spread(msg: Message, flying: multiset<InFlight>, hops: seq<Port>, buses: seq<nat>, acks: nat)

  datatype Action = Arrives(x: InFlight, refused: bool, sendRc: Code) | Lost(x: InFlight)

  function RouteAt(w: World, node: nat, msg: Message): Option<nat> {
    w.routes(node, msg.channel, msg.topic)
  }

  /** Sends a message out of a port; without a link behind it, nothing arrives anywhere. */
  function SendOut(w: World, s: Spread, p: Port, msg: Message): Spread {
    if p !in w.net.links then s
    else s.(flying := s.flying + multiset{InFlight(w.net.links[p], msg)}, hops := s.hops + [p])
  }

  /** The network part of publishing a message at a node. */
  function Publish(w: World, origin: nat, msg: Message, sendRc: Code): Spread {
    var s := Spread(msg, multiset{}, [], [], 0);
    var route := RouteAt(w, origin, msg);
    if NeedsNetwork(w.settings(origin), msg) && route.Some? && sendRc == Ok
    then SendOut(w, s, Port(origin, route.value), msg)
    else s
  }

  /** What a node does with what arrives. */
  function Arrive(w: World, s: Spread, x: InFlight, refused: bool, sendRc: Code): Spread {
    var b := w.settings(x.at.node);
    var out := Inbound(b, x.msg, Some(x.at.transport), RouteAt(w, x.at.node, x.msg), refused, sendRc).1;
    var s1 := s.(flying := s.flying - multiset{x},
      buses := if HasFlag(x.msg, FLAG_ACK) then s.buses else s.buses + [x.at.node]);
    var s2 := if out.forward.Some? then SendOut(w, s1, Port(x.at.node, out.forward.value), x.msg) else s1;
    if out.ack && x.at in w.net.links then
      s2.(flying := s2.flying + multiset{InFlight(w.net.links[x.at], AckFor(b, x.msg))}, acks := s2.acks + 1)
    else s2
  }

  function Next(w: World, s: Spread, a: Action): Spread {
    if a.x !in s.flying then s
    else
      match a
      case Arrives(x, refused, sendRc) => Arrive(w, s, x, refused, sendRc)
      case Lost(x) => s.(flying := s.flying - multiset{x})
  }

  // ---- What every reachable state satisfies ----

  function Head(w: World, s: Spread): InFlight
    requires Walk(w.net, s.hops) && s.hops != []
  {
    InFlight(w.net.links[s.hops[|s.hops| - 1]], s.msg)
  }

  /** The message has made one walk that never turned back; at most one copy of it is on its way,
      at the end of that walk; the buses it has reached are the nodes of the walk, and everything
      else on its way is an acknowledgement. */
  ghost predicate Inv(w: World, s: Spread) {
    && Walk(w.net, s.hops) && |s.buses| <= |s.hops| && s.acks <= |s.buses|
    && (forall i | 0 <= i < |s.buses| :: s.buses[i] == w.net.links[s.hops[i]].node)
    && (s.hops == [] ==> s.flying == multiset{})
    && (s.hops != [] ==>
          && s.flying[Head(w, s)] + |s.buses| <= |s.hops| <= |s.buses| + 1
          && forall x <- s.flying :: x == Head(w, s) || HasFlag(x.msg, FLAG_ACK))
  }

  lemma PublishOk(w: World, origin: nat, msg: Message, sendRc: Code)
    requires Wellformed(w.net)
    ensures Inv(w, Publish(w, origin, msg, sendRc))
    ensures Publish(w, origin, msg, sendRc).hops != [] ==> Publish(w, origin, msg, sendRc).hops[0].node == origin
  {
  }

  /** An acknowledgement goes one hop: whoever gets it neither forwards nor answers it. */
  lemma AcksStop(w: World, s: Spread, x: InFlight, refused: bool, sendRc: Code)
    requires HasFlag(x.msg, FLAG_ACK)
    ensures Arrive(w, s, x, refused, sendRc) == s.(flying := s.flying - multiset{x})
  {
  }

  /** A forwarded message leaves by a transport other than the one it came in by. */
  lemma NeverBack(b: Settings, msg: Message, from: nat, route: Option<nat>, refused: bool, sendRc: Code)
    ensures Inbound(b, msg, Some(from), route, refused, sendRc).1.forward != Some(from)
  {
  }

  /** A state in which every hop's bus has handled the message and none of it is on its way. */
  ghost predicate Quiet(w: World, s: Spread) {
    && Inv(w, s) && s.hops != [] && |s.buses| == |s.hops| && s.acks < |s.buses| && !HasFlag(s.msg, FLAG_ACK)
    && forall x <- s.flying :: HasFlag(x.msg, FLAG_ACK)
  }

  lemma HandledOk(w: World, s: Spread, x: InFlight)
    requires Inv(w, s) && x in s.flying && !HasFlag(x.msg, FLAG_ACK)
    ensures s.hops != [] && x == Head(w, s)
    ensures Quiet(w, s.(flying := s.flying - multiset{x}, buses := s.buses + [x.at.node]))
  {
    hide HasFlag;
    var s1 := s.(flying := s.flying - multiset{x}, buses := s.buses + [x.at.node]);
    assert |s.buses| == |s.hops| - 1;
    assert s1.flying[x] == 0;
    forall y | y in s1.flying ensures HasFlag(y.msg, FLAG_ACK) {
      assert y in s.flying;
    }
  }

  lemma ForwardOk(w: World, s: Spread, p: Port)
    requires Wellformed(w.net) && Quiet(w, s) && p.node == Head(w, s).at.node && p != Head(w, s).at
    ensures Inv(w, SendOut(w, s, p, s.msg)) && SendOut(w, s, p, s.msg).acks < |s.buses|
  {
    hide HasFlag;
    if p in w.net.links {
      var s' := SendOut(w, s, p, s.msg);
      assert Head(w, s') == InFlight(w.net.links[p], s.msg) && Head(w, s') !in s.flying;
    }
  }

  lemma AckOk(w: World, s: Spread, y: InFlight)
    requires Inv(w, s) && s.hops != [] && s.acks < |s.buses| && HasFlag(y.msg, FLAG_ACK) && !HasFlag(s.msg, FLAG_ACK)
    ensures Inv(w, s.(flying := s.flying + multiset{y}, acks := s.acks + 1))
  {
    hide HasFlag;
    assert y != Head(w, s);
  }

  lemma ArriveOk(w: World, s: Spread, x: InFlight, refused: bool, sendRc: Code)
    requires Wellformed(w.net) && Inv(w, s) && x in s.flying
    ensures Inv(w, Arrive(w, s, x, refused, sendRc))
  {
    hide Arrive, Inv, HasFlag;
    if HasFlag(x.msg, FLAG_ACK) {
      AcksStop(w, s, x, refused, sendRc);
      AckGone(w, s, x);
    } else {
      MessageOk(w, s, x, refused, sendRc);
    }
  }

  lemma MessageOk(w: World, s: Spread, x: InFlight, refused: bool, sendRc: Code)
    requires Wellformed(w.net) && Inv(w, s) && x in s.flying && !HasFlag(x.msg, FLAG_ACK)
    ensures Inv(w, Arrive(w, s, x, refused, sendRc))
  {
    hide Inbound, HasFlag, Inv, SendOut, AckFor, RouteAt;
    var b := w.settings(x.at.node);
    var route := RouteAt(w, x.at.node, x.msg);
    NeverBack(b, x.msg, x.at.transport, route, refused, sendRc);
    var out := Inbound(b, x.msg, Some(x.at.transport), route, refused, sendRc).1;
    AckFlag(b, x.msg);
    HandledOk(w, s, x);
    var s1 := s.(flying := s.flying - multiset{x}, buses := s.buses + [x.at.node]);
    Unfold(w, s1);
    var s2 := s1;
    if out.forward.Some? {
      ForwardOk(w, s1, Port(x.at.node, out.forward.value));
      s2 := SendOut(w, s1, Port(x.at.node, out.forward.value), x.msg);
      SentFrom(w, s1, Port(x.at.node, out.forward.value), x.msg);
    }
    if out.ack && x.at in w.net.links {
      AckOk(w, s2, InFlight(w.net.links[x.at], AckFor(b, x.msg)));
    }
  }

  lemma Unfold(w: World, s: Spread)
    requires Inv(w, s)
    ensures Walk(w.net, s.hops)
  {
  }

  lemma SentFrom(w: World, s: Spread, p: Port, msg: Message)
    requires s.hops != []
    ensures
      var s' := SendOut(w, s, p, msg);
      s'.hops != [] && s'.buses == s.buses && s'.acks == s.acks && s'.msg == s.msg
  {
  }

  lemma AckGone(w: World, s: Spread, x: InFlight)
    requires Inv(w, s) && x in s.flying
    ensures Inv(w, s.(flying := s.flying - multiset{x}))
  {
    hide HasFlag;
  }

  lemma AckFlag(b: Settings, msg: Message)
    ensures HasFlag(AckFor(b, msg), FLAG_ACK)
  {
  }

  lemma KeepsStart(w: World, s: Spread, x: InFlight, refused: bool, sendRc: Code)
    requires Inv(w, s) && x in s.flying
    ensures s.hops != [] && Arrive(w, s, x, refused, sendRc).hops != []
      && Arrive(w, s, x, refused, sendRc).hops[0] == s.hops[0]
  {
    hide Inbound, HasFlag;
  }

  // ---- Runs ----

  function Run(w: World, origin: nat, msg: Message, sendRc: Code, actions: seq<Action>): Spread
    decreases |actions|
  {
    if actions == [] then Publish(w, origin, msg, sendRc)
    else Next(w, Run(w, origin, msg, sendRc, actions[..|actions| - 1]), actions[|actions| - 1])
  }

  lemma {:induction false} RunOk(w: World, origin: nat, msg: Message, sendRc: Code, actions: seq<Action>)
    requires Wellformed(w.net)
    ensures Inv(w, Run(w, origin, msg, sendRc, actions))
    ensures Run(w, origin, msg, sendRc, actions).hops != []
      ==> Run(w, origin, msg, sendRc, actions).hops[0].node == origin
    decreases |actions|
  {
    if actions == [] {
      PublishOk(w, origin, msg, sendRc);
    } else {
      var init, a := actions[..|actions| - 1], actions[|actions| - 1];
      RunOk(w, origin, msg, sendRc, init);
      var s := Run(w, origin, msg, sendRc, init);
      hide Inbound, Inv, Arrive;
      if a.x in s.flying {
        if a.Arrives? {
          ArriveOk(w, s, a.x, a.refused, a.sendRc);
          KeepsStart(w, s, a.x, a.refused, a.sendRc);
        } else {
          AckGone(w, s, a.x);
        }
      }
    }
  }

  /** In a network without cycles one published message crosses each link at most once and in
      one direction, reaches no bus twice and its own not at all, and makes fewer hops than there
      are nodes; and there are no more acknowledgements than buses it reached. */
  lemma SpreadsOnce(w: World, depth: seq<nat>, origin: nat, msg: Message, sendRc: Code, actions: seq<Action>)
    requires Forest(w.net, depth)
    ensures
      var s := Run(w, origin, msg, sendRc, actions);
      && Distinct(s.buses) && origin !in s.buses && s.acks <= |s.buses|
      && (s.hops != [] ==> |s.hops| < w.net.size)
      && (forall i, j | 0 <= i < j < |s.hops| ::
        s.hops[i] != s.hops[j] && s.hops[j] in w.net.links && s.hops[i] != w.net.links[s.hops[j]])
  {
    hide Forest, Run;
    ForestIsWellformed(w.net, depth);
    RunOk(w, origin, msg, sendRc, actions);
    var s := Run(w, origin, msg, sendRc, actions);
    WalkIsSimple(w.net, depth, s.hops);
    if s.hops != [] {
      WalkIsShort(w.net, depth, s.hops);
      NodeAt(w.net, s.hops, 0);
    }
    var v := Visited(w.net, s.hops);
    forall i | 0 <= i < |s.buses| ensures s.buses[i] == v[i + 1] {
      NodeAt(w.net, s.hops, i);
    }
  }

  lemma ForestIsWellformed(net: Net, depth: seq<nat>)
    requires Forest(net, depth)
    ensures Wellformed(net)
  {
  }
}
