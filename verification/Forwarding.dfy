/** Hop-by-hop forwarding: what a node's bus (message_bus.c) does with a message from a
    transport, and where one published message can travel in a network without cycles. */
module Forwarding {
  import opened Word32
  import opened Protocol
  import opened MessageBus
  import opened Status
  import Fragment

  // ---- One node ----

  /** What a node does with an inbound message: hands it to its local subscribers, sends it on
      over one transport, acknowledges it over the one it came from. */
  datatype Outcome = Outcome(local: bool, forward: Option<nat>, ack: bool)

  const NOTHING: Outcome := Outcome(false, None, false)

  predicate HasFlag(msg: Message, flag: u16)
    requires flag > 0
  {
    msg.flags / flag % 2 == 1
  }

  /** forward_message: at most one transport, and never the one the message came from. */
  function Forward(b: Settings, from: Option<nat>, route: Option<nat>, sendRc: Code): (Code, Option<nat>) {
    if route.None? then (if b.requireRoute then NotFound else Ok, None)
    else if route == from then (Ok, None)
    else (sendRc, if sendRc == Ok then route else None)
  }

  /** bc_message_bus_handle_inbound on a whole message. */
  function Inbound(b: Settings, msg: Message, from: Option<nat>, route: Option<nat>, refused: bool,
      sendRc: Code): (Code, Outcome) {
    if HasFlag(msg, FLAG_ACK) then (Ok, NOTHING)
    else if !DeliversLocally(b, msg) then
      var (rc, to) := Forward(b, from, route, sendRc);
      (rc, Outcome(false, to, false))
    else if refused then (NoMem, Outcome(true, None, false))
    else
      var (rc, to) := if Forwards(b, msg) then Forward(b, from, route, sendRc) else (Ok, None);
      if rc != Ok && b.requireRoute then (rc, Outcome(true, to, false))
      else (Ok, Outcome(true, to, msg.qos == 1 && from.Some?))
  }

  /** What becomes of a whole message from a transport, told by its fields: local delivery is tried when it
      is for this node or for all, unless it is an acknowledgement. It leaves by its route when there is
      one other than the way it came and sending works, if it is for another node, or for all on a
      node that bridges, where nobody refused it. It is acknowledged when it asks for that, was
      delivered here, and no required forwarding failed. */
  lemma InboundExactly(b: Settings, msg: Message, from: Option<nat>, route: Option<nat>, refused: bool, sendRc: Code)
    ensures
      var (rc, out) := Inbound(b, msg, from, route, refused, sendRc);
      var acks := msg.flags / 2 % 2 == 1;
      var here, elsewhere := msg.dst == 0 || msg.dst == b.node, msg.dst != 0 && msg.dst != b.node;
      var onward := elsewhere || (msg.dst == 0 && b.bridge && !refused);
      var wayOut := route.Some? && route != from;
      var stuck := msg.dst == 0 && b.bridge && b.requireRoute && (route.None? || (wayOut && sendRc != Ok));
      && (out.local <==> !acks && here)
      && out.forward == (if !acks && onward && wayOut && sendRc == Ok then route else None)
      && (out.ack <==> !acks && here && !refused && !stuck && msg.qos == 1 && from.Some?)
      && rc ==
         if acks then Ok
         else if here && refused then NoMem
         else if here && !stuck then Ok
         else if route.None? then (if b.requireRoute then NotFound else Ok)
         else if wayOut then sendRc else Ok
  {
  }

  /** The clients that get a copy of a whole message from a transport; fd -1 stands for the network. */
  function InboundCopies(b: Settings, matches: Matcher, subs: seq<Sub>, msg: Message, replies: seq<Reply>): seq<nat>
    requires |replies| == |subs|
  {
    if HasFlag(msg, FLAG_ACK) then [] else LocalCopies(b, matches, subs, -1, msg, replies)
  }

  /** Unless it is an acknowledgement, a message for this node or for all is given to every client once per
      matching subscription when every copy is taken; any other message is given to nobody here. */
  lemma InboundByDestination(b: Settings, matches: Matcher, subs: seq<Sub>, msg: Message, replies: seq<Reply>, fd: nat)
    requires |replies| == |subs|
    ensures
      var copies := InboundCopies(b, matches, subs, msg, replies);
      && (msg.flags / 2 % 2 == 1 || (msg.dst != 0 && msg.dst != b.node) ==> copies == [])
      && (msg.flags / 2 % 2 == 0 && (msg.dst == 0 || msg.dst == b.node) && (forall r <- replies :: r.Took?) ==>
        Times(copies, fd) == |Subscribed(matches, subs, msg.topic, fd)|)
  {
    hide LocalCopies, Times, Subscribed;
    CopiesByDestination(b, matches, subs, -1, msg, replies, fd);
  }

  /** The acknowledgement send_ack makes. */
  function AckFor(b: Settings, msg: Message): Message {
    Message(b.node, msg.src, FLAG_ACK, 0, msg.seqNo, msg.channel, msg.topic, [])
  }

  /** It goes back to where the message was published, from this node, with the number and the names of the message
      and no payload, and asks for nothing. */
  lemma AckExactly(b: Settings, msg: Message)
    ensures
      var a := AckFor(b, msg);
      && a.dst == msg.src && a.src == b.node && a.seqNo == msg.seqNo && a.flags == 2 && a.qos == 0
      && a.channel == msg.channel && a.topic == msg.topic && a.payload == []
  {
  }

  class Node {
    const bus: Bus
    const reasm: Fragment.Reassembler

    ghost predicate Valid()
      reads this, bus, reasm.slots
    {
      bus.Valid() && reasm.Valid() && reasm.slots as object != bus.subscriptions as object
    }

    constructor (bus: Bus, reasm: Fragment.Reassembler)
      requires bus.Valid() && reasm.Valid() && reasm.slots as object != bus.subscriptions as object
      ensures Valid() && this.bus == bus && this.reasm == reasm
    {
      this.bus := bus;
      this.reasm := reasm;
    }

    /** A message from a transport. Fragments wait in the reassembly table; what completes there,
        and everything else, is treated as one whole message. */
    method HandleInbound(matches: Matcher, msg: Message, from: Option<nat>, route: Option<nat>, replies: seq<Reply>,
        sendRc: Code)
      returns (rc: Code, out: Outcome, ghost copies: seq<nat>)
      requires Valid() && |replies| == bus.count
      modifies reasm.slots
      ensures Valid()
      ensures
        var fed := Fragment.Fed(reasm.chunk, old(reasm.slots[..]), msg);
        var whole := if HasFlag(msg, FLAG_ACK) || !HasFlag(msg, Fragment.FLAG_FRAGMENT) then Some(msg) else fed.2;
        && reasm.slots[..] ==
           (if HasFlag(msg, FLAG_ACK) || !HasFlag(msg, Fragment.FLAG_FRAGMENT) then old(reasm.slots[..]) else fed.0)
        && (whole.None? ==> out == NOTHING && copies == [] && rc == if fed.1 == NotFound then Ok else fed.1)
        && (whole.Some? ==>
              && (rc, out) == Inbound(bus.settings, whole.value, from, route,
                Refused(matches, bus.Subs(), -1, whole.value, replies), sendRc)
              && copies == InboundCopies(bus.settings, matches, bus.Subs(), whole.value, replies))
    {
      hide Fragment.Fed, Refused;
      out := NOTHING;
      if HasFlag(msg, FLAG_ACK) { return Ok, NOTHING, []; }
      var whole := msg;
      if HasFlag(msg, Fragment.FLAG_FRAGMENT) {
        FedCodes(reasm.chunk, reasm.slots[..], msg);
        var frc, complete := reasm.Feed(msg);
        if frc == NotFound { return Ok, NOTHING, []; }
        if frc != Ok { return frc, NOTHING, []; }
        whole := complete.value;
      }
      rc, out, copies := HandleWhole(matches, whole, from, route, replies, sendRc);
    }

    /** The same function from where the message is whole. */
    method HandleWhole(matches: Matcher, msg: Message, from: Option<nat>, route: Option<nat>, replies: seq<Reply>,
        sendRc: Code)
      returns (rc: Code, out: Outcome, ghost copies: seq<nat>)
      requires bus.Valid() && |replies| == bus.count && !HasFlag(msg, FLAG_ACK)
      ensures (rc, out) == Inbound(bus.settings, msg, from, route, Refused(matches, bus.Subs(), -1, msg, replies),
        sendRc)
      ensures copies == InboundCopies(bus.settings, matches, bus.Subs(), msg, replies)
    {
      hide Refused, HasFlag, Copies;
      copies := [];
      if !DeliversLocally(bus.settings, msg) {
        var to;
        rc, to := SendOn(from, route, sendRc);
        return rc, Outcome(false, to, false), [];
      }
      var refused, n;
      refused, n, copies := bus.DeliverLocal(matches, -1, msg, replies);
      if refused { return NoMem, Outcome(true, None, false), copies; }
      var to := None;
      if Forwards(bus.settings, msg) {
        rc, to := SendOn(from, route, sendRc);
        if rc != Ok && bus.settings.requireRoute { return rc, Outcome(true, to, false), copies; }
      }
      rc, out := Ok, Outcome(true, to, msg.qos == 1 && from.Some?);
    }

    method SendOn(from: Option<nat>, route: Option<nat>, sendRc: Code) returns (rc: Code, to: Option<nat>)
      ensures (rc, to) == Forward(bus.settings, from, route, sendRc)
    {
      if route.None? { return if bus.settings.requireRoute then NotFound else Ok, None; }
      if route == from { return Ok, None; }
      rc := sendRc;
      to := if rc == Ok then route else None;
    }
  }

  /** Reassembly gives a message exactly when it reports success. A reassembled message carries
      no flags, so it is never taken for an acknowledgement. */
  lemma FedCodes(chunk: nat, slots: seq<Fragment.Slot>, frag: Message)
    requires Fragment.ChunkOk(chunk) && Fragment.AllShaped(chunk, slots)
    ensures
      var r := Fragment.Fed(chunk, slots, frag);
      (r.1 == Ok <==> r.2.Some?) && (r.2.Some? ==> r.2.value.flags == 0)
  {
    hide Fragment.Find, Fragment.Opened, Fragment.Stored, Fragment.IndexOf, Fragment.TotalOf;
  }

  // ---- A network of point-to-point links ----

  /** A transport of a node. */
  datatype Port = Port(node: nat, transport: nat)

  /** The nodes are numbered below `size`; a link joins two ports. */
  datatype Net = Net(size: nat, links: map<Port, Port>)

  predicate Wellformed(net: Net) {
    forall p <- net.links :: p.node < net.size && net.links[p] in net.links && net.links[net.links[p]] == p
  }

  /** No cycles: the nodes have depths such that every link joins neighbouring depths and no node
      has two links up. */
  predicate Forest(net: Net, depth: seq<nat>) {
    && Wellformed(net) && |depth| == net.size
    && (forall p <- net.links ::
      var q := net.links[p]; depth[q.node] == depth[p.node] + 1 || depth[p.node] == depth[q.node] + 1)
    && (forall p, q | p in net.links && q in net.links && p.node == q.node && GoesUp(net, depth, p)
      && GoesUp(net, depth, q) :: p == q)
  }

  predicate GoesUp(net: Net, depth: seq<nat>, p: Port)
    requires Wellformed(net) && |depth| == net.size && p in net.links
  {
    depth[net.links[p].node] < depth[p.node]
  }

  /** Ports crossed one after another, each leaving a node the previous one arrived at, over a
      transport other than the one of arrival. */
  predicate Walk(net: Net, hops: seq<Port>) {
    && (forall h <- hops :: h in net.links)
    && forall i | 0 < i < |hops| :: hops[i].node == net.links[hops[i - 1]].node && hops[i] != net.links[hops[i - 1]]
  }

  /** After one step down, every further step goes down. */
  lemma DownStaysDown(net: Net, depth: seq<nat>, p: Port, q: Port)
    requires Forest(net, depth) && p in net.links && q in net.links
    requires q.node == net.links[p].node && q != net.links[p] && !GoesUp(net, depth, p)
    ensures !GoesUp(net, depth, q)
  {
    assert GoesUp(net, depth, net.links[p]);
  }

  lemma {:induction false} AllDown(net: Net, depth: seq<nat>, hops: seq<Port>)
    requires Forest(net, depth) && Walk(net, hops) && hops != [] && !GoesUp(net, depth, hops[0])
    ensures !GoesUp(net, depth, hops[|hops| - 1]) && depth[net.links[hops[|hops| - 1]].node] > depth[hops[0].node]
    decreases |hops|
  {
    hide Forest;
    var n := |hops| - 1;
    if n > 0 {
      AllDown(net, depth, hops[..n]);
      DownStaysDown(net, depth, hops[n - 1], hops[n]);
    }
    Neighbours(net, depth, hops[n]);
  }

  lemma Neighbours(net: Net, depth: seq<nat>, p: Port)
    requires Forest(net, depth) && p in net.links
    ensures Wellformed(net) && p.node < net.size && net.links[p].node < net.size
    ensures !GoesUp(net, depth, p) ==> depth[net.links[p].node] == depth[p.node] + 1
  {
  }

  /** A walk whose last step goes up has only gone up. */
  lemma {:induction false} AllUp(net: Net, depth: seq<nat>, hops: seq<Port>)
    requires Forest(net, depth) && Walk(net, hops) && hops != [] && GoesUp(net, depth, hops[|hops| - 1])
    ensures depth[net.links[hops[|hops| - 1]].node] < depth[hops[0].node]
    decreases |hops|
  {
    var n := |hops| - 1;
    if n > 0 {
      if !GoesUp(net, depth, hops[n - 1]) { DownStaysDown(net, depth, hops[n - 1], hops[n]); }
      AllUp(net, depth, hops[..n]);
    }
  }

  /** In a forest a walk that never turns back never returns to where it started. */
  lemma {:induction false} NoReturn(net: Net, depth: seq<nat>, hops: seq<Port>)
    requires Forest(net, depth) && Walk(net, hops) && hops != []
    ensures net.links[hops[|hops| - 1]].node != hops[0].node
    decreases |hops|
  {
    var n := |hops| - 1;
    var first, back := hops[0], net.links[hops[n]];
    if !GoesUp(net, depth, first) {
      AllDown(net, depth, hops);
    } else if GoesUp(net, depth, hops[n]) {
      AllUp(net, depth, hops);
    } else if back.node == first.node {
      assert GoesUp(net, depth, back);
      assert first == back;
      if n >= 2 {
        var inner := hops[1..n];
        assert Walk(net, inner);
        NoReturn(net, depth, inner);
      }
    }
  }

  /** The nodes a walk has been at. */
  function Visited(net: Net, hops: seq<Port>): seq<nat>
    requires forall h <- hops :: h in net.links
  {
    if hops == [] then [] else [hops[0].node] + seq(|hops|, i requires 0 <= i < |hops| => net.links[hops[i]].node)
  }

  predicate Distinct(s: seq<nat>) {
    forall i, j | 0 <= i < j < |s| :: s[i] != s[j]
  }

  /** Hence it is at no node twice, and so crosses no link twice, in either direction. */
  lemma WalkIsSimple(net: Net, depth: seq<nat>, hops: seq<Port>)
    requires Forest(net, depth) && Walk(net, hops)
    ensures Distinct(Visited(net, hops))
    ensures forall i, j | 0 <= i < j < |hops| :: hops[i] != hops[j] && hops[i] != net.links[hops[j]]
  {
    var v := Visited(net, hops);
    hide Forest, Walk;
    forall i, j | 0 <= i < j < |v| ensures v[i] != v[j] {
      Apart(net, depth, hops, i, j);
    }
    forall i, j | 0 <= i < j < |hops| ensures hops[i] != hops[j] && hops[i] != net.links[hops[j]] {
      Apart(net, depth, hops, i, j);
      Apart(net, depth, hops, i, j + 1);
      NodeAt(net, hops, i);
      NodeAt(net, hops, j);
    }
  }

  lemma Apart(net: Net, depth: seq<nat>, hops: seq<Port>, i: nat, j: nat)
    requires Forest(net, depth) && Walk(net, hops) && i < j <= |hops|
    ensures Visited(net, hops)[i] != Visited(net, hops)[j]
  {
    hide Forest, Walk;
    PartOfWalk(net, hops, i, j);
    NoReturn(net, depth, hops[i..j]);
    NodeAt(net, hops, i);
    NodeAt(net, hops, j - 1);
  }

  lemma PartOfWalk(net: Net, hops: seq<Port>, i: nat, j: nat)
    requires Walk(net, hops) && i <= j <= |hops|
    ensures Walk(net, hops[i..j])
  {
    var part := hops[i..j];
    forall k | 0 < k < |part| ensures part[k].node == net.links[part[k - 1]].node && part[k] != net.links[part[k - 1]] {
      assert part[k] == hops[i + k] && part[k - 1] == hops[i + k - 1];
    }
  }

  lemma NodeAt(net: Net, hops: seq<Port>, i: nat)
    requires Walk(net, hops) && i < |hops|
    ensures Visited(net, hops)[i] == hops[i].node && Visited(net, hops)[i + 1] == net.links[hops[i]].node
  {
  }

  /** So it is shorter than the number of nodes. */
  lemma WalkIsShort(net: Net, depth: seq<nat>, hops: seq<Port>)
    requires Forest(net, depth) && Walk(net, hops) && hops != []
    ensures |hops| < net.size
  {
    WalkIsSimple(net, depth, hops);
    var v := Visited(net, hops);
    forall i | 0 <= i < |v| ensures v[i] < net.size {
      if i < |hops| { NodeAt(net, hops, i); } else { NodeAt(net, hops, i - 1); }
    }
    Pigeonhole(v, net.size);
  }

  lemma {:induction false} Pigeonhole(v: seq<nat>, n: nat)
    requires Distinct(v) && forall i | 0 <= i < |v| :: v[i] < n
    ensures |v| <= n
    decreases n
  {
    if v != [] {
      assert v[0] < n;
      if k :| 0 <= k < |v| && v[k] == n - 1 {
        Pigeonhole(v[..k] + v[k + 1..], n - 1);
      } else {
        Pigeonhole(v, n - 1);
      }
    }
  }
}
