/** Local delivery under backpressure as a state machine: many clients publish and subscribe, output
    buffers fill up and drain, and a publisher's frame stays in its buffer (client_manager.c)
    until publishing it (message_bus.c) succeeds. Every publish attempt is logged. */
module DeliverySystem {
  import opened Word32
  import opened Protocol
  import opened MessageBus
  import opened Status
  import opened Ipc
  import ClientQueue

  /** What one daemon is configured with; routing depends on channel and topic alone. */
  datatype World = World(settings: Settings, matches: Matcher, routable: (seq<byte>, seq<byte>) -> bool)

  /** One attempt to publish a client's frame number `index`: the fresh number it got (used when
      the client gave none), the subscriptions there were, whether somebody was refused, what the
      transport said if there was one to ask, and the code that was returned. */
  datatype Try = Try(publisher: nat, index: nat, frame: Message, number: u32, subs: seq<Sub>,
                     refused: bool, net: Option<Code>, rc: Code)

  /** One copy enqueued for a subscriber: the attempt it comes from, and the message. */
  datatype Copy = Copy(attempt: nat, msg: Message)

  /** A client: the frames that have arrived from it, how many of them have left its rx buffer,
      the copies enqueued for it, and its output buffer and socket. */
  datatype Client = Client(alive: bool, frames: seq<Message>, done: nat, stream: seq<Copy>, out: ClientQueue.Tx)

  datatype State = State(subs: seq<Sub>, clients: map<nat, Client>, nextSeq: u32, log: seq<Try>)

  datatype Action =
    | Connect(c: nat)
    | Arrive(c: nat, msg: Message)
    | SubscribeTo(c: nat, topic: seq<byte>)
    | Close(c: nat)
    | Attempt(c: nat, epollOk: seq<bool>, sendRc: Code)
    | Drain(c: nat, n: nat)

  // ---- One publish attempt ----

  /** The message an attempt sends. */
  function SentBy(w: World, e: Try): Message {
    Stamp(w.settings, e.frame, e.number)
  }

  /** deliver_to_client for one subscription: the copy is enqueued if it fits. */
  function OfferOne(clients: map<nat, Client>, fd: nat, x: Copy, epollOk: bool): (r: (map<nat, Client>, Reply))
    requires Publishable(x.msg)
    ensures r.0.Keys == clients.Keys
  {
    if fd !in clients || !clients[fd].alive || !clients[fd].out.Fits(DeliverFrame(x.msg)) then (clients, Full)
    else
      var cl := clients[fd];
      (clients[fd := cl.(stream := cl.stream + [x], out := cl.out.Enqueued(DeliverFrame(x.msg)))],
        if epollOk then Took else Failed)
  }

  /** Local delivery to all subscriptions in turn. */
  function OfferAll(matches: Matcher, clients: map<nat, Client>, subs: seq<Sub>, source: nat, x: Copy,
      epollOk: seq<bool>)
    : (r: (map<nat, Client>, seq<Reply>))
    requires Publishable(x.msg) && |epollOk| == |subs|
    ensures r.0.Keys == clients.Keys && |r.1| == |subs|
    decreases |subs|
  {
    if subs == [] then (clients, [])
    else
      var n := |subs| - 1;
      var (cs, rs) := OfferAll(matches, clients, subs[..n], source, x, epollOk[..n]);
      if Wants(matches, subs[n], source, x.msg) then
        var (cs', r) := OfferOne(cs, subs[n].fd, x, epollOk[n]);
        (cs', rs + [r])
      else (cs, rs + [Took])
  }

  /** Local delivery, if the message is for this node at all. */
  function Offered(w: World, s: State, c: nat, x: Copy, epollOk: seq<bool>): (r: (map<nat, Client>, seq<Reply>))
    requires Publishable(x.msg) && |epollOk| == |s.subs|
    ensures r.0.Keys == s.clients.Keys && |r.1| == |s.subs|
  {
    if DeliversLocally(w.settings, x.msg) then OfferAll(w.matches, s.clients, s.subs, c, x, epollOk)
    else (s.clients, seq(|s.subs|, i => Took))
  }

  /** A failed attempt uses up its fresh number too. */
  function NextSeq(s: State, msg: Message): u32 {
    if msg.seqNo == 0 then Add(s.nextSeq, 1) else s.nextSeq
  }

  /** The attempt on the head frame of client c, given what became of the copies. */
  function TryOf(w: World, s: State, c: nat, replies: seq<Reply>, sendRc: Code): Try
    requires HasHead(s, c) && |replies| == |s.subs|
  {
    var cl := s.clients[c];
    var msg := cl.frames[cl.done];
    var sent := Stamp(w.settings, msg, NextSeq(s, msg));
    var refused := DeliversLocally(w.settings, sent) && Refused(w.matches, s.subs, c, sent, replies);
    var asked := NeedsNetwork(w.settings, sent) && w.routable(msg.channel, msg.topic);
    Try(c, cl.done, msg, NextSeq(s, msg), s.subs, refused, if asked then Some(sendRc) else None,
        PublishCode(w.settings, sent, refused, |LocalCopies(w.settings, w.matches, s.subs, c, sent, replies)|,
                    if w.routable(msg.channel, msg.topic) then Sends(sendRc) else NoRoute))
  }

  predicate Live(s: State, c: nat) {
    c in s.clients && s.clients[c].alive
  }

  predicate HasHead(s: State, c: nat) {
    c in s.clients && s.clients[c].done < |s.clients[c].frames|
  }

  function Closed(s: State, c: nat): State
    requires c in s.clients
  {
    s.(subs := Without(s.subs, c), clients := s.clients[c := s.clients[c].(alive := false)])
  }

  /** The copy an attempt on the head frame of client c would enqueue. */
  function HeadCopy(w: World, s: State, c: nat): Copy
    requires HasHead(s, c)
  {
    var msg := s.clients[c].frames[s.clients[c].done];
    Copy(|s.log|, Stamp(w.settings, msg, NextSeq(s, msg)))
  }

  predicate HeadPublishable(s: State, c: nat)
    requires HasHead(s, c)
  {
    Publishable(s.clients[c].frames[s.clients[c].done])
  }

  /** After the copies of an attempt were enqueued and it was logged. */
  function Logged(w: World, s: State, c: nat, epollOk: seq<bool>, sendRc: Code): State
    requires HasHead(s, c) && HeadPublishable(s, c) && |epollOk| == |s.subs|
  {
    var (clients, replies) := Offered(w, s, c, HeadCopy(w, s, c), epollOk);
    var e := TryOf(w, s, c, replies, sendRc);
    State(s.subs, clients, e.number, s.log + [e])
  }

  /** process_one_message on the frame at the head of a client's rx buffer: the frame leaves the
      buffer when publishing it returns BC_OK; BC_ERR_NOMEM and BC_ERR_NOT_FOUND leave it there,
      and any other code, or a frame of a bad size, closes the client. */
  function TryHead(w: World, s: State, c: nat, epollOk: seq<bool>, sendRc: Code): State
    requires HasHead(s, c) && |epollOk| == |s.subs|
  {
    if !HeadPublishable(s, c) then Closed(s, c)
    else
      var s1 := Logged(w, s, c, epollOk, sendRc);
      var rc := s1.log[|s.log|].rc;
      if rc == Ok then s1.(clients := s1.clients[c := s1.clients[c].(done := s1.clients[c].done + 1)])
      else if rc == NoMem || rc == NotFound then s1
      else Closed(s1, c)
  }

  function Next(w: World, s: State, a: Action): State {
    match a
    case Connect(c) =>
      if c in s.clients then s
      else s.(clients := s.clients[c := Client(true, [], 0, [], ClientQueue.Tx([], []))])
    case Arrive(c, msg) =>
      if !Live(s, c) then s else s.(clients := s.clients[c := s.clients[c].(frames := s.clients[c].frames + [msg])])
    case SubscribeTo(c, topic) =>
      if !Live(s, c) || topic == [] || |s.subs| >= MAX_SUBSCRIPTIONS || Sub(c, topic) in s.subs then s
      else s.(subs := s.subs + [Sub(c, topic)])
    case Close(c) =>
      if !Live(s, c) then s else Closed(s, c)
    case Attempt(c, epollOk, sendRc) =>
      if !Live(s, c) || !HasHead(s, c) || |epollOk| != |s.subs| then s else TryHead(w, s, c, epollOk, sendRc)
    case Drain(c, n) =>
      if !Live(s, c) then s else s.(clients := s.clients[c := s.clients[c].(out := s.clients[c].out.Drained(n))])
  }

  function Start(): State {
    State([], map[], 0, [])
  }

  function Run(w: World, actions: seq<Action>): State
    decreases |actions|
  {
    if actions == [] then Start() else Next(w, Run(w, actions[..|actions| - 1]), actions[|actions| - 1])
  }
}
