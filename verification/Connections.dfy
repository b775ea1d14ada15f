/** The clients of one node: registration, send queues and the books kept about them. */
module Connections {
  import opened Options
  import opened Protocol

  type Conn = nat

  /** The send queue is named by a handle; the zero handle is the nil queue of an unset registration. */
  datatype Registration = Registration(user: string, send: nat, channel: string)

  const UNSET := Registration("", 0, "")

  /** closes counts the times the queue was closed; closing a closed or nil queue panics. */
  datatype Queue = Queue(items: seq<Message>, closes: nat)

  const QUEUE_CAPACITY := 256

  datatype Hub = Hub(
    clients: map<Conn, Registration>,
    queues: map<nat, Queue>,
    gauge: int,
    joins: nat,
    leaves: nat,
    unnamed: nat,
    panicked: bool)

  const START := Hub(map[], map[], 0, 0, 0, 0, false)

  /** Whether a user is a member of a channel. */
  type Membership = (string, string) -> bool

  /** A leave is announced for named users only. */
  predicate Named(user: string) {
    user != "" && user != "Connecting..."
  }

  function Register(h: Hub, conn: Conn, user: string, send: nat): Hub {
    h.(clients := h.clients[conn := Registration(user, send, "general")],
       queues := h.queues[send := Queue([], 0)], gauge := h.gauge + 1, joins := h.joins + 1)
  }

  function Close(h: Hub, send: nat): Hub {
    if send !in h.queues || h.queues[send].closes > 0 then h.(panicked := true)
    else h.(queues := h.queues[send := h.queues[send].(closes := 1)])
  }

  function Unregister(h: Hub, conn: Conn): Hub {
    if conn !in h.clients then h
    else
      var c := h.clients[conn];
      var closed := Close(h, c.send);
      closed.(clients := h.clients - {conn}, gauge := h.gauge - 1,
              leaves := h.leaves + (if Named(c.user) then 1 else 0),
              unnamed := h.unnamed + if Named(c.user) then 0 else 1)
  }

  /** A channel command stores the connection's registration back, set or not. */
  function SetChannel(h: Hub, conn: Conn, channel: string): Hub {
    var c := if conn in h.clients then h.clients[conn] else UNSET;
    h.(clients := h.clients[conn := c.(channel := channel)])
  }

  /** Direct messages go to their two ends; other messages to the channel's members; joins and leaves to all. */
  predicate Eligible(c: Registration, msg: Message, isMember: Membership) {
    if msg.kind == DirectMessage then c.user == msg.sender || c.user == msg.recipient
    else msg.channel == "" || isMember(msg.channel, c.user) || msg.kind == Join || msg.kind == Leave
  }

  /** The message goes on the queue of every eligible client that has room. */
  function Broadcast(h: Hub, msg: Message, isMember: Membership): Hub {
    h.(queues := map q | q in h.queues ::
         if |h.queues[q].items| < QUEUE_CAPACITY &&
            (exists c | c in h.clients :: h.clients[c].send == q && Eligible(h.clients[c], msg, isMember))
         then h.queues[q].(items := h.queues[q].items + [msg]) else h.queues[q])
  }

  /** The write pump takes the oldest message, from an open or a closed queue. */
  function Pump(h: Hub, send: nat): Hub {
    if send in h.queues && |h.queues[send].items| > 0
    then h.(queues := h.queues[send := h.queues[send].(items := h.queues[send].items[1..])]) else h
  }

  // ---- Runs ----

  datatype Step =
    | RegisterStep(conn: Conn, user: string, send: nat)
    | UnregisterStep(conn: Conn)
    | ChannelStep(conn: Conn, channel: string)
    | BroadcastStep(msg: Message)
    | PumpStep(send: nat)

  function Next(h: Hub, s: Step, isMember: Membership): Hub {
    match s
    case RegisterStep(conn, user, send) => Register(h, conn, user, send)
    case UnregisterStep(conn) => Unregister(h, conn)
    case ChannelStep(conn, channel) => SetChannel(h, conn, channel)
    case BroadcastStep(msg) => Broadcast(h, msg, isMember)
    case PumpStep(send) => Pump(h, send)
  }

  /**
   * A registration brings a queue just made and a connection not registered at the moment, though an early channel
   * command may have stored an unset registration for it.
   */
  predicate Enabled(h: Hub, s: Step) {
    match s
    case RegisterStep(conn, user, send) =>
      (conn in h.clients ==> h.clients[conn].send == 0) && send !in h.queues && send != 0
    case _ => true
  }

  predicate Runs(h: Hub, steps: seq<Step>, isMember: Membership)
    decreases |steps|
  {
    |steps| == 0 || (Enabled(h, steps[0]) && Runs(Next(h, steps[0], isMember), steps[1..], isMember))
  }

  function Run(h: Hub, steps: seq<Step>, isMember: Membership): Hub
    decreases |steps|
  {
    if |steps| == 0 then h else Run(Next(h, steps[0], isMember), steps[1..], isMember)
  }

  // ---- The books ----

  /** Every client has a queue of its own, and it is open. */
  predicate OwnQueues(h: Hub) {
    (forall c | c in h.clients :: h.clients[c].send != 0 && h.clients[c].send in h.queues &&
        h.queues[h.clients[c].send].closes == 0) &&
    forall c, d | c in h.clients && d in h.clients && c != d :: h.clients[c].send != h.clients[d].send
  }

  predicate Owned(clients: map<Conn, Registration>, q: nat) {
    exists c | c in clients :: clients[c].send == q
  }

  /** A queue is closed once if its client has gone, and never while it is registered; none overflows. */
  predicate QueuesClosedOnce(h: Hub) {
    0 !in h.queues && !h.panicked &&
    forall q | q in h.queues ::
      |h.queues[q].items| <= QUEUE_CAPACITY &&
      h.queues[q].closes == if Owned(h.clients, q) then 0 else 1
  }

  /** The gauge counts the clients; announced joins are announced leaves, silent departures and clients. */
  predicate Balanced(h: Hub) {
    h.gauge == |h.clients| && h.joins == h.leaves + h.unnamed + |h.clients|
  }

  predicate Inv(h: Hub) {
    OwnQueues(h) && QueuesClosedOnce(h) && Balanced(h)
  }

  lemma RegisterKeeps(h: Hub, conn: Conn, user: string, send: nat)
    requires Inv(h) && Enabled(h, RegisterStep(conn, user, send))
    ensures Inv(Register(h, conn, user, send))
  {
    var h' := Register(h, conn, user, send);
    assert OwnQueues(h');
    forall q | q in h'.queues ensures h'.queues[q].closes == if Owned(h'.clients, q) then 0 else 1 {
      NewOwner(h.clients, conn, Registration(user, send, "general"), q);
    }
    assert h'.clients.Keys == h.clients.Keys + {conn};
  }

  lemma NewOwner(clients: map<Conn, Registration>, conn: Conn, reg: Registration, q: nat)
    requires conn !in clients
    ensures Owned(clients[conn := reg], q) <==> Owned(clients, q) || q == reg.send
  {
    var clients' := clients[conn := reg];
    assert clients'[conn].send == reg.send;
    if Owned(clients, q) {
      var c :| c in clients && clients[c].send == q;
      assert clients'[c].send == q;
    }
  }

  lemma UnregisterKeeps(h: Hub, conn: Conn)
    requires Inv(h)
    ensures Inv(Unregister(h, conn))
  {
    if conn in h.clients {
      var h', send := Unregister(h, conn), h.clients[conn].send;
      forall q | q in h'.queues
        ensures h'.queues[q].closes == if Owned(h'.clients, q) then 0 else 1
      {
        if q != send && Owned(h.clients, q) {
          var c :| c in h.clients && h.clients[c].send == q;
          assert c in h'.clients;
        }
      }
      assert h'.clients.Keys == h.clients.Keys - {conn};
    }
  }

  lemma ChannelKeeps(h: Hub, conn: Conn, channel: string)
    requires Inv(h) && conn in h.clients
    ensures Inv(SetChannel(h, conn, channel))
  {
    var h' := SetChannel(h, conn, channel);
    assert h'.clients.Keys == h.clients.Keys;
    assert forall c | c in h.clients :: h'.clients[c].send == h.clients[c].send;
    forall q | q in h'.queues
      ensures h'.queues[q].closes == if Owned(h'.clients, q) then 0 else 1
    {
      if Owned(h.clients, q) {
        var c :| c in h.clients && h.clients[c].send == q;
        assert h'.clients[c].send == q;
      }
    }
  }

  /** In any state whose books are in order: a step keeps them so exactly unless it is a late channel command. */
  lemma NextKeepsIff(h: Hub, s: Step, isMember: Membership)
    requires Inv(h) && Enabled(h, s)
    ensures Inv(Next(h, s, isMember)) <==> (s.ChannelStep? ==> s.conn in h.clients)
  {
    match s
    case RegisterStep(conn, user, send) => RegisterKeeps(h, conn, user, send);
    case UnregisterStep(conn) => UnregisterKeeps(h, conn);
    case ChannelStep(conn, channel) => ChannelKeepsIff(h, conn, channel);
    case BroadcastStep(msg) => BroadcastKeeps(h, msg, isMember);
    case PumpStep(send) => PumpKeeps(h, send);
  }

  lemma BroadcastKeeps(h: Hub, msg: Message, isMember: Membership)
    requires Inv(h)
    ensures Inv(Broadcast(h, msg, isMember))
  {
    var h' := Broadcast(h, msg, isMember);
    assert h'.queues.Keys == h.queues.Keys && forall q | q in h.queues :: h'.queues[q].closes == h.queues[q].closes;
  }

  lemma PumpKeeps(h: Hub, send: nat)
    requires Inv(h)
    ensures Inv(Pump(h, send))
  {
  }

  /** Channel commands are handled while their connection is registered. */
  predicate InTime(h: Hub, steps: seq<Step>, isMember: Membership)
    decreases |steps|
  {
    |steps| > 0 ==>
      (steps[0].ChannelStep? ==> steps[0].conn in h.clients) &&
      InTime(Next(h, steps[0], isMember), steps[1..], isMember)
  }

  predicate AlwaysInv(h: Hub, steps: seq<Step>, isMember: Membership)
    decreases |steps|
  {
    Inv(h) && (|steps| > 0 ==> AlwaysInv(Next(h, steps[0], isMember), steps[1..], isMember))
  }

  lemma StartHolds()
    ensures Inv(START)
  {
  }

  /**
   * In every interleaving of registrations, repeated or stray unregistrations, channel commands, broadcasts and
   * writes: no queue is closed twice, nothing panics and the books balance in every state, exactly if no channel
   * command is handled after its connection was unregistered.
   */
  lemma {:induction false} BooksBalance(h: Hub, steps: seq<Step>, isMember: Membership)
    requires Inv(h) && Runs(h, steps, isMember)
    ensures AlwaysInv(h, steps, isMember) <==> InTime(h, steps, isMember)
    ensures InTime(h, steps, isMember) ==> Inv(Run(h, steps, isMember))
    decreases |steps|
  {
    if |steps| > 0 {
      NextKeepsIff(h, steps[0], isMember);
      if Inv(Next(h, steps[0], isMember)) { BooksBalance(Next(h, steps[0], isMember), steps[1..], isMember); }
    }
  }

  /** A second unregistration of a connection does nothing at all. */
  lemma UnregisterIdempotent(h: Hub, conn: Conn)
    ensures Unregister(Unregister(h, conn), conn) == Unregister(h, conn)
  {
  }

  /** Direct messages go to their two ends; other messages to the channel's members; joins and leaves to all. */
  predicate Due(user: string, msg: Message, isMember: Membership) {
    (msg.kind == DirectMessage ==> user == msg.sender || user == msg.recipient) &&
    (msg.kind != DirectMessage ==>
       msg.channel == "" || isMember(msg.channel, user) || msg.kind == Join || msg.kind == Leave)
  }

  /**
   * A broadcast touches no closed queue, and gives each client one copy at the end of its queue exactly if there is
   * room for it among 256 and the message is due to the user.
   */
  lemma BroadcastReaches(h: Hub, msg: Message, isMember: Membership, conn: Conn)
    requires Inv(h)
    ensures var h' := Broadcast(h, msg, isMember);
            && (forall q | q in h.queues && h.queues[q].closes > 0 :: h'.queues[q] == h.queues[q])
            && (conn in h.clients ==>
                  var q := h.clients[conn].send;
                  h'.queues[q].items == h.queues[q].items +
                    if Due(h.clients[conn].user, msg, isMember) && |h.queues[q].items| < 256 then [msg] else [])
  {
    if conn in h.clients {
      var q := h.clients[conn].send;
      var h' := Broadcast(h, msg, isMember);
      assert forall c | c in h.clients && h.clients[c].send == q :: c == conn;
      assert h.queues[q].items + [] == h.queues[q].items;
    }
  }

  // ---- Who gets what, over every run ----

  /** Registered clients have queues of their own; clients whose registration was never set have none. */
  predicate Apart(h: Hub) {
    0 !in h.queues &&
    (forall c | c in h.clients && h.clients[c].send != 0 :: h.clients[c].send in h.queues) &&
    forall c, d | c in h.clients && d in h.clients && c != d && h.clients[c].send != 0 ::
      h.clients[c].send != h.clients[d].send
  }

  predicate Addressed(h: Hub, isMember: Membership) {
    forall c | c in h.clients && h.clients[c].send in h.queues ::
      forall m | m in h.queues[h.clients[c].send].items :: Due(h.clients[c].user, m, isMember)
  }

  lemma BroadcastAddressed(h: Hub, msg: Message, isMember: Membership)
    requires Apart(h) && Addressed(h, isMember)
    ensures Apart(Broadcast(h, msg, isMember)) && Addressed(Broadcast(h, msg, isMember), isMember)
  {
    var h' := Broadcast(h, msg, isMember);
    assert h'.queues.Keys == h.queues.Keys;
    forall c | c in h.clients && h.clients[c].send in h.queues
      ensures forall m | m in h'.queues[h.clients[c].send].items :: Due(h.clients[c].user, m, isMember)
    {
      assert forall d | d in h.clients && h.clients[d].send == h.clients[c].send :: d == c;
    }
  }

  lemma UnregisterAddressed(h: Hub, conn: Conn, isMember: Membership)
    requires Apart(h) && Addressed(h, isMember)
    ensures Apart(Unregister(h, conn)) && Addressed(Unregister(h, conn), isMember)
  {
    var h' := Unregister(h, conn);
    assert h'.queues.Keys == h.queues.Keys && forall q | q in h.queues :: h'.queues[q].items == h.queues[q].items;
  }

  lemma PumpAddressed(h: Hub, send: nat, isMember: Membership)
    requires Apart(h) && Addressed(h, isMember)
    ensures Apart(Pump(h, send)) && Addressed(Pump(h, send), isMember)
  {
    var h' := Pump(h, send);
    assert h'.queues.Keys == h.queues.Keys;
    assert forall q | q in h.queues :: forall m | m in h'.queues[q].items :: m in h.queues[q].items;
  }

  lemma RegisterAddressed(h: Hub, conn: Conn, user: string, send: nat, isMember: Membership)
    requires Apart(h) && Addressed(h, isMember) && Enabled(h, RegisterStep(conn, user, send))
    ensures Apart(Register(h, conn, user, send)) && Addressed(Register(h, conn, user, send), isMember)
  {
  }

  lemma NextAddressed(h: Hub, s: Step, isMember: Membership)
    requires Apart(h) && Addressed(h, isMember) && Enabled(h, s)
    ensures Apart(Next(h, s, isMember)) && Addressed(Next(h, s, isMember), isMember)
  {
    match s
    case RegisterStep(conn, user, send) => RegisterAddressed(h, conn, user, send, isMember);
    case UnregisterStep(conn) => UnregisterAddressed(h, conn, isMember);
    case ChannelStep(conn, channel) =>
    case BroadcastStep(msg) => BroadcastAddressed(h, msg, isMember);
    case PumpStep(send) => PumpAddressed(h, send, isMember);
  }

  lemma {:induction false} RunAddressed(h: Hub, steps: seq<Step>, isMember: Membership)
    requires Apart(h) && Addressed(h, isMember) && Runs(h, steps, isMember)
    ensures Apart(Run(h, steps, isMember)) && Addressed(Run(h, steps, isMember), isMember)
    decreases |steps|
  {
    if |steps| > 0 {
      NextAddressed(h, steps[0], isMember);
      RunAddressed(Next(h, steps[0], isMember), steps[1..], isMember);
    }
  }

  /**
   * In every run of a new node: a direct message on a client's queue has that client's user at one of its ends, and any
   * other message there that names a channel the user is not a member of is a join or a leave.
   */
  lemma OnlyOwnMessages(steps: seq<Step>, isMember: Membership, conn: Conn, m: Message)
    requires Runs(START, steps, isMember)
    requires var h := Run(START, steps, isMember);
             conn in h.clients && h.clients[conn].send in h.queues && m in h.queues[h.clients[conn].send].items
    ensures var user := Run(START, steps, isMember).clients[conn].user;
            && (m.kind == DirectMessage ==> m.sender == user || m.recipient == user)
            && (m.kind != DirectMessage && m.channel != "" && !isMember(m.channel, user) ==>
                  m.kind == Join || m.kind == Leave)
  {
    RunAddressed(START, steps, isMember);
  }

  /** The registration of a connection, as the run's events about it leave it. */
  function LastRegistration(steps: seq<Step>, conn: Conn): Option<Registration> {
    if |steps| == 0 then None
    else
      var before := LastRegistration(steps[..|steps| - 1], conn);
      match steps[|steps| - 1]
      case RegisterStep(c, user, send) => if c == conn then Some(Registration(user, send, "general")) else before
      case UnregisterStep(c) => if c == conn then None else before
      case ChannelStep(c, channel) =>
        if c != conn then before
        else if before.Some? then Some(Registration(before.value.user, before.value.send, channel))
        else Some(Registration("", 0, channel))
      case _ => before
  }

  lemma {:induction false} RunFront(h: Hub, steps: seq<Step>, isMember: Membership)
    requires Runs(h, steps, isMember) && |steps| > 0
    ensures Runs(h, steps[..|steps| - 1], isMember)
    ensures Enabled(Run(h, steps[..|steps| - 1], isMember), steps[|steps| - 1])
    ensures Run(h, steps, isMember) == Next(Run(h, steps[..|steps| - 1], isMember), steps[|steps| - 1], isMember)
    decreases |steps|
  {
    var front := steps[..|steps| - 1];
    if |steps| == 1 {
      assert Run(Next(h, steps[0], isMember), steps[1..], isMember) == Next(h, steps[0], isMember);
    } else {
      RunFront(Next(h, steps[0], isMember), steps[1..], isMember);
      assert steps[1..][..|steps| - 2] == front[1..];
    }
  }

  lemma RegistrationStep(h: Hub, s: Step, isMember: Membership, conn: Conn)
    ensures conn in Next(h, s, isMember).clients <==>
              if s.RegisterStep? && s.conn == conn then true
              else if s.UnregisterStep? && s.conn == conn then false
              else if s.ChannelStep? && s.conn == conn then true
              else conn in h.clients
    ensures conn in Next(h, s, isMember).clients ==>
              Next(h, s, isMember).clients[conn] ==
              if s.RegisterStep? && s.conn == conn then Registration(s.user, s.send, "general")
              else if s.ChannelStep? && s.conn == conn then
                (if conn in h.clients then h.clients[conn] else Registration("", 0, "")).(channel := s.channel)
              else h.clients[conn]
  {
  }

  /** In every run of a new node each connection is registered as the events about it say: user, queue and channel. */
  lemma {:induction false} RegisteredAs(steps: seq<Step>, isMember: Membership, conn: Conn)
    requires Runs(START, steps, isMember)
    ensures var h := Run(START, steps, isMember);
            LastRegistration(steps, conn) == if conn in h.clients then Some(h.clients[conn]) else None
  {
    if |steps| > 0 {
      RunFront(START, steps, isMember);
      RegisteredAs(steps[..|steps| - 1], isMember, conn);
      RegistrationStep(Run(START, steps[..|steps| - 1], isMember), steps[|steps| - 1], isMember, conn);
    }
  }

  /**
   * What an unregistration does: the connection goes and its queue alone is closed; a leave is announced for a named
   * user, nothing for one still connecting. Of a connection that is not registered it changes nothing.
   */
  lemma UnregisterAnnounces(h: Hub, conn: Conn)
    requires Inv(h) && conn in h.clients
    ensures var h', c := Unregister(h, conn), h.clients[conn];
            && h'.clients == h.clients - {conn} && h'.gauge == h.gauge - 1 && h'.panicked == h.panicked
            && c.send in h.queues && h'.queues == h.queues[c.send := Queue(h.queues[c.send].items, 1)]
            && h'.leaves == h.leaves + (if c.user != "" && c.user != "Connecting..." then 1 else 0)
            && h'.joins == h.joins
    ensures forall other :: other !in h.clients ==> Unregister(h, other) == h
  {
  }

  // ---- First in, first out ----

  /** The messages that the run's write pumps take from a queue, in order. */
  function Written(h: Hub, steps: seq<Step>, isMember: Membership, q: nat): seq<Message>
    decreases |steps|
  {
    if |steps| == 0 then []
    else
      (if steps[0] == PumpStep(q) && q in h.queues && |h.queues[q].items| > 0 then [h.queues[q].items[0]] else []) +
      Written(Next(h, steps[0], isMember), steps[1..], isMember, q)
  }

  /** A client with this queue is due the message, and there is room. */
  predicate Accepts(h: Hub, msg: Message, isMember: Membership, q: nat) {
    q in h.queues && |h.queues[q].items| < 256 &&
    exists c | c in h.clients :: h.clients[c].send == q && Due(h.clients[c].user, msg, isMember)
  }

  /** The messages that the run's broadcasts put on a queue, in order. */
  function Pushed(h: Hub, steps: seq<Step>, isMember: Membership, q: nat): seq<Message>
    decreases |steps|
  {
    if |steps| == 0 then []
    else
      (if steps[0].BroadcastStep? && Accepts(h, steps[0].msg, isMember, q) then [steps[0].msg] else []) +
      Pushed(Next(h, steps[0], isMember), steps[1..], isMember, q)
  }

  function Items(h: Hub, q: nat): seq<Message> {
    if q in h.queues then h.queues[q].items else []
  }

  lemma QueueStep(h: Hub, s: Step, isMember: Membership, q: nat)
    requires Enabled(h, s)
    ensures q in h.queues ==> q in Next(h, s, isMember).queues
    ensures (if s == PumpStep(q) && |Items(h, q)| > 0 then [Items(h, q)[0]] else []) + Items(Next(h, s, isMember), q) ==
            Items(h, q) + if s.BroadcastStep? && Accepts(h, s.msg, isMember, q) then [s.msg] else []
  {
    assert Items(h, q) + [] == Items(h, q) && [] + Items(Next(h, s, isMember), q) == Items(Next(h, s, isMember), q);
    if s == PumpStep(q) && |Items(h, q)| > 0 {
      assert [Items(h, q)[0]] + Items(h, q)[1..] == Items(h, q);
    }
  }

  /** Over every run a queue hands over, in order and each once, what it held and what was put on it. */
  lemma {:induction false} QueueInOrder(h: Hub, steps: seq<Step>, isMember: Membership, q: nat)
    requires Runs(h, steps, isMember)
    ensures Written(h, steps, isMember, q) + Items(Run(h, steps, isMember), q) ==
            Items(h, q) + Pushed(h, steps, isMember, q)
    decreases |steps|
  {
    if |steps| > 0 {
      var h1 := Next(h, steps[0], isMember);
      QueueStep(h, steps[0], isMember, q);
      QueueInOrder(h1, steps[1..], isMember, q);
      var first := if steps[0] == PumpStep(q) && |Items(h, q)| > 0 then [Items(h, q)[0]] else [];
      var more := if steps[0].BroadcastStep? && Accepts(h, steps[0].msg, isMember, q) then [steps[0].msg] else [];
      Regroup(first, Written(h1, steps[1..], isMember, q), Items(Run(h, steps, isMember), q), Items(h1, q),
              Items(h, q), more, Pushed(h1, steps[1..], isMember, q));
    }
  }

  lemma Regroup<T>(first: seq<T>, written: seq<T>, end: seq<T>, mid: seq<T>, start: seq<T>, more: seq<T>,
      pushed: seq<T>)
    requires first + mid == start + more && written + end == mid + pushed
    ensures (first + written) + end == start + (more + pushed)
  {
    assert (first + written) + end == first + (written + end);
    assert first + (mid + pushed) == (first + mid) + pushed;
    assert (start + more) + pushed == start + (more + pushed);
  }

  /** A channel command keeps the books exactly when its connection is still registered. */
  lemma ChannelKeepsIff(h: Hub, conn: Conn, channel: string)
    requires Inv(h)
    ensures Inv(SetChannel(h, conn, channel)) <==> conn in h.clients
  {
    if conn in h.clients {
      ChannelKeeps(h, conn, channel);
    } else {
      assert SetChannel(h, conn, channel).clients[conn].send == 0;
    }
  }

  /** Otherwise it leaves a registration without a queue, whose unregistration closes a nil queue. */
  lemma LateChannelCommandPanics(h: Hub, conn: Conn, channel: string)
    requires Inv(h)
    ensures Unregister(SetChannel(h, conn, channel), conn).panicked <==> conn !in h.clients
  {
  }
}
