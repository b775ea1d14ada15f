/** One node as an object: its event loop, its peers and its part in the election. */
module Node {
  import opened Options
  import opened Protocol
  import opened Sequences
  import opened StoreModel
  import opened Connections
  import Elections
  import Mesh
  import opened Presence
  import Storage
  import Text

  /** A peer silent for longer than this, in nanoseconds, is dropped. */
  const PEER_TIMEOUT := 15_000_000_000

  /** Messages between nodes that no client sees. */
  predicate Internal(k: Kind) {
    k == Heartbeat || k == Coordinator || k == SyncRequest || k == UserSync
  }

  function Answers(conn: Conn, history: seq<Message>): seq<(Conn, Message)> {
    seq(|history|, i requires 0 <= i < |history| => (conn, history[i]))
  }

  lemma AnswersMembers(conn: Conn, history: seq<Message>)
    ensures forall c, m :: (c, m) in Answers(conn, history) <==> c == conn && m in history
  {
    forall m | m in history ensures (conn, m) in Answers(conn, history) {
      var i :| 0 <= i < |history| && history[i] == m;
      assert Answers(conn, history)[i] == (conn, m);
    }
  }

  function Expired(peers: map<Conn, int>, now: int): set<Conn> {
    set c | c in peers && now - peers[c] > PEER_TIMEOUT
  }

  /** One of the clients looked at so far owns the queue and is due the message. */
  ghost predicate Served(h: Hub, done: set<Conn>, q: nat, msg: Message, isMember: Membership)
    requires q in h.queues
  {
    |h.queues[q].items| < QUEUE_CAPACITY &&
    exists c | c in h.clients :: c in done && h.clients[c].send == q && Eligible(h.clients[c], msg, isMember)
  }

  /** The queues once the clients in done have been served. */
  ghost function ServedQueues(h: Hub, done: set<Conn>, msg: Message, isMember: Membership): map<nat, Queue> {
    map q | q in h.queues ::
      if Served(h, done, q, msg, isMember) then h.queues[q].(items := h.queues[q].items + [msg]) else h.queues[q]
  }

  /** A non-blocking send to one client. */
  function PushOne(queues: map<nat, Queue>, c: Registration, msg: Message, isMember: Membership): map<nat, Queue>
    requires c.send in queues
  {
    if Eligible(c, msg, isMember) && |queues[c.send].items| < QUEUE_CAPACITY
    then queues[c.send := queues[c.send].(items := queues[c.send].items + [msg])] else queues
  }

  /** One turn of the loop, in terms of the clients still to be served. */
  lemma ServeOne(h: Hub, todo: set<Conn>, conn: Conn, msg: Message, isMember: Membership)
    requires OwnQueues(h) && todo <= h.clients.Keys && conn in todo
    ensures var before, c := ServedQueues(h, h.clients.Keys - todo, msg, isMember), h.clients[conn];
            c.send in before && ServedQueues(h, h.clients.Keys - (todo - {conn}), msg, isMember) ==
                PushOne(before, c, msg, isMember)
  {
  }

  /** A non-blocking send to one of the clients still to be served. */
  method ServeNext(h: Hub, before: map<nat, Queue>, todo: set<Conn>, msg: Message, isMember: Membership)
    returns (conn: Conn, queues: map<nat, Queue>)
    requires OwnQueues(h) && {} < todo <= h.clients.Keys
    requires before == ServedQueues(h, h.clients.Keys - todo, msg, isMember)
    ensures conn in todo && queues == ServedQueues(h, h.clients.Keys - (todo - {conn}), msg, isMember)
  {
    conn :| conn in todo;
    ServeOne(h, todo, conn, msg, isMember);
    queues := PushOne(before, h.clients[conn], msg, isMember);
  }

  /** Clients are served in whatever order the map yields them; a full queue drops the message. */
  method PushToClients(h: Hub, msg: Message, isMember: Membership) returns (queues: map<nat, Queue>)
    requires OwnQueues(h)
    ensures queues == Broadcast(h, msg, isMember).queues
  {
    queues := h.queues;
    var todo := h.clients.Keys;
    NoneAndAllServed(h, msg, isMember);
    while todo != {}
      invariant todo <= h.clients.Keys
      invariant queues == ServedQueues(h, h.clients.Keys - todo, msg, isMember)
      decreases |todo|
    {
      var conn;
      conn, queues := ServeNext(h, queues, todo, msg, isMember);
      todo := todo - {conn};
    }
  }

  lemma NoneAndAllServed(h: Hub, msg: Message, isMember: Membership)
    ensures ServedQueues(h, h.clients.Keys - h.clients.Keys, msg, isMember) == h.queues
    ensures ServedQueues(h, h.clients.Keys - {}, msg, isMember) == Broadcast(h, msg, isMember).queues
  {
  }

  class Node {
    const port: nat
    const store: Storage.Storage
    const isMember: Membership
    var clients: map<Conn, Registration>
    var queues: map<nat, Queue>
    var connectedClients: int
    var joins: nat
    var leaves: nat
    var unnamed: nat
    var panicked: bool
    var peers: map<Conn, int>
    var peerIDs: map<Conn, int>
    var remoteUsers: set<string>
    var isLeader: bool
    var leaderID: int

    function HubView(): Hub
      reads this
    {
      Hub(clients, queues, connectedClients, joins, leaves, unnamed, panicked)
    }

    function ElectorView(): Elections.Elector
      reads this
    {
      Elections.Elector(port, isLeader, leaderID, peerIDs)
    }

    constructor (port: nat, store: Storage.Storage, isMember: Membership)
      ensures HubView() == START && ElectorView() == Elections.Fresh(port)
      ensures clients == map[] && queues == map[] && connectedClients == 0 && !panicked
      ensures peers == map[] && peerIDs == map[] && !isLeader && leaderID == 0
      ensures remoteUsers == {} && this.port == port && this.store == store && this.isMember == isMember
    {
      this.port := port;
      this.store := store;
      this.isMember := isMember;
      clients, queues := map[], map[];
      connectedClients, joins, leaves, unnamed, panicked := 0, 0, 0, 0, false;
      peers, peerIDs, remoteUsers := map[], map[], {};
      isLeader, leaderID := false, 0;
    }

    // ---- Clients ----

    /** The notice is handed to the broadcast loop. */
    method RegisterClient(conn: Conn, user: string, send: nat, id: string, now: int) returns (notice: Message)
      modifies this
      ensures notice ==
              BLANK.(kind := Join, id := id, sender := "Server", channel := "general", timestamp := now,
                     content := "*** " + user + " has joined the chat ***" + [7 as char])
      ensures HubView() == Connections.Register(old(HubView()), conn, user, send)
      ensures ElectorView() == old(ElectorView()) && peers == old(peers) && remoteUsers == old(remoteUsers)
    {
      queues := queues[send := Queue([], 0)];
      clients := clients[conn := Registration(user, send, "general")];
      connectedClients := connectedClients + 1;
      joins := joins + 1;
      notice := BLANK.(kind := Join, id := id, sender := "Server", content := JoinText(user), channel := "general",
                       timestamp := now);
    }

    method UnregisterClient(conn: Conn, id: string, now: int) returns (notice: Option<Message>)
      modifies this
      ensures notice ==
              if conn in old(clients) && old(clients)[conn].user != "" && old(clients)[conn].user != "Connecting..."
              then Some(BLANK.(kind := Leave, id := id, sender := "Server", channel := "general", timestamp := now,
                               content := "*** " + old(clients)[conn].user + " has left the chat ***" + [7 as char]))
              else None
      ensures HubView() == Unregister(old(HubView()), conn)
      ensures var send := if conn in old(clients) then old(clients)[conn].send else 0;
              panicked == (old(panicked) ||
                  (conn in old(clients) && (send !in old(queues) || old(queues)[send].closes > 0)))
      ensures ElectorView() == old(ElectorView()) && peers == old(peers) && remoteUsers == old(remoteUsers)
    {
      notice := None;
      if conn in clients {
        var client := clients[conn];
        clients := clients - {conn};
        if client.send !in queues || queues[client.send].closes > 0 {
          panicked := true;
        } else {
          queues := queues[client.send := queues[client.send].(closes := 1)];
        }
        connectedClients := connectedClients - 1;
        if client.user != "" && client.user != "Connecting..." {
          leaves := leaves + 1;
          notice := Some(BLANK.(kind := Leave, id := id, sender := "Server", content := LeaveText(client.user),
                                channel := "general", timestamp := now));
        } else {
          unnamed := unnamed + 1;
        }
      }
    }

    method BroadcastToClients(msg: Message)
      requires OwnQueues(HubView())
      modifies this`queues
      ensures HubView() == Broadcast(old(HubView()), msg, isMember)
    {
      queues := PushToClients(HubView(), msg, isMember);
    }

    // ---- The broadcast loop ----

    /** One link per peer. */
    method BroadcastToPeers() returns (conns: set<Conn>)
      ensures conns == peers.Keys
    {
      conns := {};
      var todo := peers.Keys;
      while todo != {}
        invariant todo <= peers.Keys && conns == peers.Keys - todo
        decreases |todo|
      {
        var conn :| conn in todo;
        todo := todo - {conn};
        conns := conns + {conn};
      }
    }

    /** Saves, shows the message to clients, and names the links it is relayed on. */
    method HandleBroadcast(msg: Message, generated: string) returns (links: set<Conn>)
      requires OwnQueues(HubView())
      modifies this, store
      ensures store.View() ==
              if msg.kind == Chat || msg.kind == DirectMessage || msg.kind == Image
              then StoreModel.Save(old(store.View()), msg, generated).0 else old(store.View())
      ensures store.View() == Mesh.OriginStore(old(store.View()), msg, generated)
      ensures HubView() == Broadcast(old(HubView()), msg, isMember)
      ensures links == if msg.kind == DirectMessage || msg.kind == Typing then {} else peers.Keys
      ensures ElectorView() == old(ElectorView()) && peers == old(peers) && remoteUsers == old(remoteUsers)
    {
      if msg.kind == Chat || msg.kind == DirectMessage || msg.kind == Image {
        var ok := store.Save(msg, generated);
      }
      BroadcastToClients(msg);
      links := {};
      if msg.kind != DirectMessage && msg.kind != Typing {
        links := BroadcastToPeers();
      }
    }

    // ---- Peers ----

    /**
     * The dialling side relays on the link from now on and drops it if it then hears nothing for the timeout, but it
     * learns no port: its part in the election stays as it was, unlike that of the accepting side.
     */
    method DialPeer(conn: Conn, now: int)
      modifies this`peers
      ensures ElectorView() == old(ElectorView())
      ensures peers.Keys == old(peers).Keys + {conn} && forall c | c in old(peers) && c != conn ::
              peers[c] == old(peers)[c]
      ensures forall t :: conn in Expired(peers, t) <==> t - now > 15_000_000_000
    {
      peers := peers[conn := now];
    }

    method AcceptPeer(conn: Conn, handshake: string, now: int)
      modifies this`peers, this`peerIDs
      ensures peers == old(peers)[conn := now]
      ensures peerIDs == old(peerIDs)[conn := Elections.ParsePort(handshake)]
      ensures ElectorView() == Elections.Accept(old(ElectorView()), conn, handshake)
    {
      peers := peers[conn := now];
      peerIDs := peerIDs[conn := Elections.ParsePort(handshake)];
    }

    method PeerDisconnected(conn: Conn)
      modifies this`peers, this`peerIDs
      ensures peers == old(peers) - {conn} && peerIDs == old(peerIDs) - {conn}
      ensures ElectorView() == Elections.Gone(old(ElectorView()), conn)
    {
      peers := peers - {conn};
      peerIDs := peerIDs - {conn};
    }

    /** Drops exactly the peers that have been silent too long, and what their handshakes said. */
    method Monitor(now: int)
      modifies this`peers, this`peerIDs
      ensures forall c :: c in peers <==> c in old(peers) && now - old(peers)[c] <= 15_000_000_000
      ensures peers == old(peers) - Expired(old(peers), now)
      ensures ElectorView() == old(ElectorView()).(peerIDs := old(peerIDs) - Expired(old(peers), now))
    {
      var todo := peers.Keys;
      ghost var all, ids := peers, peerIDs;
      while todo != {}
        invariant todo <= all.Keys
        invariant peers == all - (Expired(all, now) - todo) && peerIDs == ids - (Expired(all, now) - todo)
        decreases |todo|
      {
        var conn :| conn in todo;
        assert conn in peers && peers[conn] == all[conn];
        if now - peers[conn] > PEER_TIMEOUT {
          assert Expired(all, now) - (todo - {conn}) == (Expired(all, now) - todo) + {conn};
          peers := peers - {conn};
          peerIDs := peerIDs - {conn};
        } else {
          assert Expired(all, now) - (todo - {conn}) == Expired(all, now) - todo;
        }
        todo := todo - {conn};
      }
      assert Expired(all, now) - {} == Expired(all, now);
    }

    method ElectionTick() returns (claim: Option<string>)
      modifies this`isLeader, this`leaderID
      ensures (ElectorView(), claim) == Elections.Tick(old(ElectorView()))
      ensures isLeader <==> forall c | c in peerIDs :: peerIDs[c] <= port
      ensures claim == if isLeader && !old(isLeader) then Some(Text.Print(port)) else None
      ensures leaderID == if isLeader && !old(isLeader) then port else old(leaderID)
    {
      var highest := true;
      var todo := peerIDs.Keys;
      while todo != {} && highest
        invariant todo <= peerIDs.Keys
        invariant highest <==> forall c | c in peerIDs && c !in todo :: peerIDs[c] <= port
        decreases |todo|
      {
        var conn :| conn in todo;
        todo := todo - {conn};
        if peerIDs[conn] > port {
          highest := false;
        }
      }
      assert highest <==> !Elections.Outranked(ElectorView());
      claim := None;
      if highest && !isLeader {
        isLeader := true;
        leaderID := port;
        claim := Some(Text.Print(port));
      } else if !highest && isLeader {
        isLeader := false;
      }
    }

    /** What a peer's message for the clients does to the store and to the list of users elsewhere. */
    method StorePeerMessage(msg: Message, generated: string)
      requires !Internal(msg.kind)
      modifies this`remoteUsers, store
      ensures store.View() == Mesh.PeerStore(old(store.View()), msg, generated)
      ensures store.View() ==
              match msg.kind
              case Chat => StoreModel.Save(old(store.View()), msg, generated).0
              case Join => StoreModel.Save(old(store.View()), msg, generated).0
              case Leave => StoreModel.Save(old(store.View()), msg, generated).0
              case Image => StoreModel.Save(old(store.View()), msg, generated).0
              case EditMessage => Update(old(store.View()), msg.id, msg.content).0
              case DeleteMessage => Delete(old(store.View()), msg.id).0
              case Reaction =>
                if msg.metadata == map[] then old(store.View())
                else React(old(store.View()), msg.id, msg.content, msg.sender).0
              case _ => old(store.View())
      ensures remoteUsers == RemoteUsers(old(remoteUsers), msg, None)
    {
      if msg.kind == Chat || msg.kind == Join || msg.kind == Leave || msg.kind == Image {
        if msg.kind == Join {
          var parts := Text.Split(msg.content, ' ');
          if |parts| >= 2 {
            remoteUsers := remoteUsers + {parts[1]};
          }
        } else if msg.kind == Leave {
          var parts := Text.Split(msg.content, ' ');
          if |parts| >= 2 {
            remoteUsers := remoteUsers - {parts[1]};
          }
        }
        var ok := store.Save(msg, generated);
      } else if msg.kind == EditMessage {
        var found := store.UpdateMessage(msg.id, msg.content);
      } else if msg.kind == DeleteMessage {
        var found := store.DeleteMessage(msg.id);
      } else if msg.kind == Reaction && msg.metadata != map[] {
        var found := store.AddReaction(msg.id, msg.content, msg.sender);
      }
    }

    /** Messages between nodes: a claim to lead, a request for history, a list of users. */
    method HandleInternal(conn: Conn, msg: Message, listed: Option<set<string>>) returns (sent: seq<(Conn, Message)>)
      requires Internal(msg.kind)
      modifies this`isLeader, this`leaderID, this`remoteUsers
      ensures var claimed := Elections.ParsePort(msg.content);
              leaderID == (if msg.kind == Coordinator && claimed > port then claimed else old(leaderID))
              && (isLeader <==> old(isLeader) && (msg.kind == Coordinator ==> claimed <= port))
      ensures ElectorView() == if msg.kind == Coordinator then Elections.OnCoordinator(old(ElectorView()), msg.content)
              else old(ElectorView())
      ensures remoteUsers == RemoteUsers(old(remoteUsers), msg, listed)
      ensures sent == if msg.kind == SyncRequest then Answers(conn, Filter(store.allMsgs, SentAfter(msg.timestamp)))
              else []
      ensures forall c, m :: (c, m) in sent <==>
              c == conn && msg.kind == SyncRequest && m in store.allMsgs && m.timestamp > msg.timestamp
    {
      sent := [];
      if msg.kind == Coordinator {
        var newLeaderID := Elections.ParsePort(msg.content);
        if newLeaderID > port {
          isLeader := false;
          leaderID := newLeaderID;
        }
      } else if msg.kind == SyncRequest {
        var history := store.GetMessagesAfter(msg.timestamp);
        AnswersMembers(conn, history);
        var i := 0;
        while i < |history|
          invariant 0 <= i <= |history| && sent == Answers(conn, history)[..i]
        {
          sent := sent + [(conn, history[i])];
          i := i + 1;
        }
      } else if msg.kind == UserSync && listed.Some? {
        remoteUsers := remoteUsers + listed.value;
      }
    }

    /**
     * What a peer sends is stored and shown here. It is never sent on: the only messages sent are the history that
     * the peer itself asked for, back to it.
     */
    method HandlePeerMessage(conn: Conn, msg: Message, now: int, generated: string, listed: Option<set<string>>)
      returns (sent: seq<(Conn, Message)>)
      requires OwnQueues(HubView())
      modifies this, store
      ensures store.View() == Mesh.PeerStore(old(store.View()), msg, generated)
      ensures HubView() ==
              if msg.kind == Heartbeat || msg.kind == Coordinator || msg.kind == SyncRequest || msg.kind == UserSync
              then old(HubView()) else Broadcast(old(HubView()), msg, isMember)
      ensures ElectorView() == if msg.kind == Coordinator then Elections.OnCoordinator(old(ElectorView()), msg.content)
              else old(ElectorView())
      ensures peers == old(peers)[conn := now]
      ensures remoteUsers == RemoteUsers(old(remoteUsers), msg, listed)
      ensures sent == if msg.kind == SyncRequest
              then Answers(conn, Filter(old(store.allMsgs), SentAfter(msg.timestamp))) else []
      ensures forall c, m :: (c, m) in sent <==>
              c == conn && msg.kind == SyncRequest && m in old(store.allMsgs) && m.timestamp > msg.timestamp
    {
      peers := peers[conn := now];
      if Internal(msg.kind) {
        sent := HandleInternal(conn, msg, listed);
      } else {
        StorePeerMessage(msg, generated);
        BroadcastToClients(msg);
        sent := [];
      }
    }
  }
}
