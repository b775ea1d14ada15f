/** Dissemination of messages through a full mesh whose links deliver in any order. */
module Mesh {
  import opened Protocol
  import opened Sequences
  import opened StoreModel

  predicate SavedAtOrigin(k: Kind) {
    k == Chat || k == DirectMessage || k == Image
  }

  predicate SavedAtPeer(k: Kind) {
    k == Chat || k == Join || k == Leave || k == Image
  }

  predicate Relayed(k: Kind) {
    k != DirectMessage && k != Typing
  }

  predicate Storable(k: Kind) {
    SavedAtOrigin(k) || SavedAtPeer(k)
  }

  /** What the broadcast loop does to the origin's store. */
  function OriginStore(st: Store, m: Message, generated: string): Store {
    if SavedAtOrigin(m.kind) then Save(st, m, generated).0 else st
  }

  /** What a message received from a peer does to the receiver's store. */
  function PeerStore(st: Store, m: Message, generated: string): Store {
    if SavedAtPeer(m.kind) then Save(st, m, generated).0
    else if m.kind == EditMessage then Update(st, m.id, m.content).0
    else if m.kind == DeleteMessage then Delete(st, m.id).0
    else if m.kind == Reaction && m.metadata != map[] then React(st, m.id, m.content, m.sender).0
    else st
  }

  datatype Packet = Packet(dest: nat, msg: Message)

  /** A request for history on its way to dest, to be answered to asker. */
  datatype Request = Request(dest: nat, asker: nat, since: int)

  /**
   * queued: messages waiting for a node's broadcast loop; sent: everything broadcast so far; answered: everything
   * sent in answer to requests for history so far.
   */
  datatype World = World(
    stores: map<nat, Store>,
    queued: multiset<Packet>,
    flight: multiset<Packet>,
    requests: multiset<Request>,
    sent: multiset<Message>,
    answered: multiset<Packet>)

  datatype Step =
    | SubmitStep(node: nat, msg: Message)
    | BroadcastStep(node: nat, msg: Message)
    | DeliverStep(node: nat, msg: Message)
    | AnswerStep(node: nat, asker: nat, since: int)
    | EditStep(node: nat, id: string, content: string)
    | DeleteStep(node: nat, id: string)
    | ReactStep(node: nat, id: string, emoji: string, user: string)

  /** The client loop and InjectMessage give every message an id, and name the channel of a Chat or Image. */
  predicate Submittable(m: Message) {
    m.id != "" && (m.kind == Chat || m.kind == Image ==> m.channel != "")
  }

  /** InjectMessage, up to handing over to the broadcast loop. */
  function Injected(m: Message, generated: string, now: int): Message {
    m.(id := if m.id == "" then generated else m.id,
       channel := if m.channel == "" then "general" else m.channel,
       timestamp := if m.timestamp == 0 then now else m.timestamp)
  }

  predicate Enabled(w: World, s: Step) {
    s.node in w.stores &&
    match s
    case SubmitStep(node, m) => Submittable(m)
    case BroadcastStep(node, m) => Packet(node, m) in w.queued
    case DeliverStep(node, m) => Packet(node, m) in w.flight
    case AnswerStep(node, asker, since) => Request(node, asker, since) in w.requests
    case _ => true
  }

  /** The copies of a broadcast, one for each other node; those of a request for history ask for answers instead. */
  ghost function Fan(nodes: set<nat>, origin: nat, m: Message): multiset<Packet> {
    if Relayed(m.kind) && m.kind != SyncRequest then multiset(set d | d in nodes && d != origin :: Packet(d, m))
        else multiset{}
  }

  ghost function Asks(nodes: set<nat>, origin: nat, m: Message): multiset<Request> {
    if m.kind == SyncRequest then multiset(set d | d in nodes && d != origin :: Request(d, origin, m.timestamp))
        else multiset{}
  }

  /** What a node sends in answer: the messages in memory later than the time. */
  function History(st: Store, since: int): seq<Message> {
    Filter(st.flat, SentAfter(since))
  }

  function Copies(dest: nat, msgs: seq<Message>): multiset<Packet> {
    if |msgs| == 0 then multiset{} else multiset{Packet(dest, msgs[0])} + Copies(dest, msgs[1..])
  }

  /** What a step does to its node's store; whatever is queued or under way has its id, so none is generated. */
  function StepStore(st: Store, s: Step): Store {
    match s
    case BroadcastStep(_, m) => OriginStore(st, m, "")
    case DeliverStep(_, m) => PeerStore(st, m, "")
    case EditStep(_, id, content) => Update(st, id, content).0
    case DeleteStep(_, id) => Delete(st, id).0
    case ReactStep(_, id, emoji, user) => React(st, id, emoji, user).0
    case _ => st
  }

  ghost function Next(w: World, s: Step): World
    requires Enabled(w, s)
  {
    var w1 := w.(stores := w.stores[s.node := StepStore(w.stores[s.node], s)]);
    match s
    case SubmitStep(n, m) => w1.(queued := w.queued + multiset{Packet(n, m)})
    case BroadcastStep(n, m) =>
      w1.(queued := w.queued - multiset{Packet(n, m)},
          flight := w.flight + Fan(w.stores.Keys, n, m),
          requests := w.requests + Asks(w.stores.Keys, n, m),
          sent := w.sent + multiset{m})
    case DeliverStep(n, m) => w1.(flight := w.flight - multiset{Packet(n, m)})
    case AnswerStep(n, asker, since) =>
      var copies := Copies(asker, History(w.stores[n], since));
      w1.(requests := w.requests - multiset{Request(n, asker, since)},
          flight := w.flight + copies, answered := w.answered + copies)
    case _ => w1
  }

  lemma NextStore(w: World, s: Step, n: nat)
    requires Enabled(w, s) && n in w.stores
    ensures n in Next(w, s).stores
    ensures Next(w, s).stores[n] == if n == s.node then StepStore(w.stores[n], s) else w.stores[n]
  {
  }

  ghost predicate Runs(w: World, steps: seq<Step>)
    decreases |steps|
  {
    |steps| == 0 || (Enabled(w, steps[0]) && Runs(Next(w, steps[0]), steps[1..]))
  }

  ghost function Run(w: World, steps: seq<Step>): World
    requires Runs(w, steps)
    decreases |steps|
  {
    if |steps| == 0 then w else Run(Next(w, steps[0]), steps[1..])
  }

  lemma NextKeepsNodes(w: World, s: Step)
    requires Enabled(w, s)
    ensures Next(w, s).stores.Keys == w.stores.Keys
  {
  }

  // ---- What travels ----

  ghost predicate GoodQueue(nodes: set<nat>, queued: multiset<Packet>) {
    forall p | p in queued :: p.dest in nodes && Submittable(p.msg)
  }

  ghost predicate GoodFlight(nodes: set<nat>, flight: multiset<Packet>, answered: multiset<Packet>) {
    forall p | p in flight ::
      p.dest in nodes && Submittable(p.msg) && p.msg.kind != Typing && (Relayed(p.msg.kind) || p in answered)
  }

  ghost predicate GoodRequests(nodes: set<nat>, requests: multiset<Request>) {
    forall r | r in requests :: r.dest in nodes && r.asker in nodes
  }

  predicate GoodMessage(m: Message) {
    Submittable(m) && Storable(m.kind)
  }

  predicate GoodStore(st: Store) {
    forall m | m in st.flat :: GoodMessage(m)
  }

  /** Everything queued, under way or in memory came through one of the entrances, to a node of the mesh. */
  ghost predicate WellAddressed(w: World) {
    GoodQueue(w.stores.Keys, w.queued) && GoodFlight(w.stores.Keys, w.flight, w.answered) &&
    GoodRequests(w.stores.Keys, w.requests) && forall n | n in w.stores :: GoodStore(w.stores[n])
  }

  lemma SaveGood(st: Store, m: Message)
    requires GoodStore(st) && GoodMessage(m)
    ensures GoodStore(Save(st, m, "").0)
  {
    PushSuffix(st.flat, Stamped(m, ""), st.cap);
    SuffixMembers(Push(st.flat, Stamped(m, ""), st.cap), st.flat + [Stamped(m, "")]);
  }

  lemma UpdateGood(st: Store, id: string, content: string)
    requires GoodStore(st)
    ensures GoodStore(Update(st, id, content).0)
  {
    var flat := EditFirst(st.flat, id, content);
    assert forall i | 0 <= i < |st.flat| ::
        st.flat[i] in st.flat && flat[i].kind == st.flat[i].kind && flat[i].id == st.flat[i].id &&
            flat[i].channel == st.flat[i].channel;
  }

  lemma DeleteGood(st: Store, id: string)
    requires GoodStore(st)
    ensures GoodStore(Delete(st, id).0)
  {
  }

  lemma ReactGood(st: Store, id: string, emoji: string, user: string)
    requires GoodStore(st)
    ensures GoodStore(React(st, id, emoji, user).0)
  {
    var flat := React(st, id, emoji, user).0.flat;
    assert forall i | 0 <= i < |st.flat| ::
        st.flat[i] in st.flat && flat[i].kind == st.flat[i].kind && flat[i].id == st.flat[i].id &&
            flat[i].channel == st.flat[i].channel;
  }

  lemma PeerGood(st: Store, m: Message)
    requires GoodStore(st) && Submittable(m)
    ensures GoodStore(PeerStore(st, m, ""))
  {
    if SavedAtPeer(m.kind) {
      SaveGood(st, m);
    } else if m.kind == EditMessage {
      UpdateGood(st, m.id, m.content);
    } else if m.kind == DeleteMessage {
      DeleteGood(st, m.id);
    } else {
      ReactGood(st, m.id, m.content, m.sender);
    }
  }

  lemma StepGood(st: Store, s: Step)
    requires GoodStore(st) && ((s.BroadcastStep? || s.DeliverStep?) ==> Submittable(s.msg))
    ensures GoodStore(StepStore(st, s))
  {
    match s
    case BroadcastStep(_, m) => if SavedAtOrigin(m.kind) { SaveGood(st, m); }
    case DeliverStep(_, m) => PeerGood(st, m);
    case EditStep(_, id, content) => UpdateGood(st, id, content);
    case DeleteStep(_, id) => DeleteGood(st, id);
    case ReactStep(_, id, emoji, user) => ReactGood(st, id, emoji, user);
    case _ =>
  }

  lemma NextStores(w: World, s: Step)
    requires Enabled(w, s) && WellAddressed(w)
    ensures forall n | n in Next(w, s).stores :: GoodStore(Next(w, s).stores[n])
  {
    NextKeepsNodes(w, s);
    StepGood(w.stores[s.node], s);
    forall n | n in Next(w, s).stores ensures GoodStore(Next(w, s).stores[n]) {
      NextStore(w, s, n);
    }
  }

  lemma {:induction false} CopiesCount(dest: nat, msgs: seq<Message>, n: nat, x: Message)
    ensures Copies(dest, msgs)[Packet(n, x)] == if n == dest then multiset(msgs)[x] else 0
    ensures |Copies(dest, msgs)| == |msgs|
    ensures forall p | p in Copies(dest, msgs) :: p.dest == dest && p.msg in msgs
  {
    if |msgs| > 0 {
      CopiesCount(dest, msgs[1..], n, x);
      assert msgs == [msgs[0]] + msgs[1..];
    }
  }

  lemma CopiesGood(nodes: set<nat>, asker: nat, msgs: seq<Message>)
    requires asker in nodes && forall m | m in msgs :: GoodMessage(m)
    ensures GoodFlight(nodes, Copies(asker, msgs), Copies(asker, msgs))
  {
    forall p | p in Copies(asker, msgs) ensures p.dest == asker && GoodMessage(p.msg) {
      CopiesCount(asker, msgs, p.dest, p.msg);
    }
  }

  lemma GoodUnion(nodes: set<nat>, flight: multiset<Packet>, answered: multiset<Packet>, more: multiset<Packet>)
    requires GoodFlight(nodes, flight, answered) && GoodFlight(nodes, more, more)
    ensures GoodFlight(nodes, flight + more, answered + more)
  {
  }

  lemma AnswerAddressed(nodes: set<nat>, flight: multiset<Packet>, answered: multiset<Packet>, asker: nat, st: Store,
      since: int)
    requires GoodFlight(nodes, flight, answered) && asker in nodes && GoodStore(st)
    ensures var copies := Copies(asker, History(st, since)); GoodFlight(nodes, flight + copies, answered + copies)
  {
    FilterMembers(st.flat, SentAfter(since));
    CopiesGood(nodes, asker, History(st, since));
    GoodUnion(nodes, flight, answered, Copies(asker, History(st, since)));
  }

  lemma BroadcastAddressed(w: World, o: nat, m: Message)
    requires WellAddressed(w) && Submittable(m) && o in w.stores
    ensures GoodFlight(w.stores.Keys, w.flight + Fan(w.stores.Keys, o, m), w.answered)
    ensures GoodRequests(w.stores.Keys, w.requests + Asks(w.stores.Keys, o, m))
  {
  }

  lemma LessGood(nodes: set<nat>, flight: multiset<Packet>, answered: multiset<Packet>, p: Packet)
    ensures GoodFlight(nodes, flight, answered) ==> GoodFlight(nodes, flight - multiset{p}, answered)
    ensures GoodQueue(nodes, flight) ==> GoodQueue(nodes, flight - multiset{p})
  {
  }

  lemma NextAddressed(w: World, s: Step)
    requires Enabled(w, s) && WellAddressed(w)
    ensures WellAddressed(Next(w, s)) && Next(w, s).stores.Keys == w.stores.Keys
  {
    NextKeepsNodes(w, s);
    NextStores(w, s);
    var nodes := w.stores.Keys;
    if s.SubmitStep? {
      assert GoodQueue(nodes, w.queued + multiset{Packet(s.node, s.msg)});
    } else if s.BroadcastStep? {
      BroadcastAddressed(w, s.node, s.msg);
      LessGood(nodes, w.queued, w.answered, Packet(s.node, s.msg));
    } else if s.DeliverStep? {
      LessGood(nodes, w.flight, w.answered, Packet(s.node, s.msg));
    } else if s.AnswerStep? {
      assert Request(s.node, s.asker, s.since) in w.requests;
      AnswerAddressed(nodes, w.flight, w.answered, s.asker, w.stores[s.node], s.since);
    }
  }

  // ---- Exactly once ----

  /** The messages every node keeps: chat and images that Save accepts. */
  predicate Kept(m: Message) {
    (m.kind == Chat || m.kind == Image) && |m.content| <= MAX_MESSAGE_SIZE
  }

  ghost function SavedCopies(st: Store, m: Message): nat {
    multiset(Records(st.log))[m]
  }

  /**
   * Copies of a message saved at a node or on their way to it, less those broadcast and those sent to it in
   * answers.
   */
  ghost function Balance(w: World, n: nat, m: Message): int
    requires n in w.stores
  {
    SavedCopies(w.stores[n], m) + w.flight[Packet(n, m)] - w.sent[m] - w.answered[Packet(n, m)]
  }

  lemma SavedOnce(st: Store, m: Message, x: Message)
    requires Submittable(m) && Kept(x)
    ensures SavedCopies(Save(st, m, "").0, x) == SavedCopies(st, x) + if m == x then 1 else 0
  {
    if |m.content| <= MAX_MESSAGE_SIZE {
      var stored := Stamped(m, "");
      RecordsConcat(st.log, [Record(stored)]);
      assert Records([Record(stored)]) == [stored];
      assert Records(Save(st, m, "").0.log) == Records(st.log) + [stored];
      assert stored == x <==> m == x;
    }
  }

  lemma OriginSaves(st: Store, m: Message, x: Message)
    requires Submittable(m) && Kept(x)
    ensures SavedCopies(OriginStore(st, m, ""), x) == SavedCopies(st, x) + if m == x then 1 else 0
  {
    if SavedAtOrigin(m.kind) { SavedOnce(st, m, x); }
  }

  /** Saving is the only part of a delivery that writes the log. */
  lemma PeerLog(st: Store, m: Message)
    ensures PeerStore(st, m, "").log == if SavedAtPeer(m.kind) then Save(st, m, "").0.log else st.log
  {
  }

  lemma PeerSaves(st: Store, m: Message, x: Message)
    requires Submittable(m) && Kept(x)
    ensures SavedCopies(PeerStore(st, m, ""), x) == SavedCopies(st, x) + if m == x then 1 else 0
  {
    PeerLog(st, m);
    if SavedAtPeer(m.kind) { SavedOnce(st, m, x); }
  }

  lemma FanCopies(nodes: set<nat>, origin: nat, m: Message, n: nat, x: Message)
    requires n in nodes && Kept(x)
    ensures Fan(nodes, origin, m)[Packet(n, x)] == if m == x && n != origin then 1 else 0
  {
  }

  lemma BroadcastConserves(w: World, o: nat, m: Message, n: nat, x: Message)
    requires Enabled(w, BroadcastStep(o, m)) && Submittable(m) && n in w.stores && Kept(x)
    ensures Balance(Next(w, BroadcastStep(o, m)), n, x) == Balance(w, n, x)
  {
    FanCopies(w.stores.Keys, o, m, n, x);
    OriginSaves(w.stores[o], m, x);
  }

  lemma DeliverConserves(w: World, o: nat, m: Message, n: nat, x: Message)
    requires Enabled(w, DeliverStep(o, m)) && Submittable(m) && n in w.stores && Kept(x)
    ensures Balance(Next(w, DeliverStep(o, m)), n, x) == Balance(w, n, x)
  {
    PeerSaves(w.stores[o], m, x);
  }

  /** Submissions send nothing, answers are booked as such, and commands do not write the log. */
  lemma LocalConserves(w: World, s: Step, n: nat, x: Message)
    requires Enabled(w, s) && !s.BroadcastStep? && !s.DeliverStep? && n in w.stores
    ensures n in Next(w, s).stores && Balance(Next(w, s), n, x) == Balance(w, n, x)
  {
    NextStore(w, s, n);
    CommandLog(w.stores[n], s);
  }

  lemma CommandLog(st: Store, s: Step)
    requires !s.BroadcastStep? && !s.DeliverStep?
    ensures StepStore(st, s).log == st.log
  {
  }

  lemma NextConserves(w: World, s: Step, n: nat, x: Message)
    requires Enabled(w, s) && WellAddressed(w) && n in w.stores && Kept(x)
    ensures n in Next(w, s).stores && Balance(Next(w, s), n, x) == Balance(w, n, x)
  {
    NextKeepsNodes(w, s);
    if s.BroadcastStep? {
      BroadcastConserves(w, s.node, s.msg, n, x);
    } else if s.DeliverStep? {
      DeliverConserves(w, s.node, s.msg, n, x);
    } else {
      LocalConserves(w, s, n, x);
    }
  }

  lemma {:induction false} RunAddressed(w: World, steps: seq<Step>)
    requires Runs(w, steps) && WellAddressed(w)
    ensures WellAddressed(Run(w, steps)) && Run(w, steps).stores.Keys == w.stores.Keys
    decreases |steps|
  {
    if |steps| > 0 {
      NextAddressed(w, steps[0]);
      RunAddressed(Next(w, steps[0]), steps[1..]);
    }
  }

  /** Over any run, at every node: copies saved and on their way grow by exactly the copies broadcast and answered. */
  lemma {:induction false} RunConserves(w: World, steps: seq<Step>, n: nat, x: Message)
    requires Runs(w, steps) && WellAddressed(w) && n in w.stores && Kept(x)
    ensures n in Run(w, steps).stores && Balance(Run(w, steps), n, x) == Balance(w, n, x)
    decreases |steps|
  {
    if |steps| > 0 {
      NextAddressed(w, steps[0]);
      NextConserves(w, steps[0], n, x);
      RunConserves(Next(w, steps[0]), steps[1..], n, x);
    }
  }

  /** How often the run answers a request of n with a history that has the message in it. */
  ghost function AnswerCount(w: World, steps: seq<Step>, n: nat, x: Message): nat
    requires Runs(w, steps)
    decreases |steps|
  {
    if |steps| == 0 then 0
    else
      var s := steps[0];
      (if s.AnswerStep? && s.asker == n then multiset(History(w.stores[s.node], s.since))[x] else 0) +
      AnswerCount(Next(w, s), steps[1..], n, x)
  }

  lemma {:induction false} AnsweredIsCount(w: World, steps: seq<Step>, n: nat, x: Message)
    requires Runs(w, steps)
    ensures Run(w, steps).answered[Packet(n, x)] == w.answered[Packet(n, x)] + AnswerCount(w, steps, n, x)
    decreases |steps|
  {
    if |steps| > 0 {
      var s := steps[0];
      if s.AnswerStep? { CopiesCount(s.asker, History(w.stores[s.node], s.since), n, x); }
      AnsweredIsCount(Next(w, s), steps[1..], n, x);
    }
  }

  /** A mesh just started: nothing queued or under way yet; its logs and memories may hold earlier messages. */
  ghost predicate Start(w: World) {
    w.queued == w.flight == w.answered == multiset{} && w.requests == multiset{} && w.sent == multiset{} &&
    forall n | n in w.stores :: GoodStore(w.stores[n])
  }

  /** What a run has added at a node, saved or on its way, beyond what the node's log held at the start. */
  ghost function Arrivals(w: World, w': World, n: nat, m: Message): int
    requires n in w.stores && n in w'.stores
  {
    SavedCopies(w'.stores[n], m) - SavedCopies(w.stores[n], m) + w'.flight[Packet(n, m)]
  }

  lemma ArrivalsCounted(w: World, steps: seq<Step>, n: nat, m: Message)
    requires Start(w) && Runs(w, steps) && n in w.stores && Kept(m)
    ensures n in Run(w, steps).stores
    ensures Arrivals(w, Run(w, steps), n, m) == Run(w, steps).sent[m] + AnswerCount(w, steps, n, m)
  {
    RunConserves(w, steps, n, m);
    AnsweredIsCount(w, steps, n, m);
  }

  /**
   * In any run, once a message was broadcast once, every node has saved it or has a copy coming, and exactly one
   * exactly if no request for history of that node was answered with it.
   */
  lemma ExactlyOnceIff(w: World, steps: seq<Step>, n: nat, m: Message)
    requires Start(w) && Runs(w, steps) && n in w.stores && Kept(m) && Run(w, steps).sent[m] == 1
    ensures n in Run(w, steps).stores && Arrivals(w, Run(w, steps), n, m) >= 1
    ensures Arrivals(w, Run(w, steps), n, m) == 1 <==> AnswerCount(w, steps, n, m) == 0
  {
    ArrivalsCounted(w, steps, n, m);
  }

  /** An answer saves a message again, whether or not it was saved before. */
  lemma AnswerSavesAgain(w: World, node: nat, asker: nat, since: int, m: Message)
    requires WellAddressed(w) && Enabled(w, AnswerStep(node, asker, since)) && asker in w.stores
    requires m in History(w.stores[node], since) && Kept(m)
    ensures var w1 := Next(w, AnswerStep(node, asker, since));
            Enabled(w1, DeliverStep(asker, m)) && asker in Next(w1, DeliverStep(asker, m)).stores &&
            SavedCopies(Next(w1, DeliverStep(asker, m)).stores[asker], m) == SavedCopies(w.stores[asker], m) + 1
  {
    var w1 := Next(w, AnswerStep(node, asker, since));
    CopiesCount(asker, History(w.stores[node], since), asker, m);
    NextStore(w, AnswerStep(node, asker, since), asker);
    NextStore(w1, DeliverStep(asker, m), asker);
    FilterMembers(w.stores[node].flat, SentAfter(since));
    PeerSaves(w.stores[asker], m, m);
  }

  predicate NoRequests(steps: seq<Step>) {
    forall s | s in steps && s.SubmitStep? :: s.msg.kind != SyncRequest
  }

  /** Without requests for history nothing is answered. */
  lemma {:induction false} NothingAnswered(w: World, steps: seq<Step>, n: nat, m: Message)
    requires Runs(w, steps) && NoRequests(steps) && w.requests == multiset{}
    requires forall p | p in w.queued :: p.msg.kind != SyncRequest
    ensures AnswerCount(w, steps, n, m) == 0
    decreases |steps|
  {
    if |steps| > 0 {
      assert steps[0] in steps && forall s | s in steps[1..] :: s in steps;
      NothingAnswered(Next(w, steps[0]), steps[1..], n, m);
    }
  }

  /** So nodes that never ask for history save each chat or image broadcast once exactly once. */
  lemma ExactlyOnce(w: World, steps: seq<Step>, n: nat, m: Message)
    requires Start(w) && Runs(w, steps) && n in w.stores && Kept(m) && Run(w, steps).sent[m] == 1 && NoRequests(steps)
    ensures n in Run(w, steps).stores && Arrivals(w, Run(w, steps), n, m) == 1
  {
    NothingAnswered(w, steps, n, m);
    ExactlyOnceIff(w, steps, n, m);
  }

  // ---- Every kind of message ----

  /** How often the run brings the message to the node from a peer. */
  function Delivered(steps: seq<Step>, n: nat, m: Message): nat {
    if |steps| == 0 then 0 else (if steps[0] == DeliverStep(n, m) then 1 else 0) + Delivered(steps[1..], n, m)
  }

  /** How often a node other than n broadcasts the message. */
  function BroadcastElsewhere(steps: seq<Step>, n: nat, m: Message): nat {
    if |steps| == 0 then 0
    else
      (if steps[0].BroadcastStep? && steps[0].node != n && steps[0].msg == m then 1 else 0) +
      BroadcastElsewhere(steps[1..], n, m)
  }

  lemma TravelStep(w: World, s: Step, n: nat, m: Message)
    requires Enabled(w, s) && n in w.stores
    ensures Next(w, s).flight[Packet(n, m)] + Delivered([s], n, m) ==
            w.flight[Packet(n, m)] + AnswerCount(w, [s], n, m) +
            if m.kind != DirectMessage && m.kind != Typing && m.kind != SyncRequest
            then BroadcastElsewhere([s], n, m) else 0
  {
    assert [s][1..] == [];
    match s
    case BroadcastStep(o, x) => FanCount(w.stores.Keys, o, x, n, m);
    case AnswerStep(o, asker, since) => CopiesCount(asker, History(w.stores[o], since), n, m);
    case _ =>
  }

  lemma FanCount(nodes: set<nat>, o: nat, x: Message, n: nat, m: Message)
    requires n in nodes
    ensures Fan(nodes, o, x)[Packet(n, m)] ==
            if x == m && o != n && m.kind != DirectMessage && m.kind != Typing && m.kind != SyncRequest then 1 else 0
  {
  }

  /**
   * Over every run, for every message and node: the copies that have come or are on their way are one for each
   * broadcast at another node, but for direct messages, typing notices and requests for history, of which there is
   * none, and those sent in answers.
   */
  lemma {:induction false} Disseminated(w: World, steps: seq<Step>, n: nat, m: Message)
    requires Runs(w, steps) && n in w.stores
    ensures Run(w, steps).flight[Packet(n, m)] + Delivered(steps, n, m) ==
            w.flight[Packet(n, m)] + AnswerCount(w, steps, n, m) +
            if m.kind != DirectMessage && m.kind != Typing && m.kind != SyncRequest
            then BroadcastElsewhere(steps, n, m) else 0
    decreases |steps|
  {
    if |steps| > 0 {
      var w1 := Next(w, steps[0]);
      NextKeepsNodes(w, steps[0]);
      TravelStep(w, steps[0], n, m);
      Disseminated(w1, steps[1..], n, m);
      assert AnswerCount(w1, [], n, m) == 0;
      AnswerFirst(w, steps, n, m);
    }
  }

  lemma AnswerFirst(w: World, steps: seq<Step>, n: nat, m: Message)
    requires Runs(w, steps) && |steps| > 0
    ensures Runs(w, [steps[0]])
    ensures AnswerCount(w, steps, n, m) ==
            AnswerCount(w, [steps[0]], n, m) + AnswerCount(Next(w, steps[0]), steps[1..], n, m)
  {
    assert [steps[0]][1..] == [];
  }

  /** How often o, a node other than n, broadcasts a request for the history since then. */
  function Asked(steps: seq<Step>, n: nat, o: nat, since: int): nat {
    if |steps| == 0 then 0
    else
      (if steps[0].BroadcastStep? && steps[0].node == o && o != n &&
          steps[0].msg.kind == SyncRequest && steps[0].msg.timestamp == since then 1 else 0) +
      Asked(steps[1..], n, o, since)
  }

  function Answered(steps: seq<Step>, n: nat, o: nat, since: int): nat {
    if |steps| == 0 then 0
    else (if steps[0] == AnswerStep(n, o, since) then 1 else 0) + Answered(steps[1..], n, o, since)
  }

  lemma AsksCount(nodes: set<nat>, o: nat, x: Message, n: nat, asker: nat, since: int)
    requires n in nodes
    ensures Asks(nodes, o, x)[Request(n, asker, since)] ==
            if x.kind == SyncRequest && x.timestamp == since && asker == o && o != n then 1 else 0
  {
  }

  /** Over every run each request for history reaches every other node, to be answered there once. */
  lemma {:induction false} RequestsReach(w: World, steps: seq<Step>, n: nat, o: nat, since: int)
    requires Runs(w, steps) && n in w.stores
    ensures Run(w, steps).requests[Request(n, o, since)] + Answered(steps, n, o, since) ==
            w.requests[Request(n, o, since)] + Asked(steps, n, o, since)
    decreases |steps|
  {
    if |steps| > 0 {
      NextKeepsNodes(w, steps[0]);
      if steps[0].BroadcastStep? { AsksCount(w.stores.Keys, steps[0].node, steps[0].msg, n, o, since); }
      RequestsReach(Next(w, steps[0]), steps[1..], n, o, since);
    }
  }

  /** How often the step saves the message at the node: its own broadcasts and what peers send it are saved by kind. */
  predicate SavesIt(s: Step, n: nat, x: Message) {
    (s.BroadcastStep? || s.DeliverStep?) && s.node == n &&
    s.msg.(channel := if s.msg.channel == "" then "general" else s.msg.channel) == x && |x.content| <= 1024 * 1024 &&
    (s.BroadcastStep? ==> x.kind == Chat || x.kind == DirectMessage || x.kind == Image) &&
    (s.DeliverStep? ==> x.kind == Chat || x.kind == Join || x.kind == Leave || x.kind == Image)
  }

  function SaveCount(steps: seq<Step>, n: nat, x: Message): nat {
    if |steps| == 0 then 0 else (if SavesIt(steps[0], n, x) then 1 else 0) + SaveCount(steps[1..], n, x)
  }

  lemma LogGains(st: Store, m: Message, x: Message)
    requires m.id != ""
    ensures SavedCopies(Save(st, m, "").0, x) == SavedCopies(st, x) +
            if |m.content| <= 1024 * 1024 && m.(channel := if m.channel == "" then "general" else m.channel) == x
            then 1 else 0
  {
    if |m.content| <= MAX_MESSAGE_SIZE {
      RecordsConcat(st.log, [Record(Stamped(m, ""))]);
      assert Records([Record(Stamped(m, ""))]) == [Stamped(m, "")];
      assert Records(Save(st, m, "").0.log) == Records(st.log) + [Stamped(m, "")];
    }
  }

  lemma StepSaves(st: Store, s: Step, x: Message)
    requires (s.BroadcastStep? || s.DeliverStep?) ==> Submittable(s.msg)
    ensures SavedCopies(StepStore(st, s), x) == SavedCopies(st, x) + if SavesIt(s, s.node, x) then 1 else 0
  {
    if s.BroadcastStep? {
      if SavedAtOrigin(s.msg.kind) { LogGains(st, s.msg, x); }
    } else if s.DeliverStep? {
      PeerLog(st, s.msg);
      if SavedAtPeer(s.msg.kind) { LogGains(st, s.msg, x); }
    } else {
      CommandLog(st, s);
    }
  }

  lemma SaveStep(w: World, s: Step, n: nat, x: Message)
    requires Enabled(w, s) && WellAddressed(w) && n in w.stores
    ensures n in Next(w, s).stores
    ensures SavedCopies(Next(w, s).stores[n], x) == SavedCopies(w.stores[n], x) + if SavesIt(s, n, x) then 1 else 0
  {
    NextStore(w, s, n);
    if s.BroadcastStep? { assert Packet(s.node, s.msg) in w.queued; }
    if s.DeliverStep? { assert Packet(s.node, s.msg) in w.flight; }
    if n == s.node { StepSaves(w.stores[n], s, x); }
  }

  /**
   * Over every run a node's log gains a message once for each own broadcast of it as a chat, image or direct message,
   * and once for each time a peer sends it as a chat, image, join or leave; its channel is named if it was not.
   */
  lemma {:induction false} LogsGrow(w: World, steps: seq<Step>, n: nat, x: Message)
    requires Runs(w, steps) && WellAddressed(w) && n in w.stores
    ensures n in Run(w, steps).stores
    ensures SavedCopies(Run(w, steps).stores[n], x) == SavedCopies(w.stores[n], x) + SaveCount(steps, n, x)
    decreases |steps|
  {
    if |steps| > 0 {
      NextAddressed(w, steps[0]);
      SaveStep(w, steps[0], n, x);
      LogsGrow(Next(w, steps[0]), steps[1..], n, x);
    }
  }

  // ---- It ends, and then all nodes agree ----

  /** No node has more than limit messages in memory. */
  ghost predicate Within(w: World, limit: nat) {
    forall n | n in w.stores :: |w.stores[n].flat| <= w.stores[n].cap <= limit
  }

  lemma StepWithin(st: Store, s: Step)
    requires |st.flat| <= st.cap
    ensures |StepStore(st, s).flat| <= StepStore(st, s).cap == st.cap
  {
  }

  lemma NextWithin(w: World, s: Step, limit: nat)
    requires Enabled(w, s) && Within(w, limit)
    ensures Within(Next(w, s), limit)
  {
    NextKeepsNodes(w, s);
    forall n | n in Next(w, s).stores ensures |Next(w, s).stores[n].flat| <= Next(w, s).stores[n].cap <= limit {
      NextStore(w, s, n);
      StepWithin(w.stores[n], s);
    }
  }

  function Product(a: nat, b: nat): nat {
    a * b
  }

  /** A broadcast makes a copy or a request for each other node, and a request makes at most limit copies. */
  ghost function Work(w: World, limit: nat): nat {
    Product(Product(|w.stores|, limit + 1), |w.queued|) + Product(limit + 1, |w.requests|) + |w.flight|
  }

  predicate Progresses(s: Step) {
    s.BroadcastStep? || s.DeliverStep? || s.AnswerStep?
  }

  lemma {:induction false} Injection<T>(dests: set<nat>, f: nat -> T)
    requires forall a, b | a in dests && b in dests && a != b :: f(a) != f(b)
    ensures |set d | d in dests :: f(d)| == |dests|
  {
    if dests != {} {
      var d :| d in dests;
      Injection(dests - {d}, f);
      assert (set x | x in dests :: f(x)) == (set x | x in dests - {d} :: f(x)) + {f(d)};
    }
  }

  lemma FanSize(nodes: set<nat>, origin: nat, m: Message)
    requires origin in nodes
    ensures |Fan(nodes, origin, m)| + |Asks(nodes, origin, m)| < |nodes|
  {
    var others := nodes - {origin};
    var packet, request := (d: nat) => Packet(d, m), (d: nat) => Request(d, origin, m.timestamp);
    Injection(others, packet);
    Injection(others, request);
    assert forall d: nat :: packet(d) == Packet(d, m) && request(d) == Request(d, origin, m.timestamp);
    assert (set d | d in nodes && d != origin :: Packet(d, m)) == set d | d in others :: packet(d);
    assert (set d | d in nodes && d != origin :: Request(d, origin, m.timestamp)) == set d | d in others :: request(d);
  }

  lemma Times(c: nat, a: int, b: int)
    ensures c * (a + b) == c * a + c * b
  {
  }

  lemma TimesOrdered(c: nat, a: int, b: int)
    requires a <= b
    ensures c * a <= c * b
  {
  }

  lemma OneBroadcastLess(nodes: nat, limit: nat, queued: nat, requests: nat, flight: nat, asks: nat, fan: nat)
    requires queued > 0 && asks + fan < nodes
    ensures Product(Product(nodes, limit + 1), queued - 1) + Product(limit + 1, requests + asks) + (flight + fan) <
            Product(Product(nodes, limit + 1), queued) + Product(limit + 1, requests) + flight
  {
    var c := limit + 1;
    Times(nodes * c, queued, -1);
    Times(c, requests, asks);
    Times(c, asks, fan);
    TimesOrdered(c, asks + fan, nodes - 1);
    Times(c, nodes, -1);
    TimesOrdered(fan, 1, c);
  }

  lemma OneAnswerLess(limit: nat, requests: nat, answers: nat)
    requires requests > 0 && answers <= limit
    ensures (limit + 1) * (requests - 1) + answers < (limit + 1) * requests
  {
  }

  lemma SameSize<K, V>(a: map<K, V>, b: map<K, V>)
    requires a.Keys == b.Keys
    ensures |a| == |b|
  {
  }

  lemma BroadcastWork(w: World, w': World, o: nat, m: Message, limit: nat)
    requires Enabled(w, BroadcastStep(o, m)) && w'.stores.Keys == w.stores.Keys
    requires w'.queued == w.queued - multiset{Packet(o, m)} && w'.flight == w.flight + Fan(w.stores.Keys, o, m)
    requires w'.requests == w.requests + Asks(w.stores.Keys, o, m)
    ensures Work(w', limit) < Work(w, limit)
  {
    FanSize(w.stores.Keys, o, m);
    SameSize(w.stores, w'.stores);
    assert |w'.queued| == |w.queued| - 1 && |w'.flight| == |w.flight| + |Fan(w.stores.Keys, o, m)| &&
           |w'.requests| == |w.requests| + |Asks(w.stores.Keys, o, m)|;
    OneBroadcastLess(|w.stores|, limit, |w.queued|, |w.requests|, |w.flight|,
                     |Asks(w.stores.Keys, o, m)|, |Fan(w.stores.Keys, o, m)|);
  }

  lemma AnswerWork(w: World, w': World, r: Request, limit: nat)
    requires r in w.requests && r.dest in w.stores && Within(w, limit) && w'.stores == w.stores && w'.queued == w.queued
    requires w'.requests == w.requests - multiset{r} &&
             w'.flight == w.flight + Copies(r.asker, History(w.stores[r.dest], r.since))
    ensures Work(w', limit) < Work(w, limit)
  {
    var history := History(w.stores[r.dest], r.since);
    if history != [] { CopiesCount(r.asker, history, r.asker, history[0]); }
    assert |w'.requests| == |w.requests| - 1;
    OneAnswerLess(limit, |w.requests|, |history|);
  }

  /** Received messages are not forwarded: every broadcast, delivery and answer uses work up. */
  lemma WorkShrinks(w: World, s: Step, limit: nat)
    requires Enabled(w, s) && !s.SubmitStep? && Within(w, limit)
    ensures Progresses(s) ==> Work(Next(w, s), limit) < Work(w, limit)
    ensures !Progresses(s) ==> Work(Next(w, s), limit) == Work(w, limit)
  {
    NextKeepsNodes(w, s);
    if s.BroadcastStep? {
      BroadcastWork(w, Next(w, s), s.node, s.msg, limit);
    } else if s.AnswerStep? {
      AnswerWork(w, Next(w, s), Request(s.node, s.asker, s.since), limit);
    } else {
      SameSize(w.stores, Next(w, s).stores);
    }
  }

  ghost function ProgressCount(steps: seq<Step>): nat {
    if |steps| == 0 then 0 else (if Progresses(steps[0]) then 1 else 0) + ProgressCount(steps[1..])
  }

  /**
   * Without new submissions, the broadcasts, deliveries and answers of any run are bounded by the work at its
   * start.
   */
  lemma {:induction false} Drains(w: World, steps: seq<Step>, limit: nat)
    requires Runs(w, steps) && Within(w, limit) && forall s | s in steps :: !s.SubmitStep?
    ensures ProgressCount(steps) + Work(Run(w, steps), limit) <= Work(w, limit)
    decreases |steps|
  {
    if |steps| > 0 {
      assert steps[0] in steps;
      WorkShrinks(w, steps[0], limit);
      NextWithin(w, steps[0], limit);
      Drains(Next(w, steps[0]), steps[1..], limit);
    }
  }

  ghost predicate Quiescent(w: World) {
    w.queued == multiset{} && w.flight == multiset{} && w.requests == multiset{}
  }

  /**
   * When nothing is queued or under way, each node has saved every chat and image as often as it was broadcast and
   * answered to it: two nodes equally often exactly if their requests were answered with it equally often.
   */
  lemma NodesAgreeAtQuiescenceIff(w: World, steps: seq<Step>, a: nat, b: nat, m: Message)
    requires Start(w) && Runs(w, steps) && Quiescent(Run(w, steps)) && a in w.stores && b in w.stores && Kept(m)
    ensures a in Run(w, steps).stores && b in Run(w, steps).stores
    ensures var w' := Run(w, steps);
            var savedA := SavedCopies(w'.stores[a], m) - SavedCopies(w.stores[a], m);
            var savedB := SavedCopies(w'.stores[b], m) - SavedCopies(w.stores[b], m);
            && savedA == w'.sent[m] + AnswerCount(w, steps, a, m)
            && (savedA == savedB <==> AnswerCount(w, steps, a, m) == AnswerCount(w, steps, b, m))
  {
    ArrivalsCounted(w, steps, a, m);
    ArrivalsCounted(w, steps, b, m);
  }

  /** An unfinished mesh can always make progress: some broadcast, delivery or answer is enabled. */
  lemma NotStuck(w: World) returns (s: Step)
    requires WellAddressed(w) && !Quiescent(w)
    ensures Enabled(w, s) && Progresses(s)
  {
    if w.queued != multiset{} {
      var p :| p in w.queued;
      s := BroadcastStep(p.dest, p.msg);
    } else if w.flight != multiset{} {
      var p :| p in w.flight;
      s := DeliverStep(p.dest, p.msg);
    } else {
      var r :| r in w.requests;
      s := AnswerStep(r.dest, r.asker, r.since);
    }
  }

  /** Typing notices never travel between nodes, and direct messages only as part of an answer. */
  lemma LocalKindsStay(w: World, steps: seq<Step>, n: nat, m: Message)
    requires Start(w) && Runs(w, steps) && Packet(n, m) in Run(w, steps).flight
    requires m.kind == DirectMessage || m.kind == Typing
    ensures m.kind == DirectMessage && AnswerCount(w, steps, n, m) > 0
  {
    RunAddressed(w, steps);
    AnsweredIsCount(w, steps, n, m);
  }

  /**
   * Whatever a caller injects is fit for the broadcast loop; an id, channel or time it chose is kept, a missing one
   * is made up, and the rest is as it was.
   */
  lemma InjectedSubmittable(m: Message, generated: string, now: int)
    requires generated != ""
    ensures Submittable(Injected(m, generated, now))
    ensures var sent := Injected(m, generated, now);
            && sent.id == (if m.id != "" then m.id else generated)
            && sent.channel == (if m.channel != "" then m.channel else "general")
            && sent.timestamp == (if m.timestamp != 0 then m.timestamp else now)
            && sent.(id := m.id, channel := m.channel, timestamp := m.timestamp) == m
  {
  }
}
