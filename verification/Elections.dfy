/** Bully-style leader election among the nodes, over unordered, lossy links. */
module Elections {
  import opened Options
  import opened Text

  type Conn = nat

  /** What one node knows: its own claim, the leader it acknowledges, and the ports that dialled it. */
  datatype Elector = Elector(port: nat, isLeader: bool, leaderID: int, peerIDs: map<Conn, int>)

  function Fresh(port: nat): Elector {
    Elector(port, false, 0, map[])
  }

  /** The number a text starts with, or 0. */
  function ParsePort(content: string): int {
    match ScanInt(content)
    case Some((n, rest)) => n
    case None => 0
  }

  predicate Outranked(e: Elector) {
    exists c | c in e.peerIDs :: e.peerIDs[c] > e.port
  }

  /** The periodic check: the new state, and the claim to broadcast if leadership was just taken. */
  function Tick(e: Elector): (Elector, Option<string>) {
    if !Outranked(e) && !e.isLeader then (e.(isLeader := true, leaderID := e.port), Some(Print(e.port)))
    else if Outranked(e) && e.isLeader then (e.(isLeader := false), None)
    else (e, None)
  }

  function OnCoordinator(e: Elector, content: string): Elector {
    var claimed := ParsePort(content);
    if claimed > e.port then e.(isLeader := false, leaderID := claimed) else e
  }

  /** The accepting side learns the dialler's port from its handshake. */
  function Accept(e: Elector, conn: Conn, handshake: string): Elector {
    e.(peerIDs := e.peerIDs[conn := ParsePort(handshake)])
  }

  function Gone(e: Elector, conn: Conn): Elector {
    e.(peerIDs := e.peerIDs - {conn})
  }

  lemma ParsePrinted(port: nat)
    ensures ParsePort(Print(port)) == if port < 9223372036854775808 then port else 0
  {
    ScanPrinted(port, "", 0);
    assert Print(port) + "" == Print(port);
  }

  /** A port other than 0 is the value of a numeral that the text starts with. */
  lemma PortIsWritten(content: string) returns (blanks: string, sign: string, digits: string, rest: string)
    requires ParsePort(content) != 0
    ensures Numeral(content, blanks, sign, digits, rest)
    ensures SignedValue(sign, digits) == Some(ParsePort(content))
  {
    blanks, sign, digits, rest := ScannedNumeral(content);
    ScanNumeral(content, blanks, sign, digits, rest);
  }

  // ---- The whole mesh ----

  datatype Claim = Claim(dest: nat, content: string)

  datatype World = World(nodes: map<nat, Elector>, claims: multiset<Claim>)

  /**
   * A tick's claim goes to whichever nodes the ticking node is linked to. A claim can also come from a client, whose
   * messages are relayed whatever their kind; here it may name any node of the mesh.
   */
  datatype Step =
    | TickStep(port: nat, linked: set<nat>)
    | ForgeStep(linked: set<nat>, content: string)
    | DeliverStep(claim: Claim)
    | LoseStep(claim: Claim)
    | AcceptStep(port: nat, conn: Conn, dialler: nat)
    | GoneStep(port: nat, conn: Conn)

  predicate Enabled(w: World, s: Step) {
    match s
    case TickStep(p, linked) => p in w.nodes && linked <= w.nodes.Keys
    case ForgeStep(linked, content) => linked <= w.nodes.Keys && ParsePort(content) in w.nodes
    case DeliverStep(claim) => claim in w.claims && claim.dest in w.nodes
    case LoseStep(claim) => claim in w.claims
    case AcceptStep(p, conn, dialler) => p in w.nodes && dialler in w.nodes
    case GoneStep(p, conn) => p in w.nodes
  }

  function ClaimsTo(linked: set<nat>, claim: Option<string>): multiset<Claim> {
    if claim.None? then multiset{} else multiset(set d | d in linked :: Claim(d, claim.value))
  }

  function Next(w: World, s: Step): World
    requires Enabled(w, s)
  {
    match s
    case TickStep(p, linked) =>
      var (e, claim) := Tick(w.nodes[p]);
      World(w.nodes[p := e], w.claims + ClaimsTo(linked, claim))
    case ForgeStep(linked, content) => w.(claims := w.claims + ClaimsTo(linked, Some(content)))
    case DeliverStep(claim) =>
      World(w.nodes[claim.dest := OnCoordinator(w.nodes[claim.dest], claim.content)], w.claims - multiset{claim})
    case LoseStep(claim) => w.(claims := w.claims - multiset{claim})
    case AcceptStep(p, conn, dialler) => w.(nodes := w.nodes[p := Accept(w.nodes[p], conn, Print(dialler))])
    case GoneStep(p, conn) => w.(nodes := w.nodes[p := Gone(w.nodes[p], conn)])
  }

  predicate Runs(w: World, steps: seq<Step>)
    decreases |steps|
  {
    |steps| == 0 || (Enabled(w, steps[0]) && Runs(Next(w, steps[0]), steps[1..]))
  }

  function Run(w: World, steps: seq<Step>): World
    requires Runs(w, steps)
    decreases |steps|
  {
    if |steps| == 0 then w else Run(Next(w, steps[0]), steps[1..])
  }

  // ---- What every run keeps ----

  predicate Sound(e: Elector, p: nat, ports: set<nat>) {
    && e.port == p && 0 < p <= MAX_INT
    && (e.isLeader ==> e.leaderID == p)
    && (e.leaderID == 0 || (e.leaderID >= p && e.leaderID in ports))
    && forall c | c in e.peerIDs :: e.peerIDs[c] in ports
  }

  /** A leader acknowledges itself; an acknowledged leader is a real node of at least the own port. */
  ghost predicate Inv(w: World) {
    (forall p | p in w.nodes :: Sound(w.nodes[p], p, w.nodes.Keys)) &&
    forall claim | claim in w.claims :: ParsePort(claim.content) in w.nodes
  }

  lemma StartHolds(ports: set<nat>)
    requires forall p | p in ports :: 0 < p <= MAX_INT
    ensures Inv(World(map p | p in ports :: Fresh(p), multiset{}))
  {
  }

  lemma ClaimsAreReal(w: World, p: nat, linked: set<nat>)
    requires Inv(w) && p in w.nodes
    ensures forall claim | claim in w.claims + ClaimsTo(linked, Tick(w.nodes[p]).1) ::
            ParsePort(claim.content) in w.nodes
  {
    assert Sound(w.nodes[p], p, w.nodes.Keys);
    ParsePrinted(p);
  }

  lemma NextInv(w: World, s: Step)
    requires Inv(w) && Enabled(w, s)
    ensures Inv(Next(w, s)) && Next(w, s).nodes.Keys == w.nodes.Keys
  {
    var w', ports := Next(w, s), w.nodes.Keys;
    match s
    case TickStep(p, linked) =>
      assert Sound(w.nodes[p], p, ports);
      ClaimsAreReal(w, p, linked);
      ChangeKeeps(w, p, Tick(w.nodes[p]).0, w'.claims);
    case ForgeStep(linked, content) =>
    case DeliverStep(claim) =>
      assert Sound(w.nodes[claim.dest], claim.dest, ports);
      ChangeKeeps(w, claim.dest, OnCoordinator(w.nodes[claim.dest], claim.content), w'.claims);
    case LoseStep(claim) =>
    case AcceptStep(p, conn, dialler) =>
      assert Sound(w.nodes[p], p, ports) && Sound(w.nodes[dialler], dialler, ports);
      ParsePrinted(dialler);
      ChangeKeeps(w, p, Accept(w.nodes[p], conn, Print(dialler)), w'.claims);
    case GoneStep(p, conn) =>
      assert Sound(w.nodes[p], p, ports);
      ChangeKeeps(w, p, Gone(w.nodes[p], conn), w'.claims);
  }

  /** A sound change of one node, and claims of real nodes only. */
  lemma ChangeKeeps(w: World, p: nat, e: Elector, claims: multiset<Claim>)
    requires Inv(w) && p in w.nodes && Sound(e, p, w.nodes.Keys)
    requires forall claim | claim in claims :: ParsePort(claim.content) in w.nodes
    ensures Inv(World(w.nodes[p := e], claims)) && w.nodes[p := e].Keys == w.nodes.Keys
  {
  }

  lemma {:induction false} RunInv(w: World, steps: seq<Step>)
    requires Inv(w) && Runs(w, steps)
    ensures Inv(Run(w, steps)) && Run(w, steps).nodes.Keys == w.nodes.Keys
    decreases |steps|
  {
    if |steps| > 0 {
      NextInv(w, steps[0]);
      RunInv(Next(w, steps[0]), steps[1..]);
    }
  }

  predicate Largest(w: World, p: nat) {
    p in w.nodes && forall q | q in w.nodes :: q <= p
  }

  lemma LargestElector(e: Elector, p: nat, ports: set<nat>)
    requires Sound(e, p, ports) && (forall q | q in ports :: q <= p) && e.isLeader
    ensures Tick(e).0.isLeader
    ensures forall content :: ParsePort(content) in ports ==> OnCoordinator(e, content).isLeader
  {
  }

  lemma LargestStep(w: World, s: Step, p: nat)
    requires Inv(w) && Enabled(w, s) && Largest(w, p) && w.nodes[p].isLeader
    ensures p in Next(w, s).nodes && Next(w, s).nodes[p].isLeader
  {
    LargestElector(w.nodes[p], p, w.nodes.Keys);
  }

  /** Nothing outranks the largest port, and nothing demotes it: leader once, leader in every later state. */
  lemma {:induction false} LargestStaysLeader(w: World, steps: seq<Step>, p: nat)
    requires Inv(w) && Runs(w, steps) && Largest(w, p) && w.nodes[p].isLeader
    ensures p in Run(w, steps).nodes && Run(w, steps).nodes[p].isLeader && Run(w, steps).nodes[p].leaderID == p
    decreases |steps|
  {
    if |steps| > 0 {
      NextInv(w, steps[0]);
      LargestStep(w, steps[0], p);
      assert Largest(Next(w, steps[0]), p);
      LargestStaysLeader(Next(w, steps[0]), steps[1..], p);
    } else {
      assert Sound(w.nodes[p], p, w.nodes.Keys);
    }
  }

  lemma LargestTicks(w: World, p: nat, linked: set<nat>)
    requires Inv(w) && Largest(w, p) && linked <= w.nodes.Keys
    ensures Next(w, TickStep(p, linked)).nodes[p].isLeader
  {
  }

  // ---- Exactly one leader ----

  /** In every state of the run, every node but the largest holds the port of a higher node. */
  predicate OutrankedThroughout(w: World, steps: seq<Step>, top: nat)
    requires Runs(w, steps)
    decreases |steps|
  {
    (forall p | p in w.nodes && p != top :: Outranked(w.nodes[p])) &&
    (|steps| > 0 ==> OutrankedThroughout(Next(w, steps[0]), steps[1..], top))
  }

  function Ticked(steps: seq<Step>): set<nat> {
    if |steps| == 0 then {}
    else (if steps[0].TickStep? then {steps[0].port} else {}) + Ticked(steps[1..])
  }

  /** These nodes lead exactly when they are the largest. */
  predicate Settled(w: World, done: set<nat>, top: nat) {
    done <= w.nodes.Keys && forall p | p in done :: w.nodes[p].isLeader <==> p == top
  }

  predicate OneLeader(w: World, top: nat) {
    forall p | p in w.nodes :: w.nodes[p].isLeader <==> p == top
  }

  lemma NextSettles(w: World, s: Step, done: set<nat>, top: nat)
    requires Inv(w) && Enabled(w, s) && Largest(w, top) && Settled(w, done, top)
    requires forall p | p in w.nodes && p != top :: Outranked(w.nodes[p])
    ensures Settled(Next(w, s), done + Ticked([s]), top)
  {
    assert Ticked([s]) == if s.TickStep? then {s.port} else {};
    if s.TickStep? {
      TickSettles(w, s, done, top);
    } else if s.DeliverStep? {
      assert Sound(w.nodes[s.claim.dest], s.claim.dest, w.nodes.Keys);
    }
  }

  lemma TickSettles(w: World, s: Step, done: set<nat>, top: nat)
    requires Inv(w) && Enabled(w, s) && s.TickStep? && Largest(w, top) && Settled(w, done, top)
    requires s.port != top ==> Outranked(w.nodes[s.port])
    ensures Settled(Next(w, s), done + {s.port}, top)
  {
  }

  lemma TickedFirst(steps: seq<Step>, done: set<nat>)
    requires |steps| > 0
    ensures done + Ticked([steps[0]]) + Ticked(steps[1..]) == done + Ticked(steps)
  {
  }

  /**
   * While every other node holds a higher port, each node that has ticked leads exactly when it is the largest:
   * once all have ticked there is exactly one leader, and that persists as long as those entries do.
   */
  lemma {:induction false} OneLeaderEmerges(w: World, steps: seq<Step>, done: set<nat>, top: nat)
    requires Inv(w) && Runs(w, steps) && Largest(w, top) && Settled(w, done, top)
    requires OutrankedThroughout(w, steps, top)
    ensures Settled(Run(w, steps), done + Ticked(steps), top)
    ensures w.nodes.Keys <= done + Ticked(steps) ==> OneLeader(Run(w, steps), top)
    decreases |steps|
  {
    if |steps| > 0 {
      var s := steps[0];
      NextSettles(w, s, done, top);
      NextInv(w, s);
      OneLeaderEmerges(Next(w, s), steps[1..], done + Ticked([s]), top);
      TickedFirst(steps, done);
    }
  }

  /** What the run last did with a connection of p: nothing, a disconnection, or an acceptance of this dialler. */
  datatype Touch = Untouched | Dropped | Taken(dialler: nat)

  function LastTouch(steps: seq<Step>, p: nat, conn: Conn): Touch {
    if |steps| == 0 then Untouched
    else
      var later := LastTouch(steps[1..], p, conn);
      if later != Untouched then later
      else if steps[0] == GoneStep(p, conn) then Dropped
      else if steps[0].AcceptStep? && steps[0].port == p && steps[0].conn == conn then Taken(steps[0].dialler)
      else Untouched
  }

  /** The port held for a connection, if any. */
  predicate Holds(w: World, p: nat, conn: Conn, port: int)
    requires p in w.nodes
  {
    conn in w.nodes[p].peerIDs && w.nodes[p].peerIDs[conn] == port
  }

  lemma EntryStep(w: World, s: Step, p: nat, conn: Conn, port: int)
    requires Inv(w) && Enabled(w, s) && p in w.nodes
    ensures p in Next(w, s).nodes
    ensures Holds(Next(w, s), p, conn, port) <==>
              if s == GoneStep(p, conn) then false
              else if s.AcceptStep? && s.port == p && s.conn == conn then port == s.dialler
              else Holds(w, p, conn, port)
  {
    if s.AcceptStep? { AcceptEntry(w, s, p, conn, port); }
  }

  lemma AcceptEntry(w: World, s: Step, p: nat, conn: Conn, port: int)
    requires Inv(w) && Enabled(w, s) && p in w.nodes && s.AcceptStep?
    ensures p in Next(w, s).nodes
    ensures Holds(Next(w, s), p, conn, port) <==>
              if s.port == p && s.conn == conn then port == s.dialler else Holds(w, p, conn, port)
  {
    assert Sound(w.nodes[s.dialler], s.dialler, w.nodes.Keys);
    ParsePrinted(s.dialler);
  }

  /** What the run should leave of the connection, judged by its last event. */
  predicate Left(w: World, steps: seq<Step>, p: nat, conn: Conn, port: int)
    requires p in w.nodes
  {
    match LastTouch(steps, p, conn)
    case Untouched => Holds(w, p, conn, port)
    case Dropped => false
    case Taken(dialler) => port == dialler
  }

  /**
   * Over any run, a node holds a port for a connection exactly if that port's node was the last to dial it and the
   * connection was not dropped since, or nothing happened to the connection and the port was held before.
   */
  lemma {:induction false} EntriesAre(w: World, steps: seq<Step>, p: nat, conn: Conn, port: int)
    requires Inv(w) && Runs(w, steps) && p in w.nodes
    ensures p in Run(w, steps).nodes
    ensures Holds(Run(w, steps), p, conn, port) <==> Left(w, steps, p, conn, port)
    decreases |steps|
  {
    if |steps| > 0 {
      NextInv(w, steps[0]);
      EntryStep(w, steps[0], p, conn, port);
      EntriesAre(Next(w, steps[0]), steps[1..], p, conn, port);
    }
  }

  /** Some connection of p is, by what happened to it, one to a higher node. */
  ghost predicate HigherConnected(w: World, steps: seq<Step>, p: nat)
    requires p in w.nodes
  {
    exists conn, port: int :: Left(w, steps, p, conn, port) && port > p
  }

  lemma OutrankedIff(w: World, steps: seq<Step>, p: nat)
    requires Inv(w) && Runs(w, steps) && p in w.nodes
    ensures p in Run(w, steps).nodes
    ensures Outranked(Run(w, steps).nodes[p]) <==> HigherConnected(w, steps, p)
  {
    RunInv(w, steps);
    var e := Run(w, steps).nodes[p];
    assert Sound(e, p, w.nodes.Keys);
    if Outranked(e) {
      var conn :| conn in e.peerIDs && e.peerIDs[conn] > p;
      EntriesAre(w, steps, p, conn, e.peerIDs[conn]);
    }
    if HigherConnected(w, steps, p) {
      var conn, port: int :| Left(w, steps, p, conn, port) && port > p;
      EntriesAre(w, steps, p, conn, port);
    }
  }

  /**
   * Failover: after any run a node leads from its next tick on exactly if no connection of its to a higher node is
   * left, each having been dropped and not accepted again.
   */
  lemma LeadsAfterTickIff(w: World, steps: seq<Step>, p: nat, linked: set<nat>)
    requires Inv(w) && Runs(w, steps) && p in w.nodes && linked <= w.nodes.Keys
    ensures Enabled(Run(w, steps), TickStep(p, linked))
    ensures var w' := Next(Run(w, steps), TickStep(p, linked));
            p in w'.nodes && (w'.nodes[p].isLeader <==> !HigherConnected(w, steps, p))
  {
    RunInv(w, steps);
    OutrankedIff(w, steps, p);
  }

  /** During the run dialler dialled p, and the connection is still there at its end. */
  predicate Dialled(steps: seq<Step>, p: nat, conn: Conn, dialler: nat) {
    LastTouch(steps, p, conn) == Taken(dialler)
  }

  /** Whoever dialled, and is still connected, is known by its port. */
  lemma DiallerKnown(w: World, steps: seq<Step>, p: nat, conn: Conn, dialler: nat)
    requires Inv(w) && Runs(w, steps) && p in w.nodes && Dialled(steps, p, conn, dialler)
    ensures p in Run(w, steps).nodes && conn in Run(w, steps).nodes[p].peerIDs
    ensures Run(w, steps).nodes[p].peerIDs[conn] == dialler
  {
    EntriesAre(w, steps, p, conn, dialler);
  }

  /** A higher node dialled this one. */
  ghost predicate DialledFromAbove(steps: seq<Step>, p: nat) {
    exists conn, dialler :: dialler > p && Dialled(steps, p, conn, dialler)
  }

  /**
   * After any run in which each node but the largest was dialled by a higher one, all but the largest are
   * outranked.
   */
  lemma DialledDownwardsOutranks(w: World, steps: seq<Step>, top: nat)
    requires Inv(w) && Runs(w, steps) && Largest(w, top)
    requires forall p | p in w.nodes && p != top :: DialledFromAbove(steps, p)
    ensures Largest(Run(w, steps), top)
    ensures forall p | p in Run(w, steps).nodes && p != top :: Outranked(Run(w, steps).nodes[p])
  {
    RunInv(w, steps);
    var w' := Run(w, steps);
    forall p | p in w'.nodes && p != top ensures Outranked(w'.nodes[p]) {
      var conn, dialler :| dialler > p && Dialled(steps, p, conn, dialler);
      DiallerKnown(w, steps, p, conn, dialler);
      assert Sound(w'.nodes[p], p, w'.nodes.Keys);
    }
  }

  /** So when the links were dialled that way and then every node has ticked, the largest leads alone. */
  lemma ClusterElects(w: World, dials: seq<Step>, ticks: seq<Step>, top: nat)
    requires Inv(w) && Runs(w, dials) && Largest(w, top)
    requires forall p | p in w.nodes && p != top :: DialledFromAbove(dials, p)
    requires Runs(Run(w, dials), ticks) && OnlyTicks(ticks) && Ticked(ticks) == w.nodes.Keys
    ensures OneLeader(Run(Run(w, dials), ticks), top)
  {
    DialledDownwardsOutranks(w, dials, top);
    RunInv(w, dials);
    OneLeaderIff(Run(w, dials), ticks, top);
  }

  predicate OnlyTicks(steps: seq<Step>) {
    forall s | s in steps :: s.TickStep?
  }

  /** Ticks change no entry, and leave each ticking node leader exactly if it holds no higher port. */
  lemma {:induction false} TicksDecide(w: World, steps: seq<Step>)
    requires Inv(w) && Runs(w, steps) && OnlyTicks(steps)
    ensures var w' := Run(w, steps);
            w'.nodes.Keys == w.nodes.Keys &&
            (forall p | p in w.nodes :: w'.nodes[p].peerIDs == w.nodes[p].peerIDs &&
                w'.nodes[p].port == w.nodes[p].port) &&
            (forall p | p in w.nodes && p !in Ticked(steps) :: w'.nodes[p] == w.nodes[p]) &&
            (forall p | p in w.nodes && p in Ticked(steps) :: w'.nodes[p].isLeader <==> !Outranked(w.nodes[p]))
    decreases |steps|
  {
    if |steps| > 0 {
      var w1 := Next(w, steps[0]);
      NextInv(w, steps[0]);
      TicksDecide(w1, steps[1..]);
    }
  }

  /** After a round of ticks the largest node leads alone exactly when every other node holds a higher port. */
  lemma OneLeaderIff(w: World, steps: seq<Step>, top: nat)
    requires Inv(w) && Runs(w, steps) && OnlyTicks(steps) && Ticked(steps) == w.nodes.Keys && Largest(w, top)
    ensures OneLeader(Run(w, steps), top) <==> forall p | p in w.nodes && p != top :: Outranked(w.nodes[p])
  {
    TicksDecide(w, steps);
    assert Sound(w.nodes[top], top, w.nodes.Keys);
  }

  // ---- Where it goes wrong ----

  /** Two nodes, the link dialled by the lower: the higher node alone knows a port, and it is a lower one. */
  predicate DialledUpwards(w: World, low: nat, high: nat, conn: Conn) {
    && low < high && w.nodes.Keys == {low, high}
    && w.nodes[low].port == low && w.nodes[high].port == high
    && w.nodes[low].peerIDs == map[] && w.nodes[high].peerIDs == map[conn := low]
  }

  /** Then both lead after a round of ticks in which the higher node's claim arrived in between. */
  lemma TwoLeaders(low: nat, high: nat, conn: Conn)
    requires 0 < low < high <= MAX_INT
    ensures var w := World(map[low := Fresh(low), high := Fresh(high)], multiset{});
            var steps := [AcceptStep(high, conn, low), TickStep(high, {low}), DeliverStep(Claim(low, Print(high))),
                TickStep(low, {})];
            && Runs(w, steps) && DialledUpwards(Run(w, steps), low, high, conn)
            && Run(w, steps).nodes[low].isLeader && Run(w, steps).nodes[high].isLeader &&
                Run(w, steps).claims == multiset{}
  {
    var w := World(map[low := Fresh(low), high := Fresh(high)], multiset{});
    DialUp(low, high, conn);
    var w1 := Next(w, AcceptStep(high, conn, low));
    ClaimTick(w1, high, low);
    var w2 := Next(w1, TickStep(high, {low}));
    Hears(w2, low, high);
    var w3 := Next(w2, DeliverStep(Claim(low, Print(high))));
    assert w3.claims == multiset{};
    LeadsToo(w3, low, high, conn);
    RunFour(w, AcceptStep(high, conn, low), TickStep(high, {low}), DeliverStep(Claim(low, Print(high))),
            TickStep(low, {}));
  }

  lemma DialUp(low: nat, high: nat, conn: Conn)
    requires 0 < low < high <= MAX_INT
    ensures var w := World(map[low := Fresh(low), high := Fresh(high)], multiset{});
            Enabled(w, AcceptStep(high, conn, low)) &&
            Next(w, AcceptStep(high, conn, low)) ==
            World(map[low := Fresh(low), high := Elector(high, false, 0, map[conn := low])], multiset{})
  {
    ParsePrinted(low);
  }

  lemma LeadsToo(w: World, low: nat, high: nat, conn: Conn)
    requires 0 < low < high && w.claims == multiset{} && w.nodes.Keys == {low, high}
    requires w.nodes[low] == Elector(low, false, high, map[]) &&
             w.nodes[high] == Elector(high, true, high, map[conn := low])
    ensures var w' := Next(w, TickStep(low, {}));
            DialledUpwards(w', low, high, conn) && w'.nodes[low].isLeader && w'.nodes[high].isLeader &&
            w'.claims == multiset{}
  {
  }

  lemma RunFour(w: World, s0: Step, s1: Step, s2: Step, s3: Step)
    requires Enabled(w, s0)
    requires var w1 := Next(w, s0);
             Enabled(w1, s1) && var w2 := Next(w1, s1); Enabled(w2, s2) && var w3 := Next(w2, s2); Enabled(w3, s3)
    ensures Runs(w, [s0, s1, s2, s3]) && Run(w, [s0, s1, s2, s3]) == Next(Next(Next(Next(w, s0), s1), s2), s3)
  {
    var w1 := Next(w, s0);
    var w2 := Next(w1, s1);
    var w3 := Next(w2, s2);
    assert [s3][1..] == [] && [s2, s3][1..] == [s3] && [s1, s2, s3][1..] == [s2, s3] &&
           [s0, s1, s2, s3][1..] == [s1, s2, s3];
    assert Runs(w3, [s3]) && Run(w3, [s3]) == Next(w3, s3);
    assert Runs(w2, [s2, s3]) && Run(w2, [s2, s3]) == Run(w3, [s3]);
    assert Runs(w1, [s1, s2, s3]) && Run(w1, [s1, s2, s3]) == Run(w2, [s2, s3]);
  }

  /** And no number of further ticks resolves it: neither node announces itself again. */
  lemma {:induction false} TwoLeadersForever(w: World, steps: seq<Step>, low: nat, high: nat, conn: Conn)
    requires DialledUpwards(w, low, high, conn) && w.nodes[low].isLeader && w.nodes[high].isLeader &&
             w.claims == multiset{}
    requires Runs(w, steps) && OnlyTicks(steps)
    ensures Run(w, steps) == w
    decreases |steps|
  {
    if |steps| > 0 {
      assert steps[0] in steps;
      assert !Outranked(w.nodes[low]) && !Outranked(w.nodes[high]);
      assert Next(w, steps[0]) == w;
      TwoLeadersForever(w, steps[1..], low, high, conn);
    }
  }

  // ---- The acknowledged leader ----

  /**
   * A claim is compared with the own port only, not with the leader acknowledged so far; and a node that takes the
   * lead acknowledges itself, whomever it acknowledged before.
   */
  predicate Rises(w: World, s: Step, p: nat)
    requires p in w.nodes && Enabled(w, s)
  {
    var e := w.nodes[p];
    (s.TickStep? && s.port == p ==> Outranked(e) || e.isLeader || e.leaderID <= e.port) &&
    (s.DeliverStep? && s.claim.dest == p ==>
        ParsePort(s.claim.content) <= e.port || ParsePort(s.claim.content) >= e.leaderID)
  }

  lemma StepRisesIff(w: World, s: Step, p: nat)
    requires p in w.nodes && Enabled(w, s)
    ensures p in Next(w, s).nodes
    ensures Next(w, s).nodes[p].leaderID >= w.nodes[p].leaderID <==> Rises(w, s, p)
  {
  }

  ghost predicate NeverFalls(w: World, steps: seq<Step>, p: nat)
    requires Runs(w, steps)
    decreases |steps|
  {
    |steps| > 0 ==>
      p in w.nodes && p in Next(w, steps[0]).nodes &&
      Next(w, steps[0]).nodes[p].leaderID >= w.nodes[p].leaderID && NeverFalls(Next(w, steps[0]), steps[1..], p)
  }

  ghost predicate AllRise(w: World, steps: seq<Step>, p: nat)
    requires Runs(w, steps)
    decreases |steps|
  {
    |steps| > 0 ==> p in w.nodes && Rises(w, steps[0], p) && AllRise(Next(w, steps[0]), steps[1..], p)
  }

  /** Over any run, the leader a node acknowledges never falls exactly if no tick and no claim is of that kind. */
  lemma {:induction false} AcknowledgedLeaderRisesIff(w: World, steps: seq<Step>, p: nat)
    requires Runs(w, steps) && p in w.nodes
    ensures NeverFalls(w, steps, p) <==> AllRise(w, steps, p)
    decreases |steps|
  {
    if |steps| > 0 {
      StepRisesIff(w, steps[0], p);
      AcknowledgedLeaderRisesIff(Next(w, steps[0]), steps[1..], p);
    }
  }

  /** Nodes 2 and 3 both claim to lead, and node 1 hears the higher claim first: it then falls back to the lower. */
  lemma AcknowledgedLeaderFalls(low: nat, mid: nat, high: nat)
    requires 0 < low < mid < high <= MAX_INT
    ensures var w := World(map[low := Fresh(low), mid := Fresh(mid), high := Fresh(high)], multiset{});
            var steps := [TickStep(high, {low}), TickStep(mid, {low}), DeliverStep(Claim(low, Print(high)))];
            var last := DeliverStep(Claim(low, Print(mid)));
            && Runs(w, steps) && low in Run(w, steps).nodes && Run(w, steps).nodes[low].leaderID == high
            && Enabled(Run(w, steps), last) && Next(Run(w, steps), last).nodes[low].leaderID == mid
  {
    var w := World(map[low := Fresh(low), mid := Fresh(mid), high := Fresh(high)], multiset{});
    BothClaim(w, low, mid, high);
    var w2 := Next(Next(w, TickStep(high, {low})), TickStep(mid, {low}));
    Hears(w2, low, high);
    var w3 := Next(w2, DeliverStep(Claim(low, Print(high))));
    ParsePrinted(mid);
    ParsePrinted(high);
    assert Print(mid) != Print(high);
    Hears(w3, low, mid);
    RunThree(w, TickStep(high, {low}), TickStep(mid, {low}), DeliverStep(Claim(low, Print(high))));
  }

  lemma BothClaim(w: World, low: nat, mid: nat, high: nat)
    requires low < mid < high && w.claims == multiset{}
    requires w.nodes == map[low := Fresh(low), mid := Fresh(mid), high := Fresh(high)]
    ensures Enabled(w, TickStep(high, {low})) && Enabled(Next(w, TickStep(high, {low})), TickStep(mid, {low}))
    ensures var w2 := Next(Next(w, TickStep(high, {low})), TickStep(mid, {low}));
            w2.claims == multiset{Claim(low, Print(high)), Claim(low, Print(mid))} && low in w2.nodes &&
                w2.nodes[low] == Fresh(low)
  {
    ClaimTick(w, high, low);
    ClaimTick(Next(w, TickStep(high, {low})), mid, low);
  }

  lemma ClaimTick(w: World, p: nat, dest: nat)
    requires p in w.nodes && dest in w.nodes && !Outranked(w.nodes[p]) && !w.nodes[p].isLeader && w.nodes[p].port == p
    ensures Enabled(w, TickStep(p, {dest}))
    ensures Next(w, TickStep(p, {dest})) ==
            World(w.nodes[p := w.nodes[p].(isLeader := true, leaderID := p)],
                  w.claims + multiset{Claim(dest, Print(p))})
  {
  }

  lemma Hears(w: World, dest: nat, port: nat)
    requires Claim(dest, Print(port)) in w.claims && dest in w.nodes && w.nodes[dest].port < port <= MAX_INT
    ensures Enabled(w, DeliverStep(Claim(dest, Print(port))))
    ensures Next(w, DeliverStep(Claim(dest, Print(port)))) ==
            World(w.nodes[dest := w.nodes[dest].(isLeader := false, leaderID := port)],
                  w.claims - multiset{Claim(dest, Print(port))})
  {
    ParsePrinted(port);
  }

  lemma RunThree(w: World, s0: Step, s1: Step, s2: Step)
    requires Enabled(w, s0)
    requires var w1 := Next(w, s0); Enabled(w1, s1) && Enabled(Next(w1, s1), s2)
    ensures Runs(w, [s0, s1, s2]) && Run(w, [s0, s1, s2]) == Next(Next(Next(w, s0), s1), s2)
  {
    var w1 := Next(w, s0);
    var w2 := Next(w1, s1);
    assert [s1, s2][1..] == [s2] && [s0, s1, s2][1..] == [s1, s2];
    RunOne(w2, s2);
    assert Runs(w1, [s1, s2]) && Run(w1, [s1, s2]) == Run(w2, [s2]);
  }

  lemma RunOne(w: World, s: Step)
    requires Enabled(w, s)
    ensures Runs(w, [s]) && Run(w, [s]) == Next(w, s)
  {
    assert [s][1..] == [];
    assert Runs(Next(w, s), []);
  }
}
