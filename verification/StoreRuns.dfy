/** What every sequence of store operations keeps: the channel index agrees with the flat list. */
module StoreRuns {
  import opened Sequences
  import opened Protocol
  import opened StoreModel

  datatype Op =
    | SaveOp(msg: Message, generated: string)
    | UpdateOp(id: string, content: string)
    | DeleteOp(id: string)
    | ReactOp(id: string, emoji: string, user: string)
    | CompactOp
    | LoadOp

  function Step(st: Store, op: Op, size: Message -> nat): Store {
    match op
    case SaveOp(msg, generated) => Save(st, msg, generated).0
    case UpdateOp(id, content) => Update(st, id, content).0
    case DeleteOp(id) => Delete(st, id).0
    case ReactOp(id, emoji, user) => React(st, id, emoji, user).0
    case CompactOp => Compact(st)
    case LoadOp => Load(st, size).0
  }

  function Run(st: Store, ops: seq<Op>, size: Message -> nat): Store
    decreases |ops|
  {
    if |ops| == 0 then st else Run(Step(st, ops[0], size), ops[1..], size)
  }

  /** The part of a message that no operation changes. */
  datatype Birth = Birth(sender: string, channel: string)

  function BirthOf(m: Message): Birth {
    Birth(m.sender, Normalize(m.channel))
  }

  /** Every id ever saved, with what it was saved as. */
  type Births = map<string, Birth>

  function Accepted(op: Op): bool {
    op.SaveOp? && |op.msg.content| <= MAX_MESSAGE_SIZE
  }

  function Born(births: Births, op: Op): Births {
    if Accepted(op) then births[Stamped(op.msg, op.generated).id := BirthOf(op.msg)] else births
  }

  function BornAll(births: Births, ops: seq<Op>): Births
    decreases |ops|
  {
    if |ops| == 0 then births else BornAll(Born(births, ops[0]), ops[1..])
  }

  /** Save does not look for duplicates, so its callers must supply unused ids. */
  predicate Fresh(births: Births, op: Op) {
    Accepted(op) ==> Stamped(op.msg, op.generated).id !in births
  }

  predicate FreshAll(births: Births, ops: seq<Op>)
    decreases |ops|
  {
    |ops| == 0 || (Fresh(births, ops[0]) && FreshAll(Born(births, ops[0]), ops[1..]))
  }

  /** The flat list restricted to a channel is the newest part of that channel's list, in every field. */
  ghost predicate Agrees(st: Store) {
    forall ch :: IsSuffix(Filter(st.flat, InChannel(ch)), List(st.index, ch))
  }

  /** Memory never holds a message, or an order, that the log does not. */
  predicate Traced(st: Store) {
    Subsequence(Ids(st.flat), Ids(Records(st.log)))
  }

  predicate KnownIn(births: Births, s: seq<Message>) {
    forall m | m in s :: m.id in births && births[m.id] == BirthOf(m)
  }

  /** A list of distinct messages, each as it was born. */
  predicate Good(births: Births, s: seq<Message>) {
    DistinctIds(s) && KnownIn(births, s)
  }

  predicate GoodChannel(births: Births, ch: string, s: seq<Message>, cap: nat) {
    |s| <= cap && Good(births, s) && forall m | m in s :: Normalize(m.channel) == ch
  }

  predicate GoodIndex(st: Store, births: Births) {
    forall ch | ch in st.index :: GoodChannel(births, ch, st.index[ch], st.cap)
  }

  ghost predicate Inv(st: Store, births: Births) {
    |st.flat| <= st.cap && Good(births, st.flat) && Good(births, Records(st.log)) &&
    GoodIndex(st, births) && Agrees(st) && Traced(st)
  }

  // ---- Save ----

  lemma GrowGood(births: Births, s: seq<Message>, m: Message)
    requires Good(births, s) && m.id !in births
    ensures Good(births[m.id := BirthOf(m)], s) && Good(births[m.id := BirthOf(m)], s + [m])
  {
  }

  lemma SuffixGood(births: Births, a: seq<Message>, b: seq<Message>)
    requires Good(births, b) && IsSuffix(a, b)
    ensures Good(births, a)
  {
  }

  lemma PushGood(births: Births, s: seq<Message>, m: Message, cap: nat)
    requires Good(births, s) && m.id !in births
    ensures Good(births[m.id := BirthOf(m)], Push(s, m, cap))
  {
  }

  lemma PushGoodChannel(births: Births, ch: string, s: seq<Message>, m: Message, cap: nat)
    requires GoodChannel(births, ch, s, cap) && m.id !in births && Normalize(m.channel) == ch
    ensures GoodChannel(births[m.id := BirthOf(m)], ch, Push(s, m, cap), cap)
  {
    PushGood(births, s, m, cap);
    PushSuffix(s, m, cap);
    SuffixMembers(Push(s, m, cap), s + [m]);
  }

  lemma SaveIndex(st: Store, births: Births, msg: Message, generated: string)
    requires GoodIndex(st, births) && Fresh(births, SaveOp(msg, generated))
    ensures GoodIndex(Save(st, msg, generated).0, Born(births, SaveOp(msg, generated)))
  {
    if |msg.content| <= MAX_MESSAGE_SIZE {
      var m := Stamped(msg, generated);
      var st', births' := Save(st, msg, generated).0, Born(births, SaveOp(msg, generated));
      forall ch | ch in st'.index ensures GoodChannel(births', ch, st'.index[ch], st.cap) {
        if ch == m.channel {
          PushGoodChannel(births, ch, List(st.index, ch), m, st.cap);
        } else {
          GrowGood(births, st.index[ch], m);
        }
      }
    }
  }

  lemma SaveAgreesAt(st: Store, m: Message, ch: string)
    requires |st.flat| <= st.cap && |List(st.index, ch)| <= st.cap && Normalize(m.channel) == m.channel
    requires IsSuffix(Filter(st.flat, InChannel(ch)), List(st.index, ch))
    ensures IsSuffix(Filter(Push(st.flat, m, st.cap), InChannel(ch)),
                     if ch == m.channel then Push(List(st.index, ch), m, st.cap) else List(st.index, ch))
  {
    if ch == m.channel {
      PushOwn(st.flat, List(st.index, ch), m, st.cap, InChannel(ch));
    } else {
      PushOther(st.flat, List(st.index, ch), m, st.cap, InChannel(ch));
    }
  }

  /** No list exceeds the capacity. */
  predicate Bounded(st: Store) {
    |st.flat| <= st.cap && forall ch | ch in st.index :: |st.index[ch]| <= st.cap
  }

  /** Saving needs no new id for this: whatever is pushed, is pushed onto both lists. */
  lemma SaveAgrees(st: Store, msg: Message, generated: string)
    requires Bounded(st) && Agrees(st)
    ensures Agrees(Save(st, msg, generated).0)
  {
    var m, st' := Stamped(msg, generated), Save(st, msg, generated).0;
    if |msg.content| <= MAX_MESSAGE_SIZE {
      forall ch ensures IsSuffix(Filter(st'.flat, InChannel(ch)), List(st'.index, ch)) {
        assert IsSuffix(Filter(st.flat, InChannel(ch)), List(st.index, ch));
        SaveAgreesAt(st, m, ch);
      }
    }
  }

  lemma SaveTraced(st: Store, m: Message)
    requires Traced(st)
    ensures Subsequence(Ids(Push(st.flat, m, st.cap)), Ids(Records(st.log) + [m]))
  {
    var a, b := Ids(st.flat + [m]), Ids(Records(st.log) + [m]);
    assert a[..|a| - 1] == Ids(st.flat) && b[..|b| - 1] == Ids(Records(st.log));
    PushSuffix(st.flat, m, st.cap);
    MapSuffix(Push(st.flat, m, st.cap), st.flat + [m], IdOf());
    SubsequenceSuffix(Ids(Push(st.flat, m, st.cap)), a);
    SubsequenceTrans(Ids(Push(st.flat, m, st.cap)), a, b);
  }

  lemma SaveLog(log: seq<Line>, births: Births, m: Message)
    requires Good(births, Records(log)) && m.id !in births
    ensures Records(log + [Record(m)]) == Records(log) + [m]
    ensures Good(births[m.id := BirthOf(m)], Records(log + [Record(m)]))
  {
    RecordsConcat(log, [Record(m)]);
    assert Records([Record(m)]) == [m];
    GrowGood(births, Records(log), m);
  }

  lemma IndexBounded(st: Store, births: Births)
    requires |st.flat| <= st.cap && GoodIndex(st, births)
    ensures Bounded(st)
  {
  }

  lemma SaveKeeps(st: Store, births: Births, msg: Message, generated: string)
    requires Inv(st, births) && Fresh(births, SaveOp(msg, generated))
    ensures Inv(Save(st, msg, generated).0, Born(births, SaveOp(msg, generated)))
  {
    SaveIndex(st, births, msg, generated);
    IndexBounded(st, births);
    SaveAgrees(st, msg, generated);
    if |msg.content| <= MAX_MESSAGE_SIZE {
      var m := Stamped(msg, generated);
      SaveTraced(st, m);
      PushSuffix(st.flat, m, st.cap);
      PushGood(births, st.flat, m, st.cap);
      SaveLog(st.log, births, m);
    }
  }

  // ---- Changes of one message in place ----

  ghost predicate KeepsBirth(f: Message -> Message) {
    forall m :: f(m).id == m.id && f(m).sender == m.sender && f(m).channel == m.channel
  }

  lemma MapGood(births: Births, s: seq<Message>, f: Message -> Message)
    requires Good(births, s) && KeepsBirth(f)
    ensures Good(births, Map(s, f))
  {
  }

  /** Rewriting a message in the flat list and in its own channel's list keeps the two in agreement. */
  lemma RewriteAgrees(flat: seq<Message>, list: seq<Message>, f: Message -> Message, ch: string, home: string)
    requires KeepsBirth(f)
    requires IsSuffix(Filter(flat, InChannel(ch)), list)
    requires forall m | m in flat :: Normalize(m.channel) != home ==> f(m) == m
    ensures IsSuffix(Filter(Map(flat, f), InChannel(ch)), if ch == home then Map(list, f) else list)
  {
    var p := InChannel(ch);
    var own := Filter(flat, p);
    FilterMap(flat, p, f);
    if ch == home {
      MapSuffix(own, list, f);
    } else {
      FilterMembers(flat, p);
      forall i | 0 <= i < |own| ensures f(own[i]) == own[i] {
        assert own[i] in own;
      }
      assert Map(own, f) == own;
    }
  }

  /** A change that touches one message in place, the same way in both lists, keeps everything. */
  lemma RewriteKeeps(st: Store, st': Store, births: Births, f: Message -> Message, home: string)
    requires Inv(st, births) && KeepsBirth(f) && home in st.index
    requires forall m | m in st.flat :: Normalize(m.channel) != home ==> f(m) == m
    requires st' == st.(flat := Map(st.flat, f), index := st.index[home := Map(st.index[home], f)])
    ensures Inv(st', births)
  {
    MapGood(births, st.flat, f);
    MapGood(births, st.index[home], f);
    MapKeepsIds(st.flat, f);
    forall m | m in st'.index[home] ensures Normalize(m.channel) == home {
      var i :| 0 <= i < |st.index[home]| && m == f(st.index[home][i]);
      assert st.index[home][i] in st.index[home];
    }
    assert GoodChannel(births, home, st'.index[home], st.cap);
    forall ch ensures IsSuffix(Filter(st'.flat, InChannel(ch)), List(st'.index, ch)) {
      assert IsSuffix(Filter(st.flat, InChannel(ch)), List(st.index, ch));
      RewriteAgrees(st.flat, List(st.index, ch), f, ch, home);
    }
  }

  /** A message of the flat list is in its own channel's list, and no other message there bears its id. */
  lemma InOwnList(st: Store, births: Births, m: Message)
    requires Inv(st, births) && m in st.flat
    ensures Normalize(m.channel) in st.index && m in st.index[Normalize(m.channel)]
    ensures forall x | x in st.flat :: x.id == m.id ==> x == m
  {
    var ch := Normalize(m.channel);
    FilterMembers(st.flat, InChannel(ch));
    assert IsSuffix(Filter(st.flat, InChannel(ch)), List(st.index, ch));
    SuffixMembers(Filter(st.flat, InChannel(ch)), List(st.index, ch));
    forall x | x in st.flat && x.id == m.id ensures x == m {
      SameId(st.flat, x, m);
    }
  }

  lemma UpdateKeeps(st: Store, births: Births, id: string, content: string)
    requires Inv(st, births)
    ensures Inv(Update(st, id, content).0, births)
  {
    var i := IndexOf(st.flat, id);
    if i < |st.flat| {
      var ch := Normalize(st.flat[i].channel);
      InOwnList(st, births, st.flat[i]);
      EditFirstIsEdit(st.flat, id, content);
      EditFirstIsEdit(st.index[ch], id, content);
      RewriteKeeps(st, Update(st, id, content).0, births, EditOf(id, content), ch);
    }
  }

  /** Both copies gain the user: the channel list's copy held the same user list. */
  lemma CopyReactionIsReact(s: seq<Message>, id: string, emoji: string, user: string, source: Message)
    requires DistinctIds(s) && source in s && source.id == id && user !in Users(source, emoji)
    ensures CopyReaction(s, id, emoji, Users(source, emoji) + [user]) == Map(s, Protocol.ReactOf(id, emoji, user))
  {
  }

  lemma ReactKeeps(st: Store, births: Births, id: string, emoji: string, user: string)
    requires Inv(st, births)
    ensures Inv(React(st, id, emoji, user).0, births)
  {
    var i := IndexOf(st.flat, id);
    if i < |st.flat| && user !in Users(st.flat[i], emoji) {
      var source := st.flat[i];
      var ch := Normalize(source.channel);
      InOwnList(st, births, source);
      CopyReactionIsReact(st.flat, id, emoji, user, source);
      CopyReactionIsReact(st.index[ch], id, emoji, user, source);
      RewriteKeeps(st, React(st, id, emoji, user).0, births, Protocol.ReactOf(id, emoji, user), ch);
    }
  }

  // ---- Delete ----

  lemma RemoveGood(births: Births, s: seq<Message>, id: string)
    requires Good(births, s)
    ensures Good(births, RemoveFirst(s, id)) && |RemoveFirst(s, id)| <= |s|
    ensures forall m | m in RemoveFirst(s, id) :: m in s
  {
    RemoveFirstIsFilter(s, id);
    FilterKeepsDistinct(s, NotId(id));
    FilterMembers(s, NotId(id));
  }

  lemma RemoveAgreesHome(flat: seq<Message>, list: seq<Message>, id: string, ch: string)
    requires DistinctIds(flat) && DistinctIds(list)
    requires IsSuffix(Filter(flat, InChannel(ch)), list)
    ensures IsSuffix(Filter(RemoveFirst(flat, id), InChannel(ch)), RemoveFirst(list, id))
  {
    RemoveFirstIsFilter(flat, id);
    RemoveFirstIsFilter(list, id);
    FilterCommutes(flat, NotId(id), InChannel(ch));
    FilterSuffix(Filter(flat, InChannel(ch)), list, NotId(id));
  }

  lemma RemoveAgreesAway(flat: seq<Message>, id: string, ch: string)
    requires DistinctIds(flat)
    requires forall m | m in flat :: m.id == id ==> Normalize(m.channel) != ch
    ensures Filter(RemoveFirst(flat, id), InChannel(ch)) == Filter(flat, InChannel(ch))
  {
    RemoveFirstIsFilter(flat, id);
    FilterCommutes(flat, NotId(id), InChannel(ch));
    FilterMembers(flat, InChannel(ch));
    FilterAbsent(Filter(flat, InChannel(ch)), id);
  }

  lemma RemoveTraced(st: Store, i: nat)
    requires Traced(st) && i < |st.flat|
    ensures Subsequence(Ids(st.flat[..i] + st.flat[i + 1..]), Ids(Records(st.log)))
  {
    var ids := Ids(st.flat);
    assert Ids(st.flat[..i] + st.flat[i + 1..]) == ids[..i] + ids[i + 1..];
    SubsequenceDrop(ids, i);
    SubsequenceTrans(ids[..i] + ids[i + 1..], ids, Ids(Records(st.log)));
  }

  lemma DeleteAgreesAt(flat: seq<Message>, list: seq<Message>, i: nat, ch: string)
    requires DistinctIds(flat) && DistinctIds(list) && i < |flat| && IsSuffix(Filter(flat, InChannel(ch)), list)
    ensures IsSuffix(Filter(RemoveFirst(flat, flat[i].id), InChannel(ch)),
                     if ch == Normalize(flat[i].channel) then RemoveFirst(list, flat[i].id) else list)
  {
    if ch == Normalize(flat[i].channel) {
      RemoveAgreesHome(flat, list, flat[i].id, ch);
    } else {
      RemoveAgreesAway(flat, flat[i].id, ch);
    }
  }

  lemma DeleteAgrees(st: Store, births: Births, i: nat)
    requires Inv(st, births) && i < |st.flat| && i == IndexOf(st.flat, st.flat[i].id)
    ensures Agrees(Delete(st, st.flat[i].id).0)
  {
    var id, st' := st.flat[i].id, Delete(st, st.flat[i].id).0;
    InOwnList(st, births, st.flat[i]);
    forall ch ensures IsSuffix(Filter(st'.flat, InChannel(ch)), List(st'.index, ch)) {
      assert IsSuffix(Filter(st.flat, InChannel(ch)), List(st.index, ch));
      assert ch in st.index ==> GoodChannel(births, ch, st.index[ch], st.cap);
      DeleteAgreesAt(st.flat, List(st.index, ch), i, ch);
    }
  }

  lemma DeleteKeeps(st: Store, births: Births, id: string)
    requires Inv(st, births)
    ensures Inv(Delete(st, id).0, births)
  {
    var i := IndexOf(st.flat, id);
    if i < |st.flat| {
      var st' := Delete(st, id).0;
      var home := Normalize(st.flat[i].channel);
      InOwnList(st, births, st.flat[i]);
      RemoveGood(births, st.flat, id);
      RemoveGood(births, st.index[home], id);
      assert GoodChannel(births, home, st'.index[home], st.cap);
      RemoveTraced(st, i);
      DeleteAgrees(st, births, i);
    }
  }

  // ---- Compact and load ----

  lemma CompactKeeps(st: Store, births: Births)
    requires Inv(st, births)
    ensures Inv(Compact(st), births)
  {
    RecordsOfLines(st.flat);
    SubsequenceRefl(Ids(st.flat));
    assert forall ch :: IsSuffix(Filter(st.flat, InChannel(ch)), List(st.index, ch));
  }

  /** Grouping a list by channel gives an index that agrees with it. */
  lemma GroupKeeps(msgs: seq<Message>, births: Births, cap: nat)
    requires Good(births, msgs) && |msgs| <= cap
    ensures forall ch :: List(Group(msgs), ch) == Filter(msgs, InChannel(ch))
    ensures forall ch | ch in Group(msgs) :: GoodChannel(births, ch, Group(msgs)[ch], cap)
  {
    forall ch ensures List(Group(msgs), ch) == Filter(msgs, InChannel(ch)) {
      GroupIsFilter(msgs, ch);
    }
    forall ch | ch in Group(msgs) ensures GoodChannel(births, ch, Group(msgs)[ch], cap) {
      GroupIsFilter(msgs, ch);
      FilterKeepsDistinct(msgs, InChannel(ch));
      FilterMembers(msgs, InChannel(ch));
    }
  }

  lemma LoadGood(st: Store, births: Births, size: Message -> nat)
    requires Good(births, Records(st.log))
    ensures Good(births, Load(st, size).0.flat) && |Load(st, size).0.flat| <= st.cap
  {
    var readable, records := Readable(st.log, size), Records(st.log);
    ReadableIsPrefix(st.log, size);
    assert forall i :: 0 <= i < |readable| ==> readable[i] == records[i] && records[i] in records;
    assert Good(births, readable);
    LastNSuffix(readable, st.cap);
    SuffixGood(births, LastN(readable, st.cap), readable);
  }

  lemma SliceTraced(a: seq<Message>, b: seq<Message>, c: seq<Message>)
    requires IsSuffix(a, b) && b <= c
    ensures Subsequence(Ids(a), Ids(c))
  {
    MapSuffix(a, b, IdOf());
    SubsequenceSuffix(Ids(a), Ids(b));
    assert Ids(b) == Ids(c)[..|b|];
    SubsequencePrefix(Ids(b), Ids(c));
    SubsequenceTrans(Ids(a), Ids(b), Ids(c));
  }

  lemma LoadTraced(st: Store, size: Message -> nat)
    ensures Traced(Load(st, size).0)
  {
    var readable := Readable(st.log, size);
    ReadableIsPrefix(st.log, size);
    LastNSuffix(readable, st.cap);
    SliceTraced(LastN(readable, st.cap), readable, Records(st.log));
  }

  lemma LoadKeeps(st: Store, births: Births, size: Message -> nat)
    requires Inv(st, births)
    ensures Inv(Load(st, size).0, births)
  {
    var st' := Load(st, size).0;
    LoadGood(st, births, size);
    LoadTraced(st, size);
    GroupKeeps(st'.flat, births, st.cap);
    assert Agrees(st');
  }

  lemma StepKeeps(st: Store, births: Births, op: Op, size: Message -> nat)
    requires Inv(st, births) && Fresh(births, op)
    ensures Inv(Step(st, op, size), Born(births, op))
  {
    match op
    case SaveOp(msg, generated) => SaveKeeps(st, births, msg, generated);
    case UpdateOp(id, content) => UpdateKeeps(st, births, id, content);
    case DeleteOp(id) => DeleteKeeps(st, births, id);
    case ReactOp(id, emoji, user) => ReactKeeps(st, births, id, emoji, user);
    case CompactOp => CompactKeeps(st, births);
    case LoadOp => LoadKeeps(st, births, size);
  }

  // ---- Every run ----

  /** Any run from a state with the invariant, saving only unused ids, ends in a state with it. */
  lemma {:induction false} RunKeeps(st: Store, births: Births, ops: seq<Op>, size: Message -> nat)
    requires Inv(st, births) && FreshAll(births, ops)
    ensures Inv(Run(st, ops, size), BornAll(births, ops))
    decreases |ops|
  {
    if |ops| > 0 {
      StepKeeps(st, births, ops[0], size);
      RunKeeps(Step(st, ops[0], size), Born(births, ops[0]), ops[1..], size);
    }
  }

  /** A store opened on a log whose messages have distinct ids starts with the invariant. */
  lemma OpeningHolds(cap: nat, log: seq<Line>, births: Births)
    requires DistinctIds(Records(log)) && KnownIn(births, Records(log))
    ensures Inv(Empty(cap, log), births)
  {
  }
}
