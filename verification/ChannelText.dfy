/** The chats and images of a message list, reactions aside: what store and client are compared by. */
module ChannelText {
  import opened Sequences
  import opened Protocol
  import opened StoreModel
  import opened StoreRuns
  import opened ClientView
  import opened Settling
  import Mesh

  function Kept(unsaved: set<string>): Message -> bool {
    (m: Message) => Talks(m) && m.id !in unsaved
  }

  function Text(list: seq<Message>, unsaved: set<string>): seq<Message> {
    Map(Filter(list, Kept(unsaved)), Plain())
  }

  function Stored(st: Store, ch: string): seq<Message> {
    Text(List(st.index, ch), {})
  }

  /** What a broadcast message, an edit, a removal or a reaction does to the store, here or as received from a peer. */
  function Changed(st: Store, m: Message, fromPeer: bool): Store {
    if fromPeer then Mesh.PeerStore(st, m, "")
    else if m.kind == EditMessage then Update(st, m.id, m.content).0
    else if m.kind == DeleteMessage then Delete(st, m.id).0
    else if m.kind == Reaction then React(st, m.id, m.content, m.sender).0
    else Mesh.OriginStore(st, m, "")
  }

  predicate TooLong(m: Message) {
    |m.content| > MAX_MESSAGE_SIZE
  }

  predicate Saves(m: Message, fromPeer: bool) {
    !TooLong(m) && if fromPeer then Mesh.SavedAtPeer(m.kind) else Mesh.SavedAtOrigin(m.kind)
  }

  // ---- Lists ----

  lemma TextEdit(list: seq<Message>, unsaved: set<string>, id: string, content: string)
    requires DistinctIds(list)
    ensures Text(EditFirst(list, id, content), unsaved) == Map(Text(list, unsaved), EditOf(id, content))
  {
    EditFirstIsEdit(list, id, content);
    FilterMap(list, Kept(unsaved), EditOf(id, content));
    assert forall m :: Plain()(EditOf(id, content)(m)) == EditOf(id, content)(Plain()(m));
  }

  lemma TextRemove(list: seq<Message>, unsaved: set<string>, id: string)
    requires DistinctIds(list)
    ensures Text(RemoveFirst(list, id), unsaved) == Filter(Text(list, unsaved), NotId(id))
  {
    RemoveFirstIsFilter(list, id);
    FilterCommutes(list, NotId(id), Kept(unsaved));
    FilterMap(Filter(list, Kept(unsaved)), NotId(id), Plain());
  }

  lemma TextReact(list: seq<Message>, id: string, emoji: string, user: string)
    ensures Text(Map(list, Protocol.ReactOf(id, emoji, user)), {}) == Text(list, {})
  {
    FilterMap(list, Kept({}), Protocol.ReactOf(id, emoji, user));
  }

  lemma TextAppend(list: seq<Message>, unsaved: set<string>, m: Message)
    ensures Text(list + [m], unsaved) == Text(list, unsaved) + if Kept(unsaved)(m) then [Plain()(m)] else []
  {
    FilterConcat(list, [m], Kept(unsaved));
    var tail := Filter([m], Kept(unsaved));
    assert tail == if Kept(unsaved)(m) then [m] else [];
    assert Map(Filter(list, Kept(unsaved)) + tail, Plain()) == Text(list, unsaved) + Map(tail, Plain());
  }

  /** Lists that differ in reactions only have the same text. */
  lemma TextPlain(a: seq<Message>, b: seq<Message>, unsaved: set<string>)
    requires Map(a, Plain()) == Map(b, Plain())
    ensures Text(a, unsaved) == Text(b, unsaved)
  {
    FilterMap(a, Kept(unsaved), Plain());
    FilterMap(b, Kept(unsaved), Plain());
    PlainTwice(Filter(a, Kept(unsaved)));
    PlainTwice(Filter(b, Kept(unsaved)));
  }

  lemma PlainTwice(s: seq<Message>)
    ensures Map(Map(s, Plain()), Plain()) == Map(s, Plain())
  {
  }

  /** The messages of the text are those of the list that talk and were saved. */
  lemma TextMembers(list: seq<Message>, unsaved: set<string>)
    ensures forall x | x in list && Kept(unsaved)(x) :: Plain()(x) in Text(list, unsaved)
    ensures forall y | y in Text(list, unsaved) :: exists x | x in list :: Kept(unsaved)(x) && y == Plain()(x)
  {
    var kept := Filter(list, Kept(unsaved));
    FilterMembers(list, Kept(unsaved));
    forall x | x in list && Kept(unsaved)(x) ensures Plain()(x) in Text(list, unsaved) {
      var i :| 0 <= i < |kept| && kept[i] == x;
      assert Text(list, unsaved)[i] == Plain()(x);
    }
    forall y | y in Text(list, unsaved) ensures exists x | x in list :: Kept(unsaved)(x) && y == Plain()(x) {
      var i :| 0 <= i < |kept| && Text(list, unsaved)[i] == y;
      assert kept[i] in kept;
    }
  }

  lemma TextDistinct(list: seq<Message>, unsaved: set<string>)
    requires DistinctIds(list)
    ensures DistinctIds(Text(list, unsaved))
  {
    FilterKeepsDistinct(list, Kept(unsaved));
    MapKeepsIds(Filter(list, Kept(unsaved)), Plain());
  }

  lemma TextNewId(list: seq<Message>, unsaved: set<string>, id: string)
    requires !HasId(list, id)
    ensures Text(list, unsaved + {id}) == Text(list, unsaved)
  {
    FilterSame(list, Kept(unsaved), Kept(unsaved + {id}));
  }

  /** A text without the id is what editing or removing it leaves. */
  lemma TextAbsent(list: seq<Message>, id: string, content: string)
    requires !HasId(list, id)
    ensures Map(Text(list, {}), EditOf(id, content)) == Text(list, {}) &&
            Filter(Text(list, {}), NotId(id)) == Text(list, {})
  {
    var s := Text(list, {});
    TextMembers(list, {});
    assert forall i | 0 <= i < |s| :: s[i] in s;
    FilterAbsent(s, id);
  }

  // ---- The store's side ----

  /** Pushing a message that talks appends it, up to eviction; any other kind only evicts. */
  lemma TextPush(list: seq<Message>, m: Message, cap: nat)
    ensures IsSuffix(Text(Push(list, m, cap), {}), Text(list, {}) + if Talks(m) then [Plain()(m)] else [])
  {
    PushSuffix(list, m, cap);
    FilterSuffix(Push(list, m, cap), list + [m], Kept({}));
    MapSuffix(Filter(Push(list, m, cap), Kept({})), Filter(list + [m], Kept({})), Plain());
    TextAppend(list, {}, m);
  }

  lemma ChangedIsSave(st: Store, m: Message, fromPeer: bool)
    requires Shows(m.kind)
    ensures Changed(st, m, fromPeer) == if Saves(m, fromPeer) then Save(st, m, "").0 else st
  {
  }

  /** The stored message that a posted one adds to a channel, if any. */
  function Added(m: Message, ch: string): seq<Message> {
    if Talks(m) && !TooLong(m) && m.channel == ch then [Plain()(m)] else []
  }

  lemma SavedStored(st: Store, m: Message, ch: string)
    requires Mesh.Submittable(m) && !TooLong(m)
    ensures ch != Normalize(m.channel) ==> Stored(Save(st, m, "").0, ch) == Stored(st, ch)
    ensures ch == Normalize(m.channel) ==>
              IsSuffix(Stored(Save(st, m, "").0, ch), Stored(st, ch) +
                       if Talks(m) then [Plain()(Stamped(m, ""))] else [])
  {
    if ch == Normalize(m.channel) { TextPush(List(st.index, ch), Stamped(m, ""), st.cap); }
  }

  lemma PostStored(st: Store, m: Message, fromPeer: bool, ch: string)
    requires Mesh.Submittable(m) && Shows(m.kind)
    ensures IsSuffix(Stored(Changed(st, m, fromPeer), ch), Stored(st, ch) + Added(m, ch))
  {
    ChangedIsSave(st, m, fromPeer);
    assert Stored(st, ch) + [] == Stored(st, ch);
    if Saves(m, fromPeer) { SavedStored(st, m, ch); }
  }

  predicate Found(st: Store, id: string) {
    IndexOf(st.flat, id) < |st.flat|
  }

  lemma NotElsewhere(st: Store, births: Births, m: Message, ch: string)
    requires StoreRuns.Inv(st, births) && m in st.flat && ch != Normalize(m.channel)
    ensures !HasId(List(st.index, ch), m.id)
  {
  }

  lemma EditStored(st: Store, births: Births, id: string, content: string, ch: string)
    requires StoreRuns.Inv(st, births) && Found(st, id)
    ensures Stored(Update(st, id, content).0, ch) == Map(Stored(st, ch), EditOf(id, content))
  {
    var m := st.flat[IndexOf(st.flat, id)];
    InOwnList(st, births, m);
    if ch == Normalize(m.channel) {
      assert GoodChannel(births, ch, st.index[ch], st.cap);
      TextEdit(st.index[ch], {}, id, content);
    } else {
      NotElsewhere(st, births, m, ch);
      TextAbsent(List(st.index, ch), id, content);
    }
  }

  lemma RemoveStored(st: Store, births: Births, id: string, ch: string)
    requires StoreRuns.Inv(st, births) && Found(st, id)
    ensures Stored(Delete(st, id).0, ch) == Filter(Stored(st, ch), NotId(id))
  {
    var m := st.flat[IndexOf(st.flat, id)];
    InOwnList(st, births, m);
    if ch == Normalize(m.channel) {
      assert GoodChannel(births, ch, st.index[ch], st.cap);
      TextRemove(st.index[ch], {}, id);
    } else {
      NotElsewhere(st, births, m, ch);
      TextAbsent(List(st.index, ch), id, "");
    }
  }

  lemma ReactStored(st: Store, births: Births, id: string, emoji: string, user: string, ch: string)
    requires StoreRuns.Inv(st, births)
    ensures Stored(React(st, id, emoji, user).0, ch) == Stored(st, ch)
  {
    var i := IndexOf(st.flat, id);
    if i < |st.flat| && user !in Users(st.flat[i], emoji) {
      var source := st.flat[i];
      InOwnList(st, births, source);
      if ch == Normalize(source.channel) {
        assert GoodChannel(births, ch, st.index[ch], st.cap);
        CopyReactionIsReact(st.index[ch], id, emoji, user, source);
        TextReact(st.index[ch], id, emoji, user);
      }
    }
  }

  // ---- The client's side ----

  lemma PostShown(v: View, m: Message, ch: string)
    requires Shows(m.kind)
    ensures State(Handle(v, m), ch).messages == State(v, ch).messages + if ch == Home(v, m) then [m] else []
  {
  }

  lemma AmendShown(v: View, m: Message, ch: string)
    requires Amends(m.kind)
    ensures State(Handle(v, m), ch).messages == Amend(State(v, ch).messages, m)
  {
  }

  function Shown(v: View, ch: string, unsaved: set<string>): seq<Message> {
    Text(State(v, ch).messages, unsaved)
  }

  lemma ReactionPlain(s: seq<Message>, m: Message)
    requires m.kind == Reaction
    ensures Map(Amend(s, m), Plain()) == Map(s, Plain())
  {
  }

  lemma AmendText(s: seq<Message>, m: Message, unsaved: set<string>)
    requires Amends(m.kind) && DistinctIds(s)
    ensures Text(Amend(s, m), unsaved) == Amended(Text(s, unsaved), m)
  {
    if m.kind == EditMessage {
      TextEdit(s, unsaved, m.id, m.content);
    } else if m.kind == DeleteMessage {
      TextRemove(s, unsaved, m.id);
    } else {
      ReactionPlain(s, m);
      TextPlain(Amend(s, m), s, unsaved);
    }
  }

  /** What the client does with an event, seen in one channel's text. */
  lemma HandleText(v: View, m: Message, ch: string, unsaved: set<string>)
    requires (Shows(m.kind) || Amends(m.kind)) && DistinctIds(State(v, ch).messages)
    ensures Shown(Handle(v, m), ch, unsaved) == Arrived(Shown(v, ch, unsaved), m, Place(ch, unsaved))
  {
    if Shows(m.kind) {
      PostShown(v, m, ch);
      TextAppend(State(v, ch).messages, unsaved, m);
      assert State(v, ch).messages + [] == State(v, ch).messages && Shown(v, ch, unsaved) + [] == Shown(v, ch, unsaved);
    } else {
      AmendShown(v, m, ch);
      AmendText(State(v, ch).messages, m, unsaved);
    }
  }

  lemma SwitchShown(v: View, name: string, ch: string)
    ensures State(Switch(v, name), ch).messages == State(v, ch).messages
  {
  }
}
