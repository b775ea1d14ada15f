/** The terminal client as a second replica of the node's channel lists, fed by the node's broadcasts. */
module Replica {
  import opened Sequences
  import opened Protocol
  import opened StoreModel
  import opened StoreRuns
  import opened ClientView
  import opened Settling
  import opened ChannelText
  import Mesh

  /**
   * A node and one client that is a member of its channels. Whatever changes the store, be it the broadcast loop, a
   * command or a peer, shows the clients its event afterwards and apart from the change, so events wait, in the
   * order of the changes, and any of them may arrive next.
   */
  datatype World = World(
    store: Store,
    births: Births,
    view: View,
    waiting: seq<Message>,
    unsaved: set<string>,
    seen: set<string>)

  datatype Event =
    | Apply(msg: Message, fromPeer: bool)
    | Inject(msg: Message)
    | Arrive(k: nat)
    | Notice(msg: Message)
    | Navigate(name: string)

  /** Edits, removals and reactions are shown whether or not they changed anything; so are posts that are too long. */
  function Next(w: World, e: Event): World
    requires Enabled(w, e)
  {
    match e
    case Apply(m, fromPeer) =>
      World(Changed(w.store, m, fromPeer),
            if Shows(m.kind) && Saves(m, fromPeer) then w.births[m.id := BirthOf(m)] else w.births,
            w.view,
            w.waiting + [m],
            if Shows(m.kind) && TooLong(m) then w.unsaved + {m.id} else w.unsaved,
            if Shows(m.kind) then w.seen + {m.id} else w.seen)
    case Inject(m) => w.(waiting := w.waiting + [m])
    case Arrive(k) => w.(view := Handle(w.view, w.waiting[k]), waiting := w.waiting[..k] + w.waiting[k + 1..])
    case Notice(m) => w.(view := Handle(w.view, m), unsaved := w.unsaved + {m.id}, seen := w.seen + {m.id})
    case Navigate(name) => w.(view := Switch(w.view, name))
  }

  /**
   * New messages have new ids; edits, removals and reactions may name any id, known here or not. A client can also
   * hand the node an edit, removal or reaction event of its own making, which is shown but not applied.
   */
  predicate Enabled(w: World, e: Event) {
    match e
    case Apply(m, fromPeer) => if Shows(m.kind) then Mesh.Submittable(m) && m.id !in w.seen else Amends(m.kind)
    case Inject(m) => Amends(m.kind)
    case Arrive(k) => k < |w.waiting|
    case Notice(m) => m.kind == Chat && m.id !in w.seen
    case Navigate(name) => true
  }

  predicate Runs(w: World, events: seq<Event>)
    decreases |events|
  {
    |events| == 0 || (Enabled(w, events[0]) && Runs(Next(w, events[0]), events[1..]))
  }

  function Run(w: World, events: seq<Event>): World
    requires Runs(w, events)
    decreases |events|
  {
    if |events| == 0 then w else Run(Next(w, events[0]), events[1..])
  }

  function Here(w: World, ch: string): Place {
    Place(ch, w.unsaved)
  }

  /** The store's channel list is the newest part of what the client will show once all waiting events have arrived. */
  predicate Agrees(w: World, ch: string) {
    IsSuffix(Stored(w.store, ch), Settled(Shown(w.view, ch, w.unsaved), w.waiting, Here(w, ch)))
  }

  // ---- The exact guard ----

  /** The channel's list has no such message, or it reads this way already. */
  predicate ReadsSo(list: seq<Message>, id: string, content: string) {
    forall x | x in list && Talks(x) && x.id == id :: x.content == content && x.edited
  }

  predicate Lacks(list: seq<Message>, id: string) {
    forall x | x in list && Talks(x) :: x.id != id
  }

  /**
   * An edit or removal must find its message in the flat list, or concern none that the channel's list still holds
   * and that it would change; an event that arrives must be in turn.
   */
  predicate Guard(w: World, e: Event, ch: string)
    requires Enabled(w, e)
  {
    match e
    case Apply(m, _) =>
      (m.kind == EditMessage ==> Found(w.store, m.id) || ReadsSo(List(w.store.index, ch), m.id, m.content)) &&
      (m.kind == DeleteMessage ==> Found(w.store, m.id) || Lacks(List(w.store.index, ch), m.id))
    case Inject(m) =>
      (m.kind == EditMessage ==> ReadsSo(List(w.store.index, ch), m.id, m.content)) &&
      (m.kind == DeleteMessage ==> Lacks(List(w.store.index, ch), m.id))
    case Arrive(k) => InTurn(Stored(w.store, ch), w.waiting, k, Here(w, ch))
    case _ => true
  }

  // ---- Ids ----

  predicate SeenAll(seen: set<string>, msgs: seq<Message>) {
    DistinctIds(msgs) && forall m | m in msgs :: m.id in seen
  }

  predicate ListsSeen(v: View, seen: set<string>) {
    forall ch | ch in v.states :: SeenAll(seen, v.states[ch].messages)
  }

  predicate NotShown(v: View, id: string) {
    forall ch | ch in v.states :: !HasId(v.states[ch].messages, id)
  }

  /** Waiting messages have been seen under ids of their own, but shown nowhere. */
  predicate WaitingSeen(waiting: seq<Message>, v: View, seen: set<string>) {
    (forall e | e in waiting :: Shows(e.kind) || Amends(e.kind)) &&
    (forall e | e in waiting && Shows(e.kind) :: e.id in seen && NotShown(v, e.id)) &&
    forall i, j | 0 <= i < j < |waiting| && Shows(waiting[i].kind) && Shows(waiting[j].kind) ::
        waiting[i].id != waiting[j].id
  }

  ghost predicate Inv(w: World) {
    StoreRuns.Inv(w.store, w.births) && w.births.Keys <= w.seen && w.unsaved <= w.seen &&
    ListsSeen(w.view, w.seen) && WaitingSeen(w.waiting, w.view, w.seen)
  }

  lemma StateSeen(v: View, seen: set<string>, ch: string)
    requires ListsSeen(v, seen)
    ensures SeenAll(seen, State(v, ch).messages)
  {
  }

  lemma StateLacks(v: View, id: string, ch: string)
    requires NotShown(v, id)
    ensures !HasId(State(v, ch).messages, id)
  {
  }

  lemma UnseenNotShown(v: View, seen: set<string>, id: string)
    requires ListsSeen(v, seen) && id !in seen
    ensures NotShown(v, id)
  {
  }

  lemma TextLacks(list: seq<Message>, unsaved: set<string>, id: string)
    requires !HasId(list, id)
    ensures !HasId(Text(list, unsaved), id)
  {
    TextMembers(list, unsaved);
  }

  /** So the events that wait are apart, as each channel sees them. */
  lemma WaitingApart(w: World, ch: string)
    requires Inv(w)
    ensures Apart(Shown(w.view, ch, w.unsaved), w.waiting, Here(w, ch))
  {
    StateSeen(w.view, w.seen, ch);
    TextDistinct(State(w.view, ch).messages, w.unsaved);
    forall j | 0 <= j < |w.waiting| && Lands(w.waiting[j], Here(w, ch))
      ensures !HasId(Shown(w.view, ch, w.unsaved), w.waiting[j].id)
    {
      assert w.waiting[j] in w.waiting;
      StateLacks(w.view, w.waiting[j].id, ch);
      TextLacks(State(w.view, ch).messages, w.unsaved, w.waiting[j].id);
    }
  }

  lemma AppendSeen(msgs: seq<Message>, seen: set<string>, m: Message)
    requires SeenAll(seen, msgs) && !HasId(msgs, m.id)
    ensures SeenAll(seen + {m.id}, msgs + [m])
  {
  }

  lemma AmendSeen(msgs: seq<Message>, seen: set<string>, m: Message)
    requires SeenAll(seen, msgs) && Amends(m.kind)
    ensures SeenAll(seen, Amend(msgs, m))
    ensures forall id :: !HasId(msgs, id) ==> !HasId(Amend(msgs, m), id)
  {
    var msgs' := Amend(msgs, m);
    if m.kind == DeleteMessage {
      RemoveFirstIsFilter(msgs, m.id);
      FilterKeepsDistinct(msgs, NotId(m.id));
      FilterMembers(msgs, NotId(m.id));
    } else {
      assert |msgs'| == |msgs| && forall i | 0 <= i < |msgs| :: msgs'[i].id == msgs[i].id && msgs[i] in msgs;
    }
  }

  /** A handled event brings its own id at most, and a new one only. */
  lemma HandleSeen(v: View, seen: set<string>, m: Message)
    requires ListsSeen(v, seen) && (if Shows(m.kind) then NotShown(v, m.id) else Amends(m.kind))
    ensures ListsSeen(Handle(v, m), if Shows(m.kind) then seen + {m.id} else seen)
    ensures forall id :: NotShown(v, id) && !(Shows(m.kind) && m.id == id) ==> NotShown(Handle(v, m), id)
  {
    var v' := Handle(v, m);
    forall ch | ch in v'.states
      ensures SeenAll(if Shows(m.kind) then seen + {m.id} else seen, v'.states[ch].messages)
    {
      HandleStateSeen(v, seen, m, ch);
    }
    forall id | NotShown(v, id) && !(Shows(m.kind) && m.id == id) ensures NotShown(v', id) {
      forall ch | ch in v'.states ensures !HasId(v'.states[ch].messages, id) {
        HandleStateLacks(v, seen, m, ch, id);
      }
    }
  }

  lemma HandleStateSeen(v: View, seen: set<string>, m: Message, ch: string)
    requires ListsSeen(v, seen) && (if Shows(m.kind) then NotShown(v, m.id) else Amends(m.kind))
    ensures SeenAll(if Shows(m.kind) then seen + {m.id} else seen, State(Handle(v, m), ch).messages)
  {
    StateSeen(v, seen, ch);
    if Shows(m.kind) {
      PostShown(v, m, ch);
      StateLacks(v, m.id, ch);
      AppendSeen(State(v, ch).messages, seen, m);
      assert State(v, ch).messages + [] == State(v, ch).messages;
    } else {
      AmendShown(v, m, ch);
      AmendSeen(State(v, ch).messages, seen, m);
    }
  }

  lemma HandleStateLacks(v: View, seen: set<string>, m: Message, ch: string, id: string)
    requires ListsSeen(v, seen) && (Shows(m.kind) || Amends(m.kind)) && NotShown(v, id) &&
             !(Shows(m.kind) && m.id == id)
    ensures !HasId(State(Handle(v, m), ch).messages, id)
  {
    StateLacks(v, id, ch);
    if Shows(m.kind) {
      PostShown(v, m, ch);
    } else {
      StateSeen(v, seen, ch);
      AmendShown(v, m, ch);
      AmendSeen(State(v, ch).messages, seen, m);
    }
  }

  lemma GrowSeen(v: View, seen: set<string>, id: string)
    requires ListsSeen(v, seen)
    ensures ListsSeen(v, seen + {id})
  {
  }

  lemma ChangedKeeps(st: Store, births: Births, m: Message, fromPeer: bool)
    requires StoreRuns.Inv(st, births) &&
             (if Shows(m.kind) then Mesh.Submittable(m) && m.id !in births else Amends(m.kind))
    ensures StoreRuns.Inv(Changed(st, m, fromPeer),
            if Shows(m.kind) && Saves(m, fromPeer) then births[m.id := BirthOf(m)] else births)
  {
    if Shows(m.kind) {
      ChangedIsSave(st, m, fromPeer);
      if Saves(m, fromPeer) { SaveKeeps(st, births, m, ""); }
    } else if m.kind == EditMessage {
      UpdateKeeps(st, births, m.id, m.content);
    } else if m.kind == DeleteMessage {
      DeleteKeeps(st, births, m.id);
    } else {
      ReactKeeps(st, births, m.id, m.content, m.sender);
    }
  }

  lemma ApplyWaiting(w: World, m: Message)
    requires ListsSeen(w.view, w.seen) && WaitingSeen(w.waiting, w.view, w.seen)
    requires if Shows(m.kind) then m.id !in w.seen else Amends(m.kind)
    ensures WaitingSeen(w.waiting + [m], w.view, if Shows(m.kind) then w.seen + {m.id} else w.seen)
  {
  }

  lemma ArriveWaiting(w: World, k: nat, v': View)
    requires k < |w.waiting| && WaitingSeen(w.waiting, w.view, w.seen)
    requires forall id :: NotShown(w.view, id) && !(Shows(w.waiting[k].kind) && w.waiting[k].id == id) ==>
             NotShown(v', id)
    ensures WaitingSeen(w.waiting[..k] + w.waiting[k + 1..], v', w.seen)
  {
  }

  lemma NoticeWaiting(w: World, m: Message, v': View)
    requires WaitingSeen(w.waiting, w.view, w.seen) && m.id !in w.seen
    requires forall id :: NotShown(w.view, id) && m.id != id ==> NotShown(v', id)
    ensures WaitingSeen(w.waiting, v', w.seen + {m.id})
  {
  }

  lemma SwitchSeen(v: View, name: string, seen: set<string>)
    requires ListsSeen(v, seen)
    ensures ListsSeen(Switch(v, name), seen) && forall id :: NotShown(v, id) ==> NotShown(Switch(v, name), id)
  {
  }

  lemma NextInv(w: World, e: Event)
    requires Inv(w) && Enabled(w, e)
    ensures Inv(Next(w, e))
  {
    match e
    case Apply(m, fromPeer) =>
      ChangedKeeps(w.store, w.births, m, fromPeer);
      ApplyWaiting(w, m);
      GrowSeen(w.view, w.seen, m.id);
    case Inject(m) => ApplyWaiting(w, m);
    case Arrive(k) =>
      var m := w.waiting[k];
      assert m in w.waiting;
      HandleSeen(w.view, w.seen, m);
      assert Shows(m.kind) ==> w.seen + {m.id} == w.seen;
      ArriveWaiting(w, k, Handle(w.view, m));
    case Notice(m) =>
      UnseenNotShown(w.view, w.seen, m.id);
      HandleSeen(w.view, w.seen, m);
      NoticeWaiting(w, m, Handle(w.view, m));
    case Navigate(name) =>
      SwitchSeen(w.view, name, w.seen);
  }

  // ---- One step ----

  lemma SuffixBefore<T>(c: seq<T>, a: seq<T>, b: seq<T>, tail: seq<T>)
    requires IsSuffix(a, b) && IsSuffix(c, a + tail)
    ensures IsSuffix(c, b + tail)
  {
  }

  /** An id new to everything leaves every channel as it was. */
  lemma {:induction false} SettledPlace(s: seq<Message>, waiting: seq<Message>, at: Place, at': Place)
    requires forall e | e in waiting :: Lands(e, at) == Lands(e, at')
    ensures Settled(s, waiting, at) == Settled(s, waiting, at')
  {
    if |waiting| > 0 {
      assert waiting[|waiting| - 1] in waiting && forall x | x in waiting[..|waiting| - 1] :: x in waiting;
      SettledPlace(s, waiting[..|waiting| - 1], at, at');
    }
  }

  lemma NewUnsaved(w: World, id: string, ch: string)
    requires Inv(w) && id !in w.seen
    ensures Shown(w.view, ch, w.unsaved + {id}) == Shown(w.view, ch, w.unsaved)
    ensures Settled(Shown(w.view, ch, w.unsaved), w.waiting, Place(ch, w.unsaved + {id})) ==
            Settled(Shown(w.view, ch, w.unsaved), w.waiting, Here(w, ch))
  {
    UnseenNotShown(w.view, w.seen, id);
    StateLacks(w.view, id, ch);
    TextNewId(State(w.view, ch).messages, w.unsaved, id);
    SettledPlace(Shown(w.view, ch, w.unsaved), w.waiting, Place(ch, w.unsaved + {id}), Here(w, ch));
  }

  lemma SettledMore(s: seq<Message>, waiting: seq<Message>, m: Message, at: Place)
    ensures Settled(s, waiting + [m], at) == Arrived(Settled(s, waiting, at), m, at)
  {
  }

  lemma PostSettles(w: World, m: Message, fromPeer: bool, ch: string)
    requires Inv(w) && Enabled(w, Apply(m, fromPeer)) && Shows(m.kind)
    ensures var w' := Next(w, Apply(m, fromPeer));
            Settled(Shown(w'.view, ch, w'.unsaved), w'.waiting, Here(w', ch)) ==
            Settled(Shown(w.view, ch, w.unsaved), w.waiting, Here(w, ch)) + Added(m, ch)
  {
    var w' := Next(w, Apply(m, fromPeer));
    NewUnsaved(w, m.id, ch);
    SettledMore(Shown(w.view, ch, w.unsaved), w.waiting, m, Here(w', ch));
    NewArrives(Settled(Shown(w.view, ch, w.unsaved), w.waiting, Here(w, ch)), m, w.unsaved, ch);
  }

  lemma NewArrives(s: seq<Message>, m: Message, unsaved: set<string>, ch: string)
    requires Shows(m.kind) && Mesh.Submittable(m) && m.id !in unsaved
    ensures Arrived(s, m, Place(ch, if TooLong(m) then unsaved + {m.id} else unsaved)) == s + Added(m, ch)
  {
  }

  lemma PostAgrees(w: World, m: Message, fromPeer: bool, ch: string)
    requires Inv(w) && Agrees(w, ch) && Enabled(w, Apply(m, fromPeer)) && Shows(m.kind)
    ensures Agrees(Next(w, Apply(m, fromPeer)), ch)
  {
    PostSettles(w, m, fromPeer, ch);
    PostStored(w.store, m, fromPeer, ch);
    SuffixBefore(Stored(Changed(w.store, m, fromPeer), ch), Stored(w.store, ch),
                 Settled(Shown(w.view, ch, w.unsaved), w.waiting, Here(w, ch)), Added(m, ch));
  }

  lemma AmendSettles(w: World, m: Message, fromPeer: bool, ch: string)
    requires Enabled(w, Apply(m, fromPeer)) && Amends(m.kind)
    ensures var w' := Next(w, Apply(m, fromPeer));
            Settled(Shown(w'.view, ch, w'.unsaved), w'.waiting, Here(w', ch)) ==
            Amended(Settled(Shown(w.view, ch, w.unsaved), w.waiting, Here(w, ch)), m)
  {
    SettledMore(Shown(w.view, ch, w.unsaved), w.waiting, m, Here(w, ch));
  }

  /** Amending every message of a list leaves its end alone exactly if it leaves each message there alone. */
  lemma EditEndIff(list: seq<Message>, s: seq<Message>, f: Message -> Message)
    requires IsSuffix(list, s)
    ensures IsSuffix(list, Map(s, f)) <==> forall m | m in list :: f(m) == m
  {
  }

  lemma RemoveEndIff(list: seq<Message>, s: seq<Message>, id: string)
    requires IsSuffix(list, s)
    ensures IsSuffix(list, Filter(s, NotId(id))) <==> !HasId(list, id)
  {
    if HasId(list, id) {
      FilterMembers(s, NotId(id));
      if IsSuffix(list, Filter(s, NotId(id))) { SuffixHasId(list, Filter(s, NotId(id)), id); }
    } else {
      FilterSuffix(list, s, NotId(id));
      FilterNone(list, id);
    }
  }

  lemma ReadsSoIff(list: seq<Message>, id: string, content: string)
    ensures ReadsSo(list, id, content) <==> forall m | m in Text(list, {}) :: EditOf(id, content)(m) == m
  {
    TextMembers(list, {});
    if forall m | m in Text(list, {}) :: EditOf(id, content)(m) == m {
      forall x | x in list && Talks(x) && x.id == id ensures x.content == content && x.edited {
        assert EditOf(id, content)(Plain()(x)) == Plain()(x);
      }
    }
  }

  lemma LacksIff(list: seq<Message>, id: string)
    ensures Lacks(list, id) <==> !HasId(Text(list, {}), id)
  {
    TextMembers(list, {});
    if !HasId(Text(list, {}), id) {
      forall x | x in list && Talks(x) ensures x.id != id {
        assert Plain()(x) in Text(list, {});
      }
    }
  }

  /** An edit or removal that finds nothing leaves the store as it is. */
  lemma NotFoundUnchanged(st: Store, m: Message, fromPeer: bool)
    requires (m.kind == EditMessage || m.kind == DeleteMessage) && !Found(st, m.id)
    ensures Changed(st, m, fromPeer) == st
  {
  }

  lemma EditKeepsEndIff(st: Store, births: Births, m: Message, fromPeer: bool, ch: string, settled: seq<Message>)
    requires StoreRuns.Inv(st, births) && m.kind == EditMessage && IsSuffix(Stored(st, ch), settled)
    ensures IsSuffix(Stored(Changed(st, m, fromPeer), ch), Amended(settled, m)) <==>
            Found(st, m.id) || ReadsSo(List(st.index, ch), m.id, m.content)
  {
    ChangedIsUpdate(st, m, fromPeer);
    if Found(st, m.id) {
      EditStored(st, births, m.id, m.content, ch);
      MapSuffix(Stored(st, ch), settled, EditOf(m.id, m.content));
    } else {
      NotFoundUnchanged(st, m, fromPeer);
      UnappliedKeepsEndIff(List(st.index, ch), m, settled);
    }
  }

  lemma ChangedIsDelete(st: Store, m: Message, fromPeer: bool)
    requires m.kind == DeleteMessage
    ensures Changed(st, m, fromPeer) == Delete(st, m.id).0
  {
  }

  lemma ChangedIsUpdate(st: Store, m: Message, fromPeer: bool)
    requires m.kind == EditMessage
    ensures Changed(st, m, fromPeer) == Update(st, m.id, m.content).0
  {
  }

  lemma RemoveKeepsEndIff(st: Store, births: Births, m: Message, fromPeer: bool, ch: string, settled: seq<Message>)
    requires StoreRuns.Inv(st, births) && m.kind == DeleteMessage && IsSuffix(Stored(st, ch), settled)
    ensures IsSuffix(Stored(Changed(st, m, fromPeer), ch), Amended(settled, m)) <==>
            Found(st, m.id) || Lacks(List(st.index, ch), m.id)
  {
    ChangedIsDelete(st, m, fromPeer);
    if Found(st, m.id) {
      RemoveStored(st, births, m.id, ch);
      FilterSuffix(Stored(st, ch), settled, NotId(m.id));
    } else {
      NotFoundUnchanged(st, m, fromPeer);
      UnappliedKeepsEndIff(List(st.index, ch), m, settled);
    }
  }

  lemma ReactionChanges(st: Store, m: Message, fromPeer: bool)
    requires m.kind == Reaction
    ensures Changed(st, m, fromPeer) == st ||
            Changed(st, m, fromPeer) == StoreModel.React(st, m.id, m.content, m.sender).0
  {
  }

  lemma ReactChanged(st: Store, births: Births, m: Message, fromPeer: bool, ch: string)
    requires StoreRuns.Inv(st, births) && m.kind == Reaction
    ensures Stored(Changed(st, m, fromPeer), ch) == Stored(st, ch)
  {
    ReactionChanges(st, m, fromPeer);
    ReactStored(st, births, m.id, m.content, m.sender, ch);
  }

  lemma AmendAgreesIff(w: World, m: Message, fromPeer: bool, ch: string)
    requires Inv(w) && Agrees(w, ch) && Amends(m.kind) && Enabled(w, Apply(m, fromPeer))
    ensures Agrees(Next(w, Apply(m, fromPeer)), ch) <==> Guard(w, Apply(m, fromPeer), ch)
  {
    var settled := Settled(Shown(w.view, ch, w.unsaved), w.waiting, Here(w, ch));
    AmendSettles(w, m, fromPeer, ch);
    if m.kind == EditMessage {
      EditKeepsEndIff(w.store, w.births, m, fromPeer, ch, settled);
    } else if m.kind == DeleteMessage {
      RemoveKeepsEndIff(w.store, w.births, m, fromPeer, ch, settled);
    } else {
      ReactChanged(w.store, w.births, m, fromPeer, ch);
    }
  }

  lemma UnappliedKeepsEndIff(list: seq<Message>, m: Message, settled: seq<Message>)
    requires Amends(m.kind) && IsSuffix(Text(list, {}), settled)
    ensures IsSuffix(Text(list, {}), Amended(settled, m)) <==>
            (m.kind == EditMessage ==> ReadsSo(list, m.id, m.content)) &&
                (m.kind == DeleteMessage ==> Lacks(list, m.id))
  {
    if m.kind == EditMessage {
      EditEndIff(Text(list, {}), settled, EditOf(m.id, m.content));
      ReadsSoIff(list, m.id, m.content);
    } else if m.kind == DeleteMessage {
      RemoveEndIff(Text(list, {}), settled, m.id);
      LacksIff(list, m.id);
    }
  }

  lemma InjectAgreesIff(w: World, m: Message, ch: string)
    requires Agrees(w, ch) && Amends(m.kind)
    ensures Agrees(Next(w, Inject(m)), ch) <==> Guard(w, Inject(m), ch)
  {
    SettledMore(Shown(w.view, ch, w.unsaved), w.waiting, m, Here(w, ch));
    UnappliedKeepsEndIff(List(w.store.index, ch), m, Settled(Shown(w.view, ch, w.unsaved), w.waiting, Here(w, ch)));
  }

  lemma ArriveShown(w: World, k: nat, ch: string)
    requires ListsSeen(w.view, w.seen) && WaitingSeen(w.waiting, w.view, w.seen) && k < |w.waiting|
    ensures Shown(Handle(w.view, w.waiting[k]), ch, w.unsaved) ==
            Arrived(Shown(w.view, ch, w.unsaved), w.waiting[k], Here(w, ch))
  {
    StateSeen(w.view, w.seen, ch);
    assert w.waiting[k] in w.waiting;
    HandleText(w.view, w.waiting[k], ch, w.unsaved);
  }

  lemma ArriveSettles(w: World, k: nat, ch: string)
    requires k < |w.waiting|
    requires Shown(Handle(w.view, w.waiting[k]), ch, w.unsaved) ==
             Arrived(Shown(w.view, ch, w.unsaved), w.waiting[k], Here(w, ch))
    ensures Agrees(Next(w, Arrive(k)), ch) <==>
            IsSuffix(Stored(w.store, ch),
                     Settled(Arrived(Shown(w.view, ch, w.unsaved), w.waiting[k], Here(w, ch)),
                             w.waiting[..k] + w.waiting[k + 1..], Here(w, ch)))
  {
  }

  lemma ArriveAgreesIff(w: World, k: nat, ch: string)
    requires Inv(w) && Agrees(w, ch) && k < |w.waiting|
    ensures Agrees(Next(w, Arrive(k)), ch) <==> InTurn(Stored(w.store, ch), w.waiting, k, Here(w, ch))
  {
    ArriveShown(w, k, ch);
    ArriveSettles(w, k, ch);
    WaitingApart(w, ch);
    OvertakesIff(Stored(w.store, ch), Shown(w.view, ch, w.unsaved), w.waiting, k, Here(w, ch));
  }

  lemma NoticeShown(w: World, m: Message, ch: string)
    requires Inv(w) && m.kind == Chat && m.id !in w.seen
    ensures Shown(Handle(w.view, m), ch, w.unsaved + {m.id}) == Shown(w.view, ch, w.unsaved)
  {
    NewUnsaved(w, m.id, ch);
    StateSeen(w.view, w.seen, ch);
    HandleText(w.view, m, ch, w.unsaved + {m.id});
  }

  lemma NoticeAgrees(w: World, m: Message, ch: string)
    requires Inv(w) && Agrees(w, ch) && Enabled(w, Notice(m))
    ensures Agrees(Next(w, Notice(m)), ch)
  {
    NewUnsaved(w, m.id, ch);
    NoticeShown(w, m, ch);
  }

  /** In any state in agreement, whatever waits: a step keeps a channel in agreement exactly if it meets its guard. */
  lemma NextAgreesIff(w: World, e: Event, ch: string)
    requires Inv(w) && Enabled(w, e) && Agrees(w, ch)
    ensures Agrees(Next(w, e), ch) <==> Guard(w, e, ch)
  {
    match e
    case Apply(m, fromPeer) =>
      if Shows(m.kind) {
        PostAgrees(w, m, fromPeer, ch);
      } else {
        AmendAgreesIff(w, m, fromPeer, ch);
      }
    case Inject(m) => InjectAgreesIff(w, m, ch);
    case Arrive(k) => ArriveAgreesIff(w, k, ch);
    case Notice(m) => NoticeAgrees(w, m, ch);
    case Navigate(name) => SwitchShown(w.view, name, ch);
  }

  // ---- Every run ----

  predicate AlwaysAgrees(w: World, events: seq<Event>, ch: string)
    requires Runs(w, events)
    decreases |events|
  {
    Agrees(w, ch) && (|events| > 0 ==> AlwaysAgrees(Next(w, events[0]), events[1..], ch))
  }

  predicate AllGuarded(w: World, events: seq<Event>, ch: string)
    requires Runs(w, events)
    decreases |events|
  {
    |events| > 0 ==> Guard(w, events[0], ch) && AllGuarded(Next(w, events[0]), events[1..], ch)
  }

  lemma {:induction false} RunAgreesIff(w: World, events: seq<Event>, ch: string)
    requires Inv(w) && Runs(w, events) && Agrees(w, ch)
    ensures AlwaysAgrees(w, events, ch) <==> AllGuarded(w, events, ch)
    ensures AllGuarded(w, events, ch) ==> Agrees(Run(w, events), ch)
    ensures Inv(Run(w, events))
    decreases |events|
  {
    if |events| > 0 {
      NextInv(w, events[0]);
      NextAgreesIff(w, events[0], ch);
      if Guard(w, events[0], ch) {
        RunAgreesIff(Next(w, events[0]), events[1..], ch);
      } else {
        RunInv(Next(w, events[0]), events[1..]);
      }
    }
  }

  lemma {:induction false} RunInv(w: World, events: seq<Event>)
    requires Inv(w) && Runs(w, events)
    ensures Inv(Run(w, events))
    decreases |events|
  {
    if |events| > 0 {
      NextInv(w, events[0]);
      RunInv(Next(w, events[0]), events[1..]);
    }
  }

  function Opening(cap: nat, username: string): World {
    World(Empty(cap, []), map[], Start(username), [], {}, {})
  }

  lemma OpeningHolds(cap: nat, username: string, ch: string)
    ensures Inv(Opening(cap, username)) && Agrees(Opening(cap, username), ch)
  {
    StoreRuns.OpeningHolds(cap, [], map[]);
    StartSeen(username);
    NothingStored(cap, ch);
    NothingEnds(Settled(Shown(Start(username), ch, {}), [], Place(ch, {})));
  }

  lemma StartSeen(username: string)
    ensures ListsSeen(Start(username), {})
  {
  }

  lemma NothingStored(cap: nat, ch: string)
    ensures Stored(Empty(cap, []), ch) == []
  {
  }

  lemma NothingEnds(s: seq<Message>)
    ensures IsSuffix([], s)
  {
  }

  /**
   * A client that starts empty with the store, over any run whatever: in every state the store's chats and images of
   * a channel are the newest part of what the client will show there, exactly if every step meets its guard.
   */
  lemma ReplicaAgreesIff(cap: nat, username: string, events: seq<Event>, ch: string)
    requires Runs(Opening(cap, username), events)
    ensures AlwaysAgrees(Opening(cap, username), events, ch) <==> AllGuarded(Opening(cap, username), events, ch)
  {
    OpeningHolds(cap, username, ch);
    RunAgreesIff(Opening(cap, username), events, ch);
  }

  /** After such a run, with nothing waiting, that is what the client shows now, but for what was never stored. */
  lemma ReplicaAgreesNow(cap: nat, username: string, events: seq<Event>, ch: string)
    requires Runs(Opening(cap, username), events) && AllGuarded(Opening(cap, username), events, ch)
    requires Run(Opening(cap, username), events).waiting == []
    ensures var w := Run(Opening(cap, username), events);
            IsSuffix(Stored(w.store, ch), Shown(w.view, ch, w.unsaved))
  {
    OpeningHolds(cap, username, ch);
    RunAgreesIff(Opening(cap, username), events, ch);
  }

  /**
   * Events that arrive in the order of the changes, edits and removals that find their message, and nothing
   * injected.
   */
  predicate Orderly(w: World, events: seq<Event>)
    requires Runs(w, events)
    decreases |events|
  {
    |events| > 0 ==>
      (events[0].Arrive? ==> events[0].k == 0) &&
      (events[0].Apply? && !Shows(events[0].msg.kind) ==> Found(w.store, events[0].msg.id)) &&
      !events[0].Inject? &&
      Orderly(Next(w, events[0]), events[1..])
  }

  /** Such runs meet every guard of every channel, however messages are evicted meanwhile. */
  lemma {:induction false} OrderlyGuarded(w: World, events: seq<Event>, ch: string)
    requires Runs(w, events) && Orderly(w, events)
    ensures AllGuarded(w, events, ch)
    decreases |events|
  {
    if |events| > 0 {
      if events[0].Arrive? { FirstInTurn(Stored(w.store, ch), w.waiting, Here(w, ch)); }
      OrderlyGuarded(Next(w, events[0]), events[1..], ch);
    }
  }

  // ---- Deliveries ----

  predicate OnlyArrivals(events: seq<Event>) {
    forall e | e in events :: e.Arrive?
  }

  /** What the arrivals of a run bring, in the order in which they bring it. */
  function Delivered(w: World, events: seq<Event>): (d: seq<Message>)
    requires Runs(w, events) && OnlyArrivals(events)
    ensures |d| == |events|
    decreases |events|
  {
    if |events| == 0 then []
    else
      assert events[0] in events && forall e | e in events[1..] :: e in events;
      [w.waiting[events[0].k]] + Delivered(Next(w, events[0]), events[1..])
  }

  /** Arrivals change neither the store nor the books, and take what waits. */
  lemma {:induction false} ArrivalsTake(w: World, events: seq<Event>)
    requires Runs(w, events) && OnlyArrivals(events)
    ensures var w' := Run(w, events);
            w'.store == w.store && w'.unsaved == w.unsaved && |w'.waiting| == |w.waiting| - |events|
    ensures forall m | m in Delivered(w, events) :: m in w.waiting
    decreases |events|
  {
    if |events| > 0 {
      assert events[0] in events && forall e | e in events[1..] :: e in events;
      ArrivalsTake(Next(w, events[0]), events[1..]);
    }
  }

  /** They settle what is shown, in their own order. */
  lemma {:induction false} ArrivalsSettle(w: World, events: seq<Event>, ch: string)
    requires Inv(w) && Runs(w, events) && OnlyArrivals(events)
    ensures Shown(Run(w, events).view, ch, w.unsaved) ==
            Settled(Shown(w.view, ch, w.unsaved), Delivered(w, events), Here(w, ch))
    decreases |events|
  {
    if |events| > 0 {
      assert events[0] in events && forall e | e in events[1..] :: e in events;
      var w1 := Next(w, events[0]);
      NextInv(w, events[0]);
      ArriveShown(w, events[0].k, ch);
      ArrivalsSettle(w1, events[1..], ch);
      SettledFirst(Shown(w.view, ch, w.unsaved), w.waiting[events[0].k], Delivered(w1, events[1..]), Here(w, ch));
    }
  }

  /**
   * Posts of one channel that wait, in agreement: once all have arrived, in whatever order, client and store agree
   * exactly if those that the store still has were shown in the order in which they were saved.
   */
  lemma PostsShownIff(w: World, events: seq<Event>, ch: string)
    requires Inv(w) && Agrees(w, ch) && (forall m | m in w.waiting :: Lands(m, Here(w, ch)))
    requires Runs(w, events) && OnlyArrivals(events) && Run(w, events).waiting == []
    ensures Agrees(Run(w, events), ch) <==>
            LastN(Map(Delivered(w, events), Plain()), |Stored(w.store, ch)|) ==
                  LastN(Map(w.waiting, Plain()), |Stored(w.store, ch)|)
  {
    ArrivalsTake(w, events);
    ArrivalsSettle(w, events, ch);
    PostsAgreeIff(Stored(w.store, ch), Shown(w.view, ch, w.unsaved), w.waiting, Delivered(w, events), Here(w, ch));
  }

  /**
   * Edits of one stored message that wait, in agreement: once all have arrived, in whatever order, client and store
   * agree exactly if the last to arrive says what the last to be applied says.
   */
  lemma EditsShownIff(w: World, events: seq<Event>, id: string, ch: string)
    requires Inv(w) && Agrees(w, ch) && |w.waiting| > 0 && HasId(Stored(w.store, ch), id)
    requires forall m | m in w.waiting :: m.kind == EditMessage && m.id == id
    requires Runs(w, events) && OnlyArrivals(events) && Run(w, events).waiting == []
    ensures |events| == |w.waiting|
    ensures Agrees(Run(w, events), ch) <==>
            Delivered(w, events)[|events| - 1].content == w.waiting[|w.waiting| - 1].content
  {
    ArrivalsTake(w, events);
    ArrivalsSettle(w, events, ch);
    EditsAgreeIff(Stored(w.store, ch), Shown(w.view, ch, w.unsaved), w.waiting, Delivered(w, events), id, Here(w, ch));
  }
}
