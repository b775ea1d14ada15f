/** Runs of store and client in which a guard fails, and what then differs with nothing left waiting. */
module Overtaking {
  import opened Protocol
  import opened StoreModel
  import StoreRuns
  import ClientView
  import opened Commands
  import opened Settling
  import opened ChannelText
  import opened Replica

  lemma {:induction false} RunSnoc(w: World, events: seq<Event>, e: Event)
    requires Runs(w, events) && Enabled(Run(w, events), e)
    ensures Runs(w, events + [e]) && Run(w, events + [e]) == Next(Run(w, events), e)
    decreases |events|
  {
    if |events| == 0 {
      assert events + [e] == [e] && [e][1..] == [];
      assert Run(Next(w, e), []) == Next(w, e);
    } else {
      assert (events + [e])[1..] == events[1..] + [e];
      RunSnoc(Next(w, events[0]), events[1..], e);
    }
  }

  /** An event that arrives in its turn changes nothing of what all events come to. */
  lemma FirstArrivalSame(w: World, ch: string)
    requires |w.waiting| > 0
    requires Shown(ClientView.Handle(w.view, w.waiting[0]), ch, w.unsaved) ==
             Arrived(Shown(w.view, ch, w.unsaved), w.waiting[0], Here(w, ch))
    ensures Agrees(Next(w, Arrive(0)), ch) <==> Agrees(w, ch)
  {
    SplitFirst(w.waiting);
    SettledFirst(Shown(w.view, ch, w.unsaved), w.waiting[0], w.waiting[1..], Here(w, ch));
  }

  lemma SplitFirst(s: seq<Message>)
    requires |s| > 0
    ensures s[..0] + s[1..] == s[1..] && s == [s[0]] + s[1..]
  {
  }

  predicate Reaches(cap: nat, user: string, events: seq<Event>, w: World) {
    Runs(Opening(cap, user), events) && Run(Opening(cap, user), events) == w
  }

  /** One step more of a run. */
  lemma Extend(cap: nat, user: string, events: seq<Event>, w: World, e: Event, ch: string)
    requires Reaches(cap, user, events, w) && Enabled(w, e)
    ensures Reaches(cap, user, events + [e], Next(w, e))
    ensures Agrees(w, ch) ==> (Agrees(Next(w, e), ch) <==> Guard(w, e, ch))
  {
    OpeningHolds(cap, user, ch);
    RunInv(Opening(cap, user), events);
    RunSnoc(Opening(cap, user), events, e);
    if Agrees(w, ch) { NextAgreesIff(w, e, ch); }
  }

  lemma ExtendOutOfTurn(cap: nat, user: string, events: seq<Event>, w: World, k: nat, ch: string) returns (w': World)
    requires Reaches(cap, user, events, w) && Agrees(w, ch) && k < |w.waiting|
    ensures Reaches(cap, user, events + [Arrive(k)], w')
    ensures w'.store == w.store && w'.waiting == w.waiting[..k] + w.waiting[k + 1..]
    ensures Agrees(w', ch) <==> InTurn(Stored(w.store, ch), w.waiting, k, Here(w, ch))
  {
    Extend(cap, user, events, w, Arrive(k), ch);
    w' := Next(w, Arrive(k));
  }

  lemma FirstShown(cap: nat, user: string, events: seq<Event>, w: World, ch: string)
    requires Reaches(cap, user, events, w) && |w.waiting| > 0
    ensures Shown(ClientView.Handle(w.view, w.waiting[0]), ch, w.unsaved) ==
            Arrived(Shown(w.view, ch, w.unsaved), w.waiting[0], Here(w, ch))
  {
    OpeningHolds(cap, user, ch);
    RunInv(Opening(cap, user), events);
    ArriveShown(w, 0, ch);
  }

  lemma ExtendInTurn(cap: nat, user: string, events: seq<Event>, w: World, ch: string) returns (w': World)
    requires Reaches(cap, user, events, w) && |w.waiting| > 0
    ensures Reaches(cap, user, events + [Arrive(0)], w')
    ensures w'.store == w.store && w'.waiting == w.waiting[1..] && w'.unsaved == w.unsaved
    ensures Agrees(w', ch) <==> Agrees(w, ch)
  {
    RunSnoc(Opening(cap, user), events, Arrive(0));
    FirstShown(cap, user, events, w, ch);
    FirstArrivalSame(w, ch);
    w' := Next(w, Arrive(0));
    SplitFirst(w.waiting);
  }

  /** The last three events arrive in turn. */
  lemma ThreeArrivals(cap: nat, user: string, events: seq<Event>, w: World, ch: string) returns (w': World)
    requires Reaches(cap, user, events, w) && |w.waiting| == 3
    ensures Reaches(cap, user, events + [Arrive(0)] + [Arrive(0)] + [Arrive(0)], w')
    ensures w'.waiting == [] && (Agrees(w', ch) <==> Agrees(w, ch))
  {
    w' := ExtendInTurn(cap, user, events, w, ch);
    w' := ExtendInTurn(cap, user, events + [Arrive(0)], w', ch);
    w' := ExtendInTurn(cap, user, events + [Arrive(0)] + [Arrive(0)], w', ch);
  }

  predicate Short(m: Message, id: string, channel: string) {
    m.kind == Chat && m.id == id && m.channel == channel && m.content == ""
  }

  function PostedOnce(w: World, m: Message): World {
    w.(store := Save(w.store, m, "").0, births := w.births[m.id := StoreRuns.BirthOf(m)], waiting := w.waiting + [m],
        seen := w.seen + {m.id})
  }

  lemma ShortPost(w: World, m: Message, id: string, channel: string)
    requires Short(m, id, channel) && id != "" && channel != "" && id !in w.seen
    ensures Enabled(w, Apply(m, true)) && Next(w, Apply(m, true)) == PostedOnce(w, m)
    ensures forall ch :: Guard(w, Apply(m, true), ch)
  {
  }

  lemma ExtendPost(cap: nat, user: string, events: seq<Event>, w: World, m: Message, id: string, channel: string,
      ch: string)
    returns (w': World)
    requires Reaches(cap, user, events, w) && Agrees(w, ch) && Short(m, id, channel) && id != "" && channel != "" &&
             id !in w.seen
    ensures Reaches(cap, user, events + [Apply(m, true)], w') && Agrees(w', ch)
    ensures w'.store == Save(w.store, m, "").0 && w'.waiting == w.waiting + [m]
    ensures w'.seen == w.seen + {id} && w'.unsaved == w.unsaved
  {
    ShortPost(w, m, id, channel);
    Extend(cap, user, events, w, Apply(m, true), ch);
    w' := PostedOnce(w, m);
  }

  lemma Opened(cap: nat, user: string, ch: string) returns (w: World)
    ensures Reaches(cap, user, [], w) && Agrees(w, ch)
    ensures w.store == Empty(cap, []) && w.waiting == [] && w.seen == {} && w.unsaved == {}
  {
    OpeningHolds(cap, user, ch);
    w := Opening(cap, user);
  }

  lemma OneApplied(cap: nat, user: string, x: Message) returns (w: World)
    requires Short(x, "x", "a")
    ensures Reaches(cap, user, [] + [Apply(x, true)], w) && Agrees(w, "a")
    ensures w.waiting == [x] && w.unsaved == {} && w.seen == {"x"} && w.store == Save(Empty(cap, []), x, "").0
  {
    w := Opened(cap, user, "a");
    w := ExtendPost(cap, user, [], w, x, "x", "a", "a");
  }

  /** Two posts saved, neither shown yet. */
  lemma TwoApplied(cap: nat, user: string, x: Message, y: Message, cy: string) returns (w: World)
    requires Short(x, "x", "a") && Short(y, "y", cy) && cy != ""
    ensures Reaches(cap, user, [] + [Apply(x, true)] + [Apply(y, true)], w) && Agrees(w, "a")
    ensures w.waiting == [x, y] && w.unsaved == {} && w.store == Save(Save(Empty(cap, []), x, "").0, y, "").0
  {
    w := OneApplied(cap, user, x);
    w := ExtendPost(cap, user, [] + [Apply(x, true)], w, y, "y", cy, "a");
  }

  lemma TwoStored(cap: nat, x: Message, y: Message)
    requires cap >= 2 && Short(x, "x", "a") && Short(y, "y", "a")
    ensures var st := Save(Save(Empty(cap, []), x, "").0, y, "").0;
            "a" in st.index && st.index["a"] == [x, y]
  {
  }

  lemma SecondNotInTurn(list: seq<Message>, x: Message, y: Message, at: Place)
    requires Lands(x, at) && Lands(y, at) && HasId(list, y.id)
    ensures !InTurn(list, [x, y], 1, at)
  {
  }

  /** The second of two posts is shown first. */
  lemma SecondFirst(cap: nat, user: string, events: seq<Event>, w: World, x: Message, y: Message) returns (w': World)
    requires Reaches(cap, user, events, w) && Agrees(w, "a") && w.waiting == [x, y] && HasId(Stored(w.store, "a"), y.id)
    requires Lands(x, Here(w, "a")) && Lands(y, Here(w, "a"))
    ensures Reaches(cap, user, events + [Arrive(1)] + [Arrive(0)], w') && w'.waiting == [] && !Agrees(w', "a")
  {
    SecondNotInTurn(Stored(w.store, "a"), x, y, Here(w, "a"));
    w' := ExtendOutOfTurn(cap, user, events, w, 1, "a");
    w' := ExtendInTurn(cap, user, events + [Arrive(1)], w', "a");
  }

  lemma TwoInText(cap: nat, x: Message, y: Message)
    requires cap >= 2 && Short(x, "x", "a") && Short(y, "y", "a")
    ensures HasId(Stored(Save(Save(Empty(cap, []), x, "").0, y, "").0, "a"), "y")
  {
    TwoStored(cap, x, y);
    TextMembers([x, y], {});
    assert Plain()(y) in Text([x, y], {});
  }

  lemma TwoWaiting(cap: nat, user: string, x: Message, y: Message) returns (w: World)
    requires cap >= 2 && Short(x, "x", "a") && Short(y, "y", "a")
    ensures Reaches(cap, user, [] + [Apply(x, true)] + [Apply(y, true)], w) && Agrees(w, "a") && w.waiting == [x, y]
    ensures HasId(Stored(w.store, "a"), "y") && w.unsaved == {}
  {
    w := TwoApplied(cap, user, x, y, "a");
    TwoInText(cap, x, y);
  }

  /**
   * Two peers' posts to one channel, saved one after the other and shown the other way round: nothing waits any
   * more, and the client has them in another order than the store.
   */
  lemma PostsOvertake(cap: nat, user: string, x: Message, y: Message) returns (w: World)
    requires cap >= 2 && Short(x, "x", "a") && Short(y, "y", "a")
    ensures Reaches(cap, user, [Apply(x, true), Apply(y, true), Arrive(1), Arrive(0)], w)
    ensures w.waiting == [] && !Agrees(w, "a")
  {
    w := TwoWaiting(cap, user, x, y);
    w := SecondFirst(cap, user, [] + [Apply(x, true)] + [Apply(y, true)], w, x, y);
    InOrder([Apply(x, true), Apply(y, true), Arrive(1), Arrive(0)]);
  }

  /** A list of events is what it is built up to, one by one. */
  lemma InOrder<T>(s: seq<T>)
    ensures |s| == 4 ==> [] + [s[0]] + [s[1]] + [s[2]] + [s[3]] == s
    ensures |s| == 6 ==> [] + [s[0]] + [s[1]] + [s[2]] + [s[3]] + [s[4]] + [s[5]] == s
  {
  }

  lemma EvictedStore(x: Message, y: Message)
    requires Short(x, "x", "a") && Short(y, "y", "b")
    ensures var st := Save(Save(Empty(1, []), x, "").0, y, "").0;
            st.flat == [y] && "a" in st.index && st.index["a"] == [x]
  {
  }

  /** An edit that finds nothing: the store stays, the event goes out. */
  lemma ExtendLostEdit(cap: nat, user: string, events: seq<Event>, w: World, edit: Message, x: Message, ch: string)
    returns (w': World)
    requires Reaches(cap, user, events, w) && Agrees(w, ch) && edit.kind == EditMessage && !Found(w.store, edit.id)
    requires x in List(w.store.index, ch) && Talks(x) && x.id == edit.id && x.content != edit.content
    ensures Reaches(cap, user, events + [Apply(edit, true)], w')
    ensures !Agrees(w', ch) && w'.waiting == w.waiting + [edit]
  {
    NotFoundUnchanged(w.store, edit, true);
    Extend(cap, user, events, w, Apply(edit, true), ch);
    w' := Next(w, Apply(edit, true));
  }

  lemma EvictedState(user: string, x: Message, y: Message) returns (w: World)
    requires Short(x, "x", "a") && Short(y, "y", "b")
    ensures Reaches(1, user, [] + [Apply(x, true)] + [Apply(y, true)], w) && Agrees(w, "a") && w.waiting == [x, y]
    ensures !Found(w.store, "x") && x in List(w.store.index, "a")
  {
    w := TwoApplied(1, user, x, y, "b");
    EvictedStore(x, y);
    assert IndexOf([y], "x") == 1;
  }

  /**
   * Capacity 1: a message evicted from the flat list by another channel's is still in its own channel's list when a
   * peer's edit of it comes. The store drops the edit, and the client shows it.
   */
  lemma EvictedEdit(user: string, x: Message, y: Message, at: int) returns (w: World)
    requires Short(x, "x", "a") && Short(y, "y", "b")
    ensures var edit := EditEvent("x", x.sender, "new", "a", at);
            Reaches(1, user, [Apply(x, true), Apply(y, true), Apply(edit, true), Arrive(0), Arrive(0), Arrive(0)], w)
    ensures w.waiting == [] && !Agrees(w, "a")
  {
    var edit := EditEvent("x", x.sender, "new", "a", at);
    var events := [] + [Apply(x, true)] + [Apply(y, true)];
    w := EvictedState(user, x, y);
    w := ExtendLostEdit(1, user, events, w, edit, x, "a");
    w := ThreeArrivals(1, user, events + [Apply(edit, true)], w, "a");
    InOrder([Apply(x, true), Apply(y, true), Apply(edit, true), Arrive(0), Arrive(0), Arrive(0)]);
  }

  // ---- Two edits ----

  lemma EditInTurnIff(list: seq<Message>, e1: Message, e2: Message, at: Place)
    requires e1.kind == e2.kind == EditMessage && e1.id == e2.id && HasId(list, e1.id)
    ensures InTurn(list, [e1, e2], 1, at) <==> e1.content == e2.content
  {
  }

  /** An edit that finds its message: here and there it reads the same again. */
  lemma ExtendEdit(cap: nat, user: string, events: seq<Event>, w: World, edit: Message, ch: string) returns (w': World)
    requires Reaches(cap, user, events, w) && Agrees(w, ch) && edit.kind == EditMessage && Found(w.store, edit.id)
    ensures Reaches(cap, user, events + [Apply(edit, false)], w') && Agrees(w', ch)
    ensures w'.store == Update(w.store, edit.id, edit.content).0 && w'.waiting == w.waiting + [edit] &&
            w'.unsaved == w.unsaved
  {
    Extend(cap, user, events, w, Apply(edit, false), ch);
    w' := Next(w, Apply(edit, false));
  }

  lemma StaysFound(st: Store, id: string, content: string, ch: string)
    requires Found(st, id)
    ensures Found(Update(st, id, content).0, id)
    ensures ch in st.index && HasId(st.index[ch], id) ==>
              ch in Update(st, id, content).0.index && HasId(Update(st, id, content).0.index[ch], id)
  {
    var st' := Update(st, id, content).0;
    assert |st'.flat| == |st.flat| && forall i | 0 <= i < |st.flat| :: st'.flat[i].id == st.flat[i].id;
    if ch in st.index && HasId(st.index[ch], id) {
      var i :| 0 <= i < |st.index[ch]| && st.index[ch][i].id == id;
      assert |st'.index[ch]| == |st.index[ch]| && st'.index[ch][i].id == id;
      assert st'.index[ch][i] in st'.index[ch];
    }
  }

  lemma OneStored(cap: nat, x: Message)
    requires cap >= 1 && Short(x, "x", "a")
    ensures var st := Save(Empty(cap, []), x, "").0;
            Found(st, "x") && "a" in st.index && HasId(st.index["a"], "x") && forall m | m in st.index["a"] :: Talks(m)
  {
  }

  lemma StaysTalk(st: Store, id: string, content: string, ch: string)
    requires ch in st.index && forall m | m in st.index[ch] :: Talks(m)
    ensures ch in Update(st, id, content).0.index && forall m | m in Update(st, id, content).0.index[ch] :: Talks(m)
  {
    var s := st.index[ch];
    assert forall i | 0 <= i < |s| :: s[i] in s;
  }

  /** The store holds the message, in the flat list and as text of the channel. */
  predicate Holds(st: Store, id: string, ch: string) {
    Found(st, id) && ch in st.index && HasId(st.index[ch], id) && forall m | m in st.index[ch] :: Talks(m)
  }

  lemma HoldsAfterEdit(st: Store, id: string, content: string, ch: string)
    requires Holds(st, id, ch)
    ensures Holds(Update(st, id, content).0, id, ch)
  {
    StaysFound(st, id, content, ch);
    StaysTalk(st, id, content, ch);
  }

  lemma HeldInText(st: Store, id: string, ch: string)
    requires Holds(st, id, ch)
    ensures HasId(Stored(st, ch), id)
  {
    TextMembers(st.index[ch], {});
    var m :| m in st.index[ch] && m.id == id;
    assert Plain()(m) in Stored(st, ch);
  }

  lemma ShownPost(cap: nat, user: string, x: Message) returns (w: World)
    requires cap >= 1 && Short(x, "x", "a")
    ensures Reaches(cap, user, [] + [Apply(x, true)] + [Arrive(0)], w) && Agrees(w, "a")
    ensures w.waiting == [] && Holds(w.store, "x", "a")
  {
    w := OneApplied(cap, user, x);
    OneStored(cap, x);
    w := ExtendInTurn(cap, user, [] + [Apply(x, true)], w, "a");
  }

  lemma EditedTwice(cap: nat, user: string, x: Message, e1: Message, e2: Message) returns (w: World)
    requires cap >= 1 && Short(x, "x", "a") && e1.kind == e2.kind == EditMessage && e1.id == e2.id == "x"
    ensures Reaches(cap, user, [] + [Apply(x, true)] + [Arrive(0)] + [Apply(e1, false)] + [Apply(e2, false)], w)
    ensures Agrees(w, "a") && w.waiting == [e1, e2] && HasId(Stored(w.store, "a"), "x")
  {
    var events := [] + [Apply(x, true)] + [Arrive(0)];
    w := ShownPost(cap, user, x);
    HoldsAfterEdit(w.store, "x", e1.content, "a");
    var w1 := ExtendEdit(cap, user, events, w, e1, "a");
    HoldsAfterEdit(w1.store, "x", e2.content, "a");
    w := ExtendEdit(cap, user, events + [Apply(e1, false)], w1, e2, "a");
    HeldInText(w.store, "x", "a");
  }

  /**
   * Two edits of one message, applied one after the other by different commands and shown the other way round: with
   * nothing waiting any more, client and store agree exactly if the edits say the same.
   */
  lemma EditsOvertakeIff(cap: nat, user: string, x: Message, first: string, at: int, second: string, later: int)
      returns (w: World)
    requires cap >= 1 && Short(x, "x", "a")
    ensures var e1, e2 := EditEvent("x", x.sender, first, "a", at), EditEvent("x", x.sender, second, "a", later);
            Reaches(cap, user, [Apply(x, true), Arrive(0), Apply(e1, false), Apply(e2, false), Arrive(1), Arrive(0)], w)
    ensures w.waiting == [] && (Agrees(w, "a") <==> first == second)
  {
    var e1, e2 := EditEvent("x", x.sender, first, "a", at), EditEvent("x", x.sender, second, "a", later);
    w := EditedTwice(cap, user, x, e1, e2);
    w := SecondEditFirst(cap, user, [] + [Apply(x, true)] + [Arrive(0)] + [Apply(e1, false)] + [Apply(e2, false)], w,
        e1, e2);
    InOrder([Apply(x, true), Arrive(0), Apply(e1, false), Apply(e2, false), Arrive(1), Arrive(0)]);
  }

  lemma SecondEditFirst(cap: nat, user: string, events: seq<Event>, w: World, e1: Message, e2: Message)
      returns (w': World)
    requires Reaches(cap, user, events, w) && Agrees(w, "a") && w.waiting == [e1, e2] &&
             HasId(Stored(w.store, "a"), e1.id)
    requires e1.kind == e2.kind == EditMessage && e1.id == e2.id
    ensures Reaches(cap, user, events + [Arrive(1)] + [Arrive(0)], w') && w'.waiting == []
    ensures Agrees(w', "a") <==> e1.content == e2.content
  {
    EditInTurnIff(Stored(w.store, "a"), e1, e2, Here(w, "a"));
    w' := ExtendOutOfTurn(cap, user, events, w, 1, "a");
    w' := ExtendInTurn(cap, user, events + [Arrive(1)], w', "a");
  }

  // ---- Reactions ----

  /**
   * In any state with nothing waiting in which the client shows a message as the store has it, a reaction, applied
   * and shown, leaves the two the same exactly if the user had not reacted so before: the store refuses a repeated
   * reaction but reports success, and the client counts it again.
   */
  lemma ReactionsAgreeIff(w: World, id: string, emoji: string, user: string, at: int, ch: string)
    requires w.waiting == [] && ch in w.view.states && Found(w.store, id)
    requires var shown, i := w.view.states[ch].messages, IndexOf(w.store.flat, id);
             IndexOf(shown, id) < |shown| && shown[IndexOf(shown, id)] == w.store.flat[i]
    ensures var e := Apply(ReactionEvent(id, user, emoji, at), false);
            Runs(w, [e, Arrive(0)]) &&
            var w' := Run(w, [e, Arrive(0)]);
            var i, k := IndexOf(w.store.flat, id), IndexOf(w.view.states[ch].messages, id);
            && w'.waiting == [] && ch in w'.view.states && i < |w'.store.flat| && k < |w'.view.states[ch].messages|
            && (w'.view.states[ch].messages[k] == w'.store.flat[i] <==> user !in Users(w.store.flat[i], emoji))
  {
    var m := ReactionEvent(id, user, emoji, at);
    ReactedHere(w.store, id, emoji, user);
    ReactedThere(w.view, m, ch);
    ReactedApart(w.store.flat[IndexOf(w.store.flat, id)], emoji, user);
    ReactionRun(w, m);
  }

  lemma ReactionRun(w: World, m: Message)
    requires w.waiting == [] && m.kind == Reaction
    ensures var events := [Apply(m, false), Arrive(0)];
            Runs(w, events) && Run(w, events).waiting == [] && Run(w, events).view == ClientView.Handle(w.view, m) &&
            Run(w, events).store == StoreModel.React(w.store, m.id, m.content, m.sender).0
  {
    var e := Apply(m, false);
    var w1 := Next(w, e);
    assert w1.waiting == [m] && w1.view == w.view;
    assert [e, Arrive(0)][1..] == [Arrive(0)] && [Arrive(0)][1..] == [];
    assert Run(w1, [Arrive(0)]) == Next(w1, Arrive(0));
  }

  lemma ReactedHere(st: Store, id: string, emoji: string, user: string)
    requires Found(st, id)
    ensures var i, flat := IndexOf(st.flat, id), StoreModel.React(st, id, emoji, user).0.flat;
            |flat| == |st.flat| && flat[i] == Reacted(st.flat[i], emoji, user)
  {
  }

  lemma ReactedThere(v: ClientView.View, m: Message, ch: string)
    requires m.kind == Reaction && ch in v.states && IndexOf(v.states[ch].messages, m.id) < |v.states[ch].messages|
    ensures var k, s := IndexOf(v.states[ch].messages, m.id), v.states[ch].messages;
            ch in ClientView.Handle(v, m).states &&
            var s' := ClientView.Handle(v, m).states[ch].messages;
            |s'| == |s| && s'[k] == ClientView.Appended(s[k], m.content, m.sender)
  {
  }

  lemma ReactedApart(x: Message, emoji: string, user: string)
    ensures ClientView.Appended(x, emoji, user) == Reacted(x, emoji, user) <==> user !in Users(x, emoji)
  {
  }
}
