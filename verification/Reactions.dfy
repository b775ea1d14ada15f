/** The users listed under one emoji of one message, at the store and at the client. */
module Reactions {
  import opened Options
  import opened Sequences
  import opened Protocol
  import opened StoreModel
  import opened StoreRuns
  import ClientView
  import opened Settling
  import opened ChannelText
  import opened Replica
  import Mesh

  datatype Target = Target(id: string, emoji: string, channel: string)

  /** None when the list has no such chat or image. */
  function UsersIn(list: seq<Message>, t: Target): Option<seq<string>> {
    var i := IndexOf(list, t.id);
    if i < |list| && Talks(list[i]) then Some(Users(list[i], t.emoji)) else None
  }

  function StoredUsers(st: Store, t: Target): Option<seq<string>> {
    UsersIn(List(st.index, t.channel), t)
  }

  function ShownUsers(v: ClientView.View, t: Target): Option<seq<string>> {
    UsersIn(ClientView.State(v, t.channel).messages, t)
  }

  predicate Brings(e: Message, t: Target) {
    Talks(e) && Normalize(e.channel) == t.channel && e.id == t.id
  }

  predicate Reacts(e: Message, t: Target) {
    e.kind == Reaction && e.id == t.id && e.content == t.emoji
  }

  predicate Removes(e: Message, t: Target) {
    e.kind == DeleteMessage && e.id == t.id
  }

  /** What an event does to the users that the client lists. */
  function After(users: Option<seq<string>>, e: Message, t: Target): Option<seq<string>> {
    if Brings(e, t) then Some(Users(e, t.emoji))
    else if Removes(e, t) then None
    else if Reacts(e, t) && users.Some? then Some(users.value + [e.sender])
    else users
  }

  function AfterAll(users: Option<seq<string>>, waiting: seq<Message>, t: Target): Option<seq<string>> {
    if |waiting| == 0 then users else After(AfterAll(users, waiting[..|waiting| - 1], t), waiting[|waiting| - 1], t)
  }

  /** As long as the store has the message, the client comes to list the same users in the same order. */
  predicate SameUsers(w: World, t: Target) {
    StoredUsers(w.store, t).Some? ==> AfterAll(ShownUsers(w.view, t), w.waiting, t) == StoredUsers(w.store, t)
  }

  // ---- The exact guard ----

  predicate BroughtIn(waiting: seq<Message>, t: Target) {
    exists e | e in waiting :: Brings(e, t)
  }

  /** Everyone in the waiting events who reacts so is this user. */
  predicate OnlyBy(waiting: seq<Message>, t: Target, user: string) {
    forall e | e in waiting && Reacts(e, t) :: e.sender == user
  }

  /**
   * A reaction may overtake reactions of its own user, but not its message; the message may overtake no reaction to it
   * and no removal of it.
   */
  predicate ReactionInTurn(waiting: seq<Message>, k: nat, t: Target)
    requires k < |waiting|
  {
    var before, e, after := waiting[..k], waiting[k], waiting[k + 1..];
    (Brings(e, t) ==> forall x | x in before :: !Reacts(x, t) && !Removes(x, t)) &&
    (Reacts(e, t) ==> BroughtIn(after, t) || (!BroughtIn(before, t) && OnlyBy(before, t, e.sender)))
  }

  /**
   * While the store has the message in its channel's list: a reaction must be applied to it there and be the user's
   * first of the kind, a removal must find it, no client may make up either, and what arrives must be in turn.
   */
  predicate Guard(w: World, e: Event, t: Target)
    requires Enabled(w, e)
  {
    var stored := StoredUsers(w.store, t);
    stored.Some? ==>
      match e
      case Apply(m, fromPeer) =>
        (Reacts(m, t) ==> Found(w.store, t.id) && m.sender !in stored.value && (fromPeer ==> m.metadata != map[])) &&
        (Removes(m, t) ==> Found(w.store, t.id))
      case Inject(m) => !Reacts(m, t) && !Removes(m, t)
      case Arrive(k) => ReactionInTurn(w.waiting, k, t)
      case _ => true
  }

  // ---- Lists ----

  lemma IndexIs(s: seq<Message>, j: nat)
    requires DistinctIds(s) && j < |s|
    ensures IndexOf(s, s[j].id) == j
  {
  }

  lemma AppendUsers(s: seq<Message>, m: Message, t: Target)
    requires m.id == t.id ==> !HasId(s, t.id)
    ensures UsersIn(s + [m], t) ==
            if m.id == t.id then (if Talks(m) then Some(Users(m, t.emoji)) else None) else UsersIn(s, t)
  {
    var i, r := IndexOf(s, t.id), s + [m];
    assert forall j | 0 <= j < |s| :: r[j] == s[j] && s[j] in s;
    assert r[|s|] == m;
    if i < |s| {
      assert IndexOf(r, t.id) == i;
    } else if m.id == t.id {
      assert IndexOf(r, t.id) == |s|;
    } else {
      assert IndexOf(r, t.id) == |r|;
    }
  }

  lemma EditUsers(s: seq<Message>, id: string, content: string, t: Target)
    ensures UsersIn(EditFirst(s, id, content), t) == UsersIn(s, t)
  {
    var r := EditFirst(s, id, content);
    SameIds(s, r, t.id);
  }

  lemma SameIds(s: seq<Message>, r: seq<Message>, id: string)
    requires |s| == |r| && forall i | 0 <= i < |s| :: r[i].id == s[i].id
    ensures IndexOf(r, id) == IndexOf(s, id)
  {
    var i, j := IndexOf(s, id), IndexOf(r, id);
    assert i < |s| ==> r[i].id == id;
    assert j < |r| ==> s[j].id == id;
  }

  lemma RemoveUsers(s: seq<Message>, id: string, t: Target)
    requires DistinctIds(s)
    ensures UsersIn(RemoveFirst(s, id), t) == if id == t.id then None else UsersIn(s, t)
  {
    RemoveFirstIsFilter(s, id);
    FilterMembers(s, NotId(id));
    FilterKeepsDistinct(s, NotId(id));
    var r := RemoveFirst(s, id);
    if id != t.id {
      var i := IndexOf(s, t.id);
      if i < |s| {
        assert s[i] in r;
        var j :| 0 <= j < |r| && r[j] == s[i];
        IndexIs(r, j);
      } else {
        NotIn(s, r, t.id);
      }
    } else {
      NoneOf(r, id);
    }
  }

  lemma NoneOf(r: seq<Message>, id: string)
    requires forall m | m in r :: m.id != id
    ensures IndexOf(r, id) == |r|
  {
    assert forall i | 0 <= i < |r| :: r[i] in r;
  }

  lemma NotIn(s: seq<Message>, r: seq<Message>, id: string)
    requires IndexOf(s, id) == |s| && forall m | m in r :: m in s
    ensures IndexOf(r, id) == |r|
  {
    assert forall i | 0 <= i < |s| :: s[i].id != id;
    NoneOf(r, id);
  }

  lemma ReactUsers(s: seq<Message>, m: Message, t: Target)
    requires m.kind == Reaction
    ensures UsersIn(ClientView.AppendReaction(s, m.id, m.content, m.sender), t) == After(UsersIn(s, t), m, t)
  {
    var r := ClientView.AppendReaction(s, m.id, m.content, m.sender);
    SameIds(s, r, t.id);
  }

  /** What the client does with an event, seen in the target's users. */
  lemma HandleUsers(v: ClientView.View, m: Message, t: Target)
    requires (ClientView.Shows(m.kind) && !HasId(ClientView.State(v, t.channel).messages, m.id)) ||
             ClientView.Amends(m.kind)
    requires DistinctIds(ClientView.State(v, t.channel).messages)
    ensures ShownUsers(ClientView.Handle(v, m), t) == After(ShownUsers(v, t), m, t)
  {
    var s := ClientView.State(v, t.channel).messages;
    if ClientView.Shows(m.kind) {
      PostShown(v, m, t.channel);
      AppendUsers(s, m, t);
      assert s + [] == s;
      assert m.id == t.id ==> UsersIn(s, t) == None;
    } else {
      AmendShown(v, m, t.channel);
      if m.kind == EditMessage {
        EditUsers(s, m.id, m.content, t);
      } else if m.kind == DeleteMessage {
        RemoveUsers(s, m.id, t);
      } else {
        ReactUsers(s, m, t);
      }
    }
  }

  // ---- Waiting events ----

  lemma {:induction false} AfterJoin(users: Option<seq<string>>, a: seq<Message>, b: seq<Message>, t: Target)
    ensures AfterAll(users, a + b, t) == AfterAll(AfterAll(users, a, t), b, t)
    decreases |b|
  {
    if |b| == 0 {
      assert a + b == a;
    } else {
      AfterJoin(users, a, b[..|b| - 1], t);
      FrontOfConcat(a, b);
    }
  }

  lemma AfterOne(users: Option<seq<string>>, e: Message, t: Target)
    ensures AfterAll(users, [e], t) == After(users, e, t)
  {
    assert [e][..0] == [];
    assert AfterAll(users, [e][..0], t) == users;
  }

  lemma BothOrders(users: Option<seq<string>>, a: seq<Message>, e: Message, b: seq<Message>, t: Target)
    ensures AfterAll(users, a + [e] + b, t) == AfterAll(After(AfterAll(users, a, t), e, t), b, t)
    ensures AfterAll(After(users, e, t), a + b, t) == AfterAll(AfterAll(After(users, e, t), a, t), b, t)
  {
    AfterJoin(users, a + [e], b, t);
    AfterJoin(users, a, [e], t);
    AfterOne(AfterAll(users, a, t), e, t);
    AfterJoin(After(users, e, t), a, b, t);
  }

  predicate RemovedIn(waiting: seq<Message>, t: Target) {
    exists e | e in waiting :: Removes(e, t)
  }

  function Reactors(waiting: seq<Message>, t: Target): seq<string> {
    if |waiting| == 0 then []
    else
      var e := waiting[|waiting| - 1];
      Reactors(waiting[..|waiting| - 1], t) + if Reacts(e, t) then [e.sender] else []
  }

  lemma LastOf(waiting: seq<Message>)
    requires |waiting| > 0
    ensures waiting[|waiting| - 1] in waiting && forall x | x in waiting[..|waiting| - 1] :: x in waiting
    ensures forall x | x in waiting :: x in waiting[..|waiting| - 1] || x == waiting[|waiting| - 1]
  {
  }

  /** Without its arrival nothing brings the message back. */
  lemma {:induction false} StaysNone(waiting: seq<Message>, t: Target)
    requires !BroughtIn(waiting, t)
    ensures AfterAll(None, waiting, t) == None
  {
    if |waiting| > 0 {
      LastOf(waiting);
      StaysNone(waiting[..|waiting| - 1], t);
    }
  }

  /** A message that stays gains the users who react, in order. */
  lemma {:induction false} Gains(users: seq<string>, waiting: seq<Message>, t: Target)
    requires !BroughtIn(waiting, t)
    ensures AfterAll(Some(users), waiting, t) ==
            if RemovedIn(waiting, t) then None else Some(users + Reactors(waiting, t))
  {
    if |waiting| > 0 {
      LastOf(waiting);
      var rest, e := waiting[..|waiting| - 1], waiting[|waiting| - 1];
      Gains(users, rest, t);
      assert RemovedIn(waiting, t) <==> RemovedIn(rest, t) || Removes(e, t);
      Associative(users, Reactors(rest, t), [e.sender]);
      assert Reactors(rest, t) + [] == Reactors(rest, t);
    }
    assert users + [] == users;
  }

  /** Its arrival makes what was before immaterial. */
  lemma {:induction false} Reset(a: Option<seq<string>>, b: Option<seq<string>>, waiting: seq<Message>, t: Target)
    requires BroughtIn(waiting, t)
    ensures AfterAll(a, waiting, t) == AfterAll(b, waiting, t)
  {
    LastOf(waiting);
    var rest, e := waiting[..|waiting| - 1], waiting[|waiting| - 1];
    if !Brings(e, t) { Reset(a, b, rest, t); }
  }

  lemma {:induction false} ReactorsMembers(waiting: seq<Message>, t: Target, user: string)
    ensures user in Reactors(waiting, t) <==> exists e | e in waiting :: Reacts(e, t) && e.sender == user
  {
    if |waiting| > 0 {
      LastOf(waiting);
      ReactorsMembers(waiting[..|waiting| - 1], t, user);
    }
  }

  lemma ReactorsOnlyBy(waiting: seq<Message>, t: Target, user: string)
    ensures (forall x | x in Reactors(waiting, t) :: x == user) <==> OnlyBy(waiting, t, user)
  {
    forall x ensures x in Reactors(waiting, t) <==> exists e | e in waiting :: Reacts(e, t) && e.sender == x {
      ReactorsMembers(waiting, t, x);
    }
    if OnlyBy(waiting, t, user) {
      forall x | x in Reactors(waiting, t) ensures x == user {
        var e :| e in waiting && Reacts(e, t) && e.sender == x;
      }
    } else {
      var e :| e in waiting && Reacts(e, t) && e.sender != user;
      assert e.sender in Reactors(waiting, t);
    }
  }

  lemma {:induction false} ReactorsNone(waiting: seq<Message>, t: Target)
    ensures Reactors(waiting, t) == [] <==> forall e | e in waiting :: !Reacts(e, t)
  {
    if |waiting| > 0 {
      LastOf(waiting);
      ReactorsNone(waiting[..|waiting| - 1], t);
    }
  }

  lemma {:induction false} RotateIff(s: seq<string>, x: string)
    ensures s + [x] == [x] + s <==> forall y | y in s :: y == x
  {
    if |s| > 0 {
      var rest := s[1..];
      RotateIff(rest, x);
      assert s == [s[0]] + rest && s[0] in s;
      assert forall y :: y in s <==> y == s[0] || y in rest;
      RotateFirst(s[0], rest, x);
    }
  }

  lemma RotateFirst(first: string, rest: seq<string>, x: string)
    ensures [first] + rest + [x] == [x] + ([first] + rest) <==> first == x && rest + [x] == [x] + rest
  {
    var a, b := [first] + rest + [x], [x] + ([first] + rest);
    assert a[0] == first && b[0] == x && a[1..] == rest + [x] && b[1..] == [first] + rest;
    if first == x && rest + [x] == [x] + rest { assert a == [a[0]] + a[1..] && b == [b[0]] + b[1..]; }
  }

  /** At most one arrival of the message waits, and only while the client does not show it. */
  predicate OneArrival(users: Option<seq<string>>, waiting: seq<Message>, t: Target) {
    (BroughtIn(waiting, t) ==> users == None) &&
    forall i, j | 0 <= i < j < |waiting| :: !(Brings(waiting[i], t) && Brings(waiting[j], t))
  }

  lemma ArrivalApart(waiting: seq<Message>, k: nat, t: Target)
    requires k < |waiting|
    requires forall i, j | 0 <= i < j < |waiting| :: !(Brings(waiting[i], t) && Brings(waiting[j], t))
    ensures Brings(waiting[k], t) ==> !BroughtIn(waiting[..k], t) && !BroughtIn(waiting[k + 1..], t)
    ensures BroughtIn(waiting[..k], t) ==> !BroughtIn(waiting[k + 1..], t)
    ensures BroughtIn(waiting[..k], t) || BroughtIn(waiting[k + 1..], t) ==> BroughtIn(waiting, t)
  {
    var before, after := waiting[..k], waiting[k + 1..];
    assert forall i | 0 <= i < k :: before[i] == waiting[i];
    assert forall i | 0 <= i < |after| :: after[i] == waiting[k + 1 + i];
  }

  lemma BringsInTurn(before: seq<Message>, e: Message, after: seq<Message>, t: Target)
    requires Brings(e, t) && !BroughtIn(before, t) && !BroughtIn(after, t)
    requires AfterAll(After(AfterAll(None, before, t), e, t), after, t).Some?
    ensures AfterAll(AfterAll(After(None, e, t), before, t), after, t) ==
            AfterAll(After(AfterAll(None, before, t), e, t), after, t) <==>
            forall x | x in before :: !Reacts(x, t) && !Removes(x, t)
  {
    var users := Users(e, t.emoji);
    Gains(users, before, t);
    Gains(users, after, t);
    ReactorsNone(before, t);
    if RemovedIn(before, t) {
      StaysNone(after, t);
    } else {
      Gains(users + Reactors(before, t), after, t);
      Inserted(users, Reactors(before, t), Reactors(after, t));
    }
  }

  lemma Inserted(a: seq<string>, b: seq<string>, c: seq<string>)
    ensures a + b + c == a + c <==> b == []
  {
    if b == [] {
      assert a + b == a;
    } else {
      assert |a + b + c| != |a + c|;
    }
  }

  lemma ReactsTooEarly(before: seq<Message>, e: Message, after: seq<Message>, t: Target)
    requires Reacts(e, t) && !BroughtIn(after, t)
    requires AfterAll(After(AfterAll(None, before, t), e, t), after, t).Some?
    ensures AfterAll(AfterAll(None, before, t), after, t) != AfterAll(After(AfterAll(None, before, t), e, t), after, t)
  {
    StaysNone(after, t);
    var there := AfterAll(None, before, t);
    Gains(there.value + [e.sender], after, t);
    Gains(there.value, after, t);
    Inserted(there.value, [e.sender], Reactors(after, t));
  }

  lemma ReactsFirstIff(users: Option<seq<string>>, before: seq<Message>, e: Message, after: seq<Message>, t: Target)
    requires Reacts(e, t) && !BroughtIn(before, t) && !BroughtIn(after, t)
    requires AfterAll(After(AfterAll(users, before, t), e, t), after, t).Some?
    ensures AfterAll(AfterAll(After(users, e, t), before, t), after, t) ==
            AfterAll(After(AfterAll(users, before, t), e, t), after, t) <==>
            OnlyBy(before, t, e.sender)
  {
    StaysNone(before, t);
    StaysNone(after, t);
    Gains(users.value, before, t);
    Gains(users.value + [e.sender], before, t);
    ReactsFirstTo(users.value, Reactors(before, t), e.sender, after, t);
    ReactorsOnlyBy(before, t, e.sender);
  }

  lemma ReactsFirstTo(users: seq<string>, others: seq<string>, user: string, after: seq<Message>, t: Target)
    requires !BroughtIn(after, t) && AfterAll(Some(users + others + [user]), after, t).Some?
    ensures AfterAll(Some(users + [user] + others), after, t) == AfterAll(Some(users + others + [user]), after, t) <==>
            forall x | x in others :: x == user
  {
    Gains(users + others + [user], after, t);
    Gains(users + [user] + others, after, t);
    Swapped(users, others, user, Reactors(after, t));
  }

  lemma ReactsInTurn(users: Option<seq<string>>, before: seq<Message>, e: Message, after: seq<Message>, t: Target)
    requires Reacts(e, t) && !BroughtIn(after, t) && (BroughtIn(before, t) ==> users == None)
    requires AfterAll(After(AfterAll(users, before, t), e, t), after, t).Some?
    ensures AfterAll(AfterAll(After(users, e, t), before, t), after, t) ==
            AfterAll(After(AfterAll(users, before, t), e, t), after, t) <==>
            !BroughtIn(before, t) && OnlyBy(before, t, e.sender)
  {
    if BroughtIn(before, t) {
      ReactsTooEarly(before, e, after, t);
    } else {
      ReactsFirstIff(users, before, e, after, t);
    }
  }

  lemma Swapped(a: seq<string>, b: seq<string>, x: string, c: seq<string>)
    ensures a + [x] + b + c == a + b + [x] + c <==> forall y | y in b :: y == x
  {
    RotateIff(b, x);
    assert a + [x] + b + c == a + ([x] + b) + c && a + b + [x] + c == a + (b + [x]) + c;
    assert (a + ([x] + b) + c)[|a|..|a| + |b| + 1] == [x] + b && (a + (b + [x]) + c)[|a|..|a| + |b| + 1] == b + [x];
  }

  lemma OvertakesIff(users: Option<seq<string>>, waiting: seq<Message>, k: nat, t: Target)
    requires k < |waiting| && OneArrival(users, waiting, t) && AfterAll(users, waiting, t).Some?
    ensures AfterAll(After(users, waiting[k], t), waiting[..k] + waiting[k + 1..], t) ==
            AfterAll(users, waiting, t) <==>
            ReactionInTurn(waiting, k, t)
  {
    var before, e, after := waiting[..k], waiting[k], waiting[k + 1..];
    Around(waiting, k);
    BothOrders(users, before, e, after, t);
    ArrivalApart(waiting, k, t);
    assert e in waiting;
    if Brings(e, t) {
      BringsInTurn(before, e, after, t);
    } else if BroughtIn(after, t) {
      Reset(After(AfterAll(users, before, t), e, t), AfterAll(After(users, e, t), before, t), after, t);
    } else if Reacts(e, t) {
      ReactsInTurn(users, before, e, after, t);
    } else if Removes(e, t) {
      StaysNone(after, t);
    }
  }

  // ---- The store's side ----

  lemma PushUsers(list: seq<Message>, m: Message, cap: nat, t: Target)
    requires DistinctIds(list) && !HasId(list, m.id)
    ensures var users := UsersIn(Push(list, m, cap), t);
            users == None || users == if m.id == t.id then (if Talks(m) then Some(Users(m, t.emoji)) else None)
                else UsersIn(list, t)
  {
    AppendUsers(list, m, t);
    if |list| + 1 > cap { DropUsers(list + [m], t); }
  }

  lemma DropUsers(s: seq<Message>, t: Target)
    requires |s| > 0
    ensures DistinctIds(s) ==> UsersIn(s[1..], t) == None || UsersIn(s[1..], t) == UsersIn(s, t)
  {
  }

  lemma ListGood(st: Store, births: Births, ch: string)
    requires StoreRuns.Inv(st, births)
    ensures DistinctIds(List(st.index, ch)) && KnownIn(births, List(st.index, ch))
  {
    if ch in st.index { assert GoodChannel(births, ch, st.index[ch], st.cap); }
  }

  lemma NewNotListed(st: Store, births: Births, id: string, ch: string)
    requires StoreRuns.Inv(st, births) && id !in births
    ensures !HasId(List(st.index, ch), id)
  {
    ListGood(st, births, ch);
  }

  lemma SaveList(st: Store, m: Message, ch: string)
    requires Mesh.Submittable(m) && !TooLong(m)
    ensures List(Save(st, m, "").0.index, ch) ==
            if ch == Normalize(m.channel) then Push(List(st.index, ch), Stamped(m, ""), st.cap) else List(st.index, ch)
  {
  }

  /** A post is stored with its users, evicted at once, or has nothing to do with the target. */
  lemma PostUsers(st: Store, births: Births, m: Message, fromPeer: bool, t: Target)
    requires StoreRuns.Inv(st, births) && ClientView.Shows(m.kind) && Mesh.Submittable(m) && m.id !in births
    ensures var users := StoredUsers(Changed(st, m, fromPeer), t);
            users == None || users == After(StoredUsers(st, t), m, t)
  {
    ChangedIsSave(st, m, fromPeer);
    NewNotListed(st, births, m.id, t.channel);
    ListGood(st, births, t.channel);
    PostListUsers(st, List(st.index, t.channel), m, Saves(m, fromPeer), t);
  }

  lemma PostListUsers(st: Store, list: seq<Message>, m: Message, saves: bool, t: Target)
    requires list == List(st.index, t.channel) && DistinctIds(list) && !HasId(list, m.id)
    requires ClientView.Shows(m.kind) && Mesh.Submittable(m) && (saves ==> !TooLong(m))
    ensures var users := StoredUsers(if saves then Save(st, m, "").0 else st, t);
            users == None || users == After(UsersIn(list, t), m, t)
  {
    assert m.id == t.id ==> UsersIn(list, t) == None;
    if saves {
      SaveList(st, m, t.channel);
      if t.channel == Normalize(m.channel) { PushUsers(list, Stamped(m, ""), st.cap, t); }
    }
  }

  lemma UpdateUsers(st: Store, id: string, content: string, t: Target)
    ensures StoredUsers(Update(st, id, content).0, t) == StoredUsers(st, t)
  {
    EditUsers(List(st.index, t.channel), id, content, t);
  }

  lemma ElsewhereNone(st: Store, births: Births, m: Message, t: Target)
    requires StoreRuns.Inv(st, births) && m in st.flat && m.id == t.id && t.channel != Normalize(m.channel)
    ensures StoredUsers(st, t) == None
  {
    NotElsewhere(st, births, m, t.channel);
  }

  lemma DeleteList(st: Store, births: Births, id: string, ch: string)
    requires StoreRuns.Inv(st, births) && Found(st, id)
    ensures List(Delete(st, id).0.index, ch) ==
            if ch == Normalize(st.flat[IndexOf(st.flat, id)].channel) then RemoveFirst(List(st.index, ch), id)
                else List(st.index, ch)
  {
    InOwnList(st, births, st.flat[IndexOf(st.flat, id)]);
  }

  lemma DeleteUsers(st: Store, births: Births, id: string, t: Target)
    requires StoreRuns.Inv(st, births)
    ensures StoredUsers(Delete(st, id).0, t) == if id == t.id && Found(st, id) then None else StoredUsers(st, t)
  {
    if Found(st, id) {
      var m := st.flat[IndexOf(st.flat, id)];
      DeleteList(st, births, id, t.channel);
      if t.channel == Normalize(m.channel) {
        ListGood(st, births, t.channel);
        RemoveUsers(List(st.index, t.channel), id, t);
      } else if id == t.id {
        ElsewhereNone(st, births, m, t);
      }
    }
  }

  /** The flat list's copy and the channel list's copy list the same users. */
  lemma BothCopies(st: Store, births: Births, t: Target)
    requires StoreRuns.Inv(st, births) && Found(st, t.id) && StoredUsers(st, t).Some?
    ensures var m := st.flat[IndexOf(st.flat, t.id)];
            && Normalize(m.channel) == t.channel && t.channel in st.index && m in st.index[t.channel]
            && st.index[t.channel][IndexOf(st.index[t.channel], t.id)] == m &&
                StoredUsers(st, t) == Some(Users(m, t.emoji))
  {
    var m := st.flat[IndexOf(st.flat, t.id)];
    InOwnList(st, births, m);
    if t.channel != Normalize(m.channel) { ElsewhereNone(st, births, m, t); }
    ListGood(st, births, t.channel);
    SameId(st.index[t.channel], m, st.index[t.channel][IndexOf(st.index[t.channel], t.id)]);
  }

  lemma CopyUsers(s: seq<Message>, id: string, emoji: string, users: seq<string>, t: Target)
    ensures UsersIn(CopyReaction(s, id, emoji, users), t) ==
            if id == t.id && emoji == t.emoji && UsersIn(s, t).Some? then Some(users) else UsersIn(s, t)
  {
    SameIds(s, CopyReaction(s, id, emoji, users), t.id);
  }

  lemma ReactList(st: Store, births: Births, id: string, emoji: string, user: string, ch: string)
    requires StoreRuns.Inv(st, births) && Found(st, id)
    ensures var m := st.flat[IndexOf(st.flat, id)];
            List(React(st, id, emoji, user).0.index, ch) ==
            if user !in Users(m, emoji) && ch == Normalize(m.channel)
            then CopyReaction(List(st.index, ch), id, emoji, Users(m, emoji) + [user]) else List(st.index, ch)
  {
    InOwnList(st, births, st.flat[IndexOf(st.flat, id)]);
  }

  lemma ReactStoredUsers(st: Store, births: Births, id: string, emoji: string, user: string, t: Target)
    requires StoreRuns.Inv(st, births)
    ensures StoredUsers(React(st, id, emoji, user).0, t) ==
            if id == t.id && emoji == t.emoji && Found(st, id) && StoredUsers(st, t).Some? &&
                user !in StoredUsers(st, t).value
            then Some(StoredUsers(st, t).value + [user]) else StoredUsers(st, t)
  {
    if Found(st, id) {
      ReactList(st, births, id, emoji, user, t.channel);
      if id == t.id && StoredUsers(st, t).Some? { BothCopies(st, births, t); }
      CopyUsers(List(st.index, t.channel), id, emoji, Users(st.flat[IndexOf(st.flat, id)], emoji) + [user], t);
    }
  }

  // ---- One step ----

  lemma AfterMore(users: Option<seq<string>>, waiting: seq<Message>, m: Message, t: Target)
    ensures AfterAll(users, waiting + [m], t) == After(AfterAll(users, waiting, t), m, t)
  {
    assert (waiting + [m])[..|waiting|] == waiting;
  }

  lemma PostKeeps(w: World, m: Message, fromPeer: bool, t: Target)
    requires Replica.Inv(w) && Enabled(w, Apply(m, fromPeer)) && ClientView.Shows(m.kind) && SameUsers(w, t)
    ensures SameUsers(Next(w, Apply(m, fromPeer)), t)
  {
    PostUsers(w.store, w.births, m, fromPeer, t);
    AfterMore(ShownUsers(w.view, t), w.waiting, m, t);
  }

  lemma AmendUsers(st: Store, births: Births, m: Message, fromPeer: bool, t: Target)
    requires StoreRuns.Inv(st, births) && ClientView.Amends(m.kind)
    ensures var users, users' := StoredUsers(st, t), StoredUsers(Changed(st, m, fromPeer), t);
            if Removes(m, t) && Found(st, t.id) then users' == None
            else if Reacts(m, t) && Found(st, t.id) && users.Some? && m.sender !in users.value &&
                (fromPeer ==> m.metadata != map[])
            then users' == Some(users.value + [m.sender])
            else users' == users
  {
    if m.kind == EditMessage {
      ChangedIsUpdate(st, m, fromPeer);
      UpdateUsers(st, m.id, m.content, t);
    } else if m.kind == DeleteMessage {
      ChangedIsDelete(st, m, fromPeer);
      DeleteUsers(st, births, m.id, t);
    } else {
      ChangedIsReact(st, m, fromPeer);
      ReactStoredUsers(st, births, m.id, m.content, m.sender, t);
    }
  }

  lemma ChangedIsReact(st: Store, m: Message, fromPeer: bool)
    requires m.kind == Reaction
    ensures Changed(st, m, fromPeer) ==
            if fromPeer && m.metadata == map[] then st else StoreModel.React(st, m.id, m.content, m.sender).0
  {
  }

  lemma AmendKeepsIff(w: World, m: Message, fromPeer: bool, t: Target)
    requires Replica.Inv(w) && Enabled(w, Apply(m, fromPeer)) && ClientView.Amends(m.kind) && SameUsers(w, t)
    ensures SameUsers(Next(w, Apply(m, fromPeer)), t) <==> Guard(w, Apply(m, fromPeer), t)
  {
    AmendUsers(w.store, w.births, m, fromPeer, t);
    AfterMore(ShownUsers(w.view, t), w.waiting, m, t);
  }

  lemma InjectKeepsIff(w: World, m: Message, t: Target)
    requires ClientView.Amends(m.kind) && SameUsers(w, t)
    ensures SameUsers(Next(w, Inject(m)), t) <==> Guard(w, Inject(m), t)
  {
    var settled := AfterAll(ShownUsers(w.view, t), w.waiting, t);
    AfterMore(ShownUsers(w.view, t), w.waiting, m, t);
    if settled.Some? { UnchangedIff(settled.value, m, t); }
  }

  lemma UnchangedIff(users: seq<string>, m: Message, t: Target)
    requires ClientView.Amends(m.kind)
    ensures After(Some(users), m, t) == Some(users) <==> !Reacts(m, t) && !Removes(m, t)
  {
    assert |users + [m.sender]| != |users|;
  }

  lemma HandledUsers(w: World, m: Message, t: Target)
    requires ListsSeen(w.view, w.seen) &&
             (if ClientView.Shows(m.kind) then NotShown(w.view, m.id) else ClientView.Amends(m.kind))
    ensures ShownUsers(ClientView.Handle(w.view, m), t) == After(ShownUsers(w.view, t), m, t)
  {
    StateSeen(w.view, w.seen, t.channel);
    if ClientView.Shows(m.kind) { StateLacks(w.view, m.id, t.channel); }
    HandleUsers(w.view, m, t);
  }

  lemma WaitingOnce(w: World, t: Target)
    requires WaitingSeen(w.waiting, w.view, w.seen)
    ensures OneArrival(ShownUsers(w.view, t), w.waiting, t)
  {
    if e :| e in w.waiting && Brings(e, t) {
      StateLacks(w.view, e.id, t.channel);
    }
  }

  lemma ArriveKeepsIff(w: World, k: nat, t: Target)
    requires Replica.Inv(w) && k < |w.waiting| && SameUsers(w, t)
    ensures SameUsers(Next(w, Arrive(k)), t) <==> Guard(w, Arrive(k), t)
  {
    assert w.waiting[k] in w.waiting;
    HandledUsers(w, w.waiting[k], t);
    WaitingOnce(w, t);
    ArrivedSameIff(w, k, t);
  }

  lemma ArrivedSameIff(w: World, k: nat, t: Target)
    requires k < |w.waiting| && SameUsers(w, t) && OneArrival(ShownUsers(w.view, t), w.waiting, t)
    requires ShownUsers(ClientView.Handle(w.view, w.waiting[k]), t) == After(ShownUsers(w.view, t), w.waiting[k], t)
    ensures SameUsers(Next(w, Arrive(k)), t) <==> Guard(w, Arrive(k), t)
  {
    if StoredUsers(w.store, t).Some? { OvertakesIff(ShownUsers(w.view, t), w.waiting, k, t); }
  }

  /** In the store no message bears an id that was not seen. */
  lemma UnseenNotStored(w: World, id: string, t: Target)
    requires Replica.Inv(w) && id !in w.seen && id == t.id
    ensures StoredUsers(w.store, t) == None
  {
    NewNotListed(w.store, w.births, id, t.channel);
  }

  lemma NoticeKeeps(w: World, m: Message, t: Target)
    requires Replica.Inv(w) && Enabled(w, Notice(m)) && SameUsers(w, t)
    ensures SameUsers(Next(w, Notice(m)), t)
  {
    UnseenNotShown(w.view, w.seen, m.id);
    HandledUsers(w, m, t);
    if m.id == t.id { UnseenNotStored(w, m.id, t); }
  }

  /** In any state in agreement: a step keeps the target's users in agreement exactly if it meets its guard. */
  lemma NextSameIff(w: World, e: Event, t: Target)
    requires Replica.Inv(w) && Enabled(w, e) && SameUsers(w, t)
    ensures SameUsers(Next(w, e), t) <==> Guard(w, e, t)
  {
    match e
    case Apply(m, fromPeer) =>
      if ClientView.Shows(m.kind) { PostKeeps(w, m, fromPeer, t); } else { AmendKeepsIff(w, m, fromPeer, t); }
    case Inject(m) => InjectKeepsIff(w, m, t);
    case Arrive(k) => ArriveKeepsIff(w, k, t);
    case Notice(m) => NoticeKeeps(w, m, t);
    case Navigate(name) => SwitchShown(w.view, name, t.channel);
  }

  // ---- Every run ----

  predicate AlwaysSame(w: World, events: seq<Event>, t: Target)
    requires Runs(w, events)
    decreases |events|
  {
    SameUsers(w, t) && (|events| > 0 ==> AlwaysSame(Next(w, events[0]), events[1..], t))
  }

  predicate AllGuarded(w: World, events: seq<Event>, t: Target)
    requires Runs(w, events)
    decreases |events|
  {
    |events| > 0 ==> Guard(w, events[0], t) && AllGuarded(Next(w, events[0]), events[1..], t)
  }

  lemma {:induction false} RunSameIff(w: World, events: seq<Event>, t: Target)
    requires Replica.Inv(w) && Runs(w, events) && SameUsers(w, t)
    ensures AlwaysSame(w, events, t) <==> AllGuarded(w, events, t)
    decreases |events|
  {
    if |events| > 0 {
      NextInv(w, events[0]);
      NextSameIff(w, events[0], t);
      if Guard(w, events[0], t) { RunSameIff(Next(w, events[0]), events[1..], t); }
    }
  }

  /**
   * A client that starts empty with the store, over any run whatever: in every state, as long as the store has a chat
   * or image in its channel's list, the client comes to list the same users under each emoji of it, in the same order,
   * exactly if every step meets its guard.
   */
  lemma ReactionsAgreeIff(cap: nat, username: string, events: seq<Event>, t: Target)
    requires Runs(Opening(cap, username), events)
    ensures AlwaysSame(Opening(cap, username), events, t) <==> AllGuarded(Opening(cap, username), events, t)
  {
    Replica.OpeningHolds(cap, username, t.channel);
    RunSameIff(Opening(cap, username), events, t);
  }
}
