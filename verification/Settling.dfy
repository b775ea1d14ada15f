/**
 * One channel of a client while events are still on their way to it: what its messages come to once all have
 * arrived in the order in which the store was changed, and which event may overtake the others.
 */
module Settling {
  import opened Sequences
  import opened Protocol

  predicate Talks(m: Message) {
    m.kind == Chat || m.kind == Image
  }

  function Plain(): Message -> Message {
    (m: Message) => m.(reactions := map[])
  }

  /** A channel, and the ids of messages that the store never held. */
  datatype Place = Place(channel: string, unsaved: set<string>)

  /** The event is a chat or image of the channel that the store saved. */
  predicate Lands(e: Message, at: Place) {
    Talks(e) && Normalize(e.channel) == at.channel && e.id !in at.unsaved
  }

  /** Edits and removals find their message by its id; reactions do not show here. */
  function Amended(s: seq<Message>, e: Message): seq<Message> {
    if e.kind == EditMessage then Map(s, EditOf(e.id, e.content))
    else if e.kind == DeleteMessage then Filter(s, NotId(e.id))
    else s
  }

  function Arrived(s: seq<Message>, e: Message, at: Place): seq<Message> {
    if Lands(e, at) then s + [Plain()(e)] else Amended(s, e)
  }

  /** The messages once the waiting events have arrived in order. */
  function Settled(s: seq<Message>, waiting: seq<Message>, at: Place): seq<Message> {
    if |waiting| == 0 then s
    else Arrived(Settled(s, waiting[..|waiting| - 1], at), waiting[|waiting| - 1], at)
  }

  /** What becomes of the messages that are already there. */
  function Fates(s: seq<Message>, waiting: seq<Message>): seq<Message> {
    if |waiting| == 0 then s else Amended(Fates(s, waiting[..|waiting| - 1]), waiting[|waiting| - 1])
  }

  function News(waiting: seq<Message>, at: Place): seq<Message> {
    Settled([], waiting, at)
  }

  function HasId(s: seq<Message>, id: string): bool {
    exists m | m in s :: m.id == id
  }

  /** Every message that lands brings an id of its own. */
  predicate Apart(s: seq<Message>, waiting: seq<Message>, at: Place) {
    DistinctIds(s) &&
    (forall j | 0 <= j < |waiting| && Lands(waiting[j], at) :: !HasId(s, waiting[j].id)) &&
    forall i, j | 0 <= i < j < |waiting| && Lands(waiting[i], at) && Lands(waiting[j], at) ::
        waiting[i].id != waiting[j].id
  }

  // ---- Which event may overtake ----

  /** What the waiting events last said about a message: nothing, that it is removed, or how it reads. */
  datatype Word = Silent | Gone | Reads(content: string, edited: bool)

  function LastWord(waiting: seq<Message>, id: string, at: Place): Word {
    if |waiting| == 0 then Silent
    else NextWord(LastWord(waiting[..|waiting| - 1], id, at), waiting[|waiting| - 1], id, at)
  }

  function NextWord(word: Word, e: Message, id: string, at: Place): Word {
    if e.id != id then word
    else if Lands(e, at) then Reads(e.content, e.edited)
    else if e.kind == EditMessage then Reads(e.content, true)
    else if e.kind == DeleteMessage then Gone
    else word
  }

  /** A later event brings the message or edits it again. */
  predicate Retold(waiting: seq<Message>, id: string, at: Place) {
    exists e | e in waiting :: e.id == id && (Lands(e, at) || e.kind == EditMessage)
  }

  /**
   * A message comes before those saved ahead of it only if none stays, and if its own edits still leave it the
   * same.
   */
  predicate PostInTurn(before: seq<Message>, e: Message, after: seq<Message>, at: Place) {
    Fates(News(before, at), after) == [] && Fates([Plain()(e)], before + after) == Fates([Plain()(e)], after)
  }

  /** An edit comes first if another one settles the matter, or if nothing before it says otherwise. */
  predicate EditInTurn(before: seq<Message>, e: Message, after: seq<Message>, at: Place) {
    Retold(after, e.id, at) ||
    !LastWord(before, e.id, at).Reads? || LastWord(before, e.id, at) == Reads(e.content, true)
  }

  /** A removal comes before its message only if another removes it, or if enough is saved after it. */
  predicate RemovalInTurn(stored: nat, before: seq<Message>, e: Message, after: seq<Message>, at: Place) {
    forall j | 0 <= j < |before| && Lands(before[j], at) && before[j].id == e.id ::
      Fates([Plain()(before[j])], before[j + 1..] + after) == [] || stored <= |News(before[j + 1..] + after, at)|
  }

  /** Whether the k-th waiting event may arrive next, when the store's list is this one. */
  predicate InTurn(list: seq<Message>, waiting: seq<Message>, k: nat, at: Place)
    requires k < |waiting|
  {
    var before, e, after := waiting[..k], waiting[k], waiting[k + 1..];
    if Lands(e, at) then !HasId(list, e.id) || PostInTurn(before, e, after, at)
    else if e.kind == EditMessage then !HasId(list, e.id) || EditInTurn(before, e, after, at)
    else if e.kind == DeleteMessage then RemovalInTurn(|list|, before, e, after, at)
    else true
  }

  // ---- Settling in parts ----

  lemma AmendedConcat(a: seq<Message>, b: seq<Message>, e: Message)
    ensures Amended(a + b, e) == Amended(a, e) + Amended(b, e)
  {
    if e.kind == DeleteMessage {
      FilterConcat(a, b, NotId(e.id));
    }
  }

  lemma {:induction false} FatesConcat(a: seq<Message>, b: seq<Message>, waiting: seq<Message>)
    ensures Fates(a + b, waiting) == Fates(a, waiting) + Fates(b, waiting)
  {
    if |waiting| > 0 {
      var rest, e := waiting[..|waiting| - 1], waiting[|waiting| - 1];
      FatesConcat(a, b, rest);
      AmendedConcat(Fates(a, rest), Fates(b, rest), e);
    }
  }

  lemma {:induction false} FatesJoin(s: seq<Message>, a: seq<Message>, b: seq<Message>)
    ensures Fates(s, a + b) == Fates(Fates(s, a), b)
    decreases |b|
  {
    if |b| == 0 {
      assert a + b == a;
    } else {
      FatesJoin(s, a, b[..|b| - 1]);
      FrontOfConcat(a, b);
    }
  }

  lemma FrontOfConcat(a: seq<Message>, b: seq<Message>)
    requires |b| > 0
    ensures (a + b)[..|a + b| - 1] == a + b[..|b| - 1] && (a + b)[|a + b| - 1] == b[|b| - 1]
  {
  }

  lemma {:induction false} SettledJoin(s: seq<Message>, a: seq<Message>, b: seq<Message>, at: Place)
    ensures Settled(s, a + b, at) == Settled(Settled(s, a, at), b, at)
    decreases |b|
  {
    if |b| == 0 {
      assert a + b == a;
    } else {
      SettledJoin(s, a, b[..|b| - 1], at);
      FrontOfConcat(a, b);
    }
  }

  /** The first event's arrival leaves the rest to settle. */
  lemma SettledFirst(s: seq<Message>, e: Message, rest: seq<Message>, at: Place)
    ensures Settled(s, [e] + rest, at) == Settled(Arrived(s, e, at), rest, at)
  {
    SettledJoin(s, [e], rest, at);
    SettledOne(s, e, at);
  }

  lemma SettledOne(s: seq<Message>, e: Message, at: Place)
    ensures Settled(s, [e], at) == Arrived(s, e, at)
  {
  }

  /** Old messages and new ones settle apart. */
  lemma {:induction false} SettledSplits(s: seq<Message>, waiting: seq<Message>, at: Place)
    ensures Settled(s, waiting, at) == Fates(s, waiting) + News(waiting, at)
  {
    if |waiting| > 0 {
      var rest, e := waiting[..|waiting| - 1], waiting[|waiting| - 1];
      SettledSplits(s, rest, at);
      SplitStep(Fates(s, rest), News(rest, at), e, at);
    }
  }

  lemma SplitStep(s: seq<Message>, news: seq<Message>, e: Message, at: Place)
    ensures Arrived(s + news, e, at) == Amended(s, e) + Arrived(news, e, at)
  {
    if Lands(e, at) {
      assert (s + news) + [Plain()(e)] == s + (news + [Plain()(e)]);
    } else {
      AmendedConcat(s, news, e);
    }
  }

  /** The two orders: the k-th event in its turn, and the k-th event first. */
  lemma BothOrders(s: seq<Message>, before: seq<Message>, e: Message, after: seq<Message>, at: Place)
    ensures Settled(s, before + [e] + after, at) ==
            Fates(Arrived(Settled(s, before, at), e, at), after) + News(after, at)
    ensures Settled(Arrived(s, e, at), before + after, at) ==
            Fates(Settled(Arrived(s, e, at), before, at), after) + News(after, at)
  {
    SettledJoin(s, before + [e], after, at);
    SettledJoin(s, before, [e], at);
    SettledOne(Settled(s, before, at), e, at);
    SettledSplits(Arrived(Settled(s, before, at), e, at), after, at);
    SettledJoin(Arrived(s, e, at), before, after, at);
    SettledSplits(Settled(Arrived(s, e, at), before, at), after, at);
  }

  // ---- Ids ----

  predicate LandsIn(waiting: seq<Message>, id: string, at: Place) {
    exists e | e in waiting :: e.id == id && Lands(e, at)
  }

  lemma AmendedIds(s: seq<Message>, e: Message, id: string)
    ensures !HasId(s, id) ==> !HasId(Amended(s, e), id)
    ensures DistinctIds(s) ==> DistinctIds(Amended(s, e))
    ensures e.kind == DeleteMessage ==> !HasId(Amended(s, e), e.id)
  {
    if e.kind == DeleteMessage {
      FilterMembers(s, NotId(e.id));
      if DistinctIds(s) { FilterKeepsDistinct(s, NotId(e.id)); }
    } else if e.kind == EditMessage {
      var f := EditOf(e.id, e.content);
      assert forall i | 0 <= i < |s| :: Map(s, f)[i].id == s[i].id && s[i] in s;
    }
  }

  lemma {:induction false} FatesIds(s: seq<Message>, waiting: seq<Message>, id: string)
    ensures !HasId(s, id) ==> !HasId(Fates(s, waiting), id)
    ensures DistinctIds(s) ==> DistinctIds(Fates(s, waiting))
  {
    if |waiting| > 0 {
      FatesIds(s, waiting[..|waiting| - 1], id);
      AmendedIds(Fates(s, waiting[..|waiting| - 1]), waiting[|waiting| - 1], id);
    }
  }

  lemma ArrivedIds(s: seq<Message>, e: Message, at: Place, id: string)
    requires !HasId(s, id) && (Lands(e, at) ==> e.id != id)
    ensures !HasId(Arrived(s, e, at), id)
  {
    AmendedIds(s, e, id);
  }

  lemma {:induction false} SettledIds(s: seq<Message>, waiting: seq<Message>, at: Place, id: string)
    requires !HasId(s, id) && !LandsIn(waiting, id, at)
    ensures !HasId(Settled(s, waiting, at), id)
  {
    if |waiting| > 0 {
      var rest, e := waiting[..|waiting| - 1], waiting[|waiting| - 1];
      assert e in waiting && forall x | x in rest :: x in waiting;
      SettledIds(s, rest, at, id);
      ArrivedIds(Settled(s, rest, at), e, at, id);
    }
  }

  lemma ApartPrefix(s: seq<Message>, waiting: seq<Message>, at: Place, n: nat)
    requires Apart(s, waiting, at) && n <= |waiting|
    ensures Apart(s, waiting[..n], at)
    ensures n < |waiting| && Lands(waiting[n], at) ==>
            !HasId(s, waiting[n].id) && !LandsIn(waiting[..n], waiting[n].id, at)
  {
  }

  /** What becomes of one message: it stays one message of that id, or a removal takes it. */
  predicate Removed(waiting: seq<Message>, id: string) {
    exists e | e in waiting :: e.id == id && e.kind == DeleteMessage
  }

  lemma {:induction false} OneFate(m: Message, waiting: seq<Message>)
    ensures Fates([m], waiting) == [] <==> Removed(waiting, m.id)
    ensures Fates([m], waiting) != [] ==> |Fates([m], waiting)| == 1 && Fates([m], waiting)[0].id == m.id
  {
    if |waiting| > 0 {
      var rest, e := waiting[..|waiting| - 1], waiting[|waiting| - 1];
      OneFate(m, rest);
      OneAmended(Fates([m], rest), e, m.id);
      RemovedLast(rest, e, m.id);
      assert waiting == rest + [e];
    }
  }

  lemma RemovedLast(rest: seq<Message>, e: Message, id: string)
    ensures Removed(rest + [e], id) <==> Removed(rest, id) || (e.id == id && e.kind == DeleteMessage)
  {
  }

  lemma OneAmended(s: seq<Message>, e: Message, id: string)
    requires |s| <= 1 && (s != [] ==> s[0].id == id)
    ensures Amended(s, e) == [] <==> s == [] || (e.id == id && e.kind == DeleteMessage)
    ensures Amended(s, e) != [] ==> |Amended(s, e)| == 1 && Amended(s, e)[0].id == id
  {
  }

  // ---- A message overtakes ----

  lemma HasIdConcat(a: seq<Message>, b: seq<Message>, id: string)
    ensures HasId(a + b, id) <==> HasId(a, id) || HasId(b, id)
  {
  }

  lemma SuffixHasId(a: seq<Message>, b: seq<Message>, id: string)
    requires IsSuffix(a, b)
    ensures HasId(a, id) ==> HasId(b, id)
  {
  }

  /** Moving one message ahead of others leaves the end of the list alone, unless it is part of that end. */
  lemma PlaceIff(list: seq<Message>, x: seq<Message>, n: seq<Message>, z: Message, y: seq<Message>, t: seq<Message>)
    requires |y| <= 1 && (y != [] ==> y[0].id == z.id)
    requires !HasId(x, z.id) && !HasId(n, z.id) && !HasId(t, z.id)
    requires IsSuffix(list, x + n + [z] + t)
    ensures IsSuffix(list, x + y + n + t) <==> !HasId(list, z.id) || (n == [] && y == [z])
  {
    if |list| <= |t| {
      EndOf(list, x + n + [z], t);
      SuffixHasId(list, t, z.id);
      EndOf(list, x + y + n, t);
    } else {
      assert list[|list| - |t| - 1] == z && z in list;
      if IsSuffix(list, x + y + n + t) { PlaceBack(list, x, n, z, y, t); }
      if n == [] && y == [z] { assert x + y + n + t == x + n + [z] + t; }
    }
  }

  lemma EndOf(list: seq<Message>, a: seq<Message>, t: seq<Message>)
    requires |list| <= |t|
    ensures IsSuffix(list, a + t) <==> IsSuffix(list, t)
  {
  }

  lemma PlaceBack(list: seq<Message>, x: seq<Message>, n: seq<Message>, z: Message, y: seq<Message>, t: seq<Message>)
    requires |y| <= 1 && (y != [] ==> y[0].id == z.id)
    requires !HasId(x, z.id) && !HasId(n, z.id)
    requires |list| > |t| && list[|list| - |t| - 1] == z && IsSuffix(list, x + y + n + t)
    ensures n == [] && y == [z]
  {
  }

  /** Both orders in which a landing message and the events before it can settle. */
  lemma PostOrders(s: seq<Message>, before: seq<Message>, e: Message, after: seq<Message>, at: Place)
    requires Lands(e, at)
    ensures var x, n, t := Fates(Fates(s, before), after), Fates(News(before, at), after), News(after, at);
            && Settled(s, before + [e] + after, at) == x + n + Fates([Plain()(e)], after) + t
            && Settled(Arrived(s, e, at), before + after, at) == x + Fates([Plain()(e)], before + after) + n + t
  {
    var m := Plain()(e);
    BothOrders(s, before, e, after, at);
    SettledSplits(s, before, at);
    FatesConcat(Fates(s, before) + News(before, at), [m], after);
    FatesConcat(Fates(s, before), News(before, at), after);
    SettledSplits(s + [m], before, at);
    FatesConcat(s, [m], before);
    FatesConcat(Fates(s, before) + Fates([m], before), News(before, at), after);
    FatesConcat(Fates(s, before), Fates([m], before), after);
    FatesJoin([m], before, after);
  }

  lemma NoLanding(s: seq<Message>, waiting: seq<Message>, k: nat, at: Place)
    requires Apart(s, waiting, at) && k < |waiting| && Lands(waiting[k], at)
    ensures var id := waiting[k].id;
            !HasId(s, id) && !LandsIn(waiting[..k], id, at) && !LandsIn(waiting[k + 1..], id, at)
  {
  }

  lemma Around(waiting: seq<Message>, k: nat)
    requires k < |waiting|
    ensures waiting == waiting[..k] + [waiting[k]] + waiting[k + 1..]
  {
  }

  /** Nothing of that id anywhere around the message. */
  lemma NoneAround(s: seq<Message>, waiting: seq<Message>, k: nat, at: Place)
    requires Apart(s, waiting, at) && k < |waiting| && Lands(waiting[k], at)
    ensures var before, after, id := waiting[..k], waiting[k + 1..], waiting[k].id;
            && !HasId(Fates(Fates(s, before), after), id) && !HasId(Fates(News(before, at), after), id) &&
                !HasId(News(after, at), id)
  {
    var before, after, id := waiting[..k], waiting[k + 1..], waiting[k].id;
    NoLanding(s, waiting, k, at);
    FatesIds(s, before, id);
    FatesIds(Fates(s, before), after, id);
    SettledIds([], before, at, id);
    FatesIds(News(before, at), after, id);
    SettledIds([], after, at, id);
  }

  lemma PostOvertakesIff(list: seq<Message>, s: seq<Message>, waiting: seq<Message>, k: nat, at: Place)
    requires k < |waiting| && Apart(s, waiting, at) && Lands(waiting[k], at) && IsSuffix(list, Settled(s, waiting, at))
    ensures IsSuffix(list, Settled(Arrived(s, waiting[k], at), waiting[..k] + waiting[k + 1..], at)) <==>
            InTurn(list, waiting, k, at)
  {
    var before, e, after := waiting[..k], waiting[k], waiting[k + 1..];
    Around(waiting, k);
    PostOrders(s, before, e, after, at);
    NoneAround(s, waiting, k, at);
    OneFate(Plain()(e), after);
    OneFate(Plain()(e), before + after);
    PostSettlesIff(list, Fates(Fates(s, before), after), Fates(News(before, at), after),
                   Fates([Plain()(e)], after), Fates([Plain()(e)], before + after), News(after, at), e.id,
                   before, after);
  }

  lemma PostSettlesIff(
    list: seq<Message>, x: seq<Message>, n: seq<Message>, y: seq<Message>, y': seq<Message>, t: seq<Message>,
        id: string,
    before: seq<Message>, after: seq<Message>)
    requires (y == [] <==> Removed(after, id)) && (y != [] ==> |y| == 1 && y[0].id == id)
    requires (y' == [] <==> Removed(before + after, id)) && (y' != [] ==> |y'| == 1 && y'[0].id == id)
    requires !HasId(x, id) && !HasId(n, id) && !HasId(t, id) && IsSuffix(list, x + n + y + t)
    ensures IsSuffix(list, x + y' + n + t) <==> !HasId(list, id) || (n == [] && y' == y)
  {
    if y == [] {
      assert forall e | e in after :: e in before + after;
      assert x + y' + n + t == x + n + y + t;
      HasIdConcat(x, n, id);
      HasIdConcat(x + n, t, id);
      assert x + n + y + t == x + n + t;
      SuffixHasId(list, x + n + y + t, id);
    } else {
      assert y == [y[0]];
      PlaceIff(list, x, n, y[0], y', t);
    }
  }

  // ---- A removal overtakes ----

  lemma FilterAmended(s: seq<Message>, id: string, e: Message)
    ensures Filter(Amended(s, e), NotId(id)) == Amended(Filter(s, NotId(id)), e)
  {
    if e.kind == EditMessage {
      FilterMap(s, NotId(id), EditOf(e.id, e.content));
    } else if e.kind == DeleteMessage {
      FilterCommutes(s, NotId(e.id), NotId(id));
    }
  }

  lemma {:induction false} FilterFates(s: seq<Message>, id: string, waiting: seq<Message>)
    ensures Filter(Fates(s, waiting), NotId(id)) == Fates(Filter(s, NotId(id)), waiting)
  {
    if |waiting| > 0 {
      FilterFates(s, id, waiting[..|waiting| - 1]);
      FilterAmended(Fates(s, waiting[..|waiting| - 1]), id, waiting[|waiting| - 1]);
    }
  }

  lemma FilterSingle(m: Message, id: string)
    ensures Filter([m], NotId(id)) == if m.id == id then [] else [m]
  {
  }

  lemma FilterArrived(s: seq<Message>, id: string, e: Message, at: Place)
    requires Lands(e, at) ==> e.id != id
    ensures Filter(Arrived(s, e, at), NotId(id)) == Arrived(Filter(s, NotId(id)), e, at)
  {
    FilterAmended(s, id, e);
    if Lands(e, at) {
      FilterConcat(s, [Plain()(e)], NotId(id));
      FilterSingle(Plain()(e), id);
    }
  }

  lemma {:induction false} FilterSettled(s: seq<Message>, id: string, waiting: seq<Message>, at: Place)
    requires !LandsIn(waiting, id, at)
    ensures Filter(Settled(s, waiting, at), NotId(id)) == Settled(Filter(s, NotId(id)), waiting, at)
  {
    if |waiting| > 0 {
      var rest, e := waiting[..|waiting| - 1], waiting[|waiting| - 1];
      assert e in waiting && forall x | x in rest :: x in waiting;
      FilterSettled(s, id, rest, at);
      FilterArrived(Settled(s, rest, at), id, e, at);
    }
  }

  lemma FilterNone(s: seq<Message>, id: string)
    requires !HasId(s, id)
    ensures Filter(s, NotId(id)) == s
  {
  }

  /** The removal's message has not been among those waiting before it: the order makes no difference. */
  lemma RemovalCommutes(s: seq<Message>, before: seq<Message>, e: Message, after: seq<Message>, at: Place)
    requires e.kind == DeleteMessage && !LandsIn(before, e.id, at)
    ensures Settled(s, before + [e] + after, at) == Settled(Arrived(s, e, at), before + after, at)
  {
    BothOrders(s, before, e, after, at);
    FilterSettled(s, e.id, before, at);
  }

  /** With the message waiting before it, the removal that comes first finds nothing to remove. */
  lemma RemovalMisses(s: seq<Message>, before: seq<Message>, e: Message, after: seq<Message>, at: Place)
    requires e.kind == DeleteMessage && !HasId(s, e.id) && !LandsIn(after, e.id, at)
    ensures Settled(Arrived(s, e, at), before + after, at) == Settled(s, before + after, at)
    ensures Settled(s, before + [e] + after, at) == Filter(Settled(s, before + after, at), NotId(e.id))
  {
    BothOrders(s, before, e, after, at);
    FilterNone(s, e.id);
    SettledJoin(s, before, after, at);
    SettledSplits(Settled(s, before, at), after, at);
    FilterFates(Settled(s, before, at), e.id, after);
    FilterConcat(Fates(Settled(s, before, at), after), News(after, at), NotId(e.id));
    SettledIds([], after, at, e.id);
    FilterNone(News(after, at), e.id);
  }

  lemma FilterMiddle(a: seq<Message>, y: seq<Message>, t: seq<Message>, id: string)
    requires !HasId(a, id) && !HasId(t, id) && |y| <= 1 && (y != [] ==> y[0].id == id)
    ensures Filter(a + y + t, NotId(id)) == a + t
  {
    FilterConcat(a + y, t, NotId(id));
    FilterConcat(a, y, NotId(id));
    FilterNone(a, id);
    FilterNone(t, id);
    if y != [] {
      assert y == [y[0]];
      FilterSingle(y[0], id);
    }
    assert a + [] == a;
  }

  /** A message that stays shifts the end of the list exactly if that end reaches further back. */
  lemma MissedIff(list: seq<Message>, a: seq<Message>, z: Message, t: seq<Message>)
    requires !HasId(a, z.id) && !HasId(t, z.id) && IsSuffix(list, a + t)
    ensures IsSuffix(list, a + [z] + t) <==> |list| <= |t|
  {
    if |list| <= |t| {
      EndOf(list, a, t);
      EndOf(list, a + [z], t);
    } else if IsSuffix(list, a + [z] + t) {
      HasIdConcat(a, t, z.id);
      SuffixHasId(list, a + t, z.id);
      Reaches(list, a, z, t);
    }
  }

  lemma Reaches(list: seq<Message>, a: seq<Message>, z: Message, t: seq<Message>)
    requires |list| > |t| && IsSuffix(list, a + [z] + t)
    ensures z in list
  {
    assert (a + [z] + t)[|a|] == z;
    assert list[|list| - |t| - 1] == z;
  }

  /** The list split at a message that lands. */
  lemma SplitAtLanding(s: seq<Message>, front: seq<Message>, m: Message, back: seq<Message>, at: Place)
    requires Lands(m, at)
    ensures Settled(s, front + [m] + back, at) ==
            Fates(Settled(s, front, at), back) + Fates([Plain()(m)], back) + News(back, at)
  {
    BothOrders(s, front, m, back, at);
    FatesConcat(Settled(s, front, at), [Plain()(m)], back);
  }

  lemma RemovalSettlesIff(list: seq<Message>, s: seq<Message>, front: seq<Message>, m: Message, back: seq<Message>,
      at: Place)
    requires Lands(m, at) && !HasId(s, m.id) && !LandsIn(front, m.id, at) && !LandsIn(back, m.id, at)
    requires IsSuffix(list, Filter(Settled(s, front + [m] + back, at), NotId(m.id)))
    ensures IsSuffix(list, Settled(s, front + [m] + back, at)) <==>
            Fates([Plain()(m)], back) == [] || |list| <= |News(back, at)|
  {
    SplitAtLanding(s, front, m, back, at);
    SettledIds(s, front, at, m.id);
    FatesIds(Settled(s, front, at), back, m.id);
    SettledIds([], back, at, m.id);
    OneFate(Plain()(m), back);
    MissedOrGone(list, Fates(Settled(s, front, at), back), Fates([Plain()(m)], back), News(back, at), m.id);
  }

  lemma MissedOrGone(list: seq<Message>, a: seq<Message>, y: seq<Message>, t: seq<Message>, id: string)
    requires !HasId(a, id) && !HasId(t, id) && |y| <= 1 && (y != [] ==> y[0].id == id)
    requires IsSuffix(list, Filter(a + y + t, NotId(id)))
    ensures IsSuffix(list, a + y + t) <==> y == [] || |list| <= |t|
  {
    FilterMiddle(a, y, t, id);
    if y == [] {
      NoMiddle(a, t);
    } else {
      Single(y);
      MissedIff(list, a, y[0], t);
    }
  }

  lemma NoMiddle(a: seq<Message>, t: seq<Message>)
    ensures a + [] + t == a + t
  {
  }

  lemma Single(y: seq<Message>)
    requires |y| == 1
    ensures y == [y[0]]
  {
  }

  lemma AfterSkip(waiting: seq<Message>, j: nat, k: nat)
    requires j < k < |waiting|
    ensures waiting[..k] + waiting[k + 1..] == waiting[..j] + [waiting[j]] + (waiting[j + 1..k] + waiting[k + 1..])
  {
  }

  /** Around a message that lands, no other event lands under its id. */
  lemma NoLandingBut(s: seq<Message>, waiting: seq<Message>, j: nat, k: nat, at: Place)
    requires Apart(s, waiting, at) && j < k < |waiting| && Lands(waiting[j], at)
    ensures var id := waiting[j].id;
            !HasId(s, id) && !LandsIn(waiting[..j], id, at) && !LandsIn(waiting[j + 1..k] + waiting[k + 1..], id, at) &&
            !LandsIn(waiting[k + 1..], id, at)
  {
  }

  lemma OneLanding(stored: nat, s: seq<Message>, waiting: seq<Message>, j: nat, k: nat, at: Place)
    requires j < k < |waiting| && Apart(s, waiting, at) && Lands(waiting[j], at) && waiting[j].id == waiting[k].id
    ensures var back := waiting[j + 1..k] + waiting[k + 1..];
            RemovalInTurn(stored, waiting[..k], waiting[k], waiting[k + 1..], at) <==>
            Fates([Plain()(waiting[j])], back) == [] || stored <= |News(back, at)|
  {
    var before := waiting[..k];
    assert before[j] == waiting[j] && before[j + 1..] == waiting[j + 1..k];
    assert forall i | 0 <= i < k && Lands(before[i], at) && before[i].id == waiting[k].id ::
           before[i] == waiting[i] && i == j;
  }

  lemma RemovalOvertakesIff(list: seq<Message>, s: seq<Message>, waiting: seq<Message>, k: nat, at: Place)
    requires k < |waiting| && waiting[k].kind == DeleteMessage
    requires Apart(s, waiting, at) && IsSuffix(list, Settled(s, waiting, at))
    ensures IsSuffix(list, Settled(Arrived(s, waiting[k], at), waiting[..k] + waiting[k + 1..], at)) <==>
            InTurn(list, waiting, k, at)
  {
    var before, e, after := waiting[..k], waiting[k], waiting[k + 1..];
    Around(waiting, k);
    if j :| 0 <= j < k && Lands(waiting[j], at) && waiting[j].id == e.id {
      NoLandingBut(s, waiting, j, k, at);
      RemovalMisses(s, before, e, after, at);
      AfterSkip(waiting, j, k);
      RemovalSettlesIff(list, s, waiting[..j], waiting[j], waiting[j + 1..k] + after, at);
      OneLanding(|list|, s, waiting, j, k, at);
    } else {
      assert forall i | 0 <= i < k :: before[i] == waiting[i];
      RemovalCommutes(s, before, e, after, at);
    }
  }

  // ---- An edit overtakes ----

  /** How a message relates to its copy that was edited too early, given what was last said about it since. */
  predicate Pair(p: Message, q: Message, id: string, content: string, word: Word) {
    if p.id != id then p == q
    else
      q.id == id && Edited(p, content) == Edited(q, content) &&
      match word
      case Silent => q == Edited(p, content)
      case Gone => false
      case Reads(c, f) => q == p && p.content == c && p.edited == f
  }

  predicate Paired(p: seq<Message>, q: seq<Message>, id: string, content: string, word: Word) {
    |p| == |q| && forall i | 0 <= i < |p| :: Pair(p[i], q[i], id, content, word)
  }

  lemma {:induction false} FilterPaired(p: seq<Message>, q: seq<Message>, id: string, content: string, word: Word,
      other: string)
    requires Paired(p, q, id, content, word)
    ensures Paired(Filter(p, NotId(other)), Filter(q, NotId(other)), id, content, if other == id then Gone else word)
  {
    if |p| > 0 {
      assert Pair(p[0], q[0], id, content, word);
      FilterPaired(p[1..], q[1..], id, content, word, other);
    }
  }

  lemma EditPaired(p: seq<Message>, q: seq<Message>, id: string, content: string, word: Word, e: Message)
    requires Paired(p, q, id, content, word) && e.kind == EditMessage
    ensures var f := EditOf(e.id, e.content);
            Paired(Map(p, f), Map(q, f), id, content, if e.id == id then Reads(e.content, true) else word)
  {
  }

  lemma LandPaired(p: seq<Message>, q: seq<Message>, id: string, content: string, word: Word, m: Message)
    requires Paired(p, q, id, content, word) && (m.id == id ==> !HasId(p, id))
    ensures Paired(p + [m], q + [m], id, content, if m.id == id then Reads(m.content, m.edited) else word)
  {
  }

  lemma PairedStep(p: seq<Message>, q: seq<Message>, id: string, content: string, word: Word, e: Message, at: Place)
    requires Paired(p, q, id, content, word) && (e.id == id && Lands(e, at) ==> !HasId(p, id))
    ensures Paired(Arrived(p, e, at), Arrived(q, e, at), id, content, NextWord(word, e, id, at))
  {
    if Lands(e, at) {
      LandPaired(p, q, id, content, word, Plain()(e));
    } else if e.kind == EditMessage {
      EditPaired(p, q, id, content, word, e);
    } else if e.kind == DeleteMessage {
      FilterPaired(p, q, id, content, word, e.id);
    }
  }

  lemma {:induction false} EditedEarly(s: seq<Message>, before: seq<Message>, id: string, content: string, at: Place)
    requires Apart(s, before, at)
    ensures Paired(Settled(s, before, at), Settled(Map(s, EditOf(id, content)), before, at), id, content,
            LastWord(before, id, at))
  {
    if |before| > 0 {
      var n := |before| - 1;
      ApartPrefix(s, before, at, n);
      EditedEarly(s, before[..n], id, content, at);
      if Lands(before[n], at) { SettledIds(s, before[..n], at, before[n].id); }
      PairedStep(Settled(s, before[..n], at), Settled(Map(s, EditOf(id, content)), before[..n], at), id, content,
                 LastWord(before[..n], id, at), before[n], at);
    }
  }

  /** Lists that differ at most in how the message of that id reads. */
  predicate Twins(p: seq<Message>, q: seq<Message>, id: string) {
    |p| == |q| && forall i | 0 <= i < |p| ::
        if p[i].id == id then q[i].id == id && Edited(p[i], "") == Edited(q[i], "") else p[i] == q[i]
  }

  lemma {:induction false} FilterTwins(p: seq<Message>, q: seq<Message>, id: string, other: string)
    requires Twins(p, q, id)
    ensures Twins(Filter(p, NotId(other)), Filter(q, NotId(other)), id)
  {
    if |p| > 0 {
      FilterTwins(p[1..], q[1..], id, other);
    }
  }

  lemma AmendedTwins(p: seq<Message>, q: seq<Message>, id: string, e: Message)
    requires Twins(p, q, id)
    ensures Twins(Amended(p, e), Amended(q, e), id)
    ensures e.kind == EditMessage && e.id == id ==> Amended(p, e) == Amended(q, e)
  {
    if e.kind == DeleteMessage { FilterTwins(p, q, id, e.id); }
  }

  predicate EditsAgain(waiting: seq<Message>, id: string) {
    exists e | e in waiting :: e.id == id && e.kind == EditMessage
  }

  lemma {:induction false} FatesTwins(p: seq<Message>, q: seq<Message>, id: string, waiting: seq<Message>)
    requires Twins(p, q, id)
    ensures Twins(Fates(p, waiting), Fates(q, waiting), id)
    ensures EditsAgain(waiting, id) ==> Fates(p, waiting) == Fates(q, waiting)
  {
    if |waiting| > 0 {
      var rest, e := waiting[..|waiting| - 1], waiting[|waiting| - 1];
      FatesTwins(p, q, id, rest);
      AmendedTwins(Fates(p, rest), Fates(q, rest), id, e);
      assert waiting == rest + [e] && forall x :: x in waiting <==> x in rest || x == e;
    }
  }

  predicate AllRead(s: seq<Message>, id: string, content: string, edited: bool) {
    forall m | m in s && m.id == id :: m.content == content && m.edited == edited
  }

  lemma AmendedReads(s: seq<Message>, e: Message, id: string, content: string, edited: bool)
    requires AllRead(s, id, content, edited) && !(e.kind == EditMessage && e.id == id)
    ensures AllRead(Amended(s, e), id, content, edited)
  {
    if e.kind == DeleteMessage {
      FilterMembers(s, NotId(e.id));
    } else if e.kind == EditMessage {
      assert forall i | 0 <= i < |s| :: s[i] in s && (s[i].id == id ==> Amended(s, e)[i] == s[i]);
    }
  }

  lemma {:induction false} FatesRead(s: seq<Message>, waiting: seq<Message>, id: string, content: string, edited: bool)
    requires AllRead(s, id, content, edited) && !EditsAgain(waiting, id)
    ensures AllRead(Fates(s, waiting), id, content, edited)
  {
    if |waiting| > 0 {
      var rest, e := waiting[..|waiting| - 1], waiting[|waiting| - 1];
      assert e in waiting && forall x | x in rest :: x in waiting;
      FatesRead(s, rest, id, content, edited);
      AmendedReads(Fates(s, rest), e, id, content, edited);
    }
  }

  /** The end of a list shows the difference between twins exactly if it holds the message in which they differ. */
  lemma TwinSuffixIff(list: seq<Message>, p: seq<Message>, q: seq<Message>, id: string)
    requires Twins(p, q, id) && IsSuffix(list, p)
    requires forall i | 0 <= i < |p| && p[i].id == id :: p[i] != q[i]
    ensures IsSuffix(list, q) <==> !HasId(list, id)
  {
  }

  lemma SameWhenSettled(p: seq<Message>, q: seq<Message>, id: string, content: string, word: Word)
    requires Paired(p, q, id, content, word) && (!word.Reads? || word == Reads(content, true) || !HasId(p, id))
    ensures Map(p, EditOf(id, content)) == q
  {
  }

  lemma DifferentReads(p: seq<Message>, q: seq<Message>, id: string, content: string, word: Word)
    requires Paired(p, q, id, content, word) && word.Reads?
    ensures Twins(Map(p, EditOf(id, content)), q, id)
    ensures AllRead(Map(p, EditOf(id, content)), id, content, true) && AllRead(q, id, word.content, word.edited)
  {
  }

  lemma TwinsWithTail(p: seq<Message>, q: seq<Message>, id: string, t: seq<Message>)
    requires Twins(p, q, id) && !HasId(t, id)
    requires forall i | 0 <= i < |p| && p[i].id == id :: p[i] != q[i]
    ensures Twins(p + t, q + t, id)
    ensures forall i | 0 <= i < |p + t| && (p + t)[i].id == id :: (p + t)[i] != (q + t)[i]
  {
  }

  lemma ReadsApart(p: seq<Message>, q: seq<Message>, id: string, c: string, f: bool, c': string, f': bool)
    requires Twins(p, q, id) && AllRead(p, id, c, f) && AllRead(q, id, c', f') && (c != c' || f != f')
    ensures forall i | 0 <= i < |p| && p[i].id == id :: p[i] != q[i]
  {
  }

  /** An edit whose message last read otherwise, and is not spoken of again. */
  lemma LateEditIff(list: seq<Message>, p: seq<Message>, q: seq<Message>, e: Message, word: Word, after: seq<Message>,
      at: Place)
    requires Paired(p, q, e.id, e.content, word) && word.Reads? && word != Reads(e.content, true)
    requires !Retold(after, e.id, at)
    requires IsSuffix(list, Fates(Map(p, EditOf(e.id, e.content)), after) + News(after, at))
    ensures IsSuffix(list, Fates(q, after) + News(after, at)) <==> !HasId(list, e.id)
  {
    var edited := Map(p, EditOf(e.id, e.content));
    DifferentReads(p, q, e.id, e.content, word);
    FatesTwins(edited, q, e.id, after);
    FatesRead(edited, after, e.id, e.content, true);
    FatesRead(q, after, e.id, word.content, word.edited);
    ReadsApart(Fates(edited, after), Fates(q, after), e.id, e.content, true, word.content, word.edited);
    SettledIds([], after, at, e.id);
    TwinsWithTail(Fates(edited, after), Fates(q, after), e.id, News(after, at));
    TwinSuffixIff(list, Fates(edited, after) + News(after, at), Fates(q, after) + News(after, at), e.id);
  }

  /** An edit whose message is edited again, or only lands, afterwards. */
  lemma RetoldEdit(p: seq<Message>, q: seq<Message>, e: Message, word: Word, after: seq<Message>, at: Place)
    requires Paired(p, q, e.id, e.content, word) && word.Reads? && Retold(after, e.id, at)
    requires LandsIn(after, e.id, at) ==> !HasId(p, e.id)
    ensures Fates(Map(p, EditOf(e.id, e.content)), after) == Fates(q, after)
  {
    if HasId(p, e.id) {
      assert EditsAgain(after, e.id);
      DifferentReads(p, q, e.id, e.content, word);
      FatesTwins(Map(p, EditOf(e.id, e.content)), q, e.id, after);
    } else {
      SameWhenSettled(p, q, e.id, e.content, word);
    }
  }

  lemma LandsLater(s: seq<Message>, waiting: seq<Message>, k: nat, at: Place, id: string)
    requires k < |waiting| && Apart(s, waiting, at) && LandsIn(waiting[k + 1..], id, at)
    ensures !HasId(Settled(s, waiting[..k], at), id)
  {
    var after := waiting[k + 1..];
    var e :| e in after && e.id == id && Lands(e, at);
    var i :| 0 <= i < |after| && after[i] == e;
    assert waiting[k + 1 + i] == e;
    assert forall x | x in waiting[..k] :: x.id == id && Lands(x, at) ==> false;
    SettledIds(s, waiting[..k], at, id);
  }

  lemma EditOvertakesIff(list: seq<Message>, s: seq<Message>, waiting: seq<Message>, k: nat, at: Place)
    requires k < |waiting| && waiting[k].kind == EditMessage
    requires Apart(s, waiting, at) && IsSuffix(list, Settled(s, waiting, at))
    ensures IsSuffix(list, Settled(Arrived(s, waiting[k], at), waiting[..k] + waiting[k + 1..], at)) <==>
            InTurn(list, waiting, k, at)
  {
    var before, e, after := waiting[..k], waiting[k], waiting[k + 1..];
    Around(waiting, k);
    BothOrders(s, before, e, after, at);
    ApartPrefix(s, waiting, at, k);
    EditedEarly(s, before, e.id, e.content, at);
    var p, q := Settled(s, before, at), Settled(Map(s, EditOf(e.id, e.content)), before, at);
    var word := LastWord(before, e.id, at);
    if !word.Reads? || word == Reads(e.content, true) {
      SameWhenSettled(p, q, e.id, e.content, word);
    } else if Retold(after, e.id, at) {
      if LandsIn(after, e.id, at) { LandsLater(s, waiting, k, at, e.id); }
      RetoldEdit(p, q, e, word, after, at);
    } else {
      LateEditIff(list, p, q, e, word, after, at);
    }
  }

  // ---- Any event ----

  lemma IdleOvertakes(s: seq<Message>, waiting: seq<Message>, k: nat, at: Place)
    requires k < |waiting| && !Lands(waiting[k], at) && waiting[k].kind != EditMessage &&
             waiting[k].kind != DeleteMessage
    ensures Settled(Arrived(s, waiting[k], at), waiting[..k] + waiting[k + 1..], at) == Settled(s, waiting, at)
  {
    Around(waiting, k);
    BothOrders(s, waiting[..k], waiting[k], waiting[k + 1..], at);
  }

  /**
   * The store's list is the end of what the client comes to. After the k-th waiting event has arrived ahead of the
   * others it still is exactly if that event was in turn.
   */
  lemma OvertakesIff(list: seq<Message>, s: seq<Message>, waiting: seq<Message>, k: nat, at: Place)
    requires k < |waiting| && Apart(s, waiting, at) && IsSuffix(list, Settled(s, waiting, at))
    ensures IsSuffix(list, Settled(Arrived(s, waiting[k], at), waiting[..k] + waiting[k + 1..], at)) <==>
            InTurn(list, waiting, k, at)
  {
    if Lands(waiting[k], at) {
      PostOvertakesIff(list, s, waiting, k, at);
    } else if waiting[k].kind == EditMessage {
      EditOvertakesIff(list, s, waiting, k, at);
    } else if waiting[k].kind == DeleteMessage {
      RemovalOvertakesIff(list, s, waiting, k, at);
    } else {
      IdleOvertakes(s, waiting, k, at);
    }
  }

  /** The first of the waiting events is always in turn. */
  lemma FirstInTurn(list: seq<Message>, waiting: seq<Message>, at: Place)
    requires |waiting| > 0
    ensures InTurn(list, waiting, 0, at)
  {
    assert waiting[..0] + waiting[1..] == waiting[1..];
    assert News(waiting[..0], at) == [];
    FatesOfNone(waiting[1..]);
  }

  lemma {:induction false} FatesOfNone(waiting: seq<Message>)
    ensures Fates([], waiting) == []
  {
    if |waiting| > 0 { FatesOfNone(waiting[..|waiting| - 1]); }
  }

  // ---- Two special cases ----

  lemma {:induction false} PostsSettle(s: seq<Message>, posts: seq<Message>, at: Place)
    requires forall e | e in posts :: Lands(e, at)
    ensures Settled(s, posts, at) == s + Map(posts, Plain())
  {
    if |posts| > 0 {
      var rest, e := posts[..|posts| - 1], posts[|posts| - 1];
      assert e in posts && forall x | x in rest :: x in posts;
      PostsSettle(s, rest, at);
      assert Map(posts, Plain()) == Map(rest, Plain()) + [Plain()(e)];
    }
  }

  lemma SameEndIff(list: seq<Message>, s: seq<Message>, a: seq<Message>, b: seq<Message>)
    requires |a| == |b| && IsSuffix(list, s + a)
    ensures IsSuffix(list, s + b) <==> LastN(b, |list|) == LastN(a, |list|)
  {
    var n := |s + a| - |list|;
    if |list| <= |a| {
      assert (s + a)[n..] == LastN(a, |list|) && (s + b)[n..] == LastN(b, |list|);
    } else {
      assert (s + a)[n..] == s[n..] + a && (s + b)[n..] == s[n..] + b;
      assert (s[n..] + a)[|s| - n..] == a && (s[n..] + b)[|s| - n..] == b;
    }
  }

  /**
   * Saved in one order and shown in another, messages agree exactly if those still stored are shown in the order
   * saved.
   */
  lemma PostsAgreeIff(list: seq<Message>, s: seq<Message>, saved: seq<Message>, shown: seq<Message>, at: Place)
    requires |saved| == |shown| && (forall e | e in saved :: Lands(e, at)) && (forall e | e in shown :: Lands(e, at))
    requires IsSuffix(list, Settled(s, saved, at))
    ensures IsSuffix(list, Settled(s, shown, at)) <==>
            LastN(Map(shown, Plain()), |list|) == LastN(Map(saved, Plain()), |list|)
  {
    PostsSettle(s, saved, at);
    PostsSettle(s, shown, at);
    SameEndIff(list, s, Map(saved, Plain()), Map(shown, Plain()));
  }

  lemma {:induction false} EditsSettle(s: seq<Message>, edits: seq<Message>, id: string, at: Place)
    requires |edits| > 0 && forall e | e in edits :: e.kind == EditMessage && e.id == id
    ensures Settled(s, edits, at) == Map(s, EditOf(id, edits[|edits| - 1].content))
  {
    var rest, e := edits[..|edits| - 1], edits[|edits| - 1];
    assert e in edits && forall x | x in rest :: x in edits;
    if |rest| > 0 {
      EditsSettle(s, rest, id, at);
      assert forall m :: EditOf(id, e.content)(EditOf(id, rest[|rest| - 1].content)(m)) == EditOf(id, e.content)(m);
    }
  }

  /** Edits of one stored message agree exactly if the last to arrive says what the last to be applied says. */
  lemma EditsAgreeIff(list: seq<Message>, s: seq<Message>, applied: seq<Message>, shown: seq<Message>, id: string,
      at: Place)
    requires |applied| > 0 && |shown| > 0 && HasId(list, id)
    requires forall e | e in applied :: e.kind == EditMessage && e.id == id
    requires forall e | e in shown :: e.kind == EditMessage && e.id == id
    requires IsSuffix(list, Settled(s, applied, at))
    ensures IsSuffix(list, Settled(s, shown, at)) <==> shown[|shown| - 1].content == applied[|applied| - 1].content
  {
    var c, c' := applied[|applied| - 1].content, shown[|shown| - 1].content;
    EditsSettle(s, applied, id, at);
    EditsSettle(s, shown, id, at);
    if c != c' {
      EditedApart(s, id, c, c');
      TwinSuffixIff(list, Map(s, EditOf(id, c)), Map(s, EditOf(id, c')), id);
    }
  }

  lemma EditedApart(s: seq<Message>, id: string, c: string, c': string)
    requires c != c'
    ensures var p, q := Map(s, EditOf(id, c)), Map(s, EditOf(id, c'));
            Twins(p, q, id) && forall i | 0 <= i < |p| && p[i].id == id :: p[i] != q[i]
  {
  }
}
