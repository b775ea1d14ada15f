/** Exactly which runs keep the channel index in agreement with the flat list, whether or not ids are reused. */
module StoreGuards {
  import opened Sequences
  import opened Protocol
  import opened StoreModel
  import opened StoreRuns

  /** The flat list's messages of a channel. */
  function Own(st: Store, ch: string): seq<Message> {
    Filter(st.flat, InChannel(ch))
  }

  /** The first copy of the id in the channel's list is one that the flat list still has. */
  predicate SameCopy(st: Store, id: string, ch: string) {
    IndexOf(List(st.index, ch), id) >= |List(st.index, ch)| - |Own(st, ch)|
  }

  /**
   * A command that changes a message found in the flat list must find that same copy in the channel's list, or change
   * nothing, or remove the oldest of the flat list's messages of the channel.
   */
  predicate Guard(st: Store, op: Op) {
    match op
    case UpdateOp(id, content) =>
      var i := IndexOf(st.flat, id);
      i < |st.flat| ==> SameCopy(st, id, Normalize(st.flat[i].channel)) || Edited(st.flat[i], content) == st.flat[i]
    case DeleteOp(id) =>
      var i := IndexOf(st.flat, id);
      i < |st.flat| ==>
        SameCopy(st, id, Normalize(st.flat[i].channel)) || IndexOf(Own(st, Normalize(st.flat[i].channel)), id) == 0
    case ReactOp(id, emoji, user) =>
      var i := IndexOf(st.flat, id);
      i < |st.flat| ==> SameCopy(st, id, Normalize(st.flat[i].channel)) || user in Users(st.flat[i], emoji)
    case _ => true
  }

  // ---- The flat list, channel by channel ----

  /** The message that a search for the id finds, among the flat list's messages of its channel. */
  lemma OwnFirst(flat: seq<Message>, id: string)
    requires IndexOf(flat, id) < |flat|
    ensures var i, own := IndexOf(flat, id), Filter(flat, InChannel(Normalize(flat[IndexOf(flat, id)].channel)));
            var k := |Filter(flat[..i], InChannel(Normalize(flat[i].channel)))|;
            IndexOf(own, id) == k < |own| && own[k] == flat[i]
  {
    var i := IndexOf(flat, id);
    var p := InChannel(Normalize(flat[i].channel));
    FilterAround(flat, i, p);
    FilterMembers(flat[..i], p);
    FirstAfter(Filter(flat[..i], p), flat[i], Filter(flat[i + 1..], p));
  }

  lemma FirstAfter(a: seq<Message>, m: Message, b: seq<Message>)
    requires forall x | x in a :: x.id != m.id
    ensures IndexOf(a + [m] + b, m.id) == |a| && (a + [m] + b)[|a|] == m
  {
  }

  lemma OwnReplaced(flat: seq<Message>, id: string, x: Message, ch: string)
    requires IndexOf(flat, id) < |flat| && x.channel == flat[IndexOf(flat, id)].channel
    ensures var i, own := IndexOf(flat, id), Filter(flat, InChannel(ch));
            if ch == Normalize(x.channel)
            then IndexOf(own, id) < |own| && Filter(flat[i := x], InChannel(ch)) == own[IndexOf(own, id) := x]
            else Filter(flat[i := x], InChannel(ch)) == own
  {
    var i := IndexOf(flat, id);
    var flat' := flat[i := x];
    FilterAround(flat, i, InChannel(ch));
    FilterAround(flat', i, InChannel(ch));
    assert flat'[..i] == flat[..i] && flat'[i + 1..] == flat[i + 1..];
    if ch == Normalize(x.channel) {
      OwnFirst(flat, id);
      Replaced(Filter(flat[..i], InChannel(ch)), flat[i], x, Filter(flat[i + 1..], InChannel(ch)));
    }
  }

  lemma Replaced<T>(a: seq<T>, m: T, x: T, b: seq<T>)
    ensures (a + [m] + b)[|a| := x] == a + [x] + b
  {
  }

  /** The messages of a channel around the one that is found. */
  lemma OwnParts(flat: seq<Message>, id: string, ch: string) returns (a: seq<Message>, b: seq<Message>)
    requires IndexOf(flat, id) < |flat|
    ensures var m, own := flat[IndexOf(flat, id)], Filter(flat, InChannel(ch));
            if ch == Normalize(m.channel) then own == a + [m] + b && IndexOf(own, id) == |a| else own == a + b
    ensures Filter(RemoveFirst(flat, id), InChannel(ch)) == a + b
  {
    var i, p := IndexOf(flat, id), InChannel(ch);
    a, b := Filter(flat[..i], p), Filter(flat[i + 1..], p);
    FilterConcat(flat[..i], flat[i + 1..], p);
    FilterAround(flat, i, p);
    if ch == Normalize(flat[i].channel) {
      OwnFirst(flat, id);
    } else {
      NothingBetween(a, b);
    }
  }

  lemma OwnRemoved(flat: seq<Message>, id: string, ch: string)
    requires IndexOf(flat, id) < |flat|
    ensures var own := Filter(flat, InChannel(ch));
            Filter(RemoveFirst(flat, id), InChannel(ch)) ==
            if ch == Normalize(flat[IndexOf(flat, id)].channel) then RemoveFirst(own, id) else own
  {
    var a, b := OwnParts(flat, id, ch);
    var m := flat[IndexOf(flat, id)];
    if ch == Normalize(m.channel) { RemovedAt(Filter(flat, InChannel(ch)), a, m, b, id); }
  }

  lemma RemovedAt(s: seq<Message>, a: seq<Message>, m: Message, b: seq<Message>, id: string)
    requires s == a + [m] + b && IndexOf(s, id) == |a|
    ensures RemoveFirst(s, id) == a + b
  {
  }

  lemma NothingBetween<T>(a: seq<T>, b: seq<T>)
    ensures a + [] + b == a + b
  {
  }

  // ---- First matches in a list and in its end ----

  lemma FirstMatches(own: seq<Message>, list: seq<Message>, id: string)
    requires IsSuffix(own, list) && IndexOf(own, id) < |own|
    ensures IndexOf(list, id) <= |list| - |own| + IndexOf(own, id)
    ensures IndexOf(list, id) >= |list| - |own| ==> IndexOf(list, id) == |list| - |own| + IndexOf(own, id)
  {
  }

  /** Replacing the first match in a list and in its end. */
  lemma ReplaceEndsIff(own: seq<Message>, list: seq<Message>, j: nat, k: nat, x: Message, y: Message)
    requires IsSuffix(own, list) && k < |own| && j < |list| && (j == |list| - |own| + k ==> x == y)
    requires j < |list| - |own| || j == |list| - |own| + k
    ensures IsSuffix(own[k := x], list[j := y]) <==> j >= |list| - |own| || x == own[k]
  {
  }

  lemma RemoveEndsIff(own: seq<Message>, list: seq<Message>, id: string)
    requires IsSuffix(own, list) && IndexOf(own, id) < |own|
    ensures IsSuffix(RemoveFirst(own, id), RemoveFirst(list, id)) <==>
            IndexOf(list, id) >= |list| - |own| || IndexOf(own, id) == 0
  {
    var front := list[..|list| - |own|];
    Rejoin(own, list);
    FirstMatches(own, list, id);
    if IndexOf(list, id) >= |front| {
      RemoveBehind(front, own, id);
    } else {
      RemoveBefore(front, own, id);
      FrontOrRestIff(own, id);
      SameLengthSuffix(RemoveFirst(own, id), front[..IndexOf(list, id)] + front[IndexOf(list, id) + 1..], own);
    }
  }

  lemma Rejoin<T>(end: seq<T>, s: seq<T>)
    requires IsSuffix(end, s)
    ensures s[..|s| - |end|] + end == s
  {
  }

  lemma RemoveBehind(front: seq<Message>, own: seq<Message>, id: string)
    requires IndexOf(own, id) < |own| && IndexOf(front + own, id) == |front| + IndexOf(own, id)
    ensures IsSuffix(RemoveFirst(own, id), RemoveFirst(front + own, id))
  {
    SkipBehind(front, own, IndexOf(own, id));
    EndsIn(front, RemoveFirst(own, id));
  }

  lemma SkipBehind<T>(front: seq<T>, own: seq<T>, k: nat)
    requires k < |own|
    ensures var j := |front| + k;
            (front + own)[..j] + (front + own)[j + 1..] == front + (own[..k] + own[k + 1..])
  {
  }

  lemma EndsIn<T>(a: seq<T>, b: seq<T>)
    ensures IsSuffix(b, a + b)
  {
  }

  lemma RemoveBefore(front: seq<Message>, own: seq<Message>, id: string)
    requires IndexOf(front + own, id) < |front|
    ensures var j := IndexOf(front + own, id); RemoveFirst(front + own, id) == (front[..j] + front[j + 1..]) + own
  {
    SkipBefore(front, own, IndexOf(front + own, id));
  }

  lemma SkipBefore<T>(front: seq<T>, own: seq<T>, j: nat)
    requires j < |front|
    ensures (front + own)[..j] + (front + own)[j + 1..] == (front[..j] + front[j + 1..]) + own
  {
  }

  /** A list one shorter is the end of a longer one's end exactly if it is all of it but the first. */
  lemma SameLengthSuffix(a: seq<Message>, front: seq<Message>, own: seq<Message>)
    requires |own| > 0 && |a| == |own| - 1
    ensures IsSuffix(a, front + own) <==> a == own[1..]
  {
  }

  lemma FrontOrRestIff(own: seq<Message>, id: string)
    requires IndexOf(own, id) < |own|
    ensures RemoveFirst(own, id) == own[1..] <==> IndexOf(own, id) == 0
  {
  }

  // ---- Each command ----

  lemma HomeListed(st: Store, i: nat)
    requires StoreRuns.Agrees(st) && i < |st.flat|
    ensures Normalize(st.flat[i].channel) in st.index
  {
    var ch := Normalize(st.flat[i].channel);
    FilterMembers(st.flat, InChannel(ch));
    assert IsSuffix(Own(st, ch), List(st.index, ch));
    assert st.flat[i] in st.flat;
  }

  /** A change that leaves the other channels alone keeps the agreement exactly if it does so in its own. */
  lemma HomeDecides(st: Store, st': Store, home: string)
    requires StoreRuns.Agrees(st)
    requires forall ch | ch != home :: Own(st', ch) == Own(st, ch) && List(st'.index, ch) == List(st.index, ch)
    ensures StoreRuns.Agrees(st') <==> IsSuffix(Own(st', home), List(st'.index, home))
  {
    if IsSuffix(Own(st', home), List(st'.index, home)) {
      forall ch ensures IsSuffix(Filter(st'.flat, InChannel(ch)), List(st'.index, ch)) {
        assert IsSuffix(Filter(st.flat, InChannel(ch)), List(st.index, ch));
        if ch != home { assert Own(st', ch) == Own(st, ch); }
      }
    }
  }

  lemma UpdateAgreesIff(st: Store, id: string, content: string)
    requires StoreRuns.Agrees(st)
    ensures StoreRuns.Agrees(Update(st, id, content).0) <==> Guard(st, UpdateOp(id, content))
  {
    var i := IndexOf(st.flat, id);
    if i < |st.flat| {
      ReplacedDecides(st, Update(st, id, content).0, id, Edited(st.flat[i], content));
      EditEndsIff(Own(st, Normalize(st.flat[i].channel)), List(st.index, Normalize(st.flat[i].channel)), id, content);
    }
  }

  /** What it takes for a change of the found message in place to keep the agreement. */
  lemma ReplacedDecides(st: Store, st': Store, id: string, x: Message)
    requires StoreRuns.Agrees(st) && IndexOf(st.flat, id) < |st.flat| &&
             x.channel == st.flat[IndexOf(st.flat, id)].channel
    requires st'.flat == st.flat[IndexOf(st.flat, id) := x]
    requires forall ch | ch != Normalize(x.channel) :: List(st'.index, ch) == List(st.index, ch)
    ensures var home := Normalize(x.channel);
            var own := Own(st, home);
            && home in st.index && IsSuffix(own, List(st.index, home))
            && IndexOf(own, id) < |own| && own[IndexOf(own, id)] == st.flat[IndexOf(st.flat, id)]
            && (StoreRuns.Agrees(st') <==> IsSuffix(own[IndexOf(own, id) := x], List(st'.index, home)))
  {
    var home := Normalize(x.channel);
    HomeListed(st, IndexOf(st.flat, id));
    OwnFirst(st.flat, id);
    forall ch | ch != home ensures Own(st', ch) == Own(st, ch) {
      OwnReplaced(st.flat, id, x, ch);
    }
    OwnReplaced(st.flat, id, x, home);
    HomeDecides(st, st', home);
    assert IsSuffix(Own(st, home), List(st.index, home));
  }

  lemma EditEndsIff(own: seq<Message>, list: seq<Message>, id: string, content: string)
    requires IsSuffix(own, list) && IndexOf(own, id) < |own|
    ensures var m := own[IndexOf(own, id)];
            IsSuffix(EditFirst(own, id, content), EditFirst(list, id, content)) <==>
            IndexOf(list, id) >= |list| - |own| || Edited(m, content) == m
  {
    var j, k := IndexOf(list, id), IndexOf(own, id);
    FirstMatches(own, list, id);
    ReplaceEndsIff(own, list, j, k, Edited(own[k], content), Edited(list[j], content));
  }

  lemma RemovedDecides(st: Store, st': Store, id: string)
    requires StoreRuns.Agrees(st) && IndexOf(st.flat, id) < |st.flat| && st'.flat == RemoveFirst(st.flat, id)
    requires forall ch | ch != Normalize(st.flat[IndexOf(st.flat, id)].channel) ::
             List(st'.index, ch) == List(st.index, ch)
    ensures var home := Normalize(st.flat[IndexOf(st.flat, id)].channel);
            var own := Own(st, home);
            && home in st.index && IsSuffix(own, List(st.index, home)) && IndexOf(own, id) < |own|
            && (StoreRuns.Agrees(st') <==> IsSuffix(RemoveFirst(own, id), List(st'.index, home)))
  {
    var home := Normalize(st.flat[IndexOf(st.flat, id)].channel);
    HomeListed(st, IndexOf(st.flat, id));
    OwnFirst(st.flat, id);
    forall ch | ch != home ensures Own(st', ch) == Own(st, ch) {
      OwnRemoved(st.flat, id, ch);
    }
    OwnRemoved(st.flat, id, home);
    HomeDecides(st, st', home);
    assert IsSuffix(Own(st, home), List(st.index, home));
  }

  lemma DeleteAgreesIff(st: Store, id: string)
    requires StoreRuns.Agrees(st)
    ensures StoreRuns.Agrees(Delete(st, id).0) <==> Guard(st, DeleteOp(id))
  {
    var i := IndexOf(st.flat, id);
    if i < |st.flat| {
      RemovedDecides(st, Delete(st, id).0, id);
      RemoveEndsIff(Own(st, Normalize(st.flat[i].channel)), List(st.index, Normalize(st.flat[i].channel)), id);
    }
  }

  lemma ReactAgreesIff(st: Store, id: string, emoji: string, user: string)
    requires StoreRuns.Agrees(st)
    ensures StoreRuns.Agrees(React(st, id, emoji, user).0) <==> Guard(st, ReactOp(id, emoji, user))
  {
    var i := IndexOf(st.flat, id);
    if i < |st.flat| && user !in Users(st.flat[i], emoji) {
      var users := Users(st.flat[i], emoji) + [user];
      var x := st.flat[i].(reactions := st.flat[i].reactions[emoji := users]);
      ReplacedDecides(st, React(st, id, emoji, user).0, id, x);
      ReactEndsIff(Own(st, Normalize(x.channel)), List(st.index, Normalize(x.channel)), id, emoji, users);
    }
  }

  lemma ReactEndsIff(own: seq<Message>, list: seq<Message>, id: string, emoji: string, users: seq<string>)
    requires IsSuffix(own, list) && IndexOf(own, id) < |own| && |users| > |Users(own[IndexOf(own, id)], emoji)|
    ensures IsSuffix(CopyReaction(own, id, emoji, users), CopyReaction(list, id, emoji, users)) <==>
            IndexOf(list, id) >= |list| - |own|
  {
    var j, k := IndexOf(list, id), IndexOf(own, id);
    FirstMatches(own, list, id);
    var x := own[k].(reactions := own[k].reactions[emoji := users]);
    assert Users(x, emoji) == users;
    ReplaceEndsIff(own, list, j, k, x, list[j].(reactions := list[j].reactions[emoji := users]));
  }

  // ---- Every run ----

  lemma StepBounded(st: Store, op: Op, size: Message -> nat)
    requires Bounded(st)
    ensures Bounded(Step(st, op, size))
  {
    if op.LoadOp? {
      LoadBounded(st, size);
    } else if op.SaveOp? {
      SaveBounded(st, op.msg, op.generated);
    }
  }

  lemma LoadBounded(st: Store, size: Message -> nat)
    ensures Bounded(Load(st, size).0)
  {
    LastNSuffix(Readable(st.log, size), st.cap);
    GroupBounded(Load(st, size).0.flat, st.cap);
  }

  lemma SaveBounded(st: Store, msg: Message, generated: string)
    requires Bounded(st)
    ensures Bounded(Save(st, msg, generated).0)
  {
  }

  lemma GroupBounded(msgs: seq<Message>, cap: nat)
    requires |msgs| <= cap
    ensures forall ch | ch in Group(msgs) :: |Group(msgs)[ch]| <= cap
  {
    forall ch | ch in Group(msgs) ensures |Group(msgs)[ch]| <= cap {
      GroupIsFilter(msgs, ch);
    }
  }

  /** In any state in agreement: a step keeps it exactly if it meets its guard. */
  lemma StepAgreesIff(st: Store, op: Op, size: Message -> nat)
    requires Bounded(st) && StoreRuns.Agrees(st)
    ensures StoreRuns.Agrees(Step(st, op, size)) <==> Guard(st, op)
  {
    match op
    case SaveOp(msg, generated) => SaveAgrees(st, msg, generated);
    case UpdateOp(id, content) => UpdateAgreesIff(st, id, content);
    case DeleteOp(id) => DeleteAgreesIff(st, id);
    case ReactOp(id, emoji, user) => ReactAgreesIff(st, id, emoji, user);
    case CompactOp => assert forall ch :: IsSuffix(Filter(st.flat, InChannel(ch)), List(st.index, ch));
    case LoadOp =>
      var st' := Load(st, size).0;
      forall ch ensures IsSuffix(Filter(st'.flat, InChannel(ch)), List(st'.index, ch)) {
        GroupIsFilter(st'.flat, ch);
      }
  }

  ghost predicate AlwaysAgrees(st: Store, ops: seq<Op>, size: Message -> nat)
    decreases |ops|
  {
    StoreRuns.Agrees(st) && (|ops| > 0 ==> AlwaysAgrees(Step(st, ops[0], size), ops[1..], size))
  }

  predicate AllGuarded(st: Store, ops: seq<Op>, size: Message -> nat)
    decreases |ops|
  {
    |ops| > 0 ==> Guard(st, ops[0]) && AllGuarded(Step(st, ops[0], size), ops[1..], size)
  }

  /** Over any run, ids reused or not: the lists agree in every state exactly if every step meets its guard. */
  lemma {:induction false} RunAgreesIff(st: Store, ops: seq<Op>, size: Message -> nat)
    requires Bounded(st) && StoreRuns.Agrees(st)
    ensures AlwaysAgrees(st, ops, size) <==> AllGuarded(st, ops, size)
    ensures AllGuarded(st, ops, size) ==> StoreRuns.Agrees(Run(st, ops, size))
    decreases |ops|
  {
    if |ops| > 0 {
      StepAgreesIff(st, ops[0], size);
      StepBounded(st, ops[0], size);
      if Guard(st, ops[0]) { RunAgreesIff(Step(st, ops[0], size), ops[1..], size); }
    }
  }

  /** New ids are enough: with them every step meets its guard. */
  lemma {:induction false} FreshGuarded(st: Store, births: Births, ops: seq<Op>, size: Message -> nat)
    requires Inv(st, births) && FreshAll(births, ops)
    ensures AllGuarded(st, ops, size)
    decreases |ops|
  {
    if |ops| > 0 {
      IndexBounded(st, births);
      StepKeeps(st, births, ops[0], size);
      StepAgreesIff(st, ops[0], size);
      FreshGuarded(Step(st, ops[0], size), Born(births, ops[0]), ops[1..], size);
    }
  }

  /** They are not needed: a message saved twice under one id does no harm by itself. */
  lemma SavedTwice(m: Message, size: Message -> nat)
    requires m.content == "" && m.id != ""
    ensures !FreshAll(map[], [SaveOp(m, ""), SaveOp(m, "")]) &&
            AllGuarded(Empty(2, []), [SaveOp(m, ""), SaveOp(m, "")], size)
  {
  }
}
