/** Navigation and unread counts of the terminal client. */
module Sidebar {
  import opened Sequences
  import opened Protocol
  import opened ClientView
  import opened Conversations

  /** The sidebar lists each channel and each conversation once, among them the one on screen. */
  predicate Inv(v: View) {
    && Distinct(v.channels) && Distinct(v.dmUsers)
    && (forall name | name in v.channels :: name in v.states && !IsDm(name))
    && (forall name | name in v.states :: IsDm(name) || name in v.channels)
    && (forall user | user in v.dmUsers :: "dm:" + user in v.states)
    && Listed(v, v.active)
  }

  predicate Listed(v: View, name: string) {
    name in v.channels || (IsDm(name) && name[3..] in v.dmUsers)
  }

  lemma ItemsMembers(v: View)
    ensures forall name :: name in Items(v) <==> Listed(v, name)
  {
    var dms := Map(v.dmUsers, DmName());
    forall name ensures name in dms <==> IsDm(name) && name[3..] in v.dmUsers {
      if name in dms {
        var i :| 0 <= i < |dms| && dms[i] == name;
        assert name[3..] == v.dmUsers[i];
      }
      if IsDm(name) && name[3..] in v.dmUsers {
        var i :| 0 <= i < |v.dmUsers| && v.dmUsers[i] == name[3..];
        assert dms[i] == "dm:" + name[3..] == name;
      }
    }
  }

  lemma ItemsDistinct(v: View)
    requires Inv(v)
    ensures Distinct(Items(v))
  {
    var items, n := Items(v), |v.channels|;
    forall i, j | 0 <= i < j < |items| ensures items[i] != items[j] {
      if i < n <= j {
        assert items[i] in v.channels && IsDm(items[j]);
      } else if n <= i {
        assert items[i] == "dm:" + v.dmUsers[i - n] && items[j] == "dm:" + v.dmUsers[j - n];
        assert items[i][3..] == v.dmUsers[i - n] && items[j][3..] == v.dmUsers[j - n];
      }
    }
  }

  /** Going to a channel keeps the sidebar in order exactly unless it is a conversation that is not listed. */
  lemma SwitchKeepsIff(v: View, name: string)
    requires Inv(v)
    ensures Inv(Switch(v, name)) <==> !IsDm(name) || name in Items(v)
  {
    ItemsMembers(v);
    assert Listed(Switch(v, name), name) <==> !IsDm(name) || Listed(v, name);
    assert forall user | user in v.dmUsers :: "dm:" + user in v.states;
  }

  lemma AddKeeps(v: View, ch: string, msg: Message, notifies: bool)
    requires Inv(v)
    ensures Inv(Add(v, ch, msg, notifies)) && ch in Add(v, ch, msg, notifies).states
    ensures Add(v, ch, msg, notifies).dmUsers == v.dmUsers
  {
  }

  /** A conversation is listed once it has messages. */
  lemma ConversationKeeps(v: View, user: string)
    requires Inv(v) && "dm:" + user in v.states
    ensures Inv(ListConversation(v, user))
  {
  }

  lemma AmendKeeps(v: View, msg: Message)
    requires Inv(v)
    ensures Inv(AmendAll(v, msg))
  {
  }

  lemma HandleKeeps(v: View, msg: Message)
    requires Inv(v)
    ensures Inv(Handle(v, msg))
  {
    var v1 := Add(v, Home(v, msg), msg, Notifies(msg.kind));
    AddKeeps(v, Home(v, msg), msg, Notifies(msg.kind));
    if msg.kind == DirectMessage { ConversationKeeps(v1, Other(v, msg)); }
    AmendKeeps(v, msg);
  }

  predicate Enabled(v: View, s: Step) {
    s.Typed? ==> !IsDm(s.name) || s.name in Items(v)
  }

  /** A row of the sidebar can always be gone to. */
  lemma RowKeeps(v: View, row: nat)
    requires Inv(v) && row < |Items(v)|
    ensures Inv(Switch(v, Items(v)[row]))
  {
  }

  lemma RowAfter(i: nat, n: nat)
    requires i < n
    ensures (i + 1) % n == if i + 1 == n then 0 else i + 1
  {
  }

  lemma RowBefore(i: nat, n: nat)
    requires i < n
    ensures (i - 1 + n) % n == if i == 0 then n - 1 else i - 1
  {
  }

  // ---- Cycling ----

  function Active(v: View): nat {
    Position(Items(v), v.active)
  }

  /** The same sidebar with another row on screen. */
  predicate Moved(v: View, v': View, row: nat) {
    Inv(v') && Items(v') == Items(v) && row < |Items(v)| && Active(v') == row && v'.active == Items(v)[row]
  }

  function RowOnwards(row: nat, n: nat): nat {
    if row + 1 == n then 0 else row + 1
  }

  function RowBack(row: nat, n: nat): nat
    requires row < n
  {
    if row == 0 then n - 1 else row - 1
  }

  lemma RowMoves(v: View, row: nat, v': View)
    requires Inv(v) && row < |Items(v)| && v' == Switch(v, Items(v)[row])
    ensures Moved(v, v', row)
  {
  }

  lemma ActiveListed(v: View)
    requires Inv(v)
    ensures Active(v) < |Items(v)| && Items(v)[Active(v)] == v.active
  {
    ItemsMembers(v);
  }

  lemma NextIsSwitch(v: View)
    requires Active(v) < |Items(v)|
    ensures NextChannel(v) == Switch(v, Items(v)[RowOnwards(Active(v), |Items(v)|)])
  {
    RowAfter(Active(v), |Items(v)|);
  }

  lemma PrevIsSwitch(v: View)
    requires Active(v) < |Items(v)|
    ensures PrevChannel(v) == Switch(v, Items(v)[RowBack(Active(v), |Items(v)|)])
  {
    RowBefore(Active(v), |Items(v)|);
  }

  lemma ForwardMoves(v: View)
    requires Inv(v)
    ensures Active(v) < |Items(v)| && Moved(v, NextChannel(v), RowOnwards(Active(v), |Items(v)|))
  {
    ActiveListed(v);
    NextIsSwitch(v);
    RowMoves(v, RowOnwards(Active(v), |Items(v)|), NextChannel(v));
  }

  lemma BackwardMoves(v: View)
    requires Inv(v)
    ensures Active(v) < |Items(v)| && Moved(v, PrevChannel(v), RowBack(Active(v), |Items(v)|))
  {
    ActiveListed(v);
    PrevIsSwitch(v);
    RowMoves(v, RowBack(Active(v), |Items(v)|), PrevChannel(v));
  }

  lemma PrevAfter(v: View, v1: View)
    requires Inv(v) && Active(v) < |Items(v)| && Moved(v, v1, RowOnwards(Active(v), |Items(v)|))
    ensures PrevChannel(v1).active == v.active && Items(PrevChannel(v1)) == Items(v)
  {
    BackwardMoves(v1);
  }

  lemma NextAfter(v: View, v1: View)
    requires Inv(v) && Active(v) < |Items(v)| && Moved(v, v1, RowBack(Active(v), |Items(v)|))
    ensures NextChannel(v1).active == v.active && Items(NextChannel(v1)) == Items(v)
  {
    ForwardMoves(v1);
  }

  /** Each direction undoes the other. */
  lemma NextAndPrevCancel(v: View)
    requires Inv(v)
    ensures PrevChannel(NextChannel(v)).active == v.active && Items(PrevChannel(NextChannel(v))) == Items(v)
    ensures NextChannel(PrevChannel(v)).active == v.active && Items(NextChannel(PrevChannel(v))) == Items(v)
  {
    ForwardMoves(v);
    BackwardMoves(v);
    PrevAfter(v, NextChannel(v));
    NextAfter(v, PrevChannel(v));
  }

  function Forwards(v: View, k: nat): View {
    if k == 0 then v else NextChannel(Forwards(v, k - 1))
  }

  lemma MovesOn(v: View, v1: View, row: nat)
    requires Moved(v, v1, row)
    ensures Moved(v, NextChannel(v1), RowOnwards(row, |Items(v)|))
  {
    ForwardMoves(v1);
  }

  function RowAhead(row: nat, k: nat, n: nat): nat
    requires row < n && k <= n
  {
    if row + k < n then row + k else row + k - n
  }

  lemma MovesAhead(v: View, v1: View, row: nat, k: nat)
    requires row < |Items(v)| && 0 < k <= |Items(v)| && Moved(v, v1, RowAhead(row, k - 1, |Items(v)|))
    ensures Moved(v, NextChannel(v1), RowAhead(row, k, |Items(v)|))
  {
    MovesOn(v, v1, RowAhead(row, k - 1, |Items(v)|));
    AheadOnwards(row, k, |Items(v)|);
  }

  lemma AheadOnwards(row: nat, k: nat, n: nat)
    requires row < n && 0 < k <= n
    ensures RowOnwards(RowAhead(row, k - 1, n), n) == RowAhead(row, k, n)
  {
  }

  lemma {:induction false} ForwardsMove(v: View, k: nat)
    requires Inv(v) && k <= |Items(v)|
    ensures Active(v) < |Items(v)| && Moved(v, Forwards(v, k), RowAhead(Active(v), k, |Items(v)|))
  {
    ActiveListed(v);
    if k > 0 {
      ForwardsMove(v, k - 1);
      MovesAhead(v, Forwards(v, k - 1), Active(v), k);
    }
  }

  lemma ForwardsReach(v: View, row: nat)
    requires Inv(v) && row < |Items(v)|
    ensures exists k: nat | k < |Items(v)| :: Forwards(v, k).active == Items(v)[row]
  {
    ActiveListed(v);
    var n, a := |Items(v)|, Active(v);
    var k := if row >= a then row - a else row + n - a;
    assert k < n && RowAhead(a, k, n) == row;
    ForwardsMove(v, k);
  }

  /** As many steps forward as there are rows come back to the start, and pass every row on the way. */
  lemma ForwardsVisitAll(v: View, name: string)
    requires Inv(v) && name in Items(v)
    ensures Forwards(v, |Items(v)|).active == v.active
    ensures exists k: nat | k < |Items(v)| :: Forwards(v, k).active == name
  {
    ActiveListed(v);
    ForwardsMove(v, |Items(v)|);
    var row :| 0 <= row < |Items(v)| && Items(v)[row] == name;
    ForwardsReach(v, row);
  }

  // ---- Runs ----

  lemma NextKeeps(v: View, s: Step)
    requires Inv(v) && Enabled(v, s)
    ensures Inv(Next(v, s))
  {
    match s
    case Receive(msg) => HandleKeeps(v, msg);
    case Typed(name) => SwitchKeepsIff(v, name);
    case Select(row) => if row < |Items(v)| { RowKeeps(v, row); }
    case Forward => ForwardMoves(v);
    case Backward => BackwardMoves(v);
  }

  predicate Runs(username: string, steps: seq<Step>) {
    |steps| == 0 || (Runs(username, steps[..|steps| - 1]) &&
        Enabled(After(username, steps[..|steps| - 1]), steps[|steps| - 1]))
  }

  lemma StartInOrder(username: string)
    ensures Inv(Start(username))
  {
    assert "general"[0] == 'g' && "dm:"[0] == 'd';
  }

  /** In every run without a typed switch to an unlisted conversation, the rows are distinct and show the active one. */
  lemma {:induction false} SidebarInOrder(username: string, steps: seq<Step>)
    requires Runs(username, steps)
    ensures Inv(After(username, steps)) && Distinct(Items(After(username, steps)))
    ensures After(username, steps).active in Items(After(username, steps))
  {
    if |steps| == 0 {
      StartInOrder(username);
    } else {
      SidebarInOrder(username, steps[..|steps| - 1]);
      NextKeeps(After(username, steps[..|steps| - 1]), steps[|steps| - 1]);
    }
    ItemsDistinct(After(username, steps));
    ItemsMembers(After(username, steps));
  }

  // ---- Unread counts ----

  /** The step adds a message that notifies to the channel. */
  predicate Counts(v: View, s: Step, ch: string) {
    && s.Receive? && (s.msg.kind == Chat || s.msg.kind == Image || s.msg.kind == DirectMessage)
    && Shown(v.username, ch, s.msg)
  }

  /** How many steps lie before the last moment at which ch was on screen; 0 if it never was. */
  function LastActive(username: string, steps: seq<Step>, ch: string): (k: nat)
    ensures k <= |steps|
  {
    if After(username, steps).active == ch then |steps|
    else if |steps| == 0 then 0
    else LastActive(username, steps[..|steps| - 1], ch)
  }

  /** Notifying messages that the steps after the first k add to ch. */
  function NotifiedSince(username: string, steps: seq<Step>, ch: string, k: nat): nat {
    if |steps| <= k then 0
    else
      var rest := steps[..|steps| - 1];
      NotifiedSince(username, rest, ch, k) + if Counts(After(username, rest), steps[|steps| - 1], ch) then 1 else 0
  }

  lemma SwitchUnread(v: View, name: string, ch: string)
    ensures Switch(v, name).active == name
    ensures State(Switch(v, name), ch).unread == if ch == name then 0 else State(v, ch).unread
  {
  }

  lemma HandleUnread(v: View, msg: Message, ch: string)
    ensures Handle(v, msg).active == v.active
    ensures State(Handle(v, msg), ch).unread == State(v, ch).unread +
            if Counts(v, Receive(msg), ch) && ch != v.active then 1 else 0
  {
  }

  lemma NextUnread(v: View, s: Step, ch: string)
    requires State(v, v.active).unread == 0
    ensures State(Next(v, s), Next(v, s).active).unread == 0
    ensures ch != Next(v, s).active ==>
              State(Next(v, s), ch).unread == State(v, ch).unread + if Counts(v, s, ch) then 1 else 0
  {
    match s
    case Receive(msg) =>
      HandleUnread(v, msg, ch);
      HandleUnread(v, msg, v.active);
    case Typed(name) =>
      SwitchUnread(v, name, ch);
    case Select(row) =>
      if row < |Items(v)| { SwitchUnread(v, Items(v)[row], ch); }
    case Forward =>
      if Active(v) < |Items(v)| { SwitchUnread(v, Items(v)[(Active(v) + 1) % |Items(v)|], ch); }
    case Backward =>
      if Active(v) < |Items(v)| { SwitchUnread(v, Items(v)[(Active(v) - 1 + |Items(v)|) % |Items(v)|], ch); }
  }

  /**
   * In every run a channel's unread count is the number of chat, image and direct messages added to it since it
   * was last on screen; in particular it is 0 for the channel on screen.
   */
  lemma {:induction false} UnreadIsNotifiedSinceActive(username: string, steps: seq<Step>, ch: string)
    ensures State(After(username, steps), ch).unread ==
            NotifiedSince(username, steps, ch, LastActive(username, steps, ch))
    ensures State(After(username, steps), After(username, steps).active).unread == 0
  {
    if |steps| > 0 {
      var rest := steps[..|steps| - 1];
      UnreadIsNotifiedSinceActive(username, rest, ch);
      NextUnread(After(username, rest), steps[|steps| - 1], ch);
    }
  }
}
