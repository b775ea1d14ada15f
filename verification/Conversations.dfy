/** What the terminal client lists where, told from the messages it received alone. */
module Conversations {
  import opened Sequences
  import opened Protocol
  import opened ClientView

  /** The messages among the steps, in order of arrival. */
  function Received(steps: seq<Step>): seq<Message> {
    if |steps| == 0 then []
    else Received(steps[..|steps| - 1]) + (if steps[|steps| - 1].Receive? then [steps[|steps| - 1].msg] else [])
  }

  predicate Posted(m: Message, ch: string) {
    && (m.kind == Chat || m.kind == Image || m.kind == Join || m.kind == Leave)
    && ch == if m.channel == "" then "general" else m.channel
  }

  /** The user at the other end of a direct message; for one to oneself, oneself. */
  predicate Partner(username: string, u: string, m: Message) {
    m.kind == DirectMessage && if m.sender == username then m.recipient == u else m.sender == u
  }

  predicate Shown(username: string, ch: string, m: Message) {
    Posted(m, ch) || (m.kind == DirectMessage && ch == "dm:" + if m.sender == username then m.recipient else m.sender)
  }

  function ShownIn(username: string, ch: string): Message -> bool {
    (m: Message) => Shown(username, ch, m)
  }

  /** No edits, removals or reactions. */
  predicate Unamended(steps: seq<Step>) {
    forall i | 0 <= i < |steps| ::
      steps[i].Receive? ==>
        steps[i].msg.kind != EditMessage && steps[i].msg.kind != DeleteMessage && steps[i].msg.kind != Reaction
  }

  lemma SwitchLists(v: View, name: string, ch: string)
    ensures State(Switch(v, name), ch).messages == State(v, ch).messages
    ensures Switch(v, name).dmUsers == v.dmUsers && Switch(v, name).username == v.username
    ensures v.channels <= Switch(v, name).channels
  {
  }

  lemma HandleLists(v: View, msg: Message, ch: string)
    requires Unamended([Receive(msg)])
    ensures State(Handle(v, msg), ch).messages ==
            State(v, ch).messages + if Shown(v.username, ch, msg) then [msg] else []
    ensures Handle(v, msg).username == v.username
  {
    assert [Receive(msg)][0] == Receive(msg);
  }

  lemma HandleListed(v: View, msg: Message)
    ensures forall u :: u in Handle(v, msg).dmUsers <==> u in v.dmUsers || Partner(v.username, u, msg)
    ensures Handle(v, msg).username == v.username
    ensures v.channels <= Handle(v, msg).channels && v.dmUsers <= Handle(v, msg).dmUsers
  {
  }

  /** A step that is no message is at most a switch. */
  lemma NextSwitches(v: View, s: Step) returns (name: string)
    requires !s.Receive?
    ensures Next(v, s) == v || Next(v, s) == Switch(v, name)
  {
    var items, i := Items(v), Position(Items(v), v.active);
    match s
    case Typed(n) => name := n;
    case Select(row) => name := if row < |items| then items[row] else "";
    case Forward => name := if i < |items| then items[(i + 1) % |items|] else "";
    case Backward => name := if i < |items| then items[(i - 1 + |items|) % |items|] else "";
  }

  /** Rows of the sidebar keep their order: new ones are added behind those of their kind. */
  lemma RowsGrow(v: View, s: Step)
    ensures v.channels <= Next(v, s).channels && v.dmUsers <= Next(v, s).dmUsers
  {
    if s.Receive? {
      HandleListed(v, s.msg);
    } else {
      var name := NextSwitches(v, s);
      SwitchLists(v, name, name);
    }
  }

  lemma NextLists(v: View, s: Step, ch: string)
    requires Unamended([s])
    ensures State(Next(v, s), ch).messages ==
            State(v, ch).messages + if s.Receive? && Shown(v.username, ch, s.msg) then [s.msg] else []
  {
    if s.Receive? {
      HandleLists(v, s.msg, ch);
    } else {
      var name := NextSwitches(v, s);
      SwitchLists(v, name, ch);
    }
  }

  lemma NextListed(v: View, s: Step, u: string)
    ensures u in Next(v, s).dmUsers <==> u in v.dmUsers || (s.Receive? && Partner(v.username, u, s.msg))
    ensures Next(v, s).username == v.username
  {
    if s.Receive? {
      HandleListed(v, s.msg);
    } else {
      var name := NextSwitches(v, s);
      SwitchLists(v, name, name);
    }
  }

  lemma LastUnamended(steps: seq<Step>)
    requires |steps| > 0 && Unamended(steps)
    ensures Unamended(steps[..|steps| - 1]) && Unamended([steps[|steps| - 1]])
  {
  }

  /**
   * In every run without amendments a channel lists exactly the messages received for it, in order of arrival: those
   * posted to it, and direct messages under the name of the user at the other end.
   */
  lemma {:induction false} ListsInOrder(username: string, steps: seq<Step>, ch: string)
    requires Unamended(steps)
    ensures State(After(username, steps), ch).messages == Filter(Received(steps), ShownIn(username, ch))
  {
    if |steps| > 0 {
      var rest, s := steps[..|steps| - 1], steps[|steps| - 1];
      LastUnamended(steps);
      ListsInOrder(username, rest, ch);
      Owner(username, rest);
      NextLists(After(username, rest), s, ch);
      ReceivedLast(steps, username, ch);
    }
  }

  lemma ReceivedLast(steps: seq<Step>, username: string, ch: string)
    requires |steps| > 0
    ensures var s := steps[|steps| - 1];
            Filter(Received(steps), ShownIn(username, ch)) ==
            Filter(Received(steps[..|steps| - 1]), ShownIn(username, ch)) +
            if s.Receive? && Shown(username, ch, s.msg) then [s.msg] else []
  {
    var rest, s := Received(steps[..|steps| - 1]), steps[|steps| - 1];
    if s.Receive? {
      FilterAppend(rest, s.msg, ShownIn(username, ch));
    } else {
      assert rest + [] == rest;
    }
  }

  lemma {:induction false} Owner(username: string, steps: seq<Step>)
    ensures After(username, steps).username == username
  {
    if |steps| > 0 {
      Owner(username, steps[..|steps| - 1]);
      NextListed(After(username, steps[..|steps| - 1]), steps[|steps| - 1], "");
    }
  }

  /** Between the client's user and u: u sent it, or the user sent it to u. */
  predicate Between(username: string, u: string, m: Message) {
    m.kind == DirectMessage &&
    if u == username then m.sender == username && m.recipient == username
    else m.sender == u || (m.sender == username && m.recipient == u)
  }

  /** A message can also be posted to a channel that is called like a conversation. */
  function InConversation(username: string, u: string): Message -> bool {
    (m: Message) => Between(username, u, m) || Posted(m, "dm:" + u)
  }

  lemma PartnerIsBetween(username: string, u: string, m: Message)
    ensures ShownIn(username, "dm:" + u)(m) <==> InConversation(username, u)(m)
    ensures Partner(username, u, m) <==> Between(username, u, m)
  {
    var end := if m.sender == username then m.recipient else m.sender;
    assert ("dm:" + u)[3..] == u && ("dm:" + end)[3..] == end;
  }

  /**
   * In every run without amendments the list under "dm:" and a user's name is exactly the received direct messages
   * that passed between that user and this one, in order of arrival; under the own name, those to oneself.
   */
  lemma ConversationInOrder(username: string, steps: seq<Step>, u: string)
    requires Unamended(steps)
    ensures State(After(username, steps), "dm:" + u).messages == Filter(Received(steps), InConversation(username, u))
  {
    ListsInOrder(username, steps, "dm:" + u);
    forall m ensures ShownIn(username, "dm:" + u)(m) == InConversation(username, u)(m) {
      PartnerIsBetween(username, u, m);
    }
    FilterSame(Received(steps), ShownIn(username, "dm:" + u), InConversation(username, u));
  }

  /** In every run, amendments or not, a conversation is on the sidebar exactly if a direct message of it came in. */
  lemma {:induction false} ConversationListedIff(username: string, steps: seq<Step>, u: string)
    ensures u in After(username, steps).dmUsers <==>
            exists m | m in Received(steps) :: Between(username, u, m)
  {
    if |steps| > 0 {
      var rest, s := steps[..|steps| - 1], steps[|steps| - 1];
      ConversationListedIff(username, rest, u);
      Owner(username, rest);
      NextListed(After(username, rest), s, u);
      if s.Receive? {
        PartnerIsBetween(username, u, s.msg);
        assert s.msg in Received(steps);
      }
      assert forall m :: m in Received(steps) <==> m in Received(rest) || (s.Receive? && m == s.msg);
    }
  }
}
