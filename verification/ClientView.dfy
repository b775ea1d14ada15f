/** The state of the terminal client, as a value. Messages come to it opened, if the client holds a key. */
module ClientView {
  import opened Sequences
  import opened Protocol

  datatype ChannelState = ChannelState(messages: seq<Message>, unread: nat)

  datatype View = View(
    username: string,
    channels: seq<string>,
    active: string,
    states: map<string, ChannelState>,
    dmUsers: seq<string>)

  const EMPTY := ChannelState([], 0)

  function Start(username: string): View {
    View(username, ["general"], "general", map["general" := EMPTY], [])
  }

  predicate IsDm(name: string) {
    "dm:" <= name
  }

  function DmName(): string -> string {
    (user: string) => "dm:" + user
  }

  function State(v: View, ch: string): ChannelState {
    if ch in v.states then v.states[ch] else EMPTY
  }

  function Ensure(v: View, name: string): View {
    if name in v.states then v
    else v.(states := v.states[name := EMPTY], channels := if IsDm(name) then v.channels else v.channels + [name])
  }

  /** Messages that notify count as unread unless their channel is on screen. */
  function Add(v: View, ch: string, msg: Message, notifies: bool): View {
    var v1 := Ensure(v, ch);
    var s := v1.states[ch];
    var unread := s.unread + if notifies && ch != v.active then 1 else 0;
    v1.(states := v1.states[ch := ChannelState(s.messages + [msg], unread)])
  }

  /** The other end of a direct message. */
  function Other(v: View, msg: Message): string {
    if msg.sender == v.username then msg.recipient else msg.sender
  }

  /** The client appends a reaction without looking for an earlier one of the same user. */
  function Appended(m: Message, emoji: string, user: string): Message {
    m.(reactions := m.reactions[emoji := Users(m, emoji) + [user]])
  }

  function AppendReaction(s: seq<Message>, id: string, emoji: string, user: string): seq<Message> {
    var i := IndexOf(s, id);
    if i < |s| then s[i := Appended(s[i], emoji, user)] else s
  }

  /** What an edit, delete or reaction event does to one channel's messages. */
  function Amend(s: seq<Message>, msg: Message): seq<Message> {
    if msg.kind == EditMessage then EditFirst(s, msg.id, msg.content)
    else if msg.kind == DeleteMessage then RemoveFirst(s, msg.id)
    else AppendReaction(s, msg.id, msg.content, msg.sender)
  }

  predicate Notifies(k: Kind) {
    k == Chat || k == Image || k == DirectMessage
  }

  predicate Shows(k: Kind) {
    Notifies(k) || k == Join || k == Leave
  }

  predicate Amends(k: Kind) {
    k == EditMessage || k == DeleteMessage || k == Reaction
  }

  /** The channel a message is shown in. */
  function Home(v: View, msg: Message): string {
    if msg.kind == DirectMessage then "dm:" + Other(v, msg) else Normalize(msg.channel)
  }

  /** A direct message puts its conversation on the sidebar. */
  function ListConversation(v: View, user: string): View {
    if user in v.dmUsers then v else v.(dmUsers := v.dmUsers + [user])
  }

  function Handle(v: View, msg: Message): View {
    if Shows(msg.kind) then
      var v1 := Add(v, Home(v, msg), msg, Notifies(msg.kind));
      if msg.kind == DirectMessage then ListConversation(v1, Other(v, msg)) else v1
    else if Amends(msg.kind) then AmendAll(v, msg)
    else v
  }

  /** Every channel is searched, and its first match amended. */
  function AmendAll(v: View, msg: Message): View {
    v.(states := map ch | ch in v.states :: v.states[ch].(messages := Amend(v.states[ch].messages, msg)))
  }

  function Switch(v: View, name: string): View {
    var v1 := Ensure(v, name);
    v1.(active := name, states := v1.states[name := v1.states[name].(unread := 0)])
  }

  function Items(v: View): seq<string> {
    v.channels + Map(v.dmUsers, DmName())
  }

  function NextChannel(v: View): View {
    var items := Items(v);
    var i := Position(items, v.active);
    if i == |items| then v else Switch(v, items[(i + 1) % |items|])
  }

  function PrevChannel(v: View): View {
    var items := Items(v);
    var i := Position(items, v.active);
    if i == |items| then v else Switch(v, items[(i - 1 + |items|) % |items|])
  }

  datatype Step = Receive(msg: Message) | Typed(name: string) | Select(row: nat) | Forward | Backward

  function Next(v: View, s: Step): View {
    match s
    case Receive(msg) => Handle(v, msg)
    case Typed(name) => Switch(v, name)
    case Select(row) => if row < |Items(v)| then Switch(v, Items(v)[row]) else v
    case Forward => NextChannel(v)
    case Backward => PrevChannel(v)
  }

  function After(username: string, steps: seq<Step>): View {
    if |steps| == 0 then Start(username) else Next(After(username, steps[..|steps| - 1]), steps[|steps| - 1])
  }
}
