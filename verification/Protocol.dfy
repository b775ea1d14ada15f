/** The messages exchanged between clients and nodes, and the list edits every copy of them undergoes. */
module Protocol {
  import opened Sequences

  datatype Kind =
    | Chat | Join | Leave | PeerHandshake | Heartbeat | Election | Coordinator | SyncRequest
    | Login | AuthResult | Image | Register | UserSync | DirectMessage | EditMessage | DeleteMessage
    | Reaction | Typing | StatusChange | ChannelCreate | ChannelJoin | ChannelLeave | ChannelList
    | AdminAction | HealthCheck | History | Search

  /** Content is a string of bytes. An absent reaction or metadata table is the empty one. */
  datatype Message = Message(
    kind: Kind,
    id: string,
    sender: string,
    content: string,
    channel: string,
    recipient: string,
    replyTo: string,
    edited: bool,
    reactions: map<string, seq<string>>,
    metadata: map<string, string>,
    timestamp: int)

  const BLANK := Message(Chat, "", "", "", "", "", "", false, map[], map[], 0)

  const MAX_MESSAGE_SIZE := 1024 * 1024

  /** The channel a message without a channel belongs to. */
  function Normalize(channel: string): string {
    if channel == "" then "general" else channel
  }

  function InChannel(ch: string): Message -> bool {
    (m: Message) => Normalize(m.channel) == ch
  }

  function NotId(id: string): Message -> bool {
    (m: Message) => m.id != id
  }

  function IdOf(): Message -> string {
    (m: Message) => m.id
  }

  function Ids(s: seq<Message>): seq<string> {
    Map(s, IdOf())
  }

  predicate DistinctIds(s: seq<Message>) {
    forall i, j :: 0 <= i < j < |s| ==> s[i].id != s[j].id
  }

  /** The first position holding id, or the length of the list. */
  function IndexOf(s: seq<Message>, id: string): (i: nat)
    ensures i <= |s|
    ensures i < |s| ==> s[i].id == id
    ensures forall j :: 0 <= j < i ==> s[j].id != id
  {
    if |s| == 0 || s[0].id == id then 0 else 1 + IndexOf(s[1..], id)
  }

  function Edited(m: Message, content: string): Message {
    m.(content := content, edited := true)
  }

  function Users(m: Message, emoji: string): seq<string> {
    if emoji in m.reactions then m.reactions[emoji] else []
  }

  /** One user reacts once per emoji. */
  function Reacted(m: Message, emoji: string, user: string): Message {
    if user in Users(m, emoji) then m else m.(reactions := m.reactions[emoji := Users(m, emoji) + [user]])
  }

  function EditFirst(s: seq<Message>, id: string, content: string): seq<Message> {
    var i := IndexOf(s, id);
    if i < |s| then s[i := Edited(s[i], content)] else s
  }

  function RemoveFirst(s: seq<Message>, id: string): seq<Message> {
    var i := IndexOf(s, id);
    if i < |s| then s[..i] + s[i + 1..] else s
  }

  /** What an edit of id does to any message. */
  function EditOf(id: string, content: string): Message -> Message {
    (m: Message) => if m.id == id then Edited(m, content) else m
  }

  function ReactOf(id: string, emoji: string, user: string): Message -> Message {
    (m: Message) => if m.id == id then Reacted(m, emoji, user) else m
  }

  /** With distinct ids, the first match is the only one: the loop edits every message called id. */
  lemma EditFirstIsEdit(s: seq<Message>, id: string, content: string)
    requires DistinctIds(s)
    ensures EditFirst(s, id, content) == Map(s, EditOf(id, content))
  {
  }

  /** With distinct ids, removing the first match keeps exactly the other messages, in order. */
  lemma {:induction false} RemoveFirstIsFilter(s: seq<Message>, id: string)
    requires DistinctIds(s)
    ensures RemoveFirst(s, id) == Filter(s, NotId(id))
  {
    if |s| == 0 {
    } else if s[0].id == id {
      assert forall m :: m in s[1..] ==> NotId(id)(m);
      FilterAll(s[1..], NotId(id));
      assert RemoveFirst(s, id) == s[1..];
    } else {
      RemoveFirstIsFilter(s[1..], id);
      var i := IndexOf(s, id);
      if i < |s| {
        assert s[..i] + s[i + 1..] == [s[0]] + (s[1..][..i - 1] + s[1..][i..]);
      } else {
        assert s == [s[0]] + s[1..];
      }
    }
  }

  lemma {:induction false} FilterKeepsDistinct(s: seq<Message>, p: Message -> bool)
    requires DistinctIds(s)
    ensures DistinctIds(Filter(s, p))
  {
    if |s| > 0 {
      FilterKeepsDistinct(s[1..], p);
      FilterMembers(s[1..], p);
      forall m | m in Filter(s[1..], p) ensures m.id != s[0].id {
        assert m in s[1..];
      }
    }
  }

  lemma MapKeepsIds(s: seq<Message>, f: Message -> Message)
    requires forall m :: m in s ==> f(m).id == m.id
    ensures Ids(Map(s, f)) == Ids(s)
    ensures DistinctIds(s) ==> DistinctIds(Map(s, f))
  {
  }

  /** Nothing named id: nothing to filter out. */
  lemma FilterAbsent(s: seq<Message>, id: string)
    requires forall m :: m in s ==> m.id != id
    ensures Filter(s, NotId(id)) == s
  {
  }

  /** Two messages of a list with distinct ids that share an id are the same message. */
  lemma SameId(s: seq<Message>, a: Message, b: Message)
    requires DistinctIds(s) && a in s && b in s && a.id == b.id
    ensures a == b
  {
  }
}
