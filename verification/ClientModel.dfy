/** The terminal client's model as an object: the loops that change its state. */
module ClientModel {
  import opened Sequences
  import opened Protocol
  import opened ClientView
  import opened Options
  import Base64
  import Envelope

  /** The first message of that id is edited, removed or reacted to. */
  method AmendFirst(messages: seq<Message>, msg: Message) returns (amended: seq<Message>)
    ensures amended == Amend(messages, msg)
  {
    amended := messages;
    var i := 0;
    while i < |messages|
      invariant 0 <= i <= |messages| && amended == messages
      invariant forall k | 0 <= k < i :: messages[k].id != msg.id
    {
      if messages[i].id == msg.id {
        assert IndexOf(messages, msg.id) == i;
        if msg.kind == EditMessage {
          amended := messages[i := messages[i].(content := msg.content, edited := true)];
        } else if msg.kind == DeleteMessage {
          amended := messages[..i] + messages[i + 1..];
        } else {
          var users := Users(messages[i], msg.content) + [msg.sender];
          amended := messages[i := messages[i].(reactions := messages[i].reactions[msg.content := users])];
        }
        return;
      }
      i := i + 1;
    }
    assert IndexOf(messages, msg.id) == |messages|;
  }

  /** With a secret key chats are decrypted where they can be; what cannot is shown as it came. */
  function Opened(msg: Message, secretKey: string, decrypt: Decrypt): Message {
    if secretKey == "" || msg.kind != Chat then msg
    else
      match decrypt(msg.content, secretKey)
      case Some(text) => msg.(content := text)
      case None => msg
  }

  /** content, passphrase */
  type Decrypt = (string, string) -> Option<string>

  function Chars(b: seq<Base64.Byte>): string {
    seq(|b|, i requires 0 <= i < |b| => b[i] as char)
  }

  /** Decryption with a cipher. */
  function Opener(c: Envelope.Cipher): Decrypt {
    (content: string, passphrase: string) =>
      match Envelope.Decrypt(content, passphrase, c)
      case Some(text) => Some(Chars(text))
      case None => None
  }

  /**
   * Clients with the same secret key read each other's chats; one without a key, or whose cipher refuses, shows what
   * came, and so does every client for messages that are no chats.
   */
  lemma OpenedIsWritten(msg: Message, key: string, plain: seq<Base64.Byte>, salt: seq<Base64.Byte>,
      nonce: seq<Base64.Byte>, c: Envelope.Cipher)
    requires c.Inverse() && |salt| == 16 && |nonce| == 12
    requires msg.content == Envelope.Encrypt(plain, key, salt, nonce, c)
    ensures msg.kind == Chat && key != "" ==> Opened(msg, key, Opener(c)) == msg.(content := Chars(plain))
    ensures msg.kind != Chat || key == "" ==> Opened(msg, key, Opener(c)) == msg
    ensures forall other :: Envelope.Decrypt(msg.content, other, c) == None ==> Opened(msg, other, Opener(c)) == msg
  {
    Envelope.EnvelopeRoundTrip(plain, key, salt, nonce, c);
  }

  /** The states of all channels but those still to be amended. */
  ghost function AmendedBut(states: map<string, ChannelState>, todo: set<string>, msg: Message)
    : map<string, ChannelState>
  {
    map ch | ch in states :: if ch in todo then states[ch] else states[ch].(messages := Amend(states[ch].messages, msg))
  }

  lemma AmendOne(states: map<string, ChannelState>, todo: set<string>, ch: string, msg: Message)
    requires ch in todo && todo <= states.Keys
    ensures var now := AmendedBut(states, todo, msg);
            ch in now && AmendedBut(states, todo - {ch}, msg) ==
                now[ch := now[ch].(messages := Amend(now[ch].messages, msg))]
  {
  }

  class Model {
    const username: string
    const secretKey: string
    const decrypt: Decrypt
    var channels: seq<string>
    var activeChannel: string
    var channelState: map<string, ChannelState>
    var dmUsers: seq<string>
    var statusText: string
    var typingUsers: map<string, int>

    function View(): View
      reads this
    {
      ClientView.View(username, channels, activeChannel, channelState, dmUsers)
    }

    constructor (username: string, secretKey: string, decrypt: Decrypt)
      ensures View() == Start(username) && this.secretKey == secretKey && this.decrypt == decrypt
      ensures statusText == "Connected" && typingUsers == map[]
    {
      this.username := username;
      this.secretKey := secretKey;
      this.decrypt := decrypt;
      statusText := "Connected";
      typingUsers := map[];
      channels := ["general"];
      activeChannel := "general";
      channelState := map["general" := EMPTY];
      dmUsers := [];
    }

    method EnsureChannel(name: string)
      modifies this`channels, this`channelState
      ensures View() == Ensure(old(View()), name)
    {
      if name !in channelState {
        channelState := channelState[name := EMPTY];
        if !("dm:" <= name) {
          channels := channels + [name];
        }
      }
    }

    method AddMessage(ch: string, msg: Message, notifies: bool)
      modifies this`channels, this`channelState
      ensures View() == Add(old(View()), ch, msg, notifies)
    {
      EnsureChannel(ch);
      var state := channelState[ch];
      state := state.(messages := state.messages + [msg]);
      if notifies && ch != activeChannel {
        state := state.(unread := state.unread + 1);
      }
      channelState := channelState[ch := state];
    }

    method HandleServerMessage(msg: Message, now: int)
      modifies this
      ensures View() == Handle(old(View()), Opened(msg, secretKey, decrypt))
      ensures typingUsers ==
              if msg.kind == Typing && msg.sender != username then old(typingUsers)[msg.sender := now]
              else old(typingUsers)
      ensures statusText == if msg.kind == StatusChange then msg.sender + " is now " + msg.content else old(statusText)
    {
      match msg.kind
      case Chat => HandleChat(msg);
      case Image => AddMessage(Normalize(msg.channel), msg, true);
      case DirectMessage => HandleDirectMessage(msg);
      case Join => AddMessage(Normalize(msg.channel), msg, false);
      case Leave => AddMessage(Normalize(msg.channel), msg, false);
      case EditMessage => AmendChannels(msg);
      case DeleteMessage => AmendChannels(msg);
      case Reaction => AmendChannels(msg);
      case Typing =>
        if msg.sender != username {
          typingUsers := typingUsers[msg.sender := now];
        }
      case StatusChange =>
        statusText := msg.sender + " is now " + msg.content;
      case _ =>
    }

    method HandleChat(msg: Message)
      requires msg.kind == Chat
      modifies this`channels, this`channelState
      ensures View() == Handle(old(View()), Opened(msg, secretKey, decrypt))
    {
      var shown := msg;
      if secretKey != "" {
        var text := decrypt(msg.content, secretKey);
        if text.Some? {
          shown := shown.(content := text.value);
        }
      }
      AddMessage(Normalize(shown.channel), shown, true);
    }

    method HandleDirectMessage(msg: Message)
      requires msg.kind == DirectMessage
      modifies this`channels, this`channelState, this`dmUsers
      ensures View() == Handle(old(View()), msg)
    {
      var other := msg.sender;
      if other == username {
        other := msg.recipient;
      }
      AddMessage("dm:" + other, msg, true);
      var i := 0;
      while i < |dmUsers|
        invariant 0 <= i <= |dmUsers| && other !in dmUsers[..i]
      {
        if dmUsers[i] == other {
          return;
        }
        i := i + 1;
      }
      assert dmUsers[..i] == dmUsers;
      dmUsers := dmUsers + [other];
    }

    /** Every channel, in whatever order the map yields them; in each, the first message of that id. */
    method AmendChannels(msg: Message)
      requires Amends(msg.kind)
      modifies this`channelState
      ensures View() == AmendAll(old(View()), msg)
    {
      var todo := channelState.Keys;
      ghost var before := channelState;
      while todo != {}
        invariant todo <= before.Keys
        invariant channelState == AmendedBut(before, todo, msg)
        decreases |todo|
      {
        var ch :| ch in todo;
        AmendOne(before, todo, ch, msg);
        todo := todo - {ch};
        var messages := AmendFirst(channelState[ch].messages, msg);
        channelState := channelState[ch := channelState[ch].(messages := messages)];
      }
    }

    method SwitchToChannel(name: string)
      modifies this
      ensures View() == Switch(old(View()), name)
    {
      EnsureChannel(name);
      activeChannel := name;
      channelState := channelState[name := channelState[name].(unread := 0)];
    }

    method SidebarItems() returns (items: seq<string>)
      ensures items == Items(View())
      ensures |items| == |channels| + |dmUsers| && items[..|channels|] == channels
      ensures forall i | 0 <= i < |dmUsers| :: items[|channels| + i] == "dm:" + dmUsers[i]
    {
      items := channels;
      var i := 0;
      while i < |dmUsers|
        invariant 0 <= i <= |dmUsers|
        invariant items == channels + Map(dmUsers, DmName())[..i]
      {
        items := items + ["dm:" + dmUsers[i]];
        i := i + 1;
      }
    }

    method NextChannel()
      modifies this
      ensures View() == ClientView.NextChannel(old(View()))
    {
      var items := SidebarItems();
      var i := 0;
      while i < |items|
        invariant 0 <= i <= |items| && unchanged(this)
        invariant forall k | 0 <= k < i :: items[k] != activeChannel
      {
        if items[i] == activeChannel {
          assert Position(items, activeChannel) == i;
          SwitchToChannel(items[(i + 1) % |items|]);
          return;
        }
        i := i + 1;
      }
      assert Position(items, activeChannel) == |items|;
    }

    method PrevChannel()
      modifies this
      ensures View() == ClientView.PrevChannel(old(View()))
    {
      var items := SidebarItems();
      var i := 0;
      while i < |items|
        invariant 0 <= i <= |items| && unchanged(this)
        invariant forall k | 0 <= k < i :: items[k] != activeChannel
      {
        if items[i] == activeChannel {
          assert Position(items, activeChannel) == i;
          SwitchToChannel(items[(i - 1 + |items|) % |items|]);
          return;
        }
        i := i + 1;
      }
      assert Position(items, activeChannel) == |items|;
    }
  }
}
