/** The users a node takes to be connected elsewhere: told by join and leave notices and by lists from peers. */
module Presence {
  import opened Options
  import opened Protocol
  import opened Sequences
  import opened Text

  /** The bell at the end is a control character. */
  function JoinText(user: string): string {
    "*** " + user + " has joined the chat ***" + [7 as char]
  }

  function LeaveText(user: string): string {
    "*** " + user + " has left the chat ***" + [7 as char]
  }

  /** The user a notice is about: its second word. */
  function Subject(content: string): set<string> {
    var parts := Split(content, ' ');
    if |parts| >= 2 then {parts[1]} else {}
  }

  /** listed is what the content of a user list decodes to, if it does. */
  function RemoteUsers(users: set<string>, msg: Message, listed: Option<set<string>>): set<string> {
    if msg.kind == UserSync && listed.Some? then users + listed.value
    else if msg.kind == Join then users + Subject(msg.content)
    else if msg.kind == Leave then users - Subject(msg.content)
    else users
  }

  /** The word stands between the first two blanks of the text, or behind its only one. */
  predicate SecondWord(content: string, first: string, word: string, rest: string) {
    ' ' !in first && ' ' !in word &&
    (content == first + [' '] + word || content == first + [' '] + (word + [' '] + rest))
  }

  lemma SecondWordSplits(content: string, first: string, word: string, rest: string)
    requires SecondWord(content, first, word, rest)
    ensures Subject(content) == {word}
  {
    if content == first + [' '] + word {
      SplitStep(first, ' ', word);
      SplitLast(word, ' ');
    } else {
      SplitStep(first, ' ', word + [' '] + rest);
      SplitStep(word, ' ', rest);
    }
  }

  lemma FirstBlank(content: string) returns (first: string, tail: string)
    requires ' ' in content
    ensures content == first + [' '] + tail && ' ' !in first
  {
    var i := Position(content, ' ');
    first, tail := content[..i], content[i + 1..];
    assert forall j | 0 <= j < i :: first[j] == content[j];
  }

  /** A text with at least one blank has a second word. */
  lemma Words(content: string) returns (first: string, word: string, rest: string)
    requires ' ' in content
    ensures SecondWord(content, first, word, rest)
  {
    var tail;
    first, tail := FirstBlank(content);
    if ' ' in tail {
      word, rest := FirstBlank(tail);
    } else {
      word, rest := tail, "";
    }
  }

  lemma SubjectIff(content: string, user: string)
    ensures user in Subject(content) <==> exists first, rest :: SecondWord(content, first, user, rest)
  {
    if ' ' in content {
      var first, word, rest := Words(content);
      SecondWordSplits(content, first, word, rest);
    } else {
      SplitLast(content, ' ');
    }
    forall first, rest | SecondWord(content, first, user, rest) ensures user in Subject(content) {
      SecondWordSplits(content, first, user, rest);
    }
  }

  /** Its notices name a user to other nodes exactly if the name is one word. */
  lemma NoticeNamesIff(user: string)
    ensures Subject(JoinText(user)) == {user} <==> ' ' !in user
    ensures Subject(LeaveText(user)) == {user} <==> ' ' !in user
  {
    NamedIff(user, "has joined the chat ***" + [7 as char], JoinText(user));
    NamedIff(user, "has left the chat ***" + [7 as char], LeaveText(user));
  }

  lemma NamedIff(user: string, tail: string, content: string)
    requires content == "*** " + user + (" " + tail)
    ensures Subject(content) == {user} <==> ' ' !in user
  {
    assert content == "***" + [' '] + (user + [' '] + tail);
    if ' ' !in user {
      SecondWordSplits(content, "***", user, tail);
    } else {
      assert ' ' in content;
      var first, word, rest := Words(content);
      SecondWordSplits(content, first, word, rest);
      assert user in Subject(content) <==> user == word;
    }
  }

  // ---- Runs ----

  /** A message from a peer, with what it decodes to as a list of users. */
  datatype Heard = Heard(msg: Message, listed: Option<set<string>>)

  function After(heard: seq<Heard>): set<string> {
    if |heard| == 0 then {}
    else RemoteUsers(After(heard[..|heard| - 1]), heard[|heard| - 1].msg, heard[|heard| - 1].listed)
  }

  /** A notice that the user joined, or a list with the user on it. */
  predicate Here(h: Heard, user: string) {
    || (h.msg.kind == Join && user in Subject(h.msg.content))
    || (h.msg.kind == UserSync && h.listed.Some? && user in h.listed.value)
  }

  predicate Away(h: Heard, user: string) {
    h.msg.kind == Leave && user in Subject(h.msg.content)
  }

  ghost predicate HereSince(heard: seq<Heard>, user: string, i: nat) {
    i < |heard| && Here(heard[i], user) && forall j | i < j < |heard| :: !Away(heard[j], user)
  }

  lemma SinceLast(rest: seq<Heard>, last: Heard, user: string)
    ensures (exists i: nat :: HereSince(rest + [last], user, i)) <==>
            Here(last, user) || (!Away(last, user) && exists i: nat :: HereSince(rest, user, i))
  {
    var heard := rest + [last];
    if Here(last, user) {
      assert HereSince(heard, user, |rest|);
    } else if i: nat :| HereSince(rest, user, i) && !Away(last, user) {
      assert HereSince(heard, user, i);
    }
    if i: nat :| HereSince(heard, user, i) && i < |rest| {
      SinceBefore(rest, last, user, i);
    }
  }

  lemma SinceBefore(rest: seq<Heard>, last: Heard, user: string, i: nat)
    requires HereSince(rest + [last], user, i) && i < |rest|
    ensures HereSince(rest, user, i) && !Away(last, user)
  {
    var heard := rest + [last];
    assert heard[|rest|] == last;
    assert forall j | 0 <= j < |rest| :: rest[j] == heard[j];
  }

  lemma RemoteStep(users: set<string>, h: Heard, user: string)
    ensures user in RemoteUsers(users, h.msg, h.listed) <==> Here(h, user) || (!Away(h, user) && user in users)
  {
  }

  /** Over every run a user is listed exactly if nothing heard after an arrival was that user's leaving. */
  lemma {:induction false} ListedIff(heard: seq<Heard>, user: string)
    ensures user in After(heard) <==> exists i: nat :: HereSince(heard, user, i)
  {
    if |heard| > 0 {
      var rest, last := heard[..|heard| - 1], heard[|heard| - 1];
      ListedIff(rest, user);
      SinceLast(rest, last, user);
      RemoteStep(After(rest), last, user);
      assert heard == rest + [last];
    }
  }
}
