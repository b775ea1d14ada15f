/** The message store as a value: a flat list, one list per channel and the append-only log. */
module StoreModel {
  import opened Sequences
  import opened Protocol

  /** One line of the log: a decodable message, or size bytes that do not decode. */
  datatype Line = Record(msg: Message) | Junk(size: nat)

  datatype Store = Store(cap: nat, flat: seq<Message>, index: map<string, seq<Message>>, log: seq<Line>)

  /** The scanner refuses a line that, with its newline, exceeds this many bytes. */
  const SCAN_LIMIT := MAX_MESSAGE_SIZE + 4096

  /** A channel never written to reads as the empty list. */
  function List(index: map<string, seq<Message>>, ch: string): seq<Message> {
    if ch in index then index[ch] else []
  }

  function Empty(cap: nat, log: seq<Line>): Store {
    Store(cap, [], map[], log)
  }

  /** The form in which a message is kept: its channel named, an id generated if it had none. */
  function Stamped(m: Message, generated: string): Message {
    m.(channel := Normalize(m.channel), id := if m.id == "" then generated else m.id)
  }

  function Save(st: Store, msg: Message, generated: string): (Store, bool) {
    var m := Stamped(msg, generated);
    if |m.content| > MAX_MESSAGE_SIZE then (st, false)
    else
      (Store(st.cap,
             Push(st.flat, m, st.cap),
             st.index[m.channel := Push(List(st.index, m.channel), m, st.cap)],
             st.log + [Record(m)]),
       true)
  }

  function GetMessageByID(st: Store, id: string): (i: int)
    ensures -1 <= i < |st.flat|
    ensures i >= 0 ==> st.flat[i].id == id
    ensures forall j :: i < j < |st.flat| ==> st.flat[j].id != id
  {
    LastIndexOf(st.flat, id)
  }

  /** The newest position holding id, or -1. */
  function LastIndexOf(s: seq<Message>, id: string): (i: int)
    ensures -1 <= i < |s|
    ensures i >= 0 ==> s[i].id == id
    ensures forall j :: i < j < |s| ==> s[j].id != id
  {
    if |s| == 0 then -1
    else if s[|s| - 1].id == id then |s| - 1
    else LastIndexOf(s[..|s| - 1], id)
  }

  function Update(st: Store, id: string, content: string): (Store, bool) {
    var i := IndexOf(st.flat, id);
    if i == |st.flat| then (st, false)
    else
      var ch := Normalize(st.flat[i].channel);
      (st.(flat := EditFirst(st.flat, id, content),
           index := if ch in st.index then st.index[ch := EditFirst(st.index[ch], id, content)] else st.index),
       true)
  }

  function Delete(st: Store, id: string): (Store, bool) {
    var i := IndexOf(st.flat, id);
    if i == |st.flat| then (st, false)
    else
      var ch := Normalize(st.flat[i].channel);
      (st.(flat := RemoveFirst(st.flat, id),
           index := if ch in st.index then st.index[ch := RemoveFirst(st.index[ch], id)] else st.index),
       true)
  }

  /** The channel list's copy of the message takes over the user list of the flat list's copy. */
  function CopyReaction(s: seq<Message>, id: string, emoji: string, users: seq<string>): seq<Message> {
    var j := IndexOf(s, id);
    if j < |s| then s[j := s[j].(reactions := s[j].reactions[emoji := users])] else s
  }

  function React(st: Store, id: string, emoji: string, user: string): (Store, bool) {
    var i := IndexOf(st.flat, id);
    if i == |st.flat| then (st, false)
    else if user in Users(st.flat[i], emoji) then (st, true)
    else
      var users := Users(st.flat[i], emoji) + [user];
      var ch := Normalize(st.flat[i].channel);
      (st.(flat := CopyReaction(st.flat, id, emoji, users),
           index := if ch in st.index then st.index[ch := CopyReaction(st.index[ch], id, emoji, users)] else st.index),
       true)
  }

  function SentAfter(t: int): Message -> bool {
    (m: Message) => m.timestamp > t
  }

  function AsLine(): Message -> Line {
    (m: Message) => Record(m)
  }

  function Compact(st: Store): Store {
    st.(log := Map(st.flat, AsLine()))
  }

  /** Bytes of a line before its newline; size gives the encoded length of a message. */
  function LineSize(line: Line, size: Message -> nat): nat {
    match line
    case Record(m) => size(m)
    case Junk(n) => n
  }

  predicate Fits(line: Line, size: Message -> nat) {
    LineSize(line, size) + 1 <= SCAN_LIMIT
  }

  predicate AllFit(log: seq<Line>, size: Message -> nat) {
    forall line :: line in log ==> Fits(line, size)
  }

  /** What the scanner decodes: it skips lines that do not decode and stops at the first oversized one. */
  function Readable(log: seq<Line>, size: Message -> nat): seq<Message> {
    if |log| == 0 || !Fits(log[0], size) then []
    else (if log[0].Record? then [log[0].msg] else []) + Readable(log[1..], size)
  }

  /** Every message in the log, whether or not the scanner would reach it. */
  function Records(log: seq<Line>): seq<Message> {
    if |log| == 0 then []
    else (if log[0].Record? then [log[0].msg] else []) + Records(log[1..])
  }

  function Group(msgs: seq<Message>): map<string, seq<Message>> {
    if |msgs| == 0 then map[]
    else
      var rest, m := Group(msgs[..|msgs| - 1]), msgs[|msgs| - 1];
      rest[Normalize(m.channel) := List(rest, Normalize(m.channel)) + [m]]
  }

  function Load(st: Store, size: Message -> nat): (Store, bool) {
    var msgs := LastN(Readable(st.log, size), st.cap);
    (st.(flat := msgs, index := Group(msgs)), AllFit(st.log, size))
  }

  // ---- What a reader of the log needs to know about it ----

  lemma {:induction false} RecordsConcat(a: seq<Line>, b: seq<Line>)
    ensures Records(a + b) == Records(a) + Records(b)
  {
    if |a| == 0 {
      assert a + b == b;
      assert Records(a) + Records(b) == Records(b);
    } else {
      RecordsConcat(a[1..], b);
      assert (a + b)[0] == a[0] && (a + b)[1..] == a[1..] + b;
      var head := if a[0].Record? then [a[0].msg] else [];
      assert head + (Records(a[1..]) + Records(b)) == (head + Records(a[1..])) + Records(b);
    }
  }

  lemma {:induction false} RecordsOfLines(s: seq<Message>)
    ensures Records(Map(s, AsLine())) == s
  {
    if |s| > 0 {
      RecordsOfLines(s[1..]);
      assert Map(s, AsLine())[1..] == Map(s[1..], AsLine());
      assert s == [s[0]] + s[1..];
    }
  }

  /** The scanner reaches a prefix of the records, and all of them when every line fits. */
  lemma {:induction false} ReadableIsPrefix(log: seq<Line>, size: Message -> nat)
    ensures Readable(log, size) <= Records(log)
    ensures AllFit(log, size) ==> Readable(log, size) == Records(log)
  {
    if |log| > 0 {
      ReadableIsPrefix(log[1..], size);
      assert log[0] in log;
    }
  }

  /** When the lines are all messages, the scanner reads them all exactly when every line fits. */
  lemma {:induction false} ReadableAllIff(s: seq<Message>, size: Message -> nat)
    ensures Readable(Map(s, AsLine()), size) == s <==> AllFit(Map(s, AsLine()), size)
  {
    var log := Map(s, AsLine());
    if |s| > 0 {
      ReadableAllIff(s[1..], size);
      assert log[1..] == Map(s[1..], AsLine());
      assert log[0] in log;
      assert log == [log[0]] + log[1..];
      assert s == [s[0]] + s[1..];
      if Readable(log, size) == s {
        assert Fits(log[0], size);
        assert Readable(log, size)[1..] == Readable(log[1..], size);
      }
    }
  }

  /** The first message whose line the scanner refuses. */
  function FirstUnfit(s: seq<Message>, size: Message -> nat): (k: nat)
    ensures k <= |s|
    ensures forall i | 0 <= i < k :: size(s[i]) < 1_052_672
    ensures k < |s| ==> size(s[k]) >= 1_052_672
  {
    if |s| == 0 || !Fits(Record(s[0]), size) then 0 else 1 + FirstUnfit(s[1..], size)
  }

  /** No message lies at or behind a line that the scanner refuses. */
  predicate Reached(log: seq<Line>, size: Message -> nat) {
    forall i, j | 0 <= i <= j < |log| && log[j].Record? :: Fits(log[i], size)
  }

  lemma {:induction false} NoRecords(log: seq<Line>)
    ensures Records(log) == [] <==> forall line | line in log :: line.Junk?
  {
    if |log| > 0 {
      NoRecords(log[1..]);
      assert log[0] in log && log == [log[0]] + log[1..];
      assert log[0].Record? ==> Records(log)[0] == log[0].msg;
      assert log[0].Junk? ==> Records(log) == Records(log[1..]);
    }
  }

  /** The scanner reads every message of the log exactly if it gets that far. */
  lemma {:induction false} ReadableIsAllIff(log: seq<Line>, size: Message -> nat)
    ensures Readable(log, size) == Records(log) <==> Reached(log, size)
  {
    if |log| == 0 {
    } else if Fits(log[0], size) {
      ReadableIsAllIff(log[1..], size);
      ReachedRest(log, size);
      var head := if log[0].Record? then [log[0].msg] else [];
      SamePrefix(head, Readable(log[1..], size), Records(log[1..]));
    } else {
      NoRecords(log);
      UnreachedIff(log, size);
    }
  }

  lemma UnreachedIff(log: seq<Line>, size: Message -> nat)
    requires |log| > 0 && !Fits(log[0], size)
    ensures Reached(log, size) <==> forall line | line in log :: line.Junk?
  {
    if line :| line in log && line.Record? {
      var j :| 0 <= j < |log| && log[j] == line;
      assert !Fits(log[0], size) && log[j].Record?;
    } else {
      assert forall j | 0 <= j < |log| :: log[j] in log;
    }
  }

  lemma ReachedRest(log: seq<Line>, size: Message -> nat)
    requires |log| > 0 && Fits(log[0], size)
    ensures Reached(log, size) <==> Reached(log[1..], size)
  {
    var rest := log[1..];
    if Reached(log, size) {
      forall i, j | 0 <= i <= j < |rest| && rest[j].Record? ensures Fits(rest[i], size) {
        assert rest[i] == log[i + 1] && rest[j] == log[j + 1];
      }
    }
    if Reached(rest, size) {
      forall i, j | 0 <= i <= j < |log| && log[j].Record? ensures Fits(log[i], size) {
        assert i > 0 ==> log[i] == rest[i - 1] && log[j] == rest[j - 1];
      }
    }
  }

  lemma SamePrefix<T>(head: seq<T>, a: seq<T>, b: seq<T>)
    ensures head + a == head + b <==> a == b
  {
    assert (head + a)[|head|..] == a && (head + b)[|head|..] == b;
  }

  /** From there on nothing is read. */
  lemma {:induction false} ReadableUpTo(s: seq<Message>, size: Message -> nat)
    ensures Readable(Map(s, AsLine()), size) == s[..FirstUnfit(s, size)]
  {
    if |s| > 0 && Fits(Record(s[0]), size) {
      ReadableUpTo(s[1..], size);
      assert Map(s, AsLine())[1..] == Map(s[1..], AsLine());
      assert s[..FirstUnfit(s, size)] == [s[0]] + s[1..][..FirstUnfit(s[1..], size)];
    }
  }

  lemma GroupLast(msgs: seq<Message>, ch: string)
    requires |msgs| > 0
    ensures List(Group(msgs), ch) ==
            List(Group(msgs[..|msgs| - 1]), ch) + if InChannel(ch)(msgs[|msgs| - 1]) then [msgs[|msgs| - 1]] else []
  {
    assert List(Group(msgs[..|msgs| - 1]), ch) + [] == List(Group(msgs[..|msgs| - 1]), ch);
  }

  /** Grouping puts a message on its channel's list exactly when a filter for the channel keeps it. */
  lemma {:induction false} GroupIsFilter(msgs: seq<Message>, ch: string)
    ensures List(Group(msgs), ch) == Filter(msgs, InChannel(ch))
  {
    if |msgs| > 0 {
      GroupLast(msgs, ch);
      GroupIsFilter(msgs[..|msgs| - 1], ch);
      FilterLast(msgs, InChannel(ch));
    }
  }

  /** LastIndexOf searches from the back, IndexOf from the front: with distinct ids they find the same message. */
  lemma ScansAgree(s: seq<Message>, id: string)
    requires DistinctIds(s)
    ensures LastIndexOf(s, id) >= 0 <==> IndexOf(s, id) < |s|
    ensures LastIndexOf(s, id) >= 0 ==> LastIndexOf(s, id) == IndexOf(s, id)
  {
  }
}
