/** The store as the object the node shares: its loops, and what they do to the value of the store. */
module Storage {
  import opened Options
  import opened Sequences
  import opened Protocol
  import opened StoreModel

  /** The log file and the file a compaction prepares beside it. */
  datatype Disk = Disk(file: seq<Line>, temp: Option<seq<Line>>)

  /** A rewrite of the log that no crash can catch half done: first the whole old log, then the whole new one. */
  ghost predicate Atomic(moments: seq<Disk>, before: seq<Line>, after: seq<Line>) {
    exists k: nat :: SwitchesAt(moments, before, after, k)
  }

  predicate SwitchesAt(moments: seq<Disk>, before: seq<Line>, after: seq<Line>, k: nat) {
    forall i | 0 <= i < |moments| :: moments[i].file == if i < k then before else after
  }

  /** The slice bounds of a page of a list; None where the slice expression would panic. */
  function Page(msgs: seq<Message>, limit: int, offset: int): Option<seq<Message>> {
    var total := |msgs|;
    var start := if total - offset - limit < 0 then 0 else total - offset - limit;
    var end := if total - offset > total then total else total - offset;
    if total == 0 || total - offset < 0 then Some([])
    else if start > end then None
    else Some(msgs[start..end])
  }

  /** One round of the scanner. */
  lemma ScanStep(log: seq<Line>, k: nat, size: Message -> nat)
    requires k < |log|
    ensures !Fits(log[k], size) ==> Readable(log[k..], size) == []
    ensures Fits(log[k], size) && log[k].Record? ==>
            Readable(log[k..], size) == [log[k].msg] + Readable(log[k + 1..], size)
    ensures Fits(log[k], size) && log[k].Junk? ==> Readable(log[k..], size) == Readable(log[k + 1..], size)
  {
  }

  /** The scanner's loop: undecodable lines are skipped, an oversized one ends the scan with an error. */
  method ScanLog(log: seq<Line>, size: Message -> nat) returns (loaded: seq<Message>, ok: bool)
    ensures loaded == Readable(log, size)
    ensures ok <==> AllFit(log, size)
  {
    loaded := [];
    var k := 0;
    while k < |log|
      invariant 0 <= k <= |log|
      invariant forall i | 0 <= i < k :: Fits(log[i], size)
      invariant loaded + Readable(log[k..], size) == Readable(log, size)
    {
      ScanStep(log, k, size);
      if !Fits(log[k], size) {
        return loaded, false;
      }
      if log[k].Record? {
        loaded := loaded + [log[k].msg];
      }
      k := k + 1;
    }
    ok := true;
  }

  method GroupByChannel(loaded: seq<Message>) returns (messages: map<string, seq<Message>>)
    ensures messages == Group(loaded)
  {
    messages := map[];
    var i := 0;
    while i < |loaded|
      invariant 0 <= i <= |loaded|
      invariant messages == Group(loaded[..i])
    {
      var ch := Normalize(loaded[i].channel);
      assert loaded[..i + 1][..i] == loaded[..i];
      messages := messages[ch := List(messages, ch) + [loaded[i]]];
      i := i + 1;
    }
    assert loaded[..i] == loaded;
  }

  class Storage {
    const capacity: nat
    const size: Message -> nat
    var messages: map<string, seq<Message>>
    var allMsgs: seq<Message>
    var disk: Disk

    function View(): Store
      reads this
    {
      Store(capacity, allMsgs, messages, disk.file)
    }

    /** Opens the log that is on disk; memory starts empty. */
    constructor (capacity: nat, size: Message -> nat, disk: Disk)
      ensures View() == Empty(capacity, disk.file) && this.size == size && this.disk == disk
    {
      this.capacity := capacity;
      this.size := size;
      this.disk := disk;
      messages := map[];
      allMsgs := [];
    }

    method Save(msg: Message, generated: string) returns (ok: bool)
      modifies this
      ensures (View(), ok) == StoreModel.Save(old(View()), msg, generated)
      ensures ok <==> |msg.content| <= 1_048_576
      ensures var kept := msg.(channel := if msg.channel == "" then "general" else msg.channel,
                               id := if msg.id == "" then generated else msg.id);
              disk.file == old(disk.file) + if ok then [Record(kept)] else []
    {
      var ch := Normalize(msg.channel);
      var m := msg.(channel := ch);
      if m.id == "" {
        m := m.(id := generated);
      }
      if |m.content| > MAX_MESSAGE_SIZE {
        return false;
      }
      messages := messages[ch := List(messages, ch) + [m]];
      if |messages[ch]| > capacity {
        messages := messages[ch := messages[ch][1..]];
      }
      allMsgs := allMsgs + [m];
      if |allMsgs| > capacity {
        allMsgs := allMsgs[1..];
      }
      disk := disk.(file := disk.file + [Record(m)]);
      assert m == Stamped(msg, generated);
      assert messages == old(messages)[ch := Push(List(old(messages), ch), m, capacity)];
      ok := true;
    }

    method GetMessageByID(id: string) returns (found: Option<Message>)
      ensures var i := StoreModel.GetMessageByID(View(), id); found == if i < 0 then None else Some(allMsgs[i])
    {
      var i := |allMsgs| - 1;
      while i >= 0
        invariant -1 <= i < |allMsgs|
        invariant forall k | i < k < |allMsgs| :: allMsgs[k].id != id
      {
        if allMsgs[i].id == id {
          return Some(allMsgs[i]);
        }
        i := i - 1;
      }
      found := None;
    }

    method UpdateMessage(id: string, newContent: string) returns (found: bool)
      modifies this
      ensures (View(), found) == StoreModel.Update(old(View()), id, newContent) && disk == old(disk)
      ensures found <==> exists m | m in old(allMsgs) :: m.id == id
    {
      var i := 0;
      while i < |allMsgs|
        invariant 0 <= i <= |allMsgs| && unchanged(this)
        invariant forall k | 0 <= k < i :: allMsgs[k].id != id
      {
        if allMsgs[i].id == id {
          assert IndexOf(allMsgs, id) == i;
          allMsgs := allMsgs[i := Edited(allMsgs[i], newContent)];
          var ch := Normalize(allMsgs[i].channel);
          var list := List(messages, ch);
          var j := 0;
          while j < |list|
            invariant 0 <= j <= |list|
            invariant forall k | 0 <= k < j :: list[k].id != id
          {
            if list[j].id == id {
              messages := messages[ch := list[j := Edited(list[j], newContent)]];
              break;
            }
            j := j + 1;
          }
          assert IndexOf(list, id) == j;
          assert messages == if ch in old(messages) then old(messages)[ch := EditFirst(list, id, newContent)]
                 else old(messages);
          return true;
        }
        i := i + 1;
      }
      assert IndexOf(allMsgs, id) == |allMsgs|;
      found := false;
    }

    method DeleteMessage(id: string) returns (found: bool)
      modifies this
      ensures (View(), found) == StoreModel.Delete(old(View()), id) && disk == old(disk)
      ensures found <==> exists m | m in old(allMsgs) :: m.id == id
    {
      found := false;
      var i := 0;
      while i < |allMsgs|
        invariant 0 <= i <= |allMsgs| && unchanged(this) && !found
        invariant forall k | 0 <= k < i :: allMsgs[k].id != id
      {
        if allMsgs[i].id == id {
          assert IndexOf(allMsgs, id) == i;
          var ch := Normalize(allMsgs[i].channel);
          allMsgs := allMsgs[..i] + allMsgs[i + 1..];
          var list := List(messages, ch);
          var j := 0;
          while j < |list|
            invariant 0 <= j <= |list|
            invariant forall k | 0 <= k < j :: list[k].id != id
          {
            if list[j].id == id {
              messages := messages[ch := list[..j] + list[j + 1..]];
              break;
            }
            j := j + 1;
          }
          assert IndexOf(list, id) == j;
          assert messages == if ch in old(messages) then old(messages)[ch := RemoveFirst(list, id)] else old(messages);
          found := true;
          return;
        }
        i := i + 1;
      }
      assert IndexOf(allMsgs, id) == |allMsgs|;
    }

    method AddReaction(id: string, emoji: string, user: string) returns (found: bool)
      modifies this
      ensures (View(), found) == StoreModel.React(old(View()), id, emoji, user) && disk == old(disk)
      ensures found <==> exists m | m in old(allMsgs) :: m.id == id
      ensures |allMsgs| == |old(allMsgs)|
      ensures found ==> IndexOf(old(allMsgs), id) < |allMsgs|
      ensures found ==> (
                var i := IndexOf(old(allMsgs), id);
                var users := Users(old(allMsgs)[i], emoji);
                Users(allMsgs[i], emoji) == if user in users then users else users + [user])
    {
      var i := 0;
      while i < |allMsgs|
        invariant 0 <= i <= |allMsgs| && unchanged(this)
        invariant forall k | 0 <= k < i :: allMsgs[k].id != id
      {
        if allMsgs[i].id == id {
          assert IndexOf(allMsgs, id) == i;
          var users := Users(allMsgs[i], emoji);
          var u := 0;
          while u < |users|
            invariant 0 <= u <= |users| && forall k | 0 <= k < u :: users[k] != user
          {
            if users[u] == user {
              return true;
            }
            u := u + 1;
          }
          users := users + [user];
          allMsgs := allMsgs[i := allMsgs[i].(reactions := allMsgs[i].reactions[emoji := users])];
          var ch := Normalize(allMsgs[i].channel);
          var list := List(messages, ch);
          var j := 0;
          while j < |list|
            invariant 0 <= j <= |list|
            invariant forall k | 0 <= k < j :: list[k].id != id
          {
            if list[j].id == id {
              messages := messages[ch := list[j := list[j].(reactions := list[j].reactions[emoji := users])]];
              break;
            }
            j := j + 1;
          }
          assert IndexOf(list, id) == j;
          assert messages == if ch in old(messages) then old(messages)[ch := CopyReaction(list, id, emoji, users)]
                 else old(messages);
          return true;
        }
        i := i + 1;
      }
      assert IndexOf(allMsgs, id) == |allMsgs|;
      found := false;
    }

    /** moments records the disk after each write, remove, rename and reopen. */
    method CompactAOF() returns (ghost moments: seq<Disk>)
      modifies this
      ensures View() == Compact(old(View())) && disk.temp == None
      ensures Atomic(moments, old(disk.file), Compact(old(View())).log)
      ensures |moments| > 0 && moments[|moments| - 1] == disk
    {
      ghost var before := disk.file;
      ghost var after := Map(allMsgs, AsLine());
      var temp: seq<Line> := [];
      disk := disk.(temp := Some(temp));
      moments := [disk];
      var i := 0;
      while i < |allMsgs|
        invariant 0 <= i <= |allMsgs| == |after|
        invariant temp == after[..i]
        invariant disk == Disk(before, Some(temp))
        invariant allMsgs == old(allMsgs) && messages == old(messages) && after == Map(allMsgs, AsLine())
        invariant forall k | 0 <= k < |moments| :: moments[k].file == before
      {
        temp := temp + [Record(allMsgs[i])];
        disk := disk.(temp := Some(temp));
        moments := moments + [disk];
        i := i + 1;
      }
      ghost var written := |moments|;
      disk := Disk(temp, None);
      moments := moments + [disk];
      assert SwitchesAt(moments, before, after, written);
    }

    method LoadAOF() returns (ok: bool)
      modifies this
      ensures (View(), ok) == StoreModel.Load(old(View()), size) && disk == old(disk)
    {
      var loaded;
      loaded, ok := ScanLog(disk.file, size);
      if |loaded| > capacity {
        loaded := loaded[|loaded| - capacity..];
      }
      allMsgs := loaded;
      messages := GroupByChannel(loaded);
    }

    /** The page of a channel's history that ends offset messages before the newest, and the history's length. */
    method GetChannelMessages(channel: string, limit: int, offset: int) returns (page: Option<seq<Message>>, total: nat)
      ensures var msgs := List(messages, Normalize(channel)); page == Page(msgs, limit, offset) && total == |msgs|
    {
      var msgs := List(messages, Normalize(channel));
      total := |msgs|;
      if total == 0 {
        return Some([]), 0;
      }
      var start, end := total - offset - limit, total - offset;
      if start < 0 {
        start := 0;
      }
      if end < 0 {
        return Some([]), total;
      }
      if end > total {
        end := total;
      }
      if end - start < 0 {
        return None, total;
      }
      page := Some(msgs[start..end]);
    }

    /** A negative count panics, unless there is nothing to return. */
    method GetRecentMessages(count: int) returns (recent: Option<seq<Message>>)
      ensures recent == if allMsgs == [] then Some([]) else if count < 0 then None else Some(LastN(allMsgs, count))
    {
      var total := |allMsgs|;
      if total == 0 {
        return Some([]);
      }
      var n := count;
      if n > total {
        n := total;
      }
      if n < 0 {
        return None;
      }
      recent := Some(allMsgs[total - n..]);
    }

    method GetMessagesAfter(t: int) returns (results: seq<Message>)
      ensures results == Filter(allMsgs, SentAfter(t))
      ensures forall m :: m in results <==> m in allMsgs && m.timestamp > t
    {
      FilterMembers(allMsgs, SentAfter(t));
      results := [];
      var i := 0;
      while i < |allMsgs|
        invariant 0 <= i <= |allMsgs| && results == Filter(allMsgs[..i], SentAfter(t))
      {
        assert allMsgs[..i + 1] == allMsgs[..i] + [allMsgs[i]];
        FilterConcat(allMsgs[..i], [allMsgs[i]], SentAfter(t));
        if allMsgs[i].timestamp > t {
          results := results + [allMsgs[i]];
        }
        i := i + 1;
      }
      assert allMsgs[..i] == allMsgs;
    }
  }

  // ---- Pages ----

  /** The slice expression of a page stays in range exactly under this condition on its caller's numbers. */
  lemma PageDefinedIff(msgs: seq<Message>, limit: int, offset: int)
    ensures Page(msgs, limit, offset).Some? <==>
            |msgs| == 0 || offset > |msgs| || (offset >= 0 && limit >= 0) || (offset < 0 && offset + limit >= 0)
  {
  }

  /** Unless it panics a page is the newest limit messages of all but the newest offset ones. */
  lemma PageIs(msgs: seq<Message>, limit: int, offset: int)
    requires Page(msgs, limit, offset).Some?
    ensures var page := Page(msgs, limit, offset).value;
            && (0 <= offset <= |msgs| && limit >= 0 ==> page == LastN(msgs[..|msgs| - offset], limit))
            && (offset < 0 && limit + offset >= 0 ==> page == LastN(msgs, limit + offset))
            && (offset > |msgs| || msgs == [] ==> page == [])
  {
  }

  /** For instance, a limit of -1 asks for a slice that ends before it starts. */
  lemma NegativeLimitPanics(msgs: seq<Message>)
    requires |msgs| > 0
    ensures Page(msgs, -1, 0) == None
  {
  }

  /** Pages at offset, offset + limit, ... until past the end, the oldest page first. */
  function PagesFrom(msgs: seq<Message>, limit: nat, offset: nat): (r: seq<Message>)
    requires limit > 0
    decreases if offset > |msgs| then 0 else |msgs| - offset + 1
  {
    if offset > |msgs| then []
    else PagesFrom(msgs, limit, offset + limit) + (PageDefinedIff(msgs, limit, offset); Page(msgs, limit, offset).value)
  }

  /** No page exceeds the limit, and together they are the history: no gap, no repeat, nothing out of order. */
  lemma {:induction false} PagesTile(msgs: seq<Message>, limit: nat, offset: nat)
    requires limit > 0
    ensures PagesFrom(msgs, limit, offset) == if offset > |msgs| then [] else msgs[..|msgs| - offset]
    ensures Page(msgs, limit, offset).Some? && |Page(msgs, limit, offset).value| <= limit
    decreases if offset > |msgs| then 0 else |msgs| - offset + 1
  {
    PageDefinedIff(msgs, limit, offset);
    if offset <= |msgs| {
      PagesTile(msgs, limit, offset + limit);
      var end := |msgs| - offset;
      Rejoin(msgs, if end - limit < 0 then 0 else end - limit, end);
    }
  }

  lemma Rejoin<T>(s: seq<T>, start: nat, end: nat)
    requires start <= end <= |s|
    ensures s[..start] + s[start..end] == s[..end]
  {
  }

  /**
   * After a crash at any moment of a compaction, a restart loads either what the old log gives or what memory held, up
   * to the first message whose line is too long.
   */
  lemma CrashDuringCompaction(st: Store, moments: seq<Disk>, i: nat, size: Message -> nat)
    requires Atomic(moments, st.log, Compact(st).log) && i < |moments| && |st.flat| <= st.cap
    ensures var recovered := Load(Empty(st.cap, moments[i].file), size).0;
            recovered.flat == Load(st, size).0.flat || recovered.flat == st.flat[..FirstUnfit(st.flat, size)]
  {
    ReadableUpTo(st.flat, size);
  }
}
