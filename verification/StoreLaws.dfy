/** What the store promises across runs, restarts and compactions. */
module StoreLaws {
  import opened Sequences
  import opened Protocol
  import opened StoreModel
  import opened StoreRuns

  /** Index agreement, from an empty store and for every channel. */
  lemma IndexAgreement(cap: nat, ops: seq<Op>, size: Message -> nat, ch: string)
    requires FreshAll(map[], ops)
    ensures var st := Run(Empty(cap, []), ops, size);
            && IsSuffix(Filter(st.flat, InChannel(ch)), List(st.index, ch))
            && |st.flat| <= cap && |List(st.index, ch)| <= cap
            && DistinctIds(st.flat) && DistinctIds(List(st.index, ch))
            && Subsequence(Ids(st.flat), Ids(Records(st.log)))
  {
    OpeningHolds(cap, [], map[]);
    RunKeeps(Empty(cap, []), map[], ops, size);
    RunKeepsCap(Empty(cap, []), ops, size);
    assert Agrees(Run(Empty(cap, []), ops, size));
  }

  lemma {:induction false} RunKeepsCap(st: Store, ops: seq<Op>, size: Message -> nat)
    ensures Run(st, ops, size).cap == st.cap
    decreases |ops|
  {
    if |ops| > 0 { RunKeepsCap(Step(st, ops[0], size), ops[1..], size); }
  }

  /**
   * Freshness is needed: with capacity 2, an id that lingers only in a channel list, saved again and then
   * edited, is edited in its old copy there and in its new copy in the flat list.
   */
  lemma ReusedIdBreaksAgreement(m: Message, size: Message -> nat)
    requires m.content == "" && m.channel == "a" && m.id == "x" && !m.edited
    ensures var other := m.(channel := "b", id := "y");
            var third := m.(channel := "b", id := "z");
            var ops := [SaveOp(m, ""), SaveOp(other, ""), SaveOp(third, ""), SaveOp(m, ""), UpdateOp("x", "new")];
            !Agrees(Run(Empty(2, []), ops, size))
  {
    var other := m.(channel := "b", id := "y");
    var third := m.(channel := "b", id := "z");
    var ops := [SaveOp(m, ""), SaveOp(other, ""), SaveOp(third, ""), SaveOp(m, ""), UpdateOp("x", "new")];
    RunFive(Empty(2, []), ops, size);
    StaleCopySaves(m, other, third);
    var s4 := Save(Save(Save(Save(Empty(2, []), m, "").0, other, "").0, third, "").0, m, "").0;
    StaleCopyEdited(s4, m, third);
  }

  lemma StaleCopySaves(m: Message, other: Message, third: Message)
    requires m.content == "" && m.channel == "a" && m.id == "x"
    requires other == m.(channel := "b", id := "y") && third == m.(channel := "b", id := "z")
    ensures var s4 := Save(Save(Save(Save(Empty(2, []), m, "").0, other, "").0, third, "").0, m, "").0;
            s4.flat == [third, m] && List(s4.index, "a") == [m, m] && "a" in s4.index
  {
  }

  lemma StaleCopyEdited(st: Store, m: Message, third: Message)
    requires m.channel == "a" && m.id == "x" && !m.edited && third.channel == "b" && third.id == "z"
    requires st.flat == [third, m] && "a" in st.index && st.index["a"] == [m, m]
    ensures !Agrees(Update(st, "x", "new").0)
  {
    var st' := Update(st, "x", "new").0;
    var newCopy := Edited(m, "new");
    assert IndexOf(st.flat, "x") == 1 && IndexOf(st.index["a"], "x") == 0;
    assert st'.flat == [third] + [newCopy] && List(st'.index, "a") == [newCopy, m];
    FilterConcat([third], [newCopy], InChannel("a"));
    assert Filter([third], InChannel("a")) == [] && Filter([newCopy], InChannel("a")) == [newCopy];
    assert Filter(st'.flat, InChannel("a")) == [newCopy];
    assert !IsSuffix(Filter(st'.flat, InChannel("a")), List(st'.index, "a"));
  }

  lemma RunFive(st: Store, ops: seq<Op>, size: Message -> nat)
    requires |ops| == 5
    ensures Run(st, ops, size) ==
            Step(Step(Step(Step(Step(st, ops[0], size), ops[1], size), ops[2], size), ops[3], size), ops[4], size)
  {
    var s1 := Step(st, ops[0], size);
    var s2 := Step(s1, ops[1], size);
    var s3 := Step(s2, ops[2], size);
    var s4 := Step(s3, ops[3], size);
    assert Run(st, ops, size) == Run(s1, ops[1..], size);
    assert Run(s1, ops[1..], size) == Run(s2, ops[1..][1..], size);
    assert Run(s2, ops[1..][1..], size) == Run(s3, ops[1..][1..][1..], size);
    assert Run(s3, ops[1..][1..][1..], size) == Run(s4, ops[1..][1..][1..][1..], size);
    assert ops[1..][1..][1..][1..] == [ops[4]];
    assert Run(s4, [ops[4]], size) == Run(Step(s4, ops[4], size), [], size);
  }

  // ---- The log rebuilds memory ----

  /** Memory is the newest cap messages of the log. */
  predicate Replays(st: Store) {
    st.flat == LastN(Records(st.log), st.cap)
  }

  lemma {:induction false} SavesReplay(st: Store, ops: seq<Op>, size: Message -> nat)
    requires Replays(st) && forall op | op in ops :: op.SaveOp?
    ensures Replays(Run(st, ops, size))
    decreases |ops|
  {
    if |ops| > 0 {
      var st' := Step(st, ops[0], size);
      if Accepted(ops[0]) {
        var m := Stamped(ops[0].msg, ops[0].generated);
        RecordsConcat(st.log, [Record(m)]);
        assert Records([Record(m)]) == [m];
        PushLastN(Records(st.log), m, st.cap);
      }
      SavesReplay(st', ops[1..], size);
    }
  }

  /** What is saved: the message as it came but for a missing id or channel, unless it exceeds a mebibyte. */
  function Kept(op: Op): seq<Message> {
    if op.SaveOp? && |op.msg.content| <= 1_048_576 then
      [op.msg.(id := if op.msg.id == "" then op.generated else op.msg.id,
               channel := if op.msg.channel == "" then "general" else op.msg.channel)]
    else []
  }

  function AllKept(ops: seq<Op>): seq<Message>
    decreases |ops|
  {
    if |ops| == 0 then [] else Kept(ops[0]) + AllKept(ops[1..])
  }

  /** Compaction aside, every run adds exactly the messages saved to the log, in order, and takes nothing away. */
  lemma {:induction false} LogGrows(st: Store, ops: seq<Op>, size: Message -> nat)
    requires forall op | op in ops :: !op.CompactOp?
    ensures Records(Run(st, ops, size).log) == Records(st.log) + AllKept(ops)
    decreases |ops|
  {
    if |ops| > 0 {
      LogGrows(Step(st, ops[0], size), ops[1..], size);
      LogStep(st, ops[0], size);
      Associative(Records(st.log), Kept(ops[0]), AllKept(ops[1..]));
    } else {
      assert Records(st.log) + [] == Records(st.log);
    }
  }

  lemma LogStep(st: Store, op: Op, size: Message -> nat)
    requires !op.CompactOp?
    ensures Records(Step(st, op, size).log) == Records(st.log) + Kept(op)
  {
    if Accepted(op) {
      var m := Stamped(op.msg, op.generated);
      RecordsConcat(st.log, [Record(m)]);
      assert Records([Record(m)]) == [m];
    } else {
      assert Records(st.log) + [] == Records(st.log);
    }
  }

  /** The newest elements of a list of distinct ones are those of a front of it only if that is all of it. */
  lemma NewestOfFrontIff<T>(front: seq<T>, s: seq<T>, n: nat)
    requires front <= s && Distinct(s) && n > 0
    ensures LastN(front, n) == LastN(s, n) <==> front == s
  {
    if |front| < |s| {
      var newest := LastN(s, n);
      assert newest[|newest| - 1] == s[|s| - 1];
      assert |front| > 0 ==> LastN(front, n)[|LastN(front, n)| - 1] == s[|front| - 1];
    }
  }

  lemma DistinctMessages(s: seq<Message>)
    requires DistinctIds(s)
    ensures Distinct(s)
  {
  }

  /**
   * While only Save has run since memory and log last matched, a reload restores the flat list if the scanner gets as
   * far as the last message, with distinct ids only then, and it rebuilds each channel list as a filter.
   */
  lemma SavesSurviveReload(st: Store, ops: seq<Op>, size: Message -> nat, ch: string)
    requires Replays(st) && forall op | op in ops :: op.SaveOp?
    ensures var st' := Run(st, ops, size);
            var loaded := Load(st', size).0;
            && (Reached(st'.log, size) ==> loaded.flat == st'.flat)
            && (DistinctIds(Records(st'.log)) && st'.cap > 0 ==> (loaded.flat == st'.flat <==> Reached(st'.log, size)))
            && List(loaded.index, ch) == Filter(loaded.flat, InChannel(ch))
  {
    var st' := Run(st, ops, size);
    SavesReplay(st, ops, size);
    ReadableIsPrefix(st'.log, size);
    ReadableIsAllIff(st'.log, size);
    if DistinctIds(Records(st'.log)) && st'.cap > 0 {
      DistinctMessages(Records(st'.log));
      NewestOfFrontIff(Readable(st'.log, size), Records(st'.log), st'.cap);
    }
    GroupIsFilter(Load(st', size).0.flat, ch);
  }

  /** Compaction and a reload that reaches every message are the moments at which memory and log match. */
  lemma MatchesAfterCompactOrLoad(st: Store, size: Message -> nat)
    requires |st.flat| <= st.cap
    ensures Replays(Compact(st))
    ensures Reached(st.log, size) ==> Replays(Load(st, size).0)
  {
    RecordsOfLines(st.flat);
    ReadableIsAllIff(st.log, size);
  }

  /** Of two lists cut from a list of distinct elements, one that the other covers is cut from the other. */
  lemma {:induction false} CoveredSubsequence<T>(c: seq<T>, a: seq<T>, b: seq<T>)
    requires Subsequence(c, b) && Subsequence(a, b) && Distinct(b) && forall x | x in c :: x in a
    ensures Subsequence(c, a)
    decreases |b|
  {
    if |c| > 0 {
      assert c[|c| - 1] in c;
      var a', b', c', last := a[..|a| - 1], b[..|b| - 1], c[..|c| - 1], b[|b| - 1];
      assert last !in b' && c == c' + [c[|c| - 1]];
      if a[|a| - 1] == last && Subsequence(a', b') {
        assert a == a' + [last];
        if c[|c| - 1] == last && Subsequence(c', b') {
          forall x | x in c' ensures x in a' {
            SubsequenceMembers(c', b', x);
            assert x in c;
          }
          CoveredSubsequence(c', a', b');
        } else {
          forall x | x in c ensures x in a' { SubsequenceMembers(c, b', x); }
          CoveredSubsequence(c, a', b');
        }
      } else {
        forall x | x in c ensures x in b' { SubsequenceMembers(a, b', x); }
        CoveredSubsequence(c, a, b');
      }
    }
  }

  lemma SameIdsSameList(a: seq<Message>, b: seq<Message>)
    requires Ids(a) == Ids(b) && DistinctIds(a)
    requires forall m | m in b :: m in a
    ensures a == b
  {
    assert |a| == |Ids(a)| == |b|;
    forall i | 0 <= i < |a| ensures a[i] == b[i] {
      assert Ids(a)[i] == Ids(b)[i] && b[i] in b && b[i] in a;
      SameId(a, a[i], b[i]);
    }
  }

  lemma IdsCovered(a: seq<Message>, b: seq<Message>)
    requires forall m | m in a :: m in b
    ensures forall x | x in Ids(a) :: x in Ids(b)
  {
    forall x | x in Ids(a) ensures x in Ids(b) {
      var i :| 0 <= i < |a| && x == a[i].id;
      assert a[i] in b;
      var j :| 0 <= j < |b| && b[j] == a[i];
      assert Ids(b)[j] == x;
    }
  }

  /** A memory that holds all that a reload would read, and no more than that many, holds exactly that. */
  lemma CoveringMemory(st: Store, births: Births, read: seq<Message>)
    requires Inv(st, births) && Subsequence(Ids(read), Ids(Records(st.log)))
    requires |st.flat| <= |read| && forall m | m in read :: m in st.flat
    ensures st.flat == read
  {
    IdsCovered(read, st.flat);
    assert Distinct(Ids(Records(st.log)));
    CoveredSubsequence(Ids(read), Ids(st.flat), Ids(Records(st.log)));
    SubsequenceLength(Ids(read), Ids(st.flat));
    SameIdsSameList(st.flat, read);
  }

  /**
   * Edits, deletions and reactions are not logged, and a line that is too long hides all later ones, so reloading need
   * not restore memory. It does exactly when each message that it reads is still in memory as it was logged, and
   * memory has no more messages than those.
   */
  lemma ReloadRestoresIff(st: Store, births: Births, size: Message -> nat)
    requires Inv(st, births)
    ensures var read := LastN(Readable(st.log, size), st.cap);
            Load(st, size).0.flat == st.flat <==> |st.flat| <= |read| && forall m | m in read :: m in st.flat
  {
    var read := LastN(Readable(st.log, size), st.cap);
    if |st.flat| <= |read| && forall m | m in read :: m in st.flat {
      LoadTraced(st, size);
      CoveringMemory(st, births, read);
    }
  }

  /** When the scanner reaches every message, that is when the newest cap logged ones are in memory as logged. */
  lemma CompleteReloadRestoresIff(st: Store, births: Births, size: Message -> nat)
    requires Inv(st, births) && Reached(st.log, size)
    ensures Load(st, size).0.flat == st.flat <==> forall m | m in LastN(Records(st.log), st.cap) :: m in st.flat
  {
    ReadableIsAllIff(st.log, size);
    ReloadRestoresIff(st, births, size);
    SubsequenceLength(Ids(st.flat), Ids(Records(st.log)));
  }

  /**
   * Capacity 2: save A, save B, whose text Save accepts and whose line the scanner refuses. Everything logged is in
   * memory as logged, and a reload loses B.
   */
  lemma UnreadableSave(a: Message, b: Message, size: Message -> nat)
    requires a.id == "a" && b.id == "b" && a.channel == b.channel == "general" && a.content == ""
    requires |b.content| <= MAX_MESSAGE_SIZE && size(a) < SCAN_LIMIT <= size(b)
    ensures var ops := [SaveOp(a, ""), SaveOp(b, "")];
            var st := Run(Empty(2, []), ops, size);
            && st.flat == [a, b] && Records(st.log) == [a, b]
            && Run(Empty(2, []), ops + [LoadOp], size).flat == [a]
  {
    var ops := [SaveOp(a, ""), SaveOp(b, "")];
    assert ops[1..] == [SaveOp(b, "")] && ops[1..][1..] == [];
    var st := Save(Save(Empty(2, []), a, "").0, b, "").0;
    assert Run(Empty(2, []), ops, size) == Run(Save(Empty(2, []), a, "").0, [SaveOp(b, "")], size) == st;
    RunAppend(Empty(2, []), ops, LoadOp, size);
    TwoLines(st, a, b, size);
  }

  lemma TwoLines(st: Store, a: Message, b: Message, size: Message -> nat)
    requires st.cap == 2 && st.log == [Record(a), Record(b)] && size(a) < SCAN_LIMIT <= size(b)
    ensures Records(st.log) == [a, b] && Load(st, size).0.flat == [a]
  {
    assert st.log == Map([a, b], AsLine());
    RecordsOfLines([a, b]);
    ReadableUpTo([a, b], size);
    assert [a, b][1..][0] == b && FirstUnfit([a, b], size) == 1;
  }

  /** Capacity 2: save A, save B, delete B, save C. Memory holds A and C; the log restores B and C. */
  lemma DeletedMessageReturns(a: Message, b: Message, c: Message, size: Message -> nat)
    requires a.id == "a" && b.id == "b" && c.id == "c"
    requires a.channel == b.channel == c.channel == "general" && a.content == b.content == c.content == ""
    requires size(a) < SCAN_LIMIT && size(b) < SCAN_LIMIT && size(c) < SCAN_LIMIT
    ensures var ops := [SaveOp(a, ""), SaveOp(b, ""), DeleteOp("b"), SaveOp(c, "")];
            Run(Empty(2, []), ops, size).flat == [a, c] && Run(Empty(2, []), ops + [LoadOp], size).flat == [b, c]
  {
    var ops := [SaveOp(a, ""), SaveOp(b, ""), DeleteOp("b"), SaveOp(c, "")];
    RunFour(Empty(2, []), ops, size);
    DeletedFromMemory(a, b);
    SavedAfterwards(Delete(Save(Save(Empty(2, []), a, "").0, b, "").0, "b").0, a, b, c);
    RunAppend(Empty(2, []), ops, LoadOp, size);
    LoadsNewest(Run(Empty(2, []), ops, size), a, b, c, size);
  }

  lemma RunFour(st: Store, ops: seq<Op>, size: Message -> nat)
    requires |ops| == 4
    ensures Run(st, ops, size) == Step(Step(Step(Step(st, ops[0], size), ops[1], size), ops[2], size), ops[3], size)
  {
    RunFive(st, ops + [CompactOp], size);
    var s4 := Step(Step(Step(Step(st, ops[0], size), ops[1], size), ops[2], size), ops[3], size);
    var s1, r1 := Step(st, ops[0], size), ops[1..];
    var s2, r2 := Step(s1, ops[1], size), r1[1..];
    var s3, r3 := Step(s2, ops[2], size), r2[1..];
    assert Run(st, ops, size) == Run(s1, r1, size) == Run(s2, r2, size) == Run(s3, r3, size) == Run(s4, r3[1..], size);
  }

  lemma SavedAfterwards(st: Store, a: Message, b: Message, c: Message)
    requires st.cap == 2 && st.flat == [a] && st.log == [Record(a), Record(b)]
    requires c.id == "c" && c.channel == "general" && c.content == ""
    ensures var st' := Save(st, c, "").0;
            st'.cap == 2 && st'.flat == [a, c] && st'.log == [Record(a), Record(b), Record(c)]
  {
  }

  lemma LoadsNewest(st: Store, a: Message, b: Message, c: Message, size: Message -> nat)
    requires st.cap == 2 && st.log == [Record(a), Record(b), Record(c)]
    requires size(a) < SCAN_LIMIT && size(b) < SCAN_LIMIT && size(c) < SCAN_LIMIT
    ensures Load(st, size).0.flat == [b, c]
  {
    assert st.log == Map([a, b, c], AsLine());
    ReadableAllIff([a, b, c], size);
  }

  lemma DeletedFromMemory(a: Message, b: Message)
    requires a.id == "a" && b.id == "b" && a.channel == b.channel == "general" && a.content == b.content == ""
    ensures var st := Delete(Save(Save(Empty(2, []), a, "").0, b, "").0, "b").0;
            st.cap == 2 && st.flat == [a] && st.log == [Record(a), Record(b)]
  {
    var st := Save(Save(Empty(2, []), a, "").0, b, "").0;
    assert st.flat == [a, b] && IndexOf(st.flat, "b") == 1;
  }

  lemma {:induction false} RunAppend(st: Store, ops: seq<Op>, op: Op, size: Message -> nat)
    ensures Run(st, ops + [op], size) == Step(Run(st, ops, size), op, size)
    decreases |ops|
  {
    if |ops| == 0 {
      assert ops + [op] == [op];
      assert Run(Step(st, op, size), [op][1..], size) == Step(st, op, size);
    } else {
      assert (ops + [op])[1..] == ops[1..] + [op];
      RunAppend(Step(st, ops[0], size), ops[1..], op, size);
    }
  }

  // ---- Compaction ----

  /**
   * Compacting and reloading restores the flat list exactly when every line it writes fits the scanner:
   * Save bounds a message's content, but edits and the encoding do not.
   */
  lemma CompactReloadIff(st: Store, size: Message -> nat)
    requires |st.flat| <= st.cap
    ensures Load(Compact(st), size).0.flat == st.flat <==> AllFit(Compact(st).log, size)
  {
    var log := Compact(st).log;
    ReadableIsPrefix(log, size);
    RecordsOfLines(st.flat);
    ReadableAllIff(st.flat, size);
  }

  /** Otherwise it keeps the messages before the first whose line is too long, and loses that one and all later ones. */
  lemma CompactReloadKeepsFront(st: Store, size: Message -> nat)
    requires |st.flat| <= st.cap
    ensures Load(Compact(st), size).0.flat == st.flat[..FirstUnfit(st.flat, size)]
  {
    ReadableUpTo(st.flat, size);
  }

  /**
   * Save A, save B, save C, edit B to a text longer than the scanner takes, compact, reload: only A is left. Nothing
   * bounds the text of an edit.
   */
  lemma OversizedEditLosesRest(a: Message, b: Message, c: Message, text: string, size: Message -> nat)
    requires a.id == "a" && b.id == "b" && c.id == "c"
    requires a.channel == b.channel == c.channel == "general" && a.content == b.content == c.content == ""
    requires (forall m :: size(m) >= |m.content|) && size(a) < SCAN_LIMIT && |text| >= SCAN_LIMIT
    ensures var ops := [SaveOp(a, ""), SaveOp(b, ""), SaveOp(c, ""), UpdateOp("b", text)];
            && Run(Empty(3, []), ops, size).flat == [a, Edited(b, text), c]
            && Run(Empty(3, []), ops + [CompactOp] + [LoadOp], size).flat == [a]
  {
    var ops := [SaveOp(a, ""), SaveOp(b, ""), SaveOp(c, ""), UpdateOp("b", text)];
    EditedRun(a, b, c, text, ops, size);
    var st := Run(Empty(3, []), ops, size);
    RunAppend(Empty(3, []), ops, CompactOp, size);
    RunAppend(Empty(3, []), ops + [CompactOp], LoadOp, size);
    ReloadsFirst(st, a, Edited(b, text), c, size);
  }

  lemma ReloadsFirst(st: Store, a: Message, b: Message, c: Message, size: Message -> nat)
    requires st.cap == 3 && st.flat == [a, b, c] && size(a) < SCAN_LIMIT <= size(b)
    ensures Load(Compact(st), size).0.flat == [a]
  {
    CompactReloadKeepsFront(st, size);
    SecondUnfit(a, b, c, size);
  }

  lemma EditedRun(a: Message, b: Message, c: Message, text: string, ops: seq<Op>, size: Message -> nat)
    requires a.id == "a" && b.id == "b" && c.id == "c"
    requires a.channel == b.channel == c.channel == "general" && a.content == b.content == c.content == ""
    requires ops == [SaveOp(a, ""), SaveOp(b, ""), SaveOp(c, ""), UpdateOp("b", text)]
    ensures var st := Run(Empty(3, []), ops, size); st.cap == 3 && st.flat == [a, Edited(b, text), c]
  {
    RunFour(Empty(3, []), ops, size);
    ThreeThenEdited(a, b, c, text);
  }

  lemma SecondUnfit(a: Message, b: Message, c: Message, size: Message -> nat)
    requires size(a) < SCAN_LIMIT <= size(b)
    ensures [a, b, c][..FirstUnfit([a, b, c], size)] == [a]
  {
  }

  lemma ThreeSaved(a: Message, b: Message, c: Message)
    requires a.id == "a" && b.id == "b" && c.id == "c"
    requires a.channel == b.channel == c.channel == "general" && a.content == b.content == c.content == ""
    ensures var st := Save(Save(Save(Empty(3, []), a, "").0, b, "").0, c, "").0;
            st.cap == 3 && st.flat == [a, b, c]
  {
  }

  lemma ThreeThenEdited(a: Message, b: Message, c: Message, text: string)
    requires a.id == "a" && b.id == "b" && c.id == "c"
    requires a.channel == b.channel == c.channel == "general" && a.content == b.content == c.content == ""
    ensures var st := Update(Save(Save(Save(Empty(3, []), a, "").0, b, "").0, c, "").0, "b", text).0;
            st.cap == 3 && st.flat == [a, Edited(b, text), c]
  {
    ThreeSaved(a, b, c);
    EditSecond(a, b, c, text);
  }

  lemma EditSecond(a: Message, b: Message, c: Message, text: string)
    requires a.id == "a" && b.id == "b"
    ensures IndexOf([a, b, c], "b") == 1 && EditFirst([a, b, c], "b", text) == [a, Edited(b, text), c]
  {
  }

  /** Each channel list is rebuilt from what survives. */
  lemma CompactReloadLists(st: Store, size: Message -> nat, ch: string)
    requires |st.flat| <= st.cap
    ensures List(Load(Compact(st), size).0.index, ch) == Filter(st.flat[..FirstUnfit(st.flat, size)], InChannel(ch))
  {
    CompactReloadKeepsFront(st, size);
    GroupIsFilter(st.flat[..FirstUnfit(st.flat, size)], ch);
  }

  /** That is the end of the channel's list exactly if, of its messages in memory, all survive or none. */
  lemma CompactReloadShortensIff(st: Store, births: Births, size: Message -> nat, ch: string)
    requires Inv(st, births)
    ensures var k := FirstUnfit(st.flat, size);
            IsSuffix(List(Load(Compact(st), size).0.index, ch), List(st.index, ch)) <==>
            Filter(st.flat[k..], InChannel(ch)) == [] || Filter(st.flat[..k], InChannel(ch)) == []
  {
    var k := FirstUnfit(st.flat, size);
    CompactReloadLists(st, size, ch);
    assert IsSuffix(Filter(st.flat, InChannel(ch)), List(st.index, ch));
    FilteredFrontIff(st.flat, k, List(st.index, ch), InChannel(ch));
  }

  lemma FilteredFrontIff(flat: seq<Message>, k: nat, list: seq<Message>, p: Message -> bool)
    requires k <= |flat| && DistinctIds(flat) && IsSuffix(Filter(flat, p), list)
    ensures IsSuffix(Filter(flat[..k], p), list) <==> Filter(flat[k..], p) == [] || Filter(flat[..k], p) == []
  {
    assert flat == flat[..k] + flat[k..];
    FilterConcat(flat[..k], flat[k..], p);
    FilterKeepsDistinct(flat, p);
    FrontEndsIff(Filter(flat[..k], p), Filter(flat[k..], p), list);
  }

  /** A list's end is its end's front only if that front is all or nothing. */
  lemma FrontEndsIff(a: seq<Message>, b: seq<Message>, list: seq<Message>)
    requires DistinctIds(a + b) && IsSuffix(a + b, list)
    ensures IsSuffix(a, list) <==> b == [] || a == []
  {
    FrontIsEndIff(a, b);
    if IsSuffix(a, list) { SuffixesOfOne(a, a + b, list); }
    if IsSuffix(a, a + b) { SuffixTransitive(a, a + b, list); }
  }

  lemma FrontIsEndIff(a: seq<Message>, b: seq<Message>)
    requires DistinctIds(a + b)
    ensures IsSuffix(a, a + b) <==> b == [] || a == []
  {
    var s := a + b;
    if b == [] {
      assert s == a;
    } else if a != [] {
      assert s[|a| - 1] == a[|a| - 1] && s[|b|..][|a| - 1] == s[|s| - 1];
    }
  }

  // ---- The checked message is the changed message ----

  /** Ids never change hands: what was born under an id stays what it was. */
  lemma {:induction false} BornGrows(births: Births, ops: seq<Op>, id: string)
    requires FreshAll(births, ops) && id in births
    ensures id in BornAll(births, ops) && BornAll(births, ops)[id] == births[id]
    decreases |ops|
  {
    if |ops| > 0 { BornGrows(Born(births, ops[0]), ops[1..], id); }
  }

  /** Only the message a command looked up differs after the change, wherever it is kept. */
  ghost predicate OnlyChanges(before: seq<Message>, after: seq<Message>, id: string, sender: string) {
    |before| == |after| &&
    forall i | 0 <= i < |before| :: before[i] != after[i] ==> before[i].id == id && before[i].sender == sender
  }

  lemma EditOfOnlyChanges(births: Births, s: seq<Message>, id: string, content: string, sender: string)
    requires Good(births, s) && id in births && births[id].sender == sender
    ensures OnlyChanges(s, EditFirst(s, id, content), id, sender)
  {
  }

  /**
   * The lookup, the ownership check and the edit take the lock separately, so any operations may run between
   * them. Still the edit changes only messages of the sender that the check saw.
   */
  lemma EditChangesOnlyTheChecked(st: Store, births: Births, ops: seq<Op>, size: Message -> nat, id: string,
      content: string)
    requires Inv(st, births) && FreshAll(births, ops) && GetMessageByID(st, id) >= 0
    ensures var sender := st.flat[GetMessageByID(st, id)].sender;
            var mid := Run(st, ops, size);
            var after := Update(mid, id, content).0;
            && OnlyChanges(mid.flat, after.flat, id, sender)
            && after.index.Keys == mid.index.Keys
            && forall ch | ch in mid.index :: OnlyChanges(mid.index[ch], after.index[ch], id, sender)
  {
    var m := st.flat[GetMessageByID(st, id)];
    assert m in st.flat && births[id] == BirthOf(m);
    RunKeeps(st, births, ops, size);
    BornGrows(births, ops, id);
    UpdateOnlyChanges(Run(st, ops, size), BornAll(births, ops), id, content, m.sender);
  }

  /** One message is missing afterwards, of that id and sender, or none; the rest keep their order. */
  ghost predicate OnlyRemoves(before: seq<Message>, after: seq<Message>, id: string, sender: string) {
    after == before ||
    exists i | 0 <= i < |before| :: before[i].id == id && before[i].sender == sender &&
        after == before[..i] + before[i + 1..]
  }

  lemma RemoveOnlyRemoves(births: Births, s: seq<Message>, id: string, sender: string)
    requires Good(births, s) && id in births && births[id].sender == sender
    ensures OnlyRemoves(s, RemoveFirst(s, id), id, sender)
  {
  }

  /** Likewise between the check and the deletion: only the sender's message that the check saw goes, from any list. */
  lemma DeleteRemovesOnlyTheChecked(st: Store, births: Births, ops: seq<Op>, size: Message -> nat, id: string)
    requires Inv(st, births) && FreshAll(births, ops) && GetMessageByID(st, id) >= 0
    ensures var sender := st.flat[GetMessageByID(st, id)].sender;
            var mid := Run(st, ops, size);
            var after := Delete(mid, id).0;
            && OnlyRemoves(mid.flat, after.flat, id, sender)
            && after.index.Keys == mid.index.Keys
            && forall ch | ch in mid.index :: OnlyRemoves(mid.index[ch], after.index[ch], id, sender)
  {
    var m := st.flat[GetMessageByID(st, id)];
    assert m in st.flat && births[id] == BirthOf(m);
    RunKeeps(st, births, ops, size);
    BornGrows(births, ops, id);
    DeleteOnlyRemoves(Run(st, ops, size), BornAll(births, ops), id, m.sender);
  }

  lemma DeleteOnlyRemoves(st: Store, births: Births, id: string, sender: string)
    requires Good(births, st.flat) && GoodIndex(st, births) && id in births && births[id].sender == sender
    ensures var after := Delete(st, id).0;
            && OnlyRemoves(st.flat, after.flat, id, sender)
            && after.index.Keys == st.index.Keys
            && forall ch | ch in st.index :: OnlyRemoves(st.index[ch], after.index[ch], id, sender)
  {
    RemoveOnlyRemoves(births, st.flat, id, sender);
    forall ch | ch in st.index ensures OnlyRemoves(st.index[ch], Delete(st, id).0.index[ch], id, sender) {
      assert GoodChannel(births, ch, st.index[ch], st.cap);
      RemoveOnlyRemoves(births, st.index[ch], id, sender);
    }
  }

  lemma UpdateOnlyChanges(st: Store, births: Births, id: string, content: string, sender: string)
    requires Good(births, st.flat) && GoodIndex(st, births) && id in births && births[id].sender == sender
    ensures var after := Update(st, id, content).0;
            && OnlyChanges(st.flat, after.flat, id, sender)
            && after.index.Keys == st.index.Keys
            && forall ch | ch in st.index :: OnlyChanges(st.index[ch], after.index[ch], id, sender)
  {
    EditOfOnlyChanges(births, st.flat, id, content, sender);
    forall ch | ch in st.index
      ensures OnlyChanges(st.index[ch], Update(st, id, content).0.index[ch], id, sender)
    {
      assert GoodChannel(births, ch, st.index[ch], st.cap);
      EditOfOnlyChanges(births, st.index[ch], id, content, sender);
    }
  }

  /** The backward scan of the lookup and the forward scan of the change stop at the same message. */
  lemma UpdateHitsTheLookup(st: Store, births: Births, id: string, content: string)
    requires Inv(st, births)
    ensures var i := GetMessageByID(st, id);
            && (i < 0 <==> Update(st, id, content) == (st, false))
            && (i >= 0 ==>
                  Update(st, id, content).0.flat == st.flat[i := Edited(st.flat[i], content)] &&
                  Update(st, id, content).1)
  {
    ScansAgree(st.flat, id);
  }

  lemma DeleteLeavesNone(st: Store, id: string)
    requires DistinctIds(st.flat)
    ensures (forall m | m in Delete(st, id).0.flat :: m.id != id) && GetMessageByID(Delete(st, id).0, id) < 0
  {
  }

  lemma DeleteFiltersOwnList(st: Store, births: Births, id: string, i: nat)
    requires Inv(st, births) && i < |st.flat| && IndexOf(st.flat, id) == i
    ensures var ch := Normalize(st.flat[i].channel);
            List(Delete(st, id).0.index, ch) == Filter(List(st.index, ch), NotId(id))
  {
    var ch := Normalize(st.flat[i].channel);
    InOwnList(st, births, st.flat[i]);
    assert GoodChannel(births, ch, st.index[ch], st.cap);
    RemoveFirstIsFilter(st.index[ch], id);
  }

  /** Deleting removes that message, keeps the rest in order, and leaves no message of that id anywhere. */
  lemma DeleteRemovesTheLookup(st: Store, births: Births, id: string)
    requires Inv(st, births)
    ensures var i := GetMessageByID(st, id);
            var st' := Delete(st, id).0;
            && Delete(st, id).1 == (i >= 0)
            && (i >= 0 ==> st'.flat == st.flat[..i] + st.flat[i + 1..])
            && (i >= 0 ==> var ch := Normalize(st.flat[i].channel);
                List(st'.index, ch) == Filter(List(st.index, ch), NotId(id)))
            && (forall m | m in st'.flat :: m.id != id)
            && GetMessageByID(st', id) < 0
  {
    ScansAgree(st.flat, id);
    DeleteLeavesNone(st, id);
    if GetMessageByID(st, id) >= 0 { DeleteFiltersOwnList(st, births, id, IndexOf(st.flat, id)); }
  }

  // ---- One user reacts once per emoji ----

  ghost predicate Clean(m: Message) {
    forall emoji | emoji in m.reactions :: Distinct(m.reactions[emoji])
  }

  ghost predicate AllClean(s: seq<Message>) {
    forall m | m in s :: Clean(m)
  }

  ghost predicate StoreClean(st: Store) {
    AllClean(st.flat) && AllClean(Records(st.log)) && forall ch | ch in st.index :: AllClean(st.index[ch])
  }

  lemma CopyClean(s: seq<Message>, id: string, emoji: string, users: seq<string>)
    requires AllClean(s) && Distinct(users)
    ensures AllClean(CopyReaction(s, id, emoji, users))
  {
    forall m | m in CopyReaction(s, id, emoji, users) ensures Clean(m) {
      var j := IndexOf(s, id);
      assert j < |s| ==> s[j] in s;
    }
  }

  lemma PushClean(s: seq<Message>, m: Message, cap: nat)
    requires AllClean(s) && Clean(m)
    ensures AllClean(Push(s, m, cap))
  {
  }

  lemma SaveClean(st: Store, msg: Message, generated: string)
    requires StoreClean(st) && Clean(msg)
    ensures StoreClean(Save(st, msg, generated).0)
  {
    var m := Stamped(msg, generated);
    assert Clean(m);
    PushClean(st.flat, m, st.cap);
    PushClean(List(st.index, m.channel), m, st.cap);
    RecordsConcat(st.log, [Record(m)]);
    assert Records([Record(m)]) == [m];
  }

  lemma EditClean(s: seq<Message>, id: string, content: string)
    requires AllClean(s)
    ensures AllClean(EditFirst(s, id, content))
  {
    var i := IndexOf(s, id);
    if i < |s| {
      assert s[i] in s && Clean(Edited(s[i], content));
    }
  }

  lemma UpdateClean(st: Store, id: string, content: string)
    requires StoreClean(st)
    ensures StoreClean(Update(st, id, content).0)
  {
    EditClean(st.flat, id, content);
    var i := IndexOf(st.flat, id);
    if i < |st.flat| {
      var ch := Normalize(st.flat[i].channel);
      if ch in st.index { EditClean(st.index[ch], id, content); }
    }
  }

  lemma ReactClean(st: Store, id: string, emoji: string, user: string)
    requires StoreClean(st)
    ensures StoreClean(React(st, id, emoji, user).0)
  {
    var i := IndexOf(st.flat, id);
    if i < |st.flat| && user !in Users(st.flat[i], emoji) {
      var users := Users(st.flat[i], emoji) + [user];
      assert st.flat[i] in st.flat;
      assert Distinct(users);
      CopyClean(st.flat, id, emoji, users);
      var ch := Normalize(st.flat[i].channel);
      if ch in st.index { CopyClean(st.index[ch], id, emoji, users); }
    }
  }

  lemma GroupClean(msgs: seq<Message>, ch: string)
    requires AllClean(msgs)
    ensures AllClean(List(Group(msgs), ch))
  {
  }

  lemma ReadableClean(log: seq<Line>, size: Message -> nat)
    requires AllClean(Records(log))
    ensures AllClean(Readable(log, size))
  {
  }

  lemma LoadClean(st: Store, size: Message -> nat)
    requires StoreClean(st)
    ensures StoreClean(Load(st, size).0)
  {
    ReadableClean(st.log, size);
    var msgs := Load(st, size).0.flat;
    SuffixMembers(msgs, Readable(st.log, size));
    forall ch | ch in Group(msgs) ensures AllClean(Group(msgs)[ch]) {
      GroupClean(msgs, ch);
    }
  }

  lemma StepClean(st: Store, op: Op, size: Message -> nat)
    requires StoreClean(st) && (op.SaveOp? ==> Clean(op.msg))
    ensures StoreClean(Step(st, op, size))
  {
    match op
    case SaveOp(msg, generated) => SaveClean(st, msg, generated);
    case UpdateOp(id, content) => UpdateClean(st, id, content);
    case DeleteOp(id) =>
    case ReactOp(id, emoji, user) => ReactClean(st, id, emoji, user);
    case CompactOp => RecordsOfLines(st.flat);
    case LoadOp => LoadClean(st, size);
  }

  /** No operation, with or without fresh ids, ever lists a user twice under one emoji. */
  lemma {:induction false} RunClean(st: Store, ops: seq<Op>, size: Message -> nat)
    requires StoreClean(st) && forall op | op in ops :: op.SaveOp? ==> Clean(op.msg)
    ensures StoreClean(Run(st, ops, size))
    decreases |ops|
  {
    if |ops| > 0 {
      StepClean(st, ops[0], size);
      RunClean(Step(st, ops[0], size), ops[1..], size);
    }
  }
}
