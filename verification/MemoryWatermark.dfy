/** The watermark of a conversation and the turns that have been summarised (shared/memory_store.py:127-185). */
module MemoryWatermark {
  import opened Text
  import opened MemoryStore

  /** All turns of a conversation that were ever handed to a call, in the order of the calls. */
  function Handed(log: seq<Call>, conv: string): seq<nat> {
    if log == [] then []
    else
      var last := log[|log| - 1];
      Handed(log[..|log| - 1], conv) + if last.conv == conv then last.ids else []
  }

  function Watermark(t: Tables, conv: string): nat {
    if conv in t.conversations then t.conversations[conv].upto else 0
  }

  predicate InConversation(t: Tables, conv: string, id: nat) {
    id in t.turns && t.turns[id].conv == Some(conv)
  }

  /** The turns of the conversation that are there and at or below its watermark are exactly those that were handed to
      a call, each once and in order of ids; what is still to come is above all that was handed. */
  ghost predicate Exact(b: Book, conv: string) {
    var handed := Handed(b.log, conv);
    && Increasing(handed)
    && (forall id: nat :: InConversation(b.tables, conv, id) ==> (id in handed <==> id <= Watermark(b.tables, conv)))
    && (forall id: nat :: InConversation(b.tables, conv, id) && id !in handed ==> Above(id, handed))
    && Above(b.tables.nextTurn, handed) && Watermark(b.tables, conv) < b.tables.nextTurn
  }

  predicate Above(id: nat, ids: seq<nat>) {
    forall i :: 0 <= i < |ids| ==> ids[i] < id
  }

  // ---- what each operation does to exactness, whoever shares the conversation ----

  lemma OperationNumbered(b: Book, op: Op, strip: string -> string)
    requires Numbered(b.tables)
    ensures Numbered(Do(b, op, strip).tables)
  {
    match op
    case Record(user, conv, turns) => AddedTurns(b.tables, user, conv, turns);
    case Summarize(user, conv, every, summarizer) =>
      if Due(b.tables, user, conv, every, summarizer).Some? {
        DueShown(b.tables, user, conv, every, summarizer);
        AddedMemories(b.tables, user, Do(b, op, strip).log[|b.log|].kept);
      }
    case Forget(user, memory) =>
  }

  /** The operation stores a summary that moves the watermark over a turn of somebody else. */
  ghost predicate PassesOver(t: Tables, op: Op, conv: string) {
    && op.Summarize? && op.conv == Some(conv) && Due(t, op.user, op.conv, op.every, op.summarizer).Some?
    && exists id: nat :: PassedBy(t, op, conv, id)
  }

  predicate PassedBy(t: Tables, op: Op, conv: string, id: nat)
    requires op.Summarize? && op.conv == Some(conv) && Due(t, op.user, op.conv, op.every, op.summarizer).Some?
  {
    var ids := Due(t, op.user, op.conv, op.every, op.summarizer).value.0;
    && InConversation(t, conv, id) && t.turns[id].user != op.user
    && Watermark(t, conv) < id && ids != [] && id <= ids[|ids| - 1]
  }

  /** The operation deletes the conversation row with everything of its user, and a turn of somebody else that was
      handed out stays. */
  ghost predicate LeavesHanded(b: Book, op: Op, conv: string) {
    && op.Forget? && op.memory.None?
    && conv in b.tables.conversations && b.tables.conversations[conv].user == op.user
    && exists id: nat :: StaysHanded(b, op.user, conv, id)
  }

  predicate StaysHanded(b: Book, user: string, conv: string, id: nat) {
    InConversation(b.tables, conv, id) && b.tables.turns[id].user != user && id in Handed(b.log, conv)
  }

  /** Turns that come or go do not matter while watermark and calls stay, as new ones get ids above all. */
  lemma SameWatermark(b: Book, b': Book, c: string)
    requires Exact(b, c) && Handed(b'.log, c) == Handed(b.log, c) && Watermark(b'.tables, c) == Watermark(b.tables, c)
    requires b.tables.nextTurn <= b'.tables.nextTurn
    requires forall i: nat :: InConversation(b'.tables, c, i) && i < b.tables.nextTurn ==>
               InConversation(b.tables, c, i)
    ensures Exact(b', c)
  {
    var handed := Handed(b.log, c);
    forall id: nat | InConversation(b'.tables, c, id)
      ensures id in handed <==> id <= Watermark(b'.tables, c)
      ensures id !in handed ==> Above(id, handed)
    {
      if id < b.tables.nextTurn {
        assert InConversation(b.tables, c, id);
      }
    }
  }

  lemma RecordKeepsExact(b: Book, op: Op, conv: string, strip: string -> string)
    requires Numbered(b.tables) && Exact(b, conv) && op.Record?
    ensures Exact(Do(b, op, strip), conv)
  {
    AddedTurns(b.tables, op.user, op.conv, op.turns);
    SameWatermark(b, Do(b, op, strip), conv);
  }

  lemma IncreasingAppend(a: seq<nat>, b: seq<nat>)
    requires Increasing(a) && Increasing(b) && forall i :: 0 <= i < |b| ==> Above(b[i], a)
    ensures Increasing(a + b)
  {
  }

  lemma AboveAppend(id: nat, a: seq<nat>, b: seq<nat>)
    requires Above(id, a) && Above(id, b)
    ensures Above(id, a + b)
  {
  }

  /** Where a turn of the conversation stands after all pending turns `ids` of one user were handed out. */
  lemma AfterHandingOut(b: Book, c: string, user: string, ids: seq<nat>, id: nat)
    requires Exact(b, c) && ids != [] && Increasing(ids) && InConversation(b.tables, c, id)
    requires forall i: nat :: i in ids <==> IsPending(b.tables, c, user, Watermark(b.tables, c), i)
    requires Watermark(b.tables, c) < id <= ids[|ids| - 1] ==> b.tables.turns[id].user == user
    ensures id in Handed(b.log, c) + ids <==> id <= ids[|ids| - 1]
    ensures id !in Handed(b.log, c) + ids ==> Above(id, Handed(b.log, c)) && Above(id, ids)
  {
    assert ids[0] in ids && Watermark(b.tables, c) < ids[0] <= ids[|ids| - 1];
    assert id in ids ==> id <= ids[|ids| - 1];
  }

  /** All pending turns of the user are handed out, and no other turn is passed over. */
  lemma HandedOut(b: Book, b': Book, c: string, user: string, ids: seq<nat>)
    requires Numbered(b.tables) && Exact(b, c) && ids != [] && Increasing(ids)
    requires b'.tables.turns == b.tables.turns && b'.tables.nextTurn == b.tables.nextTurn
    requires Watermark(b'.tables, c) == ids[|ids| - 1] && Handed(b'.log, c) == Handed(b.log, c) + ids
    requires forall id: nat :: id in ids <==> IsPending(b.tables, c, user, Watermark(b.tables, c), id)
    requires forall id: nat :: InConversation(b.tables, c, id) && Watermark(b.tables, c) < id <= ids[|ids| - 1] ==>
               b.tables.turns[id].user == user
    ensures Exact(b', c)
  {
    var handed := Handed(b.log, c);
    forall i | 0 <= i < |ids|
      ensures Above(ids[i], handed) && ids[i] < b.tables.nextTurn
    {
      assert ids[i] in ids && InConversation(b.tables, c, ids[i]);
    }
    IncreasingAppend(handed, ids);
    AboveAppend(b.tables.nextTurn, handed, ids);
    forall id: nat | InConversation(b'.tables, c, id)
      ensures id in handed + ids <==> id <= ids[|ids| - 1]
      ensures id !in handed + ids ==> Above(id, handed + ids)
    {
      assert InConversation(b.tables, c, id);
      AfterHandingOut(b, c, user, ids, id);
      if id !in handed + ids {
        AboveAppend(id, handed, ids);
      }
    }
  }

  /** The state after a stored summary. */
  lemma SummaryStored(b: Book, op: Op, conv: string, strip: string -> string)
    requires Numbered(b.tables) && op.Summarize? && op.conv == Some(conv)
    requires Due(b.tables, op.user, op.conv, op.every, op.summarizer).Some?
    ensures var ids, b' := Due(b.tables, op.user, op.conv, op.every, op.summarizer).value.0, Do(b, op, strip);
            && ids != [] && Increasing(ids)
            && b'.tables.turns == b.tables.turns && b'.tables.nextTurn == b.tables.nextTurn
            && Watermark(b'.tables, conv) == ids[|ids| - 1] && Handed(b'.log, conv) == Handed(b.log, conv) + ids
            && forall id: nat :: id in ids <==> IsPending(b.tables, conv, op.user, Watermark(b.tables, conv), id)
  {
    DueShown(b.tables, op.user, op.conv, op.every, op.summarizer);
    var b' := Do(b, op, strip);
    AddedMemories(b.tables, op.user, b'.log[|b.log|].kept);
    assert b'.log[..|b.log|] == b.log;
  }

  lemma SummarizeExactIff(b: Book, op: Op, conv: string, strip: string -> string)
    requires Numbered(b.tables) && Exact(b, conv) && op.Summarize? && op.conv == Some(conv)
    requires Due(b.tables, op.user, op.conv, op.every, op.summarizer).Some?
    ensures Exact(Do(b, op, strip), conv) <==> !PassesOver(b.tables, op, conv)
  {
    SummaryStored(b, op, conv, strip);
    var ids := Due(b.tables, op.user, op.conv, op.every, op.summarizer).value.0;
    if PassesOver(b.tables, op, conv) {
      var id: nat :| PassedBy(b.tables, op, conv, id);
      assert id !in ids && InConversation(Do(b, op, strip).tables, conv, id);
    } else {
      forall id: nat | InConversation(b.tables, conv, id) && Watermark(b.tables, conv) < id <= ids[|ids| - 1]
        ensures b.tables.turns[id].user == op.user
      {
        assert !PassedBy(b.tables, op, conv, id);
      }
      HandedOut(b, Do(b, op, strip), conv, op.user, ids);
    }
  }

  /** A summary of another conversation. */
  lemma SummarizeElsewhere(b: Book, op: Op, c: string, conv: string, strip: string -> string)
    requires Numbered(b.tables) && Exact(b, conv) && op.Summarize? && op.conv == Some(c) && c != conv
    requires Due(b.tables, op.user, op.conv, op.every, op.summarizer).Some?
    ensures Exact(Do(b, op, strip), conv)
  {
    DueShown(b.tables, op.user, op.conv, op.every, op.summarizer);
    var b' := Do(b, op, strip);
    AddedMemories(b.tables, op.user, b'.log[|b.log|].kept);
    assert b'.log[..|b.log|] == b.log;
    assert Handed(b'.log, conv) == Handed(b.log, conv) + [];
    SameWatermark(b, b', conv);
  }

  /** A turn that was handed out and stays is above the watermark of the deleted row. */
  lemma HandedLeft(b: Book, op: Op, conv: string, strip: string -> string)
    requires Numbered(b.tables) && Exact(b, conv) && LeavesHanded(b, op, conv)
    ensures !Exact(Do(b, op, strip), conv)
  {
    var id: nat :| StaysHanded(b, op.user, conv, id);
    assert InConversation(Do(b, op, strip).tables, conv, id);
  }

  lemma ForgetExactIff(b: Book, op: Op, conv: string, strip: string -> string)
    requires Numbered(b.tables) && Exact(b, conv) && op.Forget?
    ensures Exact(Do(b, op, strip), conv) <==> !LeavesHanded(b, op, conv)
  {
    var b' := Do(b, op, strip);
    if LeavesHanded(b, op, conv) {
      HandedLeft(b, op, conv, strip);
    } else if Watermark(b'.tables, conv) == Watermark(b.tables, conv) {
      SameWatermark(b, b', conv);
    } else {
      forall id: nat | InConversation(b'.tables, conv, id)
        ensures id !in Handed(b.log, conv) && InConversation(b.tables, conv, id)
      {
        assert !StaysHanded(b, op.user, conv, id);
      }
    }
  }

  /** From an exact state an operation keeps the watermark of a conversation exact if and only if it is no summary that
      passes over a turn of another user and no deletion of the row that leaves a handed-out turn behind. */
  lemma ExactKeptIff(b: Book, op: Op, conv: string, strip: string -> string)
    requires Numbered(b.tables) && Exact(b, conv)
    ensures Exact(Do(b, op, strip), conv) <==> !PassesOver(b.tables, op, conv) && !LeavesHanded(b, op, conv)
  {
    match op
    case Record(_, _, _) => RecordKeepsExact(b, op, conv, strip);
    case Summarize(user, c, every, summarizer) =>
      if Due(b.tables, user, c, every, summarizer).Some? {
        DueShown(b.tables, user, c, every, summarizer);
        if c == Some(conv) {
          SummarizeExactIff(b, op, conv, strip);
        } else {
          SummarizeElsewhere(b, op, c.value, conv, strip);
        }
      }
    case Forget(_, _) => ForgetExactIff(b, op, conv, strip);
  }

  // ---- whole runs ----

  lemma {:induction false} RunNumbered(ops: seq<Op>, strip: string -> string)
    ensures Numbered(Run(ops, strip).tables)
  {
    if ops != [] {
      RunNumbered(ops[..|ops| - 1], strip);
      OperationNumbered(Run(ops[..|ops| - 1], strip), ops[|ops| - 1], strip);
    }
  }

  /** Neither of the two, at step `n` of the run. */
  ghost predicate HarmlessStep(ops: seq<Op>, conv: string, strip: string -> string, n: nat)
    requires n < |ops|
  {
    var b := Run(ops[..n], strip);
    !PassesOver(b.tables, ops[n], conv) && !LeavesHanded(b, ops[n], conv)
  }

  lemma StepOfRun(ops: seq<Op>, conv: string, strip: string -> string, n: nat)
    requires n < |ops| && Exact(Run(ops[..n], strip), conv)
    ensures Exact(Run(ops[..n + 1], strip), conv) <==> HarmlessStep(ops, conv, strip, n)
  {
    assert ops[..n + 1][..n] == ops[..n];
    RunNumbered(ops[..n], strip);
    ExactKeptIff(Run(ops[..n], strip), ops[n], conv, strip);
  }

  lemma {:induction false} HarmlessRun(ops: seq<Op>, conv: string, strip: string -> string, n: nat)
    requires n <= |ops| && forall i :: 0 <= i < n ==> HarmlessStep(ops, conv, strip, i)
    ensures Exact(Run(ops[..n], strip), conv)
  {
    if n == 0 {
      assert ops[..0] == [];
    } else {
      HarmlessRun(ops, conv, strip, n - 1);
      StepOfRun(ops, conv, strip, n - 1);
    }
  }

  /** In every run, shared conversation ids or not: the watermark of a conversation is exact at every moment if and
      only if no step is one of the two. */
  lemma ExactThroughoutIff(ops: seq<Op>, conv: string, strip: string -> string)
    ensures (forall n :: 0 <= n <= |ops| ==> Exact(Run(ops[..n], strip), conv))
       <==> (forall n :: 0 <= n < |ops| ==> HarmlessStep(ops, conv, strip, n))
  {
    if forall n :: 0 <= n < |ops| ==> HarmlessStep(ops, conv, strip, n) {
      forall n | 0 <= n <= |ops|
        ensures Exact(Run(ops[..n], strip), conv)
      {
        HarmlessRun(ops, conv, strip, n);
      }
    } else {
      var n :| 0 <= n < |ops| && !HarmlessStep(ops, conv, strip, n);
      if Exact(Run(ops[..n], strip), conv) {
        StepOfRun(ops, conv, strip, n);
      }
    }
  }

  // ---- conversations of one user ----

  /** Every conversation id belongs to one user. */
  ghost predicate SingleOwner(ops: seq<Op>, owner: string -> string) {
    forall i :: 0 <= i < |ops| ==> OwnerRecords(ops[i], owner)
  }

  predicate OwnerRecords(op: Op, owner: string -> string) {
    op.Record? && !NoConversation(op.conv) ==> op.user == owner(op.conv.value)
  }

  ghost predicate Owned(t: Tables, owner: string -> string) {
    && (forall i :: i in t.turns && !NoConversation(t.turns[i].conv) ==>
          t.turns[i].user == owner(t.turns[i].conv.value))
    && (forall c :: c in t.conversations ==> c != "" && t.conversations[c].user == owner(c))
  }

  lemma {:induction false} RunOwned(ops: seq<Op>, owner: string -> string, strip: string -> string)
    requires SingleOwner(ops, owner)
    ensures Owned(Run(ops, strip).tables, owner)
  {
    if ops != [] {
      var before, op := ops[..|ops| - 1], ops[|ops| - 1];
      RunOwned(before, owner, strip);
      RunNumbered(before, strip);
      var b := Run(before, strip);
      match op {
        case Record(user, conv, turns) => AddedTurns(b.tables, user, conv, turns);
        case Summarize(user, conv, every, summarizer) =>
          if Due(b.tables, user, conv, every, summarizer).Some? {
            DueShown(b.tables, user, conv, every, summarizer);
            AddedMemories(b.tables, user, Do(b, op, strip).log[|b.log|].kept);
          }
        case Forget(user, memory) =>
      }
    }
  }

  lemma OwnersPassNobody(b: Book, op: Op, conv: string, owner: string -> string)
    requires Numbered(b.tables) && Owned(b.tables, owner) && conv != ""
    ensures !PassesOver(b.tables, op, conv) && !LeavesHanded(b, op, conv)
  {
    if op.Summarize? && op.conv == Some(conv) && Due(b.tables, op.user, op.conv, op.every, op.summarizer).Some? {
      DueShown(b.tables, op.user, op.conv, op.every, op.summarizer);
      var ids := Due(b.tables, op.user, op.conv, op.every, op.summarizer).value.0;
      assert ids[0] in ids;
      assert op.user == owner(conv);
    }
  }

  /** In every run in which each conversation id belongs to one user: the turns at or below the watermark are exactly
      those handed to a call that returned, each once and in order. */
  lemma {:induction false} WatermarkIsExact(ops: seq<Op>, owner: string -> string, strip: string -> string,
        conv: string)
    requires SingleOwner(ops, owner) && conv != ""
    ensures Exact(Run(ops, strip), conv)
  {
    if ops != [] {
      var before := ops[..|ops| - 1];
      WatermarkIsExact(before, owner, strip, conv);
      RunNumbered(before, strip);
      RunOwned(before, owner, strip);
      OwnersPassNobody(Run(before, strip), ops[|ops| - 1], conv, owner);
      ExactKeptIff(Run(before, strip), ops[|ops| - 1], conv, strip);
    }
  }

  // ---- what happens to a turn that was passed over ----

  /** A watermark falls only when its conversation row is deleted with everything else of the row's user, whoever
      shares the conversation. */
  lemma WatermarkFallsOnlyByDeletion(b: Book, op: Op, strip: string -> string, conv: string)
    requires Numbered(b.tables) && conv in b.tables.conversations
    ensures var t' := Do(b, op, strip).tables;
            if conv in t'.conversations then
              && t'.conversations[conv].user == b.tables.conversations[conv].user
              && Watermark(b.tables, conv) <= Watermark(t', conv)
            else op == Forget(b.tables.conversations[conv].user, None)
  {
    match op
    case Record(user, c, turns) => AddedTurns(b.tables, user, c, turns);
    case Summarize(user, c, every, summarizer) =>
      if Due(b.tables, user, c, every, summarizer).Some? {
        DueShown(b.tables, user, c, every, summarizer);
        var ids := Due(b.tables, user, c, every, summarizer).value.0;
        assert ids[|ids| - 1] in ids;
      }
    case Forget(user, memory) =>
  }

  /** What follows a state. */
  function RunFrom(b: Book, ops: seq<Op>, strip: string -> string): Book {
    if ops == [] then b else Do(RunFrom(b, ops[..|ops| - 1], strip), ops[|ops| - 1], strip)
  }

  predicate Clears(op: Op, user: string) {
    op.Forget? && op.memory.None? && op.user == user
  }

  /** A call is never handed a turn at or below the watermark. */
  lemma HandedAbove(b: Book, op: Op, strip: string -> string, conv: string, id: nat)
    requires Numbered(b.tables) && conv in b.tables.conversations && id <= Watermark(b.tables, conv)
    ensures id in Handed(Do(b, op, strip).log, conv) <==> id in Handed(b.log, conv)
  {
    if op.Summarize? && Due(b.tables, op.user, op.conv, op.every, op.summarizer).Some? {
      DueShown(b.tables, op.user, op.conv, op.every, op.summarizer);
      assert Do(b, op, strip).log[..|b.log|] == b.log;
    }
  }

  /** As long as nobody deletes everything of the user of the conversation row, a turn at or below the watermark is
      handed to no further call: what was passed over stays out. */
  lemma {:induction false} PassedOverStaysOut(b: Book, ops: seq<Op>, strip: string -> string, conv: string, id: nat)
    requires Numbered(b.tables) && conv in b.tables.conversations && id <= Watermark(b.tables, conv)
    requires forall i :: 0 <= i < |ops| ==> !Clears(ops[i], b.tables.conversations[conv].user)
    ensures var b' := RunFrom(b, ops, strip);
            && Numbered(b'.tables) && conv in b'.tables.conversations
            && b'.tables.conversations[conv].user == b.tables.conversations[conv].user
            && Watermark(b.tables, conv) <= Watermark(b'.tables, conv)
            && (id in Handed(b'.log, conv) <==> id in Handed(b.log, conv))
  {
    if ops != [] {
      var before, op := ops[..|ops| - 1], ops[|ops| - 1];
      PassedOverStaysOut(b, before, strip, conv, id);
      var mid := RunFrom(b, before, strip);
      assert !Clears(op, b.tables.conversations[conv].user);
      OperationNumbered(mid, op, strip);
      WatermarkFallsOnlyByDeletion(mid, op, strip, conv);
      HandedAbove(mid, op, strip, conv, id);
    }
  }

  // ---- two runs of a shared conversation ----

  lemma RunSnoc(ops: seq<Op>, op: Op, strip: string -> string)
    ensures Run(ops + [op], strip) == Do(Run(ops, strip), op, strip)
  {
    assert (ops + [op])[..|ops|] == ops;
  }

  const TWO_TURNS := Tables(map[1 := Turn("a", Some("c"), "user", "x"), 2 := Turn("b", Some("c"), "user", "y")],
                            map["c" := Conversation("a", 2, 0)], map[], 3, 1)

  lemma TwoTurns(strip: string -> string)
    ensures var b := Do(Do(Run([], strip), Record("a", Some("c"), [("user", "x")]), strip),
                        Record("b", Some("c"), [("user", "y")]), strip);
            b.tables == TWO_TURNS && b.log == []
  {
    assert [("user", "x")][..0] == [] && [("user", "y")][..0] == [];
  }

  lemma TwoTurnsRecorded(strip: string -> string) returns (ops: seq<Op>)
    ensures Run(ops, strip).tables == TWO_TURNS && Run(ops, strip).log == []
  {
    var op1, op2 := Record("a", Some("c"), [("user", "x")]), Record("b", Some("c"), [("user", "y")]);
    RunSnoc([], op1, strip);
    RunSnoc([] + [op1], op2, strip);
    TwoTurns(strip);
    ops := [] + [op1] + [op2];
  }

  lemma OnlySecondPending()
    ensures var ids := Pending(TWO_TURNS, "c", "b", 0, 3); ids != [] && ids[|ids| - 1] == 2
  {
    PendingExact(TWO_TURNS, "c", "b", 0, 3);
    var ids := Pending(TWO_TURNS, "c", "b", 0, 3);
    assert IsPending(TWO_TURNS, "c", "b", 0, 2) && 2 in ids;
    assert ids[|ids| - 1] in ids;
  }

  lemma SecondPassesOver(op: Op)
    requires op.Summarize? && op.user == "b" && op.conv == Some("c") && op.every == 1
    requires forall turns :: op.summarizer(turns) == Some([])
    ensures PassesOver(TWO_TURNS, op, "c")
  {
    OnlySecondPending();
    assert PassedBy(TWO_TURNS, op, "c", 1);
  }

  /** Two users, one conversation id: a summary passes over the first user's turn. */
  lemma SharedConversationSkips(strip: string -> string)
    ensures exists ops: seq<Op>, op: Op ::
              Exact(Run(ops, strip), "c") && op.Summarize? && !Exact(Do(Run(ops, strip), op, strip), "c")
  {
    var ops := TwoTurnsRecorded(strip);
    var op := Summarize("b", Some("c"), 1, NoFacts());
    SecondPassesOver(op);
    StopsBeingExact(Run(ops, strip), op, strip);
  }

  lemma NothingHandedYet(b: Book)
    requires b.tables == TWO_TURNS && b.log == []
    ensures Numbered(b.tables) && Exact(b, "c")
  {
  }

  lemma StopsBeingExact(b: Book, op: Op, strip: string -> string)
    requires b.tables == TWO_TURNS && b.log == [] && PassesOver(b.tables, op, "c")
    ensures Exact(b, "c") && !Exact(Do(b, op, strip), "c")
  {
    NothingHandedYet(b);
    ExactKeptIff(b, op, "c", strip);
  }

  lemma PendingStep(t: Tables, conv: string, user: string, upto: nat, next: nat)
    requires next > 0
    ensures Pending(t, conv, user, upto, next) == Pending(t, conv, user, upto, next - 1)
                                                + if IsPending(t, conv, user, upto, next - 1) then [next - 1] else []
  {
  }

  function NoFacts(): Summarizer {
    turns => Some([])
  }

  /** A summary without facts hands out what is pending and moves the watermark. */
  lemma HandsOut(b: Book, user: string, row: Conversation, ids: seq<nat>, strip: string -> string)
    requires "c" in b.tables.conversations && b.tables.conversations["c"] == row
    requires ids != [] && Pending(b.tables, "c", user, row.upto, b.tables.nextTurn) == ids
    ensures var b' := Do(b, Summarize(user, Some("c"), 1, NoFacts()), strip);
            && b'.tables == b.tables.(conversations := b.tables.conversations["c" := row.(upto := ids[|ids| - 1])])
            && Handed(b'.log, "c") == Handed(b.log, "c") + ids
  {
    var b' := Do(b, Summarize(user, Some("c"), 1, NoFacts()), strip);
    assert b'.log[..|b.log|] == b.log;
  }

  /** Turns 2 and, if it is there, 3 belong to b; the conversation row is as given. */
  function LeftToB(row: map<string, Conversation>, third: bool): Tables {
    var two := map[2 := Turn("b", Some("c"), "user", "y")];
    Tables(if third then two[3 := Turn("b", Some("c"), "user", "z")] else two, row, map[], if third then 4 else 3, 1)
  }

  lemma FirstPending()
    ensures Pending(TWO_TURNS, "c", "b", 0, 3) == [2]
  {
    PendingStep(TWO_TURNS, "c", "b", 0, 1);
    PendingStep(TWO_TURNS, "c", "b", 0, 2);
    PendingStep(TWO_TURNS, "c", "b", 0, 3);
    assert IsPending(TWO_TURNS, "c", "b", 0, 2) && !IsPending(TWO_TURNS, "c", "b", 0, 1);
  }

  lemma LaterPending(t: Tables)
    requires t == LeftToB(map["c" := Conversation("b", 1, 0)], true)
    ensures Pending(t, "c", "b", 0, 4) == [2, 3]
  {
    PendingStep(t, "c", "b", 0, 1);
    PendingStep(t, "c", "b", 0, 2);
    PendingStep(t, "c", "b", 0, 3);
    PendingStep(t, "c", "b", 0, 4);
    assert IsPending(t, "c", "b", 0, 2) && IsPending(t, "c", "b", 0, 3) && !IsPending(t, "c", "b", 0, 1);
  }

  lemma WatermarkMoved(b: Book, strip: string -> string)
    requires b.tables == TWO_TURNS && b.log == []
    ensures var b' := Do(b, Summarize("b", Some("c"), 1, NoFacts()), strip);
            && b'.tables == TWO_TURNS.(conversations := map["c" := Conversation("a", 2, 2)])
            && Handed(b'.log, "c") == [2]
  {
    FirstPending();
    RowMoved();
    HandsOut(b, "b", Conversation("a", 2, 0), [2], strip);
  }

  lemma RowMoved()
    ensures TWO_TURNS.(conversations := TWO_TURNS.conversations["c" := Conversation("a", 2, 0).(upto := 2)])
         == TWO_TURNS.(conversations := map["c" := Conversation("a", 2, 2)])
  {
  }

  /** b's turn is summarised. */
  lemma FirstSummary(strip: string -> string) returns (ops: seq<Op>)
    ensures Run(ops, strip).tables == TWO_TURNS.(conversations := map["c" := Conversation("a", 2, 2)])
    ensures Handed(Run(ops, strip).log, "c") == [2]
  {
    var before := TwoTurnsRecorded(strip);
    var op := Summarize("b", Some("c"), 1, NoFacts());
    RunSnoc(before, op, strip);
    WatermarkMoved(Run(before, strip), strip);
    ops := before + [op];
  }

  /** The row is deleted with everything of its user a, and made again by b. */
  lemma RowMadeAgain(b: Book, strip: string -> string)
    requires b.tables == TWO_TURNS.(conversations := map["c" := Conversation("a", 2, 2)])
    ensures var b' := Do(Do(b, Forget("a", None), strip), Record("b", Some("c"), [("user", "z")]), strip);
            b'.tables == LeftToB(map["c" := Conversation("b", 1, 0)], true) && b'.log == b.log
  {
    var mid := Do(b, Forget("a", None), strip);
    assert mid.tables == LeftToB(map[], false);
    assert [("user", "z")][..0] == [];
  }

  lemma MadeAgain(strip: string -> string) returns (ops: seq<Op>)
    ensures Run(ops, strip).tables == LeftToB(map["c" := Conversation("b", 1, 0)], true)
    ensures Handed(Run(ops, strip).log, "c") == [2]
  {
    var before := FirstSummary(strip);
    var op1, op2 := Forget("a", None), Record("b", Some("c"), [("user", "z")]);
    RunSnoc(before, op1, strip);
    RunSnoc(before + [op1], op2, strip);
    RowMadeAgain(Run(before, strip), strip);
    ops := before + [op1] + [op2];
  }

  /** Two users share a conversation, the turn of the second is summarised, the first is deleted with the conversation
      row, and the second goes on: the turn already summarised is handed out again with the new one. */
  lemma HandedOutTwice(strip: string -> string)
    ensures exists ops: seq<Op> :: Handed(Run(ops, strip).log, "c") == [2, 2, 3]
  {
    var before := MadeAgain(strip);
    var op := Summarize("b", Some("c"), 1, NoFacts());
    RunSnoc(before, op, strip);
    LaterPending(Run(before, strip).tables);
    HandsOut(Run(before, strip), "b", Conversation("b", 1, 0), [2, 3], strip);
    assert Handed(Run(before + [op], strip).log, "c") == [2, 2, 3];
  }
}
