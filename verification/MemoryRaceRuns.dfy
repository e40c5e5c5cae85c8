/** Runs of one user whose recordings, summaries and deletions overlap (shared/memory_store.py:98-225). */
module MemoryRaceRuns {
  import opened Text
  import opened MemoryStore
  import opened MemoryWatermark
  import opened MemoryRaces

  lemma NextStep(run: seq<System>, events: seq<(nat, Event)>, p: nat, e: Event, next: System)
    requires Interleaving(run, events) && Step(run[|events|], p, e, next)
    ensures Interleaving(run + [next], events + [(p, e)])
  {
  }

  const ROW := Some("c")

  function Said(content: string): seq<(string, string)> {
    [("user", content)]
  }

  function TurnOf(content: string): Turn {
    Turn("a", ROW, "user", content)
  }

  /** A recording that has its one row and has not committed. */
  lemma RowTaken(run: seq<System>, events: seq<(nat, Event)>, p: nat, content: string)
    returns (run': seq<System>, events': seq<(nat, Event)>)
    requires Interleaving(run, events) && TaskOf(run[|events|], p).Idle? && content != ""
    ensures Interleaving(run', events')
    ensures var sys := run[|events|]; var n := sys.tables.nextTurn;
            run'[|events'|] == Then(sys, p, sys.tables.(nextTurn := n + 1),
                                    Recording("a", ROW, Said(content), 1, map[n := TurnOf(content)]))
  {
    var sys := run[|events|];
    var n := sys.tables.nextTurn;
    var s := Then(sys, p, sys.tables, Recording("a", ROW, Said(content), 0, map[]));
    NextStep(run, events, p, Begin("a", ROW, Said(content)), s);
    run', events' := run + [s], events + [(p, Begin("a", ROW, Said(content)))];
    s := Then(sys, p, sys.tables.(nextTurn := n + 1),
              Recording("a", ROW, Said(content), 1, map[n := TurnOf(content)]));
    NextStep(run', events', p, InsertTurn, s);
    run', events' := run' + [s], events' + [(p, InsertTurn)];
  }

  lemma Commits(run: seq<System>, events: seq<(nat, Event)>, p: nat)
    returns (run': seq<System>, events': seq<(nat, Event)>)
    requires Interleaving(run, events)
    requires var r := TaskOf(run[|events|], p); r.Recording? && r.done == |r.said|
    ensures Interleaving(run', events')
    ensures var sys := run[|events|];
            run'[|events'|] == Then(sys, p, Committed(sys.tables, TaskOf(sys, p)), Idle)
  {
    var sys := run[|events|];
    var s := Then(sys, p, Committed(sys.tables, TaskOf(sys, p)), Idle);
    NextStep(run, events, p, CommitTurns, s);
    run', events' := run + [s], events + [(p, CommitTurns)];
  }

  function AskFor(t: Tables, ids: seq<nat>): Task
    requires Present(t.turns, ids)
  {
    Asking("a", "c", ids, Shown(t.turns, ids))
  }

  /** A summary that has read its turns. */
  lemma Asks(run: seq<System>, events: seq<(nat, Event)>, p: nat, ids: seq<nat>)
    returns (run': seq<System>, events': seq<(nat, Event)>)
    requires Interleaving(run, events) && TaskOf(run[|events|], p).Idle? && ids != []
    requires "c" in run[|events|].tables.conversations && Present(run[|events|].tables.turns, ids)
    requires var t := run[|events|].tables; Pending(t, "c", "a", t.conversations["c"].upto, t.nextTurn) == ids
    ensures Interleaving(run', events')
    ensures run'[|events'|] == Then(run[|events|], p, run[|events|].tables, AskFor(run[|events|].tables, ids))
  {
    var sys := run[|events|];
    var s := Then(sys, p, sys.tables, Reading("a", "c", sys.tables.conversations["c"].upto));
    NextStep(run, events, p, ReadState("a", "c"), s);
    run', events' := run + [s], events + [(p, ReadState("a", "c"))];
    s := Then(sys, p, sys.tables, AskFor(sys.tables, ids));
    NextStep(run', events', p, ReadPending(1), s);
    run', events' := run' + [s], events' + [(p, ReadPending(1))];
  }

  /** The summary is stored without facts. */
  lemma Stores(run: seq<System>, events: seq<(nat, Event)>, p: nat)
    returns (run': seq<System>, events': seq<(nat, Event)>)
    requires Interleaving(run, events) && TaskOf(run[|events|], p).Asking? && TaskOf(run[|events|], p).from == "c"
    requires TaskOf(run[|events|], p).ids != [] && "c" in run[|events|].tables.conversations
    ensures Interleaving(run', events') && |events'| == |events| + 1 && run'[|events|] == run[|events|]
    ensures var sys, sys', ids := run[|events|], run'[|events'|], TaskOf(run[|events|], p).ids;
            && sys'.tasks == sys.tasks[p := Idle] && Handed(sys'.log, "c") == Handed(sys.log, "c") + ids
            && sys'.tables == sys.tables.(conversations :=
                                sys.tables.conversations["c" := sys.tables.conversations["c"].(upto := ids[|ids| - 1])])
  {
    var sys, t := run[|events|], TaskOf(run[|events|], p);
    var e := StoreSummary(NoFacts(), x => x);
    assert Kept(x => x, []) == [];
    var call := Call(t.user, "c", t.ids, t.shown, NoFacts(), sys.tables.nextMemory, []);
    var s := System(Stored(sys.tables, t.user, "c", t.ids[|t.ids| - 1], []), sys.log + [call], sys.tasks[p := Idle]);
    NextStep(run, events, p, e, s);
    run', events' := run + [s], events + [(p, e)];
    assert s.log[..|sys.log|] == sys.log;
  }

  /** The tables with the given turns and conversation row. */
  function With(turns: map<nat, Turn>, row: Conversation, next: nat): Tables {
    Tables(turns, map["c" := row], map[], next, 1)
  }

  lemma CommitsTurn(t: Tables, content: string, id: nat)
    requires t.memories == map[] && t.nextMemory == 1
    requires t.conversations == map[] || (t.conversations.Keys == {"c"} && t.conversations["c"].user == "a")
    ensures var row := if "c" in t.conversations then t.conversations["c"] else Conversation("a", 0, 0);
            Committed(t, Recording("a", ROW, Said(content), 1, map[id := TurnOf(content)]))
            == With(t.turns[id := TurnOf(content)], row.(turnCount := row.turnCount + 1), t.nextTurn)
  {
  }

  lemma PendingAmong(t: Tables)
    requires 0 !in t.turns && 2 <= t.nextTurn <= 3
    ensures Pending(t, "c", "a", 0, t.nextTurn)
         == (if IsPending(t, "c", "a", 0, 1) then [1] else [])
            + (if t.nextTurn == 3 && IsPending(t, "c", "a", 0, 2) then [2] else [])
  {
    PendingStep(t, "c", "a", 0, 1);
    PendingStep(t, "c", "a", 0, 2);
    if t.nextTurn == 3 {
      PendingStep(t, "c", "a", 0, 3);
    }
  }

  /** A turn at or below the watermark that no call was handed. */
  predicate Lost(sys: System, c: string, id: nat) {
    InConversation(sys.tables, c, id) && id <= Watermark(sys.tables, c) && id !in Handed(sys.log, c)
  }

  ghost predicate OnlyUser(sys: System, user: string) {
    forall id :: id in sys.tables.turns ==> sys.tables.turns[id].user == user
  }

  function Taken(id: nat, content: string): Task {
    Recording("a", ROW, Said(content), 1, map[id := TurnOf(content)])
  }

  /** Two recordings have taken their rows, and the second has committed. */
  lemma SecondCommitted() returns (run: seq<System>, events: seq<(nat, Event)>)
    ensures Interleaving(run, events)
    ensures run[|events|] == System(With(map[2 := TurnOf("y")], Conversation("a", 1, 0), 3), [],
                                    map[1 := Taken(1, "x"), 2 := Idle])
  {
    run, events := [START], [];
    run, events := RowTaken(run, events, 1, "x");
    run, events := RowTaken(run, events, 2, "y");
    assert run[|events|] == System(EMPTY.(nextTurn := 3), [], map[1 := Taken(1, "x"), 2 := Taken(2, "y")]);
    CommitsTurn(run[|events|].tables, "y", 2);
    run, events := Commits(run, events, 2);
  }

  /** And the second turn is summarised. */
  lemma SecondFirst() returns (run: seq<System>, events: seq<(nat, Event)>)
    ensures Interleaving(run, events)
    ensures var sys := run[|events|];
            && sys.tables == With(map[2 := TurnOf("y")], Conversation("a", 1, 2), 3) && Handed(sys.log, "c") == [2]
            && TaskOf(sys, 1) == Taken(1, "x")
  {
    run, events := SecondCommitted();
    PendingAmong(run[|events|].tables);
    run, events := Asks(run, events, 3, [2]);
    run, events := Stores(run, events, 3);
  }

  /** One user alone: a recording that commits after a later one was summarised leaves a turn that was handed to no call
      and that the watermark has passed. */
  lemma CommitsCanBeLate()
    ensures exists run: seq<System>, events: seq<(nat, Event)> ::
              Interleaving(run, events) && OnlyUser(run[|events|], "a") && Lost(run[|events|], "c", 1)
  {
    var run, events := SecondFirst();
    CommitsTurn(run[|events|].tables, "x", 1);
    run, events := Commits(run, events, 1);
    assert OnlyUser(run[|events|], "a") && Lost(run[|events|], "c", 1);
  }

  /** A summary has read the first turn, and a second turn is recorded. */
  lemma FirstRead() returns (run: seq<System>, events: seq<(nat, Event)>)
    ensures Interleaving(run, events)
    ensures var sys := run[|events|];
            && sys.tables == With(map[1 := TurnOf("x")], Conversation("a", 1, 0), 2) && sys.log == []
            && Summarizes(sys, [1]) && TaskOf(sys, 1).Idle? && TaskOf(sys, 3).Idle?
  {
    run, events := [START], [];
    run, events := RowTaken(run, events, 1, "x");
    CommitsTurn(run[|events|].tables, "x", 1);
    run, events := Commits(run, events, 1);
    PendingAmong(run[|events|].tables);
    run, events := Asks(run, events, 2, [1]);
  }

  /** Request 2 has read these turns. */
  predicate Summarizes(sys: System, ids: seq<nat>) {
    TaskOf(sys, 2).Asking? && TaskOf(sys, 2).from == "c" && TaskOf(sys, 2).ids == ids
  }

  /** A second summary has read both turns and stored. */
  lemma TwoReaders() returns (run: seq<System>, events: seq<(nat, Event)>)
    ensures Interleaving(run, events)
    ensures var sys := run[|events|];
            && sys.tables == With(map[1 := TurnOf("x"), 2 := TurnOf("y")], Conversation("a", 2, 2), 3)
            && Handed(sys.log, "c") == [1, 2] && Summarizes(sys, [1])
  {
    run, events := FirstRead();
    run, events := RowTaken(run, events, 1, "y");
    CommitsTurn(run[|events|].tables, "y", 2);
    run, events := Commits(run, events, 1);
    PendingAmong(run[|events|].tables);
    run, events := Asks(run, events, 3, [1, 2]);
    run, events := Stores(run, events, 3);
  }

  /** One user alone: of two overlapping summaries the later one to store lowers the watermark, and the first turn has
      been handed out twice. */
  lemma SummariesMustWait()
    ensures exists run: seq<System>, events: seq<(nat, Event)> ::
              && Interleaving(run, events) && |events| > 0 && OnlyUser(run[|events|], "a")
              && Watermark(run[|events|].tables, "c") < Watermark(run[|events| - 1].tables, "c")
              && Handed(run[|events|].log, "c") == [1, 2, 1]
  {
    var run, events := TwoReaders();
    var before := run[|events|];
    run, events := Stores(run, events, 2);
    assert OnlyUser(run[|events|], "a");
    assert Watermark(run[|events|].tables, "c") == 1 && Handed(run[|events|].log, "c") == [1, 2, 1];
  }

  /** A turn that was handed out and is pending again. */
  predicate PendingAgain(sys: System, c: string, id: nat) {
    InConversation(sys.tables, c, id) && Watermark(sys.tables, c) < id && id in Handed(sys.log, c)
  }

  /** A deletion has found nothing yet to delete. */
  lemma FoundNothing() returns (run: seq<System>, events: seq<(nat, Event)>)
    ensures Interleaving(run, events)
    ensures run[|events|] == System(EMPTY, [], map[3 := Erasing("a", {}, Some({}))])
  {
    run, events := [START], [];
    var s := System(EMPTY, [], map[3 := Erasing("a", {}, None)]);
    assert MemoriesOf(EMPTY, "a") == {} && TurnsOf(EMPTY, "a") == {};
    NextStep(run, events, 3, FindMemories("a"), s);
    run, events := run + [s], events + [(3, FindMemories("a"))];
    s := System(EMPTY, [], map[3 := Erasing("a", {}, Some({}))]);
    NextStep(run, events, 3, FindTurns, s);
    run, events := run + [s], events + [(3, FindTurns)];
  }

  /** Meanwhile a turn is recorded and summarised. */
  lemma SummarizedMeanwhile() returns (run: seq<System>, events: seq<(nat, Event)>)
    ensures Interleaving(run, events)
    ensures var sys := run[|events|];
            && sys.tables == With(map[1 := TurnOf("x")], Conversation("a", 1, 1), 2) && Handed(sys.log, "c") == [1]
            && TaskOf(sys, 3) == Erasing("a", {}, Some({}))
  {
    run, events := FoundNothing();
    run, events := RowTaken(run, events, 1, "x");
    CommitsTurn(run[|events|].tables, "x", 1);
    run, events := Commits(run, events, 1);
    PendingAmong(run[|events|].tables);
    run, events := Asks(run, events, 2, [1]);
    run, events := Stores(run, events, 2);
  }

  /** One user alone: a deletion that found the turns before a turn was recorded takes the conversation row away and
      leaves the turn, which is then pending again though it was handed out. */
  lemma DeletionsMustWait()
    ensures exists run: seq<System>, events: seq<(nat, Event)> ::
              Interleaving(run, events) && OnlyUser(run[|events|], "a") && PendingAgain(run[|events|], "c", 1)
  {
    var run, events := SummarizedMeanwhile();
    var sys := run[|events|];
    var s := Then(sys, 3, Erased(sys.tables, "a", {}, {}), Idle);
    NextStep(run, events, 3, CommitErase, s);
    run, events := run + [s], events + [(3, CommitErase)];
    assert OnlyUser(s, "a") && PendingAgain(s, "c", 1);
  }
}
